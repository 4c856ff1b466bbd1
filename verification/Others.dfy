// The rules in the chain that are not nft-okboy's: no handler and no Maintain
// touches one.
module Others {
  import opened Net
  import opened Seqs
  import opened Comments
  import opened NftChain
  import opened Reconcile
  import opened NftReconcile
  import opened Manager
  import opened Effects
  import opened Server
  import opened ServerRuns
  import opened Handlers
  import D = Database

  // ---- rules of others ----

  // The chain's rules that are not nft-okboy's, in order.
  function Foreign(c: Chain): seq<Entry> {
    Keep(c.rules, IsForeign(c.prefix))
  }

  function IsForeign(prefix: string): Entry -> bool {
    (e: Entry) => !HasPrefix(e.comment, prefix + ":") && e.comment != prefix + "-guard"
  }

  lemma ForeignOfOthers(prefix: string, rules: seq<Entry>)
    ensures Keep(Keep(rules, NotManaged(prefix)), IsForeign(prefix)) == Keep(rules, IsForeign(prefix))
    ensures Keep(Keep(rules, NotGuard(prefix)), IsForeign(prefix)) == Keep(rules, IsForeign(prefix))
  {
    KeepBoth(rules, NotManaged(prefix), IsForeign(prefix), IsForeign(prefix));
    KeepBoth(rules, NotGuard(prefix), IsForeign(prefix), IsForeign(prefix));
  }

  lemma CutLeavesForeign(prefix: string, rules: seq<Entry>, gone: set<int>)
    requires forall e :: e in rules && e.handle in gone ==> !IsForeign(prefix)(e)
    ensures Keep(Without(rules, gone), IsForeign(prefix)) == Keep(rules, IsForeign(prefix))
  {
    KeepBoth(rules, HandleNotIn(gone), IsForeign(prefix), IsForeign(prefix));
  }

  lemma RemoveLeavesForeign(c: Chain, g: Grant)
    requires Healthy(c)
    ensures SpecRemove(c, g).0.prefix == c.prefix && Healthy(SpecRemove(c, g).0) && Foreign(SpecRemove(c, g).0) == Foreign(c)
  {
    hide FirstMatch, ListAll, OfUser, GrantOf;
    match FirstMatch(ListAll(c.prefix, Keep(c.rules, OfUser(c.prefix, g.user))), g.At(), CommentFor(c.prefix, g.user, g.group))
    case None =>
    case Some(h) =>
      hide Healthy;
      var e := PickedEntry(c, g, h);
      DeleteLeavesForeign(Tick(c), e);
  }

  lemma DeleteLeavesForeign(c: Chain, e: Entry)
    requires Healthy(c) && e in c.rules && IsManaged(c.prefix)(e)
    ensures var c2 := SpecDelete(c, Number(e.handle)).0;
            c2.prefix == c.prefix && Healthy(c2) && Foreign(c2) == Foreign(c)
  {
    DeleteOneEntry(c, e);
    forall x | x in c.rules && x.handle in {e.handle}
      ensures !IsForeign(c.prefix)(x)
    {
      SameHandleSameEntry(c.rules, x, e);
    }
    CutLeavesForeign(c.prefix, c.rules, {e.handle});
  }

  lemma {:induction false} RemoveEachLeavesForeign(c: Chain, grants: seq<Grant>)
    requires Healthy(c)
    ensures RemoveEach(c, grants).prefix == c.prefix && Healthy(RemoveEach(c, grants)) && Foreign(RemoveEach(c, grants)) == Foreign(c)
    decreases |grants|
  {
    hide Healthy, Foreign, SpecRemove;
    if grants != [] {
      RemoveEachLeavesForeign(c, grants[..|grants| - 1]);
      RemoveLeavesForeign(RemoveEach(c, grants[..|grants| - 1]), grants[|grants| - 1]);
    }
  }

  lemma AddLeavesForeign(c: Chain, g: Grant)
    ensures SpecAdd(c, g).0.prefix == c.prefix && Foreign(SpecAdd(c, g).0) == Foreign(c)
  {
    AddedGrant(Tick(c), g);
    assert ([AllowEntry(Tick(c), g)] + c.rules)[1..] == c.rules;
  }

  lemma SyncLeavesForeign(c: Chain, ports: seq<PortProto>)
    requires Healthy(c)
    ensures SpecSyncGuard(c, ports).0.prefix == c.prefix && Foreign(SpecSyncGuard(c, ports).0) == Foreign(c)
  {
    hide GuardIs;
    SyncKeepsValid(c, ports);
    SyncGuardLaysOut(c, ports);
    ForeignOfOthers(c.prefix, c.rules);
    ForeignOfOthers(c.prefix, SpecSyncGuard(c, ports).0.rules);
  }

  lemma RemoveUserLeavesForeign(c: Chain, user: string)
    requires Healthy(c)
    ensures SpecRemoveUser(c, user).0.prefix == c.prefix && Foreign(SpecRemoveUser(c, user).0) == Foreign(c)
  {
    var failed := RemoveUserRulesExact(c, user);
    KeepBoth(c.rules, NotOwned(c.prefix, user), IsForeign(c.prefix), IsForeign(c.prefix));
  }

  lemma ReconcileLeavesForeign(c: Chain, user: string, ip: Source, enabled: PortMap, order: seq<string>)
    requires ValidChain(c) && ':' !in user && ip == ListedForm(ip)
    requires forall n :: n in order ==> n in enabled && n != ""
    ensures var c2 := SpecReconcile(c, user, ip, enabled, order).chain;
            c2.prefix == c.prefix && Foreign(c2) == Foreign(c)
  {
    var c2 := SpecReconcile(c, user, ip, enabled, order).chain;
    OtherUsersUntouched(c, user, ip, enabled, order);
    ReconcileKeepsPrefix(c, user, ip, enabled, order);
    ForeignOfNotUser(c.prefix, user, c.rules);
    ForeignOfNotUser(c.prefix, user, c2.rules);
  }

  lemma ForeignOfNotUser(prefix: string, user: string, rules: seq<Entry>)
    requires ':' !in user
    ensures Keep(Keep(rules, NotOfUser(prefix, user)), IsForeign(prefix)) == Keep(rules, IsForeign(prefix))
  {
    forall e | e in rules
      ensures IsForeign(prefix)(e) == (NotOfUser(prefix, user)(e) && IsForeign(prefix)(e))
    {
      if HasPrefix(e.comment, UserPrefix(prefix, user)) {
        UserPrefixNamesOwner(prefix, user, e.comment);
      }
    }
    KeepBoth(rules, NotOfUser(prefix, user), IsForeign(prefix), IsForeign(prefix));
  }

  lemma {:induction false} CleanLeavesForeign(s: Cleaning, ids: seq<nat>, groups: map<nat, seq<D.Group>>, maxAge: int, now: int)
    requires Healthy(s.fw) && forall id :: id in ids ==> id in groups
    ensures var r := Clean(s, ids, groups, maxAge, now);
            r.fw.prefix == s.fw.prefix && Healthy(r.fw) && Foreign(r.fw) == Foreign(s.fw)
    decreases |ids|
  {
    hide Healthy, Foreign, RemoveEach;
    if ids != [] {
      var front, id := ids[..|ids| - 1], ids[|ids| - 1];
      CleanLeavesForeign(s, front, groups, maxAge, now);
      var mid := Clean(s, front, groups, maxAge, now);
      if id in mid.db.users && D.Recorded(mid.db.users[id]) {
        RemoveEachLeavesForeign(mid.fw, GrantsAt(mid.db.users[id].username, mid.db.users[id].ip.value, groups[id]));
      }
    }
  }

  // Whatever it repairs, Maintain leaves the rules of others alone, all of them.
  lemma MaintainLeavesForeign(cfg: Config, s: State, now: int, a: Answers, s2: State)
    requires Startable(s) && Answered(cfg, s, now, a) && s2 == SpecMaintain(cfg, s, now, a)
    ensures s2.fw.prefix == s.fw.prefix && Foreign(s2.fw) == Foreign(s.fw)
  {
    var base := SpecEnsureBase(s.fw).0;
    assert Healthy(base) && Foreign(base) == Foreign(s.fw);
    hide Healthy, Foreign, SpecReconcileAll, SpecSyncGuard, Clean, D.DesiredLocal, D.EnabledGroups,
         D.ValidTables;
    CleanLeavesForeign(Cleaning(s.db, base), a.ids, a.groups, cfg.cleanupDays * DAY, now / SECOND);
    CleanupKeeps(cfg, s.(fw := base), now, a);
    var cleaned := Cleaned(cfg, s.(fw := base), now, a);
    var r := SpecReconcileAll(Nft(cleaned.fw), a.desired);
    DesiredIsAcceptable(cleaned.db, a.desired);
    PassLeavesForeign(cleaned.fw, a.desired, r);
    SyncLeavesForeign(r.host.chain, a.ports);
  }

  lemma PassLeavesForeign(c: Chain, desired: seq<Grant>, r: Report)
    requires Healthy(c) && AllListBack(desired) && AllAccepted(desired) && r == SpecReconcileAll(Nft(c), desired)
    ensures r.host.Nft? && Healthy(r.host.chain) && r.host.chain.prefix == c.prefix && Foreign(r.host.chain) == Foreign(c)
  {
    ReconcileUnderFaults(c, desired, r);
    ReconcileExact(c, desired, r);
    hide SpecReconcileAll, Healthy;
    ForeignOfOthers(c.prefix, c.rules);
    ForeignOfOthers(c.prefix, r.host.chain.rules);
  }

  // So does every handler.
  lemma StepLeavesForeign(cfg: Config, s: State, step: Step)
    requires Inv(cfg, s) && Possible(cfg, s, step)
    ensures Foreign(Next(cfg, s, step).fw) == Foreign(s.fw) && Next(cfg, s, step).fw.prefix == s.fw.prefix
  {
    hide Foreign, Healthy, SpecKnock, SpecMaintain, SpecSetMembership, SpecReconcile, SpecRemove,
         SpecAdd, SpecRemoveUser, SpecSyncGuard, RemoveEach, D.DesiredLocal, Grants, AllProper,
         D.ValidTables, MembersOf;
    match step
    case Knock(username, secret, origin, now, groups, order) => KnockLeavesForeign(cfg, s, username, secret, origin, now, groups, order);
    case SetMembership(k, enabled, groups, order) => SetMembershipLeavesForeign(cfg, s, k, enabled, groups, order);
    case AddMembership(k, enabled) =>
      if Online(s.db, k) {
        AddLeavesForeign(s.fw, MemberGrant(s.db, k));
      }
    case RemoveMembership(k) =>
      if Online(s.db, k) {
        RemoveLeavesForeign(s.fw, MemberGrant(s.db, k));
      }
    case Revoke(id, _) =>
      if id in s.db.users {
        RemoveUserLeavesForeign(s.fw, s.db.users[id].username);
      }
    case DeleteUser(id) =>
      if id in s.db.users {
        RemoveUserLeavesForeign(s.fw, s.db.users[id].username);
      }
    case SyncGuardNow(ports) => SyncLeavesForeign(s.fw, ports);
    case DeleteGroup(id, members, ports) =>
      RemoveEachLeavesForeign(s.fw, OnlineGrants(s.db, members));
      SyncLeavesForeign(RemoveEach(s.fw, OnlineGrants(s.db, members)), ports);
    case Maintain(now, a) => MaintainOfInvLeavesForeign(cfg, s, now, a);
    case _ =>
  }

  lemma MaintainOfInvLeavesForeign(cfg: Config, s: State, now: int, a: Answers)
    requires Inv(cfg, s) && Answered(cfg, s, now, a)
    ensures SpecMaintain(cfg, s, now, a).fw.prefix == s.fw.prefix && Foreign(SpecMaintain(cfg, s, now, a).fw) == Foreign(s.fw)
  {
    MaintainLeavesForeign(cfg, s, now, a, SpecMaintain(cfg, s, now, a));
  }

  lemma KnockLeavesForeign(cfg: Config, s: State, username: string, secret: string, origin: Origin, now: int,
                           groups: seq<D.Group>, order: seq<string>)
    requires Inv(cfg, s) && Possible(cfg, s, Knock(username, secret, origin, now, groups, order))
    ensures var s2 := SpecKnock(s, username, secret, origin, now, groups, order);
            Foreign(s2.fw) == Foreign(s.fw) && s2.fw.prefix == s.fw.prefix
  {
    hide Foreign, RemoveEach, SpecReconcile, D.PortMapOf, D.EnabledGroups, D.DesiredLocal, Grants,
         AllProper, ClientIP, D.ValidTables, Healthy;
    var ip := ClientIP(origin);
    if Authenticates(s.db, username, secret) && Allowlistable(ip) {
      D.FindUserFinds(s.db, username);
      ClientIPIsCanonical(origin);
      var id := D.FindUser(s.db, username).value;
      MoveLeavesForeign(s.fw, s.db, id, ip, groups, order, s.db.users[id].ip);
    }
  }

  lemma MoveLeavesForeign(c: Chain, t: D.Tables, id: nat, ip: Source, groups: seq<D.Group>, order: seq<string>, prior: Option<Source>)
    requires Healthy(c) && AllProper(c) && D.ValidTables(t) && id in t.users && Canonical(ip)
    requires AllNames(groups, order) && D.Lists(groups, D.EnabledGroups(t, id))
    ensures var c1 := SpecReconcile(c, t.users[id].username, ip, D.PortMapOf(groups), order).chain;
            c1.prefix == c.prefix && Foreign(c1) == Foreign(c) &&
            (prior.Some? ==>
               var c2 := RemoveEach(c1, GrantsAt(t.users[id].username, prior.value, groups));
               c2.prefix == c.prefix && Foreign(c2) == Foreign(c))
  {
    hide Foreign, SpecReconcile, RemoveEach, D.EnabledGroups, Grants, D.PortMapOf;
    var u := t.users[id].username;
    assert D.ValidUser(t.users[id]);
    ValidNameHasNoColon(u);
    D.PortMapExact(t, id, groups);
    NamesAreProper(t, id, groups, order);
    hide D.ValidTables;
    ReconcileLeavesForeign(c, u, ip, D.PortMapOf(groups), order);
    ReconcileEffect(c, u, ip, D.PortMapOf(groups), order, SpecReconcile(c, u, ip, D.PortMapOf(groups), order));
    if prior.Some? {
      RemoveEachLeavesForeign(SpecReconcile(c, u, ip, D.PortMapOf(groups), order).chain, GrantsAt(u, prior.value, groups));
    }
  }

  lemma SetMembershipLeavesForeign(cfg: Config, s: State, k: D.Member, enabled: bool, groups: seq<D.Group>, order: seq<string>)
    requires Inv(cfg, s) && Possible(cfg, s, SetMembership(k, enabled, groups, order))
    ensures var s2 := SpecSetMembership(s, k, enabled, groups, order);
            Foreign(s2.fw) == Foreign(s.fw) && s2.fw.prefix == s.fw.prefix
  {
    hide Foreign, SpecRemove, SpecReconcile, D.PortMapOf, D.EnabledGroups, D.DesiredLocal, Grants,
         AllProper, D.ValidTables, Healthy;
    var db := D.Enable(s.db, k, enabled);
    D.EnableKeepsValid(s.db, k, enabled);
    if Online(db, k) {
      ProperMember(db, k);
      RemoveLeavesForeign(s.fw, MemberGrant(db, k));
      MoveLeavesForeign(s.fw, db, k.user, db.users[k.user].ip.value, groups, order, None);
    }
  }
}
