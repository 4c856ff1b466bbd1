// What a knock and a membership change mean for one user, right after the
// handler and not only after the next Maintain.
module Memberships {
  import opened Net
  import opened Comments
  import opened NftChain
  import opened Reconcile
  import opened NftReconcile
  import opened Manager
  import opened Effects
  import opened Server
  import opened ServerRuns
  import opened MockBackend
  import D = Database

  // ---- a knock moves the user ----

  // A rule the deleting loop left is at the address and of an enabled group.
  lemma KeptIsFresh(c: Chain, user: string, ip: Source, enabled: PortMap, gone: set<int>, e: Entry)
    requires ValidName(user) && AllProper(c) && PassGone(c, user, ip, enabled, {}, gone)
    requires e in ManagedRules(c) && e.handle !in gone && GrantOf(c.prefix, e).user == user
    ensures GrantOf(c.prefix, e).ip == ip && GrantOf(c.prefix, e).group in enabled
  {
    var g := GrantOf(c.prefix, e);
    GrantInside(c.prefix, ManagedRules(c), e);
    ProperComment(c.prefix, e);
    ValidNameHasNoColon(user);
    ValidNameHasNoColon(g.group);
    UserFilterExact(c.prefix, user, user, g.group);
    assert e in UserRules(c, user);
    assert !StaleEntry(c.prefix, user, ip, enabled)(e);
    assert GroupOf(c.prefix, user, Listed(c.prefix, e)) == g.group;
  }

  lemma LeftForUser(c: Chain, user: string, ip: Source, enabled: PortMap, c2: Chain, adds: seq<Entry>, gone: set<int>,
                    missing: seq<Grant>, g: Grant)
    requires ValidName(user) && AllProper(c) && UserPass(c, user, c2, adds, gone) && PassGone(c, user, ip, enabled, {}, gone)
    requires GrantsOf(c.prefix, adds) == Wanted(missing)
    requires forall d :: d in missing ==> d.ip == ip && d.group in enabled
    requires g in Grants(c2) && g.user == user
    ensures g.ip == ip && g.group in enabled
  {
    var e := GrantStands(c.prefix, ManagedRules(c2), g);
    if e in adds {
      GrantInside(c.prefix, adds, e);
    } else {
      assert e in Without(c.rules, gone) && HandleNotIn(gone)(e);
      KeptIsFresh(c, user, ip, enabled, gone, e);
    }
  }

  lemma ReconcileMovesUser(c: Chain, user: string, ip: Source, enabled: PortMap, order: seq<string>, r: UserReport)
    requires Healthy(c) && AllProper(c) && ValidName(user) && Canonical(ip) && ProperMap(enabled)
    requires forall n :: n in order <==> n in enabled
    requires r == SpecReconcile(c, user, ip, enabled, order)
    ensures forall g :: g in Grants(r.chain) && g.user == user ==> g.ip == ip && g.group in enabled
  {
    hide Undisturbed, UserPass, PassGone, OneEach;
    ValidNameHasNoColon(user);
    var missing, adds, gone := ReconcileIsAUserPass(c, user, ip, enabled, order, r);
    assert r.failedAdds == {} by {
      assert forall d :: d in missing ==> Accepted(d);
    }
    assert Wanted(missing) - {} == Wanted(missing);
    forall g | g in Grants(r.chain) && g.user == user
      ensures g.ip == ip && g.group in enabled
    {
      LeftForUser(c, user, ip, enabled, r.chain, adds, gone, missing, g);
    }
  }

  // An accepted knock records the address and the time with the user it
  // authenticates, and nothing else.
  lemma KnockIsRecorded(cfg: Config, s: State, username: string, secret: string, origin: Origin, now: int,
                        groups: seq<D.Group>, order: seq<string>, s2: State)
    requires Inv(cfg, s) && Possible(cfg, s, Knock(username, secret, origin, now, groups, order))
    requires Authenticates(s.db, username, secret) && Allowlistable(ClientIP(origin))
    requires s2 == SpecKnock(s, username, secret, origin, now, groups, order)
    ensures s2.db.users.Keys == s.db.users.Keys && forall i :: i in s.db.users ==>
              s2.db.users[i] == if s.db.users[i].username != username then s.db.users[i]
                                else s.db.users[i].(ip := Some(ClientIP(origin)), lastKnock := Some(now / SECOND))
    ensures s2.db == s.db.(users := s2.db.users) && s2.lastCleanup == s.lastCleanup
  {
    hide D.ValidTables, SpecReconcile, ClientIP, RemoveEach, Healthy, AllProper, Grants, D.EnabledGroups,
         D.PortMapOf;
    D.FindUserFinds(s.db, username);
    ClientIPIsCanonical(origin);
    var id, ip, m := D.FindUser(s.db, username).value, ClientIP(origin), D.PortMapOf(groups);
    D.PortMapExact(s.db, id, groups);
    ReconcileEffect(s.fw, username, ip, m, order, SpecReconcile(s.fw, username, ip, m, order));
  }

  // Right after an accepted knock: the user's rules are at the new address only,
  // for enabled groups only, and every enabled group's rule is among them.
  lemma KnockMovesTheUser(cfg: Config, s: State, username: string, secret: string, origin: Origin, now: int,
                          groups: seq<D.Group>, order: seq<string>, s2: State)
    requires Inv(cfg, s) && Possible(cfg, s, Knock(username, secret, origin, now, groups, order))
    requires Authenticates(s.db, username, secret) && Allowlistable(ClientIP(origin))
    requires s2 == SpecKnock(s, username, secret, origin, now, groups, order)
    ensures forall g :: g in Grants(s2.fw) && g.user == username ==> g.ip == ClientIP(origin) && g.group in D.PortMapOf(groups)
    ensures D.DesiredLocal(s2.db) <= Grants(s2.fw)
    ensures forall g: Grant :: g.user != username ==> (g in Grants(s2.fw) <==> g in Grants(s.fw))
  {
    hide D.ValidTables, SpecReconcile, RemoveEach, ClientIP, AllProper, D.DesiredLocal, D.EnabledGroups,
         D.PortMapOf, GrantsAt;
    KnockKeeps(cfg, s, username, secret, origin, now, groups, order);
    D.FindUserFinds(s.db, username);
    ClientIPIsCanonical(origin);
    var id := D.FindUser(s.db, username).value;
    var ip, m := ClientIP(origin), D.PortMapOf(groups);
    D.PortMapExact(s.db, id, groups);
    var r := SpecReconcile(s.fw, username, ip, m, order);
    ReconcileEffect(s.fw, username, ip, m, order, r);
    ReconcileMovesUser(s.fw, username, ip, m, order, r);
    KnockOutcome(s, username, secret, origin, now, groups, order);
    var prior := s.db.users[id].ip;
    if prior.Some? {
      ValidNameHasNoColon(username);
      RemoveEachEffect(r.chain, GrantsAt(username, prior.value, groups));
    }
  }

  // ---- leaving a group closes it, if there is one copy of the rule ----

  lemma {:induction false} CopyIsGrant(prefix: string, entries: seq<Entry>, g: Grant)
    ensures g in ChainCopies(prefix, entries) <==> g in GrantsOf(prefix, entries)
  {
    if entries != [] {
      CopyIsGrant(prefix, entries[1..], g);
    }
  }

  // RemoveRule takes out one copy: the access ends exactly if there was no second.
  lemma RemovalClosesExactlyOneCopy(c: Chain, g: Grant)
    requires Healthy(c) && AllProper(c) && Proper(g)
    ensures g in Grants(SpecRemove(c, g).0) <==> ChainCopies(c.prefix, ManagedRules(c))[g] >= 2
  {
    ValidNameHasNoColon(g.user);
    SplitInvertsComment(c.prefix, g.user, g.group);
    ProperIsGrouped(c);
    RemoveEffect(c, g);
    ChainLosesOne(c, g);
    CopyIsGrant(c.prefix, ManagedRules(SpecRemove(c, g).0), g);
  }

  lemma LeavingClosesExactlyOneCopy(cfg: Config, s: State, k: D.Member)
    requires Inv(cfg, s) && Online(s.db, k)
    ensures MemberGrant(s.db, k) in Grants(SpecRemoveMembership(s, k).fw)
            <==> ChainCopies(s.fw.prefix, ManagedRules(s.fw))[MemberGrant(s.db, k)] >= 2
  {
    RemovalClosesExactlyOneCopy(s.fw, MemberGrant(s.db, k));
  }

  lemma ChainGainsOne(c: Chain, g: Grant)
    requires Healthy(c) && Proper(g) && ValidPort(g.port, g.proto)
    ensures ChainCopies(c.prefix, ManagedRules(SpecAdd(c, g).0)) == multiset{g} + ChainCopies(c.prefix, ManagedRules(c))
  {
    var e := AllowEntry(Tick(c), g);
    AddEffect(c, g);
    ValidNameHasNoColon(g.user);
    AddedGrant(Tick(c), g);
    assert ([e] + c.rules)[1..] == c.rules;
    CopiesMore(c.prefix, e, ManagedRules(c));
  }

  // Joining a group one is in already adds a second copy, which outlives leaving
  // it: the access lasts until the next Maintain.
  lemma JoiningAgainOutlivesLeaving(cfg: Config, s: State, k: D.Member)
    requires Inv(cfg, s) && D.Serves(s.db, k)
    ensures var again := SpecAddMembership(s, k, true);
            var left := SpecRemoveMembership(again, k);
            MemberGrant(s.db, k) in Grants(left.fw) && MemberGrant(s.db, k) !in D.DesiredLocal(left.db)
  {
    var g := MemberGrant(s.db, k);
    assert g == D.GrantAt(s.db, k) && g in D.DesiredLocal(s.db);
    CopyIsGrant(s.fw.prefix, ManagedRules(s.fw), g);
    ChainGainsOne(s.fw, g);
    AddMembershipKeeps(cfg, s, k, true);
    var again := SpecAddMembership(s, k, true);
    LeavingClosesExactlyOneCopy(cfg, again, k);
    OthersStayDesired(again.db, SpecRemoveMembership(again, k).db, k) by {
      D.LeaveKeepsValid(again.db, k);
    }
  }

  // And no longer than that.
  lemma MaintainEndsIt(cfg: Config, s: State, now: int, a: Answers, g: Grant)
    requires Startable(s) && Answered(cfg, s, now, a) && g !in D.DesiredLocal(SpecMaintain(cfg, s, now, a).db)
    ensures g !in Grants(SpecMaintain(cfg, s, now, a).fw)
  {
    MaintainExact(cfg, s, now, a);
  }
}
