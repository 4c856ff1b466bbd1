// What failures and other hands do to the server's state, and what one Maintain
// makes of it: nft commands failing anywhere in the handlers, the table flushed or
// edited, the tables written from the command line.
module SelfRepair {
  import opened Net
  import opened Seqs
  import opened Comments
  import opened NftChain
  import opened Reconcile
  import opened NftReconcile
  import opened Manager
  import opened Server
  import opened ServerRuns
  import D = Database

  // Sound tables, and a chain nft can hold; nothing about what either says.
  ghost predicate Sound(s: State) {
    D.ValidTables(s.db) && ValidChain(s.fw)
  }

  // ---- every operation, whatever fails in it ----

  lemma RemoveStaysValid(c: Chain, g: Grant)
    requires ValidChain(c)
    ensures ValidChain(SpecRemove(c, g).0)
  {
    match FirstMatch(ListAll(c.prefix, Keep(c.rules, OfUser(c.prefix, g.user))), g.At(), CommentFor(c.prefix, g.user, g.group))
    case None =>
    case Some(h) => DeleteKeepsValid(Tick(c), h);
  }

  lemma {:induction false} RemoveEachStaysValid(c: Chain, grants: seq<Grant>)
    requires ValidChain(c)
    ensures ValidChain(RemoveEach(c, grants))
    decreases |grants|
  {
    if grants != [] {
      RemoveEachStaysValid(c, grants[..|grants| - 1]);
      RemoveStaysValid(RemoveEach(c, grants[..|grants| - 1]), grants[|grants| - 1]);
    }
  }

  lemma RemoveUserStaysValid(c: Chain, user: string)
    requires ValidChain(c)
    ensures ValidChain(SpecRemoveUser(c, user).0)
  {
    if !NextFails(c.faults) {
      var failed := RemoveUserRulesExact(c, user);
    }
  }

  lemma ReconcileStaysValid(c: Chain, t: D.Tables, id: nat, ip: Source, groups: seq<D.Group>, order: seq<string>)
    requires ValidChain(c) && D.ValidTables(t) && id in t.users && Canonical(ip)
    requires AllNames(groups, order) && D.Lists(groups, D.EnabledGroups(t, id))
    ensures ValidChain(SpecReconcile(c, t.users[id].username, ip, D.PortMapOf(groups), order).chain)
  {
    D.PortMapExact(t, id, groups);
    forall n | n in order
      ensures n in D.PortMapOf(groups) && n != ""
    {
      var g :| g in D.EnabledGroups(t, id) && g.name == n;
      assert D.ValidGroup(g);
    }
    ValidNameHasNoColon(t.users[id].username);
    OtherUsersUntouched(c, t.users[id].username, ip, D.PortMapOf(groups), order);
  }

  // ---- every step, whatever fails in it ----

  lemma KnockStaysSound(s: State, knock: Step, s2: State)
    requires Sound(s) && knock.Knock? && AllNames(knock.groups, knock.order)
    requires var id := D.FindUser(s.db, knock.username);
             id.Some? ==> D.Lists(knock.groups, D.EnabledGroups(s.db, id.value))
    requires s2 == SpecKnock(s, knock.username, knock.secret, knock.origin, knock.now, knock.groups, knock.order)
    ensures Sound(s2)
  {
    hide D.ValidTables, ValidChain, SpecReconcile, RemoveEach, D.EnabledGroups;
    var ip := ClientIP(knock.origin);
    if Authenticates(s.db, knock.username, knock.secret) && Allowlistable(ip) {
      D.FindUserFinds(s.db, knock.username);
      ClientIPIsCanonical(knock.origin);
      var id := D.FindUser(s.db, knock.username).value;
      ReconcileStaysValid(s.fw, s.db, id, ip, knock.groups, knock.order);
      D.RecordKeepsValid(s.db, id, ip, knock.now / SECOND);
      var c := SpecReconcile(s.fw, knock.username, ip, D.PortMapOf(knock.groups), knock.order).chain;
      var prior := s.db.users[id].ip;
      if prior.Some? {
        RemoveEachStaysValid(c, GrantsAt(knock.username, prior.value, knock.groups));
      }
    }
  }

  lemma SetMembershipStaysSound(s: State, k: D.Member, enabled: bool, groups: seq<D.Group>, order: seq<string>)
    requires Sound(s) && AllNames(groups, order) && D.Lists(groups, D.EnabledGroups(D.Enable(s.db, k, enabled), k.user))
    ensures Sound(SpecSetMembership(s, k, enabled, groups, order))
  {
    var db := D.Enable(s.db, k, enabled);
    D.EnableKeepsValid(s.db, k, enabled);
    if Online(db, k) {
      assert D.ValidUser(db.users[k.user]);
      hide D.ValidTables, ValidChain, SpecReconcile, SpecRemove, D.EnabledGroups, D.Enable;
      ReconcileStaysValid(s.fw, db, k.user, db.users[k.user].ip.value, groups, order);
      RemoveStaysValid(s.fw, MemberGrant(db, k));
    }
  }

  lemma MemberStepStaysSound(s: State, k: D.Member, enabled: bool)
    requires Sound(s)
    ensures Sound(SpecAddMembership(s, k, enabled)) && Sound(SpecRemoveMembership(s, k))
  {
    hide D.ValidTables, ValidChain, SpecAdd, SpecRemove;
    D.JoinKeepsValid(s.db, k, enabled);
    D.LeaveKeepsValid(s.db, k);
    if Online(s.db, k) {
      AddKeepsValid(s.fw, MemberGrant(s.db, k));
      RemoveStaysValid(s.fw, MemberGrant(s.db, k));
    }
  }

  lemma RevokeStaysSound(s: State, id: nat, rotate: Option<string>)
    requires Sound(s)
    ensures Sound(SpecRevoke(s, id, rotate))
  {
    hide D.ValidTables, ValidChain, SpecRemoveUser;
    if id in s.db.users {
      RemoveUserStaysValid(s.fw, s.db.users[id].username);
      D.UserWritesKeepValid(s.db, id, "", false);
      D.UserWritesKeepValid(D.Clear(s.db, id), id, if rotate.Some? then rotate.value else "", false);
    }
  }

  lemma UserStepStaysSound(s: State, id: nat, name: string, secret: string, isAdmin: bool)
    requires Sound(s)
    ensures Sound(SpecDeleteUser(s, id)) && Sound(SpecCreateUser(s, name, secret, isAdmin))
    ensures Sound(s.(db := D.SetAdmin(s.db, id, isAdmin)))
  {
    hide D.ValidTables, ValidChain, SpecRemoveUser;
    D.DropsKeepValid(s.db, id);
    D.UserWritesKeepValid(s.db, id, secret, isAdmin);
    if id in s.db.users {
      RemoveUserStaysValid(s.fw, s.db.users[id].username);
    }
    if ValidName(name) {
      D.CreateKeepsValid(s.db, name, secret, isAdmin);
    }
  }

  lemma GroupStepStaysSound(cfg: Config, s: State, g: D.Group, id: nat, members: seq<D.Member>, ports: seq<PortProto>)
    requires Sound(s)
    ensures Sound(SpecInsertGroup(cfg, s, g)) && Sound(SpecSyncGuardNow(s, ports)) && Sound(SpecDeleteGroup(s, id, members, ports))
  {
    hide D.ValidTables, ValidChain, SpecSyncGuard, RemoveEach;
    if MayCreate(cfg, g) {
      D.AddGroupKeepsValid(s.db, g);
    }
    D.DropsKeepValid(s.db, id);
    SyncKeepsValid(s.fw, ports);
    RemoveEachStaysValid(s.fw, OnlineGrants(s.db, members));
    SyncKeepsValid(RemoveEach(s.fw, OnlineGrants(s.db, members)), ports);
  }

  lemma CleanOneStaysSound(s: Cleaning, id: nat, groups: seq<D.Group>, maxAge: int, now: int)
    requires D.ValidTables(s.db) && ValidChain(s.fw)
    ensures var r := CleanOne(s, id, groups, maxAge, now);
            D.ValidTables(r.db) && ValidChain(r.fw)
  {
    hide D.ValidTables, ValidChain, RemoveEach;
    D.UserWritesKeepValid(s.db, id, "", false);
    if id in s.db.users && D.Recorded(s.db.users[id]) {
      RemoveEachStaysValid(s.fw, GrantsAt(s.db.users[id].username, s.db.users[id].ip.value, groups));
    }
  }

  lemma {:induction false} CleanStaysSound(s: Cleaning, ids: seq<nat>, groups: map<nat, seq<D.Group>>, maxAge: int, now: int)
    requires D.ValidTables(s.db) && ValidChain(s.fw) && forall id :: id in ids ==> id in groups
    ensures var r := Clean(s, ids, groups, maxAge, now);
            D.ValidTables(r.db) && ValidChain(r.fw)
    decreases |ids|
  {
    hide D.ValidTables, ValidChain;
    if ids != [] {
      var front, id := ids[..|ids| - 1], ids[|ids| - 1];
      CleanStaysSound(s, front, groups, maxAge, now);
      CleanOneStaysSound(Clean(s, front, groups, maxAge, now), id, groups[id], maxAge, now);
    }
  }

  lemma MaintainStaysSound(cfg: Config, s: State, now: int, a: Answers)
    requires Sound(s) && Answered(cfg, s, now, a)
    ensures Sound(SpecMaintain(cfg, s, now, a))
  {
    var (base, ok) := SpecEnsureBase(s.fw);
    assert ValidChain(base);
    hide D.ValidTables, ValidChain, SpecReconcileAll, SpecSyncGuard, Clean;
    if ok {
      var s1 := s.(fw := base);
      if Due(cfg, s1, now) {
        CleanStaysSound(Cleaning(s.db, base), a.ids, a.groups, cfg.cleanupDays * DAY, now / SECOND);
      }
      var cleaned := Cleaned(cfg, s1, now, a);
      var r := SpecReconcileAll(Nft(cleaned.fw), a.desired);
      DesiredIsAcceptable(cleaned.db, a.desired);
      ReconcileUnderFaults(cleaned.fw, a.desired, r);
      SyncKeepsValid(r.host.chain, a.ports);
    }
  }

  lemma StepStaysSound(cfg: Config, s: State, step: Step)
    requires Sound(s) && Possible(cfg, s, step)
    ensures Sound(Next(cfg, s, step))
  {
    hide Sound, SpecKnock, SpecMaintain, SpecSetMembership, SpecDeleteGroup, SpecInsertGroup, SpecRevoke,
         SpecDeleteUser;
    match step
    case Knock(_, _, _, _, _, _) => KnockStaysSound(s, step, Next(cfg, s, step));
    case SetMembership(k, enabled, groups, order) => SetMembershipStaysSound(s, k, enabled, groups, order);
    case AddMembership(k, enabled) => MemberStepStaysSound(s, k, enabled);
    case RemoveMembership(k) => MemberStepStaysSound(s, k, true);
    case Revoke(id, rotate) => RevokeStaysSound(s, id, rotate);
    case DeleteUser(id) => UserStepStaysSound(s, id, "", "", false);
    case CreateUser(name, secret, isAdmin) => UserStepStaysSound(s, 0, name, secret, isAdmin);
    case SetAdmin(id, isAdmin) => UserStepStaysSound(s, id, "", "", isAdmin);
    case InsertGroup(g) => GroupStepStaysSound(cfg, s, g, 0, [], []);
    case SyncGuardNow(ports) => GroupStepStaysSound(cfg, s, D.Group("", 0, Tcp), 0, [], ports);
    case DeleteGroup(id, members, ports) => GroupStepStaysSound(cfg, s, D.Group("", 0, Tcp), id, members, ports);
    case Maintain(now, a) => MaintainStaysSound(cfg, s, now, a);
  }

  // ---- runs with failures and other hands ----

  datatype Event =
    | Ran(step: Step)         // a handler or a Maintain, any of its commands failing
    | Edited(fw: Chain)       // the table flushed, restored or edited by anyone
    | Written(db: D.Tables)   // the tables written by another process

  ghost predicate Can(cfg: Config, s: State, e: Event) {
    match e
    case Ran(step) => Possible(cfg, s, step)
    case Edited(fw) => ValidChain(fw)
    case Written(db) => D.ValidTables(db)
  }

  ghost function Then(cfg: Config, s: State, e: Event): State
    requires Can(cfg, s, e)
  {
    match e
    case Ran(step) => Next(cfg, s, step)
    case Edited(fw) => s.(fw := fw)
    case Written(db) => s.(db := db)
  }

  ghost predicate Story(cfg: Config, s: State, events: seq<Event>)
    decreases |events|
  {
    events == [] || (Can(cfg, s, events[0]) && Story(cfg, Then(cfg, s, events[0]), events[1..]))
  }

  ghost function End(cfg: Config, s: State, events: seq<Event>): State
    requires Story(cfg, s, events)
    decreases |events|
  {
    if events == [] then s else End(cfg, Then(cfg, s, events[0]), events[1..])
  }

  lemma {:induction false} StoryStaysSound(cfg: Config, s: State, events: seq<Event>)
    requires Sound(s) && Story(cfg, s, events)
    ensures Sound(End(cfg, s, events))
    decreases |events|
  {
    hide Possible, Next, D.ValidTables, ValidChain;
    if events != [] {
      if events[0].Ran? {
        StepStaysSound(cfg, s, events[0].step);
      }
      StoryStaysSound(cfg, Then(cfg, s, events[0]), events[1..]);
    }
  }

  // However the state came about, one Maintain without failures puts everything
  // right: one managed rule for each desired grant and no other, and the guard on
  // all groups' ports; and from there every run without failures is served.
  lemma OneMaintainRepairs(cfg: Config, s: State, events: seq<Event>, here: State, now: int, a: Answers, done: State)
    requires Sound(s) && Story(cfg, s, events) && here == End(cfg, s, events)
    requires FailureFree(here.fw.faults) && Answered(cfg, here, now, a) && done == SpecMaintain(cfg, here, now, a)
    ensures Holds(done.fw, D.DesiredLocal(done.db)) && GuardRight(cfg, done) && Inv(cfg, done)
  {
    StoryStaysSound(cfg, s, events);
    MaintainExact(cfg, here, now, a);
  }
}
