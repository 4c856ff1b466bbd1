// The server's handlers as they run (internal/server), each proved to be one step
// of ServerRuns.
module ServerProgram {
  import opened Net
  import opened Comments
  import opened NftChain
  import opened Reconcile
  import opened Manager
  import opened S = Server
  import opened ServerRuns
  import D = Database

  lemma SomeRows<T>(answer: set<T>) returns (rows: seq<T>)
    ensures D.ListsOnce(rows, answer)
  {
    rows := [];
    var todo := answer;
    while todo != {}
      invariant todo <= answer
      invariant D.Once(rows) && forall x :: x in rows ==> x in answer && x !in todo
      invariant forall x :: x in answer && x !in todo ==> x in rows
    {
      var x :| x in todo;
      rows := rows + [x];
      todo := todo - {x};
    }
  }

  class Server {
    const cfg: Config
    const fw: Manager
    const db: D.Db
    var lastCleanup: Option<int>

    ghost predicate Valid()
      reads this, fw.be, db
    {
      fw.be.Valid() && db.Valid()
    }

    ghost function Now(): State
      reads this, fw.be, db
    {
      State(db.t, fw.be.kernel, lastCleanup)
    }

    constructor (cfg: Config, fw: Manager, db: D.Db)
      requires fw.be.Valid() && db.Valid()
      ensures Valid() && this.cfg == cfg && this.fw == fw && this.db == db && lastCleanup == None
    {
      this.cfg, this.fw, this.db := cfg, fw, db;
      this.lastCleanup := None;
    }

    // RemoveRule for each grant.
    method RemoveAll(grants: seq<Grant>) returns (warned: bool)
      requires Valid()
      modifies fw.be
      ensures Valid() && fw.be.kernel == RemoveEach(old(fw.be.kernel), grants)
    {
      warned := false;
      for i := 0 to |grants|
        invariant Valid() && fw.be.kernel == RemoveEach(old(fw.be.kernel), grants[..i])
      {
        assert grants[..i + 1][..i] == grants[..i];
        var ok := fw.be.RemoveRule(grants[i]);
        warned := warned || !ok;
      }
      assert grants[..|grants|] == grants;
    }

    method PortMap(groups: seq<D.Group>) returns (m: map<string, PortProto>)
      ensures m == D.PortMapOf(groups)
    {
      m := map[];
      for i := 0 to |groups|
        invariant m == D.PortMapOf(groups[..i])
      {
        assert groups[..i + 1][..i] == groups[..i];
        m := m[groups[i].name := D.PortOf(groups[i])];
      }
      assert groups[..|groups|] == groups;
    }

    // knock: authenticate, check the address, reconcile first, then claim the
    // address, then drop what is left at the one it replaced.
    method Knock(username: string, secret: string, origin: Origin, now: int) returns (ghost step: Step)
      requires Valid()
      modifies fw.be, db
      ensures Valid()
      ensures step.Knock? && step == Step.Knock(username, secret, origin, now, step.groups, step.order)
      ensures Possible(cfg, old(Now()), step) && Now() == Next(cfg, old(Now()), step)
    {
      hide D.ValidTables, ValidChain, D.PortMapOf, SpecReconcile, ClientIP, RemoveEach;
      var id := db.GetUserByUsername(username);
      if id == None {
        return Step.Knock(username, secret, origin, now, [], []);
      }
      var groups := db.GetUserGroups(id.value);
      var m := PortMap(groups);
      var ip := ClientIP(origin);
      if db.t.users[id.value].secret != secret || !Allowlistable(ip) {
        ghost var order := EnumerateKeys(m);
        return Step.Knock(username, secret, origin, now, groups, order);
      }
      ClientIPIsCanonical(origin);
      var added, removed, failed;
      ghost var order;
      added, removed, failed, order := fw.Reconcile(username, ip, m);
      step := Step.Knock(username, secret, origin, now, groups, order);
      if failed {
        return;
      }
      var prior := db.RecordIPChange(id.value, ip, now / SECOND);
      if prior == Some(ip) {
        return;
      }
      if prior.Some? {
        var warned := RemoveAll(GrantsAt(username, prior.value, groups));
      }
    }

    method SetMembership(k: D.Member, enabled: bool) returns (ghost step: Step)
      requires Valid()
      modifies fw.be, db
      ensures Valid()
      ensures step.SetMembership? && step == Step.SetMembership(k, enabled, step.groups, step.order)
      ensures Possible(cfg, old(Now()), step) && Now() == Next(cfg, old(Now()), step)
    {
      hide D.ValidTables, ValidChain, SpecReconcile, SpecRemove;
      db.SetMembershipEnabled(k, enabled);
      var groups := db.GetUserGroups(k.user);
      var m := PortMap(groups);
      ghost var order := EnumerateKeys(m);
      step := Step.SetMembership(k, enabled, groups, order);
      if k.user !in db.t.users || k.group !in db.t.groups || !D.Recorded(db.t.users[k.user]) {
        return;
      }
      if !enabled {
        var ok := fw.be.RemoveRule(MemberGrant(db.t, k));
        return;
      }
      var added, removed, failed;
      var u := db.t.users[k.user];
      added, removed, failed, order := fw.Reconcile(u.username, u.ip.value, m);
      step := Step.SetMembership(k, enabled, groups, order);
    }

    method AddMembership(k: D.Member, enabled: bool)
      requires Valid()
      modifies fw.be, db
      ensures Valid() && Now() == Next(cfg, old(Now()), Step.AddMembership(k, enabled))
    {
      if k.user !in db.t.users || k.group !in db.t.groups {
        return;
      }
      var target, group := db.t.users[k.user], db.t.groups[k.group];
      db.AddMembership(k, enabled);
      if D.Recorded(target) && enabled {
        var outcome := fw.be.AddRule(WantedFor(target.username, target.ip.value, group.name, D.PortOf(group)));
      }
    }

    method RemoveMembership(k: D.Member)
      requires Valid()
      modifies fw.be, db
      ensures Valid() && Now() == Next(cfg, old(Now()), Step.RemoveMembership(k))
    {
      if k.user !in db.t.users || k.group !in db.t.groups {
        return;
      }
      var target, group := db.t.users[k.user], db.t.groups[k.group];
      db.RemoveMembership(k);
      if D.Recorded(target) {
        var ok := fw.be.RemoveRule(WantedFor(target.username, target.ip.value, group.name, D.PortOf(group)));
      }
    }

    method RevokeUser(id: nat, rotate: Option<string>)
      requires Valid()
      modifies fw.be, db
      ensures Valid() && Now() == Next(cfg, old(Now()), Step.Revoke(id, rotate))
    {
      if id !in db.t.users {
        return;
      }
      var ok := fw.RemoveUserRules(db.t.users[id].username);
      db.ClearUserState(id);
      if rotate.Some? {
        db.RotateSecret(id, rotate.value);
      }
    }

    method DeleteUser(id: nat)
      requires Valid()
      modifies fw.be, db
      ensures Valid() && Now() == Next(cfg, old(Now()), Step.DeleteUser(id))
    {
      if id !in db.t.users {
        return;
      }
      var ok := fw.RemoveUserRules(db.t.users[id].username);
      db.DeleteUser(id);
    }

    method CreateUser(name: string, secret: string, isAdmin: bool) returns (created: bool)
      requires Valid()
      modifies db
      ensures Valid() && Now() == Next(cfg, old(Now()), Step.CreateUser(name, secret, isAdmin))
    {
      if !ValidName(name) {
        return false;
      }
      created := db.CreateUser(name, secret, isAdmin);
    }

    method SyncGuard() returns (ghost ports: seq<PortProto>)
      requires Valid()
      modifies fw.be
      ensures Valid() && GuardPorts(cfg, db.t, ports)
      ensures fw.be.kernel == SpecSyncGuard(old(fw.be.kernel), ports).0
    {
      var guarded: seq<PortProto> := [];
      if cfg.nftGuard {
        guarded := db.ListGroupPorts();
      }
      var ok := fw.be.SyncGuard(guarded);
      ports := guarded;
    }

    // adminCreateGroup up to its insert, without the lock.
    method InsertGroup(g: D.Group) returns (created: bool)
      requires Valid()
      modifies db
      ensures Valid() && Now() == Next(cfg, old(Now()), Step.InsertGroup(g))
      ensures created == Inserts(cfg, old(Now()), Step.InsertGroup(g))
    {
      if !MayCreate(cfg, g) {
        return false;
      }
      created := db.CreateGroup(g);
    }

    method SyncGuardNow() returns (ghost step: Step)
      requires Valid()
      modifies fw.be
      ensures Valid() && step.SyncGuardNow?
      ensures Possible(cfg, old(Now()), step) && Now() == Next(cfg, old(Now()), step)
    {
      ghost var ports := SyncGuard();
      step := Step.SyncGuardNow(ports);
    }

    // adminCreateGroup: two steps, between which other handlers may run.
    method CreateGroup(g: D.Group) returns (created: bool, ghost steps: seq<Step>)
      requires Valid()
      modifies fw.be, db
      ensures Valid() && Run(cfg, old(Now()), steps) && Now() == After(cfg, old(Now()), steps)
      ensures |steps| == (if created then 2 else 1) && steps[0] == Step.InsertGroup(g)
      ensures created ==> steps[1].SyncGuardNow? && Inserts(cfg, old(Now()), steps[0])
    {
      ghost var before := Now();
      created := InsertGroup(g);
      ghost var inserted := Now();
      ghost var rest: seq<Step> := [];
      if created {
        ghost var step := SyncGuardNow();
        RunOf(cfg, inserted, step, []);
        rest := [step] + [];
      }
      RunOf(cfg, before, Step.InsertGroup(g), rest);
      steps := [Step.InsertGroup(g)] + rest;
    }

    method DeleteGroup(id: nat) returns (ghost step: Step)
      requires Valid()
      modifies fw.be, db
      ensures Valid()
      ensures step.DeleteGroup? && step == Step.DeleteGroup(id, step.members, step.ports)
      ensures Possible(cfg, old(Now()), step) && Now() == Next(cfg, old(Now()), step)
    {
      var members, grants := GroupMembers(id);
      if id !in db.t.groups {
        ghost var ports := PortsFor(cfg, D.DropGroup(db.t, id));
        return Step.DeleteGroup(id, members, ports);
      }
      var warned := RemoveAll(grants);
      db.DeleteGroup(id);
      ghost var ports := SyncGuard();
      step := Step.DeleteGroup(id, members, ports);
    }

    // groupMembers, and the rules of those with an address.
    method GroupMembers(id: nat) returns (ghost members: seq<D.Member>, grants: seq<Grant>)
      requires Valid()
      ensures D.ListsOnce(members, MembersOf(db.t, id))
      ensures grants == OnlineGrants(db.t, members)
    {
      hide D.UniqueUsers, D.UniqueGroups, D.ValidUser, D.ValidGroup, MemberGrant;
      members, grants := [], [];
      var todo := db.t.members.Keys;
      while todo != {}
        invariant todo <= db.t.members.Keys
        invariant forall k :: k in members ==> k in MembersOf(db.t, id) && k !in todo
        invariant D.Once(members)
        invariant forall k :: k in MembersOf(db.t, id) && k !in todo ==> k in members
        invariant grants == OnlineGrants(db.t, members)
      {
        var k :| k in todo;
        todo := todo - {k};
        if k.group != id {
          continue;
        }
        OnlineNext(db.t, members, k);
        D.OnceMore(members, k);
        members := members + [k];
        if D.Recorded(db.t.users[k.user]) {
          grants := grants + [MemberGrant(db.t, k)];
        }
      }
    }

    // GetAllUserGroupPorts.
    method AllUserGroups() returns (ugp: map<nat, seq<D.Group>>)
      requires Valid()
      ensures forall id :: id in db.t.users ==> id in ugp && D.ListsOnce(ugp[id], D.EnabledGroups(db.t, id))
    {
      ugp := map[];
      var todo := db.t.users.Keys;
      while todo != {}
        invariant todo <= db.t.users.Keys
        invariant forall id :: id in db.t.users && id !in todo ==> id in ugp && D.ListsOnce(ugp[id], D.EnabledGroups(db.t, id))
      {
        var id :| id in todo;
        todo := todo - {id};
        var groups := db.GetUserGroups(id);
        ugp := ugp[id := groups];
      }
    }

    // One user of CleanupStale.
    method CleanupUser(id: nat, groups: seq<D.Group>, maxAge: int, now: int)
      requires Valid() && id in db.t.users
      modifies fw.be, db
      ensures Valid() && db.t.users.Keys == old(db.t).users.Keys && db.t.groups == old(db.t).groups
      ensures Cleaning(db.t, fw.be.kernel) == CleanOne(Cleaning(old(db.t), old(fw.be.kernel)), id, groups, maxAge, now)
    {
      hide D.ValidTables;
      var u := db.t.users[id];
      if !Expired(u, maxAge, now) {
        return;
      }
      if D.Recorded(u) {
        var warned := RemoveAll(GrantsAt(u.username, u.ip.value, groups));
      }
      db.ClearUserState(id);
    }

    // Manager.CleanupStale.
    method CleanupStale(maxAge: int, now: int, ugp: map<nat, seq<D.Group>>) returns (ghost ids: seq<nat>)
      requires Valid() && forall id :: id in db.t.users ==> id in ugp
      modifies fw.be, db
      ensures Valid() && D.ListsOnce(ids, old(db.t).users.Keys) && db.t.groups == old(db.t).groups
      ensures forall id :: id in ids ==> id in ugp
      ensures Cleaning(db.t, fw.be.kernel) == Clean(Cleaning(old(db.t), old(fw.be.kernel)), ids, ugp, maxAge, now)
    {
      hide D.ValidTables, ValidChain, CleanOne;
      ids := [];
      ghost var start := Cleaning(db.t, fw.be.kernel);
      ghost var all := db.t.users.Keys;
      var todo := db.t.users.Keys;
      while todo != {}
        invariant Valid() && todo <= all && db.t.users.Keys == all && db.t.groups == start.db.groups
        invariant D.Once(ids) && forall id :: id in ids <==> id in all && id !in todo
        invariant forall id :: id in ids ==> id in ugp
        invariant Cleaning(db.t, fw.be.kernel) == Clean(start, ids, ugp, maxAge, now)
      {
        var id :| id in todo;
        todo := todo - {id};
        CleanNext(start, ids, id, ugp, maxAge, now);
        D.OnceMore(ids, id);
        ids := ids + [id];
        CleanupUser(id, ugp[id], maxAge, now);
      }
    }

    // The hourly cleanup, if it is due.
    method CleanIfDue(now: int) returns (ghost ids: seq<nat>, ugp: map<nat, seq<D.Group>>)
      requires Valid()
      modifies this, fw.be, db
      ensures Valid() && db.t.groups == old(db.t).groups
      ensures D.ListsOnce(ids, old(db.t).users.Keys)
      ensures forall id :: id in ids ==> id in ugp && D.ListsOnce(ugp[id], D.EnabledGroups(old(db.t), id))
      ensures forall a: Answers :: a.ids == ids && a.groups == ugp ==>
                Cleaning(db.t, fw.be.kernel) == Cleaned(cfg, old(Now()), now, a)
      ensures lastCleanup == if Due(cfg, old(Now()), now) then Some(now) else old(lastCleanup)
    {
      ugp := AllUserGroups();
      if cfg.cleanupDays > 0 && (lastCleanup == None || now - lastCleanup.value >= CLEANUP_EVERY) {
        lastCleanup := Some(now);
        ids := CleanupStale(cfg.cleanupDays * DAY, now / SECOND, ugp);
      } else {
        ids := SomeRows(db.t.users.Keys);
      }
    }

    method Maintain(now: int) returns (ghost step: Step)
      requires Valid()
      modifies this, fw.be, db
      ensures Valid()
      ensures step.Maintain? && step.now == now
      ensures Possible(cfg, old(Now()), step) && Now() == Next(cfg, old(Now()), step)
    {
      hide D.ValidTables, ValidChain, SpecReconcileAll, SpecSyncGuard, Clean, D.DesiredLocal, D.EnabledGroups;
      ghost var s := Now();
      var ok := fw.be.EnsureBase();
      if !ok {
        ghost var a := AnswersFor(cfg, s, now);
        return Step.Maintain(now, a);
      }
      var ugp;
      ghost var ids;
      ids, ugp := CleanIfDue(now);
      var desired := db.DesiredStateLocal();
      var added, removed, failed := ReconcileAll(NftRef(fw.be), desired);
      ghost var ports := SyncGuard();
      step := Step.Maintain(now, Answers(ids, ugp, desired, ports));
    }
  }

  lemma OnlineNext(t: D.Tables, members: seq<D.Member>, k: D.Member)
    ensures OnlineGrants(t, members + [k]) == if Online(t, k) then OnlineGrants(t, members) + [MemberGrant(t, k)] else OnlineGrants(t, members)
  {
    assert (members + [k])[..|members|] == members;
    assert OnlineGrants(t, members) + [] == OnlineGrants(t, members);
  }

  lemma CleanNext(s: Cleaning, ids: seq<nat>, id: nat, groups: map<nat, seq<D.Group>>, maxAge: int, now: int)
    requires forall i :: i in ids + [id] ==> i in groups
    ensures Clean(s, ids + [id], groups, maxAge, now) == CleanOne(Clean(s, ids, groups, maxAge, now), id, groups[id], maxAge, now)
  {
    assert (ids + [id])[..|ids|] == ids;
  }

  lemma PortsFor(cfg: Config, t: D.Tables) returns (ports: seq<PortProto>)
    ensures GuardPorts(cfg, t, ports)
  {
    ports := [];
    if cfg.nftGuard {
      ports := SomeRows(D.GroupPorts(t));
    }
  }

  // Some answers to Maintain's queries.
  lemma AnswersFor(cfg: Config, s: State, now: int) returns (a: Answers)
    ensures Answered(cfg, s, now, a)
  {
    var ids := SomeRows(s.db.users.Keys);
    var ports := PortsFor(cfg, s.db);
    var groups := GroupsFor(s.db, ids);
    a := Answers(ids, groups, [], ports);
    var db := Cleaned(cfg, s.(fw := SpecEnsureBase(s.fw).0), now, a).db;
    var desired := SomeRows(D.DesiredLocal(db));
    a := Answers(ids, groups, desired, ports);
  }

  lemma GroupsFor(t: D.Tables, ids: seq<nat>) returns (groups: map<nat, seq<D.Group>>)
    ensures forall id :: id in ids ==> id in groups && D.ListsOnce(groups[id], D.EnabledGroups(t, id))
  {
    groups := map[];
    for i := 0 to |ids|
      invariant forall j :: 0 <= j < i ==> ids[j] in groups
      invariant forall id :: id in groups ==> D.ListsOnce(groups[id], D.EnabledGroups(t, id))
    {
      var rows := SomeRows(D.EnabledGroups(t, ids[i]));
      groups := groups[ids[i] := rows];
    }
  }
}
