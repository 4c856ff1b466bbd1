// Over every run of the server: what the firewall admits, and when it stops.
module ServerRuns {
  import opened Net
  import opened Seqs
  import opened GuardLayout
  import opened Comments
  import opened NftChain
  import opened Reconcile
  import opened NftReconcile
  import opened Manager
  import opened Effects
  import opened Server
  import D = Database
  import P = Packets

  // One handler or Maintain, with what its queries and map iterations happened to
  // yield.
  datatype Step =
    | Knock(username: string, secret: string, origin: Origin, now: int, groups: seq<D.Group>, order: seq<string>)
    | SetMembership(k: D.Member, enabled: bool, groups: seq<D.Group>, order: seq<string>)
    | AddMembership(k: D.Member, enabled: bool)
    | RemoveMembership(k: D.Member)
    | Revoke(user: nat, rotate: Option<string>)
    | DeleteUser(user: nat)
    | CreateUser(name: string, secret: string, isAdmin: bool)
    | SetAdmin(user: nat, isAdmin: bool)
    | InsertGroup(g: D.Group)
    | SyncGuardNow(ports: seq<PortProto>)
    | DeleteGroup(group: nat, members: seq<D.Member>, ports: seq<PortProto>)
    | Maintain(now: int, answers: Answers)

  predicate AllNames(groups: seq<D.Group>, order: seq<string>) {
    (forall n :: n in order ==> n in D.PortMapOf(groups)) && forall n :: n in D.PortMapOf(groups) ==> n in order
  }

  // The step's choices are answers to its queries.
  ghost predicate Possible(cfg: Config, s: State, step: Step) {
    match step
    case Knock(username, _, _, _, groups, order) =>
      AllNames(groups, order) &&
      var id := D.FindUser(s.db, username);
      id.Some? ==> D.ListsOnce(groups, D.EnabledGroups(s.db, id.value))
    case SetMembership(k, enabled, groups, order) =>
      AllNames(groups, order) && D.ListsOnce(groups, D.EnabledGroups(D.Enable(s.db, k, enabled), k.user))
    case SyncGuardNow(ports) => GuardPorts(cfg, s.db, ports)
    case DeleteGroup(id, members, ports) =>
      D.ListsOnce(members, MembersOf(s.db, id)) && GuardPorts(cfg, D.DropGroup(s.db, id), ports)
    case Maintain(now, a) => Answered(cfg, s, now, a)
    case _ => true
  }

  ghost function Next(cfg: Config, s: State, step: Step): State
    requires Possible(cfg, s, step)
  {
    match step
    case Knock(username, secret, origin, now, groups, order) => SpecKnock(s, username, secret, origin, now, groups, order)
    case SetMembership(k, enabled, groups, order) => SpecSetMembership(s, k, enabled, groups, order)
    case AddMembership(k, enabled) => SpecAddMembership(s, k, enabled)
    case RemoveMembership(k) => SpecRemoveMembership(s, k)
    case Revoke(user, rotate) => SpecRevoke(s, user, rotate)
    case DeleteUser(user) => SpecDeleteUser(s, user)
    case CreateUser(name, secret, isAdmin) => SpecCreateUser(s, name, secret, isAdmin)
    case SetAdmin(user, isAdmin) => s.(db := D.SetAdmin(s.db, user, isAdmin))
    case InsertGroup(g) => SpecInsertGroup(cfg, s, g)
    case SyncGuardNow(ports) => SpecSyncGuardNow(s, ports)
    case DeleteGroup(id, members, ports) => SpecDeleteGroup(s, id, members, ports)
    case Maintain(now, a) => SpecMaintain(cfg, s, now, a)
  }

  // ---- the invariant ----

  ghost predicate Inv(cfg: Config, s: State) {
    D.ValidTables(s.db) && Healthy(s.fw) && AllProper(s.fw) && D.DesiredLocal(s.db) <= Grants(s.fw)
  }

  // The guard is the layout of these ports.
  ghost predicate GuardFor(cfg: Config, c: Chain, known: set<PortProto>) {
    exists ports :: GuardList(cfg, known, ports) && GuardIs(c, ports)
  }

  // The guard is the layout of all groups' ports.
  ghost predicate GuardRight(cfg: Config, s: State) {
    GuardFor(cfg, s.fw, D.GroupPorts(s.db))
  }

  // Nothing foreign comes into a chain that held nothing but what the backend writes.
  predicate StaysOurs(c: Chain, c2: Chain) {
    P.OnlyOurs(c) ==> P.OnlyOurs(c2)
  }

  // What a step that neither inserts a group nor syncs the guard keeps.
  ghost predicate KeptBy(cfg: Config, s: State, s2: State) {
    Inv(cfg, s2) && StaysOurs(s.fw, s2.fw) && s2.db.groups == s.db.groups &&
    forall ports :: GuardIs(s.fw, ports) ==> GuardIs(s2.fw, ports)
  }

  // What a step that syncs the guard establishes.
  ghost predicate SyncedBy(cfg: Config, s: State, s2: State) {
    Inv(cfg, s2) && StaysOurs(s.fw, s2.fw) && GuardRight(cfg, s2)
  }

  lemma StillOurs(c: Chain, c2: Chain)
    requires P.OnlyOurs(c) && Undisturbed(c, c2) && AllProper(c2)
    ensures P.OnlyOurs(c2)
  {
    forall e | e in c2.rules && IsManaged(c2.prefix)(e)
      ensures e.body.Allow?
    {
      GrantInside(c2.prefix, ManagedRules(c2), e);
      ProperIsAllow(c2.prefix, e);
    }
  }

  lemma ProperIsAllow(prefix: string, e: Entry)
    requires Proper(GrantOf(prefix, e))
    ensures e.body.Allow?
  {
    assert GrantOf(prefix, e).ip == ListedIP(e.body);
  }

  // ---- chains of removals ----

  lemma UndisturbedTwice(a: Chain, b: Chain, c: Chain)
    requires Undisturbed(a, b) && Undisturbed(b, c)
    ensures Undisturbed(a, c)
  {
  }

  lemma UndisturbedNot(c: Chain)
    requires Healthy(c)
    ensures Undisturbed(c, c)
  {
  }

  lemma {:induction false} RemoveEachEffect(c: Chain, grants: seq<Grant>)
    requires Healthy(c) && forall g :: g in grants ==> ':' !in g.user
    ensures var c2 := RemoveEach(c, grants);
            Undisturbed(c, c2) && Grants(c2) <= Grants(c) &&
            (forall g :: g in Grants(c) && g !in grants ==> g in Grants(c2)) &&
            forall e :: e in c2.rules ==> e in c.rules
    decreases |grants|
  {
    if grants == [] {
      UndisturbedNot(c);
    } else {
      var front, last := grants[..|grants| - 1], grants[|grants| - 1];
      assert last in grants;
      RemoveEachEffect(c, front);
      var c1 := RemoveEach(c, front);
      RemoveEffect(c1, last);
      UndisturbedTwice(c, c1, RemoveEach(c, grants));
    }
  }

  // A step that neither touches the groups nor removes a grant still desired.
  lemma Kept(cfg: Config, s: State, s2: State)
    requires D.ValidTables(s2.db) && Undisturbed(s.fw, s2.fw) && AllProper(s2.fw)
    requires s2.db.groups == s.db.groups && D.DesiredLocal(s2.db) <= Grants(s2.fw)
    ensures KeptBy(cfg, s, s2)
  {
    if P.OnlyOurs(s.fw) {
      StillOurs(s.fw, s2.fw);
    }
  }

  lemma Unchanged(cfg: Config, s: State)
    requires Inv(cfg, s)
    ensures KeptBy(cfg, s, s)
  {
  }

  lemma KeptTwice(cfg: Config, s: State, s1: State, s2: State)
    requires KeptBy(cfg, s, s1) && KeptBy(cfg, s1, s2)
    ensures KeptBy(cfg, s, s2)
  {
  }

  // ---- one lemma for each kind of step ----

  // What Reconcile left covers what is desired, if it ran for the user's enabled
  // groups at the address now recorded.
  lemma ReconcileCovers(t: D.Tables, id: nat, groups: seq<D.Group>, c: Chain, c2: Chain)
    requires D.ValidTables(t) && id in t.users && t.users[id].ip.Some?
    requires D.Lists(groups, D.EnabledGroups(t, id))
    requires var m := D.PortMapOf(groups);
             forall n :: n in m ==> WantedFor(t.users[id].username, t.users[id].ip.value, n, m[n]) in Grants(c2)
    requires forall g: Grant :: g.user != t.users[id].username ==> (g in Grants(c2) <==> g in Grants(c))
    requires forall d :: d in D.DesiredLocal(t) && d.user != t.users[id].username ==> d in Grants(c)
    ensures D.DesiredLocal(t) <= Grants(c2)
  {
    D.PortMapExact(t, id, groups);
    forall d | d in D.DesiredLocal(t)
      ensures d in Grants(c2)
    {
      var k := D.DesiredComesFrom(t, d);
      if d.user == t.users[id].username {
        assert k.user == id;
        var g := t.groups[k.group];
        assert g in D.EnabledGroups(t, id);
        assert d == WantedFor(d.user, d.ip, g.name, D.PortMapOf(groups)[g.name]);
      }
    }
  }

  lemma PriorRulesAreNotDesired(t: D.Tables, id: nat, ip: Source, prior: Source, groups: seq<D.Group>)
    requires D.ValidTables(t) && id in t.users && t.users[id].ip == Some(ip) && prior != ip
    ensures forall g :: g in GrantsAt(t.users[id].username, prior, groups) ==> g !in D.DesiredLocal(t)
  {
    forall d | d in D.DesiredLocal(t) && d.user == t.users[id].username
      ensures d.ip == ip
    {
      var k := D.DesiredComesFrom(t, d);
      assert k.user == id;
    }
  }

  // A knock accepted, once the tables record it.
  lemma KnockCovers(cfg: Config, s: State, id: nat, ip: Source, now: int, groups: seq<D.Group>, c2: Chain)
    requires Inv(cfg, s) && id in s.db.users && Canonical(ip) && D.Lists(groups, D.EnabledGroups(s.db, id))
    requires var m := D.PortMapOf(groups);
             forall n :: n in m ==> WantedFor(s.db.users[id].username, ip, n, m[n]) in Grants(c2)
    requires forall g: Grant :: g.user != s.db.users[id].username ==> (g in Grants(c2) <==> g in Grants(s.fw))
    ensures var db := D.Record(s.db, id, ip, now).0;
            D.ValidTables(db) && D.DesiredLocal(db) <= Grants(c2)
  {
    var db := D.Record(s.db, id, ip, now).0;
    D.RecordKeepsValid(s.db, id, ip, now);
    assert D.EnabledGroups(db, id) == D.EnabledGroups(s.db, id);
    forall d | d in D.DesiredLocal(db) && d.user != s.db.users[id].username
      ensures d in Grants(s.fw)
    {
      var k := D.DesiredComesFrom(db, d);
      D.StillDesired(s.db, db, k);
    }
    ReconcileCovers(db, id, groups, s.fw, c2);
  }

  // An authenticated knock from an address that may be allowed, up to its record.
  lemma AcceptedKnockKeeps(cfg: Config, s: State, id: nat, ip: Source, now: int, groups: seq<D.Group>, order: seq<string>, r: UserReport)
    requires Inv(cfg, s) && id in s.db.users && Canonical(ip)
    requires AllNames(groups, order) && D.Lists(groups, D.EnabledGroups(s.db, id))
    requires r == SpecReconcile(s.fw, s.db.users[id].username, ip, D.PortMapOf(groups), order)
    ensures !r.failed && KeptBy(cfg, s, s.(db := D.Record(s.db, id, ip, now).0, fw := r.chain))
  {
    D.PortMapExact(s.db, id, groups);
    ReconcileEffect(s.fw, s.db.users[id].username, ip, D.PortMapOf(groups), order, r);
    KnockCovers(cfg, s, id, ip, now, groups, r.chain);
    Kept(cfg, s, s.(db := D.Record(s.db, id, ip, now).0, fw := r.chain));
  }

  lemma KnockKeeps(cfg: Config, s: State, username: string, secret: string, origin: Origin, now: int,
                   groups: seq<D.Group>, order: seq<string>)
    requires Inv(cfg, s) && Possible(cfg, s, Knock(username, secret, origin, now, groups, order))
    ensures KeptBy(cfg, s, SpecKnock(s, username, secret, origin, now, groups, order))
  {
    hide KeptBy, D.ValidTables, Healthy, AllProper, D.DesiredLocal, Grants, SpecReconcile, RemoveEach,
         GrantsAt, ClientIP;
    var ip := ClientIP(origin);
    Unchanged(cfg, s);
    if Authenticates(s.db, username, secret) && Allowlistable(ip) {
      D.FindUserFinds(s.db, username);
      ClientIPIsCanonical(origin);
      var id := D.FindUser(s.db, username).value;
      var r := SpecReconcile(s.fw, username, ip, D.PortMapOf(groups), order);
      AcceptedKnockKeeps(cfg, s, id, ip, now / SECOND, groups, order, r);
      var (db, prior) := D.Record(s.db, id, ip, now / SECOND);
      if prior.Some? && prior != Some(ip) {
        RemovalKeeps(cfg, s, s.(db := db, fw := r.chain), GrantsAt(username, prior.value, groups), id, ip, prior.value, groups);
      }
    }
  }

  // The rules at the address before, once the tables hold another one.
  lemma RemovalKeeps(cfg: Config, s: State, s1: State, grants: seq<Grant>, id: nat, ip: Source, prior: Source, groups: seq<D.Group>)
    requires KeptBy(cfg, s, s1) && id in s1.db.users && s1.db.users[id].ip == Some(ip) && prior != ip
    requires grants == GrantsAt(s1.db.users[id].username, prior, groups)
    ensures KeptBy(cfg, s, s1.(fw := RemoveEach(s1.fw, grants)))
  {
    ValidNameHasNoColon(s1.db.users[id].username);
    RemoveEachEffect(s1.fw, grants);
    PriorRulesAreNotDesired(s1.db, id, ip, prior, groups);
    Kept(cfg, s1, s1.(fw := RemoveEach(s1.fw, grants)));
    KeptTwice(cfg, s, s1, s1.(fw := RemoveEach(s1.fw, grants)));
  }

  lemma OthersDesiredBefore(t: D.Tables, db: D.Tables, k: D.Member)
    requires db == D.Enable(t, k, true) && k.user in db.users
    ensures forall d :: d in D.DesiredLocal(db) && d.user != db.users[k.user].username ==> d in D.DesiredLocal(t)
  {
    forall d | d in D.DesiredLocal(db) && d.user != db.users[k.user].username
      ensures d in D.DesiredLocal(t)
    {
      var l := D.DesiredComesFrom(db, d);
      D.StillDesired(t, db, l);
    }
  }

  lemma EnableReapplies(cfg: Config, s: State, k: D.Member, db: D.Tables, groups: seq<D.Group>, order: seq<string>, r: UserReport)
    requires Inv(cfg, s) && D.ValidTables(db) && Online(db, k) && db == D.Enable(s.db, k, true)
    requires AllNames(groups, order) && D.Lists(groups, D.EnabledGroups(db, k.user))
    requires r == SpecReconcile(s.fw, db.users[k.user].username, db.users[k.user].ip.value, D.PortMapOf(groups), order)
    ensures KeptBy(cfg, s, s.(db := db, fw := r.chain))
  {
    var u := db.users[k.user];
    D.PortMapExact(db, k.user, groups);
    ReconcileEffect(s.fw, u.username, u.ip.value, D.PortMapOf(groups), order, r);
    OthersDesiredBefore(s.db, db, k);
    ReconcileCovers(db, k.user, groups, s.fw, r.chain);
    Kept(cfg, s, s.(db := db, fw := r.chain));
  }

  // The membership is off, or the user has no address: at most its rule goes.
  lemma DisableKeeps(cfg: Config, s: State, k: D.Member, db: D.Tables, c2: Chain)
    requires Inv(cfg, s) && D.ValidTables(db) && !D.Serves(db, k)
    requires db.users == s.db.users && db.groups == s.db.groups
    requires forall l :: l in db.members && l != k ==> l in s.db.members && s.db.members[l] == db.members[l]
    requires c2 == if Online(db, k) then SpecRemove(s.fw, MemberGrant(db, k)).0 else s.fw
    ensures KeptBy(cfg, s, s.(db := db, fw := c2))
  {
    if Online(db, k) {
      ValidNameHasNoColon(db.users[k.user].username);
      RemoveEffect(s.fw, MemberGrant(db, k));
    } else {
      UndisturbedNot(s.fw);
    }
    DesiredButOne(s.db, db, k, c2);
    Kept(cfg, s, s.(db := db, fw := c2));
  }

  lemma SetMembershipKeeps(cfg: Config, s: State, k: D.Member, enabled: bool, groups: seq<D.Group>, order: seq<string>)
    requires Inv(cfg, s) && Possible(cfg, s, SetMembership(k, enabled, groups, order))
    ensures KeptBy(cfg, s, SpecSetMembership(s, k, enabled, groups, order))
  {
    hide KeptBy, D.ValidTables, Healthy, AllProper, D.DesiredLocal, Grants;
    var db := D.Enable(s.db, k, enabled);
    D.EnableKeepsValid(s.db, k, enabled);
    if Online(db, k) && enabled {
      EnableReapplies(cfg, s, k, db, groups, order,
                      SpecReconcile(s.fw, db.users[k.user].username, db.users[k.user].ip.value, D.PortMapOf(groups), order));
    } else {
      DisableKeeps(cfg, s, k, db, SpecSetMembership(s, k, enabled, groups, order).fw);
    }
  }

  // What a write about one membership leaves desired: everything but, perhaps,
  // the grant of that membership was desired before and is another grant.
  lemma OthersStayDesired(t: D.Tables, t2: D.Tables, k: D.Member)
    requires D.ValidTables(t2)
    requires t2.users == t.users && t2.groups == t.groups
    requires forall l :: l in t2.members && l != k ==> l in t.members && t.members[l] == t2.members[l]
    ensures forall d :: d in D.DesiredLocal(t2) ==>
              (D.Serves(t2, k) && d == D.GrantAt(t2, k)) ||
              (d in D.DesiredLocal(t) && (Online(t2, k) ==> d != MemberGrant(t2, k)))
  {
    forall d | d in D.DesiredLocal(t2)
      ensures (D.Serves(t2, k) && d == D.GrantAt(t2, k)) ||
              (d in D.DesiredLocal(t) && (Online(t2, k) ==> d != MemberGrant(t2, k)))
    {
      var l := D.DesiredComesFrom(t2, d);
      if l != k {
        D.StillDesired(t, t2, l);
        if Online(t2, k) && d == MemberGrant(t2, k) {
          D.NamesIdentify(t2, k, l);
        }
      }
    }
  }

  lemma DesiredButOne(t: D.Tables, t2: D.Tables, k: D.Member, c2: Chain)
    requires D.ValidTables(t2) && !D.Serves(t2, k)
    requires t2.users == t.users && t2.groups == t.groups
    requires forall l :: l in t2.members && l != k ==> l in t.members && t.members[l] == t2.members[l]
    requires forall d :: d in D.DesiredLocal(t) && (Online(t2, k) ==> d != MemberGrant(t2, k)) ==> d in Grants(c2)
    ensures D.DesiredLocal(t2) <= Grants(c2)
  {
    OthersStayDesired(t, t2, k);
  }

  lemma AddMembershipKeeps(cfg: Config, s: State, k: D.Member, enabled: bool)
    requires Inv(cfg, s)
    ensures KeptBy(cfg, s, SpecAddMembership(s, k, enabled))
  {
    hide KeptBy, D.ValidTables, Healthy, AllProper, D.DesiredLocal, Grants;
    if k.user !in s.db.users || k.group !in s.db.groups {
      Unchanged(cfg, s);
    } else {
      D.JoinKeepsValid(s.db, k, enabled);
      JoinKeeps(cfg, s, k, enabled, D.Join(s.db, k, enabled), SpecAddMembership(s, k, enabled).fw);
    }
  }

  lemma JoinKeeps(cfg: Config, s: State, k: D.Member, enabled: bool, db: D.Tables, c2: Chain)
    requires Inv(cfg, s) && k.user in s.db.users && k.group in s.db.groups
    requires db == D.Join(s.db, k, enabled) && D.ValidTables(db)
    requires c2 == if Online(s.db, k) && enabled then SpecAdd(s.fw, MemberGrant(s.db, k)).0 else s.fw
    ensures KeptBy(cfg, s, s.(db := db, fw := c2))
  {
    hide StaysOurs, GuardIs, Undisturbed, CheckRule;
    OthersStayDesired(s.db, db, k);
    if Online(s.db, k) && enabled {
      AddEffect(s.fw, MemberGrant(s.db, k));
      assert D.GrantAt(db, k) == MemberGrant(s.db, k);
    } else {
      UndisturbedNot(s.fw);
      assert !D.Serves(db, k);
    }
    Kept(cfg, s, s.(db := db, fw := c2));
  }

  lemma RemoveMembershipKeeps(cfg: Config, s: State, k: D.Member)
    requires Inv(cfg, s)
    ensures KeptBy(cfg, s, SpecRemoveMembership(s, k))
  {
    if k.user in s.db.users && k.group in s.db.groups {
      D.LeaveKeepsValid(s.db, k);
      DisableKeeps(cfg, s, k, D.Leave(s.db, k), SpecRemoveMembership(s, k).fw);
    }
  }

  // ---- users ----

  // A user without an address, or gone: nothing is desired for them, the rest as
  // before.
  lemma DesiredWithout(t: D.Tables, t2: D.Tables, id: nat, d: Grant)
    requires D.ValidTables(t) && id in t.users && d in D.DesiredLocal(t2)
    requires forall l :: l in t2.members ==> l in t.members && t.members[l] == t2.members[l]
    requires forall i :: i in t2.users && i != id ==> i in t.users && t2.users[i] == t.users[i]
    requires id in t2.users ==> t2.users[id].ip == None
    requires t2.groups == t.groups
    ensures d in D.DesiredLocal(t) && d.user != t.users[id].username
  {
    var k := D.DesiredComesFrom(t2, d);
    D.StillDesired(t, t2, k);
  }

  // The user's rules gone, and with them all that was desired for the user.
  lemma UserGone(cfg: Config, s: State, id: nat, db: D.Tables)
    requires Inv(cfg, s) && id in s.db.users && D.ValidTables(db) && db.groups == s.db.groups
    requires forall l :: l in db.members ==> l in s.db.members && s.db.members[l] == db.members[l]
    requires forall i :: i in db.users && i != id ==> i in s.db.users && db.users[i] == s.db.users[i]
    requires id in db.users ==> db.users[id].ip == None
    ensures KeptBy(cfg, s, s.(fw := SpecRemoveUser(s.fw, s.db.users[id].username).0, db := db))
  {
    var c2 := SpecRemoveUser(s.fw, s.db.users[id].username).0;
    RemoveUserEffect(s.fw, s.db.users[id].username);
    forall d | d in D.DesiredLocal(db)
      ensures d in Grants(c2)
    {
      DesiredWithout(s.db, db, id, d);
    }
    Kept(cfg, s, s.(fw := c2, db := db));
  }

  lemma RevokeKeeps(cfg: Config, s: State, id: nat, rotate: Option<string>)
    requires Inv(cfg, s)
    ensures KeptBy(cfg, s, SpecRevoke(s, id, rotate))
  {
    hide KeptBy, D.ValidTables, Healthy, AllProper, D.DesiredLocal, Grants;
    Unchanged(cfg, s);
    if id in s.db.users {
      D.UserWritesKeepValid(s.db, id, "", false);
      var cleared := D.Clear(s.db, id);
      D.UserWritesKeepValid(cleared, id, if rotate.Some? then rotate.value else "", false);
      UserGone(cfg, s, id, if rotate.Some? then D.Rotate(cleared, id, rotate.value) else cleared);
    }
  }

  lemma DeleteUserKeeps(cfg: Config, s: State, id: nat)
    requires Inv(cfg, s)
    ensures KeptBy(cfg, s, SpecDeleteUser(s, id))
  {
    if id in s.db.users {
      D.DropsKeepValid(s.db, id);
      UserGone(cfg, s, id, D.Drop(s.db, id));
    }
  }

  lemma SameDesired(t: D.Tables, t2: D.Tables)
    requires D.ValidTables(t) && t2.members == t.members && t2.groups == t.groups
    requires forall i :: i in t.users ==> i in t2.users && t2.users[i].username == t.users[i].username && t2.users[i].ip == t.users[i].ip
    ensures D.DesiredLocal(t2) <= D.DesiredLocal(t)
  {
    forall d | d in D.DesiredLocal(t2)
      ensures d in D.DesiredLocal(t)
    {
      var k := D.DesiredComesFrom(t2, d);
      D.StillDesired(t, t2, k);
    }
  }

  // A write about users that changes no name and no address.
  lemma AddressesStay(cfg: Config, s: State, db: D.Tables)
    requires Inv(cfg, s) && D.ValidTables(db) && db.members == s.db.members && db.groups == s.db.groups
    requires forall i :: i in s.db.users ==>
               i in db.users && db.users[i].username == s.db.users[i].username && db.users[i].ip == s.db.users[i].ip
    ensures KeptBy(cfg, s, s.(db := db))
  {
    UndisturbedNot(s.fw);
    SameDesired(s.db, db);
    Kept(cfg, s, s.(db := db));
  }

  lemma CreateUserKeeps(cfg: Config, s: State, name: string, secret: string, isAdmin: bool)
    requires Inv(cfg, s)
    ensures KeptBy(cfg, s, SpecCreateUser(s, name, secret, isAdmin))
  {
    if ValidName(name) && D.Create(s.db, name, secret, isAdmin).Some? {
      D.CreateKeepsValid(s.db, name, secret, isAdmin);
      AddressesStay(cfg, s, D.Create(s.db, name, secret, isAdmin).value);
    }
  }

  lemma SetAdminKeeps(cfg: Config, s: State, id: nat, isAdmin: bool)
    requires Inv(cfg, s)
    ensures KeptBy(cfg, s, s.(db := D.SetAdmin(s.db, id, isAdmin)))
  {
    hide KeptBy, D.ValidTables, Healthy, AllProper, D.DesiredLocal, Grants;
    D.UserWritesKeepValid(s.db, id, "", isAdmin);
    AddressesStay(cfg, s, D.SetAdmin(s.db, id, isAdmin));
  }

  // ---- groups ----

  // Nothing is desired that was not before the row of a new group.
  lemma InsertDesiresNothing(t: D.Tables, g: D.Group)
    requires D.ValidTables(t) && D.AddGroup(t, g).Some?
    ensures D.DesiredLocal(D.AddGroup(t, g).value) <= D.DesiredLocal(t)
  {
    var db := D.AddGroup(t, g).value;
    forall d | d in D.DesiredLocal(db)
      ensures d in D.DesiredLocal(t)
    {
      var k := D.DesiredComesFrom(db, d);
      D.StillDesired(t, db, k);
    }
  }

  lemma InsertGroupKeeps(cfg: Config, s: State, g: D.Group)
    requires Inv(cfg, s)
    ensures Inv(cfg, SpecInsertGroup(cfg, s, g))
  {
    if MayCreate(cfg, g) && D.AddGroup(s.db, g).Some? {
      D.AddGroupKeepsValid(s.db, g);
      InsertDesiresNothing(s.db, g);
    }
  }

  // Laying out the guard, on a chain that serves what is desired.
  lemma Synced(cfg: Config, db: D.Tables, c: Chain, ports: seq<PortProto>)
    requires Healthy(c) && AllProper(c) && D.DesiredLocal(db) <= Grants(c) && GuardPorts(cfg, db, ports)
    ensures var c2 := SpecSyncGuard(c, ports).0;
            Healthy(c2) && AllProper(c2) && D.DesiredLocal(db) <= Grants(c2) && StaysOurs(c, c2) &&
            GuardFor(cfg, c2, D.GroupPorts(db))
  {
    SyncEffect(c, ports);
    assert GuardList(cfg, D.GroupPorts(db), ports);
    if P.OnlyOurs(c) {
      P.SyncGuardKeepsOurs(c, ports);
    }
  }

  lemma SyncGuardNowSyncs(cfg: Config, s: State, ports: seq<PortProto>)
    requires Inv(cfg, s) && GuardPorts(cfg, s.db, ports)
    ensures SyncedBy(cfg, s, SpecSyncGuardNow(s, ports))
  {
    Synced(cfg, s.db, s.fw, ports);
  }

  // The rules removed with a group were its own.
  lemma GroupRulesGo(t: D.Tables, c: Chain, id: nat, members: seq<D.Member>)
    requires D.ValidTables(t) && Healthy(c) && AllProper(c) && D.DesiredLocal(t) <= Grants(c) && id in t.groups
    requires D.Lists(members, MembersOf(t, id))
    ensures var c1 := RemoveEach(c, OnlineGrants(t, members));
            Undisturbed(c, c1) && AllProper(c1) && D.DesiredLocal(D.DropGroup(t, id)) <= Grants(c1)
  {
    var db, grants := D.DropGroup(t, id), OnlineGrants(t, members);
    OwnGrants(t, id, members);
    RemoveEachEffect(c, grants);
    forall d | d in D.DesiredLocal(db)
      ensures d in Grants(RemoveEach(c, grants))
    {
      var k := D.DesiredComesFrom(db, d);
      D.StillDesired(t, db, k);
      assert k.group != id;
    }
  }

  lemma OwnGrants(t: D.Tables, id: nat, members: seq<D.Member>)
    requires D.ValidTables(t) && id in t.groups && D.Lists(members, MembersOf(t, id))
    ensures forall g :: g in OnlineGrants(t, members) ==> ':' !in g.user && g.group == t.groups[id].name
  {
    forall g | g in OnlineGrants(t, members)
      ensures ':' !in g.user && g.group == t.groups[id].name
    {
      var k :| k in members && Online(t, k) && MemberGrant(t, k) == g;
      ValidNameHasNoColon(g.user);
    }
  }

  lemma DeleteGroupSyncs(cfg: Config, s: State, id: nat, members: seq<D.Member>, ports: seq<PortProto>)
    requires Inv(cfg, s) && Possible(cfg, s, DeleteGroup(id, members, ports)) && id in s.db.groups
    ensures SyncedBy(cfg, s, SpecDeleteGroup(s, id, members, ports))
  {
    D.DropsKeepValid(s.db, id);
    GroupRulesGo(s.db, s.fw, id, members);
    var c1 := RemoveEach(s.fw, OnlineGrants(s.db, members));
    Synced(cfg, D.DropGroup(s.db, id), c1, ports);
    if P.OnlyOurs(s.fw) {
      StillOurs(s.fw, c1);
    }
  }

  // ---- Maintain ----

  lemma CleanOneKeeps(s: Cleaning, id: nat, groups: seq<D.Group>, maxAge: int, now: int)
    requires D.ValidTables(s.db) && Healthy(s.fw)
    ensures var r := CleanOne(s, id, groups, maxAge, now);
            D.ValidTables(r.db) && Undisturbed(s.fw, r.fw) && r.db.groups == s.db.groups &&
            forall e :: e in r.fw.rules ==> e in s.fw.rules
  {
    UndisturbedNot(s.fw);
    D.UserWritesKeepValid(s.db, id, "", false);
    if id in s.db.users && Expired(s.db.users[id], maxAge, now) {
      var u := s.db.users[id];
      ValidNameHasNoColon(u.username);
      if D.Recorded(u) {
        RemoveEachEffect(s.fw, GrantsAt(u.username, u.ip.value, groups));
      }
    }
  }

  lemma {:induction false} CleanKeeps(s: Cleaning, ids: seq<nat>, groups: map<nat, seq<D.Group>>, maxAge: int, now: int)
    requires D.ValidTables(s.db) && Healthy(s.fw) && forall id :: id in ids ==> id in groups
    ensures var r := Clean(s, ids, groups, maxAge, now);
            D.ValidTables(r.db) && Undisturbed(s.fw, r.fw) && r.db.groups == s.db.groups &&
            forall e :: e in r.fw.rules ==> e in s.fw.rules
    decreases |ids|
  {
    if ids == [] {
      UndisturbedNot(s.fw);
    } else {
      var front, id := ids[..|ids| - 1], ids[|ids| - 1];
      CleanKeeps(s, front, groups, maxAge, now);
      var mid := Clean(s, front, groups, maxAge, now);
      CleanOneKeeps(mid, id, groups[id], maxAge, now);
      UndisturbedTwice(s.fw, mid.fw, CleanOne(mid, id, groups[id], maxAge, now).fw);
    }
  }

  // What Maintain needs to start from: sound tables, a sound chain or none at all.
  ghost predicate Startable(s: State) {
    D.ValidTables(s.db) && ValidChain(s.fw) && FailureFree(s.fw.faults)
  }

  lemma DesiredIsAcceptable(t: D.Tables, desired: seq<Grant>)
    requires D.ValidTables(t) && D.Lists(desired, D.DesiredLocal(t))
    ensures AllListBack(desired) && AllAccepted(desired) && Wanted(desired) == D.DesiredLocal(t)
    ensures forall d :: d in desired ==> Proper(d)
  {
    forall d | d in desired
      ensures Proper(d) && ListsBack(d) && Accepted(d)
    {
      var k := D.DesiredComesFrom(t, d);
      ValidNameHasNoColon(d.user);
    }
  }

  lemma CleanupKeeps(cfg: Config, s: State, now: int, a: Answers)
    requires D.ValidTables(s.db) && Healthy(s.fw) && Covers(a)
    ensures var r := Cleaned(cfg, s, now, a);
            D.ValidTables(r.db) && Undisturbed(s.fw, r.fw) && r.db.groups == s.db.groups &&
            forall e :: e in r.fw.rules ==> e in s.fw.rules
  {
    UndisturbedNot(s.fw);
    CleanKeeps(Cleaning(s.db, s.fw), a.ids, a.groups, cfg.cleanupDays * DAY, now / SECOND);
  }

  // Right after a Maintain, whatever was there before: the managed rules are the
  // desired ones, one each, and the guard is the layout of all groups' ports.
  lemma ReconcileAndGuard(cfg: Config, t: D.Tables, c: Chain, desired: seq<Grant>, ports: seq<PortProto>, r: Report)
    requires D.ValidTables(t) && Healthy(c) && D.Lists(desired, D.DesiredLocal(t)) && GuardPorts(cfg, t, ports)
    requires r == SpecReconcileAll(Nft(c), desired)
    ensures r.host.Nft? &&
            var c2 := SpecSyncGuard(r.host.chain, ports).0;
            Healthy(c2) && AllProper(c2) && Holds(c2, D.DesiredLocal(t)) && GuardIs(c2, ports) &&
            (P.OnlyOurs(c) ==> P.OnlyOurs(c2))
  {
    DesiredIsAcceptable(t, desired);
    ReconcileExact(c, desired, r);
    SyncEffect(r.host.chain, ports);
    if P.OnlyOurs(c) {
      P.ReconcileKeepsOurs(c, desired, r);
      P.SyncGuardKeepsOurs(r.host.chain, ports);
    }
  }

  lemma MaintainExact(cfg: Config, s: State, now: int, a: Answers)
    requires Startable(s) && Answered(cfg, s, now, a)
    ensures var s2 := SpecMaintain(cfg, s, now, a);
            SyncedBy(cfg, s, s2) && Holds(s2.fw, D.DesiredLocal(s2.db))
  {
    var s1 := s.(fw := SpecEnsureBase(s.fw).0);
    CleanupKeeps(cfg, s1, now, a);
    var cleaned := Cleaned(cfg, s1, now, a);
    ReconcileAndGuard(cfg, cleaned.db, cleaned.fw, a.desired, a.ports, SpecReconcileAll(Nft(cleaned.fw), a.desired));
    assert GuardPorts(cfg, cleaned.db, a.ports);
    if P.OnlyOurs(s.fw) {
      assert P.OnlyOurs(cleaned.fw);
    }
  }

  // ---- every step ----

  // The step ends with a guard sync.
  predicate Syncs(s: State, step: Step) {
    step.SyncGuardNow? || step.Maintain? || (step.DeleteGroup? && step.group in s.db.groups)
  }

  // The step adds a group, whose port the guard does not cover yet.
  ghost predicate Inserts(cfg: Config, s: State, step: Step) {
    step.InsertGroup? && MayCreate(cfg, step.g) && D.AddGroup(s.db, step.g).Some?
  }

  ghost predicate StepResult(cfg: Config, s: State, step: Step, s2: State) {
    if Syncs(s, step) then SyncedBy(cfg, s, s2)
    else if Inserts(cfg, s, step) then Inv(cfg, s2) && s2.fw == s.fw && s2.db == D.AddGroup(s.db, step.g).value
    else KeptBy(cfg, s, s2)
  }

  lemma InsertGroupResult(cfg: Config, s: State, g: D.Group)
    requires Inv(cfg, s)
    ensures StepResult(cfg, s, InsertGroup(g), SpecInsertGroup(cfg, s, g))
  {
    InsertGroupKeeps(cfg, s, g);
    Unchanged(cfg, s);
  }

  lemma DeleteGroupResult(cfg: Config, s: State, id: nat, members: seq<D.Member>, ports: seq<PortProto>)
    requires Inv(cfg, s) && Possible(cfg, s, DeleteGroup(id, members, ports))
    ensures StepResult(cfg, s, DeleteGroup(id, members, ports), SpecDeleteGroup(s, id, members, ports))
  {
    hide KeptBy, SyncedBy, D.ValidTables, Healthy, AllProper;
    if id in s.db.groups {
      DeleteGroupSyncs(cfg, s, id, members, ports);
    } else {
      Unchanged(cfg, s);
    }
  }

  lemma MaintainSyncs(cfg: Config, s: State, now: int, a: Answers)
    requires Inv(cfg, s) && Answered(cfg, s, now, a)
    ensures SyncedBy(cfg, s, SpecMaintain(cfg, s, now, a))
  {
    MaintainExact(cfg, s, now, a);
  }

  lemma StepKeeps(cfg: Config, s: State, step: Step)
    requires Inv(cfg, s) && Possible(cfg, s, step)
    ensures StepResult(cfg, s, step, Next(cfg, s, step))
  {
    hide KeptBy, SyncedBy, D.ValidTables, Healthy, AllProper, SpecKnock, SpecMaintain, SpecDeleteGroup,
         SpecInsertGroup, SpecSetMembership, SpecRevoke, SpecDeleteUser, D.DesiredLocal, Grants;
    match step
    case Knock(username, secret, origin, now, groups, order) => KnockKeeps(cfg, s, username, secret, origin, now, groups, order);
    case SetMembership(k, enabled, groups, order) => SetMembershipKeeps(cfg, s, k, enabled, groups, order);
    case AddMembership(k, enabled) => AddMembershipKeeps(cfg, s, k, enabled);
    case RemoveMembership(k) => RemoveMembershipKeeps(cfg, s, k);
    case Revoke(user, rotate) => RevokeKeeps(cfg, s, user, rotate);
    case DeleteUser(user) => DeleteUserKeeps(cfg, s, user);
    case CreateUser(name, secret, isAdmin) => CreateUserKeeps(cfg, s, name, secret, isAdmin);
    case SetAdmin(user, isAdmin) => SetAdminKeeps(cfg, s, user, isAdmin);
    case InsertGroup(g) => InsertGroupResult(cfg, s, g);
    case SyncGuardNow(ports) => SyncGuardNowSyncs(cfg, s, ports);
    case DeleteGroup(id, members, ports) => DeleteGroupResult(cfg, s, id, members, ports);
    case Maintain(now, a) => MaintainSyncs(cfg, s, now, a);
  }

  lemma StepKeepsInv(cfg: Config, s: State, step: Step)
    requires Inv(cfg, s) && Possible(cfg, s, step)
    ensures Inv(cfg, Next(cfg, s, step)) && StaysOurs(s.fw, Next(cfg, s, step).fw)
  {
    hide Next, D.ValidTables, Healthy, AllProper, Possible;
    StepKeeps(cfg, s, step);
  }

  // ---- steps that leave the users alone ----

  lemma MemberStepKeepsUsers(cfg: Config, s: State, step: Step)
    requires Possible(cfg, s, step) && (step.SetMembership? || step.AddMembership? || step.RemoveMembership?)
    ensures Next(cfg, s, step).db.users == s.db.users && Next(cfg, s, step).lastCleanup == s.lastCleanup
  {
    hide SpecReconcile, SpecRemove, SpecAdd, Online, AllNames, D.EnabledGroups, D.PortMapOf, MemberGrant,
         SpecMaintain, SpecKnock, SpecDeleteGroup, SpecRevoke;
  }

  lemma GroupStepKeepsUsers(cfg: Config, s: State, step: Step)
    requires Possible(cfg, s, step) && (step.InsertGroup? || step.SyncGuardNow? || step.DeleteGroup?)
    ensures Next(cfg, s, step).db.users == s.db.users && Next(cfg, s, step).lastCleanup == s.lastCleanup
  {
  }

  // ---- runs ----

  // `steps` is a run from s.
  ghost predicate Run(cfg: Config, s: State, steps: seq<Step>)
    decreases |steps|
  {
    steps == [] || (Possible(cfg, s, steps[0]) && Run(cfg, Next(cfg, s, steps[0]), steps[1..]))
  }

  ghost function After(cfg: Config, s: State, steps: seq<Step>): State
    requires Run(cfg, s, steps)
    decreases |steps|
  {
    if steps == [] then s else After(cfg, Next(cfg, s, steps[0]), steps[1..])
  }

  lemma RunOf(cfg: Config, s: State, step: Step, rest: seq<Step>)
    requires Possible(cfg, s, step) && Run(cfg, Next(cfg, s, step), rest)
    ensures Run(cfg, s, [step] + rest) && After(cfg, s, [step] + rest) == After(cfg, Next(cfg, s, step), rest)
  {
    assert ([step] + rest)[1..] == rest;
  }

  lemma {:induction false} InvariantHolds(cfg: Config, s: State, steps: seq<Step>)
    requires Inv(cfg, s) && Run(cfg, s, steps)
    ensures Inv(cfg, After(cfg, s, steps)) && StaysOurs(s.fw, After(cfg, s, steps).fw)
    decreases |steps|
  {
    if steps != [] {
      StepKeepsInv(cfg, s, steps[0]);
      InvariantHolds(cfg, Next(cfg, s, steps[0]), steps[1..]);
    }
  }

  // ---- the guard over a run ----

  // What a run has seen: the groups' ports at the last guard sync, and whether a
  // group was inserted since.
  datatype Seen = Seen(known: set<PortProto>, inserted: bool)

  ghost function SeenNext(cfg: Config, s: State, step: Step, seen: Seen): Seen
    requires Possible(cfg, s, step)
  {
    if Syncs(s, step) then Seen(D.GroupPorts(Next(cfg, s, step).db), false)
    else seen.(inserted := seen.inserted || Inserts(cfg, s, step))
  }

  ghost function SeenAfter(cfg: Config, s: State, steps: seq<Step>, seen: Seen): Seen
    requires Run(cfg, s, steps)
    decreases |steps|
  {
    if steps == [] then seen
    else SeenAfter(cfg, Next(cfg, s, steps[0]), steps[1..], SeenNext(cfg, s, steps[0], seen))
  }

  ghost predicate SeenRight(cfg: Config, s: State, seen: Seen) {
    GuardFor(cfg, s.fw, seen.known) && seen.known <= D.GroupPorts(s.db) &&
    (seen.inserted <==> seen.known != D.GroupPorts(s.db))
  }

  // An accepted insert adds a port no group had.
  lemma InsertAddsAPort(t: D.Tables, g: D.Group)
    requires D.ValidTables(t) && D.AddGroup(t, g).Some?
    ensures D.GroupPorts(D.AddGroup(t, g).value) == D.GroupPorts(t) + {D.PortOf(g)}
    ensures D.PortOf(g) !in D.GroupPorts(t)
  {
    var db := D.AddGroup(t, g).value;
    forall p | p in D.GroupPorts(t) + {D.PortOf(g)}
      ensures p in D.GroupPorts(db)
    {
      if p == D.PortOf(g) {
        assert db.groups[t.nextGroup] == g;
      } else {
        var i :| i in t.groups && D.PortOf(t.groups[i]) == p;
        assert db.groups[i] == t.groups[i];
      }
    }
  }

  lemma SeenWhenInserted(cfg: Config, s: State, g: D.Group, s2: State, seen: Seen)
    requires D.ValidTables(s.db) && SeenRight(cfg, s, seen) && D.AddGroup(s.db, g).Some?
    requires s2.fw == s.fw && s2.db == D.AddGroup(s.db, g).value
    ensures SeenRight(cfg, s2, seen.(inserted := true))
  {
    InsertAddsAPort(s.db, g);
  }

  lemma SeenWhenKept(cfg: Config, s: State, s2: State, seen: Seen)
    requires SeenRight(cfg, s, seen) && KeptBy(cfg, s, s2)
    ensures SeenRight(cfg, s2, seen)
  {
    var ports :| GuardList(cfg, seen.known, ports) && GuardIs(s.fw, ports);
    assert GuardIs(s2.fw, ports);
  }

  lemma SeenStaysRight(cfg: Config, s: State, step: Step, seen: Seen)
    requires Inv(cfg, s) && Possible(cfg, s, step) && SeenRight(cfg, s, seen)
    ensures SeenRight(cfg, Next(cfg, s, step), SeenNext(cfg, s, step, seen))
  {
    hide D.ValidTables, Healthy, AllProper, Next, GuardFor, D.AddGroup, D.GroupPorts;
    StepKeeps(cfg, s, step);
    if Inserts(cfg, s, step) {
      SeenWhenInserted(cfg, s, step.g, Next(cfg, s, step), seen);
    } else if !Syncs(s, step) {
      SeenWhenKept(cfg, s, Next(cfg, s, step), seen);
    }
  }

  lemma {:induction false} SeenRunsRight(cfg: Config, s: State, steps: seq<Step>, seen: Seen)
    requires Inv(cfg, s) && Run(cfg, s, steps) && SeenRight(cfg, s, seen)
    ensures SeenRight(cfg, After(cfg, s, steps), SeenAfter(cfg, s, steps, seen))
    decreases |steps|
  {
    if steps != [] {
      StepKeepsInv(cfg, s, steps[0]);
      SeenStaysRight(cfg, s, steps[0], seen);
      SeenRunsRight(cfg, Next(cfg, s, steps[0]), steps[1..], SeenNext(cfg, s, steps[0], seen));
    }
  }

  // A guard is the layout of one set of valid ports only.
  lemma OneGuard(c: Chain, a: seq<PortProto>, b: seq<PortProto>)
    requires GuardIs(c, a) && GuardIs(c, b)
    ensures SameValidPorts(a, b)
  {
    var guard := Keep(c.rules, IsGuard(c.prefix));
    var tail := c.rules[|c.rules| - |guard|..];
    forall i | 0 <= i < |guard|
      ensures Layout(a)[i] == Layout(b)[i]
    {
      assert ListedPort(tail[i].body) == Layout(a)[i];
    }
    assert Layout(a) == Layout(b);
    LayoutIsTheSet(a, b);
  }

  lemma GroupPortsAreValid(t: D.Tables)
    requires D.ValidTables(t)
    ensures forall p :: p in D.GroupPorts(t) ==> ValidPP(p)
  {
  }

  // The guard covers all groups exactly when none was inserted since the last sync.
  lemma GuardRightExactly(cfg: Config, s: State, seen: Seen)
    requires D.ValidTables(s.db) && SeenRight(cfg, s, seen)
    ensures GuardRight(cfg, s) <==> !cfg.nftGuard || !seen.inserted
  {
    var ports :| GuardList(cfg, seen.known, ports) && GuardIs(s.fw, ports);
    if !cfg.nftGuard {
      assert GuardList(cfg, D.GroupPorts(s.db), ports);
    } else if GuardRight(cfg, s) {
      var all :| GuardList(cfg, D.GroupPorts(s.db), all) && GuardIs(s.fw, all);
      OneGuard(s.fw, ports, all);
      GroupPortsAreValid(s.db);
      assert seen.known == D.GroupPorts(s.db);
    }
  }

  // serve: one Maintain on whatever the host holds, then requests and Maintains
  // in any order.  Every desired rule is in the firewall; the guard is the layout
  // of the groups' ports at the last sync, which is that of all groups' ports
  // exactly when no group was inserted since.
  lemma EveryServedState(cfg: Config, s: State, now: int, a: Answers, first: State, steps: seq<Step>, here: State, seen: Seen)
    requires Startable(s) && Answered(cfg, s, now, a) && first == SpecMaintain(cfg, s, now, a)
    requires Run(cfg, first, steps) && here == After(cfg, first, steps)
    requires seen == SeenAfter(cfg, first, steps, Seen(D.GroupPorts(first.db), false))
    ensures Inv(cfg, here) && StaysOurs(s.fw, here.fw)
    ensures SeenRight(cfg, here, seen)
    ensures GuardRight(cfg, here) <==> !cfg.nftGuard || !seen.inserted
  {
    MaintainExact(cfg, s, now, a);
    InvariantHolds(cfg, first, steps);
    SeenRunsRight(cfg, first, steps, Seen(D.GroupPorts(first.db), false));
    GuardRightExactly(cfg, here, seen);
  }

  // The guard covers the packet's port.
  predicate Guarded(cfg: Config, known: set<PortProto>, pkt: P.Packet) {
    cfg.nftGuard && PortProto(pkt.port, pkt.proto) in known
  }

  // In every such state what opens a connection to a port known at the last sync
  // gets in iff a managed rule grants it, so whenever it is desired; everything
  // else passes.
  lemma ServedPackets(cfg: Config, s: State, seen: Seen, pkt: P.Packet)
    requires Inv(cfg, s) && SeenRight(cfg, s, seen) && P.OnlyOurs(s.fw)
    ensures P.Accepts(s.fw.rules, pkt)
            <==> pkt.loopback || !P.Opens(pkt) || !Guarded(cfg, seen.known, pkt) || P.Granted(Grants(s.fw), pkt)
    ensures P.Granted(D.DesiredLocal(s.db), pkt) ==> P.Granted(Grants(s.fw), pkt)
  {
    var ports :| GuardList(cfg, seen.known, ports) && GuardIs(s.fw, ports);
    P.GuardedChainFilters(s.fw, ports, pkt);
    P.AllowMatchIsGranted(s.fw, pkt);
    GroupPortsAreValid(s.db);
    if g :| g in D.DesiredLocal(s.db) && ParseIP(g.ip) == Some(pkt.src) && g.port == pkt.port && g.proto == pkt.proto {
      assert g in Grants(s.fw);
    }
  }

  // So over every run of the server, from a chain without foreign rules.
  lemma EveryServedPacket(cfg: Config, s: State, now: int, a: Answers, first: State, steps: seq<Step>, here: State, seen: Seen, pkt: P.Packet)
    requires Startable(s) && Answered(cfg, s, now, a) && first == SpecMaintain(cfg, s, now, a) && P.OnlyOurs(s.fw)
    requires Run(cfg, first, steps) && here == After(cfg, first, steps)
    requires seen == SeenAfter(cfg, first, steps, Seen(D.GroupPorts(first.db), false))
    ensures P.Accepts(here.fw.rules, pkt)
            <==> pkt.loopback || !P.Opens(pkt) || !Guarded(cfg, seen.known, pkt) || P.Granted(Grants(here.fw), pkt)
    ensures P.Granted(D.DesiredLocal(here.db), pkt) ==> P.Granted(Grants(here.fw), pkt)
  {
    hide Startable, Inv, SeenRight, Run, After;
    EveryServedState(cfg, s, now, a, first, steps, here, seen);
    ServedPackets(cfg, here, seen, pkt);
  }
}
