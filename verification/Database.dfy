// The tables behind the server (internal/db): rows keyed by their primary keys,
// the queries the allowlist is computed with, and the writes.
module Database {
  import opened Net
  import opened Comments

  datatype User = User(username: string, secret: string, isAdmin: bool, ip: Option<Source>, lastKnock: Option<int>)
  datatype Group = Group(name: string, port: int, proto: Proto)
  datatype Member = Member(user: nat, group: nat)
  datatype Target = Target(group: nat, node: nat)

  datatype Tables = Tables(users: map<nat, User>, groups: map<nat, Group>, members: map<Member, bool>,
                           nodes: map<nat, string>, targets: map<Target, PortProto>, nextUser: nat, nextGroup: nat)

  // ---- what the schema and the handlers' checks keep ----

  predicate UniqueUsers(t: Tables) {
    forall i, j :: i in t.users && j in t.users && t.users[i].username == t.users[j].username ==> i == j
  }

  // groups.name is UNIQUE.
  predicate UniqueGroups(t: Tables) {
    forall i, j :: i in t.groups && j in t.groups && t.groups[i].name == t.groups[j].name ==> i == j
  }

  // So is (port, proto), except in tables older than that index that held
  // duplicates already; nothing but OnePortEach below asks for it.
  predicate UniquePorts(t: Tables) {
    forall i, j :: i in t.groups && j in t.groups && PortOf(t.groups[i]) == PortOf(t.groups[j]) ==> i == j
  }

  function PortOf(g: Group): PortProto {
    PortProto(g.port, g.proto)
  }

  predicate ValidUser(u: User) {
    ValidName(u.username) && (u.ip.Some? ==> Canonical(u.ip.value) && u.lastKnock.Some?)
  }

  predicate ValidGroup(g: Group) {
    ValidName(g.name) && ValidPort(g.port, g.proto)
  }

  // Foreign keys, and AUTOINCREMENT never reusing an id.
  predicate Linked(t: Tables) {
    (forall k :: k in t.members ==> k.user in t.users && k.group in t.groups) &&
    (forall k :: k in t.targets ==> k.group in t.groups && k.node in t.nodes) &&
    (forall i :: i in t.users ==> i < t.nextUser) && forall i :: i in t.groups ==> i < t.nextGroup
  }

  predicate ValidTables(t: Tables) {
    UniqueUsers(t) && UniqueGroups(t) && Linked(t) &&
    (forall i :: i in t.users ==> ValidUser(t.users[i])) && forall i :: i in t.groups ==> ValidGroup(t.groups[i])
  }

  // ---- queries ----

  // "current_ip IS NOT NULL AND current_ip != ''".
  predicate Recorded(u: User) {
    u.ip.Some? && u.ip.value != NotAnIP("")
  }

  // An enabled membership of a user with a recorded address.
  predicate Serves(t: Tables, k: Member) {
    k in t.members && t.members[k] && k.user in t.users && k.group in t.groups && Recorded(t.users[k.user])
  }

  function GrantAt(t: Tables, k: Member): Grant
    requires Serves(t, k)
  {
    var u, g := t.users[k.user], t.groups[k.group];
    Grant(u.ip.value, g.port, g.proto, u.username, g.name)
  }

  function DesiredLocal(t: Tables): set<Grant> {
    set k | k in t.members && Serves(t, k) :: GrantAt(t, k)
  }

  predicate ServesNode(t: Tables, node: nat, k: Member) {
    Serves(t, k) && Target(k.group, node) in t.targets
  }

  function NodeGrantAt(t: Tables, node: nat, k: Member): Grant
    requires ServesNode(t, node, k)
  {
    var target := t.targets[Target(k.group, node)];
    GrantAt(t, k).(port := target.port, proto := target.proto)
  }

  function DesiredForNode(t: Tables, node: nat): set<Grant> {
    set k | k in t.members && ServesNode(t, node, k) :: NodeGrantAt(t, node, k)
  }

  // NodeTargetPorts.
  function TargetPorts(t: Tables, node: nat): set<PortProto> {
    set k | k in t.targets && k.node == node :: t.targets[k]
  }

  // GetUserGroups(user, onlyEnabled).
  function EnabledGroups(t: Tables, user: nat): set<Group> {
    set k | k in t.members && k.user == user && t.members[k] && k.group in t.groups :: t.groups[k.group]
  }

  function GroupPorts(t: Tables): set<PortProto> {
    set id | id in t.groups :: PortOf(t.groups[id])
  }

  // A query returns its rows in some order.
  predicate Lists<T(==)>(rows: seq<T>, answer: set<T>) {
    (forall x :: x in rows ==> x in answer) && forall x :: x in answer ==> x in rows
  }

  predicate Once<T(==)>(rows: seq<T>) {
    forall i, j :: 0 <= i < j < |rows| ==> rows[i] != rows[j]
  }

  lemma OnceMore<T>(rows: seq<T>, x: T)
    requires Once(rows) && x !in rows
    ensures Once(rows + [x])
  {
  }

  predicate ListsOnce<T(==)>(rows: seq<T>, answer: set<T>) {
    Lists(rows, answer) && Once(rows)
  }

  // GetUserByUsername.
  ghost function FindUser(t: Tables, username: string): Option<nat> {
    if exists i :: i in t.users && t.users[i].username == username then
      var i :| i in t.users && t.users[i].username == username;
      Some(i)
    else None
  }

  // ---- writes ----

  function SetUser(t: Tables, id: nat, u: User): Tables {
    t.(users := t.users[id := u])
  }

  // RecordIPChange: the address before, and the tables after.
  function Record(t: Tables, id: nat, ip: Source, now: int): (Tables, Option<Source>)
    requires id in t.users
  {
    (SetUser(t, id, t.users[id].(ip := Some(ip), lastKnock := Some(now))), t.users[id].ip)
  }

  function Clear(t: Tables, id: nat): Tables {
    if id in t.users then SetUser(t, id, t.users[id].(ip := None, lastKnock := None)) else t
  }

  function Rotate(t: Tables, id: nat, secret: string): Tables {
    if id in t.users then SetUser(t, id, t.users[id].(secret := secret)) else t
  }

  function SetAdmin(t: Tables, id: nat, isAdmin: bool): Tables {
    if id in t.users then SetUser(t, id, t.users[id].(isAdmin := isAdmin)) else t
  }

  // None: UNIQUE(username).
  function Create(t: Tables, username: string, secret: string, isAdmin: bool): Option<Tables> {
    if exists i :: i in t.users && t.users[i].username == username then None
    else Some(SetUser(t, t.nextUser, User(username, secret, isAdmin, None, None)).(nextUser := t.nextUser + 1))
  }

  // DELETE FROM users, cascading to the memberships.
  function Drop(t: Tables, id: nat): Tables {
    t.(users := map i | i in t.users && i != id :: t.users[i],
       members := map k | k in t.members && k.user != id :: t.members[k])
  }

  // None: UNIQUE(name) or UNIQUE(port, proto).
  function AddGroup(t: Tables, g: Group): Option<Tables> {
    if exists i :: i in t.groups && (t.groups[i].name == g.name || PortOf(t.groups[i]) == PortOf(g)) then None
    else Some(t.(groups := t.groups[t.nextGroup := g], nextGroup := t.nextGroup + 1))
  }

  // DELETE FROM groups, cascading to memberships and targets.
  function DropGroup(t: Tables, id: nat): Tables {
    t.(groups := map i | i in t.groups && i != id :: t.groups[i],
       members := map k | k in t.members && k.group != id :: t.members[k],
       targets := map k | k in t.targets && k.group != id :: t.targets[k])
  }

  // AddMembership, an upsert.
  function Join(t: Tables, k: Member, enabled: bool): Tables {
    if k.user in t.users && k.group in t.groups then t.(members := t.members[k := enabled]) else t
  }

  function Leave(t: Tables, k: Member): Tables {
    t.(members := map x | x in t.members && x != k :: t.members[x])
  }

  // SetMembershipEnabled: an UPDATE makes no new row.
  function Enable(t: Tables, k: Member, enabled: bool): Tables {
    if k in t.members then t.(members := t.members[k := enabled]) else t
  }

  // AddGroupTarget, an upsert.
  function SetTarget(t: Tables, k: Target, at: PortProto): Tables {
    if k.group in t.groups && k.node in t.nodes then t.(targets := t.targets[k := at]) else t
  }

  function DropTarget(t: Tables, k: Target): Tables {
    t.(targets := map x | x in t.targets && x != k :: t.targets[x])
  }

  // ---- every write keeps the tables valid ----

  lemma FindUserFinds(t: Tables, username: string)
    requires ValidTables(t)
    ensures match FindUser(t, username)
            case None => forall i :: i in t.users ==> t.users[i].username != username
            case Some(id) => id in t.users && t.users[id].username == username && ValidName(username) &&
                             forall i :: i in t.users && t.users[i].username == username ==> i == id
  {
  }

  lemma SetUserKeepsValid(t: Tables, id: nat, u: User)
    requires ValidTables(t) && id in t.users && u.username == t.users[id].username && ValidUser(u)
    ensures ValidTables(SetUser(t, id, u))
  {
  }

  lemma UserWritesKeepValid(t: Tables, id: nat, secret: string, isAdmin: bool)
    requires ValidTables(t)
    ensures ValidTables(Clear(t, id)) && ValidTables(Rotate(t, id, secret)) && ValidTables(SetAdmin(t, id, isAdmin))
  {
    if id in t.users {
      SetUserKeepsValid(t, id, t.users[id].(ip := None, lastKnock := None));
      SetUserKeepsValid(t, id, t.users[id].(secret := secret));
      SetUserKeepsValid(t, id, t.users[id].(isAdmin := isAdmin));
    }
  }

  lemma RecordKeepsValid(t: Tables, id: nat, ip: Source, now: int)
    requires ValidTables(t) && id in t.users && Canonical(ip)
    ensures ValidTables(Record(t, id, ip, now).0)
  {
    SetUserKeepsValid(t, id, t.users[id].(ip := Some(ip), lastKnock := Some(now)));
  }

  lemma MembersKeepValid(t: Tables, members: map<Member, bool>)
    requires ValidTables(t) && forall k :: k in members ==> k.user in t.users && k.group in t.groups
    ensures ValidTables(t.(members := members))
  {
    hide ValidUser, ValidGroup;
  }

  lemma JoinKeepsValid(t: Tables, k: Member, enabled: bool)
    requires ValidTables(t)
    ensures ValidTables(Join(t, k, enabled))
  {
    MembersKeepValid(t, Join(t, k, enabled).members);
  }

  lemma LeaveKeepsValid(t: Tables, k: Member)
    requires ValidTables(t)
    ensures ValidTables(Leave(t, k))
  {
    MembersKeepValid(t, Leave(t, k).members);
  }

  lemma EnableKeepsValid(t: Tables, k: Member, enabled: bool)
    requires ValidTables(t)
    ensures ValidTables(Enable(t, k, enabled))
  {
    MembersKeepValid(t, Enable(t, k, enabled).members);
  }

  // A new row under an unused key and name.
  lemma NewUserKeepsValid(t: Tables, id: nat, u: User)
    requires ValidTables(t) && ValidUser(u) && t.nextUser <= id
    requires forall i :: i in t.users ==> t.users[i].username != u.username
    ensures ValidTables(t.(users := t.users[id := u], nextUser := id + 1))
  {
    var t2 := t.(users := t.users[id := u], nextUser := id + 1);
    assert UniqueUsers(t2) && Linked(t2);
    assert t2.groups == t.groups && UniqueGroups(t2);
  }

  lemma CreateKeepsValid(t: Tables, username: string, secret: string, isAdmin: bool)
    requires ValidTables(t) && ValidName(username)
    ensures Create(t, username, secret, isAdmin).Some? ==> ValidTables(Create(t, username, secret, isAdmin).value)
  {
    if Create(t, username, secret, isAdmin).Some? {
      NewUserKeepsValid(t, t.nextUser, User(username, secret, isAdmin, None, None));
    }
  }

  lemma NewGroupKeepsValid(t: Tables, id: nat, g: Group)
    requires ValidTables(t) && ValidGroup(g) && t.nextGroup <= id
    requires forall i :: i in t.groups ==> t.groups[i].name != g.name
    ensures ValidTables(t.(groups := t.groups[id := g], nextGroup := id + 1))
  {
    hide ValidUser, ValidGroup;
    var t2 := t.(groups := t.groups[id := g], nextGroup := id + 1);
    assert UniqueGroups(t2) && Linked(t2);
    assert t2.users == t.users && UniqueUsers(t2);
  }

  lemma AddGroupKeepsValid(t: Tables, g: Group)
    requires ValidTables(t) && ValidGroup(g)
    ensures AddGroup(t, g).Some? ==> ValidTables(AddGroup(t, g).value)
  {
    if AddGroup(t, g).Some? {
      NewGroupKeepsValid(t, t.nextGroup, g);
    }
  }

  // Where each port has one group, it has after every write to the groups.
  lemma OnePortEach(t: Tables, g: Group, id: nat)
    requires ValidTables(t) && UniquePorts(t)
    ensures AddGroup(t, g).Some? ==> UniquePorts(AddGroup(t, g).value)
    ensures UniquePorts(DropGroup(t, id))
  {
  }

  lemma DropsKeepValid(t: Tables, id: nat)
    requires ValidTables(t)
    ensures ValidTables(Drop(t, id)) && ValidTables(DropGroup(t, id))
  {
  }

  // ---- what the writes do to the desired state ----

  lemma DesiredComesFrom(t: Tables, d: Grant) returns (k: Member)
    requires d in DesiredLocal(t)
    ensures Serves(t, k) && GrantAt(t, k) == d
  {
    k :| k in t.members && Serves(t, k) && GrantAt(t, k) == d;
  }

  // Nothing is desired for a user without an address.
  lemma NothingDesiredWithoutIP(t: Tables, username: string)
    requires forall i :: i in t.users && t.users[i].username == username ==> t.users[i].ip == None
    ensures forall d :: d in DesiredLocal(t) ==> d.user != username
  {
    forall d | d in DesiredLocal(t)
      ensures d.user != username
    {
      var k := DesiredComesFrom(t, d);
    }
  }

  // A user name and a group name identify the membership.
  lemma NamesIdentify(t: Tables, k: Member, l: Member)
    requires ValidTables(t) && k.user in t.users && k.group in t.groups && l.user in t.users && l.group in t.groups
    requires t.users[k.user].username == t.users[l.user].username && t.groups[k.group].name == t.groups[l.group].name
    ensures k == l
  {
  }

  // Memberships left alone, of users and groups left alone, stay desired as they
  // were.
  lemma StillDesired(t: Tables, t2: Tables, k: Member)
    requires Serves(t2, k) && k in t.members && t.members[k] && k.user in t.users && k.group in t.groups
    requires t.users[k.user].username == t2.users[k.user].username && t.users[k.user].ip == t2.users[k.user].ip
    requires t.groups[k.group] == t2.groups[k.group]
    ensures GrantAt(t2, k) in DesiredLocal(t)
  {
    assert Serves(t, k) && GrantAt(t, k) == GrantAt(t2, k);
  }

  lemma NodeDesiredFrom(t: Tables, node: nat, d: Grant) returns (m: Member)
    requires d in DesiredForNode(t, node)
    ensures ServesNode(t, node, m) && NodeGrantAt(t, node, m) == d
  {
    m :| m in t.members && ServesNode(t, node, m) && NodeGrantAt(t, node, m) == d;
  }

  lemma NodeDesires(t: Tables, node: nat, m: Member)
    ensures ServesNode(t, node, m) ==> NodeGrantAt(t, node, m) in DesiredForNode(t, node)
  {
  }

  // A new target moves the group's rules on its node to the target's port, and
  // changes nothing elsewhere.
  lemma SetTargetMovesTheGroup(t: Tables, k: Target, at: PortProto, node: nat, d: Grant)
    requires ValidTables(t) && k.group in t.groups && k.node in t.nodes
    ensures ValidTables(SetTarget(t, k, at))
    ensures var desired := DesiredForNode(SetTarget(t, k, at), node);
            if node == k.node && d.group == t.groups[k.group].name
            then d in desired <==> exists m :: Serves(t, m) && m.group == k.group && d == GrantAt(t, m).(port := at.port, proto := at.proto)
            else d in desired <==> d in DesiredForNode(t, node)
  {
    TargetsKeepValid(t, k, at);
    hide ValidTables, Serves, GrantAt, SetTarget, DesiredForNode;
    var t2 := SetTarget(t, k, at);
    if d in DesiredForNode(t2, node) {
      var m := NodeDesiredFrom(t2, node, d);
      SetTargetAt(t, k, at, node, m);
      NodeDesires(t, node, m);
    }
    if d in DesiredForNode(t, node) {
      var m := NodeDesiredFrom(t, node, d);
      SetTargetAt(t, k, at, node, m);
      NodeDesires(t2, node, m);
    }
    if m :| Serves(t, m) && m.group == k.group && node == k.node && d == GrantAt(t, m).(port := at.port, proto := at.proto) {
      SetTargetAt(t, k, at, node, m);
      NodeDesires(t2, node, m);
    }
  }

  // One member's rule on the node, around the upsert.
  lemma SetTargetAt(t: Tables, k: Target, at: PortProto, node: nat, m: Member)
    requires ValidTables(t) && k.group in t.groups && k.node in t.nodes
    ensures Serves(t, m) ==> (GrantAt(t, m).group == t.groups[k.group].name <==> m.group == k.group)
    ensures var t2 := SetTarget(t, k, at);
            if Target(m.group, node) == k then
              (ServesNode(t2, node, m) <==> Serves(t, m)) &&
              (Serves(t, m) ==> NodeGrantAt(t2, node, m) == GrantAt(t, m).(port := at.port, proto := at.proto))
            else
              (ServesNode(t2, node, m) <==> ServesNode(t, node, m)) &&
              (ServesNode(t, node, m) ==> NodeGrantAt(t2, node, m) == NodeGrantAt(t, node, m))
  {
    hide UniqueUsers, ValidUser, ValidGroup;
  }

  lemma DropTargetClosesTheGroup(t: Tables, k: Target, node: nat, d: Grant)
    requires ValidTables(t) && k.group in t.groups
    ensures ValidTables(DropTarget(t, k))
    ensures d in DesiredForNode(DropTarget(t, k), node)
            <==> d in DesiredForNode(t, node) && !(node == k.node && d.group == t.groups[k.group].name)
  {
    TargetsKeepValid(t, k, PortProto(0, Tcp));
    hide ValidTables, Serves, GrantAt, DropTarget, DesiredForNode;
    var t2 := DropTarget(t, k);
    if d in DesiredForNode(t2, node) {
      var m := NodeDesiredFrom(t2, node, d);
      DropTargetAt(t, k, node, m);
      NodeDesires(t, node, m);
    }
    if d in DesiredForNode(t, node) {
      var m := NodeDesiredFrom(t, node, d);
      DropTargetAt(t, k, node, m);
      NodeDesires(t2, node, m);
    }
  }

  lemma DropTargetAt(t: Tables, k: Target, node: nat, m: Member)
    requires ValidTables(t) && k.group in t.groups
    ensures Serves(t, m) ==> (GrantAt(t, m).group == t.groups[k.group].name <==> m.group == k.group)
    ensures var t2 := DropTarget(t, k);
            (ServesNode(t2, node, m) <==> ServesNode(t, node, m) && Target(m.group, node) != k) &&
            (ServesNode(t2, node, m) ==> NodeGrantAt(t2, node, m) == NodeGrantAt(t, node, m))
  {
    hide UniqueUsers, ValidUser, ValidGroup;
  }

  lemma TargetsKeepValid(t: Tables, k: Target, at: PortProto)
    requires ValidTables(t) && k.group in t.groups
    ensures k.node in t.nodes ==> ValidTables(SetTarget(t, k, at))
    ensures ValidTables(DropTarget(t, k))
  {
  }

  // A user's groups as the map Reconcile takes (knock.go portMap).
  function PortMapOf(groups: seq<Group>): (r: map<string, PortProto>)
    ensures forall n :: n in r ==> exists i :: 0 <= i < |groups| && groups[i].name == n && r[n] == PortOf(groups[i])
    ensures forall i :: 0 <= i < |groups| ==> groups[i].name in r
  {
    if groups == [] then map[]
    else PortMapOf(groups[..|groups| - 1])[groups[|groups| - 1].name := PortOf(groups[|groups| - 1])]
  }

  // With unique names the map loses nothing.
  lemma PortMapExact(t: Tables, user: nat, groups: seq<Group>)
    requires ValidTables(t) && Lists(groups, EnabledGroups(t, user))
    ensures forall n :: n in PortMapOf(groups) ==> ValidName(n) && ValidPort(PortMapOf(groups)[n].port, PortMapOf(groups)[n].proto)
    ensures forall g :: g in EnabledGroups(t, user) <==> g.name in PortMapOf(groups) && PortMapOf(groups)[g.name] == PortOf(g)
  {
    var m := PortMapOf(groups);
    forall n | n in m
      ensures ValidName(n) && ValidPort(m[n].port, m[n].proto)
      ensures Group(n, m[n].port, m[n].proto) in EnabledGroups(t, user)
    {
      var i :| 0 <= i < |groups| && groups[i].name == n && m[n] == PortOf(groups[i]);
      assert groups[i] in groups && groups[i] in EnabledGroups(t, user);
      assert groups[i] == Group(n, m[n].port, m[n].proto);
    }
    forall g | g in EnabledGroups(t, user)
      ensures g.name in m && m[g.name] == PortOf(g)
    {
      var j :| 0 <= j < |groups| && groups[j] == g;
      var h := Group(g.name, m[g.name].port, m[g.name].proto);
      assert h in EnabledGroups(t, user);
    }
  }

  // A grant with the names of a membership.
  predicate NamesOf(t: Tables, k: Member, g: Grant) {
    k.user in t.users && k.group in t.groups && g.user == t.users[k.user].username && g.group == t.groups[k.group].name
  }

  // The rows name memberships that are not to be visited any more.
  ghost predicate FromOthers(t: Tables, todo: set<Member>, rows: seq<Grant>) {
    forall g :: g in rows ==> exists k :: k !in todo && NamesOf(t, k, g)
  }

  lemma NotYetListed(t: Tables, todo: set<Member>, rows: seq<Grant>, k: Member, g: Grant)
    requires ValidTables(t) && FromOthers(t, todo, rows) && k in todo && NamesOf(t, k, g)
    ensures g !in rows
    ensures FromOthers(t, todo - {k}, rows + [g])
  {
    forall h | h in rows
      ensures h != g
    {
      var l :| l !in todo && NamesOf(t, l, h);
      if h == g {
        NamesIdentify(t, k, l);
      }
    }
    forall h | h in rows + [g]
      ensures exists l :: l !in todo - {k} && NamesOf(t, l, h)
    {
      if h in rows {
        var l :| l !in todo && NamesOf(t, l, h);
        assert l !in todo - {k};
      } else {
        assert k !in todo - {k};
      }
    }
  }

  // The groups are those of enabled memberships that are not to be visited any more.
  ghost predicate ByOthers(t: Tables, user: nat, todo: set<Member>, groups: seq<Group>) {
    forall g :: g in groups ==>
      exists k :: k !in todo && k in t.members && t.members[k] && k.user == user && k.group in t.groups && t.groups[k.group] == g
  }

  lemma NotYetAGroup(t: Tables, user: nat, todo: set<Member>, groups: seq<Group>, k: Member)
    requires ValidTables(t) && ByOthers(t, user, todo, groups) && k in todo
    requires k in t.members && t.members[k] && k.user == user
    ensures t.groups[k.group] !in groups
    ensures ByOthers(t, user, todo - {k}, groups + [t.groups[k.group]])
  {
    hide UniqueUsers, ValidUser, ValidGroup;
    forall g | g in groups
      ensures g != t.groups[k.group]
    {
      var l :| l !in todo && l in t.members && t.members[l] && l.user == user && l.group in t.groups && t.groups[l.group] == g;
      assert l.group != k.group;
    }
    forall g | g in groups + [t.groups[k.group]]
      ensures exists l :: l !in todo - {k} && l in t.members && t.members[l] && l.user == user && l.group in t.groups && t.groups[l.group] == g
    {
      if g in groups {
        var l :| l !in todo && l in t.members && t.members[l] && l.user == user && l.group in t.groups && t.groups[l.group] == g;
        assert l !in todo - {k};
      } else {
        assert k !in todo - {k};
      }
    }
  }

  // ---- the database object ----

  class Db {
    var t: Tables

    ghost predicate Valid()
      reads this
    {
      ValidTables(t)
    }

    constructor (t: Tables)
      requires ValidTables(t)
      ensures this.t == t && Valid()
    {
      this.t := t;
    }

    method GetUserByUsername(username: string) returns (id: Option<nat>)
      requires Valid()
      ensures id == FindUser(t, username)
      ensures id.Some? ==> id.value in t.users && t.users[id.value].username == username
    {
      FindUserFinds(t, username);
      if i :| i in t.users && t.users[i].username == username {
        id := Some(i);
      } else {
        id := None;
      }
    }

    // The atomic claim of an address; an audit row tells a change (not modelled).
    method RecordIPChange(id: nat, ip: Source, now: int) returns (prior: Option<Source>)
      requires Valid() && id in t.users
      modifies this
      ensures t == Record(old(t), id, ip, now).0 && prior == old(t).users[id].ip
      ensures Canonical(ip) ==> Valid()
    {
      if Canonical(ip) {
        RecordKeepsValid(t, id, ip, now);
      }
      prior := t.users[id].ip;
      t := t.(users := t.users[id := t.users[id].(ip := Some(ip), lastKnock := Some(now))]);
    }

    method ClearUserState(id: nat)
      requires Valid()
      modifies this
      ensures Valid() && t == Clear(old(t), id)
    {
      UserWritesKeepValid(t, id, "", false);
      if id in t.users {
        t := t.(users := t.users[id := t.users[id].(ip := None, lastKnock := None)]);
      }
    }

    method RotateSecret(id: nat, secret: string)
      requires Valid()
      modifies this
      ensures Valid() && t == Rotate(old(t), id, secret)
    {
      UserWritesKeepValid(t, id, secret, false);
      if id in t.users {
        t := t.(users := t.users[id := t.users[id].(secret := secret)]);
      }
    }

    method SetUserAdmin(id: nat, isAdmin: bool)
      requires Valid()
      modifies this
      ensures Valid() && t == SetAdmin(old(t), id, isAdmin)
    {
      UserWritesKeepValid(t, id, "", isAdmin);
      if id in t.users {
        t := t.(users := t.users[id := t.users[id].(isAdmin := isAdmin)]);
      }
    }

    method CreateUser(username: string, secret: string, isAdmin: bool) returns (ok: bool)
      requires Valid() && ValidName(username)
      modifies this
      ensures Valid() && ok == Create(old(t), username, secret, isAdmin).Some?
      ensures t == if ok then Create(old(t), username, secret, isAdmin).value else old(t)
    {
      CreateKeepsValid(t, username, secret, isAdmin);
      var taken := GetUserByUsername(username);
      FindUserFinds(t, username);
      if taken.Some? {
        return false;
      }
      t := t.(users := t.users[t.nextUser := User(username, secret, isAdmin, None, None)], nextUser := t.nextUser + 1);
      ok := true;
    }

    method DeleteUser(id: nat)
      requires Valid()
      modifies this
      ensures Valid() && t == Drop(old(t), id)
    {
      DropsKeepValid(t, id);
      t := Drop(t, id);
    }

    method CreateGroup(g: Group) returns (ok: bool)
      requires Valid() && ValidGroup(g)
      modifies this
      ensures Valid() && ok == AddGroup(old(t), g).Some?
      ensures t == if ok then AddGroup(old(t), g).value else old(t)
    {
      AddGroupKeepsValid(t, g);
      match AddGroup(t, g) {
        case None => ok := false;
        case Some(after) =>
          t := after;
          ok := true;
      }
    }

    method DeleteGroup(id: nat)
      requires Valid()
      modifies this
      ensures Valid() && t == DropGroup(old(t), id)
    {
      DropsKeepValid(t, id);
      t := DropGroup(t, id);
    }

    method AddMembership(k: Member, enabled: bool)
      requires Valid()
      modifies this
      ensures Valid() && t == Join(old(t), k, enabled)
    {
      JoinKeepsValid(t, k, enabled);
      if k.user in t.users && k.group in t.groups {
        t := t.(members := t.members[k := enabled]);
      }
    }

    method RemoveMembership(k: Member)
      requires Valid()
      modifies this
      ensures Valid() && t == Leave(old(t), k)
    {
      LeaveKeepsValid(t, k);
      t := Leave(t, k);
    }

    method SetMembershipEnabled(k: Member, enabled: bool)
      requires Valid()
      modifies this
      ensures Valid() && t == Enable(old(t), k, enabled)
    {
      EnableKeepsValid(t, k, enabled);
      if k in t.members {
        t := t.(members := t.members[k := enabled]);
      }
    }

    method GetUserGroups(id: nat) returns (groups: seq<Group>)
      requires Valid()
      ensures ListsOnce(groups, EnabledGroups(t, id))
      ensures forall g :: g in groups <==>
                exists k :: k in t.members && t.members[k] && k.user == id && k.group in t.groups && t.groups[k.group] == g
    {
      hide UniqueUsers, UniqueGroups, ValidUser, ValidGroup;
      groups := [];
      var todo := t.members.Keys;
      while todo != {}
        invariant todo <= t.members.Keys
        invariant Once(groups) && ByOthers(t, id, todo, groups)
        invariant forall k :: k in t.members && k !in todo && k.user == id && t.members[k] ==> t.groups[k.group] in groups
      {
        var k :| k in todo;
        if k.user == id && t.members[k] {
          NotYetAGroup(t, id, todo, groups, k);
          groups := groups + [t.groups[k.group]];
        }
        todo := todo - {k};
      }
    }

    method ListGroupPorts() returns (ports: seq<PortProto>)
      requires Valid()
      ensures Lists(ports, GroupPorts(t))
      ensures forall p :: p in ports <==> exists i :: i in t.groups && t.groups[i].port == p.port && t.groups[i].proto == p.proto
    {
      ports := [];
      var todo := t.groups.Keys;
      while todo != {}
        invariant todo <= t.groups.Keys
        invariant forall p :: p in ports ==> p in GroupPorts(t)
        invariant forall i :: i in t.groups && i !in todo ==> PortOf(t.groups[i]) in ports
      {
        var i :| i in todo;
        todo := todo - {i};
        ports := ports + [PortOf(t.groups[i])];
      }
    }

    method DesiredStateLocal() returns (rows: seq<Grant>)
      requires Valid()
      ensures ListsOnce(rows, DesiredLocal(t))
      ensures forall d :: d in rows <==>
                exists k :: k in t.members && t.members[k] && t.users[k.user].ip.Some? && t.users[k.user].ip != Some(NotAnIP("")) &&
                            d == Grant(t.users[k.user].ip.value, t.groups[k.group].port, t.groups[k.group].proto,
                                       t.users[k.user].username, t.groups[k.group].name)
    {
      hide UniqueUsers, UniqueGroups, ValidUser, ValidGroup;
      rows := [];
      var todo := t.members.Keys;
      while todo != {}
        invariant todo <= t.members.Keys
        invariant Once(rows) && FromOthers(t, todo, rows)
        invariant forall g :: g in rows ==> g in DesiredLocal(t)
        invariant forall k :: Serves(t, k) && k !in todo ==> GrantAt(t, k) in rows
      {
        var k :| k in todo;
        var u, g := t.users[k.user], t.groups[k.group];
        if t.members[k] && u.ip.Some? && u.ip.value != NotAnIP("") {
          assert Serves(t, k);
          NotYetListed(t, todo, rows, k, GrantAt(t, k));
          rows := rows + [Grant(u.ip.value, g.port, g.proto, u.username, g.name)];
        }
        todo := todo - {k};
      }
    }

    method DesiredStateForNode(node: nat) returns (rows: seq<Grant>)
      requires Valid()
      ensures ListsOnce(rows, DesiredForNode(t, node))
      ensures forall d :: d in rows <==>
                exists k :: k in t.members && t.members[k] && t.users[k.user].ip.Some? && t.users[k.user].ip != Some(NotAnIP("")) &&
                            Target(k.group, node) in t.targets &&
                            d == Grant(t.users[k.user].ip.value, t.targets[Target(k.group, node)].port,
                                       t.targets[Target(k.group, node)].proto, t.users[k.user].username, t.groups[k.group].name)
    {
      hide UniqueUsers, UniqueGroups, ValidUser, ValidGroup;
      rows := [];
      var todo := t.members.Keys;
      while todo != {}
        invariant todo <= t.members.Keys
        invariant Once(rows) && FromOthers(t, todo, rows)
        invariant forall g :: g in rows ==> g in DesiredForNode(t, node)
        invariant forall k :: ServesNode(t, node, k) && k !in todo ==> NodeGrantAt(t, node, k) in rows
      {
        var k :| k in todo;
        var u, g := t.users[k.user], t.groups[k.group];
        if Target(k.group, node) in t.targets && t.members[k] && u.ip.Some? && u.ip.value != NotAnIP("") {
          assert ServesNode(t, node, k);
          var at := t.targets[Target(k.group, node)];
          NotYetListed(t, todo, rows, k, NodeGrantAt(t, node, k));
          rows := rows + [Grant(u.ip.value, at.port, at.proto, u.username, g.name)];
        }
        todo := todo - {k};
      }
    }

    method NodeTargetPorts(node: nat) returns (ports: seq<PortProto>)
      requires Valid()
      ensures Lists(ports, TargetPorts(t, node))
      ensures forall p :: p in ports <==> exists k :: k in t.targets && k.node == node && t.targets[k] == p
    {
      ports := [];
      var todo := t.targets.Keys;
      while todo != {}
        invariant todo <= t.targets.Keys
        invariant forall p :: p in ports ==> p in TargetPorts(t, node)
        invariant forall k :: k in t.targets && k !in todo && k.node == node ==> t.targets[k] in ports
      {
        var k :| k in todo;
        todo := todo - {k};
        if k.node == node {
          ports := ports + [t.targets[k]];
        }
      }
    }
  }
}
