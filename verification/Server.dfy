// The server's handlers and its periodic Maintain (internal/server), each one
// atomic step under fwMu on the tables and the nftables chain.  Only calls that
// passed their checks for authority are steps; a knock authenticates itself.
module Server {
  import opened Net
  import opened Comments
  import opened NftChain
  import opened Reconcile
  import opened Manager
  import D = Database

  const SECOND := 1_000_000_000 // time in nanoseconds
  const CLEANUP_EVERY := 3600 * SECOND
  const DAY := 86400            // in seconds

  datatype Config = Config(nftGuard: bool, cleanupDays: int, allowedPorts: seq<int>)

  datatype State = State(db: D.Tables, fw: Chain, lastCleanup: Option<int>)

  // ---- the client's address (middleware.go clientIP) ----

  // Where a request comes from: the peer's address, if Go prints it as one (not,
  // say, with a scope), whether that is a trusted proxy, its X-Real-IP header if it
  // is not blank, and the comma-separated parts of X-Forwarded-For, none if blank.
  datatype Origin = Origin(peer: Option<IPValue>, trusted: bool, realIP: Option<Source>, forwarded: seq<Source>)

  function Spelled(v: IPValue): Source {
    match v
    case V4(bits) => IPv4(bits, false, 0)
    case V6(bits) => IPv6(bits, 0)
  }

  function CanonicalOrNone(s: Source): Source {
    match CanonicalIP(s) case Some(ip) => ip case None => NotAnIP("")
  }

  function ClientIP(o: Origin): Source {
    if !o.trusted then (match o.peer case Some(v) => Spelled(v) case None => NotAnIP("?"))
    else if o.realIP.Some? then CanonicalOrNone(o.realIP.value)
    else if o.forwarded != [] then CanonicalOrNone(o.forwarded[|o.forwarded| - 1])
    else NotAnIP("")
  }

  predicate Loopback(v: IPValue) {
    (v.V4? && v.bits / 0x100_0000 == 127) || (v.V6? && v.bits == 1)
  }

  // What a knock may put on the allowlist.
  predicate Allowlistable(s: Source) {
    ParseIP(s).Some? && !Loopback(ParseIP(s).value) && ParseIP(s).value.bits != 0
  }

  // Headers count only from a trusted proxy, which then says all there is to say:
  // X-Real-IP, or without one the last part of X-Forwarded-For.
  lemma ClientIPIs(o: Origin)
    ensures !o.trusted ==> ParseIP(ClientIP(o)) == o.peer
    ensures o.trusted && o.realIP.Some? ==> ParseIP(ClientIP(o)) == ParseIP(o.realIP.value)
    ensures o.trusted && o.realIP.None? && o.forwarded != [] ==> ParseIP(ClientIP(o)) == ParseIP(o.forwarded[|o.forwarded| - 1])
    ensures o.trusted && o.realIP.None? && o.forwarded == [] ==> ParseIP(ClientIP(o)) == None
  {
  }

  // Refused: no address, 127.0.0.0/8, ::1, 0.0.0.0 and ::.
  lemma AllowlistableIs(s: Source)
    ensures Allowlistable(s)
            <==> match ParseIP(s)
                 case None => false
                 case Some(V4(bits)) => bits != 0 && !(0x7F00_0000 <= bits <= 0x7FFF_FFFF)
                 case Some(V6(bits)) => bits != 0 && bits != 1
  {
  }

  lemma ClientIPIsCanonical(o: Origin)
    ensures ParseIP(ClientIP(o)).Some? ==> Canonical(ClientIP(o))
  {
  }

  // ---- removals one by one ----

  // RemoveRule for each grant, a failure not stopping the next.
  function RemoveEach(c: Chain, grants: seq<Grant>): Chain
    decreases |grants|
  {
    if grants == [] then c else SpecRemove(RemoveEach(c, grants[..|grants| - 1]), grants[|grants| - 1]).0
  }

  function GrantsAt(user: string, ip: Source, groups: seq<D.Group>): (r: seq<Grant>)
    ensures |r| == |groups|
    ensures forall i :: 0 <= i < |r| ==> r[i] == WantedFor(user, ip, groups[i].name, D.PortOf(groups[i]))
  {
    seq(|groups|, i requires 0 <= i < |groups| => WantedFor(user, ip, groups[i].name, D.PortOf(groups[i])))
  }

  // ---- knock ----

  ghost predicate Authenticates(t: D.Tables, username: string, secret: string) {
    var id := D.FindUser(t, username);
    id.Some? && id.value in t.users && t.users[id.value].secret == secret
  }

  // `groups` is the user's enabled groups, `order` the map's iteration order.
  ghost function SpecKnock(s: State, username: string, secret: string, origin: Origin, now: int,
                           groups: seq<D.Group>, order: seq<string>): State
    requires forall n :: n in order ==> n in D.PortMapOf(groups)
  {
    var ip := ClientIP(origin);
    if !Authenticates(s.db, username, secret) || !Allowlistable(ip) then s
    else
      var id := D.FindUser(s.db, username).value;
      var r := SpecReconcile(s.fw, username, ip, D.PortMapOf(groups), order);
      if r.failed then s.(fw := r.chain)
      else
        var (db, prior) := D.Record(s.db, id, ip, now / SECOND);
        if prior == None || prior == Some(ip) then s.(db := db, fw := r.chain)
        else s.(db := db, fw := RemoveEach(r.chain, GrantsAt(username, prior.value, groups)))
  }

  // A knock leaves everything, or aligns the rules at its address; only an
  // authenticated one whose rules were applied is recorded.
  lemma KnockOutcome(s: State, username: string, secret: string, origin: Origin, now: int,
                     groups: seq<D.Group>, order: seq<string>)
    requires forall n :: n in order ==> n in D.PortMapOf(groups)
    ensures var s2 := SpecKnock(s, username, secret, origin, now, groups, order);
            var c := SpecReconcile(s.fw, username, ClientIP(origin), D.PortMapOf(groups), order).chain;
            var id := D.FindUser(s.db, username);
            s2.lastCleanup == s.lastCleanup &&
            if !Authenticates(s.db, username, secret) || !Allowlistable(ClientIP(origin)) then s2 == s
            else (s2.db == s.db && s2.fw == c) ||
                 (s2.db == D.Record(s.db, id.value, ClientIP(origin), now / SECOND).0 &&
                  (s2.fw == c || (s.db.users[id.value].ip.Some? &&
                                  s2.fw == RemoveEach(c, GrantsAt(username, s.db.users[id.value].ip.value, groups)))))
  {
  }

  // The tables after a knock.
  lemma KnockTables(s: State, username: string, secret: string, origin: Origin, now: int,
                    groups: seq<D.Group>, order: seq<string>)
    requires forall n :: n in order ==> n in D.PortMapOf(groups)
    ensures SpecKnock(s, username, secret, origin, now, groups, order).lastCleanup == s.lastCleanup
    ensures var db := SpecKnock(s, username, secret, origin, now, groups, order).db;
            db == s.db || (Authenticates(s.db, username, secret) &&
                           db == D.Record(s.db, D.FindUser(s.db, username).value, ClientIP(origin), now / SECOND).0)
  {
    hide D.PortMapOf, SpecReconcile, RemoveEach, D.Record, ClientIP;
  }

  // ---- memberships ----

  function MemberGrant(t: D.Tables, k: D.Member): Grant
    requires k.user in t.users && k.group in t.groups && t.users[k.user].ip.Some?
  {
    var u, g := t.users[k.user], t.groups[k.group];
    WantedFor(u.username, u.ip.value, g.name, D.PortOf(g))
  }

  predicate Online(t: D.Tables, k: D.Member) {
    k.user in t.users && k.group in t.groups && D.Recorded(t.users[k.user])
  }

  // setMembership: enabling re-applies all of the user's enabled groups.
  function SpecSetMembership(s: State, k: D.Member, enabled: bool, groups: seq<D.Group>, order: seq<string>): State
    requires forall n :: n in order ==> n in D.PortMapOf(groups)
  {
    var db := D.Enable(s.db, k, enabled);
    if !Online(db, k) then s.(db := db)
    else if !enabled then s.(db := db, fw := SpecRemove(s.fw, MemberGrant(db, k)).0)
    else
      var u := db.users[k.user];
      s.(db := db, fw := SpecReconcile(s.fw, u.username, u.ip.value, D.PortMapOf(groups), order).chain)
  }

  // adminAddMembership: an upsert; the rule is added whether there is one or not.
  function SpecAddMembership(s: State, k: D.Member, enabled: bool): State {
    if k.user !in s.db.users || k.group !in s.db.groups then s
    else
      var s1 := s.(db := D.Join(s.db, k, enabled));
      if Online(s.db, k) && enabled then s1.(fw := SpecAdd(s.fw, MemberGrant(s.db, k)).0) else s1
  }

  function SpecRemoveMembership(s: State, k: D.Member): State {
    if k.user !in s.db.users || k.group !in s.db.groups then s
    else
      var s1 := s.(db := D.Leave(s.db, k));
      if Online(s.db, k) then s1.(fw := SpecRemove(s.fw, MemberGrant(s.db, k)).0) else s1
  }

  // ---- users ----

  // adminRevokeUser; `rotate` is the new secret, if one is to be set.
  function SpecRevoke(s: State, id: nat, rotate: Option<string>): State {
    if id !in s.db.users then s
    else
      var db := D.Clear(s.db, id);
      s.(fw := SpecRemoveUser(s.fw, s.db.users[id].username).0,
         db := if rotate.Some? then D.Rotate(db, id, rotate.value) else db)
  }

  function SpecDeleteUser(s: State, id: nat): State {
    if id !in s.db.users then s
    else s.(fw := SpecRemoveUser(s.fw, s.db.users[id].username).0, db := D.Drop(s.db, id))
  }

  function SpecCreateUser(s: State, username: string, secret: string, isAdmin: bool): State {
    if !ValidName(username) then s
    else match D.Create(s.db, username, secret, isAdmin) case None => s case Some(db) => s.(db := db)
  }

  // ---- groups ----

  // What syncGuard lays out for a set of ports: all of them, or, with nft_guard
  // off, none.
  predicate GuardList(cfg: Config, known: set<PortProto>, ports: seq<PortProto>) {
    if cfg.nftGuard then D.Lists(ports, known) else ports == []
  }

  // The ports syncGuard takes: every group's.
  predicate GuardPorts(cfg: Config, t: D.Tables, ports: seq<PortProto>) {
    GuardList(cfg, D.GroupPorts(t), ports)
  }

  predicate MayCreate(cfg: Config, g: D.Group) {
    D.ValidGroup(g) && (cfg.allowedPorts == [] || g.port in cfg.allowedPorts)
  }

  // adminCreateGroup inserts the row without taking fwMu,
  function SpecInsertGroup(cfg: Config, s: State, g: D.Group): State {
    if !MayCreate(cfg, g) then s
    else match D.AddGroup(s.db, g) case None => s case Some(db) => s.(db := db)
  }

  // and only then takes it, to lay out the guard (syncGuardNow).
  function SpecSyncGuardNow(s: State, ports: seq<PortProto>): State {
    s.(fw := SpecSyncGuard(s.fw, ports).0)
  }

  // The members of a group that have an address, in the order of the query.
  function OnlineGrants(t: D.Tables, members: seq<D.Member>): (r: seq<Grant>)
    ensures forall g :: g in r <==> exists k :: k in members && Online(t, k) && MemberGrant(t, k) == g
  {
    if members == [] then []
    else
      var last := members[|members| - 1];
      OnlineGrants(t, members[..|members| - 1]) + if Online(t, last) then [MemberGrant(t, last)] else []
  }

  function MembersOf(t: D.Tables, group: nat): set<D.Member> {
    set k | k in t.members && k.group == group
  }

  function SpecDeleteGroup(s: State, id: nat, members: seq<D.Member>, ports: seq<PortProto>): State {
    if id !in s.db.groups then s
    else
      var fw := RemoveEach(s.fw, OnlineGrants(s.db, members));
      s.(db := D.DropGroup(s.db, id), fw := SpecSyncGuard(fw, ports).0)
  }

  // ---- Maintain ----

  predicate Expired(u: D.User, maxAge: int, now: int) {
    u.lastKnock.Some? && now - u.lastKnock.value > maxAge
  }

  datatype Cleaning = Cleaning(db: D.Tables, fw: Chain)

  // One user of CleanupStale; `groups` are the enabled ones.
  function CleanOne(s: Cleaning, id: nat, groups: seq<D.Group>, maxAge: int, now: int): Cleaning {
    if id !in s.db.users || !Expired(s.db.users[id], maxAge, now) then s
    else
      var u := s.db.users[id];
      Cleaning(D.Clear(s.db, id),
               if D.Recorded(u) then RemoveEach(s.fw, GrantsAt(u.username, u.ip.value, groups)) else s.fw)
  }

  // CleanupStale, over the users in the order of the query.
  function Clean(s: Cleaning, ids: seq<nat>, groups: map<nat, seq<D.Group>>, maxAge: int, now: int): Cleaning
    requires forall id :: id in ids ==> id in groups
    decreases |ids|
  {
    if ids == [] then s
    else
      var id := ids[|ids| - 1];
      CleanOne(Clean(s, ids[..|ids| - 1], groups, maxAge, now), id, groups[id], maxAge, now)
  }

  predicate Due(cfg: Config, s: State, now: int) {
    cfg.cleanupDays > 0 && (s.lastCleanup == None || now - s.lastCleanup.value >= CLEANUP_EVERY)
  }

  // What one Maintain's queries return, in whatever order.
  datatype Answers = Answers(ids: seq<nat>, groups: map<nat, seq<D.Group>>, desired: seq<Grant>, ports: seq<PortProto>)

  predicate Covers(a: Answers) {
    forall id :: id in a.ids ==> id in a.groups
  }

  // The tables and the chain after the hourly cleanup, if it is due.
  function Cleaned(cfg: Config, s: State, now: int, a: Answers): Cleaning
    requires Covers(a)
  {
    var s0 := Cleaning(s.db, s.fw);
    if Due(cfg, s, now) then Clean(s0, a.ids, a.groups, cfg.cleanupDays * DAY, now / SECOND) else s0
  }

  function SpecMaintain(cfg: Config, s: State, now: int, a: Answers): State
    requires Covers(a)
  {
    var (fw, ok) := SpecEnsureBase(s.fw);
    if !ok then s.(fw := fw)
    else
      var s1 := s.(fw := fw);
      var cleaned := Cleaned(cfg, s1, now, a);
      var r := SpecReconcileAll(Nft(cleaned.fw), a.desired);
      State(cleaned.db, SpecSyncGuard(ChainOf(r.host, cleaned.fw), a.ports).0,
            if Due(cfg, s, now) then Some(now) else s.lastCleanup)
  }

  // What the queries answer when asked: users and groups before the cleanup, the
  // desired state after it.
  predicate Answered(cfg: Config, s: State, now: int, a: Answers) {
    Covers(a) &&
    D.ListsOnce(a.ids, s.db.users.Keys) &&
    (forall id :: id in a.ids ==> D.ListsOnce(a.groups[id], D.EnabledGroups(s.db, id))) &&
    GuardPorts(cfg, s.db, a.ports) &&
    D.Lists(a.desired, D.DesiredLocal(Cleaned(cfg, s.(fw := SpecEnsureBase(s.fw).0), now, a).db))
  }
}
