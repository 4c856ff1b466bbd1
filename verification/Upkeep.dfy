// What the hourly cleanup and Maintain do, in rows, copies of rules and packets.
module Upkeep {
  import opened Net
  import opened NftChain
  import opened Reconcile
  import opened NftReconcile
  import opened Effects
  import opened Server
  import opened ServerRuns
  import opened MockBackend
  import P = Packets
  import opened Handlers
  import D = Database

  // ---- the cleanup ----

  // The row of a user idle for longer than `maxAge` seconds.
  predicate Idle(u: D.User, maxAge: int, now: int) {
    u.lastKnock.Some? && now - u.lastKnock.value > maxAge
  }

  lemma {:induction false} CleanRows(s: Cleaning, ids: seq<nat>, groups: map<nat, seq<D.Group>>, maxAge: int, now: int)
    requires forall id :: id in ids ==> id in groups
    ensures var db := Clean(s, ids, groups, maxAge, now).db;
            db == s.db.(users := db.users) && db.users.Keys == s.db.users.Keys &&
            forall i :: i in s.db.users ==>
              db.users[i] == if i in ids && Idle(s.db.users[i], maxAge, now) then s.db.users[i].(ip := None, lastKnock := None) else s.db.users[i]
    decreases |ids|
  {
    hide RemoveEach;
    if ids != [] {
      var front, last := ids[..|ids| - 1], ids[|ids| - 1];
      assert ids == front + [last];
      CleanRows(s, front, groups, maxAge, now);
    }
  }

  // The rule of an enabled membership of an idle user among these.
  ghost predicate IdleRule(t: D.Tables, ids: seq<nat>, maxAge: int, now: int, g: Grant) {
    exists k :: k in t.members && t.members[k] && k.user in ids && k.group in t.groups && IsAt(t, k.user, g.ip) &&
                Idle(t.users[k.user], maxAge, now) && g == RuleOf(t, k, g.ip)
  }

  // One idle user's rules, before anything else of theirs has changed.
  lemma IdleUserTakes(t: D.Tables, id: nat, groups: seq<D.Group>, maxAge: int, now: int, g: Grant)
    requires D.ValidTables(t) && id in t.users && D.ListsOnce(groups, D.EnabledGroups(t, id))
    requires Idle(t.users[id], maxAge, now) && t.users[id].ip.Some? && t.users[id].ip != Some(NotAnIP(""))
    ensures multiset(GrantsAt(t.users[id].username, t.users[id].ip.value, groups))[g]
            == if IdleRule(t, [id], maxAge, now, g) then 1 else 0
  {
    EachOnce(t, id, t.users[id].ip.value, groups, g);
    hide D.ValidTables, D.EnabledGroups, GrantsAt;
    if EnabledRule(t, id, t.users[id].ip.value, g) {
      var k :| k in t.members && t.members[k] && k.user == id && id in t.users && k.group in t.groups && g == RuleOf(t, k, t.users[id].ip.value);
      assert k.user in [id] && IsAt(t, k.user, g.ip);
    }
  }

  // CleanupStale takes out one copy of each enabled membership's rule of the idle
  // users, and no other rule.
  lemma {:induction false} CleanupTakes(s: Cleaning, ids: seq<nat>, groups: map<nat, seq<D.Group>>, maxAge: int, now: int, g: Grant)
    requires D.ValidTables(s.db) && Healthy(s.fw) && AllProper(s.fw) && D.Once(ids)
    requires forall id :: id in ids ==> id in s.db.users && id in groups && D.ListsOnce(groups[id], D.EnabledGroups(s.db, id))
    ensures var r := Clean(s, ids, groups, maxAge, now);
            Healthy(r.fw) && AllProper(r.fw) &&
            Rules(r.fw)[g] == if IdleRule(s.db, ids, maxAge, now, g) && Rules(s.fw)[g] > 0 then Rules(s.fw)[g] - 1 else Rules(s.fw)[g]
    decreases |ids|
  {
    hide Rules, Healthy, AllProper, D.ValidTables, D.EnabledGroups, CleanOne, RemoveEach;
    if ids != [] {
      var front, last := ids[..|ids| - 1], ids[|ids| - 1];
      assert ids == front + [last] && last in ids && last !in front;
      CleanupTakes(s, front, groups, maxAge, now, g);
      CleanRows(s, front, groups, maxAge, now);
      var mid := Clean(s, front, groups, maxAge, now);
      OneUserTakes(s.db, mid, last, groups[last], maxAge, now, g);
      IdleOneMore(s.db, front, last, maxAge, now, g);
    }
  }

  lemma OneUserTakes(t: D.Tables, mid: Cleaning, id: nat, groups: seq<D.Group>, maxAge: int, now: int, g: Grant)
    requires D.ValidTables(t) && Healthy(mid.fw) && AllProper(mid.fw)
    requires id in t.users && id in mid.db.users && mid.db.users[id] == t.users[id] && D.ListsOnce(groups, D.EnabledGroups(t, id))
    ensures var r := CleanOne(mid, id, groups, maxAge, now);
            Healthy(r.fw) && AllProper(r.fw) &&
            Rules(r.fw)[g] == if IdleRule(t, [id], maxAge, now, g) && Rules(mid.fw)[g] > 0 then Rules(mid.fw)[g] - 1 else Rules(mid.fw)[g]
  {
    hide Rules, Healthy, AllProper, D.EnabledGroups, RemoveEach;
    var u := t.users[id];
    if Idle(u, maxAge, now) && D.Recorded(u) {
      GroupsAreNamed(t, id, groups);
      hide D.ValidTables;
      RemoveEachCopies(mid.fw, GrantsAt(u.username, u.ip.value, groups));
      IdleUserTakes(t, id, groups, maxAge, now, g);
    }
  }

  // A rule names its user, so it is idle by one of them only.
  lemma IdleOneMore(t: D.Tables, front: seq<nat>, last: nat, maxAge: int, now: int, g: Grant)
    requires D.ValidTables(t) && last in t.users && last !in front
    ensures IdleRule(t, front + [last], maxAge, now, g) <==> IdleRule(t, front, maxAge, now, g) || IdleRule(t, [last], maxAge, now, g)
    ensures !(IdleRule(t, front, maxAge, now, g) && IdleRule(t, [last], maxAge, now, g))
  {
    if IdleRule(t, front + [last], maxAge, now, g) {
      var k :| k in t.members && t.members[k] && k.user in front + [last] && k.group in t.groups && IsAt(t, k.user, g.ip) &&
               Idle(t.users[k.user], maxAge, now) && g == RuleOf(t, k, g.ip);
      assert k.user in front || k.user in [last];
    }
    if IdleRule(t, [last], maxAge, now, g) {
      assert g.user == t.users[last].username;
    }
  }

  // ---- Maintain ----

  // When the cleanup runs: only if an age is configured, and not within an hour of
  // the last one (times are in nanoseconds).
  predicate CleansNow(cfg: Config, s: State, now: int) {
    cfg.cleanupDays > 0 && (s.lastCleanup == None || now >= s.lastCleanup.value + 3_600_000_000_000)
  }

  // Maintain changes nobody's row but those of users without a knock for more than
  // the configured days, and those only when the cleanup runs.
  lemma MaintainRows(cfg: Config, s: State, now: int, a: Answers, s2: State)
    requires Startable(s) && Answered(cfg, s, now, a) && s2 == SpecMaintain(cfg, s, now, a)
    ensures s2.db == s.db.(users := s2.db.users) && s2.db.users.Keys == s.db.users.Keys
    ensures forall i :: i in s.db.users ==>
              s2.db.users[i] == if CleansNow(cfg, s, now) && Idle(s.db.users[i], cfg.cleanupDays * 86_400, now / 1_000_000_000)
                                then s.db.users[i].(ip := None, lastKnock := None) else s.db.users[i]
    ensures s2.lastCleanup == if CleansNow(cfg, s, now) then Some(now) else s.lastCleanup
  {
    hide SpecReconcileAll, SpecSyncGuard, Clean;
    var base := SpecEnsureBase(s.fw).0;
    CleanRows(Cleaning(s.db, base), a.ids, a.groups, cfg.cleanupDays * DAY, now / SECOND);
  }

  lemma {:induction false} OneEachCopies(prefix: string, entries: seq<Entry>, g: Grant)
    requires OneEach(prefix, entries)
    ensures ChainCopies(prefix, entries)[g] == if g in GrantsOf(prefix, entries) then 1 else 0
  {
    if entries != [] {
      OneEachCopies(prefix, entries[1..], g);
    }
  }

  // The rule of an enabled membership of a user with an address.
  ghost predicate RowRule(t: D.Tables, g: Grant) {
    exists k :: k in t.members && t.members[k] && k.group in t.groups && IsAt(t, k.user, g.ip) && g == RuleOf(t, k, g.ip)
  }

  lemma RowRuleIsDesired(t: D.Tables, g: Grant)
    ensures RowRule(t, g) <==> g in D.DesiredLocal(t)
  {
    if RowRule(t, g) {
      var k :| k in t.members && t.members[k] && k.group in t.groups && IsAt(t, k.user, g.ip) && g == RuleOf(t, k, g.ip);
      assert D.Serves(t, k) && D.GrantAt(t, k) == g;
    }
    if g in D.DesiredLocal(t) {
      var k := D.DesiredComesFrom(t, g);
      assert IsAt(t, k.user, g.ip) && g == RuleOf(t, k, g.ip);
    }
  }

  // Right after Maintain, whatever the host held: one rule for each enabled
  // membership of a user with an address, and no other.
  lemma MaintainLeaves(cfg: Config, s: State, now: int, a: Answers, s2: State, g: Grant)
    requires Startable(s) && Answered(cfg, s, now, a) && s2 == SpecMaintain(cfg, s, now, a)
    ensures Rules(s2.fw)[g] == if RowRule(s2.db, g) then 1 else 0
  {
    hide Startable, Answered, SpecMaintain, SyncedBy, D.DesiredLocal, RowRule;
    MaintainExact(cfg, s, now, a);
    OneEachCopies(s2.fw.prefix, ManagedRules(s2.fw), g);
    RowRuleIsDesired(s2.db, g);
  }

  // A TCP connection attempt or a UDP datagram, not over loopback.
  predicate Knocking(pkt: P.Packet) {
    !pkt.loopback && ((pkt.proto == Tcp && pkt.syn && !pkt.ack) || pkt.proto == Udp)
  }

  // The port has a group.
  ghost predicate IsGroupPort(t: D.Tables, pkt: P.Packet) {
    exists i :: i in t.groups && t.groups[i].port == pkt.port && t.groups[i].proto == pkt.proto
  }

  // An enabled member of a group on the port has this address.
  ghost predicate IsMember(t: D.Tables, pkt: P.Packet) {
    exists k :: k in t.members && t.members[k] && k.group in t.groups && k.user in t.users &&
                t.groups[k.group].port == pkt.port && t.groups[k.group].proto == pkt.proto &&
                t.users[k.user].ip.Some? && ParseIP(t.users[k.user].ip.value) == Some(pkt.src)
  }

  lemma MembersAreGranted(t: D.Tables, pkt: P.Packet)
    ensures IsMember(t, pkt) <==> P.Granted(D.DesiredLocal(t), pkt)
  {
    if IsMember(t, pkt) {
      var k :| k in t.members && t.members[k] && k.group in t.groups && k.user in t.users &&
               t.groups[k.group].port == pkt.port && t.groups[k.group].proto == pkt.proto &&
               t.users[k.user].ip.Some? && ParseIP(t.users[k.user].ip.value) == Some(pkt.src);
      assert D.Serves(t, k) && D.GrantAt(t, k) in D.DesiredLocal(t);
    }
    if P.Granted(D.DesiredLocal(t), pkt) {
      var g :| g in D.DesiredLocal(t) && ParseIP(g.ip) == Some(pkt.src) && g.port == pkt.port && g.proto == pkt.proto;
      var k := D.DesiredComesFrom(t, g);
    }
  }

  // Right after Maintain, whatever the host's table held of ours: a connection to a
  // group's port is let in exactly from an enabled member's address; everything
  // else passes.
  lemma MaintainPackets(cfg: Config, s: State, now: int, a: Answers, s2: State, pkt: P.Packet)
    requires Startable(s) && Answered(cfg, s, now, a) && s2 == SpecMaintain(cfg, s, now, a)
    requires P.OnlyOurs(s.fw) && cfg.nftGuard
    ensures P.Accepts(s2.fw.rules, pkt) <==> !(Knocking(pkt) && IsGroupPort(s2.db, pkt)) || IsMember(s2.db, pkt)
  {
    MaintainExact(cfg, s, now, a);
    hide Startable, Answered, SpecMaintain, P.Accepts, D.DesiredLocal, IsMember, GuardIs, AllProper,
         D.ValidTables;
    var ports :| GuardList(cfg, D.GroupPorts(s2.db), ports) && GuardIs(s2.fw, ports);
    P.GuardedChainFilters(s2.fw, ports, pkt);
    P.AllowMatchIsGranted(s2.fw, pkt);
    MembersAreGranted(s2.db, pkt);
    GuardedIsGroupPort(cfg, s2.db, ports, pkt);
  }

  lemma GuardedIsGroupPort(cfg: Config, t: D.Tables, ports: seq<PortProto>, pkt: P.Packet)
    requires D.ValidTables(t) && cfg.nftGuard && GuardList(cfg, D.GroupPorts(t), ports)
    ensures PortProto(pkt.port, pkt.proto) in ports <==> IsGroupPort(t, pkt)
    ensures IsGroupPort(t, pkt) ==> ValidPort(pkt.port, pkt.proto)
  {
    var pp := PortProto(pkt.port, pkt.proto);
    if IsGroupPort(t, pkt) {
      var i :| i in t.groups && t.groups[i].port == pkt.port && t.groups[i].proto == pkt.proto;
      assert D.PortOf(t.groups[i]) == pp && D.ValidGroup(t.groups[i]);
    }
    if pp in ports {
      assert pp in D.GroupPorts(t);
      var i :| i in t.groups && D.PortOf(t.groups[i]) == pp;
    }
  }

  // With nft_guard off nothing is closed.
  lemma UnguardedPackets(cfg: Config, s: State, now: int, a: Answers, s2: State, pkt: P.Packet)
    requires Startable(s) && Answered(cfg, s, now, a) && s2 == SpecMaintain(cfg, s, now, a)
    requires P.OnlyOurs(s.fw) && !cfg.nftGuard
    ensures P.Accepts(s2.fw.rules, pkt)
  {
    MaintainExact(cfg, s, now, a);
    hide Startable, Answered, SpecMaintain, P.Accepts, D.DesiredLocal, GuardIs, AllProper, D.ValidTables;
    var ports :| GuardList(cfg, D.GroupPorts(s2.db), ports) && GuardIs(s2.fw, ports);
    P.GuardedChainFilters(s2.fw, ports, pkt);
  }
}
