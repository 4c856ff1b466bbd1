// What the chain does to packets: first match decides, policy accept.
module Packets {
  import opened Net
  import opened Seqs
  import opened Comments
  import opened GuardLayout
  import opened NftChain
  import opened Reconcile
  import opened NftReconcile

  // An incoming packet; syn and ack matter for TCP only.
  datatype Packet = Packet(loopback: bool, src: IPValue, port: int, proto: Proto, syn: bool, ack: bool)

  // A TCP connection attempt, or any UDP datagram.
  predicate Opens(pkt: Packet) {
    (pkt.proto.Tcp? && pkt.syn && !pkt.ack) || pkt.proto.Udp?
  }

  predicate Matches(b: Body, pkt: Packet) {
    match b
    case Allow(ip, port, proto) => ParseIP(ip) == Some(pkt.src) && port == pkt.port && proto == pkt.proto
    case Loopback => pkt.loopback
    case DropNew(port, proto) => port == pkt.port && proto == pkt.proto && (proto.Tcp? ==> pkt.syn && !pkt.ack)
  }

  predicate Accepts(rules: seq<Entry>, pkt: Packet) {
    if rules == [] then true
    else if Matches(rules[0].body, pkt) then !rules[0].body.DropNew?
    else Accepts(rules[1..], pkt)
  }

  predicate GuardShaped(b: Body) {
    b.Loopback? || (b.DropNew? && ValidPort(b.port, b.proto))
  }

  // Nothing but what the backend writes: allow rules and guard rules.
  predicate OnlyOurs(c: Chain) {
    forall e :: e in c.rules ==>
      if IsManaged(c.prefix)(e) then e.body.Allow? else IsGuard(c.prefix)(e) && GuardShaped(e.body)
  }

  predicate AllowMatch(rules: seq<Entry>, pkt: Packet) {
    exists i :: 0 <= i < |rules| && Matches(rules[i].body, pkt)
  }

  lemma {:induction false} AllowsFirst(allows: seq<Entry>, rest: seq<Entry>, pkt: Packet)
    requires forall e :: e in allows ==> e.body.Allow?
    ensures Accepts(allows + rest, pkt) <==> AllowMatch(allows, pkt) || Accepts(rest, pkt)
  {
    if allows == [] {
      assert allows + rest == rest;
    } else {
      assert (allows + rest)[1..] == allows[1..] + rest;
      AllowsFirst(allows[1..], rest, pkt);
      assert forall i :: 1 <= i < |allows| ==> allows[i] == allows[1..][i - 1];
      assert allows[0] in allows;
      if !Matches(allows[0].body, pkt) && AllowMatch(allows, pkt) {
        var i :| 0 <= i < |allows| && Matches(allows[i].body, pkt);
        assert Matches(allows[1..][i - 1].body, pkt);
      }
    }
  }

  lemma {:induction false} DropsDecide(drops: seq<Entry>, pkt: Packet)
    requires forall e :: e in drops ==> e.body.DropNew?
    ensures Accepts(drops, pkt) <==> forall i :: 0 <= i < |drops| ==> !Matches(drops[i].body, pkt)
  {
    if drops != [] {
      assert drops[0] in drops;
      DropsDecide(drops[1..], pkt);
      assert forall i :: 1 <= i < |drops| ==> drops[i] == drops[1..][i - 1];
    }
  }

  // Drop rules for these valid ports, in this order.
  predicate DropsFor(drops: seq<Entry>, ports: seq<PortProto>) {
    |drops| == |ports| &&
    forall i :: 0 <= i < |drops| ==> drops[i].body == DropNew(ports[i].port, ports[i].proto) && ValidPP(ports[i])
  }

  lemma DropsForDecide(drops: seq<Entry>, ports: seq<PortProto>, pkt: Packet)
    requires DropsFor(drops, ports)
    ensures Accepts(drops, pkt) <==> !Opens(pkt) || PortProto(pkt.port, pkt.proto) !in ports
  {
    DropsDecide(drops, pkt);
    var target := PortProto(pkt.port, pkt.proto);
    if target in ports {
      var i :| 0 <= i < |ports| && ports[i] == target;
      assert drops[i].body == DropNew(pkt.port, pkt.proto);
    } else {
      forall i | 0 <= i < |drops|
        ensures !Matches(drops[i].body, pkt)
      {
        assert ports[i] in ports;
      }
    }
  }

  // A guard in layout order drops exactly the openings to its ports that do not
  // come over loopback.
  lemma GuardDecides(guard: seq<Entry>, ports: seq<PortProto>, pkt: Packet)
    requires |guard| == |Layout(ports)|
    requires forall i :: 0 <= i < |guard| ==> GuardShaped(guard[i].body) && ListedPort(guard[i].body) == Layout(ports)[i]
    ensures Accepts(guard, pkt)
            <==> pkt.loopback || !Opens(pkt) || !(PortProto(pkt.port, pkt.proto) in ports && ValidPort(pkt.port, pkt.proto))
  {
    var want := Layout(ports);
    LayoutMeaning(ports);
    hide Layout, Opens;
    if want != [] {
      assert guard[0].body.Loopback?;
      forall i | 0 <= i < |guard[1..]|
        ensures guard[1..][i].body == DropNew(want[1..][i].port, want[1..][i].proto) && ValidPP(want[1..][i])
      {
        assert guard[1..][i] == guard[i + 1] && want[1..][i] in want[1..];
      }
      DropsForDecide(guard[1..], want[1..], pkt);
    }
  }

  // A chain of allow rules and a guard at the tail, as a packet filter.
  lemma GuardedChainFilters(c: Chain, ports: seq<PortProto>, pkt: Packet)
    requires ValidChain(c) && OnlyOurs(c) && GuardIs(c, ports)
    ensures Accepts(c.rules, pkt)
            <==> pkt.loopback || !Opens(pkt) || AllowMatch(ManagedRules(c), pkt)
                 || !(PortProto(pkt.port, pkt.proto) in ports && ValidPort(pkt.port, pkt.proto))
  {
    TailIsGuard(c, Layout(ports));
    var guard := Keep(c.rules, IsGuard(c.prefix));
    GuardIsNeverManaged(c.prefix);
    KeepSame(c.rules, NotGuard(c.prefix), IsManaged(c.prefix));
    AllowsFirst(ManagedRules(c), guard, pkt);
    forall i | 0 <= i < |guard|
      ensures GuardShaped(guard[i].body)
    {
      assert guard[i] in guard;
    }
    GuardDecides(guard, ports, pkt);
  }

  // Some grant lets the packet in.
  predicate Granted(grants: set<Grant>, pkt: Packet) {
    exists g :: g in grants && ParseIP(g.ip) == Some(pkt.src) && g.port == pkt.port && g.proto == pkt.proto
  }

  lemma AllowMatchIsGranted(c: Chain, pkt: Packet)
    requires OnlyOurs(c)
    ensures AllowMatch(ManagedRules(c), pkt) <==> Granted(Grants(c), pkt)
  {
    var rules := ManagedRules(c);
    if AllowMatch(rules, pkt) {
      var i :| 0 <= i < |rules| && Matches(rules[i].body, pkt);
      assert rules[i] in rules;
      GrantInside(c.prefix, rules, rules[i]);
      assert GrantOf(c.prefix, rules[i]) in Grants(c);
    }
    if g :| g in Grants(c) && ParseIP(g.ip) == Some(pkt.src) && g.port == pkt.port && g.proto == pkt.proto {
      var e := GrantStands(c.prefix, rules, g);
      var i :| 0 <= i < |rules| && rules[i] == e;
    }
  }

  // A managed rule for an accepted grant is an allow rule.
  lemma AcceptedIsAllow(prefix: string, e: Entry)
    requires Accepted(GrantOf(prefix, e))
    ensures e.body.Allow?
  {
    assert GrantOf(prefix, e).ip == ListedIP(e.body);
  }

  // Reconciling and guarding keep to what the backend writes, whatever fails.
  lemma ReconcileKeepsOurs(c: Chain, desired: seq<Grant>, r: Report)
    requires ValidChain(c) && OnlyOurs(c) && AllListBack(desired) && r == SpecReconcileAll(Nft(c), desired)
    ensures r.host.Nft? && OnlyOurs(r.host.chain)
  {
    if !NextFails(c.faults) {
      var s, adds, gone := ReconcileIsAPass(c, desired);
      AddsAreAllows(c, desired, r, s, adds, gone);
    }
  }

  lemma AddsAreAllows(c: Chain, desired: seq<Grant>, r: Report, s: Sorting, adds: seq<Entry>, gone: set<int>)
    requires Pass(c, desired, r, s, adds, gone)
    ensures forall e :: e in adds ==> IsManaged(c.prefix)(e) && e.body.Allow?
  {
    forall e | e in adds
      ensures e.body.Allow?
    {
      GrantInside(c.prefix, adds, e);
      AcceptedIsAllow(c.prefix, e);
    }
  }

  lemma GuardEntriesShaped(prefix: string, ports: seq<PortProto>, next: int)
    ensures forall e :: e in GuardEntries(prefix, Layout(ports), next) ==> IsGuard(prefix)(e) && GuardShaped(e.body)
  {
    LayoutMeaning(ports);
    var want := Layout(ports);
    forall e | e in GuardEntries(prefix, want, next)
      ensures IsGuard(prefix)(e) && GuardShaped(e.body)
    {
      var i :| 0 <= i < |want| && e == GuardEntries(prefix, want, next)[i];
      if i > 0 {
        assert want[i] == want[1..][i - 1] && want[i] in want[1..];
      }
    }
  }

  lemma OldRuleOrNewGuard(c: Chain, ports: seq<PortProto>)
    ensures var c2 := SpecSyncGuard(c, ports).0;
            c2.prefix == c.prefix &&
            forall e :: e in c2.rules ==> e in c.rules || e in GuardEntries(c.prefix, Layout(ports), c.next)
  {
  }

  lemma SyncGuardKeepsOurs(c: Chain, ports: seq<PortProto>)
    requires ValidChain(c) && OnlyOurs(c)
    ensures OnlyOurs(SpecSyncGuard(c, ports).0)
  {
    GuardIsNeverManaged(c.prefix);
    GuardEntriesShaped(c.prefix, ports, c.next);
    OldRuleOrNewGuard(c, ports);
  }

  lemma SyncGuardKeepsManaged(c: Chain, ports: seq<PortProto>)
    requires ValidChain(c) && SpecSyncGuard(c, ports).1
    ensures ManagedRules(SpecSyncGuard(c, ports).0) == ManagedRules(c)
  {
    var c2 := SpecSyncGuard(c, ports).0;
    SyncGuardLaysOut(c, ports);
    GuardIsNeverManaged(c.prefix);
    ManagedAreNotGuard(c.prefix, c.rules);
    ManagedAreNotGuard(c.prefix, c2.rules);
  }

  lemma ManagedAreNotGuard(prefix: string, rules: seq<Entry>)
    ensures Keep(Keep(rules, NotGuard(prefix)), IsManaged(prefix)) == Keep(rules, IsManaged(prefix))
  {
    GuardIsNeverManaged(prefix);
    KeepBoth(rules, NotGuard(prefix), IsManaged(prefix), IsManaged(prefix));
  }

  // The allowlist: after a reconcile and a guard sync, what opens a connection (or
  // sends a datagram) to a guarded port gets in iff its source was granted the
  // port; loopback, everything else and every other port pass untouched.
  lemma ManagedPortsAdmitExactlyTheAllowlist(c: Chain, desired: seq<Grant>, ports: seq<PortProto>, pkt: Packet)
    requires Healthy(c) && OnlyOurs(c) && AllListBack(desired) && AllAccepted(desired)
    ensures var h := SpecReconcileAll(Nft(c), desired).host;
            h.Nft? &&
            var (done, ok) := SpecSyncGuard(h.chain, ports);
            ok && (Accepts(done.rules, pkt)
                   <==> pkt.loopback || !Opens(pkt) || Granted(Wanted(desired), pkt)
                        || !(PortProto(pkt.port, pkt.proto) in ports && ValidPort(pkt.port, pkt.proto)))
  {
    var r := SpecReconcileAll(Nft(c), desired);
    ReconcileExact(c, desired, r);
    ReconcileKeepsOurs(c, desired, r);
    var c2 := r.host.chain;
    SyncKeepsValid(c2, ports);
    SyncGuardLaysOut(c2, ports);
    SyncGuardKeepsOurs(c2, ports);
    SyncGuardKeepsManaged(c2, ports);
    var done := SpecSyncGuard(c2, ports).0;
    GuardedChainFilters(done, ports, pkt);
    AllowMatchIsGranted(done, pkt);
  }
}
