// What a node's chain does to packets, cycle by cycle: the agent's filters, the
// reconcile and the guard together.
module NodePackets {
  import opened Net
  import opened NftChain
  import opened Reconcile
  import opened NftReconcile
  import opened Agent
  import opened AgentRuns
  import opened Packets
  import E = Effects
  import D = Database

  // ---- nothing foreign, whatever fails ----

  lemma GuardedStaysOurs(opts: Options, n: Node, ports: Option<seq<PortProto>>, works: bool)
    requires ValidChain(n.fw) && OnlyOurs(n.fw)
    ensures OnlyOurs(SpecGuard(opts, n, ports, works).fw)
  {
    hide OnlyOurs, ValidChain;
    if !opts.guard || ports.Some? {
      SyncGuardKeepsOurs(n.fw, if opts.guard then InAllowed(ports.value, opts.allowedPorts) else []);
    }
  }

  lemma ReapplyStaysOurs(opts: Options, c: Chain, m: Memory)
    requires ValidChain(c) && OnlyOurs(c)
    ensures ValidChain(Reapplied(opts, c, m)) && OnlyOurs(Reapplied(opts, c, m))
  {
    SyncKeepsValid(c, Enforced(opts, m.ports));
    SyncGuardKeepsOurs(c, Enforced(opts, m.ports));
  }

  lemma CycleStaysOurs(opts: Options, n: Node, answer: Answer, works: bool)
    requires ValidChain(n.fw) && OnlyOurs(n.fw)
    ensures OnlyOurs(SpecStep(opts, n, answer, works).fw)
  {
    var (base, ok) := SpecEnsureBase(n.fw);
    if ok {
      ReapplyStaysOurs(opts, base, n.memory);
      var c := Reapplied(opts, base, n.memory);
      match answer
      case Unanswered =>
      case Rejected => ReconcileKeepsOurs(c, [], SpecReconcileAll(Nft(c), []));
      case Served(rules, ports) =>
        var r := SpecReconcileAll(Nft(c), Asked(opts, rules));
        AskedCanBeListed(rules, opts.allowedPorts);
        ReconcileKeepsOurs(c, Asked(opts, rules), r);
        ReconcileUnderFaults(c, Asked(opts, rules), r);
        GuardedStaysOurs(opts, n.(fw := r.host.chain, memory := n.memory.(revoked := false)), ports, works);
    }
  }

  // A chain that held nothing but what the backend writes never holds anything
  // else: whatever the hub answers, whatever fails, flushes and restarts included.
  lemma {:induction false} RunStaysOurs(w: World, events: seq<Event>)
    requires ValidChain(w.node.fw) && OnlyOurs(w.node.fw)
    ensures OnlyOurs(After(w, events).node.fw)
    decreases |events|
  {
    if events != [] {
      var front, e := events[..|events| - 1], events[|events| - 1];
      RunStaysOurs(w, front);
      StaysValid(w, front);
      if e.Cycle? {
        CycleStaysOurs(After(w, front).opts, After(w, front).node, e.answer, e.works);
      }
    }
  }

  // ---- the guard outlives a hub that no longer serves ----

  // Without an answer, on a rejected token, or on an answer without ports the guard
  // stays the one with which the hub was asked, whatever fails in the cycle.
  lemma GuardOutlivesTheAnswer(w: World, answer: Answer, works: bool, asked: Chain, ports: seq<PortProto>)
    requires ValidChain(w.node.fw) && !SetsGuard(w.opts, answer)
    requires asked == if SpecEnsureBase(w.node.fw).1 then WhenAsked(w) else w.node.fw
    requires GuardIs(asked, ports)
    ensures GuardIs(SpecStep(w.opts, w.node, answer, works).fw, ports)
  {
    hide GuardIs;
    TickKeepsGuard(w.node.fw, ports);
    if SpecEnsureBase(w.node.fw).1 {
      var base := SpecEnsureBase(w.node.fw).0;
      SyncKeepsValid(base, Enforced(w.opts, w.node.memory.ports));
      match answer
      case Unanswered =>
      case Rejected => E.ReconcileKeepsGuard(asked, [], SpecReconcileAll(Nft(asked), []), ports);
      case Served(rules, _) =>
        AskedCanBeListed(rules, w.opts.allowedPorts);
        E.ReconcileKeepsGuard(asked, Asked(w.opts, rules), SpecReconcileAll(Nft(asked), Asked(w.opts, rules)), ports);
    }
  }

  lemma TickKeepsGuard(c: Chain, ports: seq<PortProto>)
    ensures GuardIs(Tick(c), ports) <==> GuardIs(c, ports)
  {
  }

  // ---- packets ----

  // A connection attempt, not over loopback, to a port the guard covers.
  predicate Guarded(known: seq<PortProto>, pkt: Packet) {
    !pkt.loopback && Opens(pkt) && PortProto(pkt.port, pkt.proto) in known && ValidPort(pkt.port, pkt.proto)
  }

  // At any point of any run without failures, after one more cycle: what opens a
  // connection to a guarded port gets in exactly if a rule the cycle was to leave
  // grants it, and everything else passes.  The guard is the one of the answer, or
  // the one with which the hub was asked.
  lemma NodePackets(w: World, events: seq<Event>, here: World, answer: Answer, works: bool, inForce: seq<PortProto>, pkt: Packet)
    requires Startable(w.node.fw) && OnlyOurs(w.node.fw) && here == After(w, events)
    requires SetsGuard(here.opts, answer) || GuardIs(WhenAsked(here), inForce)
    ensures var n := SpecStep(here.opts, here.node, answer, works);
            Accepts(n.fw.rules, pkt)
            <==> !Guarded(GuardAfter(here.opts, answer, inForce), pkt)
                 || Granted(GrantsAfter(here.opts, answer, Grants(here.node.fw)), pkt)
  {
    RunStaysSound(w, events);
    RunStaysOurs(w, events);
    hide Startable, OnlyOurs, GuardIs, Opens, Granted, Accepts, SetsGuard;
    NextPackets(here, answer, works, inForce, pkt);
  }

  lemma NextPackets(w: World, answer: Answer, works: bool, inForce: seq<PortProto>, pkt: Packet)
    requires Startable(w.node.fw) && OnlyOurs(w.node.fw) && (SetsGuard(w.opts, answer) || GuardIs(WhenAsked(w), inForce))
    ensures var n := SpecStep(w.opts, w.node, answer, works);
            Accepts(n.fw.rules, pkt)
            <==> !Guarded(GuardAfter(w.opts, answer, inForce), pkt)
                 || Granted(GrantsAfter(w.opts, answer, Grants(w.node.fw)), pkt)
  {
    hide OnlyOurs, GuardIs, Opens, Granted, Accepts, GuardAfter, GrantsAfter, SpecStep;
    var n := SpecStep(w.opts, w.node, answer, works);
    CycleExact(w, answer, works);
    CycleStaysOurs(w.opts, w.node, answer, works);
    GuardedChainFilters(n.fw, GuardAfter(w.opts, answer, inForce), pkt);
    AllowMatchIsGranted(n.fw, pkt);
  }

  // So a rejected token closes every remembered port that the configuration lists to
  // everyone but loopback.
  lemma RejectedNodeIsClosed(w: World, events: seq<Event>, here: World, works: bool, pkt: Packet)
    requires Startable(w.node.fw) && OnlyOurs(w.node.fw) && here == After(w, events)
    requires here.opts.guard && here.node.memory.havePorts
    requires PortProto(pkt.port, pkt.proto) in here.node.memory.ports && pkt.port in here.opts.allowedPorts
    requires !pkt.loopback && ((pkt.proto == Tcp && pkt.syn && !pkt.ack) || pkt.proto == Udp) && 1 <= pkt.port <= 65535
    ensures !Accepts(SpecStep(here.opts, here.node, Rejected, works).fw.rules, pkt)
  {
    var pp := PortProto(pkt.port, pkt.proto);
    assert PortIn(here.opts.allowedPorts)(pp);
    GuardBeforeEveryPull(w, events, here, WhenAsked(here));
    NodePackets(w, events, here, Rejected, works, Enforced(here.opts, here.node.memory.ports), pkt);
  }

  // ---- what the hub's tables let in ----

  // An answer's rules for a listed port let in whom the tables let in there.
  lemma AskedGrants(opts: Options, t: D.Tables, node: nat, rules: seq<Grant>, pkt: Packet)
    requires D.ValidTables(t) && D.Lists(rules, D.DesiredForNode(t, node))
    requires (opts.allowedPorts == [] || pkt.port in opts.allowedPorts) && ValidPort(pkt.port, pkt.proto)
    ensures Granted(Wanted(Asked(opts, rules)), pkt) <==> Granted(D.DesiredForNode(t, node), pkt)
  {
    var asked := Asked(opts, rules);
    if g :| g in Wanted(asked) && ParseIP(g.ip) == Some(pkt.src) && g.port == pkt.port && g.proto == pkt.proto {
      assert g in Sanitize(rules);
      var d :| d in rules && Sanitized(d) == Some(g);
      DesiredIsClean(t, node, d);
    }
    if d :| d in D.DesiredForNode(t, node) && ParseIP(d.ip) == Some(pkt.src) && d.port == pkt.port && d.proto == pkt.proto {
      DesiredIsClean(t, node, d);
      assert d in rules && d in Sanitize(rules) && d in asked;
    }
  }

  // The hub's own rows pass the agent's checks unchanged.
  lemma DesiredIsClean(t: D.Tables, node: nat, d: Grant)
    requires D.ValidTables(t) && d in D.DesiredForNode(t, node)
    ensures Sanitized(d) == if ValidPort(d.port, d.proto) then Some(d) else None
  {
    var k := D.NodeDesiredFrom(t, node, d);
    assert D.ValidUser(t.users[k.user]) && D.ValidGroup(t.groups[k.group]);
  }

  // The port and protocol of the packet are a target of the node.
  ghost predicate IsTarget(t: D.Tables, node: nat, pkt: Packet) {
    exists k :: k in t.targets && k.node == node && t.targets[k] == PortProto(pkt.port, pkt.proto)
  }

  // An enabled member of a group that targets the node there has this address.
  ghost predicate IsMemberThere(t: D.Tables, node: nat, pkt: Packet) {
    exists k :: k in t.members && t.members[k] && k.user in t.users && k.group in t.groups && D.Target(k.group, node) in t.targets &&
                t.targets[D.Target(k.group, node)] == PortProto(pkt.port, pkt.proto) &&
                t.users[k.user].ip.Some? && ParseIP(t.users[k.user].ip.value) == Some(pkt.src)
  }

  lemma MembersThereAreGranted(t: D.Tables, node: nat, pkt: Packet)
    ensures IsMemberThere(t, node, pkt) <==> Granted(D.DesiredForNode(t, node), pkt)
  {
    if IsMemberThere(t, node, pkt) {
      var k :| k in t.members && t.members[k] && k.user in t.users && k.group in t.groups && D.Target(k.group, node) in t.targets &&
               t.targets[D.Target(k.group, node)] == PortProto(pkt.port, pkt.proto) &&
               t.users[k.user].ip.Some? && ParseIP(t.users[k.user].ip.value) == Some(pkt.src);
      assert D.ServesNode(t, node, k);
      D.NodeDesires(t, node, k);
    }
    if Granted(D.DesiredForNode(t, node), pkt) {
      var d :| d in D.DesiredForNode(t, node) && ParseIP(d.ip) == Some(pkt.src) && d.port == pkt.port && d.proto == pkt.proto;
      var k := D.NodeDesiredFrom(t, node, d);
    }
  }

  // At any point of any run without failures, one answered pull: on every port that
  // targets this node and that its configuration allows, the node lets in exactly
  // the enabled members whose groups target it there.
  lemma PulledPackets(w: World, events: seq<Event>, here: World, t: D.Tables, node: nat, rules: seq<Grant>, ports: seq<PortProto>,
                      works: bool, pkt: Packet)
    requires Startable(w.node.fw) && OnlyOurs(w.node.fw) && here == After(w, events) && here.opts.guard
    requires D.ValidTables(t) && D.Lists(rules, D.DesiredForNode(t, node)) && D.Lists(ports, D.TargetPorts(t, node))
    requires !pkt.loopback && ((pkt.proto == Tcp && pkt.syn && !pkt.ack) || pkt.proto == Udp) && 1 <= pkt.port <= 65535
    requires IsTarget(t, node, pkt) && pkt.port in here.opts.allowedPorts
    ensures Accepts(SpecStep(here.opts, here.node, Served(rules, Some(ports)), works).fw.rules, pkt) <==> IsMemberThere(t, node, pkt)
  {
    var pp := PortProto(pkt.port, pkt.proto);
    TargetIsListed(here.opts, t, node, ports, pkt);
    NodePackets(w, events, here, Served(rules, Some(ports)), works, [], pkt);
    AskedGrants(here.opts, t, node, rules, pkt);
    MembersThereAreGranted(t, node, pkt);
  }

  lemma TargetIsListed(opts: Options, t: D.Tables, node: nat, ports: seq<PortProto>, pkt: Packet)
    requires D.Lists(ports, D.TargetPorts(t, node)) && IsTarget(t, node, pkt) && pkt.port in opts.allowedPorts
    ensures PortProto(pkt.port, pkt.proto) in InAllowed(ports, opts.allowedPorts)
  {
    var k :| k in t.targets && k.node == node && t.targets[k] == PortProto(pkt.port, pkt.proto);
    assert PortIn(opts.allowedPorts)(t.targets[k]) && t.targets[k] in ports;
  }
}
