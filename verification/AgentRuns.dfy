// Over every run of an agent: any answers from the hub, flushed rulesets,
// restarts with another configuration, and writes of the state file that fail.
module AgentRuns {
  import opened Net
  import opened Comments
  import opened GuardLayout
  import opened NftChain
  import opened Reconcile
  import opened NftReconcile
  import opened Agent
  import P = Packets
  import E = Effects

  datatype Event =
    | Cycle(answer: Answer, works: bool)
    | Flush                  // the table is gone (systemctl restart nftables, a reboot)
    | Restart(opts: Options)

  datatype World = World(opts: Options, node: Node)

  function Flushed(c: Chain): Chain {
    c.(present := false, rules := [])
  }

  function Next(w: World, e: Event): World {
    match e
    case Cycle(answer, works) => w.(node := SpecStep(w.opts, w.node, answer, works))
    case Flush => w.(node := w.node.(fw := Flushed(w.node.fw)))
    case Restart(opts) =>
      World(opts, w.node.(fw := SpecEnsureBase(w.node.fw).0, memory := Load(opts, w.node.file)))
  }

  function After(w: World, events: seq<Event>): World {
    if events == [] then w else Next(After(w, events[..|events| - 1]), events[|events| - 1])
  }

  // ---- the state file ----

  // `saved` means the file holds the remembered guard.
  predicate SavedIsHeld(n: Node) {
    n.memory.saved ==> n.memory.havePorts && n.file == Holding(n.memory.ports)
  }

  // The guard that an answer's ports make it apply to the chain, if it can.
  function AppliedTo(opts: Options, c: Chain, ports: Option<seq<PortProto>>): Option<seq<PortProto>> {
    if opts.guard && ports.None? then None
    else
      var wanted := if opts.guard then InAllowed(ports.value, opts.allowedPorts) else [];
      if SpecSyncGuard(c, wanted).1 then Some(wanted) else None
  }

  // The guard a cycle applied on an answer, if it got that far.
  function Applied(opts: Options, n: Node, answer: Answer): Option<seq<PortProto>> {
    var (base, ok) := SpecEnsureBase(n.fw);
    if !ok || !answer.Served? then None
    else
      var c := Reapplied(opts, base, n.memory);
      AppliedTo(opts, ChainOf(SpecReconcileAll(Nft(c), Asked(opts, answer.rules)).host, c), answer.ports)
  }

  // The file after a cycle, had the agent written every guard it applied.
  function Written(opts: Options, file: File, applied: Option<seq<PortProto>>, works: bool): File {
    if applied.Some? && opts.stateFile && works then Holding(applied.value) else file
  }

  lemma GuardSaves(opts: Options, n: Node, ports: Option<seq<PortProto>>, works: bool)
    requires SavedIsHeld(n)
    ensures var n2, applied := SpecGuard(opts, n, ports, works), AppliedTo(opts, n.fw, ports);
            SavedIsHeld(n2) && n2.file == Written(opts, n.file, applied, works) &&
            n2.memory.ports == if applied.Some? then applied.value else n.memory.ports
  {
  }

  // Not writing what the file is known to hold makes no difference.
  lemma CycleSaves(opts: Options, n: Node, answer: Answer, works: bool)
    requires SavedIsHeld(n)
    ensures var n2, applied := SpecStep(opts, n, answer, works), Applied(opts, n, answer);
            SavedIsHeld(n2) && n2.file == Written(opts, n.file, applied, works) &&
            n2.memory.ports == if applied.Some? then applied.value else n.memory.ports
  {
    var (base, ok) := SpecEnsureBase(n.fw);
    if ok && answer.Served? {
      var c := Reapplied(opts, base, n.memory);
      var c1 := ChainOf(SpecReconcileAll(Nft(c), Asked(opts, answer.rules)).host, c);
      GuardSaves(opts, n.(fw := c1, memory := n.memory.(revoked := false)), answer.ports, works);
    }
  }

  // The file after a run, from what each cycle applied.
  function LastSaved(w: World, events: seq<Event>): File {
    if events == [] then w.node.file
    else
      var front, e := events[..|events| - 1], events[|events| - 1];
      var before := After(w, front);
      if e.Cycle? then Written(before.opts, LastSaved(w, front), Applied(before.opts, before.node, e.answer), e.works)
      else LastSaved(w, front)
  }

  lemma {:induction false} SavedMeansHeld(w: World, events: seq<Event>)
    requires SavedIsHeld(w.node)
    ensures SavedIsHeld(After(w, events).node)
    ensures After(w, events).node.file == LastSaved(w, events)
    decreases |events|
  {
    if events != [] {
      var front, e := events[..|events| - 1], events[|events| - 1];
      SavedMeansHeld(w, front);
      if e.Cycle? {
        var before := After(w, front);
        CycleSaves(before.opts, before.node, e.answer, e.works);
      }
    }
  }

  // ---- the guard in force ----

  ghost predicate Startable(c: Chain) {
    ValidChain(c) && FailureFree(c.faults)
  }

  lemma SyncStays(c: Chain, ports: seq<PortProto>)
    requires Healthy(c)
    ensures var (c2, ok) := SpecSyncGuard(c, ports);
            ok && Healthy(c2) && c2.prefix == c.prefix && GuardIs(c2, ports) && ManagedRules(c2) == ManagedRules(c)
  {
    E.SyncEffect(c, ports);
  }

  // The chain with which the hub is asked.
  function WhenAsked(w: World): Chain {
    Reapplied(w.opts, SpecEnsureBase(w.node.fw).0, w.node.memory)
  }

  lemma GuardWhenAsked(w: World)
    requires Startable(w.node.fw)
    ensures Healthy(WhenAsked(w)) && WhenAsked(w).prefix == w.node.fw.prefix
    ensures ManagedRules(WhenAsked(w)) == ManagedRules(w.node.fw) && Grants(WhenAsked(w)) == Grants(w.node.fw)
    ensures w.node.memory.havePorts ==> GuardIs(WhenAsked(w), Enforced(w.opts, w.node.memory.ports))
  {
    var base := SpecEnsureBase(w.node.fw).0;
    SyncStays(base, Enforced(w.opts, w.node.memory.ports));
  }

  lemma {:induction false} AskedCanBeListed(rules: seq<Grant>, allowed: seq<int>)
    ensures var desired := FilterAllowed(Sanitize(rules), allowed);
            AllListBack(desired) && AllAccepted(desired) &&
            forall g :: g in desired ==> Clean(g) && (allowed != [] ==> g.port in allowed)
  {
    forall g | g in FilterAllowed(Sanitize(rules), allowed)
      ensures ListsBack(g) && Accepted(g) && Clean(g) && (allowed != [] ==> g.port in allowed)
    {
      assert g in Sanitize(rules);
      var d :| d in rules && Sanitized(d) == Some(g);
      ValidNameHasNoColon(g.user);
    }
  }

  // The answer says what the guard is to be.
  predicate SetsGuard(opts: Options, answer: Answer) {
    answer.Served? && (!opts.guard || answer.ports.Some?)
  }

  // The guard in force after a cycle without failures: that of the answer, or the
  // one there was.
  function GuardAfter(opts: Options, answer: Answer, before: seq<PortProto>): seq<PortProto> {
    if !SetsGuard(opts, answer) then before
    else if opts.guard then InAllowed(answer.ports.value, opts.allowedPorts)
    else []
  }

  // The grants the chain is to hold after it: the allowed clean ones of an answer,
  // none after a rejected token, those there were without an answer.
  function GrantsAfter(opts: Options, answer: Answer, before: set<Grant>): set<Grant> {
    match answer
    case Unanswered => before
    case Rejected => {}
    case Served(rules, _) => Wanted(Asked(opts, rules))
  }

  // What a failure-free cycle makes of the chain with which the hub was asked.
  ghost predicate CycleResult(opts: Options, answer: Answer, asked: Chain, c: Chain) {
    Healthy(c) && c.prefix == asked.prefix &&
    (if answer.Unanswered? then c == asked else Holds(c, GrantsAfter(opts, answer, {}))) &&
    Grants(c) == GrantsAfter(opts, answer, Grants(asked)) &&
    forall ports :: SetsGuard(opts, answer) || GuardIs(asked, ports) ==> GuardIs(c, GuardAfter(opts, answer, ports))
  }

  // A failure-free cycle leaves exactly these grants, one rule each, and this guard.
  lemma CycleExact(w: World, answer: Answer, works: bool)
    requires Startable(w.node.fw)
    ensures CycleResult(w.opts, answer, WhenAsked(w), SpecStep(w.opts, w.node, answer, works).fw)
    ensures Healthy(WhenAsked(w)) && WhenAsked(w).prefix == w.node.fw.prefix && Grants(WhenAsked(w)) == Grants(w.node.fw)
  {
    hide CycleResult, GuardIs, Grants, OneEach;
    GuardWhenAsked(w);
    var c := WhenAsked(w);
    match answer
    case Unanswered => UnansweredExact(w.opts, c);
    case Rejected => RejectedExact(w.opts, c, SpecReconcileAll(Nft(c), []));
    case Served(rules, ports) =>
      ServedExact(w.opts, w.node.(fw := c, memory := w.node.memory.(revoked := false)), rules, ports, works,
                  SpecReconcileAll(Nft(c), Asked(w.opts, rules)));
  }

  lemma UnansweredExact(opts: Options, c: Chain)
    requires Healthy(c)
    ensures CycleResult(opts, Unanswered, c, c)
  {
  }

  lemma RejectedExact(opts: Options, c: Chain, r: Report)
    requires Healthy(c) && r == SpecReconcileAll(Nft(c), [])
    ensures r.host.Nft? && CycleResult(opts, Rejected, c, r.host.chain)
  {
    hide GuardIs;
    assert Wanted([]) == {};
    ReconcileExact(c, [], r);
    ReconcileLeavesGuard(c, [], r);
  }

  lemma ReconcileLeavesGuard(c: Chain, desired: seq<Grant>, r: Report)
    requires ValidChain(c) && AllListBack(desired) && r == SpecReconcileAll(Nft(c), desired)
    ensures r.host.Nft? && forall ports :: GuardIs(c, ports) ==> GuardIs(r.host.chain, ports)
  {
    ReconcileUnderFaults(c, desired, r);
    forall ports | GuardIs(c, ports)
      ensures GuardIs(r.host.chain, ports)
    {
      E.ReconcileKeepsGuard(c, desired, r, ports);
    }
  }

  lemma ServedExact(opts: Options, n: Node, rules: seq<Grant>, ports: Option<seq<PortProto>>, works: bool, r: Report)
    requires Healthy(n.fw) && r == SpecReconcileAll(Nft(n.fw), Asked(opts, rules))
    ensures r.host.Nft? && CycleResult(opts, Served(rules, ports), n.fw, SpecGuard(opts, n.(fw := r.host.chain), ports, works).fw)
  {
    hide GuardIs;
    AskedCanBeListed(rules, opts.allowedPorts);
    ReconcileExact(n.fw, Asked(opts, rules), r);
    ReconcileLeavesGuard(n.fw, Asked(opts, rules), r);
    if SetsGuard(opts, Served(rules, ports)) {
      SyncStays(r.host.chain, GuardAfter(opts, Served(rules, ports), []));
    }
  }

  lemma {:induction false} RunStaysSound(w: World, events: seq<Event>)
    requires Startable(w.node.fw)
    ensures Startable(After(w, events).node.fw) && After(w, events).node.fw.prefix == w.node.fw.prefix
    decreases |events|
  {
    if events != [] {
      var front, e := events[..|events| - 1], events[|events| - 1];
      RunStaysSound(w, front);
      if e.Cycle? {
        CycleExact(After(w, front), e.answer, e.works);
      }
    }
  }

  // At every point of every run: if a guard is known, the guard in force when the
  // hub is asked next is its layout, as far as the configuration allows.
  lemma GuardBeforeEveryPull(w: World, events: seq<Event>, here: World, asked: Chain)
    requires Startable(w.node.fw) && here == After(w, events) && asked == WhenAsked(here)
    ensures here.node.memory.havePorts ==> GuardIs(asked, Enforced(here.opts, here.node.memory.ports))
  {
    RunStaysSound(w, events);
    GuardWhenAsked(here);
  }

  // And after a restart it is that of the last guard written to the state file,
  // flushed ruleset or not, under the configuration of the restart.
  lemma RestartRestoresTheLastSave(w: World, events: seq<Event>, flush: seq<Event>, opts: Options, here: World, last: File)
    requires Startable(w.node.fw) && SavedIsHeld(w.node) && opts.stateFile && (flush == [] || flush == [Flush])
    requires here == After(w, events + flush + [Restart(opts)]) && last == LastSaved(w, events)
    ensures last.Holding? ==> here.node.memory == Memory(last.ports, true, true, false)
    ensures last.Holding? ==> GuardIs(WhenAsked(here), Enforced(opts, last.ports))
  {
    var all := events + flush + [Restart(opts)];
    assert all[..|all| - 1] == events + flush;
    if flush == [Flush] {
      assert (events + flush)[..|events|] == events;
    } else {
      assert events + flush == events;
    }
    SavedMeansHeld(w, events);
    GuardBeforeEveryPull(w, all, here, WhenAsked(here));
  }

  // ---- a hostile hub ----

  predicate Allows(opts: Options, port: int) {
    opts.allowedPorts == [] || port in opts.allowedPorts
  }

  // What the agent may install under a configuration: a managed rule for one clean
  // address on an allowed port, and a guard drop of a listed port.
  predicate WithinBounds(opts: Options, prefix: string, e: Entry) {
    (IsManaged(prefix)(e) ==> Clean(GrantOf(prefix, e)) && Allows(opts, GrantOf(prefix, e).port)) &&
    (IsGuard(prefix)(e) && e.body.DropNew? ==> e.body.port in opts.allowedPorts)
  }

  // Every rule of c2 was there before or is within bounds.
  predicate OnlyInstalls(opts: Options, c: Chain, c2: Chain) {
    c2.prefix == c.prefix && ValidChain(c2) && forall e :: e in c2.rules ==> e in c.rules || WithinBounds(opts, c.prefix, e)
  }

  lemma GuardEntriesWithin(opts: Options, prefix: string, ports: seq<PortProto>, next: int)
    requires forall p :: p in ports ==> p.port in opts.allowedPorts
    ensures forall e :: e in GuardEntries(prefix, Layout(ports), next) ==> WithinBounds(opts, prefix, e)
  {
    LayoutMeaning(ports);
    GuardIsNeverManaged(prefix);
    var want := Layout(ports);
    var entries := GuardEntries(prefix, want, next);
    forall e | e in entries
      ensures WithinBounds(opts, prefix, e)
    {
      var i :| 0 <= i < |want| && e == entries[i];
      if i > 0 {
        assert want[i] == want[1..][i - 1] && want[i] in want[1..];
      }
    }
  }

  lemma SyncInstalls(opts: Options, c: Chain, ports: seq<PortProto>)
    requires ValidChain(c) && forall p :: p in ports ==> p.port in opts.allowedPorts
    ensures OnlyInstalls(opts, c, SpecSyncGuard(c, ports).0)
  {
    SyncKeepsValid(c, ports);
    GuardEntriesWithin(opts, c.prefix, ports, c.next);
    P.OldRuleOrNewGuard(c, ports);
  }

  lemma AddsWithin(opts: Options, prefix: string, adds: seq<Entry>, desired: seq<Grant>)
    requires GrantsOf(prefix, adds) <= Wanted(desired) && forall e :: e in adds ==> IsManaged(prefix)(e)
    requires forall g :: g in desired ==> Clean(g) && Allows(opts, g.port)
    ensures forall e :: e in adds ==> WithinBounds(opts, prefix, e)
  {
    GuardIsNeverManaged(prefix);
    forall e | e in adds
      ensures WithinBounds(opts, prefix, e)
    {
      GrantInside(prefix, adds, e);
    }
  }

  lemma ReconcileInstalls(opts: Options, c: Chain, desired: seq<Grant>, r: Report)
    requires ValidChain(c) && AllListBack(desired) && forall g :: g in desired ==> Clean(g) && Allows(opts, g.port)
    requires r == SpecReconcileAll(Nft(c), desired)
    ensures r.host.Nft? && OnlyInstalls(opts, c, r.host.chain)
  {
    if !NextFails(c.faults) {
      var s, adds, gone := ReconcileIsAPass(c, desired);
      AddsWithin(opts, c.prefix, adds, desired);
    }
  }

  lemma InstallsTwice(opts: Options, a: Chain, b: Chain, c: Chain)
    requires OnlyInstalls(opts, a, b) && OnlyInstalls(opts, b, c)
    ensures OnlyInstalls(opts, a, c)
  {
  }

  lemma ReapplyInstalls(opts: Options, c: Chain, m: Memory)
    requires ValidChain(c)
    ensures OnlyInstalls(opts, c, Reapplied(opts, c, m))
  {
    SyncInstalls(opts, c, Enforced(opts, m.ports));
  }

  lemma AnswerInstalls(opts: Options, n: Node, rules: seq<Grant>, ports: Option<seq<PortProto>>, works: bool, r: Report)
    requires ValidChain(n.fw) && r == SpecReconcileAll(Nft(n.fw), Asked(opts, rules))
    ensures r.host.Nft? && OnlyInstalls(opts, n.fw, SpecGuard(opts, n.(fw := r.host.chain), ports, works).fw)
  {
    AskedCanBeListed(rules, opts.allowedPorts);
    ReconcileInstalls(opts, n.fw, Asked(opts, rules), r);
    var c := r.host.chain;
    var wanted := if opts.guard && ports.Some? then InAllowed(ports.value, opts.allowedPorts) else [];
    SyncInstalls(opts, c, wanted);
    InstallsTwice(opts, n.fw, c, SpecSyncGuard(c, wanted).0);
  }

  lemma CycleInstalls(opts: Options, n: Node, answer: Answer, works: bool)
    requires ValidChain(n.fw)
    ensures OnlyInstalls(opts, n.fw, SpecStep(opts, n, answer, works).fw)
  {
    var (base, ok) := SpecEnsureBase(n.fw);
    if ok {
      ReapplyInstalls(opts, base, n.memory);
      var c := Reapplied(opts, base, n.memory);
      match answer
      case Unanswered =>
      case Rejected => ReconcileInstalls(opts, c, [], SpecReconcileAll(Nft(c), []));
      case Served(rules, ports) =>
        AnswerInstalls(opts, n.(fw := c, memory := n.memory.(revoked := false)), rules, ports, works,
                       SpecReconcileAll(Nft(c), Asked(opts, rules)));
    }
  }

  // The i-th event puts the rule into the chain.
  predicate Installs(w: World, events: seq<Event>, i: nat, e: Entry) {
    i < |events| && e !in After(w, events[..i]).node.fw.rules && e in After(w, events[..i + 1]).node.fw.rules
  }

  // The i-th event is a cycle, and the rule is within the bounds of the
  // configuration in force at it.
  predicate WithinItsBounds(w: World, events: seq<Event>, i: nat, e: Entry) {
    i < |events| && events[i].Cycle? && WithinBounds(After(w, events[..i]).opts, w.node.fw.prefix, e)
  }

  lemma {:induction false} StaysValid(w: World, events: seq<Event>)
    requires ValidChain(w.node.fw)
    ensures ValidChain(After(w, events).node.fw) && After(w, events).node.fw.prefix == w.node.fw.prefix
    decreases |events|
  {
    if events != [] {
      var front, event := events[..|events| - 1], events[|events| - 1];
      StaysValid(w, front);
      var before := After(w, front);
      if event.Cycle? {
        CycleInstalls(before.opts, before.node, event.answer, event.works);
      }
    }
  }

  lemma InstallsWithinItsBounds(w: World, events: seq<Event>, i: nat, e: Entry)
    requires ValidChain(w.node.fw) && Installs(w, events, i, e)
    ensures WithinItsBounds(w, events, i, e)
  {
    var before, event := After(w, events[..i]), events[i];
    assert events[..i + 1][..i] == events[..i];
    StaysValid(w, events[..i]);
    if event.Cycle? {
      CycleInstalls(before.opts, before.node, event.answer, event.works);
    }
  }

  // A rule that was not there at the start was put there by some event.
  lemma {:induction false} SomeEventInstalls(w: World, events: seq<Event>, e: Entry) returns (i: nat)
    requires e in After(w, events).node.fw.rules && e !in w.node.fw.rules
    ensures Installs(w, events, i, e)
    decreases |events|
  {
    hide Next;
    var front := events[..|events| - 1];
    assert events[..|events|] == events;
    if e in After(w, front).node.fw.rules {
      i := SomeEventInstalls(w, front, e);
      assert events[..i] == front[..i] && events[..i + 1] == front[..i + 1];
    } else {
      i := |front|;
    }
  }

  // Whatever the hub answers, whatever fails on the node, whatever the restarts
  // change and whatever the chain held at the start: every event that puts a rule
  // into the chain is a cycle under whose configuration the rule is within bounds,
  // and there is one for every rule that was not there at the start.
  lemma HostileHubInstallsWithinBounds(w: World, events: seq<Event>, e: Entry)
    requires ValidChain(w.node.fw)
    ensures forall i :: Installs(w, events, i, e) ==> WithinItsBounds(w, events, i, e)
    ensures e in After(w, events).node.fw.rules && e !in w.node.fw.rules ==> exists i :: Installs(w, events, i, e)
  {
    forall i | Installs(w, events, i, e)
      ensures WithinItsBounds(w, events, i, e)
    {
      InstallsWithinItsBounds(w, events, i, e);
    }
    if e in After(w, events).node.fw.rules && e !in w.node.fw.rules {
      var i := SomeEventInstalls(w, events, e);
    }
  }

  // With the same allowed ports throughout, from a chain within them, nothing
  // outside them is ever managed or guarded.
  lemma HostileHubStaysWithinBounds(w: World, events: seq<Event>, opts: Options)
    requires ValidChain(w.node.fw) && w.opts.allowedPorts == opts.allowedPorts
    requires forall i :: 0 <= i < |events| && events[i].Restart? ==> events[i].opts.allowedPorts == opts.allowedPorts
    requires forall e :: e in w.node.fw.rules ==> WithinBounds(opts, w.node.fw.prefix, e)
    ensures forall e :: e in After(w, events).node.fw.rules ==> WithinBounds(opts, w.node.fw.prefix, e)
  {
    hide Next, After, WithinBounds, Installs;
    forall e | e in After(w, events).node.fw.rules
      ensures WithinBounds(opts, w.node.fw.prefix, e)
    {
      HostileHubInstallsWithinBounds(w, events, e);
      if e !in w.node.fw.rules {
        var i: nat :| Installs(w, events, i, e);
        SameAllowedPorts(w, events[..i], opts);
        SameBounds(After(w, events[..i]).opts, opts, w.node.fw.prefix, e);
      }
    }
  }

  lemma SameBounds(a: Options, b: Options, prefix: string, e: Entry)
    requires a.allowedPorts == b.allowedPorts
    ensures WithinBounds(a, prefix, e) <==> WithinBounds(b, prefix, e)
  {
  }

  lemma {:induction false} SameAllowedPorts(w: World, events: seq<Event>, opts: Options)
    requires w.opts.allowedPorts == opts.allowedPorts
    requires forall i :: 0 <= i < |events| && events[i].Restart? ==> events[i].opts.allowedPorts == opts.allowedPorts
    ensures After(w, events).opts.allowedPorts == opts.allowedPorts
    decreases |events|
  {
    if events != [] {
      SameAllowedPorts(w, events[..|events| - 1], opts);
    }
  }
}
