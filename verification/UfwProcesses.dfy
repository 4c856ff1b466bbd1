// Any number of processes (the server, an agent, CLI commands) changing one ufw
// rule list.  Each call lists, decides and acts in separate steps under the
// host-wide lock; the processes interleave freely and may die at any point, a
// command they had started running on without them and without their lock.
module UfwProcesses {
  import opened Net
  import opened Comments
  import opened UfwTable

  datatype Call =
    | CallAdd(g: Grant)
    | CallRemove(g: Grant)
    | CallDelete(h: Handle)

  // The one ufw command a call comes down to once it has read the listing.
  datatype Action = Allow(g: Grant) | DeleteNumber(num: nat) | Nothing

  datatype Process =
    | Idle
    | Locked(call: Call)                  // lock taken, listing not read yet
    | Decided(call: Call, action: Action) // listing read, command not run yet

  // A command whose process died after starting it, and the list it was decided on.
  datatype Orphan = Orphan(action: Action, seen: seq<Line>)

  datatype World = World(prefix: string, lines: seq<Line>, holder: Option<nat>, processes: seq<Process>, orphans: seq<Orphan>)

  // What a call decides on the listing it reads.
  function Decide(prefix: string, lines: seq<Line>, call: Call): Action {
    match call
    case CallAdd(g) =>
      if CheckRule(g.ip, g.port, g.proto) && HostRuleFor(prefix, lines, g.At()) == None then Allow(g) else Nothing
    case CallRemove(g) =>
      DecideDelete(prefix, lines, Digest(CommentFor(prefix, g.user, g.group), g.ip, g.port, g.proto))
    case CallDelete(h) => DecideDelete(prefix, lines, h)
  }

  function DecideDelete(prefix: string, lines: seq<Line>, h: Handle): Action {
    match FirstNumber(Parse(prefix, lines), h)
    case None => Nothing
    case Some(num) => DeleteNumber(num)
  }

  // What the command does to the list it meets.
  function Run(prefix: string, lines: seq<Line>, action: Action): seq<Line> {
    match action
    case Allow(g) => RunAllow(prefix, lines, g)
    case DeleteNumber(num) => (match RunDelete(lines, num) case None => lines case Some(after) => after)
    case Nothing => lines
  }

  datatype Step =
    | Start(p: nat, call: Call) // takes the lock
    | Read(p: nat)              // ufw status numbered
    | Act(p: nat, works: bool)  // runs the command, which may fail, and releases the lock
    | Die(p: nat)               // at any point; the kernel drops a dead process's lock
    | Leave(p: nat)             // dies too, but the command it has just started runs on
    | Late(i: nat, works: bool) // such a command takes effect, or fails

  predicate Enabled(w: World, s: Step, locking: bool) {
    match s
    case Start(p, _) => p < |w.processes| && w.processes[p].Idle? && (locking ==> w.holder == None)
    case Read(p) => p < |w.processes| && w.processes[p].Locked?
    case Act(p, _) => p < |w.processes| && w.processes[p].Decided?
    case Die(p) => p < |w.processes|
    case Leave(p) => p < |w.processes| && w.processes[p].Decided?
    case Late(i, _) => i < |w.orphans|
  }

  function Released(w: World, p: nat): World
    requires p < |w.processes|
  {
    w.(processes := w.processes[p := Idle], holder := if w.holder == Some(p) then None else w.holder)
  }

  function Next(w: World, s: Step): World
    requires Enabled(w, s, false)
  {
    match s
    case Start(p, call) => w.(processes := w.processes[p := Locked(call)], holder := Some(p))
    case Read(p) =>
      w.(processes := w.processes[p := Decided(w.processes[p].call, Decide(w.prefix, w.lines, w.processes[p].call))])
    case Act(p, works) =>
      Released(if works then w.(lines := Run(w.prefix, w.lines, w.processes[p].action)) else w, p)
    case Die(p) => Released(w, p)
    case Leave(p) => Released(w.(orphans := w.orphans + [Orphan(w.processes[p].action, w.lines)]), p)
    case Late(i, works) =>
      w.(lines := if works then Run(w.prefix, w.lines, w.orphans[i].action) else w.lines,
         orphans := w.orphans[..i] + w.orphans[i + 1..])
  }

  // `steps` is an execution from w.  `locking` false lets processes start while
  // another one is busy: what UfwBackend.lock rules out.
  predicate Execution(w: World, steps: seq<Step>, locking: bool)
    decreases |steps|
  {
    steps == [] || (Enabled(w, steps[0], locking) && Execution(Next(w, steps[0]), steps[1..], locking))
  }

  function After(w: World, steps: seq<Step>, locking: bool): World
    requires Execution(w, steps, locking)
    decreases |steps|
  {
    if steps == [] then w else After(Next(w, steps[0]), steps[1..], locking)
  }

  // Only the lock's holder is busy, and what it decided fits the current list.
  predicate Exclusive(w: World) {
    forall p :: 0 <= p < |w.processes| && !w.processes[p].Idle? ==>
      w.holder == Some(p) &&
      (w.processes[p].Decided? ==> w.processes[p].action == Decide(w.prefix, w.lines, w.processes[p].call))
  }

  // A command that runs on the list it was decided on leaves the host's rules be.
  lemma RunKeepsHost(prefix: string, lines: seq<Line>, call: Call)
    ensures HostLines(prefix, Run(prefix, lines, Decide(prefix, lines, call))) == HostLines(prefix, lines)
  {
    match call
    case CallAdd(g) =>
      if HostRuleFor(prefix, lines, g.At()) == None {
        RunAllowKeepsHost(prefix, lines, g);
      }
    case CallRemove(g) =>
      DeleteDecisionKeepsHost(prefix, lines, Digest(CommentFor(prefix, g.user, g.group), g.ip, g.port, g.proto));
    case CallDelete(h) => DeleteDecisionKeepsHost(prefix, lines, h);
  }

  lemma DeleteDecisionKeepsHost(prefix: string, lines: seq<Line>, h: Handle)
    ensures HostLines(prefix, Run(prefix, lines, DecideDelete(prefix, lines, h))) == HostLines(prefix, lines)
  {
    FirstNumberFrom(prefix, lines, 0, h);
    match FirstNumber(Parse(prefix, lines), h)
    case None =>
    case Some(num) => RunDeleteKeepsHost(prefix, lines, num);
  }

  // An orphaned command takes effect while the list still is what its process read
  // and nobody holds the lock.
  predicate InTime(w: World, s: Step) {
    s.Late? && s.works ==> s.i < |w.orphans| && w.orphans[s.i].seen == w.lines && w.holder == None
  }

  // Every orphan came from a decision on the list it saw.
  ghost predicate Honest(w: World) {
    forall o :: o in w.orphans ==> WasDecided(w.prefix, o)
  }

  ghost predicate WasDecided(prefix: string, o: Orphan) {
    exists call :: o.action == Decide(prefix, o.seen, call)
  }

  lemma OrphanKeepsHost(prefix: string, o: Orphan)
    requires WasDecided(prefix, o)
    ensures HostLines(prefix, Run(prefix, o.seen, o.action)) == HostLines(prefix, o.seen)
  {
    var call :| o.action == Decide(prefix, o.seen, call);
    RunKeepsHost(prefix, o.seen, call);
  }

  lemma StepKeepsHost(w: World, s: Step)
    requires Exclusive(w) && Honest(w) && Enabled(w, s, true) && InTime(w, s)
    ensures Exclusive(Next(w, s)) && Honest(Next(w, s)) && Next(w, s).prefix == w.prefix
    ensures HostLines(w.prefix, Next(w, s).lines) == HostLines(w.prefix, w.lines)
  {
    hide Decide, Run, HostLines;
    match s
    case Act(p, works) => RunKeepsHost(w.prefix, w.lines, w.processes[p].call);
    case Leave(p) =>
      assert w.processes[p].action == Decide(w.prefix, w.lines, w.processes[p].call);
      assert WasDecided(w.prefix, Orphan(w.processes[p].action, w.lines));
    case Late(i, works) => OrphanKeepsHost(w.prefix, w.orphans[i]);
    case _ =>
  }

  predicate AllInTime(w: World, steps: seq<Step>, locking: bool)
    requires Execution(w, steps, locking)
    decreases |steps|
  {
    steps == [] || (InTime(w, steps[0]) && AllInTime(Next(w, steps[0]), steps[1..], locking))
  }

  // Over every interleaving under the lock the host's own rules, content and
  // order, never change, as long as orphaned commands take effect in time.
  lemma {:induction false} HostRulesNeverChange(w: World, steps: seq<Step>)
    requires Exclusive(w) && Honest(w) && Execution(w, steps, true) && AllInTime(w, steps, true)
    ensures Exclusive(After(w, steps, true)) && Honest(After(w, steps, true))
    ensures HostLines(w.prefix, After(w, steps, true).lines) == HostLines(w.prefix, w.lines)
    decreases |steps|
  {
    if steps != [] {
      StepKeepsHost(w, steps[0]);
      HostRulesNeverChange(Next(w, steps[0]), steps[1..]);
    }
  }

  // ---- exactly when a host rule changes ----

  // The command falls on one of the host's own rules: the number it deletes has
  // become theirs, or the rule ufw merges into is.
  predicate Hits(prefix: string, lines: seq<Line>, action: Action) {
    match action
    case Allow(g) =>
      var i := MergeIndex(lines, g.At());
      i < |lines| && !Managed(prefix, lines[i])
    case DeleteNumber(num) => 1 <= num <= |lines| && !Managed(prefix, lines[num - 1])
    case Nothing => false
  }

  lemma Rewritten(prefix: string, lines: seq<Line>, i: nat, l: Line)
    requires i < |lines| && Managed(prefix, l)
    ensures var before, after := HostLines(prefix, lines), HostLines(prefix, lines[i := l]);
            if Managed(prefix, lines[i]) then after == before else |after| == |before| - 1
  {
    hide Managed, HostLines;
    var a, x, b := lines[..i], lines[i], lines[i + 1..];
    assert lines == a + [x] + b && lines[i := l] == a + [l] + b;
    HostLinesAt(prefix, a, x, b);
    HostLinesAt(prefix, a, l, b);
  }

  lemma Inserted(prefix: string, lines: seq<Line>, k: nat, l: Line)
    requires k <= |lines| && Managed(prefix, l)
    ensures HostLines(prefix, lines[..k] + [l] + lines[k..]) == HostLines(prefix, lines)
  {
    hide Managed, HostLines;
    assert lines[..k] + lines[k..] == lines;
    HostLinesConcat(prefix, lines[..k], lines[k..]);
    HostLinesAt(prefix, lines[..k], l, lines[k..]);
  }

  lemma AllowHits(prefix: string, lines: seq<Line>, g: Grant)
    ensures var before, after := HostLines(prefix, lines), HostLines(prefix, RunAllow(prefix, lines, g));
            if Hits(prefix, lines, Allow(g)) then |after| == |before| - 1 else after == before
  {
    AllowLineManaged(prefix, g);
    hide Managed, AllowLine, AppendIndex, MergeIndex, HostLines;
    var i := MergeIndex(lines, g.At());
    if i < |lines| {
      Rewritten(prefix, lines, i, AllowLine(prefix, g));
    } else {
      Inserted(prefix, lines, AppendIndex(lines, HasColon(g.ip)), AllowLine(prefix, g));
    }
  }

  lemma DeleteHits(prefix: string, lines: seq<Line>, num: nat)
    requires 1 <= num <= |lines|
    ensures HostLines(prefix, lines)
            == HostLines(prefix, lines[..num - 1]) + (if Managed(prefix, lines[num - 1]) then [] else [lines[num - 1]]) + HostLines(prefix, lines[num..])
    ensures HostLines(prefix, lines[..num - 1] + lines[num..])
            == HostLines(prefix, lines[..num - 1]) + HostLines(prefix, lines[num..])
  {
    assert lines == lines[..num - 1] + [lines[num - 1]] + lines[num..];
    HostLinesAt(prefix, lines[..num - 1], lines[num - 1], lines[num..]);
    HostLinesConcat(prefix, lines[..num - 1], lines[num..]);
  }

  // A command that misses the host's rules leaves them; one that hits takes one out.
  lemma HitsExactly(prefix: string, lines: seq<Line>, action: Action)
    ensures var before, after := HostLines(prefix, lines), HostLines(prefix, Run(prefix, lines, action));
            if Hits(prefix, lines, action) then |after| == |before| - 1 else after == before
  {
    hide Managed, HostLines, RunAllow;
    match action
    case Allow(g) => AllowHits(prefix, lines, g);
    case DeleteNumber(num) =>
      if 1 <= num <= |lines| {
        DeleteHits(prefix, lines, num);
      }
    case Nothing =>
  }

  lemma HostLinesAt(prefix: string, a: seq<Line>, x: Line, b: seq<Line>)
    ensures HostLines(prefix, a + [x] + b)
            == HostLines(prefix, a) + (if Managed(prefix, x) then [] else [x]) + HostLines(prefix, b)
  {
    HostLinesConcat(prefix, a + [x], b);
    HostLinesConcat(prefix, a, [x]);
    assert [x][1..] == [];
  }

  // The step runs a command that hits.
  predicate Misfires(w: World, s: Step) {
    (s.Act? && s.works && s.p < |w.processes| && w.processes[s.p].Decided? && Hits(w.prefix, w.lines, w.processes[s.p].action)) ||
    (s.Late? && s.works && s.i < |w.orphans| && Hits(w.prefix, w.lines, w.orphans[s.i].action))
  }

  predicate NoneMisfires(w: World, steps: seq<Step>, locking: bool)
    requires Execution(w, steps, locking)
    decreases |steps|
  {
    steps == [] || (!Misfires(w, steps[0]) && NoneMisfires(Next(w, steps[0]), steps[1..], locking))
  }

  lemma StepMisfires(w: World, s: Step)
    requires Enabled(w, s, false)
    ensures Next(w, s).prefix == w.prefix
    ensures var before, after := HostLines(w.prefix, w.lines), HostLines(w.prefix, Next(w, s).lines);
            if Misfires(w, s) then |after| < |before| else after == before
  {
    hide Hits, Run, HostLines;
    match s
    case Act(p, works) => HitsExactly(w.prefix, w.lines, w.processes[p].action);
    case Late(i, works) => HitsExactly(w.prefix, w.lines, w.orphans[i].action);
    case _ =>
  }

  // Over any execution at all, with or without the lock: the host's rules are in
  // the end what they were, exactly if no command fell on one of them.
  lemma {:induction false} HostRulesChangeExactly(w: World, steps: seq<Step>, locking: bool)
    requires Execution(w, steps, locking)
    ensures var before, after := HostLines(w.prefix, w.lines), HostLines(w.prefix, After(w, steps, locking).lines);
            |after| <= |before| && (after == before <==> NoneMisfires(w, steps, locking))
    decreases |steps|
  {
    if steps != [] {
      StepMisfires(w, steps[0]);
      HostRulesChangeExactly(Next(w, steps[0]), steps[1..], locking);
    }
  }

  // What the call leaves of a table, in one piece; the lock and the listing work,
  // the command's fate is `works`.
  function Operated(t: Table, call: Call): seq<Line> {
    match call
    case CallAdd(g) => SpecAdd(t, g).0.lines
    case CallRemove(g) => SpecRemove(t, g).0.lines
    case CallDelete(h) => SpecDelete(t, h).0.lines
  }

  // Taking the lock, reading and acting in three steps is the backend's one-piece
  // operation, its command failing or not.
  lemma CallsAreOperations(w: World, p: nat, call: Call, works: bool)
    requires p < |w.processes| && Enabled(w, Start(p, call), true)
    ensures var locked := Next(w, Start(p, call));
            Enabled(locked, Read(p), true) &&
            var decided := Next(locked, Read(p));
            Enabled(decided, Act(p, works), true) &&
            var done := Next(decided, Act(p, works));
            done.lines == Operated(Table(w.prefix, true, w.lines, [false, false, !works]), call) &&
            done.processes == w.processes && done.orphans == w.orphans && done.holder == None
  {
    assert w.processes[p := Locked(call)][p := Decided(call, Decide(w.prefix, w.lines, call))][p := Idle] == w.processes;
    OperatedIsDecided(w.prefix, w.lines, call, works);
  }

  lemma OperatedIsDecided(prefix: string, lines: seq<Line>, call: Call, works: bool)
    ensures Operated(Table(prefix, true, lines, [false, false, !works]), call)
            == if works then Run(prefix, lines, Decide(prefix, lines, call)) else lines
  {
    var t := Table(prefix, true, lines, [false, false, !works]);
    assert Tick(t).faults == [false, !works] && Tick(Tick(t)).faults == [!works];
  }

  // ---- why the lock is needed ----

  const OURS := Line(Plain(ALLOW, 22, Tcp, IPv4(1, false, 0)), "n:a:g")
  const HOST_DENY := Line(Plain(DENY, 22, Tcp, IPv4(2, false, 0)), "")
  const RACED: Call := CallDelete(Digest("n:a:g", IPv4(1, false, 0), 22, Tcp))
  const RACE_IN: seq<Step> := [Start(0, RACED), Start(1, RACED), Read(0), Read(1)]
  const RACE_OUT: seq<Step> := [Act(0, true), Act(1, true)]

  lemma RaceDecision()
    ensures Decide("n", [OURS, HOST_DENY], RACED) == DeleteNumber(1)
    ensures HostLines("n", [OURS, HOST_DENY]) == [HOST_DENY]
  {
    var lines := [OURS, HOST_DENY];
    assert OURS.comment[..2] == "n" + ":";
    assert Managed("n", OURS) && !Managed("n", HOST_DENY);
    assert ParseFrom("n", lines, 0)[0].rule.handle == HandleOf(OURS) == RACED.h;
    assert lines[1..] == [HOST_DENY];
    assert HostLines("n", [HOST_DENY]) == [HOST_DENY];
  }

  lemma ExecutionStep(w: World, s: Step, rest: seq<Step>, locking: bool)
    requires Enabled(w, s, locking) && Execution(Next(w, s), rest, locking)
    ensures Execution(w, [s] + rest, locking)
    ensures After(w, [s] + rest, locking) == After(Next(w, s), rest, locking)
  {
    assert ([s] + rest)[1..] == rest;
  }

  // Both processes resolve the same number.
  lemma BothResolve(w: World)
    requires w == World("n", [OURS, HOST_DENY], None, [Idle, Idle], [])
    ensures Execution(w, RACE_IN, false)
    ensures var d := Decided(RACED, DeleteNumber(1));
            After(w, RACE_IN, false) == World("n", [OURS, HOST_DENY], Some(1), [d, d], [])
  {
    RaceDecision();
    var w1 := Next(w, RACE_IN[0]);
    var w2 := Next(w1, RACE_IN[1]);
    assert w2.processes == [Locked(RACED), Locked(RACED)];
    var w3 := Next(w2, RACE_IN[2]);
    assert Next(w3, RACE_IN[3]).processes == [Decided(RACED, DeleteNumber(1)), Decided(RACED, DeleteNumber(1))];
    ExecutionStep(w3, RACE_IN[3], [], false);
    ExecutionStep(w2, RACE_IN[2], [RACE_IN[3]], false);
    ExecutionStep(w1, RACE_IN[1], [RACE_IN[2], RACE_IN[3]], false);
    ExecutionStep(w, RACE_IN[0], [RACE_IN[1], RACE_IN[2], RACE_IN[3]], false);
    assert RACE_IN == [RACE_IN[0]] + [RACE_IN[1], RACE_IN[2], RACE_IN[3]];
  }

  // Without the lock the numbered delete does hit a host rule: the second process
  // deletes what the first one's delete shifted to the number.
  lemma WithoutTheLockAHostRuleGoes(w: World)
    requires w == World("n", [OURS, HOST_DENY], None, [Idle, Idle], [])
    ensures Exclusive(w) && HostLines("n", w.lines) == [HOST_DENY]
    ensures Execution(w, RACE_IN, false)
    ensures var racing := After(w, RACE_IN, false);
            Execution(racing, RACE_OUT, false) && After(racing, RACE_OUT, false).lines == []
  {
    hide Managed, Decide, HostLines;
    RaceDecision();
    BothResolve(w);
    var w4 := After(w, RACE_IN, false);
    var w5 := Next(w4, RACE_OUT[0]);
    assert w5.lines == [HOST_DENY];
    assert Next(w5, RACE_OUT[1]).lines == [];
    ExecutionStep(w5, RACE_OUT[1], [], false);
    ExecutionStep(w4, RACE_OUT[0], [RACE_OUT[1]], false);
    assert RACE_OUT == [RACE_OUT[0]] + [RACE_OUT[1]];
  }

  // ---- an orphan without the lock ----

  const KILLED: seq<Step> := [Start(0, RACED), Read(0), Leave(0)]
  const NEXT_CALL: seq<Step> := [Start(1, RACED), Read(1), Act(1, true)]
  const TOO_LATE: seq<Step> := [Late(0, true)]

  // A process is killed with its delete under way; the next one takes the freed
  // lock and deletes the same rule by the same number.
  lemma KilledThenDeleted(w: World)
    requires w == World("n", [OURS, HOST_DENY], None, [Idle, Idle], [])
    ensures Execution(w, KILLED, true)
    ensures After(w, KILLED, true) == w.(orphans := [Orphan(DeleteNumber(1), [OURS, HOST_DENY])])
  {
    RaceDecision();
    var w1 := Next(w, KILLED[0]);
    var w2 := Next(w1, KILLED[1]);
    assert w2.processes == [Decided(RACED, DeleteNumber(1)), Idle];
    var w3 := Next(w2, KILLED[2]);
    assert w3.processes == [Idle, Idle];
    ExecutionStep(w2, KILLED[2], [], true);
    ExecutionStep(w1, KILLED[1], [KILLED[2]], true);
    ExecutionStep(w, KILLED[0], [KILLED[1], KILLED[2]], true);
    assert KILLED == [KILLED[0]] + [KILLED[1], KILLED[2]];
  }

  lemma DeletedMeanwhile(w: World)
    requires w == World("n", [OURS, HOST_DENY], None, [Idle, Idle], [Orphan(DeleteNumber(1), [OURS, HOST_DENY])])
    ensures Execution(w, NEXT_CALL, true)
    ensures After(w, NEXT_CALL, true) == w.(lines := [HOST_DENY])
  {
    RaceDecision();
    var w1 := Next(w, NEXT_CALL[0]);
    var w2 := Next(w1, NEXT_CALL[1]);
    assert w2.processes == [Idle, Decided(RACED, DeleteNumber(1))];
    var w3 := Next(w2, NEXT_CALL[2]);
    assert w3.processes == [Idle, Idle] && w3.lines == [HOST_DENY];
    ExecutionStep(w2, NEXT_CALL[2], [], true);
    ExecutionStep(w1, NEXT_CALL[1], [NEXT_CALL[2]], true);
    ExecutionStep(w, NEXT_CALL[0], [NEXT_CALL[1], NEXT_CALL[2]], true);
    assert NEXT_CALL == [NEXT_CALL[0]] + [NEXT_CALL[1], NEXT_CALL[2]];
  }

  // The lock does not cover a command that outlives its process: a host rule goes.
  lemma AnOrphanHitsAHostRule(w: World)
    requires w == World("n", [OURS, HOST_DENY], None, [Idle, Idle], [])
    ensures Exclusive(w) && Honest(w) && HostLines("n", w.lines) == [HOST_DENY]
    ensures Execution(w, KILLED, true) && Execution(After(w, KILLED, true), NEXT_CALL, true)
    ensures var late := After(After(w, KILLED, true), NEXT_CALL, true);
            Execution(late, TOO_LATE, true) && After(late, TOO_LATE, true).lines == []
  {
    RaceDecision();
    KilledThenDeleted(w);
    DeletedMeanwhile(After(w, KILLED, true));
    var late := After(After(w, KILLED, true), NEXT_CALL, true);
    assert Next(late, TOO_LATE[0]).lines == [];
    ExecutionStep(late, TOO_LATE[0], [], true);
    assert TOO_LATE == [TOO_LATE[0]] + [];
  }
}
