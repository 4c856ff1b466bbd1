// The hub and its nodes: agents pull their projection of the hub's tables while
// those change.  A pull is answered by two queries, rules first, and arrives
// later or never.
module Fleet {
  import opened Net
  import opened NftReconcile
  import opened Agent
  import opened Reconcile
  import R = AgentRuns
  import D = Database

  // A pull on its way; `at` and `node` remember what the rules were read from.
  datatype Flight =
    | Idle
    | Refused(at: D.Tables)
    | HasRules(at: D.Tables, node: nat, rules: seq<Grant>)
    | Answering(at: D.Tables, node: nat, rules: seq<Grant>, ports: seq<PortProto>)

  // The tables the last answer that arrived was computed from.
  datatype Basis = Never | From(at: D.Tables, node: nat) | Unknown(at: D.Tables)

  datatype Member = Member(opts: Options, token: string, node: Node, flight: Flight, basis: Basis)

  datatype Fleet = Fleet(hub: D.Tables, members: seq<Member>)

  datatype Step =
    | HubWrites(t: D.Tables)               // any handlers of the hub, knocks included
    | Ask(m: nat, rules: seq<Grant>)       // authNode and DesiredStateForNode
    | ReadPorts(m: nat, ports: seq<PortProto>)  // NodeTargetPorts
    | Arrive(m: nat, works: bool)          // the agent's cycle with the answer
    | Lose(m: nat, works: bool)            // the agent's cycle without one

  // GetNodeByTokenHash.
  ghost function FindNode(t: D.Tables, token: string): Option<nat> {
    if exists i :: i in t.nodes && t.nodes[i] == token then
      var i :| i in t.nodes && t.nodes[i] == token;
      Some(i)
    else None
  }

  ghost predicate Possible(f: Fleet, s: Step) {
    match s
    case HubWrites(t) => D.ValidTables(t)
    case Ask(m, rules) =>
      m < |f.members| && f.members[m].flight.Idle? &&
      var id := FindNode(f.hub, f.members[m].token);
      id.Some? ==> D.Lists(rules, D.DesiredForNode(f.hub, id.value))
    case ReadPorts(m, ports) =>
      m < |f.members| && f.members[m].flight.HasRules? && D.Lists(ports, D.TargetPorts(f.hub, f.members[m].flight.node))
    case Arrive(m, _) => m < |f.members| && (f.members[m].flight.Answering? || f.members[m].flight.Refused?)
    case Lose(m, _) => m < |f.members|
  }

  ghost function Next(f: Fleet, s: Step): Fleet
    requires Possible(f, s)
  {
    match s
    case HubWrites(t) => f.(hub := t)
    case Ask(m, rules) =>
      var id := FindNode(f.hub, f.members[m].token);
      var flight := if id.Some? then HasRules(f.hub, id.value, rules) else Flight.Refused(f.hub);
      f.(members := f.members[m := f.members[m].(flight := flight)])
    case ReadPorts(m, ports) =>
      var fl := f.members[m].flight;
      f.(members := f.members[m := f.members[m].(flight := Answering(fl.at, fl.node, fl.rules, ports))])
    case Arrive(m, works) => f.(members := f.members[m := Received(f.members[m], works)])
    case Lose(m, works) =>
      var a := f.members[m];
      f.(members := f.members[m := a.(node := SpecStep(a.opts, a.node, Unanswered, works), flight := Idle)])
  }

  function Received(a: Member, works: bool): Member
    requires a.flight.Answering? || a.flight.Refused?
  {
    if a.flight.Answering? then
      a.(node := SpecStep(a.opts, a.node, Served(a.flight.rules, Some(a.flight.ports)), works),
         basis := From(a.flight.at, a.flight.node), flight := Idle)
    else
      a.(node := SpecStep(a.opts, a.node, Rejected, works), basis := Unknown(a.flight.at), flight := Idle)
  }

  // ---- what a node is to admit ----

  // The clean, allowed part of a node's desired state.
  function Projection(opts: Options, desired: set<Grant>): set<Grant> {
    set d | d in desired && Sanitized(d).Some? && (opts.allowedPorts == [] || d.port in opts.allowedPorts) :: Sanitized(d).value
  }

  function Admitted(opts: Options, basis: Basis): set<Grant>
    requires !basis.Never?
  {
    match basis
    case From(at, node) => Projection(opts, D.DesiredForNode(at, node))
    case Unknown(_) => {}
  }

  // The answer's rows come from the tables they are said to come from.
  predicate Honest(flight: Flight) {
    flight.HasRules? || flight.Answering? ==> D.Lists(flight.rules, D.DesiredForNode(flight.at, flight.node))
  }

  ghost predicate GoodMember(a: Member) {
    R.Startable(a.node.fw) && Honest(a.flight) && (!a.basis.Never? ==> Holds(a.node.fw, Admitted(a.opts, a.basis)))
  }

  ghost predicate Good(f: Fleet) {
    forall m :: 0 <= m < |f.members| ==> GoodMember(f.members[m])
  }

  lemma AskedIsProjection(opts: Options, rules: seq<Grant>, desired: set<Grant>)
    requires D.Lists(rules, desired)
    ensures Wanted(Asked(opts, rules)) == Projection(opts, desired)
  {
    var asked := Asked(opts, rules);
    forall g
      ensures g in asked <==> g in Projection(opts, desired)
    {
      if g in asked {
        assert g in Sanitize(rules);
        var d :| d in rules && Sanitized(d) == Some(g);
        assert d in desired && Sanitized(d).value in Projection(opts, desired);
      }
      if g in Projection(opts, desired) {
        var d :| d in desired && Sanitized(d).Some? && (opts.allowedPorts == [] || d.port in opts.allowedPorts) && Sanitized(d).value == g;
        assert d in rules && g in Sanitize(rules);
      }
    }
  }

  lemma ReceivedIsGood(a: Member, works: bool)
    requires GoodMember(a) && (a.flight.Answering? || a.flight.Refused?)
    ensures GoodMember(Received(a, works))
  {
    var w := R.World(a.opts, a.node);
    if a.flight.Answering? {
      R.CycleExact(w, Served(a.flight.rules, Some(a.flight.ports)), works);
      AskedIsProjection(a.opts, a.flight.rules, D.DesiredForNode(a.flight.at, a.flight.node));
    } else {
      R.CycleExact(w, Rejected, works);
    }
  }

  lemma LostKeepsRules(a: Member, works: bool)
    requires GoodMember(a)
    ensures GoodMember(a.(node := SpecStep(a.opts, a.node, Unanswered, works), flight := Idle))
  {
    var w := R.World(a.opts, a.node);
    R.CycleExact(w, Unanswered, works);
    R.GuardWhenAsked(w);
  }

  lemma StepKeepsGood(f: Fleet, s: Step)
    requires Good(f) && Possible(f, s)
    ensures Good(Next(f, s))
  {
    match s
    case Arrive(m, works) => ReceivedIsGood(f.members[m], works);
    case Lose(m, works) => LostKeepsRules(f.members[m], works);
    case _ =>
  }

  ghost predicate Run(f: Fleet, steps: seq<Step>)
    decreases |steps|
  {
    steps == [] || (Possible(f, steps[0]) && Run(Next(f, steps[0]), steps[1..]))
  }

  ghost function After(f: Fleet, steps: seq<Step>): Fleet
    requires Run(f, steps)
    decreases |steps|
  {
    if steps == [] then f else After(Next(f, steps[0]), steps[1..])
  }

  // Over every interleaving of hub writes and pulls: each node's allow rules are
  // the projection of the hub's tables at its last answered pull, or none after
  // a rejected one, whatever has happened since.
  lemma {:induction false} NodesFollowTheirLastPull(f: Fleet, steps: seq<Step>)
    requires Good(f) && Run(f, steps)
    ensures Good(After(f, steps))
    decreases |steps|
  {
    if steps != [] {
      StepKeepsGood(f, steps[0]);
      NodesFollowTheirLastPull(Next(f, steps[0]), steps[1..]);
    }
  }

  // ---- convergence ----

  // The node admits exactly what the hub wants it to now.
  ghost predicate Current(f: Fleet, m: nat)
    requires m < |f.members|
  {
    var a := f.members[m];
    var id := FindNode(f.hub, a.token);
    Holds(a.node.fw, if id.Some? then Projection(a.opts, D.DesiredForNode(f.hub, id.value)) else {})
  }

  // The pull in flight, if any, and the last answer come from today's tables.
  ghost predicate UpToDate(f: Fleet, m: nat)
    requires m < |f.members|
  {
    var a := f.members[m];
    var id := FindNode(f.hub, a.token);
    match a.flight
    case Idle => true
    case Refused(at) => id.None?
    case HasRules(at, node, _) => at == f.hub && id == Some(node)
    case Answering(at, node, _, _) => at == f.hub && id == Some(node)
  }

  predicate Quiet(steps: seq<Step>) {
    forall i :: 0 <= i < |steps| ==> !steps[i].HubWrites?
  }

  // An answer has arrived at m.
  predicate Arrived(steps: seq<Step>, m: nat) {
    exists i :: 0 <= i < |steps| && steps[i].Arrive? && steps[i].m == m
  }

  lemma QuietStep(f: Fleet, s: Step, m: nat)
    requires Good(f) && Possible(f, s) && !s.HubWrites? && m < |f.members| && UpToDate(f, m)
    ensures var g := Next(f, s);
            |g.members| == |f.members| && g.hub == f.hub && g.members[m].token == f.members[m].token && UpToDate(g, m) &&
            (Current(f, m) || (s.Arrive? && s.m == m) ==> Current(g, m))
  {
    hide D.DesiredForNode, Projection, D.Lists, Honest;
    StepKeepsGood(f, s);
    if s.m == m {
      var a := f.members[m];
      match s
      case Arrive(_, works) =>
        assert GoodMember(Next(f, s).members[m]);
      case Lose(_, works) =>
        var w := R.World(a.opts, a.node);
        R.CycleExact(w, Unanswered, works);
        R.GuardWhenAsked(w);
      case _ =>
    }
  }

  lemma QuietRest(f: Fleet, steps: seq<Step>)
    requires Good(f) && Run(f, steps) && Quiet(steps) && steps != []
    ensures var g := Next(f, steps[0]);
            Good(g) && g.hub == f.hub && |g.members| == |f.members|
    ensures Quiet(steps[1..])
  {
    StepKeepsGood(f, steps[0]);
    assert !steps[0].HubWrites?;
  }

  // With no stale answer on its way, one that arrives makes a node current, and it
  // stays so.
  lemma {:induction false} ArrivalIsEnough(f: Fleet, steps: seq<Step>, m: nat)
    requires Good(f) && Run(f, steps) && Quiet(steps) && m < |f.members| && UpToDate(f, m)
    ensures var g := After(f, steps);
            |g.members| == |f.members| && g.hub == f.hub && (Current(f, m) || Arrived(steps, m) ==> Current(g, m))
    decreases |steps|
  {
    if steps != [] {
      var rest := steps[1..];
      QuietStep(f, steps[0], m);
      QuietRest(f, steps);
      ArrivalIsEnough(Next(f, steps[0]), rest, m);
      if Arrived(steps, m) {
        var i :| 0 <= i < |steps| && steps[i].Arrive? && steps[i].m == m;
        assert i > 0 ==> rest[i - 1] == steps[i];
      }
    }
  }

  // The node has asked, at step i, and an answer has arrived after that, at step j.
  predicate PulledAt(steps: seq<Step>, m: nat, i: int, j: int) {
    0 <= i < j < |steps| && steps[i].Ask? && steps[i].m == m && steps[j].Arrive? && steps[j].m == m
  }

  ghost predicate Pulled(steps: seq<Step>, m: nat) {
    exists i, j :: PulledAt(steps, m, i, j)
  }

  lemma {:induction false} PullAtIsEnough(f: Fleet, steps: seq<Step>, m: nat, i: int, j: int)
    requires Good(f) && Run(f, steps) && Quiet(steps) && m < |f.members| && PulledAt(steps, m, i, j)
    ensures var g := After(f, steps);
            |g.members| == |f.members| && g.hub == f.hub && Current(g, m)
    decreases |steps|
  {
    if i == 0 {
      assert steps[j].Arrive?;
      ArrivalIsEnough(f, steps, m);
    } else {
      QuietRest(f, steps);
      PullAtIsEnough(Next(f, steps[0]), steps[1..], m, i - 1, j - 1);
    }
  }

  // Once the hub stops changing, one pull asked and answered makes a node current,
  // whatever older answers were still on their way, and it stays so.
  lemma OnePullIsEnough(f: Fleet, steps: seq<Step>, m: nat)
    requires Good(f) && Run(f, steps) && Quiet(steps) && m < |f.members| && Pulled(steps, m)
    ensures var g := After(f, steps);
            |g.members| == |f.members| && g.hub == f.hub && Current(g, m)
  {
    var i, j :| PulledAt(steps, m, i, j);
    PullAtIsEnough(f, steps, m, i, j);
  }

  // ---- a knock, fleet-wide ----

  // What a recorded knock makes a node admit for the user: their groups that
  // target it, at the new address and at no other.
  lemma KnockChangesEveryProjection(t: D.Tables, id: nat, ip: Source, now: int, node: nat, d: Grant)
    requires D.ValidTables(t) && id in t.users && Canonical(ip)
    ensures var t2 := D.Record(t, id, ip, now).0;
            d in D.DesiredForNode(t2, node) && d.user == t.users[id].username <==>
            exists k :: k in t.members && t.members[k] && k.user == id && D.Target(k.group, node) in t.targets &&
                        d == Grant(ip, t.targets[D.Target(k.group, node)].port, t.targets[D.Target(k.group, node)].proto,
                                   t.users[id].username, t.groups[k.group].name)
  {
    hide D.UniqueGroups, D.ValidGroup, D.DesiredForNode;
    var t2 := D.Record(t, id, ip, now).0;
    if d in D.DesiredForNode(t2, node) && d.user == t.users[id].username {
      var k := D.NodeDesiredFrom(t2, node, d);
      assert k.user == id;
    }
    if k :| k in t.members && t.members[k] && k.user == id && D.Target(k.group, node) in t.targets &&
            d == Grant(ip, t.targets[D.Target(k.group, node)].port, t.targets[D.Target(k.group, node)].proto,
                       t.users[id].username, t.groups[k.group].name)
    {
      D.NodeDesires(t2, node, k);
    }
  }

  // A knock moves the user everywhere: once the hub has recorded it and is quiet,
  // every node that asks and gets an answer holds no rule of the user at another
  // address, whatever pull was on its way when the knock came.
  lemma KnockReachesEveryNode(f: Fleet, id: nat, ip: Source, now: int, g: Fleet, steps: seq<Step>, m: nat, a: Fleet)
    requires Good(f) && D.ValidTables(f.hub) && id in f.hub.users && Canonical(ip) && m < |f.members|
    requires g == f.(hub := D.Record(f.hub, id, ip, now).0)
    requires Run(g, steps) && Quiet(steps) && Pulled(steps, m) && a == After(g, steps)
    ensures m < |a.members| && Current(a, m)
    ensures forall d :: d in Grants(a.members[m].node.fw) && d.user == f.hub.users[id].username ==> d.ip == ip
  {
    OnePullIsEnough(g, steps, m);
    var node := FindNode(a.hub, a.members[m].token);
    forall d | d in Grants(a.members[m].node.fw) && d.user == f.hub.users[id].username
      ensures d.ip == ip
    {
      var raw :| raw in D.DesiredForNode(a.hub, node.value) && Sanitized(raw).Some? && Sanitized(raw).value == d;
      KnockChangesEveryProjection(f.hub, id, ip, now, node.value, raw);
    }
  }

  // ---- the hub's handler (node.go nodeDesiredState), nothing written meanwhile ----

  class Hub {
    const db: D.Db

    constructor (db: D.Db)
      ensures this.db == db
    {
      this.db := db;
    }

    method AuthNode(token: string) returns (id: Option<nat>)
      ensures match id
              case None => forall i :: i in db.t.nodes ==> db.t.nodes[i] != token
              case Some(i) => i in db.t.nodes && db.t.nodes[i] == token
    {
      if i :| i in db.t.nodes && db.t.nodes[i] == token {
        id := Some(i);
      } else {
        id := None;
      }
    }

    method NodeDesiredState(token: string) returns (answer: Answer, ghost id: nat)
      requires db.Valid()
      ensures !answer.Unanswered?
      ensures answer.Rejected? <==> forall i :: i in db.t.nodes ==> db.t.nodes[i] != token
      ensures answer.Served? ==>
                id in db.t.nodes && db.t.nodes[id] == token && answer.ports.Some? &&
                D.Lists(answer.rules, D.DesiredForNode(db.t, id)) && D.Lists(answer.ports.value, D.TargetPorts(db.t, id)) &&
                (forall p :: p in answer.ports.value <==> exists k :: k in db.t.targets && k.node == id && db.t.targets[k] == p) &&
                forall d :: d in answer.rules <==>
                  exists k :: k in db.t.members && db.t.members[k] && D.Target(k.group, id) in db.t.targets &&
                              db.t.users[k.user].ip.Some? && db.t.users[k.user].ip != Some(NotAnIP("")) &&
                              d == Grant(db.t.users[k.user].ip.value, db.t.targets[D.Target(k.group, id)].port,
                                         db.t.targets[D.Target(k.group, id)].proto, db.t.users[k.user].username, db.t.groups[k.group].name)
    {
      id := 0;
      var node := AuthNode(token);
      if node == None {
        return Rejected, 0;
      }
      var desired := db.DesiredStateForNode(node.value);
      var rules: seq<Grant> := [];
      for i := 0 to |desired|
        invariant rules == desired[..i]
      {
        rules := rules + [desired[i]];
      }
      var targets := db.NodeTargetPorts(node.value);
      var ports: seq<PortProto> := [];
      for i := 0 to |targets|
        invariant ports == targets[..i]
      {
        ports := ports + [targets[i]];
      }
      answer, id := Served(rules, Some(ports)), node.value;
    }
  }
}
