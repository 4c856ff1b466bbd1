// A node's agent (internal/agent/agent.go): pull the desired state from the hub,
// align the node's nftables chain with it, keep a guard across flushes and
// restarts.  A hub's answer is arbitrary input.
module Agent {
  import opened Net
  import opened Seqs
  import opened Comments
  import opened NftChain
  import opened Reconcile
  import NB = NftBackend

  datatype Options = Options(allowedPorts: seq<int>, guard: bool, stateFile: bool)

  // What one pull yields: rules (any text as an address) and, from a hub that
  // sends them, ports; a rejected token; or no answer at all.
  datatype Answer = Served(rules: seq<Grant>, ports: Option<seq<PortProto>>) | Rejected | Unanswered

  // What the loop remembers between cycles.
  datatype Memory = Memory(ports: seq<PortProto>, havePorts: bool, saved: bool, revoked: bool)

  datatype File = Missing | Unreadable | Holding(ports: seq<PortProto>)

  datatype Node = Node(fw: Chain, memory: Memory, file: File)

  // ---- filters ----

  predicate Clean(g: Grant) {
    Canonical(g.ip) && ValidPort(g.port, g.proto) && ValidName(g.user) && ValidName(g.group)
  }

  // sanitize, for one rule: refused, or with its address in canonical form.
  function Sanitized(d: Grant): (r: Option<Grant>)
    ensures r.Some? ==> Clean(r.value) && r.value == d.(ip := r.value.ip) && CanonicalIP(d.ip) == Some(r.value.ip)
    ensures r.None? <==> CanonicalIP(d.ip).None? || !ValidPort(d.port, d.proto) || !ValidName(d.user) || !ValidName(d.group)
  {
    var ip := CanonicalIP(d.ip);
    if ip.None? || !ValidPort(d.port, d.proto) || !ValidName(d.user) || !ValidName(d.group) then None
    else Some(d.(ip := ip.value))
  }

  function Sanitize(desired: seq<Grant>): (r: seq<Grant>)
    ensures forall g :: g in r <==> exists d :: d in desired && Sanitized(d) == Some(g)
  {
    if desired == [] then []
    else
      var last := Sanitized(desired[|desired| - 1]);
      Sanitize(desired[..|desired| - 1]) + if last.Some? then [last.value] else []
  }

  function PortIn(allowed: seq<int>): PortProto -> bool {
    (p: PortProto) => p.port in allowed
  }

  function PortNotIn(allowed: seq<int>): PortProto -> bool {
    (p: PortProto) => p.port !in allowed
  }

  function RuleIn(allowed: seq<int>): Grant -> bool {
    (g: Grant) => g.port in allowed
  }

  // filterAllowed: an empty list filters nothing.
  function FilterAllowed(desired: seq<Grant>, allowed: seq<int>): seq<Grant> {
    if allowed == [] then desired else Keep(desired, RuleIn(allowed))
  }

  function Asked(opts: Options, rules: seq<Grant>): seq<Grant> {
    FilterAllowed(Sanitize(rules), opts.allowedPorts)
  }

  // splitAllowed's first half: with an empty list, nothing.
  function InAllowed(ports: seq<PortProto>, allowed: seq<int>): seq<PortProto> {
    Keep(ports, PortIn(allowed))
  }

  // ---- the guard's memory ----

  // The guard the current configuration makes of remembered ports.
  function Enforced(opts: Options, ports: seq<PortProto>): seq<PortProto> {
    if opts.guard then InAllowed(ports, opts.allowedPorts) else []
  }

  // saveGuard; `works` is the fate of a write to the state file.
  function Save(opts: Options, m: Memory, file: File, ports: seq<PortProto>, works: bool): (Memory, File) {
    var m1 := if !m.havePorts || m.ports != ports then m.(ports := ports, havePorts := true, saved := false) else m;
    if !opts.stateFile || m1.saved || !works then (m1, file) else (m1.(saved := true), Holding(ports))
  }

  const FORGOTTEN := Memory([], false, false, false)

  // loadGuard, at the start of a run.
  function Load(opts: Options, file: File): Memory {
    if opts.stateFile && file.Holding? then Memory(file.ports, true, true, false) else FORGOTTEN
  }

  // ---- one cycle ----

  // reapplyGuard: the chain with which the hub is asked.
  function Reapplied(opts: Options, c: Chain, m: Memory): Chain {
    if m.havePorts then SpecSyncGuard(c, Enforced(opts, m.ports)).0 else c
  }

  // syncGuard, with the ports of an answer.
  function SpecGuard(opts: Options, n: Node, ports: Option<seq<PortProto>>, works: bool): Node {
    if opts.guard && ports.None? then n
    else
      var wanted := if opts.guard then InAllowed(ports.value, opts.allowedPorts) else [];
      var (c, ok) := SpecSyncGuard(n.fw, wanted);
      if !ok then n.(fw := c)
      else
        var (m, file) := Save(opts, n.memory, n.file, wanted, works);
        Node(c, m, file)
  }

  function SpecStep(opts: Options, n: Node, answer: Answer, works: bool): Node {
    var (base, ok) := SpecEnsureBase(n.fw);
    if !ok then n.(fw := base)
    else
      var c := Reapplied(opts, base, n.memory);
      match answer
      case Unanswered => n.(fw := c)
      case Rejected => n.(fw := ChainOf(SpecReconcileAll(Nft(c), []).host, c), memory := n.memory.(revoked := true))
      case Served(rules, ports) =>
        var c1 := ChainOf(SpecReconcileAll(Nft(c), Asked(opts, rules)).host, c);
        SpecGuard(opts, n.(fw := c1, memory := n.memory.(revoked := false)), ports, works)
  }

  // ---- the program ----

  // The state file's disk, which outlives a run.
  class Disk {
    var file: File

    constructor (file: File)
      ensures this.file == file
    {
      this.file := file;
    }

    method Write(ports: seq<PortProto>, works: bool) returns (ok: bool)
      modifies this
      ensures ok == works && file == if works then Holding(ports) else old(file)
    {
      if works {
        file := Holding(ports);
      }
      ok := works;
    }
  }

  class Agent {
    const opts: Options
    const be: NB.NftBackend
    const disk: Disk
    var ports: seq<PortProto>
    var havePorts: bool
    var saved: bool
    var revoked: bool

    ghost predicate Valid()
      reads this, be
    {
      be.Valid()
    }

    ghost function State(): Node
      reads this, be, disk
    {
      Node(be.kernel, Memory(ports, havePorts, saved, revoked), disk.file)
    }

    // The start of Run: loadGuard.
    constructor (opts: Options, be: NB.NftBackend, disk: Disk)
      requires be.Valid()
      ensures Valid() && this.opts == opts && this.be == be && this.disk == disk
      ensures State() == Node(be.kernel, Load(opts, disk.file), disk.file)
      ensures havePorts == (opts.stateFile && disk.file.Holding?) && saved == havePorts && !revoked
      ensures ports == if havePorts then disk.file.ports else []
    {
      this.opts, this.be, this.disk := opts, be, disk;
      revoked := false;
      if opts.stateFile && disk.file.Holding? {
        ports, havePorts, saved := disk.file.ports, true, true;
      } else {
        ports, havePorts, saved := [], false, false;
      }
    }

    method SanitizeRules(desired: seq<Grant>) returns (out: seq<Grant>)
      ensures out == Sanitize(desired)
      ensures forall g :: g in out <==>
                exists d :: d in desired && CanonicalIP(d.ip) == Some(g.ip) && g == d.(ip := g.ip) && 1 <= d.port <= 65535 &&
                            (d.proto == Tcp || d.proto == Udp) && ValidName(d.user) && ValidName(d.group)
    {
      out := [];
      for i := 0 to |desired|
        invariant out == Sanitize(desired[..i])
      {
        assert desired[..i + 1][..i] == desired[..i];
        var d := desired[i];
        var ip := CanonicalIP(d.ip);
        if ip.None? || d.port < 1 || d.port > 65535 || (d.proto != Tcp && d.proto != Udp) ||
           !ValidName(d.user) || !ValidName(d.group)
        {
          assert Sanitize(desired[..i]) + [] == Sanitize(desired[..i]);
          continue;
        }
        out := out + [d.(ip := ip.value)];
      }
      assert desired[..|desired|] == desired;
    }

    method FilterRules(desired: seq<Grant>) returns (out: seq<Grant>)
      ensures out == FilterAllowed(desired, opts.allowedPorts)
      ensures forall d :: d in out <==> d in desired && (opts.allowedPorts == [] || d.port in opts.allowedPorts)
    {
      if opts.allowedPorts == [] {
        return desired;
      }
      out := [];
      for i := 0 to |desired|
        invariant out == Keep(desired[..i], RuleIn(opts.allowedPorts))
      {
        KeepNext(desired, i, RuleIn(opts.allowedPorts));
        if desired[i].port in opts.allowedPorts {
          out := out + [desired[i]];
        }
      }
      assert desired[..|desired|] == desired;
    }

    // splitAllowed.
    method SplitAllowed(all: seq<PortProto>) returns (listed: seq<PortProto>, others: seq<PortProto>)
      ensures listed == InAllowed(all, opts.allowedPorts) && others == Keep(all, PortNotIn(opts.allowedPorts))
      ensures forall p :: p in listed <==> p in all && p.port in opts.allowedPorts
      ensures forall p :: p in others <==> p in all && p.port !in opts.allowedPorts
    {
      listed, others := [], [];
      for i := 0 to |all|
        invariant listed == Keep(all[..i], PortIn(opts.allowedPorts))
        invariant others == Keep(all[..i], PortNotIn(opts.allowedPorts))
      {
        KeepNext(all, i, PortIn(opts.allowedPorts));
        KeepNext(all, i, PortNotIn(opts.allowedPorts));
        if all[i].port in opts.allowedPorts {
          listed := listed + [all[i]];
        } else {
          others := others + [all[i]];
        }
      }
      assert all[..|all|] == all;
    }

    method SamePorts(a: seq<PortProto>, b: seq<PortProto>) returns (same: bool)
      ensures same == (a == b)
    {
      if |a| != |b| {
        return false;
      }
      for i := 0 to |a|
        invariant a[..i] == b[..i]
      {
        if a[i] != b[i] {
          return false;
        }
      }
      assert a[..|a|] == a && b[..|b|] == b;
      same := true;
    }

    method SaveGuard(applied: seq<PortProto>, works: bool)
      requires Valid()
      modifies this, disk
      ensures Valid() && revoked == old(revoked)
      ensures (State().memory, disk.file) == Save(opts, old(State()).memory, old(disk.file), applied, works)
    {
      var same := SamePorts(ports, applied);
      if !havePorts || !same {
        ports, havePorts, saved := applied, true, false;
      }
      if !opts.stateFile || saved {
        return;
      }
      var ok := disk.Write(applied, works);
      if ok {
        saved := true;
      }
    }

    method SyncGuard(hubPorts: Option<seq<PortProto>>, works: bool)
      requires Valid()
      modifies this, be, disk
      ensures Valid() && State() == SpecGuard(opts, old(State()), hubPorts, works)
    {
      var wanted: seq<PortProto> := [];
      if opts.guard {
        if hubPorts.None? {
          return;
        }
        var skipped;
        wanted, skipped := SplitAllowed(hubPorts.value);
      }
      var ok := be.SyncGuard(wanted);
      if !ok {
        return;
      }
      SaveGuard(wanted, works);
    }

    method ReapplyGuard()
      requires Valid()
      modifies be
      ensures Valid() && be.kernel == Reapplied(opts, old(be.kernel), old(State()).memory)
    {
      if !havePorts {
        return;
      }
      var enforced: seq<PortProto> := [];
      if opts.guard {
        var others;
        enforced, others := SplitAllowed(ports);
      }
      var ok := be.SyncGuard(enforced);
    }

    method Step(answer: Answer, works: bool)
      requires Valid()
      modifies this, be, disk
      ensures Valid() && State() == SpecStep(opts, old(State()), answer, works)
    {
      var ok := be.EnsureBase();
      if !ok {
        return;
      }
      ReapplyGuard();
      match answer {
        case Unanswered =>
        case Rejected =>
          var added, removed, failed := ReconcileAll(NftRef(be), []);
          revoked := true;
        case Served(rules, hubPorts) =>
          revoked := false;
          var clean := SanitizeRules(rules);
          var desired := FilterRules(clean);
          var added, removed, failed := ReconcileAll(NftRef(be), desired);
          SyncGuard(hubPorts, works);
      }
    }
  }
}
