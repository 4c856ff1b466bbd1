// The host's ufw rule list and what each backend operation makes of it.  Every
// lock and ufw invocation takes its fate from the head of `faults`.
module UfwTable {
  import opened Net
  import opened Comments

  // A numbered rule's body, as far as the two patterns of ufw.go tell rules apart.
  datatype Shape =
    | Plain(action: Action, port: int, proto: Proto, src: Source)            // ufwMatchRe: the match of one of our rules
    | AllowExtra(port: int, proto: Proto, src: Source, extra: string)        // ufwBodyRe only: an ALLOW with more to match
    | Odd(text: string)                                                      // neither

  datatype Line = Line(shape: Shape, comment: string)

  datatype Table = Table(prefix: string, active: bool, lines: seq<Line>, faults: seq<bool>)

  // A parsed managed rule with its current ufw number.
  datatype Numbered = Numbered(num: nat, rule: Rule)

  predicate Managed(prefix: string, l: Line) {
    HasPrefix(l.comment, prefix + ":") && (l.shape.AllowExtra? || (l.shape.Plain? && l.shape.action.ALLOW?))
  }

  function LineAt(l: Line): Endpoint
    requires !l.shape.Odd?
  {
    Endpoint(l.shape.src, l.shape.port, l.shape.proto)
  }

  function HandleOf(l: Line): Handle
    requires !l.shape.Odd?
  {
    Digest(l.comment, l.shape.src, l.shape.port, l.shape.proto)
  }

  function ListedLine(prefix: string, l: Line): Rule
    requires !l.shape.Odd?
  {
    var (user, group) := SplitComment(prefix, l.comment);
    Rule(HandleOf(l), Grant(l.shape.src, l.shape.port, l.shape.proto, user, group), l.comment)
  }

  // parseUfwStatus, from the i-th line on.
  function ParseFrom(prefix: string, lines: seq<Line>, i: nat): seq<Numbered>
    requires i <= |lines|
    decreases |lines| - i
  {
    if i == |lines| then []
    else if Managed(prefix, lines[i]) then
      [Numbered(i + 1, ListedLine(prefix, lines[i]))] + ParseFrom(prefix, lines, i + 1)
    else ParseFrom(prefix, lines, i + 1)
  }

  function Parse(prefix: string, lines: seq<Line>): seq<Numbered> {
    ParseFrom(prefix, lines, 0)
  }

  function RulesOf(numbered: seq<Numbered>): (r: seq<Rule>)
    ensures |r| == |numbered|
    ensures forall i :: 0 <= i < |r| ==> r[i] == numbered[i].rule
  {
    seq(|numbered|, i requires 0 <= i < |numbered| => numbered[i].rule)
  }

  // Whether a rule from `src` is about the address `ip`, in the same family of
  // spelling ("::ffff:192.0.2.1" is an IPv6 rule to ufw).
  predicate SameAddress(src: Source, ip: Source) {
    ParseIP(src).Some? && ParseIP(src) == ParseIP(ip) && HasColon(src) == HasColon(ip)
  }

  predicate MatchesPlain(l: Line, at: Endpoint) {
    l.shape.Plain? && l.shape.port == at.port && l.shape.proto == at.proto && SameAddress(l.shape.src, at.ip)
  }

  // hostRuleFor: the action of the first unmanaged rule with exactly this match.
  function HostRuleFor(prefix: string, lines: seq<Line>, at: Endpoint): Option<Action> {
    if lines == [] then None
    else if !Managed(prefix, lines[0]) && MatchesPlain(lines[0], at) then Some(lines[0].shape.action)
    else HostRuleFor(prefix, lines[1..], at)
  }

  // ---- what the ufw command itself does ----

  // Index of the rule ufw merges a new rule for `at` into, |lines| if there is none.
  function MergeIndex(lines: seq<Line>, at: Endpoint): (i: nat)
    ensures i <= |lines|
    ensures forall j :: 0 <= j < i ==> !MatchesPlain(lines[j], at)
    ensures i < |lines| ==> MatchesPlain(lines[i], at)
  {
    if lines == [] then 0 else if MatchesPlain(lines[0], at) then 0 else 1 + MergeIndex(lines[1..], at)
  }

  predicate V6Line(l: Line) {
    !l.shape.Odd? && HasColon(l.shape.src)
  }

  // ufw lists its IPv4 rules before its IPv6 rules and appends within either.
  function AppendIndex(lines: seq<Line>, v6: bool): (i: nat)
    ensures i <= |lines|
  {
    if v6 || lines == [] then |lines| else if V6Line(lines[0]) then 0 else 1 + AppendIndex(lines[1..], v6)
  }

  function AllowLine(prefix: string, g: Grant): Line {
    Line(Plain(ALLOW, g.port, g.proto, ListedForm(g.ip)), CommentFor(prefix, g.user, g.group))
  }

  // `ufw allow from ip to any port p proto x comment c`: one rule per match, so an
  // existing one is rewritten, action and comment included.
  function RunAllow(prefix: string, lines: seq<Line>, g: Grant): seq<Line> {
    var i := MergeIndex(lines, g.At());
    var l := AllowLine(prefix, g);
    if i < |lines| then lines[i := l]
    else
      var k := AppendIndex(lines, HasColon(g.ip));
      lines[..k] + [l] + lines[k..]
  }

  // `ufw --force delete n`: an unknown number is an error.
  function RunDelete(lines: seq<Line>, num: nat): Option<seq<Line>> {
    if 1 <= num <= |lines| then Some(lines[..num - 1] + lines[num..]) else None
  }

  // ---- the backend's operations ----

  function Tick(t: Table): Table {
    t.(faults := Later(t.faults))
  }

  // Lock and `ufw status numbered`: the table afterwards, and what went wrong.
  function Status(t: Table): (Table, Option<Error>) {
    if NextFails(t.faults) then (Tick(t), Some(CommandFailed))
    else
      var t1 := Tick(t);
      if NextFails(t1.faults) then (Tick(t1), Some(CommandFailed))
      else (Tick(t1), if t.active then None else Some(Inactive))
  }

  function SpecList(t: Table): (Table, Option<seq<Rule>>) {
    var (t1, err) := Status(t);
    (t1, if err.Some? then None else Some(RulesOf(Parse(t.prefix, t.lines))))
  }

  function SpecAdd(t: Table, g: Grant): (Table, Outcome) {
    if !NextFails(t.faults) && !CheckRule(g.ip, g.port, g.proto) then (Tick(t), Failed(Refused))
    else
      var (t1, err) := Status(t);
      if err.Some? then (t1, Failed(err.value))
      else
        match HostRuleFor(t.prefix, t.lines, g.At())
        case Some(action) => (t1, HostRule(action))
        case None =>
          if NextFails(t1.faults) then (Tick(t1), Failed(CommandFailed))
          else (Tick(t1).(lines := RunAllow(t.prefix, t.lines, g)), Done)
  }

  function FirstNumber(numbered: seq<Numbered>, h: Handle): Option<nat> {
    if numbered == [] then None
    else if numbered[0].rule.handle == h then Some(numbered[0].num)
    else FirstNumber(numbered[1..], h)
  }

  // DeleteByHandle: the handle is resolved to the rule's current number; a miss
  // is not an error.
  function SpecDelete(t: Table, h: Handle): (Table, bool) {
    var (t1, err) := Status(t);
    if err.Some? then (t1, false)
    else
      match FirstNumber(Parse(t.prefix, t.lines), h)
      case None => (t1, true)
      case Some(num) =>
        if NextFails(t1.faults) then (Tick(t1), false)
        else
          match RunDelete(t.lines, num)
          case None => (Tick(t1), false)
          case Some(lines) => (Tick(t1).(lines := lines), true)
  }

  // RemoveRule: by match and exact comment.
  function SpecRemove(t: Table, g: Grant): (Table, bool) {
    SpecDelete(t, Digest(CommentFor(t.prefix, g.user, g.group), g.ip, g.port, g.proto))
  }

  predicate Healthy(t: Table) {
    t.active && FailureFree(t.faults)
  }

  // ---- parsing facts ----

  lemma {:induction false} ParseFromSound(prefix: string, lines: seq<Line>, i: nat, k: nat)
    requires i <= |lines| && k < |ParseFrom(prefix, lines, i)|
    ensures var n := ParseFrom(prefix, lines, i)[k];
            i < n.num <= |lines| && Managed(prefix, lines[n.num - 1]) && n.rule == ListedLine(prefix, lines[n.num - 1])
    ensures k == 0 || ParseFrom(prefix, lines, i)[0].num < ParseFrom(prefix, lines, i)[k].num
    decreases |lines| - i
  {
    if Managed(prefix, lines[i]) {
      if k > 0 {
        ParseFromSound(prefix, lines, i + 1, k - 1);
      }
    } else {
      ParseFromSound(prefix, lines, i + 1, k);
    }
  }

  // A resolved number names a managed line with that handle; an unresolved handle
  // is on no managed line.
  lemma {:induction false} FirstNumberFrom(prefix: string, lines: seq<Line>, i: nat, h: Handle)
    requires i <= |lines|
    ensures match FirstNumber(ParseFrom(prefix, lines, i), h)
            case Some(num) => i < num <= |lines| && Managed(prefix, lines[num - 1]) && HandleOf(lines[num - 1]) == h
            case None => forall j :: i <= j < |lines| && Managed(prefix, lines[j]) ==> HandleOf(lines[j]) != h
    decreases |lines| - i
  {
    if i < |lines| {
      FirstNumberFrom(prefix, lines, i + 1, h);
      if Managed(prefix, lines[i]) {
        assert ParseFrom(prefix, lines, i)[1..] == ParseFrom(prefix, lines, i + 1);
      }
    }
  }

  predicate HostMatch(prefix: string, l: Line, at: Endpoint) {
    !Managed(prefix, l) && MatchesPlain(l, at)
  }

  lemma {:induction false} HostRuleForFinds(prefix: string, lines: seq<Line>, at: Endpoint)
    ensures match HostRuleFor(prefix, lines, at)
            case None => forall i :: 0 <= i < |lines| ==> !HostMatch(prefix, lines[i], at)
            case Some(action) =>
              exists i :: 0 <= i < |lines| && HostMatch(prefix, lines[i], at) && lines[i].shape.action == action &&
                          forall j :: 0 <= j < i ==> !HostMatch(prefix, lines[j], at)
  {
    hide Managed;
    if lines != [] && !HostMatch(prefix, lines[0], at) {
      var rest := lines[1..];
      HostRuleForFinds(prefix, rest, at);
      match HostRuleFor(prefix, rest, at)
      case None => assert forall i :: 1 <= i < |lines| ==> lines[i] == rest[i - 1];
      case Some(action) =>
        var i :| 0 <= i < |rest| && HostMatch(prefix, rest[i], at) && MatchesPlain(rest[i], at) && rest[i].shape.action == action &&
                 forall j :: 0 <= j < i ==> !HostMatch(prefix, rest[j], at);
        assert lines[i + 1] == rest[i];
        assert forall j :: 1 <= j < i + 1 ==> lines[j] == rest[j - 1];
    }
  }

  // ---- host rules are out of reach ----

  // The rules nft-okboy does not manage, in order.
  function HostLines(prefix: string, lines: seq<Line>): seq<Line> {
    if lines == [] then []
    else if Managed(prefix, lines[0]) then HostLines(prefix, lines[1..])
    else [lines[0]] + HostLines(prefix, lines[1..])
  }

  lemma {:induction false} HostLinesConcat(prefix: string, a: seq<Line>, b: seq<Line>)
    ensures HostLines(prefix, a + b) == HostLines(prefix, a) + HostLines(prefix, b)
  {
    if a == [] {
      assert a + b == b;
    } else {
      assert (a + b)[1..] == a[1..] + b;
      HostLinesConcat(prefix, a[1..], b);
    }
  }

  // Putting managed lines in place of managed lines does not show.
  lemma HostLinesSplice(prefix: string, a: seq<Line>, x: seq<Line>, y: seq<Line>, b: seq<Line>)
    requires forall l :: l in x || l in y ==> Managed(prefix, l)
    requires |x| <= 1 && |y| <= 1
    ensures HostLines(prefix, a + x + b) == HostLines(prefix, a + y + b)
  {
    hide Managed;
    HostLinesConcat(prefix, a + x, b);
    HostLinesConcat(prefix, a, x);
    HostLinesConcat(prefix, a + y, b);
    HostLinesConcat(prefix, a, y);
    assert forall i :: 0 <= i < |x| ==> x[i] in x;
    assert forall i :: 0 <= i < |y| ==> y[i] in y;
    assert HostLines(prefix, x) == [] && HostLines(prefix, y) == [];
  }

  lemma AllowLineManaged(prefix: string, g: Grant)
    ensures Managed(prefix, AllowLine(prefix, g))
  {
    SplitInvertsComment(prefix, g.user, g.group);
  }

  // An allow for a match no host rule has rewrites or adds managed lines only.
  lemma RunAllowKeepsHost(prefix: string, lines: seq<Line>, g: Grant)
    requires HostRuleFor(prefix, lines, g.At()) == None
    ensures HostLines(prefix, RunAllow(prefix, lines, g)) == HostLines(prefix, lines)
  {
    hide HostLines, Managed, HostRuleFor, V6Line;
    var l := AllowLine(prefix, g);
    AllowLineManaged(prefix, g);
    HostRuleForFinds(prefix, lines, g.At());
    var i := MergeIndex(lines, g.At());
    if i < |lines| {
      assert Managed(prefix, lines[i]);
      assert lines == lines[..i] + [lines[i]] + lines[i + 1..];
      assert lines[i := l] == lines[..i] + [l] + lines[i + 1..];
      HostLinesSplice(prefix, lines[..i], [lines[i]], [l], lines[i + 1..]);
    } else {
      var k := AppendIndex(lines, HasColon(g.ip));
      assert lines == lines[..k] + [] + lines[k..];
      HostLinesSplice(prefix, lines[..k], [], [l], lines[k..]);
    }
  }

  lemma RunDeleteKeepsHost(prefix: string, lines: seq<Line>, num: nat)
    requires 1 <= num <= |lines| && Managed(prefix, lines[num - 1])
    ensures RunDelete(lines, num).Some?
    ensures HostLines(prefix, RunDelete(lines, num).value) == HostLines(prefix, lines)
  {
    assert lines == lines[..num - 1] + [lines[num - 1]] + lines[num..];
    assert lines[..num - 1] + lines[num..] == lines[..num - 1] + [] + lines[num..];
    HostLinesSplice(prefix, lines[..num - 1], [lines[num - 1]], [], lines[num..]);
  }

  // No operation, whatever fails on the way, touches a host rule.
  lemma AddKeepsHost(t: Table, g: Grant)
    ensures SpecAdd(t, g).0.prefix == t.prefix && HostLines(t.prefix, SpecAdd(t, g).0.lines) == HostLines(t.prefix, t.lines)
  {
    if HostRuleFor(t.prefix, t.lines, g.At()) == None {
      RunAllowKeepsHost(t.prefix, t.lines, g);
    }
  }

  lemma DeleteKeepsHost(t: Table, h: Handle)
    ensures SpecDelete(t, h).0.prefix == t.prefix && HostLines(t.prefix, SpecDelete(t, h).0.lines) == HostLines(t.prefix, t.lines)
  {
    hide HostLines, RunDelete;
    FirstNumberFrom(t.prefix, t.lines, 0, h);
    match FirstNumber(Parse(t.prefix, t.lines), h)
    case None =>
    case Some(num) => RunDeleteKeepsHost(t.prefix, t.lines, num);
  }
}
