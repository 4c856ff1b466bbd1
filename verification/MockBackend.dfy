// The in-memory backend the program's tests run on (internal/firewall/mock.go),
// and how far it behaves like nftables.
module MockBackend {
  import opened Net
  import opened Seqs
  import opened Comments
  import opened NftChain
  import opened NftReconcile
  import F = Effects

  datatype Mock = Mock(prefix: string, rules: seq<Rule>, next: int, guarded: seq<PortProto>,
                       inactive: bool, hostRules: map<Endpoint, Action>)

  function NewRule(m: Mock, g: Grant): Rule {
    Rule(Number(m.next), g, CommentFor(m.prefix, g.user, g.group))
  }

  // AddRule appends, and checks nothing about the rule itself.
  function MockAdd(m: Mock, g: Grant): (Mock, Outcome) {
    if m.inactive then (m, Failed(Inactive))
    else if g.At() in m.hostRules then (m, HostRule(m.hostRules[g.At()]))
    else (m.(rules := m.rules + [NewRule(m, g)], next := m.next + 1), Done)
  }

  // The first rule p picks goes.
  function WithoutFirst(rules: seq<Rule>, p: Rule -> bool): seq<Rule> {
    if rules == [] then []
    else if p(rules[0]) then rules[1..]
    else [rules[0]] + WithoutFirst(rules[1..], p)
  }

  function Exactly(prefix: string, g: Grant): Rule -> bool {
    (r: Rule) => r.grant.At() == g.At() && r.comment == CommentFor(prefix, g.user, g.group)
  }

  function WithHandle(h: Handle): Rule -> bool {
    (r: Rule) => r.handle == h
  }

  // A miss is no error, in either way of deleting.
  function MockRemove(m: Mock, g: Grant): (Mock, bool) {
    if m.inactive then (m, false) else (m.(rules := WithoutFirst(m.rules, Exactly(m.prefix, g))), true)
  }

  function MockDelete(m: Mock, h: Handle): (Mock, bool) {
    if m.inactive then (m, false) else (m.(rules := WithoutFirst(m.rules, WithHandle(h))), true)
  }

  lemma CutOneLater(rules: seq<Rule>, i: nat)
    requires 0 < i < |rules|
    ensures rules[..i] + rules[i + 1..] == [rules[0]] + (rules[1..][..i - 1] + rules[1..][i..])
  {
  }

  lemma {:induction false} CutAt(rules: seq<Rule>, i: nat, p: Rule -> bool)
    requires i <= |rules| && (forall j :: 0 <= j < i ==> !p(rules[j])) && (i < |rules| ==> p(rules[i]))
    ensures WithoutFirst(rules, p) == if i < |rules| then rules[..i] + rules[i + 1..] else rules
  {
    if i > 0 {
      var rest := rules[1..];
      assert forall j :: 0 <= j < |rest| ==> rest[j] == rules[j + 1];
      CutAt(rest, i - 1, p);
      if i < |rules| {
        CutOneLater(rules, i);
      } else {
        assert rules == [rules[0]] + rest;
      }
    }
  }

  class MockBackend {
    var m: Mock

    constructor (prefix: string)
      ensures m == Mock(prefix, [], 1, [], false, map[])
    {
      m := Mock(prefix, [], 1, [], false, map[]);
    }

    method AddRule(g: Grant) returns (outcome: Outcome)
      modifies this
      ensures m == MockAdd(old(m), g).0 && outcome == MockAdd(old(m), g).1
    {
      if m.inactive {
        return Failed(Inactive);
      }
      if g.At() in m.hostRules {
        return HostRule(m.hostRules[g.At()]);
      }
      m := m.(rules := m.rules + [NewRule(m, g)], next := m.next + 1);
      outcome := Done;
    }

    // Both deletes: find the first, cut it out.
    method CutFirst(p: Rule -> bool) returns (ok: bool)
      modifies this
      ensures ok == !old(m).inactive
      ensures m == if ok then old(m).(rules := WithoutFirst(old(m).rules, p)) else old(m)
    {
      if m.inactive {
        return false;
      }
      for i := 0 to |m.rules|
        invariant m == old(m)
        invariant forall j :: 0 <= j < i ==> !p(m.rules[j])
      {
        if p(m.rules[i]) {
          CutAt(m.rules, i, p);
          m := m.(rules := m.rules[..i] + m.rules[i + 1..]);
          return true;
        }
      }
      CutAt(m.rules, |m.rules|, p);
      return true;
    }

    method RemoveRule(g: Grant) returns (ok: bool)
      modifies this
      ensures m == MockRemove(old(m), g).0 && ok == MockRemove(old(m), g).1
    {
      ok := CutFirst(Exactly(m.prefix, g));
    }

    method DeleteByHandle(h: Handle) returns (ok: bool)
      modifies this
      ensures m == MockDelete(old(m), h).0 && ok == MockDelete(old(m), h).1
    {
      ok := CutFirst(WithHandle(h));
    }

    method SyncGuard(ports: seq<PortProto>)
      modifies this
      ensures m == old(m).(guarded := ports)
    {
      m := m.(guarded := ports);
    }
  }

  // ---- the mock and nftables hold the same rules, copy for copy ----

  function Copies(rules: seq<Rule>): multiset<Grant> {
    if rules == [] then multiset{} else multiset{rules[0].grant} + Copies(rules[1..])
  }

  function ChainCopies(prefix: string, entries: seq<Entry>): multiset<Grant> {
    if entries == [] then multiset{} else multiset{GrantOf(prefix, entries[0])} + ChainCopies(prefix, entries[1..])
  }

  // A grant that can be told from its comment, and is found by its user's name.
  predicate Tellable(g: Grant) {
    ':' !in g.user && g.group != ""
  }

  predicate Written(m: Mock) {
    forall r :: r in m.rules ==> Tellable(r.grant) && r.comment == CommentFor(m.prefix, r.grant.user, r.grant.group)
  }

  ghost predicate Alike(m: Mock, c: Chain) {
    !m.inactive && m.hostRules == map[] && Written(m) && m.prefix == c.prefix &&
    Healthy(c) && Copies(m.rules) == ChainCopies(c.prefix, ManagedRules(c))
  }

  lemma {:induction false} CopiesConcat(a: seq<Rule>, b: seq<Rule>)
    ensures Copies(a + b) == Copies(a) + Copies(b)
  {
    if a == [] {
      assert a + b == b;
    } else {
      assert (a + b)[1..] == a[1..] + b;
      CopiesConcat(a[1..], b);
    }
  }

  lemma {:induction false} FirstCopyGoes(rules: seq<Rule>, p: Rule -> bool, g: Grant)
    requires forall r :: r in rules ==> (p(r) <==> r.grant == g)
    ensures Copies(WithoutFirst(rules, p)) == Copies(rules) - multiset{g}
    ensures g in Copies(rules) <==> exists r :: r in rules && p(r)
  {
    if rules != [] {
      assert rules[0] in rules;
      FirstCopyGoes(rules[1..], p, g);
      if p(rules[0]) {
        assert Copies(rules) == multiset{g} + Copies(rules[1..]);
      } else {
        var rest := WithoutFirst(rules[1..], p);
        assert ([rules[0]] + rest)[1..] == rest;
      }
    }
  }

  lemma CopiesMore(prefix: string, e: Entry, rest: seq<Entry>)
    ensures ChainCopies(prefix, [e] + rest) == multiset{GrantOf(prefix, e)} + ChainCopies(prefix, rest)
  {
    assert ([e] + rest)[1..] == rest;
  }

  lemma HeadGone(entries: seq<Entry>)
    requires entries != [] && UniqueHandles(entries)
    ensures Without(entries, {entries[0].handle}) == entries[1..]
  {
    var rest, p := entries[1..], HandleNotIn({entries[0].handle});
    forall x | x in rest
      ensures p(x)
    {
      var i :| 0 <= i < |rest| && rest[i] == x;
      assert entries[i + 1] == x;
    }
    KeepAll(rest, p);
  }

  lemma {:induction false} OneEntryLess(prefix: string, entries: seq<Entry>, e: Entry)
    requires UniqueHandles(entries) && e in entries
    ensures ChainCopies(prefix, Without(entries, {e.handle})) == ChainCopies(prefix, entries) - multiset{GrantOf(prefix, e)}
  {
    hide GrantOf;
    var rest := entries[1..];
    if entries[0] == e {
      HeadGone(entries);
    } else {
      SameHandleSameEntryOrNot(entries, e);
      OneEntryLess(prefix, rest, e);
      InsideCopies(prefix, rest, e);
      assert Without(entries, {e.handle}) == [entries[0]] + Without(rest, {e.handle});
      hide Without;
      CopiesMore(prefix, entries[0], Without(rest, {e.handle}));
    }
  }

  lemma SameHandleSameEntryOrNot(entries: seq<Entry>, e: Entry)
    requires UniqueHandles(entries) && e in entries && entries[0] != e
    ensures entries[0].handle != e.handle
  {
  }

  lemma {:induction false} InsideCopies(prefix: string, entries: seq<Entry>, e: Entry)
    requires e in entries
    ensures GrantOf(prefix, e) in ChainCopies(prefix, entries)
  {
    if entries[0] != e {
      InsideCopies(prefix, entries[1..], e);
    }
  }

  lemma {:induction false} CopiesStand(prefix: string, entries: seq<Entry>, g: Grant) returns (e: Entry)
    requires g in ChainCopies(prefix, entries)
    ensures e in entries && GrantOf(prefix, e) == g
  {
    if GrantOf(prefix, entries[0]) == g {
      e := entries[0];
    } else {
      e := CopiesStand(prefix, entries[1..], g);
    }
  }

  // What adding makes of the copies on each side.
  lemma AddedCopies(m: Mock, c: Chain, g: Grant)
    requires Alike(m, c) && CheckRule(g.ip, g.port, g.proto)
    ensures Copies(MockAdd(m, g).0.rules) == Copies(m.rules) + multiset{g}
    ensures ChainCopies(c.prefix, ManagedRules(SpecAdd(c, g).0))
            == multiset{GrantOf(c.prefix, AllowEntry(Tick(c), g))} + Copies(m.rules)
  {
    hide GrantOf;
    var e := AllowEntry(Tick(c), g);
    AddedGrant(Tick(c), g);
    CopiesConcat(m.rules, [NewRule(m, g)]);
    assert [NewRule(m, g)][1..] == [];
    assert ([e] + c.rules)[1..] == c.rules;
    CopiesMore(c.prefix, e, ManagedRules(c));
  }

  // Where adding differs: a rule that checkRule refuses is fine with the mock, and
  // a grant nftables lists in another form is a different grant there.
  lemma AddAgreesExactly(m: Mock, c: Chain, g: Grant)
    requires Alike(m, c)
    ensures MockAdd(m, g).1 == SpecAdd(c, g).1 <==> CheckRule(g.ip, g.port, g.proto)
    ensures CheckRule(g.ip, g.port, g.proto) ==>
              (Copies(MockAdd(m, g).0.rules) == ChainCopies(c.prefix, ManagedRules(SpecAdd(c, g).0)) <==> ListsBack(g))
  {
    hide GrantOf, ManagedRules, Copies, ChainCopies, ValidChain, CheckRule;
    var e := AllowEntry(Tick(c), g);
    AddedGrant(Tick(c), g);
    if CheckRule(g.ip, g.port, g.proto) {
      AddedCopies(m, c, g);
      OneMoreEach(Copies(m.rules), g, GrantOf(c.prefix, e));
    }
  }

  lemma OneMoreEach(s: multiset<Grant>, g: Grant, h: Grant)
    ensures s + multiset{g} == multiset{h} + s <==> g == h
  {
    if g != h {
      assert (s + multiset{g})[g] == s[g] + 1 && (multiset{h} + s)[g] == s[g];
    }
  }

  lemma {:induction false} CutIsPart(rules: seq<Rule>, p: Rule -> bool)
    ensures forall r :: r in WithoutFirst(rules, p) ==> r in rules
  {
    if rules != [] {
      CutIsPart(rules[1..], p);
    }
  }

  lemma WrittenStays(m: Mock, p: Rule -> bool)
    requires Written(m)
    ensures Written(m.(rules := WithoutFirst(m.rules, p)))
  {
    CutIsPart(m.rules, p);
  }

  // What a removal names on the mock's side: the grant that its comment reads as.
  lemma ExactlyAsRead(m: Mock, g: Grant, r: Rule)
    requires Written(m) && r in m.rules
    ensures Exactly(m.prefix, g)(r) <==> r.grant == F.AsRead(m.prefix, g)
  {
    SplitInvertsComment(m.prefix, g.user, g.group);
    SplitInvertsComment(m.prefix, r.grant.user, r.grant.group);
    CommentInvertsSplit(m.prefix, CommentFor(m.prefix, g.user, g.group));
  }

  lemma MockLosesOne(m: Mock, c: Chain, g: Grant)
    requires Alike(m, c)
    ensures Copies(MockRemove(m, g).0.rules) == Copies(m.rules) - multiset{F.AsRead(m.prefix, g)}
    ensures F.AsRead(m.prefix, g) in Copies(m.rules) <==> Names(m, g)
    ensures Written(MockRemove(m, g).0)
  {
    forall r | r in m.rules
      ensures Exactly(m.prefix, g)(r) <==> r.grant == F.AsRead(m.prefix, g)
    {
      ExactlyAsRead(m, g, r);
    }
    FirstCopyGoes(m.rules, Exactly(m.prefix, g), F.AsRead(m.prefix, g));
    WrittenStays(m, Exactly(m.prefix, g));
  }

  ghost predicate AllGrouped(c: Chain) {
    forall g :: g in ChainCopies(c.prefix, ManagedRules(c)) ==> g.group != ""
  }

  // nftables looks among "prefix:user:" comments only, so it finds nothing that has
  // no group, and otherwise what the mock finds.
  lemma ChainLosesOne(c: Chain, g: Grant)
    requires Healthy(c) && AllGrouped(c)
    ensures var c2 := SpecRemove(c, g).0;
            SpecRemove(c, g).1 && Healthy(c2) && c2.prefix == c.prefix &&
            ChainCopies(c.prefix, ManagedRules(c2))
            == ChainCopies(c.prefix, ManagedRules(c)) - if g.group == "" then multiset{} else multiset{F.AsRead(c.prefix, g)}
  {
    hide FirstMatch, ListAll, GrantOf, OfUser, ChainCopies;
    var mine, want := Keep(c.rules, OfUser(c.prefix, g.user)), CommentFor(c.prefix, g.user, g.group);
    match FirstMatch(ListAll(c.prefix, mine), g.At(), want)
    case None =>
      F.FirstMatchFound(c.prefix, mine, g.At(), want);
      if g.group != "" {
        NoCopyToLose(c, g);
      }
    case Some(h) =>
      var e := F.PickedEntry(c, g, h);
      GroupedOnly(c, g, h);
      F.DeleteOneEntry(Tick(c), e);
      LosesThisCopy(c, e);
  }

  lemma GroupedOnly(c: Chain, g: Grant, h: Handle)
    requires FirstMatch(ListAll(c.prefix, Keep(c.rules, OfUser(c.prefix, g.user))), g.At(), CommentFor(c.prefix, g.user, g.group)) == Some(h)
    ensures g.group != ""
  {
    var mine, want := Keep(c.rules, OfUser(c.prefix, g.user)), CommentFor(c.prefix, g.user, g.group);
    F.FirstMatchFound(c.prefix, mine, g.At(), want);
    var e :| e in mine && e.comment == want;
    assert HasPrefix(want, UserPrefix(c.prefix, g.user));
  }

  // A rule for the grant would have been found.
  lemma NoCopyToLose(c: Chain, g: Grant)
    requires AllGrouped(c) && g.group != ""
    requires forall e :: e in Keep(c.rules, OfUser(c.prefix, g.user)) ==>
               !(GrantOf(c.prefix, e).At() == g.At() && e.comment == CommentFor(c.prefix, g.user, g.group))
    ensures F.AsRead(c.prefix, g) !in ChainCopies(c.prefix, ManagedRules(c))
  {
    if F.AsRead(c.prefix, g) in ChainCopies(c.prefix, ManagedRules(c)) {
      var e := CopiesStand(c.prefix, ManagedRules(c), F.AsRead(c.prefix, g));
      WouldBeFound(c.prefix, g, e);
      assert false;
    }
  }

  lemma WouldBeFound(prefix: string, g: Grant, e: Entry)
    requires IsManaged(prefix)(e) && GrantOf(prefix, e) == F.AsRead(prefix, g) && GrantOf(prefix, e).group != "" && g.group != ""
    ensures OfUser(prefix, g.user)(e) && e.comment == CommentFor(prefix, g.user, g.group)
  {
    var want, lead := CommentFor(prefix, g.user, g.group), UserPrefix(prefix, g.user);
    GroupedComment(prefix, e);
    SplitInvertsComment(prefix, g.user, g.group);
    CommentInvertsSplit(prefix, want);
    assert want == lead + g.group;
    assert want[..|lead|] == lead;
  }

  // A managed comment with a group is the one written for what it is read as.
  lemma GroupedComment(prefix: string, e: Entry)
    requires IsManaged(prefix)(e) && GrantOf(prefix, e).group != ""
    ensures e.comment == CommentFor(prefix, GrantOf(prefix, e).user, GrantOf(prefix, e).group)
  {
    CommentInvertsSplit(prefix, e.comment);
  }

  lemma AlikeIsGrouped(m: Mock, c: Chain)
    requires Alike(m, c)
    ensures AllGrouped(c)
  {
    forall g | g in Copies(m.rules)
      ensures g.group != ""
    {
      CopyIsRule(m.rules, g);
    }
  }

  lemma ProperIsGrouped(c: Chain)
    requires F.AllProper(c)
    ensures AllGrouped(c)
  {
    forall g | g in ChainCopies(c.prefix, ManagedRules(c))
      ensures g.group != ""
    {
      var e := CopiesStand(c.prefix, ManagedRules(c), g);
      GrantInside(c.prefix, ManagedRules(c), e);
      assert F.Proper(g);
      ValidNameHasNoColon(g.group);
    }
  }

  lemma {:induction false} CopyIsRule(rules: seq<Rule>, g: Grant)
    requires g in Copies(rules)
    ensures exists r :: r in rules && r.grant == g
  {
    if rules[0].grant != g {
      CopyIsRule(rules[1..], g);
    }
    assert rules[0] in rules;
  }

  lemma LosesThisCopy(c: Chain, e: Entry)
    requires Healthy(c) && e in c.rules && IsManaged(c.prefix)(e)
    ensures ChainCopies(c.prefix, ManagedRules(SpecDelete(Tick(c), Number(e.handle)).0))
            == ChainCopies(c.prefix, ManagedRules(c)) - multiset{GrantOf(c.prefix, e)}
  {
    F.DeleteOneEntry(Tick(c), e);
    KeepCommutes(c.rules, HandleNotIn({e.handle}), IsManaged(c.prefix));
    KeepUnique(c.rules, IsManaged(c.prefix));
    OneEntryLess(c.prefix, ManagedRules(c), e);
  }

  // ---- any sequence of calls ----

  datatype Call = Adding(g: Grant) | Removing(g: Grant)

  // The mock holds a rule that the removal names.
  predicate Names(m: Mock, g: Grant) {
    exists r :: r in m.rules && Exactly(m.prefix, g)(r)
  }

  // Where the mock and nftables do the same: adding a grant with a group that
  // checkRule passes and nftables lists back as it was asked for, and removing by a
  // group, or nothing.
  predicate Agree(m: Mock, call: Call) {
    match call
    case Adding(g) => CheckRule(g.ip, g.port, g.proto) && ListsBack(g) && g.group != ""
    case Removing(g) => g.group != "" || !Names(m, g)
  }

  function MockCall(m: Mock, call: Call): Mock {
    match call case Adding(g) => MockAdd(m, g).0 case Removing(g) => MockRemove(m, g).0
  }

  function ChainCall(c: Chain, call: Call): Chain {
    match call case Adding(g) => SpecAdd(c, g).0 case Removing(g) => SpecRemove(c, g).0
  }

  function MockRun(m: Mock, calls: seq<Call>): Mock {
    if calls == [] then m else MockCall(MockRun(m, calls[..|calls| - 1]), calls[|calls| - 1])
  }

  function ChainRun(c: Chain, calls: seq<Call>): Chain {
    if calls == [] then c else ChainCall(ChainRun(c, calls[..|calls| - 1]), calls[|calls| - 1])
  }

  lemma AddingAlike(m: Mock, c: Chain, g: Grant)
    requires Alike(m, c)
    ensures Alike(MockAdd(m, g).0, SpecAdd(c, g).0) <==> Agree(m, Adding(g))
  {
    AddKeepsValid(c, g);
    AddAgreesExactly(m, c, g);
    WrittenMore(m, g);
    MockGainsOne(m, g);
    hide ManagedRules, Copies, ChainCopies, ValidChain, CheckRule, Written;
  }

  lemma MockGainsOne(m: Mock, g: Grant)
    requires !m.inactive && m.hostRules == map[]
    ensures Copies(MockAdd(m, g).0.rules) == Copies(m.rules) + multiset{g} != Copies(m.rules)
  {
    CopiesConcat(m.rules, [NewRule(m, g)]);
    assert [NewRule(m, g)][1..] == [];
    assert (Copies(m.rules) + multiset{g})[g] == Copies(m.rules)[g] + 1;
  }

  lemma WrittenMore(m: Mock, g: Grant)
    requires Written(m) && !m.inactive && m.hostRules == map[]
    ensures Written(MockAdd(m, g).0) <==> Tellable(g)
  {
    assert NewRule(m, g) in MockAdd(m, g).0.rules;
  }

  lemma RemovingAlike(m: Mock, c: Chain, g: Grant)
    requires Alike(m, c)
    ensures Alike(MockRemove(m, g).0, SpecRemove(c, g).0) <==> Agree(m, Removing(g))
  {
    MockLosesOne(m, c, g);
    AlikeIsGrouped(m, c);
    ChainLosesOne(c, g);
    OneLess(Copies(m.rules), F.AsRead(m.prefix, g));
  }

  lemma OneLess(s: multiset<Grant>, g: Grant)
    ensures s - multiset{g} == s <==> g !in s
  {
    if g in s {
      assert (s - multiset{g})[g] == s[g] - 1;
    }
  }

  lemma CallAlike(m: Mock, c: Chain, call: Call)
    requires Alike(m, c)
    ensures Alike(MockCall(m, call), ChainCall(c, call)) <==> Agree(m, call)
  {
    match call
    case Adding(g) => AddingAlike(m, c, g);
    case Removing(g) => RemovingAlike(m, c, g);
  }

  ghost predicate AlikeThroughout(m: Mock, c: Chain, calls: seq<Call>) {
    forall i :: 0 <= i <= |calls| ==> Alike(MockRun(m, calls[..i]), ChainRun(c, calls[..i]))
  }

  predicate AgreeThroughout(m: Mock, calls: seq<Call>) {
    forall i :: 0 <= i < |calls| ==> Agree(MockRun(m, calls[..i]), calls[i])
  }

  lemma OneCallMore(m: Mock, c: Chain, front: seq<Call>, call: Call)
    ensures AlikeThroughout(m, c, front + [call])
            <==> AlikeThroughout(m, c, front) && Alike(MockRun(m, front + [call]), ChainRun(c, front + [call]))
    ensures AgreeThroughout(m, front + [call]) <==> AgreeThroughout(m, front) && Agree(MockRun(m, front), call)
  {
    hide Alike, Agree, MockRun, ChainRun;
    var calls := front + [call];
    assert calls[..|calls|] == calls && calls[..|front|] == front;
    assert forall i :: 0 <= i <= |front| ==> front[..i] == calls[..i];
    assert calls[|front|] == call;
  }

  // Over any calls at all, nothing failing: what a test sees on the mock is at
  // every point what nftables would list, copy for copy, exactly if each call is
  // one on which the two agree.
  lemma {:induction false} CallsAlike(m: Mock, c: Chain, calls: seq<Call>)
    requires Alike(m, c)
    ensures AlikeThroughout(m, c, calls) <==> AgreeThroughout(m, calls)
    decreases |calls|
  {
    if calls == [] {
      assert calls[..0] == [];
    } else {
      var front, last := calls[..|calls| - 1], calls[|calls| - 1];
      assert calls == front + [last];
      CallsAlike(m, c, front);
      OneCallMore(m, c, front, last);
      LastAlike(m, c, front);
      if AlikeThroughout(m, c, front) {
        CallAlike(MockRun(m, front), ChainRun(c, front), last);
      }
    }
  }

  lemma LastAlike(m: Mock, c: Chain, calls: seq<Call>)
    ensures AlikeThroughout(m, c, calls) ==> Alike(MockRun(m, calls), ChainRun(c, calls))
  {
    assert calls[..|calls|] == calls;
  }

  // Deleting a listed rule by its handle, on each side its own copy of the grant.
  lemma DeleteAlike(m: Mock, c: Chain, r: Rule, e: Entry)
    requires Alike(m, c) && r in m.rules && e in ManagedRules(c) && r.grant == GrantOf(c.prefix, e)
    requires forall x, y | x in m.rules && y in m.rules :: x.handle == y.handle ==> x == y
    ensures var (m2, ok) := MockDelete(m, r.handle);
            var (c2, ok2) := SpecDelete(c, Number(e.handle));
            ok && ok2 && Copies(m2.rules) == ChainCopies(c.prefix, ManagedRules(c2))
  {
    F.DeleteOneEntry(c, e);
    KeepCommutes(c.rules, HandleNotIn({e.handle}), IsManaged(c.prefix));
    KeepUnique(c.rules, IsManaged(c.prefix));
    OneEntryLess(c.prefix, ManagedRules(c), e);
    CutOne(m.rules, r);
  }

  lemma {:induction false} CutOne(rules: seq<Rule>, r: Rule)
    requires r in rules
    requires forall x, y | x in rules && y in rules :: x.handle == y.handle ==> x == y
    ensures Copies(WithoutFirst(rules, WithHandle(r.handle))) == Copies(rules) - multiset{r.grant}
    ensures r.grant in Copies(rules)
  {
    assert rules[0] in rules;
    if rules[0] != r {
      var rest := rules[1..];
      CutOne(rest, r);
      var left := WithoutFirst(rest, WithHandle(r.handle));
      assert ([rules[0]] + left)[1..] == left;
    }
  }

  // Where they differ: a handle that is not there is an error to nftables only.
  lemma MissingHandleDiffers(m: Mock, c: Chain, h: Handle)
    requires Alike(m, c)
    ensures MockDelete(m, h).1 == SpecDelete(c, h).1 <==> HasHandle(c.rules, h)
  {
  }
}
