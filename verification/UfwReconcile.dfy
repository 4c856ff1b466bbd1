// What ReconcileAll achieves on ufw, which keeps one rule per match: match by
// match, since ufw's rules for different matches never touch each other.
module UfwReconcile {
  import opened Net
  import opened Seqs
  import opened Comments
  import opened UfwTable
  import opened Reconcile
  import NC = NftChain

  // The rules that matter at one match: those ufw would merge a new rule into,
  // and those nft-okboy manages.
  function InSlot(prefix: string, at: Endpoint): Line -> bool {
    (l: Line) => !l.shape.Odd? && LineAt(l) == at && (l.shape.Plain? || Managed(prefix, l))
  }

  function Slot(prefix: string, lines: seq<Line>, at: Endpoint): seq<Line> {
    Keep(lines, InSlot(prefix, at))
  }

  // Sources are listed the way ufw prints them.
  predicate Printed(lines: seq<Line>) {
    forall l :: l in lines && !l.shape.Odd? ==> l.shape.src == ListedForm(l.shape.src)
  }

  ghost predicate OnePerMatch(prefix: string, lines: seq<Line>) {
    forall at :: |Slot(prefix, lines, at)| <= 1
  }

  // A rule of the host's own decides the match.
  predicate HostDecides(prefix: string, slot: seq<Line>) {
    exists i :: 0 <= i < |slot| && !Managed(prefix, slot[i])
  }

  predicate Askable(d: Grant) {
    NC.ListsBack(d) && CheckRule(d.ip, d.port, d.proto)
  }

  predicate AllAskable(desired: seq<Grant>) {
    forall d :: d in desired ==> Askable(d)
  }

  // The first desired grant for a match.
  function First(desired: seq<Grant>, at: Endpoint): (r: Option<Grant>)
    ensures r.Some? ==> r.value in desired && r.value.At() == at
    ensures r.None? ==> forall d :: d in desired ==> d.At() != at
  {
    if desired == [] then None else if desired[0].At() == at then Some(desired[0]) else First(desired[1..], at)
  }

  function Kept(x: Line, p: Line -> bool): seq<Line> {
    if p(x) then [x] else []
  }

  lemma KeepOne(x: Line, p: Line -> bool)
    ensures Keep([x], p) == Kept(x, p)
  {
    assert [x][1..] == [];
  }

  lemma KeepMiddle(a: seq<Line>, x: Line, b: seq<Line>, p: Line -> bool)
    ensures Keep(a + [x] + b, p) == Keep(a, p) + Kept(x, p) + Keep(b, p)
  {
    KeepConcat(a + [x], b, p);
    KeepConcat(a, [x], p);
    KeepOne(x, p);
  }

  // ---- ufw's own matching, for addresses as printed ----

  lemma MatchIsSlot(l: Line, at: Endpoint)
    requires !l.shape.Odd? ==> l.shape.src == ListedForm(l.shape.src)
    requires at.ip == ListedForm(at.ip) && ParseIP(at.ip).Some?
    ensures MatchesPlain(l, at) <==> l.shape.Plain? && LineAt(l) == at
  {
  }

  lemma HostRuleInSlot(prefix: string, lines: seq<Line>, at: Endpoint)
    requires Printed(lines) && at.ip == ListedForm(at.ip) && ParseIP(at.ip).Some?
    ensures HostRuleFor(prefix, lines, at).Some? <==> HostDecides(prefix, Slot(prefix, lines, at))
  {
    var slot := Slot(prefix, lines, at);
    HostRuleForFinds(prefix, lines, at);
    if i :| 0 <= i < |lines| && !Managed(prefix, lines[i]) && MatchesPlain(lines[i], at) {
      MatchIsSlot(lines[i], at);
      assert lines[i] in slot;
    }
    if j :| 0 <= j < |slot| && !Managed(prefix, slot[j]) {
      assert slot[j] in slot;
      var i :| 0 <= i < |lines| && lines[i] == slot[j];
      MatchIsSlot(lines[i], at);
    }
  }

  // ---- one addition ----

  // What an accepted allow rule does to a slot of at most one line.
  predicate Allowed(slot: seq<Line>, l: Line, after: seq<Line>) {
    if slot == [] || slot[0].shape.Plain? then after == [l]
    else after == [l] + slot || after == slot + [l]
  }

  // Where ufw merges, the merged line's slot is rewritten in place.
  lemma MergeSlot(a: seq<Line>, x: Line, l: Line, b: seq<Line>, prefix: string, at: Endpoint)
    requires x.shape.Plain? && l.shape.Plain? && LineAt(x) == LineAt(l)
    requires at == LineAt(l) ==> |Slot(prefix, a + [x] + b, at)| <= 1
    ensures var slot, after := Slot(prefix, a + [x] + b, at), Slot(prefix, a + [l] + b, at);
            if at == LineAt(l) then slot == [x] && after == [l] else after == slot
  {
    var p := InSlot(prefix, at);
    KeepMiddle(a, x, b, p);
    KeepMiddle(a, l, b, p);
  }

  lemma Join(ka: seq<Line>, l: Line, kb: seq<Line>)
    requires |ka + kb| <= 1 && forall m :: m in ka + kb ==> !m.shape.Plain?
    ensures Allowed(ka + kb, l, ka + [l] + kb)
  {
    var slot := ka + kb;
    if slot == [] {
      assert ka + [l] + kb == [l];
    } else {
      assert slot[0] in slot;
      if ka == [] {
        assert ka + [l] + kb == [l] + slot;
      } else {
        assert ka + [l] + kb == slot + [l];
      }
    }
  }

  // Where it does not, the new line joins a slot without plain rules.
  lemma AppendSlot(a: seq<Line>, l: Line, b: seq<Line>, prefix: string, at: Endpoint)
    requires l.shape.Plain?
    requires at == LineAt(l) ==> |Slot(prefix, a + b, at)| <= 1
    requires at == LineAt(l) ==> forall m :: m in Slot(prefix, a + b, at) ==> !m.shape.Plain?
    ensures var slot, after := Slot(prefix, a + b, at), Slot(prefix, a + [l] + b, at);
            if at == LineAt(l) then Allowed(slot, l, after) else after == slot
  {
    var p := InSlot(prefix, at);
    var ka, kb := Keep(a, p), Keep(b, p);
    KeepMiddle(a, l, b, p);
    KeepConcat(a, b, p);
    if at == LineAt(l) {
      Join(ka, l, kb);
    } else {
      assert ka + [] + kb == ka + kb;
    }
  }

  lemma AllowSlot(prefix: string, lines: seq<Line>, g: Grant, at: Endpoint)
    requires Printed(lines) && Askable(g)
    requires at == g.At() ==> |Slot(prefix, lines, at)| <= 1
    ensures Printed(RunAllow(prefix, lines, g))
    ensures var slot, after := Slot(prefix, lines, at), Slot(prefix, RunAllow(prefix, lines, g), at);
            if at == g.At() then Allowed(slot, AllowLine(prefix, g), after) else after == slot
  {
    var i, l := MergeIndex(lines, g.At()), AllowLine(prefix, g);
    assert LineAt(l) == g.At();
    if i < |lines| {
      var x := lines[i];
      MatchIsSlot(x, g.At());
      assert lines == lines[..i] + [x] + lines[i + 1..];
      assert lines[i := l] == lines[..i] + [l] + lines[i + 1..];
      MergeSlot(lines[..i], x, l, lines[i + 1..], prefix, at);
    } else {
      var k := AppendIndex(lines, HasColon(g.ip));
      assert lines == lines[..k] + lines[k..];
      if at == g.At() {
        forall m | m in Slot(prefix, lines, at)
          ensures !m.shape.Plain?
        {
          var j :| 0 <= j < |lines| && lines[j] == m;
          MatchIsSlot(m, at);
        }
      }
      AppendSlot(lines[..k], l, lines[k..], prefix, at);
    }
  }

  predicate Ready(h: Host) {
    h.Ufw? && Healthy(h.table) && Printed(h.table.lines)
  }

  // Every match of a kept or added grant is covered.
  predicate Covering(have: set<Grant>, covered: set<Endpoint>) {
    forall g :: g in have ==> g.At() in covered
  }

  function SlotOf(h: Host, at: Endpoint): seq<Line>
    requires h.Ufw?
  {
    Slot(h.table.prefix, h.table.lines, at)
  }

  // The first desired grant for an uncovered match without a host rule gets the
  // slot; nothing else changes it.
  predicate AfterAdding(prefix: string, slot: seq<Line>, covered: bool, first: Option<Grant>, after: seq<Line>) {
    if covered || first.None? || HostDecides(prefix, slot) then after == slot
    else Allowed(slot, AllowLine(prefix, first.value), after)
  }

  predicate SameRun(a: Adding, b: Adding) {
    Ready(a.host) && Ready(b.host) && a.host.table.prefix == b.host.table.prefix && a.failedAdds == b.failedAdds
  }

  lemma AddOneAt(a: Adding, d: Grant, at: Endpoint)
    requires Ready(a.host) && Covering(a.have, a.covered) && Askable(d)
    requires at in a.covered || |SlotOf(a.host, at)| <= 1
    ensures var b := AddOne(a, d);
            SameRun(a, b) && Covering(b.have, b.covered) &&
            (at in b.covered <==> at in a.covered || d.At() == at) &&
            AfterAdding(a.host.table.prefix, SlotOf(a.host, at), at in a.covered, First([d], at), SlotOf(b.host, at))
  {
    hide Slot;
    var t := a.host.table;
    assert [d][1..] == [];
    HostRuleInSlot(t.prefix, t.lines, d.At());
    if !Skips(a, d) && HostRuleFor(t.prefix, t.lines, d.At()).None? {
      AllowSlot(t.prefix, t.lines, d, at);
    }
  }

  lemma {:induction false} AddAllAt(a: Adding, desired: seq<Grant>, at: Endpoint)
    requires Ready(a.host) && Covering(a.have, a.covered) && AllAskable(desired)
    requires at in a.covered || |SlotOf(a.host, at)| <= 1
    ensures var r := AddAll(a, desired);
            SameRun(a, r) &&
            AfterAdding(a.host.table.prefix, SlotOf(a.host, at), at in a.covered, First(desired, at), SlotOf(r.host, at))
    decreases |desired|
  {
    if desired != [] {
      assert desired[0] in desired;
      AddOneAt(a, desired[0], at);
      assert [desired[0]][1..] == [];
      AddAllAt(AddOne(a, desired[0]), desired[1..], at);
    }
  }

  // ---- one deletion ----

  function HandleAt(h: Handle): Endpoint
    requires h.Digest?
  {
    Endpoint(h.ip, h.port, h.proto)
  }

  function NotHandle(prefix: string, h: Handle): Line -> bool {
    (l: Line) => !(Managed(prefix, l) && HandleOf(l) == h)
  }

  // A handle names at most one managed line of the slot.
  predicate NamesOne(prefix: string, slot: seq<Line>, h: Handle) {
    forall i, j :: 0 <= i < j < |slot| ==> NotHandle(prefix, h)(slot[i]) || NotHandle(prefix, h)(slot[j])
  }

  lemma OthersStay(prefix: string, a: seq<Line>, x: Line, b: seq<Line>, h: Handle)
    requires NamesOne(prefix, a + [x] + b, h) && !NotHandle(prefix, h)(x)
    ensures forall m :: m in a || m in b ==> NotHandle(prefix, h)(m)
  {
    var slot := a + [x] + b;
    assert slot[|a|] == x;
    forall m | m in a || m in b
      ensures NotHandle(prefix, h)(m)
    {
      if m in a {
        var i :| 0 <= i < |a| && a[i] == m;
        assert slot[i] == m;
      } else {
        var i :| 0 <= i < |b| && b[i] == m;
        assert slot[|a| + 1 + i] == m;
      }
    }
  }

  lemma DropTheOne(a: seq<Line>, x: Line, b: seq<Line>, p: Line -> bool)
    requires !p(x) && forall m :: m in a || m in b ==> p(m)
    ensures Keep(a + [x] + b, p) == a + b
  {
    KeepMiddle(a, x, b, p);
    KeepAll(a, p);
    KeepAll(b, p);
    assert a + Kept(x, p) == a;
  }

  lemma CutSlot(prefix: string, a: seq<Line>, x: Line, b: seq<Line>, at: Endpoint)
    requires Managed(prefix, x)
    requires LineAt(x) == at ==> NamesOne(prefix, Slot(prefix, a + [x] + b, at), HandleOf(x))
    ensures var slot, after := Slot(prefix, a + [x] + b, at), Slot(prefix, a + b, at);
            after == if LineAt(x) == at then Keep(slot, NotHandle(prefix, HandleOf(x))) else slot
  {
    var p := InSlot(prefix, at);
    KeepMiddle(a, x, b, p);
    KeepConcat(a, b, p);
    if LineAt(x) != at {
      assert Keep(a, p) + Kept(x, p) == Keep(a, p);
    } else {
      OthersStay(prefix, Keep(a, p), x, Keep(b, p), HandleOf(x));
      DropTheOne(Keep(a, p), x, Keep(b, p), NotHandle(prefix, HandleOf(x)));
    }
  }

  lemma NothingToDrop(prefix: string, lines: seq<Line>, at: Endpoint, h: Handle)
    requires forall j :: 0 <= j < |lines| && Managed(prefix, lines[j]) ==> HandleOf(lines[j]) != h
    ensures Keep(Slot(prefix, lines, at), NotHandle(prefix, h)) == Slot(prefix, lines, at)
  {
    var slot := Slot(prefix, lines, at);
    forall l | l in slot
      ensures NotHandle(prefix, h)(l)
    {
      var j :| 0 <= j < |lines| && lines[j] == l;
    }
    KeepAll(slot, NotHandle(prefix, h));
  }

  // What a delete does to a table in good order.
  lemma ReadyDelete(t: Table, h: Handle)
    requires Ready(Ufw(t))
    ensures var (t2, ok) := SpecDelete(t, h);
            ok && Healthy(t2) && t2.prefix == t.prefix &&
            match FirstNumber(Parse(t.prefix, t.lines), h)
            case None => t2.lines == t.lines
            case Some(num) => 1 <= num <= |t.lines| && t2.lines == t.lines[..num - 1] + t.lines[num..]
  {
    FirstNumberFrom(t.prefix, t.lines, 0, h);
    hide Parse, FirstNumber, Printed;
  }

  lemma DeleteSlot(t: Table, h: Handle, at: Endpoint)
    requires Ready(Ufw(t)) && h.Digest?
    requires HandleAt(h) == at ==> NamesOne(t.prefix, Slot(t.prefix, t.lines, at), h)
    ensures var (t2, ok) := SpecDelete(t, h);
            ok && Ready(Ufw(t2)) && t2.prefix == t.prefix &&
            var slot, after := Slot(t.prefix, t.lines, at), Slot(t.prefix, t2.lines, at);
            after == if HandleAt(h) == at then Keep(slot, NotHandle(t.prefix, h)) else slot
  {
    FirstNumberFrom(t.prefix, t.lines, 0, h);
    ReadyDelete(t, h);
    hide SpecDelete, Parse, FirstNumber, Slot, NamesOne, Healthy;
    match FirstNumber(Parse(t.prefix, t.lines), h)
    case None => NothingToDrop(t.prefix, t.lines, at, h);
    case Some(num) =>
      var a, x, b := t.lines[..num - 1], t.lines[num - 1], t.lines[num..];
      assert t.lines == a + [x] + b;
      assert HandleAt(HandleOf(x)) == LineAt(x);
      CutSlot(t.prefix, a, x, b, at);
  }

  function HandleIsAt(at: Endpoint): Handle -> bool {
    (h: Handle) => h.Digest? && HandleAt(h) == at
  }

  function Dropped(prefix: string, slot: seq<Line>, here: seq<Handle>): seq<Line> {
    if here == [] then slot else Keep(slot, NotHandle(prefix, here[0]))
  }

  lemma {:induction false} DeleteAllAt(d: Deleting, extra: seq<Handle>, at: Endpoint)
    requires Ready(d.host) && forall h :: h in extra ==> h.Digest?
    requires |Keep(extra, HandleIsAt(at))| <= 1
    requires forall h :: h in Keep(extra, HandleIsAt(at)) ==> NamesOne(d.host.table.prefix, SlotOf(d.host, at), h)
    ensures var r := DeleteAll(d, extra);
            Ready(r.host) && r.host.table.prefix == d.host.table.prefix && r.failedDeletes == d.failedDeletes &&
            SlotOf(r.host, at) == Dropped(d.host.table.prefix, SlotOf(d.host, at), Keep(extra, HandleIsAt(at)))
    decreases |extra|
  {
    if extra != [] {
      var h, rest := extra[0], extra[1..];
      assert h in extra;
      assert HandleAt(h) == at ==> h in Keep(extra, HandleIsAt(at)) && Keep(rest, HandleIsAt(at)) == [];
      DeleteSlot(d.host.table, h, at);
      DeleteAllAt(DeleteOne(d, h), rest, at);
    }
  }

  // ---- the sorting, at one match ----

  function RuleIsAt(at: Endpoint): Rule -> bool {
    (m: Rule) => m.grant.At() == at
  }

  function ListedSlot(prefix: string, slot: seq<Line>): seq<Rule> {
    if slot == [] then []
    else if Managed(prefix, slot[0]) then [ListedLine(prefix, slot[0])] + ListedSlot(prefix, slot[1..])
    else ListedSlot(prefix, slot[1..])
  }

  lemma {:induction false} ListingAt(prefix: string, lines: seq<Line>, i: nat, at: Endpoint)
    requires i <= |lines|
    ensures Keep(RulesOf(ParseFrom(prefix, lines, i)), RuleIsAt(at)) == ListedSlot(prefix, Slot(prefix, lines[i..], at))
    decreases |lines| - i
  {
    if i < |lines| {
      ListingAt(prefix, lines, i + 1, at);
      var l, here := lines[i], Slot(prefix, lines[i + 1..], at);
      assert lines[i..][1..] == lines[i + 1..];
      assert InSlot(prefix, at)(l) ==> ([l] + here)[1..] == here;
      if Managed(prefix, l) {
        assert RulesOf(ParseFrom(prefix, lines, i))[1..] == RulesOf(ParseFrom(prefix, lines, i + 1));
      }
    }
  }

  predicate Identified(managed: seq<Rule>) {
    forall m :: m in managed ==> m.handle.Digest? && HandleAt(m.handle) == m.grant.At()
  }

  lemma ListingIdentified(prefix: string, lines: seq<Line>)
    ensures Identified(RulesOf(Parse(prefix, lines)))
  {
    var listing := RulesOf(Parse(prefix, lines));
    forall m | m in listing
      ensures m.handle.Digest? && HandleAt(m.handle) == m.grant.At()
    {
      var k :| 0 <= k < |listing| && listing[k] == m;
      ParseFromSound(prefix, lines, 0, k);
    }
  }

  predicate SortedAt(s: Sorting, here: seq<Rule>, want: set<Grant>, at: Endpoint) {
    Covering(s.have, s.covered) && (forall h :: h in s.extra ==> h.Digest?) &&
    (at in s.covered <==> here != [] && here[0].grant in want) &&
    Keep(s.extra, HandleIsAt(at)) == if here != [] && here[0].grant !in want then [here[0].handle] else []
  }

  lemma SortOneAt(s0: Sorting, here: seq<Rule>, want: set<Grant>, at: Endpoint, last: Rule)
    requires SortedAt(s0, here, want, at) && last.handle.Digest? && HandleAt(last.handle) == last.grant.At()
    requires last.grant.At() == at ==> here == []
    ensures SortedAt(SortOne(s0, want, last), if last.grant.At() == at then [last] else here, want, at)
  {
    KeepConcat(s0.extra, [last.handle], HandleIsAt(at));
    assert [last.handle][1..] == [];
  }

  lemma {:induction false} SortAt(managed: seq<Rule>, want: set<Grant>, at: Endpoint)
    requires Identified(managed) && |Keep(managed, RuleIsAt(at))| <= 1
    ensures SortedAt(Sort(managed, want), Keep(managed, RuleIsAt(at)), want, at)
    decreases |managed|
  {
    if managed != [] {
      var n := |managed| - 1;
      var front, last := managed[..n], managed[n];
      assert managed == front + [last] && last in managed;
      assert [last][1..] == [];
      KeepConcat(front, [last], RuleIsAt(at));
      SortAt(front, want, at);
      SortOneAt(Sort(front, want), Keep(front, RuleIsAt(at)), want, at, last);
    }
  }

  // ---- the whole pass, at one match ----

  // What the pass is to leave at a match: the host's rule if it decides, else the
  // managed rule there if it is wanted as it is, else the first grant desired.
  function Final(prefix: string, slot: seq<Line>, desired: seq<Grant>, at: Endpoint): seq<Line>
    requires forall l :: l in slot ==> !l.shape.Odd?
  {
    if HostDecides(prefix, slot) then slot
    else if slot != [] && ListedLine(prefix, slot[0]).grant in Wanted(desired) then slot
    else match First(desired, at) case None => [] case Some(d) => [AllowLine(prefix, d)]
  }

  lemma Start(t: Table, desired: seq<Grant>, at: Endpoint) returns (s: Sorting)
    requires Ready(Ufw(t)) && |Slot(t.prefix, t.lines, at)| <= 1
    ensures List(Ufw(t)) == (Ufw(Tick(Tick(t))), Some(RulesOf(Parse(t.prefix, t.lines))))
    ensures s == Sort(RulesOf(Parse(t.prefix, t.lines)), Wanted(desired))
    ensures Covering(s.have, s.covered) && forall h :: h in s.extra ==> h.Digest?
    ensures var slot := Slot(t.prefix, t.lines, at);
            var ours := slot != [] && Managed(t.prefix, slot[0]);
            (at in s.covered <==> ours && ListedLine(t.prefix, slot[0]).grant in Wanted(desired)) &&
            Keep(s.extra, HandleIsAt(at))
            == if ours && ListedLine(t.prefix, slot[0]).grant !in Wanted(desired) then [HandleOf(slot[0])] else []
  {
    var listing, slot := RulesOf(Parse(t.prefix, t.lines)), Slot(t.prefix, t.lines, at);
    s := Sort(listing, Wanted(desired));
    ListingIdentified(t.prefix, t.lines);
    ListingAt(t.prefix, t.lines, 0, at);
    assert t.lines[0..] == t.lines;
    if slot != [] {
      assert slot[1..] == [];
      assert slot[0] in slot;
    }
    SortAt(listing, Wanted(desired), at);
  }

  // A line that lists another grant carries another handle.
  lemma OtherHandle(prefix: string, x: Line, g: Grant)
    requires Managed(prefix, x) && Askable(g) && ListedLine(prefix, x).grant != g
    ensures NotHandle(prefix, HandleOf(x))(AllowLine(prefix, g))
  {
    SplitInvertsComment(prefix, g.user, g.group);
  }

  // The slot after the additions: what deleting any of the extras leaves of it.
  lemma DropFromAdded(prefix: string, slot: seq<Line>, desired: seq<Grant>, at: Endpoint, after: seq<Line>, h: Handle)
    requires |slot| == 1 && Managed(prefix, slot[0]) && ListedLine(prefix, slot[0]).grant !in Wanted(desired)
    requires h == HandleOf(slot[0]) && AllAskable(desired)
    requires AfterAdding(prefix, slot, false, First(desired, at), after)
    ensures NamesOne(prefix, after, h)
    ensures Keep(after, NotHandle(prefix, h))
            == match First(desired, at) case None => [] case Some(d) => [AllowLine(prefix, d)]
  {
    hide Wanted, Askable, ListedLine, HandleOf;
    assert slot == [slot[0]];
    match First(desired, at)
    case None => assert slot[1..] == [];
    case Some(d) =>
      assert d in Wanted(desired) && Askable(d);
      OtherHandle(prefix, slot[0], d);
      DropTheOld(prefix, slot[0], AllowLine(prefix, d), after, h);
  }

  lemma DropTheOld(prefix: string, x: Line, l: Line, after: seq<Line>, h: Handle)
    requires !NotHandle(prefix, h)(x) && NotHandle(prefix, h)(l)
    requires after == [l] || after == [l] + [x] || after == [x] + [l]
    ensures NamesOne(prefix, after, h) && Keep(after, NotHandle(prefix, h)) == [l]
  {
    hide Managed, HandleOf;
    assert [l][1..] == [] && [l, x][1..] == [x] && [x, l][1..] == [l] && [x][1..] == [];
  }

  lemma PassAt(t: Table, desired: seq<Grant>, at: Endpoint, r: Report)
    requires Ready(Ufw(t)) && AllAskable(desired) && |Slot(t.prefix, t.lines, at)| <= 1
    requires r == SpecReconcileAll(Ufw(t), desired)
    ensures !r.failed && Ready(r.host) && r.host.table.prefix == t.prefix
    ensures SlotOf(r.host, at) == Final(t.prefix, Slot(t.prefix, t.lines, at), desired, at)
  {
    hide List, AddAll, DeleteAll, Sort, Slot, Printed, First, ListedLine, HandleOf, Wanted;
    var slot := Slot(t.prefix, t.lines, at);
    var s := Start(t, desired, at);
    var start := StartAdding(Ufw(Tick(Tick(t))), s);
    AddAllAt(start, desired, at);
    var a := AddAll(start, desired);
    if Keep(s.extra, HandleIsAt(at)) != [] {
      DropFromAdded(t.prefix, slot, desired, at, SlotOf(a.host, at), HandleOf(slot[0]));
    }
    DeleteAllAt(Deleting(a.host, 0, {}), s.extra, at);
  }

  // ---- the theorems ----

  // Without failures every match ends as Final says: where no host rule decides,
  // exactly one managed rule for each desired match and none for any other, owned
  // by one of the match's desired (user, group) pairs.
  lemma UfwReconcileExact(t: Table, desired: seq<Grant>, r: Report)
    requires Ready(Ufw(t)) && AllAskable(desired) && OnePerMatch(t.prefix, t.lines)
    requires r == SpecReconcileAll(Ufw(t), desired)
    ensures !r.failed && Ready(r.host) && r.host.table.prefix == t.prefix
    ensures OnePerMatch(t.prefix, r.host.table.lines)
    ensures HostLines(t.prefix, r.host.table.lines) == HostLines(t.prefix, t.lines)
    ensures forall at :: SlotOf(r.host, at) == Final(t.prefix, Slot(t.prefix, t.lines, at), desired, at)
  {
    ReconcileKeepsHostRules(t, desired);
    assert |Slot(t.prefix, t.lines, Endpoint(NotAnIP(""), 0, Tcp))| <= 1;
    PassAt(t, desired, Endpoint(NotAnIP(""), 0, Tcp), r);
    forall at
      ensures SlotOf(r.host, at) == Final(t.prefix, Slot(t.prefix, t.lines, at), desired, at)
    {
      assert |Slot(t.prefix, t.lines, at)| <= 1;
      PassAt(t, desired, at, r);
    }
    forall at
      ensures |Slot(t.prefix, r.host.table.lines, at)| <= 1
    {
      assert |Slot(t.prefix, t.lines, at)| <= 1;
      assert SlotOf(r.host, at) == Final(t.prefix, Slot(t.prefix, t.lines, at), desired, at);
    }
  }

  // Whatever fails, and whatever the table holds: the host's own rules stay.
  lemma ReconcileKeepsHostRules(t: Table, desired: seq<Grant>)
    ensures var r := SpecReconcileAll(Ufw(t), desired);
            r.host.Ufw? && HostLines(t.prefix, r.host.table.lines) == HostLines(t.prefix, t.lines)
  {
    var (h1, listing) := List(Ufw(t));
    if listing.Some? {
      var s := Sort(listing.value, Wanted(desired));
      AddAllKeepsHost(StartAdding(h1, s), desired);
      DeleteAllKeepsHost(Deleting(AddAll(StartAdding(h1, s), desired).host, 0, {}), s.extra);
    }
  }

  lemma {:induction false} AddAllKeepsHost(a: Adding, desired: seq<Grant>)
    requires a.host.Ufw?
    ensures var h, p := AddAll(a, desired).host, a.host.table.prefix;
            h.Ufw? && h.table.prefix == p && HostLines(p, h.table.lines) == HostLines(p, a.host.table.lines)
    decreases |desired|
  {
    hide HostLines, SpecAdd;
    if desired != [] {
      AddKeepsHost(a.host.table, desired[0]);
      AddAllKeepsHost(AddOne(a, desired[0]), desired[1..]);
    }
  }

  lemma {:induction false} DeleteAllKeepsHost(d: Deleting, extra: seq<Handle>)
    requires d.host.Ufw?
    ensures var h, p := DeleteAll(d, extra).host, d.host.table.prefix;
            h.Ufw? && h.table.prefix == p && HostLines(p, h.table.lines) == HostLines(p, d.host.table.lines)
    decreases |extra|
  {
    hide HostLines, SpecDelete;
    if extra != [] {
      DeleteKeepsHost(d.host.table, extra[0]);
      DeleteAllKeepsHost(DeleteOne(d, extra[0]), extra[1..]);
    }
  }

  // A second pass over what the first one left changes nothing.
  lemma UfwReconcileIdempotent(t: Table, desired: seq<Grant>, first: Report, second: Report)
    requires Ready(Ufw(t)) && AllAskable(desired) && OnePerMatch(t.prefix, t.lines)
    requires first == SpecReconcileAll(Ufw(t), desired) && second == SpecReconcileAll(first.host, desired)
    ensures second.added == 0 && second.removed == 0 && !second.failed
    ensures first.host.Ufw? && second.host.Ufw? && second.host.table.lines == first.host.table.lines
  {
    UfwReconcileExact(t, desired, first);
    var t1 := first.host.table;
    var s := Sort(RulesOf(Parse(t.prefix, t1.lines)), Wanted(desired));
    forall h | h in s.extra
      ensures false
    {
      NoExtraAt(t, desired, first, h);
    }
    NonEmptyHasMember(s.extra);
    forall d | d in desired
      ensures d.At() in s.covered || HostDecides(t.prefix, SlotOf(first.host, d.At()))
    {
      SettledAt(t, desired, first, d.At());
    }
    AddAllRests(StartAdding(List(first.host).0, s), desired);
  }

  // Every match is settled: nothing extra there, and each desired one covered.
  lemma SettledAt(t: Table, desired: seq<Grant>, first: Report, at: Endpoint)
    requires Ready(Ufw(t)) && OnePerMatch(t.prefix, t.lines) && Ready(first.host)
    requires first.host.table.prefix == t.prefix && AllAskable(desired)
    requires SlotOf(first.host, at) == Final(t.prefix, Slot(t.prefix, t.lines, at), desired, at)
    ensures var s := Sort(RulesOf(Parse(t.prefix, first.host.table.lines)), Wanted(desired));
            Covering(s.have, s.covered) && (forall h :: h in s.extra ==> h.Digest?) &&
            Keep(s.extra, HandleIsAt(at)) == [] &&
            (First(desired, at).Some? ==> at in s.covered || HostDecides(t.prefix, SlotOf(first.host, at)))
  {
    hide List, AddAll, DeleteAll;
    var slot := Slot(t.prefix, t.lines, at);
    assert |slot| <= 1;
    var s := Start(first.host.table, desired, at);
    if slot != [] {
      assert slot[0] in slot;
    }
    match First(desired, at)
    case None =>
    case Some(d) =>
      assert Askable(d);
      AllowLineManaged(t.prefix, d);
      SplitInvertsComment(t.prefix, d.user, d.group);
  }

  lemma KeptIfThere(extra: seq<Handle>, h: Handle, p: Handle -> bool)
    requires Keep(extra, p) == [] && p(h)
    ensures h !in extra
  {
    assert h in extra ==> h in Keep(extra, p);
  }

  lemma NoExtraAt(t: Table, desired: seq<Grant>, first: Report, h: Handle)
    requires Ready(Ufw(t)) && OnePerMatch(t.prefix, t.lines) && Ready(first.host)
    requires first.host.table.prefix == t.prefix && AllAskable(desired)
    requires forall at :: SlotOf(first.host, at) == Final(t.prefix, Slot(t.prefix, t.lines, at), desired, at)
    ensures h !in Sort(RulesOf(Parse(t.prefix, first.host.table.lines)), Wanted(desired)).extra
  {
    SettledAt(t, desired, first, if h.Digest? then HandleAt(h) else Endpoint(NotAnIP(""), 0, Tcp));
    var extra := Sort(RulesOf(Parse(t.prefix, first.host.table.lines)), Wanted(desired)).extra;
    if h.Digest? {
      KeptIfThere(extra, h, HandleIsAt(HandleAt(h)));
    }
  }

  lemma {:induction false} AddAllRests(a: Adding, desired: seq<Grant>)
    requires Ready(a.host) && AllAskable(desired)
    requires forall d :: d in desired ==> d.At() in a.covered || HostDecides(a.host.table.prefix, SlotOf(a.host, d.At()))
    ensures var r := AddAll(a, desired);
            Ready(r.host) && r.host.table.lines == a.host.table.lines && r.added == a.added && r.failedAdds == a.failedAdds
    decreases |desired|
  {
    if desired != [] {
      var d, t := desired[0], a.host.table;
      assert d in desired && Askable(d);
      HostRuleInSlot(t.prefix, t.lines, d.At());
      AddAllRests(AddOne(a, d), desired[1..]);
    }
  }

  // ---- no gap ----

  // Some managed rule admits the match.
  predicate Admits(prefix: string, slot: seq<Line>) {
    exists i :: 0 <= i < |slot| && Managed(prefix, slot[i])
  }

  lemma AllowedAdmits(prefix: string, slot: seq<Line>, d: Grant, after: seq<Line>)
    requires Allowed(slot, AllowLine(prefix, d), after)
    ensures Admits(prefix, after)
  {
    AllowLineManaged(prefix, d);
    assert after[0] == AllowLine(prefix, d) || after[|slot|] == AllowLine(prefix, d);
  }

  // At every state on the way, a desired match that was admitted at the start and
  // that no host rule decides is still admitted.
  lemma UfwNoGapWhileAdding(t: Table, desired: seq<Grant>, at: Endpoint, i: nat)
    requires Ready(Ufw(t)) && AllAskable(desired) && OnePerMatch(t.prefix, t.lines) && i <= |desired|
    requires Admits(t.prefix, Slot(t.prefix, t.lines, at))
    ensures List(Ufw(t)).1.Some? && WhileAdding(Ufw(t), desired, i).Ufw?
    ensures Admits(t.prefix, SlotOf(WhileAdding(Ufw(t), desired, i), at))
  {
    var slot := Slot(t.prefix, t.lines, at);
    assert |slot| <= 1;
    var s := Start(t, desired, at);
    var part := desired[..i];
    assert forall d :: d in part ==> d in desired;
    AddAllAt(StartAdding(Ufw(Tick(Tick(t))), s), part, at);
    match First(part, at)
    case None =>
    case Some(d) =>
      if at !in s.covered && !HostDecides(t.prefix, slot) {
        AllowedAdmits(t.prefix, slot, d, SlotOf(WhileAdding(Ufw(t), desired, i), at));
      }
  }

  lemma UfwNoGapWhileDeleting(t: Table, desired: seq<Grant>, d: Grant, j: nat)
    requires Ready(Ufw(t)) && AllAskable(desired) && OnePerMatch(t.prefix, t.lines) && d in desired
    requires !HostDecides(t.prefix, Slot(t.prefix, t.lines, d.At()))
    requires List(Ufw(t)).1.Some? && j <= |Extra(Ufw(t), desired)|
    ensures WhileDeleting(Ufw(t), desired, j).Ufw?
    ensures Admits(t.prefix, SlotOf(WhileDeleting(Ufw(t), desired, j), d.At()))
  {
    var at := d.At();
    assert |Slot(t.prefix, t.lines, at)| <= 1;
    var s := Start(t, desired, at);
    assert desired[..|desired|] == desired;
    var start := StartAdding(Ufw(Tick(Tick(t))), s);
    AddAllAt(start, desired, at);
    var part := s.extra[..j];
    PartOfExtra(s.extra, j, at);
    StaysAdmitted(t.prefix, Slot(t.prefix, t.lines, at), desired, d, SlotOf(AddAll(start, desired).host, at),
                  at in s.covered, Keep(s.extra, HandleIsAt(at)), Keep(part, HandleIsAt(at)));
    DeleteAllAt(Deleting(AddAll(start, desired).host, 0, {}), part, at);
  }

  lemma PartOfExtra(extra: seq<Handle>, j: nat, at: Endpoint)
    requires j <= |extra| && |Keep(extra, HandleIsAt(at))| <= 1
    ensures var kept := Keep(extra[..j], HandleIsAt(at));
            kept == [] || kept == Keep(extra, HandleIsAt(at))
    ensures forall h :: h in extra[..j] ==> h in extra
  {
    var p := HandleIsAt(at);
    assert extra == extra[..j] + extra[j..];
    KeepConcat(extra[..j], extra[j..], p);
    var ka, kb := Keep(extra[..j], p), Keep(extra[j..], p);
    assert ka == [] || ka == ka + kb;
  }

  lemma StaysAdmitted(prefix: string, slot: seq<Line>, desired: seq<Grant>, d: Grant, after: seq<Line>,
                      covered: bool, extra: seq<Handle>, part: seq<Handle>)
    requires AllAskable(desired) && d in desired && |slot| <= 1 && !HostDecides(prefix, slot)
    requires forall l :: l in slot ==> !l.shape.Odd?
    requires AfterAdding(prefix, slot, covered, First(desired, d.At()), after)
    requires covered <==> slot != [] && ListedLine(prefix, slot[0]).grant in Wanted(desired)
    requires extra == if slot != [] && !covered then [HandleOf(slot[0])] else []
    requires part == [] || part == extra
    ensures forall h :: h in part ==> NamesOne(prefix, after, h)
    ensures Admits(prefix, Dropped(prefix, after, part))
  {
    var first := First(desired, d.At()).value;
    AllowLineManaged(prefix, first);
    if !covered {
      AllowedAdmits(prefix, slot, first, after);
      if slot != [] {
        DropFromAdded(prefix, slot, desired, d.At(), after, HandleOf(slot[0]));
      }
    }
  }
}
