// The counters ReconcileAll reports on ufw: a rule handed over counts as one added
// (the re-comment) and one removed (the delete that misses), so the balance holds.
module UfwBalance {
  import opened Net
  import opened Seqs
  import opened Comments
  import opened UfwTable
  import opened Reconcile
  import opened UfwReconcile

  predicate AllDigests(extra: seq<Handle>) {
    forall h :: h in extra ==> h.Digest?
  }

  // A managed rule of the slot carries the handle.
  predicate NamedIn(prefix: string, slot: seq<Line>, h: Handle) {
    exists i :: 0 <= i < |slot| && !NotHandle(prefix, h)(slot[i])
  }

  predicate Stands(prefix: string, lines: seq<Line>, h: Handle)
    requires h.Digest?
  {
    NamedIn(prefix, Slot(prefix, lines, HandleAt(h)), h)
  }

  // How many of the handles still name a rule.
  function Standing(prefix: string, lines: seq<Line>, extra: seq<Handle>): nat
    requires AllDigests(extra)
  {
    if extra == [] then 0
    else (if Stands(prefix, lines, extra[0]) then 1 else 0) + Standing(prefix, lines, extra[1..])
  }

  function Elsewhere(at: Endpoint): Handle -> bool {
    (h: Handle) => !(h.Digest? && HandleAt(h) == at)
  }

  lemma {:induction false} StandingSplit(prefix: string, lines: seq<Line>, extra: seq<Handle>, at: Endpoint)
    requires AllDigests(extra)
    ensures Standing(prefix, lines, extra)
            == Standing(prefix, lines, Keep(extra, HandleIsAt(at))) + Standing(prefix, lines, Keep(extra, Elsewhere(at)))
  {
    if extra != [] {
      assert extra[0] in extra;
      StandingSplit(prefix, lines, extra[1..], at);
      var here, there := Keep(extra[1..], HandleIsAt(at)), Keep(extra[1..], Elsewhere(at));
      assert ([extra[0]] + here)[1..] == here && ([extra[0]] + there)[1..] == there;
    }
  }

  // ---- additions ----

  // What an uncovered match owes: its unwanted managed rule, if it has one, to the
  // deleting loop.
  predicate SlotOwes(prefix: string, slot: seq<Line>, want: set<Grant>, here: seq<Handle>) {
    |slot| <= 1 &&
    if slot != [] && Managed(prefix, slot[0]) then
      ListedLine(prefix, slot[0]).grant !in want && here == [HandleOf(slot[0])]
    else here == []
  }

  ghost predicate Owes(a: Adding, want: set<Grant>, extra: seq<Handle>)
    requires a.host.Ufw?
  {
    forall at :: at !in a.covered ==> SlotOwes(a.host.table.prefix, SlotOf(a.host, at), want, Keep(extra, HandleIsAt(at)))
  }

  lemma {:induction false} StandingAfterAllowElsewhere(prefix: string, lines: seq<Line>, g: Grant, extra: seq<Handle>)
    requires Printed(lines) && Askable(g) && AllDigests(extra)
    requires forall h :: h in extra ==> HandleAt(h) != g.At()
    ensures Standing(prefix, RunAllow(prefix, lines, g), extra) == Standing(prefix, lines, extra)
  {
    if extra != [] {
      assert extra[0] in extra;
      AllowSlot(prefix, lines, g, HandleAt(extra[0]));
      StandingAfterAllowElsewhere(prefix, lines, g, extra[1..]);
    }
  }

  // ufw merges exactly where a plain rule has the match.
  lemma MergesWithPlain(prefix: string, lines: seq<Line>, g: Grant)
    requires Printed(lines) && Askable(g) && |Slot(prefix, lines, g.At())| <= 1
    ensures var slot := Slot(prefix, lines, g.At());
            |RunAllow(prefix, lines, g)| == |lines| + if slot != [] && slot[0].shape.Plain? then 0 else 1
  {
    var slot := Slot(prefix, lines, g.At());
    var i := MergeIndex(lines, g.At());
    if i < |lines| {
      MatchIsSlot(lines[i], g.At());
      assert lines[i] in slot;
    } else if slot != [] {
      assert slot[0] in slot;
      var j :| 0 <= j < |lines| && lines[j] == slot[0];
      MatchIsSlot(lines[j], g.At());
    }
  }

  // At the match itself: a merge takes the old handle away, an append does not.
  lemma StandingAfterAllowHere(prefix: string, slot: seq<Line>, g: Grant, want: set<Grant>, here: seq<Handle>, after: seq<Line>)
    requires SlotOwes(prefix, slot, want, here) && g in want && Askable(g) && !HostDecides(prefix, slot)
    requires Allowed(slot, AllowLine(prefix, g), after)
    ensures here != [] ==> NamedIn(prefix, slot, here[0]) && (NamedIn(prefix, after, here[0]) <==> !slot[0].shape.Plain?)
    ensures here == [] ==> slot == []
  {
    var l := AllowLine(prefix, g);
    SplitInvertsComment(prefix, g.user, g.group);
    if slot != [] {
      var x := slot[0];
      assert Managed(prefix, x);
      OtherHandle(prefix, x, g);
      assert !NotHandle(prefix, HandleOf(x))(slot[0]);
      if !x.shape.Plain? {
        assert after[0] == x || after[1] == x;
      }
    }
  }

  lemma StandingOfOne(prefix: string, lines: seq<Line>, here: seq<Handle>)
    requires AllDigests(here) && |here| <= 1
    ensures Standing(prefix, lines, here) == if here != [] && Stands(prefix, lines, here[0]) then 1 else 0
  {
    if here != [] {
      assert here[1..] == [];
    }
  }

  lemma AllowBalance(prefix: string, lines: seq<Line>, g: Grant, want: set<Grant>, extra: seq<Handle>)
    requires Printed(lines) && Askable(g) && AllDigests(extra) && g in want
    requires SlotOwes(prefix, Slot(prefix, lines, g.At()), want, Keep(extra, HandleIsAt(g.At())))
    requires !HostDecides(prefix, Slot(prefix, lines, g.At()))
    ensures var after := RunAllow(prefix, lines, g);
            |after| - Standing(prefix, after, extra) == |lines| - Standing(prefix, lines, extra) + 1
  {
    var at := g.At();
    var after, slot := RunAllow(prefix, lines, g), Slot(prefix, lines, at);
    var here, there := Keep(extra, HandleIsAt(at)), Keep(extra, Elsewhere(at));
    StandingSplit(prefix, lines, extra, at);
    StandingSplit(prefix, after, extra, at);
    StandingAfterAllowElsewhere(prefix, lines, g, there);
    StandingOfOne(prefix, lines, here);
    StandingOfOne(prefix, after, here);
    AllowSlot(prefix, lines, g, at);
    MergesWithPlain(prefix, lines, g);
    StandingAfterAllowHere(prefix, slot, g, want, here, Slot(prefix, after, at));
    if here != [] {
      assert here[0] in here;
    }
  }

  function Balance(h: Host, extra: seq<Handle>): int
    requires h.Ufw? && AllDigests(extra)
  {
    |h.table.lines| - Standing(h.table.prefix, h.table.lines, extra)
  }

  lemma AddOneOwes(a: Adding, d: Grant, want: set<Grant>, extra: seq<Handle>)
    requires Ready(a.host) && Covering(a.have, a.covered) && Askable(d) && Owes(a, want, extra)
    ensures var b := AddOne(a, d);
            SameRun(a, b) && Covering(b.have, b.covered) && Owes(b, want, extra)
  {
    hide AddOne, Covering, Askable, Slot;
    var t, b := a.host.table, AddOne(a, d);
    AddOneAt(a, d, d.At());
    forall at | at !in b.covered
      ensures SlotOwes(t.prefix, SlotOf(b.host, at), want, Keep(extra, HandleIsAt(at)))
    {
      AddOneAt(a, d, at);
    }
  }

  lemma AddOneBalance(a: Adding, d: Grant, want: set<Grant>, extra: seq<Handle>)
    requires Ready(a.host) && Covering(a.have, a.covered) && Askable(d) && d in want && AllDigests(extra) && Owes(a, want, extra)
    ensures var b := AddOne(a, d);
            Ready(b.host) && Balance(b.host, extra) - b.added == Balance(a.host, extra) - a.added
  {
    hide Slot, Standing, SlotOwes, HostDecides;
    var t := a.host.table;
    HostRuleInSlot(t.prefix, t.lines, d.At());
    if d.At() !in a.covered && !HostDecides(t.prefix, SlotOf(a.host, d.At())) {
      AllowBalance(t.prefix, t.lines, d, want, extra);
    }
  }

  lemma {:induction false} AddAllBalance(a: Adding, desired: seq<Grant>, want: set<Grant>, extra: seq<Handle>)
    requires Ready(a.host) && Covering(a.have, a.covered) && AllAskable(desired) && AllDigests(extra) && Owes(a, want, extra)
    requires Wanted(desired) <= want
    ensures var r := AddAll(a, desired);
            Ready(r.host) && Balance(r.host, extra) - r.added == Balance(a.host, extra) - a.added
    decreases |desired|
  {
    if desired != [] {
      assert desired[0] in desired;
      AddOneOwes(a, desired[0], want, extra);
      AddOneBalance(a, desired[0], want, extra);
      AddAllBalance(AddOne(a, desired[0]), desired[1..], want, extra);
    }
  }

  // ---- deletions ----

  predicate OnePerHandle(extra: seq<Handle>)
    requires AllDigests(extra)
  {
    forall i, j :: 0 <= i < j < |extra| ==> HandleAt(extra[i]) != HandleAt(extra[j])
  }

  lemma DeleteLength(t: Table, h: Handle)
    requires Ready(Ufw(t)) && h.Digest?
    ensures |SpecDelete(t, h).0.lines| == |t.lines| - if Stands(t.prefix, t.lines, h) then 1 else 0
  {
    var slot := Slot(t.prefix, t.lines, HandleAt(h));
    FirstNumberFrom(t.prefix, t.lines, 0, h);
    match FirstNumber(Parse(t.prefix, t.lines), h)
    case None =>
      forall i | 0 <= i < |slot|
        ensures NotHandle(t.prefix, h)(slot[i])
      {
        assert slot[i] in slot;
        var j :| 0 <= j < |t.lines| && t.lines[j] == slot[i];
      }
    case Some(num) =>
      assert t.lines[num - 1] in slot;
  }

  lemma {:induction false} StandingAfterDelete(t: Table, h: Handle, extra: seq<Handle>)
    requires Ready(Ufw(t)) && h.Digest? && AllDigests(extra) && forall x :: x in extra ==> HandleAt(x) != HandleAt(h)
    ensures Standing(t.prefix, SpecDelete(t, h).0.lines, extra) == Standing(t.prefix, t.lines, extra)
  {
    if extra != [] {
      assert extra[0] in extra;
      DeleteSlot(t, h, HandleAt(extra[0]));
      StandingAfterDelete(t, h, extra[1..]);
    }
  }

  lemma {:induction false} DeleteAllBalance(d: Deleting, extra: seq<Handle>)
    requires Ready(d.host) && AllDigests(extra) && OnePerHandle(extra)
    ensures var r := DeleteAll(d, extra);
            Ready(r.host) && |r.host.table.lines| == Balance(d.host, extra) && r.removed == d.removed + |extra|
    decreases |extra|
  {
    if extra != [] {
      var h, rest := extra[0], extra[1..];
      assert h in extra;
      assert forall i :: 0 <= i < |rest| ==> rest[i] == extra[i + 1];
      SomeSlotDeleted(d.host.table, h);
      DeleteLength(d.host.table, h);
      StandingAfterDelete(d.host.table, h, rest);
      DeleteAllBalance(DeleteOne(d, h), rest);
    }
  }

  lemma SomeSlotDeleted(t: Table, h: Handle)
    requires Ready(Ufw(t)) && h.Digest?
    ensures var (t2, ok) := SpecDelete(t, h);
            ok && Ready(Ufw(t2)) && t2.prefix == t.prefix
  {
    var other := Endpoint(h.ip, h.port + 1, h.proto);
    DeleteSlot(t, h, other);
  }

  // ---- the pass ----

  lemma NoneKept(b: seq<Handle>, at: Endpoint)
    requires Keep(b, HandleIsAt(at)) == [] && b != [] && b[0].Digest?
    ensures HandleAt(b[0]) != at
  {
  }

  lemma {:induction false} DistinctMatches(extra: seq<Handle>)
    requires AllDigests(extra) && forall at :: |Keep(extra, HandleIsAt(at))| <= 1
    ensures OnePerHandle(extra)
  {
    forall i, j | 0 <= i < j < |extra|
      ensures HandleAt(extra[i]) != HandleAt(extra[j])
    {
      var at := HandleAt(extra[i]);
      var a, b := extra[..j], extra[j..];
      assert extra == a + b;
      KeepConcat(a, b, HandleIsAt(at));
      assert a[i] in Keep(a, HandleIsAt(at));
      NoneKept(b, at);
    }
  }

  lemma {:induction false} AllStand(prefix: string, lines: seq<Line>, extra: seq<Handle>)
    requires AllDigests(extra) && forall h :: h in extra ==> Stands(prefix, lines, h)
    ensures Standing(prefix, lines, extra) == |extra|
  {
    if extra != [] {
      assert extra[0] in extra;
      AllStand(prefix, lines, extra[1..]);
    }
  }

  lemma StartOwes(t: Table, desired: seq<Grant>) returns (s: Sorting)
    requires Ready(Ufw(t)) && OnePerMatch(t.prefix, t.lines)
    ensures List(Ufw(t)) == (Ufw(Tick(Tick(t))), Some(RulesOf(Parse(t.prefix, t.lines))))
    ensures s == Sort(RulesOf(Parse(t.prefix, t.lines)), Wanted(desired))
    ensures Covering(s.have, s.covered) && AllDigests(s.extra) && OnePerHandle(s.extra)
    ensures Owes(StartAdding(Ufw(Tick(Tick(t))), s), Wanted(desired), s.extra)
    ensures Standing(t.prefix, t.lines, s.extra) == |s.extra|
  {
    s := Sort(RulesOf(Parse(t.prefix, t.lines)), Wanted(desired));
    assert |Slot(t.prefix, t.lines, Endpoint(NotAnIP(""), 0, Tcp))| <= 1;
    var first := Start(t, desired, Endpoint(NotAnIP(""), 0, Tcp));
    forall at
      ensures |Keep(s.extra, HandleIsAt(at))| <= 1
      ensures at !in s.covered ==> SlotOwes(t.prefix, Slot(t.prefix, t.lines, at), Wanted(desired), Keep(s.extra, HandleIsAt(at)))
    {
      assert |Slot(t.prefix, t.lines, at)| <= 1;
      var again := Start(t, desired, at);
    }
    DistinctMatches(s.extra);
    forall h | h in s.extra
      ensures Stands(t.prefix, t.lines, h)
    {
      var at := HandleAt(h);
      assert |Slot(t.prefix, t.lines, at)| <= 1;
      var again := Start(t, desired, at);
      assert h in Keep(s.extra, HandleIsAt(at));
      var slot := Slot(t.prefix, t.lines, at);
      assert !NotHandle(t.prefix, h)(slot[0]);
    }
    AllStand(t.prefix, t.lines, s.extra);
  }

  // Without failures the rule list grows by exactly what is reported added minus
  // what is reported removed.
  lemma UfwCountsBalance(t: Table, desired: seq<Grant>, r: Report)
    requires Ready(Ufw(t)) && AllAskable(desired) && OnePerMatch(t.prefix, t.lines)
    requires r == SpecReconcileAll(Ufw(t), desired)
    ensures r.host.Ufw? && |r.host.table.lines| == |t.lines| + r.added - r.removed
  {
    var s := StartOwes(t, desired);
    var start := StartAdding(Ufw(Tick(Tick(t))), s);
    AddAllBalance(start, desired, Wanted(desired), s.extra);
    DeleteAllBalance(Deleting(AddAll(start, desired).host, 0, {}), s.extra);
  }
}
