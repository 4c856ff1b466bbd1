// What failures leave of ufw's list, and what one pass makes of it: operations that
// fail at any point, in any order, then one ReconcileAll that does not fail.
module UfwRepair {
  import opened Net
  import opened Seqs
  import opened Comments
  import opened UfwTable
  import opened Reconcile
  import opened UfwReconcile

  // What the backend itself leaves: one rule per match, the managed ones plain.
  ghost predicate Tidy(t: Table) {
    Printed(t.lines) && OnePerMatch(t.prefix, t.lines) && AllPlain(t.prefix, t.lines)
  }

  predicate AllPlain(prefix: string, lines: seq<Line>) {
    forall l :: l in lines && Managed(prefix, l) ==> l.shape.Plain?
  }

  // ---- every operation keeps it, whatever fails ----

  lemma AllowStaysTidy(t: Table, g: Grant)
    requires Tidy(t) && Askable(g)
    ensures Tidy(t.(lines := RunAllow(t.prefix, t.lines, g)))
  {
    var lines := RunAllow(t.prefix, t.lines, g);
    forall at
      ensures |Slot(t.prefix, lines, at)| <= 1
    {
      var slot := Slot(t.prefix, t.lines, at);
      assert |slot| <= 1;
      AllowSlot(t.prefix, t.lines, g, at);
      PlainSlot(t.prefix, t.lines, at);
    }
    AllowPrinted(t.prefix, t.lines, g);
    AllowPlain(t.prefix, t.lines, g);
  }

  lemma PlainSlot(prefix: string, lines: seq<Line>, at: Endpoint)
    requires AllPlain(prefix, lines)
    ensures forall l :: l in Slot(prefix, lines, at) ==> l.shape.Plain?
  {
  }

  lemma AllowPrinted(prefix: string, lines: seq<Line>, g: Grant)
    requires Printed(lines) && Askable(g)
    ensures Printed(RunAllow(prefix, lines, g))
  {
    AllowSlot(prefix, lines, g, Endpoint(g.ip, g.port + 1, g.proto));
  }

  lemma AllowPlain(prefix: string, lines: seq<Line>, g: Grant)
    requires AllPlain(prefix, lines)
    ensures AllPlain(prefix, RunAllow(prefix, lines, g))
  {
    hide Managed;
  }

  lemma CutStaysTidy(t: Table, num: nat)
    requires Tidy(t) && 1 <= num <= |t.lines|
    ensures Tidy(t.(lines := t.lines[..num - 1] + t.lines[num..]))
  {
    var a, x, b := t.lines[..num - 1], t.lines[num - 1], t.lines[num..];
    assert t.lines == a + [x] + b;
    forall at
      ensures |Slot(t.prefix, a + b, at)| <= 1
    {
      assert |Slot(t.prefix, t.lines, at)| <= 1;
      KeepMiddle(a, x, b, InSlot(t.prefix, at));
      KeepConcat(a, b, InSlot(t.prefix, at));
    }
  }

  lemma AddStaysTidy(t: Table, g: Grant)
    requires Tidy(t) && Askable(g)
    ensures Tidy(SpecAdd(t, g).0) && SpecAdd(t, g).0.prefix == t.prefix
  {
    AllowStaysTidy(t, g);
    hide RunAllow, HostRuleFor, Printed, OnePerMatch, AllPlain;
  }

  lemma DeleteStaysTidy(t: Table, h: Handle)
    requires Tidy(t)
    ensures Tidy(SpecDelete(t, h).0) && SpecDelete(t, h).0.prefix == t.prefix
  {
    hide Parse, Printed, OnePerMatch, AllPlain;
    match FirstNumber(Parse(t.prefix, t.lines), h)
    case None =>
    case Some(num) =>
      if 1 <= num <= |t.lines| {
        CutStaysTidy(t, num);
      }
  }

  ghost predicate TidyHost(h: Host, prefix: string) {
    h.Ufw? && Tidy(h.table) && h.table.prefix == prefix
  }

  lemma {:induction false} AddAllStaysTidy(a: Adding, desired: seq<Grant>, prefix: string)
    requires TidyHost(a.host, prefix) && AllAskable(desired)
    ensures TidyHost(AddAll(a, desired).host, prefix)
    decreases |desired|
  {
    hide Tidy, Askable, UfwTable.SpecAdd;
    if desired != [] {
      assert desired[0] in desired;
      AddStaysTidy(a.host.table, desired[0]);
      AddAllStaysTidy(AddOne(a, desired[0]), desired[1..], prefix);
    }
  }

  lemma {:induction false} DeleteAllStaysTidy(d: Deleting, extra: seq<Handle>, prefix: string)
    requires TidyHost(d.host, prefix)
    ensures TidyHost(DeleteAll(d, extra).host, prefix)
    decreases |extra|
  {
    hide Tidy, UfwTable.SpecDelete;
    if extra != [] {
      DeleteStaysTidy(d.host.table, extra[0]);
      DeleteAllStaysTidy(DeleteOne(d, extra[0]), extra[1..], prefix);
    }
  }

  lemma PassStaysTidy(t: Table, desired: seq<Grant>)
    requires Tidy(t) && AllAskable(desired)
    ensures TidyHost(SpecReconcileAll(Ufw(t), desired).host, t.prefix)
  {
    var (h1, listing) := List(Ufw(t));
    assert TidyHost(h1, t.prefix);
    hide Tidy, AddAll, DeleteAll, List;
    if listing.Some? {
      var s := Sort(listing.value, Wanted(desired));
      var a := AddAll(StartAdding(h1, s), desired);
      AddAllStaysTidy(StartAdding(h1, s), desired, t.prefix);
      DeleteAllStaysTidy(Deleting(a.host, 0, {}), s.extra, t.prefix);
    }
  }

  // ---- any operations, in any order ----

  datatype Op = OpAdd(g: Grant) | OpDelete(h: Handle) | OpReconcile(desired: seq<Grant>)

  predicate Asked(op: Op) {
    match op
    case OpAdd(g) => Askable(g)
    case OpDelete(_) => true
    case OpReconcile(desired) => AllAskable(desired)
  }

  function Done(t: Table, op: Op): Host {
    match op
    case OpAdd(g) => Add(Ufw(t), g).0
    case OpDelete(h) => Delete(Ufw(t), h).0
    case OpReconcile(desired) => SpecReconcileAll(Ufw(t), desired).host
  }

  lemma OpStaysTidy(t: Table, op: Op)
    requires Tidy(t) && Asked(op)
    ensures TidyHost(Done(t, op), t.prefix) && HostLines(t.prefix, Done(t, op).table.lines) == HostLines(t.prefix, t.lines)
  {
    hide Tidy, HostLines, UfwTable.SpecAdd, UfwTable.SpecDelete, SpecReconcileAll;
    match op
    case OpAdd(g) =>
      AddStaysTidy(t, g);
      AddKeepsHost(t, g);
    case OpDelete(h) =>
      DeleteStaysTidy(t, h);
      DeleteKeepsHost(t, h);
    case OpReconcile(desired) =>
      PassStaysTidy(t, desired);
      ReconcileKeepsHostRules(t, desired);
  }

  // A run of operations; the fate of each of their commands is in the table.
  ghost predicate Runs(t: Table, ops: seq<Op>, end: Table)
    decreases |ops|
  {
    if ops == [] then end == t else Done(t, ops[0]).Ufw? && Runs(Done(t, ops[0]).table, ops[1..], end)
  }

  lemma {:induction false} RunStaysTidy(t: Table, ops: seq<Op>, end: Table)
    requires Tidy(t) && (forall op :: op in ops ==> Asked(op)) && Runs(t, ops, end)
    ensures Tidy(end) && end.prefix == t.prefix && HostLines(t.prefix, end.lines) == HostLines(t.prefix, t.lines)
    decreases |ops|
  {
    hide Tidy, HostLines, Done, Asked;
    if ops != [] {
      assert ops[0] in ops;
      OpStaysTidy(t, ops[0]);
      RunStaysTidy(Done(t, ops[0]).table, ops[1..], end);
    }
  }

  // ---- one pass without failures ----

  // What one match is to hold: the host's own rule if it had one, else one managed
  // rule of a desired grant, or nothing where none is desired.
  predicate Settled(prefix: string, start: seq<Line>, after: seq<Line>, desired: seq<Grant>, at: Endpoint) {
    if HostDecides(prefix, start) then after == start
    else if First(desired, at).None? then after == []
    else |after| == 1 && Managed(prefix, after[0]) && ListedLine(prefix, after[0]).grant in Wanted(desired) && LineAt(after[0]) == at
  }

  lemma {:induction false} HostLinesAreHost(prefix: string, lines: seq<Line>, l: Line)
    ensures l in HostLines(prefix, lines) <==> l in lines && !Managed(prefix, l)
  {
    if lines != [] {
      HostLinesAreHost(prefix, lines[1..], l);
    }
  }

  lemma HostSlotStays(prefix: string, lines: seq<Line>, lines2: seq<Line>, at: Endpoint)
    requires HostLines(prefix, lines) == HostLines(prefix, lines2)
    requires |Slot(prefix, lines, at)| <= 1 && |Slot(prefix, lines2, at)| <= 1
    requires HostDecides(prefix, Slot(prefix, lines, at))
    ensures Slot(prefix, lines2, at) == Slot(prefix, lines, at)
  {
    var x := Slot(prefix, lines, at)[0];
    assert x in Slot(prefix, lines, at);
    HostLinesAreHost(prefix, lines, x);
    HostLinesAreHost(prefix, lines2, x);
    assert x in Slot(prefix, lines2, at);
  }

  lemma NotWanted(prefix: string, l: Line, desired: seq<Grant>, at: Endpoint)
    requires First(desired, at).None? && !l.shape.Odd? && LineAt(l) == at
    ensures ListedLine(prefix, l).grant !in Wanted(desired)
  {
    var g := ListedLine(prefix, l).grant;
    assert g.At() == at;
  }

  lemma FinalSettles(prefix: string, start: seq<Line>, slot: seq<Line>, desired: seq<Grant>, at: Endpoint)
    requires |slot| <= 1 && (slot != [] ==> InSlot(prefix, at)(slot[0]))
    requires HostDecides(prefix, start) <==> HostDecides(prefix, slot)
    requires HostDecides(prefix, start) ==> slot == start
    requires AllAskable(desired)
    ensures Settled(prefix, start, Final(prefix, slot, desired, at), desired, at)
  {
    match First(desired, at)
    case None =>
      if slot != [] {
        NotWanted(prefix, slot[0], desired, at);
      }
    case Some(d) =>
      assert Askable(d);
      AllowLineManaged(prefix, d);
      SplitInvertsComment(prefix, d.user, d.group);
  }

  // Whatever was asked of ufw before and whatever of it failed: one pass without
  // failures settles every match, and the host's own rules are what they were.
  lemma OnePassRepairs(t: Table, ops: seq<Op>, broken: Table, desired: seq<Grant>, r: Report)
    requires Tidy(t) && (forall op :: op in ops ==> Asked(op)) && Runs(t, ops, broken)
    requires Healthy(broken) && AllAskable(desired) && r == SpecReconcileAll(Ufw(broken), desired)
    ensures !r.failed && r.host.Ufw? && r.host.table.prefix == t.prefix
    ensures HostLines(t.prefix, r.host.table.lines) == HostLines(t.prefix, t.lines)
    ensures forall at :: Settled(t.prefix, Slot(t.prefix, t.lines, at), SlotOf(r.host, at), desired, at)
  {
    RunStaysTidy(t, ops, broken);
    UfwReconcileExact(broken, desired, r);
    forall at
      ensures Settled(t.prefix, Slot(t.prefix, t.lines, at), SlotOf(r.host, at), desired, at)
    {
      MatchSettles(t, broken, desired, r, at);
    }
  }

  lemma MatchSettles(t: Table, broken: Table, desired: seq<Grant>, r: Report, at: Endpoint)
    requires Tidy(t) && Tidy(broken) && broken.prefix == t.prefix && AllAskable(desired)
    requires HostLines(t.prefix, broken.lines) == HostLines(t.prefix, t.lines)
    requires r.host.Ufw? && SlotOf(r.host, at) == Final(t.prefix, Slot(t.prefix, broken.lines, at), desired, at)
    ensures Settled(t.prefix, Slot(t.prefix, t.lines, at), SlotOf(r.host, at), desired, at)
  {
    var start, slot := Slot(t.prefix, t.lines, at), Slot(t.prefix, broken.lines, at);
    assert |start| <= 1 && |slot| <= 1;
    if HostDecides(t.prefix, start) {
      HostSlotStays(t.prefix, t.lines, broken.lines, at);
    }
    if HostDecides(t.prefix, slot) {
      HostSlotStays(t.prefix, broken.lines, t.lines, at);
    }
    if slot != [] {
      assert slot[0] in slot;
    }
    FinalSettles(t.prefix, start, slot, desired, at);
  }

  // ---- one operation that does not fail ----

  // The line our rule for the grant is.
  predicate IsRuleFor(prefix: string, l: Line, g: Grant) {
    l.shape == Plain(ALLOW, g.port, g.proto, g.ip) && l.comment == prefix + ":" + g.user + (if g.group == "" then "" else ":" + g.group)
  }

  // AddRule leaves a match that the host decides, makes any other the grant's, and
  // leaves all the rest.
  lemma AddIs(t: Table, g: Grant, at: Endpoint)
    requires Tidy(t) && Healthy(t) && Askable(g)
    ensures var slot, after := Slot(t.prefix, t.lines, at), Slot(t.prefix, SpecAdd(t, g).0.lines, at);
            if at != g.At() || HostDecides(t.prefix, slot) then after == slot else |after| == 1 && IsRuleFor(t.prefix, after[0], g)
    ensures SpecAdd(t, g).1.Done? <==> !HostDecides(t.prefix, Slot(t.prefix, t.lines, g.At()))
  {
    assert |Slot(t.prefix, t.lines, at)| <= 1;
    HostRuleInSlot(t.prefix, t.lines, g.At());
    AllowSlot(t.prefix, t.lines, g, at);
    PlainSlot(t.prefix, t.lines, at);
    CommentIs(t.prefix, g);
  }

  lemma CommentIs(prefix: string, g: Grant)
    ensures CommentFor(prefix, g.user, g.group) == prefix + ":" + g.user + (if g.group == "" then "" else ":" + g.group)
  {
    assert prefix + ":" + g.user + "" == prefix + ":" + g.user;
    assert prefix + ":" + g.user + ":" + g.group == prefix + ":" + g.user + (":" + g.group);
  }

  // RemoveRule takes out the grant's rule, if that is what the match holds, and
  // leaves all the rest.
  lemma RemoveIs(t: Table, g: Grant, at: Endpoint)
    requires Tidy(t) && Healthy(t) && Askable(g)
    ensures var slot, after := Slot(t.prefix, t.lines, at), Slot(t.prefix, SpecRemove(t, g).0.lines, at);
            after == if at == g.At() && slot != [] && IsRuleFor(t.prefix, slot[0], g) then [] else slot
    ensures SpecRemove(t, g).1
  {
    var h := Digest(CommentFor(t.prefix, g.user, g.group), g.ip, g.port, g.proto);
    assert |Slot(t.prefix, t.lines, at)| <= 1;
    DeleteSlot(t, h, at);
    PlainSlot(t.prefix, t.lines, at);
    CommentIs(t.prefix, g);
    SplitInvertsComment(t.prefix, g.user, g.group);
    var slot := Slot(t.prefix, t.lines, at);
    if slot != [] {
      assert slot[0] in slot && slot[1..] == [];
    }
  }
}
