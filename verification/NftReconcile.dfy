// What ReconcileAll achieves on the nftables backend: with any operations
// failing, and when none does.
module NftReconcile {
  import opened Net
  import opened Seqs
  import opened Comments
  import opened NftChain
  import opened Reconcile

  function NotManaged(prefix: string): Entry -> bool {
    (e: Entry) => !HasPrefix(e.comment, prefix + ":")
  }

  function GrantsOf(prefix: string, entries: seq<Entry>): set<Grant> {
    if entries == [] then {} else {GrantOf(prefix, entries[0])} + GrantsOf(prefix, entries[1..])
  }

  lemma {:induction false} GrantInside(prefix: string, entries: seq<Entry>, e: Entry)
    requires e in entries
    ensures GrantOf(prefix, e) in GrantsOf(prefix, entries)
  {
    if e != entries[0] {
      GrantInside(prefix, entries[1..], e);
    }
  }

  lemma {:induction false} GrantStands(prefix: string, entries: seq<Entry>, g: Grant) returns (e: Entry)
    requires g in GrantsOf(prefix, entries)
    ensures e in entries && GrantOf(prefix, e) == g
  {
    if GrantOf(prefix, entries[0]) == g {
      e := entries[0];
    } else {
      e := GrantStands(prefix, entries[1..], g);
    }
  }

  // One entry per grant.
  predicate OneEach(prefix: string, entries: seq<Entry>) {
    entries == [] ||
    (GrantOf(prefix, entries[0]) !in GrantsOf(prefix, entries[1..]) && OneEach(prefix, entries[1..]))
  }

  function ManagedRules(c: Chain): seq<Entry> {
    Keep(c.rules, IsManaged(c.prefix))
  }

  // The grants the chain's managed rules stand for.
  function Grants(c: Chain): set<Grant> {
    GrantsOf(c.prefix, ManagedRules(c))
  }

  // Exactly one managed rule for each of `grants`, and no other.
  predicate Holds(c: Chain, grants: set<Grant>) {
    Grants(c) == grants && OneEach(c.prefix, ManagedRules(c))
  }

  predicate AllListBack(desired: seq<Grant>) {
    forall d :: d in desired ==> ListsBack(d)
  }

  predicate Accepted(d: Grant) {
    CheckRule(d.ip, d.port, d.proto)
  }

  predicate AllAccepted(desired: seq<Grant>) {
    forall d :: d in desired ==> Accepted(d)
  }

  lemma {:induction false} GrantsConcat(prefix: string, a: seq<Entry>, b: seq<Entry>)
    ensures GrantsOf(prefix, a + b) == GrantsOf(prefix, a) + GrantsOf(prefix, b)
  {
    if a == [] {
      assert a + b == b;
    } else {
      assert (a + b)[1..] == a[1..] + b;
      GrantsConcat(prefix, a[1..], b);
    }
  }

  lemma GrantsSingle(prefix: string, e: Entry)
    ensures GrantsOf(prefix, [e]) == {GrantOf(prefix, e)}
  {
    assert [e][1..] == [];
  }

  // OneEach in terms of the entries.
  lemma {:induction false} OneEachSame(prefix: string, entries: seq<Entry>, x: Entry, y: Entry)
    requires OneEach(prefix, entries) && x in entries && y in entries && GrantOf(prefix, x) == GrantOf(prefix, y)
    ensures x == y
  {
    var rest := entries[1..];
    if x in rest && y in rest {
      OneEachSame(prefix, rest, x, y);
    } else if x in rest {
      GrantInside(prefix, rest, x);
    } else if y in rest {
      GrantInside(prefix, rest, y);
    }
  }

  lemma {:induction false} OneEachConcat(prefix: string, a: seq<Entry>, b: seq<Entry>)
    requires OneEach(prefix, a) && OneEach(prefix, b) && GrantsOf(prefix, a) !! GrantsOf(prefix, b)
    ensures OneEach(prefix, a + b)
  {
    if a == [] {
      assert a + b == b;
    } else {
      assert (a + b)[1..] == a[1..] + b;
      OneEachConcat(prefix, a[1..], b);
      GrantsConcat(prefix, a[1..], b);
    }
  }

  lemma OneEachSingle(prefix: string, e: Entry)
    ensures OneEach(prefix, [e])
  {
    assert [e][1..] == [];
  }

  // ---- handles ----

  function Numbers(handles: set<Handle>): set<int> {
    set h | h in handles && h.Number? :: h.n
  }

  function SetOf(handles: seq<Handle>): set<Handle> {
    set h | h in handles
  }

  predicate Distinct(handles: seq<Handle>) {
    forall i, j :: 0 <= i < j < |handles| ==> handles[i] != handles[j]
  }

  predicate Present(rules: seq<Entry>, n: int) {
    exists i :: 0 <= i < |rules| && rules[i].handle == n
  }

  // Every handle names one of the entries.
  predicate Names(handles: set<Handle>, entries: seq<Entry>) {
    forall h :: h in handles ==> h.Number? && Present(entries, h.n)
  }

  // ---- sorting ----

  // What the sorting loop makes of managed entries: it keeps one entry for each
  // wanted grant that is there, and collects the handles of all the others.
  predicate SortedOut(prefix: string, entries: seq<Entry>, want: set<Grant>, s: Sorting) {
    var kept := Without(entries, Numbers(SetOf(s.extra)));
    s.have == want * GrantsOf(prefix, entries) &&
    s.have == GrantsOf(prefix, kept) && OneEach(prefix, kept) &&
    Distinct(s.extra) && Names(SetOf(s.extra), entries)
  }

  lemma KeepOneMore(prefix: string, front: seq<Entry>, last: Entry, want: set<Grant>, s0: Sorting)
    requires SortedOut(prefix, front, want, s0) && !Present(front, last.handle)
    requires GrantOf(prefix, last) in want && GrantOf(prefix, last) !in s0.have
    ensures SortedOut(prefix, front + [last], want, SortOne(s0, want, Listed(prefix, last)))
  {
    var n := Numbers(SetOf(s0.extra));
    var kept := Without(front, n);
    assert last.handle !in n;
    KeepConcat(front, [last], HandleNotIn(n));
    assert Keep([last], HandleNotIn(n)) == [last];
    GrantsConcat(prefix, front, [last]);
    GrantsConcat(prefix, kept, [last]);
    GrantsSingle(prefix, last);
    OneEachSingle(prefix, last);
    OneEachConcat(prefix, kept, [last]);
    NamesMore(SetOf(s0.extra), front, last);
  }

  lemma NamesMore(handles: set<Handle>, front: seq<Entry>, last: Entry)
    requires Names(handles, front)
    ensures Names(handles + {Number(last.handle)}, front + [last])
  {
    var entries := front + [last];
    assert entries[|front|] == last;
    forall h | h in handles
      ensures Present(entries, h.n)
    {
      var i :| 0 <= i < |front| && front[i].handle == h.n;
      assert entries[i] == front[i];
    }
  }

  lemma DiscardOneMore(prefix: string, front: seq<Entry>, last: Entry, want: set<Grant>, s0: Sorting)
    requires SortedOut(prefix, front, want, s0) && !Present(front, last.handle)
    requires GrantOf(prefix, last) !in want || GrantOf(prefix, last) in s0.have
    ensures SortedOut(prefix, front + [last], want, SortOne(s0, want, Listed(prefix, last)))
  {
    var s := SortOne(s0, want, Listed(prefix, last));
    var n0, n := Numbers(SetOf(s0.extra)), Numbers(SetOf(s.extra));
    assert SetOf(s.extra) == SetOf(s0.extra) + {Number(last.handle)};
    assert Number(last.handle) !in SetOf(s0.extra);
    KeepConcat(front, [last], HandleNotIn(n));
    assert Keep([last], HandleNotIn(n)) == [];
    assert forall e :: e in front ==> e.handle != last.handle;
    KeepSame(front, HandleNotIn(n0), HandleNotIn(n));
    assert Without(front + [last], n) == Without(front, n0);
    GrantsConcat(prefix, front, [last]);
    GrantsSingle(prefix, last);
    NamesMore(SetOf(s0.extra), front, last);
  }

  lemma {:induction false} SortSorts(prefix: string, entries: seq<Entry>, want: set<Grant>)
    requires UniqueHandles(entries)
    ensures SortedOut(prefix, entries, want, Sort(ListAll(prefix, entries), want))
    decreases |entries|
  {
    if entries != [] {
      hide SortedOut;
      var n := |entries| - 1;
      var front, last := entries[..n], entries[n];
      assert ListAll(prefix, entries)[..n] == ListAll(prefix, front);
      SortSorts(prefix, front, want);
      var s0 := Sort(ListAll(prefix, front), want);
      assert entries == front + [last];
      if GrantOf(prefix, last) in want && GrantOf(prefix, last) !in s0.have {
        KeepOneMore(prefix, front, last, want, s0);
      } else {
        DiscardOneMore(prefix, front, last, want, s0);
      }
    }
  }

  // ---- adding ----

  // What the first additions did to the chain: `adds` in front of the old rules,
  // one for each grant that was neither there nor failed.
  predicate AddedTo(c: Chain, have: set<Grant>, a: Adding, adds: seq<Entry>) {
    a.host.Nft? &&
    var c2 := a.host.chain;
    c2.prefix == c.prefix && c2.present == c.present && ValidChain(c2) && c2.next >= c.next &&
    c2.rules == adds + c.rules && |adds| == a.added &&
    (forall e :: e in adds ==> e.handle >= c.next && IsManaged(c.prefix)(e)) &&
    have <= a.have && a.failedAdds <= a.have - have &&
    GrantsOf(c.prefix, adds) == a.have - have - a.failedAdds && OneEach(c.prefix, adds) &&
    (Healthy(c) ==> Healthy(c2) && forall d :: d in a.failedAdds ==> !Accepted(d)) &&
    (forall d :: d in a.have - have && !Accepted(d) ==> d in a.failedAdds)
  }

  lemma GrantsMore(prefix: string, e: Entry, entries: seq<Entry>)
    ensures GrantsOf(prefix, [e] + entries) == {GrantOf(prefix, e)} + GrantsOf(prefix, entries)
    ensures OneEach(prefix, [e] + entries) <==> GrantOf(prefix, e) !in GrantsOf(prefix, entries) && OneEach(prefix, entries)
  {
    assert ([e] + entries)[1..] == entries;
  }

  lemma OneAddition(c: Chain, have: set<Grant>, a: Adding, adds: seq<Entry>, d: Grant)
    requires AddedTo(c, have, a, adds) && ListsBack(d) && !Skips(a, d) && SpecAdd(a.host.chain, d).1.Done?
    ensures AddedTo(c, have, AddOne(a, d), [AllowEntry(Tick(a.host.chain), d)] + adds)
  {
    hide ValidChain, GrantsOf, OneEach, GrantOf, Healthy, ListsBack;
    var c1 := a.host.chain;
    var e := AllowEntry(Tick(c1), d);
    AddKeepsValid(c1, d);
    AddedGrant(Tick(c1), d);
    GrantsMore(c.prefix, e, adds);
    assert [e] + (adds + c.rules) == [e] + adds + c.rules;
  }

  lemma AddOneAdds(c: Chain, have: set<Grant>, a: Adding, adds: seq<Entry>, d: Grant) returns (more: seq<Entry>)
    requires AddedTo(c, have, a, adds) && ListsBack(d)
    ensures AddedTo(c, have, AddOne(a, d), more)
    ensures AddOne(a, d).have == a.have + {d}
  {
    more := adds;
    if !Skips(a, d) {
      if SpecAdd(a.host.chain, d).1.Done? {
        OneAddition(c, have, a, adds, d);
        more := [AllowEntry(Tick(a.host.chain), d)] + adds;
      } else {
        AddKeepsValid(a.host.chain, d);
      }
    }
  }

  lemma {:induction false} AddAllAdds(c: Chain, have: set<Grant>, a: Adding, adds: seq<Entry>, desired: seq<Grant>) returns (more: seq<Entry>)
    requires AddedTo(c, have, a, adds) && AllListBack(desired)
    ensures AddedTo(c, have, AddAll(a, desired), more)
    ensures AddAll(a, desired).have == a.have + Wanted(desired)
    decreases |desired|
  {
    more := adds;
    if desired != [] {
      var mid := AddOneAdds(c, have, a, adds, desired[0]);
      more := AddAllAdds(c, have, AddOne(a, desired[0]), mid, desired[1..]);
    }
  }

  // ---- deleting ----

  predicate DeletedFrom(c: Chain, d: Deleting, gone: set<int>) {
    d.host.Nft? &&
    var c2 := d.host.chain;
    c2.prefix == c.prefix && c2.present == c.present && ValidChain(c2) && c2.next == c.next &&
    c2.rules == Without(c.rules, gone) && |c2.rules| + d.removed == |c.rules| &&
    (Healthy(c) ==> Healthy(c2) && d.failedDeletes == {})
  }

  lemma {:induction false} WithoutOneShorter(rules: seq<Entry>, n: int)
    requires UniqueHandles(rules) && Present(rules, n)
    ensures |Without(rules, {n})| == |rules| - 1
  {
    var rest := rules[1..];
    var i :| 0 <= i < |rules| && rules[i].handle == n;
    if i == 0 {
      forall x | x in rest
        ensures x.handle != n
      {
        var k :| 0 <= k < |rest| && rest[k] == x;
        assert rules[k + 1] == x;
      }
      KeepAll(rest, HandleNotIn({n}));
    } else {
      assert rest[i - 1] == rules[i];
      WithoutOneShorter(rest, n);
    }
  }

  lemma StillPresent(rules: seq<Entry>, gone: set<int>, n: int)
    requires Present(rules, n) && n !in gone
    ensures Present(Without(rules, gone), n)
  {
    var i :| 0 <= i < |rules| && rules[i].handle == n;
    assert HandleNotIn(gone)(rules[i]) && rules[i] in rules;
    assert rules[i] in Without(rules, gone);
  }

  lemma DeleteOneDeletes(c: Chain, d: Deleting, gone: set<int>, n: int)
    requires DeletedFrom(c, d, gone) && Present(c.rules, n) && n !in gone && Number(n) !in d.failedDeletes
    ensures var d2 := DeleteOne(d, Number(n));
            if Number(n) in d2.failedDeletes
            then DeletedFrom(c, d2, gone) && d2.failedDeletes == d.failedDeletes + {Number(n)}
            else DeletedFrom(c, d2, gone + {n}) && d2.failedDeletes == d.failedDeletes
  {
    var c1, h := d.host.chain, Number(n);
    DeleteKeepsValid(c1, h);
    StillPresent(c.rules, gone, n);
    if SpecDelete(c1, h).1 {
      WithoutOne(c.rules, gone, n);
      WithoutOneShorter(c1.rules, n);
    }
  }

  // Deleting distinct handles drops exactly those whose delete did not fail.
  lemma {:induction false} DeleteAllDeletes(c: Chain, d: Deleting, gone: set<int>, extra: seq<Handle>)
    requires DeletedFrom(c, d, gone) && Distinct(extra) && Names(SetOf(extra), c.rules)
    requires forall h :: h in extra ==> h !in d.failedDeletes && h.n !in gone
    ensures var r := DeleteAll(d, extra);
            DeletedFrom(c, r, gone + (Numbers(SetOf(extra)) - Numbers(r.failedDeletes))) &&
            d.failedDeletes <= r.failedDeletes <= d.failedDeletes + SetOf(extra)
    decreases |extra|
  {
    var all := Numbers(SetOf(extra));
    if extra == [] {
      assert gone + (all - Numbers(d.failedDeletes)) == gone;
    } else {
      var h, rest := extra[0], extra[1..];
      assert h in SetOf(extra);
      DeleteOneDeletes(c, d, gone, h.n);
      var d2 := DeleteOne(d, h);
      var gone2 := if h in d2.failedDeletes then gone else gone + {h.n};
      assert SetOf(extra) == {h} + SetOf(rest) && h !in rest;
      assert all == {h.n} + Numbers(SetOf(rest));
      DeleteAllDeletes(c, d2, gone2, rest);
      var r := DeleteAll(d2, rest);
      assert h in r.failedDeletes <==> h in d2.failedDeletes;
      assert gone2 + (Numbers(SetOf(rest)) - Numbers(r.failedDeletes)) == gone + (all - Numbers(r.failedDeletes));
    }
  }

  // ---- the whole pass ----

  // A pass in terms of what it put in front and what it took out.
  predicate Pass(c: Chain, desired: seq<Grant>, r: Report, s: Sorting, adds: seq<Entry>, gone: set<int>) {
    SortedOut(c.prefix, ManagedRules(c), Wanted(desired), s) &&
    r.host.Nft? &&
    var c2 := r.host.chain;
    c2.prefix == c.prefix && c2.present == c.present && ValidChain(c2) && (Healthy(c) ==> Healthy(c2)) &&
    c2.rules == adds + Without(c.rules, gone) &&
    |c2.rules| + r.removed == |c.rules| + r.added &&
    r.failed == (r.failedAdds != {} || r.failedDeletes != {}) &&
    (forall e :: e in adds ==> IsManaged(c.prefix)(e)) && OneEach(c.prefix, adds) &&
    GrantsOf(c.prefix, adds) == Wanted(desired) - s.have - r.failedAdds &&
    r.failedAdds <= Wanted(desired) - s.have &&
    (forall d :: d in Wanted(desired) - s.have && !Accepted(d) ==> d in r.failedAdds) &&
    gone == Numbers(SetOf(s.extra)) - Numbers(r.failedDeletes) && r.failedDeletes <= SetOf(s.extra) &&
    (Healthy(c) ==> r.failedDeletes == {} && forall d :: d in r.failedAdds ==> !Accepted(d))
  }

  lemma DeletingTheExtra(c: Chain, s: Sorting, a: Adding, adds: seq<Entry>) returns (gone: set<int>)
    requires ValidChain(c) && Distinct(s.extra) && Names(SetOf(s.extra), ManagedRules(c))
    requires AddedTo(c, s.have, a, adds)
    ensures var r := DeleteAll(Deleting(a.host, 0, {}), s.extra);
            DeletedFrom(a.host.chain, r, gone) && r.failedDeletes <= SetOf(s.extra) &&
            r.host.chain.rules == adds + Without(c.rules, gone) &&
            gone == Numbers(SetOf(s.extra)) - Numbers(r.failedDeletes)
  {
    var c2 := a.host.chain;
    var d := Deleting(a.host, 0, {});
    WithoutNone(c2.rules);
    assert DeletedFrom(c2, d, {});
    forall h | h in SetOf(s.extra)
      ensures h.n < c.next && Present(c2.rules, h.n)
    {
      var i :| 0 <= i < |ManagedRules(c)| && ManagedRules(c)[i].handle == h.n;
      assert ManagedRules(c)[i] in c.rules;
      var k :| 0 <= k < |c.rules| && c.rules[k] == ManagedRules(c)[i];
      assert c2.rules[|adds| + k] == c.rules[k];
    }
    DeleteAllDeletes(c2, d, {}, s.extra);
    var r := DeleteAll(d, s.extra);
    gone := Numbers(SetOf(s.extra)) - Numbers(r.failedDeletes);
    assert {} + gone == gone;
    KeepConcat(adds, c.rules, HandleNotIn(gone));
    KeepAll(adds, HandleNotIn(gone));
  }

  function ReportOf(a: Adding, d: Deleting): Report {
    Report(d.host, a.added, d.removed, a.failedAdds != {} || d.failedDeletes != {}, a.failedAdds, d.failedDeletes)
  }

  lemma PassFromParts(c: Chain, desired: seq<Grant>, s: Sorting, a: Adding, d: Deleting, adds: seq<Entry>, gone: set<int>)
    requires ValidChain(c) && SortedOut(c.prefix, ManagedRules(c), Wanted(desired), s)
    requires AddedTo(Tick(c), s.have, a, adds) && a.have == Wanted(desired)
    requires DeletedFrom(a.host.chain, d, gone) && d.host.chain.rules == adds + Without(c.rules, gone)
    requires gone == Numbers(SetOf(s.extra)) - Numbers(d.failedDeletes) && d.failedDeletes <= SetOf(s.extra)
    ensures Pass(c, desired, ReportOf(a, d), s, adds, gone)
  {
  }

  // The sorting and the adding of a pass.
  lemma SortedAndAdded(c: Chain, desired: seq<Grant>) returns (s: Sorting, a: Adding, adds: seq<Entry>)
    requires ValidChain(c) && !NextFails(c.faults) && AllListBack(desired)
    ensures List(Nft(c)).1.Some? && s == Sort(List(Nft(c)).1.value, Wanted(desired))
    ensures a == AddAll(StartAdding(List(Nft(c)).0, s), desired)
    ensures SortedOut(c.prefix, ManagedRules(c), Wanted(desired), s)
    ensures AddedTo(Tick(c), s.have, a, adds) && a.have == Wanted(desired)
    ensures Healthy(c) && AllAccepted(desired) ==> GrantsOf(c.prefix, adds) == Wanted(desired) - s.have
  {
    KeepUnique(c.rules, IsManaged(c.prefix));
    s := Sort(ListAll(c.prefix, ManagedRules(c)), Wanted(desired));
    SortSorts(c.prefix, ManagedRules(c), Wanted(desired));
    var start := StartAdding(Nft(Tick(c)), s);
    NothingAddedYet(Tick(c), s);
    adds := AddAllAdds(Tick(c), s.have, start, [], desired);
    a := AddAll(start, desired);
    assert a.have == Wanted(desired);
    assert Healthy(c) && AllAccepted(desired) ==> a.failedAdds == {};
  }

  lemma ReconcileIsAPass(c: Chain, desired: seq<Grant>) returns (s: Sorting, adds: seq<Entry>, gone: set<int>)
    requires ValidChain(c) && !NextFails(c.faults) && AllListBack(desired)
    ensures Pass(c, desired, SpecReconcileAll(Nft(c), desired), s, adds, gone)
  {
    var a;
    s, a, adds := SortedAndAdded(c, desired);
    gone := DeletingTheExtra(Tick(c), s, a, adds);
    PassFromParts(c, desired, s, a, DeleteAll(Deleting(a.host, 0, {}), s.extra), adds, gone);
  }

  lemma NothingAddedYet(c: Chain, s: Sorting)
    requires ValidChain(c)
    ensures AddedTo(c, s.have, StartAdding(Nft(c), s), [])
  {
    assert [] + c.rules == c.rules;
  }

  // The managed rules after a pass.
  lemma ManagedAfterPass(c: Chain, c2: Chain, adds: seq<Entry>, gone: set<int>)
    requires c2.prefix == c.prefix && c2.rules == adds + Without(c.rules, gone)
    requires forall e :: e in adds ==> IsManaged(c.prefix)(e)
    ensures ManagedRules(c2) == adds + Without(ManagedRules(c), gone)
    ensures Grants(c2) == GrantsOf(c.prefix, adds) + GrantsOf(c.prefix, Without(ManagedRules(c), gone))
  {
    KeepConcat(adds, Without(c.rules, gone), IsManaged(c.prefix));
    KeepAll(adds, IsManaged(c.prefix));
    KeepCommutes(c.rules, HandleNotIn(gone), IsManaged(c.prefix));
    GrantsConcat(c.prefix, adds, Without(ManagedRules(c), gone));
  }

  lemma OthersAfterPass(c: Chain, adds: seq<Entry>, extra: set<Handle>, gone: set<int>)
    requires UniqueHandles(c.rules) && Names(extra, ManagedRules(c)) && gone <= Numbers(extra)
    requires forall e :: e in adds ==> IsManaged(c.prefix)(e)
    ensures Keep(adds + Without(c.rules, gone), NotManaged(c.prefix)) == Keep(c.rules, NotManaged(c.prefix))
  {
    var others := NotManaged(c.prefix);
    KeepConcat(adds, Without(c.rules, gone), others);
    KeepNone(adds, others);
    KeepCommutes(c.rules, HandleNotIn(gone), others);
    forall e | e in Keep(c.rules, others)
      ensures HandleNotIn(gone)(e)
    {
      if e.handle in gone {
        assert Number(e.handle) in extra;
        var i :| 0 <= i < |ManagedRules(c)| && ManagedRules(c)[i].handle == e.handle;
        assert ManagedRules(c)[i] in ManagedRules(c);
        SameHandleSameEntry(c.rules, e, ManagedRules(c)[i]);
        assert false;
      }
    }
    KeepAll(Keep(c.rules, others), HandleNotIn(gone));
  }

  // The grants of the listed rules whose delete failed.
  function Stuck(c: Chain, failed: set<Handle>): set<Grant> {
    set e | e in ManagedRules(c) && Number(e.handle) in failed :: GrantOf(c.prefix, e)
  }

  lemma SurvivorsOfPass(c: Chain, want: set<Grant>, s: Sorting, failed: set<Handle>, gone: set<int>)
    requires SortedOut(c.prefix, ManagedRules(c), want, s) && gone == Numbers(SetOf(s.extra)) - Numbers(failed)
    ensures var left := GrantsOf(c.prefix, Without(ManagedRules(c), gone));
            s.have <= left <= s.have + Stuck(c, failed)
  {
    var entries := ManagedRules(c);
    var left, kept := Without(entries, gone), Without(entries, Numbers(SetOf(s.extra)));
    forall g | g in s.have
      ensures g in GrantsOf(c.prefix, left)
    {
      var e := GrantStands(c.prefix, kept, g);
      assert HandleNotIn(gone)(e);
      GrantInside(c.prefix, left, e);
    }
    forall g | g in GrantsOf(c.prefix, left)
      ensures g in s.have + Stuck(c, failed)
    {
      var e := GrantStands(c.prefix, left, g);
      assert HandleNotIn(gone)(e);
      if Number(e.handle) !in SetOf(s.extra) {
        assert HandleNotIn(Numbers(SetOf(s.extra)))(e);
        GrantInside(c.prefix, kept, e);
      }
    }
  }

  lemma FaultyPass(c: Chain, desired: seq<Grant>, r: Report, s: Sorting, adds: seq<Entry>, gone: set<int>)
    requires ValidChain(c) && Pass(c, desired, r, s, adds, gone)
    ensures Wanted(desired) - r.failedAdds <= Grants(r.host.chain) <= Wanted(desired) + Stuck(c, r.failedDeletes)
    ensures r.failedAdds <= Wanted(desired) - Grants(c)
  {
    hide ValidChain, OneEach;
    ManagedAfterPass(c, r.host.chain, adds, gone);
    SurvivorsOfPass(c, Wanted(desired), s, r.failedDeletes, gone);
  }

  // With any operations failing: the managed grants are all the desired ones but
  // those whose add failed, plus only those whose delete failed; the other rules
  // stay as they were, in order; the rule count is the balance.
  lemma ReconcileUnderFaults(c: Chain, desired: seq<Grant>, r: Report)
    requires ValidChain(c) && AllListBack(desired) && r == SpecReconcileAll(Nft(c), desired)
    ensures r.host.Nft? && r.host.chain.prefix == c.prefix && ValidChain(r.host.chain)
    ensures if NextFails(c.faults) then r == Report(Nft(Tick(c)), 0, 0, true, {}, {})
            else Wanted(desired) - r.failedAdds <= Grants(r.host.chain) <= Wanted(desired) + Stuck(c, r.failedDeletes)
    ensures r.failedAdds <= Wanted(desired) - Grants(c)
    ensures |r.host.chain.rules| == |c.rules| + r.added - r.removed
    ensures r.failed <==> NextFails(c.faults) || r.failedAdds != {} || r.failedDeletes != {}
    ensures Keep(r.host.chain.rules, NotManaged(c.prefix)) == Keep(c.rules, NotManaged(c.prefix))
  {
    if !NextFails(c.faults) {
      var s, adds, gone := ReconcileIsAPass(c, desired);
      FaultyPass(c, desired, r, s, adds, gone);
      OthersAfterPass(c, adds, SetOf(s.extra), gone);
    }
  }

  lemma ExactPass(c: Chain, desired: seq<Grant>, r: Report, s: Sorting, adds: seq<Entry>, gone: set<int>)
    requires Healthy(c) && Pass(c, desired, r, s, adds, gone)
    ensures Holds(r.host.chain, Wanted(desired) - r.failedAdds)
    ensures forall d :: d in r.failedAdds <==> d in Wanted(desired) - Grants(c) && !Accepted(d)
  {
    hide ValidChain;
    ManagedAfterPass(c, r.host.chain, adds, gone);
    assert gone == Numbers(SetOf(s.extra));
    OneEachConcat(c.prefix, adds, Without(ManagedRules(c), gone));
    assert Wanted(desired) - s.have == Wanted(desired) - Grants(c);
    assert Grants(r.host.chain) == Wanted(desired) - r.failedAdds;
  }

  // Without failures: exactly the desired grants that a backend accepts at all,
  // one rule each.
  lemma ReconcileExact(c: Chain, desired: seq<Grant>, r: Report)
    requires Healthy(c) && AllListBack(desired) && r == SpecReconcileAll(Nft(c), desired)
    ensures r.host.Nft? && r.host.chain.prefix == c.prefix && Healthy(r.host.chain)
    ensures Holds(r.host.chain, Wanted(desired) - r.failedAdds)
    ensures forall d :: d in r.failedAdds <==> d in Wanted(desired) - Grants(c) && !Accepted(d)
    ensures r.failed <==> r.failedAdds != {}
    ensures AllAccepted(desired) ==> !r.failed && Holds(r.host.chain, Wanted(desired))
  {
    hide ValidChain, OneEach;
    var s, adds, gone := ReconcileIsAPass(c, desired);
    ExactPass(c, desired, r, s, adds, gone);
    if AllAccepted(desired) {
      assert r.failedAdds == {};
      assert Wanted(desired) - {} == Wanted(desired);
    }
  }

  // A pass over a chain that already is as desired mutates nothing.
  lemma ReconcileIdempotent(c: Chain, desired: seq<Grant>)
    requires Healthy(c) && Holds(c, Wanted(desired))
    ensures SpecReconcileAll(Nft(c), desired) == Report(Nft(Tick(c)), 0, 0, false, {}, {})
  {
    var entries := ManagedRules(c);
    KeepUnique(c.rules, IsManaged(c.prefix));
    SortSorts(c.prefix, entries, Wanted(desired));
    var s := Sort(ListAll(c.prefix, entries), Wanted(desired));
    assert s.have == Wanted(desired);
    NothingExtra(c, s);
    AddAllSkips(StartAdding(Nft(Tick(c)), s), desired);
  }

  lemma NothingExtra(c: Chain, s: Sorting)
    requires OneEach(c.prefix, ManagedRules(c)) && Grants(c) == s.have
    requires SortedOut(c.prefix, ManagedRules(c), s.have, s)
    ensures s.extra == []
  {
    var entries := ManagedRules(c);
    var kept := Without(entries, Numbers(SetOf(s.extra)));
    forall i | 0 <= i < |entries|
      ensures Number(entries[i].handle) !in SetOf(s.extra)
    {
      GrantInside(c.prefix, entries, entries[i]);
      var x := GrantStands(c.prefix, kept, GrantOf(c.prefix, entries[i]));
      OneEachSame(c.prefix, entries, x, entries[i]);
      assert HandleNotIn(Numbers(SetOf(s.extra)))(x);
    }
    NonEmptyHasMember(s.extra);
    assert forall h :: h in s.extra ==> h in SetOf(s.extra);
  }

  lemma {:induction false} AddAllSkips(a: Adding, desired: seq<Grant>)
    requires Wanted(desired) <= a.have
    ensures AddAll(a, desired) == a
    decreases |desired|
  {
    if desired != [] {
      assert desired[0] in desired;
      AddAllSkips(a, desired[1..]);
    }
  }

  // Whatever failed before, one failure-free pass converges, and one more
  // changes nothing.
  lemma OnePassConverges(c: Chain, desired: seq<Grant>, faults: seq<bool>, again: seq<bool>)
    requires ValidChain(c) && AllListBack(desired) && AllAccepted(desired)
    requires FailureFree(faults) && FailureFree(again)
    ensures var broken := SpecReconcileAll(Nft(c), desired).host;
            broken.Nft? &&
            var r := SpecReconcileAll(Nft(broken.chain.(present := true, faults := faults)), desired);
            !r.failed && r.host.Nft? && Holds(r.host.chain, Wanted(desired)) &&
            var r2 := SpecReconcileAll(Nft(r.host.chain.(faults := again)), desired);
            r2.added == 0 && r2.removed == 0 && !r2.failed && r2.host.Nft? && r2.host.chain.rules == r.host.chain.rules
  {
    var first := SpecReconcileAll(Nft(c), desired);
    ReconcileUnderFaults(c, desired, first);
    var broken := first.host.chain.(present := true, faults := faults);
    assert ValidChain(broken);
    var second := SpecReconcileAll(Nft(broken), desired);
    ReconcileExact(broken, desired, second);
    var done := second.host.chain.(faults := again);
    assert Holds(done, Wanted(desired));
    ReconcileIdempotent(done, desired);
  }
}
