// ReconcileAll on nftables, step by step: what is admitted and wanted stays
// admitted throughout; and exactly when a second pass has nothing to do.
module NftNoGap {
  import opened Net
  import opened Comments
  import opened NftChain
  import opened Reconcile
  import opened NftReconcile

  // Some managed rule admits the endpoint.
  ghost predicate Admits(c: Chain, at: Endpoint) {
    exists e :: e in ManagedRules(c) && GrantOf(c.prefix, e).At() == at
  }

  lemma GrantAdmits(c: Chain, d: Grant)
    requires d in Grants(c)
    ensures Admits(c, d.At())
  {
    var e := GrantStands(c.prefix, ManagedRules(c), d);
  }

  lemma SupersetAdmits(c: Chain, c2: Chain, adds: seq<Entry>, at: Endpoint)
    requires c2.prefix == c.prefix && c2.rules == adds + c.rules && Admits(c, at)
    ensures Admits(c2, at)
  {
    var e :| e in ManagedRules(c) && GrantOf(c.prefix, e).At() == at;
    assert e in ManagedRules(c2);
  }

  // While adding: nothing is taken away.
  lemma NoGapWhileAdding(c: Chain, desired: seq<Grant>, at: Endpoint, i: nat)
    requires ValidChain(c) && !NextFails(c.faults) && AllListBack(desired) && i <= |desired| && Admits(c, at)
    ensures var h := WhileAdding(Nft(c), desired, i);
            h.Nft? && Admits(h.chain, at)
  {
    var s := Sort(ListAll(c.prefix, ManagedRules(c)), Wanted(desired));
    var start := StartAdding(Nft(Tick(c)), s);
    NothingAddedYet(Tick(c), s);
    var adds := AddAllAdds(Tick(c), s.have, start, [], desired[..i]);
    SupersetAdmits(c, AddAll(start, desired[..i]).host.chain, adds, at);
  }

  lemma PartlyDeleted(c: Chain, s: Sorting, a: Adding, adds: seq<Entry>, j: nat) returns (gone: set<int>)
    requires ValidChain(c) && Distinct(s.extra) && Names(SetOf(s.extra), ManagedRules(c))
    requires AddedTo(c, s.have, a, adds) && j <= |s.extra|
    ensures var h := DeleteAll(Deleting(a.host, 0, {}), s.extra[..j]).host;
            h.Nft? && h.chain.prefix == c.prefix && h.chain.rules == adds + Without(c.rules, gone)
    ensures gone <= Numbers(SetOf(s.extra))
  {
    var part := Sorting(s.have, s.covered, s.extra[..j]);
    assert SetOf(part.extra) <= SetOf(s.extra) by {
      assert forall k :: 0 <= k < j ==> part.extra[k] == s.extra[k];
    }
    gone := DeletingTheExtra(c, part, a, adds);
  }

  // While deleting: a wanted grant already has its own rule, which is no extra.
  lemma NoGapWhileDeleting(c: Chain, desired: seq<Grant>, d: Grant, j: nat)
    requires Healthy(c) && AllListBack(desired) && AllAccepted(desired) && d in desired
    requires j <= |Extra(Nft(c), desired)|
    ensures var h := WhileDeleting(Nft(c), desired, j);
            h.Nft? && Admits(h.chain, d.At())
  {
    var s, a, adds := SortedAndAdded(c, desired);
    var gone := PartlyDeleted(Tick(c), s, a, adds, j);
    assert desired[..|desired|] == desired;
    var c2 := WhileDeleting(Nft(c), desired, j).chain;
    StillWanted(c, c2, Wanted(desired), s, adds, gone);
    GrantAdmits(c2, d);
  }

  lemma StillWanted(c: Chain, c2: Chain, want: set<Grant>, s: Sorting, adds: seq<Entry>, gone: set<int>)
    requires SortedOut(c.prefix, ManagedRules(c), want, s) && gone <= Numbers(SetOf(s.extra))
    requires c2.prefix == c.prefix && c2.rules == adds + Without(c.rules, gone)
    requires forall e :: e in adds ==> IsManaged(c.prefix)(e)
    requires GrantsOf(c.prefix, adds) == want - s.have
    ensures want <= Grants(c2)
  {
    ManagedAfterPass(c, c2, adds, gone);
    WantedSurvives(c, want, s, gone);
  }

  lemma WantedSurvives(c: Chain, want: set<Grant>, s: Sorting, gone: set<int>)
    requires SortedOut(c.prefix, ManagedRules(c), want, s) && gone <= Numbers(SetOf(s.extra))
    ensures s.have <= GrantsOf(c.prefix, Without(ManagedRules(c), gone))
  {
    var kept, left := Without(ManagedRules(c), Numbers(SetOf(s.extra))), Without(ManagedRules(c), gone);
    forall g | g in s.have
      ensures g in GrantsOf(c.prefix, left)
    {
      var e := GrantStands(c.prefix, kept, g);
      assert HandleNotIn(Numbers(SetOf(s.extra)))(e) && HandleNotIn(gone)(e);
      GrantInside(c.prefix, left, e);
    }
  }

  // ---- when a second pass is a no-op ----

  // As the kernel lists rules: every managed rule in its canonical form.
  predicate ListedOnly(c: Chain) {
    forall e :: e in ManagedRules(c) ==> ListsBack(GrantOf(c.prefix, e))
  }

  lemma SplitUserHasNoColon(prefix: string, comment: string)
    ensures ':' !in SplitComment(prefix, comment).0
  {
    if HasPrefix(comment, prefix + ":") {
      var rest := comment[|prefix| + 1..];
      var i := IndexOf(rest, ':');
      assert forall k :: 0 <= k < i ==> rest[..i][k] == rest[k];
    }
  }

  lemma AllowEntryListsBack(c: Chain, g: Grant)
    ensures ListsBack(GrantOf(c.prefix, AllowEntry(c, g)))
  {
    SplitUserHasNoColon(c.prefix, AllowEntry(c, g).comment);
  }

  lemma {:induction false} AddAllListed(a: Adding, desired: seq<Grant>)
    requires a.host.Nft? && Healthy(a.host.chain) && ListedOnly(a.host.chain)
    ensures var r := AddAll(a, desired);
            r.host.Nft? && Healthy(r.host.chain) && ListedOnly(r.host.chain) && r.added >= a.added
    decreases |desired|
  {
    if desired != [] {
      var c, d := a.host.chain, desired[0];
      AddKeepsValid(c, d);
      if !Skips(a, d) && SpecAdd(c, d).1.Done? {
        AllowEntryListsBack(Tick(c), d);
        var c1 := SpecAdd(c, d).0;
        assert forall e :: e in c1.rules ==> e == AllowEntry(Tick(c), d) || e in c.rules;
        assert forall e :: e in ManagedRules(c1) ==> e == AllowEntry(Tick(c), d) || e in ManagedRules(c);
      }
      AddAllListed(AddOne(a, d), desired[1..]);
    }
  }

  lemma AddOneListed(a: Adding, d: Grant)
    requires a.host.Nft? && Healthy(a.host.chain) && ListedOnly(a.host.chain)
    ensures var r := AddOne(a, d);
            r.host.Nft? && Healthy(r.host.chain) && ListedOnly(r.host.chain) && r.added >= a.added && r.have == a.have + {d} &&
            (d !in a.have && Accepted(d) ==> r.added > a.added)
  {
    AddAllListed(a, [d]);
    assert [d][1..] == [];
    AddKeepsValid(a.host.chain, d);
  }

  lemma {:induction false} AddAllAddsMissing(a: Adding, desired: seq<Grant>, d: Grant)
    requires a.host.Nft? && Healthy(a.host.chain) && ListedOnly(a.host.chain)
    requires d in desired && d !in a.have && Accepted(d)
    ensures AddAll(a, desired).added > a.added
    decreases |desired|
  {
    AddOneListed(a, desired[0]);
    if desired[0] == d {
      AddAllListed(AddOne(a, d), desired[1..]);
    } else {
      AddAllAddsMissing(AddOne(a, desired[0]), desired[1..], d);
    }
  }

  lemma {:induction false} DeleteAllListed(d: Deleting, extra: seq<Handle>)
    requires d.host.Nft? && ValidChain(d.host.chain) && ListedOnly(d.host.chain)
    ensures var r := DeleteAll(d, extra);
            r.host.Nft? && ValidChain(r.host.chain) && ListedOnly(r.host.chain) && r.host.chain.present == d.host.chain.present &&
            (FailureFree(d.host.chain.faults) ==> FailureFree(r.host.chain.faults))
    decreases |extra|
  {
    if extra != [] {
      var c := d.host.chain;
      DeleteKeepsValid(c, extra[0]);
      var c1 := SpecDelete(c, extra[0]).0;
      assert forall e :: e in c1.rules ==> e in c.rules;
      assert forall e :: e in ManagedRules(c1) ==> e in ManagedRules(c);
      DeleteAllListed(DeleteOne(d, extra[0]), extra[1..]);
    }
  }

  lemma PassListsBack(c: Chain, desired: seq<Grant>)
    requires Healthy(c) && ListedOnly(c)
    ensures var h := SpecReconcileAll(Nft(c), desired).host;
            h.Nft? && Healthy(h.chain) && ListedOnly(h.chain)
  {
    var s := Sort(ListAll(c.prefix, ManagedRules(c)), Wanted(desired));
    AddAllListed(StartAdding(Nft(Tick(c)), s), desired);
    var a := AddAll(StartAdding(Nft(Tick(c)), s), desired);
    DeleteAllListed(Deleting(a.host, 0, {}), s.extra);
  }

  // A repeated pass is a no-op exactly when every desired grant is listed back
  // the way it was asked for.
  lemma IdempotentExactlyWhenListedBack(c: Chain, desired: seq<Grant>, first: Report, second: Report)
    requires Healthy(c) && ListedOnly(c) && AllAccepted(desired)
    requires first == SpecReconcileAll(Nft(c), desired) && second == SpecReconcileAll(first.host, desired)
    ensures second.added == 0 && second.removed == 0 <==> AllListBack(desired)
  {
    if AllListBack(desired) {
      ReconcileExact(c, desired, first);
      ReconcileIdempotent(first.host.chain, desired);
    } else {
      var d :| d in desired && !ListsBack(d);
      PassListsBack(c, desired);
      var c1 := first.host.chain;
      KeepUnique(c1.rules, IsManaged(c1.prefix));
      var s := Sort(ListAll(c1.prefix, ManagedRules(c1)), Wanted(desired));
      SortSorts(c1.prefix, ManagedRules(c1), Wanted(desired));
      if d in s.have {
        var e := GrantStands(c1.prefix, ManagedRules(c1), d);
        assert false;
      }
      AddAllAddsMissing(StartAdding(Nft(Tick(c1)), s), desired, d);
    }
  }
}
