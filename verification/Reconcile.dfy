// ReconcileAll (internal/firewall/reconcile.go): make a host's managed rules
// equal a desired set, adding before deleting, on either backend.
module Reconcile {
  import opened Net
  import N = NftChain
  import U = UfwTable
  import NB = NftBackend
  import UB = UfwBackend

  // What a FirewallBackend value stands for, as far as ReconcileAll can tell.
  datatype Host = Nft(chain: N.Chain) | Ufw(table: U.Table)

  // sameMatchMerger: ufw keeps at most one rule per match.
  predicate Merges(h: Host) {
    h.Ufw?
  }

  function ChainOf(h: Host, otherwise: N.Chain): N.Chain {
    if h.Nft? then h.chain else otherwise
  }

  function List(h: Host): (Host, Option<seq<Rule>>) {
    match h
    case Nft(c) => var (c1, r) := N.SpecList(c, N.IsManaged(c.prefix)); (Nft(c1), r)
    case Ufw(t) => var (t1, r) := U.SpecList(t); (Ufw(t1), r)
  }

  function Add(h: Host, g: Grant): (Host, Outcome) {
    match h
    case Nft(c) => var (c1, o) := N.SpecAdd(c, g); (Nft(c1), o)
    case Ufw(t) => var (t1, o) := U.SpecAdd(t, g); (Ufw(t1), o)
  }

  function Delete(h: Host, handle: Handle): (Host, bool) {
    match h
    case Nft(c) => var (c1, ok) := N.SpecDelete(c, handle); (Nft(c1), ok)
    case Ufw(t) => var (t1, ok) := U.SpecDelete(t, handle); (Ufw(t1), ok)
  }

  // ---- the algorithm, as a function of the host ----

  // The managed rules sorted into those kept and the handles of the others.
  datatype Sorting = Sorting(have: set<Grant>, covered: set<Endpoint>, extra: seq<Handle>)

  function SortOne(s: Sorting, want: set<Grant>, m: Rule): Sorting {
    if m.grant in want && m.grant !in s.have then
      s.(have := s.have + {m.grant}, covered := s.covered + {m.grant.At()})
    else s.(extra := s.extra + [m.handle])
  }

  function Sort(managed: seq<Rule>, want: set<Grant>): Sorting {
    if managed == [] then Sorting({}, {}, [])
    else SortOne(Sort(managed[..|managed| - 1], want), want, managed[|managed| - 1])
  }

  datatype Adding = Adding(host: Host, have: set<Grant>, covered: set<Endpoint>, added: nat, failedAdds: set<Grant>)

  predicate Skips(a: Adding, d: Grant) {
    d in a.have || (Merges(a.host) && d.At() in a.covered)
  }

  function AddOne(a: Adding, d: Grant): Adding {
    if Skips(a, d) then a
    else
      var (h, outcome) := Add(a.host, d);
      var a1 := a.(host := h, have := a.have + {d});
      match outcome
      case Done => a1.(covered := a.covered + {d.At()}, added := a.added + 1)
      case HostRule(_) => a1.(covered := a.covered + {d.At()})
      case Failed(_) => a1.(failedAdds := a.failedAdds + {d})
  }

  function AddAll(a: Adding, desired: seq<Grant>): Adding
    decreases |desired|
  {
    if desired == [] then a else AddAll(AddOne(a, desired[0]), desired[1..])
  }

  datatype Deleting = Deleting(host: Host, removed: nat, failedDeletes: set<Handle>)

  function DeleteOne(d: Deleting, handle: Handle): Deleting {
    var (h, ok) := Delete(d.host, handle);
    if ok then d.(host := h, removed := d.removed + 1)
    else d.(host := h, failedDeletes := d.failedDeletes + {handle})
  }

  function DeleteAll(d: Deleting, extra: seq<Handle>): Deleting
    decreases |extra|
  {
    if extra == [] then d else DeleteAll(DeleteOne(d, extra[0]), extra[1..])
  }

  datatype Report = Report(host: Host, added: nat, removed: nat, failed: bool,
                           failedAdds: set<Grant>, failedDeletes: set<Handle>)

  function Wanted(desired: seq<Grant>): (r: set<Grant>)
    ensures forall g :: g in r <==> g in desired
  {
    set g | g in desired
  }

  function StartAdding(h: Host, s: Sorting): Adding {
    Adding(h, s.have, s.covered, 0, {})
  }

  function SpecReconcileAll(h: Host, desired: seq<Grant>): Report {
    var (h1, listing) := List(h);
    match listing
    case None => Report(h1, 0, 0, true, {}, {})
    case Some(managed) =>
      var s := Sort(managed, Wanted(desired));
      var a := AddAll(StartAdding(h1, s), desired);
      var d := DeleteAll(Deleting(a.host, 0, {}), s.extra);
      Report(d.host, a.added, d.removed, a.failedAdds != {} || d.failedDeletes != {}, a.failedAdds, d.failedDeletes)
  }

  lemma {:induction false} AddAllConcat(a: Adding, x: seq<Grant>, y: seq<Grant>)
    ensures AddAll(a, x + y) == AddAll(AddAll(a, x), y)
    decreases |x|
  {
    if x == [] {
      assert x + y == y;
    } else {
      assert (x + y)[1..] == x[1..] + y;
      AddAllConcat(AddOne(a, x[0]), x[1..], y);
    }
  }

  lemma {:induction false} DeleteAllConcat(d: Deleting, x: seq<Handle>, y: seq<Handle>)
    ensures DeleteAll(d, x + y) == DeleteAll(DeleteAll(d, x), y)
    decreases |x|
  {
    if x == [] {
      assert x + y == y;
    } else {
      assert (x + y)[1..] == x[1..] + y;
      DeleteAllConcat(DeleteOne(d, x[0]), x[1..], y);
    }
  }

  lemma AddAllNext(a: Adding, desired: seq<Grant>, i: nat)
    requires i < |desired|
    ensures AddAll(a, desired[..i + 1]) == AddOne(AddAll(a, desired[..i]), desired[i])
  {
    assert desired[..i + 1] == desired[..i] + [desired[i]];
    AddAllConcat(a, desired[..i], [desired[i]]);
  }

  lemma DeleteAllNext(d: Deleting, extra: seq<Handle>, j: nat)
    requires j < |extra|
    ensures DeleteAll(d, extra[..j + 1]) == DeleteOne(DeleteAll(d, extra[..j]), extra[j])
  {
    assert extra[..j + 1] == extra[..j] + [extra[j]];
    DeleteAllConcat(d, extra[..j], [extra[j]]);
  }

  // ---- the states on the way ----

  // The host after the first i additions, before any deletion.
  function WhileAdding(h: Host, desired: seq<Grant>, i: nat): Host
    requires i <= |desired| && List(h).1.Some?
  {
    AddAll(StartAdding(List(h).0, Sort(List(h).1.value, Wanted(desired))), desired[..i]).host
  }

  function Extra(h: Host, desired: seq<Grant>): seq<Handle>
    requires List(h).1.Some?
  {
    Sort(List(h).1.value, Wanted(desired)).extra
  }

  // The host after all additions and the first j deletions.
  function WhileDeleting(h: Host, desired: seq<Grant>, j: nat): Host
    requires List(h).1.Some? && j <= |Extra(h, desired)|
  {
    DeleteAll(Deleting(WhileAdding(h, desired, |desired|), 0, {}), Extra(h, desired)[..j]).host
  }

  lemma LastStateIsTheResult(h: Host, desired: seq<Grant>)
    requires List(h).1.Some?
    ensures WhileDeleting(h, desired, |Extra(h, desired)|) == SpecReconcileAll(h, desired).host
  {
    assert desired[..|desired|] == desired;
    assert Extra(h, desired)[..|Extra(h, desired)|] == Extra(h, desired);
  }

  // ---- the program ----

  // A FirewallBackend value.
  datatype Backend = NftRef(nft: NB.NftBackend) | UfwRef(ufw: UB.UfwBackend)

  function ObjectOf(be: Backend): object {
    match be
    case NftRef(nft) => nft
    case UfwRef(ufw) => ufw
  }

  ghost function HostOf(be: Backend): Host
    reads ObjectOf(be)
  {
    match be
    case NftRef(nft) => Nft(nft.kernel)
    case UfwRef(ufw) => Ufw(ufw.ufw)
  }

  ghost predicate ValidBackend(be: Backend)
    reads ObjectOf(be)
  {
    match be
    case NftRef(nft) => nft.Valid()
    case UfwRef(ufw) => ufw.Valid()
  }

  method ListManaged(be: Backend) returns (listing: Option<seq<Rule>>)
    requires ValidBackend(be)
    modifies ObjectOf(be)
    ensures ValidBackend(be)
    ensures HostOf(be) == List(old(HostOf(be))).0 && listing == List(old(HostOf(be))).1
  {
    match be {
      case NftRef(nft) => listing := nft.ListManaged();
      case UfwRef(ufw) => listing := ufw.ListManaged();
    }
  }

  method AddRule(be: Backend, g: Grant) returns (outcome: Outcome)
    requires ValidBackend(be)
    modifies ObjectOf(be)
    ensures ValidBackend(be)
    ensures HostOf(be) == Add(old(HostOf(be)), g).0 && outcome == Add(old(HostOf(be)), g).1
  {
    match be {
      case NftRef(nft) => outcome := nft.AddRule(g);
      case UfwRef(ufw) => outcome := ufw.AddRule(g);
    }
  }

  method DeleteByHandle(be: Backend, handle: Handle) returns (ok: bool)
    requires ValidBackend(be)
    modifies ObjectOf(be)
    ensures ValidBackend(be)
    ensures HostOf(be) == Delete(old(HostOf(be)), handle).0 && ok == Delete(old(HostOf(be)), handle).1
  {
    match be {
      case NftRef(nft) => ok := nft.DeleteByHandle(handle);
      case UfwRef(ufw) => ok := ufw.DeleteByHandle(handle);
    }
  }

  // The sorting loop of ReconcileAll.
  method SortManaged(managed: seq<Rule>, want: set<Grant>) returns (have: set<Grant>, covered: set<Endpoint>, extra: seq<Handle>)
    ensures Sorting(have, covered, extra) == Sort(managed, want)
  {
    have, covered, extra := {}, {}, [];
    for i := 0 to |managed|
      invariant Sorting(have, covered, extra) == Sort(managed[..i], want)
    {
      assert managed[..i + 1][..i] == managed[..i];
      var m := managed[i];
      if m.grant in want && m.grant !in have {
        have := have + {m.grant};
        covered := covered + {m.grant.At()};
        continue;
      }
      extra := extra + [m.handle];
    }
    assert managed[..|managed|] == managed;
  }

  // The adding loop, which runs to its end before the first deletion.
  method AddMissing(be: Backend, s: Sorting, desired: seq<Grant>) returns (added: nat, failed: bool, ghost failedAdds: set<Grant>)
    requires ValidBackend(be)
    modifies ObjectOf(be)
    ensures ValidBackend(be)
    ensures var a := AddAll(StartAdding(old(HostOf(be)), s), desired);
            HostOf(be) == a.host && added == a.added && failedAdds == a.failedAdds && failed == (a.failedAdds != {})
  {
    var have, covered := s.have, s.covered;
    var merges := be.UfwRef?;
    ghost var start := StartAdding(HostOf(be), s);
    added, failed, failedAdds := 0, false, {};
    for i := 0 to |desired|
      invariant ValidBackend(be)
      invariant Adding(HostOf(be), have, covered, added, failedAdds) == AddAll(start, desired[..i])
      invariant failed == (failedAdds != {})
    {
      var d := desired[i];
      AddAllNext(start, desired, i);
      if d in have || (merges && d.At() in covered) {
        continue;
      }
      have := have + {d};
      var outcome := AddRule(be, d);
      if outcome.HostRule? {
        covered := covered + {d.At()}; // the host's own rule decides
        continue;
      }
      if outcome.Failed? {
        failed := true;
        failedAdds := failedAdds + {d};
        continue;
      }
      covered := covered + {d.At()};
      added := added + 1;
    }
    assert desired[..|desired|] == desired;
  }

  method DeleteExtra(be: Backend, extra: seq<Handle>) returns (removed: nat, failed: bool, ghost failedDeletes: set<Handle>)
    requires ValidBackend(be)
    modifies ObjectOf(be)
    ensures ValidBackend(be)
    ensures var d := DeleteAll(Deleting(old(HostOf(be)), 0, {}), extra);
            HostOf(be) == d.host && removed == d.removed && failedDeletes == d.failedDeletes && failed == (d.failedDeletes != {})
  {
    ghost var start := Deleting(HostOf(be), 0, {});
    removed, failed, failedDeletes := 0, false, {};
    for j := 0 to |extra|
      invariant ValidBackend(be)
      invariant Deleting(HostOf(be), removed, failedDeletes) == DeleteAll(start, extra[..j])
      invariant failed == (failedDeletes != {})
    {
      DeleteAllNext(start, extra, j);
      var ok := DeleteByHandle(be, extra[j]);
      if !ok {
        failed := true;
        failedDeletes := failedDeletes + {extra[j]};
        continue;
      }
      removed := removed + 1;
    }
    assert extra[..|extra|] == extra;
  }

  method ReconcileAll(be: Backend, desired: seq<Grant>) returns (added: nat, removed: nat, failed: bool)
    requires ValidBackend(be)
    modifies ObjectOf(be)
    ensures ValidBackend(be)
    ensures HostOf(be) == SpecReconcileAll(old(HostOf(be)), desired).host
    ensures added == SpecReconcileAll(old(HostOf(be)), desired).added
    ensures removed == SpecReconcileAll(old(HostOf(be)), desired).removed
    ensures failed == SpecReconcileAll(old(HostOf(be)), desired).failed
  {
    var listing := ListManaged(be);
    if listing == None {
      return 0, 0, true;
    }
    var have, covered, extra := SortManaged(listing.value, Wanted(desired));
    var addFailed, deleteFailed;
    ghost var fa, fd;
    added, addFailed, fa := AddMissing(be, Sorting(have, covered, extra), desired);
    removed, deleteFailed, fd := DeleteExtra(be, extra);
    failed := addFailed || deleteFailed;
  }
}
