// The ordered guard for a set of managed ports (nft.go guardLayout): the
// loopback bypass first, then one drop per distinct valid port and protocol.
module GuardLayout {
  import opened Net
  import opened Seqs

  // The zero PortProto stands for the loopback bypass.
  const BYPASS := PortProto(0, OtherProto(""))

  predicate ValidPP(p: PortProto) {
    ValidPort(p.port, p.proto)
  }

  // sort.Slice's order, on valid entries ("tcp" sorts before "udp").
  predicate Before(a: PortProto, b: PortProto) {
    a.port < b.port || (a.port == b.port && a.proto.Tcp? && b.proto.Udp?)
  }

  predicate Sorted(s: seq<PortProto>) {
    forall i, j :: 0 <= i < j < |s| ==> Before(s[i], s[j])
  }

  function Insert(p: PortProto, s: seq<PortProto>): (r: seq<PortProto>)
    ensures forall x :: x in r <==> x == p || x in s
  {
    if s == [] then [p]
    else if Before(p, s[0]) then [p] + s
    else if p == s[0] then s
    else [s[0]] + Insert(p, s[1..])
  }

  function Drops(ports: seq<PortProto>): (r: seq<PortProto>)
    ensures forall x :: x in r <==> x in ports && ValidPP(x)
  {
    if ports == [] then []
    else if ValidPP(ports[0]) then Insert(ports[0], Drops(ports[1..]))
    else Drops(ports[1..])
  }

  function Layout(ports: seq<PortProto>): seq<PortProto> {
    var drops := Drops(ports);
    if drops == [] then [] else [BYPASS] + drops
  }

  lemma {:induction false} InsertSorted(p: PortProto, s: seq<PortProto>)
    requires ValidPP(p) && Sorted(s) && forall x :: x in s ==> ValidPP(x)
    ensures Sorted(Insert(p, s))
  {
    if s != [] && !Before(p, s[0]) && p != s[0] {
      assert s[0] in s;
      InsertSorted(p, s[1..]);
      var r := Insert(p, s[1..]);
      forall j | 0 <= j < |r|
        ensures Before(s[0], r[j])
      {
        assert r[j] in r;
        if r[j] != p {
          var k :| 0 <= k < |s[1..]| && s[1..][k] == r[j];
          assert s[k + 1] == r[j];
        }
      }
    }
  }

  // Sorted in the strict order, so without duplicates as well.
  lemma {:induction false} DropsSorted(ports: seq<PortProto>)
    ensures Sorted(Drops(ports))
  {
    if ports != [] {
      DropsSorted(ports[1..]);
      if ValidPP(ports[0]) {
        InsertSorted(ports[0], Drops(ports[1..]));
      }
    }
  }

  // A strictly sorted list is determined by its elements.
  lemma {:induction false} SortedUnique(a: seq<PortProto>, b: seq<PortProto>)
    requires Sorted(a) && Sorted(b)
    requires forall x :: x in a <==> x in b
    ensures a == b
  {
    NonEmptyHasMember(b);
    if a != [] {
      assert a[0] in a && a[0] in b;
      var i :| 0 <= i < |b| && b[i] == a[0];
      assert b[0] in a;
      var j :| 0 <= j < |a| && a[j] == b[0];
      assert a[0] == b[0];
      forall x
        ensures x in a[1..] <==> x in b[1..]
      {
        if x in a[1..] {
          var k :| 0 <= k < |a[1..]| && a[1..][k] == x;
          assert a[k + 1] == x && Before(a[0], a[k + 1]);
          assert x in b;
        }
        if x in b[1..] {
          var k :| 0 <= k < |b[1..]| && b[1..][k] == x;
          assert b[k + 1] == x && Before(b[0], b[k + 1]);
          assert x in a;
        }
      }
      SortedUnique(a[1..], b[1..]);
    }
  }

  predicate SameValidPorts(a: seq<PortProto>, b: seq<PortProto>) {
    (forall x :: x in a && ValidPP(x) ==> x in b) &&
    (forall x :: x in b && ValidPP(x) ==> x in a)
  }

  // The guard depends on the set of valid ports, and on nothing else: order,
  // repetition and invalid entries do not show.
  lemma LayoutIsTheSet(a: seq<PortProto>, b: seq<PortProto>)
    ensures Layout(a) == Layout(b) <==> SameValidPorts(a, b)
  {
    if SameValidPorts(a, b) {
      DropsSorted(a);
      DropsSorted(b);
      SortedUnique(Drops(a), Drops(b));
    }
    if Layout(a) == Layout(b) {
      if Drops(a) != [] {
        assert Layout(a)[1..] == Drops(a);
      }
      if Drops(b) != [] {
        assert Layout(b)[1..] == Drops(b);
      }
      assert Drops(a) == Drops(b);
    }
  }

  // What a layout says: nothing, or the bypass and then exactly the valid ports,
  // each once and in order.
  lemma LayoutMeaning(ports: seq<PortProto>)
    ensures var w := Layout(ports);
            w == [] <==> forall p :: p in ports ==> !ValidPP(p)
    ensures var w := Layout(ports);
            w != [] ==> w[0] == BYPASS && Sorted(w[1..]) &&
                        forall p :: p in w[1..] <==> p in ports && ValidPP(p)
  {
    DropsSorted(ports);
    var d := Drops(ports);
    if d != [] {
      assert d[0] in d;
      assert Layout(ports)[1..] == d;
    }
  }

  // sort.Slice, for the entries of one guard.
  method SortPorts(drops: seq<PortProto>) returns (r: seq<PortProto>)
    requires forall x :: x in drops ==> ValidPP(x)
    ensures Sorted(r)
    ensures forall x :: x in r <==> x in drops
  {
    r := [];
    for i := 0 to |drops|
      invariant Sorted(r)
      invariant forall x :: x in r <==> x in drops[..i]
    {
      InsertSorted(drops[i], r);
      r := Insert(drops[i], r);
    }
    assert drops[..|drops|] == drops;
  }

  method MakeLayout(ports: seq<PortProto>) returns (want: seq<PortProto>)
    ensures want == Layout(ports)
  {
    var seen: set<PortProto> := {};
    var drops: seq<PortProto> := [];
    for i := 0 to |ports|
      invariant forall x :: x in seen <==> x in drops
      invariant forall x :: x in drops <==> x in ports[..i] && ValidPP(x)
    {
      var p := ports[i];
      if !ValidPP(p) || p in seen {
        continue;
      }
      seen := seen + {p};
      drops := drops + [p];
    }
    assert ports[..|ports|] == ports;
    NonEmptyHasMember(Drops(ports));
    if |drops| == 0 {
      return [];
    }
    assert drops[0] in drops;
    var sorted := SortPorts(drops);
    DropsSorted(ports);
    SortedUnique(sorted, Drops(ports));
    want := [BYPASS] + sorted;
  }
}
