// Order-preserving filters over sequences and the laws the rule lists need.
module Seqs {
  function Keep<T(!new)>(s: seq<T>, p: T -> bool): (r: seq<T>)
    ensures |r| <= |s|
    ensures forall x :: x in r <==> x in s && p(x)
  {
    if s == [] then []
    else if p(s[0]) then [s[0]] + Keep(s[1..], p)
    else Keep(s[1..], p)
  }

  lemma {:induction false} KeepConcat<T(!new)>(a: seq<T>, b: seq<T>, p: T -> bool)
    ensures Keep(a + b, p) == Keep(a, p) + Keep(b, p)
  {
    if a == [] {
      assert a + b == b;
    } else {
      assert (a + b)[1..] == a[1..] + b;
      KeepConcat(a[1..], b, p);
    }
  }

  // One more element, as a loop over s meets it.
  lemma KeepNext<T(!new)>(s: seq<T>, i: nat, p: T -> bool)
    requires i < |s|
    ensures Keep(s[..i + 1], p) == if p(s[i]) then Keep(s[..i], p) + [s[i]] else Keep(s[..i], p)
  {
    assert s[..i + 1] == s[..i] + [s[i]];
    KeepConcat(s[..i], [s[i]], p);
    assert Keep([s[i]], p) == if p(s[i]) then [s[i]] else [];
  }

  lemma {:induction false} KeepAll<T(!new)>(s: seq<T>, p: T -> bool)
    requires forall x :: x in s ==> p(x)
    ensures Keep(s, p) == s
  {
    if s != [] {
      KeepAll(s[1..], p);
    }
  }

  lemma {:induction false} KeepNone<T(!new)>(s: seq<T>, p: T -> bool)
    requires forall x :: x in s ==> !p(x)
    ensures Keep(s, p) == []
  {
    if s != [] {
      KeepNone(s[1..], p);
    }
  }

  lemma {:induction false} KeepCommutes<T(!new)>(s: seq<T>, p: T -> bool, q: T -> bool)
    ensures Keep(Keep(s, p), q) == Keep(Keep(s, q), p)
  {
    if s != [] {
      KeepCommutes(s[1..], p, q);
      var rp, rq := Keep(s[1..], p), Keep(s[1..], q);
      if p(s[0]) {
        assert ([s[0]] + rp)[1..] == rp;
      }
      if q(s[0]) {
        assert ([s[0]] + rq)[1..] == rq;
      }
    }
  }

  // Filters that agree on the elements agree on the result.
  lemma {:induction false} KeepSame<T(!new)>(s: seq<T>, p: T -> bool, q: T -> bool)
    requires forall x :: x in s ==> p(x) == q(x)
    ensures Keep(s, p) == Keep(s, q)
  {
    if s != [] {
      KeepSame(s[1..], p, q);
    }
  }

  // Filtering twice is filtering by both.
  lemma {:induction false} KeepBoth<T(!new)>(s: seq<T>, p: T -> bool, q: T -> bool, both: T -> bool)
    requires forall x :: x in s ==> both(x) == (p(x) && q(x))
    ensures Keep(Keep(s, p), q) == Keep(s, both)
  {
    if s != [] {
      KeepBoth(s[1..], p, q, both);
      if p(s[0]) {
        assert ([s[0]] + Keep(s[1..], p))[1..] == Keep(s[1..], p);
      }
    }
  }

  // A list that ends with everything p selects starts with everything else.
  lemma SelectionAtTail<T(!new)>(front: seq<T>, tail: seq<T>, p: T -> bool, notp: T -> bool)
    requires forall x :: notp(x) == !p(x)
    requires Keep(front + tail, p) == tail
    ensures Keep(front + tail, notp) == front
  {
    KeepConcat(front, tail, p);
    KeepConcat(front, tail, notp);
    assert forall x :: x in tail ==> x in Keep(front + tail, p);
    KeepAll(tail, p);
    KeepNone(tail, notp);
    var kept := Keep(front, p);
    assert |kept| == 0;
    assert forall x :: x in front ==> (x in kept <==> p(x));
    KeepAll(front, notp);
  }

  lemma NonEmptyHasMember<T(!new)>(s: seq<T>)
    ensures s != [] ==> exists x :: x in s
  {
    if s != [] {
      assert s[0] in s;
    }
  }
}
