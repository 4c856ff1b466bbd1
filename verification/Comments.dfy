// Rule comments "<prefix>:<user>:<group>": how they are written, taken apart and
// used to select rules, and the text whose hash is a ufw rule's handle.
module Comments {

  predicate HasPrefix(s: string, p: string) {
    |p| <= |s| && s[..|p|] == p
  }

  predicate Alnum(c: char) {
    'A' <= c <= 'Z' || 'a' <= c <= 'z' || '0' <= c <= '9'
  }

  // backend.go nameRe.
  predicate ValidName(s: string) {
    1 <= |s| <= 64 && Alnum(s[0]) &&
    forall i :: 0 <= i < |s| ==> Alnum(s[i]) || s[i] == '_' || s[i] == '-'
  }

  // As the pattern reads: a letter or digit, then up to 63 letters, digits, '_' or '-'.
  lemma ValidNameIs(s: string)
    ensures ValidName(s)
            <==> s != "" && |s[1..]| <= 63 &&
                 ('A' <= s[0] <= 'Z' || 'a' <= s[0] <= 'z' || '0' <= s[0] <= '9') &&
                 forall c :: c in s[1..] ==> 'A' <= c <= 'Z' || 'a' <= c <= 'z' || '0' <= c <= '9' || c == '_' || c == '-'
  {
    if s != "" {
      var rest := s[1..];
      assert forall i :: 1 <= i < |s| ==> s[i] == rest[i - 1] && s[i] in rest;
      assert forall j :: 0 <= j < |rest| ==> rest[j] == s[j + 1];
      forall c | ValidName(s) && c in rest
        ensures 'A' <= c <= 'Z' || 'a' <= c <= 'z' || '0' <= c <= '9' || c == '_' || c == '-'
      {
        var j :| 0 <= j < |rest| && rest[j] == c;
        assert Alnum(s[j + 1]) || s[j + 1] == '_' || s[j + 1] == '-';
      }
    }
  }

  // commentFor: the group part is left out when there is no group.
  function CommentFor(prefix: string, user: string, group: string): string {
    if group == "" then prefix + ":" + user
    else prefix + ":" + user + ":" + group
  }

  function GuardComment(prefix: string): string {
    prefix + "-guard"
  }

  // strings.IndexByte, with |s| for "not there".
  function IndexOf(s: string, c: char): (i: nat)
    ensures i <= |s|
    ensures forall j :: 0 <= j < i ==> s[j] != c
    ensures i < |s| ==> s[i] == c
  {
    if s == "" then 0 else if s[0] == c then 0 else 1 + IndexOf(s[1..], c)
  }

  // splitComment.
  function SplitComment(prefix: string, comment: string): (string, string) {
    if !HasPrefix(comment, prefix + ":") then ("", "")
    else
      var rest := comment[|prefix| + 1..];
      var i := IndexOf(rest, ':');
      if i < |rest| then (rest[..i], rest[i + 1..]) else (rest, "")
  }

  function UserPrefix(prefix: string, user: string): string {
    prefix + ":" + user + ":"
  }

  // Manager.groupFromComment.
  function GroupFromComment(prefix: string, user: string, comment: string): string {
    var want := UserPrefix(prefix, user);
    if !HasPrefix(comment, want) then ""
    else
      var suffix := comment[|want|..];
      suffix[..IndexOf(suffix, ':')]
  }

  lemma IndexOfConcat(a: string, b: string, c: char)
    requires c !in a
    ensures IndexOf(a + [c] + b, c) == |a|
  {
    var s := a + [c] + b;
    assert s[|a|] == c;
    assert forall j :: 0 <= j < |a| ==> s[j] == a[j] && a[j] in a;
  }

  lemma IndexOfAbsent(a: string, c: char)
    requires c !in a
    ensures IndexOf(a, c) == |a|
  {
    assert forall j :: 0 <= j < |a| ==> a[j] in a;
  }

  lemma ValidNameHasNoColon(s: string)
    requires ValidName(s)
    ensures ':' !in s && s != ""
  {
    assert forall i :: 0 <= i < |s| ==> s[i] != ':';
  }

  // What was written is what is read back, exactly for the users without a ':'.
  lemma SplitInvertsComment(prefix: string, user: string, group: string)
    ensures HasPrefix(CommentFor(prefix, user, group), prefix + ":")
    ensures SplitComment(prefix, CommentFor(prefix, user, group)) == (user, group) <==> ':' !in user
  {
    var c := CommentFor(prefix, user, group);
    var want := prefix + ":";
    var rest := if group == "" then user else user + ":" + group;
    assert c == want + rest;
    assert c[..|want|] == want && c[|want|..] == rest;
    if ':' !in user {
      if group == "" {
        IndexOfAbsent(user, ':');
      } else {
        IndexOfConcat(user, group, ':');
        assert rest == user + [':'] + group;
        assert rest[..|user|] == user && rest[|user| + 1..] == group;
      }
    } else {
      var k :| 0 <= k < |user| && user[k] == ':';
      assert rest[k] == ':';
      var i := IndexOf(rest, ':');
      assert i <= k;
      assert |rest[..i]| < |user|;
    }
  }

  // Conversely, writing what was read gives the comment back, except for a
  // managed comment that ends at its first ':' after the prefix.
  lemma CommentInvertsSplit(prefix: string, comment: string)
    requires HasPrefix(comment, prefix + ":")
    ensures var (user, group) := SplitComment(prefix, comment);
            CommentFor(prefix, user, group) == comment
            <==> IndexOf(comment[|prefix| + 1..], ':') != |comment| - |prefix| - 2
  {
    var want := prefix + ":";
    var rest := comment[|want|..];
    assert comment == want + rest;
    var i := IndexOf(rest, ':');
    if i < |rest| {
      assert rest == rest[..i] + [':'] + rest[i + 1..];
      if i + 1 < |rest| {
        assert rest[i + 1..] != "";
        assert want + rest == prefix + ":" + rest[..i] + ":" + rest[i + 1..];
      } else {
        assert rest[i + 1..] == "";
        assert |CommentFor(prefix, rest[..i], "")| < |comment|;
      }
    } else {
      assert rest[..i] == rest;
    }
  }

  lemma GroupRoundTrip(prefix: string, user: string, group: string)
    requires ValidName(group)
    ensures GroupFromComment(prefix, user, CommentFor(prefix, user, group)) == group
  {
    ValidNameHasNoColon(group);
    var want := UserPrefix(prefix, user);
    var c := CommentFor(prefix, user, group);
    assert c == want + group;
    assert c[..|want|] == want && c[|want|..] == group;
    IndexOfAbsent(group, ':');
  }

  // A grouped rule of `user` splits into that user, whatever its group part is.
  lemma UserPrefixNamesOwner(prefix: string, user: string, comment: string)
    requires ':' !in user && HasPrefix(comment, UserPrefix(prefix, user))
    ensures HasPrefix(comment, prefix + ":")
    ensures SplitComment(prefix, comment).0 == user
  {
    var want := UserPrefix(prefix, user);
    var lead := prefix + ":";
    assert want[..|lead|] == lead;
    assert comment[..|lead|] == want[..|lead|];
    var rest := comment[|lead|..];
    var tail := comment[|want|..];
    assert comment == want + tail;
    assert rest == user + [':'] + tail;
    IndexOfConcat(user, tail, ':');
    assert rest[..|user|] == user;
  }

  // The "<prefix>:<user>:" filter selects exactly that user's grouped rules.
  lemma UserFilterExact(prefix: string, user: string, owner: string, group: string)
    requires ':' !in user && ':' !in owner
    ensures HasPrefix(CommentFor(prefix, owner, group), UserPrefix(prefix, user))
            <==> owner == user && group != ""
  {
    var c := CommentFor(prefix, owner, group);
    var want := UserPrefix(prefix, user);
    assert group != "" && owner == user ==> c == want + group;
    if HasPrefix(c, want) {
      UserPrefixNamesOwner(prefix, user, c);
      SplitInvertsComment(prefix, owner, group);
    }
  }

  // The guard's own rules are never mistaken for managed ones.
  lemma GuardIsNeverManaged(prefix: string)
    ensures !HasPrefix(GuardComment(prefix), prefix + ":")
  {
    var g := GuardComment(prefix);
    assert g[..|prefix| + 1][|prefix|] == '-';
    assert (prefix + ":")[|prefix|] == ':';
  }

  // ---- the text behind a ufw handle ----

  function Digit(d: nat): char
    requires d < 10
  {
    "0123456789"[d]
  }

  // %d for the port numbers ufw prints.
  function Decimal(n: nat): (s: string)
    ensures |s| >= 1
    ensures '|' !in s
  {
    if n < 10 then [Digit(n)] else Decimal(n / 10) + [Digit(n % 10)]
  }

  lemma {:induction false} DecimalInjective(m: nat, n: nat)
    requires Decimal(m) == Decimal(n)
    ensures m == n
  {
    var a, b := Decimal(m), Decimal(n);
    assert a[|a| - 1] == Digit(m % 10);
    assert b[|b| - 1] == Digit(n % 10);
    assert m % 10 == n % 10;
    if m >= 10 && n >= 10 {
      assert a[..|a| - 1] == Decimal(m / 10);
      assert b[..|b| - 1] == Decimal(n / 10);
      DecimalInjective(m / 10, n / 10);
    }
  }

  // synthHandle's "%s|%s|%d|%s".
  function HandleText(comment: string, ip: string, port: nat, proto: string): string {
    comment + "|" + ip + "|" + Decimal(port) + "|" + proto
  }

  // If the tails hold no '|', the last '|' splits both texts at the same place.
  lemma LastBarSplits(a: string, x: string, b: string, y: string)
    requires '|' !in x && '|' !in y
    requires a + "|" + x == b + "|" + y
    ensures a == b && x == y
  {
    var s, t := a + "|" + x, b + "|" + y;
    assert s[|a|] == '|' && t[|b|] == '|';
    assert forall k :: |a| < k < |s| ==> s[k] == x[k - |a| - 1] && x[k - |a| - 1] in x;
    assert forall k :: |b| < k < |t| ==> t[k] == y[k - |b| - 1] && y[k - |b| - 1] in y;
    assert |a| == |b|;
    assert a == s[..|a|] && b == t[..|b|];
    assert x == s[|a| + 1..] && y == t[|b| + 1..];
  }

  // The hashed text determines all four fields, although a comment may hold '|'.
  lemma HandleTextInjective(c1: string, ip1: string, port1: nat, proto1: string,
                            c2: string, ip2: string, port2: nat, proto2: string)
    requires '|' !in ip1 && '|' !in ip2 && '|' !in proto1 && '|' !in proto2
    requires HandleText(c1, ip1, port1, proto1) == HandleText(c2, ip2, port2, proto2)
    ensures c1 == c2 && ip1 == ip2 && port1 == port2 && proto1 == proto2
  {
    LastBarSplits(c1 + "|" + ip1 + "|" + Decimal(port1), proto1,
                  c2 + "|" + ip2 + "|" + Decimal(port2), proto2);
    LastBarSplits(c1 + "|" + ip1, Decimal(port1), c2 + "|" + ip2, Decimal(port2));
    LastBarSplits(c1, ip1, c2, ip2);
    DecimalInjective(port1, port2);
  }
}
