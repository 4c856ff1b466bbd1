// One-time codes (internal/auth/totp.go): the dynamic truncation of section 5.3 of
// RFC 4226 and the verification window of section 5.2 of RFC 6238.  The HMAC is a
// parameter: whatever 20 bytes it yields for a counter.
module Totp {
  import opened Net

  const STEP := 30
  const WINDOW := 1
  const DIGITS: nat := 6

  predicate Bytes(s: seq<int>) {
    forall i :: 0 <= i < |s| ==> 0 <= s[i] < 256
  }

  type Mac = s: seq<int> | |s| == 20 && Bytes(s) witness seq(20, _ => 0)

  // A key's HMAC-SHA1 of an 8-byte counter.
  type Hmac = nat -> Mac

  type Key = seq<int>

  // base32 decoding of a secret.
  type Decoder = string -> Option<Key>

  type KeyedHmac = Key -> Hmac

  // The key behind a secret; an undecodable secret has the empty key.
  function KeyOf(decode: Decoder, secret: string): Key {
    match decode(secret) case None => [] case Some(key) => key
  }

  function Offset(sum: Mac): (o: nat)
    ensures o + 3 < |sum|
  {
    sum[|sum| - 1] % 16
  }

  // hotp's shifts and masks, as arithmetic on disjoint bits.
  function Truncated(sum: Mac): (r: nat)
    ensures r < 0x8000_0000
  {
    var o := Offset(sum);
    sum[o] % 128 * 0x100_0000 + sum[o + 1] * 0x1_0000 + sum[o + 2] * 0x100 + sum[o + 3]
  }

  function BigEndian(bytes: seq<int>): int {
    if bytes == [] then 0 else BigEndian(bytes[..|bytes| - 1]) * 256 + bytes[|bytes| - 1]
  }

  lemma BigEndianOfFour(b: seq<int>)
    requires |b| == 4
    ensures BigEndian(b) == b[0] * 0x100_0000 + b[1] * 0x1_0000 + b[2] * 0x100 + b[3]
  {
    assert b[..3][..2] == b[..2] && b[..2][..1] == b[..1] && b[..1][..0] == [];
    assert BigEndian(b[..1]) == b[0];
    assert BigEndian(b[..2]) == BigEndian(b[..1]) * 256 + b[1];
    assert BigEndian(b[..3]) == BigEndian(b[..2]) * 256 + b[2];
  }

  // The RFC's reading: the low 31 bits of the four bytes at the offset.
  lemma TruncatedIsLow31Bits(sum: Mac)
    ensures Truncated(sum) == BigEndian(sum[Offset(sum)..Offset(sum) + 4]) % 0x8000_0000
  {
    var o := Offset(sum);
    var b := sum[o..o + 4];
    BigEndianOfFour(b);
    assert b[0] == sum[o] && b[1] == sum[o + 1] && b[2] == sum[o + 2] && b[3] == sum[o + 3];
    assert sum[o] == sum[o] / 128 * 128 + sum[o] % 128;
    assert BigEndian(b) == sum[o] / 128 * 0x8000_0000 + Truncated(sum);
  }

  // %0*d: the last `width` decimal digits, zero-padded.
  function Padded(n: nat, width: nat): (s: string)
    ensures |s| == width
    ensures forall i :: 0 <= i < width ==> '0' <= s[i] <= '9'
  {
    if width == 0 then "" else Padded(n / 10, width - 1) + ["0123456789"[n % 10]]
  }

  function Pow10(k: nat): (p: nat)
    ensures p >= 1
  {
    if k == 0 then 1 else 10 * Pow10(k - 1)
  }

  lemma {:induction false} PaddedInjective(m: nat, n: nat, width: nat)
    requires m < Pow10(width) && n < Pow10(width) && Padded(m, width) == Padded(n, width)
    ensures m == n
  {
    if width > 0 {
      var a, b := Padded(m, width), Padded(n, width);
      assert a[width - 1] == "0123456789"[m % 10] && b[width - 1] == "0123456789"[n % 10];
      assert m % 10 == n % 10;
      assert a[..width - 1] == Padded(m / 10, width - 1) && b[..width - 1] == Padded(n / 10, width - 1);
      PaddedInjective(m / 10, n / 10, width - 1);
    }
  }

  function Hotp(hmac: Hmac, counter: nat): (code: string)
    ensures |code| == DIGITS && forall i :: 0 <= i < DIGITS ==> '0' <= code[i] <= '9'
  {
    Padded(Truncated(hmac(counter)) % Pow10(DIGITS), DIGITS)
  }

  // hotp's loop for the modulus.
  method ComputeHotp(hmac: Hmac, counter: nat) returns (code: string)
    ensures code == Hotp(hmac, counter)
  {
    var sum := hmac(counter);
    var offset := sum[|sum| - 1] % 16;
    var truncated := sum[offset] % 128 * 0x100_0000 + sum[offset + 1] * 0x1_0000 + sum[offset + 2] * 0x100 + sum[offset + 3];
    var mod: nat := 1;
    for i := 0 to DIGITS
      invariant mod == Pow10(i)
    {
      mod := mod * 10;
    }
    code := Padded(truncated % mod, DIGITS);
  }

  // uint64(candidate): the counter before the epoch wraps around.
  function Wrapped(candidate: int): nat {
    candidate % 0x1_0000_0000_0000_0000
  }

  predicate Matches(hmac: Hmac, code: string, candidate: int) {
    Hotp(hmac, Wrapped(candidate)) == code
  }

  predicate NoMatch(hmac: Hmac, code: string, lo: int, hi: int) {
    forall c :: lo <= c < hi ==> !Matches(hmac, code, c)
  }

  function FirstMatch(hmac: Hmac, code: string, lo: int, hi: int): (r: Option<int>)
    ensures r.None? <==> NoMatch(hmac, code, lo, hi)
    ensures r.Some? ==> lo <= r.value < hi && Matches(hmac, code, r.value) && NoMatch(hmac, code, lo, r.value)
    decreases hi - lo
  {
    if lo >= hi then None
    else if Matches(hmac, code, lo) then Some(lo)
    else FirstMatch(hmac, code, lo + 1, hi)
  }

  // unicode.IsSpace.
  predicate Space(c: char) {
    var n := c as int;
    9 <= n <= 13 || n == 0x20 || n == 0x85 || n == 0xA0 || n == 0x1680 ||
    0x2000 <= n <= 0x200A || n == 0x2028 || n == 0x2029 || n == 0x202F || n == 0x205F || n == 0x3000
  }

  // strings.TrimSpace.
  function TrimSpace(s: string): (r: string)
    ensures r == "" || (!Space(r[0]) && !Space(r[|r| - 1]))
    ensures s != "" && !Space(s[0]) && !Space(s[|s| - 1]) ==> r == s
    ensures r == "" <==> forall i :: 0 <= i < |s| ==> Space(s[i])
  {
    if s == "" then ""
    else if Space(s[0]) then TrimSpace(s[1..])
    else if Space(s[|s| - 1]) then TrimSpace(s[..|s| - 1])
    else s
  }

  // The earliest counter of the window around t with this code.
  function Verify(hmac: Hmac, hasSecret: bool, code: string, t: int): (r: Option<int>)
    ensures r.Some? ==> t / STEP - WINDOW <= r.value <= t / STEP + WINDOW
  {
    if !hasSecret || code == "" then None else FirstMatch(hmac, TrimSpace(code), t / STEP - WINDOW, t / STEP + WINDOW + 1)
  }

  // The counter is the first within one 30-second step of time t that has the code.
  predicate Right(hmac: Hmac, code: string, t: int, counter: int) {
    t / 30 - 1 <= counter <= t / 30 + 1 && Hotp(hmac, counter % 0x1_0000_0000_0000_0000) == code &&
    forall c :: t / 30 - 1 <= c < counter ==> Hotp(hmac, c % 0x1_0000_0000_0000_0000) != code
  }

  lemma VerifyIs(hmac: Hmac, hasSecret: bool, code: string, t: int)
    ensures var r := Verify(hmac, hasSecret, code, t);
            (r.Some? ==> hasSecret && code != "" && Right(hmac, TrimSpace(code), t, r.value)) &&
            (hasSecret && code != "" && r.None? ==>
              forall c :: t / 30 - 1 <= c <= t / 30 + 1 ==> Hotp(hmac, c % 0x1_0000_0000_0000_0000) != TrimSpace(code))
  {
    hide Hotp, TrimSpace;
    var lo := t / 30 - 1;
    assert forall c :: !Matches(hmac, TrimSpace(code), c) <==> Hotp(hmac, c % 0x1_0000_0000_0000_0000) != TrimSpace(code);
    assert NoMatch(hmac, TrimSpace(code), lo, lo) by {
    }
  }

  method VerifyTOTPCounter(hmac: Hmac, hasSecret: bool, given: string, t: nat) returns (matched: Option<int>)
    ensures matched == Verify(hmac, hasSecret, given, t)
    ensures matched.Some? ==> hasSecret && given != "" && Right(hmac, TrimSpace(given), t, matched.value)
    ensures hasSecret && given != "" && matched.None? ==>
              forall c :: t / 30 - 1 <= c <= t / 30 + 1 ==> Hotp(hmac, c % 0x1_0000_0000_0000_0000) != TrimSpace(given)
  {
    hide Hotp, Wrapped, TrimSpace;
    VerifyIs(hmac, hasSecret, given, t);
    if !hasSecret || given == "" {
      return None;
    }
    var code := TrimSpace(given);
    var counter: int := t / STEP;
    for w := -WINDOW to WINDOW + 1
      invariant NoMatch(hmac, code, counter - WINDOW, counter + w)
    {
      var candidate := counter + w;
      var expected := ComputeHotp(hmac, Wrapped(candidate));
      if expected == code {
        assert Matches(hmac, code, candidate);
        return Some(candidate);
      }
    }
    return None;
  }

  // A code of another length than six is never right.
  lemma WrongLength(hmac: Hmac, code: string, t: int)
    requires |TrimSpace(code)| != DIGITS
    ensures Verify(hmac, true, code, t) == None
  {
    assert NoMatch(hmac, TrimSpace(code), t / STEP - WINDOW, t / STEP + WINDOW + 1);
  }

  // Space around a code makes no difference.
  lemma SpaceDoesNotMatter(hmac: Hmac, hasSecret: bool, code: string, t: int)
    requires TrimSpace(code) != ""
    ensures Verify(hmac, hasSecret, code, t) == Verify(hmac, hasSecret, TrimSpace(code), t)
  {
    var code1 := TrimSpace(code);
    assert TrimSpace(code1) == code1;
  }

  // An undecodable secret is not refused: a code is accepted exactly if the empty
  // key yields it for some counter of the window.
  lemma UndecodableSecretAccepts(decode: Decoder, hmac: KeyedHmac, secret: string, code: string, t: int)
    requires secret != "" && decode(secret) == None && code != ""
    ensures Verify(hmac(KeyOf(decode, secret)), secret != "", code, t).Some?
            <==> !NoMatch(hmac([]), TrimSpace(code), t / STEP - WINDOW, t / STEP + WINDOW + 1)
  {
    assert KeyOf(decode, secret) == [];
  }

  // A secret that decodes is verified with its key.
  lemma DecodedSecretCounts(decode: Decoder, hmac: KeyedHmac, secret: string, key: Key, code: string, t: int)
    requires secret != "" && decode(secret) == Some(key) && code != ""
    ensures Verify(hmac(KeyOf(decode, secret)), secret != "", code, t).Some?
            <==> exists c :: t / 30 - 1 <= c <= t / 30 + 1 && Hotp(hmac(key), c % 0x1_0000_0000_0000_0000) == TrimSpace(code)
  {
    VerifyIs(hmac(key), true, code, t);
    hide Hotp, TrimSpace, Verify;
  }

  // ---- the code as a number (section 5.3 of RFC 4226) ----

  // Decimal digits, read.
  function Value(code: string): int {
    if code == "" then 0 else 10 * Value(code[..|code| - 1]) + (code[|code| - 1] as int - '0' as int)
  }

  lemma {:induction false} PaddedValue(n: nat, width: nat)
    requires n < Pow10(width)
    ensures Value(Padded(n, width)) == n
  {
    if width > 0 {
      Tenth(n, Pow10(width - 1));
      PaddedValue(n / 10, width - 1);
      DigitIs(n % 10);
      OneDigitMore(Padded(n / 10, width - 1), "0123456789"[n % 10]);
    }
  }

  lemma DigitIs(d: nat)
    requires d < 10
    ensures "0123456789"[d] as int - '0' as int == d
  {
  }

  lemma Tenth(n: nat, p: nat)
    requires n < 10 * p
    ensures n / 10 < p && n == 10 * (n / 10) + n % 10
  {
  }

  lemma TruncatedIs(sum: Mac)
    ensures var o := sum[19] % 16;
            Truncated(sum) == sum[o] % 128 * 16_777_216 + sum[o + 1] * 65_536 + sum[o + 2] * 256 + sum[o + 3]
  {
  }

  lemma SixDigits(n: nat)
    ensures var code := Padded(n % Pow10(6), 6);
            Value(code) == n % 1_000_000
  {
    assert Pow10(6) == 1_000_000;
    PaddedValue(n % 1_000_000, 6);
  }

  // The code is the low 31 bits of the four bytes at the offset that the low four
  // bits of the last byte give, modulo a million, in six decimal digits.
  lemma HotpIs(hmac: Hmac, counter: nat)
    ensures var sum, code := hmac(counter), Hotp(hmac, counter);
            var o := sum[19] % 16;
            |code| == 6 && (forall i :: 0 <= i < 6 ==> '0' <= code[i] <= '9') &&
            Value(code) == (sum[o] % 128 * 16_777_216 + sum[o + 1] * 65_536 + sum[o + 2] * 256 + sum[o + 3]) % 1_000_000
  {
    TruncatedIs(hmac(counter));
    SixDigits(Truncated(hmac(counter)));
    hide Padded, Value, Pow10, Truncated;
  }

  // Six digits are their value.
  lemma {:induction false} ValueInjective(a: string, b: string)
    requires |a| == |b| && Value(a) == Value(b)
    requires forall i :: 0 <= i < |a| ==> '0' <= a[i] <= '9' && '0' <= b[i] <= '9'
    ensures a == b
  {
    if a != [] {
      var n := |a| - 1;
      LastDigit(Value(a[..n]), a[n] as int - '0' as int, Value(b[..n]), b[n] as int - '0' as int);
      ValueInjective(a[..n], b[..n]);
      hide Value;
      assert a == a[..n] + [a[n]] && b == b[..n] + [b[n]];
    }
  }

  lemma LastDigit(x: int, d: int, y: int, e: int)
    requires 0 <= d < 10 && 0 <= e < 10
    ensures 10 * x + d == 10 * y + e ==> x == y && d == e
  {
  }

  // The example of section 5.4 of RFC 4226.
  lemma TheExampleCode(hmac: Hmac, counter: nat)
    requires hmac(counter) == [0x1f, 0x86, 0x98, 0x69, 0x0e, 0x02, 0xca, 0x16, 0x61, 0x85,
                               0x50, 0xef, 0x7f, 0x19, 0xda, 0x8e, 0x94, 0x5b, 0x55, 0x5a]
    ensures Hotp(hmac, counter) == "872921"
  {
    HotpIs(hmac, counter);
    ExampleValue(Hotp(hmac, counter), hmac(counter));
  }

  lemma ExampleValue(code: string, sum: Mac)
    requires sum == [0x1f, 0x86, 0x98, 0x69, 0x0e, 0x02, 0xca, 0x16, 0x61, 0x85,
                     0x50, 0xef, 0x7f, 0x19, 0xda, 0x8e, 0x94, 0x5b, 0x55, 0x5a]
    requires |code| == 6 && forall i :: 0 <= i < 6 ==> '0' <= code[i] <= '9'
    requires var o := sum[19] % 16;
             Value(code) == (sum[o] % 128 * 16_777_216 + sum[o + 1] * 65_536 + sum[o + 2] * 256 + sum[o + 3]) % 1_000_000
    ensures code == "872921"
  {
    hide Value;
    assert Value(code) == 872921;
    ExampleDigits();
    ValueInjective(code, "872921");
  }

  lemma ExampleDigits()
    ensures Value("872921") == 872921
  {
    assert Value("") == 0;
    OneDigitMore("", '8');
    OneDigitMore("8", '7');
    OneDigitMore("87", '2');
    OneDigitMore("872", '9');
    OneDigitMore("8729", '2');
    OneDigitMore("87292", '1');
    assert "" + ['8'] == "8" && "8" + ['7'] == "87" && "87" + ['2'] == "872" && "872" + ['9'] == "8729" &&
           "8729" + ['2'] == "87292" && "87292" + ['1'] == "872921";
  }

  lemma OneDigitMore(code: string, c: char)
    ensures Value(code + [c]) == 10 * Value(code) + (c as int - '0' as int)
  {
    assert (code + [c])[..|code|] == code;
  }

  // What is left between i and j when all space around it is taken off.
  predicate Trims(s: string, i: nat, j: nat) {
    i <= j <= |s| && (forall k :: 0 <= k < i ==> Space(s[k])) && (forall k :: j <= k < |s| ==> Space(s[k])) &&
    (i < j ==> !Space(s[i]) && !Space(s[j - 1]))
  }

  lemma TrimsLater(s: string, i: nat, j: nat)
    requires s != "" && Space(s[0]) && Trims(s[1..], i, j)
    ensures Trims(s, i + 1, j + 1) && s[i + 1..j + 1] == s[1..][i..j]
  {
    hide Space;
    var rest := s[1..];
    forall k | 0 <= k < i + 1
      ensures Space(s[k])
    {
      assert k > 0 ==> s[k] == rest[k - 1];
    }
    forall k | j + 1 <= k < |s|
      ensures Space(s[k])
    {
      assert s[k] == rest[k - 1];
    }
    assert i < j ==> s[i + 1] == rest[i] && s[j] == rest[j - 1];
    assert forall k :: 0 <= k < j - i ==> s[i + 1..j + 1][k] == rest[i..j][k];
  }

  lemma TrimsSooner(s: string, i: nat, j: nat)
    requires s != "" && Space(s[|s| - 1]) && Trims(s[..|s| - 1], i, j)
    ensures Trims(s, i, j) && s[i..j] == s[..|s| - 1][i..j]
  {
    hide Space;
    var rest := s[..|s| - 1];
    assert forall k :: 0 <= k < |rest| ==> s[k] == rest[k];
  }

  // strings.TrimSpace takes off all space on either side and nothing else.
  lemma {:induction false} TrimSpaceIs(s: string) returns (i: nat, j: nat)
    ensures Trims(s, i, j) && TrimSpace(s) == s[i..j]
    decreases |s|
  {
    hide Space, Trims;
    if s == "" {
      i, j := 0, 0;
      TrimsAll(s);
    } else if Space(s[0]) {
      i, j := TrimSpaceIs(s[1..]);
      TrimsLater(s, i, j);
      i, j := i + 1, j + 1;
    } else if Space(s[|s| - 1]) {
      i, j := TrimSpaceIs(s[..|s| - 1]);
      TrimsSooner(s, i, j);
    } else {
      i, j := 0, |s|;
      TrimsAll(s);
    }
  }

  lemma TrimsAll(s: string)
    requires s == "" || (!Space(s[0]) && !Space(s[|s| - 1]))
    ensures Trims(s, 0, |s|)
  {
  }
}
