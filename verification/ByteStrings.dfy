/** Byte strings, their unsigned lexicographic order, and decimal notation. */
module ByteStrings {
  type Byte = b: int | 0 <= b < 0x100
  type Bytes = seq<Byte>

  const U64_MAX: nat := 0xFFFF_FFFF_FFFF_FFFF
  const I64_MAX: nat := 0x7FFF_FFFF_FFFF_FFFF
  type U64 = n: int | 0 <= n <= 0xFFFF_FFFF_FFFF_FFFF

  const DIGIT_ZERO: Byte := 0x30
  const COLON: Byte := 0x3A
  const MINUS: Byte := 0x2D
  const SLASH: Byte := 0x2F
  const BACKSLASH: Byte := 0x5C
  const QUESTION: Byte := 0x3F

  predicate IsDigit(b: Byte) {
    0x30 <= b <= 0x39
  }

  predicate AllDigits(s: Bytes) {
    forall i :: 0 <= i < |s| ==> IsDigit(s[i])
  }

  /** The bytes of an ASCII literal. */
  function Ascii(s: string): (b: Bytes)
    requires forall i :: 0 <= i < |s| ==> s[i] < 128 as char
    ensures |b| == |s|
  {
    seq(|s|, i requires 0 <= i < |s| => s[i] as int)
  }

  function LowerByte(b: Byte): Byte {
    if 0x41 <= b <= 0x5A then b + 0x20 else b
  }

  /** ASCII letters in lower case. */
  function Lower(s: Bytes): (r: Bytes)
    ensures |r| == |s|
  {
    seq(|s|, i requires 0 <= i < |s| => LowerByte(s[i]))
  }

  /** Equal but for the case of ASCII letters. */
  predicate EqualButForCase(a: Bytes, b: Bytes) {
    |a| == |b| && forall i :: 0 <= i < |a| ==> SameLetter(a[i], b[i])
  }

  predicate SameLetter(a: Byte, b: Byte) {
    a == b || (0x41 <= a <= 0x5A && b == a + 0x20) || (0x41 <= b <= 0x5A && a == b + 0x20)
  }

  lemma LowerIgnoresCase(a: Bytes, b: Bytes)
    ensures Lower(a) == Lower(b) <==> EqualButForCase(a, b)
  {
    if EqualButForCase(a, b) {
      assert forall i :: 0 <= i < |a| ==> SameLetter(a[i], b[i]) && Lower(a)[i] == Lower(b)[i];
    } else if |a| == |b| {
      var i :| 0 <= i < |a| && !SameLetter(a[i], b[i]);
      assert Lower(a)[i] != Lower(b)[i];
    }
  }

  /** Slashes for backslashes. */
  function Normalized(s: Bytes): Bytes {
    seq(|s|, i requires 0 <= i < |s| => if s[i] == BACKSLASH then SLASH else s[i])
  }

  /** Two paths are the same after that iff they only differ where both have a separator. */
  lemma NormalizedIgnoresSeparators(a: Bytes, b: Bytes)
    ensures Normalized(a) == Normalized(b)
       <==> |a| == |b| && forall i :: 0 <= i < |a| ==> a[i] == b[i] || {a[i], b[i]} == {0x2F, 0x5C}
    ensures 0x5C !in Normalized(a)
  {
    if |a| == |b| {
      forall i | 0 <= i < |a|
        ensures Normalized(a)[i] == Normalized(b)[i] <==> a[i] == b[i] || {a[i], b[i]} == {0x2F, 0x5C}
      {
        assert a[i] in {a[i], b[i]} && b[i] in {a[i], b[i]};
      }
    }
  }

  /** `s` holds `part` starting at offset `at`. */
  predicate HoldsAt(s: Bytes, at: nat, part: Bytes) {
    at + |part| <= |s| && s[at..at + |part|] == part
  }

  lemma HoldsAtSplit(s: Bytes, at: nat, left: Bytes, right: Bytes)
    ensures HoldsAt(s, at, left + right) <==> HoldsAt(s, at, left) && HoldsAt(s, at + |left|, right)
  {
    if HoldsAt(s, at, left + right) {
      assert left == (left + right)[..|left|] == s[at..at + |left|];
      assert right == (left + right)[|left|..] == s[at + |left|..at + |left| + |right|];
    }
  }

  lemma ConcatAssociative<T>(a: seq<T>, b: seq<T>, c: seq<T>)
    ensures a + b + c == a + (b + c)
  {
  }

  lemma HoldsAtByte(s: Bytes, at: nat, part: Bytes, i: nat)
    requires HoldsAt(s, at, part) && i < |part|
    ensures s[at + i] == part[i]
  {
    assert s[at..at + |part|][i] == part[i];
  }

  // ----- unsigned lexicographic order ---------------------------------------------------

  /** raw_byte_less: lexicographic comparison of unsigned bytes. */
  predicate Less(a: Bytes, b: Bytes) {
    if b == [] then false
    else if a == [] then true
    else a[0] < b[0] || (a[0] == b[0] && Less(a[1..], b[1..]))
  }

  /** The strings agree before byte `k`, which is smaller in the first one. */
  predicate FirstDifference(a: Bytes, b: Bytes, k: nat) {
    k < |a| && k < |b| && a[..k] == b[..k] && a[k] < b[k]
  }

  /** The first differing byte decides, and a proper prefix comes first. */
  lemma {:induction false} LessIffFirstDifference(a: Bytes, b: Bytes)
    ensures Less(a, b) <==> a < b || exists k: nat :: FirstDifference(a, b, k)
  {
    if a == [] || b == [] {
    } else if a[0] != b[0] {
      assert FirstDifference(a, b, 0) <==> a[0] < b[0];
      assert forall k: nat :: FirstDifference(a, b, k) ==> k == 0;
    } else {
      LessIffFirstDifference(a[1..], b[1..]);
      assert a == [a[0]] + a[1..] && b == [b[0]] + b[1..];
      assert a < b <==> a[1..] < b[1..];
      forall k: nat ensures FirstDifference(a, b, k) <==> k > 0 && FirstDifference(a[1..], b[1..], k - 1) {
        LaterDifference(a, b, k);
      }
      if k: nat :| FirstDifference(a[1..], b[1..], k) { assert FirstDifference(a, b, k + 1); }
    }
  }

  lemma LaterDifference(a: Bytes, b: Bytes, k: nat)
    requires a != [] && b != [] && a[0] == b[0]
    ensures FirstDifference(a, b, k) <==> k > 0 && FirstDifference(a[1..], b[1..], k - 1)
  {
    if 0 < k < |a| && k < |b| {
      assert a[..k] == [a[0]] + a[1..][..k - 1] && b[..k] == [b[0]] + b[1..][..k - 1];
      assert a[..k][1..] == a[1..][..k - 1] && b[..k][1..] == b[1..][..k - 1];
    }
  }

  lemma {:induction false} LessIsTotal(a: Bytes, b: Bytes)
    ensures a != b ==> Less(a, b) || Less(b, a)
  {
    if a != [] && b != [] && a[0] == b[0] {
      LessIsTotal(a[1..], b[1..]);
      assert a == [a[0]] + a[1..] && b == [b[0]] + b[1..];
    }
  }

  lemma {:induction false} LessIsAsymmetric(a: Bytes, b: Bytes)
    ensures !(Less(a, b) && Less(b, a)) && !Less(a, a)
  {
    if a != [] {
      LessIsAsymmetric(a[1..], if b == [] then [] else b[1..]);
    }
  }

  lemma {:induction false} LessIsTransitive(a: Bytes, b: Bytes, c: Bytes)
    requires Less(a, b) && Less(b, c)
    ensures Less(a, c)
  {
    if a != [] && a[0] == b[0] == c[0] {
      LessIsTransitive(a[1..], b[1..], c[1..]);
    }
  }

  // ----- decimal notation -----------------------------------------------------------------

  /** std::to_string of an unsigned number. */
  function Decimal(n: nat): (d: Bytes)
    ensures |d| > 0
  {
    if n < 10 then [0x30 + n] else Decimal(n / 10) + [0x30 + n % 10]
  }

  /** The number a digit string denotes. */
  function Number(d: Bytes): nat
    requires AllDigits(d)
  {
    if d == [] then 0 else Number(d[..|d| - 1]) * 10 + (d[|d| - 1] - 0x30)
  }

  /** Digits without a superfluous leading zero. */
  predicate Canonical(d: Bytes) {
    |d| > 0 && AllDigits(d) && (|d| > 1 ==> d[0] != DIGIT_ZERO)
  }

  lemma {:induction false} DecimalIsCanonical(n: nat)
    ensures Canonical(Decimal(n)) && Number(Decimal(n)) == n
    ensures Decimal(n)[0] == DIGIT_ZERO <==> n == 0
  {
    if n >= 10 {
      DecimalIsCanonical(n / 10);
      var d := Decimal(n);
      assert d[..|d| - 1] == Decimal(n / 10);
    }
  }

  lemma {:induction false} CanonicalIsDecimal(d: Bytes)
    requires Canonical(d)
    ensures Decimal(Number(d)) == d
  {
    var front := d[..|d| - 1];
    if front == [] {
      assert d == [d[0]];
    } else {
      assert front[0] != DIGIT_ZERO;
      CanonicalIsDecimal(front);
      DecimalIsCanonical(Number(front));
      assert Number(front) > 0;
      assert d == front + [d[|d| - 1]];
    }
  }

  lemma {:induction false} NumberMonotone(d: Bytes, k: nat)
    requires AllDigits(d) && k <= |d|
    ensures Number(d[..k]) <= Number(d)
    decreases |d|
  {
    if k < |d| {
      var front := d[..|d| - 1];
      assert front[..k] == d[..k];
      NumberMonotone(front, k);
    } else {
      assert d[..k] == d;
    }
  }

  function PowerOfTen(k: nat): nat {
    if k == 0 then 1 else 10 * PowerOfTen(k - 1)
  }

  lemma {:induction false} DecimalLength(n: nat, k: nat)
    requires k > 0 && n < PowerOfTen(k)
    ensures |Decimal(n)| <= k
  {
    if n >= 10 {
      DecimalLength(n / 10, k - 1);
    }
  }

  /** A uint64 is written with at most twenty digits. */
  lemma U64Digits(n: nat)
    requires n <= U64_MAX
    ensures |Decimal(n)| <= 20
  {
    assert PowerOfTen(5) == 100000;
    assert PowerOfTen(10) == 10000000000 by { assert PowerOfTen(7) == 10000000; }
    assert PowerOfTen(15) == 1000000000000000 by { assert PowerOfTen(12) == 1000000000000; }
    assert PowerOfTen(20) == 100000000000000000000 by { assert PowerOfTen(17) == 100000000000000000; }
    DecimalLength(n, 20);
  }

  /** The end of the run of digits that starts at `at`. */
  function DigitRunEnd(s: Bytes, at: nat): (end: nat)
    requires at <= |s|
    ensures at <= end <= |s|
    ensures AllDigits(s[at..end])
    ensures end < |s| ==> !IsDigit(s[end])
    decreases |s| - at
  {
    if at < |s| && IsDigit(s[at]) then
      var end := DigitRunEnd(s, at + 1);
      assert s[at..end] == [s[at]] + s[at + 1..end];
      end
    else
      assert s[at..at] == [];
      at
  }

  lemma NumberStep(d: Bytes, k: nat)
    requires AllDigits(d) && k < |d|
    ensures Number(d[..k + 1]) == Number(d[..k]) * 10 + (d[k] - 0x30)
  {
    assert d[..k + 1][..k] == d[..k];
  }

  lemma DigitRunStep(s: Bytes, at: nat)
    requires at <= |s|
    ensures at < |s| && IsDigit(s[at]) ==> DigitRunEnd(s, at) == DigitRunEnd(s, at + 1)
    ensures at < |s| && IsDigit(s[at]) <==> DigitRunEnd(s, at) > at
  {
  }

  /** A digit string followed by a non-digit is exactly the run found at its start. */
  lemma {:induction false} DigitRunIs(s: Bytes, at: nat, d: Bytes)
    requires HoldsAt(s, at, d) && AllDigits(d)
    requires at + |d| < |s| ==> !IsDigit(s[at + |d|])
    ensures DigitRunEnd(s, at) == at + |d|
    decreases |d|
  {
    if d != [] {
      HoldsAtByte(s, at, d, 0);
      HoldsAtSplit(s, at, [d[0]], d[1..]);
      assert d == [d[0]] + d[1..];
      DigitRunIs(s, at + 1, d[1..]);
    }
  }
}
