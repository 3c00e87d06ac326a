/**
  Natural ordering of paths (libtorrent_adapter.cpp): digit runs compare by value, other bytes as
  unsigned bytes, and paths that compare equal so far compare byte by byte from the start.
*/
module NaturalOrder {
  import opened ByteStrings
  import opened Numbers

  // ----- digit runs by value -----------------------------------------------------------------------

  lemma TenTimes(lead: nat, power: nat)
    ensures lead * power * 10 == lead * (10 * power)
  {
  }

  lemma {:induction false} NumberFront(d: Bytes)
    requires AllDigits(d) && d != []
    ensures Number(d) == (d[0] - 0x30) * PowerOfTen(|d| - 1) + Number(d[1..])
  {
    var n := |d| - 1;
    if n > 0 {
      NumberFront(d[..n]);
      assert d[..n][1..] == d[1..][..n - 1];
      TenTimes(d[0] - 0x30, PowerOfTen(n - 1));
    }
  }

  lemma {:induction false} NumberBound(d: Bytes)
    requires AllDigits(d)
    ensures Number(d) < PowerOfTen(|d|)
  {
    if d != [] { NumberBound(d[..|d| - 1]); }
  }

  lemma {:induction false} PowersGrow(j: nat, k: nat)
    requires j <= k
    ensures 0 < PowerOfTen(j) <= PowerOfTen(k)
  {
    if j < k { PowersGrow(j, k - 1); } else if k > 0 { PowersGrow(j - 1, k - 1); }
  }

  lemma {:induction false} SameLengthByValue(a: Bytes, b: Bytes)
    requires AllDigits(a) && AllDigits(b) && |a| == |b|
    ensures Less(a, b) <==> Number(a) < Number(b)
  {
    if a != [] {
      NumberFront(a);
      NumberFront(b);
      SameLengthByValue(a[1..], b[1..]);
      NumberBound(a[1..]);
      NumberBound(b[1..]);
      LeadDecides(a[0] - 0x30, b[0] - 0x30, PowerOfTen(|a| - 1), Number(a[1..]), Number(b[1..]));
    }
  }

  lemma LeadDecides(x: nat, y: nat, power: nat, low: nat, low': nat)
    requires low < power && low' < power
    ensures x < y ==> x * power + low < y * power + low'
    ensures y < x ==> x * power + low > y * power + low'
  {
    if x < y { NextMultiple(x, y, power); }
    if y < x { NextMultiple(y, x, power); }
  }

  /** Of two digit strings without leading zeros, the shorter is the smaller number. */
  lemma ShorterIsSmaller(a: Bytes, b: Bytes)
    requires AllDigits(a) && AllDigits(b) && |a| < |b| && b[0] != DIGIT_ZERO
    ensures Number(a) < Number(b)
  {
    NumberBound(a);
    NumberFront(b);
    PowersGrow(|a|, |b| - 1);
    NextMultiple(0, b[0] - 0x30, PowerOfTen(|b| - 1));
  }

  lemma {:induction false} LeadingZeros(d: Bytes, zeros: nat)
    requires AllDigits(d) && zeros <= |d| && forall i :: 0 <= i < zeros ==> d[i] == DIGIT_ZERO
    ensures Number(d[zeros..]) == Number(d)
    decreases zeros
  {
    if zeros > 0 {
      NumberFront(d);
      LeadingZeros(d[1..], zeros - 1);
      assert d[1..][zeros - 1..] == d[zeros..];
    }
  }

  // ----- tokens -----------------------------------------------------------------------------------------

  datatype Token = ByteToken(byte: Byte) | NumberToken(value: nat)

  /** What the comparison sees of a path from an offset on. */
  function Tokens(s: Bytes, from: nat := 0): seq<Token>
    requires from <= |s|
    decreases |s| - from
  {
    if from == |s| then []
    else if IsDigit(s[from]) then
      [NumberToken(Number(s[from..DigitRunEnd(s, from)]))] + Tokens(s, DigitRunEnd(s, from))
    else [ByteToken(s[from])] + Tokens(s, from + 1)
  }

  function Sign(a: int, b: int): int {
    if a < b then -1 else if a > b then 1 else 0
  }

  /** A number stands where its digits stand among the bytes. */
  function CompareToken(a: Token, b: Token): int {
    match (a, b)
    case (NumberToken(x), NumberToken(y)) => Sign(x, y)
    case (ByteToken(x), ByteToken(y)) => Sign(x, y)
    case (NumberToken(_), ByteToken(y)) => Sign(0x30, y)
    case (ByteToken(x), NumberToken(_)) => Sign(x, 0x30)
  }

  /** The first difference decides; 0 when one list is a prefix of the other. */
  function CompareTokens(a: seq<Token>, b: seq<Token>): int {
    if a == [] || b == [] then 0
    else if CompareToken(a[0], b[0]) != 0 then CompareToken(a[0], b[0])
    else CompareTokens(a[1..], b[1..])
  }

  /** natural_path_less. */
  predicate NaturalLess(a: Bytes, b: Bytes) {
    var c := CompareTokens(Tokens(a), Tokens(b));
    c < 0 || (c == 0 && Less(a, b))
  }

  // ----- the code ------------------------------------------------------------------------------------------

  method ComparePathBytes(left: Bytes, right: Bytes) returns (r: int)
    ensures r < 0 <==> Less(left, right)
    ensures r == 0 <==> left == right
  {
    var count := if |left| < |right| then |left| else |right|;
    for index := 0 to count
      invariant left[..index] == right[..index]
      invariant Less(left, right) == Less(left[index..], right[index..])
    {
      if left[index] != right[index] {
        return if left[index] < right[index] then -1 else 1;
      }
      assert left[index..][1..] == left[index + 1..] && right[index..][1..] == right[index + 1..];
    }
    assert left[..count] == right[..count];
    if |left| == |right| {
      assert left == left[..count] && right == right[..count];
      LessIsAsymmetric(left, right);
      return 0;
    }
    r := if |left| < |right| then -1 else 1;
  }

  /** One of the two loops over a digit run. */
  method SkipDigits(s: Bytes, offset: nat) returns (end: nat)
    requires offset <= |s|
    ensures end == DigitRunEnd(s, offset)
  {
    end := offset;
    while end < |s| && IsDigit(s[end])
      invariant offset <= end <= |s| && DigitRunEnd(s, offset) == DigitRunEnd(s, end)
    {
      end := end + 1;
    }
  }

  method SkipZeros(s: Bytes, begin: nat, end: nat) returns (digits: nat)
    requires begin <= end <= |s| && AllDigits(s[begin..end])
    ensures begin <= digits <= end && (digits < end ==> s[digits] != DIGIT_ZERO)
    ensures AllDigits(s[digits..end]) && Number(s[digits..end]) == Number(s[begin..end])
  {
    digits := begin;
    while digits < end && s[digits] == DIGIT_ZERO
      invariant begin <= digits <= end && forall i :: begin <= i < digits ==> s[i] == DIGIT_ZERO
    {
      digits := digits + 1;
    }
    LeadingZeros(s[begin..end], digits - begin);
    assert s[begin..end][digits - begin..] == s[digits..end];
  }

  /** Digit runs compare by the numbers they denote; both offsets move past their runs. */
  method CompareNaturalRun(left: Bytes, leftBegin: nat, right: Bytes, rightBegin: nat)
    returns (r: int, leftOffset: nat, rightOffset: nat)
    requires leftBegin <= |left| && rightBegin <= |right|
    ensures leftOffset == DigitRunEnd(left, leftBegin) && rightOffset == DigitRunEnd(right, rightBegin)
    ensures Sign(r, 0) == Sign(Number(left[leftBegin..leftOffset]), Number(right[rightBegin..rightOffset]))
  {
    leftOffset := SkipDigits(left, leftBegin);
    rightOffset := SkipDigits(right, rightBegin);
    var leftDigits := SkipZeros(left, leftBegin, leftOffset);
    var rightDigits := SkipZeros(right, rightBegin, rightOffset);
    var a, b := left[leftDigits..leftOffset], right[rightDigits..rightOffset];
    if |a| != |b| {
      if |a| < |b| { ShorterIsSmaller(a, b); } else { ShorterIsSmaller(b, a); }
      return if |a| < |b| then -1 else 1, leftOffset, rightOffset;
    }
    r := ComparePathBytes(a, b);
    SameLengthByValue(a, b);
    SameLengthByValue(b, a);
    LessIsTotal(a, b);
    LessIsAsymmetric(a, b);
  }

  method NaturalPathLess(left: Bytes, right: Bytes) returns (less: bool)
    ensures less == NaturalLess(left, right)
  {
    var leftOffset: nat, rightOffset: nat := 0, 0;
    while leftOffset < |left| && rightOffset < |right|
      invariant leftOffset <= |left| && rightOffset <= |right|
      invariant CompareTokens(Tokens(left), Tokens(right))
             == CompareTokens(Tokens(left, leftOffset), Tokens(right, rightOffset))
      decreases |left| - leftOffset
    {
      var leftDigit, rightDigit := IsDigit(left[leftOffset]), IsDigit(right[rightOffset]);
      ghost var a, b := Tokens(left, leftOffset), Tokens(right, rightOffset);
      if leftDigit && rightDigit {
        var comparison, leftEnd, rightEnd := CompareNaturalRun(left, leftOffset, right, rightOffset);
        assert a[1..] == Tokens(left, leftEnd) && b[1..] == Tokens(right, rightEnd);
        if comparison != 0 { return comparison < 0; }
        leftOffset, rightOffset := leftEnd, rightEnd;
        continue;
      }
      if left[leftOffset] != right[rightOffset] { return left[leftOffset] < right[rightOffset]; }
      assert a[1..] == Tokens(left, leftOffset + 1) && b[1..] == Tokens(right, rightOffset + 1);
      leftOffset, rightOffset := leftOffset + 1, rightOffset + 1;
    }
    var c := ComparePathBytes(left, right);
    less := c < 0;
  }

  // ----- what holds for all paths -----------------------------------------------------------------------------

  lemma {:induction false} CompareTokensIsAntisymmetric(a: seq<Token>, b: seq<Token>)
    ensures CompareTokens(a, b) == -CompareTokens(b, a)
  {
    if a != [] && b != [] { CompareTokensIsAntisymmetric(a[1..], b[1..]); }
  }

  /** Irreflexive, asymmetric, and total on different paths. */
  lemma {:induction false} NaturalLessIsTotal(a: Bytes, b: Bytes)
    ensures !NaturalLess(a, a) && !(NaturalLess(a, b) && NaturalLess(b, a))
    ensures a != b ==> NaturalLess(a, b) || NaturalLess(b, a)
  {
    CompareTokensIsAntisymmetric(Tokens(a), Tokens(a));
    CompareTokensIsAntisymmetric(Tokens(a), Tokens(b));
    LessIsAsymmetric(a, b);
    LessIsTotal(a, b);
  }

  // ----- the order on tokens ----------------------------------------------------------------------------------

  /** Lexicographic comparison of token lists: a proper prefix is smaller. */
  function CompareLists(a: seq<Token>, b: seq<Token>): int {
    if CompareTokens(a, b) != 0 then CompareTokens(a, b) else Sign(|a|, |b|)
  }

  /** Tokens first, and bytes between paths with the same tokens. */
  predicate TokenLess(a: Bytes, b: Bytes) {
    var c := CompareLists(Tokens(a), Tokens(b));
    c < 0 || (c == 0 && Less(a, b))
  }

  predicate WellFormedTokens(a: seq<Token>) {
    forall i :: 0 <= i < |a| && a[i].ByteToken? ==> !IsDigit(a[i].byte)
  }

  lemma {:induction false} TokensAreWellFormed(s: Bytes, from: nat)
    requires from <= |s|
    ensures WellFormedTokens(Tokens(s, from))
    decreases |s| - from
  {
    if from < |s| {
      if IsDigit(s[from]) { TokensAreWellFormed(s, DigitRunEnd(s, from)); } else { TokensAreWellFormed(s, from + 1); }
    }
  }

  lemma {:induction false} ListsAreOrdered(a: seq<Token>, b: seq<Token>, c: seq<Token>)
    requires WellFormedTokens(a) && WellFormedTokens(b) && WellFormedTokens(c)
    requires CompareLists(a, b) <= 0 && CompareLists(b, c) <= 0
    ensures CompareLists(a, c) <= 0
    ensures CompareLists(a, c) == 0 ==> CompareLists(a, b) == 0 && CompareLists(b, c) == 0
  {
    if a != [] && b != [] && c != [] {
      if CompareToken(a[0], b[0]) == 0 && CompareToken(b[0], c[0]) == 0 {
        ListsAreOrdered(a[1..], b[1..], c[1..]);
      }
    }
  }

  lemma TokenLessIsTransitive(a: Bytes, b: Bytes, c: Bytes)
    requires TokenLess(a, b) && TokenLess(b, c)
    ensures TokenLess(a, c)
  {
    TokensAreWellFormed(a, 0);
    TokensAreWellFormed(b, 0);
    TokensAreWellFormed(c, 0);
    ListsAreOrdered(Tokens(a), Tokens(b), Tokens(c));
    if Less(a, b) && Less(b, c) { LessIsTransitive(a, b, c); }
  }

  lemma TokenLessIsTotal(a: Bytes, b: Bytes)
    ensures !(TokenLess(a, b) && TokenLess(b, a)) && (a != b ==> TokenLess(a, b) || TokenLess(b, a))
  {
    CompareTokensIsAntisymmetric(Tokens(a), Tokens(b));
    LessIsAsymmetric(a, b);
    LessIsTotal(a, b);
  }

  // ----- where the code's order differs from it ----------------------------------------------------------------

  /** The tokens of `a` are a proper prefix of those of `b`, but `b` comes first byte by byte. */
  predicate Inverted(a: Bytes, b: Bytes) {
    CompareTokens(Tokens(a), Tokens(b)) == 0 && |Tokens(a)| < |Tokens(b)| && Less(b, a)
  }

  /** The code orders two paths by their tokens exactly when they are not inverted. */
  lemma {:induction false} NaturalLessIsTokenLessIff(a: Bytes, b: Bytes)
    ensures NaturalLess(a, b) == TokenLess(a, b) <==> !Inverted(a, b) && !Inverted(b, a)
  {
    CompareTokensIsAntisymmetric(Tokens(a), Tokens(b));
    LessIsAsymmetric(a, b);
    LessIsTotal(a, b);
  }

  predicate Cyclic(a: Bytes, b: Bytes, c: Bytes) {
    || (NaturalLess(a, b) && NaturalLess(b, c) && NaturalLess(c, a))
    || (NaturalLess(a, c) && NaturalLess(c, b) && NaturalLess(b, a))
  }

  /**
    Three paths in token order are ordered cyclically by the code exactly when the outer two are
    inverted and neither neighbouring pair is. So a set of paths is ordered consistently exactly when
    no three of them are like that.
  */
  lemma {:induction false} CyclicIff(a: Bytes, b: Bytes, c: Bytes)
    requires TokenLess(a, b) && TokenLess(b, c)
    ensures Cyclic(a, b, c) <==> Inverted(a, c) && !Inverted(a, b) && !Inverted(b, c)
  {
    TokenLessIsTransitive(a, b, c);
    TokenLessIsTotal(a, b);
    TokenLessIsTotal(b, c);
    TokenLessIsTotal(a, c);
    NaturalLessIsTokenLessIff(a, b);
    NaturalLessIsTokenLessIff(b, c);
    NaturalLessIsTokenLessIff(a, c);
    NaturalLessIsTotal(a, b);
    NaturalLessIsTotal(b, c);
    NaturalLessIsTotal(a, c);
    InvertedIsTransitive(a, b, c);
    OnlyOneWay(a, b);
    OnlyOneWay(b, c);
    OnlyOneWay(a, c);
    hide NaturalLess, TokenLess, Inverted;
  }

  lemma OnlyOneWay(a: Bytes, b: Bytes)
    requires TokenLess(a, b)
    ensures !Inverted(b, a)
  {
    CompareTokensIsAntisymmetric(Tokens(a), Tokens(b));
  }

  lemma {:induction false} PrefixesChain(a: seq<Token>, b: seq<Token>, c: seq<Token>)
    requires WellFormedTokens(a) && WellFormedTokens(b) && WellFormedTokens(c)
    requires CompareTokens(a, b) == 0 && |a| <= |b| && CompareTokens(b, c) == 0 && |b| <= |c|
    ensures CompareTokens(a, c) == 0
  {
    if a != [] { PrefixesChain(a[1..], b[1..], c[1..]); }
  }

  lemma InvertedIsTransitive(a: Bytes, b: Bytes, c: Bytes)
    ensures Inverted(a, b) && Inverted(b, c) ==> Inverted(a, c)
  {
    if Inverted(a, b) && Inverted(b, c) {
      TokensAreWellFormed(a, 0);
      TokensAreWellFormed(b, 0);
      TokensAreWellFormed(c, 0);
      PrefixesChain(Tokens(a), Tokens(b), Tokens(c));
      LessIsTransitive(c, b, a);
    }
  }

  // ----- paths without leading zeros -----------------------------------------------------------------------------

  /** No digit run has a superfluous leading zero. */
  predicate NoLeadingZeros(s: Bytes, from: nat := 0)
    requires from <= |s|
    decreases |s| - from
  {
    if from == |s| then true
    else if IsDigit(s[from]) then
      (s[from] == DIGIT_ZERO ==> DigitRunEnd(s, from) == from + 1) && NoLeadingZeros(s, DigitRunEnd(s, from))
    else NoLeadingZeros(s, from + 1)
  }

  /** Without leading zeros the run can be read off the number. */
  lemma SameNumberSameRun(a: Bytes, b: Bytes)
    requires Canonical(a) && Canonical(b) && Number(a) == Number(b)
    ensures a == b
  {
    CanonicalIsDecimal(a);
    CanonicalIsDecimal(b);
  }

  /** The offset after the token that starts at an offset. */
  function AfterToken(s: Bytes, from: nat): (end: nat)
    requires from < |s|
    ensures from < end <= |s|
  {
    if IsDigit(s[from]) then
      assert DigitRunEnd(s, from) == DigitRunEnd(s, from + 1);
      DigitRunEnd(s, from)
    else from + 1
  }

  /** Without leading zeros, equal tokens are written alike. */
  lemma SameTokenSameBytes(a: Bytes, i: nat, b: Bytes, j: nat)
    requires i < |a| && j < |b| && NoLeadingZeros(a, i) && NoLeadingZeros(b, j)
    requires CompareToken(Tokens(a, i)[0], Tokens(b, j)[0]) == 0
    ensures a[i..AfterToken(a, i)] == b[j..AfterToken(b, j)]
  {
    if IsDigit(a[i]) && IsDigit(b[j]) {
      var x, y := a[i..AfterToken(a, i)], b[j..AfterToken(b, j)];
      assert x[0] == a[i] && y[0] == b[j];
      SameNumberSameRun(x, y);
    }
  }

  lemma TokensAfter(s: Bytes, from: nat)
    requires from < |s|
    ensures Tokens(s, from) != [] && Tokens(s, from)[1..] == Tokens(s, AfterToken(s, from))
    ensures NoLeadingZeros(s, from) ==> NoLeadingZeros(s, AfterToken(s, from))
  {
  }

  lemma {:induction false} TokenPrefixIsBytePrefix(a: Bytes, i: nat, b: Bytes, j: nat)
    requires i <= |a| && j <= |b| && NoLeadingZeros(a, i) && NoLeadingZeros(b, j)
    requires CompareTokens(Tokens(a, i), Tokens(b, j)) == 0 && |Tokens(a, i)| <= |Tokens(b, j)|
    ensures a[i..] <= b[j..]
    decreases |a| - i
  {
    if i < |a| {
      TokensAfter(a, i);
      assert j < |b|;
      TokensAfter(b, j);
      SameTokenSameBytes(a, i, b, j);
      hide Tokens, NoLeadingZeros, AfterToken;
      var i', j' := AfterToken(a, i), AfterToken(b, j);
      TokenPrefixIsBytePrefix(a, i', b, j');
      assert a[i..] == a[i..i'] + a[i'..] && b[j..] == b[j..j'] + b[j'..];
    }
  }

  lemma {:induction false} PrefixIsNotGreater(a: Bytes, b: Bytes)
    requires a <= b
    ensures !Less(b, a)
  {
    if a != [] { PrefixIsNotGreater(a[1..], b[1..]); }
  }

  lemma NoLeadingZerosNotInverted(a: Bytes, b: Bytes)
    requires NoLeadingZeros(a) && NoLeadingZeros(b)
    ensures !Inverted(a, b)
  {
    if CompareTokens(Tokens(a), Tokens(b)) == 0 && |Tokens(a)| < |Tokens(b)| {
      TokenPrefixIsBytePrefix(a, 0, b, 0);
      assert a[0..] == a && b[0..] == b;
      PrefixIsNotGreater(a, b);
    }
  }

  /** On paths without leading zeros the natural order is a legal sort order. */
  lemma {:induction false} NaturalLessIsTransitive(a: Bytes, b: Bytes, c: Bytes)
    requires NoLeadingZeros(a) && NoLeadingZeros(b) && NoLeadingZeros(c)
    requires NaturalLess(a, b) && NaturalLess(b, c)
    ensures NaturalLess(a, c)
  {
    NoLeadingZerosNotInverted(a, b);
    NoLeadingZerosNotInverted(b, a);
    NoLeadingZerosNotInverted(b, c);
    NoLeadingZerosNotInverted(c, b);
    NoLeadingZerosNotInverted(a, c);
    NoLeadingZerosNotInverted(c, a);
    NaturalLessIsTokenLessIff(a, b);
    NaturalLessIsTokenLessIff(b, c);
    NaturalLessIsTokenLessIff(a, c);
    TokenLessIsTransitive(a, b, c);
  }

  const LETTER_A: Byte := 0x61
  const LETTER_B: Byte := 0x62

  /** Tokens of a letter, a digit run, and a rest without digits of at most one byte. */
  lemma TokensOfExample(digits: Bytes, rest: Bytes)
    requires digits != [] && AllDigits(digits) && |rest| <= 1 && (rest != [] ==> !IsDigit(rest[0]))
    ensures Tokens([LETTER_A] + digits + rest)
         == [ByteToken(LETTER_A), NumberToken(Number(digits))] + if rest == [] then [] else [ByteToken(rest[0])]
  {
    var s := [LETTER_A] + digits + rest;
    var end := 1 + |digits|;
    assert s[1..end] == digits && IsDigit(s[1]);
    DigitRunIs(s, 1, digits);
    assert Tokens(s, end) == if rest == [] then [] else [ByteToken(rest[0])] by {
      if rest != [] { assert s[end] == rest[0]; assert Tokens(s, end + 1) == []; }
    }
    assert Tokens(s, 1) == [NumberToken(Number(digits))] + Tokens(s, end);
    assert Tokens(s, 0) == [ByteToken(LETTER_A)] + Tokens(s, 1);
  }

  lemma CompareExamples(value: nat)
    ensures var a, b, c := [ByteToken(LETTER_A), NumberToken(value)],
                           [ByteToken(LETTER_A), NumberToken(value), ByteToken(LETTER_A)],
                           [ByteToken(LETTER_A), NumberToken(value), ByteToken(LETTER_B)];
            CompareTokens(a, b) == 0 && CompareTokens(b, c) < 0 && CompareTokens(c, a) == 0
  {
    var a, b, c := [ByteToken(LETTER_A), NumberToken(value)],
                   [ByteToken(LETTER_A), NumberToken(value), ByteToken(LETTER_A)],
                   [ByteToken(LETTER_A), NumberToken(value), ByteToken(LETTER_B)];
    assert a[1..][1..] == [] && b[1..][1..] == [ByteToken(LETTER_A)] && c[1..][1..] == [ByteToken(LETTER_B)];
    assert CompareTokens(a[1..], b[1..]) == 0 && CompareTokens(c[1..], a[1..]) == 0;
    assert CompareTokens(b[1..], c[1..]) == CompareTokens(b[1..][1..], c[1..][1..]);
  }

  /** With leading zeros it is not: a1 < a1a < a01b < a1. */
  lemma LeadingZeroCycle()
    ensures Cyclic(Ascii("a1"), Ascii("a1a"), Ascii("a01b"))
  {
    var one: Bytes, zeroOne: Bytes := [0x31], [0x30, 0x31];
    assert Ascii("a1") == [LETTER_A] + one + [];
    assert Ascii("a1a") == [LETTER_A] + one + [LETTER_A];
    assert Ascii("a01b") == [LETTER_A] + zeroOne + [LETTER_B];
    TokensOfExample(one, []);
    TokensOfExample(one, [LETTER_A]);
    TokensOfExample(zeroOne, [LETTER_B]);
    assert Number(one) == 1 && Number(zeroOne) == 1 by { assert zeroOne[..1] == [0x30]; }
    hide Tokens, Number, CompareTokens, Less, Ascii;
    CompareExamples(1);
    ExampleBytes();
  }

  lemma ExampleBytes()
    ensures Less(Ascii("a1"), Ascii("a1a")) && Less(Ascii("a01b"), Ascii("a1"))
  {
    var a, b, c := Ascii("a1"), Ascii("a1a"), Ascii("a01b");
    assert a == [0x61, 0x31] && b == [0x61, 0x31, 0x61] && c == [0x61, 0x30, 0x31, 0x62];
    assert Less(a[1..][1..], b[1..][1..]);
    assert Less(a[1..], b[1..]);
    assert Less(c[1..], a[1..]);
  }

  // ----- the file order policies -----------------------------------------------------------------------------------

  datatype FileOrderPolicy = Natural | BreadthFirst | Lexicographical | CanonicalAlignment

  function Depth(path: Bytes): nat {
    if path == [] then 0 else Depth(path[1..]) + if path[0] == SLASH then 1 else 0
  }

  predicate FilePathLess(left: Bytes, right: Bytes, policy: FileOrderPolicy) {
    var l, r := Normalized(left), Normalized(right);
    match policy
    case Natural => NaturalLess(l, r)
    case BreadthFirst => if Depth(l) != Depth(r) then Depth(l) < Depth(r) else Less(l, r)
    case Lexicographical => Less(l, r)
    case CanonicalAlignment => Less(l, r)
  }

  /** Every policy is asymmetric and separates paths that differ after normalization. */
  lemma {:induction false} FilePathLessIsTotal(a: Bytes, b: Bytes, policy: FileOrderPolicy)
    ensures !(FilePathLess(a, b, policy) && FilePathLess(b, a, policy))
    ensures Normalized(a) != Normalized(b) ==> FilePathLess(a, b, policy) || FilePathLess(b, a, policy)
  {
    NaturalLessIsTotal(Normalized(a), Normalized(b));
    LessIsAsymmetric(Normalized(a), Normalized(b));
    LessIsTotal(Normalized(a), Normalized(b));
  }

  /** Every policy is transitive, the natural one on paths without leading zeros. */
  lemma {:induction false} FilePathLessIsTransitive(a: Bytes, b: Bytes, c: Bytes, policy: FileOrderPolicy)
    requires policy == Natural ==>
               NoLeadingZeros(Normalized(a)) && NoLeadingZeros(Normalized(b)) && NoLeadingZeros(Normalized(c))
    requires FilePathLess(a, b, policy) && FilePathLess(b, c, policy)
    ensures FilePathLess(a, c, policy)
  {
    hide NaturalLess, Normalized, NoLeadingZeros, Depth;
    if policy == Natural {
      NaturalLessIsTransitive(Normalized(a), Normalized(b), Normalized(c));
    } else if Less(Normalized(a), Normalized(b)) && Less(Normalized(b), Normalized(c)) {
      LessIsTransitive(Normalized(a), Normalized(b), Normalized(c));
    }
  }

  // ----- what decides ------------------------------------------------------------------------------------------

  /** No digit run goes on across the border of two strings. */
  predicate Apart(p: Bytes, q: Bytes) { p == [] || q == [] || !IsDigit(p[|p| - 1]) || !IsDigit(q[0]) }

  lemma NumberAt(s: Bytes, from: nat, run: Bytes)
    requires HoldsAt(s, from, run) && run != [] && AllDigits(run)
    requires from + |run| < |s| ==> !IsDigit(s[from + |run|])
    ensures Tokens(s, from) == [NumberToken(Number(run))] + Tokens(s, from + |run|)
  {
    hide Number;
    HoldsAtByte(s, from, run, 0);
    DigitRunIs(s, from, run);
  }

  lemma ByteAt(s: Bytes, from: nat)
    requires from < |s| && !IsDigit(s[from])
    ensures Tokens(s, from) == [ByteToken(s[from])] + Tokens(s, from + 1)
  {
  }

  /** The digit run that starts at a digit, and what stands behind it. */
  lemma RunAt(s: Bytes, from: nat) returns (run: Bytes)
    requires from < |s| && IsDigit(s[from])
    ensures HoldsAt(s, from, run) && run != [] && AllDigits(run)
    ensures from + |run| < |s| ==> !IsDigit(s[from + |run|])
    ensures from + |run| == |s| ==> IsDigit(s[|s| - 1])
    ensures from + |run| == DigitRunEnd(s, from)
  {
    var end := DigitRunEnd(s, from);
    run := s[from..end];
    DigitRunStep(s, from);
    if end == |s| { assert run[|s| - 1 - from] == s[|s| - 1]; }
  }

  /** A run at the front is a run of the whole, whether it ends inside or at the border. */
  lemma InFront(s: Bytes, p: Bytes, q: Bytes, from: nat, run: Bytes)
    requires s == p + q && Apart(p, q) && HoldsAt(p, from, run)
    requires from + |run| < |p| ==> !IsDigit(p[from + |run|])
    requires from + |run| == |p| && p != [] ==> IsDigit(p[|p| - 1])
    ensures HoldsAt(s, from, run) && (from + |run| < |s| && p != [] ==> !IsDigit(s[from + |run|]))
  {
    assert s[from..from + |run|] == p[from..from + |run|];
  }

  lemma OnwardsAlike(a: Bytes, i: nat, b: Bytes, j: nat, run: Bytes)
    requires i <= |a| && j <= |b| && a[i..] == b[j..] && HoldsAt(a, i, run)
    ensures HoldsAt(b, j, run) && a[i + |run|..] == b[j + |run|..]
    ensures j + |run| < |b| ==> i + |run| < |a| && b[j + |run|] == a[i + |run|]
  {
    var n := |run|;
    assert a[i..i + n] == a[i..][..n] && b[j..j + n] == b[j..][..n];
    assert a[i + n..] == a[i..][n..] && b[j + n..] == b[j..][n..];
    if j + n < |b| { assert a[i..][n] == b[j..][n]; }
  }

  /** Tokens only depend on what is left of the string. */
  lemma {:induction false} SameRestSameTokens(a: Bytes, i: nat, b: Bytes, j: nat)
    requires i <= |a| && j <= |b| && a[i..] == b[j..]
    ensures Tokens(a, i) == Tokens(b, j)
    decreases |a| - i
  {
    hide Tokens, Number, AllDigits, IsDigit, HoldsAt, DigitRunEnd;
    if i == |a| {
      assert |b[j..]| == 0;
      EndHasNoTokens(a);
      EndHasNoTokens(b);
    } else {
      assert a[i] == a[i..][0] == b[j..][0] == b[j];
      if IsDigit(a[i]) {
        var run := RunAt(a, i);
        OnwardsAlike(a, i, b, j, run);
        NumberAt(a, i, run);
        NumberAt(b, j, run);
        SameRestSameTokens(a, i + |run|, b, j + |run|);
      } else {
        assert a[i + 1..] == a[i..][1..] && b[j + 1..] == b[j..][1..];
        ByteAt(a, i);
        ByteAt(b, j);
        SameRestSameTokens(a, i + 1, b, j + 1);
      }
    }
  }

  lemma {:induction false} TokensOfFront(s: Bytes, p: Bytes, q: Bytes, from: nat)
    requires s == p + q && Apart(p, q) && from <= |p|
    ensures Tokens(s, from) == Tokens(p, from) + Tokens(q)
    decreases |p| - from
  {
    hide Tokens, Number, AllDigits, IsDigit, HoldsAt, DigitRunEnd, Apart;
    if from == |p| {
      assert s[from..] == q == q[0..];
      SameRestSameTokens(s, from, q, 0);
      EndHasNoTokens(p);
    } else {
      assert s[from] == p[from];
      if IsDigit(p[from]) {
        var run := RunAt(p, from);
        InFront(s, p, q, from, run);
        NumberAt(p, from, run);
        NumberAt(s, from, run);
        TokensOfFront(s, p, q, from + |run|);
        ConcatAssociative([NumberToken(Number(run))], Tokens(p, from + |run|), Tokens(q));
      } else {
        ByteAt(p, from);
        ByteAt(s, from);
        TokensOfFront(s, p, q, from + 1);
        ConcatAssociative([ByteToken(p[from])], Tokens(p, from + 1), Tokens(q));
      }
    }
  }

  /** Strings that no digit run joins have their tokens one after the other. */
  lemma TokensJoin(p: Bytes, q: Bytes)
    requires Apart(p, q)
    ensures Tokens(p + q) == Tokens(p) + Tokens(q)
  {
    TokensOfFront(p + q, p, q, 0);
  }

  lemma {:induction false} SameFront(a: seq<Token>, b: seq<Token>, c: seq<Token>)
    ensures CompareTokens(a + b, a + c) == CompareTokens(b, c)
  {
    if a == [] {
      assert a + b == b && a + c == c;
    } else {
      assert (a + b)[1..] == a[1..] + b && (a + c)[1..] == a[1..] + c;
      SameFront(a[1..], b, c);
    }
  }

  lemma TokensOfRun(x: Bytes)
    requires x != [] && AllDigits(x)
    ensures Tokens(x) == [NumberToken(Number(x))]
  {
    assert x[0..|x|] == x;
    DigitRunIs(x, 0, x);
  }

  /** Behind a common beginning, two numbers are ordered by value, however they are written. */
  lemma {:induction false} NumbersDecide(p: Bytes, x: Bytes, s: Bytes, y: Bytes, t: Bytes)
    requires x != [] && AllDigits(x) && y != [] && AllDigits(y) && Number(x) < Number(y)
    requires Apart(p, x) && Apart(p, y) && Apart(x, s) && Apart(y, t)
    ensures NaturalLess(p + (x + s), p + (y + t)) && !NaturalLess(p + (y + t), p + (x + s))
  {
    hide Tokens, CompareTokens, Less, Number, AllDigits;
    TokensJoin(x, s);
    TokensJoin(y, t);
    TokensJoin(p, x + s);
    TokensJoin(p, y + t);
    TokensOfRun(x);
    TokensOfRun(y);
    SameFront(Tokens(p), Tokens(x + s), Tokens(y + t));
    FirstTokenDecides(NumberToken(Number(x)), Tokens(s), NumberToken(Number(y)), Tokens(t));
    CompareTokensIsAntisymmetric(Tokens(p + (x + s)), Tokens(p + (y + t)));
  }

  lemma FirstTokenDecides(a: Token, s: seq<Token>, b: Token, t: seq<Token>)
    ensures CompareToken(a, b) != 0 ==> CompareTokens([a] + s, [b] + t) == CompareToken(a, b)
  {
  }

  /** Behind a common beginning, other bytes are ordered as unsigned bytes. */
  lemma {:induction false} BytesDecide(p: Bytes, a: Byte, s: Bytes, b: Byte, t: Bytes)
    requires a < b && !(IsDigit(a) && IsDigit(b))
    requires Apart(p, [a]) && Apart(p, [b])
    ensures NaturalLess(p + ([a] + s), p + ([b] + t)) && !NaturalLess(p + ([b] + t), p + ([a] + s))
  {
    hide Less, CompareTokens;
    TokensJoin(p, [a] + s);
    TokensJoin(p, [b] + t);
    var x, y := Tokens([a] + s), Tokens([b] + t);
    hide Tokens;
    FirstToken([a] + s);
    FirstToken([b] + t);
    SameFront(Tokens(p), x, y);
    assert x == [x[0]] + x[1..] && y == [y[0]] + y[1..];
    FirstTokenDecides(x[0], x[1..], y[0], y[1..]);
    CompareTokensIsAntisymmetric(Tokens(p + ([a] + s)), Tokens(p + ([b] + t)));
  }

  lemma FirstToken(s: Bytes)
    requires s != []
    ensures Tokens(s) != []
    ensures if IsDigit(s[0]) then Tokens(s)[0].NumberToken? else Tokens(s)[0] == ByteToken(s[0])
  {
  }

  /** A beginning comes before what it begins. */
  lemma {:induction false} PrefixIsLess(a: Bytes, b: Bytes)
    requires a < b
    ensures NaturalLess(a, b)
  {
    PrefixTokens(a, b, 0);
    PrefixBytes(a, b);
  }

  lemma {:induction false} PrefixBytes(a: Bytes, b: Bytes)
    requires a < b
    ensures Less(a, b)
  {
    if a != [] { PrefixBytes(a[1..], b[1..]); }
  }

  lemma {:induction false} PrefixTokens(a: Bytes, b: Bytes, from: nat)
    requires a <= b && from <= |a|
    ensures CompareTokens(Tokens(a, from), Tokens(b, from)) <= 0
    decreases |a| - from
  {
    hide Tokens, Number, AllDigits, IsDigit, CompareTokens, HoldsAt, DigitRunEnd;
    if from == |a| {
      EndHasNoTokens(a);
      NothingIsLeast(Tokens(b, from));
    } else if IsDigit(a[from]) {
      var run, further := PrefixRuns(a, b, from);
      var end := from + |run|;
      if end < |a| {
        PrefixTokens(a, b, end);
        SameFront([NumberToken(Number(run))], Tokens(a, end), Tokens(b, end));
      } else {
        EndHasNoTokens(a);
        LastNumber(Number(run), Tokens(a, end), Number(further), Tokens(b, from + |further|));
      }
    } else {
      ByteAt(a, from);
      ByteAt(b, from);
      PrefixTokens(a, b, from + 1);
      SameFront([ByteToken(a[from])], Tokens(a, from + 1), Tokens(b, from + 1));
    }
  }

  /** The digit runs of a beginning and of what it begins, from the same place. */
  lemma PrefixRuns(a: Bytes, b: Bytes, from: nat) returns (run: Bytes, further: Bytes)
    requires a <= b && from < |a| && IsDigit(a[from])
    ensures run != [] && from + |run| <= |a| && from + |further| <= |b| && AllDigits(run) && AllDigits(further)
    ensures Tokens(a, from) == [NumberToken(Number(run))] + Tokens(a, from + |run|)
    ensures Tokens(b, from) == [NumberToken(Number(further))] + Tokens(b, from + |further|)
    ensures Number(run) <= Number(further)
    ensures from + |run| < |a| ==> further == run
  {
    hide Tokens, Number, AllDigits, IsDigit, DigitRunEnd;
    assert a[from] == b[from];
    run := RunAt(a, from);
    further := RunAt(b, from);
    NumberAt(a, from, run);
    NumberAt(b, from, further);
    SameBeginning(a, b, from, run, further);
    NumberMonotone(further, |run|);
  }

  lemma NothingIsLeast(t: seq<Token>)
    ensures CompareTokens([], t) <= 0
  {
  }

  /** The run of a beginning is the beginning of the run, and all of it when the beginning goes on. */
  lemma SameBeginning(a: Bytes, b: Bytes, from: nat, run: Bytes, further: Bytes)
    requires a <= b && HoldsAt(a, from, run) && AllDigits(run)
    requires from + |run| < |a| ==> !IsDigit(a[from + |run|])
    requires HoldsAt(b, from, further) && from + |further| == DigitRunEnd(b, from)
    ensures |run| <= |further| && further[..|run|] == run
    ensures from + |run| < |a| ==> further == run
  {
    var end := from + |run|;
    assert b[from..end] == a[from..end] == run;
    RunGrows(b, from, end);
    if end < |a| { DigitRunIs(b, from, run); }
  }

  lemma EndHasNoTokens(s: Bytes)
    ensures Tokens(s, |s|) == []
  {
  }

  lemma LastNumber(x: nat, s: seq<Token>, y: nat, t: seq<Token>)
    requires x <= y && s == []
    ensures CompareTokens([NumberToken(x)] + s, [NumberToken(y)] + t) <= 0
  {
  }

  lemma {:induction false} RunGrows(s: Bytes, from: nat, end: nat)
    requires from <= end <= |s| && AllDigits(s[from..end])
    ensures end <= DigitRunEnd(s, from)
    decreases end - from
  {
    if from < end {
      assert s[from..end][0] == s[from] && s[from..end][1..] == s[from + 1..end];
      RunGrows(s, from + 1, end);
    }
  }

  /** Depth is the number of slashes; the policies compare it, or bytes, of paths with slashes for backslashes. */
  lemma {:induction false} PolicyDecides(a: Bytes, b: Bytes)
    ensures var x, y := Normalized(a), Normalized(b);
            && (multiset(x)[SLASH] < multiset(y)[SLASH] ==> FilePathLess(a, b, BreadthFirst))
            && (multiset(x)[SLASH] == multiset(y)[SLASH] ==> (FilePathLess(a, b, BreadthFirst) <==> Less(x, y)))
            && (FilePathLess(a, b, Lexicographical) <==> Less(x, y))
            && (FilePathLess(a, b, CanonicalAlignment) <==> Less(x, y))
            && (FilePathLess(a, b, Natural) <==> NaturalLess(x, y))
  {
    hide NaturalLess, Less, Normalized;
    DepthCounts(Normalized(a));
    DepthCounts(Normalized(b));
  }

  lemma {:induction false} DepthCounts(path: Bytes)
    ensures Depth(path) == multiset(path)[SLASH]
  {
    if path != [] {
      DepthCounts(path[1..]);
      assert path == [path[0]] + path[1..];
    }
  }
}
