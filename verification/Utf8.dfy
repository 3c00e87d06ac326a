/**
  UTF-8 as section 4 of RFC 3629 generates it, and the three validators of the program:
  the byte-range one of the metadata reader and the two that decode a code point and check it.

  The bit masks of the last two are written as remainders: `x & 0x3F` is `x % 0x40`, and
  `(p << 6) | t` with `t < 0x40` is `p * 0x40 + t`.
*/
module Utf8 {
  import opened ByteStrings

  // ----- the reference: encodings of Unicode scalar values -----------------------------------

  type Scalar = c: int | 0 <= c <= 0x10FFFF && !(0xD800 <= c <= 0xDFFF)

  /** The table of section 3 of RFC 3629. */
  function EncodeScalar(c: Scalar): (b: Bytes)
    ensures 1 <= |b| <= 4
  {
    var n: int := c;
    var last: Byte := 0x80 + n % 0x40;
    var second: Byte := 0x80 + n / 0x40 % 0x40;
    var third: Byte := 0x80 + n / 0x1000 % 0x40;
    if n <= 0x7F then
      var b: Byte := n;
      [b]
    else if n <= 0x7FF then
      var b: Byte := 0xC0 + n / 0x40;
      [b, last]
    else if n <= 0xFFFF then
      var b: Byte := 0xE0 + n / 0x1000;
      [b, second, last]
    else
      var b: Byte := 0xF0 + n / 0x40000;
      [b, third, second, last]
  }

  function EncodeAll(cs: seq<Scalar>): Bytes {
    if cs == [] then [] else EncodeScalar(cs[0]) + EncodeAll(cs[1..])
  }

  // ----- the grammar ---------------------------------------------------------------------------

  predicate Tail(b: Byte) {
    0x80 <= b <= 0xBF
  }

  /** The length of the UTF8-char that `s` starts with, zero when there is none. */
  function CharLength(s: Bytes): (k: nat)
    ensures k <= |s| && k <= 4
  {
    if |s| >= 1 && s[0] <= 0x7F then 1
    else if |s| >= 2 && 0xC2 <= s[0] <= 0xDF && Tail(s[1]) then 2
    else if |s| >= 3 && Tail(s[2])
            && ((s[0] == 0xE0 && 0xA0 <= s[1] <= 0xBF)
                || (0xE1 <= s[0] <= 0xEC && Tail(s[1]))
                || (s[0] == 0xED && 0x80 <= s[1] <= 0x9F)
                || (0xEE <= s[0] <= 0xEF && Tail(s[1]))) then 3
    else if |s| >= 4 && Tail(s[2]) && Tail(s[3])
            && ((s[0] == 0xF0 && 0x90 <= s[1] <= 0xBF)
                || (0xF1 <= s[0] <= 0xF3 && Tail(s[1]))
                || (s[0] == 0xF4 && 0x80 <= s[1] <= 0x8F)) then 4
    else 0
  }

  predicate WellFormed(s: Bytes) {
    s == [] || (CharLength(s) > 0 && WellFormed(s[CharLength(s)..]))
  }

  lemma ScalarStartsChar(c: Scalar, rest: Bytes)
    ensures CharLength(EncodeScalar(c) + rest) == |EncodeScalar(c)|
  {
    var s := EncodeScalar(c) + rest;
    assert s[..|EncodeScalar(c)|] == EncodeScalar(c);
    var n: int := c;
    if 0x7FF < n <= 0xFFFF {
      assert n / 0x40 / 0x40 == n / 0x1000;
    } else if 0xFFFF < n {
      assert n / 0x1000 / 0x40 == n / 0x40000;
    }
  }

  lemma ThreeDigits(x: nat, y: nat, z: nat)
    requires y < 0x40 && z < 0x40
    ensures var n := x * 0x1000 + y * 0x40 + z; n / 0x1000 == x && n / 0x40 % 0x40 == y && n % 0x40 == z
  {
    assert (x * 0x1000 + y * 0x40 + z) / 0x40 == x * 0x40 + y;
  }

  lemma FourDigits(x: nat, y: nat, z: nat, w: nat)
    requires y < 0x40 && z < 0x40 && w < 0x40
    ensures var n := x * 0x40000 + y * 0x1000 + z * 0x40 + w;
            && n / 0x40000 == x && n / 0x1000 % 0x40 == y && n / 0x40 % 0x40 == z && n % 0x40 == w
  {
    ThreeDigits(x * 0x40 + y, z, w);
    assert (x * 0x40 + y) % 0x40 == y;
  }

  lemma ShortCharIsScalar(s: Bytes) returns (c: Scalar)
    requires 1 <= CharLength(s) <= 2
    ensures s[..CharLength(s)] == EncodeScalar(c)
  {
    var a: int := s[0];
    if CharLength(s) == 1 {
      c := a;
    } else {
      c := (a - 0xC0) * 0x40 + (s[1] - 0x80);
    }
  }

  lemma ThreeByteCharIsScalar(s: Bytes) returns (c: Scalar)
    requires CharLength(s) == 3
    ensures s[..3] == EncodeScalar(c)
  {
    var x: nat, y: nat, z: nat := s[0] - 0xE0, s[1] - 0x80, s[2] - 0x80;
    ThreeDigits(x, y, z);
    c := x * 0x1000 + y * 0x40 + z;
  }

  lemma FourByteCharIsScalar(s: Bytes) returns (c: Scalar)
    requires CharLength(s) == 4
    ensures s[..4] == EncodeScalar(c)
  {
    var x: nat, y: nat, z: nat, w: nat := s[0] - 0xF0, s[1] - 0x80, s[2] - 0x80, s[3] - 0x80;
    FourDigits(x, y, z, w);
    c := x * 0x40000 + y * 0x1000 + z * 0x40 + w;
  }

  lemma CharIsScalar(s: Bytes) returns (c: Scalar)
    requires CharLength(s) > 0
    ensures s[..CharLength(s)] == EncodeScalar(c)
  {
    match CharLength(s)
    case 3 => c := ThreeByteCharIsScalar(s);
    case 4 => c := FourByteCharIsScalar(s);
    case _ => c := ShortCharIsScalar(s);
  }

  lemma {:induction false} EncodingsAreWellFormed(cs: seq<Scalar>)
    ensures WellFormed(EncodeAll(cs))
  {
    if cs != [] {
      ScalarStartsChar(cs[0], EncodeAll(cs[1..]));
      EncodingsAreWellFormed(cs[1..]);
      assert EncodeAll(cs)[|EncodeScalar(cs[0])|..] == EncodeAll(cs[1..]);
    }
  }

  lemma {:induction false} WellFormedIsEncoding(s: Bytes) returns (cs: seq<Scalar>)
    requires WellFormed(s)
    ensures EncodeAll(cs) == s
    decreases |s|
  {
    if s == [] {
      cs := [];
    } else {
      var c := CharIsScalar(s);
      var rest := WellFormedIsEncoding(s[CharLength(s)..]);
      cs := [c] + rest;
      assert cs[1..] == rest;
    }
  }

  /** The grammar of section 4 generates exactly the encodings of scalar values. */
  lemma {:induction false} GrammarMeansScalars(s: Bytes)
    ensures WellFormed(s) <==> exists cs :: EncodeAll(cs) == s
  {
    if WellFormed(s) {
      var cs := WellFormedIsEncoding(s);
    } else if exists cs :: EncodeAll(cs) == s {
      var cs :| EncodeAll(cs) == s;
      EncodingsAreWellFormed(cs);
    }
  }

  lemma {:induction false} WellFormedConcat(a: Bytes, b: Bytes)
    requires WellFormed(a)
    ensures WellFormed(a + b) <==> WellFormed(b)
    decreases |a|
  {
    if a == [] {
      assert a + b == b;
    } else {
      var k := CharLength(a);
      assert CharLength(a + b) == k;
      assert (a + b)[k..] == a[k..] + b;
      WellFormedConcat(a[k..], b);
    }
  }

  lemma NewlineAndEmpty()
    ensures WellFormed([]) && WellFormed([0x0A])
  {
    assert [0x0A][1..] == [];
  }

  // ----- validators read one character at a time ---------------------------------------------------

  lemma WholeIsRest(value: Bytes)
    ensures value[0..] == value
    ensures WellFormed(value[|value|..])
  {
  }

  /** What the first character decides. */
  lemma FirstChar(value: Bytes, index: nat)
    requires index < |value|
    ensures var k := CharLength(value[index..]);
            if k == 0 then !WellFormed(value[index..])
            else index + k <= |value| && (WellFormed(value[index..]) <==> WellFormed(value[index + k..]))
  {
    var k := CharLength(value[index..]);
    assert value[index..][k..] == value[index + k..];
  }

  // ----- the byte-range validator of the metadata reader ----------------------------------------

  method MetadataValidUtf8(value: Bytes) returns (ok: bool)
    ensures ok <==> WellFormed(value)
  {
    hide WellFormed;
    WholeIsRest(value);
    var index := 0;
    while index < |value|
      invariant index <= |value|
      invariant WellFormed(value) <==> WellFormed(value[index..])
    {
      FirstChar(value, index);
      ghost var rest := value[index..];
      var first := value[index];
      if first <= 0x7F {
        index := index + 1;
        continue;
      }
      var continuationCount := 0;
      var secondMinimum, secondMaximum := 0x80, 0xBF;
      if 0xC2 <= first <= 0xDF {
        continuationCount := 1;
      } else if 0xE0 <= first <= 0xEF {
        continuationCount := 2;
        if first == 0xE0 {
          secondMinimum := 0xA0;
        } else if first == 0xED {
          secondMaximum := 0x9F;
        }
      } else if 0xF0 <= first <= 0xF4 {
        continuationCount := 3;
        if first == 0xF0 {
          secondMinimum := 0x90;
        } else if first == 0xF4 {
          secondMaximum := 0x8F;
        }
      } else {
        return false;
      }
      if index + continuationCount >= |value| { return false; }
      var second := value[index + 1];
      if second < secondMinimum || second > secondMaximum { return false; }
      var offset := 2;
      while offset <= continuationCount
        invariant 2 <= offset <= continuationCount + 1
        invariant forall k :: 2 <= k < offset ==> Tail(rest[k])
      {
        var byte := value[index + offset];
        if byte < 0x80 || byte > 0xBF {
          assert !Tail(rest[offset]);
          return false;
        }
        offset := offset + 1;
      }
      assert CharLength(rest) == continuationCount + 1;
      index := index + continuationCount + 1;
    }
    ok := true;
  }

  // ----- the decode-and-check validators ----------------------------------------------------------

  /** The bits of the lead byte followed by six bits of each of the next `count - 1` bytes. */
  function CodePoint(s: Bytes, lead: nat, count: nat): nat
    requires 1 <= count <= |s|
  {
    if count == 1 then lead else CodePoint(s, lead, count - 1) * 0x40 + s[count - 1] as int % 0x40
  }

  predicate Continuations(s: Bytes, count: nat)
    requires count <= |s|
  {
    forall k :: 1 <= k < count ==> Tail(s[k])
  }

  lemma TwoByteChars(s: Bytes)
    requires |s| >= 2 && 0xC0 <= s[0] <= 0xDF
    ensures CharLength(s) == 2 <==> Continuations(s, 2) && 0x80 <= CodePoint(s, s[0] % 0x20, 2)
    ensures CharLength(s) == 2 || CharLength(s) == 0
    ensures CodePoint(s, s[0] % 0x20, 2) <= 0x7FF
  {
    assert CodePoint(s, s[0] % 0x20, 2) == (s[0] as int - 0xC0) * 0x40 + s[1] as int % 0x40;
    assert Continuations(s, 2) <==> Tail(s[1]);
  }

  lemma ThreeByteChars(s: Bytes)
    requires |s| >= 3 && 0xE0 <= s[0] <= 0xEF
    ensures CharLength(s) == 3 <==>
              Continuations(s, 3)
              && (var c := CodePoint(s, s[0] % 0x10, 3); 0x800 <= c && !(0xD800 <= c <= 0xDFFF))
    ensures CharLength(s) == 3 || CharLength(s) == 0
    ensures CodePoint(s, s[0] % 0x10, 3) <= 0xFFFF
  {
    var lead := s[0] % 0x10;
    assert CodePoint(s, lead, 3) == ((s[0] as int - 0xE0) * 0x40 + s[1] as int % 0x40) * 0x40 + s[2] as int % 0x40 by {
      assert CodePoint(s, lead, 2) == (s[0] as int - 0xE0) * 0x40 + s[1] as int % 0x40;
    }
    assert Continuations(s, 3) <==> Tail(s[1]) && Tail(s[2]);
  }

  lemma FourByteChars(s: Bytes)
    requires |s| >= 4 && 0xF0 <= s[0] <= 0xF7
    ensures CharLength(s) == 4 <==>
              Continuations(s, 4) && 0x10000 <= CodePoint(s, s[0] % 8, 4) <= 0x10FFFF
    ensures CharLength(s) == 4 || CharLength(s) == 0
  {
    var lead := s[0] % 8;
    var c3 := ((s[0] as int - 0xF0) * 0x40 + s[1] as int % 0x40) * 0x40 + s[2] as int % 0x40;
    assert CodePoint(s, lead, 4) == c3 * 0x40 + s[3] as int % 0x40 by {
      assert CodePoint(s, lead, 2) == (s[0] as int - 0xF0) * 0x40 + s[1] as int % 0x40;
      assert CodePoint(s, lead, 3) == c3;
    }
    assert Continuations(s, 4) <==> Tail(s[1]) && Tail(s[2]) && Tail(s[3]);
  }

  lemma FirstBits(s: Bytes, lead: nat)
    requires s != []
    ensures CodePoint(s, lead, 1) == lead
  {
  }

  lemma NextBits(s: Bytes, lead: nat, count: nat)
    requires 1 <= count < |s|
    ensures CodePoint(s, lead, count + 1) == CodePoint(s, lead, count) * 0x40 + s[count] as int % 0x40
  {
  }

  /** What the lead byte alone decides. */
  lemma LeadByte(s: Bytes)
    requires s != []
    ensures s[0] <= 0x7F ==> CharLength(s) == 1
    ensures 0x80 <= s[0] <= 0xBF || s[0] >= 0xF8 ==> CharLength(s) == 0
    ensures 0xC0 <= s[0] <= 0xDF && |s| < 2 ==> CharLength(s) == 0
    ensures 0xE0 <= s[0] <= 0xEF && |s| < 3 ==> CharLength(s) == 0
    ensures 0xF0 <= s[0] && |s| < 4 ==> CharLength(s) == 0
  {
  }

  method DomainIsValidUtf8(value: Bytes) returns (ok: bool)
    ensures ok <==> WellFormed(value)
  {
    hide CharLength, WellFormed, CodePoint;
    WholeIsRest(value);
    var index := 0;
    while index < |value|
      invariant index <= |value|
      invariant WellFormed(value) <==> WellFormed(value[index..])
    {
      FirstChar(value, index);
      ghost var rest := value[index..];
      LeadByte(rest);
      var first := value[index];
      if first <= 0x7F {
        index := index + 1;
        continue;
      }
      var count, codePoint: int, minimum := 0, 0, 0;
      if 0xC0 <= first <= 0xDF {
        count, codePoint, minimum := 2, first % 0x20, 0x80;
      } else if 0xE0 <= first <= 0xEF {
        count, codePoint, minimum := 3, first % 0x10, 0x800;
      } else if 0xF0 <= first <= 0xF7 {
        count, codePoint, minimum := 4, first % 8, 0x10000;
      } else {
        return false;
      }
      if index + count > |value| { return false; }
      ghost var lead := codePoint;
      if count == 2 { TwoByteChars(rest); } else if count == 3 { ThreeByteChars(rest); } else { FourByteChars(rest); }
      FirstBits(rest, lead);
      var offset := 1;
      while offset < count
        invariant 1 <= offset <= count
        invariant Continuations(rest, offset)
        invariant codePoint == CodePoint(rest, lead, offset)
      {
        var next := value[index + offset];
        if !(0x80 <= next <= 0xBF) {
          assert !Tail(rest[offset]);
          return false;
        }
        NextBits(rest, lead, offset);
        codePoint := codePoint * 0x40 + next as int % 0x40;
        offset := offset + 1;
      }
      if codePoint < minimum || codePoint > 0x10FFFF || 0xD800 <= codePoint <= 0xDFFF { return false; }
      index := index + count;
    }
    ok := true;
  }

  method TrackerIsValidUtf8(value: Bytes) returns (ok: bool)
    ensures ok <==> WellFormed(value)
  {
    hide CharLength, WellFormed, CodePoint;
    WholeIsRest(value);
    var index := 0;
    while index < |value|
      invariant index <= |value|
      invariant WellFormed(value) <==> WellFormed(value[index..])
    {
      FirstChar(value, index);
      ghost var rest := value[index..];
      LeadByte(rest);
      var first := value[index];
      if first <= 0x7F {
        index := index + 1;
        continue;
      }
      var continuationCount, codePoint: int := 0, 0;
      if 0xC0 <= first <= 0xDF {
        continuationCount, codePoint := 1, first % 0x20;
      } else if 0xE0 <= first <= 0xEF {
        continuationCount, codePoint := 2, first % 0x10;
      } else if 0xF0 <= first <= 0xF7 {
        continuationCount, codePoint := 3, first % 8;
      } else {
        return false;
      }
      if index + continuationCount >= |value| { return false; }
      ghost var lead := codePoint;
      if continuationCount == 1 { TwoByteChars(rest); }
      else if continuationCount == 2 { ThreeByteChars(rest); }
      else { FourByteChars(rest); }
      FirstBits(rest, lead);
      var continuation := 1;
      while continuation <= continuationCount
        invariant 1 <= continuation <= continuationCount + 1
        invariant Continuations(rest, continuation)
        invariant codePoint == CodePoint(rest, lead, continuation)
      {
        var byte := value[index + continuation];
        if !(0x80 <= byte <= 0xBF) {
          assert !Tail(rest[continuation]);
          return false;
        }
        NextBits(rest, lead, continuation);
        codePoint := codePoint * 0x40 + byte as int % 0x40;
        continuation := continuation + 1;
      }
      if (continuationCount == 1 && codePoint < 0x80) || (continuationCount == 2 && codePoint < 0x800)
         || (continuationCount == 3 && codePoint < 0x10000) || codePoint > 0x10FFFF
         || 0xD800 <= codePoint <= 0xDFFF {
        return false;
      }
      index := index + continuationCount + 1;
    }
    ok := true;
  }
}
