/**
  parse_url of src/domain.cpp: which URLs are accepted, and the key two URLs are compared by.
*/
module Urls {
  import opened ByteStrings
  import opened Wrappers
  import Utf8

  const HASH: Byte := 0x23
  const AT_SIGN: Byte := 0x40
  const OPEN_BRACKET: Byte := 0x5B
  const CLOSE_BRACKET: Byte := 0x5D

  const SEPARATOR: Bytes := [COLON, SLASH, SLASH]

  /** No byte a URI may not contain: white space and control characters. */
  predicate Printable(s: Bytes) {
    forall i :: 0 <= i < |s| ==> s[i] > 0x20 && s[i] != 0x7F
  }

  lemma PrintableIff(s: Bytes)
    ensures Printable(s) <==> forall b :: b in s ==> 0x21 <= b <= 0x7E || 0x80 <= b
  {
    if forall b :: b in s ==> 0x21 <= b <= 0x7E || 0x80 <= b {
      assert forall i :: 0 <= i < |s| ==> s[i] in s;
    }
  }

  /** The first position from `from` where one of `marks` stands. */
  function FindAny(s: Bytes, marks: set<Byte>, from: nat := 0): (r: Option<nat>)
    requires from <= |s|
    ensures r.Some? ==> from <= r.value < |s| && s[r.value] in marks
    ensures forall k :: from <= k < (if r.Some? then r.value else |s|) ==> s[k] !in marks
    decreases |s| - from
  {
    if from == |s| then None else if s[from] in marks then Some(from) else FindAny(s, marks, from + 1)
  }

  /** The last position where `mark` stands. */
  function FindLast(s: Bytes, mark: Byte): (r: Option<nat>)
    ensures r.Some? ==> r.value < |s| && s[r.value] == mark
    ensures forall k :: (if r.Some? then r.value + 1 else 0) <= k < |s| ==> s[k] != mark
  {
    if s == [] then None
    else if s[|s| - 1] == mark then Some(|s| - 1)
    else FindLast(s[..|s| - 1], mark)
  }

  /** The first position where `part` stands. */
  function FindPart(s: Bytes, part: Bytes, from: nat := 0): (r: Option<nat>)
    ensures r.Some? ==> HoldsAt(s, r.value, part)
    decreases |s| - from
  {
    if from + |part| > |s| then None
    else if s[from..from + |part|] == part then Some(from)
    else if from == |s| then None
    else FindPart(s, part, from + 1)
  }

  datatype HostPort = HostPort(host: Bytes, port: Bytes)

  function SplitHostPort(authority: Bytes): Option<HostPort> {
    if authority != [] && authority[0] == OPEN_BRACKET then
      var close := FindAny(authority, {CLOSE_BRACKET});
      if close == None then None
      else if close.value + 1 < |authority| then
        if authority[close.value + 1] != COLON then None
        else Some(HostPort(authority[..close.value + 1], authority[close.value + 2..]))
      else Some(HostPort(authority, []))
    else
      var first, last := FindAny(authority, {COLON}), FindLast(authority, COLON);
      if first.Some? && first != last then None
      else if last.Some? then Some(HostPort(authority[..last.value], authority[last.value + 1..]))
      else Some(HostPort(authority, []))
  }

  /** Authority and suffix after the scheme: the comparison key, when they are acceptable. */
  function KeyFrom(value: Bytes, scheme: Bytes, start: nat): Option<Bytes>
    requires start <= |value|
  {
    var suffix := FindAny(value, {SLASH, QUESTION, HASH}, start);
    AuthorityKey(scheme, value[start..if suffix.Some? then suffix.value else |value|],
                 if suffix.Some? then value[suffix.value..] else [])
  }

  function AuthorityKey(scheme: Bytes, whole: Bytes, suffix: Bytes): Option<Bytes> {
    var at := FindLast(whole, AT_SIGN);
    var userInfo := if at.Some? then whole[..at.value + 1] else [];
    var authority := if at.Some? then whole[at.value + 1..] else whole;
    var parts := SplitHostPort(authority);
    if whole == [] || parts == None || parts.value.host == [] then None
    else
      var port := parts.value.port;
      if port == [] && authority[|authority| - 1] == COLON then None
      else if port != [] && !(AllDigits(port) && 0 < Number(port) <= 65535) then None
      else
        var isDefault := port != [] && ((scheme == Ascii("http") && Number(port) == 80)
                                        || (scheme == Ascii("https") && Number(port) == 443));
        Some(scheme + SEPARATOR + userInfo + Lower(parts.value.host)
             + (if port != [] && !isDefault then [COLON] + port else []) + suffix)
  }

  /** The comparison key of an accepted URL. */
  function ParseUrl(value: Bytes, schemes: set<Bytes>): Option<Bytes> {
    var separator := FindPart(value, SEPARATOR);
    if value == [] || !Utf8.WellFormed(value) || !Printable(value) then None
    else if separator == None || separator.value == 0 then None
    else
      var scheme := Lower(value[..separator.value]);
      if scheme !in schemes then None else KeyFrom(value, scheme, separator.value + 3)
  }

  const TRACKER_SCHEMES: set<Bytes> := {Ascii("http"), Ascii("https"), Ascii("udp")}
  const WEB_SEED_SCHEMES: set<Bytes> := {Ascii("http"), Ascii("https")}

  /** An accepted tracker URL is not empty, has no white space and does not look like a comment. */
  lemma {:induction false} AcceptedTrackerUrl(value: Bytes)
    requires ParseUrl(value, TRACKER_SCHEMES).Some?
    ensures value != [] && Printable(value) && value[0] != HASH && Utf8.WellFormed(value)
  {
    hide KeyFrom, FindPart, Utf8.WellFormed;
    var n := FindPart(value, SEPARATOR).value;
    var scheme := Lower(value[..n]);
    assert scheme[0] == LowerByte(value[0]);
    assert Ascii("http")[0] == 0x68 && Ascii("https")[0] == 0x68 && Ascii("udp")[0] == 0x75;
    assert LowerByte(HASH) == HASH;
  }
}
