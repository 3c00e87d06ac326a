/** URLs by their parts: exactly which are accepted, what they are compared by, and when two compare equal. */
module UrlGrammar {
  import opened ByteStrings
  import opened Urls
  import opened Wrappers
  import Utf8

  datatype Parts = Parts(scheme: Bytes, userInfo: Bytes, host: Bytes, port: Option<Bytes>, suffix: Bytes)

  predicate NoneIn(s: Bytes, marks: set<Byte>) { forall i :: 0 <= i < |s| ==> s[i] !in marks }

  /** `user:password@`, or nothing. */
  predicate GoodUserInfo(s: Bytes) {
    NoneIn(s, {SLASH, QUESTION, HASH}) && (s != [] ==> s[|s| - 1] == AT_SIGN)
  }

  /** A bracketed address, or a name without colons. */
  predicate GoodHost(s: Bytes) {
    && s != [] && NoneIn(s, {SLASH, QUESTION, HASH, AT_SIGN})
    && if s[0] == OPEN_BRACKET then s[|s| - 1] == CLOSE_BRACKET && NoneIn(s[..|s| - 1], {CLOSE_BRACKET})
       else NoneIn(s, {COLON})
  }

  predicate GoodPort(s: Bytes) { s != [] && AllDigits(s) && 1 <= Number(s) <= 65535 }

  predicate Good(u: Parts) {
    && GoodUserInfo(u.userInfo) && GoodHost(u.host) && (u.port.Some? ==> GoodPort(u.port.value))
    && (u.suffix == [] || u.suffix[0] in {SLASH, QUESTION, HASH})
  }

  function PortText(port: Option<Bytes>): Bytes { if port.Some? then [COLON] + port.value else [] }

  function Authority(u: Parts): Bytes { u.host + PortText(u.port) }

  function Written(u: Parts): Bytes {
    u.scheme + [COLON, SLASH, SLASH] + (u.userInfo + Authority(u)) + u.suffix
  }

  /** The port that is part of the key. */
  function KeptPort(scheme: Bytes, port: Option<Bytes>): Option<Bytes> {
    if port.Some? && GoodPort(port.value)
       && ((scheme == Ascii("http") && Number(port.value) == 80)
           || (scheme == Ascii("https") && Number(port.value) == 443)) then None
    else port
  }

  /** Scheme and host in lower case, and no port where it is the scheme's own. */
  function Canonical(u: Parts): Parts {
    Parts(Lower(u.scheme), u.userInfo, Lower(u.host), KeptPort(Lower(u.scheme), u.port), u.suffix)
  }

  /** The schemes of trackers and of web seeds. */
  ghost predicate KnownSchemes(schemes: set<Bytes>) {
    schemes <= {Ascii("http"), Ascii("https"), Ascii("udp")}
  }

  ghost predicate Acceptable(u: Parts, schemes: set<Bytes>) {
    Good(u) && Lower(u.scheme) in schemes && Utf8.WellFormed(Written(u)) && Printable(Written(u))
  }

  // ----- finding the parts ------------------------------------------------------------------------------

  /** The parts of an authority, by the searches of the program. */
  function Dissected(scheme: Bytes, whole: Bytes, suffix: Bytes): Parts {
    var at := FindLast(whole, AT_SIGN);
    var split := SplitHostPort(if at.Some? then whole[at.value + 1..] else whole);
    var parts := if split.Some? then split.value else HostPort([], []);
    Parts(scheme, if at.Some? then whole[..at.value + 1] else [], parts.host,
          if parts.port == [] then None else Some(parts.port), suffix)
  }

  lemma FindAnyIs(s: Bytes, marks: set<Byte>, before: Bytes, after: Bytes)
    requires s == before + after && NoneIn(before, marks) && (after == [] || after[0] in marks)
    ensures FindAny(s, marks) == if after == [] then None else Some(|before|)
  {
    assert forall i :: 0 <= i < |before| ==> s[i] == before[i];
    if after != [] { assert s[|before|] == after[0]; }
  }

  lemma FindLastIs(s: Bytes, mark: Byte, before: Bytes, after: Bytes)
    requires s == before + after && NoneIn(after, {mark}) && (before == [] || before[|before| - 1] == mark)
    ensures FindLast(s, mark) == if before == [] then None else Some(|before| - 1)
  {
    if before != [] { assert s[|before| - 1] == mark; }
    assert forall i :: 0 <= i < |after| ==> s[|before| + i] == after[i];
    assert forall i :: |before| <= i < |s| ==> s[i] == after[i - |before|];
  }

  lemma SplitBracketed(host: Bytes, port: Bytes)
    requires GoodHost(host) && host[0] == OPEN_BRACKET && AllDigits(port)
    ensures SplitHostPort(host + if port == [] then [] else [COLON] + port) == Some(HostPort(host, port))
  {
    hide FindAny, FindLast, AllDigits;
    var n, text := |host| - 1, if port == [] then [] else [COLON] + port;
    var authority := host + text;
    assert authority == host[..n] + ([CLOSE_BRACKET] + text) && authority[0] == host[0];
    FindAnyIs(authority, {CLOSE_BRACKET}, host[..n], [CLOSE_BRACKET] + text);
    assert authority[..n + 1] == host;
    if port == [] {
      assert authority == host;
    } else {
      assert authority[n + 2..] == port;
    }
  }

  lemma SplitNamed(host: Bytes, port: Bytes)
    requires GoodHost(host) && host[0] != OPEN_BRACKET && AllDigits(port)
    ensures SplitHostPort(host + if port == [] then [] else [COLON] + port) == Some(HostPort(host, port))
  {
    hide FindAny, FindLast;
    var text := if port == [] then [] else [COLON] + port;
    var authority := host + text;
    assert authority[0] == host[0];
    FindAnyIs(authority, {COLON}, host, text);
    if port == [] {
      assert authority == host == [] + host;
      FindLastIs(authority, COLON, [], host);
    } else {
      assert authority == (host + [COLON]) + port;
      FindLastIs(authority, COLON, host + [COLON], port);
      assert authority[..|host|] == host && authority[|host| + 1..] == port;
    }
  }

  lemma SplitAuthority(u: Parts)
    requires GoodHost(u.host) && (u.port.Some? ==> GoodPort(u.port.value))
    ensures SplitHostPort(Authority(u)) == Some(HostPort(u.host, if u.port.Some? then u.port.value else []))
  {
    assert u.host != [];
    hide GoodHost, SplitHostPort, Number;
    var port := if u.port.Some? then u.port.value else [];
    if u.host[0] == OPEN_BRACKET { SplitBracketed(u.host, port); } else { SplitNamed(u.host, port); }
  }

  lemma NoneInJoin(a: Bytes, b: Bytes, marks: set<Byte>)
    ensures NoneIn(a + b, marks) <==> NoneIn(a, marks) && NoneIn(b, marks)
  {
    assert forall i :: 0 <= i < |a| ==> (a + b)[i] == a[i];
    assert forall i :: 0 <= i < |b| ==> (a + b)[|a| + i] == b[i];
    assert forall i :: |a| <= i < |a + b| ==> (a + b)[i] == b[i - |a|];
  }

  lemma AuthorityMarks(u: Parts)
    requires Good(u)
    ensures NoneIn(Authority(u), {AT_SIGN}) && NoneIn(u.userInfo + Authority(u), {SLASH, QUESTION, HASH})
    ensures u.userInfo != [] ==> u.userInfo[|u.userInfo| - 1] == AT_SIGN
    ensures u.suffix == [] || u.suffix[0] in {SLASH, QUESTION, HASH}
  {
    hide Number;
    NoneInJoin(u.host, PortText(u.port), {AT_SIGN});
    NoneInJoin(u.host, PortText(u.port), {SLASH, QUESTION, HASH});
    NoneInJoin(u.userInfo, Authority(u), {SLASH, QUESTION, HASH});
  }

  /** The searches find the parts a URL was put together from, so these are unique. */
  lemma DissectedIs(u: Parts)
    requires Good(u)
    ensures Dissected(u.scheme, u.userInfo + Authority(u), u.suffix) == u
    ensures var whole := u.userInfo + Authority(u);
            FindAny(whole + u.suffix, {SLASH, QUESTION, HASH}) == if u.suffix == [] then None else Some(|whole|)
  {
    var whole, authority := u.userInfo + Authority(u), Authority(u);
    AuthorityMarks(u);
    SplitAuthority(u);
    GoodPortIsText(u);
    hide SplitHostPort, FindAny, FindLast, NoneIn, Good, Authority;
    FindAnyIs(whole + u.suffix, {SLASH, QUESTION, HASH}, whole, u.suffix);
    FindLastIs(whole, AT_SIGN, u.userInfo, authority);
    assert whole[..|u.userInfo|] == u.userInfo && whole[|u.userInfo|..] == authority;
    assert u.userInfo == [] ==> whole == authority;
  }

  lemma GoodPortIsText(u: Parts)
    requires Good(u)
    ensures u.port.Some? ==> u.port.value != []
  {
  }

  // ----- schemes -------------------------------------------------------------------------------------------

  lemma {:induction false} FindPartIs(s: Bytes, part: Bytes, from: nat, at: nat)
    requires part != [] && from <= at && HoldsAt(s, at, part)
    requires forall k :: from <= k < at ==> s[k] != part[0]
    ensures FindPart(s, part, from) == Some(at)
    decreases at - from
  {
    if from < at {
      assert s[from..from + |part|][0] == s[from];
      FindPartIs(s, part, from + 1, at);
    }
  }

  lemma KnownSchemeHasNoColon(scheme: Bytes, schemes: set<Bytes>)
    requires KnownSchemes(schemes) && Lower(scheme) in schemes
    ensures scheme != [] && NoneIn(scheme, {COLON})
  {
    var lower := Lower(scheme);
    assert Ascii("http") == [0x68, 0x74, 0x74, 0x70] && Ascii("https") == [0x68, 0x74, 0x74, 0x70, 0x73];
    assert Ascii("udp") == [0x75, 0x64, 0x70];
    forall i | 0 <= i < |scheme| ensures scheme[i] != COLON {
      assert lower[i] == LowerByte(scheme[i]) && lower[i] != COLON;
    }
  }

  lemma WrittenLayout(u: Parts)
    ensures HoldsAt(Written(u), |u.scheme|, SEPARATOR) && Written(u)[..|u.scheme|] == u.scheme
    ensures Written(u)[|u.scheme| + 3..] == u.userInfo + Authority(u) + u.suffix
    ensures forall k :: 0 <= k < |u.scheme| ==> Written(u)[k] == u.scheme[k]
  {
    var rest := u.userInfo + Authority(u) + u.suffix;
    assert Written(u) == u.scheme + SEPARATOR + rest;
  }

  lemma SchemeIsFound(u: Parts, schemes: set<Bytes>)
    requires KnownSchemes(schemes) && Lower(u.scheme) in schemes
    ensures u.scheme != [] && FindPart(Written(u), SEPARATOR) == Some(|u.scheme|)
  {
    KnownSchemeHasNoColon(u.scheme, schemes);
    WrittenLayout(u);
    FindPartIs(Written(u), SEPARATOR, 0, |u.scheme|);
  }

  // ----- acceptance ------------------------------------------------------------------------------------------

  /** A search from `start` on finds what a search of the rest finds. */
  lemma {:induction false} FindAnyFrom(s: Bytes, marks: set<Byte>, start: nat, from: nat)
    requires start <= from <= |s|
    ensures FindAny(s, marks, from)
         == match FindAny(s[start..], marks, from - start) case None => None case Some(n) => Some(n + start)
    decreases |s| - from
  {
    if from < |s| && s[from] !in marks { FindAnyFrom(s, marks, start, from + 1); }
  }

  /** The authority behind the user info. */
  function Behind(whole: Bytes): Bytes {
    var at := FindLast(whole, AT_SIGN);
    if at.Some? then whole[at.value + 1..] else whole
  }

  /** The key in terms of the parts that are found. */
  lemma AuthorityKeyIs(scheme: Bytes, whole: Bytes, suffix: Bytes)
    ensures var u := Dissected(scheme, whole, suffix);
            AuthorityKey(scheme, whole, suffix)
            == if whole == [] || SplitHostPort(Behind(whole)) == None || u.host == []
                  || (u.port == None && Behind(whole)[|Behind(whole)| - 1] == COLON)
                  || (u.port.Some? && !GoodPort(u.port.value)) then None
               else Some(scheme + SEPARATOR + u.userInfo + Lower(u.host) + PortText(KeptPort(scheme, u.port)) + suffix)
  {
    hide SplitHostPort, FindLast, Lower, Number, AllDigits;
  }

  lemma JoinParts(a: Bytes, b: Bytes, c: Bytes, d: Bytes, e: Bytes, f: Bytes)
    ensures a + b + c + d + e + f == a + b + (c + (d + e)) + f
  {
  }

  /** The key of an authority put together from good parts. */
  lemma KeyOfGood(u: Parts)
    requires Good(u)
    ensures AuthorityKey(Lower(u.scheme), u.userInfo + Authority(u), u.suffix) == Some(Written(Canonical(u)))
  {
    hide SplitHostPort, FindLast, Lower, NoneIn, AuthorityKey;
    var scheme, whole := Lower(u.scheme), u.userInfo + Authority(u);
    DissectedIs(u.(scheme := scheme));
    AuthorityKeyIs(scheme, whole, u.suffix);
    BehindIs(u);
    SplitAuthority(u);
    JoinParts(scheme, SEPARATOR, u.userInfo, Lower(u.host), PortText(KeptPort(scheme, u.port)), u.suffix);
    assert u.port.Some? || Authority(u)[|Authority(u)| - 1] != COLON by { HostEnds(u.host); }
  }

  lemma BehindIs(u: Parts)
    requires Good(u)
    ensures Behind(u.userInfo + Authority(u)) == Authority(u) != []
  {
    NoneInJoin(u.host, PortText(u.port), {AT_SIGN});
    FindLastIs(u.userInfo + Authority(u), AT_SIGN, u.userInfo, Authority(u));
  }

  lemma HostEnds(host: Bytes)
    requires GoodHost(host)
    ensures host[|host| - 1] != COLON
  {
  }

  lemma BracketedMeans(authority: Bytes)
    requires SplitHostPort(authority).Some? && NoneIn(authority, {SLASH, QUESTION, HASH, AT_SIGN})
    requires authority != [] && authority[0] == OPEN_BRACKET
    ensures var h := SplitHostPort(authority).value;
            GoodHost(h.host) && (h.port == [] ==> authority == h.host || authority == h.host + [COLON])
            && (h.port != [] ==> authority == h.host + ([COLON] + h.port))
  {
    hide FindAny, FindLast;
    var n := FindAny(authority, {CLOSE_BRACKET}).value;
    assert authority == authority[..n + 1] + authority[n + 1..];
    var front := authority[..n + 1];
    assert front[..n] == authority[..n];
    if n + 1 < |authority| { assert authority[n + 1..] == [COLON] + authority[n + 2..]; }
  }

  lemma NamedMeans(authority: Bytes)
    requires SplitHostPort(authority).Some? && NoneIn(authority, {SLASH, QUESTION, HASH, AT_SIGN})
    requires authority != [] && authority[0] != OPEN_BRACKET && SplitHostPort(authority).value.host != []
    ensures var h := SplitHostPort(authority).value;
            GoodHost(h.host) && (h.port == [] ==> authority == h.host || authority == h.host + [COLON])
            && (h.port != [] ==> authority == h.host + ([COLON] + h.port))
  {
    hide FindAny, FindLast;
    var at := FindLast(authority, COLON);
    if at.Some? { assert authority == authority[..at.value] + ([COLON] + authority[at.value + 1..]); }
  }

  /** What a split authority was put together from. */
  lemma SplitMeans(authority: Bytes)
    requires SplitHostPort(authority).Some? && NoneIn(authority, {SLASH, QUESTION, HASH, AT_SIGN})
    requires authority != [] && SplitHostPort(authority).value.host != []
    ensures var h := SplitHostPort(authority).value;
            GoodHost(h.host) && (h.port == [] ==> authority == h.host || authority == h.host + [COLON])
            && (h.port != [] ==> authority == h.host + ([COLON] + h.port))
  {
    hide SplitHostPort, NoneIn, GoodHost;
    if authority[0] == OPEN_BRACKET { BracketedMeans(authority); } else { NamedMeans(authority); }
  }

  lemma BehindMarks(whole: Bytes)
    requires NoneIn(whole, {SLASH, QUESTION, HASH})
    ensures NoneIn(Behind(whole), {SLASH, QUESTION, HASH, AT_SIGN})
    ensures var at := FindLast(whole, AT_SIGN);
            var userInfo := if at.Some? then whole[..at.value + 1] else [];
            GoodUserInfo(userInfo) && whole == userInfo + Behind(whole)
  {
    var userInfo := BehindSplits(whole);
    NoAtBehind(whole);
    hide FindLast, NoneIn, Behind;
    NoneInJoin(userInfo, Behind(whole), {SLASH, QUESTION, HASH});
    NoneInBoth(Behind(whole));
  }

  lemma BehindSplits(whole: Bytes) returns (userInfo: Bytes)
    ensures var at := FindLast(whole, AT_SIGN); userInfo == if at.Some? then whole[..at.value + 1] else []
    ensures whole == userInfo + Behind(whole) && (userInfo != [] ==> userInfo[|userInfo| - 1] == AT_SIGN)
  {
    hide FindLast;
    var at := FindLast(whole, AT_SIGN);
    userInfo := if at.Some? then whole[..at.value + 1] else [];
  }

  lemma NoAtBehind(whole: Bytes)
    ensures NoneIn(Behind(whole), {AT_SIGN})
  {
    hide FindLast;
  }

  lemma NoneInBoth(s: Bytes)
    requires NoneIn(s, {SLASH, QUESTION, HASH}) && NoneIn(s, {AT_SIGN})
    ensures NoneIn(s, {SLASH, QUESTION, HASH, AT_SIGN})
  {
  }

  /** And an authority that has a key is put together from good parts. */
  lemma KeyNeedsGood(scheme: Bytes, whole: Bytes, suffix: Bytes)
    requires NoneIn(whole, {SLASH, QUESTION, HASH}) && (suffix == [] || suffix[0] in {SLASH, QUESTION, HASH})
    requires AuthorityKey(Lower(scheme), whole, suffix).Some?
    ensures var u := Dissected(scheme, whole, suffix);
            Good(u) && whole == u.userInfo + Authority(u)
  {
    KeyConditions(Lower(scheme), scheme, whole, suffix);
    BehindMarks(whole);
    DissectedKeeps(scheme, whole, suffix);
    hide SplitHostPort, Lower, AuthorityKey, NoneIn, FindLast, GoodHost, GoodUserInfo, GoodPort, Dissected, Behind;
    var behind := Behind(whole);
    EmptyHasNoHost(behind);
    SplitMeans(behind);
    PartsOfSplit(SplitHostPort(behind).value, behind);
    hide PortText;
  }

  lemma KeyConditions(lower: Bytes, scheme: Bytes, whole: Bytes, suffix: Bytes)
    requires AuthorityKey(lower, whole, suffix).Some?
    ensures SplitHostPort(Behind(whole)).Some? && SplitHostPort(Behind(whole)).value.host != []
    ensures var u := Dissected(scheme, whole, suffix);
            && u.host == SplitHostPort(Behind(whole)).value.host
            && (u.port == None ==> Behind(whole) == [] || Behind(whole)[|Behind(whole)| - 1] != COLON)
            && (u.port.Some? ==> GoodPort(u.port.value))
            && var port := SplitHostPort(Behind(whole)).value.port; u.port == if port == [] then None else Some(port)
  {
    AuthorityKeyIs(lower, whole, suffix);
    hide SplitHostPort, FindLast, AuthorityKey, GoodPort;
    EmptyHasNoHost(Behind(whole));
  }

  lemma PartsOfSplit(h: HostPort, behind: Bytes)
    requires h.port == [] ==> behind == h.host || behind == h.host + [COLON]
    requires h.port != [] ==> behind == h.host + ([COLON] + h.port)
    ensures behind == h.host + PortText(if h.port == [] then None else Some(h.port))
            || (h.port == [] && behind != [] && behind[|behind| - 1] == COLON)
  {
    assert (h.host + [COLON])[|h.host|] == COLON;
    assert h.host + [] == h.host;
  }

  lemma EmptyHasNoHost(authority: Bytes)
    ensures authority == [] && SplitHostPort(authority).Some? ==> SplitHostPort(authority).value.host == []
  {
  }

  // ----- the grammar -----------------------------------------------------------------------------------------

  /** Every acceptable composition of parts is accepted, with the canonical composition as its key. */
  lemma PartsAreAccepted(u: Parts, schemes: set<Bytes>)
    requires KnownSchemes(schemes) && Acceptable(u, schemes)
    ensures ParseUrl(Written(u), schemes) == Some(Written(Canonical(u)))
  {
    hide Utf8.WellFormed, Printable, Lower, FindPart, FindAny, AuthorityKey, Good, Canonical, Authority;
    SchemeIsFound(u, schemes);
    WrittenLayout(u);
    KeyFromRest(Written(u), Lower(u.scheme), |u.scheme| + 3);
    DissectedIs(u);
    var whole := u.userInfo + Authority(u);
    assert (whole + u.suffix)[..|whole|] == whole && (whole + u.suffix)[|whole|..] == u.suffix;
    assert u.suffix == [] ==> whole + u.suffix == whole;
    KeyOfGood(u);
  }

  lemma KeyFromRest(value: Bytes, scheme: Bytes, start: nat)
    requires start <= |value|
    ensures var rest := value[start..];
            var end := FindAny(rest, {SLASH, QUESTION, HASH});
            KeyFrom(value, scheme, start)
            == if end.Some? then AuthorityKey(scheme, rest[..end.value], rest[end.value..])
               else AuthorityKey(scheme, rest, [])
  {
    hide AuthorityKey;
    FindAnyFrom(value, {SLASH, QUESTION, HASH}, start, start);
    var end := FindAny(value[start..], {SLASH, QUESTION, HASH});
    if end.Some? {
      assert value[start..][..end.value] == value[start..start + end.value];
      assert value[start..][end.value..] == value[start + end.value..];
    } else {
      assert value[start..|value|] == value[start..];
    }
  }

  lemma RestHasParts(scheme: Bytes, rest: Bytes, end: Option<nat>) returns (u: Parts)
    requires end == FindAny(rest, {SLASH, QUESTION, HASH})
    requires AuthorityKey(Lower(scheme), if end.Some? then rest[..end.value] else rest,
                          if end.Some? then rest[end.value..] else []).Some?
    ensures Good(u) && u.scheme == scheme && rest == u.userInfo + Authority(u) + u.suffix
  {
    var whole := if end.Some? then rest[..end.value] else rest;
    var suffix := if end.Some? then rest[end.value..] else [];
    hide Lower, AuthorityKey, Good, Dissected, Authority, FindAny;
    assert rest == whole + suffix;
    KeyNeedsGood(scheme, whole, suffix);
    u := Dissected(scheme, whole, suffix);
    DissectedKeeps(scheme, whole, suffix);
  }

  /** Every accepted URL is an acceptable composition of parts. */
  lemma {:induction false} AcceptedHasParts(value: Bytes, schemes: set<Bytes>) returns (u: Parts)
    requires ParseUrl(value, schemes).Some?
    ensures Acceptable(u, schemes) && Written(u) == value
  {
    hide Utf8.WellFormed, Printable, Lower, AuthorityKey, KeyFrom, Good, Authority, FindAny, FindPart;
    var n := FindPart(value, SEPARATOR).value;
    var scheme, rest := value[..n], value[n + 3..];
    assert value == scheme + SEPARATOR + rest;
    KeyFromRest(value, Lower(scheme), n + 3);
    u := RestHasParts(scheme, rest, FindAny(rest, {SLASH, QUESTION, HASH}));
    ConcatAssociative(scheme + SEPARATOR, u.userInfo + Authority(u), u.suffix);
  }

  lemma DissectedKeeps(scheme: Bytes, whole: Bytes, suffix: Bytes)
    ensures Dissected(scheme, whole, suffix).scheme == scheme && Dissected(scheme, whole, suffix).suffix == suffix
    ensures var at := FindLast(whole, AT_SIGN);
            Dissected(scheme, whole, suffix).userInfo == if at.Some? then whole[..at.value + 1] else []
  {
  }

  /** Exactly these are accepted. */
  lemma {:induction false} AcceptedIff(value: Bytes, schemes: set<Bytes>)
    requires KnownSchemes(schemes)
    ensures ParseUrl(value, schemes).Some? <==> exists u :: Acceptable(u, schemes) && Written(u) == value
  {
    hide Acceptable, Written, ParseUrl;
    if ParseUrl(value, schemes).Some? { var u := AcceptedHasParts(value, schemes); }
    forall u | Acceptable(u, schemes) && Written(u) == value { PartsAreAccepted(u, schemes); }
  }

  /** The parts of a URL are unique. */
  lemma PartsAreUnique(u: Parts, v: Parts)
    requires Good(u) && Good(v) && Written(u) == Written(v)
    requires KnownSchemes({Lower(u.scheme)}) && KnownSchemes({Lower(v.scheme)})
    ensures u == v
  {
    hide Good, Authority, FindAny, Lower, FindPart, Dissected;
    SchemeIsFound(u, {Lower(u.scheme)});
    SchemeIsFound(v, {Lower(v.scheme)});
    WrittenLayout(u);
    WrittenLayout(v);
    DissectedIs(u);
    DissectedIs(v);
    var a, b := u.userInfo + Authority(u), v.userInfo + Authority(v);
    assert a + u.suffix == b + v.suffix;
    assert (a + u.suffix)[..|a|] == a && (b + v.suffix)[..|b|] == b;
    assert (a + u.suffix)[|a|..] == u.suffix && (b + v.suffix)[|b|..] == v.suffix;
    assert u.suffix == [] ==> a + u.suffix == a;
    assert v.suffix == [] ==> b + v.suffix == b;
  }

  lemma LowerTwice(s: Bytes)
    ensures Lower(Lower(s)) == Lower(s)
  {
  }

  lemma CanonicalIsGood(u: Parts)
    requires Good(u)
    ensures Good(Canonical(u)) && Lower(Canonical(u).scheme) == Lower(u.scheme)
  {
    hide Number, Ascii;
    LowerTwice(u.scheme);
    var lower := Lower(u.host);
    forall i | 0 <= i < |lower|
      ensures lower[i] == LowerByte(u.host[i])
      ensures lower[i] !in {SLASH, QUESTION, HASH, AT_SIGN}
    {
    }
    if u.host[0] == OPEN_BRACKET {
      var front := lower[..|lower| - 1];
      forall i | 0 <= i < |front| ensures front[i] != CLOSE_BRACKET {
        assert u.host[..|u.host| - 1][i] == u.host[i] != CLOSE_BRACKET;
      }
    }
  }

  /** No port, or the one of the scheme, however many zeros it starts with. */
  predicate OwnPort(u: Parts)
    requires Good(u)
  {
    u.port.Some? ==>
      || (EqualButForCase(u.scheme, Ascii("http")) && Number(u.port.value) == 80)
      || (EqualButForCase(u.scheme, Ascii("https")) && Number(u.port.value) == 443)
  }

  predicate SameUrl(u: Parts, v: Parts)
    requires Good(u) && Good(v)
  {
    && EqualButForCase(u.scheme, v.scheme) && u.userInfo == v.userInfo && EqualButForCase(u.host, v.host)
    && (u.port == v.port || (OwnPort(u) && OwnPort(v))) && u.suffix == v.suffix
  }

  lemma OwnPortIsDropped(u: Parts)
    requires Good(u)
    ensures KeptPort(Lower(u.scheme), u.port) == if OwnPort(u) then None else u.port
    ensures !OwnPort(u) ==> u.port.Some?
  {
    hide Number, EqualButForCase, AllDigits;
    LowerIgnoresCase(u.scheme, Ascii("http"));
    LowerIgnoresCase(u.scheme, Ascii("https"));
    SchemesAreLower();
  }

  lemma SchemesAreLower()
    ensures Lower(Ascii("http")) == Ascii("http") && Lower(Ascii("https")) == Ascii("https")
    ensures Lower(Ascii("udp")) == Ascii("udp")
  {
  }

  lemma SameCanonicalIff(u: Parts, v: Parts)
    requires Good(u) && Good(v)
    ensures Canonical(u) == Canonical(v) <==> SameUrl(u, v)
  {
    hide EqualButForCase, Lower, OwnPort, KeptPort, Good;
    LowerIgnoresCase(u.scheme, v.scheme);
    LowerIgnoresCase(u.host, v.host);
    OwnPortIsDropped(u);
    OwnPortIsDropped(v);
    if EqualButForCase(u.scheme, v.scheme) && u.port == v.port { OwnPortOfScheme(u, v); }
  }

  /** Whether a port is the scheme's own depends on nothing else. */
  lemma OwnPortOfScheme(u: Parts, v: Parts)
    requires Good(u) && Good(v) && EqualButForCase(u.scheme, v.scheme) && u.port == v.port
    ensures OwnPort(u) == OwnPort(v)
  {
    hide EqualButForCase, Number;
    LowerIgnoresCase(u.scheme, v.scheme);
    LowerIgnoresCase(u.scheme, Ascii("http"));
    LowerIgnoresCase(u.scheme, Ascii("https"));
    LowerIgnoresCase(v.scheme, Ascii("http"));
    LowerIgnoresCase(v.scheme, Ascii("https"));
  }

  /**
    Two accepted URLs compare equal exactly when they have the same user info and suffix, the same scheme and
    host but for the case of letters, and the same port, where the scheme's own counts as none.
  */
  lemma SameKeyIff(u: Parts, v: Parts, schemes: set<Bytes>)
    requires KnownSchemes(schemes) && Acceptable(u, schemes) && Acceptable(v, schemes)
    ensures ParseUrl(Written(u), schemes) == ParseUrl(Written(v), schemes) <==> SameUrl(u, v)
  {
    SameCanonicalIff(u, v);
    hide Utf8.WellFormed, Printable, Written, Good, Canonical, Lower, SameUrl;
    PartsAreAccepted(u, schemes);
    PartsAreAccepted(v, schemes);
    CanonicalIsGood(u);
    CanonicalIsGood(v);
    if Written(Canonical(u)) == Written(Canonical(v)) { PartsAreUnique(Canonical(u), Canonical(v)); }
  }

  /** Tracker URLs are those of three schemes. */
  lemma {:induction false} TrackerUrlIff(value: Bytes)
    ensures ParseUrl(value, TRACKER_SCHEMES).Some?
       <==> exists u :: Written(u) == value && Good(u) && Utf8.WellFormed(value) && Printable(value)
                        && (|| EqualButForCase(u.scheme, Ascii("http")) || EqualButForCase(u.scheme, Ascii("https"))
                            || EqualButForCase(u.scheme, Ascii("udp")))
  {
    hide ParseUrl, Written, Good, Utf8.WellFormed, Printable, EqualButForCase, Lower;
    AcceptedIff(value, TRACKER_SCHEMES);
    forall u: Parts
      ensures Lower(u.scheme) in TRACKER_SCHEMES
         <==> || EqualButForCase(u.scheme, Ascii("http")) || EqualButForCase(u.scheme, Ascii("https"))
              || EqualButForCase(u.scheme, Ascii("udp"))
    {
      SchemesAreLower();
      LowerIgnoresCase(u.scheme, Ascii("http"));
      LowerIgnoresCase(u.scheme, Ascii("https"));
      LowerIgnoresCase(u.scheme, Ascii("udp"));
    }
  }

  lemma {:induction false} AsciiIsUtf8(s: Bytes)
    requires forall i :: 0 <= i < |s| ==> s[i] < 0x80
    ensures Utf8.WellFormed(s)
  {
    if s != [] { AsciiIsUtf8(s[1..]); }
  }

  function ExampleUrl(): Parts {
    Parts([0x48, 0x54, 0x54, 0x50], [0x75, 0x40], [0x5B, 0x3A, 0x3A, 0x41, 0x5D], Some([0x38, 0x30]), [0x2F, 0x78])
  }

  function ExampleKey(): Parts {
    Parts([0x68, 0x74, 0x74, 0x70], [0x75, 0x40], [0x5B, 0x3A, 0x3A, 0x61, 0x5D], None, [0x2F, 0x78])
  }

  lemma ExampleIsGood()
    ensures Good(ExampleUrl()) && Number([0x38, 0x30]) == 80
  {
    assert [0x38, 0x30][..1] == [0x38];
  }

  lemma ExampleIsWritten()
    ensures Written(ExampleUrl()) == Ascii("HTTP://u@[::A]:80/x") && Written(ExampleKey()) == Ascii("http://u@[::a]/x")
  {
  }

  lemma ExampleIsCanonical()
    ensures Canonical(ExampleUrl()) == ExampleKey() && Lower(ExampleUrl().scheme) == Ascii("http")
  {
    hide Good, Number;
    ExampleIsGood();
    assert Good(ExampleUrl()) ==> GoodPort([0x38, 0x30]);
  }

  lemma ExampleIsAcceptable()
    ensures Acceptable(ExampleUrl(), TRACKER_SCHEMES)
  {
    var text := Written(ExampleUrl());
    assert |text| == 19 && (forall i :: 0 <= i < |text| ==> 0x20 < text[i] < 0x7F) by { ExampleIsWritten(); }
    hide Written, Ascii, Number;
    ExampleIsGood();
    ExampleIsCanonical();
    AsciiIsUtf8(text);
  }

  /** A bracketed host with user info, in capitals and with the port of its scheme. */
  lemma BracketedExample()
    ensures ParseUrl(Ascii("HTTP://u@[::A]:80/x"), TRACKER_SCHEMES) == Some(Ascii("http://u@[::a]/x"))
  {
    hide ParseUrl, Acceptable, Ascii, Written, Canonical, ExampleUrl, ExampleKey;
    ExampleIsWritten();
    ExampleIsCanonical();
    ExampleIsAcceptable();
    PartsAreAccepted(ExampleUrl(), TRACKER_SCHEMES);
  }
}
