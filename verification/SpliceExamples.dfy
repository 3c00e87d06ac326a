/** Torrents on which the splice does not do what was asked. */
module SpliceExamples {
  import opened ByteStrings
  import opened Bencode
  import opened BencodeParser
  import opened InfoSplice
  import opened UnsafeSplice
  import opened Wrappers

  /** One SHA-1 hash that ends in so many ASCII digits. */
  function Pieces(digits: nat): (b: Bytes)
    requires digits <= 20
    ensures |b| == 20
  {
    seq(20, i => if i < 20 - digits then 0 else 0x35)
  }

  lemma PiecesEnd(digits: nat)
    requires digits <= 20
    ensures TrailingDigits(Pieces(digits)) == digits
  {
    DigitsAtEnd(Pieces(digits), digits);
  }

  lemma {:induction false} DigitsAtEnd(b: Bytes, digits: nat)
    requires digits <= |b| && (forall i :: |b| - digits <= i < |b| ==> IsDigit(b[i]))
    requires digits < |b| ==> !IsDigit(b[|b| - digits - 1])
    ensures TrailingDigits(b) == digits
  {
    if digits > 0 { DigitsAtEnd(b[..|b| - 1], digits - 1); }
  }

  /** The info dictionary of a torrent with one file of four bytes, and more entries behind the hashes. */
  function Info(pieces: Bytes, more: seq<Entry>): seq<Entry> {
    [Entry(Ascii("length"), IntegerValue(4)),
     Entry(Ascii("name"), StringValue(Ascii("a"))),
     Entry(Ascii("piece length"), IntegerValue(16384)),
     Entry(Ascii("pieces"), StringValue(pieces))] + more
  }

  function Tops(info: seq<Entry>): seq<Entry> { [Entry(Ascii("info"), DictionaryValue(info))] }

  function PrivateEntry(value: int): Entry { Entry(IdentityKey(Private), IntegerValue(value)) }

  /** "6:source1:s" */
  const A_SOURCE: Entry := Entry(IdentityKey(Source), StringValue(Ascii("s")))

  /** "1:x9:abcdefghi" */
  function ExtraEntry(): Entry { Entry(Ascii("x"), StringValue(Ascii("abcdefghi"))) }

  // ----- the keys are in order -----------------------------------------------------------------------------

  lemma {:induction false} LessAtDifference(a: Bytes, b: Bytes, n: nat)
    requires n < |a| && n < |b| && a[..n] == b[..n] && a[n] < b[n]
    ensures Less(a, b)
  {
    if n > 0 {
      assert a[0] == a[..n][0] && b[0] == b[..n][0];
      assert a[1..][..n - 1] == a[..n][1..] && b[1..][..n - 1] == b[..n][1..];
      LessAtDifference(a[1..], b[1..], n - 1);
    }
  }

  lemma KeysAscend()
    ensures Less(Ascii("length"), Ascii("name")) && Less(Ascii("name"), Ascii("piece length"))
    ensures Less(Ascii("piece length"), Ascii("pieces")) && Less(Ascii("pieces"), IdentityKey(Private))
    ensures Less(Ascii("pieces"), IdentityKey(Source)) && Less(IdentityKey(Private), IdentityKey(Source))
    ensures Less(IdentityKey(Source), Ascii("x"))
  {
    hide Less;
    LessAtDifference(Ascii("length"), Ascii("name"), 0);
    LessAtDifference(Ascii("name"), Ascii("piece length"), 0);
    LessAtDifference(Ascii("piece length"), Ascii("pieces"), 5);
    LessAtDifference(Ascii("pieces"), IdentityKey(Private), 1);
    LessAtDifference(Ascii("pieces"), IdentityKey(Source), 0);
    LessAtDifference(IdentityKey(Private), IdentityKey(Source), 0);
    LessAtDifference(IdentityKey(Source), Ascii("x"), 0);
  }

  predicate AscendsAt(entries: seq<Entry>, i: nat)
    requires 0 < i < |entries|
  {
    Less(entries[i - 1].key, entries[i].key)
  }

  predicate Ascending(entries: seq<Entry>) {
    forall i :: 0 < i < |entries| ==> AscendsAt(entries, i)
  }

  lemma {:induction false} AscendingIsOrdered(entries: seq<Entry>, i: nat, j: nat)
    requires Ascending(entries) && i < j < |entries|
    ensures Less(entries[i].key, entries[j].key)
  {
    hide Less;
    assert AscendsAt(entries, j);
    if i < j - 1 {
      AscendingIsOrdered(entries, i, j - 1);
      LessIsTransitive(entries[i].key, entries[j - 1].key, entries[j].key);
    }
  }

  lemma AscendingIsDistinct(entries: seq<Entry>)
    requires Ascending(entries)
    ensures SortedKeys(entries) && DistinctKeys(entries)
  {
    hide Less, Ascending;
    forall i | 0 < i < |entries| ensures !Less(entries[i].key, entries[i - 1].key) {
      AscendingIsOrdered(entries, i - 1, i);
      LessIsAsymmetric(entries[i - 1].key, entries[i].key);
    }
    forall i, j | 0 <= i < j < |entries| ensures entries[i].key != entries[j].key {
      AscendingIsOrdered(entries, i, j);
      LessIsAsymmetric(entries[i].key, entries[j].key);
    }
  }

  // ----- they are within the limits ---------------------------------------------------------------------------

  predicate Small(e: Entry) {
    |e.key| <= 20
    && match e.value
       case IntegerValue(n) => 0 <= n <= 1_000_000
       case StringValue(content) => |content| <= 40
       case _ => false
  }

  lemma SmallEntry(e: Entry)
    requires Small(e)
    ensures EntryFits(e, 2, DEFAULT_LIMITS) && TokensOfEntry(e) == 2 && |PrintEntry(e)| <= 120
  {
    hide Decimal;
    U64Digits(|e.key|);
    match e.value
    case IntegerValue(n) => U64Digits(n);
    case StringValue(content) => U64Digits(|content|);
  }

  lemma {:induction false} SmallEntries(entries: seq<Entry>)
    requires forall e :: e in entries ==> Small(e)
    ensures EntriesFit(entries, 2, DEFAULT_LIMITS) && EntryTokens(entries) == 2 * |entries|
    ensures |PrintEntries(entries)| <= 120 * |entries|
  {
    hide EntryFits, TokensOfEntry, PrintEntry, Small;
    if entries != [] {
      SmallEntry(entries[0]);
      assert forall e :: e in entries[1..] ==> e in entries;
      SmallEntries(entries[1..]);
    }
  }

  /** A torrent of few small entries is within the limits of the program. */
  lemma SmallIsDecodable(info: seq<Entry>)
    requires |info| <= 10 && DistinctKeys(info) && forall e :: e in info ==> Small(e)
    ensures EntriesFit(Tops(info), 1, DEFAULT_LIMITS)
    ensures EntryTokens(Tops(info)) <= 100 && |PrintEntries(Tops(info))| <= 2000
    ensures Decodable(DictionaryValue(Tops(info)), DEFAULT_LIMITS)
  {
    hide EntryTokens, PrintEntries, EntriesFit, PrintString;
    OneTokens(Tops(info)[0]);
    SmallEntries(info);
    var e := Entry(Ascii("info"), DictionaryValue(info));
    assert PrintString(e.key) == [0x34, COLON, 0x69, 0x6E, 0x66, 0x6F] by { KeyInfo(); }
    UnfoldEntries([e], 0);
    UnfoldEntries([], 0);
    assert [e][1..] == [];
    OneEntryFits(e);
  }

  lemma KeyInfo()
    ensures PrintString(Ascii("info")) == [0x34, COLON, 0x69, 0x6E, 0x66, 0x6F]
  {
    assert Ascii("info") == [0x69, 0x6E, 0x66, 0x6F];
    assert Decimal(4) == [0x34];
  }

  lemma OneEntryFits(e: Entry)
    ensures EntriesFit([e], 1, DEFAULT_LIMITS) <==> EntryFits(e, 1, DEFAULT_LIMITS)
    ensures DistinctKeys([e])
  {
    assert [e][1..] == [];
  }

  lemma ExampleEntries(pieces: Bytes, more: seq<Entry>)
    requires |pieces| == 20 && |more| <= 2
    requires more == [] || more == [A_SOURCE]
             || more == [A_SOURCE, ExtraEntry()]
             || (exists v :: 0 <= v <= 1 && (more == [PrivateEntry(v)] || more == [PrivateEntry(v), A_SOURCE]))
    ensures Ascending(Info(pieces, more)) && SortedKeys(Info(pieces, more)) && DistinctKeys(Info(pieces, more))
    ensures Decodable(DictionaryValue(Tops(Info(pieces, more))), DEFAULT_LIMITS)
    ensures forall e :: e in Info(pieces, more) ==> Small(e)
  {
    hide Less, Decodable;
    var info := Info(pieces, more);
    KeysAscend();
    forall i | 0 < i < |info| ensures AscendsAt(info, i) {}
    AscendingIsDistinct(info);
    SmallIsDecodable(info);
  }

  // ----- setting `private` in a torrent with a `source` -------------------------------------------------------------

  const SET_PRIVATE := Patch(Private, true, [], false)

  function WithSource(digits: nat): seq<Entry>
    requires digits <= 20
  {
    Info(Pieces(digits), [A_SOURCE])
  }

  lemma FoundAt(entries: seq<Entry>, i: nat)
    requires Ascending(entries) && i < |entries|
    ensures FindKey(entries, entries[i].key) == i
  {
    hide Less, Ascending, FindKey;
    AscendingIsDistinct(entries);
  }

  lemma InsertedAt(entries: seq<Entry>, e: Entry, j: nat)
    requires j <= |entries| && Ascending(entries[..j] + [e] + entries[j..])
    ensures FindKey(entries, e.key) == |entries| && InsertIndex(entries, e.key) == j
  {
    hide Less, Ascending, FindKey, InsertIndex;
    var more := entries[..j] + [e] + entries[j..];
    forall i | 0 <= i < |entries|
      ensures if i < j then Less(entries[i].key, e.key) else Less(e.key, entries[i].key)
      ensures !(Less(e.key, entries[i].key) && Less(entries[i].key, e.key)) && entries[i].key != e.key
    {
      if i < j {
        assert more[i] == entries[i] && more[j] == e;
        AscendingIsOrdered(more, i, j);
      } else {
        assert more[i + 1] == entries[i] && more[j] == e;
        AscendingIsOrdered(more, j, i + 1);
      }
      LessIsAsymmetric(e.key, entries[i].key);
    }
    assert forall i :: 0 <= i < j ==> !Less(e.key, entries[i].key);
    assert j < |entries| ==> Less(e.key, entries[j].key);
  }

  /** The key belongs between the hashes, which end in `digits` digits, and `source`. */
  lemma SetPrivateVerdict(digits: nat)
    requires digits <= 20
    ensures var info := WithSource(digits);
            && FindKey(info, IdentityKey(Private)) == 5 && InsertIndex(info, IdentityKey(Private)) == 4
            && Judge(info, SET_PRIVATE) == Change && SearchedEntry(info, SET_PRIVATE) == Some(4)
            && Edited(info, SET_PRIVATE) == Info(Pieces(digits), [PrivateEntry(1), A_SOURCE])
            && Rewritten(info, SET_PRIVATE) == Info(Pieces(digits), [PrivateEntry(1)])
            && !AsIntended(info, SET_PRIVATE)
            && (SafeToSplice(info, SET_PRIVATE) <==> digits == 0)
  {
    hide Less, IdentityKey, TrailingDigits, FindKey, InsertIndex, SortedKeys, Decodable, Print;
    var info := WithSource(digits);
    ExampleEntries(Pieces(digits), [A_SOURCE]);
    ExampleEntries(Pieces(digits), [PrivateEntry(1), A_SOURCE]);
    assert info[..4] + [PrivateEntry(1)] + info[4..] == Info(Pieces(digits), [PrivateEntry(1), A_SOURCE]);
    assert info[..4] + [PrivateEntry(1)] == Info(Pieces(digits), [PrivateEntry(1)]);
    InsertedAt(info, PrivateEntry(1), 4);
    assert IsDigit(Pieces(digits)[19]) <==> digits > 0;
  }

  /** Without digits the result is a torrent without its `source`, and asking again changes nothing. */
  lemma LostSourceExample()
    ensures Judge(WithSource(0), SET_PRIVATE) == Change
    ensures DecodesTo(SplicedTorrent(Tops(WithSource(0)), 0, SET_PRIVATE),
                      DictionaryValue(Tops(Info(Pieces(0), [PrivateEntry(1)]))), DEFAULT_LIMITS)
    ensures Judge(Info(Pieces(0), [PrivateEntry(1)]), SET_PRIVATE) == Keep
  {
    hide Less, IdentityKey, Decodable, DecodesTo, Judge, SplicedTorrent, SafeToSplice, Rewritten;
    var left := Info(Pieces(0), [PrivateEntry(1)]);
    SetPrivateVerdict(0);
    ExampleEntries(Pieces(0), [A_SOURCE]);
    ExampleEntries(Pieces(0), [PrivateEntry(1)]);
    assert WithInfo(Tops(WithSource(0)), 0, left) == DictionaryValue(Tops(left));
    SafeSpliceDecodesIff(Tops(WithSource(0)), 0, SET_PRIVATE, DEFAULT_LIMITS);
    RewriteIsIdempotent(WithSource(0), SET_PRIVATE);
  }

  /**
    With one digit the cut starts one byte too early, before the hashes' last byte, and ends at the end of info.
    What is returned does not decode.
  */
  lemma OvershootExample()
    ensures var info := WithSource(1);
            var s, at := Print(DictionaryValue(Tops(info))), InfoStart(Tops(info), 0);
            && DictionaryAt(s, at, info) && Judge(info, SET_PRIVATE) == Change
            && var start := EntryStart(info, at, 4);
            && KeyStart(s, KeySpan(IdentityKey(Source), start)) == start - 1
            && SplicedTorrent(Tops(info), 0, SET_PRIVATE)
               == Cut(s, start - 1, EntryStart(info, at, 5), PrintEntry(PrivateEntry(1)))
            && Decode(SplicedTorrent(Tops(info), 0, SET_PRIVATE), DEFAULT_LIMITS) == Rejected
  {
    hide Less, IdentityKey, TrailingDigits, Print, PrintEntry, PrintEntries, Decode, Decodable, Judge, EntryStart, Cut,
         SafeToSplice, AsIntended, Rewritten, Edited, KeyStart, KeySpan;
    var info := WithSource(1);
    var s, at := Print(DictionaryValue(Tops(info))), InfoStart(Tops(info), 0);
    SetPrivateVerdict(1);
    PiecesEnd(1);
    ExampleEntries(Pieces(1), [A_SOURCE]);
    InfoReprintsRoot(Tops(info), 0, info);
    LastStart(s, at, info);
    KeyStartOvershoots(s, at, info, 4);
    var place := PlaceOf(Tops(info), 0, SET_PRIVATE);
    assert place == Place(Tops(info), 0, 4) && place.Content() == Pieces(1);
    LastInfoPrivateInsertDecodesIff(Tops(info), 0, SET_PRIVATE, DEFAULT_LIMITS);
  }

  /**
    With twelve digits the new entry, "7:privatei1e", becomes the end of the hashes: the result decodes to a
    torrent with neither `private` nor `source`.
  */
  lemma VanishedPrivateExample()
    ensures var hashes := Pieces(12)[..8] + PrintEntry(PrivateEntry(1));
            && |hashes| == 20 && Judge(WithSource(12), SET_PRIVATE) == Change
            && DecodesTo(SplicedTorrent(Tops(WithSource(12)), 0, SET_PRIVATE), DictionaryValue(Tops(Info(hashes, []))),
                         DEFAULT_LIMITS)
  {
    hide Less, IdentityKey, TrailingDigits, PrintEntry, PrintEntries, Decodable, DecodesTo, Judge, SplicedTorrent,
         SafeToSplice, AsIntended, Rewritten, Edited, SearchedEntry;
    var info := WithSource(12);
    SetPrivateVerdict(12);
    PiecesEnd(12);
    PrivatePrint(1);
    ExampleEntries(Pieces(12), [A_SOURCE]);
    var hashes := Pieces(12)[..8] + PrintEntry(PrivateEntry(1));
    var place := PlaceOf(Tops(info), 0, SET_PRIVATE);
    assert place == Place(Tops(info), 0, 4) && place.Content() == Pieces(12);
    ResumedExample(place, Pieces(12), [A_SOURCE], hashes);
    assert Tops(info)[1..] == [];
    InsertCanVanish(Tops(info), 0, SET_PRIVATE, DEFAULT_LIMITS);
  }

  /** Of all these torrents two give bytes that decode, and never to what was asked for. */
  lemma {:induction false} SetPrivateDecodesIff(digits: nat)
    requires digits <= 20
    ensures Decode(SplicedTorrent(Tops(WithSource(digits)), 0, SET_PRIVATE), DEFAULT_LIMITS).Parsed? <==>
              digits == 0 || digits == 12
    ensures !DecodesTo(SplicedTorrent(Tops(WithSource(digits)), 0, SET_PRIVATE),
                       DictionaryValue(Tops(Info(Pieces(digits), [PrivateEntry(1), A_SOURCE]))), DEFAULT_LIMITS)
  {
    hide Less, IdentityKey, TrailingDigits, PrintEntry, PrintEntries, Decode, Decodable, Judge, SplicedTorrent,
         SafeToSplice, AsIntended, Rewritten, Edited, ValueOf;
    var info, edited := WithSource(digits), Info(Pieces(digits), [PrivateEntry(1), A_SOURCE]);
    SetPrivateVerdict(digits);
    PiecesEnd(digits);
    ExampleEntries(Pieces(digits), [A_SOURCE]);
    ExampleEntries(Pieces(digits), [PrivateEntry(1), A_SOURCE]);
    assert WithInfo(Tops(info), 0, edited) == DictionaryValue(Tops(edited));
    SplicedTorrentDecodesIff(Tops(info), 0, SET_PRIVATE, DEFAULT_LIMITS);
    if digits == 0 {
      LostSourceExample();
    } else {
      var place := PlaceOf(Tops(info), 0, SET_PRIVATE);
      assert place == Place(Tops(info), 0, 4) && place.Content() == Pieces(digits);
      LastInfoPrivateInsertDecodesIff(Tops(info), 0, SET_PRIVATE, DEFAULT_LIMITS);
    }
  }

  /** The example with other hashes, and nothing behind them. */
  lemma ResumedExample(place: Place, pieces: Bytes, more: seq<Entry>, hashes: Bytes)
    requires place.k == 0 && place.i == 4 && more != []
    requires place.tops != [] && place.tops[0] == Tops(Info(pieces, more))[0]
    ensures place.Valid() && place.Resumed(hashes, [], []) == DictionaryValue(Tops(Info(hashes, [])))
  {
    var info := Info(pieces, more);
    assert info[..3] + [Entry(Ascii("pieces"), StringValue(hashes))] + [] == Info(hashes, []);
    assert place.tops[..0] + [Entry(Ascii("info"), DictionaryValue(Info(hashes, [])))] + [] == Tops(Info(hashes, []));
  }

  /** "1:z1:e" behind the info dictionary. */
  const BEHIND: Entry := Entry(Ascii("z"), StringValue(Ascii("e")))

  lemma BehindIsDecodable(info: seq<Entry>)
    requires |info| <= 10 && DistinctKeys(info) && forall e :: e in info ==> Small(e)
    ensures Decodable(DictionaryValue(Tops(info) + [BEHIND]), DEFAULT_LIMITS)
  {
    hide EntryTokens, PrintEntries, EntriesFit, PrintString, PrintEntry, Decimal;
    var tops := Tops(info);
    SmallIsDecodable(info);
    OneEntryFits(BEHIND);
    OneTokens(BEHIND);
    ReadableJoin(tops, [BEHIND], 1, DEFAULT_LIMITS);
    PrintEntriesAppend(tops, [BEHIND]);
    PrintEntriesOne(BEHIND);
    BehindPrints();
    assert Ascii("info")[0] == 0x69 && Ascii("z")[0] == 0x7A;
    assert tops[0].key != BEHIND.key;
  }

  lemma BehindPrints()
    ensures PrintEntry(BEHIND) == [0x31, COLON, 0x7A, 0x31, COLON, END_MARK]
  {
    assert Ascii("z") == [0x7A] && Ascii("e") == [END_MARK] && Decimal(1) == [0x31];
  }

  /**
    A run of eighteen digits, with "1:z1:e" behind info: the hashes take the new entry and six bytes behind
    info, up to the content of that string, whose "e" now ends info.
  */
  lemma LongRunExample()
    ensures var tops := Tops(WithSource(18)) + [BEHIND];
            var hashes := Pieces(18)[..2] + PrintEntry(PrivateEntry(1))
                          + [END_MARK, 0x31, COLON, 0x7A, 0x31, COLON];
            && Judge(WithSource(18), SET_PRIVATE) == Change && |hashes| == 20
            && DecodesTo(SplicedTorrent(tops, 0, SET_PRIVATE), DictionaryValue(Tops(Info(hashes, []))), DEFAULT_LIMITS)
  {
    hide Less, IdentityKey, TrailingDigits, PrintEntry, PrintEntries, Decodable, DecodesTo, Judge, SplicedTorrent,
         SafeToSplice, AsIntended, Rewritten, Edited, SearchedEntry;
    var info, tops := WithSource(18), Tops(WithSource(18)) + [BEHIND];
    SetPrivateVerdict(18);
    PiecesEnd(18);
    PrivatePrint(1);
    ExampleEntries(Pieces(18), [A_SOURCE]);
    BehindIsDecodable(info);
    var hashes := Pieces(18)[..2] + PrintEntry(PrivateEntry(1)) + [END_MARK, 0x31, COLON, 0x7A, 0x31, COLON];
    var place := PlaceOf(tops, 0, SET_PRIVATE);
    assert place == Place(tops, 0, 4) && place.Content() == Pieces(18) && tops[1..] == [BEHIND];
    ResumedExample(place, Pieces(18), [A_SOURCE], hashes);
    ExampleEntries(hashes, []);
    EndsBehind();
    assert GoesOnBehindInfo(place, SET_PRIVATE, [], [], DEFAULT_LIMITS);
    LongTailGoesOn(place, SET_PRIVATE, [], [], DEFAULT_LIMITS);
    SwallowedBehindInfo(place, SET_PRIVATE);
    UnsafeSpliceDecodesIff(tops, 0, SET_PRIVATE, DEFAULT_LIMITS);
  }

  lemma EndsBehind()
    ensures |Rest([], [BEHIND])| == 8 && Rest([], [BEHIND])[6..] == Rest([], [])
    ensures Rest([], [BEHIND])[..6] == [END_MARK, 0x31, COLON, 0x7A, 0x31, COLON]
  {
    NothingPrinted();
    PrintEntriesOne(BEHIND);
    BehindPrints();
  }

  // ----- clearing `source` behind hashes that end in fourteen digits -----------------------------------------------

  const CLEAR_SOURCE := Patch(Source, false, [], true)

  lemma ExtraPrint()
    ensures |PrintEntries([ExtraEntry()])| == 14
  {
    var e := ExtraEntry();
    PrintEntriesOne(e);
    assert |Decimal(1)| == 1 && |Decimal(9)| == 1;
    assert |PrintString(e.key)| == 3 && |Print(e.value)| == 11;
  }

  lemma ClearSourceVerdict()
    ensures var info := Info(Pieces(14), [A_SOURCE, ExtraEntry()]);
            && FindKey(info, IdentityKey(Source)) == 4 && Judge(info, CLEAR_SOURCE) == Change
            && SearchedEntry(info, CLEAR_SOURCE) == Some(4) && !SafeToSplice(info, CLEAR_SOURCE)
  {
    hide Less, IdentityKey, TrailingDigits, FindKey, InsertIndex, SortedKeys, Ascending, Decodable, Print;
    var info := Info(Pieces(14), [A_SOURCE, ExtraEntry()]);
    ExampleEntries(Pieces(14), [A_SOURCE, ExtraEntry()]);
    FoundAt(info, 4);
    assert IsDigit(Pieces(14)[19]);
  }

  /**
    With fourteen digits, clearing `source` also takes the next entry, "1:x9:abcdefghi": its fourteen bytes
    become the end of the hashes, and the result decodes as a torrent.
  */
  lemma SwallowedEntryExample()
    ensures var info := Info(Pieces(14), [A_SOURCE, ExtraEntry()]);
            var hashes := Pieces(14)[..6] + PrintEntries([ExtraEntry()]);
            && Judge(info, CLEAR_SOURCE) == Change
            && DecodesTo(SplicedTorrent(Tops(info), 0, CLEAR_SOURCE), DictionaryValue(Tops(Info(hashes, []))),
                         DEFAULT_LIMITS)
  {
    hide Less, IdentityKey, TrailingDigits, Print, PrintEntry, PrintEntries, Decodable, Judge, SafeToSplice,
         EntryStart, SplicedTorrent, DecodesTo, SearchedEntry, FindKey;
    var more := [A_SOURCE, ExtraEntry()];
    var info := Info(Pieces(14), more);
    var hashes := Pieces(14)[..6] + PrintEntries([ExtraEntry()]);
    ClearSourceVerdict();
    PiecesEnd(14);
    ExtraPrint();
    ExampleEntries(Pieces(14), more);
    var place := PlaceOf(Tops(info), 0, CLEAR_SOURCE);
    assert place == Place(Tops(info), 0, 4) && place.Content() == Pieces(14);
    assert info[5..6] == [ExtraEntry()] && info[6..] == [];
    ResumedExample(place, Pieces(14), more, hashes);
    assert Tops(info)[1..] == [];
    ClearCanSwallow(Tops(info), 0, CLEAR_SOURCE, 6, DEFAULT_LIMITS);
  }

  const CLEAR_PRIVATE := Patch(Private, false, [], true)

  /** Clearing a `private` of zero is answered with "no change", although the key is there. */
  lemma PrivateZeroIsKept()
    ensures var info := Info(Pieces(0), [PrivateEntry(0)]);
            FindKey(info, IdentityKey(Private)) == 4 < |info| && Judge(info, CLEAR_PRIVATE) == Keep
  {
    hide Less, IdentityKey;
    ExampleEntries(Pieces(0), [PrivateEntry(0)]);
    FoundAt(Info(Pieces(0), [PrivateEntry(0)]), 4);
  }
}
