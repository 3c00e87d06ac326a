/**
  Files under arbitrary failures and cancellation, as the file helpers of application.cpp see them.

  An oracle says of every file operation whether it fails, and of every look at the cancellation token
  what it sees; a run of an operation is a function of the oracle and of the world it starts in. Nobody
  else changes the files meanwhile.
*/
module FaultyDisk {
  import opened Wrappers
  import opened ByteStrings
  import opened Numbers

  type Path = Bytes

  /** What a path names; directories, devices and the like are `Special`. */
  datatype Node = Regular(content: Bytes) | Symlink | Special

  datatype Status = NotFound | Unknown | Found(node: Node)

  /** A failing write may store some bytes first: at most as many as the oracle says. */
  datatype Oracle = Oracle(fault: nat -> Option<nat>, cancelled: nat -> bool)

  /** The files, and how many operations and looks at the token there were. */
  datatype World = World(nodes: map<Path, Node>, ops: nat, looks: nat)

  datatype Run<+T> = Run(value: T, world: World)

  const MAX_TORRENT_BYTES: nat := 128 * 1024 * 1024
  const CHUNK: nat := 1024 * 1024

  predicate Fails(o: Oracle, w: World) { o.fault(w.ops).Some? }

  predicate SeesCancelled(o: Oracle, w: World) { o.cancelled(w.looks) }

  function Acted(w: World): World { w.(ops := w.ops + 1) }

  function Looked(w: World): World { w.(looks := w.looks + 1) }

  function StatusOf(w: World, p: Path): Status {
    if p in w.nodes then Found(w.nodes[p]) else NotFound
  }

  // ----- runs -------------------------------------------------------------------------------------------

  /** symlink_status */
  function StatusRun(o: Oracle, w: World, p: Path): Run<Status> {
    Run(if Fails(o, w) then Unknown else StatusOf(w, p), Acted(w))
  }

  /** remove, with its error ignored. */
  function RemoveRun(o: Oracle, w: World, p: Path): World {
    if Fails(o, w) then Acted(w) else Acted(w).(nodes := w.nodes - {p})
  }

  /** rename: all or nothing. */
  function RenameRun(o: Oracle, w: World, source: Path, target: Path): Run<bool> {
    if Fails(o, w) || source !in w.nodes then Run(false, Acted(w))
    else Run(true, Acted(w).(nodes := (w.nodes - {source})[target := w.nodes[source]]))
  }

  /** read_bounded_file */
  function ReadRun(o: Oracle, w: World, p: Path): Run<Option<Bytes>> {
    if SeesCancelled(o, w) then Run(None, Looked(w))
    else
      var w := Looked(w);
      if Fails(o, w) || !StatusOf(w, p).Found? || !w.nodes[p].Regular? then Run(None, Acted(w))
      else if |w.nodes[p].content| > MAX_TORRENT_BYTES then Run(None, Acted(w))
      else if Fails(o, Acted(w)) then Run(None, Acted(Acted(w)))
      else ReadChunks(o, Acted(Acted(w)), w.nodes[p].content, 0)
  }

  function ReadChunks(o: Oracle, w: World, content: Bytes, offset: nat): Run<Option<Bytes>>
    requires offset <= |content|
    decreases |content| - offset
  {
    if SeesCancelled(o, w) then Run(None, Looked(w))
    else if Fails(o, Looked(w)) then Run(None, Acted(Looked(w)))
    else if offset == |content| then Run(Some(content), Acted(Looked(w)))
    else ReadChunks(o, Acted(Looked(w)), content, offset + Min(|content| - offset, CHUNK))
  }

  /** How many bytes of a chunk a write stores. */
  function Stored(o: Oracle, w: World, chunk: nat): (n: nat)
    ensures n <= chunk
  {
    match o.fault(w.ops) case Some(n) => Min(n, chunk) case None => chunk
  }

  /** `w` after `p` was given a prefix of the bytes. */
  function Holding(w: World, p: Path, bytes: Bytes, length: nat): (h: World)
    requires length <= |bytes|
    ensures h.ops == w.ops && h.looks == w.looks
  {
    w.(nodes := w.nodes[p := Regular(bytes[..length])])
  }

  /** write_bounded_file */
  function WriteRun(o: Oracle, w: World, p: Path, bytes: Bytes): Run<bool> {
    if SeesCancelled(o, w) then Run(false, Looked(w))
    else if Fails(o, Looked(w)) then Run(false, Acted(Looked(w)))
    else WriteChunks(o, Holding(Acted(Looked(w)), p, bytes, 0), p, bytes, 0)
  }

  function WriteChunks(o: Oracle, w: World, p: Path, bytes: Bytes, offset: nat): Run<bool>
    requires offset <= |bytes|
    decreases |bytes| - offset
  {
    if offset == |bytes| then
      if Fails(o, w) then Run(false, Acted(w))
      else Run(!SeesCancelled(o, Acted(w)), Looked(Acted(w)))
    else if SeesCancelled(o, w) then Run(false, Looked(w))
    else
      var chunk := Min(|bytes| - offset, CHUNK);
      var next := Holding(Acted(Looked(w)), p, bytes, offset + Stored(o, Looked(w), chunk));
      if Fails(o, Looked(w)) then Run(false, next) else WriteChunks(o, next, p, bytes, offset + chunk)
  }

  /** Whether a copy is complete, and whether its target was opened at all. */
  datatype Copied = Copied(ok: bool, started: bool)

  /** copy_bounded_file: both files are opened before the first chunk. */
  function CopyRun(o: Oracle, w: World, content: Bytes, target: Path): Run<Copied> {
    if SeesCancelled(o, w) then Run(Copied(false, false), Looked(w))
    else if Fails(o, Looked(w)) then Run(Copied(false, false), Acted(Looked(w)))
    else if Fails(o, Acted(Looked(w))) then Run(Copied(false, false), Acted(Acted(Looked(w))))
    else CopyChunks(o, Holding(Acted(Acted(Looked(w))), target, content, 0), content, target, 0)
  }

  /** The loop ends after the first chunk that is not full. */
  function CopyChunks(o: Oracle, w: World, content: Bytes, target: Path, offset: nat): Run<Copied>
    requires offset <= |content|
    decreases |content| - offset
  {
    if SeesCancelled(o, w) then Run(Copied(false, true), Looked(w))
    else
      var count := Min(|content| - offset, CHUNK);
      var next := Holding(Acted(Looked(w)), target, content, offset + Stored(o, Looked(w), count));
      if Fails(o, Looked(w)) then Run(Copied(false, true), next)
      else if count == CHUNK then CopyChunks(o, next, content, target, offset + count)
      else CopyClosed(o, next)
  }

  /** What is left of a copy after some rounds. */
  function CopyRest(o: Oracle, w: World, content: Bytes, target: Path, offset: nat, more: bool): Run<Copied>
    requires offset <= |content|
  {
    if more then CopyChunks(o, w, content, target, offset) else CopyClosed(o, w)
  }

  function CopyClosed(o: Oracle, w: World): Run<Copied> {
    if Fails(o, w) then Run(Copied(false, true), Acted(w))
    else Run(Copied(!SeesCancelled(o, Acted(w)), true), Looked(Acted(w)))
  }

  // ----- what runs leave behind -----------------------------------------------------------------------------

  /** The path was given a prefix of the bytes, and nothing else changed. */
  ghost predicate WrotePrefix(before: map<Path, Node>, after: map<Path, Node>, p: Path, bytes: Bytes) {
    p in after && after[p].Regular? && after[p].content <= bytes && after == before[p := after[p]]
  }

  lemma HoldingPrefix(before: map<Path, Node>, w: World, p: Path, bytes: Bytes, length: nat)
    requires length <= |bytes| && (w.nodes == before || WrotePrefix(before, w.nodes, p, bytes))
    ensures WrotePrefix(before, Holding(w, p, bytes, length).nodes, p, bytes)
    ensures length == |bytes| ==> Holding(w, p, bytes, length).nodes == before[p := Regular(bytes)]
  {
    if length == |bytes| { assert bytes[..length] == bytes; }
  }

  lemma {:induction false} ReadChunksKeep(o: Oracle, w: World, content: Bytes, offset: nat)
    requires offset <= |content|
    ensures ReadChunks(o, w, content, offset).world.nodes == w.nodes
    ensures ReadChunks(o, w, content, offset).value.Some? ==> ReadChunks(o, w, content, offset).value == Some(content)
    decreases |content| - offset
  {
    if offset < |content| {
      ReadChunksKeep(o, Acted(Looked(w)), content, offset + Min(|content| - offset, CHUNK));
    }
  }

  /** A successful read has read the whole file, within the size limit; reading changes nothing. */
  lemma ReadKeeps(o: Oracle, w: World, p: Path)
    ensures ReadRun(o, w, p).world.nodes == w.nodes
    ensures ReadRun(o, w, p).value.Some? ==>
              p in w.nodes && w.nodes[p] == Regular(ReadRun(o, w, p).value.value)
              && |ReadRun(o, w, p).value.value| <= MAX_TORRENT_BYTES
  {
    if p in w.nodes && w.nodes[p].Regular? {
      ReadChunksKeep(o, Acted(Acted(Looked(w))), w.nodes[p].content, 0);
    }
  }

  lemma {:induction false} WriteChunksPrefix(o: Oracle, before: map<Path, Node>, w: World, p: Path, bytes: Bytes,
                                             offset: nat)
    requires offset <= |bytes| && WrotePrefix(before, w.nodes, p, bytes) && w.nodes[p] == Regular(bytes[..offset])
    ensures WrotePrefix(before, WriteChunks(o, w, p, bytes, offset).world.nodes, p, bytes)
    ensures WriteChunks(o, w, p, bytes, offset).value ==>
              WriteChunks(o, w, p, bytes, offset).world.nodes == before[p := Regular(bytes)]
    decreases |bytes| - offset
  {
    hide WrotePrefix;
    if offset == |bytes| {
      assert bytes[..offset] == bytes;
      CompletePrefix(before, w, p, bytes);
    } else {
      var chunk := Min(|bytes| - offset, CHUNK);
      var length := offset + Stored(o, Looked(w), chunk);
      HoldingPrefix(before, Acted(Looked(w)), p, bytes, length);
      if !Fails(o, Looked(w)) {
        WriteChunksPrefix(o, before, Holding(Acted(Looked(w)), p, bytes, length), p, bytes, length);
      }
    }
  }

  lemma CompletePrefix(before: map<Path, Node>, w: World, p: Path, bytes: Bytes)
    requires WrotePrefix(before, w.nodes, p, bytes) && w.nodes[p] == Regular(bytes)
    ensures w.nodes == before[p := Regular(bytes)]
  {
  }

  /** Writing touches one path, which holds a prefix afterwards, and all bytes on success. */
  lemma {:induction false} WriteLeavesPrefix(o: Oracle, w: World, p: Path, bytes: Bytes)
    ensures var after := WriteRun(o, w, p, bytes).world.nodes;
            after == w.nodes || WrotePrefix(w.nodes, after, p, bytes)
    ensures WriteRun(o, w, p, bytes).value ==> WriteRun(o, w, p, bytes).world.nodes == w.nodes[p := Regular(bytes)]
  {
    var w' := Acted(Looked(w));
    HoldingPrefix(w.nodes, w', p, bytes, 0);
    WriteChunksPrefix(o, w.nodes, Holding(w', p, bytes, 0), p, bytes, 0);
  }

  lemma {:induction false} CopyChunksPrefix(o: Oracle, before: map<Path, Node>, w: World, content: Bytes, target: Path,
                                            offset: nat)
    requires offset <= |content| && WrotePrefix(before, w.nodes, target, content)
    ensures WrotePrefix(before, CopyChunks(o, w, content, target, offset).world.nodes, target, content)
    ensures CopyChunks(o, w, content, target, offset).value.started
    ensures CopyChunks(o, w, content, target, offset).value.ok ==>
              CopyChunks(o, w, content, target, offset).world.nodes == before[target := Regular(content)]
    decreases |content| - offset
  {
    hide WrotePrefix;
    var count := Min(|content| - offset, CHUNK);
    var length := offset + Stored(o, Looked(w), count);
    HoldingPrefix(before, Acted(Looked(w)), target, content, length);
    if !Fails(o, Looked(w)) && count == CHUNK {
      CopyChunksPrefix(o, before, Holding(Acted(Looked(w)), target, content, length), content, target, length);
    }
  }

  /** A copy touches its target only once it is opened, and completes it on success. */
  lemma {:induction false} CopyLeavesPrefix(o: Oracle, w: World, content: Bytes, target: Path)
    ensures var r := CopyRun(o, w, content, target);
            if r.value.started then WrotePrefix(w.nodes, r.world.nodes, target, content)
            else r.world.nodes == w.nodes && !r.value.ok
    ensures CopyRun(o, w, content, target).value.ok ==>
              CopyRun(o, w, content, target).world.nodes == w.nodes[target := Regular(content)]
  {
    var w' := Acted(Acted(Looked(w)));
    HoldingPrefix(w.nodes, w', target, content, 0);
    CopyChunksPrefix(o, w.nodes, Holding(w', target, content, 0), content, target, 0);
  }

  // ----- runs without faults ----------------------------------------------------------------------------------

  ghost predicate NeverCancelled(o: Oracle) { forall k: nat :: !o.cancelled(k) }

  /** No operation from one index up to another fails. */
  ghost predicate Quiet(o: Oracle, from: nat, to: nat) { forall k: nat :: from <= k < to ==> o.fault(k).None? }

  /** Rounds of a chunked read from an offset on. */
  function Rounds(length: nat, offset: nat): nat
    requires offset <= length
    decreases length - offset
  {
    if offset == length then 1 else 1 + Rounds(length, offset + Min(length - offset, CHUNK))
  }

  function ReadOps(length: nat): nat { 2 + Rounds(length, 0) }

  lemma {:induction false} QuietReadChunks(o: Oracle, w: World, content: Bytes, offset: nat)
    requires offset <= |content| && NeverCancelled(o) && Quiet(o, w.ops, w.ops + Rounds(|content|, offset))
    ensures ReadChunks(o, w, content, offset).value == Some(content)
    ensures ReadChunks(o, w, content, offset).world.ops == w.ops + Rounds(|content|, offset)
    decreases |content| - offset
  {
    if offset < |content| {
      QuietReadChunks(o, Acted(Looked(w)), content, offset + Min(|content| - offset, CHUNK));
    }
  }

  lemma QuietRead(o: Oracle, w: World, p: Path)
    requires p in w.nodes && w.nodes[p].Regular? && |w.nodes[p].content| <= MAX_TORRENT_BYTES
    requires NeverCancelled(o) && Quiet(o, w.ops, w.ops + ReadOps(|w.nodes[p].content|))
    ensures ReadRun(o, w, p).value == Some(w.nodes[p].content)
    ensures ReadRun(o, w, p).world.ops == w.ops + ReadOps(|w.nodes[p].content|)
  {
    QuietReadChunks(o, Acted(Acted(Looked(w))), w.nodes[p].content, 0);
  }

  /** Rounds of the copy loop and the close. */
  function CopyRounds(length: nat, offset: nat): nat
    requires offset <= length
    decreases length - offset
  {
    if length - offset < CHUNK then 2 else 1 + CopyRounds(length, offset + CHUNK)
  }

  function CopyOps(length: nat): nat { 2 + CopyRounds(length, 0) }

  lemma {:induction false} QuietCopyChunks(o: Oracle, w: World, content: Bytes, target: Path, offset: nat)
    requires offset <= |content| && NeverCancelled(o) && Quiet(o, w.ops, w.ops + CopyRounds(|content|, offset))
    ensures CopyChunks(o, w, content, target, offset).value == Copied(true, true)
    ensures CopyChunks(o, w, content, target, offset).world.ops == w.ops + CopyRounds(|content|, offset)
    decreases |content| - offset
  {
    var count := Min(|content| - offset, CHUNK);
    assert o.fault(w.ops).None?;
    if count == CHUNK {
      QuietCopyChunks(o, Holding(Acted(Looked(w)), target, content, offset + count), content, target, offset + count);
    }
  }

  lemma QuietCopy(o: Oracle, w: World, content: Bytes, target: Path)
    requires NeverCancelled(o) && Quiet(o, w.ops, w.ops + CopyOps(|content|))
    ensures CopyRun(o, w, content, target).value == Copied(true, true)
    ensures CopyRun(o, w, content, target).world.ops == w.ops + CopyOps(|content|)
  {
    QuietCopyChunks(o, Holding(Acted(Acted(Looked(w))), target, content, 0), content, target, 0);
  }

  ghost predicate NoFaults(o: Oracle) { forall k: nat :: o.fault(k).None? }

  /** The last look of a run saw a cancellation. */
  predicate EndedCancelled(o: Oracle, before: World, after: World) {
    after.looks > before.looks && o.cancelled(after.looks - 1)
  }

  lemma {:induction false} WriteChunksFailCancelled(o: Oracle, w: World, p: Path, bytes: Bytes, offset: nat)
    requires offset <= |bytes| && NoFaults(o)
    ensures var r := WriteChunks(o, w, p, bytes, offset); r.value || EndedCancelled(o, w, r.world)
    ensures WriteChunks(o, w, p, bytes, offset).world.looks >= w.looks
    decreases |bytes| - offset
  {
    hide Holding;
    if offset < |bytes| {
      var chunk := Min(|bytes| - offset, CHUNK);
      var next := Holding(Acted(Looked(w)), p, bytes, offset + Stored(o, Looked(w), chunk));
      WriteChunksFailCancelled(o, next, p, bytes, offset + chunk);
    }
  }

  /** Without faults only a cancellation stops a write. */
  lemma WriteFailsCancelled(o: Oracle, w: World, p: Path, bytes: Bytes)
    requires NoFaults(o)
    ensures var r := WriteRun(o, w, p, bytes); r.value || EndedCancelled(o, w, r.world)
    ensures WriteRun(o, w, p, bytes).world.looks >= w.looks
  {
    WriteChunksFailCancelled(o, Holding(Acted(Looked(w)), p, bytes, 0), p, bytes, 0);
  }

  lemma {:induction false} CopyChunksFailCancelled(o: Oracle, w: World, content: Bytes, target: Path, offset: nat)
    requires offset <= |content| && NoFaults(o)
    ensures var r := CopyChunks(o, w, content, target, offset); r.value.ok || EndedCancelled(o, w, r.world)
    decreases |content| - offset
  {
    hide Holding;
    var count := Min(|content| - offset, CHUNK);
    if count == CHUNK {
      var next := Holding(Acted(Looked(w)), target, content, offset + Stored(o, Looked(w), count));
      CopyChunksFailCancelled(o, next, content, target, offset + count);
    }
  }

  /** Without faults only a cancellation stops a copy. */
  lemma CopyFailsCancelled(o: Oracle, w: World, content: Bytes, target: Path)
    requires NoFaults(o)
    ensures var r := CopyRun(o, w, content, target); r.value.ok || EndedCancelled(o, w, r.world)
  {
    CopyChunksFailCancelled(o, Holding(Acted(Acted(Looked(w))), target, content, 0), content, target, 0);
  }

  // ----- what success takes -----------------------------------------------------------------------------------

  /** No operation failed and no look saw a cancellation between two worlds. */
  ghost predicate Clear(o: Oracle, before: World, after: World) {
    && (forall k: nat :: before.ops <= k < after.ops ==> o.fault(k).None?)
    && (forall k: nat :: before.looks <= k < after.looks ==> !o.cancelled(k))
  }

  /** A run that was clear and had so many operations and looks. */
  ghost predicate Took(o: Oracle, before: World, after: World, ops: nat, looks: nat) {
    Clear(o, before, after) && after.ops == before.ops + ops && after.looks == before.looks + looks
  }

  lemma TookBoth(o: Oracle, a: World, b: World, c: World, ops: nat, looks: nat, moreOps: nat, moreLooks: nat)
    requires Took(o, a, b, ops, looks) && Took(o, b, c, moreOps, moreLooks)
    ensures Took(o, a, c, ops + moreOps, looks + moreLooks)
  {
  }

  lemma TookStep(o: Oracle, w: World)
    ensures !SeesCancelled(o, w) ==> Took(o, w, Looked(w), 0, 1)
    ensures !Fails(o, w) ==> Took(o, w, Acted(w), 1, 0)
  {
  }

  /** Chunks of 1 MiB that hold so many bytes. */
  function Chunks(length: nat): nat { (length + 0xF_FFFF) / 0x10_0000 }

  lemma {:induction false} ReadChunksTake(o: Oracle, w: World, content: Bytes, offset: nat)
    requires offset <= |content| && ReadChunks(o, w, content, offset).value.Some?
    ensures var n := Chunks(|content| - offset) + 1;
            Took(o, w, ReadChunks(o, w, content, offset).world, n, n)
    decreases |content| - offset
  {
    hide Took;
    var next := Acted(Looked(w));
    TookStep(o, w);
    TookStep(o, Looked(w));
    TookBoth(o, w, Looked(w), next, 0, 1, 1, 0);
    if offset < |content| {
      var count := Min(|content| - offset, CHUNK);
      ReadChunksTake(o, next, content, offset + count);
      var n := Chunks(|content| - offset - count) + 1;
      TookBoth(o, w, next, ReadChunks(o, w, content, offset).world, 1, 1, n, n);
    }
  }

  /** A read succeeds with a look before the file is inspected, before every chunk and before the end. */
  lemma ReadTakes(o: Oracle, w: World, p: Path)
    requires ReadRun(o, w, p).value.Some?
    ensures p in w.nodes && w.nodes[p].Regular?
    ensures var n := Chunks(|w.nodes[p].content|); Took(o, w, ReadRun(o, w, p).world, n + 3, n + 2)
  {
    var ready := Acted(Acted(Looked(w)));
    ReadChunksTake(o, ready, w.nodes[p].content, 0);
    var n := Chunks(|w.nodes[p].content|) + 1;
    TookStep(o, w);
    TookStep(o, Looked(w));
    TookStep(o, Acted(Looked(w)));
    hide Took, ReadChunks;
    TookBoth(o, w, Looked(w), Acted(Looked(w)), 0, 1, 1, 0);
    TookBoth(o, w, Acted(Looked(w)), ready, 1, 1, 1, 0);
    TookBoth(o, w, ready, ReadRun(o, w, p).world, 2, 1, n, n);
  }

  lemma HoldingTakes(o: Oracle, before: World, w: World, p: Path, bytes: Bytes, length: nat, ops: nat, looks: nat)
    requires length <= |bytes|
    ensures Took(o, before, Holding(w, p, bytes, length), ops, looks) <==> Took(o, before, w, ops, looks)
  {
  }

  lemma {:induction false} WriteChunksTake(o: Oracle, w: World, p: Path, bytes: Bytes, offset: nat)
    requires offset <= |bytes| && WriteChunks(o, w, p, bytes, offset).value
    ensures var n := Chunks(|bytes| - offset) + 1;
            Took(o, w, WriteChunks(o, w, p, bytes, offset).world, n, n)
    decreases |bytes| - offset
  {
    hide Took, Holding;
    TookStep(o, w);
    if offset == |bytes| {
      TookStep(o, Acted(w));
      TookBoth(o, w, Acted(w), Looked(Acted(w)), 1, 0, 0, 1);
    } else {
      var chunk := Min(|bytes| - offset, CHUNK);
      var next := Holding(Acted(Looked(w)), p, bytes, offset + chunk);
      TookStep(o, Looked(w));
      TookBoth(o, w, Looked(w), Acted(Looked(w)), 0, 1, 1, 0);
      HoldingTakes(o, w, Acted(Looked(w)), p, bytes, offset + chunk, 1, 1);
      WriteChunksTake(o, next, p, bytes, offset + chunk);
      var n := Chunks(|bytes| - offset - chunk) + 1;
      TookBoth(o, w, next, WriteChunks(o, w, p, bytes, offset).world, 1, 1, n, n);
    }
  }

  /** A write succeeds with a look before it, before every chunk and after closing. */
  lemma {:induction false} WriteTakes(o: Oracle, w: World, p: Path, bytes: Bytes)
    requires WriteRun(o, w, p, bytes).value
    ensures var n := Chunks(|bytes|); Took(o, w, WriteRun(o, w, p, bytes).world, n + 2, n + 2)
  {
    var ready := Holding(Acted(Looked(w)), p, bytes, 0);
    WriteChunksTake(o, ready, p, bytes, 0);
    TookStep(o, w);
    TookStep(o, Looked(w));
    hide Took, WriteChunks, Holding;
    TookBoth(o, w, Looked(w), Acted(Looked(w)), 0, 1, 1, 0);
    HoldingTakes(o, w, Acted(Looked(w)), p, bytes, 0, 1, 1);
    var n := Chunks(|bytes|) + 1;
    TookBoth(o, w, ready, WriteRun(o, w, p, bytes).world, 1, 1, n, n);
  }

  lemma {:induction false} CopyChunksTake(o: Oracle, w: World, content: Bytes, target: Path, offset: nat)
    requires offset <= |content| && CopyChunks(o, w, content, target, offset).value.ok
    ensures var n := (|content| - offset) / 0x10_0000 + 2;
            Took(o, w, CopyChunks(o, w, content, target, offset).world, n, n)
    decreases |content| - offset
  {
    hide Took, Holding;
    var count := Min(|content| - offset, CHUNK);
    var next := Holding(Acted(Looked(w)), target, content, offset + count);
    TookStep(o, w);
    TookStep(o, Looked(w));
    TookBoth(o, w, Looked(w), Acted(Looked(w)), 0, 1, 1, 0);
    HoldingTakes(o, w, Acted(Looked(w)), target, content, offset + count, 1, 1);
    if count == CHUNK {
      CopyChunksTake(o, next, content, target, offset + count);
      var n := (|content| - offset - count) / 0x10_0000 + 2;
      TookBoth(o, w, next, CopyChunks(o, w, content, target, offset).world, 1, 1, n, n);
    } else {
      TookStep(o, next);
      TookStep(o, Acted(next));
      TookBoth(o, next, Acted(next), Looked(Acted(next)), 1, 0, 0, 1);
      TookBoth(o, w, next, Looked(Acted(next)), 1, 1, 1, 1);
    }
  }

  /** A copy succeeds with a look before it, before every read, the one that finds the end too, and after closing. */
  lemma {:induction false} CopyTakes(o: Oracle, w: World, content: Bytes, target: Path)
    requires CopyRun(o, w, content, target).value.ok
    ensures var n := |content| / 0x10_0000; Took(o, w, CopyRun(o, w, content, target).world, n + 4, n + 3)
  {
    var ready := Holding(Acted(Acted(Looked(w))), target, content, 0);
    CopyChunksTake(o, ready, content, target, 0);
    TookStep(o, w);
    TookStep(o, Looked(w));
    TookStep(o, Acted(Looked(w)));
    hide Took, CopyChunks, Holding;
    TookBoth(o, w, Looked(w), Acted(Looked(w)), 0, 1, 1, 0);
    TookBoth(o, w, Acted(Looked(w)), Acted(Acted(Looked(w))), 1, 1, 1, 0);
    HoldingTakes(o, w, Acted(Acted(Looked(w))), target, content, 0, 2, 1);
    var n := |content| / 0x10_0000 + 2;
    TookBoth(o, w, ready, CopyRun(o, w, content, target).world, 2, 1, n, n);
  }

  // ----- the disk ----------------------------------------------------------------------------------------------

  class Disk {
    const oracle: Oracle
    var nodes: map<Path, Node>
    var ops: nat
    var looks: nat

    constructor (oracle: Oracle, nodes: map<Path, Node>)
      ensures this.oracle == oracle && Now() == World(nodes, 0, 0)
    {
      this.oracle, this.nodes, ops, looks := oracle, nodes, 0, 0;
    }

    ghost function Now(): World
      reads this
    {
      World(nodes, ops, looks)
    }

    /** A look at the token. */
    method IsCancelled() returns (c: bool)
      modifies this`looks
      ensures c == SeesCancelled(oracle, old(Now())) && Now() == Looked(old(Now()))
    {
      c := oracle.cancelled(looks);
      looks := looks + 1;
    }

    /** One file operation: nothing when it succeeds, and how much it may have written when it fails. */
    method Act() returns (fault: Option<nat>)
      modifies this`ops
      ensures fault == oracle.fault(old(ops)) && Now() == Acted(old(Now()))
    {
      fault := oracle.fault(ops);
      ops := ops + 1;
    }

    method Inspect(p: Path) returns (status: Status)
      modifies this`ops
      ensures Run(status, Now()) == StatusRun(oracle, old(Now()), p)
    {
      var fault := Act();
      if fault.Some? { return Unknown; }
      status := if p in nodes then Found(nodes[p]) else NotFound;
    }

    method Remove(p: Path)
      modifies this`nodes, this`ops
      ensures Now() == RemoveRun(oracle, old(Now()), p)
    {
      var fault := Act();
      if fault.None? { nodes := nodes - {p}; }
    }

    method Rename(source: Path, target: Path) returns (ok: bool)
      modifies this`nodes, this`ops
      ensures Run(ok, Now()) == RenameRun(oracle, old(Now()), source, target)
    {
      var fault := Act();
      if fault.Some? || source !in nodes { return false; }
      nodes := (nodes - {source})[target := nodes[source]];
      ok := true;
    }

    method ReadBoundedFile(p: Path) returns (r: Option<Bytes>)
      modifies this`ops, this`looks
      ensures Run(r, Now()) == ReadRun(oracle, old(Now()), p)
    {
      var c := IsCancelled();
      if c { return None; }
      var fault := Act();
      if fault.Some? || p !in nodes || !nodes[p].Regular? { return None; }
      if |nodes[p].content| > MAX_TORRENT_BYTES { return None; }
      fault := Act();
      if fault.Some? { return None; }
      r := ReadAll(nodes[p].content);
    }

    /** The loop of ReadBoundedFile and the checks after it. */
    method ReadAll(content: Bytes) returns (r: Option<Bytes>)
      modifies this`ops, this`looks
      ensures Run(r, Now()) == ReadChunks(oracle, old(Now()), content, 0)
    {
      var bytes: Bytes := [];
      while |bytes| < |content|
        invariant |bytes| <= |content| && bytes == content[..|bytes|] && nodes == old(nodes)
        invariant ReadChunks(oracle, old(Now()), content, 0) == ReadChunks(oracle, Now(), content, |bytes|)
      {
        var c := IsCancelled();
        if c { return None; }
        var chunk := Min(|content| - |bytes|, CHUNK);
        var fault := Act();
        if fault.Some? { return None; }
        bytes := bytes + content[|bytes|..|bytes| + chunk];
      }
      assert bytes == content;
      var c := IsCancelled();
      if c { return None; }
      var fault := Act();
      if fault.Some? { return None; }
      r := Some(bytes);
    }

    /** One write: the chunk, or some bytes of it and an error. */
    method Store(p: Path, bytes: Bytes, offset: nat, chunk: nat) returns (ok: bool)
      requires offset + chunk <= |bytes| && p in nodes && nodes[p] == Regular(bytes[..offset])
      modifies this`nodes, this`ops
      ensures ok == !Fails(oracle, old(Now()))
      ensures Now() == Holding(Acted(old(Now())), p, bytes, offset + Stored(oracle, old(Now()), chunk))
      ensures ok ==> Stored(oracle, old(Now()), chunk) == chunk
      ensures ok ==> p in nodes && nodes[p] == Regular(bytes[..offset + chunk])
    {
      var fault := Act();
      var stored := if fault.Some? then Min(fault.value, chunk) else chunk;
      assert bytes[..offset] + bytes[offset..offset + stored] == bytes[..offset + stored];
      nodes := nodes[p := Regular(nodes[p].content + bytes[offset..offset + stored])];
      ok := fault.None?;
    }

    method WriteBoundedFile(p: Path, bytes: Bytes) returns (ok: bool)
      modifies this`nodes, this`ops, this`looks
      ensures Run(ok, Now()) == WriteRun(oracle, old(Now()), p, bytes)
    {
      var c := IsCancelled();
      if c { return false; }
      var fault := Act();
      if fault.Some? { return false; }
      nodes := nodes[p := Regular([])];
      assert bytes[..0] == [];
      ok := WriteAll(p, bytes);
    }

    /** The loop of WriteBoundedFile, the close and the last look. */
    method WriteAll(p: Path, bytes: Bytes) returns (ok: bool)
      requires p in nodes && nodes[p] == Regular([])
      modifies this`nodes, this`ops, this`looks
      ensures Run(ok, Now()) == WriteChunks(oracle, old(Now()), p, bytes, 0)
    {
      hide Holding, Stored;
      var offset: nat := 0;
      while offset < |bytes|
        invariant offset <= |bytes| && p in nodes && nodes[p] == Regular(bytes[..offset])
        invariant WriteChunks(oracle, old(Now()), p, bytes, 0) == WriteChunks(oracle, Now(), p, bytes, offset)
      {
        var c := IsCancelled();
        if c { return false; }
        var chunk := Min(|bytes| - offset, CHUNK);
        ok := Store(p, bytes, offset, chunk);
        if !ok { return; }
        offset := offset + chunk;
      }
      var fault := Act();
      if fault.Some? { return false; }
      var c := IsCancelled();
      ok := !c;
    }

    /** The copy, and whether the target was opened. */
    method CopyBoundedFile(source: Path, target: Path) returns (ok: bool, ghost started: bool)
      requires source in nodes && nodes[source].Regular? && source != target
      modifies this`nodes, this`ops, this`looks
      ensures Run(Copied(ok, started), Now()) == CopyRun(oracle, old(Now()), old(nodes)[source].content, target)
    {
      started := false;
      var c := IsCancelled();
      if c { return false, started; }
      var fault := Act();
      if fault.Some? { return false, started; }
      fault := Act();
      if fault.Some? { return false, started; }
      assert nodes[source].content[..0] == [];
      nodes := nodes[target := Regular([])];
      started := true;
      ok := CopyAll(nodes[source].content, target);
    }

    /** The loop of CopyBoundedFile, the close and the last look; it ends after the first chunk not full. */
    method CopyAll(content: Bytes, target: Path) returns (ok: bool)
      requires target in nodes && nodes[target] == Regular([])
      modifies this`nodes, this`ops, this`looks
      ensures Run(Copied(ok, true), Now()) == CopyChunks(oracle, old(Now()), content, target, 0)
    {
      hide Holding, Stored, CopyClosed;
      var offset: nat := 0;
      var more := true;
      while more
        invariant offset <= |content| && target in nodes && nodes[target] == Regular(content[..offset])
        invariant CopyChunks(oracle, old(Now()), content, target, 0)
               == CopyRest(oracle, Now(), content, target, offset, more)
        decreases |content| - offset, more
      {
        var c := IsCancelled();
        if c { return false; }
        var count := Min(|content| - offset, CHUNK);
        ok := Store(target, content, offset, count);
        if !ok { return; }
        offset := offset + count;
        more := count == CHUNK;
      }
      ok := Close();
    }

    /** The close of a copy and the last look. */
    method Close() returns (ok: bool)
      modifies this`ops, this`looks
      ensures Run(Copied(ok, true), Now()) == CopyClosed(oracle, old(Now()))
    {
      var fault := Act();
      if fault.Some? { return false; }
      var c := IsCancelled();
      ok := !c;
    }
  }
}
