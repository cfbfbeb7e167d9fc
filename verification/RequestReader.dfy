/** Reading a request (src/connections.c, connection_handle_read_state): the header is cut out of the
    read queue, and the body moved over, wherever the chunks of the queue begin and end. */
module RequestReader {
  import opened ChunkQueues

  const CR := 13
  const HEADER_END: Bytes := [13, 10, 13, 10]

  /** The header ends at e: the first line end followed by an empty line ends there. */
  predicate EndsAt(s: Bytes, e: nat) {
    4 <= e <= |s| && s[e - 4..e] == HEADER_END
  }

  predicate HeaderEnd(s: Bytes, e: nat) {
    EndsAt(s, e) && forall k | 0 <= k < e :: !EndsAt(s, k)
  }

  /** The unread bytes of each chunk. */
  function Slices(cs: seq<Chunk>): (r: seq<Bytes>)
    requires ChunksOk(cs)
    ensures |r| == |cs| && forall i | 0 <= i < |r| :: r[i] == Unread(cs[i])
  {
    if cs == [] then [] else Slices(cs[..|cs| - 1]) + [Unread(cs[|cs| - 1])]
  }

  function Flat(ss: seq<Bytes>): Bytes {
    if ss == [] then [] else Flat(ss[..|ss| - 1]) + ss[|ss| - 1]
  }

  /** Where slice c begins in the stream. */
  function Start(ss: seq<Bytes>, c: nat): nat
    requires c <= |ss|
  {
    |Flat(ss[..c])|
  }

  lemma StartNext(ss: seq<Bytes>, c: nat)
    requires c < |ss|
    ensures Start(ss, c + 1) == Start(ss, c) + |ss[c]|
  {
    assert ss[..c + 1][..c] == ss[..c];
  }

  lemma {:induction false} FlatPrefix(ss: seq<Bytes>, c: nat)
    requires c <= |ss|
    ensures Start(ss, c) <= |Flat(ss)| && Flat(ss[..c]) == Flat(ss)[..Start(ss, c)]
  {
    if c == |ss| {
      assert ss[..c] == ss;
    } else {
      var init := ss[..|ss| - 1];
      FlatPrefix(init, c);
      assert init[..c] == ss[..c];
    }
  }

  /** Byte i of slice c in the stream. */
  lemma FlatAt(ss: seq<Bytes>, c: nat, i: nat)
    requires c < |ss| && i < |ss[c]|
    ensures Start(ss, c) + i < |Flat(ss)| && Flat(ss)[Start(ss, c) + i] == ss[c][i]
  {
    FlatPrefix(ss, c + 1);
    StartNext(ss, c);
    assert ss[..c + 1][..c] == ss[..c];
    assert Flat(ss[..c + 1]) == Flat(ss[..c]) + ss[c];
  }

  /** The first pos bytes of the header end are at p. */
  ghost predicate Matched(s: Bytes, p: nat, pos: nat) {
    pos <= 4 && p + pos <= |s| && s[p..p + pos] == HEADER_END[..pos]
  }

  lemma MatchOne(s: Bytes, p: nat, pos: nat)
    requires Matched(s, p, pos) && pos < 4 && p + pos < |s|
    ensures s[p + pos] == HEADER_END[pos] ==> Matched(s, p, pos + 1)
    ensures s[p + pos] != HEADER_END[pos] ==> !EndsAt(s, p + 4)
  {
    if s[p + pos] == HEADER_END[pos] {
      assert s[p..p + pos + 1] == s[p..p + pos] + [s[p + pos]];
      assert HEADER_END[..pos + 1] == HEADER_END[..pos] + [HEADER_END[pos]];
    } else if p + 4 <= |s| {
      assert s[p..p + 4][pos] == s[p + pos];
    }
  }

  datatype Match = Found(off: nat) | Mismatch | More(pos: nat)

  /** Go on matching in slice c from byte j; pos bytes have matched so far. */
  method MatchSlice(ss: seq<Bytes>, c: nat, j0: nat, pos0: nat, ghost p: nat) returns (m: Match)
    requires c < |ss| && j0 <= |ss[c]| && 1 <= pos0 < 4
    requires Start(ss, c) + j0 == p + pos0 && Matched(Flat(ss), p, pos0)
    ensures m.Found? ==> 0 < m.off <= |ss[c]| && Start(ss, c) + m.off == p + 4 && EndsAt(Flat(ss), p + 4)
    ensures m.Mismatch? ==> !EndsAt(Flat(ss), p + 4)
    ensures m.More? ==> 1 <= m.pos < 4 && Start(ss, c) + |ss[c]| == p + m.pos && Matched(Flat(ss), p, m.pos)
  {
    ghost var s := Flat(ss);
    var j, pos := j0, pos0;
    while j < |ss[c]|
      invariant j <= |ss[c]| && 1 <= pos < 4 && Start(ss, c) + j == p + pos && Matched(s, p, pos)
    {
      FlatAt(ss, c, j);
      MatchOne(s, p, pos);
      if ss[c][j] != HEADER_END[pos] { return Mismatch; }
      pos, j := pos + 1, j + 1;
      if pos == 4 {
        assert HEADER_END[..4] == HEADER_END;
        return Found(j);
      }
    }
    return More(pos);
  }

  /** Does the header end follow the carriage return at byte i of slice c? Then it ends behind byte
      off - 1 of slice last. */
  method MatchEnd(ss: seq<Bytes>, c: nat, i: nat) returns (found: bool, last: nat, off: nat)
    requires c < |ss| && i < |ss[c]| && ss[c][i] == CR
    ensures found <==> EndsAt(Flat(ss), Start(ss, c) + i + 4)
    ensures found ==> c <= last < |ss| && 0 < off <= |ss[last]| && Start(ss, last) + off == Start(ss, c) + i + 4
  {
    ghost var s, p := Flat(ss), Start(ss, c) + i;
    FlatAt(ss, c, i);
    var j: nat, cc, pos := i + 1, c, 1;
    assert ss[..|ss|] == ss;
    while cc < |ss|
      invariant c <= cc <= |ss| && 1 <= pos < 4 && Matched(s, p, pos)
      invariant if cc < |ss| then j <= |ss[cc]| && Start(ss, cc) + j == p + pos else |s| == p + pos
    {
      var m := MatchSlice(ss, cc, j, pos, p);
      if m.Found? { return true, cc, m.off; }
      if m.Mismatch? { return false, 0, 0; }
      StartNext(ss, cc);
      pos, cc, j := m.pos, cc + 1, 0;
    }
    return false, 0, 0;
  }

  /** Look for the end of the header over all slices. */
  method FindEnd(ss: seq<Bytes>) returns (found: bool, last: nat, off: nat)
    ensures !found ==> forall e | 0 <= e <= |Flat(ss)| :: !EndsAt(Flat(ss), e)
    ensures found ==> last < |ss| && 0 < off <= |ss[last]| && HeaderEnd(Flat(ss), Start(ss, last) + off)
  {
    ghost var s := Flat(ss);
    for c := 0 to |ss|
      invariant forall e | 0 <= e < Start(ss, c) + 4 :: !EndsAt(s, e)
    {
      for i := 0 to |ss[c]|
        invariant forall e | 0 <= e < Start(ss, c) + i + 4 :: !EndsAt(s, e)
      {
        FlatAt(ss, c, i);
        if ss[c][i] == CR {
          found, last, off := MatchEnd(ss, c, i);
          if found { return; }
        } else {
          ghost var p := Start(ss, c) + i;
          assert p + 4 <= |s| ==> s[p..p + 4][0] != CR;
        }
      }
      StartNext(ss, c);
    }
    assert ss[..|ss|] == ss;
    return false, 0, 0;
  }

  lemma {:induction false} StreamFlat(cs: seq<Chunk>)
    requires ChunksOk(cs)
    ensures Stream(cs) == Flat(Slices(cs))
  {
    if cs != [] {
      var init, last := cs[..|cs| - 1], cs[|cs| - 1];
      StreamFlat(init);
      assert cs == init + [last];
      StreamConcat(init, [last]);
      StreamOne(last);
      var ss := Slices(cs);
      assert ss[..|ss| - 1] == Slices(init);
    }
  }

  function AllUsed(cs: seq<Chunk>): (r: seq<Chunk>)
    requires ChunksOk(cs)
    ensures |r| == |cs| && ChunksOk(r) && (forall i | 0 <= i < |r| :: r[i] == UsedUp(cs[i])) && Stream(r) == []
  {
    if cs == [] then [] else [UsedUp(cs[0])] + AllUsed(cs[1..])
  }

  function Used(c: Chunk, n: nat): (r: Chunk)
    requires ChunkOk(c) && n <= |Unread(c)|
    ensures ChunkOk(r) && Unread(r) == Unread(c)[n..] && r.bytes == c.bytes
  {
    match c
    case MemChunk(bytes, filled, offset) => MemChunk(bytes, filled, offset + n)
    case FileChunk(bytes, temp, offset) => FileChunk(bytes, temp, offset + n)
  }

  /** The chunks once everything up to byte off of the unread part of chunk last is used up. */
  function Advanced(cs: seq<Chunk>, last: nat, off: nat): (r: seq<Chunk>)
    requires ChunksOk(cs) && last < |cs| && off <= |Unread(cs[last])|
    ensures |r| == |cs| && ChunksOk(r)
  {
    AllUsed(cs[..last]) + [Used(cs[last], off)] + cs[last + 1..]
  }

  lemma Parts<T>(s: seq<T>, i: nat)
    requires i < |s|
    ensures s == s[..i] + [s[i]] + s[i + 1..]
    ensures forall x: T :: s[i := x] == s[..i] + [x] + s[i + 1..] && s[i := x][..i + 1] == s[..i] + [x]
  {}

  lemma SplitStream(a: seq<Chunk>, c: Chunk, b: seq<Chunk>)
    requires ChunksOk(a) && ChunkOk(c) && ChunksOk(b)
    ensures ChunksOk(a + [c] + b) && Stream(a + [c] + b) == Stream(a) + Unread(c) + Stream(b)
  {
    StreamConcat(a, [c]);
    StreamConcat(a + [c], b);
    StreamOne(c);
  }

  lemma CutIn(x: Bytes, y: Bytes, z: Bytes, off: nat)
    requires off <= |y|
    ensures (x + y + z)[|x| + off..] == [] + y[off..] + z && (x + y + z)[..|x| + off] == x + y[..off]
  {}

  lemma AdvancedParts(a: seq<Chunk>, c: Chunk, b: seq<Chunk>, off: nat)
    requires ChunksOk(a) && ChunkOk(c) && ChunksOk(b) && off <= |Unread(c)|
    ensures ChunksOk(a + [c] + b) && |Stream(a)| + off <= |Stream(a + [c] + b)|
    ensures Stream(AllUsed(a) + [Used(c, off)] + b) == Stream(a + [c] + b)[|Stream(a)| + off..]
    ensures Stream(a + [c] + b)[..|Stream(a)| + off] == Stream(a) + Unread(c)[..off]
  {
    SplitStream(a, c, b);
    SplitStream(AllUsed(a), Used(c, off), b);
    CutIn(Stream(a), Unread(c), Stream(b), off);
  }

  /** The bytes up to there, and the bytes left. */
  lemma AdvancedStream(cs: seq<Chunk>, last: nat, off: nat)
    requires ChunksOk(cs) && last < |cs| && off <= |Unread(cs[last])|
    ensures var n := |Stream(cs[..last])| + off;
      n <= |Stream(cs)| && Stream(Advanced(cs, last, off)) == Stream(cs)[n..] &&
        Stream(cs)[..n] == Stream(cs[..last]) + Unread(cs[last])[..off]
  {
    Parts(cs, last);
    AdvancedParts(cs[..last], cs[last], cs[last + 1..], off);
  }

  lemma SlicesPrefix(cs: seq<Chunk>, n: nat)
    requires ChunksOk(cs) && n <= |cs|
    ensures Slices(cs)[..n] == Slices(cs[..n])
  {
    forall i | 0 <= i < n
      ensures Slices(cs)[i] == Slices(cs[..n])[i]
    {}
  }

  lemma StartStream(cs: seq<Chunk>, last: nat)
    requires ChunksOk(cs) && last <= |cs|
    ensures Start(Slices(cs), last) == |Stream(cs[..last])|
  {
    StreamFlat(cs[..last]);
    SlicesPrefix(cs, last);
  }

  datatype State = READ | REQUEST_END | READ_POST | HANDLE_REQUEST | ERROR

  const MAX_HEADER := 64 * 1024
  const MAX_IN_MEMORY := 64 * 1024
  const MAX_TEMPFILE := 1024 * 1024

  /** A buffer that has never been written to. */
  predicate Empty(c: Chunk) {
    c.MemChunk? && !c.filled
  }

  /** What connection_handle_read leaves in the read queue: memory chunks, of which no two in a row
      are empty. */
  ghost predicate Readable(cs: seq<Chunk>) {
    && ChunksOk(cs) && AllMemory(cs)
    && forall i | 0 < i < |cs| :: !(Empty(cs[i - 1]) && Empty(cs[i]))
  }

  ghost predicate SmallChunks(cs: seq<Chunk>, m: nat) {
    forall i | 0 <= i < |cs| :: |cs[i].bytes| <= m
  }

  /** A temporary file gets no piece once it has MAX_TEMPFILE bytes, so with pieces of at most m bytes it
      stays below that and m. */
  ghost predicate FilesBounded(cs: seq<Chunk>, m: nat) {
    forall i | 0 <= i < |cs| && cs[i].FileChunk? && cs[i].temp :: |cs[i].bytes| < MAX_TEMPFILE + m || |cs[i].bytes| <= m
  }

  ghost predicate AllMemory(cs: seq<Chunk>) {
    forall i | 0 <= i < |cs| :: cs[i].MemChunk?
  }

  /** Only empty chunks have been taken out. */
  ghost predicate Kept(cs: seq<Chunk>, was: seq<Chunk>) {
    ChunksOk(cs) && ChunksOk(was) && AllMemory(cs) && Stream(cs) == Stream(was) && Total(cs) == Total(was)
  }

  /** The queue while the empty chunks are moved out: none before position c, nor at c but at the
      front. */
  ghost predicate Cleaning(cs: seq<Chunk>, c: nat) {
    && Readable(cs) && c <= |cs| && (forall i | 0 <= i < c :: !Empty(cs[i]))
    && (0 < c < |cs| ==> !Empty(cs[c]))
  }

  lemma DropFront(cs: seq<Chunk>, was: seq<Chunk>)
    requires Kept(cs, was) && cs != [] && Empty(cs[0])
    ensures Kept(cs[1..], was) && (Cleaning(cs, 0) ==> Cleaning(cs[1..], 0))
    ensures forall m: nat :: SmallChunks(cs, m) ==> SmallChunks(cs[1..], m)
  {
    DropEmpty(cs, 0);
  }

  lemma GoOn(cs: seq<Chunk>, c: nat)
    requires c < |cs| && (c == 0 ==> !Empty(cs[c])) && (c + 1 < |cs| ==> !Empty(cs[c + 1]))
    ensures Cleaning(cs, c) ==> Cleaning(cs, c + 1)
  {}

  lemma CleanNext(cs: seq<Chunk>, c: nat)
    requires Cleaning(cs, c) && c + 1 < |cs| && !Empty(cs[c]) && Empty(cs[c + 1])
    requires ChunksOk(cs[..c + 1] + cs[c + 2..])
    ensures Cleaning(cs[..c + 1] + cs[c + 2..], c + 1)
  {
    var r := cs[..c + 1] + cs[c + 2..];
    forall i | 0 < i < |r|
      ensures !(Empty(r[i - 1]) && Empty(r[i]))
    {
      if i > c + 1 { assert !(Empty(cs[i]) && Empty(cs[i + 1])); }
    }
  }

  lemma SmallNext(cs: seq<Chunk>, c: nat)
    requires c + 1 < |cs|
    ensures AllMemory(cs) ==> AllMemory(cs[..c + 1] + cs[c + 2..])
    ensures forall m: nat :: SmallChunks(cs, m) ==> SmallChunks(cs[..c + 1] + cs[c + 2..], m)
  {}

  lemma DropNext(cs: seq<Chunk>, c: nat, was: seq<Chunk>)
    requires Kept(cs, was) && c + 1 < |cs| && (c == 0 ==> !Empty(cs[c])) && Empty(cs[c + 1])
    ensures Kept(cs[..c + 1] + cs[c + 2..], was)
    ensures Cleaning(cs, c) ==> Cleaning(cs[..c + 1] + cs[c + 2..], c + 1)
    ensures forall m: nat :: SmallChunks(cs, m) ==> SmallChunks(cs[..c + 1] + cs[c + 2..], m)
  {
    DropEmpty(cs, c + 1);
    SmallNext(cs, c);
    if Cleaning(cs, c) { CleanNext(cs, c); }
  }

  /** Memory chunks that have been written to. */
  ghost predicate Filled(cs: seq<Chunk>) {
    forall i | 0 <= i < |cs| :: cs[i].MemChunk? && cs[i].filled
  }

  /** The first chunk has something left, if there is one. */
  ghost predicate Unfinished(cs: seq<Chunk>) {
    cs != [] ==> !Finished(cs[0])
  }

  /** Move empty chunks out of the queue: all of them, if no two stand in a row. */
  method RemoveEmpty(q: ChunkQueue, ghost m: nat)
    requires q.Valid() && AllMemory(q.chunks)
    modifies q`chunks
    ensures q.Valid() && AllMemory(q.chunks) && |q.chunks| <= old(|q.chunks|)
    ensures Stream(q.chunks) == old(Stream(q.chunks)) && Total(q.chunks) == old(Total(q.chunks))
    ensures old(Readable(q.chunks)) ==> Filled(q.chunks)
    ensures old(Filled(q.chunks)) ==> q.chunks == old(q.chunks)
    ensures old(SmallChunks(q.chunks, m)) ==> SmallChunks(q.chunks, m)
  {
    ghost var was := q.chunks;
    var c := 0;
    while c < |q.chunks|
      invariant Kept(q.chunks, was) && (Readable(was) ==> Cleaning(q.chunks, c)) && c <= |q.chunks| <= |was|
      invariant (SmallChunks(was, m) ==> SmallChunks(q.chunks, m)) && (Filled(was) ==> q.chunks == was)
      decreases |q.chunks| - c
    {
      if c == 0 && Empty(q.chunks[0]) {
        DropFront(q.chunks, was);
        q.chunks := q.chunks[1..];
      } else if c + 1 < |q.chunks| && Empty(q.chunks[c + 1]) {
        DropNext(q.chunks, c, was);
        q.chunks := q.chunks[..c + 1] + q.chunks[c + 2..];
        c := c + 1;
      } else {
        GoOn(q.chunks, c);
        c := c + 1;
      }
    }
  }

  lemma DropEmpty(cs: seq<Chunk>, i: nat)
    requires ChunksOk(cs) && i < |cs| && Empty(cs[i])
    ensures var r := cs[..i] + cs[i + 1..];
      ChunksOk(r) && Stream(r) == Stream(cs) && Total(r) == Total(cs) && (i == 0 ==> r == cs[1..])
  {
    var a, b := cs[..i], cs[i + 1..];
    Parts(cs, i);
    SplitStream(a, cs[i], b);
    StreamConcat(a, b);
    TotalConcat(a + [cs[i]], b);
    TotalConcat(a, [cs[i]]);
    TotalConcat(a, b);
    assert [cs[i]][1..] == [];
  }

  /** The bytes copied from the first n chunks. */
  lemma CopyStep(cs: seq<Chunk>, n: nat)
    requires ChunksOk(cs) && n < |cs|
    ensures Stream(cs[..n + 1]) == Stream(cs[..n]) + Unread(cs[n])
    ensures (AllUsed(cs[..n]) + cs[n..])[n] == cs[n]
    ensures (AllUsed(cs[..n]) + cs[n..])[n := UsedUp(cs[n])] == AllUsed(cs[..n + 1]) + cs[n + 1..]
  {
    assert cs[..n + 1] == cs[..n] + [cs[n]];
    StreamConcat(cs[..n], [cs[n]]);
    StreamOne(cs[n]);
  }

  lemma AdvancedFilled(cs: seq<Chunk>, last: nat, off: nat)
    requires ChunksOk(cs) && last < |cs| && off <= |Unread(cs[last])| && Filled(cs)
    ensures Filled(Advanced(cs, last, off))
    ensures forall m: nat :: SmallChunks(cs, m) ==> SmallChunks(Advanced(cs, last, off), m)
  {}

  lemma {:induction false} StillFilled(cs: seq<Chunk>)
    requires ChunksOk(cs) && Filled(cs)
    ensures Filled(DropFinished(cs)) && forall m: nat :: SmallChunks(cs, m) ==> SmallChunks(DropFinished(cs), m)
  {
    if cs != [] && Finished(cs[0]) { StillFilled(cs[1..]); }
  }

  lemma CopyEnd(cs: seq<Chunk>, last: nat, off: nat)
    requires ChunksOk(cs) && last < |cs| && off <= |Unread(cs[last])|
    ensures (AllUsed(cs[..last]) + cs[last..])[last] == cs[last]
    ensures (AllUsed(cs[..last]) + cs[last..])[last := Used(cs[last], off)] == Advanced(cs, last, off)
  {}

  /** Where a header ends somewhere, it ends somewhere first. */
  lemma {:induction false} FirstEnd(s: Bytes, e: nat) returns (k: nat)
    requires EndsAt(s, e)
    ensures k <= e && HeaderEnd(s, k)
  {
    if m: nat :| m < e && EndsAt(s, m) { k := FirstEnd(s, m); } else { k := e; }
  }

  /** What is cut out is the stream up to the end of the header, and the rest stays. */
  lemma CutOut(cs: seq<Chunk>, last: nat, off: nat)
    requires ChunksOk(cs) && last < |cs| && off <= |Unread(cs[last])|
    requires HeaderEnd(Flat(Slices(cs)), Start(Slices(cs), last) + off)
    ensures var e := Start(Slices(cs), last) + off;
      && e <= |Stream(cs)| && HeaderEnd(Stream(cs), e)
      && Stream(cs[..last]) + Unread(cs[last])[..off] == Stream(cs)[..e] &&
        Stream(Advanced(cs, last, off)) == Stream(cs)[e..]
  {
    StreamFlat(cs);
    StartStream(cs, last);
    AdvancedStream(cs, last, off);
  }

  /** The last chunk is a temporary file that nothing has been read from. */
  predicate OpenFile(cs: seq<Chunk>) {
    cs != [] && cs[|cs| - 1].FileChunk? && cs[|cs| - 1].temp && cs[|cs| - 1].offset == 0
  }

  /** The queue of the body with a piece more: small bodies stay in memory, large ones go to temporary
      files, and to a new one once the last has MAX_TEMPFILE bytes. */
  function WithPiece(cs: seq<Chunk>, piece: Bytes, large: bool): (r: seq<Chunk>)
    requires ChunksOk(cs)
    ensures ChunksOk(r)
  {
    var n := |cs| - 1;
    if large then
      if OpenFile(cs) && |cs[n].bytes| < MAX_TEMPFILE then cs[..n] + [FileChunk(cs[n].bytes + piece, true, 0)]
      else cs + [FileChunk(piece, true, 0)]
    else if cs != [] && cs[n].MemChunk? then
      cs[..n] + [MemChunk(cs[n].bytes + piece, cs[n].filled || piece != [], cs[n].offset)]
    else cs + [MemChunk(piece, piece != [], 0)]
  }

  lemma TotalOne(c: Chunk)
    ensures Total([c]) == c.bytes
  {
    assert [c][1..] == [];
  }

  lemma TotalLast(cs: seq<Chunk>, c: Chunk)
    ensures Total(cs + [c]) == Total(cs) + c.bytes
  {
    TotalConcat(cs, [c]);
    TotalOne(c);
  }

  /** Replacing the last chunk by one that holds a piece more. */
  lemma TotalGrown(init: seq<Chunk>, was: Chunk, now: Chunk, piece: Bytes)
    requires now.bytes == was.bytes + piece
    ensures Total(init + [now]) == Total(init + [was]) + piece
  {
    TotalLast(init, now);
    TotalLast(init, was);
    Regroup(Total(init), was.bytes, piece);
  }

  lemma Regroup(x: Bytes, y: Bytes, z: Bytes)
    ensures x + (y + z) == (x + y) + z
  {}

  /** A piece has come to the end of the queue, unread. */
  ghost predicate Grows(cs: seq<Chunk>, cs': seq<Chunk>, piece: Bytes) {
    && ChunksOk(cs) && ChunksOk(cs')
    && Stream(cs') == Stream(cs) + piece && Total(cs') == Total(cs) + piece
  }

  lemma GrowsLast(cs: seq<Chunk>, c: Chunk)
    requires ChunksOk(cs) && ChunkOk(c) && c.offset == 0
    ensures Grows(cs, cs + [c], c.bytes)
  {
    TotalLast(cs, c);
    StreamConcat(cs, [c]);
    StreamOne(c);
  }

  /** Replacing the last chunk by one that holds a piece more. */
  lemma GrowsIn(init: seq<Chunk>, was: Chunk, now: Chunk, piece: Bytes)
    requires ChunksOk(init) && ChunkOk(was) && ChunkOk(now)
    requires now.bytes == was.bytes + piece && now.offset == was.offset
    ensures Grows(init + [was], init + [now], piece)
  {
    TotalGrown(init, was, now, piece);
    StreamConcat(init, [was]);
    StreamConcat(init, [now]);
    StreamOne(was);
    StreamOne(now);
    assert Unread(now) == Unread(was) + piece;
    Regroup(Stream(init), Unread(was), piece);
  }

  lemma WithPieceGrows(cs: seq<Chunk>, piece: Bytes, large: bool)
    requires ChunksOk(cs)
    ensures Grows(cs, WithPiece(cs, piece, large), piece)
  {
    var n := |cs| - 1;
    if large && !(OpenFile(cs) && |cs[n].bytes| < MAX_TEMPFILE) {
      GrowsLast(cs, FileChunk(piece, true, 0));
    } else if !large && !(cs != [] && cs[n].MemChunk?) {
      GrowsLast(cs, MemChunk(piece, piece != [], 0));
    } else {
      assert cs == cs[..n] + [cs[n]];
      var grown :=
        if large then FileChunk(cs[n].bytes + piece, true, 0)
        else MemChunk(cs[n].bytes + piece, cs[n].filled || piece != [], cs[n].offset);
      GrowsIn(cs[..n], cs[n], grown, piece);
    }
  }

  /** Where the body is: a small one in one chunk of memory, a large one in temporary files, all full but
      the last. */
  ghost predicate Placed(cs: seq<Chunk>, large: bool) {
    if large then
      && (forall i | 0 <= i < |cs| :: cs[i].FileChunk? && cs[i].temp && cs[i].offset == 0)
      && forall i | 0 <= i < |cs| - 1 :: |cs[i].bytes| >= MAX_TEMPFILE
    else |cs| <= 1 && forall i | 0 <= i < |cs| :: cs[i].MemChunk?
  }

  lemma WithPiecePlaced(cs: seq<Chunk>, piece: Bytes, large: bool)
    requires ChunksOk(cs) && Placed(cs, large)
    ensures Placed(WithPiece(cs, piece, large), large)
  {}

  lemma WithPieceBounded(cs: seq<Chunk>, piece: Bytes, large: bool, m: nat)
    requires ChunksOk(cs) && FilesBounded(cs, m) && |piece| <= m
    ensures FilesBounded(WithPiece(cs, piece, large), m)
  {}

  lemma MoveOutOf(a: seq<Chunk>, c: Chunk, b: seq<Chunk>, n: nat)
    requires ChunksOk(a) && ChunkOk(c) && ChunksOk(b) && n <= |Unread(c)| && Stream(a) == []
    ensures ChunksOk(a + [c] + b) && ChunksOk(a + [Used(c, n)] + b)
    ensures Stream(a + [c] + b) == Unread(c)[..n] + Stream(a + [Used(c, n)] + b)
    ensures ChunksOk(a + [Used(c, n)]) && (n == |Unread(c)| ==> Stream(a + [Used(c, n)]) == [])
  {
    var c' := Used(c, n);
    SplitStream(a, c, b);
    SplitStream(a, c', b);
    StreamConcat(a, [c']);
    StreamOne(c');
    TakeFirst(Unread(c), Stream(b), n);
  }

  lemma TakeFirst(x: Bytes, y: Bytes, n: nat)
    requires n <= |x|
    ensures [] + x + y == x[..n] + ([] + x[n..] + y)
  {}

  /** Moving n bytes from chunk i, the first with unread bytes. */
  lemma MoveOut(cs: seq<Chunk>, i: nat, n: nat)
    requires ChunksOk(cs) && i < |cs| && n <= |Unread(cs[i])| && Stream(cs[..i]) == []
    ensures var r := cs[i := Used(cs[i], n)];
      ChunksOk(r) && Stream(cs) == Unread(cs[i])[..n] + Stream(r) && (n == |Unread(cs[i])| ==> Stream(r[..i + 1]) == [])
  {
    var a, c, b, r := cs[..i], cs[i], cs[i + 1..], cs[i := Used(cs[i], n)];
    MoveOutOf(a, c, b, n);
    Parts(cs, i);
  }

  /** The end of the header is in the stream. */
  ghost predicate HasEnd(s: Bytes) {
    exists e | 0 <= e <= |s| :: EndsAt(s, e)
  }

  /** The stream s has been cut at e, the end of the header. */
  ghost predicate HeaderCut(s: Bytes, e: nat, request: Bytes, rest: Bytes) {
    e <= |s| && HeaderEnd(s, e) && request == s[..e] && rest == s[e..]
  }

  /** Everything up to somewhere in the chunks has been used up. */
  ghost predicate UsedUpTo(cs: seq<Chunk>, cs': seq<Chunk>)
    requires ChunksOk(cs)
  {
    exists last: nat, off: nat | last < |cs| && off <= |Unread(cs[last])| :: cs' == Advanced(cs, last, off)
  }

  /** Look for the end of the header in the chunks. */
  method FindHeader(cs: seq<Chunk>) returns (found: bool, last: nat, off: nat)
    requires ChunksOk(cs)
    ensures found <==> HasEnd(Stream(cs))
    ensures found ==> last < |cs| && off <= |Unread(cs[last])|
    ensures found ==> exists e: nat ::
      HeaderCut(Stream(cs), e, Stream(cs[..last]) + Unread(cs[last])[..off], Stream(Advanced(cs, last, off)))
  {
    StreamFlat(cs);
    found, last, off := FindEnd(Slices(cs));
    if found {
      CutOut(cs, last, off);
      ghost var e := Start(Slices(cs), last) + off;
      assert EndsAt(Stream(cs), e);
      assert HeaderCut(Stream(cs), e, Stream(cs[..last]) + Unread(cs[last])[..off], Stream(Advanced(cs, last, off)));
    }
  }

  /** The bytes moved have gone from the front of the stream to the end of the body, where they are still
      unread, and have been counted. */
  ghost predicate Moved(stream0: Bytes, body0: seq<Chunk>, n0: nat, stream: Bytes, body: seq<Chunk>, n: nat,
                        moved: Bytes) {
    stream0 == moved + stream && Grows(body0, body, moved) && n == n0 + |moved|
  }

  lemma MovedMore(stream0: Bytes, body0: seq<Chunk>, n0: nat, stream: Bytes, body: seq<Chunk>, n: nat, moved: Bytes,
                  piece: Bytes, stream': Bytes, body': seq<Chunk>)
    requires Moved(stream0, body0, n0, stream, body, n, moved) && stream == piece + stream' && Grows(body, body', piece)
    ensures Moved(stream0, body0, n0, stream', body', n + |piece|, moved + piece)
  {}

  lemma PieceMoved(cs: seq<Chunk>, i: nat, n: nat, body: seq<Chunk>, large: bool, m: nat)
    requires ChunksOk(cs) && i < |cs| && n <= |Unread(cs[i])| && Stream(cs[..i]) == [] && ChunksOk(body)
    requires SmallChunks(cs, m) && FilesBounded(body, m)
    ensures var r, piece := cs[i := Used(cs[i], n)], Unread(cs[i])[..n];
      && ChunksOk(r) && SmallChunks(r, m) && Stream(cs) == piece + Stream(r) &&
        (n == |Unread(cs[i])| ==> Stream(r[..i + 1]) == [])
      && (Filled(cs) ==> Filled(r))
      && Grows(body, WithPiece(body, piece, large), piece) && FilesBounded(WithPiece(body, piece, large), m)
  {
    var piece := Unread(cs[i])[..n];
    MoveOut(cs, i, n);
    assert |cs[i].bytes| <= m;
    WithPieceGrows(body, piece, large);
    WithPieceBounded(body, piece, large, m);
  }

  class Connection {
    const read_queue: ChunkQueue
    const request_content_queue: ChunkQueue
    var state: State
    var request: Bytes              // the header of the request
    var content_length: nat         // what the header announces for the body
    var http_status: nat
    var keep_alive: bool

    ghost predicate Valid()
      reads this, read_queue, request_content_queue
    {
      read_queue != request_content_queue && read_queue.Valid() && request_content_queue.Valid()
    }

    constructor (q: ChunkQueue, body: ChunkQueue)
      requires q != body && q.Valid() && body.Valid()
      ensures Valid() && read_queue == q && request_content_queue == body && state == READ && request == []
      ensures content_length == 0
    {
      read_queue, request_content_queue, state, request, content_length := q, body, READ, [], 0;
      http_status, keep_alive := 0, true;
    }

    /** Copy the header out of the chunks up to byte off of the unread part of chunk last. */
    method CopyHeader(last: nat, off: nat)
      requires Valid() && last < |read_queue.chunks| && off <= |Unread(read_queue.chunks[last])|
      modifies this`request, read_queue`chunks
      ensures read_queue.Valid() && read_queue.chunks == Advanced(old(read_queue.chunks), last, off)
      ensures request == old(Stream(read_queue.chunks[..last]) + Unread(read_queue.chunks[last])[..off])
    {
      ghost var cs := read_queue.chunks;
      request := [];
      var c := 0;
      assert AllUsed(cs[..0]) + cs[0..] == cs;
      while c < last
        invariant c <= last && read_queue.chunks == AllUsed(cs[..c]) + cs[c..] && request == Stream(cs[..c])
      {
        CopyStep(cs, c);
        request := request + Unread(read_queue.chunks[c]);
        read_queue.chunks := read_queue.chunks[c := UsedUp(read_queue.chunks[c])];
        c := c + 1;
      }
      CopyEnd(cs, last, off);
      request := request + Unread(read_queue.chunks[last])[..off];
      read_queue.chunks := read_queue.chunks[last := Used(read_queue.chunks[last], off)];
    }

    /** The state CON_STATE_READ: cut the header out of the queue once its end has come; give up on a
        queue that holds more than MAX_HEADER bytes without it. */
    method ReadHeader()
      requires Valid()
      modifies this, read_queue`chunks
      ensures Valid() && content_length == old(content_length)
      ensures (old(Filled(read_queue.chunks)) ==> Filled(read_queue.chunks))
      ensures old(Filled(read_queue.chunks)) ==> forall m: nat :: old(SmallChunks(read_queue.chunks, m)) ==>
        SmallChunks(read_queue.chunks, m)
      ensures HasEnd(old(Stream(read_queue.chunks))) ==>
        && (exists e: nat :: HeaderCut(old(Stream(read_queue.chunks)), e, request, Stream(read_queue.chunks)))
        && state == REQUEST_END && http_status == old(http_status) && keep_alive == old(keep_alive)
        && UsedUpTo(old(read_queue.chunks), read_queue.chunks)
      ensures !HasEnd(old(Stream(read_queue.chunks))) ==>
        && read_queue.chunks == old(read_queue.chunks) && request == old(request)
        && (if |Total(read_queue.chunks)| > MAX_HEADER then state == HANDLE_REQUEST && http_status == 414 && !keep_alive
            else state == old(state) && http_status == old(http_status) && keep_alive == old(keep_alive))
    {
      ghost var cs := read_queue.chunks;
      var found, last, off := FindHeader(read_queue.chunks);
      if found {
        ghost var e: nat :| HeaderCut(Stream(cs), e, Stream(cs[..last]) + Unread(cs[last])[..off],
          Stream(Advanced(cs, last, off)));
        if Filled(cs) { AdvancedFilled(cs, last, off); }
        CopyHeader(last, off);
        state := REQUEST_END;
        assert HeaderCut(Stream(cs), e, request, Stream(read_queue.chunks));
      } else {
        var len := read_queue.Length();
        if len > MAX_HEADER {
          http_status, keep_alive, state := 414, false, HANDLE_REQUEST;
        }
      }
    }

    /** Add a piece to the body. For a large body this takes a temporary file, which may fail to be
        created, and a write, which may fail as well. */
    method AddPiece(piece: Bytes, canOpen: bool, canWrite: bool) returns (ok: bool)
      requires request_content_queue.Valid()
      modifies request_content_queue`chunks
      ensures request_content_queue.Valid()
      ensures ok ==>
        request_content_queue.chunks ==
          WithPiece(old(request_content_queue.chunks), piece, content_length > MAX_IN_MEMORY)
      ensures !ok ==> forall m: nat :: old(FilesBounded(request_content_queue.chunks, m)) ==>
        FilesBounded(request_content_queue.chunks, m)
      ensures !ok ==>
        && content_length > MAX_IN_MEMORY && !(canOpen && canWrite)
        && Grows(old(request_content_queue.chunks), request_content_queue.chunks, [])
    {
      var q, cs := request_content_queue, request_content_queue.chunks;
      var n := |cs|;
      ok := true;
      if content_length > MAX_IN_MEMORY {
        if OpenFile(cs) && |cs[n - 1].bytes| < MAX_TEMPFILE {
          if !canWrite { return false; }
          q.chunks := cs[..n - 1] + [FileChunk(cs[n - 1].bytes + piece, true, 0)];
        } else {
          GrowsLast(cs, FileChunk([], canOpen, 0));
          if !canOpen || !canWrite {
            q.chunks := cs + [FileChunk([], canOpen, 0)];
            return false;
          }
          q.chunks := cs + [FileChunk(piece, true, 0)];
        }
      } else if n > 0 && cs[n - 1].MemChunk? {
        q.chunks := cs[..n - 1] + [MemChunk(cs[n - 1].bytes + piece, cs[n - 1].filled || piece != [],
          cs[n - 1].offset)];
      } else {
        q.chunks := cs + [MemChunk(piece, piece != [], 0)];
      }
    }

    /** Move one piece of chunk i to the body, as much as is there and still wanted. */
    method MovePiece(i: nat, canOpen: bool, canWrite: bool, ghost m: nat) returns (ok: bool, ghost piece: Bytes)
      requires Valid() && i < |read_queue.chunks| && Filled(read_queue.chunks) && Stream(read_queue.chunks[..i]) == []
      requires request_content_queue.bytes_in < content_length
      requires SmallChunks(read_queue.chunks, m) && FilesBounded(request_content_queue.chunks, m)
      modifies read_queue`chunks, request_content_queue
      ensures Valid() && |read_queue.chunks| == old(|read_queue.chunks|) && Filled(read_queue.chunks)
      ensures old(Stream(read_queue.chunks)) == piece + Stream(read_queue.chunks)
      ensures Grows(old(request_content_queue.chunks), request_content_queue.chunks, piece)
      ensures ok && old(Placed(request_content_queue.chunks, content_length > MAX_IN_MEMORY)) ==>
        Placed(request_content_queue.chunks, content_length > MAX_IN_MEMORY)
      ensures request_content_queue.bytes_in == old(request_content_queue.bytes_in) + |piece| <= content_length
      ensures ok ==> Stream(read_queue.chunks[..i + 1]) == [] || request_content_queue.bytes_in == content_length
      ensures SmallChunks(read_queue.chunks, m) && FilesBounded(request_content_queue.chunks, m)
      ensures !ok ==> piece == [] && content_length > MAX_IN_MEMORY && !(canOpen && canWrite)
    {
      var cs := read_queue.chunks;
      var weWant, weHave := content_length - request_content_queue.bytes_in, |cs[i].bytes| - cs[i].offset;
      var toRead := if weHave > weWant then weWant else weHave;
      piece := Unread(cs[i])[..toRead];
      ghost var body := request_content_queue.chunks;
      ok := AddPiece(Unread(cs[i])[..toRead], canOpen, canWrite);
      if !ok {
        piece := [];
        return;
      }
      PieceMoved(cs, i, toRead, body, content_length > MAX_IN_MEMORY, m);
      if Placed(body, content_length > MAX_IN_MEMORY) { WithPiecePlaced(body, piece, content_length > MAX_IN_MEMORY); }
      read_queue.chunks := cs[i := Used(cs[i], toRead)];
      request_content_queue.bytes_in := request_content_queue.bytes_in + toRead;
    }

    /** Move bytes from the read queue to the body until all that the header announced are there. files
        and writes say how many temporary files can still be created and how many writes succeed. */
    method MoveBody(files: nat, writes: nat, ghost m: nat) returns (ok: bool, ghost moved: Bytes)
      requires Valid() && Filled(read_queue.chunks)
      requires request_content_queue.bytes_in <= content_length && SmallChunks(read_queue.chunks, m)
      requires FilesBounded(request_content_queue.chunks, m)
      modifies read_queue`chunks, request_content_queue
      ensures Valid() && request_content_queue.bytes_in <= content_length
      ensures FilesBounded(request_content_queue.chunks, m)
      ensures ok && old(Placed(request_content_queue.chunks, content_length > MAX_IN_MEMORY)) ==>
        Placed(request_content_queue.chunks, content_length > MAX_IN_MEMORY)
      ensures Filled(read_queue.chunks) && SmallChunks(read_queue.chunks, m)
      ensures Moved(old(Stream(read_queue.chunks)), old(request_content_queue.chunks),
        old(request_content_queue.bytes_in),
        Stream(read_queue.chunks), request_content_queue.chunks, request_content_queue.bytes_in, moved)
      ensures ok ==> Stream(read_queue.chunks) == [] || request_content_queue.bytes_in == content_length
      ensures !ok ==> content_length > MAX_IN_MEMORY && request_content_queue.bytes_in < content_length
      ensures files >= old(|read_queue.chunks|) && writes >= old(|read_queue.chunks|) ==> ok
    {
      ghost var stream0, body0, n0 := Stream(read_queue.chunks), request_content_queue.chunks,
        request_content_queue.bytes_in;
      var size := |read_queue.chunks|;
      ok, moved := true, [];
      var i := 0;
      while i < size && request_content_queue.bytes_in != content_length
        invariant Valid() && i <= size == |read_queue.chunks| && request_content_queue.bytes_in <= content_length
        invariant SmallChunks(read_queue.chunks, m) && FilesBounded(request_content_queue.chunks, m)
        invariant Filled(read_queue.chunks)
        invariant Placed(body0, content_length > MAX_IN_MEMORY) ==>
          Placed(request_content_queue.chunks, content_length > MAX_IN_MEMORY)
        invariant Moved(stream0, body0, n0, Stream(read_queue.chunks), request_content_queue.chunks,
          request_content_queue.bytes_in, moved)
        invariant Stream(read_queue.chunks[..i]) == [] || request_content_queue.bytes_in == content_length
      {
        ghost var stream, body, n := Stream(read_queue.chunks), request_content_queue.chunks,
          request_content_queue.bytes_in;
        ghost var piece;
        ok, piece := MovePiece(i, i < files, i < writes, m);
        MovedMore(stream0, body0, n0, stream, body, n, moved, piece, Stream(read_queue.chunks),
          request_content_queue.chunks);
        moved := moved + piece;
        if !ok { return; }
        i := i + 1;
      }
      assert read_queue.chunks[..size] == read_queue.chunks;
    }

    /** The state CON_STATE_READ_POST. */
    method ReadBody(files: nat, writes: nat, ghost m: nat) returns (ok: bool, ghost moved: Bytes)
      requires Valid() && Filled(read_queue.chunks)
      requires request_content_queue.bytes_in <= content_length && SmallChunks(read_queue.chunks, m)
      requires FilesBounded(request_content_queue.chunks, m)
      modifies this`state, this`http_status, this`keep_alive, read_queue`chunks, request_content_queue
      ensures Valid() && request_content_queue.bytes_in <= content_length
      ensures FilesBounded(request_content_queue.chunks, m)
      ensures ok && old(Placed(request_content_queue.chunks, content_length > MAX_IN_MEMORY)) ==>
        Placed(request_content_queue.chunks, content_length > MAX_IN_MEMORY)
      ensures Filled(read_queue.chunks) && SmallChunks(read_queue.chunks, m)
      ensures Moved(old(Stream(read_queue.chunks)), old(request_content_queue.chunks),
        old(request_content_queue.bytes_in),
        Stream(read_queue.chunks), request_content_queue.chunks, request_content_queue.bytes_in, moved)
      ensures ok ==> Stream(read_queue.chunks) == [] || request_content_queue.bytes_in == content_length
      ensures ok ==> state == if request_content_queue.bytes_in == content_length then HANDLE_REQUEST else old(state)
      ensures ok ==> http_status == old(http_status) && keep_alive == old(keep_alive)
      ensures !ok ==> state == HANDLE_REQUEST && http_status == 413 && !keep_alive && content_length > MAX_IN_MEMORY
      ensures files >= old(|read_queue.chunks|) && writes >= old(|read_queue.chunks|) ==> ok
    {
      ok, moved := MoveBody(files, writes, m);
      ghost var cs, body := read_queue.chunks, request_content_queue.chunks;
      if !ok { http_status, keep_alive, state := 413, false, HANDLE_REQUEST; }
      if request_content_queue.bytes_in == content_length { state := HANDLE_REQUEST; }
      assert read_queue.chunks == cs && request_content_queue.chunks == body;
    }

    /** connection_handle_read_state, after new bytes have come in; closed says that no more will. */
    method HandleReadState(closed: bool, files: nat, writes: nat, ghost m: nat) returns (ok: bool, ghost moved: Bytes)
      requires Valid() && Readable(read_queue.chunks) && request_content_queue.bytes_in <= content_length
      requires SmallChunks(read_queue.chunks, m) && FilesBounded(request_content_queue.chunks, m)
      modifies this, read_queue`chunks, request_content_queue
      ensures Valid() && request_content_queue.bytes_in <= content_length == old(content_length)
      ensures FilesBounded(request_content_queue.chunks, m)
      ensures ok && old(Placed(request_content_queue.chunks, content_length > MAX_IN_MEMORY)) ==>
        Placed(request_content_queue.chunks, content_length > MAX_IN_MEMORY)
      ensures Filled(read_queue.chunks) && SmallChunks(read_queue.chunks, m)
      ensures Unfinished(read_queue.chunks)
      ensures old(state) == READ && HasEnd(old(Stream(read_queue.chunks))) ==>
        && state == REQUEST_END && http_status == old(http_status) && keep_alive == old(keep_alive)
        && exists e: nat :: HeaderCut(old(Stream(read_queue.chunks)), e, request, Stream(read_queue.chunks))
      ensures old(state) == READ && !HasEnd(old(Stream(read_queue.chunks))) ==>
        && Stream(read_queue.chunks) == old(Stream(read_queue.chunks)) && request == old(request)
        && (old(Filled(read_queue.chunks)) ==> read_queue.chunks == DropFinished(old(read_queue.chunks)))
        && (if old(|Total(read_queue.chunks)|) > MAX_HEADER then
              state == HANDLE_REQUEST && http_status == 414 && !keep_alive
            else
              && state == (if closed then ERROR else READ)
              && http_status == old(http_status) && keep_alive == old(keep_alive))
      ensures old(state) == READ ==>
        && request_content_queue.chunks == old(request_content_queue.chunks)
        && request_content_queue.bytes_in == old(request_content_queue.bytes_in)
      ensures old(state) == READ_POST ==>
        && request == old(request)
        && Moved(old(Stream(read_queue.chunks)), old(request_content_queue.chunks),
          old(request_content_queue.bytes_in),
          Stream(read_queue.chunks), request_content_queue.chunks, request_content_queue.bytes_in, moved)
        && (ok ==> Stream(read_queue.chunks) == [] || request_content_queue.bytes_in == content_length)
        && (ok ==>
              state == if request_content_queue.bytes_in == content_length then HANDLE_REQUEST
                       else if closed then ERROR else READ_POST)
        && (ok ==> http_status == old(http_status) && keep_alive == old(keep_alive))
        && (!ok ==> state == HANDLE_REQUEST && http_status == 413 && !keep_alive)
        && (files >= old(|read_queue.chunks|) && writes >= old(|read_queue.chunks|) ==> ok)
    {
      var ostate := state;
      ok, moved := true, [];
      RemoveEmpty(read_queue, m);
      if ostate == READ {
        ReadHeader();
      } else if ostate == READ_POST {
        ok, moved := ReadBody(files, writes, m);
      }
      if closed && ostate == state { state := ERROR; }
      StillFilled(read_queue.chunks);
      read_queue.RemoveFinished();
    }
  }

  function Joined(packets: seq<Bytes>): Bytes {
    if packets == [] then [] else Joined(packets[..|packets| - 1]) + packets[|packets| - 1]
  }

  /** More bytes after it do not move the end of the header. */
  lemma EndStays(s: Bytes, e: nat, more: Bytes)
    requires HeaderEnd(s, e)
    ensures HeaderEnd(s + more, e) && (s + more)[..e] == s[..e]
  {
    forall k | 0 <= k <= e
      ensures EndsAt(s + more, k) <==> EndsAt(s, k)
    {
      if k >= 4 { assert (s + more)[k - 4..k] == s[k - 4..k]; }
    }
  }

  /** A connection between two calls. */
  ghost predicate Between(con: Connection, m: nat)
    reads con, con.read_queue, con.request_content_queue
  {
    && con.Valid() && Filled(con.read_queue.chunks) && Unfinished(con.read_queue.chunks)
    && SmallChunks(con.read_queue.chunks, m) && FilesBounded(con.request_content_queue.chunks, m)
    && con.request_content_queue.bytes_in <= con.content_length
  }

  lemma PacketHeld(cs: seq<Chunk>, packet: Bytes)
    requires ChunksOk(cs) && Filled(cs) && Unfinished(cs)
    ensures |Total(cs + [MemChunk(packet, true, 0)])| == |Total(cs)| + |packet|
    ensures |Total(DropFinished(cs + [MemChunk(packet, true, 0)]))| == |Total(cs)| + |packet|
  {
    var last := MemChunk(packet, true, 0);
    TotalConcat(cs, [last]);
    TotalOne(last);
    if cs == [] { assert [last][1..] == [] && cs + [last] == [last]; } else { assert (cs + [last])[0] == cs[0]; }
  }

  /** A packet comes in while the header is being read. */
  method FeedPacket(con: Connection, packet: Bytes, ghost m: nat)
    requires Between(con, m) && con.state == READ && |packet| <= m
    modifies con, con.read_queue, con.request_content_queue
    ensures Between(con, m) && con.content_length == old(con.content_length)
    ensures con.request_content_queue.chunks == old(con.request_content_queue.chunks)
    ensures con.request_content_queue.bytes_in == old(con.request_content_queue.bytes_in)
    ensures HasEnd(old(Stream(con.read_queue.chunks)) + packet) ==>
      && con.state == REQUEST_END && con.http_status == old(con.http_status) && con.keep_alive == old(con.keep_alive)
      && exists e: nat ::
           HeaderCut(old(Stream(con.read_queue.chunks)) + packet, e, con.request, Stream(con.read_queue.chunks))
    ensures !HasEnd(old(Stream(con.read_queue.chunks)) + packet) ==>
      && Stream(con.read_queue.chunks) == old(Stream(con.read_queue.chunks)) + packet
      && |Total(con.read_queue.chunks)| == old(|Total(con.read_queue.chunks)|) + |packet|
      && (if old(|Total(con.read_queue.chunks)|) + |packet| > MAX_HEADER then
            con.state == HANDLE_REQUEST && con.http_status == 414 && !con.keep_alive
          else
            con.state == READ && con.http_status == old(con.http_status) && con.keep_alive == old(con.keep_alive))
  {
    PacketHeld(con.read_queue.chunks, packet);
    con.read_queue.AppendMem(packet, true);
    var ok, moved := con.HandleReadState(false, 0, 0, m);
  }

  lemma CutStays(s: Bytes, request: Bytes, rest: Bytes, more: Bytes)
    requires exists e: nat :: HeaderCut(s, e, request, rest)
    ensures exists e: nat :: HeaderCut(s + more, e, request, rest + more)
  {
    var e: nat :| HeaderCut(s, e, request, rest);
    EndStays(s, e, more);
    assert HeaderCut(s + more, e, request, rest + more);
  }

  /** After the first k packets there is no header yet, and the queue, which held so many bytes at the
      start, is not too long for one. */
  ghost predicate Waiting(start: Bytes, held: nat, packets: seq<Bytes>, k: nat)
    requires k <= |packets|
  {
    !HasEnd(start + Joined(packets[..k])) && held + |Joined(packets[..k])| <= MAX_HEADER
  }

  /** After them there is no header yet, and the queue is too long. */
  ghost predicate Refused(start: Bytes, held: nat, packets: seq<Bytes>, k: nat)
    requires k <= |packets|
  {
    !HasEnd(start + Joined(packets[..k])) && held + |Joined(packets[..k])| > MAX_HEADER
  }

  /** Feed packets to a connection until it has a header. Whatever the packets were, the request is
      what they and the bytes already there begin with, up to the first end of a header; it is taken
      with the first packet that completes it, unless the queue has become too long before. */
  method ReceiveHeader(con: Connection, packets: seq<Bytes>, ghost m: nat) returns (n: nat)
    requires Between(con, m) && con.state == READ && forall i | 0 <= i < |packets| :: |packets[i]| <= m
    modifies con, con.read_queue, con.request_content_queue
    ensures Between(con, m) && n <= |packets| && con.content_length == old(con.content_length)
    ensures con.request_content_queue.chunks == old(con.request_content_queue.chunks)
    ensures con.request_content_queue.bytes_in == old(con.request_content_queue.bytes_in)
    ensures forall k | 0 < k < n ::
              Waiting(old(Stream(con.read_queue.chunks)), old(|Total(con.read_queue.chunks)|), packets, k)
    ensures con.state == READ || con.state == REQUEST_END || con.state == HANDLE_REQUEST
    ensures con.state == READ ==>
      && n == |packets|
      && (n > 0 ==> Waiting(old(Stream(con.read_queue.chunks)), old(|Total(con.read_queue.chunks)|), packets, n))
    ensures con.state == HANDLE_REQUEST ==>
      && n > 0 && con.http_status == 414 && !con.keep_alive
      && Refused(old(Stream(con.read_queue.chunks)), old(|Total(con.read_queue.chunks)|), packets, n)
    ensures con.state == REQUEST_END ==>
      && n > 0
      && exists e: nat :: HeaderCut(old(Stream(con.read_queue.chunks)) + Joined(packets[..n]), e, con.request,
           Stream(con.read_queue.chunks))
  {
    ghost var start, held := Stream(con.read_queue.chunks), |Total(con.read_queue.chunks)|;
    n := 0;
    assert packets[..0] == [] && start + [] == start;
    while n < |packets| && con.state == READ
      invariant Between(con, m) && n <= |packets| && con.content_length == old(con.content_length)
      invariant con.request_content_queue.chunks == old(con.request_content_queue.chunks)
      invariant con.request_content_queue.bytes_in == old(con.request_content_queue.bytes_in)
      invariant Reading(start, held, packets, n, con.state, Stream(con.read_queue.chunks),
        |Total(con.read_queue.chunks)|, con.request)
      invariant con.state == HANDLE_REQUEST ==> con.http_status == 414 && !con.keep_alive
    {
      ghost var s, t, r := Stream(con.read_queue.chunks), |Total(con.read_queue.chunks)|, con.request;
      FeedPacket(con, packets[n], m);
      ReadingNext(start, held, packets, n, s, t, r, con.state, Stream(con.read_queue.chunks),
        |Total(con.read_queue.chunks)|, con.request);
      n := n + 1;
    }
    assert packets[..|packets|] == packets;
  }

  /** Where the reading of a header stands after n packets. */
  ghost predicate Reading(start: Bytes, held: nat, packets: seq<Bytes>, n: nat, state: State, stream: Bytes, total: nat,
                          request: Bytes)
    requires n <= |packets|
  {
    (forall k | 0 < k < n :: Waiting(start, held, packets, k)) &&
    match state
    case READ =>
      && stream == start + Joined(packets[..n]) && total == held + |Joined(packets[..n])|
      && (n > 0 ==> Waiting(start, held, packets, n))
    case REQUEST_END => n > 0 && exists e: nat :: HeaderCut(start + Joined(packets[..n]), e, request, stream)
    case HANDLE_REQUEST => n > 0 && Refused(start, held, packets, n)
    case _ => false
  }

  lemma ReadingNext(start: Bytes, held: nat, packets: seq<Bytes>, n: nat, s: Bytes, t: nat,
                    request0: Bytes, state: State, stream: Bytes, total: nat, request: Bytes)
    requires n < |packets| && Reading(start, held, packets, n, READ, s, t, request0)
    requires HasEnd(s + packets[n]) ==>
      state == REQUEST_END && exists e: nat :: HeaderCut(s + packets[n], e, request, stream)
    requires !HasEnd(s + packets[n]) ==>
      && stream == s + packets[n] && total == t + |packets[n]|
      && state == if t + |packets[n]| > MAX_HEADER then HANDLE_REQUEST else READ
    ensures Reading(start, held, packets, n + 1, state, stream, total, request)
  {
    JoinedNext(packets, n, start);
  }

  lemma JoinedNext(packets: seq<Bytes>, n: nat, start: Bytes)
    requires n < |packets|
    ensures start + Joined(packets[..n + 1]) == start + Joined(packets[..n]) + packets[n]
    ensures |Joined(packets[..n + 1])| == |Joined(packets[..n])| + |packets[n]|
  {
    assert packets[..n + 1][..n] == packets[..n];
  }

  /** Go on with the body, with what is in the queue. Temporary files and writes succeed. */
  method Resume(con: Connection, ghost m: nat) returns (ghost moved: Bytes)
    requires con.Valid() && Filled(con.read_queue.chunks) && con.state == READ_POST
    requires SmallChunks(con.read_queue.chunks, m) && FilesBounded(con.request_content_queue.chunks, m)
    requires con.request_content_queue.bytes_in <= con.content_length
    modifies con, con.read_queue, con.request_content_queue
    ensures Between(con, m) && con.content_length == old(con.content_length) && con.request == old(con.request)
    ensures Moved(old(Stream(con.read_queue.chunks)), old(con.request_content_queue.chunks),
      old(con.request_content_queue.bytes_in),
      Stream(con.read_queue.chunks), con.request_content_queue.chunks,
      con.request_content_queue.bytes_in, moved)
    ensures con.state == if con.request_content_queue.bytes_in == con.content_length then HANDLE_REQUEST else READ_POST
    ensures old(Placed(con.request_content_queue.chunks, con.content_length > MAX_IN_MEMORY)) ==>
      Placed(con.request_content_queue.chunks, con.content_length > MAX_IN_MEMORY)
    ensures con.state == READ_POST ==> Stream(con.read_queue.chunks) == []
  {
    var ok;
    ok, moved := con.HandleReadState(false, |con.read_queue.chunks|, |con.read_queue.chunks|, m);
  }

  /** A packet comes in while the body is being read. */
  method FeedBody(con: Connection, packet: Bytes, ghost m: nat) returns (ghost moved: Bytes)
    requires Between(con, m) && con.state == READ_POST && |packet| <= m
    modifies con, con.read_queue, con.request_content_queue
    ensures Between(con, m) && con.content_length == old(con.content_length) && con.request == old(con.request)
    ensures Moved(old(Stream(con.read_queue.chunks)) + packet, old(con.request_content_queue.chunks),
      old(con.request_content_queue.bytes_in),
      Stream(con.read_queue.chunks), con.request_content_queue.chunks,
      con.request_content_queue.bytes_in, moved)
    ensures con.state == if con.request_content_queue.bytes_in == con.content_length then HANDLE_REQUEST else READ_POST
    ensures old(Placed(con.request_content_queue.chunks, con.content_length > MAX_IN_MEMORY)) ==>
      Placed(con.request_content_queue.chunks, con.content_length > MAX_IN_MEMORY)
    ensures con.state == READ_POST ==> Stream(con.read_queue.chunks) == []
  {
    con.read_queue.AppendMem(packet, true);
    moved := Resume(con, m);
  }

  /** Go on with the bytes that have come in with the header, and then feed packets to a connection until
      it has the body of the request; temporary files and writes succeed. Whatever the packets were, the
      bytes that came in are the body followed by what is left in the queue, and the body is complete as
      soon as its announced length has come in. */
  method ReceiveBody(con: Connection, packets: seq<Bytes>, ghost m: nat) returns (n: nat)
    requires Between(con, m) && con.state == READ_POST
    requires con.request_content_queue.chunks == [] && con.request_content_queue.bytes_in == 0
    requires forall i | 0 <= i < |packets| :: |packets[i]| <= m
    modifies con, con.read_queue, con.request_content_queue
    ensures Between(con, m) && n <= |packets|
    ensures con.content_length == old(con.content_length) && con.request == old(con.request)
    ensures old(Stream(con.read_queue.chunks)) + Joined(packets[..n]) ==
      Stream(con.request_content_queue.chunks) + Stream(con.read_queue.chunks)
    ensures Total(con.request_content_queue.chunks) == Stream(con.request_content_queue.chunks)
    ensures con.request_content_queue.bytes_in == |Stream(con.request_content_queue.chunks)| <= con.content_length
    ensures Placed(con.request_content_queue.chunks, con.content_length > MAX_IN_MEMORY)
    ensures if old(|Stream(con.read_queue.chunks)|) + |Joined(packets)| < con.content_length then
              con.state == READ_POST && n == |packets| && Stream(con.read_queue.chunks) == []
            else
              con.state == HANDLE_REQUEST && |Stream(con.request_content_queue.chunks)| == con.content_length
  {
    ghost var start := Stream(con.read_queue.chunks);
    n := 0;
    ghost var first := Resume(con, m);
    ArrivingFirst(start, packets, first, con.request_content_queue.chunks, Stream(con.read_queue.chunks),
      con.request_content_queue.bytes_in, con.content_length, con.state);
    while n < |packets| && con.state == READ_POST
      invariant Between(con, m) && n <= |packets|
      invariant con.content_length == old(con.content_length) && con.request == old(con.request)
      invariant Arriving(start + Joined(packets[..n]), con.request_content_queue.chunks, Stream(con.read_queue.chunks),
        con.request_content_queue.bytes_in, con.content_length, con.state)
    {
      ghost var body, rest, count := con.request_content_queue.chunks, Stream(con.read_queue.chunks),
        con.request_content_queue.bytes_in;
      ghost var moved := FeedBody(con, packets[n], m);
      ArrivingNext(start, packets, n, body, rest, count, moved, con.request_content_queue.chunks,
        Stream(con.read_queue.chunks), con.request_content_queue.bytes_in, con.content_length, con.state);
      n := n + 1;
    }
    ArrivedAll(start, packets, n, con.request_content_queue.chunks, Stream(con.read_queue.chunks),
      con.request_content_queue.bytes_in, con.content_length, con.state);
  }

  /** All that came in is the body, nothing of which has been read, and the rest. */
  ghost predicate Received(all: Bytes, body: seq<Chunk>, rest: Bytes, count: nat) {
    ChunksOk(body) && all == Stream(body) + rest && Total(body) == Stream(body) && count == |Stream(body)|
  }

  /** The same while the body is being read. */
  ghost predicate Arriving(all: Bytes, body: seq<Chunk>, rest: Bytes, count: nat, length: nat, state: State) {
    && Received(all, body, rest, count) && Placed(body, length > MAX_IN_MEMORY)
    && state == (if count == length then HANDLE_REQUEST else READ_POST)
    && (state == READ_POST ==> rest == [])
  }

  lemma ArrivingFirst(start: Bytes, packets: seq<Bytes>, moved: Bytes, body: seq<Chunk>, rest: Bytes, count: nat,
                      length: nat, state: State)
    requires Moved(start, [], 0, rest, body, count, moved) && Placed(body, length > MAX_IN_MEMORY)
    requires state == (if count == length then HANDLE_REQUEST else READ_POST) && (state == READ_POST ==> rest == [])
    ensures Arriving(start + Joined(packets[..0]), body, rest, count, length, state)
  {
    assert packets[..0] == [] && start + [] == start && [] + moved == moved;
  }

  lemma ArrivedAll(start: Bytes, packets: seq<Bytes>, n: nat, body: seq<Chunk>, rest: Bytes, count: nat, length: nat,
                   state: State)
    requires n <= |packets| && Arriving(start + Joined(packets[..n]), body, rest, count, length, state)
    requires count <= length && (n == |packets| || state != READ_POST)
    ensures if |start| + |Joined(packets)| < length then state == READ_POST && n == |packets| && rest == []
      else state == HANDLE_REQUEST && count == length
  {
    JoinedLength(packets, n);
  }

  lemma ArrivingNext(start: Bytes, packets: seq<Bytes>, n: nat, body: seq<Chunk>, rest: Bytes, count: nat,
                     moved: Bytes, body': seq<Chunk>, rest': Bytes, count': nat, length: nat, state: State)
    requires n < |packets| && Arriving(start + Joined(packets[..n]), body, rest, count, length, READ_POST)
    requires Moved(rest + packets[n], body, count, rest', body', count', moved)
    requires Placed(body, length > MAX_IN_MEMORY) ==> Placed(body', length > MAX_IN_MEMORY)
    requires state == (if count' == length then HANDLE_REQUEST else READ_POST) && (state == READ_POST ==> rest' == [])
    ensures Arriving(start + Joined(packets[..n + 1]), body', rest', count', length, state)
  {
    JoinedNext(packets, n, start);
    Regroup(Stream(body), rest, packets[n]);
    Regroup(Stream(body), moved, rest');
  }

  lemma {:induction false} JoinedLength(packets: seq<Bytes>, n: nat)
    requires n <= |packets|
    ensures |Joined(packets[..n])| <= |Joined(packets)|
    ensures n == |packets| ==> packets[..n] == packets
  {
    if n < |packets| {
      var init := packets[..|packets| - 1];
      JoinedLength(init, n);
      assert init[..n] == packets[..n];
    } else {
      assert packets[..n] == packets;
    }
  }

  lemma {:induction false} JoinedConcat(a: seq<Bytes>, b: seq<Bytes>)
    ensures Joined(a + b) == Joined(a) + Joined(b)
  {
    if b == [] {
      assert a + b == a;
    } else {
      var init := b[..|b| - 1];
      JoinedConcat(a, init);
      assert (a + b)[..|a + b| - 1] == a + init;
    }
  }

  lemma CutTwice<T>(s: seq<T>, k: nat, j: nat)
    requires k <= |s| && j <= |s| - k
    ensures s[..k] + s[k..][..j] == s[..k + j] && s[..k] + s[k..] == s
  {}

  lemma JoinedFrom(packets: seq<Bytes>, k: nat, j: nat)
    requires k <= |packets| && j <= |packets| - k
    ensures Joined(packets[..k]) + Joined(packets[k..][..j]) == Joined(packets[..k + j])
    ensures Joined(packets[..k]) + Joined(packets[k..]) == Joined(packets)
  {
    JoinedConcat(packets[..k], packets[k..][..j]);
    JoinedConcat(packets[..k], packets[k..]);
    CutTwice(packets, k, j);
  }

  /** What a whole request leaves behind: the bytes that came in are the header, the body and what is
      left in the queue. */
  ghost predicate Complete(all: Bytes, request: Bytes, body: Bytes, rest: Bytes) {
    all == request + body + rest && HeaderEnd(all, |request|)
  }

  lemma Completed(s: Bytes, request: Bytes, came: Bytes, more: Bytes, body: Bytes, rest: Bytes)
    requires (exists e: nat :: HeaderCut(s, e, request, came)) && came + more == body + rest
    ensures Complete(s + more, request, body, rest) && |s| == |request| + |came|
  {
    var e: nat :| HeaderCut(s, e, request, came);
    EndStays(s, e, more);
    assert s == s[..e] + s[e..];
    assert s + more == request + (came + more);
    assert request + (body + rest) == request + body + rest;
  }

  /** A whole request: packets are fed until the header is there, its parse says how long the body is,
      and more packets are fed until that is there. taken says whether a header was. */
  method ReceiveRequest(con: Connection, packets: seq<Bytes>, lengthOf: Bytes -> nat, ghost m: nat)
    returns (taken: bool, n: nat)
    requires Between(con, m) && con.state == READ && forall i | 0 <= i < |packets| :: |packets[i]| <= m
    requires con.request_content_queue.chunks == [] && con.request_content_queue.bytes_in == 0
    modifies con, con.read_queue, con.request_content_queue
    ensures Between(con, m) && n <= |packets|
    ensures taken ==>
      && con.content_length == lengthOf(con.request)
      && Complete(old(Stream(con.read_queue.chunks)) + Joined(packets[..n]), con.request,
           Stream(con.request_content_queue.chunks), Stream(con.read_queue.chunks))
      && Placed(con.request_content_queue.chunks, con.content_length > MAX_IN_MEMORY)
      && (if old(|Stream(con.read_queue.chunks)|) + |Joined(packets)| < |con.request| + con.content_length then
            con.state == READ_POST && n == |packets| && Stream(con.read_queue.chunks) == []
          else
            con.state == HANDLE_REQUEST && |Stream(con.request_content_queue.chunks)| == con.content_length)
    ensures !taken ==>
      if con.state == HANDLE_REQUEST then
        && n > 0 && con.http_status == 414
        && Refused(old(Stream(con.read_queue.chunks)), old(|Total(con.read_queue.chunks)|), packets, n)
      else
        && con.state == READ && n == |packets|
        && (n > 0 ==> Waiting(old(Stream(con.read_queue.chunks)), old(|Total(con.read_queue.chunks)|), packets, n))
  {
    ghost var start := Stream(con.read_queue.chunks);
    n := ReceiveHeader(con, packets, m);
    taken := con.state == REQUEST_END;
    if taken {
      ghost var came, k := Stream(con.read_queue.chunks), n;
      con.content_length, con.state := lengthOf(con.request), READ_POST;
      var j := ReceiveBody(con, packets[n..], m);
      n := n + j;
      WholeRequest(start, packets, k, j, con.request, came, Stream(con.request_content_queue.chunks),
        Stream(con.read_queue.chunks));
    }
  }

  lemma WholeRequest(start: Bytes, packets: seq<Bytes>, k: nat, j: nat, request: Bytes, came: Bytes, body: Bytes,
                     rest: Bytes)
    requires k <= |packets| && j <= |packets| - k
    requires exists e: nat :: HeaderCut(start + Joined(packets[..k]), e, request, came)
    requires came + Joined(packets[k..][..j]) == body + rest
    ensures Complete(start + Joined(packets[..k + j]), request, body, rest)
    ensures |start| + |Joined(packets)| == |request| + |came| + |Joined(packets[k..])|
  {
    var s, more := start + Joined(packets[..k]), Joined(packets[k..][..j]);
    JoinedFrom(packets, k, j);
    Completed(s, request, came, more, body, rest);
    assert s + more == start + (Joined(packets[..k]) + more);
  }

  /** A header of one byte so far is refused when the requests before it, which came in the same packet,
      are long enough: all of the packet counts. */
  method PipelinedRefused(con: Connection, first: Bytes, rest: Bytes)
    requires con.Valid() && con.state == READ && con.read_queue.chunks == [MemChunk(first + rest, true, 0)]
    requires HeaderEnd(first, |first|) && !HasEnd(rest) && |first| + |rest| > MAX_HEADER
    modifies con, con.read_queue
    ensures con.Valid() && con.request == first && Stream(con.read_queue.chunks) == rest
    ensures con.state == HANDLE_REQUEST && con.http_status == 414
  {
    ghost var cs := con.read_queue.chunks;
    StreamOne(cs[0]);
    TotalOne(cs[0]);
    EndStays(first, |first|, rest);
    assert EndsAt(first + rest, |first|);
    con.ReadHeader();
    FirstOnly(first, rest, con.request, Stream(con.read_queue.chunks));
    assert con.read_queue.chunks == [con.read_queue.chunks[0]];
    TotalOne(con.read_queue.chunks[0]);
    con.state := READ;
    con.ReadHeader();
  }

  lemma FirstOnly(first: Bytes, rest: Bytes, request: Bytes, left: Bytes)
    requires HeaderEnd(first, |first|) && exists e: nat :: HeaderCut(first + rest, e, request, left)
    ensures request == first && left == rest
  {
    var e: nat :| HeaderCut(first + rest, e, request, left);
    EndStays(first, |first|, rest);
    assert EndsAt(first + rest, |first|) && EndsAt(first + rest, e);
    assert e == |first|;
  }
}
