/** The chunked transfer coding (src/http_chunk.c), read back by section 3.6.1 of RFC 2616. */
module HttpChunked {
  import opened ChunkQueues

  const CRLF: Bytes := [13, 10]
  const LAST: Bytes := ['0' as int, 13, 10, 13, 10]

  function HexDigit(d: int): int
    requires 0 <= d < 16
  {
    d + if d <= 9 then '0' as int else 'a' as int - 10
  }

  /** The value of a hexadecimal digit, or -1. */
  function HexValue(c: int): (v: int)
    ensures -1 <= v < 16
  {
    if '0' as int <= c <= '9' as int then c - '0' as int
    else if 'a' as int <= c <= 'f' as int then c - 'a' as int + 10
    else if 'A' as int <= c <= 'F' as int then c - 'A' as int + 10
    else -1
  }

  /** The last n hexadecimal digits of len. */
  function Hex(len: nat, n: nat): (r: Bytes)
    ensures |r| == n
  {
    if n == 0 then [] else Hex(len / 16, n - 1) + [HexDigit(len % 16)]
  }

  function Pow16(n: nat): (r: nat)
    ensures r >= 1
  {
    if n == 0 then 1 else 16 * Pow16(n - 1)
  }

  /** The digits printed for len: no leading zeros, but at most eight digits. */
  function DigitCount(len: nat, max: nat): (n: nat)
    ensures n <= max
    decreases max
  {
    if len == 0 || max == 0 then 0 else 1 + DigitCount(len / 16, max - 1)
  }

  /** The size line of a chunk. */
  function SizeLine(len: nat): Bytes {
    (if len == 0 then ['0' as int] else Hex(len, DigitCount(len, 8))) + CRLF
  }

  /** http_chunk_append_len: count the digits, then fill them in from the right. */
  method AppendLen(q: ChunkQueue, len: nat)
    requires q.Valid()
    modifies q`chunks
    ensures q.Valid() && Stream(q.chunks) == old(Stream(q.chunks)) + SizeLine(len)
  {
    var b := ['0' as int];
    if len != 0 { b := HexDigits(len); }
    q.AppendMem(b + CRLF, true);
  }

  lemma HexStep(len: nat, j: nat, done: Bytes)
    ensures Hex(len, j + 1) + done == Hex(len / 16, j) + ([HexDigit(len % 16)] + done)
  {}

  method HexDigits(len0: nat) returns (b: Bytes)
    ensures b == Hex(len0, DigitCount(len0, 8))
  {
    var len, i := len0, 0;
    while i < 8 && len != 0
      invariant i <= 8 && i + DigitCount(len, 8 - i) == DigitCount(len0, 8)
    {
      len := len / 16;
      i := i + 1;
    }
    var digits := new int[i];
    var j: int := i - 1;
    len := len0;
    while j + 1 > 0
      invariant -1 <= j < i
      invariant Hex(len0, i) == Hex(len, j + 1) + digits[j + 1..]
    {
      ghost var done := digits[j + 1..];
      digits[j] := HexDigit(len % 16);
      assert digits[j..] == [HexDigit(len % 16)] + done;
      HexStep(len, j, done);
      len := len / 16;
      j := j - 1;
    }
    b := digits[..];
    assert b == digits[0..];
  }

  /** One chunk of the coding. */
  function Frame(bytes: Bytes): Bytes {
    SizeLine(|bytes|) + bytes + CRLF
  }

  lemma FrameSent(sent: Bytes, bytes: Bytes)
    ensures sent + SizeLine(|bytes|) + bytes + CRLF == sent + Frame(bytes)
  {}

  /** http_chunk_append_mem, for bytes with a terminating zero, or for length 0 as the end mark. */
  method AppendMem(q: ChunkQueue, chunked: bool, bytes: Bytes, end: bool)
    requires q.Valid() && (end ==> bytes == [])
    modifies q`chunks
    ensures q.Valid()
    ensures Stream(q.chunks) ==
      old(Stream(q.chunks)) + if end then (if chunked then LAST else []) else if chunked then Frame(bytes) else bytes
  {
    if end {
      q.AppendMem(if chunked then LAST else [], true);
      return;
    }
    ghost var sent := Stream(q.chunks);
    if chunked { AppendLen(q, |bytes|); }
    q.AppendMem(bytes, true);
    if chunked {
      q.AppendMem(CRLF, true);
      FrameSent(sent, bytes);
    }
  }

  const SIZE_MAX := 0xFFFF_FFFF_FFFF_FFFF

  /** http_chunk_append_buffer. For a buffer that was never written to, its used count less one wraps
      around, and a size line for that length is all that is sent. */
  method AppendBuffer(q: ChunkQueue, chunked: bool, mem: Bytes, filled: bool)
    requires q.Valid() && (!filled ==> mem == [])
    modifies q`chunks
    ensures q.Valid()
    ensures Stream(q.chunks) == old(Stream(q.chunks)) + if !chunked then mem else if filled then Frame(mem)
      else SizeLine(SIZE_MAX)
  {
    ghost var sent := Stream(q.chunks);
    if chunked { AppendLen(q, if filled then |mem| else SIZE_MAX); }
    q.AppendMem(mem, filled);
    if chunked && filled {
      q.AppendMem(CRLF, true);
      FrameSent(sent, mem);
    }
  }

  /** http_chunk_append_file. An empty part ends the body early: only its size line is sent. */
  method AppendFile(q: ChunkQueue, chunked: bool, part: Bytes)
    requires q.Valid()
    modifies q`chunks
    ensures q.Valid()
    ensures Stream(q.chunks) == old(Stream(q.chunks)) + if !chunked then part else if part == [] then SizeLine(0)
      else Frame(part)
  {
    ghost var sent := Stream(q.chunks);
    if chunked { AppendLen(q, |part|); }
    q.AppendFile(part);
    if chunked && |part| > 0 {
      q.AppendMem(CRLF, true);
      FrameSent(sent, part);
    }
  }

  /** The hexadecimal digits at the front. */
  function LeadingHex(s: Bytes): (n: nat)
    ensures n <= |s| && forall i | 0 <= i < n :: HexValue(s[i]) >= 0
    ensures n < |s| ==> HexValue(s[n]) < 0
  {
    if s == [] || HexValue(s[0]) < 0 then 0 else 1 + LeadingHex(s[1..])
  }

  function ParseHex(s: Bytes): nat
    requires forall i | 0 <= i < |s| :: HexValue(s[i]) >= 0
  {
    if s == [] then 0 else 16 * ParseHex(s[..|s| - 1]) + HexValue(s[|s| - 1])
  }

  datatype Parsed<T> = Malformed | Parsed(value: T, rest: Bytes)

  /** A size line: digits, then a line end. */
  function ParseSize(s: Bytes): Parsed<nat> {
    var n := LeadingHex(s);
    if n > 0 && n + 2 <= |s| && s[n..n + 2] == CRLF then Parsed(ParseHex(s[..n]), s[n + 2..]) else Malformed
  }

  /** A chunked body: chunks up to one of size 0, and no trailer. */
  function Decode(s: Bytes): Parsed<Bytes>
    decreases |s|
  {
    match ParseSize(s)
    case Malformed => Malformed
    case Parsed(n, rest) =>
      if n + 2 > |rest| || rest[n..n + 2] != CRLF then Malformed
      else if n == 0 then Parsed([], rest[2..])
      else
        match Decode(rest[n + 2..])
        case Malformed => Malformed
        case Parsed(body, after) => Parsed(rest[..n] + body, after)
  }

  lemma {:induction false} HexDigitsHex(len: nat, n: nat)
    ensures forall i | 0 <= i < n :: HexValue(Hex(len, n)[i]) >= 0
    ensures len < Pow16(n) ==> ParseHex(Hex(len, n)) == len
    ensures ParseHex(Hex(len, n)) < Pow16(n)
  {
    if n > 0 {
      HexDigitsHex(len / 16, n - 1);
      var h := Hex(len, n);
      assert h[..|h| - 1] == Hex(len / 16, n - 1);
      assert HexValue(HexDigit(len % 16)) == len % 16;
    }
  }

  lemma {:induction false} DigitsSuffice(len: nat, max: nat)
    ensures len < Pow16(max) ==> len < Pow16(DigitCount(len, max))
    ensures len > 0 && max > 0 ==> DigitCount(len, max) > 0
    ensures len >= Pow16(max) ==> DigitCount(len, max) == max
    decreases max
  {
    if len > 0 && max > 0 { DigitsSuffice(len / 16, max - 1); }
  }

  /** len without its last n hexadecimal digits. */
  function High(len: nat, n: nat): nat {
    if n == 0 then len else High(len / 16, n - 1)
  }

  lemma {:induction false} HexLowDigits(len: nat, n: nat)
    ensures forall i | 0 <= i < n :: HexValue(Hex(len, n)[i]) >= 0
    ensures len == Pow16(n) * High(len, n) + ParseHex(Hex(len, n))
  {
    if n > 0 {
      HexLowDigits(len / 16, n - 1);
      HexDigitsHex(len, n);
      assert Hex(len, n)[..n - 1] == Hex(len / 16, n - 1);
      assert HexValue(HexDigit(len % 16)) == len % 16;
      OneDigit(len, Pow16(n - 1), High(len, n), ParseHex(Hex(len / 16, n - 1)));
    }
  }

  lemma OneDigit(len: nat, p: nat, up: nat, low: nat)
    requires len / 16 == p * up + low
    ensures len == 16 * p * up + (16 * low + len % 16)
  {
    assert 16 * (p * up) == 16 * p * up;
  }

  lemma LeadingHexOf(h: Bytes, tail: Bytes)
    requires (forall i | 0 <= i < |h| :: HexValue(h[i]) >= 0) && (tail == [] || HexValue(tail[0]) < 0)
    ensures LeadingHex(h + tail) == |h|
  {
    assert forall i | 0 <= i < |h| :: (h + tail)[i] == h[i];
    assert tail != [] ==> (h + tail)[|h|] == tail[0];
  }

  lemma Behind(piece: Bytes, s: Bytes)
    ensures var rest := piece + (CRLF + s);
      rest[|piece|..|piece| + 2] == CRLF && rest[..|piece|] == piece && rest[|piece| + 2..] == s
  {}

  lemma ParseSizeOf(h: Bytes, tail: Bytes)
    requires h != [] && forall i | 0 <= i < |h| :: HexValue(h[i]) >= 0
    ensures ParseSize(h + (CRLF + tail)) == Parsed(ParseHex(h), tail)
  {
    LeadingHexOf(h, CRLF + tail);
    Behind(h, tail);
  }

  lemma LineThen(h: Bytes, tail: Bytes)
    ensures h + CRLF + tail == h + (CRLF + tail)
  {}

  /** A size line reads back as the length, exactly for lengths below 2^32. */
  lemma SizeLineReads(len: nat, tail: Bytes)
    ensures ParseSize(SizeLine(len) + tail).Parsed? && ParseSize(SizeLine(len) + tail).rest == tail
    ensures ParseSize(SizeLine(len) + tail).value == len <==> len < Pow16(8)
  {
    var n := DigitCount(len, 8);
    var h := if len == 0 then ['0' as int] else Hex(len, n);
    DigitsSuffice(len, 8);
    HexDigitsHex(len, n);
    if len == 0 { assert h[..0] == []; }
    ParseSizeOf(h, tail);
    LineThen(h, tail);
  }

  /** Which function sends a piece of the body; an unfilled buffer is one never written to. */
  datatype Source = FromMemory | FromBuffer | FromUnfilled | FromFile

  datatype Piece = Piece(source: Source, bytes: Bytes)

  /** A piece as it is sent. */
  function Wire(p: Piece): Bytes {
    if p.source.FromUnfilled? then SizeLine(SIZE_MAX)
    else if p.source.FromFile? && p.bytes == [] then SizeLine(0)
    else Frame(p.bytes)
  }

  function Wires(pieces: seq<Piece>): Bytes {
    if pieces == [] then [] else Wire(pieces[0]) + Wires(pieces[1..])
  }

  /** The body itself. */
  function Joined(pieces: seq<Piece>): Bytes {
    if pieces == [] then [] else pieces[0].bytes + Joined(pieces[1..])
  }

  lemma FrameThen(piece: Bytes, s: Bytes)
    ensures Frame(piece) + s == SizeLine(|piece|) + (piece + (CRLF + s))
  {}

  /** What comes after the size line of a chunk. */
  function Continued(n: nat, rest: Bytes, next: Parsed<Bytes>): Parsed<Bytes>
    requires n + 2 <= |rest|
  {
    match next
    case Malformed => Malformed
    case Parsed(body, after) => Parsed(rest[..n] + body, after)
  }

  lemma {:induction false} DecodeSized(w: Bytes, n: nat, rest: Bytes)
    requires ParseSize(w) == Parsed(n, rest) && n > 0
    ensures n + 2 > |rest| || rest[n..n + 2] != CRLF ==> Decode(w).Malformed?
    ensures n + 2 <= |rest| && rest[n..n + 2] == CRLF ==> Decode(w) == Continued(n, rest, Decode(rest[n + 2..]))
  {}

  lemma {:induction false} DecodeEnd(w: Bytes, rest: Bytes)
    requires ParseSize(w) == Parsed(0, CRLF + rest)
    ensures Decode(w) == Parsed([], rest)
  {
    assert (CRLF + rest)[0..2] == CRLF && (CRLF + rest)[2..] == rest;
  }

  /** A chunk in front of a body. */
  lemma {:induction false} FrameReads(piece: Bytes, s: Bytes)
    requires |piece| < Pow16(8)
    ensures Decode(Frame(piece) + s) ==
      if piece == [] then Parsed([], s)
      else match Decode(s) case Malformed => Malformed case Parsed(body, after) => Parsed(piece + body, after)
  {
    var rest := piece + (CRLF + s);
    FrameThen(piece, s);
    SizeLineReads(|piece|, rest);
    Behind(piece, s);
    if piece == [] {
      assert rest == CRLF + s;
      DecodeEnd(SizeLine(0) + rest, s);
    } else {
      DecodeSized(SizeLine(|piece|) + rest, |piece|, rest);
    }
  }

  lemma LastReads(s: Bytes)
    ensures Decode(LAST + s) == Parsed([], s)
  {
    assert LAST + s == Frame([]) + s;
    FrameReads([], s);
  }

  /** The whole body as it is sent, with what follows it. */
  function Sent(pieces: seq<Piece>, tail: Bytes): Bytes {
    Wires(pieces) + LAST + tail
  }

  lemma SentStep(pieces: seq<Piece>, tail: Bytes)
    requires pieces != []
    ensures Sent(pieces, tail) == Wire(pieces[0]) + Sent(pieces[1..], tail)
    ensures |Sent(pieces[1..], tail)| > |tail|
  {}

  /** Pieces of less than 2^32 bytes; an unfilled buffer has none. */
  ghost predicate Short(pieces: seq<Piece>) {
    forall i | 0 <= i < |pieces| ::
      |pieces[i].bytes| < Pow16(8) && (pieces[i].source.FromUnfilled? ==> pieces[i].bytes == [])
  }

  ghost predicate NoneEmpty(pieces: seq<Piece>) {
    forall i | 0 <= i < |pieces| :: pieces[i].bytes != []
  }

  lemma {:induction false} ReadsBack(pieces: seq<Piece>, tail: Bytes)
    requires Short(pieces) && NoneEmpty(pieces)
    ensures Decode(Sent(pieces, tail)) == Parsed(Joined(pieces), tail)
  {
    if pieces == [] {
      LastReads(tail);
      assert Sent(pieces, tail) == LAST + tail;
    } else {
      SentStep(pieces, tail);
      ReadsBack(pieces[1..], tail);
      FrameReads(pieces[0].bytes, Sent(pieces[1..], tail));
    }
  }

  /** What is sent begins with a digit. */
  lemma SentDigit(pieces: seq<Piece>, tail: Bytes)
    ensures Sent(pieces, tail) != [] && HexValue(Sent(pieces, tail)[0]) >= 0
  {
    if pieces != [] {
      SentStep(pieces, tail);
      var len := if pieces[0].source.FromUnfilled? then SIZE_MAX else |pieces[0].bytes|;
      SizeLineReads(len, []);
      var line := SizeLine(len);
      assert line + [] == line;
      assert HexValue(line[0]) >= 0;
      assert Wire(pieces[0])[0] == line[0];
    }
  }

  /** The size line of an empty part of a file is not followed by a line end. */
  lemma EmptyPart(pieces: seq<Piece>, tail: Bytes)
    ensures Decode(SizeLine(0) + Sent(pieces, tail)).Malformed?
  {
    SizeLineReads(0, Sent(pieces, tail));
    SentDigit(pieces, tail);
  }

  /** The size an unfilled buffer announces. */
  const UNFILLED: nat := 0xFFFF_FFFF

  lemma {:induction false} UnfilledSize(s: Bytes)
    ensures ParseSize(SizeLine(SIZE_MAX) + s) == Parsed(UNFILLED, s)
  {
    var h := Hex(SIZE_MAX, 8);
    DigitsSuffice(SIZE_MAX, 8);
    HexLowDigits(SIZE_MAX, 8);
    HexDigitsHex(SIZE_MAX, 8);
    EightDigits();
    ParseSizeOf(h, s);
    LineThen(h, s);
  }

  lemma EightDigits()
    ensures Pow16(8) == 0x1_0000_0000
  {
    assert Pow16(2) == 0x100;
    assert Pow16(4) == 0x1_0000;
    assert Pow16(6) == 0x100_0000;
  }

  /** It takes the next 2^32 - 1 bytes for its data, whatever they are. */
  lemma {:induction false} UnfilledReads(s: Bytes)
    ensures Decode(SizeLine(SIZE_MAX) + s) ==
      if UNFILLED + 2 > |s| || s[UNFILLED..UNFILLED + 2] != CRLF then Malformed
      else Continued(UNFILLED, s, Decode(s[UNFILLED + 2..]))
  {
    UnfilledSize(s);
    DecodeSized(SizeLine(SIZE_MAX) + s, UNFILLED, s);
  }

  /** The first empty piece is an unfilled buffer, and enough follows to be taken for its data. */
  ghost predicate Swallows(pieces: seq<Piece>, tail: Bytes) {
    pieces != [] &&
    if pieces[0].bytes != [] then Swallows(pieces[1..], tail)
    else pieces[0].source.FromUnfilled? && |Sent(pieces[1..], tail)| >= UNFILLED + 2
  }

  /** An empty piece ends the body, and what comes after it is left over or spoils it. */
  lemma {:induction false} EndsEarly(pieces: seq<Piece>, tail: Bytes)
    requires Short(pieces) && !NoneEmpty(pieces) && !Swallows(pieces, tail)
    ensures Decode(Sent(pieces, tail)).Malformed? || |Decode(Sent(pieces, tail)).rest| > |tail|
  {
    SentStep(pieces, tail);
    if pieces[0].bytes != [] {
      FrameReads(pieces[0].bytes, Sent(pieces[1..], tail));
      assert !NoneEmpty(pieces[1..]) by {
        var i :| 0 <= i < |pieces| && pieces[i].bytes == [];
        assert pieces[1..][i - 1].bytes == [];
      }
      EndsEarly(pieces[1..], tail);
    } else if pieces[0].source.FromUnfilled? {
      UnfilledReads(Sent(pieces[1..], tail));
    } else if pieces[0].source.FromFile? {
      EmptyPart(pieces[1..], tail);
    } else {
      FrameReads([], Sent(pieces[1..], tail));
    }
  }

  lemma {:induction false} SwallowsEmpty(pieces: seq<Piece>, tail: Bytes)
    ensures Swallows(pieces, tail) ==> !NoneEmpty(pieces)
  {
    if pieces != [] && pieces[0].bytes != [] {
      SwallowsEmpty(pieces[1..], tail);
      if NoneEmpty(pieces) { assert forall i | 0 <= i < |pieces| - 1 :: pieces[1..][i] == pieces[i + 1]; }
    }
  }

  /** The line feeds in a piece of the stream. */
  function LineFeeds(s: Bytes): nat {
    if s == [] then 0 else (if s[0] == 10 then 1 else 0) + LineFeeds(s[1..])
  }

  lemma {:induction false} LineFeedsConcat(a: Bytes, b: Bytes)
    ensures LineFeeds(a + b) == LineFeeds(a) + LineFeeds(b)
  {
    if a == [] {
      assert a + b == b;
    } else {
      assert (a + b)[1..] == a[1..] + b;
      LineFeedsConcat(a[1..], b);
    }
  }

  lemma {:induction false} NoLineFeed(h: Bytes)
    requires forall i | 0 <= i < |h| :: HexValue(h[i]) >= 0
    ensures LineFeeds(h) == 0
  {
    if h != [] { NoLineFeed(h[1..]); }
  }

  /** A line end counts once. */
  lemma LineFeedsAround(a: Bytes, b: Bytes)
    ensures LineFeeds(a + CRLF + b) == LineFeeds(a) + 1 + LineFeeds(b)
  {
    LineFeedsConcat(a + CRLF, b);
    LineFeedsConcat(a, CRLF);
    assert CRLF[1..] == [10] && [10][1..] == [];
  }

  lemma SplitAt(s: Bytes, n: nat)
    requires n + 2 <= |s| && s[n..n + 2] == CRLF
    ensures s[..n] + CRLF + s[n + 2..] == s
  {}

  lemma SizeLineFeeds(s: Bytes)
    requires ParseSize(s).Parsed?
    ensures LineFeeds(s) == 1 + LineFeeds(ParseSize(s).rest)
  {
    var n := LeadingHex(s);
    NoLineFeed(s[..n]);
    SplitAt(s, n);
    LineFeedsAround(s[..n], s[n + 2..]);
  }

  /** A chunked body has two line ends for each chunk and two for the end, besides those of the data. */
  lemma {:induction false} DecodeFeeds(s: Bytes) returns (k: nat)
    requires Decode(s).Parsed?
    ensures LineFeeds(s) == LineFeeds(Decode(s).value) + LineFeeds(Decode(s).rest) + 2 * k
    decreases |s|
  {
    SizeLineFeeds(s);
    var n, rest := ParseSize(s).value, ParseSize(s).rest;
    SplitAt(rest, n);
    LineFeedsAround(rest[..n], rest[n + 2..]);
    if n == 0 {
      k := 1;
      assert rest[..0] == [];
    } else {
      k := DecodeFeeds(rest[n + 2..]);
      LineFeedsConcat(rest[..n], Decode(rest[n + 2..]).value);
      k := k + 1;
    }
  }

  /** The pieces of which a size line is all that is sent. */
  function Lone(pieces: seq<Piece>): nat {
    if pieces == [] then 0
    else if pieces[0].source.FromUnfilled? || (pieces[0].source.FromFile? && pieces[0].bytes == []) then
      1 + Lone(pieces[1..])
    else
      Lone(pieces[1..])
  }

  lemma LoneLine(len: nat)
    ensures LineFeeds(SizeLine(len)) == 1
  {
    SizeLineReads(len, []);
    assert SizeLine(len) + [] == SizeLine(len);
    SizeLineFeeds(SizeLine(len));
  }

  lemma FrameFeeds(bytes: Bytes)
    ensures LineFeeds(Frame(bytes)) == LineFeeds(bytes) + 2
  {
    LoneLine(|bytes|);
    LineFeedsConcat(SizeLine(|bytes|), bytes);
    LineFeedsAround(SizeLine(|bytes|) + bytes, []);
    assert Frame(bytes) + [] == Frame(bytes);
  }

  lemma {:induction false} SentFeeds(pieces: seq<Piece>, tail: Bytes) returns (k: nat)
    requires Short(pieces)
    ensures LineFeeds(Sent(pieces, tail)) == LineFeeds(Joined(pieces)) + LineFeeds(tail) + Lone(pieces) + 2 * k
  {
    if pieces == [] {
      FrameFeeds([]);
      LineFeedsConcat(LAST, tail);
      assert Sent(pieces, tail) == LAST + tail && LAST == Frame([]);
      k := 1;
    } else {
      var p := pieces[0];
      k := SentFeeds(pieces[1..], tail);
      SentStep(pieces, tail);
      LineFeedsConcat(Wire(p), Sent(pieces[1..], tail));
      LineFeedsConcat(p.bytes, Joined(pieces[1..]));
      if p.source.FromUnfilled? {
        LoneLine(SIZE_MAX);
      } else if p.source.FromFile? && p.bytes == [] {
        LoneLine(0);
      } else {
        FrameFeeds(p.bytes);
        k := k + 1;
      }
    }
  }

  lemma TwiceDifference(n: nat, k: nat, j: nat)
    requires n + 2 * j == 2 * k
    ensures n % 2 == 0
  {
    assert n == 2 * (k - j);
  }

  /** An odd number of lone size lines leaves a line end too few. */
  lemma OddNeverReads(pieces: seq<Piece>, tail: Bytes)
    requires Short(pieces) && Lone(pieces) % 2 == 1
    ensures Decode(Sent(pieces, tail)) != Parsed(Joined(pieces), tail)
  {
    if Decode(Sent(pieces, tail)) == Parsed(Joined(pieces), tail) {
      var k := DecodeFeeds(Sent(pieces, tail));
      var j := SentFeeds(pieces, tail);
      TwiceDifference(Lone(pieces), k, j);
    }
  }

  /** The first empty piece is an unfilled buffer and not the only piece that is a lone size line, and
      enough follows to be taken for its data. */
  ghost predicate Undecided(pieces: seq<Piece>, tail: Bytes) {
    Swallows(pieces, tail) && Lone(pieces) % 2 == 0
  }

  /** Reading the coding back gives the pieces one after the other and leaves what follows, exactly
      if no piece is empty. Only of an unfilled buffer that is one of several lone size lines, and that
      2^32 bytes follow, which are taken for its data, the other direction is left open. */
  lemma RoundTrip(pieces: seq<Piece>, tail: Bytes)
    requires Short(pieces)
    ensures NoneEmpty(pieces) ==> Decode(Sent(pieces, tail)) == Parsed(Joined(pieces), tail)
    ensures !Undecided(pieces, tail) ==>
              (Decode(Sent(pieces, tail)) == Parsed(Joined(pieces), tail) <==> NoneEmpty(pieces))
  {
    SwallowsEmpty(pieces, tail);
    if NoneEmpty(pieces) {
      ReadsBack(pieces, tail);
    } else if !Swallows(pieces, tail) {
      EndsEarly(pieces, tail);
    } else if Lone(pieces) % 2 == 1 {
      OddNeverReads(pieces, tail);
    }
  }

  lemma WiresNext(sent: Bytes, pieces: seq<Piece>, i: nat)
    requires i < |pieces|
    ensures sent + Wires(pieces[i..]) == sent + Wire(pieces[i]) + Wires(pieces[i + 1..])
  {
    assert pieces[i..][1..] == pieces[i + 1..];
  }

  method SendPiece(q: ChunkQueue, p: Piece)
    requires q.Valid() && (p.source.FromUnfilled? ==> p.bytes == [])
    modifies q`chunks
    ensures q.Valid() && Stream(q.chunks) == old(Stream(q.chunks)) + Wire(p)
  {
    match p.source
    case FromMemory => AppendMem(q, true, p.bytes, false);
    case FromBuffer => AppendBuffer(q, true, p.bytes, true);
    case FromUnfilled => AppendBuffer(q, true, [], false);
    case FromFile => AppendFile(q, true, p.bytes);
  }

  /** Send a body: each piece by its function, and the end mark. What is in the queue then reads back
      as the body, exactly if no piece is empty. */
  method SendBody(q: ChunkQueue, pieces: seq<Piece>)
    requires q.Valid() && q.chunks == [] && Short(pieces)
    modifies q`chunks
    ensures q.Valid() && Stream(q.chunks) == Sent(pieces, [])
    ensures NoneEmpty(pieces) ==> Decode(Stream(q.chunks)) == Parsed(Joined(pieces), [])
    ensures !Undecided(pieces, []) ==> (Decode(Stream(q.chunks)) == Parsed(Joined(pieces), []) <==> NoneEmpty(pieces))
  {
    assert pieces[0..] == pieces;
    for i := 0 to |pieces|
      invariant q.Valid() && Stream(q.chunks) + Wires(pieces[i..]) == Wires(pieces)
    {
      WiresNext(Stream(q.chunks), pieces, i);
      SendPiece(q, pieces[i]);
    }
    assert Stream(q.chunks) + [] == Stream(q.chunks);
    AppendMem(q, true, [], true);
    assert Stream(q.chunks) == Sent(pieces, []);
    RoundTrip(pieces, []);
  }
}
