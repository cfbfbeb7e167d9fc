/** MD5 over a message that arrives in pieces (src/md5.c). What is done with one block of 64 bytes,
    MD5Transform, is left open. Bytes run from 0 to 255, words from 0 below 2^32. */
module Md5Stream {

  const BLOCK := 64
  const TWO32 := 0x1_0000_0000
  const TWO64 := 0x1_0000_0000_0000_0000

  type Transform = (seq<int>, seq<int>) -> seq<int>

  const START: seq<int> := [0x67452301, 0xefcdab89, 0x98badcfe, 0x10325476]

  ghost predicate Words(ws: seq<int>) {
    forall i | 0 <= i < |ws| :: 0 <= ws[i] < TWO32
  }

  /** The state after the first q blocks of a message. */
  ghost function Fold(f: Transform, m: seq<int>, q: nat): seq<int>
    requires BLOCK * q <= |m|
  {
    if q == 0 then START else f(Fold(f, m, q - 1), m[BLOCK * (q - 1)..BLOCK * q])
  }

  /** What MD5Transform leaves of the state: four words again. */
  ghost predicate Closed(f: Transform) {
    forall state, block :: |f(state, block)| == 4 && Words(f(state, block))
  }

  /** Least significant byte first. */
  function WordBytes(w: int): seq<int> {
    [w % 256, w / 256 % 256, w / 0x1_0000 % 256, w / 0x100_0000 % 256]
  }

  function Encoded(ws: seq<int>): (r: seq<int>)
    ensures |r| == 4 * |ws|
  {
    if ws == [] then [] else Encoded(ws[..|ws| - 1]) + WordBytes(ws[|ws| - 1])
  }

  function Zeros(n: nat): (r: seq<int>)
    ensures |r| == n && forall i | 0 <= i < n :: r[i] == 0
  {
    seq(n, _ => 0)
  }

  /** A one bit, then zero bits until 8 bytes are missing to a whole block: sections 3.1 of RFC 1321. */
  function Padding(n: nat): (r: seq<int>)
    ensures 1 <= |r| <= BLOCK && (n + |r|) % BLOCK == BLOCK - 8
  {
    [0x80] + Zeros((119 - n % BLOCK) % BLOCK)
  }

  /** The number of bits, modulo 2^64, low word first: section 3.2 of RFC 1321. */
  function Length(n: nat): (r: seq<int>)
    ensures |r| == 8
  {
    Encoded([8 * n % TWO32, 8 * n % TWO64 / TWO32])
  }

  function Padded(m: seq<int>): (r: seq<int>)
    ensures |r| % BLOCK == 0
  {
    m + Padding(|m|) + Length(|m|)
  }

  ghost function Digest(f: Transform, m: seq<int>): seq<int> {
    Encoded(Fold(f, Padded(m), |Padded(m)| / BLOCK))
  }

  // ----- the context -----

  /** The state after q blocks of the message m, and what is left of it in the buffer. */
  ghost predicate Pending(f: Transform, m: seq<int>, q: nat, state: seq<int>, buffer: seq<int>) {
    && BLOCK * q <= |m| < BLOCK * q + BLOCK == BLOCK * q + |buffer|
    && state == Fold(f, m, q) && buffer[..|m| - BLOCK * q] == m[BLOCK * q..]
  }

  /** The bits counted in two words, low word first. */
  ghost predicate Counts(n: nat, count0: int, count1: int) {
    count0 == 8 * n % TWO32 && count1 == 8 * n % TWO64 / TWO32
  }

  const TWO29 := 0x2000_0000

  lemma EightTimes(n: nat)
    ensures 8 * n == n / TWO29 * TWO32 + 8 * (n % TWO29) && 8 * (n % TWO29) < TWO32
    ensures 8 * n % TWO32 == 8 * (n % TWO29) && 8 * n / TWO32 == n / TWO29
  {
    var a, b := n / TWO29, n % TWO29;
    assert n == a * TWO29 + b;
    HighWord(a, 8 * b);
    assert 8 * n == a * TWO32 + 8 * b;
  }

  lemma Index(n: nat)
    ensures 8 * n % TWO32 / 8 % BLOCK == n % BLOCK
  {
    EightTimes(n);
    assert n == n / TWO29 * 0x80_0000 * BLOCK + n % TWO29;
  }

  /** Whether the sum has wrapped shows in its being smaller than what was added. */
  lemma Carried(low: int, add: int)
    requires 0 <= low < TWO32 && 0 <= add < TWO32
    ensures (low + add) / TWO32 == if (low + add) % TWO32 < add then 1 else 0
  {
    if low + add < TWO32 {
      assert (low + add) % TWO32 == low + add;
    } else {
      assert (low + add) % TWO32 == low + add - TWO32;
    }
  }

  /** Counting on, with the carry into the upper word found by comparing. */
  lemma CountOn(n: nat, len: nat)
    requires len < TWO32
    ensures var low, high := 8 * n % TWO32, 8 * n % TWO64 / TWO32;
      var low' := (low + 8 * len % TWO32) % TWO32;
      var carried := if low' < 8 * len % TWO32 then (high + 1) % TWO32 else high;
      low' == 8 * (n + len) % TWO32 && (carried + len / TWO29) % TWO32 == 8 * (n + len) % TWO64 / TWO32
  {
    EightTimes(n);
    EightTimes(len);
    var q, low, l, add := n / TWO29, 8 * n % TWO32, len / TWO29, 8 * len % TWO32;
    HighWord(q, low);
    Carried(low, add);
    var sum := low + add;
    HighWord(q + l + sum / TWO32, sum % TWO32);
    assert 8 * (n + len) == (q + l + sum / TWO32) * TWO32 + sum % TWO32;
    SumsWrap(q, sum / TWO32, l);
  }

  lemma SumsWrap(q: nat, c: nat, l: nat)
    requires c <= 1
    ensures ((if c == 1 then (q % TWO32 + 1) % TWO32 else q % TWO32) + l) % TWO32 == (q + l + c) % TWO32
  {
    var r := q % TWO32;
    assert q == q / TWO32 * TWO32 + r;
    assert (q + l + c) % TWO32 == (r + l + c) % TWO32;
    if c == 1 && r + 1 == TWO32 { assert (r + l + c) % TWO32 == l % TWO32; }
  }

  lemma HighWord(q: nat, low: int)
    requires 0 <= low < TWO32
    ensures (q * TWO32 + low) % TWO32 == low
    ensures (q * TWO32 + low) % TWO64 / TWO32 == q % TWO32
  {
    var r := q % TWO32;
    assert q == q / TWO32 * TWO32 + r;
    assert q * TWO32 + low == q / TWO32 * TWO64 + (r * TWO32 + low);
  }

  // ----- the loop over whole blocks -----

  /** Where the loop stands after k rounds; i is a 32-bit number. */
  function Position(part: nat, k: nat): nat {
    (part + BLOCK * k) % TWO32
  }

  /** The guard of the loop, as it is computed. */
  predicate Goes(i: nat, len: nat) {
    (i + 63) % TWO32 < len
  }

  /** The loop is left after k rounds, if it has not been left before. */
  predicate StopsAt(part: nat, k: nat, len: nat) {
    !Goes(Position(part, k), len)
  }

  ghost predicate Stops(part: nat, len: nat) {
    exists k: nat :: StopsAt(part, k, len)
  }

  /** The place in the input where the last, incomplete block begins. */
  function LastStart(part: nat, len: nat): (i: nat)
    requires part <= len
    ensures part <= i <= len < i + BLOCK && (i - part) % BLOCK == 0
  {
    len - (len - part) % BLOCK
  }

  /** The loop over the blocks of the input ends, unless fewer than 64 numbers are left above the last
      block. */
  predicate LoopEnds(ndx: nat, len: nat)
    requires ndx < BLOCK
  {
    len < BLOCK - ndx || LastStart(BLOCK - ndx, len) + 63 < TWO32
  }

  /** Otherwise the guard holds at every position the loop can ever reach. */
  lemma GoesForever(part: nat, len: nat, k: nat)
    requires 1 <= part <= BLOCK && part <= len < TWO32 && LastStart(part, len) + 63 >= TWO32
    ensures Goes(Position(part, k), len)
  {
    var i := Position(part, k);
    SamePlace(part, k);
    if i + 63 >= TWO32 {
      assert (i + 63) % TWO32 == i + 63 - TWO32;
    } else {
      assert (i + 63) % TWO32 == i + 63;
      BlocksApart(i, LastStart(part, len));
    }
  }

  lemma SamePlace(part: nat, k: nat)
    ensures Position(part, k) % BLOCK == part % BLOCK
  {
    var x := part + BLOCK * k;
    assert x == x / TWO32 * 0x400_0000 * BLOCK + x % TWO32;
  }

  lemma BlocksApart(i: nat, j: nat)
    requires i % BLOCK == j % BLOCK && i + 63 < TWO32 <= j + 63
    ensures i + BLOCK <= j
  {}

  lemma EndsThere(part: nat, len: nat)
    requires 1 <= part <= BLOCK && part <= len < TWO32 && LastStart(part, len) + 63 < TWO32
    ensures !Goes(Position(part, (LastStart(part, len) - part) / BLOCK), len)
  {
    var last := LastStart(part, len);
    assert BLOCK * ((last - part) / BLOCK) == last - part;
  }

  /** The loop comes to an end if and only if the condition holds, which the caller can tell from the
      length so far and the length of the piece. */
  lemma LoopEndsIff(ndx: nat, len: nat)
    requires ndx < BLOCK && len < TWO32
    ensures LoopEnds(ndx, len) <==>
      len < BLOCK - ndx || Stops(BLOCK - ndx, len)
  {
    var part := BLOCK - ndx;
    if len >= part {
      if LoopEnds(ndx, len) {
        EndsThere(part, len);
        assert StopsAt(part, (LastStart(part, len) - part) / BLOCK, len);
      } else {
        forall k: nat
          ensures !StopsAt(part, k, len)
        {
          GoesForever(part, len, k);
        }
      }
    }
  }

  /** A byte and then a piece of 2^32 - 1 bytes are taken in forever. */
  lemma OneThenMost()
    ensures !LoopEnds(1, TWO32 - 1) && !Stops(BLOCK - 1, TWO32 - 1)
  {
    LoopEndsIff(1, TWO32 - 1);
  }

  class Context {
    const transform: Transform
    const buffer: array<int>
    var state: seq<int>
    var count0: int
    var count1: int
    ghost var message: seq<int>

    ghost predicate Valid()
      reads this, buffer
    {
      && Closed(transform) && buffer.Length == BLOCK
      && Pending(transform, message, |message| / BLOCK, state, buffer[..])
      && Counts(|message|, count0, count1)
    }

    /** A context before MD5_Init: nothing is promised of it but its size. */
    constructor (f: Transform)
      requires Closed(f)
      ensures buffer.Length == BLOCK && fresh(buffer) && transform == f
    {
      transform, buffer, state, count0, count1, message := f, new int[BLOCK], [], 0, 0, [];
    }

    /** MD5_Init. */
    method Init()
      requires buffer.Length == BLOCK && Closed(transform)
      modifies this
      ensures Valid() && message == []
    {
      count0, count1 := 0, 0;
      state, message := START, [];
      assert message[..0] == [] && buffer[..][..0] == message[0..];
    }

    /** MD5_memcpy into the buffer. */
    method Copy(ndx: nat, part: seq<int>)
      requires buffer.Length == BLOCK && ndx + |part| <= BLOCK
      modifies buffer
      ensures buffer[..ndx] == old(buffer[..ndx]) && buffer[ndx..ndx + |part|] == part
    {
      for j := 0 to |part|
        invariant buffer[..ndx] == old(buffer[..ndx]) && buffer[ndx..ndx + j] == part[..j]
      {
        buffer[ndx + j] := part[j];
        assert buffer[ndx..ndx + j + 1] == buffer[ndx..ndx + j] + [part[j]];
        assert buffer[..ndx + j][..ndx] == buffer[..ndx];
      }
      assert part[..|part|] == part;
    }

    /** MD5_Update's blocks: the first is completed in the buffer, the others are taken from the input. */
    method Blocks(input: seq<int>, ndx: nat, partLen: nat, ghost m: seq<int>, ghost q0: nat)
      returns (i: nat, ghost q: nat)
      requires Pending(transform, m, q0, state, buffer[..]) && buffer.Length == BLOCK && ndx == |m| - BLOCK * q0
      requires partLen == BLOCK - ndx && partLen <= |input| < TWO32 && LoopEnds(ndx, |input|)
      modifies this`state, buffer
      ensures i <= |input| < i + BLOCK && |m| + i == BLOCK * q && state == Fold(transform, m + input, q)
    {
      ghost var was := buffer[..];
      Copy(ndx, input[..partLen]);
      assert buffer[..ndx] == was[..ndx];
      FirstBlock(transform, m, input, q0, state, buffer[..]);
      state := transform(state, buffer[..]);
      i, q := partLen, q0 + 1;
      while Goes(i, |input|)
        invariant partLen <= i <= LastStart(partLen, |input|) && |m| + i == BLOCK * q
        invariant state == Fold(transform, m + input, q)
        decreases |input| - i
      {
        Round(partLen, |input|, i, q - q0 - 1);
        InputBlock(m, input, i, q);
        state := transform(state, input[i..i + BLOCK]);
        i, q := (i + BLOCK) % TWO32, q + 1;
      }
      Round(partLen, |input|, i, q - q0 - 1);
    }

    /** MD5_Update, for the inputs on which it comes to an end: the same as if the message so far and
        the input had been one piece. */
    method Update(input: seq<int>)
      requires Valid() && |input| < TWO32 && LoopEnds(|message| % BLOCK, |input|)
      modifies this, buffer
      ensures Valid() && message == old(message) + input
    {
      Index(|message|);
      var ndx := count0 / 8 % BLOCK;
      CountBits(|input|, |message|);
      ghost var q := Absorb(input, ndx, message, |message| / BLOCK);
      message := message + input;
      Quotient(|message|, q);
    }

    /** The bits of a piece are added to the count of 64 bits. */
    method CountBits(len: nat, ghost n: nat)
      requires Counts(n, count0, count1) && len < TWO32
      modifies this`count0, this`count1
      ensures Counts(n + len, count0, count1)
    {
      CountOn(n, len);
      var bits := 8 * len % TWO32;
      count0 := (count0 + bits) % TWO32;
      if count0 < bits { count1 := (count1 + 1) % TWO32; }
      count1 := (count1 + len / TWO29) % TWO32;
    }

    /** The rest of MD5_Update, once the bits are counted. */
    method Absorb(input: seq<int>, ndx0: nat, ghost m: seq<int>, ghost q0: nat) returns (ghost q: nat)
      requires Pending(transform, m, q0, state, buffer[..]) && buffer.Length == BLOCK && ndx0 == |m| - BLOCK * q0
      requires |input| < TWO32 && LoopEnds(ndx0, |input|)
      modifies this`state, buffer
      ensures Pending(transform, m + input, q, state, buffer[..])
    {
      var ndx, partLen, i := ndx0, BLOCK - ndx0, 0;
      q := q0;
      if |input| >= partLen {
        i, q := Blocks(input, ndx, partLen, m, q0);
        ndx := 0;
      } else {
        FoldLonger(transform, m, input, q);
      }
      ghost var was := buffer[..];
      Copy(ndx, input[i..]);
      assert buffer[..ndx] == was[..ndx];
      assert buffer[..ndx + |input| - i] == buffer[..ndx] + input[i..];
      assert (m + input)[BLOCK * q..] == (if ndx == 0 then [] else m[BLOCK * q..]) + input[i..];
    }

    /** The first half of MD5_Final: the padding and the length before it. */
    method Pad()
      requires Valid()
      modifies this, buffer
      ensures Valid() && message == Padded(old(message))
    {
      ghost var m := message;
      var bits := Encode([count0, count1]);
      assert bits == Length(|m|);
      Index(|m|);
      var ndx := count0 / 8 % BLOCK;
      var padLen := if ndx < 56 then 56 - ndx else 120 - ndx;
      PaddingTaken(|m|, padLen);
      Update(PADDING[..padLen]);
      Update(bits);
    }

    /** MD5_Final: the digest of all that has been put in, after which the context is wiped. */
    method Final() returns (digest: seq<int>)
      requires Valid()
      modifies this, buffer
      ensures digest == Digest(transform, old(message)) && |digest| == 16
      ensures state == Zeros(4) && count0 == count1 == 0 && buffer[..] == Zeros(BLOCK)
    {
      Pad();
      FoldWords(transform, message, |message| / BLOCK);
      digest := Encode(state);
      Wipe();
    }

    method Wipe()
      requires buffer.Length == BLOCK
      modifies this`state, this`count0, this`count1, buffer
      ensures state == Zeros(4) && count0 == count1 == 0 && buffer[..] == Zeros(BLOCK)
    {
      for j := 0 to BLOCK
        invariant forall k | 0 <= k < j :: buffer[k] == 0
      {
        buffer[j] := 0;
      }
      state, count0, count1 := Zeros(4), 0, 0;
    }
  }

  const PADDING: seq<int> := [0x80] + Zeros(63)

  lemma PaddingTaken(n: nat, padLen: nat)
    requires padLen == if n % BLOCK < 56 then 56 - n % BLOCK else 120 - n % BLOCK
    ensures PADDING[..padLen] == Padding(n)
  {}

  lemma {:induction false} FoldWords(f: Transform, m: seq<int>, q: nat)
    requires Closed(f) && BLOCK * q <= |m|
    ensures |Fold(f, m, q)| == 4 && Words(Fold(f, m, q))
  {}

  method Encode(input: seq<int>) returns (output: seq<int>)
    requires Words(input)
    ensures output == Encoded(input)
  {
    var out := new int[4 * |input|];
    for i := 0 to |input|
      invariant out[..4 * i] == Encoded(input[..i])
    {
      var j, w := 4 * i, input[i];
      out[j] := w % 256;
      out[j + 1] := w / 256 % 256;
      out[j + 2] := w / 0x1_0000 % 256;
      out[j + 3] := w / 0x100_0000 % 256;
      assert out[..j + 4] == out[..j] + WordBytes(w);
      assert input[..i + 1][..i] == input[..i];
    }
    assert input[..|input|] == input;
    return out[..];
  }

  function Joined(pieces: seq<seq<int>>): seq<int> {
    if pieces == [] then [] else Joined(pieces[..|pieces| - 1]) + pieces[|pieces| - 1]
  }

  /** Every piece is one that MD5_Update can take, given what came before it. */
  ghost predicate Acceptable(pieces: seq<seq<int>>) {
    forall k {:trigger pieces[k]} | 0 <= k < |pieces| ::
      |pieces[k]| < TWO32 && LoopEnds(|Joined(pieces[..k])| % BLOCK, |pieces[k]|)
  }

  /** A whole run: however a message is cut into pieces, its digest is the same. */
  method DigestOf(f: Transform, pieces: seq<seq<int>>) returns (digest: seq<int>)
    requires Closed(f) && Acceptable(pieces)
    ensures digest == Digest(f, Joined(pieces))
  {
    var context := new Context(f);
    context.Init();
    for k := 0 to |pieces|
      invariant context.Valid() && context.transform == f && context.message == Joined(pieces[..k])
      invariant fresh(context) && fresh(context.buffer)
    {
      context.Update(pieces[k]);
      assert pieces[..k + 1][..k] == pieces[..k];
    }
    assert pieces[..|pieces|] == pieces;
    digest := context.Final();
  }

  /** Short pieces are always acceptable. */
  lemma ShortAcceptable(pieces: seq<seq<int>>)
    requires forall k | 0 <= k < |pieces| :: |pieces[k]| <= TWO32 - BLOCK
    ensures Acceptable(pieces)
  {}

  // ----- what is hashed determines the message -----

  /** Decode, for one word. */
  function DecodedWord(b: seq<int>): int
    requires |b| == 4
  {
    b[0] + 0x100 * b[1] + 0x1_0000 * b[2] + 0x100_0000 * b[3]
  }

  lemma DecodeEncode(w: int)
    requires 0 <= w < TWO32
    ensures DecodedWord(WordBytes(w)) == w
  {
    var w1, w2, w3 := w / 256, w / 0x1_0000, w / 0x100_0000;
    assert w == 256 * w1 + w % 256;
    assert w1 == 256 * w2 + w1 % 256;
    assert w2 == 256 * w3 + w2 % 256 && w3 % 256 == w3;
    assert WordBytes(w) == [w % 256, w1 % 256, w2 % 256, w3 % 256];
  }

  lemma LengthBytes(n: nat)
    ensures Length(n)[..4] == WordBytes(8 * n % TWO32) && Length(n)[4..] == WordBytes(8 * n % TWO64 / TWO32)
  {
    var lo, hi := 8 * n % TWO32, 8 * n % TWO64 / TWO32;
    assert [lo, hi][..1] == [lo] && [lo][..0] == [];
    assert Encoded([lo, hi]) == Encoded([lo]) + WordBytes(hi) && Encoded([lo]) == [] + WordBytes(lo);
  }

  lemma LengthTells(n: nat, n': nat)
    requires n < TWO64 / 8 && n' < TWO64 / 8 && Length(n) == Length(n')
    ensures n == n'
  {
    LengthBytes(n);
    LengthBytes(n');
    DecodeEncode(8 * n % TWO32);
    DecodeEncode(8 * n' % TWO32);
    HighBelow(n);
    HighBelow(n');
    DecodeEncode(8 * n % TWO64 / TWO32);
    DecodeEncode(8 * n' % TWO64 / TWO32);
  }

  lemma HighBelow(n: nat)
    requires n < TWO64 / 8
    ensures 0 <= 8 * n % TWO64 / TWO32 < TWO32 && 8 * n == 8 * n % TWO64 / TWO32 * TWO32 + 8 * n % TWO32
  {
    assert 8 * n % TWO64 == 8 * n;
  }

  /** Different messages of fewer than 2^64 bits are never the same once padded. */
  lemma PaddedTells(a: seq<int>, b: seq<int>)
    requires |a| < TWO64 / 8 && |b| < TWO64 / 8 && Padded(a) == Padded(b)
    ensures a == b
  {
    var p := Padded(a);
    assert p[|p| - 8..] == Length(|a|) && p[|p| - 8..] == Length(|b|);
    LengthTells(|a|, |b|);
    assert p[..|a|] == a && p[..|b|] == b;
  }

  lemma {:induction false} FoldLonger(f: Transform, m: seq<int>, input: seq<int>, q: nat)
    requires BLOCK * q <= |m|
    ensures Fold(f, m + input, q) == Fold(f, m, q)
  {
    if q > 0 {
      FoldLonger(f, m, input, q - 1);
      assert (m + input)[BLOCK * (q - 1)..BLOCK * q] == m[BLOCK * (q - 1)..BLOCK * q];
    }
  }

  lemma FirstBlock(f: Transform, m: seq<int>, input: seq<int>, q: nat, state: seq<int>, buffer: seq<int>)
    requires BLOCK * q <= |m| < BLOCK * q + BLOCK == BLOCK * q + |buffer| && |m| + |input| >= BLOCK * q + BLOCK
    requires state == Fold(f, m, q) && buffer[..|m| - BLOCK * q] == m[BLOCK * q..]
    requires buffer[|m| - BLOCK * q..] == input[..BLOCK * q + BLOCK - |m|]
    ensures f(state, buffer) == Fold(f, m + input, q + 1)
  {
    var ndx := |m| - BLOCK * q;
    FoldLonger(f, m, input, q);
    assert buffer == buffer[..ndx] + buffer[ndx..];
    assert (m + input)[BLOCK * q..BLOCK * (q + 1)] == m[BLOCK * q..] + input[..BLOCK - ndx];
  }

  lemma InputBlock(m: seq<int>, input: seq<int>, i: nat, q: nat)
    requires |m| + i == BLOCK * q && i + BLOCK <= |input|
    ensures (m + input)[BLOCK * q..BLOCK * (q + 1)] == input[i..i + BLOCK]
  {}

  /** The loop goes on up to the last start, and its counter does not wrap. */
  lemma Round(part: nat, len: nat, i: nat, r: int)
    requires 1 <= part && part <= len && part <= i <= LastStart(part, len) && i == part + BLOCK * r
    requires LastStart(part, len) + 63 < TWO32
    ensures Goes(i, len) ==> i + BLOCK <= LastStart(part, len) && (i + BLOCK) % TWO32 == i + BLOCK
    ensures !Goes(i, len) ==> i == LastStart(part, len)
  {
    assert (i + 63) % TWO32 == i + 63;
    assert (i - part) % BLOCK == 0;
    BlocksBetween(part, i, LastStart(part, len));
  }

  lemma BlocksBetween(part: nat, i: nat, j: nat)
    requires part <= i <= j && (i - part) % BLOCK == 0 && (j - part) % BLOCK == 0
    ensures i == j || i + BLOCK <= j
  {}

  lemma Quotient(n: nat, q: nat)
    requires BLOCK * q <= n < BLOCK * q + BLOCK
    ensures n / BLOCK == q
  {}
}
