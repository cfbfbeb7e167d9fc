/** Paths without "//", "/./" and "/../" (src/buffer.c, buffer_path_simplify). A path is the bytes of
    a buffer before its terminating zero, each from 0 to 255. */
module PathSimplify {

  const SPACE := 32
  const DOT := 46
  const SLASH := 47

  type Segment = seq<int>

  /** What stands between the slashes; there is always one segment more than there are slashes. */
  function Split(s: seq<int>): (r: seq<Segment>)
    ensures r != []
  {
    if s == [] then [[]]
    else
      var last, before := s[|s| - 1], Split(s[..|s| - 1]);
      if last == SLASH then before + [[]] else before[..|before| - 1] + [before[|before| - 1] + [last]]
  }

  /** A segment that names nothing of its own. */
  predicate Special(seg: Segment) {
    seg == [] || seg == [DOT] || seg == [DOT, DOT]
  }

  /** Go from a directory, given by the segments that lead to it from the root, where the next segment
      says; the root is its own parent. */
  function Enter(dir: seq<Segment>, seg: Segment): seq<Segment> {
    if seg == [] || seg == [DOT] then dir
    else if seg == [DOT, DOT] then if dir == [] then [] else dir[..|dir| - 1]
    else dir + [seg]
  }

  function Target(segs: seq<Segment>): seq<Segment> {
    if segs == [] then [] else Enter(Target(segs[..|segs| - 1]), segs[|segs| - 1])
  }

  /** Every segment behind a slash of its own. */
  function Join(dir: seq<Segment>): seq<int> {
    if dir == [] then [] else Join(dir[..|dir| - 1]) + [SLASH] + dir[|dir| - 1]
  }

  function SkipSpaces(s: seq<int>): (r: seq<int>)
    ensures |r| <= |s| && r == s[|s| - |r|..]
  {
    if s != [] && s[0] == SPACE then SkipSpaces(s[1..]) else s
  }

  /** The path from the root; a missing first slash is supplied. */
  function Body(s: seq<int>): seq<int> {
    if s != [] && s[0] == SLASH then s[1..] else s
  }

  /** Where the path leads, with a slash at the end if the last segment names nothing of its own. */
  function Canonical(body: seq<int>): seq<int> {
    var segs := Split(body);
    Join(Target(segs)) + if Special(segs[|segs| - 1]) then [SLASH] else []
  }

  function Simplified(s: seq<int>): seq<int> {
    Canonical(Body(SkipSpaces(s)))
  }

  // ----- in place -----

  ghost predicate Bytes(s: seq<int>) {
    forall i | 0 <= i < |s| :: 0 <= s[i] < 256
  }

  /** The zero at n ends the string, and the buffer holds at least one byte more. */
  ghost predicate Terminated(s: seq<int>, n: nat) {
    n + 1 < |s| && s[n] == 0 && Bytes(s) && forall i | 0 <= i < n :: s[i] != 0
  }

  /** The two bytes last looked at, in a short; a byte from 128 on is sign-extended over both. */
  function Shifted(pre: int, c: int): int {
    if c < 128 then pre % 256 * 256 + c else 0xFF00 + c
  }

  /** pre ends like the token, which begins with a slash. */
  ghost predicate Ends(pre: int, token: seq<int>) {
    && token != [] && pre % 256 == token[|token| - 1]
    && (|token| > 1 ==>
          var a, b := token[|token| - 2], token[|token| - 1];
          if b < 128 then pre == a * 256 + b else pre >= 0xFF00)
  }

  lemma EndsNext(pre: int, token: seq<int>, c: int)
    requires Ends(pre, token) && 0 <= c < 256
    ensures Ends(Shifted(pre, c), token + [c])
  {}

  /** What the two tests make of a token of that form. */
  lemma TokenTests(pre: int, seg: Segment)
    requires Bytes(seg) && SLASH !in seg && Ends(pre, [SLASH] + seg)
    ensures |seg| == 2 && pre == DOT * 256 + DOT <==> seg == [DOT, DOT]
    ensures seg == [] || pre == SLASH * 256 + DOT <==> seg == [] || seg == [DOT]
  {
    var token := [SLASH] + seg;
    if |seg| == 1 { assert token[|token| - 2] == SLASH; }
    if |seg| > 1 {
      assert token[|token| - 2] == seg[|seg| - 2] && seg[|seg| - 2] in seg;
    }
  }

  /** The directory written so far, and behind it a slash and a segment. */
  ghost predicate Written(d: seq<int>, dir: seq<Segment>, seg: Segment, slash: nat, out: nat) {
    && slash < out <= |d| && d[..slash] == Join(dir) && d[slash..out] == [SLASH] + seg
    && (forall i | 0 <= i < |dir| :: dir[i] != [] && SLASH !in dir[i]) && SLASH !in seg
  }

  lemma OneLonger(d: seq<int>, k: nat)
    requires k < |d|
    ensures d[..k + 1] == d[..k] + [d[k]]
  {}

  lemma SegmentKept(d: seq<int>, dir: seq<Segment>, seg: Segment, slash: nat, out: nat)
    requires Written(d, dir, seg, slash, out)
    ensures d[slash] == SLASH && |seg| == out - slash - 1 && d[..out] == Join(dir + [seg])
  {
    assert d[slash] == d[slash..out][0];
    assert d[..out] == d[..slash] + d[slash..out];
    assert (dir + [seg])[..|dir|] == dir;
  }

  /** The end of a segment: out goes back over what the segment undoes. Where it stops, a slash
      stands, which is kept at the end of the path. */
  method EndSegment(dest: array<int>, slash: nat, out: nat, pre: int, c: int, ghost dir: seq<Segment>,
                    ghost seg: Segment)
    returns (out': nat)
    requires Written(dest[..], dir, seg, slash, out) && Bytes(seg) && Ends(pre, [SLASH] + seg)
    ensures out' <= out
    ensures dest[..out'] == Join(Enter(dir, seg)) + if c == 0 && Special(seg) then [SLASH] else []
  {
    var toklen := out - slash;
    out' := out;
    SegmentKept(dest[..], dir, seg, slash, out);
    TokenTests(pre, seg);
    if toklen == 3 && pre == DOT * 256 + DOT {
      out' := Above(dest, slash, dir);
      OneLonger(dest[..], out');
      if c == 0 { out' := out' + 1; }
    } else if toklen == 1 || pre == SLASH * 256 + DOT {
      out' := slash;
      OneLonger(dest[..], out');
      if c == 0 { out' := out' + 1; }
    }
  }

  /** The slash before the last segment written, or the first slash if there is none. */
  method Above(dest: array<int>, slash: nat, ghost dir: seq<Segment>) returns (out: nat)
    requires slash < dest.Length && dest[..slash] == Join(dir) && dest[slash] == SLASH
    requires forall i | 0 <= i < |dir| :: dir[i] != [] && SLASH !in dir[i]
    ensures out <= slash && dest[out] == SLASH && dest[..out] == Join(Enter(dir, [DOT, DOT]))
  {
    NothingWritten(dir);
    out := slash;
    if out > 0 { out := LastSlash(dest, slash, dir); }
  }

  lemma NothingWritten(dir: seq<Segment>)
    ensures Join(dir) == [] <==> dir == []
  {}

  /** Back to the slash before the last segment written. */
  method LastSlash(dest: array<int>, slash: nat, ghost dir: seq<Segment>) returns (out: nat)
    requires 0 < slash < dest.Length && dest[..slash] == Join(dir)
    requires forall i | 0 <= i < |dir| :: dir[i] != [] && SLASH !in dir[i]
    ensures out < slash && dest[out] == SLASH && dir != [] && dest[..out] == Join(dir[..|dir| - 1])
  {
    NothingWritten(dir);
    ghost var init, last := Join(dir[..|dir| - 1]), dir[|dir| - 1];
    assert dest[..slash] == init + [SLASH] + last;
    assert dest[..slash][|init|] == SLASH;
    forall i | |init| < i < slash
      ensures dest[i] != SLASH
    {
      assert dest[..slash][i] == last[i - |init| - 1];
      assert last[i - |init| - 1] in last;
    }
    out := slash - 1;
    while out > 0 && dest[out] != SLASH
      invariant |init| <= out < slash
    {
      out := out - 1;
    }
    assert dest[..out] == dest[..slash][..out] == init;
  }

  /** The string at the beginning of the buffer. */
  ghost predicate Holds(buf: seq<int>, s: seq<int>) {
    |s| < |buf| && buf[..|s|] == s && buf[|s|] == 0
  }

  /** The loop before body[p], which is c, is dealt with. Of the source, where the body begins at base,
      what comes after c is still to be read. */
  ghost predicate Walking(dest: seq<int>, src: seq<int>, body: seq<int>, base: nat, p: nat,
                          slash: nat, out: nat, walk: nat, pre: int, c: int) {
    && p <= |body| && Bytes(body) && 0 !in body && c == (body + [0])[p]
    && Unread(src, body, base, p) && walk == base + p + 1
    && out <= p + 1 && |body| + 1 < |dest|
    && Copied(dest, Split(body[..p]), slash, out, pre)
  }

  ghost predicate Unread(src: seq<int>, body: seq<int>, base: nat, p: nat) {
    base + |body| < |src| && forall i | p < i <= |body| :: src[base + i] == (body + [0])[i]
  }

  ghost predicate Copied(dest: seq<int>, segs: seq<Segment>, slash: nat, out: nat, pre: int)
    requires segs != []
  {
    var cur := segs[|segs| - 1];
    Written(dest, Target(segs[..|segs| - 1]), cur, slash, out) && Bytes(cur) && Ends(pre, [SLASH] + cur)
  }

  lemma SplitNext(body: seq<int>, p: nat)
    requires p < |body|
    ensures var segs := Split(body[..p]);
      Split(body[..p + 1]) ==
        if body[p] == SLASH then segs + [[]] else segs[..|segs| - 1] + [segs[|segs| - 1] + [body[p]]]
  {
    assert body[..p + 1][..p] == body[..p];
  }

  /** A slash is copied to where its segment has led. */
  lemma SlashCopied(dest: seq<int>, segs: seq<Segment>, slash: nat, out: nat, out': nat, pre: int)
    requires segs != [] && Copied(dest, segs, slash, out, pre) && out' <= out && out' < |dest|
    requires dest[..out'] == Join(Target(segs))
    ensures Copied(dest[out' := SLASH], segs + [[]], out', out' + 1, Shifted(pre, SLASH))
  {
    var dest' := dest[out' := SLASH];
    assert (segs + [[]])[..|segs|] == segs;
    assert dest'[..out'] == dest[..out'] && dest'[out'..out' + 1] == [SLASH];
  }

  lemma ByteCopied(dest: seq<int>, segs: seq<Segment>, slash: nat, out: nat, pre: int, c: int)
    requires segs != [] && Copied(dest, segs, slash, out, pre) && out < |dest| && c != SLASH && 0 <= c < 256
    ensures Copied(dest[out := c], segs[..|segs| - 1] + [segs[|segs| - 1] + [c]], slash, out + 1, Shifted(pre, c))
  {
    var dest', cur := dest[out := c], segs[|segs| - 1];
    var segs' := segs[..|segs| - 1] + [cur + [c]];
    assert segs'[..|segs| - 1] == segs[..|segs| - 1];
    assert dest'[..slash] == dest[..slash];
    assert dest'[slash..out + 1] == dest[slash..out] + [c];
    EndsNext(pre, [SLASH] + cur, c);
    assert [SLASH] + cur + [c] == [SLASH] + (cur + [c]);
  }

  lemma Stepped(d: seq<int>, src: seq<int>, d': seq<int>, src': seq<int>, body: seq<int>, base: nat, p: nat,
                slash: nat, out: nat, walk: nat, pre: int, c: int, slash': nat, out': nat)
    requires Walking(d, src, body, base, p, slash, out, walk, pre, c) && c != 0 && out' <= out && d' == d[out' := c]
    requires |src'| == |src| && forall i | out' < i < |src| :: src'[i] == src[i]
    requires if c == SLASH then slash' == out' && d[..out'] == Join(Target(Split(body[..p])))
             else slash' == slash && out' == out
    ensures walk < |src|
    ensures Walking(d', src', body, base, p + 1, slash', out' + 1, walk + 1, Shifted(pre, c), src[walk])
  {
    SplitNext(body, p);
    assert body[p] in body;
    assert src[base + p + 1] == (body + [0])[p + 1];
    if c == SLASH {
      SlashCopied(d, Split(body[..p]), slash, out, out', pre);
    } else {
      ByteCopied(d, Split(body[..p]), slash, out, pre, c);
    }
  }

  /** The end of the last of the segments. */
  method EndLast(dest: array<int>, slash: nat, out: nat, pre: int, c: int, ghost segs: seq<Segment>) returns (out': nat)
    requires segs != [] && Copied(dest[..], segs, slash, out, pre)
    ensures out' <= out
    ensures dest[..][..out'] == Join(Target(segs)) + if c == 0 && Special(segs[|segs| - 1]) then [SLASH] else []
  {
    out' := EndSegment(dest, slash, out, pre, c, Target(segs[..|segs| - 1]), segs[|segs| - 1]);
    assert dest[..][..out'] == dest[..out'];
  }

  /** One byte, other than the zero. */
  method Step(dest: array<int>, src: array<int>, slash: nat, out: nat, walk: nat, pre: int, c: int,
              ghost body: seq<int>, ghost base: nat, ghost p: nat)
    returns (slash': nat, out': nat, pre': int, c': int)
    requires Walking(dest[..], src[..], body, base, p, slash, out, walk, pre, c) && c != 0
    modifies dest
    ensures Walking(dest[..], src[..], body, base, p + 1, slash', out', walk + 1, pre', c')
  {
    slash', out' := slash, out;
    if c == SLASH {
      out' := EndLast(dest, slash, out, pre, c, Split(body[..p]));
      slash' := out';
    }
    pre' := Shifted(pre, c);
    ghost var d, s := dest[..], src[..];
    ghost var s' := if dest == src then d[out' := c] else s;
    Stepped(d, s, d[out' := c], s', body, base, p, slash, out, walk, pre, c, slash', out');
    c' := src[walk];
    dest[out'] := c;
    assert dest[..] == d[out' := c];
    assert src[..] == s';
    out' := out' + 1;
  }

  lemma Begun(d: seq<int>, src: seq<int>, body: seq<int>, n: nat, walk: nat, s: seq<int>)
    requires Terminated(s, n) && walk < n && |d| >= n + 2 && body == Body(s[walk..n]) && |src| == |s|
    requires s[walk] == SLASH ==> d[..1] == [SLASH] && forall i | walk + 1 <= i < |s| :: src[i] == s[i]
    requires s[walk] != SLASH ==> d[..2] == [SLASH, s[walk]] && forall i | walk + 2 <= i < |s| :: src[i] == s[i]
    ensures s[walk] == SLASH ==> Walking(d, src, body, walk + 1, 0, 0, 1, walk + 2, SLASH, s[walk + 1])
    ensures s[walk] != SLASH ==> Walking(d, src, body, walk, 1, 0, 2, walk + 2, Shifted(SLASH, s[walk]), s[walk + 1])
  {
    var base := if s[walk] == SLASH then walk + 1 else walk;
    assert forall i | 0 <= i < |body| :: body[i] == s[base + i];
    assert Split([]) == [[]] && Split([])[..0] == [];
    if s[walk] == SLASH {
      assert body[..0] == [];
      assert d[0..1] == d[..1];
      BeginsWith(d, [[]], 1, SLASH);
    } else {
      assert body[..1] == [s[walk]] && [s[walk]][..0] == [];
      assert d[0..2] == d[..2];
      EndsNext(SLASH, [SLASH], s[walk]);
      BeginsWith(d, [[s[walk]]], 2, Shifted(SLASH, s[walk]));
    }
  }

  lemma BeginsWith(d: seq<int>, segs: seq<Segment>, out: nat, pre: int)
    requires |segs| == 1 && out <= |d| && d[0..out] == [SLASH] + segs[0] && Bytes(segs[0]) && SLASH !in segs[0]
    requires Ends(pre, [SLASH] + segs[0])
    ensures Copied(d, segs, 0, out, pre)
  {}

  /** The first two bytes: the leading slash is copied or supplied. */
  method Begin(dest: array<int>, src: array<int>, walk: nat, ghost n: nat)
    returns (out: nat, pre: int, c: int, ghost body: seq<int>, ghost base: nat, ghost p: nat)
    requires Terminated(src[..], n) && dest.Length >= n + 2 && walk < n
    modifies dest
    ensures body == Body(old(src[walk..n]))
    ensures Walking(dest[..], src[..], body, base, p, 0, out, walk + 2, pre, c)
  {
    ghost var s := src[..];
    assert s[walk..n] == src[walk..n];
    var pre1 := src[walk];
    c := src[walk + 1];
    pre, out := pre1, 0;
    body, base, p := Body(s[walk..n]), walk + 1, 0;
    if pre1 != SLASH {
      base, p := walk, 1;
      pre := Shifted(SLASH, pre1);
      dest[out] := SLASH;
      out := out + 1;
    }
    dest[out] := pre1;
    out := out + 1;
    assert dest[..][..out] == if pre1 == SLASH then [SLASH] else [SLASH, pre1];
    Begun(dest[..], src[..], body, n, walk, s);
  }

  /** After the zero has been reached. */
  method Finish(dest: array<int>, src: array<int>, slash: nat, out: nat, walk: nat, pre: int,
                ghost body: seq<int>, ghost base: nat, ghost p: nat) returns (used: nat)
    requires Walking(dest[..], src[..], body, base, p, slash, out, walk, pre, 0)
    modifies dest
    ensures Holds(dest[..], Canonical(body)) && used == |Canonical(body)| + 1
  {
    assert p == |body| && body[..p] == body;
    var end := EndLast(dest, slash, out, pre, 0, Split(body));
    dest[end] := 0;
    used := end + 1;
    assert dest[..][..end] == Canonical(body);
  }

  lemma BlankIsRoot()
    ensures Canonical([]) == [SLASH]
  {
    assert Split([]) == [[]] && Split([])[..0] == [];
    assert Target([[]]) == [];
  }

  /** Past the spaces in front. */
  method SkipFront(src: array<int>, ghost n: nat) returns (walk: nat)
    requires Terminated(src[..], n)
    ensures walk <= n && SkipSpaces(src[..n]) == src[walk..n] && (src[walk] == 0 <==> walk == n)
  {
    ghost var s := src[..n];
    walk := 0;
    while src[walk] == SPACE
      invariant walk <= n && SkipSpaces(s) == SkipSpaces(s[walk..])
      decreases n - walk
    {
      assert s[walk..][1..] == s[walk + 1..];
      walk := walk + 1;
    }
    assert s[walk..] == src[walk..n];
  }

  /** dest may be src itself. A blank path is left as a slash and a zero, with used one too large. */
  method PathSimplify(dest: array<int>, src: array<int>, ghost n: nat) returns (used: nat)
    requires Terminated(src[..], n) && dest.Length >= n + 2
    modifies dest
    ensures Holds(dest[..], Simplified(old(src[..n])))
    ensures used == if SkipSpaces(old(src[..n])) == [] then 3 else |Simplified(old(src[..n]))| + 1
  {
    ghost var t := SkipSpaces(src[..n]);
    var walk := SkipFront(src, n);
    if src[walk] == 0 {
      dest[0], dest[1] := SLASH, 0;
      BlankIsRoot();
      assert dest[..][..1] == [SLASH];
      return 3;
    }
    var slash := 0;
    var out, pre, c, body, base, p := Begin(dest, src, walk, n);
    walk := walk + 2;
    while c != 0
      invariant Walking(dest[..], src[..], body, base, p, slash, out, walk, pre, c)
      decreases |body| - p
    {
      slash, out, pre, c := Step(dest, src, slash, out, walk, pre, c, body, base, p);
      walk, p := walk + 1, p + 1;
    }
    used := Finish(dest, src, slash, out, walk, pre, body, base, p);
  }

  // ----- what the result looks like -----

  ghost predicate SlashFree(segs: seq<Segment>) {
    forall i | 0 <= i < |segs| :: SLASH !in segs[i]
  }

  ghost predicate Named(segs: seq<Segment>) {
    forall i | 0 <= i < |segs| :: !Special(segs[i])
  }

  /** A path from the root in which every segment names something, but that it may end in a slash. */
  ghost predicate Clean(s: seq<int>) {
    && s != [] && s[0] == SLASH
    && var segs := Split(s[1..]);
       Named(segs[..|segs| - 1]) && (segs[|segs| - 1] == [] || !Special(segs[|segs| - 1]))
  }

  lemma {:induction false} SplitSlashFree(s: seq<int>)
    ensures SlashFree(Split(s))
  {
    if s != [] { SplitSlashFree(s[..|s| - 1]); }
  }

  lemma JoinSnoc(dir: seq<Segment>, seg: Segment)
    ensures Join(dir + [seg]) == Join(dir) + [SLASH] + seg
  {
    assert (dir + [seg])[..|dir|] == dir;
  }

  /** Joining puts the slashes back. */
  lemma {:induction false} JoinSplit(s: seq<int>)
    ensures Join(Split(s)) == [SLASH] + s
  {
    if s == [] {
      assert Join([[]]) == Join([]) + [SLASH] + [];
    } else {
      var init, last := s[..|s| - 1], s[|s| - 1];
      JoinSplit(init);
      assert s == init + [last];
      var before := Split(init);
      if last == SLASH {
        JoinSnoc(before, []);
      } else {
        var front, seg := before[..|before| - 1], before[|before| - 1];
        assert before == front + [seg];
        JoinSnoc(front, seg);
        JoinSnoc(front, seg + [last]);
        assert Join(front) + [SLASH] + (seg + [last]) == Join(front) + [SLASH] + seg + [last];
      }
    }
  }

  lemma {:induction false} SplitAppend(s: seq<int>, seg: Segment)
    requires SLASH !in seg
    ensures Split(s + [SLASH] + seg) == Split(s) + [seg]
  {
    if seg == [] {
      assert (s + [SLASH] + [])[..|s|] == s;
    } else {
      var init, last := seg[..|seg| - 1], seg[|seg| - 1];
      SplitAppend(s, init);
      assert (s + [SLASH] + seg)[..|s| + |seg|] == s + [SLASH] + init;
      assert last in seg && init + [last] == seg;
    }
  }

  lemma {:induction false} SplitSegment(seg: Segment)
    requires SLASH !in seg
    ensures Split(seg) == [seg]
  {
    if seg != [] {
      var init, last := seg[..|seg| - 1], seg[|seg| - 1];
      SplitSegment(init);
      assert last in seg && init + [last] == seg;
    }
  }

  /** Splitting undoes joining. */
  lemma {:induction false} SplitJoin(segs: seq<Segment>)
    requires segs != [] && SlashFree(segs)
    ensures Join(segs) != [] && Join(segs)[0] == SLASH && Split(Join(segs)[1..]) == segs
  {
    var init, last := segs[..|segs| - 1], segs[|segs| - 1];
    assert init + [last] == segs;
    if init == [] {
      assert Join(segs) == [SLASH] + last;
      SplitSegment(last);
    } else {
      SplitJoin(init);
      assert Join(segs)[1..] == Join(init)[1..] + [SLASH] + last;
      SplitAppend(Join(init)[1..], last);
    }
  }

  lemma {:induction false} TargetNamed(segs: seq<Segment>)
    requires SlashFree(segs)
    ensures Named(Target(segs)) && SlashFree(Target(segs))
    ensures Named(segs) ==> Target(segs) == segs
  {
    if segs != [] {
      TargetNamed(segs[..|segs| - 1]);
      assert segs == segs[..|segs| - 1] + [segs[|segs| - 1]];
    }
  }

  lemma CleanJoin(dir: seq<Segment>, seg: Segment)
    requires SlashFree(dir) && Named(dir) && SLASH !in seg && (seg == [] || !Special(seg))
    ensures Clean(Join(dir + [seg]))
  {
    SplitJoin(dir + [seg]);
    assert (dir + [seg])[..|dir|] == dir;
  }

  lemma CanonicalClean(body: seq<int>)
    ensures Clean(Canonical(body))
  {
    var segs := Split(body);
    var init, last := segs[..|segs| - 1], segs[|segs| - 1];
    SplitSlashFree(body);
    TargetNamed(segs);
    TargetNamed(init);
    if Special(last) {
      JoinSnoc(Target(segs), []);
      assert Canonical(body) == Join(Target(segs) + [[]]);
      CleanJoin(Target(segs), []);
    } else {
      assert Canonical(body) == Join(Target(init) + [last]);
      CleanJoin(Target(init), last);
    }
  }

  lemma CleanStays(s: seq<int>)
    requires Clean(s)
    ensures Simplified(s) == s
  {
    var body := s[1..];
    var segs := Split(body);
    var init, last := segs[..|segs| - 1], segs[|segs| - 1];
    JoinSplit(body);
    SplitSlashFree(body);
    assert SkipSpaces(s) == s && s == [SLASH] + body;
    TargetNamed(init);
    assert Target(segs) == Enter(init, last);
    if last != [] { assert init + [last] == segs; }
  }

  /** The paths that simplification leaves as they are, are the clean ones. */
  lemma UnchangedIffClean(s: seq<int>)
    ensures Simplified(s) == s <==> Clean(s)
  {
    CanonicalClean(Body(SkipSpaces(s)));
    if Clean(s) { CleanStays(s); }
  }

  /** Simplifying once is enough. */
  lemma SimplifiedTwice(s: seq<int>)
    ensures Clean(Simplified(s)) && Simplified(Simplified(s)) == Simplified(s)
  {
    CanonicalClean(Body(SkipSpaces(s)));
    CleanStays(Simplified(s));
  }
}
