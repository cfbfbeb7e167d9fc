/** What path simplification means: laws of how segments act on each other, which decide where every
    path leads (src/buffer.c, buffer_path_simplify). */
module PathLaws {
  import opened PathSimplify

  const CURRENT: Segment := [DOT]
  const PARENT: Segment := [DOT, DOT]

  lemma TargetSnoc(a: seq<Segment>, seg: Segment)
    ensures Target(a + [seg]) == Enter(Target(a), seg)
  {
    assert (a + [seg])[..|a|] == a;
  }

  lemma {:induction false} NamedTarget(segs: seq<Segment>)
    requires Named(segs)
    ensures Target(segs) == segs
  {
    if segs != [] {
      NamedTarget(segs[..|segs| - 1]);
      assert segs == segs[..|segs| - 1] + [segs[|segs| - 1]];
    }
  }

  /** What comes after depends only on where a path has led to so far. */
  lemma LastOf<T>(a: seq<T>, b: seq<T>)
    requires b != []
    ensures (a + b)[..|a + b| - 1] == a + b[..|b| - 1] && (a + b)[|a + b| - 1] == b[|b| - 1]
  {}

  lemma {:induction false} TargetFrom(a: seq<Segment>, c: seq<Segment>, b: seq<Segment>)
    requires Target(a) == Target(c)
    ensures Target(a + b) == Target(c + b)
  {
    if b == [] {
      assert a + b == a && c + b == c;
    } else {
      TargetFrom(a, c, b[..|b| - 1]);
      LastOf(a, b);
      LastOf(c, b);
    }
  }

  /** A name and the way up behind it cancel out. */
  lemma ParentCancels(a: seq<Segment>, name: Segment, b: seq<Segment>)
    requires !Special(name)
    ensures Target(a + [name, PARENT] + b) == Target(a + b)
  {
    TargetSnoc(a, name);
    TargetSnoc(a + [name], PARENT);
    assert a + [name] + [PARENT] == a + [name, PARENT];
    TargetFrom(a + [name, PARENT], a, b);
  }

  /** The root is its own parent. */
  lemma ParentOfRoot(b: seq<Segment>)
    ensures Target([PARENT] + b) == Target(b)
  {
    TargetSnoc([], PARENT);
    assert [] + [PARENT] == [PARENT] && [] + b == b;
    TargetFrom([PARENT], [], b);
  }

  /** Empty segments and dots lead nowhere. */
  lemma StaysThere(a: seq<Segment>, seg: Segment, b: seq<Segment>)
    requires seg == [] || seg == CURRENT
    ensures Target(a + [seg] + b) == Target(a + b)
  {
    TargetSnoc(a, seg);
    TargetFrom(a + [seg], a, b);
  }

  predicate NamesLead(f: seq<Segment> -> seq<Segment>, segs: seq<Segment>) {
    (forall i | 0 <= i < |segs| :: !Special(segs[i])) ==> f(segs) == segs
  }

  predicate Cancels(f: seq<Segment> -> seq<Segment>, a: seq<Segment>, name: Segment, b: seq<Segment>) {
    !Special(name) ==> f(a + [name, PARENT] + b) == f(a + b)
  }

  predicate Stays(f: seq<Segment> -> seq<Segment>, a: seq<Segment>, seg: Segment, b: seq<Segment>) {
    seg == [] || seg == CURRENT ==> f(a + [seg] + b) == f(a + b)
  }

  predicate RootStays(f: seq<Segment> -> seq<Segment>, b: seq<Segment>) {
    f([PARENT] + b) == f(b)
  }

  /** The four laws of where a path leads. */
  ghost predicate Leads(f: seq<Segment> -> seq<Segment>) {
    && (forall segs :: NamesLead(f, segs))
    && (forall a, name, b :: Cancels(f, a, name, b))
    && (forall a, seg, b :: Stays(f, a, seg, b))
    && (forall b :: RootStays(f, b))
  }

  lemma TargetLeads()
    ensures Leads(Target)
  {
    forall segs
      ensures NamesLead(Target, segs)
    {
      if Named(segs) { NamedTarget(segs); }
    }
    forall a, name, b
      ensures Cancels(Target, a, name, b)
    {
      if !Special(name) { ParentCancels(a, name, b); }
    }
    forall a, seg, b
      ensures Stays(Target, a, seg, b)
    {
      if seg == [] || seg == CURRENT { StaysThere(a, seg, b); }
    }
    forall b
      ensures RootStays(Target, b)
    {
      ParentOfRoot(b);
    }
  }

  /** The names in front, up to the first segment that is none. */
  function NamesFirst(segs: seq<Segment>): (n: nat)
    ensures n <= |segs| && Named(segs[..n]) && (n < |segs| ==> Special(segs[n]))
  {
    if segs == [] || Special(segs[0]) then 0
    else
      assert forall i | 0 < i <= NamesFirst(segs[1..]) :: segs[i] == segs[1..][i - 1];
      1 + NamesFirst(segs[1..])
  }

  lemma Around(segs: seq<Segment>, n: nat)
    requires n < |segs|
    ensures segs == segs[..n] + [segs[n]] + segs[n + 1..]
    ensures n > 0 ==> segs == segs[..n - 1] + [segs[n - 1], segs[n]] + segs[n + 1..]
  {}

  /** Each law makes a path shorter at the first segment that is no name. */
  function Shorter(segs: seq<Segment>): (r: seq<Segment>)
    requires NamesFirst(segs) < |segs|
    ensures |r| < |segs|
  {
    var n := NamesFirst(segs);
    (if segs[n] == PARENT && n > 0 then segs[..n - 1] else segs[..n]) + segs[n + 1..]
  }

  lemma ShorterSame(f: seq<Segment> -> seq<Segment>, segs: seq<Segment>)
    requires Leads(f) && NamesFirst(segs) < |segs|
    ensures f(segs) == f(Shorter(segs))
  {
    var n := NamesFirst(segs);
    var a, b := segs[..n], segs[n + 1..];
    Around(segs, n);
    if segs[n] != PARENT {
      assert Stays(f, a, segs[n], b);
    } else if n == 0 {
      assert RootStays(f, b);
      assert [] + [PARENT] == [PARENT] && [] + b == b;
    } else {
      var name := segs[n - 1];
      assert name == segs[..n][n - 1];
      assert Cancels(f, segs[..n - 1], name, b);
    }
  }

  /** Nothing else leads as these laws say. */
  lemma {:induction false} LawsDecide(f: seq<Segment> -> seq<Segment>, g: seq<Segment> -> seq<Segment>,
                                      segs: seq<Segment>)
    requires Leads(f) && Leads(g)
    ensures f(segs) == g(segs)
    decreases |segs|
  {
    var n := NamesFirst(segs);
    if n == |segs| {
      assert segs[..n] == segs;
      assert NamesLead(f, segs) && NamesLead(g, segs);
    } else {
      ShorterSame(f, segs);
      ShorterSame(g, segs);
      LawsDecide(f, g, Shorter(segs));
    }
  }

  /** A path whose segments stand behind a slash each. */
  lemma SimplifiedJoin(segs: seq<Segment>)
    requires segs != [] && SlashFree(segs)
    ensures Simplified(Join(segs)) == Join(Target(segs)) + if Special(segs[|segs| - 1]) then [SLASH] else []
  {
    SplitJoin(segs);
    assert SkipSpaces(Join(segs)) == Join(segs);
  }

  lemma WithoutPair(a: seq<Segment>, name: Segment, b: seq<Segment>)
    requires SlashFree(a + [name, PARENT] + b)
    ensures SlashFree(a + b) && SlashFree(a + [[]])
  {
    var all := a + [name, PARENT] + b;
    assert forall i | 0 <= i < |a| :: a[i] == all[i];
    assert forall i | 0 <= i < |b| :: b[i] == all[|a| + 2 + i];
  }

  /** In a path, "/name/.." can be left out; at the end of it a slash remains. */
  lemma ParentSimplified(a: seq<Segment>, name: Segment, b: seq<Segment>)
    requires SlashFree(a + [name, PARENT] + b) && !Special(name)
    ensures Simplified(Join(a + [name, PARENT] + b)) == Simplified(Join(a + if b == [] then [[]] else b))
  {
    var short := a + if b == [] then [[]] else b;
    WithoutPair(a, name, b);
    SimplifiedJoin(a + [name, PARENT] + b);
    SimplifiedJoin(short);
    ParentCancels(a, name, b);
    assert b == [] ==> a + b == a;
    TargetSnoc(a, []);
  }

  /** At the root, "/.." can be left out. */
  lemma RootSimplified(b: seq<Segment>)
    requires SlashFree(b) && b != []
    ensures Simplified(Join([PARENT] + b)) == Simplified(Join(b))
  {
    SimplifiedJoin([PARENT] + b);
    SimplifiedJoin(b);
    ParentOfRoot(b);
  }

  lemma SlashFreeJoin(a: seq<Segment>, b: seq<Segment>)
    ensures SlashFree(a) && SlashFree(b) <==> SlashFree(a + b)
  {
    if SlashFree(a + b) {
      assert forall i | 0 <= i < |a| :: a[i] == (a + b)[i];
      assert forall i | 0 <= i < |b| :: b[i] == (a + b)[|a| + i];
    }
  }

  /** In a path, "//" and "/./" can be one slash. */
  lemma StaySimplified(a: seq<Segment>, seg: Segment, b: seq<Segment>)
    requires SlashFree(a) && SlashFree(b) && b != [] && (seg == [] || seg == CURRENT)
    ensures Simplified(Join(a + [seg] + b)) == Simplified(Join(a + b))
  {
    SlashFreeJoin(a, [seg]);
    SlashFreeJoin(a + [seg], b);
    SlashFreeJoin(a, b);
    LastOf(a + [seg], b);
    LastOf(a, b);
    SimplifiedJoin(a + [seg] + b);
    SimplifiedJoin(a + b);
    StaysThere(a, seg, b);
  }

  /** At the end of a path, they leave a slash. */
  lemma StayAtEnd(a: seq<Segment>, seg: Segment)
    requires SlashFree(a) && (seg == [] || seg == CURRENT)
    ensures Simplified(Join(a + [seg])) == Join(Target(a)) + [SLASH]
  {
    SlashFreeJoin(a, [seg]);
    SimplifiedJoin(a + [seg]);
    TargetSnoc(a, seg);
  }

  /** "/.." is "/". */
  lemma AboveRoot()
    ensures Simplified(Join([PARENT])) == [SLASH]
  {
    SimplifiedJoin([PARENT]);
    TargetSnoc([], PARENT);
    assert [] + [PARENT] == [PARENT];
  }

  lemma JoinThree(x: Segment, y: Segment, z: Segment)
    ensures Join([x, y, z]) == [SLASH] + x + [SLASH] + y + [SLASH] + z
  {
    assert [x, y, z] == [] + [x] + [y] + [z];
    JoinSnoc([], x);
    JoinSnoc([] + [x], y);
    JoinSnoc([] + [x] + [y], z);
  }

  lemma JoinOne(x: Segment)
    ensures Join([x]) == [SLASH] + x
  {
    assert [x][..0] == [];
  }

  /** "/name/../last" is "/last". */
  lemma UpAndDown(name: Segment, last: Segment)
    requires !Special(name) && !Special(last) && SLASH !in name && SLASH !in last
    ensures Simplified([SLASH] + name + [SLASH] + PARENT + [SLASH] + last) == [SLASH] + last
  {
    JoinThree(name, PARENT, last);
    assert [] + [name, PARENT] + [last] == [name, PARENT, last];
    ParentSimplified([], name, [last]);
    assert [] + [last] == [last];
    OneName(last);
  }

  lemma OneName(last: Segment)
    requires !Special(last) && SLASH !in last
    ensures Simplified(Join([last])) == [SLASH] + last
  {
    SimplifiedJoin([last]);
    NamedTarget([last]);
    JoinOne(last);
  }

  /** Spaces in front do not count, and a missing first slash is supplied. */
  lemma FrontSupplied(s: seq<int>)
    ensures Simplified([SPACE] + s) == Simplified(s)
    ensures s == [] || (s[0] != SPACE && s[0] != SLASH) ==> Simplified([SLASH] + s) == Simplified(s)
  {
    assert ([SPACE] + s)[1..] == s;
    if s == [] || (s[0] != SPACE && s[0] != SLASH) { assert ([SLASH] + s)[1..] == s; }
  }
}
