/** First sets (src/lemon.c, FindFirstSets): which nonterminals can vanish, and which terminals can
    begin what a nonterminal derives. */
module FirstSets {
  import opened BitSets
  import opened Grammars

  ghost predicate WellFormed(g: Grammar) {
    && g.nterminal <= g.nsymbol
    && (forall r | 0 <= r < |g.rules| :: g.nterminal <= g.rules[r].lhs < g.nsymbol)
    && (forall r, i | 0 <= r < |g.rules| && 0 <= i < |g.rules[r].rhs| :: g.rules[r].rhs[i] < g.nsymbol)
  }

  /** x derives the empty string. */
  ghost predicate Nullable(g: Grammar, x: nat) {
    Derives(g, x, [])
  }

  /** x derives a sentential form that begins with t. */
  ghost predicate Begins(g: Grammar, x: nat, t: nat) {
    exists tree :: IsTree(g, tree) && Root(g, tree) == x && Yield(tree) != [] && Yield(tree)[0] == t
  }

  lemma {:induction false} NullableTrees(g: Grammar, xs: seq<nat>) returns (ts: seq<Tree>)
    requires forall i | 0 <= i < |xs| :: Nullable(g, xs[i])
    ensures AreTrees(g, ts) && Roots(g, ts) == xs && Yields(ts) == []
  {
    if xs == [] {
      ts := [];
    } else {
      var last := |xs| - 1;
      assert Nullable(g, xs[last]);
      var t :| IsTree(g, t) && Root(g, t) == xs[last] && Yield(t) == [];
      var rest := NullableTrees(g, xs[..last]);
      ts := rest + [t];
      YieldsLast(rest, t);
      TreesLast(g, rest, t);
      assert xs == xs[..last] + [xs[last]];
    }
  }

  lemma TreesLast(g: Grammar, ts: seq<Tree>, t: Tree)
    ensures Roots(g, ts + [t]) == Roots(g, ts) + [Root(g, t)]
    ensures AreTrees(g, ts) && IsTree(g, t) ==> AreTrees(g, ts + [t])
  {}

  lemma TreesConcat(g: Grammar, a: seq<Tree>, b: seq<Tree>)
    ensures Roots(g, a + b) == Roots(g, a) + Roots(g, b)
    ensures AreTrees(g, a) && AreTrees(g, b) ==> AreTrees(g, a + b)
  {}

  lemma Leaves(g: Grammar, xs: seq<nat>) returns (ts: seq<Tree>)
    requires forall i | 0 <= i < |xs| :: xs[i] < g.nsymbol
    ensures AreTrees(g, ts) && Roots(g, ts) == xs
  {
    ts := seq(|xs|, i requires 0 <= i < |xs| => Leaf(xs[i]));
  }

  /** A rule whose right-hand side can vanish makes its left-hand side vanish. */
  lemma NullableRule(g: Grammar, r: nat)
    requires r < |g.rules| && forall i | 0 <= i < |g.rules[r].rhs| :: Nullable(g, g.rules[r].rhs[i])
    ensures Nullable(g, g.rules[r].lhs)
  {
    var ts := NullableTrees(g, g.rules[r].rhs);
    var t := Node(r, ts);
    assert IsTree(g, t) && Root(g, t) == g.rules[r].lhs && Yield(t) == [];
  }

  /** What a symbol of a right-hand side can begin with, the whole can, if all before it can vanish. */
  lemma BeginsRule(g: Grammar, r: nat, i: nat, t: nat)
    requires WellFormed(g) && r < |g.rules| && i < |g.rules[r].rhs|
    requires forall j | 0 <= j < i :: Nullable(g, g.rules[r].rhs[j])
    requires Begins(g, g.rules[r].rhs[i], t)
    ensures Begins(g, g.rules[r].lhs, t)
  {
    var rhs := g.rules[r].rhs;
    var before := NullableTrees(g, rhs[..i]);
    var tree :| IsTree(g, tree) && Root(g, tree) == rhs[i] && Yield(tree) != [] && Yield(tree)[0] == t;
    var after := Leaves(g, rhs[i + 1..]);
    var front := before + [tree];
    YieldsLast(before, tree);
    TreesLast(g, before, tree);
    YieldsConcat(front, after);
    TreesConcat(g, front, after);
    assert rhs == rhs[..i] + [rhs[i]] + rhs[i + 1..];
    WholeTree(g, r, front + after);
  }

  lemma WholeTree(g: Grammar, r: nat, kids: seq<Tree>)
    requires r < |g.rules| && AreTrees(g, kids) && Roots(g, kids) == g.rules[r].rhs && Yields(kids) != []
    ensures Begins(g, g.rules[r].lhs, Yields(kids)[0])
  {
    var whole := Node(r, kids);
    assert IsTree(g, whole) && Root(g, whole) == g.rules[r].lhs && Yield(whole) == Yields(kids);
  }

  lemma BeginsItself(g: Grammar, t: nat)
    requires t < g.nsymbol
    ensures Begins(g, t, t)
  {
    assert IsTree(g, Leaf(t)) && Root(g, Leaf(t)) == t && Yield(Leaf(t)) == [t];
  }

  /** No rule could still mark its left-hand side as vanishing. */
  ghost predicate LambdaClosed(g: Grammar, lambda: seq<bool>) {
    |lambda| == g.nsymbol && forall r | 0 <= r < |g.rules| :: LambdaRule(g, lambda, r)
  }

  ghost predicate LambdaRule(g: Grammar, lambda: seq<bool>, r: nat)
    requires r < |g.rules|
  {
    (forall i | 0 <= i < |g.rules[r].rhs| :: g.rules[r].rhs[i] < |lambda| && lambda[g.rules[r].rhs[i]]) ==>
      g.rules[r].lhs < |lambda| && lambda[g.rules[r].lhs]
  }

  /** Marks closed under the rules reach everything that can vanish. */
  lemma {:induction false} ClosedIsNullable(g: Grammar, lambda: seq<bool>, t: Tree)
    requires WellFormed(g) && LambdaClosed(g, lambda) && IsTree(g, t) && Yield(t) == []
    ensures Root(g, t) < |lambda| && lambda[Root(g, t)]
    decreases t
  {
    var Node(r, kids) := t;
    var rhs := g.rules[r].rhs;
    forall i | 0 <= i < |rhs|
      ensures rhs[i] < |lambda| && lambda[rhs[i]]
    {
      EmptyYields(kids, i);
      assert Roots(g, kids)[i] == rhs[i];
      ClosedIsNullable(g, lambda, kids[i]);
    }
    assert LambdaRule(g, lambda, r);
  }

  lemma {:induction false} EmptyYields(ts: seq<Tree>, i: nat)
    requires i < |ts| && Yields(ts) == []
    ensures Yield(ts[i]) == []
  {
    if i > 0 { EmptyYields(ts[1..], i - 1); }
  }

  /** No rule could still add to the first set of its left-hand side. */
  ghost predicate FirstClosed(g: Grammar, lambda: seq<bool>, first: seq<seq<bool>>) {
    && |lambda| == |first| == g.nsymbol && (forall x | 0 <= x < |first| :: |first[x]| == g.nterminal)
    && forall r, i {:trigger FirstRule(g, lambda, first, r, i)} | 0 <= r < |g.rules| && 0 <= i < |g.rules[r].rhs| ::
      FirstRule(g, lambda, first, r, i)
  }

  ghost predicate FirstRule(g: Grammar, lambda: seq<bool>, first: seq<seq<bool>>, r: nat, i: nat)
    requires r < |g.rules| && i < |g.rules[r].rhs|
  {
    var x, lhs := g.rules[r].rhs[i], g.rules[r].lhs;
    (forall j | 0 <= j < i :: g.rules[r].rhs[j] < |lambda| && lambda[g.rules[r].rhs[j]]) ==>
      if x < g.nterminal then Contains(first, lhs, x)
      else forall t | 0 <= t < g.nterminal && Contains(first, x, t) :: Contains(first, lhs, t)
  }

  /** First sets closed under the rules hold everything a nonterminal can begin with. */
  lemma {:induction false} ClosedBegins(g: Grammar, lambda: seq<bool>, first: seq<seq<bool>>, tree: Tree)
    requires WellFormed(g) && LambdaClosed(g, lambda) && FirstClosed(g, lambda, first)
    requires IsTree(g, tree) && Yield(tree) != [] && Yield(tree)[0] < g.nterminal
    ensures if Root(g, tree) < g.nterminal then Root(g, tree) == Yield(tree)[0]
      else Contains(first, Root(g, tree), Yield(tree)[0])
    decreases tree
  {
    match tree
    case Leaf(x) =>
    case Node(r, kids) =>
      var k := FirstNonempty(kids);
      var x := Roots(g, kids)[k];
      assert x == g.rules[r].rhs[k];
      forall j | 0 <= j < k
        ensures g.rules[r].rhs[j] < |lambda| && lambda[g.rules[r].rhs[j]]
      {
        assert Roots(g, kids)[j] == g.rules[r].rhs[j];
        ClosedIsNullable(g, lambda, kids[j]);
      }
      ClosedBegins(g, lambda, first, kids[k]);
      assert FirstRule(g, lambda, first, r, k);
  }

  lemma {:induction false} FirstNonempty(ts: seq<Tree>) returns (k: nat)
    requires Yields(ts) != []
    ensures k < |ts| && Yield(ts[k]) != [] && Yield(ts[k])[0] == Yields(ts)[0]
    ensures forall j | 0 <= j < k :: Yield(ts[j]) == []
  {
    if Yield(ts[0]) != [] {
      k := 0;
    } else {
      k := FirstNonempty(ts[1..]);
      assert forall j | 1 <= j < k + 1 :: ts[j] == ts[1..][j - 1];
      k := k + 1;
    }
  }

  ghost predicate LambdaSound(g: Grammar, lambda: seq<bool>) {
    |lambda| == g.nsymbol && forall x | 0 <= x < |lambda| && lambda[x] :: Nullable(g, x)
  }

  /** Mark the nonterminals that derive the empty string. */
  method FindLambdas(g: Grammar) returns (lambda: array<bool>)
    requires WellFormed(g)
    ensures fresh(lambda) && LambdaClosed(g, lambda[..])
    ensures lambda.Length == g.nsymbol && forall x | 0 <= x < g.nsymbol :: lambda[x] <==> Nullable(g, x)
  {
    lambda := new bool[g.nsymbol](_ => false);
    var progress := true;
    while progress
      invariant LambdaSound(g, lambda[..]) && (!progress ==> LambdaClosed(g, lambda[..]))
      decreases Falses(lambda[..]), progress
    {
      progress := LambdaPass(g, lambda);
    }
    LambdaExact(g, lambda[..]);
  }

  /** One pass over the rules; progress if it marked anything. */
  method LambdaPass(g: Grammar, lambda: array<bool>) returns (progress: bool)
    requires WellFormed(g) && LambdaSound(g, lambda[..])
    modifies lambda
    ensures LambdaSound(g, lambda[..])
    ensures if progress then Falses(lambda[..]) < old(Falses(lambda[..]))
      else lambda[..] == old(lambda[..]) && LambdaClosed(g, lambda[..])
  {
    progress := false;
    ghost var start := lambda[..];
    for r := 0 to |g.rules|
      invariant LambdaSound(g, lambda[..])
      invariant if progress then Falses(lambda[..]) < Falses(start)
        else lambda[..] == start && forall r' | 0 <= r' < r :: LambdaRule(g, start, r')
    {
      ghost var now := lambda[..];
      if lambda[g.rules[r].lhs] {
        assert LambdaRule(g, now, r);
        continue;
      }
      var i := 0;
      while i < |g.rules[r].rhs| && lambda[g.rules[r].rhs[i]]
        invariant i <= |g.rules[r].rhs| && forall j | 0 <= j < i :: now[g.rules[r].rhs[j]]
      {
        i := i + 1;
      }
      if i == |g.rules[r].rhs| {
        NullableRule(g, r);
        lambda[g.rules[r].lhs] := true;
        FalsesGrow(now, lambda[..]);
        progress := true;
      } else {
        assert LambdaRule(g, now, r);
      }
    }
  }

  lemma LambdaExact(g: Grammar, lambda: seq<bool>)
    requires WellFormed(g) && LambdaSound(g, lambda) && LambdaClosed(g, lambda)
    ensures forall x | 0 <= x < g.nsymbol :: lambda[x] <==> Nullable(g, x)
  {
    forall x | 0 <= x < g.nsymbol && Nullable(g, x)
      ensures lambda[x]
    {
      var t :| IsTree(g, t) && Root(g, t) == x && Yield(t) == [];
      ClosedIsNullable(g, lambda, t);
    }
  }

  ghost predicate Grid(g: Grammar, first: seq<seq<bool>>) {
    |first| == g.nsymbol && forall x | 0 <= x < |first| :: |first[x]| == g.nterminal
  }

  ghost predicate FirstSound(g: Grammar, first: seq<seq<bool>>) {
    forall x, t {:trigger Contains(first, x, t)} | Contains(first, x, t) :: Begins(g, x, t)
  }

  /** Everything a scan of rule r has left to add from its first i symbols is in place. */
  ghost predicate Scanned(g: Grammar, lambda: seq<bool>, first: seq<seq<bool>>, r: nat, i: nat)
    requires r < |g.rules| && i <= |g.rules[r].rhs|
  {
    forall k | 0 <= k < i :: FirstRule(g, lambda, first, r, k)
  }

  /** What looking at symbol i of rule r does to the first sets. */
  ghost predicate Step(g: Grammar, first: seq<seq<bool>>, first': seq<seq<bool>>, r: nat, i: nat, changed: bool)
    requires r < |g.rules| && i < |g.rules[r].rhs|
  {
    var s1, s2 := g.rules[r].lhs, g.rules[r].rhs[i];
    && Grid(g, first) && Grid(g, first') && s1 < g.nsymbol && s2 < g.nsymbol
    && (forall x | 0 <= x < g.nsymbol && x != s1 :: first'[x] == first[x])
    && (forall e | 0 <= e < g.nterminal :: first'[s1][e] <==>
      first[s1][e] || if s2 < g.nterminal then e == s2 else first[s2][e])
    && (changed <==> first'[s1] != first[s1])
  }

  lemma StepDone(g: Grammar, lambda: seq<bool>, first: seq<seq<bool>>, first': seq<seq<bool>>, r: nat, i: nat,
                 changed: bool)
    requires WellFormed(g) && r < |g.rules| && i < |g.rules[r].rhs| && Step(g, first, first', r, i, changed)
    requires FirstSound(g, first) && forall j | 0 <= j < i :: Nullable(g, g.rules[r].rhs[j])
    ensures FirstSound(g, first') && Grows(first, first') && (changed <==> first != first')
    ensures !changed ==> FirstRule(g, lambda, first, r, i)
  {
    var s1, s2 := g.rules[r].lhs, g.rules[r].rhs[i];
    forall x, t | Contains(first', x, t)
      ensures Begins(g, x, t)
    {
      if Contains(first, x, t) {
      } else {
        if s2 < g.nterminal { BeginsItself(g, s2); } else { assert Contains(first, s2, t); }
        BeginsRule(g, r, i, t);
      }
    }
    forall x | 0 <= x < |first|
      ensures RowGrows(first[x], first'[x])
    {}
    if first[s1] == first'[s1] { assert first == first'; }
  }

  lemma TerminalStays(g: Grammar, x: nat)
    requires WellFormed(g) && x < g.nterminal
    ensures !Nullable(g, x)
  {}

  /** A scan may stop at a symbol that does not vanish. */
  lemma RestVacuous(g: Grammar, lambda: seq<bool>, first: seq<seq<bool>>, r: nat, i: nat)
    requires WellFormed(g) && r < |g.rules| && i <= |g.rules[r].rhs| && |lambda| == g.nsymbol
    requires forall x | 0 <= x < g.nsymbol :: lambda[x] <==> Nullable(g, x)
    requires i < |g.rules[r].rhs| ==> i > 0 && (g.rules[r].rhs[i - 1] < g.nterminal || !lambda[g.rules[r].rhs[i - 1]])
    requires Scanned(g, lambda, first, r, i)
    ensures Scanned(g, lambda, first, r, |g.rules[r].rhs|)
  {
    if i < |g.rules[r].rhs| && g.rules[r].rhs[i - 1] < g.nterminal { TerminalStays(g, g.rules[r].rhs[i - 1]); }
  }

  /** Let rule r add to the first set of its left-hand side. */
  method ScanRule(g: Grammar, lambda: array<bool>, first: array<seq<bool>>, r: nat) returns (progress: bool)
    requires WellFormed(g) && r < |g.rules| && lambda.Length == g.nsymbol && Grid(g, first[..])
    requires FirstSound(g, first[..])
    requires forall x | 0 <= x < g.nsymbol :: lambda[x] <==> Nullable(g, x)
    modifies first
    ensures Grid(g, first[..]) && FirstSound(g, first[..]) && Grows(old(first[..]), first[..])
    ensures progress <==> first[..] != old(first[..])
    ensures !progress ==> Scanned(g, lambda[..], first[..], r, |g.rules[r].rhs|)
  {
    progress := false;
    ghost var was := first[..];
    var s1 := g.rules[r].lhs;
    var rhs := g.rules[r].rhs;
    var i := 0;
    while i < |rhs|
      invariant i <= |rhs| && forall j | 0 <= j < i :: lambda[rhs[j]]
      invariant Grid(g, first[..]) && FirstSound(g, first[..]) && Grows(was, first[..])
      invariant progress <==> first[..] != was
      invariant !progress ==> Scanned(g, lambda[..], was, r, i)
    {
      var s2 := rhs[i];
      ghost var now := first[..];
      var changed := false;
      if s2 < g.nterminal {
        changed := SetAdd(first, s1, s2);
      } else if s1 != s2 {
        changed := SetUnion(first, s1, s2);
      }
      StepDone(g, lambda[..], now, first[..], r, i, changed);
      GrowsTwice(was, now, first[..]);
      if changed { progress := true; }
      i := i + 1;
      if s2 < g.nterminal || !lambda[s2] { break; }
    }
    if !progress { RestVacuous(g, lambda[..], was, r, i); }
  }

  /** One pass over the rules; progress if it added anything. */
  method FirstPass(g: Grammar, lambda: array<bool>, first: array<seq<bool>>) returns (progress: bool)
    requires WellFormed(g) && lambda.Length == g.nsymbol && Grid(g, first[..]) && FirstSound(g, first[..])
    requires forall x | 0 <= x < g.nsymbol :: lambda[x] <==> Nullable(g, x)
    modifies first
    ensures Grid(g, first[..]) && FirstSound(g, first[..])
    ensures if progress then Missing(first[..]) < old(Missing(first[..]))
      else first[..] == old(first[..]) && FirstClosed(g, lambda[..], first[..])
  {
    progress := false;
    ghost var start := first[..];
    MissingGrow(start, start);
    for r := 0 to |g.rules|
      invariant Grid(g, first[..]) && FirstSound(g, first[..])
      invariant Missing(first[..]) <= Missing(start) && (progress ==> Missing(first[..]) < Missing(start))
      invariant !progress ==>
        first[..] == start && forall r' | 0 <= r' < r :: Scanned(g, lambda[..], start, r', |g.rules[r'].rhs|)
    {
      ghost var now := first[..];
      var changed := ScanRule(g, lambda, first, r);
      MissingGrow(now, first[..]);
      if changed { progress := true; }
    }
    if !progress {
      forall r, i | 0 <= r < |g.rules| && 0 <= i < |g.rules[r].rhs|
        ensures FirstRule(g, lambda[..], start, r, i)
      {
        assert Scanned(g, lambda[..], start, r, |g.rules[r].rhs|);
      }
    }
  }

  lemma FirstExact(g: Grammar, lambda: seq<bool>, first: seq<seq<bool>>)
    requires WellFormed(g) && LambdaClosed(g, lambda) && FirstClosed(g, lambda, first) && FirstSound(g, first)
    ensures forall x, t {:trigger Contains(first, x, t)} | g.nterminal <= x < g.nsymbol && 0 <= t < g.nterminal ::
      Contains(first, x, t) <==> Begins(g, x, t)
  {
    forall x, t | g.nterminal <= x < g.nsymbol && 0 <= t < g.nterminal && Begins(g, x, t)
      ensures Contains(first, x, t)
    {
      var tree :| IsTree(g, tree) && Root(g, tree) == x && Yield(tree) != [] && Yield(tree)[0] == t;
      ClosedBegins(g, lambda, first, tree);
    }
  }

  /** For every symbol whether it derives the empty string, and for every nonterminal the terminals
      that what it derives can begin with. */
  method FindFirstSets(g: Grammar) returns (lambda: array<bool>, first: array<seq<bool>>)
    requires WellFormed(g)
    ensures lambda.Length == first.Length == g.nsymbol && Grid(g, first[..])
    ensures forall x | 0 <= x < g.nsymbol :: lambda[x] <==> Nullable(g, x)
    ensures forall x, t {:trigger first[x][t]} | g.nterminal <= x < g.nsymbol && 0 <= t < g.nterminal ::
      first[x][t] <==> Begins(g, x, t)
  {
    lambda := FindLambdas(g);
    ghost var marks := lambda[..];
    var empty := seq(g.nterminal, _ => false);
    first := new seq<bool>[g.nsymbol](_ => empty);
    var progress := true;
    while progress
      invariant lambda[..] == marks && Grid(g, first[..]) && FirstSound(g, first[..])
      invariant !progress ==> FirstClosed(g, marks, first[..])
      decreases Missing(first[..]), progress
    {
      progress := FirstPass(g, lambda, first);
    }
    FirstExact(g, marks, first[..]);
    forall x, t | g.nterminal <= x < g.nsymbol && 0 <= t < g.nterminal
      ensures first[x][t] <==> Begins(g, x, t)
    {
      assert Contains(first[..], x, t) <==> first[..][x][t];
    }
  }

  ghost predicate AllTerminal(g: Grammar, w: seq<nat>) {
    forall i | 0 <= i < |w| :: w[i] < g.nterminal
  }

  /** Every nonterminal derives some string of terminals. */
  ghost predicate Productive(g: Grammar) {
    forall x | g.nterminal <= x < g.nsymbol :: DerivesString(g, x)
  }

  ghost predicate DerivesString(g: Grammar, x: nat) {
    exists t :: IsTree(g, t) && Root(g, t) == x && AllTerminal(g, Yield(t))
  }

  /** x derives a string of terminals that begins with t. */
  ghost predicate BeginsString(g: Grammar, x: nat, t: nat) {
    exists tree ::
      IsTree(g, tree) && Root(g, tree) == x && AllTerminal(g, Yield(tree)) && Yield(tree) != [] && Yield(tree)[0] == t
  }

  /** A terminal at the front of w, or an empty w, is kept in w'. */
  ghost predicate KeepsFront(g: Grammar, w: seq<nat>, w': seq<nat>) {
    && (w == [] ==> w' == [])
    && (w != [] && w[0] < g.nterminal ==> w' != [] && w'[0] == w[0])
  }

  /** Whatever occurs on a right-hand side derives some string of terminals. */
  ghost predicate Fed(g: Grammar) {
    forall r, i | 0 <= r < |g.rules| && 0 <= i < |g.rules[r].rhs| && g.rules[r].rhs[i] < g.nsymbol ::
      DerivesString(g, g.rules[r].rhs[i])
  }

  lemma TerminalDerives(g: Grammar, x: nat)
    requires x < g.nterminal && x < g.nsymbol
    ensures DerivesString(g, x)
  {
    assert IsTree(g, Leaf(x)) && Root(g, Leaf(x)) == x && Yield(Leaf(x)) == [x];
  }

  /** In such a grammar the nonterminals a tree leaves at its leaves can be derived further. */
  lemma {:induction false} Complete(g: Grammar, t: Tree) returns (t': Tree)
    requires Fed(g) && IsTree(g, t) && (t.Leaf? ==> DerivesString(g, t.sym))
    ensures IsTree(g, t') && Root(g, t') == Root(g, t) && AllTerminal(g, Yield(t'))
    ensures KeepsFront(g, Yield(t), Yield(t'))
    decreases t, 0
  {
    match t
    case Leaf(x) =>
      if x < g.nterminal {
        t' := t;
      } else {
        t' :| IsTree(g, t') && Root(g, t') == x && AllTerminal(g, Yield(t'));
      }
    case Node(r, kids) =>
      var kids' := CompleteAll(g, t, kids, |kids|);
      assert kids[..|kids|] == kids;
      t' := Node(r, kids');
  }

  lemma {:induction false} CompleteAll(g: Grammar, t: Tree, kids: seq<Tree>, n: nat) returns (kids': seq<Tree>)
    requires Fed(g) && t.Node? && t.kids == kids && IsTree(g, t) && n <= |kids|
    ensures Completes(g, kids[..n], kids')
    decreases t, 0, n
  {
    if n == 0 {
      kids' := [];
    } else {
      var rest := CompleteAll(g, t, kids, n - 1);
      assert Root(g, kids[n - 1]) == Roots(g, kids)[n - 1] == g.rules[t.rule].rhs[n - 1];
      var last := Complete(g, kids[n - 1]);
      kids' := rest + [last];
      assert kids[..n] == kids[..n - 1] + [kids[n - 1]];
      CompletesNext(g, kids[..n - 1], rest, kids[n - 1], last);
    }
  }

  ghost predicate Completes(g: Grammar, ts: seq<Tree>, ts': seq<Tree>) {
    && AreTrees(g, ts') && Roots(g, ts') == Roots(g, ts)
    && AllTerminal(g, Yields(ts')) && KeepsFront(g, Yields(ts), Yields(ts'))
  }

  lemma FrontsConcat(g: Grammar, a: seq<nat>, a': seq<nat>, b: seq<nat>, b': seq<nat>)
    requires KeepsFront(g, a, a') && KeepsFront(g, b, b') && AllTerminal(g, a') && AllTerminal(g, b')
    ensures KeepsFront(g, a + b, a' + b') && AllTerminal(g, a' + b')
  {
    assert a == [] ==> a + b == b && a' + b' == b';
  }

  lemma CompletesNext(g: Grammar, ts: seq<Tree>, ts': seq<Tree>, t: Tree, t': Tree)
    requires Completes(g, ts, ts') && IsTree(g, t') && Root(g, t') == Root(g, t)
    requires AllTerminal(g, Yield(t')) && KeepsFront(g, Yield(t), Yield(t'))
    ensures Completes(g, ts + [t], ts' + [t'])
  {
    YieldsLast(ts, t);
    YieldsLast(ts', t');
    FrontsConcat(g, Yields(ts), Yields(ts'), Yield(t), Yield(t'));
    TreesLast(g, ts, t);
    TreesLast(g, ts', t');
  }

  lemma FedBegins(g: Grammar, x: nat, t: nat)
    requires Fed(g) && t < g.nterminal
    ensures Begins(g, x, t) <==> BeginsString(g, x, t)
  {
    if Begins(g, x, t) {
      var tree :| IsTree(g, tree) && Root(g, tree) == x && Yield(tree) != [] && Yield(tree)[0] == t;
      if tree.Leaf? { TerminalDerives(g, tree.sym); }
      var tree' := Complete(g, tree);
    }
  }

  /** In a productive grammar the first sets are exact for strings of terminals as well. */
  lemma ProductiveBegins(g: Grammar, x: nat, t: nat)
    requires Productive(g) && t < g.nterminal
    ensures Begins(g, x, t) <==> BeginsString(g, x, t)
  {
    forall r, i | 0 <= r < |g.rules| && 0 <= i < |g.rules[r].rhs| && g.rules[r].rhs[i] < g.nsymbol
      ensures DerivesString(g, g.rules[r].rhs[i])
    {
      if g.rules[r].rhs[i] < g.nterminal { TerminalDerives(g, g.rules[r].rhs[i]); }
    }
    FedBegins(g, x, t);
  }

  // ----- any grammar: what its strings begin with -----

  /** All symbols of the right-hand side derive strings of terminals. */
  ghost predicate Useful(g: Grammar, rule: Rule) {
    forall i | 0 <= i < |rule.rhs| :: DerivesString(g, rule.rhs[i])
  }

  ghost function Kept(g: Grammar, n: nat): (r: seq<Rule>)
    requires n <= |g.rules|
    ensures forall rule :: rule in r <==> rule in g.rules[..n] && Useful(g, rule)
  {
    if n == 0 then []
    else
      assert g.rules[..n] == g.rules[..n - 1] + [g.rules[n - 1]];
      Kept(g, n - 1) + if Useful(g, g.rules[n - 1]) then [g.rules[n - 1]] else []
  }

  /** The grammar without the rules that derive no string of terminals. */
  ghost function Trimmed(g: Grammar): (h: Grammar)
    ensures h.nterminal == g.nterminal && h.nsymbol == g.nsymbol
    ensures forall rule :: rule in h.rules <==> rule in g.rules && Useful(g, rule)
  {
    assert g.rules[..|g.rules|] == g.rules;
    g.(rules := Kept(g, |g.rules|))
  }

  /** Every rule the tree of g uses is one of h, too. */
  ghost predicate Uses(g: Grammar, h: Grammar, t: Tree) {
    t.Node? ==> t.rule < |g.rules| && g.rules[t.rule] in h.rules && forall i | 0 <= i < |t.kids| ::
      Uses(g, h, t.kids[i])
  }

  /** Such a tree is one of h but for the numbers of its rules. */
  lemma {:induction false} Carry(g: Grammar, h: Grammar, t: Tree) returns (t': Tree)
    requires h.nsymbol == g.nsymbol && IsTree(g, t) && Uses(g, h, t)
    ensures IsTree(h, t') && Root(h, t') == Root(g, t) && Yield(t') == Yield(t)
    decreases t, 0
  {
    match t
    case Leaf(x) => t' := t;
    case Node(r, kids) =>
      var r' :| 0 <= r' < |h.rules| && h.rules[r'] == g.rules[r];
      var kids' := CarryAll(g, h, t, kids, |kids|);
      assert kids[..|kids|] == kids;
      t' := Node(r', kids');
  }

  lemma {:induction false} CarryAll(g: Grammar, h: Grammar, t: Tree, kids: seq<Tree>, n: nat) returns (kids': seq<Tree>)
    requires h.nsymbol == g.nsymbol && t.Node? && t.kids == kids && IsTree(g, t) && Uses(g, h, t) && n <= |kids|
    ensures AreTrees(h, kids') && Roots(h, kids') == Roots(g, kids[..n]) && Yields(kids') == Yields(kids[..n])
    decreases t, 0, n
  {
    if n == 0 {
      kids' := [];
    } else {
      var rest := CarryAll(g, h, t, kids, n - 1);
      var last := Carry(g, h, kids[n - 1]);
      kids' := rest + [last];
      assert kids[..n] == kids[..n - 1] + [kids[n - 1]];
      YieldsLast(rest, last);
      YieldsLast(kids[..n - 1], kids[n - 1]);
      TreesLast(h, rest, last);
      TreesLast(g, kids[..n - 1], kids[n - 1]);
    }
  }

  lemma {:induction false} KidString(g: Grammar, ts: seq<Tree>, i: nat)
    requires i < |ts| && AllTerminal(g, Yields(ts))
    ensures AllTerminal(g, Yield(ts[i]))
  {
    var first, rest := Yield(ts[0]), Yields(ts[1..]);
    assert Yields(ts) == first + rest;
    if i == 0 {
      assert forall k | 0 <= k < |first| :: first[k] == Yields(ts)[k];
    } else {
      assert forall k | 0 <= k < |rest| :: rest[k] == Yields(ts)[|first| + k];
      KidString(g, ts[1..], i - 1);
    }
  }

  /** A tree over a string of terminals uses only rules that are kept. */
  lemma {:induction false} StringUses(g: Grammar, t: Tree)
    requires IsTree(g, t) && AllTerminal(g, Yield(t))
    ensures Uses(g, Trimmed(g), t)
  {
    match t
    case Leaf(x) =>
    case Node(r, kids) =>
      forall i | 0 <= i < |kids|
        ensures Uses(g, Trimmed(g), kids[i]) && DerivesString(g, g.rules[r].rhs[i])
      {
        KidString(g, kids, i);
        StringUses(g, kids[i]);
        assert Root(g, kids[i]) == Roots(g, kids)[i];
      }
      assert Useful(g, g.rules[r]);
  }

  lemma {:induction false} TrimmedUses(g: Grammar, t: Tree)
    requires IsTree(Trimmed(g), t)
    ensures Uses(Trimmed(g), g, t)
  {
    match t
    case Leaf(x) =>
    case Node(r, kids) =>
      forall i | 0 <= i < |kids|
        ensures Uses(Trimmed(g), g, kids[i])
      {
        TrimmedUses(g, kids[i]);
      }
  }

  lemma TrimmedFed(g: Grammar)
    ensures Fed(Trimmed(g))
  {
    var h := Trimmed(g);
    forall r, i | 0 <= r < |h.rules| && 0 <= i < |h.rules[r].rhs|
      ensures DerivesString(h, h.rules[r].rhs[i])
    {
      var x := h.rules[r].rhs[i];
      assert h.rules[r] in h.rules;
      var t :| IsTree(g, t) && Root(g, t) == x && AllTerminal(g, Yield(t));
      StringUses(g, t);
      var t' := Carry(g, h, t);
      assert Root(h, t') == x && AllTerminal(h, Yield(t'));
    }
  }

  /** In every grammar the strings of a symbol can begin with what the first sets of the trimmed
      grammar hold. */
  lemma StringsBeginTrimmed(g: Grammar, x: nat, t: nat)
    requires t < g.nterminal
    ensures BeginsString(g, x, t) <==> Begins(Trimmed(g), x, t)
  {
    var h := Trimmed(g);
    TrimmedFed(g);
    FedBegins(h, x, t);
    if BeginsString(g, x, t) {
      var tree :| IsTree(g, tree) && Root(g, tree) == x && AllTerminal(g, Yield(tree)) && Yield(tree) != [] &&
        Yield(tree)[0] == t;
      StringUses(g, tree);
      var tree' := Carry(g, h, tree);
    }
    if BeginsString(h, x, t) {
      var tree :| IsTree(h, tree) && Root(h, tree) == x && AllTerminal(h, Yield(tree)) && Yield(tree) != [] &&
        Yield(tree)[0] == t;
      TrimmedUses(g, tree);
      var tree' := Carry(h, g, tree);
      assert AllTerminal(g, Yield(tree'));
    }
  }

  /** First sets are exact for strings. */
  ghost predicate ExactForStrings(g: Grammar) {
    forall x: nat, t: nat {:trigger Begins(g, x, t)} | t < g.nterminal :: Begins(g, x, t) <==> BeginsString(g, x, t)
  }

  /** Trimming changes no first set. */
  ghost predicate TrimmingKeepsFirsts(g: Grammar) {
    forall x: nat, t: nat {:trigger Begins(g, x, t)} | t < g.nterminal :: Begins(g, x, t) <==> Begins(Trimmed(g), x, t)
  }

  /** So first sets are exact for strings exactly when trimming changes none of them. */
  lemma ExactIffTrimmingKeeps(g: Grammar)
    ensures ExactForStrings(g) <==> TrimmingKeepsFirsts(g)
  {
    forall x: nat, t: nat | t < g.nterminal
      ensures BeginsString(g, x, t) <==> Begins(Trimmed(g), x, t)
    {
      StringsBeginTrimmed(g, x, t);
    }
  }

  // ----- which rules trimming drops -----

  function Nonterminals(g: Grammar, xs: seq<nat>): (r: seq<nat>)
    ensures forall x :: x in r <==> x in xs && x >= g.nterminal
  {
    if xs == [] then [] else (if xs[0] >= g.nterminal then [xs[0]] else []) + Nonterminals(g, xs[1..])
  }

  /** The grammar with the terminals taken out of all right-hand sides. */
  function Erased(g: Grammar): (h: Grammar)
    ensures h.nterminal == g.nterminal && h.nsymbol == g.nsymbol && |h.rules| == |g.rules|
    ensures forall r {:trigger h.rules[r]} | 0 <= r < |g.rules| ::
      h.rules[r] == Rule(g.rules[r].lhs, Nonterminals(g, g.rules[r].rhs))
  {
    g.(rules := seq(|g.rules|, r requires 0 <= r < |g.rules| => Rule(g.rules[r].lhs, Nonterminals(g, g.rules[r].rhs))))
  }

  lemma {:induction false} StringTrees(g: Grammar, xs: seq<nat>) returns (ts: seq<Tree>)
    requires forall i | 0 <= i < |xs| :: DerivesString(g, xs[i])
    ensures AreTrees(g, ts) && Roots(g, ts) == xs && AllTerminal(g, Yields(ts))
  {
    if xs == [] {
      ts := [];
    } else {
      var last := |xs| - 1;
      var t :| IsTree(g, t) && Root(g, t) == xs[last] && AllTerminal(g, Yield(t));
      var rest := StringTrees(g, xs[..last]);
      ts := rest + [t];
      YieldsLast(rest, t);
      TreesLast(g, rest, t);
      assert xs == xs[..last] + [xs[last]];
    }
  }

  lemma StringRule(g: Grammar, r: nat)
    requires r < |g.rules| && Useful(g, g.rules[r])
    ensures DerivesString(g, g.rules[r].lhs)
  {
    var ts := StringTrees(g, g.rules[r].rhs);
    var t := Node(r, ts);
    assert IsTree(g, t) && Root(g, t) == g.rules[r].lhs && Yield(t) == Yields(ts);
  }

  lemma {:induction false} StringVanishes(g: Grammar, t: Tree)
    requires IsTree(g, t) && AllTerminal(g, Yield(t)) && Root(g, t) >= g.nterminal
    ensures Nullable(Erased(g), Root(g, t))
    decreases t
  {
    match t
    case Leaf(x) => assert Yield(t)[0] == x;
    case Node(r, kids) =>
      var rhs := Erased(g).rules[r].rhs;
      forall i | 0 <= i < |rhs|
        ensures Nullable(Erased(g), rhs[i])
      {
        assert rhs[i] in rhs;
        var k :| 0 <= k < |kids| && g.rules[r].rhs[k] == rhs[i];
        assert Root(g, kids[k]) == Roots(g, kids)[k];
        KidString(g, kids, k);
        StringVanishes(g, kids[k]);
      }
      NullableRule(Erased(g), r);
  }

  lemma {:induction false} VanishingDerives(g: Grammar, t: Tree)
    requires WellFormed(g) && IsTree(Erased(g), t) && Yield(t) == []
    ensures DerivesString(g, Root(g, t))
    decreases t
  {
    var Node(r, kids) := t;
    var rhs := g.rules[r].rhs;
    forall i | 0 <= i < |rhs|
      ensures DerivesString(g, rhs[i])
    {
      if rhs[i] < g.nterminal {
        TerminalDerives(g, rhs[i]);
      } else {
        assert rhs[i] in Erased(g).rules[r].rhs;
        var k :| 0 <= k < |kids| && Roots(Erased(g), kids)[k] == rhs[i];
        EmptyYields(kids, k);
        VanishingDerives(g, kids[k]);
        assert Root(g, kids[k]) == Root(Erased(g), kids[k]);
      }
    }
    StringRule(g, r);
  }

  /** Finding the vanishing symbols of the erased grammar tells which nonterminals derive strings. */
  lemma DerivesIffVanishes(g: Grammar, x: nat)
    requires WellFormed(g) && g.nterminal <= x
    ensures DerivesString(g, x) <==> Nullable(Erased(g), x)
  {
    if DerivesString(g, x) {
      var t :| IsTree(g, t) && Root(g, t) == x && AllTerminal(g, Yield(t));
      StringVanishes(g, t);
    }
    if Nullable(Erased(g), x) {
      var t :| IsTree(Erased(g), t) && Root(Erased(g), t) == x && Yield(t) == [];
      VanishingDerives(g, t);
    }
  }

  /** In this grammar the symbol 1 never ends: 1 ::= 0 1. Its first set holds 0, yet it derives no
      string of terminals. */
  const ENDLESS := Grammar(1, 2, [Rule(1, [0, 1])])

  lemma {:induction false} EndlessTrees(t: Tree)
    requires IsTree(ENDLESS, t) && Root(ENDLESS, t) == 1
    ensures !AllTerminal(ENDLESS, Yield(t))
    decreases t
  {
    if t.Node? {
      assert Roots(ENDLESS, t.kids) == [0, 1];
      var last := t.kids[1];
      assert Root(ENDLESS, last) == Roots(ENDLESS, t.kids)[1];
      EndlessTrees(last);
      assert t.kids == [t.kids[0]] + [last];
      YieldsLast([t.kids[0]], last);
      var i :| 0 <= i < |Yield(last)| && Yield(last)[i] >= 1;
      assert Yield(t)[|Yields([t.kids[0]])| + i] == Yield(last)[i];
    } else {
      assert Yield(t)[0] == 1;
    }
  }

  lemma UnproductiveFirst()
    ensures WellFormed(ENDLESS) && Begins(ENDLESS, 1, 0) && !BeginsString(ENDLESS, 1, 0)
  {
    var tree := Node(0, [Leaf(0), Leaf(1)]);
    assert Roots(ENDLESS, tree.kids) == [0, 1];
    YieldsConcat([Leaf(0)], [Leaf(1)]);
    assert tree.kids == [Leaf(0)] + [Leaf(1)];
    assert Yield(tree) == Yields([Leaf(0)]) + Yields([Leaf(1)]);
    assert [Leaf(0)][1..] == [];
    assert IsTree(ENDLESS, tree) && Root(ENDLESS, tree) == 1 && Yield(tree)[0] == 0;
    if BeginsString(ENDLESS, 1, 0) {
      var t :| IsTree(ENDLESS, t) && Root(ENDLESS, t) == 1 && AllTerminal(ENDLESS, Yield(t));
      EndlessTrees(t);
    }
  }
}
