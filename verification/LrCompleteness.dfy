/** A second certificate, LR(1) items for every state, under which the parser accepts every
    string the grammar derives unless its bounded stack overflows. */
module LrCompleteness {
  import opened Grammars
  import opened ParseTables
  import opened LrMachine
  import opened LrCertificate
  import opened LrSoundness

  /** item(s, r, d, a): in state s the parser may be d symbols into rule r with a to follow;
      nullable and first over-approximate what the nonterminals derive. */
  datatype Items = Items(
    item: (nat, nat, nat, nat) -> bool,
    nullable: nat -> bool,
    first: (nat, nat) -> bool)

  predicate Nullable(g: Grammar, k: Items, x: nat) {
    g.nterminal <= x && k.nullable(x)
  }

  predicate First(g: Grammar, k: Items, x: nat, b: nat) {
    if x < g.nterminal then x == b else k.first(x, b)
  }

  /** Everything from position d of rule r on may derive nothing. */
  predicate Vanishes(g: Grammar, k: Items, r: nat, d: nat)
    requires r < |g.rules| && d <= |g.rules[r].rhs|
    decreases |g.rules[r].rhs| - d
  {
    d == |g.rules[r].rhs| || (Nullable(g, k, g.rules[r].rhs[d]) && Vanishes(g, k, r, d + 1))
  }

  /** b may begin what position d of rule r and the rest derive. */
  predicate Begins(g: Grammar, k: Items, r: nat, d: nat, b: nat)
    requires r < |g.rules| && d <= |g.rules[r].rhs|
    decreases |g.rules[r].rhs| - d
  {
    d < |g.rules[r].rhs| &&
    (First(g, k, g.rules[r].rhs[d], b) || (Nullable(g, k, g.rules[r].rhs[d]) && Begins(g, k, r, d + 1, b)))
  }

  /** b may be the next token at position d of rule r when a follows the rule. */
  predicate Leads(g: Grammar, k: Items, r: nat, d: nat, a: nat, b: nat)
    requires r < |g.rules| && d <= |g.rules[r].rhs|
  {
    Begins(g, k, r, d, b) || (a == b && Vanishes(g, k, r, d))
  }

  ghost predicate FirstOk(g: Grammar, k: Items, r: nat, b: nat)
    requires r < |g.rules|
  {
    && (Vanishes(g, k, r, 0) ==> k.nullable(g.rules[r].lhs))
    && (Begins(g, k, r, 0, b) ==> k.first(g.rules[r].lhs, b))
  }

  ghost predicate ItemOk(g: Grammar, t: Tables, c: Certificate, k: Items, s: nat, r: nat, d: nat, a: nat)
    requires t.Shaped() && s < t.nstate
  {
    && r < |g.rules| && d <= |g.rules[r].rhs| && a < g.nterminal
    && var rhs := g.rules[r].rhs;
       if d == |rhs| then c.act(s, a) == t.nstate + r
       else
         var x := rhs[d];
         var next := if x < g.nterminal then c.act(s, x) else c.goto(s, x);
         && next < t.nstate && x < g.nsymbol && x != t.errorSymbol
         && k.item(next, r, d + 1, a)
         && forall q | 0 <= q < |g.rules| && g.rules[q].lhs == x :: Predicted(g, k, s, r, d, a, q)
  }

  /** Rule q is predicted with every token that may follow position d of rule r. */
  ghost predicate Predicted(g: Grammar, k: Items, s: nat, r: nat, d: nat, a: nat, q: nat)
    requires r < |g.rules| && d < |g.rules[r].rhs|
  {
    forall b | 0 <= b < g.nterminal && Leads(g, k, r, d + 1, a, b) :: k.item(s, q, 0, b)
  }

  /** The tables pass every local check of the item certificate. */
  ghost predicate Closed(g: Grammar, t: Tables, c: Certificate, k: Items) {
    && t.Shaped() && t.nstate > 0 && g.rules != [] && 0 < g.nterminal <= Start(g)
    && (forall r, b | 0 <= r < |g.rules| && 0 <= b < g.nterminal :: FirstOk(g, k, r, b))
    && (forall s, r, d, a | 0 <= s < t.nstate && k.item(s, r, d, a) :: ItemOk(g, t, c, k, s, r, d, a))
    && (forall q | 0 <= q < |g.rules| && g.rules[q].lhs == Start(g) :: k.item(0, q, 0, 0))
    && c.goto(0, Start(g)) == t.AcceptAction()
  }

  lemma {:induction false} TreeFirst(g: Grammar, t: Tables, c: Certificate, k: Items, tree: Tree)
    requires Certified(g, t, c) && Closed(g, t, c, k) && IsTree(g, tree) && AreTokens(g, Yield(tree))
    ensures Yield(tree) == [] ==> Nullable(g, k, Root(g, tree))
    ensures Yield(tree) != [] ==> First(g, k, Root(g, tree), Yield(tree)[0])
    decreases tree, 1, 0
  {
    match tree
    case Leaf(x) => assert Yield(tree)[0] == x;
    case Node(r, kids) =>
      assert RuleFits(g, t, r);
      assert kids[0..] == kids;
      KidsFirst(g, t, c, k, r, kids, 0);
      assert FirstOk(g, k, r, if Yield(tree) == [] then 0 else Yield(tree)[0]);
  }

  lemma {:induction false} KidsFirst(g: Grammar, t: Tables, c: Certificate, k: Items, r: nat, kids: seq<Tree>, d: nat)
    requires Certified(g, t, c) && Closed(g, t, c, k) && IsTree(g, Node(r, kids)) && d <= |kids|
    requires AreTokens(g, Yields(kids[d..]))
    ensures Yields(kids[d..]) == [] ==> Vanishes(g, k, r, d)
    ensures Yields(kids[d..]) != [] ==> Begins(g, k, r, d, Yields(kids[d..])[0])
    decreases kids, 0, |kids| - d
  {
    if d < |kids| {
      SplitFirst(g, kids, d);
      TreeFirst(g, t, c, k, kids[d]);
      KidsFirst(g, t, c, k, r, kids, d + 1);
      assert Root(g, kids[d]) == g.rules[r].rhs[d];
    }
  }

  /** The tokens under the kids from d on split after kid d. */
  lemma SplitFirst(g: Grammar, kids: seq<Tree>, d: nat)
    requires d < |kids|
    ensures Yields(kids[d..]) == Yield(kids[d]) + Yields(kids[d + 1..])
    ensures AreTokens(g, Yields(kids[d..])) ==> AreTokens(g, Yield(kids[d])) && AreTokens(g, Yields(kids[d + 1..]))
  {
    var y, z := Yield(kids[d]), Yields(kids[d + 1..]);
    assert kids[d..][1..] == kids[d + 1..];
    assert forall i | 0 <= i < |y| :: y[i] == (y + z)[i];
    assert forall i | 0 <= i < |z| :: z[i] == (y + z)[|y| + i];
  }

  lemma SplitTokens(g: Grammar, kids: seq<Tree>, d: nat, z: seq<nat>)
    requires d < |kids| && AreTokens(g, Yields(kids[d..])) && AreTokens(g, z)
    ensures var y, rest := Yield(kids[d]), Yields(kids[d + 1..]) + z;
            && Yields(kids[d..]) + z == y + rest
            && AreTokens(g, y) && AreTokens(g, Yields(kids[d + 1..])) && AreTokens(g, rest) && AreTokens(g, y + rest)
            && (z != [] ==>
                  && rest != []
                  && rest[0] == if Yields(kids[d + 1..]) == [] then z[0] else Yields(kids[d + 1..])[0])
  {
    SplitFirst(g, kids, d);
  }

  lemma {:induction false} FeedAllSticky(g: Grammar, t: Tables, c: Certificate, m: Machine, tokens: seq<nat>)
    requires Certified(g, t, c) && Linked(g, t, m.stack) && AreTokens(g, tokens)
    ensures FeedAll(g, t, c, m, tokens).ok ==> m.ok
    ensures m.overflowed ==> FeedAll(g, t, c, m, tokens).overflowed
    decreases |tokens|
  {
    if tokens != [] {
      var m0 := if m.stack == [] then m.(stack := [Entry(0, 0)]) else m;
      if m.stack != [] || tokens[0] != 0 {
        SettleSticky(g, t, c, Loop(m0, Some(tokens[0]), tokens[0] == 0, false));
      }
      FeedAllSticky(g, t, c, Feed(g, t, c, m, tokens[0]), tokens[1..]);
    }
  }

  /** What a run over y + z has done once y is behind it: m' replaces m and z remains. */
  ghost predicate Reaches(g: Grammar, t: Tables, c: Certificate, m: Machine, y: seq<nat>, z: seq<nat>, m': Machine)
    requires Certified(g, t, c) && Linked(g, t, m.stack) && Linked(g, t, m'.stack)
    requires AreTokens(g, y + z) && AreTokens(g, z)
  {
    && FeedAll(g, t, c, m, y + z) == FeedAll(g, t, c, m', z)
    && m'.ok == m.ok && m.stack <= m'.stack
  }

  /** A parser in the middle of a parse, with an item that says what may come next. */
  ghost predicate At(g: Grammar, t: Tables, c: Certificate, k: Items, m: Machine, r: nat, d: nat, a: nat) {
    && Certified(g, t, c) && Closed(g, t, c, k) && Linked(g, t, m.stack) && m.stack != []
    && k.item(Top(m.stack), r, d, a)
  }

  /** The state the packed tables lead to when x is pushed in state s. */
  ghost function Next(g: Grammar, t: Tables, s: nat, x: nat): nat
    requires t.Shaped() && s < t.nstate
  {
    if x < g.nterminal then FindShift(t, s, x) else FindReduce(t, s, x)
  }

  /** What an item says, read off the packed tables. */
  lemma ItemGives(g: Grammar, t: Tables, c: Certificate, k: Items, s: nat, r: nat, d: nat, a: nat)
    requires Certified(g, t, c) && Closed(g, t, c, k) && s < t.nstate && k.item(s, r, d, a)
    ensures r < |g.rules| && d <= |g.rules[r].rhs| && a < g.nterminal
    ensures d == |g.rules[r].rhs| ==> FindShift(t, s, a) == t.nstate + r
    ensures d < |g.rules[r].rhs| ==>
              var x := g.rules[r].rhs[d];
              Moves(g, t, s, x, Next(g, t, s, x)) && k.item(Next(g, t, s, x), r, d + 1, a)
  {
    assert ItemOk(g, t, c, k, s, r, d, a);
    if d == |g.rules[r].rhs| {
      assert Decodes(g, t, c, s, a);
    } else {
      assert Decodes(g, t, c, s, g.rules[r].rhs[d]);
    }
  }

  /** Shifting or following a goto moves the item's dot, unless the stack overflows. */
  ghost function Advance(g: Grammar, t: Tables, m: Machine, x: nat): Machine
    requires InRange(t, m.stack) && m.stack != []
  {
    Push(m, Next(g, t, Top(m.stack), x), x)
  }

  lemma AdvanceKeeps(g: Grammar, t: Tables, c: Certificate, k: Items, m: Machine, r: nat, d: nat, a: nat)
    requires At(g, t, c, k, m, r, d, a) && r < |g.rules| && d < |g.rules[r].rhs|
    ensures var m' := Advance(g, t, m, g.rules[r].rhs[d]);
            Linked(g, t, m'.stack) && (|m.stack| < STACK_DEPTH ==> At(g, t, c, k, m', r, d + 1, a))
  {
    ItemGives(g, t, c, k, Top(m.stack), r, d, a);
    var x := g.rules[r].rhs[d];
    PushKeeps(g, t, m, Next(g, t, Top(m.stack), x), x);
  }

  /** Shifting the next token is all one call of the driver does. */
  lemma ShiftTurn(g: Grammar, t: Tables, c: Certificate, m: Machine, z: seq<nat>)
    requires Certified(g, t, c) && Linked(g, t, m.stack) && m.stack != [] && z != [] && AreTokens(g, z)
    requires FindShift(t, Top(m.stack), z[0]) < t.nstate && z[0] < g.nterminal && z[0] != t.errorSymbol
    ensures var m' := Advance(g, t, m, z[0]);
            Linked(g, t, m'.stack) && FeedAll(g, t, c, m, z) == FeedAll(g, t, c, m', z[1..])
  {
    var s := Top(m.stack);
    PushKeeps(g, t, m, FindShift(t, s, z[0]), z[0]);
    assert StateOk(g, t, c, s) && Decodes(g, t, c, s, z[0]);
    assert TokenOk(g, t, c, s, z[0]);
    var l := Loop(m, Some(z[0]), z[0] == 0, false);
    assert Settle(g, t, c, l) == Settle(g, t, c, Turn(g, t, c, l));
  }

  /** The call in which the parser reduces ends as it would have from the reduced stack. */
  lemma FeedReduced(g: Grammar, t: Tables, c: Certificate, m: Machine, q: nat, a: nat)
    requires Certified(g, t, c) && Linked(g, t, m.stack) && m.stack != [] && a < g.nterminal
    requires q < t.nrule && FindShift(t, Top(m.stack), a) == t.nstate + q
    ensures t.ruleInfo[q].nrhs < |m.stack|
    ensures var m' := Reduce(t, m, q);
            && Linked(g, t, m'.stack)
            && Feed(g, t, c, m, a) == if m'.stack == [] then m' else Feed(g, t, c, m', a)
  {
    var l := Loop(m, Some(a), a == 0, false);
    ReduceKeeps(g, t, c, l);
    var l' := l.(m := Reduce(t, m, q));
    assert Iterate(t, l) == l';
    SettleTurn(g, t, c, l);
  }

  /** Reducing is a turn after which the same token is still to be fed. */
  lemma ReduceTurn(g: Grammar, t: Tables, c: Certificate, m: Machine, q: nat, z: seq<nat>)
    requires Certified(g, t, c) && Linked(g, t, m.stack) && m.stack != [] && z != [] && AreTokens(g, z)
    requires q < t.nrule && FindShift(t, Top(m.stack), z[0]) == t.nstate + q
    ensures t.ruleInfo[q].nrhs < |m.stack|
    ensures var m' := Reduce(t, m, q);
            && Linked(g, t, m'.stack)
            && FeedAll(g, t, c, m, z) == FeedAll(g, t, c, m', if m'.stack == [] then z[1..] else z)
  {
    FeedReduced(g, t, c, m, q, z[0]);
    FeedAllStep(g, t, c, m, z);
    if Reduce(t, m, q).stack != [] {
      FeedAllStep(g, t, c, Reduce(t, m, q), z);
    }
  }

  /** How many entries the stack grows by, at most, while the parser works through a tree and pushes
      its root; from kid d of a node on, the kids before it lie on the stack already. */
  function Peak(tree: Tree): (n: nat)
    ensures n >= 1
    decreases tree, 1, 0
  {
    match tree
    case Leaf(_) => 1
    case Node(_, kids) => Max(1, PeakFrom(kids, 0))
  }

  function PeakFrom(kids: seq<Tree>, d: nat): nat
    requires d <= |kids|
    decreases kids, 0, |kids| - d
  {
    if d == |kids| then 0 else Max(Peak(kids[d]), 1 + PeakFrom(kids, d + 1))
  }

  function Max(a: nat, b: nat): nat {
    if a < b then b else a
  }

  /** The stack is deep enough for the parser to work through the tree of a whole input: above the
      bottom entry it needs room for the kids of the root, which itself is never pushed. */
  predicate FitsStack(tree: Tree) {
    tree.Node? ==> 1 + PeakFrom(tree.kids, 0) <= STACK_DEPTH
  }

  /** Popping what lies above m and following the goto is advancing m over the nonterminal. */
  lemma ReduceIsAdvance(g: Grammar, t: Tables, m: Machine, m': Machine, q: nat)
    requires InRange(t, m.stack) && InRange(t, m'.stack) && m.stack != []
    requires q < |g.rules| == t.nrule && RuleFits(g, t, q)
    requires FindReduce(t, Top(m.stack), g.rules[q].lhs) < t.nstate
    requires m.stack <= m'.stack && |m'.stack| == |m.stack| + |g.rules[q].rhs|
    requires m'.ok == m.ok && m'.overflowed == m.overflowed
    ensures Reduce(t, m', q) == Advance(g, t, m, g.rules[q].lhs)
  {
    assert m'.stack[..|m'.stack| - |g.rules[q].rhs|] == m.stack;
    assert m'.(stack := m.stack) == m;
  }

  /** Once the kids of a predicted rule lie on the stack, reducing it moves the dot that
      predicted it. */
  lemma FinishNode(g: Grammar, t: Tables, c: Certificate, k: Items, m: Machine, r: nat, d: nat, a: nat, q: nat,
                   m': Machine, z: seq<nat>)
    requires At(g, t, c, k, m, r, d, a) && r < |g.rules| && d < |g.rules[r].rhs|
    requires q < |g.rules| && g.rules[q].lhs == g.rules[r].rhs[d]
    requires z != [] && AreTokens(g, z) && At(g, t, c, k, m', q, |g.rules[q].rhs|, z[0])
    requires m.stack <= m'.stack && |m'.stack| == |m.stack| + |g.rules[q].rhs|
    requires m'.ok == m.ok && m'.overflowed == m.overflowed
    ensures var m'' := Advance(g, t, m, g.rules[r].rhs[d]);
            && Linked(g, t, m''.stack)
            && if |m.stack| < STACK_DEPTH then FeedAll(g, t, c, m', z) == FeedAll(g, t, c, m'', z)
              else FeedAll(g, t, c, m', z).overflowed
  {
    AdvanceKeeps(g, t, c, k, m, r, d, a);
    assert RuleFits(g, t, q);
    ItemGives(g, t, c, k, Top(m.stack), r, d, a);
    ReduceIsAdvance(g, t, m, m', q);
    ItemGives(g, t, c, k, Top(m'.stack), q, |g.rules[q].rhs|, z[0]);
    ReduceTurn(g, t, c, m', q, z);
    if |m.stack| >= STACK_DEPTH {
      FeedAllSticky(g, t, c, Advance(g, t, m, g.rules[q].lhs), z[1..]);
    }
  }

  /** A parser that stands before kid d of a node and is fed the kid's tokens ends up past it, or
      overflows its stack if the kid needs more room than there is. */
  lemma {:induction false} RunTree(g: Grammar, t: Tables, c: Certificate, k: Items, m: Machine, tree: Tree, r: nat,
                                   d: nat, a: nat, z: seq<nat>)
    requires At(g, t, c, k, m, r, d, a) && r < |g.rules| && d < |g.rules[r].rhs|
    requires IsTree(g, tree) && Root(g, tree) == g.rules[r].rhs[d]
    requires z != [] && AreTokens(g, z) && AreTokens(g, Yield(tree) + z) && AreTokens(g, Yield(tree))
    requires Leads(g, k, r, d + 1, a, z[0]) && |m.stack| <= STACK_DEPTH
    ensures Linked(g, t, Advance(g, t, m, Root(g, tree)).stack)
    ensures if |m.stack| + Peak(tree) <= STACK_DEPTH then
              Reaches(g, t, c, m, Yield(tree), z, Advance(g, t, m, Root(g, tree)))
            else FeedAll(g, t, c, m, Yield(tree) + z).overflowed
    decreases tree, 1, 0
  {
    AdvanceKeeps(g, t, c, k, m, r, d, a);
    ItemGives(g, t, c, k, Top(m.stack), r, d, a);
    match tree
    case Leaf(x) =>
      var w := [x] + z;
      assert w[0] == x == Yield(tree)[0] && w[1..] == z;
      ShiftTurn(g, t, c, m, w);
      if |m.stack| >= STACK_DEPTH {
        FeedAllSticky(g, t, c, Advance(g, t, m, x), z);
      }
    case Node(q, kids) =>
      assert ItemOk(g, t, c, k, Top(m.stack), r, d, a);
      assert Predicted(g, k, Top(m.stack), r, d, a, q);
      assert kids[0..] == kids;
      var m' := RunKids(g, t, c, k, m, q, kids, 0, z);
      if |m.stack| + PeakFrom(kids, 0) <= STACK_DEPTH {
        FinishNode(g, t, c, k, m, r, d, a, q, m', z);
      }
  }

  lemma {:induction false} RunKids(g: Grammar, t: Tables, c: Certificate, k: Items, m: Machine, q: nat,
                                   kids: seq<Tree>, d: nat, z: seq<nat>)
    returns (m': Machine)
    requires IsTree(g, Node(q, kids)) && d <= |kids|
    requires z != [] && At(g, t, c, k, m, q, d, z[0]) && AreTokens(g, z)
    requires AreTokens(g, Yields(kids[d..])) && AreTokens(g, Yields(kids[d..]) + z)
    requires |m.stack| <= STACK_DEPTH
    ensures Linked(g, t, m'.stack)
    ensures if |m.stack| + PeakFrom(kids, d) <= STACK_DEPTH then
              && Reaches(g, t, c, m, Yields(kids[d..]), z, m') && At(g, t, c, k, m', q, |kids|, z[0])
              && |m'.stack| == |m.stack| + |kids| - d && m'.overflowed == m.overflowed
            else FeedAll(g, t, c, m, Yields(kids[d..]) + z).overflowed
    decreases kids, 0, |kids| - d
  {
    m' := m;
    if d == |kids| {
      assert Yields(kids[d..]) + z == z;
    } else {
      SplitTokens(g, kids, d, z);
      KidsFirst(g, t, c, k, q, kids, d + 1);
      RunTree(g, t, c, k, m, kids[d], q, d, z[0], Yields(kids[d + 1..]) + z);
      if |m.stack| + Peak(kids[d]) <= STACK_DEPTH {
        AdvanceKeeps(g, t, c, k, m, q, d, z[0]);
        m' := RunKids(g, t, c, k, Advance(g, t, m, g.rules[q].rhs[d]), q, kids, d + 1, z);
      }
    }
  }

  /** Completeness: on a string the start symbol derives by some tree, the parser accepts without
      overflowing its stack if the tree fits, and overflows it if not. */
  lemma Completeness(g: Grammar, t: Tables, c: Certificate, k: Items, tokens: seq<nat>, tree: Tree)
    requires Certified(g, t, c) && Closed(g, t, c, k)
    requires AreTokens(g, tokens) && tokens != [] && forall i | 0 <= i < |tokens| :: tokens[i] != 0
    requires IsTree(g, tree) && Root(g, tree) == Start(g) && Yield(tree) == tokens
    ensures var m := FeedAll(g, t, c, FRESH, tokens + [0]);
            if FitsStack(tree) then m == FRESH else m.overflowed
  {
    var m := FRESH.(stack := [Entry(0, 0)]);
    assert (tokens + [0])[0] == tokens[0];
    assert FeedAll(g, t, c, FRESH, tokens + [0]) == FeedAll(g, t, c, m, tokens + [0]);
    assert tree.Node? by {
      assert tokens[0] < g.nterminal;
    }
    assert tree.kids[0..] == tree.kids;
    var m' := RunKids(g, t, c, k, m, tree.rule, tree.kids, 0, [0]);
    if FitsStack(tree) {
      AcceptTurn(g, t, c, k, m, tree.rule, m');
    }
  }

  /** With a whole start rule on the stack and the end marker to come, the parser accepts. */
  lemma AcceptTurn(g: Grammar, t: Tables, c: Certificate, k: Items, m: Machine, q: nat, m': Machine)
    requires At(g, t, c, k, m, q, 0, 0) && m.stack == [Entry(0, 0)]
    requires q < |g.rules| && g.rules[q].lhs == Start(g)
    requires At(g, t, c, k, m', q, |g.rules[q].rhs|, 0)
    requires m.stack <= m'.stack && |m'.stack| == 1 + |g.rules[q].rhs|
    ensures FeedAll(g, t, c, m', [0]) == m'.(stack := [])
  {
    assert RuleFits(g, t, q);
    ItemGives(g, t, c, k, Top(m'.stack), q, |g.rules[q].rhs|, 0);
    assert Decodes(g, t, c, 0, Start(g));
    assert m'.stack[..|m'.stack| - |g.rules[q].rhs|] == m.stack;
    ReduceTurn(g, t, c, m', q, [0]);
  }
}
