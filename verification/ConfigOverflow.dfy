/** The one way the shipped parser can report success on something that is no configuration. */
module ConfigOverflow {
  import opened Grammars
  import opened ParseTables
  import opened LrMachine
  import opened LrCertificate
  import opened LrCompleteness
  import opened LrOverflow
  import opened LrNesting
  import opened ConfigTables
  import opened ConfigChecks
  import opened ConfigGrammars
  import opened ConfigProof

  const INCLUDE := 24
  const LPARAN := 8

  /** Every rule opens as many brackets as it closes. */
  lemma RuleBalanced(r: nat)
    requires r < 40
    ensures BracketAt(RuleAt(r).lhs) == 0 && Balance(BracketAt, RuleAt(r).rhs) == 0
  {
    RuleShape(r);
    LhsInRange(r);
    if r == 18 {
      BalanceOfTwo(8, 9);
    } else if r == 19 {
      BalanceOfTwo(8, 39);
      assert [8, 39, 9][..2] == [8, 39];
    } else if r == 28 || r == 31 {
      var x := SymAt(r, 0);
      RuleSymbol(r, 0);
      assert RuleAt(r).rhs == [x, 13, 28, 14];
      BalanceOfTwo(x, 13);
      assert [x, 13, 28][..2] == [x, 13];
      assert [x, 13, 28, 14][..3] == [x, 13, 28];
    } else {
      forall d | 0 <= d < LenAt(r)
        ensures BracketAt(RuleAt(r).rhs[d]) == 0
      {
        RuleSymbol(r, d);
        NoBrackets(r, d);
      }
      Weightless(RuleAt(r).rhs);
    }
  }

  lemma BalanceOfTwo(x: nat, y: nat)
    ensures Balance(BracketAt, [x, y]) == BracketAt(x) + BracketAt(y)
  {
    assert [x][..0] == [];
    BalanceConcat(BracketAt, [x], [y]);
    assert [y][..0] == [] && [x] + [y] == [x, y];
  }

  lemma NoBrackets(r: nat, d: nat)
    requires r != 18 && r != 19 && r != 28 && r != 31 && d < LenAt(r)
    ensures BracketAt(SymAt(r, d)) == 0
  {}

  lemma {:induction false} Weightless(w: seq<nat>)
    requires forall d | 0 <= d < |w| :: BracketAt(w[d]) == 0
    ensures Balance(BracketAt, w) == 0
  {
    if w != [] {
      Weightless(w[..|w| - 1]);
    }
  }

  lemma {:induction false} TreeBalanced(t: Tree)
    requires IsTree(ConfigGrammar(), t)
    ensures Balance(BracketAt, Yield(t)) == BracketAt(Root(ConfigGrammar(), t))
  {
    match t
    case Leaf(x) => assert [x][..0] == [];
    case Node(r, kids) =>
      RuleBalanced(r);
      TreesBalanced(kids);
  }

  lemma {:induction false} TreesBalanced(ts: seq<Tree>)
    requires AreTrees(ConfigGrammar(), ts)
    ensures Balance(BracketAt, Yields(ts)) == Balance(BracketAt, Roots(ConfigGrammar(), ts))
  {
    if ts != [] {
      var root, roots := [Root(ConfigGrammar(), ts[0])], Roots(ConfigGrammar(), ts[1..]);
      TreeBalanced(ts[0]);
      TreesBalanced(ts[1..]);
      BalanceConcat(BracketAt, Yield(ts[0]), Yields(ts[1..]));
      BalanceConcat(BracketAt, root, roots);
      assert Roots(ConfigGrammar(), ts) == root + roots;
      assert root[..0] == [];
    }
  }

  /** include followed by k opening parentheses. */
  function Nested(k: nat): (w: seq<nat>)
    ensures IsConfigInput(w)
  {
    [INCLUDE] + Repeat(LPARAN, k)
  }

  lemma {:induction false} RepeatBalance(k: nat)
    ensures Balance(BracketAt, Repeat(LPARAN, k)) == k
  {
    if k > 0 {
      RepeatBalance(k - 1);
      BalanceConcat(BracketAt, [LPARAN], Repeat(LPARAN, k - 1));
      assert [LPARAN][..0] == [];
    }
  }

  lemma NestedNotDerived(k: nat)
    requires k > 0
    ensures !Derives(ConfigGrammar(), INPUT, Nested(k))
  {
    RepeatBalance(k);
    BalanceConcat(BracketAt, [INCLUDE], Repeat(LPARAN, k));
    assert [INCLUDE][..0] == [];
    if Derives(ConfigGrammar(), INPUT, Nested(k)) {
      var tree :| IsTree(ConfigGrammar(), tree) && Root(ConfigGrammar(), tree) == INPUT && Yield(tree) == Nested(k);
      TreeBalanced(tree);
    }
  }

  /** What the shipped parser is left with after the tokens. */
  ghost function Verdict(tokens: seq<nat>): Machine
    requires AreTokens(ConfigGrammar(), tokens)
  {
    ConfigCertified();
    FeedAll(ConfigGrammar(), ConfigParserTables(), StackClaims(), FRESH, tokens)
  }

  /** A fresh parser on `include`, for any tables with these entries: an empty rule is reduced
      and the token shifted. */
  lemma AfterInclude(g: Grammar, t: Tables, c: Certificate)
    requires Certified(g, t, c) && INCLUDE < g.nterminal && t.nstate == 63 && t.nrule == 40
    requires t.ruleInfo[2] == RuleInfo(28, 0)
    requires FindShift(t, 0, INCLUDE) == 65 && FindReduce(t, 0, 28) == 1 && FindShift(t, 1, INCLUDE) == 58
    ensures Feed(g, t, c, FRESH, INCLUDE)
         == Machine([Entry(0, 0), Entry(1, 28), Entry(58, INCLUDE)], true, false)
  {
    var s0, s1 := [Entry(0, 0)], [Entry(0, 0), Entry(1, 28)];
    var m0, m1 := Machine(s0, true, false), Machine(s1, true, false);
    assert s0[..1] == s0 && s0 + [Entry(1, 28)] == s1 &&
      s1 + [Entry(58, INCLUDE)] == [Entry(0, 0), Entry(1, 28), Entry(58, INCLUDE)];
    FeedReduced(g, t, c, m0, 2, INCLUDE);
    assert Reduce(t, m0, 2) == m1;
    FeedShifted(g, t, c, m1, INCLUDE);
  }

  /** Enough open parentheses overflow the stack, again for any tables with these entries. */
  lemma NestedOverflows(g: Grammar, t: Tables, c: Certificate, k: nat)
    requires Certified(g, t, c) && INCLUDE < g.nterminal && LPARAN < g.nterminal && t.nstate == 63 && t.nrule == 40
    requires t.ruleInfo[2] == RuleInfo(28, 0)
    requires FindShift(t, 0, INCLUDE) == 65 && FindReduce(t, 0, 28) == 1 && FindShift(t, 1, INCLUDE) == 58
    requires FindShift(t, 58, LPARAN) == 26 && FindShift(t, 26, LPARAN) == 26
    requires k + 2 == STACK_DEPTH
    ensures AreTokens(g, Nested(k)) && FeedAll(g, t, c, FRESH, Nested(k)) == Machine([], true, true)
  {
    AfterInclude(g, t, c);
    FeedAllStep(g, t, c, FRESH, Nested(k));
    assert Nested(k)[1..] == Repeat(LPARAN, k);
    RepeatOverflows(g, t, c, Feed(g, t, c, FRESH, INCLUDE), LPARAN, 26, k);
  }

  lemma ShippedEntries(t: Tables)
    requires t == ConfigParserTables()
    ensures t.ruleInfo[2] == RuleInfo(28, 0)
    ensures FindShift(t, 0, INCLUDE) == 65 && FindReduce(t, 0, 28) == 1 && FindShift(t, 1, INCLUDE) == 58
    ensures FindShift(t, 58, LPARAN) == 26 && FindShift(t, 26, LPARAN) == 26
  {
    NestedEntries();
    RuleShape(2);
    TablesDecode(0, INCLUDE);
    TablesDecode(0, 28);
    TablesDecode(1, INCLUDE);
    TablesDecode(58, LPARAN);
    TablesDecode(26, LPARAN);
  }

  /** Ninety-eight open parentheses overflow the stack: at the end of the input `ok` is still
      set, although no configuration has unbalanced parentheses. */
  lemma OverflowAccepts(k: nat)
    requires k + 2 == STACK_DEPTH
    ensures Verdict(Nested(k) + [0]) == Machine([], true, true) && !Derives(ConfigGrammar(), INPUT, Nested(k))
  {
    var g, t, c := ConfigGrammar(), ConfigParserTables(), StackClaims();
    ConfigCertified();
    ShippedEntries(t);
    NestedOverflows(g, t, c, k);
    FeedAllSnoc(g, t, c, FRESH, Nested(k), 0);
    NestedNotDerived(k);
  }

  lemma RanksBounded()
    ensures Ranked(StackClaims(), 5)
  {}

  lemma {:induction false} BudgetUpTo(n: nat)
    ensures Budget(n, 5) == 6 * (n + 1)
  {
    if n > 0 { BudgetUpTo(n - 1); }
  }

  /** No input of fewer than 16 tokens overflows the stack, be it a configuration or not; so the
      verdict on it is right. */
  lemma ShortInputs(tokens: seq<nat>)
    requires IsConfigInput(tokens) && |tokens| < 16
    ensures !Outcome(tokens).overflowed && (Outcome(tokens).ok <==> Derives(ConfigGrammar(), INPUT, tokens))
  {
    ConfigCertified();
    RanksBounded();
    BudgetUpTo(|tokens|);
    FewTokensFit(ConfigGrammar(), ConfigParserTables(), StackClaims(), tokens + [0], 5);
    ShippedParserDecides(tokens);
  }

  /** What the verdict means when the stack overflows after u without an earlier failure: it is
      the verdict on the tokens fed since. */
  lemma VerdictAfterOverflow(u: seq<nat>, v: seq<nat>)
    requires IsConfigInput(u) && IsConfigInput(v)
    requires Verdict(u) == Machine([], true, true) && !Verdict(v + [0]).overflowed
    ensures AreTokens(ConfigGrammar(), u + (v + [0]))
    ensures Verdict(u + (v + [0])).ok <==> Derives(ConfigGrammar(), INPUT, v)
  {
    ConfigCertified();
    ShippedParserDecides(v);
    OverflowForgets(ConfigGrammar(), ConfigParserTables(), StackClaims(), u, v + [0]);
  }
}
