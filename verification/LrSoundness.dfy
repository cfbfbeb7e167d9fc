/** Certified tables accept only what the grammar derives: the stack always carries parse trees
    whose yields are the tokens shifted since the parser was initialised. */
module LrSoundness {
  import opened Grammars
  import opened ParseTables
  import opened LrMachine
  import opened LrCertificate

  /** One parse tree per entry above the bottom, together yielding w. */
  ghost predicate Explains(g: Grammar, stack: seq<Entry>, trees: seq<Tree>, w: seq<nat>) {
    && |stack| == |trees| + 1
    && AreTrees(g, trees)
    && (forall i | 0 <= i < |trees| :: Root(g, trees[i]) == stack[i + 1].major)
    && Yields(trees) == w
  }

  ghost predicate Explained(g: Grammar, stack: seq<Entry>, w: seq<nat>) {
    exists trees :: Explains(g, stack, trees, w)
  }

  lemma PushTree(g: Grammar, stack: seq<Entry>, trees: seq<Tree>, w: seq<nat>, state: nat, tree: Tree)
    requires Explains(g, stack, trees, w) && IsTree(g, tree)
    ensures Explained(g, stack + [Entry(state, Root(g, tree))], w + Yield(tree))
  {
    var stack', trees' := stack + [Entry(state, Root(g, tree))], trees + [tree];
    YieldsLast(trees, tree);
    assert forall i | 0 <= i < |trees| :: trees'[i] == trees[i] && stack'[i + 1] == stack[i + 1];
    assert Explains(g, stack', trees', w + Yield(tree));
  }

  /** The trees over a popped right-hand side become the children of one node. */
  lemma Fold(g: Grammar, stack: seq<Entry>, trees: seq<Tree>, w: seq<nat>, r: nat) returns (node: Tree, rest: seq<Tree>)
    requires Explains(g, stack, trees, w) && r < |g.rules| && |g.rules[r].rhs| < |stack|
    requires forall i | 0 <= i < |g.rules[r].rhs| ::
               stack[|stack| - |g.rules[r].rhs| + i].major == g.rules[r].rhs[i]
    ensures rest == trees[..|trees| - |g.rules[r].rhs|]
    ensures IsTree(g, node) && Root(g, node) == g.rules[r].lhs
    ensures Yields(rest) + Yield(node) == w
  {
    var n := |trees| - |g.rules[r].rhs|;
    rest, node := trees[..n], Node(r, trees[n..]);
    assert Roots(g, trees[n..]) == g.rules[r].rhs;
    assert trees == rest + trees[n..];
    YieldsConcat(rest, trees[n..]);
  }

  /** A reduction rearranges the trees and keeps their yield; accepting leaves exactly one,
      rooted in the start symbol. */
  lemma ReduceExplained(g: Grammar, t: Tables, c: Certificate, l: Loop, w: seq<nat>)
    requires Running(g, t, c, l) && l.la.Some? && l.m.stack != [] && Explained(g, l.m.stack, w)
    requires t.nstate <= FindShift(t, Top(l.m.stack), l.la.value) < t.ErrorAction()
    ensures var r := FindShift(t, Top(l.m.stack), l.la.value) - t.nstate;
            && t.ruleInfo[r].nrhs < |l.m.stack|
            && var m := Reduce(t, l.m, r);
               && m.ok == l.m.ok
               && (m.stack != [] ==> Explained(g, m.stack, w) && m.overflowed == l.m.overflowed)
               && (m.stack == [] && !m.overflowed ==> l.la.value == 0 && Derives(g, Start(g), w))
  {
    var stack := l.m.stack;
    var r := FindShift(t, Top(stack), l.la.value) - t.nstate;
    assert RuleFits(g, t, r);
    ReductionFits(g, t, c, stack, l.la.value);
    var trees :| Explains(g, stack, trees, w);
    var node, rest := Fold(g, stack, trees, w, r);
    var under := stack[..|stack| - t.ruleInfo[r].nrhs];
    var goto := FindReduce(t, Top(under), g.rules[r].lhs);
    assert Decodes(g, t, c, Top(under), g.rules[r].lhs);
    if goto < t.nstate {
      assert Explains(g, under, rest, Yields(rest));
      PushTree(g, under, rest, Yields(rest), goto, node);
    } else {
      LinkedPrefix(g, t, stack, |under|);
      if |under| > 1 { ZeroAtBottom(g, t, c, under, |under| - 1); }
      assert rest == [];
    }
  }

  /** A syntax error fails the parse: nothing on the stack can shift the error symbol. */
  lemma ErrorFails(g: Grammar, t: Tables, c: Certificate, l: Loop)
    requires Running(g, t, c, l) && l.la.Some? && l.m.stack != [] && !l.errorHit
    requires FindShift(t, Top(l.m.stack), l.la.value) == t.ErrorAction()
    ensures !Settle(g, t, c, l).ok
  {
    PopsAll(g, t, c, l.m.stack);
    var n := |l.m.stack| - 1;
    assert n > 0 ==> LinkedAt(g, t, l.m.stack, n);
    TurnKeeps(g, t, c, l);
    SettleTurn(g, t, c, l);
  }

  /** A shift consumes the token. */
  lemma ShiftSound(g: Grammar, t: Tables, c: Certificate, l: Loop, w: seq<nat>)
    requires Running(g, t, c, l) && l.la.Some? && l.m.stack != [] && Explained(g, l.m.stack, w)
    requires FindShift(t, Top(l.m.stack), l.la.value) < t.nstate
    ensures !l.atEnd
    ensures var m := Settle(g, t, c, l);
            !m.overflowed ==> m.stack != [] && Explained(g, m.stack, w + [l.la.value])
  {
    var s, x := Top(l.m.stack), l.la.value;
    assert StateOk(g, t, c, s) && Decodes(g, t, c, s, x);
    assert TokenOk(g, t, c, s, x);
    TurnKeeps(g, t, c, l);
    SettleTurn(g, t, c, l);
    var trees :| Explains(g, l.m.stack, trees, w);
    PushTree(g, l.m.stack, trees, w, FindShift(t, s, x), Leaf(x));
  }

  /** One call's loop: the token is shifted, or at the end of the input the parser accepts what
      the start symbol derives, or it has failed or overflowed. */
  lemma {:induction false} SettleSound(g: Grammar, t: Tables, c: Certificate, l: Loop, w: seq<nat>)
    requires Running(g, t, c, l) && l.la.Some? && !l.errorHit
    requires l.m.stack != [] && Explained(g, l.m.stack, w)
    ensures var m := Settle(g, t, c, l);
            m.ok && !m.overflowed ==>
              if l.atEnd then m.stack == [] && Derives(g, Start(g), w)
              else m.stack != [] && Explained(g, m.stack, w + [l.la.value])
    decreases Measure(c, l)
  {
    var act := FindShift(t, Top(l.m.stack), l.la.value);
    TurnKeeps(g, t, c, l);
    if act < t.nstate {
      ShiftSound(g, t, c, l, w);
    } else if act == t.ErrorAction() {
      ErrorFails(g, t, c, l);
    } else {
      ReduceExplained(g, t, c, l, w);
      SettleTurn(g, t, c, l);
      var l' := l.(m := Reduce(t, l.m, act - t.nstate));
      assert Iterate(t, l) == l';
      if l'.m.stack != [] {
        SettleSound(g, t, c, l', w);
      }
    }
  }

  lemma TurnSticky(t: Tables, l: Loop)
    requires l.la.Some? && CanAct(t, l.m.stack, l.la.value)
    ensures var m := Iterate(t, l).m;
            (m.ok ==> l.m.ok) && (l.m.overflowed ==> m.overflowed)
  {
  }

  /** No call undoes a failure or an overflow. */
  lemma {:induction false} SettleSticky(g: Grammar, t: Tables, c: Certificate, l: Loop)
    requires Running(g, t, c, l)
    ensures Settle(g, t, c, l).ok ==> l.m.ok
    ensures l.m.overflowed ==> Settle(g, t, c, l).overflowed
    decreases Measure(c, l)
  {
    if l.la.Some? && l.m.stack != [] {
      TurnKeeps(g, t, c, l);
      TurnSticky(t, l);
      SettleSticky(g, t, c, Turn(g, t, c, l));
    }
  }

  /** Unless it has failed or overflowed, the parser has shifted exactly w. */
  ghost predicate Consumed(g: Grammar, m: Machine, w: seq<nat>) {
    m.ok && !m.overflowed ==> if m.stack == [] then w == [] else Explained(g, m.stack, w)
  }

  lemma FeedSound(g: Grammar, t: Tables, c: Certificate, m: Machine, w: seq<nat>, token: nat)
    requires Certified(g, t, c) && Linked(g, t, m.stack) && token < g.nterminal && Consumed(g, m, w)
    ensures var m' := Feed(g, t, c, m, token);
            if token != 0 then Consumed(g, m', w + [token])
            else m'.ok && !m'.overflowed ==> m'.stack == [] && (w == [] || Derives(g, Start(g), w))
  {
    if m.stack != [] || token != 0 {
      var m0 := if m.stack == [] then m.(stack := [Entry(0, 0)]) else m;
      var l := Loop(m0, Some(token), token == 0, false);
      SettleSticky(g, t, c, l);
      if m.ok && !m.overflowed {
        if m.stack == [] { assert Explains(g, m0.stack, [], w); }
        SettleSound(g, t, c, l, w);
      }
    }
  }

  lemma {:induction false} FeedAllSound(g: Grammar, t: Tables, c: Certificate, tokens: seq<nat>)
    requires Certified(g, t, c) && AreTokens(g, tokens) && forall i | 0 <= i < |tokens| :: tokens[i] != 0
    ensures Consumed(g, FeedAll(g, t, c, FRESH, tokens), tokens)
    decreases |tokens|
  {
    if tokens != [] {
      var n := |tokens| - 1;
      FeedAllSound(g, t, c, tokens[..n]);
      FeedSound(g, t, c, FeedAll(g, t, c, FRESH, tokens[..n]), tokens[..n], tokens[n]);
      FeedAllSnoc(g, t, c, FRESH, tokens[..n], tokens[n]);
      assert tokens[..n] + [tokens[n]] == tokens;
    }
  }

  /** Soundness: if the run over the tokens and the end marker neither failed nor overflowed the
      stack, the start symbol derives the whole input (an empty input starts no parse at all). */
  lemma Soundness(g: Grammar, t: Tables, c: Certificate, tokens: seq<nat>)
    requires Certified(g, t, c) && AreTokens(g, tokens) && forall i | 0 <= i < |tokens| :: tokens[i] != 0
    ensures var m := FeedAll(g, t, c, FRESH, tokens + [0]);
            m.ok && !m.overflowed ==> m.stack == [] && (tokens == [] || Derives(g, Start(g), tokens))
  {
    FeedAllSound(g, t, c, tokens);
    FeedAllSnoc(g, t, c, FRESH, tokens, 0);
    FeedSound(g, t, c, FeedAll(g, t, c, FRESH, tokens), tokens, 0);
  }
}
