/** What the driver's silent stack overflow does to the verdict: the parser forgets everything
    it has been fed. */
module LrOverflow {
  import opened Grammars
  import opened ParseTables
  import opened LrMachine
  import opened LrCertificate

  function Flagged(m: Machine): Machine {
    m.(overflowed := true)
  }

  lemma ReduceFlagged(t: Tables, m: Machine, r: nat)
    requires InRange(t, m.stack) && r < t.nrule && t.ruleInfo[r].nrhs < |m.stack|
    ensures Reduce(t, Flagged(m), r) == Flagged(Reduce(t, m, r))
  {
    assert Flagged(m).stack == m.stack;
  }

  lemma RecoverFlagged(t: Tables, l: Loop)
    requires l.la.Some? && l.m.stack != [] && InRange(t, l.m.stack)
    ensures Recover(t, l.(m := Flagged(l.m))) == Recover(t, l).(m := Flagged(Recover(t, l).m))
  {
    assert Flagged(l.m).stack == l.m.stack;
  }

  /** No action looks at the flag. */
  lemma TurnFlagged(t: Tables, l: Loop)
    requires l.la.Some? && CanAct(t, l.m.stack, l.la.value)
    ensures CanAct(t, Flagged(l.m).stack, l.la.value)
    ensures Iterate(t, l.(m := Flagged(l.m))) == Iterate(t, l).(m := Flagged(Iterate(t, l).m))
  {
    var act := FindShift(t, Top(l.m.stack), l.la.value);
    if t.nstate <= act < t.nstate + t.nrule {
      ReduceFlagged(t, l.m, act - t.nstate);
    } else if act == t.ErrorAction() {
      RecoverFlagged(t, l);
    }
  }

  lemma {:induction false} SettleFlagged(g: Grammar, t: Tables, c: Certificate, l: Loop)
    requires Running(g, t, c, l)
    ensures Running(g, t, c, l.(m := Flagged(l.m)))
    ensures Settle(g, t, c, l.(m := Flagged(l.m))) == Flagged(Settle(g, t, c, l))
    decreases Measure(c, l)
  {
    SettleTurn(g, t, c, l);
    SettleTurn(g, t, c, l.(m := Flagged(l.m)));
    if l.la.Some? && l.m.stack != [] {
      TurnKeeps(g, t, c, l);
      TurnFlagged(t, l);
      SettleFlagged(g, t, c, Iterate(t, l));
    }
  }

  lemma {:induction false} FeedAllFlagged(g: Grammar, t: Tables, c: Certificate, m: Machine, tokens: seq<nat>)
    requires Certified(g, t, c) && Linked(g, t, m.stack) && AreTokens(g, tokens)
    ensures FeedAll(g, t, c, Flagged(m), tokens) == Flagged(FeedAll(g, t, c, m, tokens))
    decreases |tokens|
  {
    if tokens != [] {
      var x := tokens[0];
      if m.stack != [] || x != 0 {
        var m0 := if m.stack == [] then m.(stack := [Entry(0, 0)]) else m;
        SettleFlagged(g, t, c, Loop(m0, Some(x), x == 0, false));
      }
      assert Feed(g, t, c, Flagged(m), x) == Flagged(Feed(g, t, c, m, x));
      FeedAllFlagged(g, t, c, Feed(g, t, c, m, x), tokens[1..]);
    }
  }

  lemma {:induction false} FeedAllConcat(g: Grammar, t: Tables, c: Certificate, m: Machine, u: seq<nat>, v: seq<nat>)
    requires Certified(g, t, c) && Linked(g, t, m.stack) && AreTokens(g, u) && AreTokens(g, v) && AreTokens(g, u + v)
    ensures FeedAll(g, t, c, m, u + v) == FeedAll(g, t, c, FeedAll(g, t, c, m, u), v)
    decreases |u|
  {
    if u == [] {
      assert u + v == v;
    } else {
      assert (u + v)[1..] == u[1..] + v;
      FeedAllConcat(g, t, c, Feed(g, t, c, m, u[0]), u[1..], v);
    }
  }

  /** If u overflows the stack without an earlier failure, the verdict on u followed by v is the
      verdict on v alone. */
  lemma OverflowForgets(g: Grammar, t: Tables, c: Certificate, u: seq<nat>, v: seq<nat>)
    requires Certified(g, t, c) && AreTokens(g, u) && AreTokens(g, v) && AreTokens(g, u + v)
    requires FeedAll(g, t, c, FRESH, u) == Machine([], true, true)
    ensures FeedAll(g, t, c, FRESH, u + v) == FeedAll(g, t, c, FRESH, v).(overflowed := true)
  {
    FeedAllConcat(g, t, c, FRESH, u, v);
    FeedAllFlagged(g, t, c, FRESH, v);
  }

  function Repeat(x: nat, k: nat): (w: seq<nat>)
    ensures |w| == k && forall i | 0 <= i < k :: w[i] == x
  {
    if k == 0 then [] else [x] + Repeat(x, k - 1)
  }

  /** One call that shifts. */
  lemma FeedShifted(g: Grammar, t: Tables, c: Certificate, m: Machine, x: nat)
    requires Certified(g, t, c) && Linked(g, t, m.stack) && m.stack != [] && x < g.nterminal
    requires FindShift(t, Top(m.stack), x) < t.nstate
    ensures x != 0
    ensures var m' := Push(m, FindShift(t, Top(m.stack), x), x);
            Linked(g, t, m'.stack) && Feed(g, t, c, m, x) == m'
  {
    var s := Top(m.stack);
    assert StateOk(g, t, c, s) && Decodes(g, t, c, s, x);
    assert TokenOk(g, t, c, s, x);
    PushKeeps(g, t, m, FindShift(t, s, x), x);
    SettleTurn(g, t, c, Loop(m, Some(x), x == 0, false));
    TurnKeeps(g, t, c, Loop(m, Some(x), x == 0, false));
  }

  /** A token that keeps being shifted fills the stack and overflows it. */
  lemma {:induction false} RepeatOverflows(g: Grammar, t: Tables, c: Certificate, m: Machine, x: nat, q: nat, k: nat)
    requires Certified(g, t, c) && Linked(g, t, m.stack) && m.stack != [] && x < g.nterminal
    requires q < t.nstate && FindShift(t, Top(m.stack), x) == q == FindShift(t, q, x)
    requires |m.stack| + k == STACK_DEPTH + 1 && k > 0
    ensures FeedAll(g, t, c, m, Repeat(x, k)) == m.(stack := [], overflowed := true)
    decreases k
  {
    FeedShifted(g, t, c, m, x);
    FeedAllStep(g, t, c, m, Repeat(x, k));
    assert Repeat(x, k)[1..] == Repeat(x, k - 1);
    if k > 1 {
      RepeatOverflows(g, t, c, Push(m, q, x), x, q, k - 1);
    }
  }

  /** The height of the stack and the reductions that may still push onto it. */
  ghost function Potential(c: Certificate, m: Machine): nat {
    if m.stack == [] then 0 else |m.stack| + c.rank(Top(m.stack))
  }

  ghost predicate Ranked(c: Certificate, w: nat) {
    forall s :: c.rank(s) <= w
  }

  /** A reduction lowers the potential and finds room on the stack. */
  lemma ReduceBounded(g: Grammar, t: Tables, c: Certificate, l: Loop, r: nat)
    requires Running(g, t, c, l) && l.la.Some? && l.m.stack != [] && Potential(c, l.m) < STACK_DEPTH
    requires r < t.nrule && FindShift(t, Top(l.m.stack), l.la.value) == t.nstate + r
    ensures t.ruleInfo[r].nrhs < |l.m.stack|
    ensures var m := Reduce(t, l.m, r); m.overflowed == l.m.overflowed && Potential(c, m) < Potential(c, l.m)
  {
    var stack := l.m.stack;
    ReductionFits(g, t, c, stack, l.la.value);
    assert RuleFits(g, t, r);
    var rest := stack[..|stack| - t.ruleInfo[r].nrhs];
    assert Decodes(g, t, c, Top(rest), g.rules[r].lhs);
  }

  /** One call raises the potential by no more than one shift does. */
  lemma {:induction false} SettleBounded(g: Grammar, t: Tables, c: Certificate, l: Loop, w: nat)
    requires Running(g, t, c, l) && l.la.Some? && l.m.stack != [] && Ranked(c, w) && Potential(c, l.m) < STACK_DEPTH
    ensures var m := Settle(g, t, c, l); m.overflowed == l.m.overflowed && Potential(c, m) <= Potential(c, l.m) + 1 + w
    decreases Measure(c, l)
  {
    var act := FindShift(t, Top(l.m.stack), l.la.value);
    TurnKeeps(g, t, c, l);
    if act < t.nstate {
      ShiftEnds(g, t, c, l);
    } else if act < t.ErrorAction() {
      ReduceBounded(g, t, c, l, act - t.nstate);
      var l' := l.(m := Reduce(t, l.m, act - t.nstate));
      ReduceGoesOn(g, t, c, l, l');
      if l'.m.stack != [] { SettleBounded(g, t, c, l', w); }
    } else {
      ErrorEnds(g, t, c, l);
    }
  }

  lemma ReduceGoesOn(g: Grammar, t: Tables, c: Certificate, l: Loop, l': Loop)
    requires Running(g, t, c, l) && l.la.Some? && l.m.stack != []
    requires CanAct(t, l.m.stack, l.la.value) && t.nstate <= FindShift(t, Top(l.m.stack), l.la.value) < t.ErrorAction()
    requires l' == l.(m := Reduce(t, l.m, FindShift(t, Top(l.m.stack), l.la.value) - t.nstate))
    ensures Running(g, t, c, l') && Measure(c, l') < Measure(c, l)
    ensures Settle(g, t, c, l) == if l'.m.stack == [] then l'.m else Settle(g, t, c, l')
  {
    TurnKeeps(g, t, c, l);
    assert Iterate(t, l) == l';
    SettleTurn(g, t, c, l);
    SettleTurn(g, t, c, l');
  }

  lemma ErrorEnds(g: Grammar, t: Tables, c: Certificate, l: Loop)
    requires Running(g, t, c, l) && l.la.Some? && l.m.stack != []
    requires FindShift(t, Top(l.m.stack), l.la.value) == t.ErrorAction()
    ensures var m := Settle(g, t, c, l); m.overflowed == l.m.overflowed && (m.stack == [] || m.stack == l.m.stack)
    ensures !l.errorHit ==> Settle(g, t, c, l).stack == []
  {
    var n := |l.m.stack| - 1;
    assert n > 0 ==> LinkedAt(g, t, l.m.stack, n);
    TurnKeeps(g, t, c, l);
    PopsAll(g, t, c, l.m.stack);
    var l' := Iterate(t, l);
    SettleTurn(g, t, c, l);
    SettleTurn(g, t, c, l');
  }

  lemma ShiftEnds(g: Grammar, t: Tables, c: Certificate, l: Loop)
    requires Running(g, t, c, l) && l.la.Some? && l.m.stack != [] && FindShift(t, Top(l.m.stack), l.la.value) < t.nstate
    ensures Settle(g, t, c, l) == Push(l.m, FindShift(t, Top(l.m.stack), l.la.value), l.la.value)
  {
    var s := Top(l.m.stack);
    assert StateOk(g, t, c, s) && Decodes(g, t, c, s, l.la.value);
    assert TokenOk(g, t, c, s, l.la.value);
    TurnKeeps(g, t, c, l);
    SettleTurn(g, t, c, l);
  }

  /** What n tokens can raise the potential to. */
  function Budget(n: nat, w: nat): nat {
    1 + w + if n == 0 then 0 else Budget(n - 1, w)
  }

  lemma OneCallBounded(g: Grammar, t: Tables, c: Certificate, m: Machine, token: nat, w: nat)
    requires Certified(g, t, c) && Linked(g, t, m.stack) && token < g.nterminal && Ranked(c, w)
    requires Potential(c, m) < STACK_DEPTH && 1 + w < STACK_DEPTH
    ensures var m' := Feed(g, t, c, m, token);
      m'.overflowed == m.overflowed && Potential(c, m') <= 1 + w + if m.stack == [] then 1 + w else Potential(c, m)
  {
    if m.stack != [] || token != 0 {
      var m0 := if m.stack == [] then m.(stack := [Entry(0, 0)]) else m;
      SettleBounded(g, t, c, Loop(m0, Some(token), token == 0, false), w);
    }
  }

  /** No input of few tokens overflows the stack, whether or not the grammar derives it. */
  lemma {:induction false} FewTokensFit(g: Grammar, t: Tables, c: Certificate, tokens: seq<nat>, w: nat)
    requires Certified(g, t, c) && AreTokens(g, tokens) && Ranked(c, w)
    requires tokens != [] ==> Budget(|tokens| - 1, w) < STACK_DEPTH
    ensures var m := FeedAll(g, t, c, FRESH, tokens);
      !m.overflowed && Potential(c, m) <= Budget(|tokens|, w)
    decreases |tokens|
  {
    if tokens != [] {
      var n := |tokens| - 1;
      FewTokensFit(g, t, c, tokens[..n], w);
      FeedAllSnoc(g, t, c, FRESH, tokens[..n], tokens[n]);
      assert tokens[..n] + [tokens[n]] == tokens;
      OneCallBounded(g, t, c, FeedAll(g, t, c, FRESH, tokens[..n]), tokens[n], w);
    }
  }
}
