/** A locally checkable certificate for parser tables. Under it every call of the driver
    terminates, which makes the whole run of the parser a function of its tokens. */
module LrCertificate {
  import opened Grammars
  import opened ParseTables
  import opened LrMachine

  /** The automaton the packed tables stand for (an action for each state and terminal, a goto
      for each state and nonterminal), and claims about its states: whenever s is the current
      state, past(s, k) for k below depth(s) is certain to be the symbol k entries below the top
      of the stack, the state below that symbol satisfies under(s, k, p), and rank(s) bounds the
      reductions to come. */
  datatype Certificate = Certificate(
    act: (nat, nat) -> nat,
    goto: (nat, nat) -> nat,
    depth: nat -> nat,
    past: (nat, nat) -> nat,
    under: (nat, nat, nat) -> bool,
    rank: nat -> nat)

  /** The symbol whose rules come first is the start symbol. */
  function Start(g: Grammar): nat
    requires g.rules != []
  {
    g.rules[0].lhs
  }

  ghost predicate RuleFits(g: Grammar, t: Tables, r: nat)
    requires r < |g.rules| && r < |t.ruleInfo|
  {
    && t.ruleInfo[r] == RuleInfo(g.rules[r].lhs, |g.rules[r].rhs|)
    && g.nterminal <= g.rules[r].lhs < g.nsymbol
    && g.rules[r].lhs != t.errorSymbol
  }

  ghost predicate Fits(g: Grammar, t: Tables, c: Certificate) {
    && t.Shaped() && t.nstate > 0 && c.depth(0) == 0
    && |g.rules| == t.nrule > 0 && 0 < g.nterminal <= t.errorSymbol < g.nsymbol <= t.noCode
    && (forall r | 0 <= r < t.nrule :: RuleFits(g, t, r))
  }

  ghost predicate IsTerminal(g: Grammar, t: Tables, x: nat) {
    x < g.nterminal || x == t.errorSymbol
  }

  /** Reading the packed tables gives the automaton back. */
  ghost predicate Decodes(g: Grammar, t: Tables, c: Certificate, s: nat, x: nat)
    requires t.Shaped() && s < t.nstate
  {
    if IsTerminal(g, t, x) then FindShift(t, s, x) == c.act(s, x) else FindReduce(t, s, x) == c.goto(s, x)
  }

  /** What is certain k entries down in state s is certain one entry further down in s'. */
  ghost predicate Covers(c: Certificate, s: nat, s': nat, k: nat) {
    c.past(s', k + 1) == c.past(s, k) && forall p | c.under(s, k, p) :: c.under(s', k + 1, p)
  }

  /** Pushing x in state s leads to s'. */
  ghost predicate MoveKept(c: Certificate, s: nat, x: nat, s': nat) {
    && s' != 0
    && c.depth(s') <= 1 + c.depth(s)
    && (c.depth(s') > 0 ==> c.past(s', 0) == x && c.under(s', 0, s))
    && forall k | 0 <= k < c.depth(s') - 1 :: Covers(c, s, s', k)
  }

  /** Reducing by r in state s on lookahead la, with p the state uncovered. */
  ghost predicate GotoOk(g: Grammar, t: Tables, c: Certificate, s: nat, r: nat, p: nat, la: nat)
    requires Fits(g, t, c) && r < t.nrule && s < t.nstate
  {
    && p < t.nstate
    && var goto := c.goto(p, g.rules[r].lhs);
       || (goto < t.nstate && 1 + c.rank(goto) < |g.rules[r].rhs| + c.rank(s))
       || (goto == t.AcceptAction() && p == 0 && la == 0 && g.rules[r].lhs == Start(g))
  }

  ghost predicate ReduceOk(g: Grammar, t: Tables, c: Certificate, s: nat, r: nat, la: nat)
    requires Fits(g, t, c) && s < t.nstate && r < t.nrule
  {
    var rhs := g.rules[r].rhs;
    && |rhs| <= c.depth(s)
    && (forall i | 0 <= i < |rhs| :: c.past(s, i) == rhs[|rhs| - 1 - i])
    && if rhs == [] then GotoOk(g, t, c, s, r, s, la)
       else forall p | c.under(s, |rhs| - 1, p) :: GotoOk(g, t, c, s, r, p, la)
  }

  ghost predicate TokenOk(g: Grammar, t: Tables, c: Certificate, s: nat, x: nat)
    requires Fits(g, t, c) && s < t.nstate
  {
    var act := c.act(s, x);
    && act <= t.ErrorAction()
    && (act < t.nstate ==> x != 0 && MoveKept(c, s, x, act))
    && (t.nstate <= act < t.ErrorAction() ==> ReduceOk(g, t, c, s, act - t.nstate, x))
  }

  ghost predicate GotoKept(g: Grammar, t: Tables, c: Certificate, s: nat, x: nat)
    requires Fits(g, t, c) && s < t.nstate
  {
    var goto := c.goto(s, x);
    goto < t.nstate ==> MoveKept(c, s, x, goto)
  }

  ghost predicate StateOk(g: Grammar, t: Tables, c: Certificate, s: nat)
    requires Fits(g, t, c) && s < t.nstate
  {
    && (forall x | 0 <= x < g.nterminal :: TokenOk(g, t, c, s, x))
    && (forall x | g.nterminal <= x < g.nsymbol && x != t.errorSymbol :: GotoKept(g, t, c, s, x))
    && c.act(s, t.errorSymbol) >= t.nstate
  }

  /** The tables pass every local check, state by state. */
  ghost predicate Certified(g: Grammar, t: Tables, c: Certificate) {
    && Fits(g, t, c)
    && (forall s, x | 0 <= s < t.nstate && 0 <= x < g.nsymbol :: Decodes(g, t, c, s, x))
    && forall s | 0 <= s < t.nstate :: StateOk(g, t, c, s)
  }

  /** The automaton moves from state s to state s' when x is pushed. */
  ghost predicate Moves(g: Grammar, t: Tables, s: nat, x: nat, s': nat)
    requires t.Shaped()
  {
    && s < t.nstate && s' < t.nstate && x < g.nsymbol && x != t.errorSymbol
    && s' == if x < g.nterminal then FindShift(t, s, x) else FindReduce(t, s, x)
  }

  ghost predicate LinkedAt(g: Grammar, t: Tables, stack: seq<Entry>, i: nat) {
    t.Shaped() && 1 <= i < |stack| && Moves(g, t, stack[i - 1].stateno, stack[i].major, stack[i].stateno)
  }

  /** Every reachable stack: the states are those the automaton moves through. */
  ghost predicate Linked(g: Grammar, t: Tables, stack: seq<Entry>) {
    && InRange(t, stack)
    && (stack != [] ==> stack[0] == Entry(0, 0))
    && forall i | 1 <= i < |stack| :: LinkedAt(g, t, stack, i)
  }

  lemma LinkedPrefix(g: Grammar, t: Tables, stack: seq<Entry>, n: nat)
    requires Linked(g, t, stack) && n <= |stack|
    ensures Linked(g, t, stack[..n])
  {
    forall i | 1 <= i < n
      ensures LinkedAt(g, t, stack[..n], i)
    {
      assert LinkedAt(g, t, stack, i);
    }
  }

  lemma MoveIsKept(g: Grammar, t: Tables, c: Certificate, s: nat, x: nat, s': nat)
    requires Certified(g, t, c) && Moves(g, t, s, x, s')
    ensures MoveKept(c, s, x, s')
  {
    assert StateOk(g, t, c, s) && Decodes(g, t, c, s, x);
    assert if x < g.nterminal then TokenOk(g, t, c, s, x) else GotoKept(g, t, c, s, x);
  }

  /** The certificate's claims hold of every linked stack. */
  lemma {:induction false} PastHolds(g: Grammar, t: Tables, c: Certificate, stack: seq<Entry>, k: nat)
    requires Certified(g, t, c) && Linked(g, t, stack) && stack != []
    requires k < c.depth(Top(stack))
    ensures k + 1 < |stack|
    ensures stack[|stack| - 1 - k].major == c.past(Top(stack), k)
    ensures c.under(Top(stack), k, stack[|stack| - 2 - k].stateno)
    decreases k
  {
    var n := |stack| - 1;
    if n > 0 {
      assert LinkedAt(g, t, stack, n);
      MoveIsKept(g, t, c, stack[n - 1].stateno, stack[n].major, stack[n].stateno);
      if k > 0 {
        assert Covers(c, stack[n - 1].stateno, stack[n].stateno, k - 1);
        LinkedPrefix(g, t, stack, n);
        PastHolds(g, t, c, stack[..n], k - 1);
      }
    }
  }

  /** State 0 lies at the bottom of a linked stack and nowhere else. */
  lemma ZeroAtBottom(g: Grammar, t: Tables, c: Certificate, stack: seq<Entry>, i: nat)
    requires Certified(g, t, c) && Linked(g, t, stack)
    requires 0 < i < |stack|
    ensures stack[i].stateno != 0
  {
    assert LinkedAt(g, t, stack, i);
    MoveIsKept(g, t, c, stack[i - 1].stateno, stack[i].major, stack[i].stateno);
  }

  /** When the tables ask for a reduction, the top of the stack spells the rule's right-hand
      side and the goto from the uncovered state is defined. */
  lemma ReductionFits(g: Grammar, t: Tables, c: Certificate, stack: seq<Entry>, la: nat)
    requires Certified(g, t, c) && Linked(g, t, stack) && stack != [] && la < g.nterminal
    requires t.nstate <= FindShift(t, Top(stack), la) < t.ErrorAction()
    ensures var r := FindShift(t, Top(stack), la) - t.nstate;
            var n := |g.rules[r].rhs|;
            && n < |stack|
            && (forall i | 0 <= i < n :: stack[|stack| - n + i].major == g.rules[r].rhs[i])
            && GotoOk(g, t, c, Top(stack), r, Top(stack[..|stack| - n]), la)
  {
    var s := Top(stack);
    var r := FindShift(t, s, la) - t.nstate;
    var rhs := g.rules[r].rhs;
    assert StateOk(g, t, c, s) && Decodes(g, t, c, s, la);
    assert TokenOk(g, t, c, s, la);
    assert ReduceOk(g, t, c, s, r, la);
    forall i | 0 <= i < |rhs|
      ensures |rhs| < |stack| && stack[|stack| - |rhs| + i].major == rhs[i]
    {
      PastHolds(g, t, c, stack, |rhs| - 1);
      PastHolds(g, t, c, stack, |rhs| - 1 - i);
    }
    if rhs != [] {
      PastHolds(g, t, c, stack, |rhs| - 1);
    }
  }

  /** No state shifts the error symbol, so recovery empties the stack. */
  lemma {:induction false} PopsAll(g: Grammar, t: Tables, c: Certificate, stack: seq<Entry>)
    requires Certified(g, t, c) && InRange(t, stack)
    ensures PopToError(t, stack) == []
  {
    if stack != [] {
      assert StateOk(g, t, c, Top(stack)) && Decodes(g, t, c, Top(stack), t.errorSymbol);
      PopsAll(g, t, c, stack[..|stack| - 1]);
    }
  }

  /** Bounds the turns a loop still has to make. */
  ghost function Measure(c: Certificate, l: Loop): nat
  {
    if l.la.None? || l.m.stack == [] then 0 else 1 + |l.m.stack| + c.rank(Top(l.m.stack))
  }

  /** A driver loop in good order. */
  ghost predicate Running(g: Grammar, t: Tables, c: Certificate, l: Loop) {
    && Certified(g, t, c) && Linked(g, t, l.m.stack)
    && (l.la.Some? ==> l.la.value < g.nterminal && (l.atEnd <==> l.la.value == 0))
  }

  /** Pushing along a move, or overflowing, leaves a linked stack. */
  lemma PushKeeps(g: Grammar, t: Tables, m: Machine, state: nat, x: nat)
    requires Linked(g, t, m.stack) && m.stack != [] && Moves(g, t, Top(m.stack), x, state)
    ensures Linked(g, t, Push(m, state, x).stack)
  {
    var stack := m.stack + [Entry(state, x)];
    forall i | 1 <= i < |stack|
      ensures LinkedAt(g, t, stack, i)
    {
      assert i < |m.stack| ==> LinkedAt(g, t, m.stack, i);
    }
  }

  lemma ReduceKeeps(g: Grammar, t: Tables, c: Certificate, l: Loop)
    requires Running(g, t, c, l) && l.la.Some? && l.m.stack != []
    requires t.nstate <= FindShift(t, Top(l.m.stack), l.la.value) < t.ErrorAction()
    ensures var r := FindShift(t, Top(l.m.stack), l.la.value) - t.nstate;
            && t.ruleInfo[r].nrhs < |l.m.stack|
            && var l' := l.(m := Reduce(t, l.m, r));
               Running(g, t, c, l') && Measure(c, l') < Measure(c, l)
  {
    var stack := l.m.stack;
    var r := FindShift(t, Top(stack), l.la.value) - t.nstate;
    assert RuleFits(g, t, r);
    ReductionFits(g, t, c, stack, l.la.value);
    var rest := stack[..|stack| - t.ruleInfo[r].nrhs];
    var goto := FindReduce(t, Top(rest), g.rules[r].lhs);
    assert Decodes(g, t, c, Top(rest), g.rules[r].lhs);
    LinkedPrefix(g, t, stack, |rest|);
    if goto < t.nstate {
      PushKeeps(g, t, l.m.(stack := rest), goto, g.rules[r].lhs);
      assert Reduce(t, l.m, r) == Push(l.m.(stack := rest), goto, g.rules[r].lhs);
    } else {
      assert Reduce(t, l.m, r).stack == [];
    }
  }

  /** A turn of the loop keeps the stack linked and leaves fewer turns to make. */
  lemma TurnKeeps(g: Grammar, t: Tables, c: Certificate, l: Loop)
    requires Running(g, t, c, l) && l.la.Some? && l.m.stack != []
    ensures FindShift(t, Top(l.m.stack), l.la.value) <= t.ErrorAction() && CanAct(t, l.m.stack, l.la.value)
    ensures var l' := Iterate(t, l);
            Running(g, t, c, l') && Measure(c, l') < Measure(c, l)
  {
    var s := Top(l.m.stack);
    var act := FindShift(t, s, l.la.value);
    assert StateOk(g, t, c, s) && Decodes(g, t, c, s, l.la.value);
    assert TokenOk(g, t, c, s, l.la.value);
    if act < t.nstate {
      PushKeeps(g, t, l.m, act, l.la.value);
    } else if act < t.ErrorAction() {
      ReduceKeeps(g, t, c, l);
    } else {
      PopsAll(g, t, c, l.m.stack);
    }
  }

  ghost function Turn(g: Grammar, t: Tables, c: Certificate, l: Loop): (l': Loop)
    requires Running(g, t, c, l) && l.la.Some? && l.m.stack != []
    ensures Running(g, t, c, l') && Measure(c, l') < Measure(c, l)
  {
    TurnKeeps(g, t, c, l);
    Iterate(t, l)
  }

  /** The do-while loop run to its end. */
  ghost function Settle(g: Grammar, t: Tables, c: Certificate, l: Loop): (m: Machine)
    requires Running(g, t, c, l)
    ensures Linked(g, t, m.stack)
    decreases Measure(c, l)
  {
    if l.la.None? || l.m.stack == [] then l.m
    else Settle(g, t, c, Turn(g, t, c, l))
  }

  /** One call of the driver with a token: initialise if necessary, then loop. */
  ghost function Feed(g: Grammar, t: Tables, c: Certificate, m: Machine, token: nat): (m': Machine)
    requires Certified(g, t, c) && Linked(g, t, m.stack) && token < g.nterminal
    ensures Linked(g, t, m'.stack)
  {
    if m.stack == [] && token == 0 then m
    else
      var m0 := if m.stack == [] then m.(stack := [Entry(0, 0)]) else m;
      Settle(g, t, c, Loop(m0, Some(token), token == 0, false))
  }

  ghost predicate AreTokens(g: Grammar, tokens: seq<nat>) {
    forall i | 0 <= i < |tokens| :: tokens[i] < g.nterminal
  }

  /** The driver called with each token in turn. */
  ghost function FeedAll(g: Grammar, t: Tables, c: Certificate, m: Machine, tokens: seq<nat>): (m': Machine)
    requires Certified(g, t, c) && Linked(g, t, m.stack)
    requires AreTokens(g, tokens)
    ensures Linked(g, t, m'.stack)
    decreases |tokens|
  {
    if tokens == [] then m
    else FeedAll(g, t, c, Feed(g, t, c, m, tokens[0]), tokens[1..])
  }

  lemma SettleTurn(g: Grammar, t: Tables, c: Certificate, l: Loop)
    requires Running(g, t, c, l)
    ensures Settle(g, t, c, l) ==
            if l.la.None? || l.m.stack == [] then l.m else Settle(g, t, c, Turn(g, t, c, l))
  {
  }

  lemma FeedAllStep(g: Grammar, t: Tables, c: Certificate, m: Machine, tokens: seq<nat>)
    requires Certified(g, t, c) && Linked(g, t, m.stack) && AreTokens(g, tokens) && tokens != []
    ensures FeedAll(g, t, c, m, tokens) == FeedAll(g, t, c, Feed(g, t, c, m, tokens[0]), tokens[1..])
    ensures m.stack != [] ==>
              Feed(g, t, c, m, tokens[0]) == Settle(g, t, c, Loop(m, Some(tokens[0]), tokens[0] == 0, false))
  {
  }

  lemma {:induction false} FeedAllSnoc(g: Grammar, t: Tables, c: Certificate, m: Machine, tokens: seq<nat>, x: nat)
    requires Certified(g, t, c) && Linked(g, t, m.stack) && AreTokens(g, tokens) && x < g.nterminal
    ensures FeedAll(g, t, c, m, tokens + [x]) == Feed(g, t, c, FeedAll(g, t, c, m, tokens), x)
    decreases |tokens|
  {
    if tokens == [] {
      assert FeedAll(g, t, c, m, [x]) == FeedAll(g, t, c, Feed(g, t, c, m, x), []);
    } else {
      assert (tokens + [x])[1..] == tokens[1..] + [x];
      FeedAllSnoc(g, t, c, Feed(g, t, c, m, tokens[0]), tokens[1..], x);
    }
  }

  const FRESH := Machine([], true, false)
}
