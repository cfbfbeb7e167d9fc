/** How high the stack of a certified parser can grow while only so many brackets are open. */
module LrNesting {
  import opened Grammars
  import opened ParseTables
  import opened LrMachine
  import opened LrCertificate
  import opened LrOverflow

  /** Which symbols are brackets (weight 1 opens one, weight -1 closes one), and claims about the
      automaton: a path through it pushes at most `step` entries for every opening bracket on the
      way and height(s), at most `top`, besides; a closing bracket leads to a closed state. */
  datatype Nesting = Nesting(weight: nat -> int, height: nat -> nat, closed: nat -> bool, step: nat, top: nat)

  /** Opening minus closing brackets. */
  function Balance(weight: nat -> int, w: seq<nat>): int {
    if w == [] then 0 else Balance(weight, w[..|w| - 1]) + weight(w[|w| - 1])
  }

  lemma {:induction false} BalanceConcat(weight: nat -> int, a: seq<nat>, b: seq<nat>)
    ensures Balance(weight, a + b) == Balance(weight, a) + Balance(weight, b)
  {
    if b == [] {
      assert a + b == a;
    } else {
      assert (a + b)[..|a + b| - 1] == a + b[..|b| - 1];
      BalanceConcat(weight, a, b[..|b| - 1]);
    }
  }

  /** The brackets open after one more token; a closing bracket too many closes nothing. */
  function OpenAfter(weight: nat -> int, n: nat, x: nat): nat {
    if n + weight(x) < 0 then 0 else n + weight(x)
  }

  /** With n brackets open before w, never more than k are open. */
  predicate Within(weight: nat -> int, n: nat, w: seq<nat>, k: nat)
    decreases |w|
  {
    n <= k && (w == [] || Within(weight, OpenAfter(weight, n, w[0]), w[1..], k))
  }

  /** The brackets open after w. */
  function OpenAt(weight: nat -> int, n: nat, w: seq<nat>): nat
    decreases |w|
  {
    if w == [] then n else OpenAt(weight, OpenAfter(weight, n, w[0]), w[1..])
  }

  lemma {:induction false} WithinConcat(weight: nat -> int, n: nat, a: seq<nat>, b: seq<nat>, k: nat)
    ensures OpenAt(weight, n, a + b) == OpenAt(weight, OpenAt(weight, n, a), b)
    ensures Within(weight, n, a + b, k) <==> Within(weight, n, a, k) && Within(weight, OpenAt(weight, n, a), b, k)
    decreases |a|
  {
    if a == [] {
      assert a + b == b;
    } else {
      assert (a + b)[1..] == a[1..] + b;
      WithinConcat(weight, OpenAfter(weight, n, a[0]), a[1..], b, k);
    }
  }

  lemma {:induction false} WithinMore(weight: nat -> int, n: nat, w: seq<nat>, j: nat, k: nat)
    requires Within(weight, n, w, j) && j <= k
    ensures Within(weight, n, w, k)
    decreases |w|
  {
    if w != [] { WithinMore(weight, OpenAfter(weight, n, w[0]), w[1..], j, k); }
  }

  /** A token that is no bracket. */
  lemma WithinSnoc(weight: nat -> int, n: nat, w: seq<nat>, x: nat, k: nat)
    requires Within(weight, n, w, k) && weight(x) == 0
    ensures Within(weight, n, w + [x], k)
  {
    WithinConcat(weight, n, w, [], k);
    WithinConcat(weight, n, w, [x], k);
    assert w + [] == w && [x][1..] == [];
  }

  ghost predicate MoveNests(n: Nesting, s: nat, x: nat, s': nat) {
    && !n.closed(s) && (n.weight(x) < 0 ==> n.closed(s'))
    && n.height(s) + 1 <= n.height(s') + if n.weight(x) > 0 then n.step else 0
  }

  ghost predicate RuleNests(g: Grammar, n: Nesting, r: nat)
    requires r < |g.rules|
  {
    Balance(n.weight, g.rules[r].rhs) == 0 == n.weight(g.rules[r].lhs)
  }

  /** The claims, checked state by state and rule by rule. */
  ghost predicate Nests(g: Grammar, t: Tables, n: Nesting) {
    && t.Shaped() && |g.rules| == t.nrule
    && (forall x :: -1 <= n.weight(x) <= 1) && n.weight(0) == 0
    && (forall s :: n.height(s) <= n.top)
    && (forall r | 0 <= r < |g.rules| :: RuleNests(g, n, r))
    && (forall s, x, s' | Moves(g, t, s, x, s') :: MoveNests(n, s, x, s'))
  }

  /** Opening minus closing brackets on the stack. */
  function Held(weight: nat -> int, stack: seq<Entry>): int {
    if stack == [] then 0 else Held(weight, stack[..|stack| - 1]) + weight(stack[|stack| - 1].major)
  }

  /** Opening brackets on the stack. */
  function Opened(weight: nat -> int, stack: seq<Entry>): nat {
    if stack == [] then 0
    else Opened(weight, stack[..|stack| - 1]) + if weight(stack[|stack| - 1].major) > 0 then 1 else 0
  }

  lemma HeldPush(weight: nat -> int, stack: seq<Entry>, e: Entry)
    ensures Held(weight, stack + [e]) == Held(weight, stack) + weight(e.major)
  {
    assert (stack + [e])[..|stack|] == stack;
  }

  /** Popping a right-hand side. */
  lemma {:induction false} HeldPop(weight: nat -> int, stack: seq<Entry>, rhs: seq<nat>)
    requires |rhs| <= |stack| && forall i | 0 <= i < |rhs| :: stack[|stack| - |rhs| + i].major == rhs[i]
    ensures Held(weight, stack) == Held(weight, stack[..|stack| - |rhs|]) + Balance(weight, rhs)
    decreases |rhs|
  {
    var n := |stack| - |rhs|;
    if rhs == [] {
      assert stack[..n] == stack;
    } else {
      var rest, rhs' := stack[..|stack| - 1], rhs[..|rhs| - 1];
      forall i | 0 <= i < |rhs'|
        ensures rest[|rest| - |rhs'| + i].major == rhs'[i]
      {
        assert stack[|stack| - |rhs| + i].major == rhs[i];
      }
      HeldPop(weight, rest, rhs');
      assert rest[..n] == stack[..n];
      assert stack[|stack| - |rhs| + (|rhs| - 1)].major == rhs[|rhs| - 1];
    }
  }

  /** No closing bracket lies below the top of the stack: the automaton ends there. */
  lemma {:induction false} OnlyOpened(g: Grammar, t: Tables, n: Nesting, stack: seq<Entry>)
    requires Nests(g, t, n) && Linked(g, t, stack) && stack != [] && !n.closed(Top(stack))
    ensures Opened(n.weight, stack) == Held(n.weight, stack)
    decreases |stack|
  {
    var m := |stack| - 1;
    var rest := stack[..m];
    if m == 0 {
      assert rest == [];
    } else {
      assert LinkedAt(g, t, stack, m);
      assert MoveNests(n, Top(rest), stack[m].major, stack[m].stateno);
      LinkedPrefix(g, t, stack, m);
      OnlyOpened(g, t, n, rest);
    }
  }

  lemma OneMore(step: nat, k: nat)
    ensures step * (k + 1) == step * k + step
  {}

  lemma {:induction false} AtMost(step: nat, j: nat, k: nat)
    requires j <= k
    ensures step * j <= step * k
    decreases k
  {
    if j < k {
      AtMost(step, j, k - 1);
      OneMore(step, k - 1);
    }
  }

  /** The path to the top of the stack is as long as the claims allow. */
  lemma {:induction false} HeightHolds(g: Grammar, t: Tables, n: Nesting, stack: seq<Entry>)
    requires Nests(g, t, n) && Linked(g, t, stack) && stack != []
    ensures |stack| <= n.step * Opened(n.weight, stack) + n.height(Top(stack)) + 1
    decreases |stack|
  {
    var m := |stack| - 1;
    var rest := stack[..m];
    if m == 0 {
      assert rest == [];
    } else {
      assert LinkedAt(g, t, stack, m);
      assert MoveNests(n, Top(rest), stack[m].major, stack[m].stateno);
      LinkedPrefix(g, t, stack, m);
      HeightHolds(g, t, n, rest);
      OneMore(n.step, Opened(n.weight, rest));
    }
  }

  /** There is room for one more entry wherever the automaton can move on. */
  lemma RoomLeft(g: Grammar, t: Tables, n: Nesting, stack: seq<Entry>, x: nat, s': nat, k: nat)
    requires Nests(g, t, n) && Linked(g, t, stack) && stack != [] && Moves(g, t, Top(stack), x, s')
    requires Held(n.weight, stack) <= k && n.step * k + n.top + 1 < STACK_DEPTH
    ensures |stack| < STACK_DEPTH
  {
    assert MoveNests(n, Top(stack), x, s');
    OnlyOpened(g, t, n, stack);
    HeightHolds(g, t, n, stack);
    AtMost(n.step, Opened(n.weight, stack), k);
  }

  lemma PushNests(g: Grammar, t: Tables, n: Nesting, m: Machine, x: nat, s': nat, k: nat)
    requires Nests(g, t, n) && Linked(g, t, m.stack) && m.stack != [] && Moves(g, t, Top(m.stack), x, s')
    requires Held(n.weight, m.stack) <= k && n.step * k + n.top + 1 < STACK_DEPTH
    ensures var m' := Push(m, s', x);
      m'.overflowed == m.overflowed && Held(n.weight, m'.stack) <= k + n.weight(x)
  {
    RoomLeft(g, t, n, m.stack, x, s', k);
    HeldPush(n.weight, m.stack, Entry(s', x));
  }

  /** A reduction keeps the balance and finds room. */
  lemma ReduceNests(g: Grammar, t: Tables, c: Certificate, n: Nesting, l: Loop, k: nat)
    requires Running(g, t, c, l) && l.la.Some? && l.m.stack != [] && Nests(g, t, n)
    requires t.nstate <= FindShift(t, Top(l.m.stack), l.la.value) < t.ErrorAction()
    requires Held(n.weight, l.m.stack) <= k && n.step * k + n.top + 1 < STACK_DEPTH
    ensures var r := FindShift(t, Top(l.m.stack), l.la.value) - t.nstate;
            && t.ruleInfo[r].nrhs < |l.m.stack|
            && var m := Reduce(t, l.m, r);
               m.overflowed == l.m.overflowed && (m.stack != [] ==> Held(n.weight, m.stack) <= k)
  {
    var stack := l.m.stack;
    var r := FindShift(t, Top(stack), l.la.value) - t.nstate;
    var lhs, rhs := g.rules[r].lhs, g.rules[r].rhs;
    assert RuleFits(g, t, r) && RuleNests(g, n, r);
    ReductionFits(g, t, c, stack, l.la.value);
    var rest := stack[..|stack| - |rhs|];
    HeldPop(n.weight, stack, rhs);
    assert Decodes(g, t, c, Top(rest), lhs);
    LinkedPrefix(g, t, stack, |rest|);
    var goto := FindReduce(t, Top(rest), lhs);
    if goto < t.nstate {
      assert Moves(g, t, Top(rest), lhs, goto);
      PushNests(g, t, n, l.m.(stack := rest), lhs, goto, k);
      assert Reduce(t, l.m, r) == Push(l.m.(stack := rest), goto, lhs);
    }
  }

  /** One call: the token is shifted, which counts in its weight, or the stack is emptied. */
  lemma {:induction false} SettleNests(g: Grammar, t: Tables, c: Certificate, n: Nesting, l: Loop, k: nat)
    requires Running(g, t, c, l) && l.la.Some? && !l.errorHit && l.m.stack != [] && Nests(g, t, n)
    requires Held(n.weight, l.m.stack) <= k && n.step * k + n.top + 1 < STACK_DEPTH
    ensures var m := Settle(g, t, c, l);
      m.overflowed == l.m.overflowed && (m.stack != [] ==> Held(n.weight, m.stack) <= k + n.weight(l.la.value))
    decreases Measure(c, l)
  {
    var s, x := Top(l.m.stack), l.la.value;
    var act := FindShift(t, s, x);
    TurnKeeps(g, t, c, l);
    if act < t.nstate {
      ShiftEnds(g, t, c, l);
      assert Moves(g, t, s, x, act);
      PushNests(g, t, n, l.m, x, act, k);
    } else if act < t.ErrorAction() {
      ReduceNests(g, t, c, n, l, k);
      var l' := l.(m := Reduce(t, l.m, act - t.nstate));
      ReduceGoesOn(g, t, c, l, l');
      if l'.m.stack != [] { SettleNests(g, t, c, n, l', k); }
    } else {
      ErrorEnds(g, t, c, l);
    }
  }

  lemma FeedNests(g: Grammar, t: Tables, c: Certificate, n: Nesting, m: Machine, x: nat, k: nat)
    requires Certified(g, t, c) && Nests(g, t, n) && Linked(g, t, m.stack) && x < g.nterminal
    requires Held(n.weight, m.stack) <= k && n.step * k + n.top + 1 < STACK_DEPTH
    ensures var m' := Feed(g, t, c, m, x);
      m'.overflowed == m.overflowed && Held(n.weight, m'.stack) <= OpenAfter(n.weight, k, x)
  {
    if m.stack != [] || x != 0 {
      var m0 := if m.stack == [] then m.(stack := [Entry(0, 0)]) else m;
      HeldPush(n.weight, [], Entry(0, 0));
      assert [] + [Entry(0, 0)] == [Entry(0, 0)];
      SettleNests(g, t, c, n, Loop(m0, Some(x), x == 0, false), k);
    }
  }

  /** No input with few brackets open at a time overflows the stack, however long it is and
      whether or not the grammar derives it. */
  lemma {:induction false} ShallowFits(
      g: Grammar, t: Tables, c: Certificate, n: Nesting, m: Machine, tokens: seq<nat>, open: nat, k: nat)
    requires Certified(g, t, c) && Nests(g, t, n) && Linked(g, t, m.stack) && AreTokens(g, tokens)
    requires Held(n.weight, m.stack) <= open && Within(n.weight, open, tokens, k)
    requires n.step * k + n.top + 1 < STACK_DEPTH
    ensures FeedAll(g, t, c, m, tokens).overflowed == m.overflowed
    decreases |tokens|
  {
    if tokens != [] {
      AtMost(n.step, open, k);
      FeedNests(g, t, c, n, m, tokens[0], open);
      FeedAllStep(g, t, c, m, tokens);
      ShallowFits(g, t, c, n, Feed(g, t, c, m, tokens[0]), tokens[1..], OpenAfter(n.weight, open, tokens[0]), k);
    }
  }
}
