/** What the driver does on a syntax error with tables whose states can shift the error symbol
    (src/lempar.c); the shipped ones have none. */
module LrRecovery {
  import opened LrMachine
  import opened ParseTables

  /** The state on top of these n entries can shift the error symbol. */
  ghost predicate Catches(t: Tables, stack: seq<Entry>, n: nat)
    requires InRange(t, stack)
  {
    0 < n <= |stack| && FindShift(t, stack[n - 1].stateno, t.errorSymbol) < t.nstate
  }

  /** And none above it can. */
  ghost predicate CatchesFirst(t: Tables, stack: seq<Entry>, n: nat)
    requires InRange(t, stack)
  {
    Catches(t, stack, n) && forall k | n < k <= |stack| :: !Catches(t, stack, k)
  }

  /** No more is popped than has to be. */
  lemma {:induction false} PopsToCatch(t: Tables, stack: seq<Entry>)
    requires InRange(t, stack)
    ensures var n := |PopToError(t, stack)|;
      && n <= |stack| && PopToError(t, stack) == stack[..n] && (n > 0 ==> Catches(t, stack, n))
      && forall k | n < k <= |stack| :: !Catches(t, stack, k)
  {
    if stack != [] && !Catches(t, stack, |stack|) {
      PopsToCatch(t, stack[..|stack| - 1]);
      forall k | |PopToError(t, stack)| < k <= |stack|
        ensures !Catches(t, stack, k)
      {
        if k < |stack| { assert !Catches(t, stack[..|stack| - 1], k); }
      }
    }
  }

  /** The first error of a call. If no state on the stack can shift the error symbol, or at the end of the
      input, the parse fails; otherwise the topmost such state shifts it, and the lookahead stays. */
  lemma Recovers(t: Tables, l: Loop, n: nat)
    requires l.la.Some? && l.m.stack != [] && InRange(t, l.m.stack) && !l.errorHit
    requires l.m.stack[|l.m.stack| - 1].major != t.errorSymbol
    ensures l.la.value == 0 || (forall k | 0 < k <= |l.m.stack| :: !Catches(t, l.m.stack, k)) ==>
      Recover(t, l) == l.(m := l.m.(stack := [], ok := false), la := None, errorHit := true)
    ensures l.la.value != 0 && CatchesFirst(t, l.m.stack, n) ==>
      var act := FindShift(t, l.m.stack[n - 1].stateno, t.errorSymbol);
      Recover(t, l) == l.(m := Push(l.m.(stack := l.m.stack[..n]), act, t.errorSymbol), errorHit := true)
  {
    PopsToCatch(t, l.m.stack);
    assert CatchesFirst(t, l.m.stack, n) ==> |PopToError(t, l.m.stack)| == n;
  }

  /** After an error, further ones in the same call drop the lookahead. */
  lemma DropsLookahead(t: Tables, l: Loop)
    requires l.la.Some? && l.m.stack != [] && InRange(t, l.m.stack)
    requires l.errorHit || l.m.stack[|l.m.stack| - 1].major == t.errorSymbol
    ensures Recover(t, l).m == l.m && Recover(t, l).la.None?
  {}
}
