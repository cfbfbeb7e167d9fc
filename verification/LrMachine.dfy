/** What the generated driver does to its stack (src/lempar.c), as a function on values, and
    the certificate under which every call of the driver terminates. */
module LrMachine {
  import opened ParseTables

  /** yyStackEntry without the semantic value. */
  datatype Entry = Entry(stateno: nat, major: nat)

  /** The parser between two calls. The stack runs from bottom to top and is empty when yyidx
      is -1; `ok` is the flag %parse_failure clears; `overflowed` remembers that yy_shift
      emptied the stack, which the C structure does not record. */
  datatype Machine = Machine(stack: seq<Entry>, ok: bool, overflowed: bool)

  /** The driver inside one call: `la` is None once yymajor has become YYNOCODE. */
  datatype Option<T> = None | Some(value: T)
  datatype Loop = Loop(m: Machine, la: Option<nat>, atEnd: bool, errorHit: bool)

  const STACK_DEPTH := 100

  ghost predicate InRange(t: Tables, stack: seq<Entry>) {
    t.Shaped() && forall i | 0 <= i < |stack| :: stack[i].stateno < t.nstate
  }

  function Top(stack: seq<Entry>): nat
    requires stack != []
  {
    stack[|stack| - 1].stateno
  }

  /** yy_shift: overflow silently empties the stack. */
  function Push(m: Machine, state: nat, major: nat): Machine {
    if |m.stack| >= STACK_DEPTH then m.(stack := [], overflowed := true)
    else m.(stack := m.stack + [Entry(state, major)])
  }

  /** yy_reduce: pop the right-hand side, then follow the goto or accept. */
  function Reduce(t: Tables, m: Machine, r: nat): Machine
    requires InRange(t, m.stack) && r < t.nrule && t.ruleInfo[r].nrhs < |m.stack|
  {
    var rest := m.stack[..|m.stack| - t.ruleInfo[r].nrhs];
    var act := FindReduce(t, Top(rest), t.ruleInfo[r].lhs);
    if act < t.nstate then Push(m.(stack := rest), act, t.ruleInfo[r].lhs)
    else if act == t.AcceptAction() then m.(stack := [])
    else m.(stack := rest)
  }

  /** The popping loop of error recovery: leaves the states that can shift the error symbol. */
  function PopToError(t: Tables, stack: seq<Entry>): (rest: seq<Entry>)
    requires InRange(t, stack)
    ensures rest <= stack
    ensures rest != [] ==> FindShift(t, Top(rest), t.errorSymbol) < t.nstate
  {
    if stack == [] || FindShift(t, Top(stack), t.errorSymbol) < t.nstate then stack
    else PopToError(t, stack[..|stack| - 1])
  }

  /** The YY_ERROR_ACTION branch. */
  function Recover(t: Tables, l: Loop): Loop
    requires l.la.Some? && l.m.stack != [] && InRange(t, l.m.stack)
  {
    if l.m.stack[|l.m.stack| - 1].major == t.errorSymbol || l.errorHit then
      l.(la := None, errorHit := true)
    else
      var rest := PopToError(t, l.m.stack);
      if rest == [] || l.la.value == 0 then
        l.(m := l.m.(stack := [], ok := false), la := None, errorHit := true)
      else
        var act := FindShift(t, Top(rest), t.errorSymbol);
        l.(m := Push(l.m.(stack := rest), act, t.errorSymbol), errorHit := true)
  }

  /** The driver can take its next action: a reduction would not pop the bottom of the stack. */
  ghost predicate CanAct(t: Tables, stack: seq<Entry>, la: nat) {
    && stack != [] && InRange(t, stack)
    && var act := FindShift(t, Top(stack), la);
       t.nstate <= act < t.nstate + t.nrule ==> t.ruleInfo[act - t.nstate].nrhs < |stack|
  }

  /** One turn of the do-while loop. */
  function Iterate(t: Tables, l: Loop): Loop
    requires l.la.Some? && CanAct(t, l.m.stack, l.la.value)
  {
    var act := FindShift(t, Top(l.m.stack), l.la.value);
    if act < t.nstate then
      var m := Push(l.m, act, l.la.value);
      l.(m := m, la := if l.atEnd && m.stack != [] then Some(0) else None)
    else if act < t.nstate + t.nrule then
      l.(m := Reduce(t, l.m, act - t.nstate))
    else if act == t.ErrorAction() then
      Recover(t, l)
    else
      l.(m := l.m.(stack := []), la := None)
  }
}
