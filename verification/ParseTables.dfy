/** The tables a generated parser carries and the two functions that read them
    (src/lempar.c). The generator's packing code produces the same datatype. */
module ParseTables {

  /** yyRuleInfo: left-hand side and number of right-hand side symbols of each rule. */
  datatype RuleInfo = RuleInfo(lhs: nat, nrhs: nat)

  datatype Tables = Tables(
    nstate: nat,               // YYNSTATE
    nrule: nat,                // YYNRULE
    noCode: nat,               // YYNOCODE
    errorSymbol: nat,          // YYERRORSYMBOL
    action: seq<nat>,          // yy_action
    lookahead: seq<nat>,       // yy_lookahead
    shiftOfst: seq<int>,       // yy_shift_ofst
    shiftUseDflt: int,         // YY_SHIFT_USE_DFLT
    reduceOfst: seq<int>,      // yy_reduce_ofst
    reduceUseDflt: int,        // YY_REDUCE_USE_DFLT
    dflt: seq<nat>,            // yy_default
    ruleInfo: seq<RuleInfo>)   // yyRuleInfo
  {
    function ErrorAction(): nat { nstate + nrule }       // YY_ERROR_ACTION
    function AcceptAction(): nat { nstate + nrule + 1 }  // YY_ACCEPT_ACTION
    function NoAction(): nat { nstate + nrule + 2 }      // YY_NO_ACTION

    ghost predicate Shaped() {
      && |action| == |lookahead|
      && |shiftOfst| == |reduceOfst| == |dflt| == nstate
      && |ruleInfo| == nrule
    }
  }

  /** What an entry of the tables asks for: states are numbered first, then rules, then the two that have
      no operand. */
  datatype Deed = Enter(state: nat) | Apply(rule: nat) | Fail | Accept | Nothing

  function DeedIn(nstate: nat, nrule: nat, act: nat): Deed {
    if act < nstate then Enter(act)
    else if act < nstate + nrule then Apply(act - nstate)
    else if act == nstate + nrule then Fail
    else if act == nstate + nrule + 1 then Accept
    else Nothing
  }

  function DeedOn(t: Tables, state: nat, nterminal: nat, sym: nat): Deed
    requires t.Shaped() && state < t.nstate
  {
    DeedIn(t.nstate, t.nrule, if sym < nterminal then FindShift(t, state, sym) else FindReduce(t, state, sym))
  }

  /** The read that both find functions share once an offset is known to be in use. */
  function Fetch(t: Tables, offset: int, la: nat, otherwise: nat): nat
    requires t.Shaped()
  {
    var i := offset + la;
    if i < 0 || i >= |t.action| || t.lookahead[i] != la then otherwise else t.action[i]
  }

  /** yy_find_shift_action for a parser without fallback tokens. */
  function FindShift(t: Tables, state: nat, la: nat): nat
    requires t.Shaped() && state < t.nstate
  {
    var i := t.shiftOfst[state];
    if i == t.shiftUseDflt then t.dflt[state]
    else if la == t.noCode then t.NoAction()
    else Fetch(t, i, la, t.dflt[state])
  }

  /** yy_find_reduce_action. */
  function FindReduce(t: Tables, state: nat, la: nat): nat
    requires t.Shaped() && state < t.nstate
  {
    var i := t.reduceOfst[state];
    if i == t.reduceUseDflt then t.dflt[state]
    else if la == t.noCode then t.NoAction()
    else Fetch(t, i, la, t.dflt[state])
  }
}
