/** What the driver (src/lempar.c) does when it runs on generated tables, told by the actions the
    generator has found. */
module GeneratedDriver {
  import opened Actions
  import opened Conflicts
  import opened LrMachine
  import opened ParseTables
  import opened TableGenerator

  /** One turn of the driver, by what its table entry asks for. */
  lemma TurnByDeed(t: Tables, l: Loop, nterminal: nat)
    requires l.la.Some? && l.la.value < nterminal && CanAct(t, l.m.stack, l.la.value)
    ensures match DeedOn(t, Top(l.m.stack), nterminal, l.la.value)
      case Enter(q) =>
        && q < t.nstate
        && Iterate(t, l) == l.(m := Push(l.m, q, l.la.value),
             la := if l.atEnd && |l.m.stack| < STACK_DEPTH then LrMachine.Some(0) else LrMachine.None)
      case Apply(r) =>
        && r < t.nrule && t.ruleInfo[r].nrhs < |l.m.stack|
        && Iterate(t, l) == l.(m := Reduce(t, l.m, r))
      case Fail => Iterate(t, l) == Recover(t, l)
      case Accept => Iterate(t, l) == l.(m := l.m.(stack := []), la := LrMachine.None)
      case Nothing => true
  {}

  /** The end of a reduction, by what the entry for the left-hand side asks for. */
  lemma GotoByDeed(t: Tables, m: Machine, r: nat, nterminal: nat)
    requires LrMachine.InRange(t, m.stack) && r < t.nrule && t.ruleInfo[r].nrhs < |m.stack|
    requires nterminal <= t.ruleInfo[r].lhs
    ensures var rest, lhs := m.stack[..|m.stack| - t.ruleInfo[r].nrhs], t.ruleInfo[r].lhs;
      match DeedOn(t, Top(rest), nterminal, lhs)
      case Enter(q) => Reduce(t, m, r) == Push(m.(stack := rest), q, lhs)
      case Accept => Reduce(t, m, r) == m.(stack := [])
      case _ => Reduce(t, m, r) == m.(stack := rest)
  {}

  lemma WinnerAsks(p: Precs, raw: seq<Action>, c: nat, deed: Deed)
    requires Wins(p, raw, c) && StrongestOn(p, raw, c, deed)
    ensures deed == DeedOf(raw[c])
  {
    var lo, hi := GroupStart(raw, c), GroupEnd(raw, c);
    var d :| lo <= d < hi && Strongest(p, raw, lo, hi, d) && deed == DeedOf(raw[d]);
    OneStrongest(p, raw, lo, hi, c, d);
  }

  /** The strongest action found for a symbol is what the table entry asks for. */
  lemma WinnerOn(z: Sizes, p: Precs, t: Tables, raw: seq<Action>, rule: Actions.Option<nat>, s: nat, c: nat)
    requires t.Shaped() && s < t.nstate && Sorted(raw) && Wins(p, raw, c)
    requires ActsOn(z, p, t, raw, rule, s, raw[c].sp)
    ensures DeedOn(t, s, z.nterminal, raw[c].sp) == DeedOf(raw[c])
  {
    assert StrongestOn(p, raw, c, DeedOn(t, s, z.nterminal, raw[c].sp));
    WinnerAsks(p, raw, c, DeedOn(t, s, z.nterminal, raw[c].sp));
  }

  /** With state s on top of the stack, the driver shifts, reduces or accepts on a lookahead as the
      strongest action found for it says; without any it takes the default reduction, or an error. */
  lemma DriverFollows(z: Sizes, p: Precs, t: Tables, raw: seq<Action>, rule: Actions.Option<nat>, l: Loop)
    requires l.la.Some? && l.la.value < z.nterminal && CanAct(t, l.m.stack, l.la.value) && Sorted(raw)
    requires ActsOn(z, p, t, raw, rule, Top(l.m.stack), l.la.value)
    ensures forall c | 0 <= c < |raw| && raw[c].sp == l.la.value && Wins(p, raw, c) :: Follows(t, l, raw[c])
    ensures (forall c | 0 <= c < |raw| :: raw[c].sp != l.la.value) ==>
      if rule.Some? then Follows(t, l, Action(l.la.value, REDUCE, rule.value)) else Iterate(t, l) == Recover(t, l)
  {
    TurnByDeed(t, l, z.nterminal);
    forall c | 0 <= c < |raw| && raw[c].sp == l.la.value && Wins(p, raw, c)
      ensures Follows(t, l, raw[c])
    {
      WinnerOn(z, p, t, raw, rule, Top(l.m.stack), c);
    }
  }

  /** A turn of the driver does what an action says. */
  ghost predicate Follows(t: Tables, l: Loop, a: Action)
    requires l.la.Some? && CanAct(t, l.m.stack, l.la.value)
  {
    match a.kind
    case SHIFT =>
      a.arg < t.nstate && Iterate(t, l).m == Push(l.m, a.arg, l.la.value)
    case REDUCE =>
      && a.arg < t.nrule && t.ruleInfo[a.arg].nrhs < |l.m.stack|
      && Iterate(t, l).m == Reduce(t, l.m, a.arg) && Iterate(t, l).la == l.la
    case ACCEPT => Iterate(t, l).m == l.m.(stack := []) && Iterate(t, l).la.None?
    case ERROR => Iterate(t, l) == Recover(t, l)
    case _ => true
  }

  /** After a reduction the driver enters the state, or accepts, as the strongest action found for the
      left-hand side in the uncovered state says. */
  lemma GotoFollows(z: Sizes, p: Precs, t: Tables, raw: seq<Action>, rule: Actions.Option<nat>, m: Machine, r: nat,
                    c: nat)
    requires LrMachine.InRange(t, m.stack) && r < t.nrule && t.ruleInfo[r].nrhs < |m.stack|
    requires Sorted(raw) && Wins(p, raw, c) && raw[c].sp == t.ruleInfo[r].lhs && z.nterminal <= raw[c].sp
    requires ActsOn(z, p, t, raw, rule, Top(m.stack[..|m.stack| - t.ruleInfo[r].nrhs]), raw[c].sp)
    ensures var rest := m.stack[..|m.stack| - t.ruleInfo[r].nrhs];
      && (raw[c].kind.SHIFT? ==> Reduce(t, m, r) == Push(m.(stack := rest), raw[c].arg, raw[c].sp))
      && (raw[c].kind.ACCEPT? ==> Reduce(t, m, r) == m.(stack := []))
  {
    GotoByDeed(t, m, r, z.nterminal);
    WinnerOn(z, p, t, raw, rule, Top(m.stack[..|m.stack| - t.ruleInfo[r].nrhs]), c);
  }
}
