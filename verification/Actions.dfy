/** The parser actions of a generated state (src/lemon.c, struct action). */
module Actions {
  import ParseTables

  /** enum e_action, in its order. */
  datatype Kind = SHIFT | ACCEPT | REDUCE | ERROR | CONFLICT | SH_RESOLVED | RD_RESOLVED | NOT_USED

  /** sp is the index of the lookahead symbol; arg is the index of the state a SHIFT enters or of
      the rule a REDUCE applies. */
  datatype Action = Action(sp: nat, kind: Kind, arg: nat)

  /** The counts that give every number in the tables its meaning. Symbol indices below nterminal
      are terminals, nonterminals follow, and nsymbol itself is the symbol {default}. */
  datatype Sizes = Sizes(nstate: nat, nrule: nat, nterminal: nat, nsymbol: nat)

  /** The action takes part in parsing. */
  predicate Live(a: Action) {
    a.kind.SHIFT? || a.kind.ACCEPT? || a.kind.REDUCE? || a.kind.ERROR?
  }

  /** compute_action: the number for an action in the tables, negative for a dead action. */
  function ComputeAction(z: Sizes, a: Action): int {
    match a.kind
    case SHIFT => a.arg
    case REDUCE => a.arg + z.nstate
    case ERROR => z.nstate + z.nrule
    case ACCEPT => z.nstate + z.nrule + 1
    case _ => -1
  }

  /** The operand of the action is a state or a rule there is. */
  predicate Numbered(z: Sizes, a: Action) {
    (a.kind.SHIFT? ==> a.arg < z.nstate) && (a.kind.REDUCE? ==> a.arg < z.nrule)
  }

  /** What the parser is to do. */
  function DeedOf(a: Action): ParseTables.Deed {
    match a.kind
    case SHIFT => ParseTables.Enter(a.arg)
    case REDUCE => ParseTables.Apply(a.arg)
    case ERROR => ParseTables.Fail
    case ACCEPT => ParseTables.Accept
    case _ => ParseTables.Nothing
  }

  /** The number is the one that asks the parser for it. */
  lemma ActionRead(z: Sizes, a: Action)
    requires Live(a) && Numbered(z, a)
    ensures ComputeAction(z, a) >= 0
    ensures ParseTables.DeedIn(z.nstate, z.nrule, ComputeAction(z, a)) == DeedOf(a)
  {}

  /** Every symbol has at most one live action. */
  ghost predicate Settled(acts: seq<Action>) {
    forall i, j | 0 <= i < j < |acts| && Live(acts[i]) && Live(acts[j]) :: acts[i].sp != acts[j].sp
  }

  datatype Option<T> = None | Some(value: T)

  /** The last live action on a symbol; in a settled list, the only one. */
  function Found(acts: seq<Action>, sp: nat): (r: Option<Action>)
    ensures r.Some? ==> r.value in acts && Live(r.value) && r.value.sp == sp
  {
    if acts == [] then None
    else
      var last := acts[|acts| - 1];
      if Live(last) && last.sp == sp then Some(last) else Found(acts[..|acts| - 1], sp)
  }

  /** What a state does by default: reduce by the rule made the action on {default}, or fail. */
  function Default(z: Sizes, acts: seq<Action>): ParseTables.Deed {
    match Found(acts, z.nsymbol)
    case Some(a) => DeedOf(a)
    case None => ParseTables.Fail
  }

  /** What a state does on a symbol. */
  function Meaning(z: Sizes, acts: seq<Action>, sp: nat): ParseTables.Deed {
    match Found(acts, sp)
    case Some(a) => DeedOf(a)
    case None => Default(z, acts)
  }

  lemma {:induction false} FoundLive(acts: seq<Action>, sp: nat)
    ensures forall i | 0 <= i < |acts| && Live(acts[i]) && acts[i].sp == sp :: Found(acts, sp).Some?
    ensures Settled(acts) ==>
      forall i | 0 <= i < |acts| && Live(acts[i]) && acts[i].sp == sp :: Found(acts, sp) == Some(acts[i])
  {
    if acts != [] {
      var rest, last := acts[..|acts| - 1], acts[|acts| - 1];
      FoundLive(rest, sp);
      assert forall i | 0 <= i < |rest| :: rest[i] == acts[i];
    }
  }

  lemma {:induction false} TwiceIn(acts: seq<Action>, a: Action)
    ensures multiset(acts)[a] >= 1 <==> a in acts
    ensures multiset(acts)[a] >= 2 <==> exists i, j :: 0 <= i < j < |acts| && acts[i] == acts[j] == a
  {
    if acts != [] {
      var rest, last := acts[..|acts| - 1], acts[|acts| - 1];
      assert acts == rest + [last];
      TwiceIn(rest, a);
      if last == a && a in rest {
        var i :| 0 <= i < |rest| && rest[i] == a;
        assert acts[i] == acts[|acts| - 1] == a;
      }
      if exists i, j :: 0 <= i < j < |rest| && rest[i] == rest[j] == a {
        var i, j :| 0 <= i < j < |rest| && rest[i] == rest[j] == a;
        assert acts[i] == acts[j] == a;
      }
    }
  }

  /** The order of a settled list does not matter. */
  lemma SettledPermuted(acts: seq<Action>, acts': seq<Action>, sp: nat)
    requires Settled(acts) && multiset(acts) == multiset(acts')
    ensures Settled(acts') && Found(acts', sp) == Found(acts, sp)
  {
    forall i, j | 0 <= i < j < |acts'| && Live(acts'[i]) && Live(acts'[j])
      ensures acts'[i].sp != acts'[j].sp
    {
      TwiceIn(acts, acts'[i]);
      TwiceIn(acts', acts'[i]);
      TwiceIn(acts, acts'[j]);
      TwiceIn(acts', acts'[j]);
    }
    FoundLive(acts, sp);
    FoundLive(acts', sp);
    if Found(acts, sp).Some? { TwiceIn(acts, Found(acts, sp).value); TwiceIn(acts', Found(acts, sp).value); }
    if Found(acts', sp).Some? { TwiceIn(acts, Found(acts', sp).value); TwiceIn(acts', Found(acts', sp).value); }
  }
}
