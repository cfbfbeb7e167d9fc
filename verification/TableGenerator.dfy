/** From the actions the generator has found for a state to what the generated parser does: sorting,
    conflict resolution, compression and packing together (src/lemon.c, main, FindActions,
    CompressTables and ReportTable). */
module TableGenerator {
  import opened Actions
  import opened Conflicts
  import opened CompressTables
  import opened ReportTables
  import StableMerge
  import ParseTables

  /** actioncmp. */
  function ActionCmp(x: Action, y: Action): int {
    if x.sp != y.sp then x.sp - y.sp
    else if x.kind != y.kind then Rank(x.kind) - Rank(y.kind)
    else x.arg - y.arg
  }

  lemma RankInjective(k: Kind, l: Kind)
    ensures Rank(k) == Rank(l) ==> k == l
  {}

  lemma ActionCmpTotal()
    ensures StableMerge.TotalPreorder(ActionCmp)
  {
    forall x: Action, y: Action
      ensures ActionCmp(x, y) < 0 <==> ActionCmp(y, x) > 0
    {
      RankInjective(x.kind, y.kind);
    }
    forall x: Action, y: Action, w: Action | ActionCmp(x, y) <= 0 && ActionCmp(y, w) <= 0
      ensures ActionCmp(x, w) <= 0
    {
      RankInjective(x.kind, y.kind);
      RankInjective(y.kind, w.kind);
    }
  }

  /** The list in the order msort has put its nodes. */
  function InOrder(acts: seq<Action>, run: seq<nat>): (r: seq<Action>)
    requires forall k | 0 <= k < |run| :: run[k] < |acts|
    ensures |r| == |run| && forall k | 0 <= k < |run| :: r[k] == acts[run[k]]
  {
    if run == [] then [] else InOrder(acts, run[..|run| - 1]) + [acts[run[|run| - 1]]]
  }

  /** Action_sort leaves the list as conflict resolution expects it. */
  lemma ActionSortSorted(acts: seq<Action>, run: seq<nat>)
    requires StableMerge.Ascending(ActionCmp, acts, run)
    ensures Sorted(InOrder(acts, run))
  {
    var r := InOrder(acts, run);
    forall k, l | 0 <= k < l < |r|
      ensures Ordered(r[k], r[l])
    {
      assert StableMerge.Before(ActionCmp, acts, run[k], run[l]);
      RankInjective(r[k].kind, r[l].kind);
    }
  }

  /** What becomes of the sorted action list of a state: conflicts are resolved, the most frequent
      reduction may become the default, and the list is sorted again. */
  ghost predicate Generated(z: Sizes, p: Precs, raw: seq<Action>, resolved: seq<Action>, rule: Option<nat>,
                            compressed: seq<Action>, final: seq<Action>) {
    && Settles(p, raw, resolved)
    && (if rule.Some? then Count(resolved, 0, rule.value) > 0 &&
      Compressed(z, resolved, rule.value, compressed) else compressed == resolved)
    && multiset(final) == multiset(compressed)
    && forall i | 0 <= i < |raw| :: raw[i].sp < z.nsymbol && Numbered(z, raw[i])
  }

  lemma FinalListed(z: Sizes, p: Precs, raw: seq<Action>, resolved: seq<Action>, rule: Option<nat>,
                    compressed: seq<Action>, a: Action)
    requires Settles(p, raw, resolved) && a in compressed
    requires if rule.Some? then Compressed(z, resolved, rule.value, compressed) else compressed == resolved
    requires forall i | 0 <= i < |raw| :: raw[i].sp < z.nsymbol && Numbered(z, raw[i])
    ensures a.sp <= z.nsymbol && Numbered(z, a)
  {
    var i :| 0 <= i < |compressed| && compressed[i] == a;
    SettleAt(p, raw, resolved, i);
    if rule.Some? { assert a == Defaulted(z, resolved, rule.value, i); }
  }

  lemma GeneratedSettled(z: Sizes, p: Precs, raw: seq<Action>, resolved: seq<Action>, rule: Option<nat>,
                         compressed: seq<Action>, final: seq<Action>)
    requires Generated(z, p, raw, resolved, rule, compressed, final)
    ensures Settled(resolved) && Settled(compressed) && Settled(final)
    ensures forall a | a in resolved :: a.sp < z.nsymbol
    ensures Listed(z, final)
  {
    SettlesSettled(p, raw, resolved);
    if rule.Some? {
      CompressedSettled(z, resolved, rule.value, compressed);
    }
    SettledPermuted(compressed, final, 0);
    forall a | a in final
      ensures a.sp <= z.nsymbol && Numbered(z, a)
    {
      assert a in multiset(final);
      assert a in compressed;
      FinalListed(z, p, raw, resolved, rule, compressed, a);
    }
  }

  /** What the state finally does on a symbol: the strongest of the actions found for it, and if
      none was found, the default reduction or an error. */
  lemma GeneratedMeaning(z: Sizes, p: Precs, raw: seq<Action>, resolved: seq<Action>, rule: Option<nat>,
                         compressed: seq<Action>, final: seq<Action>, sp: nat)
    requires Generated(z, p, raw, resolved, rule, compressed, final) && sp < z.nsymbol
    ensures forall i | 0 <= i < |raw| && raw[i].sp == sp :: StrongestOn(p, raw, i, Meaning(z, final, sp))
    ensures (forall i | 0 <= i < |raw| :: raw[i].sp != sp) ==>
      Meaning(z, final, sp) == if rule.Some? then ParseTables.Apply(rule.value) else ParseTables.Fail
  {
    GeneratedSettled(z, p, raw, resolved, rule, compressed, final);
    SettledPermuted(compressed, final, sp);
    SettledPermuted(compressed, final, z.nsymbol);
    if rule.Some? {
      CompressedMeaning(z, resolved, rule.value, compressed, sp);
    } else {
      assert Found(resolved, z.nsymbol).None?;
    }
    forall i | 0 <= i < |raw| && raw[i].sp == sp
      ensures StrongestOn(p, raw, i, Meaning(z, final, sp))
    {
      SettlesFound(p, raw, resolved, i);
    }
    if forall i | 0 <= i < |raw| :: raw[i].sp != sp {
      SettlesNothingNew(p, raw, resolved, sp);
    }
  }

  /** The strongest of the actions on the symbol of action i asks for this deed. */
  ghost predicate StrongestOn(p: Precs, raw: seq<Action>, i: nat, deed: ParseTables.Deed)
    requires i < |raw|
  {
    var lo, hi := GroupStart(raw, i), GroupEnd(raw, i);
    Rivals(p, raw, lo, hi) && exists c | lo <= c < hi :: Strongest(p, raw, lo, hi, c) && deed == DeedOf(raw[c])
  }

  /** The symbols on which a reduction by the rule is the strongest action found. */
  ghost function Won(p: Precs, raw: seq<Action>, rule: nat): set<nat> {
    set c | 0 <= c < |raw| && Wins(p, raw, c) && Reduces(raw[c], rule) :: raw[c].sp
  }

  /** The default reduction of a state: no rule wins more symbols, of the rules that win as many it wins
      the first one, and there is none unless some rule wins two. */
  ghost predicate BestDefault(p: Precs, raw: seq<Action>, rule: Option<nat>) {
    match rule
    case None => forall r: nat :: |Won(p, raw, r)| < 2
    case Some(best) =>
      && |Won(p, raw, best)| >= 2
      && (forall r: nat :: |Won(p, raw, r)| <= |Won(p, raw, best)|)
      && (forall r: nat | r != best && |Won(p, raw, r)| == |Won(p, raw, best)| :: WinsFirst(p, raw, best, r))
  }

  ghost predicate WinsFirst(p: Precs, raw: seq<Action>, best: nat, r: nat) {
    exists sp | sp in Won(p, raw, best) :: forall q | q in Won(p, raw, r) :: sp < q
  }

  /** The symbols of the reductions by a rule, from position from on. */
  function ReducedOn(acts: seq<Action>, from: nat, rule: nat): set<nat>
    requires from <= |acts|
  {
    set i | from <= i < |acts| && Reduces(acts[i], rule) :: acts[i].sp
  }

  lemma ReducedNext(acts: seq<Action>, from: nat, rule: nat)
    requires Settled(acts) && from < |acts|
    ensures var rest := ReducedOn(acts, from + 1, rule);
      if Reduces(acts[from], rule) then
        acts[from].sp !in rest && ReducedOn(acts, from, rule) == rest + {acts[from].sp}
      else
        ReducedOn(acts, from, rule) == rest
  {}

  lemma {:induction false} ReducedCount(acts: seq<Action>, from: nat, rule: nat)
    requires Settled(acts) && from <= |acts|
    ensures |ReducedOn(acts, from, rule)| == Count(acts, from, rule)
    decreases |acts| - from
  {
    if from < |acts| {
      ReducedCount(acts, from + 1, rule);
      ReducedNext(acts, from, rule);
    } else {
      assert ReducedOn(acts, from, rule) == {};
    }
  }

  /** What resolution leaves of the reductions by a rule are those that win. */
  lemma SurvivorWins(p: Precs, raw: seq<Action>, resolved: seq<Action>, i: nat)
    requires Settles(p, raw, resolved) && i < |raw|
    ensures Wins(p, raw, i) <==> Live(resolved[i])
    ensures Live(resolved[i]) ==> resolved[i] == raw[i]
  {
    SettleAt(p, raw, resolved, i);
    var lo, hi := GroupStart(raw, i), GroupEnd(raw, i);
    ChampionIsStrongest(p, raw, lo, hi);
    if Wins(p, raw, i) { OneStrongest(p, raw, lo, hi, i, Champion(p, raw, lo, hi)); }
  }

  lemma WonCount(p: Precs, raw: seq<Action>, resolved: seq<Action>, rule: nat)
    requires Settles(p, raw, resolved)
    ensures Won(p, raw, rule) == ReducedOn(resolved, 0, rule)
    ensures |Won(p, raw, rule)| == Count(resolved, 0, rule)
  {
    forall i | 0 <= i < |raw|
      ensures Wins(p, raw, i) <==> Live(resolved[i])
      ensures Live(resolved[i]) ==> resolved[i] == raw[i]
    {
      SurvivorWins(p, raw, resolved, i);
    }
    SettlesSettled(p, raw, resolved);
    ReducedCount(resolved, 0, rule);
  }

  lemma EarlierWins(p: Precs, raw: seq<Action>, resolved: seq<Action>, rule: nat, r: nat)
    requires Settles(p, raw, resolved) && Earlier(resolved, rule, r)
    ensures WinsFirst(p, raw, rule, r)
  {
    WonCount(p, raw, resolved, rule);
    WonCount(p, raw, resolved, r);
    SettlesSettled(p, raw, resolved);
    var f :| 0 <= f < |resolved| && Reduces(resolved[f], rule) && forall k | 0 <= k <= f :: !Reduces(resolved[k], r);
    forall q | q in Won(p, raw, r)
      ensures resolved[f].sp < q
    {
      var k :| 0 <= k < |resolved| && Reduces(resolved[k], r) && resolved[k].sp == q;
      assert Ordered(raw[f], raw[k]);
    }
    assert resolved[f].sp in Won(p, raw, rule);
  }

  /** Compression picks the best default. */
  lemma CompressedBest(p: Precs, raw: seq<Action>, resolved: seq<Action>, rule: Option<nat>)
    requires Settles(p, raw, resolved)
    requires if rule.None? then forall r: nat :: Count(resolved, 0, r) < 2
      else Count(resolved, 0, rule.value) >= 2 && MostFrequent(resolved, rule, Count(resolved, 0, rule.value))
    ensures BestDefault(p, raw, rule)
  {
    forall r: nat
      ensures |Won(p, raw, r)| == Count(resolved, 0, r)
      ensures rule.Some? && r != rule.value && Count(resolved, 0, r) == Count(resolved, 0, rule.value) ==>
        WinsFirst(p, raw, rule.value, r)
    {
      WonCount(p, raw, resolved, r);
      if rule.Some? && r != rule.value && Count(resolved, 0, r) == Count(resolved, 0, rule.value) {
        EarlierWins(p, raw, resolved, rule.value, r);
      }
    }
  }

  /** What the parser does in a state on a symbol, given the sorted list of the actions found: the
      strongest one, and without any, the default reduction or an error. */
  ghost predicate ActsOn(z: Sizes, p: Precs, t: ParseTables.Tables, raw: seq<Action>, rule: Option<nat>, s: nat,
                         sp: nat)
    requires t.Shaped() && s < t.nstate
  {
    var deed := ParseTables.DeedOn(t, s, z.nterminal, sp);
    && (forall i | 0 <= i < |raw| && raw[i].sp == sp :: StrongestOn(p, raw, i, deed))
    && ((forall i | 0 <= i < |raw| :: raw[i].sp != sp) ==>
      deed == if rule.Some? then ParseTables.Apply(rule.value) else ParseTables.Fail)
  }

  /** The whole way: what the generated parser's two table reads find in state s is the strongest of
      the actions found for the symbol, and if there was none, the state's default reduction or an
      error. */
  lemma GeneratedParserActs(z: Sizes, p: Precs, raws: seq<seq<Action>>, resolved: seq<seq<Action>>,
                            rules: seq<Option<nat>>, compressed: seq<seq<Action>>, final: seq<seq<Action>>,
                            t: ParseTables.Tables, s: nat, sp: nat)
    requires |raws| == |resolved| == |rules| == |compressed| == |final| == z.nstate && s < z.nstate
    requires z.nterminal <= z.nsymbol && sp < z.nsymbol
    requires Generated(z, p, raws[s], resolved[s], rules[s], compressed[s], final[s])
    requires Faithful(z, final, t)
    ensures ActsOn(z, p, t, raws[s], rules[s], s, sp)
  {
    GeneratedMeaning(z, p, raws[s], resolved[s], rules[s], compressed[s], final[s], sp);
  }
}
