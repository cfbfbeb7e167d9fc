/** Default actions (src/lemon.c, CompressTables): the most frequent reduction of a state becomes its
    default, and what the state does on the symbols it had an action for stays the same. */
module CompressTables {
  import opened Actions
  import ParseTables

  predicate Reduces(a: Action, rule: nat) {
    a.kind.REDUCE? && a.arg == rule
  }

  /** How many of the actions from position from on reduce by a rule. */
  function Count(acts: seq<Action>, from: nat, rule: nat): nat
    requires from <= |acts|
    decreases |acts| - from
  {
    if from == |acts| then 0 else Count(acts, from + 1, rule) + if Reduces(acts[from], rule) then 1 else 0
  }

  lemma {:induction false} CountFrom(acts: seq<Action>, from: nat, rule: nat)
    requires from <= |acts|
    ensures Count(acts, from, rule) <= Count(acts, 0, rule)
    ensures (forall k | 0 <= k < from :: !Reduces(acts[k], rule)) ==> Count(acts, from, rule) == Count(acts, 0, rule)
  {
    if from > 0 { CountFrom(acts, from - 1, rule); }
  }

  lemma {:induction false} CountNone(acts: seq<Action>, from: nat, rule: nat)
    requires from <= |acts|
    ensures Count(acts, from, rule) == 0 <==> forall k | from <= k < |acts| :: !Reduces(acts[k], rule)
    decreases |acts| - from
  {
    if from < |acts| { CountNone(acts, from + 1, rule); }
  }

  /** The first reduction by rule comes before all reductions by r. */
  ghost predicate Earlier(acts: seq<Action>, rule: nat, r: nat) {
    exists f | 0 <= f < |acts| :: Reduces(acts[f], rule) && forall k | 0 <= k <= f :: !Reduces(acts[k], r)
  }

  /** rule is reduced by in nbest actions, no rule in more, and of the rules reduced by in as many it is
      the first. */
  ghost predicate MostFrequent(acts: seq<Action>, rule: Option<nat>, nbest: nat) {
    && nbest == (if rule.Some? then Count(acts, 0, rule.value) else 0)
    && (forall r: nat :: Count(acts, 0, r) <= nbest)
    && (rule.Some? ==>
      forall r: nat | r != rule.value && Count(acts, 0, r) == nbest :: Earlier(acts, rule.value, r))
  }

  /** Action i once rule is the default: the first reduction by it moves to the symbol {default} and
      the others go out of use. */
  function Defaulted(z: Sizes, acts: seq<Action>, rule: nat, i: nat): Action
    requires i < |acts|
  {
    if !Reduces(acts[i], rule) then acts[i]
    else if forall k | 0 <= k < i :: !Reduces(acts[k], rule) then acts[i].(sp := z.nsymbol)
    else acts[i].(kind := NOT_USED)
  }

  ghost predicate Compressed(z: Sizes, acts: seq<Action>, rule: nat, after: seq<Action>) {
    |after| == |acts| && forall i | 0 <= i < |acts| :: after[i] == Defaulted(z, acts, rule, i)
  }

  lemma FirstReduction(acts: seq<Action>, rule: nat) returns (f: nat)
    requires Count(acts, 0, rule) > 0
    ensures f < |acts| && Reduces(acts[f], rule) && forall k | 0 <= k < f :: !Reduces(acts[k], rule)
  {
    CountNone(acts, 0, rule);
    f := 0;
    while !Reduces(acts[f], rule)
      invariant f < |acts| && (forall k | 0 <= k < f :: !Reduces(acts[k], rule))
      invariant exists k | f <= k < |acts| :: Reduces(acts[k], rule)
      decreases |acts| - f
    {
      f := f + 1;
    }
  }

  /** Where there was an action, the state does the same as before, directly or by default; where
      there was none, it now reduces by the default rule. */
  lemma CompressedMeaning(z: Sizes, acts: seq<Action>, rule: nat, after: seq<Action>, sp: nat)
    requires Settled(acts) && Compressed(z, acts, rule, after) && Count(acts, 0, rule) > 0
    requires (forall a | a in acts :: a.sp < z.nsymbol) && sp < z.nsymbol
    ensures Settled(after)
    ensures Meaning(z, after, sp) == if Found(acts, sp).Some? then Meaning(z, acts, sp) else ParseTables.Apply(rule)
    ensures Default(z, after) == ParseTables.Apply(rule) && Default(z, acts) == ParseTables.Fail
  {
    CompressedSettled(z, acts, rule, after);
    DefaultFound(z, acts, rule, after);
    CompressedFound(z, acts, rule, after, sp);
  }

  /** On {default} there is the first reduction by the rule, where there was nothing. */
  lemma DefaultFound(z: Sizes, acts: seq<Action>, rule: nat, after: seq<Action>)
    requires Settled(after) && Compressed(z, acts, rule, after) && Count(acts, 0, rule) > 0
    requires forall a | a in acts :: a.sp < z.nsymbol
    ensures Found(acts, z.nsymbol).None?
    ensures Found(after, z.nsymbol).Some? && Reduces(Found(after, z.nsymbol).value, rule)
  {
    var f := FirstReduction(acts, rule);
    assert after[f] == Defaulted(z, acts, rule, f);
    FoundLive(after, z.nsymbol);
  }

  /** On another symbol the action stays, unless it was a reduction by the rule. */
  lemma CompressedFound(z: Sizes, acts: seq<Action>, rule: nat, after: seq<Action>, sp: nat)
    requires Settled(acts) && Settled(after) && Compressed(z, acts, rule, after) && sp < z.nsymbol
    ensures Found(after, sp) == match Found(acts, sp) case Some(a) => if Reduces(a, rule) then None else Some(a)
      case None => None
  {
    FoundLive(after, sp);
    FoundLive(acts, sp);
    if Found(acts, sp).Some? {
      var i :| 0 <= i < |acts| && acts[i] == Found(acts, sp).value;
      assert after[i] == Defaulted(z, acts, rule, i);
    }
    if Found(after, sp).Some? {
      var i :| 0 <= i < |acts| && after[i] == Found(after, sp).value;
      assert after[i] == Defaulted(z, acts, rule, i);
    }
  }

  lemma CompressedSettled(z: Sizes, acts: seq<Action>, rule: nat, after: seq<Action>)
    requires Settled(acts) && Compressed(z, acts, rule, after) && forall a | a in acts :: a.sp < z.nsymbol
    ensures Settled(after)
  {
    forall i, j | 0 <= i < j < |after| && Live(after[i]) && Live(after[j])
      ensures after[i].sp != after[j].sp
    {
      assert after[i] == Defaulted(z, acts, rule, i) && after[j] == Defaulted(z, acts, rule, j);
    }
  }

  /** The same of the rules among the first i actions. */
  ghost predicate BestSoFar(acts: seq<Action>, i: nat, rule: Option<nat>, nbest: nat) {
    && i <= |acts| && nbest == (if rule.Some? then Count(acts, 0, rule.value) else 0)
    && (rule.Some? ==> nbest > 0 && exists f | 0 <= f < i :: Reduces(acts[f], rule.value))
    && (forall k | 0 <= k < i && acts[k].kind.REDUCE? :: rule.Some? && Count(acts, 0, acts[k].arg) <= nbest)
    && (forall k | 0 <= k < i && acts[k].kind.REDUCE? && acts[k].arg != rule.value
        && Count(acts, 0, acts[k].arg) == nbest :: Earlier(acts, rule.value, acts[k].arg))
  }

  /** Action i reduces by another rule, in n actions from i on. */
  lemma BestNext(acts: seq<Action>, i: nat, rule: Option<nat>, nbest: nat, n: nat)
    requires BestSoFar(acts, i, rule, nbest) && i < |acts| && acts[i].kind.REDUCE? && rule != Some(acts[i].arg)
    requires n == Count(acts, i, acts[i].arg) <= Count(acts, 0, acts[i].arg)
    ensures n > nbest ==> BestSoFar(acts, i + 1, Some(acts[i].arg), n)
    ensures n <= nbest ==> BestSoFar(acts, i + 1, rule, nbest)
  {
    var rp := acts[i].arg;
    CountFrom(acts, i, rp);
    CountNone(acts, i, rp);
    if k :| 0 <= k < i && Reduces(acts[k], rp) {
      assert Count(acts, 0, rp) <= nbest;
    } else {
      assert n == Count(acts, 0, rp);
      if n == nbest {
        var f :| 0 <= f < i && Reduces(acts[f], rule.value);
        assert Earlier(acts, rule.value, rp);
      }
    }
  }

  lemma BestOfAll(acts: seq<Action>, rule: Option<nat>, nbest: nat)
    requires BestSoFar(acts, |acts|, rule, nbest)
    ensures MostFrequent(acts, rule, nbest)
  {
    forall r: nat
      ensures Count(acts, 0, r) <= nbest
      ensures rule.Some? && r != rule.value && Count(acts, 0, r) == nbest ==> Earlier(acts, rule.value, r)
    {
      CountNone(acts, 0, r);
    }
  }

  /** The rule a state reduces by most often, and how often. */
  method FindBest(acts: array<Action>) returns (rbest: Option<nat>, nbest: nat)
    ensures MostFrequent(acts[..], rbest, nbest)
  {
    nbest, rbest := 0, None;
    ghost var s := acts[..];
    for i := 0 to acts.Length
      invariant BestSoFar(s, i, rbest, nbest)
    {
      if !acts[i].kind.REDUCE? { continue; }
      var rp := acts[i].arg;
      if rbest == Some(rp) { continue; }
      var n := CountLater(acts, i, rbest);
      CountFrom(s, i, rp);
      BestNext(s, i, rbest, nbest, n);
      if n > nbest {
        nbest := n;
        rbest := Some(rp);
      }
    }
    BestOfAll(s, rbest, nbest);
  }

  /** How many actions from i on reduce by the rule of action i, which is not the best one so far. */
  method CountLater(acts: array<Action>, i: nat, rbest: Option<nat>) returns (n: nat)
    requires i < acts.Length && acts[i].kind.REDUCE? && rbest != Some(acts[i].arg)
    ensures n == Count(acts[..], i, acts[i].arg)
  {
    ghost var s := acts[..];
    n := 1;
    for j := i + 1 to acts.Length
      invariant n + Count(s, j, s[i].arg) == Count(s, i, s[i].arg)
    {
      if !acts[j].kind.REDUCE? { continue; }
      var rp2 := acts[j].arg;
      if rbest == Some(rp2) { continue; }
      if rp2 == acts[i].arg { n := n + 1; }
    }
  }

  /** Make the most frequent reduction of a state its default, if there are two at least. Sorting
      the list afterwards is left to the caller. */
  method CompressState(z: Sizes, acts: array<Action>) returns (rbest: Option<nat>)
    modifies acts
    ensures rbest.Some? ==>
      && Count(old(acts[..]), 0, rbest.value) >= 2
      && MostFrequent(old(acts[..]), rbest, Count(old(acts[..]), 0, rbest.value))
    ensures rbest.Some? ==> Compressed(z, old(acts[..]), rbest.value, acts[..])
    ensures rbest.None? ==> acts[..] == old(acts[..]) && forall r: nat :: Count(acts[..], 0, r) < 2
  {
    ghost var s := acts[..];
    var nbest;
    rbest, nbest := FindBest(acts);
    if nbest < 2 { return None; }
    var rule := rbest.value;
    ghost var first := FirstReduction(s, rule);
    var i := 0;
    while !(acts[i].kind.REDUCE? && acts[i].arg == rule)
      invariant i <= first && acts[..] == s && forall k | 0 <= k < i :: !Reduces(s[k], rule)
      decreases first - i
    {
      i := i + 1;
    }
    acts[i] := acts[i].(sp := z.nsymbol);
    var f := i;
    i := i + 1;
    while i < acts.Length
      invariant f < i <= acts.Length
      invariant forall k | 0 <= k < i :: acts[k] == Defaulted(z, s, rule, k)
      invariant forall k | i <= k < acts.Length :: acts[k] == s[k]
    {
      if acts[i].kind.REDUCE? && acts[i].arg == rule { acts[i] := acts[i].(kind := NOT_USED); }
      i := i + 1;
    }
  }
}
