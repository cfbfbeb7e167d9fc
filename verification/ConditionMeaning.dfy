/** What the plain meaning of a section comes to: the sections of a chain are the branches of an if with
    else-ifs, nested in a branch of the chain around it. */
module ConditionMeaning {
  import opened Actions
  import opened ConditionCache

  /** One of the sections that come before section i in its chain is in use. */
  ghost predicate UsedBefore(t: seq<Context>, ncomp: nat, valid: seq<bool>, matches: seq<bool>, i: nat)
    requires Tree(t, ncomp) && |valid| == ncomp && |matches| == |t| && i < |t|
  {
    exists j | 0 <= j < |t| :: Later(t, j, i) && Value(t, ncomp, valid, matches, j) == TRUE
  }

  lemma {:induction false} LaterAbove(t: seq<Context>, i: nat, j: nat)
    requires Forward(t) && i < |t| && Later(t, i, j)
    ensures i < j < |t|
    decreases |t| - i
  {
    if t[i].next.value != j { LaterAbove(t, t[i].next.value, j); }
  }

  /** What comes before a section in its chain is its predecessor or comes before that. */
  lemma {:induction false} LaterPrev(t: seq<Context>, ncomp: nat, j: nat, i: nat)
    requires Tree(t, ncomp) && j < |t| && i < |t|
    ensures Later(t, j, i) <==> t[i].prev.Some? && (t[i].prev.value == j || Later(t, j, t[i].prev.value))
    decreases |t| - j
  {
    assert Placed(t, ncomp, i) && Placed(t, ncomp, j);
    if t[j].next.Some? {
      LaterPrev(t, ncomp, t[j].next.value, i);
    }
  }

  lemma {:induction false} TakenMeans(t: seq<Context>, ncomp: nat, valid: seq<bool>, matches: seq<bool>, i: nat)
    requires Tree(t, ncomp) && |valid| == ncomp && |matches| == |t| && i < |t|
    ensures t[i].prev.Some? ==> t[i].prev.value < |t|
    ensures t[i].prev.Some? && Taken(t, ncomp, valid, matches, t[i].prev.value) <==>
      UsedBefore(t, ncomp, valid, matches, i)
    decreases i
  {
    assert Placed(t, ncomp, i);
    forall j | 0 <= j < |t|
      ensures Later(t, j, i) <==> t[i].prev.Some? && (t[i].prev.value == j || Later(t, j, t[i].prev.value))
    {
      LaterPrev(t, ncomp, j, i);
    }
    if t[i].prev.Some? { TakenMeans(t, ncomp, valid, matches, t[i].prev.value); }
  }

  /** A section is in use exactly if the section it is nested in is, none before it in its chain is, the
      field it looks at is known and its comparison holds. It is undecided exactly if the section it is
      nested in is, or if that is in use, none before it in its chain is and its field is not known. */
  lemma ValueMeans(t: seq<Context>, ncomp: nat, valid: seq<bool>, matches: seq<bool>, i: nat)
    requires Tree(t, ncomp) && |valid| == ncomp && |matches| == |t| && i < |t|
    ensures t[i].comp < ncomp && (t[i].parent.Some? ==> t[i].parent.value < |t|)
    ensures var inside := if t[i].parent.Some? && t[i].parent.value > 0
        then Value(t, ncomp, valid, matches, t[i].parent.value) else TRUE;
      && (Value(t, ncomp, valid, matches, i) == TRUE <==>
        inside == TRUE && !UsedBefore(t, ncomp, valid, matches, i) && valid[t[i].comp] && matches[i])
      && (Value(t, ncomp, valid, matches, i) == UNSET <==>
        inside == UNSET || (inside == TRUE && !UsedBefore(t, ncomp, valid, matches, i) && !valid[t[i].comp]))
  {
    assert Placed(t, ncomp, i);
    TakenMeans(t, ncomp, valid, matches, i);
  }
}
