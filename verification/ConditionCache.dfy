/** Conditional sections of the configuration and their result cache (src/configfile-glue.c,
    config_check_cond_cached and config_check_cond_nocache; src/configfile.c,
    config_patch_connection). */
module ConditionCache {
  import opened Actions

  datatype Result = UNSET | FALSE | TRUE

  /** data_config: the section this one is nested in, its neighbours in an if / else-if chain, and
      the part of the request its condition looks at. A section's number is its context_ndx. */
  datatype Context = Context(parent: Option<nat>, prev: Option<nat>, next: Option<nat>, comp: nat)

  /** Sections as the configuration parser numbers and links them; section 0 is the global one. */
  ghost predicate Tree(t: seq<Context>, ncomp: nat) {
    Forward(t) && forall i | 0 <= i < |t| :: Placed(t, ncomp, i)
  }

  /** A chain goes on with later sections. */
  ghost predicate Forward(t: seq<Context>) {
    forall i | 0 <= i < |t| && t[i].next.Some? :: i < t[i].next.value < |t|
  }

  ghost predicate Placed(t: seq<Context>, ncomp: nat, i: nat)
    requires i < |t|
  {
    && t[i].comp < ncomp
    && (t[i].parent.Some? ==> t[i].parent.value < i)
    && (t[i].prev.Some? ==>
          && t[i].prev.value < i && t[t[i].prev.value].next == Some(i)
          && t[t[i].prev.value].parent == t[i].parent)
    && (t[i].next.Some? ==> i < t[i].next.value < |t| && t[t[i].next.value].prev == Some(i))
  }

  /** What a section's own condition yields; matches gives the outcome of every comparison. */
  function Decide(t: seq<Context>, valid: seq<bool>, matches: seq<bool>, i: nat): Result
    requires i < |t| && t[i].comp < |valid| && |matches| == |t|
  {
    if !valid[t[i].comp] then UNSET else if matches[i] then TRUE else FALSE
  }

  /** A parent other than the global section. */
  predicate Nested(t: seq<Context>, i: nat)
    requires i < |t|
  {
    t[i].parent.Some? && t[i].parent.value > 0
  }

  /** The remains of a chain set to FALSE. */
  function Silence(t: seq<Context>, c: seq<Result>, k: Option<nat>): (c': seq<Result>)
    requires |c| == |t| && (k.Some? ==> k.value < |t|)
    requires Forward(t)
    ensures |c'| == |c|
    decreases if k.Some? then |t| - k.value else 0
  {
    if k == None then c else Silence(t, c[k.value := FALSE], t[k.value].next)
  }

  /** config_check_cond_cached: the cache afterwards, and the answer. */
  function Cached(t: seq<Context>, ncomp: nat, valid: seq<bool>, matches: seq<bool>, c: seq<Result>, i: nat)
    : (r: (seq<Result>, Result))
    requires Tree(t, ncomp) && |valid| == ncomp && |matches| == |t| == |c| && i < |t|
    ensures |r.0| == |c|
    decreases i, 1
  {
    assert Placed(t, ncomp, i);
    if c[i] != UNSET then (c, c[i])
    else
      var (c1, own) := Uncached(t, ncomp, valid, matches, c, i);
      var c2 := c1[i := own];
      var c3 := if own == TRUE then Silence(t, c2, t[i].next) else c2;
      (c3, c3[i])
  }

  /** config_check_cond_nocache. */
  function Uncached(t: seq<Context>, ncomp: nat, valid: seq<bool>, matches: seq<bool>, c: seq<Result>, i: nat)
    : (r: (seq<Result>, Result))
    requires Tree(t, ncomp) && |valid| == ncomp && |matches| == |t| == |c| && i < |t|
    ensures |r.0| == |c|
    decreases i, 0
  {
    assert Placed(t, ncomp, i);
    var (c1, above) := if Nested(t, i) then Cached(t, ncomp, valid, matches, c, t[i].parent.value) else (c, TRUE);
    if above != TRUE then (c1, above)
    else
      var c2 := if t[i].prev.Some? then Cached(t, ncomp, valid, matches, c1, t[i].prev.value).0 else c1;
      if t[i].prev.Some? && c2[i] == FALSE then (c2, FALSE) else (c2, Decide(t, valid, matches, i))
  }

  /** The plain meaning of a section's condition, without any cache. */
  function Value(t: seq<Context>, ncomp: nat, valid: seq<bool>, matches: seq<bool>, i: nat): Result
    requires Tree(t, ncomp) && |valid| == ncomp && |matches| == |t| && i < |t|
    decreases i, 1
  {
    assert Placed(t, ncomp, i);
    if Nested(t, i) && Value(t, ncomp, valid, matches, t[i].parent.value) != TRUE then
      Value(t, ncomp, valid, matches, t[i].parent.value)
    else if t[i].prev.Some? && Taken(t, ncomp, valid, matches, t[i].prev.value) then FALSE
    else Decide(t, valid, matches, i)
  }

  /** Section i or one before it in its chain is the one to be used. */
  predicate Taken(t: seq<Context>, ncomp: nat, valid: seq<bool>, matches: seq<bool>, i: nat)
    requires Tree(t, ncomp) && |valid| == ncomp && |matches| == |t| && i < |t|
    decreases i, 2
  {
    assert Placed(t, ncomp, i);
    Value(t, ncomp, valid, matches, i) == TRUE || (t[i].prev.Some? && Taken(t, ncomp, valid, matches, t[i].prev.value))
  }

  /** Every section of the chain from k on is FALSE in the cache. */
  ghost predicate Silent(t: seq<Context>, c: seq<Result>, k: Option<nat>)
    requires |c| == |t| && (k.Some? ==> k.value < |t|)
    requires Forward(t)
    decreases if k.Some? then |t| - k.value else 0
  {
    k.Some? ==> c[k.value] == FALSE && Silent(t, c, t[k.value].next)
  }

  lemma {:induction false} SilenceSilent(t: seq<Context>, c: seq<Result>, k: Option<nat>)
    requires |c| == |t| && (k.Some? ==> k.value < |t|) && Forward(t)
    ensures Silent(t, Silence(t, c, k), k)
    ensures forall x | 0 <= x < |t| :: Silence(t, c, k)[x] == c[x] || Silence(t, c, k)[x] == FALSE
    ensures forall x | 0 <= x < |t| && (k.None? || x < k.value) :: Silence(t, c, k)[x] == c[x]
    decreases if k.Some? then |t| - k.value else 0
  {
    if k.Some? {
      var c', next := c[k.value := FALSE], t[k.value].next;
      SilenceSilent(t, c', next);
      assert Silence(t, c, k)[k.value] == FALSE;
    }
  }

  /** Silencing touches only sections that follow another one under the same parent. */
  lemma {:induction false} SilenceWithin(t: seq<Context>, ncomp: nat, c: seq<Result>, k: Option<nat>, x: nat)
    requires Tree(t, ncomp) && |c| == |t| && (k.Some? ==> k.value < |t| && t[k.value].prev.Some?) && x < |t|
    ensures Silence(t, c, k)[x] != c[x] ==> k.Some? && t[x].prev.Some? && t[x].parent == t[k.value].parent
    decreases if k.Some? then |t| - k.value else 0
  {
    if k.Some? {
      assert Placed(t, ncomp, k.value);
      var next := t[k.value].next;
      if next.Some? { assert Placed(t, ncomp, next.value); }
      SilenceWithin(t, ncomp, c[k.value := FALSE], next, x);
    }
  }

  /** A silent chain stays silent while FALSE entries that follow another section stay FALSE. */
  lemma {:induction false} SilentKept(t: seq<Context>, ncomp: nat, c: seq<Result>, c': seq<Result>, k: Option<nat>)
    requires Tree(t, ncomp) && |c| == |t| == |c'| && (k.Some? ==> k.value < |t| && t[k.value].prev.Some?)
    requires forall x | 0 <= x < |t| && c[x] == FALSE && t[x].prev.Some? :: c'[x] == FALSE
    requires Silent(t, c, k)
    ensures Silent(t, c', k)
    decreases if k.Some? then |t| - k.value else 0
  {
    if k.Some? {
      assert Placed(t, ncomp, k.value);
      var next := t[k.value].next;
      if next.Some? { assert Placed(t, ncomp, next.value); }
      SilentKept(t, ncomp, c, c', next);
    }
  }

  /** A check leaves sections alone that are nested in section i or a later one. */
  lemma {:induction false} CachedLocal(t: seq<Context>, ncomp: nat, valid: seq<bool>, matches: seq<bool>,
                                       c: seq<Result>, i: nat, x: nat)
    requires Tree(t, ncomp) && |valid| == ncomp && |matches| == |t| == |c| && i < |t| && x < |t|
    requires t[x].parent.Some? && t[x].parent.value >= i
    ensures Cached(t, ncomp, valid, matches, c, i).0[x] == c[x]
    decreases i, 1
  {
    assert Placed(t, ncomp, i) && Placed(t, ncomp, x);
    if c[i] == UNSET {
      UncachedLocal(t, ncomp, valid, matches, c, i, x);
      var (c1, own) := Uncached(t, ncomp, valid, matches, c, i);
      if t[i].next.Some? { assert Placed(t, ncomp, t[i].next.value); }
      SilenceWithin(t, ncomp, c1[i := own], t[i].next, x);
    }
  }

  lemma {:induction false} UncachedLocal(t: seq<Context>, ncomp: nat, valid: seq<bool>, matches: seq<bool>,
                                         c: seq<Result>, i: nat, x: nat)
    requires Tree(t, ncomp) && |valid| == ncomp && |matches| == |t| == |c| && i < |t| && x < |t|
    requires t[x].parent.Some? && t[x].parent.value >= i
    ensures Uncached(t, ncomp, valid, matches, c, i).0[x] == c[x]
    decreases i, 0
  {
    assert Placed(t, ncomp, i);
    if Nested(t, i) { CachedLocal(t, ncomp, valid, matches, c, t[i].parent.value, x); }
    var c1 := if Nested(t, i) then Cached(t, ncomp, valid, matches, c, t[i].parent.value).0 else c;
    if t[i].prev.Some? { CachedLocal(t, ncomp, valid, matches, c1, t[i].prev.value, x); }
  }

  /** Once a section is TRUE in the cache, the rest of its chain is FALSE. */
  ghost predicate Exclusive(t: seq<Context>, c: seq<Result>) {
    |c| == |t| && Forward(t) && forall i | 0 <= i < |t| && c[i] == TRUE :: Silent(t, c, t[i].next)
  }

  /** A section that its predecessors have ruled out is not found TRUE or undecided. */
  lemma UncachedOwn(t: seq<Context>, ncomp: nat, valid: seq<bool>, matches: seq<bool>, c: seq<Result>, i: nat)
    requires Tree(t, ncomp) && |valid| == ncomp && |matches| == |t| == |c| && i < |t| && c[i] == UNSET
    ensures var (c1, own) := Uncached(t, ncomp, valid, matches, c, i); t[i].prev.Some? && c1[i] == FALSE ==>
      own == FALSE
  {
    assert Placed(t, ncomp, i);
    if Nested(t, i) { CachedLocal(t, ncomp, valid, matches, c, t[i].parent.value, i); }
  }

  lemma {:induction false} CachedExclusive(t: seq<Context>, ncomp: nat, valid: seq<bool>, matches: seq<bool>,
                                           c: seq<Result>, i: nat)
    requires Tree(t, ncomp) && |valid| == ncomp && |matches| == |t| && i < |t| && Exclusive(t, c)
    ensures Exclusive(t, Cached(t, ncomp, valid, matches, c, i).0)
    decreases i, 1
  {
    if c[i] == UNSET {
      UncachedExclusive(t, ncomp, valid, matches, c, i);
      UncachedOwn(t, ncomp, valid, matches, c, i);
      var (c1, own) := Uncached(t, ncomp, valid, matches, c, i);
      SetExclusive(t, ncomp, c1, i, own);
    }
  }

  lemma {:induction false} UncachedExclusive(t: seq<Context>, ncomp: nat, valid: seq<bool>, matches: seq<bool>,
                                             c: seq<Result>, i: nat)
    requires Tree(t, ncomp) && |valid| == ncomp && |matches| == |t| && i < |t| && Exclusive(t, c)
    ensures Exclusive(t, Uncached(t, ncomp, valid, matches, c, i).0)
    decreases i, 0
  {
    assert Placed(t, ncomp, i);
    if Nested(t, i) { CachedExclusive(t, ncomp, valid, matches, c, t[i].parent.value); }
    var c1 := if Nested(t, i) then Cached(t, ncomp, valid, matches, c, t[i].parent.value).0 else c;
    if t[i].prev.Some? { CachedExclusive(t, ncomp, valid, matches, c1, t[i].prev.value); }
  }

  /** Storing the result of section i and silencing the rest of its chain. */
  lemma SetExclusive(t: seq<Context>, ncomp: nat, c: seq<Result>, i: nat, own: Result)
    requires Tree(t, ncomp) && i < |t| && Exclusive(t, c) && (t[i].prev.Some? && c[i] == FALSE ==> own == FALSE)
    ensures Exclusive(t, if own == TRUE then Silence(t, c[i := own], t[i].next) else c[i := own])
  {
    assert Placed(t, ncomp, i);
    var c2 := c[i := own];
    var c3 := if own == TRUE then Silence(t, c2, t[i].next) else c2;
    if own == TRUE { SilenceSilent(t, c2, t[i].next); }
    forall j | 0 <= j < |t| && c3[j] == TRUE
      ensures Silent(t, c3, t[j].next)
    {
      if j != i {
        assert c[j] == TRUE;
        assert Placed(t, ncomp, j);
        if t[j].next.Some? { assert Placed(t, ncomp, t[j].next.value); }
        SilentKept(t, ncomp, c, c3, t[j].next);
      }
    }
  }

  /** Every cached result is the plain one, and where a chain has its section to be used, the
      cached ones after it are FALSE. */
  ghost predicate Agrees(t: seq<Context>, ncomp: nat, valid: seq<bool>, matches: seq<bool>, c: seq<Result>)
    requires Tree(t, ncomp) && |valid| == ncomp && |matches| == |t|
  {
    |c| == |t| && forall i | 0 <= i < |t| && c[i] != UNSET :: AgreesAt(t, ncomp, valid, matches, c, i)
  }

  ghost predicate AgreesAt(t: seq<Context>, ncomp: nat, valid: seq<bool>, matches: seq<bool>, c: seq<Result>, i: nat)
    requires Tree(t, ncomp) && |valid| == ncomp && |matches| == |t| == |c| && i < |t|
  {
    c[i] == Value(t, ncomp, valid, matches, i) && (Taken(t, ncomp, valid, matches, i) ==> Silent(t, c, t[i].next))
  }

  /** A chain has a section to be used only where it can be reached at all. */
  lemma {:induction false} TakenReached(t: seq<Context>, ncomp: nat, valid: seq<bool>, matches: seq<bool>, i: nat)
    requires Tree(t, ncomp) && |valid| == ncomp && |matches| == |t| && i < |t| && Taken(t, ncomp, valid, matches, i)
    ensures Nested(t, i) ==> t[i].parent.value < i && Value(t, ncomp, valid, matches, t[i].parent.value) == TRUE
    decreases i
  {
    assert Placed(t, ncomp, i);
    if Value(t, ncomp, valid, matches, i) != TRUE { TakenReached(t, ncomp, valid, matches, t[i].prev.value); }
  }

  /** After a section to be used, the rest of the chain is FALSE. */
  lemma AfterTaken(t: seq<Context>, ncomp: nat, valid: seq<bool>, matches: seq<bool>, i: nat)
    requires Tree(t, ncomp) && |valid| == ncomp && |matches| == |t| && i < |t|
    requires t[i].prev.Some? && t[i].prev.value < |t| && Taken(t, ncomp, valid, matches, t[i].prev.value)
    ensures Value(t, ncomp, valid, matches, i) == FALSE && Taken(t, ncomp, valid, matches, i)
  {
    assert Placed(t, ncomp, i);
    TakenReached(t, ncomp, valid, matches, t[i].prev.value);
  }

  lemma {:induction false} SilenceAgrees(t: seq<Context>, ncomp: nat, valid: seq<bool>, matches: seq<bool>,
                                         c: seq<Result>, k: Option<nat>, x: nat)
    requires Tree(t, ncomp) && |valid| == ncomp && |matches| == |t| == |c| && x < |t|
    requires k.Some? ==>
      && k.value < |t| && t[k.value].prev.Some? && t[k.value].prev.value < |t|
      && Taken(t, ncomp, valid, matches, t[k.value].prev.value)
    ensures Silence(t, c, k)[x] != c[x] ==>
      && Value(t, ncomp, valid, matches, x) == FALSE && Silence(t, c, k)[x] == FALSE
      && Silent(t, Silence(t, c, k), t[x].next)
    decreases if k.Some? then |t| - k.value else 0
  {
    if k.Some? {
      assert Placed(t, ncomp, k.value);
      AfterTaken(t, ncomp, valid, matches, k.value);
      var next := t[k.value].next;
      if next.Some? { assert Placed(t, ncomp, next.value); }
      SilenceAgrees(t, ncomp, valid, matches, c[k.value := FALSE], next, x);
      SilenceSilent(t, c, k);
    }
  }

  /** Storing the plain result of section i and silencing the rest of its chain. */
  lemma SetAgrees(t: seq<Context>, ncomp: nat, valid: seq<bool>, matches: seq<bool>, c: seq<Result>, i: nat,
                  own: Result)
    requires Tree(t, ncomp) && |valid| == ncomp && |matches| == |t| && i < |t| && Agrees(t, ncomp, valid, matches, c)
    requires own == Value(t, ncomp, valid, matches, i)
    requires t[i].prev.Some? && t[i].prev.value < |t| && Taken(t, ncomp, valid, matches, t[i].prev.value) ==>
      c[i] == FALSE
    ensures Agrees(t, ncomp, valid, matches, if own == TRUE then Silence(t, c[i := own], t[i].next) else c[i := own])
  {
    assert Placed(t, ncomp, i);
    var c2 := c[i := own];
    var c3 := if own == TRUE then Silence(t, c2, t[i].next) else c2;
    if t[i].next.Some? { assert Placed(t, ncomp, t[i].next.value); }
    SilenceSilent(t, c2, t[i].next);
    if c[i] != UNSET { assert AgreesAt(t, ncomp, valid, matches, c, i); }
    forall j | 0 <= j < |t| && c3[j] != UNSET
      ensures AgreesAt(t, ncomp, valid, matches, c3, j)
    {
      assert Placed(t, ncomp, j);
      if t[j].next.Some? { assert Placed(t, ncomp, t[j].next.value); }
      if own == TRUE { SilenceAgrees(t, ncomp, valid, matches, c2, t[i].next, j); }
      if j != i && c3[j] == c2[j] {
        assert AgreesAt(t, ncomp, valid, matches, c, j);
        if Taken(t, ncomp, valid, matches, j) { SilentKept(t, ncomp, c, c3, t[j].next); }
      } else if j == i && own != TRUE && Taken(t, ncomp, valid, matches, i) {
        assert AgreesAt(t, ncomp, valid, matches, c, i);
        SilentKept(t, ncomp, c, c3, t[i].next);
      }
    }
  }

  /** While the request does not change, a check answers with the plain meaning. */
  lemma {:induction false} CachedAgrees(t: seq<Context>, ncomp: nat, valid: seq<bool>, matches: seq<bool>,
                                        c: seq<Result>, i: nat)
    requires Tree(t, ncomp) && |valid| == ncomp && |matches| == |t| && i < |t| && Agrees(t, ncomp, valid, matches, c)
    ensures var (c', r) := Cached(t, ncomp, valid, matches, c, i);
      r == Value(t, ncomp, valid, matches, i) == c'[i] && Agrees(t, ncomp, valid, matches, c')
    decreases i, 1
  {
    if c[i] == UNSET {
      UncachedAgrees(t, ncomp, valid, matches, c, i);
      var (c1, own) := Uncached(t, ncomp, valid, matches, c, i);
      SetAgrees(t, ncomp, valid, matches, c1, i, own);
      if own == TRUE {
        assert Placed(t, ncomp, i);
        SilenceSilent(t, c1[i := own], t[i].next);
      }
    } else {
      assert AgreesAt(t, ncomp, valid, matches, c, i);
    }
  }

  lemma {:induction false} UncachedAgrees(t: seq<Context>, ncomp: nat, valid: seq<bool>, matches: seq<bool>,
                                          c: seq<Result>, i: nat)
    requires Tree(t, ncomp) && |valid| == ncomp && |matches| == |t| && i < |t| && Agrees(t, ncomp, valid, matches, c)
    ensures var (c', r) := Uncached(t, ncomp, valid, matches, c, i);
      && r == Value(t, ncomp, valid, matches, i) && Agrees(t, ncomp, valid, matches, c')
      && (t[i].prev.Some? && t[i].prev.value < |t| && Taken(t, ncomp, valid, matches, t[i].prev.value) ==>
        c'[i] == FALSE)
    decreases i, 0
  {
    assert Placed(t, ncomp, i);
    if Nested(t, i) { CachedAgrees(t, ncomp, valid, matches, c, t[i].parent.value); }
    var (c1, above) := if Nested(t, i) then Cached(t, ncomp, valid, matches, c, t[i].parent.value) else (c, TRUE);
    if t[i].prev.Some? {
      var q := t[i].prev.value;
      assert Placed(t, ncomp, q);
      if above == TRUE {
        CachedAgrees(t, ncomp, valid, matches, c1, q);
        PrevSettles(t, ncomp, valid, matches, Cached(t, ncomp, valid, matches, c1, q).0, i);
      } else if Taken(t, ncomp, valid, matches, q) {
        TakenReached(t, ncomp, valid, matches, q);
      }
    }
  }

  /** With the predecessor's result in the cache, section i is FALSE there if the chain has its
      section to be used before it, and not otherwise. */
  lemma PrevSettles(t: seq<Context>, ncomp: nat, valid: seq<bool>, matches: seq<bool>, c: seq<Result>, i: nat)
    requires Tree(t, ncomp) && |valid| == ncomp && |matches| == |t| && i < |t| && Agrees(t, ncomp, valid, matches, c)
    requires t[i].prev.Some? && t[i].prev.value < |t|
    requires c[t[i].prev.value] == Value(t, ncomp, valid, matches, t[i].prev.value)
    ensures Taken(t, ncomp, valid, matches, t[i].prev.value) ==> c[i] == FALSE
    ensures c[i] == FALSE ==> Value(t, ncomp, valid, matches, i) == FALSE
  {
    var q := t[i].prev.value;
    assert Placed(t, ncomp, i) && Placed(t, ncomp, q);
    if Taken(t, ncomp, valid, matches, q) {
      if Value(t, ncomp, valid, matches, q) != TRUE { AfterTaken(t, ncomp, valid, matches, q); }
      assert AgreesAt(t, ncomp, valid, matches, c, q);
    }
    if c[i] == FALSE { assert AgreesAt(t, ncomp, valid, matches, c, i); }
  }

  /** What can happen to the cache of a connection. matches is what the comparisons yield at the
      time of the check. */
  datatype Event =
    | MarkValid(comp: nat)
    | Check(i: nat, matches: seq<bool>)
    | ResetItems
    | ResetConnection

  ghost predicate Possible(t: seq<Context>, ncomp: nat, e: Event) {
    match e
    case MarkValid(comp) => comp < ncomp
    case Check(i, matches) => i < |t| && |matches| == |t|
    case _ => true
  }

  function Blank(n: nat): (r: seq<Result>)
    ensures |r| == n && forall i | 0 <= i < n :: r[i] == UNSET
  {
    if n == 0 then [] else Blank(n - 1) + [UNSET]
  }

  function NoneValid(n: nat): (r: seq<bool>)
    ensures |r| == n && forall i | 0 <= i < n :: !r[i]
  {
    if n == 0 then [] else NoneValid(n - 1) + [false]
  }

  /** The valid fields and the cache after a run of events on a new connection. */
  function After(t: seq<Context>, ncomp: nat, run: seq<Event>): (r: (seq<bool>, seq<Result>))
    requires Tree(t, ncomp) && forall k | 0 <= k < |run| :: Possible(t, ncomp, run[k])
    ensures |r.0| == ncomp && |r.1| == |t|
  {
    if run == [] then (NoneValid(ncomp), Blank(|t|))
    else
      var (valid, c) := After(t, ncomp, run[..|run| - 1]);
      assert Possible(t, ncomp, run[|run| - 1]);
      match run[|run| - 1]
      case MarkValid(comp) => (valid[comp := true], c)
      case Check(i, matches) => (valid, Cached(t, ncomp, valid, matches, c, i).0)
      case ResetItems => (valid, Blank(|t|))
      case ResetConnection => (NoneValid(ncomp), Blank(|t|))
  }

  /** In every run a section that is TRUE has all later ones of its chain FALSE, whatever became
      decidable in the meantime and in whatever order sections were checked. */
  lemma {:induction false} RunExclusive(t: seq<Context>, ncomp: nat, run: seq<Event>)
    requires Tree(t, ncomp) && forall k | 0 <= k < |run| :: Possible(t, ncomp, run[k])
    ensures Exclusive(t, After(t, ncomp, run).1)
  {
    if run != [] {
      var init, last := run[..|run| - 1], run[|run| - 1];
      RunExclusive(t, ncomp, init);
      var (valid, c) := After(t, ncomp, init);
      assert Possible(t, ncomp, last);
      if last.Check? { CachedExclusive(t, ncomp, valid, last.matches, c, last.i); }
    }
  }

  /** Section j comes after section i in the same chain. */
  ghost predicate Later(t: seq<Context>, i: nat, j: nat)
    requires Forward(t) && i < |t|
    decreases |t| - i
  {
    t[i].next.Some? && (t[i].next.value == j || Later(t, t[i].next.value, j))
  }

  lemma {:induction false} SilentLater(t: seq<Context>, c: seq<Result>, i: nat, j: nat)
    requires Forward(t) && |c| == |t| && i < |t| && Silent(t, c, t[i].next) && Later(t, i, j)
    ensures j < |t| && c[j] == FALSE
    decreases |t| - i
  {
    if t[i].next.value != j { SilentLater(t, c, t[i].next.value, j); }
  }

  /** No two sections of a chain are ever TRUE together. */
  lemma OneOfChain(t: seq<Context>, ncomp: nat, run: seq<Event>, i: nat, j: nat)
    requires Tree(t, ncomp) && (forall k | 0 <= k < |run| :: Possible(t, ncomp, run[k])) && i < |t| && j < |t|
    requires Later(t, i, j)
    ensures !(After(t, ncomp, run).1[i] == TRUE && After(t, ncomp, run).1[j] == TRUE)
  {
    RunExclusive(t, ncomp, run);
    if After(t, ncomp, run).1[i] == TRUE { SilentLater(t, After(t, ncomp, run).1, i, j); }
  }

  /** Checks of a request whose valid fields and comparisons stay as they are, after a full reset. */
  lemma {:induction false} RunAgrees(t: seq<Context>, ncomp: nat, valid: seq<bool>, matches: seq<bool>,
                                     before: seq<Event>, checks: seq<nat>)
    requires Tree(t, ncomp) && |matches| == |t| && (forall k | 0 <= k < |before| :: Possible(t, ncomp, before[k]))
    requires (forall k | 0 <= k < |checks| :: checks[k] < |t|)
    requires valid == After(t, ncomp, before).0
    ensures forall k | 0 <= k < |before + [ResetItems] + ChecksOf(checks, matches)| ::
      Possible(t, ncomp, (before + [ResetItems] + ChecksOf(checks, matches))[k])
    ensures After(t, ncomp, before + [ResetItems] + ChecksOf(checks, matches)).0 == valid
    ensures Agrees(t, ncomp, valid, matches, After(t, ncomp, before + [ResetItems] + ChecksOf(checks, matches)).1)
  {
    var start := before + [ResetItems];
    if checks == [] {
      assert start + ChecksOf(checks, matches) == start;
      assert start[..|start| - 1] == before;
    } else {
      var init, last := checks[..|checks| - 1], checks[|checks| - 1];
      RunAgrees(t, ncomp, valid, matches, before, init);
      var run := start + ChecksOf(checks, matches);
      assert run == start + ChecksOf(init, matches) + [Check(last, matches)];
      assert run[..|run| - 1] == start + ChecksOf(init, matches);
      CachedAgrees(t, ncomp, valid, matches, After(t, ncomp, run[..|run| - 1]).1, last);
    }
  }

  function ChecksOf(checks: seq<nat>, matches: seq<bool>): (r: seq<Event>)
    ensures |r| == |checks| && forall k | 0 <= k < |r| :: r[k] == Check(checks[k], matches)
  {
    if checks == [] then [] else ChecksOf(checks[..|checks| - 1], matches) + [Check(checks[|checks| - 1], matches)]
  }

  /** Hence, whatever has been checked since the reset and in whatever order, a check answers with
      the plain meaning of the section. */
  lemma CheckAnswersPlainly(t: seq<Context>, ncomp: nat, matches: seq<bool>, before: seq<Event>, checks: seq<nat>,
                            i: nat)
    requires Tree(t, ncomp) && |matches| == |t| && i < |t|
    requires (forall k | 0 <= k < |before| :: Possible(t, ncomp, before[k]))
    requires (forall k | 0 <= k < |checks| :: checks[k] < |t|)
    ensures forall k | 0 <= k < |before + [ResetItems] + ChecksOf(checks, matches)| ::
      Possible(t, ncomp, (before + [ResetItems] + ChecksOf(checks, matches))[k])
    ensures var (valid, c) := After(t, ncomp, before + [ResetItems] + ChecksOf(checks, matches));
      Cached(t, ncomp, valid, matches, c, i).1 == Value(t, ncomp, valid, matches, i)
  {
    var valid := After(t, ncomp, before).0;
    RunAgrees(t, ncomp, valid, matches, before, checks);
    CachedAgrees(t, ncomp, valid, matches, After(t, ncomp, before + [ResetItems] + ChecksOf(checks, matches)).1, i);
  }

  /** The cache after the sections from 1 to below n have been checked one after the other. */
  function Scan(t: seq<Context>, ncomp: nat, valid: seq<bool>, matches: seq<bool>, c: seq<Result>, n: nat)
    : (r: seq<Result>)
    requires Tree(t, ncomp) && |valid| == ncomp && |matches| == |t| == |c| && n <= |t|
    ensures |r| == |t|
  {
    if n <= 1 then c else Cached(t, ncomp, valid, matches, Scan(t, ncomp, valid, matches, c, n - 1), n - 1).0
  }

  /** The answer for section i in the course of such a scan. */
  function Answer(t: seq<Context>, ncomp: nat, valid: seq<bool>, matches: seq<bool>, c: seq<Result>, i: nat): Result
    requires Tree(t, ncomp) && |valid| == ncomp && |matches| == |t| == |c| && i < |t|
  {
    Scan(t, ncomp, valid, matches, c, i + 1)[i]
  }

  lemma {:induction false} ScanAgreesBelow(t: seq<Context>, ncomp: nat, valid: seq<bool>, matches: seq<bool>,
                                           c: seq<Result>, n: nat)
    requires Tree(t, ncomp) && |valid| == ncomp && |matches| == |t| && n <= |t| && Agrees(t, ncomp, valid, matches, c)
    ensures Agrees(t, ncomp, valid, matches, Scan(t, ncomp, valid, matches, c, n))
    ensures n > 1 ==> Answer(t, ncomp, valid, matches, c, n - 1) == Value(t, ncomp, valid, matches, n - 1)
  {
    if n > 1 {
      ScanAgreesBelow(t, ncomp, valid, matches, c, n - 1);
      CachedAgrees(t, ncomp, valid, matches, Scan(t, ncomp, valid, matches, c, n - 1), n - 1);
    }
  }

  lemma ScanAgrees(t: seq<Context>, ncomp: nat, valid: seq<bool>, matches: seq<bool>, c: seq<Result>)
    requires Tree(t, ncomp) && |valid| == ncomp && |matches| == |t| && Agrees(t, ncomp, valid, matches, c)
    ensures forall i | 1 <= i < |t| ::
      Answer(t, ncomp, valid, matches, c, i) == Value(t, ncomp, valid, matches, i)
  {
    forall i | 1 <= i < |t|
      ensures Answer(t, ncomp, valid, matches, c, i) == Value(t, ncomp, valid, matches, i)
    {
      ScanAgreesBelow(t, ncomp, valid, matches, c, i + 1);
    }
  }

  /** Later sections are applied later, each once. */
  ghost predicate Ascending(applied: seq<nat>) {
    forall k, l | 0 <= k < l < |applied| :: applied[k] < applied[l]
  }

  /** The connection's side of it. */
  class Connection {
    const contexts: seq<Context>
    const ncomp: nat
    const cond_cache: array<Result>
    const conditional_is_valid: array<bool>

    ghost predicate Valid()
      reads this
    {
      Tree(contexts, ncomp) && cond_cache.Length == |contexts| && conditional_is_valid.Length == ncomp
    }

    constructor (t: seq<Context>, n: nat)
      requires Tree(t, n)
      ensures Valid() && contexts == t && ncomp == n && fresh(cond_cache) && fresh(conditional_is_valid)
      ensures (conditional_is_valid[..], cond_cache[..]) == After(t, n, [])
    {
      contexts, ncomp := t, n;
      cond_cache := new Result[|t|](_ => UNSET);
      conditional_is_valid := new bool[n](_ => false);
      new;
      assert cond_cache[..] == Blank(|t|) && conditional_is_valid[..] == NoneValid(n);
    }

    method CheckCached(matches: seq<bool>, i: nat) returns (r: Result)
      requires Valid() && |matches| == |contexts| && i < |contexts|
      modifies cond_cache
      ensures (cond_cache[..], r) == Cached(contexts, ncomp, conditional_is_valid[..], matches, old(cond_cache[..]), i)
      decreases i, 1
    {
      assert Placed(contexts, ncomp, i);
      if cond_cache[i] == UNSET {
        var own := CheckNoCache(matches, i);
        cond_cache[i] := own;
        if own == TRUE {
          ghost var c2 := cond_cache[..];
          var c := contexts[i].next;
          while c.Some?
            invariant c.Some? ==> c.value < |contexts|
            invariant Silence(contexts, cond_cache[..], c) == Silence(contexts, c2, contexts[i].next)
            decreases if c.Some? then |contexts| - c.value else 0
          {
            ghost var now := cond_cache[..];
            cond_cache[c.value] := FALSE;
            assert cond_cache[..] == now[c.value := FALSE];
            c := contexts[c.value].next;
          }
        }
      }
      r := cond_cache[i];
    }

    method CheckNoCache(matches: seq<bool>, i: nat) returns (r: Result)
      requires Valid() && |matches| == |contexts| && i < |contexts|
      modifies cond_cache
      ensures (cond_cache[..], r) ==
        Uncached(contexts, ncomp, conditional_is_valid[..], matches, old(cond_cache[..]), i)
      decreases i, 0
    {
      assert Placed(contexts, ncomp, i);
      if contexts[i].parent.Some? && contexts[i].parent.value > 0 {
        var above := CheckCached(matches, contexts[i].parent.value);
        if above == FALSE { return FALSE; }
        if above == UNSET { return UNSET; }
      }
      if contexts[i].prev.Some? {
        var _ := CheckCached(matches, contexts[i].prev.value);
        if cond_cache[i] == FALSE { return FALSE; }
      }
      if !conditional_is_valid[contexts[i].comp] { return UNSET; }
      r := if matches[i] then TRUE else FALSE;
    }

    /** config_cond_cache_reset_item for all items. */
    method ResetAllItems()
      requires Valid()
      modifies cond_cache
      ensures cond_cache[..] == Blank(|contexts|)
    {
      for i := 0 to cond_cache.Length
        invariant forall k | 0 <= k < i :: cond_cache[k] == UNSET
      {
        cond_cache[i] := UNSET;
      }
    }

    /** config_cond_cache_reset. */
    method Reset()
      requires Valid()
      modifies cond_cache, conditional_is_valid
      ensures cond_cache[..] == Blank(|contexts|) && conditional_is_valid[..] == NoneValid(ncomp)
    {
      ResetAllItems();
      for i := 0 to ncomp
        invariant cond_cache[..] == Blank(|contexts|) && forall k | 0 <= k < i :: !conditional_is_valid[k]
      {
        conditional_is_valid[i] := false;
      }
    }

    /** config_patch_connection: which sections apply once field comp is known. */
    method Patch(matches: seq<bool>, comp: nat) returns (applied: seq<nat>)
      requires Valid() && |matches| == |contexts| && comp < ncomp && Exclusive(contexts, cond_cache[..])
      modifies cond_cache, conditional_is_valid
      ensures conditional_is_valid[..] == old(conditional_is_valid[..])[comp := true]
      ensures Exclusive(contexts, cond_cache[..]) && Ascending(applied)
      ensures cond_cache[..] ==
        Scan(contexts, ncomp, conditional_is_valid[..], matches, old(cond_cache[..]), |contexts|)
      ensures forall i :: i in applied <==>
        (1 <= i < |contexts| &&
          Answer(contexts, ncomp, conditional_is_valid[..], matches, old(cond_cache[..]), i) == TRUE)
      ensures old(Agrees(contexts, ncomp, conditional_is_valid[..][comp := true], matches, cond_cache[..])) ==>
        forall i :: i in applied <==>
          1 <= i < |contexts| && Value(contexts, ncomp, conditional_is_valid[..], matches, i) == TRUE
    {
      ghost var valid := conditional_is_valid[..][comp := true];
      ghost var c := cond_cache[..];
      conditional_is_valid[comp] := true;
      assert conditional_is_valid[..] == valid;
      applied := [];
      var i := 1;
      while i < |contexts|
        invariant 1 <= i && conditional_is_valid[..] == valid && Exclusive(contexts, cond_cache[..])
        invariant Ascending(applied)
        invariant i <= |contexts| ==> cond_cache[..] == Scan(contexts, ncomp, valid, matches, c, i)
        invariant |contexts| < i ==> cond_cache[..] == Scan(contexts, ncomp, valid, matches, c, |contexts|)
        invariant forall k :: k in applied <==>
          1 <= k < i && k < |contexts| && Answer(contexts, ncomp, valid, matches, c, k) == TRUE
      {
        CachedExclusive(contexts, ncomp, valid, matches, cond_cache[..], i);
        var r := CheckCached(matches, i);
        if r == TRUE {
          assert forall l | 0 <= l < |applied| :: applied[l] in applied;
          applied := applied + [i];
        }
        i := i + 1;
      }
      if Agrees(contexts, ncomp, valid, matches, c) {
        ScanAgrees(contexts, ncomp, valid, matches, c);
      }
    }
  }

  /** An if / else-if chain of 1 and 2, looking at fields 0 and 1, and 3 nested in 2. */
  const CHAIN := [Context(None, None, None, 0), Context(Some(0), None, Some(2), 0),
                  Context(Some(0), Some(1), None, 1), Context(Some(2), None, None, 1)]

  const HOLD := [true, true, true, true]

  lemma ChainTree()
    ensures Tree(CHAIN, 2) && |CHAIN| == |HOLD| == 4
  {
    assert Placed(CHAIN, 2, 0) && Placed(CHAIN, 2, 1) && Placed(CHAIN, 2, 2) && Placed(CHAIN, 2, 3);
  }

  lemma ChainSteps()
    ensures Tree(CHAIN, 2) && |HOLD| == |CHAIN| == 4
    ensures Cached(CHAIN, 2, [false, true], HOLD, [UNSET, UNSET, UNSET, UNSET], 3).0 == [UNSET, UNSET, TRUE, TRUE]
    ensures Cached(CHAIN, 2, [true, true], HOLD, [UNSET, UNSET, TRUE, TRUE], 1).0 == [UNSET, TRUE, FALSE, TRUE]
    ensures Cached(CHAIN, 2, [true, true], HOLD, [UNSET, TRUE, FALSE, TRUE], 3).1 == TRUE
    ensures Value(CHAIN, 2, [true, true], HOLD, 3) == FALSE
  {
    ChainTree();
    var c0, v := [UNSET, UNSET, UNSET, UNSET], [false, true];
    assert Cached(CHAIN, 2, v, HOLD, c0, 1) == (c0, UNSET) by {
      assert Uncached(CHAIN, 2, v, HOLD, c0, 1) == (c0, UNSET);
      assert c0[1 := UNSET] == c0;
    }
    assert Uncached(CHAIN, 2, v, HOLD, c0, 2) == (c0, TRUE);
    assert c0[2 := TRUE] == [UNSET, UNSET, TRUE, UNSET];
    assert Cached(CHAIN, 2, v, HOLD, c0, 2) == ([UNSET, UNSET, TRUE, UNSET], TRUE);
    assert Uncached(CHAIN, 2, v, HOLD, c0, 3) == ([UNSET, UNSET, TRUE, UNSET], TRUE);
    var c1, w := [UNSET, UNSET, TRUE, TRUE], [true, true];
    assert Uncached(CHAIN, 2, w, HOLD, c1, 1) == (c1, TRUE);
    assert Silence(CHAIN, c1[1 := TRUE], Some(2)) == [UNSET, TRUE, FALSE, TRUE];
    assert Value(CHAIN, 2, w, HOLD, 1) == TRUE;
    assert Taken(CHAIN, 2, w, HOLD, 1);
    assert Value(CHAIN, 2, w, HOLD, 2) == FALSE;
  }

  /** When a field becomes known between checks, plain answers are not promised. With only field 1
      known, 2 and 3 are TRUE; once field 0 is known as well and 1 has been checked, 2 is FALSE, but 3
      is still answered TRUE. */
  lemma NestedGoesStale()
    ensures var run := [MarkValid(1), Check(3, HOLD), MarkValid(0), Check(1, HOLD)];
      && Tree(CHAIN, 2) && |HOLD| == |CHAIN| == 4 && (forall k | 0 <= k < |run| :: Possible(CHAIN, 2, run[k]))
      && var (valid, c) := After(CHAIN, 2, run);
      Cached(CHAIN, 2, valid, HOLD, c, 3).1 == TRUE && Value(CHAIN, 2, valid, HOLD, 3) == FALSE
  {
    ChainSteps();
    var run := [MarkValid(1), Check(3, HOLD), MarkValid(0), Check(1, HOLD)];
    assert run[..3] == [MarkValid(1), Check(3, HOLD), MarkValid(0)];
    assert run[..3][..2] == [MarkValid(1), Check(3, HOLD)];
    assert run[..3][..2][..1] == [MarkValid(1)];
    assert Blank(4) == [UNSET, UNSET, UNSET, UNSET] && NoneValid(2) == [false, false];
    assert After(CHAIN, 2, []) == ([false, false], [UNSET, UNSET, UNSET, UNSET]);
    assert [MarkValid(1)][..0] == [];
    assert [false, false][1 := true] == [false, true];
    assert After(CHAIN, 2, [MarkValid(1)]) == ([false, true], [UNSET, UNSET, UNSET, UNSET]);
    assert After(CHAIN, 2, [MarkValid(1), Check(3, HOLD)]) == ([false, true], [UNSET, UNSET, TRUE, TRUE]);
    assert [false, true][0 := true] == [true, true];
    assert After(CHAIN, 2, run[..3]) == ([true, true], [UNSET, UNSET, TRUE, TRUE]);
    assert After(CHAIN, 2, run) == ([true, true], [UNSET, TRUE, FALSE, TRUE]);
  }
}
