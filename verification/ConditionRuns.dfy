/** A request as the server runs it: after a reset, fields become known one by one, and each time
    every section is checked (src/response.c and src/configfile.c, config_patch_connection). */
module ConditionRuns {
  import opened Actions
  import opened ConditionCache

  /** The global section is in no chain. */
  predicate Rooted(t: seq<Context>) {
    t != [] && t[0].next.None?
  }

  ghost predicate Fields(order: seq<nat>, ncomp: nat) {
    forall k | 0 <= k < |order| :: order[k] < ncomp
  }

  /** The valid fields once those of the order have been marked. */
  function Marked(order: seq<nat>, ncomp: nat): (r: seq<bool>)
    requires forall k | 0 <= k < |order| :: order[k] < ncomp
    ensures |r| == ncomp && forall f | 0 <= f < ncomp :: r[f] <==> f in order
  {
    if order == [] then NoneValid(ncomp) else Marked(order[..|order| - 1], ncomp)[order[|order| - 1] := true]
  }

  /** The cache after a reset and one call of config_patch_connection for each field of the order. */
  function Patched(t: seq<Context>, ncomp: nat, matches: seq<bool>, order: seq<nat>): (r: seq<Result>)
    requires Tree(t, ncomp) && |matches| == |t| && Fields(order, ncomp)
    ensures |r| == |t|
  {
    if order == [] then Blank(|t|)
    else Scan(t, ncomp, Marked(order, ncomp), matches, Patched(t, ncomp, matches, order[..|order| - 1]), |t|)
  }

  /** The sections the last of the calls applies are those that plainly are to be used. */
  ghost predicate Plain(t: seq<Context>, ncomp: nat, matches: seq<bool>, order: seq<nat>)
    requires Tree(t, ncomp) && |matches| == |t| && Fields(order, ncomp) && order != []
  {
    forall i | 1 <= i < |t| ::
      Answer(t, ncomp, Marked(order, ncomp), matches, Patched(t, ncomp, matches, order[..|order| - 1]), i) == TRUE
      <==> Value(t, ncomp, Marked(order, ncomp), matches, i) == TRUE
  }

  /** Section a encloses section x. */
  ghost predicate Encloses(t: seq<Context>, ncomp: nat, a: nat, x: nat)
    requires Tree(t, ncomp) && x < |t|
    decreases x
  {
    Nested(t, x) && Placed(t, ncomp, x) && (t[x].parent.value == a || Encloses(t, ncomp, a, t[x].parent.value))
  }

  /** The fields of section x and of all that enclose it are among those given. */
  ghost predicate AllIn(t: seq<Context>, ncomp: nat, x: nat, fields: seq<nat>)
    requires Tree(t, ncomp) && x < |t|
    decreases x
  {
    t[x].comp in fields && (Nested(t, x) ==> Placed(t, ncomp, x) && AllIn(t, ncomp, t[x].parent.value, fields))
  }

  /** In this order section x and all that enclose it can be decided before p, which comes earlier in
      the chain of a section enclosing x. */
  ghost predicate Overtakes(t: seq<Context>, ncomp: nat, order: seq<nat>, x: nat, a: nat, p: nat, j: nat)
    requires Tree(t, ncomp)
  {
    && x < |t| && a < |t| && p < |t| && j < |order|
    && Encloses(t, ncomp, a, x) && Later(t, p, a)
    && order[j] == t[p].comp && t[p].comp !in order[..j] && AllIn(t, ncomp, x, order[..j])
  }

  ghost predicate Overtaken(t: seq<Context>, ncomp: nat, order: seq<nat>)
    requires Tree(t, ncomp)
  {
    exists x, a, p, j :: Overtakes(t, ncomp, order, x, a, p, j)
  }

  // ----- what the plain meaning does as fields become known -----

  ghost predicate Wider(valid: seq<bool>, valid': seq<bool>) {
    |valid| == |valid'| && forall f | 0 <= f < |valid| && valid[f] :: valid'[f]
  }

  /** What is decided FALSE stays so, and what is TRUE stays decided. */
  lemma {:induction false} StaysDecided(t: seq<Context>, ncomp: nat, v: seq<bool>, v': seq<bool>, m: seq<bool>, i: nat)
    requires Tree(t, ncomp) && |v| == ncomp && |m| == |t| && i < |t| && Wider(v, v')
    ensures Value(t, ncomp, v, m, i) == FALSE ==> Value(t, ncomp, v', m, i) == FALSE
    ensures Value(t, ncomp, v, m, i) == TRUE ==> Value(t, ncomp, v', m, i) != UNSET
    decreases i, 1
  {
    assert Placed(t, ncomp, i);
    if Nested(t, i) { StaysDecided(t, ncomp, v, v', m, t[i].parent.value); }
    if t[i].prev.Some? { StaysTaken(t, ncomp, v, v', m, t[i].prev.value); }
  }

  /** A chain keeps having a section to be used, unless what encloses it is ruled out. */
  lemma {:induction false} StaysTaken(t: seq<Context>, ncomp: nat, v: seq<bool>, v': seq<bool>, m: seq<bool>, i: nat)
    requires Tree(t, ncomp) && |v| == ncomp && |m| == |t| && i < |t| && Wider(v, v')
    ensures Taken(t, ncomp, v, m, i) ==>
      Taken(t, ncomp, v', m, i) ||
        (Nested(t, i) && t[i].parent.value < |t| && Value(t, ncomp, v', m, t[i].parent.value) == FALSE)
    decreases i, 0
  {
    assert Placed(t, ncomp, i);
    if Nested(t, i) { StaysDecided(t, ncomp, v, v', m, t[i].parent.value); }
    if t[i].prev.Some? { StaysTaken(t, ncomp, v, v', m, t[i].prev.value); }
    if Value(t, ncomp, v, m, i) == TRUE {
      assert Decide(t, v, m, i) == TRUE == Decide(t, v', m, i);
    } else if Taken(t, ncomp, v, m, i) {
      assert Placed(t, ncomp, t[i].prev.value);
    }
  }

  lemma TrueMatches(t: seq<Context>, ncomp: nat, v: seq<bool>, m: seq<bool>, i: nat)
    requires Tree(t, ncomp) && |v| == ncomp && |m| == |t| && i < |t| && Value(t, ncomp, v, m, i) == TRUE
    ensures t[i].comp < ncomp && v[t[i].comp] && m[i]
    ensures Nested(t, i) ==> t[i].parent.value < |t| && Value(t, ncomp, v, m, t[i].parent.value) == TRUE
    ensures t[i].prev.Some? ==> t[i].prev.value < |t| && !Taken(t, ncomp, v, m, t[i].prev.value)
  {
    assert Placed(t, ncomp, i);
  }

  /** A chain has a section to be used before i if one of the earlier ones is TRUE. */
  lemma {:induction false} TakenByOne(t: seq<Context>, ncomp: nat, v: seq<bool>, m: seq<bool>, p: nat, i: nat)
    requires Tree(t, ncomp) && |v| == ncomp && |m| == |t| && i < |t| && p < |t| && Later(t, p, i)
    ensures t[i].prev.Some? && t[i].prev.value < |t| && t[i].parent == t[p].parent && p < i
    ensures Taken(t, ncomp, v, m, p) ==> Taken(t, ncomp, v, m, t[i].prev.value)
    decreases |t| - p
  {
    assert Placed(t, ncomp, p) && Placed(t, ncomp, i);
    var n := t[p].next.value;
    assert Placed(t, ncomp, n);
    if n != i { TakenByOne(t, ncomp, v, m, n, i); }
  }

  lemma {:induction false} OneIsTrue(t: seq<Context>, ncomp: nat, v: seq<bool>, m: seq<bool>, q: nat, i: nat)
    returns (p: nat)
    requires Tree(t, ncomp) && |v| == ncomp && |m| == |t| && i < |t| && q < |t| && (q == i || Later(t, q, i))
    requires Taken(t, ncomp, v, m, q)
    ensures p < |t| && (p == i || Later(t, p, i)) && p <= q && Value(t, ncomp, v, m, p) == TRUE
    decreases q
  {
    if Value(t, ncomp, v, m, q) == TRUE {
      p := q;
    } else {
      assert Placed(t, ncomp, q);
      var r := t[q].prev.value;
      assert Placed(t, ncomp, r);
      assert Later(t, r, i);
      p := OneIsTrue(t, ncomp, v, m, r, i);
    }
  }

  /** What becomes FALSE, becomes so because an earlier member of its own chain, or of the chain of a
      section that encloses it, could not be decided before and is TRUE now. */
  lemma {:induction false} Lost(t: seq<Context>, ncomp: nat, v: seq<bool>, v': seq<bool>, m: seq<bool>, i: nat)
    returns (a: nat, p: nat)
    requires Tree(t, ncomp) && |v| == ncomp && |m| == |t| && i < |t| && Wider(v, v')
    requires Value(t, ncomp, v, m, i) == TRUE && Value(t, ncomp, v', m, i) != TRUE
    ensures (a == i || Encloses(t, ncomp, a, i)) && a < |t| && p < |t| && Later(t, p, a)
    ensures Value(t, ncomp, v', m, p) == TRUE && t[p].comp < ncomp && !v[t[p].comp]
    decreases i
  {
    assert Placed(t, ncomp, i);
    TrueMatches(t, ncomp, v, m, i);
    if Nested(t, i) && Value(t, ncomp, v', m, t[i].parent.value) != TRUE {
      a, p := Lost(t, ncomp, v, v', m, t[i].parent.value);
    } else {
      var q := t[i].prev.value;
      assert Placed(t, ncomp, q);
      a := i;
      p := OneIsTrue(t, ncomp, v', m, q, i);
      TrueMatches(t, ncomp, v', m, p);
      NewlyDecided(t, ncomp, v, v', m, i, p);
    }
  }

  lemma NewlyDecided(t: seq<Context>, ncomp: nat, v: seq<bool>, v': seq<bool>, m: seq<bool>, i: nat, p: nat)
    requires Tree(t, ncomp) && |v| == ncomp && |m| == |t| && i < |t| && p < |t| && Wider(v, v') && Later(t, p, i)
    requires Value(t, ncomp, v, m, i) == TRUE && Value(t, ncomp, v', m, p) == TRUE
    ensures t[p].comp < ncomp && !v[t[p].comp]
  {
    assert Placed(t, ncomp, p);
    TrueMatches(t, ncomp, v, m, i);
    TrueMatches(t, ncomp, v', m, p);
    TakenByOne(t, ncomp, v, m, p, i);
    if t[p].prev.Some? {
      assert Placed(t, ncomp, t[p].prev.value);
      assert Later(t, t[p].prev.value, i);
      TakenByOne(t, ncomp, v, m, t[p].prev.value, i);
    }
  }

  // ----- scans -----

  /** An earlier member of the chain of k, below n, is TRUE. */
  ghost predicate SilencedBelow(t: seq<Context>, ncomp: nat, v: seq<bool>, m: seq<bool>, n: nat, k: nat)
    requires Tree(t, ncomp) && |v| == ncomp && |m| == |t|
  {
    exists p | 0 <= p < n && p < |t| :: Later(t, p, k) && Value(t, ncomp, v, m, p) == TRUE
  }

  /** The cache is right about the sections from 1 to below n. */
  ghost predicate RightBelow(t: seq<Context>, ncomp: nat, v: seq<bool>, m: seq<bool>, c: seq<Result>, n: nat)
    requires Tree(t, ncomp) && |v| == ncomp && |m| == |t| == |c|
  {
    forall k | 1 <= k < n && k < |t| :: c[k] == Value(t, ncomp, v, m, k)
  }

  lemma SilencedIsFalse(t: seq<Context>, ncomp: nat, v: seq<bool>, m: seq<bool>, n: nat, k: nat)
    requires Tree(t, ncomp) && |v| == ncomp && |m| == |t| && k < |t| && SilencedBelow(t, ncomp, v, m, n, k)
    ensures Value(t, ncomp, v, m, k) == FALSE
  {
    var p :| 0 <= p < n && p < |t| && Later(t, p, k) && Value(t, ncomp, v, m, p) == TRUE;
    TakenByOne(t, ncomp, v, m, p, k);
    AfterTaken(t, ncomp, v, m, k);
  }

  lemma TakenSilences(t: seq<Context>, ncomp: nat, v: seq<bool>, m: seq<bool>, q: nat, k: nat)
    requires Tree(t, ncomp) && |v| == ncomp && |m| == |t| && k < |t| && q < k && Later(t, q, k)
    ensures Taken(t, ncomp, v, m, q) ==> SilencedBelow(t, ncomp, v, m, k, k)
  {
    if Taken(t, ncomp, v, m, q) {
      var p := OneIsTrue(t, ncomp, v, m, q, k);
      TakenByOne(t, ncomp, v, m, q, k);
    }
  }

  /** Checking a section about which, and below which, the cache is right changes nothing. */
  lemma {:induction false} CachedIdle(t: seq<Context>, ncomp: nat, v: seq<bool>, m: seq<bool>, c: seq<Result>, q: nat)
    requires Tree(t, ncomp) && Rooted(t) && |v| == ncomp && |m| == |t| == |c| && 1 <= q < |t|
    requires RightBelow(t, ncomp, v, m, c, q + 1)
    ensures Cached(t, ncomp, v, m, c, q) == (c, Value(t, ncomp, v, m, q))
    decreases q, 1
  {
    assert c[q] == Value(t, ncomp, v, m, q);
    if c[q] == UNSET {
      if SilencedBelow(t, ncomp, v, m, q, q) { SilencedIsFalse(t, ncomp, v, m, q, q); }
      UncachedNow(t, ncomp, v, m, c, q);
      assert c[q := UNSET] == c;
    }
  }

  /** Evaluating a section below which the cache is right. */
  lemma {:induction false} UncachedNow(t: seq<Context>, ncomp: nat, v: seq<bool>, m: seq<bool>, c: seq<Result>, n: nat)
    requires Tree(t, ncomp) && Rooted(t) && |v| == ncomp && |m| == |t| == |c| && 1 <= n < |t|
    requires RightBelow(t, ncomp, v, m, c, n)
    requires c[n] == UNSET && !SilencedBelow(t, ncomp, v, m, n, n)
    ensures Uncached(t, ncomp, v, m, c, n) == (c, Value(t, ncomp, v, m, n))
    decreases n, 0
  {
    assert Placed(t, ncomp, n);
    if Nested(t, n) { CachedIdle(t, ncomp, v, m, c, t[n].parent.value); }
    if t[n].prev.Some? {
      var q := t[n].prev.value;
      assert Placed(t, ncomp, q);
      CachedIdle(t, ncomp, v, m, c, q);
      TakenSilences(t, ncomp, v, m, q, n);
    }
  }

  lemma {:induction false} SilenceExact(t: seq<Context>, ncomp: nat, c: seq<Result>, i: nat, x: nat)
    requires Tree(t, ncomp) && |c| == |t| && i < |t| && x < |t|
    ensures Silence(t, c, t[i].next)[x] == if Later(t, i, x) then FALSE else c[x]
    decreases |t| - i
  {
    if t[i].next.Some? {
      var n := t[i].next.value;
      SilenceExact(t, ncomp, c[n := FALSE], n, x);
    }
  }

  /** The cache in the middle of a scan: right below n, and above as before but for what has been
      silenced. */
  ghost predicate Scanned(t: seq<Context>, ncomp: nat, v: seq<bool>, m: seq<bool>, c0: seq<Result>, c: seq<Result>,
                          n: nat)
    requires Tree(t, ncomp) && |v| == ncomp && |m| == |t| == |c0| == |c|
  {
    && RightBelow(t, ncomp, v, m, c, n)
    && forall k | n <= k < |t| && 1 <= k :: c[k] == if SilencedBelow(t, ncomp, v, m, n, k) then FALSE else c0[k]
  }

  /** Nothing that is TRUE has been lost through a section that encloses it. */
  ghost predicate NoneLost(t: seq<Context>, ncomp: nat, v: seq<bool>, v': seq<bool>, m: seq<bool>)
    requires Tree(t, ncomp) && |v| == ncomp == |v'| && |m| == |t|
  {
    forall x, a, p {:trigger Encloses(t, ncomp, a, x), Later(t, p, a)} |
      0 <= x < |t| && 0 <= a < |t| && 0 <= p < |t| && Encloses(t, ncomp, a, x) && Later(t, p, a) &&
        Value(t, ncomp, v, m, x) == TRUE && t[p].comp < ncomp && !v[t[p].comp] ::
      Value(t, ncomp, v', m, p) != TRUE
  }

  lemma LostHow(t: seq<Context>, ncomp: nat, v: seq<bool>, v': seq<bool>, m: seq<bool>, i: nat)
    requires Tree(t, ncomp) && |v| == ncomp && |m| == |t| && i < |t| && Wider(v, v')
    requires Value(t, ncomp, v, m, i) == TRUE && Value(t, ncomp, v', m, i) != TRUE
    ensures SilencedBelow(t, ncomp, v', m, i, i) || !NoneLost(t, ncomp, v, v', m)
  {
    var a, p := Lost(t, ncomp, v, v', m, i);
    if a == i { TakenByOne(t, ncomp, v', m, p, i); }
  }

  lemma RightAtNext(t: seq<Context>, ncomp: nat, v: seq<bool>, v': seq<bool>, m: seq<bool>, c0: seq<Result>,
                    c: seq<Result>, n: nat)
    requires Tree(t, ncomp) && |v| == ncomp && |m| == |t| == |c0| == |c| && Wider(v, v') && 1 <= n < |t|
    requires RightBelow(t, ncomp, v, m, c0, |t|) && Scanned(t, ncomp, v', m, c0, c, n) && NoneLost(t, ncomp, v, v', m)
    requires c[n] != UNSET
    ensures c[n] == Value(t, ncomp, v', m, n)
    ensures c[n] == TRUE ==> Value(t, ncomp, v, m, n) == TRUE
  {
    if SilencedBelow(t, ncomp, v', m, n, n) {
      SilencedIsFalse(t, ncomp, v', m, n, n);
    } else {
      assert c[n] == c0[n] == Value(t, ncomp, v, m, n);
      StaysDecided(t, ncomp, v, v', m, n);
      if Value(t, ncomp, v, m, n) == TRUE && Value(t, ncomp, v', m, n) != TRUE {
        LostHow(t, ncomp, v, v', m, n);
      }
    }
  }

  /** What is silenced once section n has been checked. */
  lemma SilencedNext(t: seq<Context>, ncomp: nat, v: seq<bool>, m: seq<bool>, n: nat, k: nat)
    requires Tree(t, ncomp) && |v| == ncomp && |m| == |t| && n < |t|
    ensures SilencedBelow(t, ncomp, v, m, n + 1, k) <==>
      SilencedBelow(t, ncomp, v, m, n, k) || (Later(t, n, k) && Value(t, ncomp, v, m, n) == TRUE)
  {
    if SilencedBelow(t, ncomp, v, m, n + 1, k) {
      var p :| 0 <= p < n + 1 && p < |t| && Later(t, p, k) && Value(t, ncomp, v, m, p) == TRUE;
      assert p < n ==> SilencedBelow(t, ncomp, v, m, n, k);
    }
    if SilencedBelow(t, ncomp, v, m, n, k) {
      var p :| 0 <= p < n && p < |t| && Later(t, p, k) && Value(t, ncomp, v, m, p) == TRUE;
      assert p < n + 1;
    }
  }

  /** Checking the next section. */
  lemma ScanStep(t: seq<Context>, ncomp: nat, v: seq<bool>, v': seq<bool>, m: seq<bool>, c0: seq<Result>,
                 c: seq<Result>, n: nat)
    requires Tree(t, ncomp) && Rooted(t) && |v| == ncomp && |m| == |t| == |c0| == |c| && Wider(v, v') && 1 <= n < |t|
    requires RightBelow(t, ncomp, v, m, c0, |t|) && Scanned(t, ncomp, v', m, c0, c, n) && NoneLost(t, ncomp, v, v', m)
    ensures Scanned(t, ncomp, v', m, c0, Cached(t, ncomp, v', m, c, n).0, n + 1)
  {
    var c' := Cached(t, ncomp, v', m, c, n).0;
    assert Placed(t, ncomp, n);
    if c[n] != UNSET {
      RightAtNext(t, ncomp, v, v', m, c0, c, n);
    } else {
      assert !SilencedBelow(t, ncomp, v', m, n, n);
      UncachedNow(t, ncomp, v', m, c, n);
    }
    forall k | n + 1 <= k < |t|
      ensures c'[k] == if SilencedBelow(t, ncomp, v', m, n + 1, k) then FALSE else c0[k]
    {
      SilencedNext(t, ncomp, v', m, n, k);
      if c[n] != UNSET {
        if c[n] == TRUE && Later(t, n, k) {
          TakenByOne(t, ncomp, v, m, n, k);
          AfterTaken(t, ncomp, v, m, k);
        }
      } else {
        SilenceExact(t, ncomp, c[n := Value(t, ncomp, v', m, n)], n, k);
      }
    }
    forall k | 1 <= k < n + 1
      ensures c'[k] == Value(t, ncomp, v', m, k)
    {
      if c[n] == UNSET {
        SilenceExact(t, ncomp, c[n := Value(t, ncomp, v', m, n)], n, k);
        if Later(t, n, k) { TakenByOne(t, ncomp, v', m, n, k); }
      }
    }
  }

  lemma {:induction false} ScanRight(t: seq<Context>, ncomp: nat, v: seq<bool>, v': seq<bool>, m: seq<bool>,
                                     c0: seq<Result>, n: nat)
    requires Tree(t, ncomp) && Rooted(t) && |v| == ncomp && |m| == |t| == |c0| && Wider(v, v') && 1 <= n <= |t|
    requires RightBelow(t, ncomp, v, m, c0, |t|) && NoneLost(t, ncomp, v, v', m)
    ensures Scanned(t, ncomp, v', m, c0, Scan(t, ncomp, v', m, c0, n), n)
  {
    if n > 1 {
      ScanRight(t, ncomp, v, v', m, c0, n - 1);
      ScanStep(t, ncomp, v, v', m, c0, Scan(t, ncomp, v', m, c0, n - 1), n - 1);
    }
  }

  // ----- no section is overtaken: the answers are plain -----

  lemma {:induction false} NothingKnown(t: seq<Context>, ncomp: nat, m: seq<bool>, i: nat)
    requires Tree(t, ncomp) && |m| == |t| && i < |t|
    ensures Value(t, ncomp, NoneValid(ncomp), m, i) == UNSET && !Taken(t, ncomp, NoneValid(ncomp), m, i)
  {
    assert Placed(t, ncomp, i);
    if Nested(t, i) { NothingKnown(t, ncomp, m, t[i].parent.value); }
    if t[i].prev.Some? { NothingKnown(t, ncomp, m, t[i].prev.value); }
  }

  lemma {:induction false} TrueAllIn(t: seq<Context>, ncomp: nat, m: seq<bool>, order: seq<nat>, x: nat)
    requires Tree(t, ncomp) && |m| == |t| && x < |t| && Fields(order, ncomp)
    requires Value(t, ncomp, Marked(order, ncomp), m, x) == TRUE
    ensures AllIn(t, ncomp, x, order)
  {
    assert Placed(t, ncomp, x);
    TrueMatches(t, ncomp, Marked(order, ncomp), m, x);
    if Nested(t, x) { TrueAllIn(t, ncomp, m, order, t[x].parent.value); }
  }

  lemma NewField(order: seq<nat>, ncomp: nat, f: nat)
    requires Fields(order, ncomp) && order != [] && f < ncomp
    requires Marked(order, ncomp)[f] && !Marked(order[..|order| - 1], ncomp)[f]
    ensures f == order[|order| - 1] && f !in order[..|order| - 1]
  {
  }

  lemma LossOvertakes(t: seq<Context>, ncomp: nat, m: seq<bool>, order: seq<nat>, x: nat, a: nat, p: nat)
    requires Tree(t, ncomp) && |m| == |t| && order != [] && Fields(order, ncomp) && x < |t| && a < |t| && p < |t|
    requires Encloses(t, ncomp, a, x) && Later(t, p, a) && t[p].comp < ncomp
    requires var init := order[..|order| - 1];
      Value(t, ncomp, Marked(init, ncomp), m, x) == TRUE && !Marked(init, ncomp)[t[p].comp]
    requires Value(t, ncomp, Marked(order, ncomp), m, p) == TRUE
    ensures Overtakes(t, ncomp, order, x, a, p, |order| - 1)
  {
    TrueAllIn(t, ncomp, m, order[..|order| - 1], x);
    TrueMatches(t, ncomp, Marked(order, ncomp), m, p);
    NewField(order, ncomp, t[p].comp);
  }

  lemma NoneLostUnless(t: seq<Context>, ncomp: nat, m: seq<bool>, order: seq<nat>)
    requires Tree(t, ncomp) && |m| == |t| && order != [] && Fields(order, ncomp) && !Overtaken(t, ncomp, order)
    ensures NoneLost(t, ncomp, Marked(order[..|order| - 1], ncomp), Marked(order, ncomp), m)
  {
    var v, v' := Marked(order[..|order| - 1], ncomp), Marked(order, ncomp);
    forall x, a, p | 0 <= x < |t| && 0 <= a < |t| && 0 <= p < |t| && Encloses(t, ncomp, a, x) && Later(t, p, a)
        && Value(t, ncomp, v, m, x) == TRUE && t[p].comp < ncomp && !v[t[p].comp]
      ensures Value(t, ncomp, v', m, p) != TRUE
    {
      if Value(t, ncomp, v', m, p) == TRUE { LossOvertakes(t, ncomp, m, order, x, a, p); }
    }
  }

  lemma PrefixOvertaken(t: seq<Context>, ncomp: nat, order: seq<nat>, n: nat)
    requires Tree(t, ncomp) && n <= |order|
    ensures Overtaken(t, ncomp, order[..n]) ==> Overtaken(t, ncomp, order)
  {
    if Overtaken(t, ncomp, order[..n]) {
      var x: nat, a: nat, p: nat, j: nat :| Overtakes(t, ncomp, order[..n], x, a, p, j);
      assert order[..n][..j] == order[..j];
      assert Overtakes(t, ncomp, order, x, a, p, j);
    }
  }

  lemma {:induction false} PatchedRight(t: seq<Context>, ncomp: nat, m: seq<bool>, order: seq<nat>)
    requires Tree(t, ncomp) && Rooted(t) && |m| == |t| && Fields(order, ncomp) && !Overtaken(t, ncomp, order)
    ensures RightBelow(t, ncomp, Marked(order, ncomp), m, Patched(t, ncomp, m, order), |t|)
    decreases |order|
  {
    if order == [] {
      forall k | 1 <= k < |t|
        ensures Blank(|t|)[k] == Value(t, ncomp, NoneValid(ncomp), m, k)
      {
        NothingKnown(t, ncomp, m, k);
      }
    } else {
      var init := order[..|order| - 1];
      PrefixOvertaken(t, ncomp, order, |order| - 1);
      PatchedRight(t, ncomp, m, init);
      NoneLostUnless(t, ncomp, m, order);
      ScanRight(t, ncomp, Marked(init, ncomp), Marked(order, ncomp), m, Patched(t, ncomp, m, init), |t|);
    }
  }

  // ----- a section is overtaken: some comparisons give an answer that is not plain -----

  lemma {:induction false} EnclosedBelow(t: seq<Context>, ncomp: nat, a: nat, x: nat)
    requires Tree(t, ncomp) && x < |t| && Encloses(t, ncomp, a, x)
    ensures Nested(t, x) && a <= t[x].parent.value < x
  {
    assert Placed(t, ncomp, x);
    if t[x].parent.value != a { EnclosedBelow(t, ncomp, a, t[x].parent.value); }
  }

  lemma {:induction false} EnclosesTransitive(t: seq<Context>, ncomp: nat, a: nat, b: nat, x: nat)
    requires Tree(t, ncomp) && x < |t| && b < |t| && Encloses(t, ncomp, a, b) && Encloses(t, ncomp, b, x)
    ensures Encloses(t, ncomp, a, x)
    decreases x
  {
    assert Placed(t, ncomp, x);
    if t[x].parent.value != b { EnclosesTransitive(t, ncomp, a, b, t[x].parent.value); }
  }

  /** Of two sections enclosing x, one encloses the other. */
  lemma {:induction false} EnclosersOrdered(t: seq<Context>, ncomp: nat, a: nat, b: nat, x: nat)
    requires Tree(t, ncomp) && x < |t| && Encloses(t, ncomp, a, x) && Encloses(t, ncomp, b, x) && a < b < |t|
    ensures Encloses(t, ncomp, a, b)
    decreases x
  {
    assert Placed(t, ncomp, x);
    EnclosedBelow(t, ncomp, b, x);
    if t[x].parent.value != b { EnclosersOrdered(t, ncomp, a, b, t[x].parent.value); }
  }

  /** Section b is x or encloses it. */
  ghost predicate OnPath(t: seq<Context>, ncomp: nat, b: nat, x: nat)
    requires Tree(t, ncomp) && x < |t|
  {
    b == x || Encloses(t, ncomp, b, x)
  }

  /** No two sections of a chain are both on the path to x. */
  lemma PathApart(t: seq<Context>, ncomp: nat, s: nat, b: nat, x: nat)
    requires Tree(t, ncomp) && x < |t| && s < b < |t| && t[s].parent == t[b].parent && OnPath(t, ncomp, b, x)
    ensures !OnPath(t, ncomp, s, x)
  {
    assert Placed(t, ncomp, s) && Placed(t, ncomp, b);
    if OnPath(t, ncomp, s, x) {
      if s == x {
        EnclosedBelow(t, ncomp, b, x);
      } else {
        if b != x { EnclosersOrdered(t, ncomp, s, b, x); }
        EnclosedBelow(t, ncomp, s, b);
      }
    }
  }

  /** The comparisons that hold are those of the sections on the path to x and that of p. */
  ghost predicate PathAnd(t: seq<Context>, ncomp: nat, m: seq<bool>, x: nat, p: nat)
    requires Tree(t, ncomp) && x < |t|
  {
    |m| == |t| && forall i | 0 <= i < |t| :: m[i] <==> i == p || OnPath(t, ncomp, i, x)
  }

  /** While p cannot be decided, the path to x is TRUE. */
  lemma {:induction false} PathTrue(t: seq<Context>, ncomp: nat, v: seq<bool>, m: seq<bool>, x: nat, p: nat, b: nat)
    requires Tree(t, ncomp) && |v| == ncomp && x < |t| && p < |t| && b < |t| && PathAnd(t, ncomp, m, x, p)
    requires OnPath(t, ncomp, b, x) && t[p].comp < ncomp && !v[t[p].comp]
    requires forall i | 0 <= i < |t| && OnPath(t, ncomp, i, x) :: t[i].comp < ncomp && v[t[i].comp]
    ensures Value(t, ncomp, v, m, b) == TRUE
    decreases b
  {
    assert Placed(t, ncomp, b);
    if Nested(t, b) {
      var u := t[b].parent.value;
      assert Encloses(t, ncomp, u, b);
      if b != x { EnclosesTransitive(t, ncomp, u, b, x); }
      PathTrue(t, ncomp, v, m, x, p, u);
    }
    if t[b].prev.Some? {
      assert Placed(t, ncomp, t[b].prev.value);
      NoneTaken(t, ncomp, v, m, x, p, t[b].prev.value, b);
    }
  }

  lemma {:induction false} NoneTaken(t: seq<Context>, ncomp: nat, v: seq<bool>, m: seq<bool>, x: nat, p: nat,
                                     q: nat, b: nat)
    requires Tree(t, ncomp) && |v| == ncomp && x < |t| && p < |t| && PathAnd(t, ncomp, m, x, p) && t[p].comp < ncomp
    requires !v[t[p].comp] && q < b < |t| && OnPath(t, ncomp, b, x) && t[q].parent == t[b].parent
    ensures !Taken(t, ncomp, v, m, q)
    decreases q
  {
    assert Placed(t, ncomp, q);
    PathApart(t, ncomp, q, b, x);
    if t[q].prev.Some? { NoneTaken(t, ncomp, v, m, x, p, t[q].prev.value, b); }
  }

  /** A section stays TRUE in the cache if no comparison of an earlier one of its chain holds. */
  lemma {:induction false} KeepsTrue(t: seq<Context>, ncomp: nat, v: seq<bool>, m: seq<bool>, c: seq<Result>, i: nat,
                                     x: nat)
    requires Tree(t, ncomp) && |v| == ncomp && |m| == |t| == |c| && i < |t| && x < |t| && c[x] == TRUE
    requires forall s | 0 <= s < |t| && Later(t, s, x) :: !m[s]
    ensures Cached(t, ncomp, v, m, c, i).0[x] == TRUE
    decreases i, 1
  {
    assert Placed(t, ncomp, i);
    if c[i] == UNSET {
      var (c1, own) := Uncached(t, ncomp, v, m, c, i);
      KeepsTrueUncached(t, ncomp, v, m, c, i, x);
      SilenceExact(t, ncomp, c1[i := own], i, x);
    }
  }

  lemma {:induction false} KeepsTrueUncached(t: seq<Context>, ncomp: nat, v: seq<bool>, m: seq<bool>, c: seq<Result>,
                                             i: nat, x: nat)
    requires Tree(t, ncomp) && |v| == ncomp && |m| == |t| == |c| && i < |t| && x < |t| && c[x] == TRUE
    requires forall s | 0 <= s < |t| && Later(t, s, x) :: !m[s]
    ensures var (c1, own) := Uncached(t, ncomp, v, m, c, i); c1[x] == TRUE && (own == TRUE ==> m[i])
    decreases i, 0
  {
    assert Placed(t, ncomp, i);
    if Nested(t, i) { KeepsTrue(t, ncomp, v, m, c, t[i].parent.value, x); }
    var c1 := if Nested(t, i) then Cached(t, ncomp, v, m, c, t[i].parent.value).0 else c;
    if t[i].prev.Some? { KeepsTrue(t, ncomp, v, m, c1, t[i].prev.value, x); }
  }

  lemma {:induction false} ScanKeepsTrue(t: seq<Context>, ncomp: nat, v: seq<bool>, m: seq<bool>, c: seq<Result>,
                                         x: nat, k: nat, n: nat)
    requires Tree(t, ncomp) && |v| == ncomp && |m| == |t| == |c| && k <= n <= |t| && x < |t|
    requires Scan(t, ncomp, v, m, c, k)[x] == TRUE
    requires forall s | 0 <= s < |t| && Later(t, s, x) :: !m[s]
    ensures Scan(t, ncomp, v, m, c, n)[x] == TRUE
    decreases n
  {
    if k < n {
      ScanKeepsTrue(t, ncomp, v, m, c, x, k, n - 1);
      if n > 1 { KeepsTrue(t, ncomp, v, m, Scan(t, ncomp, v, m, c, n - 1), n - 1, x); }
    }
  }

  lemma {:induction false} EncloserTrue(t: seq<Context>, ncomp: nat, v: seq<bool>, m: seq<bool>, a: nat, x: nat)
    requires Tree(t, ncomp) && |v| == ncomp && |m| == |t| && x < |t| && a < |t| && Encloses(t, ncomp, a, x)
    ensures Value(t, ncomp, v, m, x) == TRUE ==> Value(t, ncomp, v, m, a) == TRUE
    decreases x
  {
    assert Placed(t, ncomp, x);
    if t[x].parent.value != a { EncloserTrue(t, ncomp, v, m, a, t[x].parent.value); }
  }

  lemma HeldBack(t: seq<Context>, ncomp: nat, v: seq<bool>, m: seq<bool>, p: nat)
    requires Tree(t, ncomp) && |v| == ncomp && |m| == |t| && p < |t| && !Taken(t, ncomp, v, m, p)
    requires t[p].comp < ncomp && v[t[p].comp] && m[p]
    ensures Nested(t, p) && t[p].parent.value < |t| && Value(t, ncomp, v, m, t[p].parent.value) != TRUE
  {
    assert Placed(t, ncomp, p);
    assert Decide(t, v, m, p) == TRUE;
    assert Value(t, ncomp, v, m, p) != TRUE;
  }

  /** A section is not to be used when an earlier one of its chain can be decided and holds. */
  lemma Preceded(t: seq<Context>, ncomp: nat, v: seq<bool>, m: seq<bool>, p: nat, a: nat)
    requires Tree(t, ncomp) && |v| == ncomp && |m| == |t| && p < |t| && a < |t| && Later(t, p, a)
    requires t[p].comp < ncomp && v[t[p].comp] && m[p]
    ensures Value(t, ncomp, v, m, a) != TRUE
  {
    assert Placed(t, ncomp, p) && Placed(t, ncomp, a);
    TakenByOne(t, ncomp, v, m, p, a);
    if Taken(t, ncomp, v, m, p) {
      AfterTaken(t, ncomp, v, m, a);
    } else {
      HeldBack(t, ncomp, v, m, p);
    }
  }

  /** All fields on the path to x are among those given. */
  lemma {:induction false} AllOnPath(t: seq<Context>, ncomp: nat, x: nat, fields: seq<nat>, b: nat)
    requires Tree(t, ncomp) && x < |t| && b < |t| && AllIn(t, ncomp, x, fields) && OnPath(t, ncomp, b, x)
    ensures t[b].comp in fields
    decreases x
  {
    assert Placed(t, ncomp, x);
    if b != x { AllOnPath(t, ncomp, t[x].parent.value, fields, b); }
  }

  lemma PatchedNext(t: seq<Context>, ncomp: nat, m: seq<bool>, order: seq<nat>, k: nat)
    requires Tree(t, ncomp) && |m| == |t| && Fields(order, ncomp) && k < |order|
    ensures Marked(order[..k + 1], ncomp) == Marked(order[..k], ncomp)[order[k] := true]
    ensures Patched(t, ncomp, m, order[..k + 1])
      == Scan(t, ncomp, Marked(order[..k + 1], ncomp), m, Patched(t, ncomp, m, order[..k]), |t|)
  {
    assert order[..k + 1][..k] == order[..k];
  }

  /** x is TRUE before p is known. */
  lemma FoundBefore(t: seq<Context>, ncomp: nat, order: seq<nat>, m: seq<bool>, x: nat, a: nat, p: nat, j: nat)
    requires Tree(t, ncomp) && Fields(order, ncomp) && Overtakes(t, ncomp, order, x, a, p, j)
    requires PathAnd(t, ncomp, m, x, p)
    ensures j > 0 && x > 0 && Value(t, ncomp, Marked(order[..j], ncomp), m, x) == TRUE
  {
    var v := Marked(order[..j], ncomp);
    assert Placed(t, ncomp, p) && Placed(t, ncomp, x);
    forall i | 0 <= i < |t| && OnPath(t, ncomp, i, x)
      ensures t[i].comp < ncomp && v[t[i].comp]
    {
      assert Placed(t, ncomp, i);
      AllOnPath(t, ncomp, x, order[..j], i);
    }
    EnclosedBelow(t, ncomp, a, x);
    PathTrue(t, ncomp, v, m, x, p, x);
  }

  /** x is not TRUE once p is known. */
  lemma GoneAfter(t: seq<Context>, ncomp: nat, order: seq<nat>, m: seq<bool>, x: nat, a: nat, p: nat, j: nat)
    requires Tree(t, ncomp) && Fields(order, ncomp) && Overtakes(t, ncomp, order, x, a, p, j)
    requires PathAnd(t, ncomp, m, x, p)
    ensures Value(t, ncomp, Marked(order[..j + 1], ncomp), m, x) != TRUE
  {
    assert Placed(t, ncomp, p);
    assert order[..j + 1][j] == order[j];
    Preceded(t, ncomp, Marked(order[..j + 1], ncomp), m, p, a);
    EncloserTrue(t, ncomp, Marked(order[..j + 1], ncomp), m, a, x);
  }

  /** In the cache x stays TRUE. */
  lemma StaysInCache(t: seq<Context>, ncomp: nat, order: seq<nat>, m: seq<bool>, x: nat, a: nat, p: nat, j: nat)
    requires Tree(t, ncomp) && Fields(order, ncomp) && Overtakes(t, ncomp, order, x, a, p, j)
    requires PathAnd(t, ncomp, m, x, p) && j > 0
    requires Answer(t, ncomp, Marked(order[..j], ncomp), m, Patched(t, ncomp, m, order[..j - 1]), x) == TRUE
    ensures Answer(t, ncomp, Marked(order[..j + 1], ncomp), m, Patched(t, ncomp, m, order[..j]), x) == TRUE
  {
    ChainIdle(t, ncomp, m, x, a, p);
    PatchedNext(t, ncomp, m, order, j - 1);
    ScanKeepsTrue(t, ncomp, Marked(order[..j], ncomp), m, Patched(t, ncomp, m, order[..j - 1]), x, x + 1, |t|);
    ScanKeepsTrue(t, ncomp, Marked(order[..j + 1], ncomp), m, Patched(t, ncomp, m, order[..j]), x, 0, x + 1);
  }

  lemma Stale(t: seq<Context>, ncomp: nat, order: seq<nat>, m: seq<bool>, x: nat, a: nat, p: nat, j: nat)
    requires Tree(t, ncomp) && Fields(order, ncomp) && Overtakes(t, ncomp, order, x, a, p, j)
    requires PathAnd(t, ncomp, m, x, p)
    ensures j > 0 && (!Plain(t, ncomp, m, order[..j]) || !Plain(t, ncomp, m, order[..j + 1]))
  {
    FoundBefore(t, ncomp, order, m, x, a, p, j);
    GoneAfter(t, ncomp, order, m, x, a, p, j);
    assert order[..j][..j - 1] == order[..j - 1] && order[..j + 1][..j] == order[..j];
    if Plain(t, ncomp, m, order[..j]) { StaysInCache(t, ncomp, order, m, x, a, p, j); }
  }

  /** No comparison of an earlier section of the chain of x holds. */
  lemma ChainIdle(t: seq<Context>, ncomp: nat, m: seq<bool>, x: nat, a: nat, p: nat)
    requires Tree(t, ncomp) && x < |t| && a < |t| && p < |t| && Encloses(t, ncomp, a, x) && Later(t, p, a)
    requires PathAnd(t, ncomp, m, x, p)
    ensures forall s | 0 <= s < |t| && Later(t, s, x) :: !m[s]
  {
    EnclosedBelow(t, ncomp, a, x);
    assert Placed(t, ncomp, a) && Placed(t, ncomp, p);
    LaterSiblings(t, ncomp, p, a);
    forall s | 0 <= s < |t| && Later(t, s, x)
      ensures !m[s]
    {
      LaterSiblings(t, ncomp, s, x);
      PathApart(t, ncomp, s, x, x);
    }
  }

  lemma {:induction false} LaterSiblings(t: seq<Context>, ncomp: nat, s: nat, x: nat)
    requires Tree(t, ncomp) && s < |t| && x < |t| && Later(t, s, x)
    ensures s < x && t[s].parent == t[x].parent
    decreases |t| - s
  {
    assert Placed(t, ncomp, s);
    var n := t[s].next.value;
    assert Placed(t, ncomp, n);
    if n != x { LaterSiblings(t, ncomp, n, x); }
  }

  lemma Witness(t: seq<Context>, ncomp: nat, x: nat, p: nat) returns (m: seq<bool>)
    requires Tree(t, ncomp) && x < |t|
    ensures PathAnd(t, ncomp, m, x, p)
  {
    m := seq(|t|, (i: nat) => i == p || OnPath(t, ncomp, i, x));
  }

  /** However the comparisons turn out, every one of the calls applies the sections that plainly are
      to be used. */
  ghost predicate PlainThroughout(t: seq<Context>, ncomp: nat, order: seq<nat>)
    requires Tree(t, ncomp) && Fields(order, ncomp)
  {
    forall m: seq<bool>, n | |m| == |t| && 0 < n <= |order| :: Plain(t, ncomp, m, order[..n])
  }

  lemma PlainUnless(t: seq<Context>, ncomp: nat, m: seq<bool>, order: seq<nat>)
    requires Tree(t, ncomp) && Rooted(t) && |m| == |t| && order != [] && Fields(order, ncomp)
    requires !Overtaken(t, ncomp, order)
    ensures Plain(t, ncomp, m, order)
  {
    var init := order[..|order| - 1];
    PrefixOvertaken(t, ncomp, order, |order| - 1);
    PatchedRight(t, ncomp, m, init);
    NoneLostUnless(t, ncomp, m, order);
    forall i | 1 <= i < |t|
      ensures Answer(t, ncomp, Marked(order, ncomp), m, Patched(t, ncomp, m, init), i)
        == Value(t, ncomp, Marked(order, ncomp), m, i)
    {
      ScanRight(t, ncomp, Marked(init, ncomp), Marked(order, ncomp), m, Patched(t, ncomp, m, init), i + 1);
    }
  }

  /** That is so exactly when no section is overtaken, which the sections and the order of the fields
      tell beforehand. */
  lemma PlainIffNotOvertaken(t: seq<Context>, ncomp: nat, order: seq<nat>)
    requires Tree(t, ncomp) && Rooted(t) && Fields(order, ncomp)
    ensures PlainThroughout(t, ncomp, order) <==> !Overtaken(t, ncomp, order)
  {
    if Overtaken(t, ncomp, order) {
      var x: nat, a: nat, p: nat, j: nat :| Overtakes(t, ncomp, order, x, a, p, j);
      var m := Witness(t, ncomp, x, p);
      Stale(t, ncomp, order, m, x, a, p, j);
    } else {
      forall m: seq<bool>, n | |m| == |t| && 0 < n <= |order|
        ensures Plain(t, ncomp, m, order[..n])
      {
        PrefixOvertaken(t, ncomp, order, n);
        PlainUnless(t, ncomp, m, order[..n]);
      }
    }
  }

  /** The sections applied by call number k of a run over the order. */
  ghost predicate AppliedAt(t: seq<Context>, ncomp: nat, m: seq<bool>, order: seq<nat>, k: nat, applied: seq<nat>)
    requires Tree(t, ncomp) && |m| == |t| && Fields(order, ncomp) && k < |order|
  {
    forall i :: i in applied <==>
      (1 <= i < |t| && Answer(t, ncomp, Marked(order[..k + 1], ncomp), m, Patched(t, ncomp, m, order[..k]), i) == TRUE)
  }

  /** The sections in use after call number k of a run, by their plain meaning. */
  ghost predicate PlainlyAt(t: seq<Context>, ncomp: nat, m: seq<bool>, order: seq<nat>, k: nat, applied: seq<nat>)
    requires Tree(t, ncomp) && |m| == |t| && Fields(order, ncomp) && k < |order|
  {
    forall i :: i in applied <==> 1 <= i < |t| && Value(t, ncomp, Marked(order[..k + 1], ncomp), m, i) == TRUE
  }

  lemma AppliedPlainly(t: seq<Context>, ncomp: nat, m: seq<bool>, order: seq<nat>, k: nat, applied: seq<nat>)
    requires Tree(t, ncomp) && Rooted(t) && |m| == |t| && Fields(order, ncomp) && k < |order|
    requires !Overtaken(t, ncomp, order) && AppliedAt(t, ncomp, m, order, k, applied)
    ensures PlainlyAt(t, ncomp, m, order, k, applied)
  {
    PrefixOvertaken(t, ncomp, order, k + 1);
    PlainUnless(t, ncomp, m, order[..k + 1]);
    assert order[..k + 1][..k] == order[..k];
  }

  /** The state of a connection after the calls for the fields of the order. */
  ghost predicate Reached(t: seq<Context>, ncomp: nat, m: seq<bool>, order: seq<nat>, valid: seq<bool>, c: seq<Result>)
    requires Tree(t, ncomp) && |m| == |t| && Fields(order, ncomp)
  {
    valid == Marked(order, ncomp) && c == Patched(t, ncomp, m, order) && Exclusive(t, c)
  }

  method PatchNext(con: Connection, matches: seq<bool>, order: seq<nat>, k: nat) returns (applied: seq<nat>)
    requires con.Valid() && |matches| == |con.contexts| && Fields(order, con.ncomp) && k < |order|
    requires Reached(con.contexts, con.ncomp, matches, order[..k], con.conditional_is_valid[..], con.cond_cache[..])
    modifies con.cond_cache, con.conditional_is_valid
    ensures Reached(con.contexts, con.ncomp, matches, order[..k + 1], con.conditional_is_valid[..], con.cond_cache[..])
    ensures AppliedAt(con.contexts, con.ncomp, matches, order, k, applied) && Ascending(applied)
  {
    PatchedNext(con.contexts, con.ncomp, matches, order, k);
    applied := con.Patch(matches, order[k]);
  }

  /** The start of a request: a reset, and one call of config_patch_connection for each field. */
  method PatchAll(con: Connection, matches: seq<bool>, order: seq<nat>) returns (applied: seq<seq<nat>>)
    requires con.Valid() && Rooted(con.contexts) && |matches| == |con.contexts| && Fields(order, con.ncomp)
    modifies con.cond_cache, con.conditional_is_valid
    ensures con.conditional_is_valid[..] == Marked(order, con.ncomp)
    ensures con.cond_cache[..] == Patched(con.contexts, con.ncomp, matches, order)
    ensures |applied| == |order|
    ensures forall k | 0 <= k < |order| :: AppliedAt(con.contexts, con.ncomp, matches, order, k, applied[k])
    ensures forall k | 0 <= k < |order| :: Ascending(applied[k])
    ensures !Overtaken(con.contexts, con.ncomp, order) ==>
      forall k | 0 <= k < |order| :: PlainlyAt(con.contexts, con.ncomp, matches, order, k, applied[k])
  {
    con.Reset();
    applied := [];
    ghost var t, n := con.contexts, con.ncomp;
    assert order[..0] == [];
    for k := 0 to |order|
      invariant Reached(t, n, matches, order[..k], con.conditional_is_valid[..], con.cond_cache[..])
      invariant |applied| == k && forall l | 0 <= l < k :: AppliedAt(t, n, matches, order, l, applied[l])
      invariant forall l | 0 <= l < k :: Ascending(applied[l])
    {
      var some := PatchNext(con, matches, order, k);
      applied := applied + [some];
    }
    assert order[..|order|] == order;
    if !Overtaken(t, n, order) {
      forall k | 0 <= k < |order|
        ensures PlainlyAt(t, n, matches, order, k, applied[k])
      {
        AppliedPlainly(t, n, matches, order, k, applied[k]);
      }
    }
  }

  /** The fields in the order in which http_response_prepare makes them known; a field's number is its
      comp_key_t. */
  const REQUEST_ORDER: seq<nat> := [1, 10, 3, 8, 4, 5, 6, 7, 11, 2, 9]

  const COMP_LAST_ELEMENT := 12

  /** if url { } else if host { if scheme { } }, within the global section. */
  const SITE := [Context(None, None, None, 0), Context(Some(0), None, Some(2), 2), Context(Some(0), Some(1), None, 3),
                 Context(Some(2), None, None, 10)]

  /** In the server's own order a section within the second branch of a chain goes stale when the first
      looks at the URL. */
  lemma UrlOvertakes()
    ensures Tree(SITE, COMP_LAST_ELEMENT) && Rooted(SITE) && Fields(REQUEST_ORDER, COMP_LAST_ELEMENT)
    ensures Overtakes(SITE, COMP_LAST_ELEMENT, REQUEST_ORDER, 3, 2, 1, 9)
    ensures !PlainThroughout(SITE, COMP_LAST_ELEMENT, REQUEST_ORDER)
  {
    assert Placed(SITE, 12, 0) && Placed(SITE, 12, 1) && Placed(SITE, 12, 2) && Placed(SITE, 12, 3);
    assert REQUEST_ORDER[..9] == [1, 10, 3, 8, 4, 5, 6, 7, 11];
    assert [1, 10, 3, 8, 4, 5, 6, 7, 11][1] == 10 && [1, 10, 3, 8, 4, 5, 6, 7, 11][2] == 3;
    assert AllIn(SITE, 12, 2, REQUEST_ORDER[..9]);
    assert Overtakes(SITE, 12, REQUEST_ORDER, 3, 2, 1, 9);
    PlainIffNotOvertaken(SITE, 12, REQUEST_ORDER);
  }
}
