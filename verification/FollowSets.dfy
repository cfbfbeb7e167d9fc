/** Follow sets (src/lemon.c, FindFollowSets): sets are passed on along the propagation links until
    nothing changes, and only configurations whose set has grown are looked at again. */
module FollowSets {
  import opened BitSets

  /** The forward links of each configuration, in the order in which the generator visits them. */
  ghost predicate Linked(links: seq<seq<nat>>) {
    forall c, k | 0 <= c < |links| && 0 <= k < |links[c]| :: links[c][k] < |links|
  }

  ghost predicate Path(links: seq<seq<nat>>, p: seq<nat>) {
    && p != [] && (forall i | 0 <= i < |p| :: p[i] < |links|)
    && forall i {:trigger LinkOn(links, p, i)} | 0 <= i < |p| - 1 :: LinkOn(links, p, i)
  }

  ghost predicate LinkOn(links: seq<seq<nat>>, p: seq<nat>, i: nat)
    requires i < |p| - 1
  {
    p[i] < |links| && p[i + 1] in links[p[i]]
  }

  ghost predicate Reaches(links: seq<seq<nat>>, a: nat, b: nat) {
    exists p :: Path(links, p) && p[0] == a && p[|p| - 1] == b
  }

  lemma ReachesItself(links: seq<seq<nat>>, a: nat)
    requires a < |links|
    ensures Reaches(links, a, a)
  {
    assert Path(links, [a]);
  }

  lemma ReachesOn(links: seq<seq<nat>>, a: nat, b: nat, c: nat)
    requires Reaches(links, a, b) && b < |links| && c < |links| && c in links[b]
    ensures Reaches(links, a, c)
  {
    var p :| Path(links, p) && p[0] == a && p[|p| - 1] == b;
    var q := p + [c];
    forall i | 0 <= i < |q| - 1
      ensures LinkOn(links, q, i)
    {
      if i < |p| - 1 { assert LinkOn(links, p, i); }
    }
    assert Path(links, q);
  }

  /** Some configuration that held t at first reaches c. */
  ghost predicate Due(links: seq<seq<nat>>, initial: seq<seq<bool>>, c: nat, t: nat) {
    exists a | 0 <= a < |links| :: Contains(initial, a, t) && Reaches(links, a, c)
  }

  ghost predicate Rows(links: seq<seq<nat>>, fws: seq<seq<bool>>, n: nat) {
    |fws| == |links| && forall c | 0 <= c < |fws| :: |fws[c]| == n
  }

  ghost predicate Sound(links: seq<seq<nat>>, initial: seq<seq<bool>>, fws: seq<seq<bool>>) {
    forall c, t {:trigger Contains(fws, c, t)} | Contains(fws, c, t) :: Due(links, initial, c, t)
  }

  /** Link k of configuration c has nothing more to pass on. */
  ghost predicate Passed(links: seq<seq<nat>>, fws: seq<seq<bool>>, c: nat, k: nat)
    requires c < |links| && k < |links[c]|
  {
    forall t {:trigger Contains(fws, c, t)} | Contains(fws, c, t) :: Contains(fws, links[c][k], t)
  }

  /** A configuration marked complete has nothing more to pass on. */
  ghost predicate Settled(links: seq<seq<nat>>, fws: seq<seq<bool>>, complete: seq<bool>) {
    && |complete| == |links|
    && forall c, k {:trigger Passed(links, fws, c, k)} | 0 <= c < |links| && complete[c] && 0 <= k < |links[c]| ::
      Passed(links, fws, c, k)
  }

  /** Set d has taken over set c. */
  ghost predicate Taken(fws: seq<seq<bool>>, fws': seq<seq<bool>>, d: nat, c: nat, changed: bool) {
    && |fws| == |fws'| && d < |fws| && c < |fws| && |fws[d]| == |fws[c]| == |fws'[d]|
    && (forall x | 0 <= x < |fws| && x != d :: fws'[x] == fws[x])
    && (forall e | 0 <= e < |fws[d]| :: fws'[d][e] <==> fws[d][e] || fws[c][e])
    && (changed <==> fws'[d] != fws[d])
  }

  lemma TakenStep(links: seq<seq<nat>>, initial: seq<seq<bool>>, fws: seq<seq<bool>>, fws': seq<seq<bool>>, c: nat,
                  k: nat, n: nat, changed: bool)
    requires Linked(links) && Rows(links, fws, n) && Sound(links, initial, fws) && c < |links| && k < |links[c]|
    requires Taken(fws, fws', links[c][k], c, changed)
    ensures Rows(links, fws', n) && Sound(links, initial, fws') && Grows(fws, fws') && (changed <==> fws != fws')
    ensures fws'[c] == fws[c] && Passed(links, fws', c, k)
  {
    var d := links[c][k];
    assert d in links[c];
    forall x, t | Contains(fws', x, t)
      ensures Due(links, initial, x, t)
    {
      if !Contains(fws, x, t) {
        assert Contains(fws, c, t);
        var a :| 0 <= a < |links| && Contains(initial, a, t) && Reaches(links, a, c);
        ReachesOn(links, a, c, d);
      }
    }
    forall x | 0 <= x < |fws|
      ensures RowGrows(fws[x], fws'[x])
    {}
    if fws'[d] == fws[d] { assert fws' == fws; }
    if c == d { assert fws'[c] == fws[c]; }
    forall t | Contains(fws', c, t)
      ensures Contains(fws', d, t)
    {
      assert Contains(fws, c, t);
    }
  }

  /** A set that has grown is not complete any more; the others still have nothing to pass on. */
  lemma SettledStep(links: seq<seq<nat>>, fws: seq<seq<bool>>, fws': seq<seq<bool>>, d: nat, c: nat, changed: bool,
                    complete: seq<bool>, complete': seq<bool>)
    requires Linked(links) && |fws| == |links| && Settled(links, fws, complete) && Taken(fws, fws', d, c, changed)
    requires complete' == if changed then complete[d := false] else complete
    ensures Settled(links, fws', complete')
  {
    forall x, k | 0 <= x < |links| && complete'[x] && 0 <= k < |links[x]|
      ensures Passed(links, fws', x, k)
    {
      assert Passed(links, fws, x, k) && complete[x];
      forall t | Contains(fws', x, t)
        ensures Contains(fws', links[x][k], t)
      {
        assert fws'[x] == fws[x];
        assert Contains(fws, x, t) && Contains(fws, links[x][k], t);
      }
    }
  }

  lemma PassedKept(links: seq<seq<nat>>, fws: seq<seq<bool>>, fws': seq<seq<bool>>, c: nat, k: nat)
    requires c < |links| && k < |links[c]| && Passed(links, fws, c, k) && Grows(fws, fws') && c < |fws|
    requires fws'[c] == fws[c]
    ensures Passed(links, fws', c, k)
  {
    forall t | Contains(fws', c, t)
      ensures Contains(fws', links[c][k], t)
    {
      assert Contains(fws, c, t) && Contains(fws, links[c][k], t);
      assert RowGrows(fws[links[c][k]], fws'[links[c][k]]);
    }
  }

  /** Pass the set of configuration c on along its links. */
  method Propagate(links: seq<seq<nat>>, fws: array<seq<bool>>, complete: array<bool>, c: nat,
                   ghost initial: seq<seq<bool>>, ghost n: nat)
    returns (progress: bool)
    requires Linked(links) && c < |links| && Rows(links, fws[..], n) && Sound(links, initial, fws[..])
    requires Settled(links, fws[..], complete[..])
    modifies fws, complete
    ensures Rows(links, fws[..], n) && Sound(links, initial, fws[..]) && Settled(links, fws[..], complete[..])
    ensures Grows(old(fws[..]), fws[..]) && (progress <==> fws[..] != old(fws[..]))
    ensures complete[c] && (!progress ==> complete[..] == old(complete[..])[c := true])
  {
    progress := false;
    ghost var was, done := fws[..], complete[..];
    for k := 0 to |links[c]|
      invariant Rows(links, fws[..], n) && Sound(links, initial, fws[..]) && Settled(links, fws[..], complete[..])
      invariant Grows(was, fws[..]) && (progress <==> fws[..] != was) && fws[c] == was[c]
      invariant !progress ==> complete[..] == done
      invariant forall k' | 0 <= k' < k :: Passed(links, fws[..], c, k')
    {
      ghost var now, marks := fws[..], complete[..];
      var change := SetUnion(fws, links[c][k], c);
      TakenStep(links, initial, now, fws[..], c, k, n, change);
      if change {
        complete[links[c][k]] := false;
        progress := true;
      }
      SettledStep(links, now, fws[..], links[c][k], c, change, marks, complete[..]);
      GrowsTwice(was, now, fws[..]);
      forall k' | 0 <= k' < k
        ensures Passed(links, fws[..], c, k')
      {
        PassedKept(links, now, fws[..], c, k');
      }
    }
    complete[c] := true;
  }

  /** One pass over all configurations; progress if any set grew. */
  method Pass(links: seq<seq<nat>>, fws: array<seq<bool>>, complete: array<bool>, ghost initial: seq<seq<bool>>,
              ghost n: nat)
    returns (progress: bool)
    requires Linked(links) && Rows(links, fws[..], n) && Sound(links, initial, fws[..])
    requires Settled(links, fws[..], complete[..])
    modifies fws, complete
    ensures Rows(links, fws[..], n) && Sound(links, initial, fws[..]) && Settled(links, fws[..], complete[..])
    ensures Grows(old(fws[..]), fws[..])
    ensures if progress then Missing(fws[..]) < old(Missing(fws[..]))
      else fws[..] == old(fws[..]) && forall c | 0 <= c < complete.Length :: complete[c]
  {
    progress := false;
    ghost var was := fws[..];
    for c := 0 to |links|
      invariant Rows(links, fws[..], n) && Sound(links, initial, fws[..]) && Settled(links, fws[..], complete[..])
      invariant Grows(was, fws[..]) && (progress <==> fws[..] != was)
      invariant !progress ==> forall c' | 0 <= c' < c :: complete[c']
    {
      if complete[c] { continue; }
      ghost var now, marks := fws[..], complete[..];
      var change := Propagate(links, fws, complete, c, initial, n);
      GrowsTwice(was, now, fws[..]);
      if change { progress := true; }
      if !progress { assert forall c' | 0 <= c' < c :: complete[..][c'] == marks[c']; }
    }
    MissingGrow(was, fws[..]);
  }

  lemma {:induction false} PathPasses(links: seq<seq<nat>>, fws: seq<seq<bool>>, complete: seq<bool>, p: seq<nat>,
                                      t: nat)
    requires Settled(links, fws, complete) && (forall c | 0 <= c < |complete| :: complete[c])
    requires Path(links, p) && Contains(fws, p[0], t)
    ensures Contains(fws, p[|p| - 1], t)
  {
    if |p| > 1 {
      var q := p[..|p| - 1];
      forall i | 0 <= i < |q| - 1
        ensures LinkOn(links, q, i)
      {
        assert LinkOn(links, p, i);
      }
      PathPasses(links, fws, complete, q, t);
      assert LinkOn(links, p, |p| - 2);
      var c := p[|p| - 2];
      var k :| 0 <= k < |links[c]| && links[c][k] == p[|p| - 1];
      assert Passed(links, fws, c, k);
    }
  }

  lemma FollowExact(links: seq<seq<nat>>, initial: seq<seq<bool>>, fws: seq<seq<bool>>, complete: seq<bool>, n: nat)
    requires Rows(links, initial, n) && Rows(links, fws, n) && Sound(links, initial, fws)
    requires Settled(links, fws, complete) && Grows(initial, fws)
    requires forall c | 0 <= c < |complete| :: complete[c]
    ensures forall c, t {:trigger Contains(fws, c, t)} | 0 <= c < |links| && 0 <= t < n ::
      Contains(fws, c, t) <==> Due(links, initial, c, t)
  {
    forall c, t | 0 <= c < |links| && 0 <= t < n && Due(links, initial, c, t)
      ensures Contains(fws, c, t)
    {
      var a :| 0 <= a < |links| && Contains(initial, a, t) && Reaches(links, a, c);
      var p :| Path(links, p) && p[0] == a && p[|p| - 1] == c;
      assert RowGrows(initial[a], fws[a]);
      PathPasses(links, fws, complete, p, t);
    }
  }

  /** In the end a configuration's follow set holds exactly what some configuration that reaches it
      along the links held at first. */
  method FindFollowSets(links: seq<seq<nat>>, fws: array<seq<bool>>, ghost n: nat)
    requires Linked(links) && Rows(links, fws[..], n)
    modifies fws
    ensures Rows(links, fws[..], n)
    ensures forall c, t {:trigger Contains(fws[..], c, t)} | 0 <= c < |links| && 0 <= t < n ::
      Contains(fws[..], c, t) <==> Due(links, old(fws[..]), c, t)
  {
    ghost var initial := fws[..];
    var complete := new bool[|links|](_ => false);
    StartSound(links, initial, n);
    var progress := true;
    while progress
      invariant Rows(links, fws[..], n) && Sound(links, initial, fws[..]) && Settled(links, fws[..], complete[..])
      invariant Grows(initial, fws[..])
      invariant !progress ==> forall c | 0 <= c < complete.Length :: complete[c]
      decreases Missing(fws[..]), progress
    {
      ghost var now := fws[..];
      progress := Pass(links, fws, complete, initial, n);
      GrowsTwice(initial, now, fws[..]);
    }
    FollowExact(links, initial, fws[..], complete[..], n);
  }

  lemma StartSound(links: seq<seq<nat>>, initial: seq<seq<bool>>, n: nat)
    requires Rows(links, initial, n)
    ensures Sound(links, initial, initial) && Grows(initial, initial)
  {
    forall c, t | Contains(initial, c, t)
      ensures Due(links, initial, c, t)
    {
      ReachesItself(links, c);
    }
    forall x | 0 <= x < |initial|
      ensures RowGrows(initial[x], initial[x])
    {}
  }
}
