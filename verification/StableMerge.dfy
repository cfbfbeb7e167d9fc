/** The order a stable sort produces, and merging (src/lemon.c, merge), over the positions of the
    elements in the list to be sorted. */
module StableMerge {

  /** cmp orders the elements as qsort's comparison functions do. */
  ghost predicate TotalPreorder<T(!new)>(cmp: (T, T) -> int) {
    && (forall x, y :: cmp(x, y) < 0 <==> cmp(y, x) > 0)
    && (forall x, y, z :: cmp(x, y) <= 0 && cmp(y, z) <= 0 ==> cmp(x, z) <= 0)
  }

  /** The element at position i of the input belongs before the one at position j: it is smaller, or
      equal and earlier in the input. */
  predicate Before<T>(cmp: (T, T) -> int, keys: seq<T>, i: nat, j: nat)
    requires i < |keys| && j < |keys|
  {
    cmp(keys[i], keys[j]) < 0 || (cmp(keys[i], keys[j]) == 0 && i < j)
  }

  ghost predicate Positions(n: nat, run: seq<nat>) {
    forall k | 0 <= k < |run| :: run[k] < n
  }

  /** run lists positions in the order a stable sort puts them. */
  ghost predicate Ascending<T>(cmp: (T, T) -> int, keys: seq<T>, run: seq<nat>) {
    && Positions(|keys|, run)
    && forall k, l {:trigger Before(cmp, keys, run[k], run[l])} | 0 <= k < l < |run| ::
      Before(cmp, keys, run[k], run[l])
  }

  lemma BeforeTransitive<T(!new)>(cmp: (T, T) -> int, keys: seq<T>, i: nat, j: nat, k: nat)
    requires TotalPreorder(cmp) && i < |keys| && j < |keys| && k < |keys|
    requires Before(cmp, keys, i, j) && Before(cmp, keys, j, k)
    ensures Before(cmp, keys, i, k)
  {
    assert cmp(keys[i], keys[k]) <= 0;
    if cmp(keys[i], keys[k]) == 0 {
      assert cmp(keys[k], keys[i]) <= 0;
      assert cmp(keys[k], keys[j]) <= 0 && cmp(keys[j], keys[i]) <= 0;
    }
  }

  /** merge: the first of b goes first unless the first of a is strictly smaller. */
  function MergeOf<T>(cmp: (T, T) -> int, keys: seq<T>, a: seq<nat>, b: seq<nat>): (r: seq<nat>)
    requires forall k | 0 <= k < |a| :: a[k] < |keys|
    requires forall k | 0 <= k < |b| :: b[k] < |keys|
    ensures multiset(r) == multiset(a) + multiset(b)
  {
    if a == [] then b
    else if b == [] then a
    else if cmp(keys[a[0]], keys[b[0]]) < 0 then
      assert a == [a[0]] + a[1..];
      [a[0]] + MergeOf(cmp, keys, a[1..], b)
    else
      assert b == [b[0]] + b[1..];
      [b[0]] + MergeOf(cmp, keys, a, b[1..])
  }

  lemma MergeMembers<T>(cmp: (T, T) -> int, keys: seq<T>, a: seq<nat>, b: seq<nat>)
    requires Positions(|keys|, a) && Positions(|keys|, b)
    ensures |MergeOf(cmp, keys, a, b)| == |a| + |b|
    ensures forall x :: x in MergeOf(cmp, keys, a, b) <==> x in a || x in b
  {
    var r := MergeOf(cmp, keys, a, b);
    assert |multiset(r)| == |multiset(a)| + |multiset(b)|;
    forall x
      ensures x in r <==> x in a || x in b
    {
      assert x in multiset(r) <==> x in r;
      assert x in multiset(a) <==> x in a;
      assert x in multiset(b) <==> x in b;
    }
  }

  /** Everything in late stands after everything in early in the input. */
  ghost predicate Follows(late: seq<nat>, early: seq<nat>) {
    forall x, y | x in late && y in early :: y < x
  }

  /** Merging a later run with an earlier one keeps the stable order. */
  lemma {:induction false} MergeAscending<T(!new)>(cmp: (T, T) -> int, keys: seq<T>, late: seq<nat>, early: seq<nat>)
    requires TotalPreorder(cmp) && Ascending(cmp, keys, late) && Ascending(cmp, keys, early) && Follows(late, early)
    ensures Ascending(cmp, keys, MergeOf(cmp, keys, late, early))
    decreases |late| + |early|
  {
    if late != [] && early != [] {
      var x, y := late[0], early[0];
      assert x in late && y in early;
      if cmp(keys[x], keys[y]) < 0 {
        TailAscending(cmp, keys, late);
        assert forall z | z in late[1..] :: z in late;
        MergeAscending(cmp, keys, late[1..], early);
        MergeMembers(cmp, keys, late[1..], early);
        HeadFirst(cmp, keys, x, y, late, early);
        ConsAscending(cmp, keys, x, MergeOf(cmp, keys, late[1..], early));
      } else {
        TailAscending(cmp, keys, early);
        assert forall z | z in early[1..] :: z in early;
        MergeAscending(cmp, keys, late, early[1..]);
        MergeMembers(cmp, keys, late, early[1..]);
        assert Before(cmp, keys, y, x);
        HeadFirst(cmp, keys, y, x, early, late);
        ConsAscending(cmp, keys, y, MergeOf(cmp, keys, late, early[1..]));
      }
    }
  }

  lemma TailAscending<T>(cmp: (T, T) -> int, keys: seq<T>, run: seq<nat>)
    requires Ascending(cmp, keys, run) && run != []
    ensures Ascending(cmp, keys, run[1..])
  {
    forall k, l | 0 <= k < l < |run| - 1
      ensures Before(cmp, keys, run[1..][k], run[1..][l])
    {
      assert Before(cmp, keys, run[k + 1], run[l + 1]);
    }
  }

  lemma ConsAscending<T>(cmp: (T, T) -> int, keys: seq<T>, x: nat, run: seq<nat>)
    requires x < |keys| && Ascending(cmp, keys, run) && forall y | y in run :: y < |keys| && Before(cmp, keys, x, y)
    ensures Ascending(cmp, keys, [x] + run)
  {
    var r := [x] + run;
    forall k, l | 0 <= k < l < |r|
      ensures Before(cmp, keys, r[k], r[l])
    {
      if k == 0 { assert r[l] in run; } else { assert Before(cmp, keys, run[k - 1], run[l - 1]); }
    }
  }

  /** The smaller of two heads is before the rest of both runs. */
  lemma HeadFirst<T(!new)>(cmp: (T, T) -> int, keys: seq<T>, x: nat, y: nat, mine: seq<nat>, other: seq<nat>)
    requires TotalPreorder(cmp) && Ascending(cmp, keys, mine) && Ascending(cmp, keys, other)
    requires mine != [] && other != [] && mine[0] == x && other[0] == y && Before(cmp, keys, x, y)
    ensures forall z | z in mine[1..] || z in other :: z < |keys| && Before(cmp, keys, x, z)
  {
    forall z | z in mine[1..]
      ensures z < |keys| && Before(cmp, keys, x, z)
    {
      var k :| 0 <= k < |mine[1..]| && mine[1..][k] == z;
      assert Before(cmp, keys, mine[0], mine[k + 1]);
    }
    forall z | z in other
      ensures z < |keys| && Before(cmp, keys, x, z)
    {
      var k :| 0 <= k < |other| && other[k] == z;
      if k > 0 {
        assert Before(cmp, keys, other[0], other[k]);
        BeforeTransitive(cmp, keys, x, y, z);
      }
    }
  }

  function Pow2(k: nat): nat {
    if k == 0 then 1 else 2 * Pow2(k - 1)
  }

  /** The bins of msort after the first n elements: bin k is empty or a run of 2^k elements, and
      higher bins hold earlier elements. */
  ghost predicate Bins<T>(cmp: (T, T) -> int, keys: seq<T>, n: nat, bins: seq<seq<nat>>) {
    && n <= |keys|
    && (forall k {:trigger bins[k]} | 0 <= k < |bins| :: bins[k] == [] || |bins[k]| == Pow2(k))
    && (forall k | 0 <= k < |bins| :: Ascending(cmp, keys, bins[k]))
    && (forall k | 0 <= k < |bins| :: forall x | x in bins[k] :: x < n)
    && (forall k, l {:trigger Follows(bins[k], bins[l])} | 0 <= k < l < |bins| :: Follows(bins[k], bins[l]))
  }

  /** The elements in the bins from k on. */
  ghost function Contents(bins: seq<seq<nat>>, k: nat): multiset<nat>
    requires k <= |bins|
    decreases |bins| - k
  {
    if k == |bins| then multiset{} else multiset(bins[k]) + Contents(bins, k + 1)
  }

  lemma {:induction false} ContentsAbove(bins: seq<seq<nat>>, i: nat, run: seq<nat>, k: nat)
    requires i < k <= |bins|
    ensures Contents(bins[i := run], k) == Contents(bins, k)
    decreases |bins| - k
  {
    if k < |bins| { ContentsAbove(bins, i, run, k + 1); }
  }

  lemma {:induction false} ContentsUpdate(bins: seq<seq<nat>>, i: nat, run: seq<nat>, k: nat)
    requires k <= i < |bins|
    ensures Contents(bins[i := run], k) + multiset(bins[i]) == Contents(bins, k) + multiset(run)
    decreases i - k
  {
    var bins' := bins[i := run];
    if k == i {
      ContentsAbove(bins, i, run, i + 1);
    } else {
      ContentsUpdate(bins, i, run, k + 1);
      var here, above, above' := multiset(bins[k]), Contents(bins, k + 1), Contents(bins', k + 1);
      assert Contents(bins', k) == here + above' && Contents(bins, k) == here + above;
      assert (here + above') + multiset(bins[i]) == here + (above' + multiset(bins[i]));
      assert (here + above) + multiset(run) == here + (above + multiset(run));
    }
  }

  lemma ContentsSizeAt(bins: seq<seq<nat>>, k: nat)
    requires k < |bins|
    ensures |Contents(bins, k)| == |bins[k]| + |Contents(bins, k + 1)|
  {
    var here, above := multiset(bins[k]), Contents(bins, k + 1);
    assert Contents(bins, k) == here + above;
    assert |here + above| == |here| + |above|;
  }

  lemma {:induction false} ContentsSize(bins: seq<seq<nat>>, k: nat)
    requires k <= |bins| && forall l {:trigger bins[l]} | 0 <= l < |bins| :: |bins[l]| <= Pow2(l)
    ensures |Contents(bins, k)| + Pow2(k) <= Pow2(|bins|)
    decreases |bins| - k
  {
    if k < |bins| {
      ContentsSize(bins, k + 1);
      ContentsSizeAt(bins, k);
      assert Pow2(k + 1) == 2 * Pow2(k);
    }
  }

  lemma {:induction false} ContentsHold(bins: seq<seq<nat>>, i: nat, k: nat)
    requires k <= i < |bins|
    ensures multiset(bins[i]) <= Contents(bins, k)
    decreases i - k
  {
    if k < i { ContentsHold(bins, i, k + 1); }
  }

  /** The positions from lo to below hi. */
  function Range(lo: nat, hi: nat): (r: seq<nat>)
    requires lo <= hi
    ensures |r| == hi - lo && forall k | 0 <= k < |r| :: r[k] == lo + k
    decreases hi - lo
  {
    if lo == hi then [] else [lo] + Range(lo + 1, hi)
  }

  lemma {:induction false} RangeSnoc(lo: nat, hi: nat)
    requires lo <= hi
    ensures Range(lo, hi + 1) == Range(lo, hi) + [hi]
    decreases hi - lo
  {
    if lo < hi { RangeSnoc(lo + 1, hi); }
  }

  /** Nothing has been lost from the bins after n elements. */
  ghost predicate Lossless(bins: seq<seq<nat>>, n: nat) {
    Contents(bins, 0) == multiset(Range(0, n))
  }

  /** Element n is being inserted: it has been merged into run with the bins below i, which are empty. */
  ghost predicate Carry<T>(cmp: (T, T) -> int, keys: seq<T>, n: nat, bins: seq<seq<nat>>, run: seq<nat>, i: nat) {
    && Bins(cmp, keys, n, bins) && n < |keys| && i < |bins|
    && |run| == Pow2(i) && Ascending(cmp, keys, run) && (forall x | x in run :: x <= n)
    && (forall k | 0 <= k < i :: bins[k] == [])
    && (forall k {:trigger Follows(run, bins[k])} | i <= k < |bins| :: Follows(run, bins[k]))
    && (n + 1 < Pow2(|bins|) ==> Contents(bins, 0) + multiset(run) == multiset(Range(0, n + 1)))
  }

  lemma CarryStart<T>(cmp: (T, T) -> int, keys: seq<T>, n: nat, bins: seq<seq<nat>>)
    requires Bins(cmp, keys, n, bins) && n < |keys| && |bins| > 0 && (n < Pow2(|bins|) ==> Lossless(bins, n))
    ensures Carry(cmp, keys, n, bins, [n], 0)
  {
    RangeSnoc(0, n);
    forall k | 0 <= k < |bins|
      ensures Follows([n], bins[k])
    {}
  }

  lemma CarryUp<T(!new)>(cmp: (T, T) -> int, keys: seq<T>, n: nat, bins: seq<seq<nat>>, run: seq<nat>, i: nat)
    requires TotalPreorder(cmp) && Carry(cmp, keys, n, bins, run, i) && i + 1 < |bins| && bins[i] != []
    ensures Carry(cmp, keys, n, bins[i := []], MergeOf(cmp, keys, run, bins[i]), i + 1)
  {
    var bins', run' := bins[i := []], MergeOf(cmp, keys, run, bins[i]);
    assert Follows(run, bins[i]);
    MergeAscending(cmp, keys, run, bins[i]);
    MergeMembers(cmp, keys, run, bins[i]);
    forall k | i + 1 <= k < |bins'|
      ensures Follows(run', bins'[k])
    {
      assert Follows(run, bins[k]) && Follows(bins[i], bins[k]);
    }
    forall k, l | 0 <= k < l < |bins'|
      ensures Follows(bins'[k], bins'[l])
    {
      assert Follows(bins[k], bins[l]);
    }
    CarryContents(bins, run, i, run');
  }

  lemma CarryContents(bins: seq<seq<nat>>, run: seq<nat>, i: nat, run': seq<nat>)
    requires i < |bins| && multiset(run') == multiset(run) + multiset(bins[i])
    ensures Contents(bins[i := []], 0) + multiset(run') == Contents(bins, 0) + multiset(run)
  {
    var none: seq<nat> := [];
    ContentsUpdate(bins, i, none, 0);
    assert multiset(none) == multiset{};
    assert Contents(bins[i := []], 0) + multiset(run') ==
      (Contents(bins[i := []], 0) + multiset(bins[i])) + multiset(run);
  }

  /** Storing the run in bin i; only the last bin can be occupied, and then not before Pow2(|bins|)
      elements have come. */
  lemma CarryStore<T>(cmp: (T, T) -> int, keys: seq<T>, n: nat, bins: seq<seq<nat>>, run: seq<nat>, i: nat)
    requires Carry(cmp, keys, n, bins, run, i) && (i + 1 < |bins| ==> bins[i] == [])
    ensures Bins(cmp, keys, n + 1, bins[i := run])
    ensures n + 1 < Pow2(|bins|) ==> Lossless(bins[i := run], n + 1)
  {
    var bins' := bins[i := run];
    forall k, l | 0 <= k < l < |bins'|
      ensures Follows(bins'[k], bins'[l])
    {
      if k == i { assert Follows(run, bins[l]); } else if l != i { assert Follows(bins[k], bins[l]); }
    }
    ContentsUpdate(bins, i, run, 0);
    if n + 1 < Pow2(|bins|) {
      NoneLost(bins, run, n, i);
    }
  }

  lemma NoneLost(bins: seq<seq<nat>>, run: seq<nat>, n: nat, i: nat)
    requires i < |bins| && |run| == Pow2(i) && (bins[i] == [] || |bins[i]| == Pow2(i))
    requires (i + 1 < |bins| ==> bins[i] == [])
    requires n + 1 < Pow2(|bins|) && Contents(bins, 0) + multiset(run) == multiset(Range(0, n + 1))
    ensures bins[i] == []
  {
    ContentsHold(bins, i, 0);
    assert |multiset(bins[i])| <= |Contents(bins, 0)| by { MultisetSize(multiset(bins[i]), Contents(bins, 0)); }
    assert |multiset(Range(0, n + 1))| == n + 1;
    assert |Contents(bins, 0) + multiset(run)| == |Contents(bins, 0)| + |run|;
  }

  lemma MultisetSize(a: multiset<nat>, b: multiset<nat>)
    requires a <= b
    ensures |a| <= |b|
  {
    assert b == a + (b - a);
  }

  /** Merging the bins from the lowest up. */
  ghost predicate Gathered<T>(cmp: (T, T) -> int, keys: seq<T>, bins: seq<seq<nat>>, run: seq<nat>, i: nat) {
    && i <= |bins| && Bins(cmp, keys, |keys|, bins) && Ascending(cmp, keys, run)
    && multiset(run) + Contents(bins, i) == Contents(bins, 0)
    && (forall k {:trigger Follows(run, bins[k])} | i <= k < |bins| :: Follows(run, bins[k]))
  }

  lemma GatherStep<T(!new)>(cmp: (T, T) -> int, keys: seq<T>, bins: seq<seq<nat>>, run: seq<nat>, i: nat)
    requires TotalPreorder(cmp) && Gathered(cmp, keys, bins, run, i) && i < |bins|
    ensures Gathered(cmp, keys, bins, MergeOf(cmp, keys, run, bins[i]), i + 1)
  {
    var run' := MergeOf(cmp, keys, run, bins[i]);
    assert Follows(run, bins[i]);
    MergeAscending(cmp, keys, run, bins[i]);
    MergeMembers(cmp, keys, run, bins[i]);
    forall k | i + 1 <= k < |bins|
      ensures Follows(run', bins[k])
    {
      assert Follows(run, bins[k]) && Follows(bins[i], bins[k]);
    }
  }

  /** Gathering everything gives all that the bins held, and that is all of the input unless there
      was too much of it. */
  lemma GatherEnd<T>(cmp: (T, T) -> int, keys: seq<T>, bins: seq<seq<nat>>, run: seq<nat>)
    requires Gathered(cmp, keys, bins, run, |bins|) && (|keys| < Pow2(|bins|) ==> Lossless(bins, |keys|))
    ensures multiset(run) == multiset(Range(0, |keys|)) <==> |keys| < Pow2(|bins|)
  {
    assert multiset(run) == Contents(bins, 0);
    PowPositive(bins);
    ContentsSize(bins, 0);
    if multiset(run) == multiset(Range(0, |keys|)) {
      assert |multiset(Range(0, |keys|))| == |keys|;
    }
  }

  lemma PowPositive(bins: seq<seq<nat>>)
    requires forall k {:trigger bins[k]} | 0 <= k < |bins| :: bins[k] == [] || |bins[k]| == Pow2(k)
    ensures forall k {:trigger bins[k]} | 0 <= k < |bins| :: |bins[k]| <= Pow2(k)
  {}
}
