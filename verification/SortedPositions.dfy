/** The index of an array (src/array.c), for keys of any kind and any total order on them: sorted
    lists the positions of the keys in ascending order. */
module SortedPositions {

  predicate Consistent<K>(cmp: (K, K) -> int, a: K, b: K, c: K) {
    && cmp(a, b) == -cmp(b, a)
    && (cmp(a, b) <= 0 && cmp(b, c) <= 0 ==> cmp(a, c) <= 0 && (cmp(a, c) == 0 ==> cmp(a, b) == 0 && cmp(b, c) == 0))
  }

  /** cmp orders the keys that are ok. */
  ghost predicate Orders<K(!new)>(cmp: (K, K) -> int, ok: K -> bool) {
    forall a, b, c {:trigger Consistent(cmp, a, b, c)} | ok(a) && ok(b) && ok(c) :: Consistent(cmp, a, b, c)
  }

  ghost predicate Less<K>(cmp: (K, K) -> int, keys: seq<K>, sorted: seq<nat>, i: nat, j: nat)
    requires i < |sorted| && j < |sorted| && sorted[i] < |keys| && sorted[j] < |keys|
  {
    cmp(keys[sorted[i]], keys[sorted[j]]) < 0
  }

  ghost predicate Listed(sorted: seq<nat>, k: nat) {
    exists i | 0 <= i < |sorted| :: sorted[i] == k
  }

  /** Every position of a key is listed, and the keys ascend. */
  ghost predicate Indexed<K(!new)>(cmp: (K, K) -> int, ok: K -> bool, keys: seq<K>, sorted: seq<nat>) {
    && |sorted| == |keys|
    && (forall i | 0 <= i < |sorted| :: sorted[i] < |keys|)
    && (forall k | 0 <= k < |keys| :: ok(keys[k]))
    && (forall k {:trigger Listed(sorted, k)} | 0 <= k < |keys| :: Listed(sorted, k))
    && (forall i, j {:trigger Less(cmp, keys, sorted, i, j)} | 0 <= i < j < |sorted| :: Less(cmp, keys, sorted, i, j))
  }

  /** How many of the keys listed are smaller than the key. */
  ghost function Rank<K>(cmp: (K, K) -> int, keys: seq<K>, sorted: seq<nat>, key: K): (r: nat)
    requires forall i | 0 <= i < |sorted| :: sorted[i] < |keys|
    ensures r <= |sorted|
  {
    if sorted == [] then 0
    else if cmp(keys[sorted[|sorted| - 1]], key) < 0 then |sorted|
    else Rank(cmp, keys, sorted[..|sorted| - 1], key)
  }

  /** The key at rank i against the key looked for, as a probe would find it. */
  ghost predicate Split<K>(cmp: (K, K) -> int, keys: seq<K>, sorted: seq<nat>, key: K, r: nat, i: nat)
    requires i < |sorted| && sorted[i] < |keys|
  {
    var c := cmp(key, keys[sorted[i]]);
    if i < r then c > 0 else if i == r then c <= 0 else c < 0
  }

  /** Smaller keys come before the rank, and greater ones from it on, of which the first may be equal. */
  lemma {:induction false} RankSplits<K(!new)>(cmp: (K, K) -> int, ok: K -> bool, keys: seq<K>, sorted: seq<nat>,
                                               key: K, i: nat)
    requires Orders(cmp, ok) && ok(key) && (forall k | 0 <= k < |keys| :: ok(keys[k]))
    requires forall j | 0 <= j < |sorted| :: sorted[j] < |keys|
    requires forall j, k {:trigger Less(cmp, keys, sorted, j, k)} | 0 <= j < k < |sorted| ::
      Less(cmp, keys, sorted, j, k)
    requires i < |sorted|
    ensures Split(cmp, keys, sorted, key, Rank(cmp, keys, sorted, key), i)
  {
    var last := |sorted| - 1;
    var init, lastKey, iKey := sorted[..last], keys[sorted[last]], keys[sorted[i]];
    assert Consistent(cmp, lastKey, key, key) && Consistent(cmp, iKey, key, key);
    if i < last { assert Less(cmp, keys, sorted, i, last); }
    if cmp(lastKey, key) < 0 {
      if i < last { assert Consistent(cmp, iKey, lastKey, key); }
    } else {
      forall j, k | 0 <= j < k < |init|
        ensures Less(cmp, keys, init, j, k)
      {
        assert Less(cmp, keys, sorted, j, k);
      }
      if i < last {
        RankSplits(cmp, ok, keys, init, key, i);
      } else if Rank(cmp, keys, init, key) < last {
        var r := Rank(cmp, keys, init, key);
        RankSplits(cmp, ok, keys, init, key, r);
        assert Less(cmp, keys, sorted, r, last);
        assert Consistent(cmp, key, keys[sorted[r]], lastKey);
      }
    }
  }

  /** Putting a new key at its rank. */
  lemma IndexedInsert<K(!new)>(cmp: (K, K) -> int, ok: K -> bool, keys: seq<K>, sorted: seq<nat>, key: K, r: nat,
                               keys': seq<K>, sorted': seq<nat>)
    requires Orders(cmp, ok) && Indexed(cmp, ok, keys, sorted) && ok(key) && r == Rank(cmp, keys, sorted, key)
    requires forall k | 0 <= k < |keys| :: cmp(key, keys[k]) != 0
    requires keys' == keys + [key] && sorted' == sorted[..r] + [|keys|] + sorted[r..]
    ensures Indexed(cmp, ok, keys', sorted')
  {
    InsertedPositions(sorted, |keys|, r, sorted');
    forall i, j | 0 <= i < j < |sorted'|
      ensures Less(cmp, keys', sorted', i, j)
    {
      InsertedLess(cmp, ok, keys, sorted, key, r, keys', sorted', i, j);
    }
  }

  /** A key that is not there is greater than those before its rank and smaller than the others. */
  lemma AroundRank<K(!new)>(cmp: (K, K) -> int, ok: K -> bool, keys: seq<K>, sorted: seq<nat>, key: K, i: nat)
    requires Orders(cmp, ok) && Indexed(cmp, ok, keys, sorted) && ok(key) && i < |keys|
    requires cmp(key, keys[sorted[i]]) != 0
    ensures if i < Rank(cmp, keys, sorted, key) then cmp(keys[sorted[i]], key) < 0 else cmp(key, keys[sorted[i]]) < 0
  {
    RankSplits(cmp, ok, keys, sorted, key, i);
    assert Consistent(cmp, keys[sorted[i]], key, key);
  }

  lemma InsertedLess<K(!new)>(cmp: (K, K) -> int, ok: K -> bool, keys: seq<K>, sorted: seq<nat>, key: K, r: nat,
                              keys': seq<K>, sorted': seq<nat>, i: nat, j: nat)
    requires Orders(cmp, ok) && Indexed(cmp, ok, keys, sorted) && ok(key) && r == Rank(cmp, keys, sorted, key)
    requires (forall k | 0 <= k < |keys| :: cmp(key, keys[k]) != 0) && i < j < |sorted'| == |keys| + 1
    requires keys' == keys + [key]
    requires sorted'[i] == if i < r then sorted[i] else if i == r then |keys| else sorted[i - 1]
    requires sorted'[j] == if j < r then sorted[j] else if j == r then |keys| else sorted[j - 1]
    ensures Less(cmp, keys', sorted', i, j)
  {
    if j == r {
      AroundRank(cmp, ok, keys, sorted, key, i);
    } else if i == r {
      AroundRank(cmp, ok, keys, sorted, key, j - 1);
    } else {
      assert Less(cmp, keys, sorted, if i < r then i else i - 1, if j < r then j else j - 1);
    }
  }

  lemma InsertedPositions(sorted: seq<nat>, n: nat, r: nat, sorted': seq<nat>)
    requires |sorted| == n && r <= n && sorted' == sorted[..r] + [n] + sorted[r..]
    requires (forall i | 0 <= i < n :: sorted[i] < n)
    requires (forall k {:trigger Listed(sorted, k)} | 0 <= k < n :: Listed(sorted, k))
    ensures forall i | 0 <= i <= n ::
      sorted'[i] == (if i < r then sorted[i] else if i == r then n else sorted[i - 1]) < n + 1
    ensures forall k {:trigger Listed(sorted', k)} | 0 <= k < n + 1 :: Listed(sorted', k)
  {
    forall k | 0 <= k < n + 1
      ensures Listed(sorted', k)
    {
      if k < n {
        assert Listed(sorted, k);
        var i :| 0 <= i < n && sorted[i] == k;
        assert sorted'[if i < r then i else i + 1] == k;
      } else {
        assert sorted'[r] == n;
      }
    }
  }

  /** Replacing a key by one that compares equal. */
  lemma IndexedReplace<K(!new)>(cmp: (K, K) -> int, ok: K -> bool, keys: seq<K>, sorted: seq<nat>, key: K, n: nat)
    requires Orders(cmp, ok) && Indexed(cmp, ok, keys, sorted) && n < |keys| && ok(key) && cmp(key, keys[n]) == 0
    ensures Indexed(cmp, ok, keys[n := key], sorted)
  {
    var keys' := keys[n := key];
    assert Consistent(cmp, keys[n], key, key) && Consistent(cmp, key, key, key);
    forall i, j | 0 <= i < j < |sorted|
      ensures Less(cmp, keys', sorted, i, j)
    {
      assert Less(cmp, keys, sorted, i, j);
      var k, l := keys[sorted[i]], keys[sorted[j]];
      if sorted[i] == n { assert Consistent(cmp, key, k, l); }
      if sorted[j] == n { assert Consistent(cmp, k, l, key); }
    }
  }

  /** A key compares equal to at most one key of the index, and that is at its rank. */
  lemma MatchAtRank<K(!new)>(cmp: (K, K) -> int, ok: K -> bool, keys: seq<K>, sorted: seq<nat>, key: K, k: nat)
    requires Orders(cmp, ok) && Indexed(cmp, ok, keys, sorted) && ok(key) && k < |keys| && cmp(key, keys[k]) == 0
    ensures var r := Rank(cmp, keys, sorted, key); r < |keys| && sorted[r] == k
  {
    assert Listed(sorted, k);
    var i :| 0 <= i < |sorted| && sorted[i] == k;
    RankSplits(cmp, ok, keys, sorted, key, i);
  }

  predicate IsPowerOfTwo(n: nat) {
    n == 1 || (n > 1 && n % 2 == 0 && IsPowerOfTwo(n / 2))
  }

  /** Twice the position at which a search should end: that of an equal key, or between the smaller
      and the greater keys. */
  ghost function Target<K>(cmp: (K, K) -> int, keys: seq<K>, sorted: seq<nat>, key: K): int
    requires forall i | 0 <= i < |sorted| :: sorted[i] < |keys|
  {
    var r := Rank(cmp, keys, sorted, key);
    if r < |sorted| && cmp(key, keys[sorted[r]]) == 0 then 2 * r else 2 * r - 1
  }

  /** Every probe moves towards the target. */
  lemma ProbeDirection<K(!new)>(cmp: (K, K) -> int, ok: K -> bool, keys: seq<K>, sorted: seq<nat>, key: K, pos: int)
    requires Orders(cmp, ok) && Indexed(cmp, ok, keys, sorted) && ok(key)
    ensures var off := Target(cmp, keys, sorted, key) - 2 * pos;
      if pos < 0 then off > 0
      else if pos >= |keys| then off < 0
      else
        var c := cmp(key, keys[sorted[pos]]);
        if c < 0 then off < 0 else if c > 0 then off > 0 else off == 0
    ensures -1 <= Target(cmp, keys, sorted, key) <= 2 * |keys| - 1
  {
    if 0 <= pos < |keys| { RankSplits(cmp, ok, keys, sorted, key, pos); }
  }

  /** Twice a position is off the target by less than four times the stride. */
  predicate Near(off: int, stride: nat) {
    if stride == 0 then -1 <= off <= 1 else -4 * stride < off < 4 * stride
  }

  lemma HalfStride(off: int, stride: nat)
    requires IsPowerOfTwo(stride) && Near(off, stride) && off != 0
    ensures Near(if off > 0 then off - 2 * stride else off + 2 * stride, stride / 2)
    ensures stride / 2 == 0 || IsPowerOfTwo(stride / 2)
  {}

  lemma StrideStart(n: nat, target: int)
    requires IsPowerOfTwo(n) && -1 <= target <= 2 * n - 1
    ensures Near(target - 2 * (n / 2), n / 2) && (n / 2 == 0 || IsPowerOfTwo(n / 2))
  {}

  /** Where a search ends without a match. */
  lemma SearchEnds<K(!new)>(cmp: (K, K) -> int, ok: K -> bool, keys: seq<K>, sorted: seq<nat>, key: K, pos: int)
    requires Orders(cmp, ok) && Indexed(cmp, ok, keys, sorted) && ok(key)
    requires var t := Target(cmp, keys, sorted, key); t == 2 * pos - 1 || t == 2 * pos + 1
    ensures var r := Rank(cmp, keys, sorted, key); pos == r || pos == r - 1
    ensures forall k | 0 <= k < |keys| :: cmp(key, keys[k]) != 0
  {
    forall k | 0 <= k < |keys|
      ensures cmp(key, keys[k]) != 0
    {
      if cmp(key, keys[k]) == 0 { MatchAtRank(cmp, ok, keys, sorted, key, k); }
    }
  }

  lemma Doubled(n: nat)
    requires IsPowerOfTwo(n)
    ensures n > 0 && IsPowerOfTwo(2 * n)
  {
    assert 2 * n / 2 == n;
  }

  /** The fix-up of an insertion: from the rank or one less to the rank. */
  lemma FixUp<K(!new)>(cmp: (K, K) -> int, ok: K -> bool, keys: seq<K>, sorted: seq<nat>, key: K, pos: int)
    requires Orders(cmp, ok) && Indexed(cmp, ok, keys, sorted) && ok(key)
    requires var r := Rank(cmp, keys, sorted, key); pos == r || pos == r - 1
    ensures var r := Rank(cmp, keys, sorted, key);
      pos == r - 1 <==> pos != |keys| && (pos < 0 || cmp(key, keys[sorted[pos]]) > 0)
  {
    if 0 <= pos < |keys| { RankSplits(cmp, ok, keys, sorted, key, pos); }
  }

  // ----- the search and the insertion, for keys in any order -----

  /** The positions listed are positions of keys. */
  ghost predicate Positioned<K>(keys: seq<K>, sorted: seq<nat>) {
    |sorted| == |keys| && forall i | 0 <= i < |sorted| :: sorted[i] < |keys|
  }

  /** Where a search goes on from pos: to the left, to the right, or not at all. */
  function Direction<K>(cmp: (K, K) -> int, keys: seq<K>, sorted: seq<nat>, key: K, pos: int): int
    requires forall i | 0 <= i < |sorted| :: sorted[i] < |keys|
  {
    if pos < 0 then 1 else if pos >= |sorted| then -1 else cmp(key, keys[sorted[pos]])
  }

  /** The search from pos on with this stride: what it finds, or -1, and where it ends. */
  function Seek<K>(cmp: (K, K) -> int, keys: seq<K>, sorted: seq<nat>, key: K, pos: int, stride: nat): (r: (int, int))
    requires forall i | 0 <= i < |sorted| :: sorted[i] < |keys|
    decreases stride
  {
    var dir := Direction(cmp, keys, sorted, key, pos);
    if dir == 0 then (sorted[pos], pos)
    else
      var next := if dir < 0 then pos - stride else pos + stride;
      if stride == 0 then (-1, next) else Seek(cmp, keys, sorted, key, next, stride / 2)
  }

  /** What array_get_index finds among the keys, and where it ends. */
  function Search<K>(cmp: (K, K) -> int, keys: seq<K>, sorted: seq<nat>, np2: nat, key: K): (int, int)
    requires forall i | 0 <= i < |sorted| :: sorted[i] < |keys|
  {
    Seek(cmp, keys, sorted, key, np2 / 2, np2 / 2)
  }

  /** How far beside the n positions a search can be. */
  predicate Beside(pos: int, stride: nat, n: nat) {
    if stride == 0 then -1 <= pos <= n else -2 * stride <= pos <= n - 1 + 2 * stride
  }

  /** Whatever the order, a search finds only an equal key, and ends beside the positions at most. */
  lemma {:induction false} SeekEnds<K>(cmp: (K, K) -> int, keys: seq<K>, sorted: seq<nat>, key: K,
                                       pos: int, stride: nat)
    requires Positioned(keys, sorted) && (stride == 0 || IsPowerOfTwo(stride)) && Beside(pos, stride, |sorted|)
    ensures var (ndx, end) := Seek(cmp, keys, sorted, key, pos, stride);
      && -1 <= end <= |sorted|
      && (ndx == -1 || (0 <= end < |sorted| && ndx == sorted[end] && cmp(key, keys[ndx]) == 0))
    decreases stride
  {
    var dir := Direction(cmp, keys, sorted, key, pos);
    if dir != 0 && stride != 0 {
      SeekEnds(cmp, keys, sorted, key, if dir < 0 then pos - stride else pos + stride, stride / 2);
    }
  }

  lemma SearchBounded<K>(cmp: (K, K) -> int, keys: seq<K>, sorted: seq<nat>, np2: nat, key: K)
    requires Positioned(keys, sorted) && IsPowerOfTwo(np2)
    ensures var (ndx, end) := Search(cmp, keys, sorted, np2, key);
      && -1 <= end <= |sorted|
      && (ndx == -1 || (0 <= end < |sorted| && ndx == sorted[end] && cmp(key, keys[ndx]) == 0))
  {
    SeekEnds(cmp, keys, sorted, key, np2 / 2, np2 / 2);
  }

  /** On an index in order the search finds a key if and only if it is there. */
  lemma {:induction false} SeekExact<K(!new)>(cmp: (K, K) -> int, ok: K -> bool, keys: seq<K>, sorted: seq<nat>,
                                              key: K, pos: int, stride: nat)
    requires Orders(cmp, ok) && Indexed(cmp, ok, keys, sorted) && ok(key) && (stride == 0 || IsPowerOfTwo(stride))
    requires Near(Target(cmp, keys, sorted, key) - 2 * pos, stride)
    ensures var (ndx, end) := Seek(cmp, keys, sorted, key, pos, stride);
      ndx == -1 ==> Ended(cmp, keys, sorted, key, end)
    decreases stride
  {
    ProbeDirection(cmp, ok, keys, sorted, key, pos);
    var off, dir := Target(cmp, keys, sorted, key) - 2 * pos, Direction(cmp, keys, sorted, key, pos);
    if dir != 0 {
      if stride == 0 {
        SearchEnds(cmp, ok, keys, sorted, key, pos);
      } else {
        HalfStride(off, stride);
        SeekExact(cmp, ok, keys, sorted, key, if dir < 0 then pos - stride else pos + stride, stride / 2);
      }
    }
  }

  /** No key is equal, and pos is the rank of the key or one less. */
  ghost predicate Ended<K(!new)>(cmp: (K, K) -> int, keys: seq<K>, sorted: seq<nat>, key: K, pos: int)
    requires forall i | 0 <= i < |sorted| :: sorted[i] < |keys|
  {
    var r := Rank(cmp, keys, sorted, key);
    (pos == r || pos == r - 1) && forall k | 0 <= k < |keys| :: cmp(key, keys[k]) != 0
  }

  lemma SearchExact<K(!new)>(cmp: (K, K) -> int, ok: K -> bool, keys: seq<K>, sorted: seq<nat>, np2: nat, key: K)
    requires Orders(cmp, ok) && Indexed(cmp, ok, keys, sorted) && ok(key) && IsPowerOfTwo(np2) && |keys| <= np2
    ensures var (ndx, end) := Search(cmp, keys, sorted, np2, key);
      if ndx == -1 then Ended(cmp, keys, sorted, key, end) else 0 <= ndx < |keys| && cmp(key, keys[ndx]) == 0
  {
    ProbeDirection(cmp, ok, keys, sorted, key, 0);
    StrideStart(np2, Target(cmp, keys, sorted, key));
    SearchBounded(cmp, keys, sorted, np2, key);
    SeekExact(cmp, ok, keys, sorted, key, np2 / 2, np2 / 2);
  }

  /** Where a new key goes, from where the search for it ended. */
  function InsertAt<K>(cmp: (K, K) -> int, keys: seq<K>, sorted: seq<nat>, key: K, pos: int): (at: nat)
    requires Positioned(keys, sorted) && -1 <= pos <= |sorted|
    ensures at <= |sorted|
  {
    if pos != |sorted| && (pos < 0 || cmp(key, keys[sorted[pos]]) > 0) then pos + 1 else pos
  }

  /** The keys in the order of insertion, their index, and the power of two the search starts from. */
  datatype Index<K> = Index(keys: seq<K>, sorted: seq<nat>, np2: nat)

  ghost predicate Sound<K>(x: Index<K>) {
    Positioned(x.keys, x.sorted) && IsPowerOfTwo(x.np2) && |x.keys| <= x.np2
  }

  const INT_MAX := 0x7FFF_FFFF

  /** What array_insert_unique makes of the index. */
  ghost function Insert<K>(cmp: (K, K) -> int, x: Index<K>, key: K): (r: Index<K>)
    requires Sound(x)
    ensures Sound(r)
  {
    SearchBounded(cmp, x.keys, x.sorted, x.np2, key);
    Doubled(x.np2);
    var (ndx, pos) := Search(cmp, x.keys, x.sorted, x.np2, key);
    if ndx != -1 || |x.keys| >= INT_MAX then x
    else
      var n, at := |x.keys|, InsertAt(cmp, x.keys, x.sorted, key, pos);
      Index(x.keys + [key], x.sorted[..at] + [n] + x.sorted[at..], if x.np2 == n then 2 * x.np2 else x.np2)
  }

  /** The index of an array into which the keys have been inserted one after the other. */
  ghost function Built<K>(cmp: (K, K) -> int, keys: seq<K>): (x: Index<K>)
    ensures Sound(x)
  {
    if keys == [] then Index([], [], 1) else Insert(cmp, Built(cmp, keys[..|keys| - 1]), keys[|keys| - 1])
  }

  lemma InsertIndexed<K(!new)>(cmp: (K, K) -> int, ok: K -> bool, x: Index<K>, key: K)
    requires Orders(cmp, ok) && Sound(x) && Indexed(cmp, ok, x.keys, x.sorted) && ok(key)
    ensures var r := Insert(cmp, x, key); Indexed(cmp, ok, r.keys, r.sorted)
  {
    SearchExact(cmp, ok, x.keys, x.sorted, x.np2, key);
    SearchBounded(cmp, x.keys, x.sorted, x.np2, key);
    var (ndx, pos) := Search(cmp, x.keys, x.sorted, x.np2, key);
    if ndx == -1 && |x.keys| < INT_MAX {
      FixUp(cmp, ok, x.keys, x.sorted, key, pos);
      var r := Insert(cmp, x, key);
      IndexedInsert(cmp, ok, x.keys, x.sorted, key, Rank(cmp, x.keys, x.sorted, key), r.keys, r.sorted);
    }
  }

  /** With keys that are in order, every array built is an index in order. */
  lemma {:induction false} BuiltIndexed<K(!new)>(cmp: (K, K) -> int, ok: K -> bool, keys: seq<K>)
    requires Orders(cmp, ok) && forall k | 0 <= k < |keys| :: ok(keys[k])
    ensures Indexed(cmp, ok, Built(cmp, keys).keys, Built(cmp, keys).sorted)
  {
    if keys != [] {
      BuiltIndexed(cmp, ok, keys[..|keys| - 1]);
      InsertIndexed(cmp, ok, Built(cmp, keys[..|keys| - 1]), keys[|keys| - 1]);
    }
  }

  // ----- small arrays -----

  lemma BuiltOne<K>(cmp: (K, K) -> int, a: K)
    ensures Built(cmp, [a]) == Index([a], [0], 1)
  {
    assert [a][..0] == [];
    assert Seek(cmp, [], [], a, 0, 0) == (-1, 0);
    assert Insert(cmp, Index([], [], 1), a) == Index([a], [0], 1);
  }

  lemma BuiltTwo<K>(cmp: (K, K) -> int, a: K, b: K)
    requires cmp(b, a) != 0
    ensures Built(cmp, [a, b]) == Index([a, b], if cmp(b, a) > 0 then [0, 1] else [1, 0], 2)
  {
    BuiltOne(cmp, a);
    assert [a, b][..1] == [a];
    assert Seek(cmp, [a], [0], b, 0, 0) == (-1, 0);
  }

  /** Two keys after the first, each greater than the one before. */
  lemma BuiltThree<K>(cmp: (K, K) -> int, a: K, b: K, c: K)
    requires cmp(b, a) > 0 && cmp(c, b) > 0
    ensures Built(cmp, [a, b, c]) == Index([a, b, c], [0, 1, 2], 4)
  {
    BuiltTwo(cmp, a, b);
    assert [a, b, c][..2] == [a, b];
    assert Seek(cmp, [a, b], [0, 1], c, 2, 0) == (-1, 2);
    assert Seek(cmp, [a, b], [0, 1], c, 1, 1) == (-1, 2);
  }

  /** A key greater than the third is looked for behind it, however it compares to the others. */
  lemma BehindThree<K>(cmp: (K, K) -> int, a: K, b: K, c: K, key: K)
    requires cmp(key, c) > 0
    ensures Search(cmp, [a, b, c], [0, 1, 2], 4, key) == (-1, 3)
  {
    assert Seek(cmp, [a, b, c], [0, 1, 2], key, 3, 0) == (-1, 3);
    assert Seek(cmp, [a, b, c], [0, 1, 2], key, 4, 1) == (-1, 3);
  }

  lemma BuiltFour<K>(cmp: (K, K) -> int, a: K, b: K, c: K, d: K)
    requires cmp(b, a) > 0 && cmp(c, b) > 0 && cmp(d, c) > 0
    ensures Built(cmp, [a, b, c, d]) == Index([a, b, c, d], [0, 1, 2, 3], 4)
  {
    BuiltThree(cmp, a, b, c);
    BehindThree(cmp, a, b, c, d);
    assert [a, b, c, d][..3] == [a, b, c];
  }
}
