/** Aliases (src/mod_alias.c): the check at start-up that no alias hides a longer one, and the first
    match that decides a request. */
module AliasMatch {
  import opened CaselessOrder
  import OrderedIndex
  import opened SortedPositions

  /** An alias key without its terminating zero. */
  type Alias = seq<int>

  /** The keys as the array of aliases orders them. */
  function AliasCmp(a: Alias, b: Alias): int {
    Compare(a + [0], b + [0])
  }

  predicate Prefix(a: Alias, b: Alias) {
    |a| <= |b| && b[..|a|] == a
  }

  /** One letter in its two cases. */
  predicate Twins(x: int, y: int) {
    x != y && Lower(x) == Lower(y)
  }

  /** No byte is negative as a char, and no letter occurs in both cases. */
  ghost predicate Tidy(bytes: set<int>) {
    (forall x | x in bytes :: x > 0) && forall x, y | x in bytes && y in bytes :: !Twins(x, y)
  }

  /** Aliases over these bytes in insertion order, with an index in order. */
  ghost predicate AliasesOver(bytes: set<int>, keys: seq<Alias>, sorted: seq<nat>) {
    Indexed(AliasCmp, a => Over(a, bytes), keys, sorted)
  }

  /** Where two keys differ first, if they do. */
  lemma {:induction false} FirstDifference(bytes: set<int>, a: Alias, b: Alias, i: nat) returns (d: nat)
    requires Tidy(bytes) && Over(a, bytes) && Over(b, bytes) && i <= |a| && i <= |b| && a[..i] == b[..i]
    ensures i <= d <= |a| && d <= |b| && a[..d] == b[..d]
    ensures d == |a| || d == |b| || a[d] != b[d]
    ensures CompareFrom(a + [0], b + [0], i) ==
      if d == |a| && d == |b| then 0 else ByteCmp((a + [0])[d], (b + [0])[d])
    ensures d < |a| || d < |b| ==> ByteCmp((a + [0])[d], (b + [0])[d]) != 0
    decreases |a| - i
  {
    if i < |a| && i < |b| && a[i] == b[i] {
      assert a[..i + 1] == a[..i] + [a[i]] && b[..i + 1] == b[..i] + [b[i]];
      d := FirstDifference(bytes, a, b, i + 1);
    } else {
      d := i;
      if i == |a| && i == |b| {
        assert CompareFrom(a + [0], b + [0], i) == CompareFrom(a + [0], b + [0], i + 1);
      } else if i < |a| && i < |b| {
        assert !Twins(a[i], b[i]);
      }
    }
  }

  /** Extensions of a key stand next to it: a greater key that does not extend it is greater than
      all keys that do. */
  lemma ExtensionsTogether(bytes: set<int>, p: Alias, x: Alias, e: Alias)
    requires Tidy(bytes) && Over(p, bytes) && Over(x, bytes) && Over(e, bytes)
    requires AliasCmp(p, x) < 0 && !Prefix(p, x) && Prefix(p, e)
    ensures AliasCmp(x, e) > 0
  {
    var d := FirstDifference(bytes, p, x, 0);
    var d' := FirstDifference(bytes, x, e, 0);
    assert e[..d] == p[..d];
    if d < |p| { assert e[d] == e[..|p|][d]; }
    assert forall i | 0 <= i < d :: x[..d][i] == e[..d][i];
    assert forall i | 0 <= i < d' :: x[..d'][i] == e[..d'][i];
  }

  lemma ExtensionGreater(bytes: set<int>, p: Alias, e: Alias)
    requires Tidy(bytes) && Over(p, bytes) && Over(e, bytes) && Prefix(p, e)
    ensures AliasCmp(e, p) >= 0
  {
    var d := FirstDifference(bytes, e, p, 0);
  }

  /** Alias i hides alias j: every request that j matches is taken by i. */
  ghost predicate Hides(keys: seq<Alias>, i: nat, j: nat)
    requires i < |keys| && j < |keys|
  {
    i < j && Prefix(keys[i], keys[j])
  }

  ghost predicate Hidden(keys: seq<Alias>) {
    exists i, j | 0 <= i < |keys| && 0 <= j < |keys| :: Hides(keys, i, j)
  }

  /** From position j to position k of the sorted order all keys extend the one at j. */
  ghost predicate Extending(keys: seq<Alias>, sorted: seq<nat>, j: nat, k: nat)
    requires j <= k < |sorted| && forall i | 0 <= i < |sorted| :: sorted[i] < |keys|
  {
    forall b | j < b <= k :: Prefix(keys[sorted[j]], keys[sorted[b]])
  }

  /** What the check of set_defaults looks at: neighbours in sorted order, up to the first that does
      not extend the key. */
  ghost predicate Passes(keys: seq<Alias>, sorted: seq<nat>)
    requires forall i | 0 <= i < |sorted| :: sorted[i] < |keys|
  {
    forall j, k | 0 <= j < k < |sorted| && Extending(keys, sorted, j, k) :: sorted[j] >= sorted[k]
  }

  method CheckAliases(keys: seq<Alias>, sorted: seq<nat>) returns (accepted: bool)
    requires Positioned(keys, sorted)
    ensures accepted <==> Passes(keys, sorted)
  {
    if |keys| < 2 { return true; }
    for j := 0 to |keys|
      invariant forall a, k | 0 <= a < j && a < k < |sorted| && Extending(keys, sorted, a, k) :: sorted[a] >= sorted[k]
    {
      var clear := CheckOne(keys, sorted, j);
      if !clear { return false; }
    }
    return true;
  }

  /** Is the alias at position j after those that follow it and extend it? */
  method CheckOne(keys: seq<Alias>, sorted: seq<nat>, j: nat) returns (clear: bool)
    requires |sorted| == |keys| && (forall i | 0 <= i < |sorted| :: sorted[i] < |keys|) && j < |keys|
    ensures clear <==> forall k | j < k < |sorted| && Extending(keys, sorted, j, k) :: sorted[j] >= sorted[k]
  {
    var prefix := keys[sorted[j]];
    for k := j + 1 to |keys|
      invariant Extending(keys, sorted, j, k - 1)
      invariant forall b | j < b < k :: sorted[j] >= sorted[b]
    {
      var key := keys[sorted[k]];
      if |key| < |prefix| || key[..|prefix|] != prefix {
        assert forall b | k <= b < |sorted| :: !Extending(keys, sorted, j, b);
        return true;
      }
      if sorted[j] < sorted[k] {
        assert Extending(keys, sorted, j, k);
        return false;
      }
    }
    return true;
  }

  /** Keys after one that does not extend the key at j do not extend it either. */
  lemma LaterNoExtension(bytes: set<int>, keys: seq<Alias>, sorted: seq<nat>, j: nat, k: nat, b: nat)
    requires AliasesOver(bytes, keys, sorted) && Tidy(bytes) && j < k <= b < |keys|
    requires !Prefix(keys[sorted[j]], keys[sorted[k]])
    ensures !Prefix(keys[sorted[j]], keys[sorted[b]])
  {
    assert Less(AliasCmp, keys, sorted, j, k);
    var p, x, e := keys[sorted[j]], keys[sorted[k]], keys[sorted[b]];
    if b > k && Prefix(p, e) {
      assert Less(AliasCmp, keys, sorted, k, b);
      ExtensionsTogether(bytes, p, x, e);
    }
  }

  lemma HiddenFails(bytes: set<int>, keys: seq<Alias>, sorted: seq<nat>, a: nat, b: nat)
    requires AliasesOver(bytes, keys, sorted) && Tidy(bytes) && a < |sorted| && b < |sorted|
    requires Hides(keys, sorted[a], sorted[b])
    ensures a < b && Extending(keys, sorted, a, b)
  {
    if b < a {
      assert Less(AliasCmp, keys, sorted, b, a);
      ExtensionGreater(bytes, keys[sorted[a]], keys[sorted[b]]);
    }
    forall k | a < k <= b
      ensures Prefix(keys[sorted[a]], keys[sorted[k]])
    {
      if !Prefix(keys[sorted[a]], keys[sorted[k]]) { LaterNoExtension(bytes, keys, sorted, a, k, b); }
    }
  }

  lemma PassesIffNoneHidden(bytes: set<int>, keys: seq<Alias>, sorted: seq<nat>)
    requires AliasesOver(bytes, keys, sorted) && Tidy(bytes)
    ensures Passes(keys, sorted) <==> !Hidden(keys)
  {
    if Hidden(keys) {
      var i, j :| 0 <= i < |keys| && 0 <= j < |keys| && Hides(keys, i, j);
      assert Listed(sorted, i) && Listed(sorted, j);
      var a :| 0 <= a < |sorted| && sorted[a] == i;
      var b :| 0 <= b < |sorted| && sorted[b] == j;
      HiddenFails(bytes, keys, sorted, a, b);
    }
    if !Passes(keys, sorted) {
      var j, k :| 0 <= j < k < |sorted| && Extending(keys, sorted, j, k) && sorted[j] < sorted[k];
      assert Hides(keys, sorted[j], sorted[k]);
    }
  }

  ghost predicate AllOver(bytes: set<int>, keys: seq<Alias>) {
    forall k | 0 <= k < |keys| :: Over(keys[k], bytes)
  }

  /** Of these aliases, inserted one after the other, the check finds exactly the hidden ones. */
  ghost predicate ChecksRight(inserted: seq<Alias>) {
    var x := Built(AliasCmp, inserted);
    Passes(x.keys, x.sorted) <==> !Hidden(x.keys)
  }

  /** So it does whatever aliases made of these bytes are inserted. */
  ghost predicate CheckRight(bytes: set<int>) {
    forall inserted | AllOver(bytes, inserted) :: ChecksRight(inserted)
  }

  /** A key that ends before a negative byte is the greater one: the check never looks at the pair. */
  lemma NegativeUnseen(bytes: set<int>, c: int, x: int)
    requires c in bytes && x in bytes && x < 0
    ensures !ChecksRight([[c], [c, x]]) && !CheckRight(bytes)
  {
    var a, b := [c], [c, x];
    assert b + [0] == [c, x, 0] && a + [0] == [c, 0];
    assert CompareFrom([c, x, 0], [c, 0], 0) == CompareFrom([c, x, 0], [c, 0], 1);
    BuiltTwo(AliasCmp, a, b);
    assert Hides([a, b], 0, 1);
    assert Passes([a, b], [1, 0]);
    assert AllOver(bytes, [a, b]);
  }

  /** With a letter in both cases a key that does not extend another can stand before one that does. */
  lemma TwinsUnseen(bytes: set<int>, x: int, y: int)
    requires x in bytes && y in bytes && Twins(x, y)
    ensures !ChecksRight([[y], [x, y], [y, y, y]]) && !CheckRight(bytes)
  {
    var a, b, c := [y], [x, y], [y, y, y];
    TwinsOrder(x, y);
    BuiltThree(AliasCmp, a, b, c);
    assert c[..1] == a && b[..1] == [x] && c[..2] == [y, y];
    assert Hides([a, b, c], 0, 2);
    var sorted: seq<nat> := [0, 1, 2];
    assert !Prefix(a, b) && !Prefix(b, c);
    NoneExtended([a, b, c], sorted);
    assert AllOver(bytes, [a, b, c]);
  }

  lemma TwinsOrder(x: int, y: int)
    requires Twins(x, y)
    ensures AliasCmp([x, y], [y]) > 0 && AliasCmp([y, y, y], [x, y]) > 0
  {
    assert [y] + [0] == [y, 0] && [x, y] + [0] == [x, y, 0] && [y, y, y] + [0] == [y, y, y, 0];
    assert CompareFrom([x, y, 0], [y, 0], 0) == CompareFrom([x, y, 0], [y, 0], 1) == y;
    assert CompareFrom([y, y, y, 0], [x, y, 0], 0) == CompareFrom([y, y, y, 0], [x, y, 0], 1)
        == CompareFrom([y, y, y, 0], [x, y, 0], 2) == y;
  }

  /** With bytes that compare in a circle the insertion looks for the place of a key behind another one
      that it should stand before. */
  lemma CircleUnseen(bytes: set<int>, u: int, m: int, l: int)
    requires u in bytes && m in bytes && l in bytes && !Apart(u, m, l) && !Twins(u, l)
    ensures !ChecksRight([[u], [m], [l], [u, u]]) && !CheckRight(bytes)
  {
    var a, b, c, d := [u], [m], [l], [u, u];
    CircleOrder(u, m, l);
    BuiltFour(AliasCmp, a, b, c, d);
    assert d[..1] == a;
    assert Hides([a, b, c, d], 0, 3);
    var sorted: seq<nat> := [0, 1, 2, 3];
    assert !Prefix(a, b) && !Prefix(b, c) && !Prefix(c, d);
    NoneExtended([a, b, c, d], sorted);
    assert AllOver(bytes, [a, b, c, d]);
  }

  lemma CircleOrder(u: int, m: int, l: int)
    requires !Apart(u, m, l) && !Twins(u, l)
    ensures AliasCmp([m], [u]) > 0 && AliasCmp([l], [m]) > 0 && AliasCmp([u, u], [l]) > 0
  {
    assert [u] + [0] == [u, 0] && [m] + [0] == [m, 0] && [l] + [0] == [l, 0] && [u, u] + [0] == [u, u, 0];
    assert CompareFrom([m, 0], [u, 0], 0) == ByteCmp(m, u);
    assert CompareFrom([l, 0], [m, 0], 0) == ByteCmp(l, m);
    assert CompareFrom([u, u, 0], [l, 0], 0) == ByteCmp(u, l);
  }

  /** Where no key is extended by its neighbour the check passes. */
  lemma NoneExtended(keys: seq<Alias>, sorted: seq<nat>)
    requires Positioned(keys, sorted) && forall j | 0 < j < |sorted| :: !Prefix(keys[sorted[j - 1]], keys[sorted[j]])
    ensures Passes(keys, sorted)
  {
    forall j, k | 0 <= j < k < |sorted|
      ensures !Extending(keys, sorted, j, k)
    {
      assert !Prefix(keys[sorted[j + 1 - 1]], keys[sorted[j + 1]]);
    }
  }

  lemma AliasOrders(bytes: set<int>)
    requires Orderable(bytes)
    ensures Orders(AliasCmp, a => Over(a, bytes))
  {
    var ok := (a: Alias) => Over(a, bytes);
    forall a: Alias, b: Alias, c: Alias | ok(a) && ok(b) && ok(c)
      ensures Consistent(AliasCmp, a, b, c)
    {
      Antisymmetric(a + [0], b + [0], 0);
      assert Orderable(bytes + {0});
      if AliasCmp(a, b) <= 0 && AliasCmp(b, c) <= 0 { KeysTransitive(bytes + {0}, a + [0], b + [0], c + [0], 0); }
    }
  }

  /** The check can be relied upon exactly when the bytes the keys are made of are tidy and can be
      ordered. */
  lemma CheckRightIff(bytes: set<int>)
    requires 0 !in bytes
    ensures CheckRight(bytes) <==> Tidy(bytes) && Orderable(bytes)
  {
    if Tidy(bytes) && Orderable(bytes) {
      AliasOrders(bytes);
      forall inserted | AllOver(bytes, inserted)
        ensures ChecksRight(inserted)
      {
        BuiltIndexed(AliasCmp, a => Over(a, bytes), inserted);
        var x := Built(AliasCmp, inserted);
        PassesIffNoneHidden(bytes, x.keys, x.sorted);
      }
    } else if x :| x in bytes && x <= 0 {
      NegativeUnseen(bytes, x, x);
    } else if x, y :| x in bytes && y in bytes && Twins(x, y) {
      TwinsUnseen(bytes, x, y);
    } else {
      var u, m, l :| u in bytes && m in bytes && l in bytes && !Apart(u, m, l);
      CircleUnseen(bytes, u, m, l);
    }
  }

  /** Alias k matches the request path. */
  predicate Matching(keys: seq<Alias>, uri: seq<int>, k: nat)
    requires k < |keys|
  {
    Prefix(keys[k], uri)
  }

  /** The alias that is used: the first in insertion order that matches. */
  ghost predicate First(keys: seq<Alias>, uri: seq<int>, k: nat) {
    k < |keys| && Matching(keys, uri, k) && forall m | 0 <= m < k :: !Matching(keys, uri, m)
  }

  /** Alias k is the longest that matches. */
  ghost predicate Longest(keys: seq<Alias>, uri: seq<int>, k: nat) {
    k < |keys| && Matching(keys, uri, k) && forall m | 0 <= m < |keys| && Matching(keys, uri, m) ::
      |keys[m]| <= |keys[k]|
  }

  ghost predicate FirstIsLongest(keys: seq<Alias>) {
    forall uri, k: nat | First(keys, uri, k) :: Longest(keys, uri, k)
  }

  lemma PrefixesNest(a: Alias, b: Alias, uri: seq<int>)
    requires Prefix(a, uri) && Prefix(b, uri) && |a| <= |b|
    ensures Prefix(a, b)
  {
    assert b == uri[..|b|] && a == uri[..|a|];
    assert uri[..|b|][..|a|] == uri[..|a|];
  }

  lemma {:induction false} FirstMatch(keys: seq<Alias>, uri: seq<int>, i: nat) returns (k: nat)
    requires i < |keys| && Matching(keys, uri, i)
    ensures First(keys, uri, k) && k <= i
  {
    if m :| 0 <= m < i && Matching(keys, uri, m) {
      k := FirstMatch(keys, uri, m);
    } else {
      k := i;
    }
  }

  ghost predicate Distinct(keys: seq<Alias>) {
    forall i, j | 0 <= i < j < |keys| :: keys[i] != keys[j]
  }

  /** A hidden alias never gets the request that is just its own key. */
  lemma HiddenNotLongest(keys: seq<Alias>, i: nat, j: nat)
    requires Distinct(keys) && i < |keys| && j < |keys| && Hides(keys, i, j)
    ensures !FirstIsLongest(keys)
  {
    var uri := keys[j];
    var k := FirstMatch(keys, uri, i);
    assert Matching(keys, uri, j) && keys[k] != uri;
    assert uri[..|uri|] == uri && |keys[k]| != |uri|;
  }

  /** Of distinct aliases none is hidden exactly if every request gets the longest alias that matches. */
  lemma NoneHiddenIffLongest(keys: seq<Alias>)
    requires Distinct(keys)
    ensures !Hidden(keys) <==> FirstIsLongest(keys)
  {
    if !Hidden(keys) {
      forall uri, k: nat | First(keys, uri, k)
        ensures Longest(keys, uri, k)
      {
        forall m: nat | m < |keys| && Matching(keys, uri, m)
          ensures |keys[m]| <= |keys[k]|
        {
          assert !Hides(keys, k, m);
          if |keys[k]| <= |keys[m]| { PrefixesNest(keys[k], keys[m], uri); }
        }
      }
    }
    if FirstIsLongest(keys) {
      forall i, j | 0 <= i < |keys| && 0 <= j < |keys|
        ensures !Hides(keys, i, j)
      {
        if Hides(keys, i, j) { HiddenNotLongest(keys, i, j); }
      }
    }
  }

  lemma IndexedDistinct(bytes: set<int>, keys: seq<Alias>, sorted: seq<nat>)
    requires AliasesOver(bytes, keys, sorted)
    ensures Distinct(keys)
  {
    forall i, j | 0 <= i < j < |keys|
      ensures keys[i] != keys[j]
    {
      Antisymmetric(keys[i] + [0], keys[i] + [0], 0);
      assert Listed(sorted, i) && Listed(sorted, j);
      var a :| 0 <= a < |sorted| && sorted[a] == i;
      var b :| 0 <= b < |sorted| && sorted[b] == j;
      assert if a < b then Less(AliasCmp, keys, sorted, a, b) else Less(AliasCmp, keys, sorted, b, a);
    }
  }

  /** Aliases of tidy, orderable bytes are accepted exactly if every request gets the longest that
      matches. */
  lemma AcceptedIffLongest(bytes: set<int>, inserted: seq<Alias>)
    requires Tidy(bytes) && Orderable(bytes) && AllOver(bytes, inserted)
    ensures var x := Built(AliasCmp, inserted);
      (Passes(x.keys, x.sorted) <==> FirstIsLongest(x.keys)) && (Passes(x.keys, x.sorted) <==> !Hidden(x.keys))
  {
    var x := Built(AliasCmp, inserted);
    AliasOrders(bytes);
    BuiltIndexed(AliasCmp, a => Over(a, bytes), inserted);
    PassesIffNoneHidden(bytes, x.keys, x.sorted);
    IndexedDistinct(bytes, x.keys, x.sorted);
    NoneHiddenIffLongest(x.keys);
  }

  /** The keys as they are stored, with their zero. */
  function Stored(keys: seq<Alias>): (r: seq<Key>)
    ensures |r| == |keys| && forall k | 0 <= k < |r| :: r[k] == keys[k] + [0]
  {
    if keys == [] then [] else Stored(keys[..|keys| - 1]) + [keys[|keys| - 1] + [0]]
  }

  lemma {:induction false} SameSeek(keys: seq<Alias>, sorted: seq<nat>, key: Alias, pos: int, stride: nat)
    requires Positioned(keys, sorted)
    ensures Seek(Compare, Stored(keys), sorted, key + [0], pos, stride) ==
            Seek(AliasCmp, keys, sorted, key, pos, stride)
    decreases stride
  {
    var dir := Direction(AliasCmp, keys, sorted, key, pos);
    if dir != 0 && stride != 0 {
      SameSeek(keys, sorted, key, if dir < 0 then pos - stride else pos + stride, stride / 2);
    }
  }

  lemma {:induction false} SameBuilt(keys: seq<Alias>)
    ensures var x, y := Built(AliasCmp, keys), Built(Compare, Stored(keys));
      y.keys == Stored(x.keys) && y.sorted == x.sorted && y.np2 == x.np2
  {
    if keys != [] {
      var init, last := keys[..|keys| - 1], keys[|keys| - 1];
      SameBuilt(init);
      var x := Built(AliasCmp, init);
      assert Stored(keys)[..|keys| - 1] == Stored(init);
      SameSeek(x.keys, x.sorted, last, x.np2 / 2, x.np2 / 2);
      SearchBounded(AliasCmp, x.keys, x.sorted, x.np2, last);
    }
  }

  /** The keys of an array without their zeros. */
  method KeysIn(a: OrderedIndex.Array<()>, ghost keys: seq<Alias>) returns (r: seq<Alias>)
    requires a.Valid() && a.Keys() == Stored(keys)
    ensures r == keys
  {
    r := [];
    for k := 0 to a.used
      invariant r == keys[..k]
    {
      var key := a.data[k].value.key;
      assert key == a.Keys()[k] == keys[k] + [0];
      r := r + [key[..|key| - 1]];
    }
  }

  /** An array of the aliases. */
  method NewAliases(inserted: seq<Alias>, ghost bytes: set<int>) returns (a: OrderedIndex.Array<()>)
    requires AllOver(bytes, inserted)
    ensures a.Valid() && a.Contents() == Built(Compare, Stored(inserted))
  {
    var elements := seq(|inserted|,
                        k requires 0 <= k < |inserted| => OrderedIndex.Element(inserted[k] + [0], 0, (), false));
    assert OrderedIndex.ElementKeys(elements) == Stored(inserted);
    a := OrderedIndex.BuildArray(elements, (v, w) => v, v => v, 0, bytes + OrderedIndex.DIGITS);
  }

  /** The start-up: the aliases are inserted into an array and checked. */
  method SetDefaults(inserted: seq<Alias>, ghost bytes: set<int>) returns (accepted: bool)
    requires AllOver(bytes, inserted)
    ensures var x := Built(AliasCmp, inserted); accepted <==> Passes(x.keys, x.sorted)
    ensures Tidy(bytes) && Orderable(bytes) ==>
      var x := Built(AliasCmp, inserted); (accepted <==> !Hidden(x.keys)) && (accepted <==> FirstIsLongest(x.keys))
  {
    var a := NewAliases(inserted, bytes);
    SameBuilt(inserted);
    ghost var x := Built(AliasCmp, inserted);
    var keys := KeysIn(a, x.keys);
    accepted := CheckAliases(keys, a.sorted[..a.used]);
    if Tidy(bytes) && Orderable(bytes) { AcceptedIffLongest(bytes, inserted); }
  }

  /** The rewritten paths: the base directory and the path of the request. */
  datatype Physical = Physical(basedir: seq<int>, path: seq<int>)

  /** strncasecmp finds no difference. */
  predicate SameLetters(a: seq<int>, b: seq<int>) {
    |a| == |b| && forall i | 0 <= i < |a| :: Lower(a[i]) == Lower(b[i])
  }

  /** The bytes are the same but for the case of letters. */
  lemma SameLettersIff(a: seq<int>, b: seq<int>)
    ensures SameLetters(a, b) <==>
      |a| == |b| && forall i | 0 <= i < |a| :: a[i] == b[i] || CaseTwins(a[i], b[i]) || CaseTwins(b[i], a[i])
  {}

  /** The request path begins with the key, letter case aside if file names are forced to lower case. */
  predicate Fits(key: Alias, uri: seq<int>, lowercase: bool) {
    |key| <= |uri| && if lowercase then SameLetters(uri[..|key|], key) else uri[..|key|] == key
  }

  /** mod_alias_physical_handler, for paths without their terminating zero: the base directory ends
      in a slash and the path begins with it; what follows is matched from that slash on. k is the
      alias used, or the number of aliases if none fits. */
  method PhysicalHandler(keys: seq<Alias>, values: seq<seq<int>>, lowercase: bool, at: Physical)
    returns (r: Physical, k: nat)
    requires |values| == |keys| && 1 <= |at.basedir| <= |at.path| + 1
    ensures var uri := at.path[|at.basedir| - 1..];
      && k <= |keys| && (forall m | 0 <= m < k :: !Fits(keys[m], uri, lowercase))
      && (if k == |keys| then r == at
          else Fits(keys[k], uri, lowercase) && r == Physical(values[k], values[k] + uri[|keys[k]|..]))
    ensures !lowercase && k < |keys| ==> First(keys, at.path[|at.basedir| - 1..], k)
  {
    var uri := at.path[|at.basedir| - 1..];
    k := 0;
    while k < |keys|
      invariant k <= |keys| && forall m | 0 <= m < k :: !Fits(keys[m], uri, lowercase)
    {
      var alias_len := |keys[k]|;
      if alias_len <= |uri| &&
        (if lowercase then SameLetters(uri[..alias_len], keys[k]) else uri[..alias_len] == keys[k]) {
        assert forall m | 0 <= m < k :: Fits(keys[m], uri, false) <==> Matching(keys, uri, m);
        return Physical(values[k], values[k] + uri[alias_len..]), k;
      }
      k := k + 1;
    }
    r := at;
  }
}
