/** The key order of arrays (src/buffer.c, buffer_caseless_compare). A key is the bytes of its
    buffer, terminating zero included, each as a signed char. */
module CaselessOrder {

  type Key = seq<int>

  const WORD := 8   // sizeof(size_t)

  predicate IsUpper(x: int) { 'A' as int <= x <= 'Z' as int }
  predicate IsLower(x: int) { 'a' as int <= x <= 'z' as int }

  /** The bit 32 is clear in every upper case letter. */
  function Lower(x: int): int {
    if IsUpper(x) then x + 32 else x
  }

  /** How two bytes compare: letters of different case as lower case letters, all others as they are. */
  function ByteCmp(x: int, y: int): int {
    if IsUpper(x) && IsLower(y) then Lower(x) - y
    else if IsLower(x) && IsUpper(y) then x - Lower(y)
    else x - y
  }

  /** The first difference decides, and if there is none, the lengths do. */
  function CompareFrom(a: Key, b: Key, i: nat): int
    requires i <= |a| && i <= |b|
    decreases |a| - i
  {
    if i == |a| || i == |b| then |a| - |b|
    else if ByteCmp(a[i], b[i]) != 0 then ByteCmp(a[i], b[i])
    else CompareFrom(a, b, i + 1)
  }

  function Compare(a: Key, b: Key): int {
    CompareFrom(a, b, 0)
  }

  lemma {:induction false} SkipEqual(a: Key, b: Key, i: nat, j: nat)
    requires i <= j <= |a| && j <= |b| && a[i..j] == b[i..j]
    ensures CompareFrom(a, b, i) == CompareFrom(a, b, j)
    decreases j - i
  {
    if i < j {
      assert a[i] == a[i..j][0] && b[i] == b[i..j][0];
      assert a[i + 1..j] == a[i..j][1..] && b[i + 1..j] == b[i..j][1..];
      SkipEqual(a, b, i + 1, j);
    }
  }

  /** buffer_caseless_compare: equal words are skipped first where both keys are aligned, then the
      bytes are compared one by one. */
  method CaselessCompare(a: Key, b: Key, aligned: bool) returns (cmp: int)
    ensures cmp == Compare(a, b)
  {
    var ndx, shorter := 0, if |a| < |b| then |a| else |b|;
    if aligned {
      var max_ndx := shorter - shorter % WORD;
      while ndx < max_ndx
        invariant ndx % WORD == 0 && ndx <= max_ndx && CompareFrom(a, b, ndx) == Compare(a, b)
      {
        if a[ndx..ndx + WORD] != b[ndx..ndx + WORD] { break; }
        SkipEqual(a, b, ndx, ndx + WORD);
        ndx := ndx + WORD;
      }
    }
    while ndx < shorter
      invariant ndx <= shorter && CompareFrom(a, b, ndx) == Compare(a, b)
    {
      var a1, b1 := a[ndx], b[ndx];
      if a1 != b1 {
        if IsUpper(a1) && IsLower(b1) {
          a1 := Lower(a1);
        } else if IsLower(a1) && IsUpper(b1) {
          b1 := Lower(b1);
        }
        if a1 - b1 != 0 { return a1 - b1; }
      }
      ndx := ndx + 1;
    }
    return |a| - |b|;
  }

  ghost predicate Over(k: Key, bytes: set<int>) {
    forall i | 0 <= i < |k| :: k[i] in bytes
  }

  /** If m lies between the upper and the lower case letters, l is a greater letter than u. */
  predicate Apart(u: int, m: int, l: int) {
    IsUpper(u) && IsLower(l) && 'Z' as int < m < 'a' as int ==> l > Lower(u)
  }

  /** No byte of the set lies between an upper case and a lower case letter of it where the lower
      case letter is not the greater letter of the two. */
  ghost predicate Orderable(bytes: set<int>) {
    forall u, m, l {:trigger Apart(u, m, l)} | u in bytes && m in bytes && l in bytes :: Apart(u, m, l)
  }

  ghost predicate TransitiveOn(bytes: set<int>) {
    forall a: Key, b: Key, c: Key {:trigger Compare(a, b), Compare(b, c)} | Over(a, bytes) && Over(b, bytes) &&
      Over(c, bytes) && Compare(a, b) <= 0 && Compare(b, c) <= 0 :: Compare(a, c) <= 0
  }

  /** The comparison is always antisymmetric ... */
  lemma {:induction false} Antisymmetric(a: Key, b: Key, i: nat)
    requires i <= |a| && i <= |b|
    ensures CompareFrom(a, b, i) == -CompareFrom(b, a, i)
    decreases |a| - i
  {
    if i < |a| && i < |b| && ByteCmp(a[i], b[i]) == 0 { Antisymmetric(a, b, i + 1); }
  }

  lemma BytesTransitive(bytes: set<int>, x: int, y: int, z: int)
    requires Orderable(bytes) && x in bytes && y in bytes && z in bytes && ByteCmp(x, y) <= 0 && ByteCmp(y, z) <= 0
    ensures ByteCmp(x, z) <= 0
    ensures ByteCmp(x, z) == 0 ==> ByteCmp(x, y) == 0 && ByteCmp(y, z) == 0
  {
    assert Apart(x, y, z) && Apart(y, z, x) && Apart(z, x, y) && Apart(x, z, y) && Apart(y, x, z) && Apart(z, y, x);
  }

  lemma {:induction false} KeysTransitive(bytes: set<int>, a: Key, b: Key, c: Key, i: nat)
    requires Orderable(bytes) && Over(a, bytes) && Over(b, bytes) && Over(c, bytes) && i <= |a| && i <= |b| && i <= |c|
    requires CompareFrom(a, b, i) <= 0 && CompareFrom(b, c, i) <= 0
    ensures CompareFrom(a, c, i) <= 0
    ensures CompareFrom(a, c, i) == 0 ==> CompareFrom(a, b, i) == 0 && CompareFrom(b, c, i) == 0
    decreases |a| - i
  {
    if i < |a| && i < |b| && i < |c| {
      BytesTransitive(bytes, a[i], b[i], c[i]);
      if ByteCmp(a[i], b[i]) == 0 && ByteCmp(b[i], c[i]) == 0 {
        BytesTransitive(bytes, c[i], b[i], a[i]);
        KeysTransitive(bytes, a, b, c, i + 1);
      }
    }
  }

  lemma SingleByte(x: int, y: int)
    ensures Compare([x], [y]) == ByteCmp(x, y)
  {
    assert ByteCmp(x, y) == 0 ==> CompareFrom([x], [y], 0) == CompareFrom([x], [y], 1);
  }

  /** Two keys compare equal exactly if they are the same but for the case of letters. */
  lemma {:induction false} EqualIffSame(a: Key, b: Key, i: nat)
    requires i <= |a| && i <= |b|
    ensures CompareFrom(a, b, i) == 0 <==>
      |a| == |b| && forall k | i <= k < |a| :: a[k] == b[k] || CaseTwins(a[k], b[k]) || CaseTwins(b[k], a[k])
    decreases |a| - i
  {
    if i < |a| && i < |b| && ByteCmp(a[i], b[i]) == 0 { EqualIffSame(a, b, i + 1); }
  }

  /** A capital letter and the same small one. */
  predicate CaseTwins(u: int, l: int) {
    'A' as int <= u <= 'Z' as int && l == u + ('a' as int - 'A' as int)
  }

  /** ... and transitive exactly if the keys' bytes are orderable. */
  lemma TransitiveIff(bytes: set<int>)
    ensures TransitiveOn(bytes) <==> Orderable(bytes)
  {
    if Orderable(bytes) {
      forall a: Key, b: Key, c: Key | Over(a, bytes) && Over(b, bytes) && Over(c, bytes) && Compare(a, b) <= 0 &&
        Compare(b, c) <= 0
        ensures Compare(a, c) <= 0
      {
        KeysTransitive(bytes, a, b, c, 0);
      }
    }
    if TransitiveOn(bytes) {
      forall u, m, l | u in bytes && m in bytes && l in bytes
        ensures Apart(u, m, l)
      {
        var a, b, c := [u], [m], [l];
        assert Over(a, bytes) && Over(b, bytes) && Over(c, bytes);
        SingleByte(u, m);
        SingleByte(l, u);
        SingleByte(l, m);
        assert Compare(c, a) <= 0 && Compare(a, b) <= 0 ==> Compare(c, b) <= 0;
      }
    }
  }
}
