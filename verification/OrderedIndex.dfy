/** Arrays with an ordered index (src/array.c): elements stay where they were inserted, and sorted[]
    lists their positions in the order of their keys. */
module OrderedIndex {
  import opened Actions
  import opened CaselessOrder
  import opened SortedPositions

  datatype Element<V> = Element(key: Key, kind: nat, value: V, isIndexKey: bool)

  /** The keys of the first n slots. */
  function KeysOf<V>(data: seq<Option<Element<V>>>, n: nat): (r: seq<Key>)
    requires n <= |data| && forall k | 0 <= k < n :: data[k].Some?
    ensures |r| == n && forall k | 0 <= k < n :: r[k] == data[k].value.key
  {
    if n == 0 then [] else KeysOf(data, n - 1) + [data[n - 1].value.key]
  }

  lemma CompareOrders(bytes: set<int>)
    requires Orderable(bytes)
    ensures Orders(Compare, k => Over(k, bytes))
  {
    var ok := (k: Key) => Over(k, bytes);
    forall a: Key, b: Key, c: Key | ok(a) && ok(b) && ok(c)
      ensures Consistent(Compare, a, b, c)
    {
      Antisymmetric(a, b, 0);
      if Compare(a, b) <= 0 && Compare(b, c) <= 0 { KeysTransitive(bytes, a, b, c, 0); }
    }
  }

  /** The bytes that keys made from numbers are made of. */
  ghost const DIGITS: set<int> := {0, 48, 49, 50, 51, 52, 53, 54, 55, 56, 57}

  /** Digits of a number, as buffer_copy_long prints it, with the terminating zero. */
  function Decimal(n: nat): (r: Key)
    ensures |r| > 1 && forall i | 0 <= i < |r| :: r[i] == 0 || '0' as int <= r[i] <= '9' as int
  {
    Digits(n) + [0]
  }

  function Digits(n: nat): (r: Key)
    ensures |r| > 0 && forall i | 0 <= i < |r| :: '0' as int <= r[i] <= '9' as int
  {
    if n <= 9 then ['0' as int + n] else Digits(n / 10) + ['0' as int + n % 10]
  }

  /** The number that decimal digits stand for. */
  function Number(s: Key): int {
    if s == [] then 0 else 10 * Number(s[..|s| - 1]) + (s[|s| - 1] - '0' as int)
  }

  /** The digits of a number stand for it, without leading zeros. */
  lemma {:induction false} DigitsRead(n: nat)
    ensures Number(Digits(n)) == n && (Digits(n)[0] == '0' as int ==> Digits(n) == ['0' as int])
  {
    if n > 9 {
      DigitsRead(n / 10);
      assert Digits(n)[..|Digits(n)| - 1] == Digits(n / 10);
      assert Number(['0' as int]) == 0 by { assert ['0' as int][..0] == []; }
    } else {
      assert Digits(n)[..0] == [];
    }
  }

  /** Keys without letters compare equal only if they are. */
  lemma {:induction false} LetterlessEqual(a: Key, b: Key, i: nat)
    requires i <= |a| && i <= |b| && a[..i] == b[..i] && CompareFrom(a, b, i) == 0
    requires forall k | 0 <= k < |a| :: !IsUpper(a[k]) && !IsLower(a[k])
    ensures a == b
    decreases |a| - i
  {
    if i < |a| && i < |b| {
      assert a[..i + 1] == a[..i] + [a[i]] && b[..i + 1] == b[..i] + [b[i]];
      LetterlessEqual(a, b, i + 1);
    } else {
      assert a == a[..i] && b == b[..i];
    }
  }

  /** Numbers that differ make keys that differ. */
  lemma DecimalsDiffer(i: nat, j: nat)
    requires i != j
    ensures Compare(Decimal(i), Decimal(j)) != 0
  {
    if Compare(Decimal(i), Decimal(j)) == 0 {
      LetterlessEqual(Decimal(i), Decimal(j), 0);
      assert Digits(i) == Decimal(i)[..|Digits(i)|] && Digits(j) == Decimal(j)[..|Digits(j)|];
      DigitsRead(i);
      DigitsRead(j);
    }
  }

  function Backwards(s: Key): (r: Key)
    ensures |r| == |s|
  {
    if s == [] then [] else [s[|s| - 1]] + Backwards(s[..|s| - 1])
  }

  lemma {:induction false} BackwardsAt(s: Key, k: nat)
    requires k < |s|
    ensures Backwards(s)[k] == s[|s| - 1 - k]
  {
    if |s| > 1 { BackwardsAt(s[..|s| - 1], if k > 0 then k - 1 else 0); }
  }

  method TurnRound(written: Key) returns (buf: Key)
    ensures buf == Backwards(written)
  {
    buf := written;
    var lo, hi := 0, |buf| - 1;
    while lo < hi
      invariant |buf| == |written| && 0 <= lo <= hi + 1 && lo + hi == |buf| - 1
      invariant forall k | 0 <= k < lo || hi < k < |buf| :: buf[k] == written[|written| - 1 - k]
      invariant forall k | lo <= k <= hi :: buf[k] == written[k]
    {
      buf := buf[lo := buf[hi]][hi := buf[lo]];
      lo, hi := lo + 1, hi - 1;
    }
    forall k | 0 <= k < |written|
      ensures Backwards(written)[k] == buf[k]
    {
      BackwardsAt(written, k);
    }
    assert buf == Backwards(written);
  }

  /** LI_ltostr: the digits are written from the last one on and then turned round. */
  method PrintLong(n: nat) returns (buf: Key)
    ensures buf == Decimal(n)
  {
    var val := n;
    buf := [];
    while val > 9
      invariant Digits(n) == Digits(val) + Backwards(buf)
    {
      ghost var was := buf;
      buf := buf + ['0' as int + val % 10];
      assert buf[..|buf| - 1] == was;
      val := val / 10;
    }
    ghost var most := buf;
    buf := buf + ['0' as int + val];
    assert buf[..|buf| - 1] == most;
    buf := TurnRound(buf);
    buf := buf + [0];
  }

  /** The first used slots are filled, and the index lists positions of them. */
  ghost predicate Shape<V>(data: seq<Option<Element<V>>>, sorted: seq<nat>, used: nat, np2: nat) {
    && used <= |data| == |sorted| && used <= INT_MAX
    && (forall k | 0 <= k < used :: data[k].Some? && data[k].value.key != [])
    && (forall i | 0 <= i < used :: sorted[i] < used)
    && IsPowerOfTwo(np2) && used <= np2
  }

  ghost function IndexOf<V>(data: seq<Option<Element<V>>>, sorted: seq<nat>, used: nat, np2: nat): (x: Index<Key>)
    requires Shape(data, sorted, used, np2)
    ensures Sound(x)
  {
    Index(KeysOf(data, used), sorted[..used], np2)
  }

  /** The keys are made of the bytes, and if these can be ordered the index is in order. */
  ghost predicate InOrder(cmp: (Key, Key) -> int, ok: Key -> bool, bytes: set<int>, keys: seq<Key>, sorted: seq<nat>) {
    && (forall k | 0 <= k < |keys| :: ok(keys[k]))
    && (Orderable(bytes) ==> Orders(cmp, ok) && Indexed(cmp, ok, keys, sorted))
  }

  lemma InsertInOrder(cmp: (Key, Key) -> int, ok: Key -> bool, bytes: set<int>, x: Index<Key>, key: Key)
    requires Sound(x) && InOrder(cmp, ok, bytes, x.keys, x.sorted) && ok(key)
    ensures InOrder(cmp, ok, bytes, Insert(cmp, x, key).keys, Insert(cmp, x, key).sorted)
  {
    if Orderable(bytes) { InsertIndexed(cmp, ok, x, key); }
  }

  lemma KeysSnoc<V>(data: seq<Option<Element<V>>>, n: nat, e: Element<V>)
    requires n < |data| && forall k | 0 <= k < n :: data[k].Some?
    ensures KeysOf(data[n := Some(e)], n + 1) == KeysOf(data, n) + [e.key]
  {
    assert KeysOf(data[n := Some(e)], n) == KeysOf(data, n);
  }

  /** Everything from pos on moved one step to the right, and ndx put there. */
  function MovedTo(sorted: seq<nat>, pos: nat, ndx: nat): (r: seq<nat>)
    requires pos <= ndx < |sorted|
    ensures |r| == |sorted| && r[..ndx + 1] == sorted[..ndx][..pos] + [ndx] + sorted[..ndx][pos..]
  {
    (if pos != ndx then sorted[..pos + 1] + sorted[pos..ndx] + sorted[ndx + 1..] else sorted)[pos := ndx]
  }

  /** A new element behind the others, and its position where the search says. */
  lemma Placed<V>(cmp: (Key, Key) -> int, data: seq<Option<Element<V>>>, sorted: seq<nat>, used: nat, np2: nat,
                  e: Element<V>, pos: int, at: nat)
    requires Shape(data, sorted, used, np2) && used < |data| && used < INT_MAX && e.key != [] && -1 <= pos <= used
    requires Search(cmp, KeysOf(data, used), sorted[..used], np2, e.key) == (-1, pos)
    requires at == InsertAt(cmp, KeysOf(data, used), sorted[..used], e.key, pos)
    ensures var data', sorted' := data[used := Some(e)], MovedTo(sorted, at, used);
      var np2' := if np2 == used then 2 * np2 else np2;
      && Shape(data', sorted', used + 1, np2')
      && IndexOf(data', sorted', used + 1, np2') == Insert(cmp, IndexOf(data, sorted, used, np2), e.key)
      && KeysOf(data', used + 1) == KeysOf(data, used) + [e.key]
  {
    KeysSnoc(data, used, e);
    Doubled(np2);
    var r := Insert(cmp, IndexOf(data, sorted, used, np2), e.key);
    assert r.sorted == MovedTo(sorted, at, used)[..used + 1];
  }

  class Array<V> {
    ghost const bytes: set<int>               // the bytes that keys are made of
    ghost const ordered: (Key, Key) -> int    // how keys compare
    ghost const ok: Key -> bool               // keys made of those bytes
    const dup: (V, V) -> V                    // how insert_dup merges a value into one that is there
    const clear: V -> V                       // how reset leaves a value
    var data: seq<Option<Element<V>>>         // as many slots as are allocated
    var sorted: seq<nat>
    var used: nat
    var unique_ndx: nat
    var next_power_of_2: nat

    /** The index is in order if the bytes of the keys allow one. */
    ghost predicate Valid()
      reads this
    {
      && ordered == Compare && ok == (k => Over(k, bytes))
      && (forall d | '0' as int <= d <= '9' as int || d == 0 :: d in bytes)
      && Shape(data, sorted, used, next_power_of_2)
      && InOrder(ordered, ok, bytes, KeysOf(data, used), sorted[..used])
    }

    /** The keys in insertion order. */
    ghost function Keys(): seq<Key>
      reads this
      requires Valid()
    {
      KeysOf(data, used)
    }

    ghost function Contents(): Index<Key>
      reads this
      requires Valid()
    {
      IndexOf(data, sorted, used, next_power_of_2)
    }

    /** Where array_get_index finds the key, or -1. */
    ghost function Finds(key: Key): int
      reads this
      requires Valid()
    {
      Search(ordered, Keys(), sorted[..used], next_power_of_2, key).0
    }

    ghost predicate Matches(key: Key, k: nat)
      reads this
      requires Valid() && k < used
    {
      ordered(key, Keys()[k]) == 0
    }

    ghost predicate Present(key: Key)
      reads this
      requires Valid()
    {
      exists k | 0 <= k < used :: Matches(key, k)
    }

    constructor (ghost b: set<int>, d: (V, V) -> V, c: V -> V)
      requires forall x | '0' as int <= x <= '9' as int || x == 0 :: x in b
      ensures Valid() && used == 0 && unique_ndx == 0 && bytes == b && dup == d && clear == c
      ensures Contents() == Built(ordered, [])
    {
      bytes, ordered, ok, dup, clear := b, Compare, k => Over(k, b), d, c;
      data, sorted, used, unique_ndx, next_power_of_2 := [], [], 0, 0, 1;
      if Orderable(b) { CompareOrders(b); }
    }

    /** Where the search goes on from pos: to the left, to the right, or not at all. */
    method Probe(key: Key, pos: int) returns (dir: int)
      requires Valid()
      ensures dir == Direction(ordered, Keys(), sorted[..used], key, pos)
    {
      if pos < 0 {
        dir := 1;
      } else if pos >= used {
        dir := -1;
      } else {
        dir := CaselessCompare(key, data[sorted[pos]].value.key, false);
        assert dir == ordered(key, Keys()[sorted[..used][pos]]);
      }
    }

    /** array_get_index: an element whose key compares equal, or -1. If the bytes can be ordered, it is
        found whenever it is there, and otherwise pos is the rank of the key or one less. */
    method GetIndex(key: Key) returns (ndx: int, pos: int)
      requires Valid()
      ensures (ndx, pos) == Search(ordered, Keys(), sorted[..used], next_power_of_2, key)
      ensures ndx == Finds(key) && (ndx == -1 || (0 <= ndx < used && Matches(key, ndx)))
      ensures -1 <= pos <= used
      ensures Orderable(bytes) && ok(key) ==> (ndx == -1 <==> !Present(key))
      ensures Orderable(bytes) && ok(key) && ndx == -1 ==>
        var r := Rank(ordered, Keys(), sorted[..used], key); pos == r || pos == r - 1
    {
      SearchBounded(ordered, Keys(), sorted[..used], next_power_of_2, key);
      if Orderable(bytes) && ok(key) { SearchExact(ordered, ok, Keys(), sorted[..used], next_power_of_2, key); }
      var i: nat := next_power_of_2 / 2;
      pos := i;
      while true
        invariant Seek(ordered, Keys(), sorted[..used], key, pos, i)
          == Search(ordered, Keys(), sorted[..used], next_power_of_2, key)
        decreases i
      {
        var dir := Probe(key, pos);
        if dir == 0 { return sorted[pos], pos; }
        pos := if dir < 0 then pos - i else pos + i;
        if i == 0 { break; }
        i := i / 2;
      }
      ndx := -1;
    }

    /** Where a new key goes, from where the search for it ended. */
    method FixUp(key: Key, pos: int) returns (at: nat)
      requires Valid() && -1 <= pos <= used
      ensures at == InsertAt(ordered, Keys(), sorted[..used], key, pos)
    {
      if pos != used {
        if pos < 0 { return pos + 1; }
        var cmp := CaselessCompare(key, data[sorted[pos]].value.key, false);
        assert cmp == ordered(key, Keys()[sorted[..used][pos]]);
        if cmp > 0 { return pos + 1; }
      }
      return pos;
    }

    /** Put a new element behind the others, and its position into the index. */
    method Place(e: Element<V>, ghost pos: int, at: nat)
      requires Valid() && used < |data| && used < INT_MAX && ok(e.key) && e.key != [] && -1 <= pos <= used
      requires Search(ordered, Keys(), sorted[..used], next_power_of_2, e.key) == (-1, pos)
      requires at == InsertAt(ordered, Keys(), sorted[..used], e.key, pos)
      modifies `data, `sorted, `used, `next_power_of_2
      ensures Valid() && used == old(used) + 1 && data == old(data)[old(used) := Some(e)]
      ensures Contents() == Insert(ordered, old(Contents()), e.key)
    {
      Placed(ordered, data, sorted, used, next_power_of_2, e, pos, at);
      InsertInOrder(ordered, ok, bytes, Contents(), e.key);
      var ndx := used;
      data := data[ndx := Some(e)];
      used := used + 1;
      sorted := MovedTo(sorted, at, ndx);
      if next_power_of_2 == ndx { next_power_of_2 := 2 * next_power_of_2; }
    }

    /** Room for one more element. */
    method Grow()
      requires Valid()
      modifies `data, `sorted
      ensures Valid() && used < |data| && |data| >= old(|data|) && data[..used] == old(data[..used])
      ensures Keys() == old(Keys()) && sorted[..used] == old(sorted[..used])
    {
      if |data| == used {
        GrownState(data, sorted, used, next_power_of_2, seq(16, _ => None), seq(16, _ => 0));
        data := data + seq(16, _ => None);
        sorted := sorted + seq(16, _ => 0);
      }
    }

    /** An element without a key of its own gets the next number as its key. */
    function WithKey(e: Element<V>): Element<V>
      reads this
    {
      if e.key == [] || e.isIndexKey then e.(key := Decimal(unique_ndx), isIndexKey := true) else e
    }

    /** Merge an element that has its key into the one that is found for it, or add it. at is its
        position. */
    method InsertKeyed(e: Element<V>) returns (rc: int, ghost at: nat)
      requires Valid() && e.key != [] && ok(e.key)
      modifies `data, `sorted, `used, `next_power_of_2
      ensures Valid() && Contents() == Insert(ordered, old(Contents()), e.key)
      ensures rc == -1 <==> old(used) >= INT_MAX && old(Finds(e.key)) == -1
      ensures if rc == -1 then data == old(data) && used == old(used) else rc == 0 && at <= old(used) && at < used
      ensures rc == 0 && at < old(used) ==>
        && at == old(Finds(e.key)) && ordered(e.key, old(Keys())[at]) == 0 && used == old(used)
        && data == old(data)[at := Some(old(data[at]).value.(value := dup(old(data[at]).value.value, e.value)))]
      ensures rc == 0 && at == old(used) ==>
        old(Finds(e.key)) == -1 && data[..used] == old(data[..used]) + [Some(e)]
    {
      var ndx, pos := GetIndex(e.key);
      if ndx != -1 {
        at := ndx;
        Merge(ndx, e);
        return 0, at;
      }
      if used + 1 > INT_MAX { return -1, 0; }
      rc, at := 0, used;
      AddNew(e, pos);
    }

    /** Add an element whose key has not been found; pos is where the search for it ended. */
    method AddNew(e: Element<V>, pos: int)
      requires Valid() && used < INT_MAX && e.key != [] && ok(e.key) && -1 <= pos <= used
      requires Search(ordered, Keys(), sorted[..used], next_power_of_2, e.key) == (-1, pos)
      modifies `data, `sorted, `used, `next_power_of_2
      ensures Valid() && used == old(used) + 1 && data[..used] == old(data[..used]) + [Some(e)]
      ensures Contents() == Insert(ordered, old(Contents()), e.key)
    {
      Grow();
      var at := FixUp(e.key, pos);
      Place(e, pos, at);
    }

    /** insert_dup: merge an element into the one at ndx. */
    method Merge(ndx: nat, e: Element<V>)
      requires Valid() && ndx < used
      modifies `data
      ensures Valid() && Contents() == old(Contents())
      ensures data == old(data)[ndx := Some(old(data[ndx]).value.(value := dup(old(data[ndx]).value.value, e.value)))]
    {
      var merged := data[ndx].value.(value := dup(data[ndx].value.value, e.value));
      assert KeysOf(data[ndx := Some(merged)], used) == KeysOf(data, used);
      data := data[ndx := Some(merged)];
    }

    /** array_insert_unique: an element without a key of its own gets a number, and then is merged
        into the one found for its key, or added. What is found must be of the same kind. */
    method InsertUnique(e0: Element<V>) returns (rc: int, ghost at: nat)
      requires Valid() && (e0.key == [] || ok(e0.key))
      requires var k := Finds(WithKey(e0).key); 0 <= k < used ==> data[k].value.kind == e0.kind
      modifies this
      ensures Valid() && Contents() == Insert(ordered, old(Contents()), old(WithKey(e0)).key)
      ensures unique_ndx == old(unique_ndx) + if e0.key == [] || e0.isIndexKey then 1 else 0
      ensures rc == -1 <==> old(used) >= INT_MAX && old(Finds(WithKey(e0).key)) == -1
      ensures if rc == -1 then data == old(data) && used == old(used) else rc == 0 && at <= old(used) && at < used
      ensures rc == 0 && at < old(used) ==>
        && at == old(Finds(WithKey(e0).key)) && ordered(old(WithKey(e0)).key, old(Keys())[at]) == 0 && used == old(used)
        && data == old(data)[at := Some(old(data[at]).value.(value := dup(old(data[at]).value.value, e0.value)))]
      ensures rc == 0 && at == old(used) ==>
        old(Finds(WithKey(e0).key)) == -1 && data[..used] == old(data[..used]) + [Some(old(WithKey(e0)))]
      ensures Orderable(bytes) ==> (old(Finds(WithKey(e0).key)) == -1 <==> !old(Present(WithKey(e0).key)))
    {
      var e := e0;
      FindsPresent(WithKey(e0).key);
      if e0.key == [] || e0.isIndexKey {
        var key := PrintLong(unique_ndx);
        e := e.(key := key, isIndexKey := true);
        unique_ndx := unique_ndx + 1;
      }
      rc, at := InsertKeyed(e);
    }

    lemma FindsPresent(key: Key)
      requires Valid() && ok(key)
      ensures Orderable(bytes) ==> (Finds(key) == -1 <==> !Present(key))
      ensures Finds(key) == -1 || (0 <= Finds(key) < used && Matches(key, Finds(key)))
    {
      SearchBounded(ordered, Keys(), sorted[..used], next_power_of_2, key);
      if Orderable(bytes) { SearchExact(ordered, ok, Keys(), sorted[..used], next_power_of_2, key); }
      if Finds(key) != -1 { assert Matches(key, Finds(key)); }
    }

    /** array_replace: put the element in the place of the one found for its key, whatever its kind, or
        insert it; rc is what the insertion returned, which the caller never learns: a full array loses
        the element. */
    method Replace(e: Element<V>) returns (old_: Option<Element<V>>, ghost at: nat, ghost rc: int)
      requires Valid() && (e.key == [] || ok(e.key))
      requires e.key == [] || Finds(e.key) == -1 ==>
        var k := Finds(WithKey(e).key); 0 <= k < used ==> data[k].value.kind == e.kind
      modifies this
      ensures Valid()
      ensures old_.Some? <==> e.key != [] && old(Finds(e.key)) != -1
      ensures old_.Some? ==>
        && rc == 0 && at == old(Finds(e.key)) && at < old(used) && old_ == old(data[at])
        && ordered(e.key, old(Keys())[at]) == 0 && data == old(data)[at := Some(e)] && used == old(used)
      ensures Orderable(bytes) ==> (old_.None? <==> e.key == [] || !old(Present(e.key)))
      ensures old_.None? ==>
        && (rc == -1 <==> old(used) >= INT_MAX && old(Finds(WithKey(e).key)) == -1)
        && Contents() == Insert(ordered, old(Contents()), old(WithKey(e)).key)
      ensures unique_ndx == old(unique_ndx) + if old_.None? && (e.key == [] || e.isIndexKey) then 1 else 0
      ensures if rc == -1 then data == old(data) && used == old(used) else at < used
      ensures old_.None? && rc != -1 && !(e.key == [] || e.isIndexKey) ==>
        at == old(used) && data[..used] == old(data[..used]) + [Some(e)]
    {
      var ndx := -1;
      if e.key != [] {
        var pos;
        FindsPresent(e.key);
        ndx, pos := GetIndex(e.key);
      }
      if ndx == -1 {
        var inserted;
        inserted, at := InsertUnique(e);
        old_, rc := None, inserted;
      } else {
        at, rc := ndx, 0;
        old_ := data[ndx];
        ReplaceAt(ndx, e);
      }
    }

    /** Overwrite an element by one whose key compares equal. */
    method ReplaceAt(ndx: nat, e: Element<V>)
      requires Valid() && ndx < used && e.key != [] && ok(e.key) && Matches(e.key, ndx)
      modifies `data
      ensures Valid() && data == old(data)[ndx := Some(e)]
    {
      ghost var keys := Keys();
      assert KeysOf(data[ndx := Some(e)], used) == keys[ndx := e.key];
      if Orderable(bytes) { IndexedReplace(ordered, ok, keys, sorted[..used], e.key, ndx); }
      data := data[ndx := Some(e)];
    }

    /** array_get_unused_element: take an element of the kind from behind the used ones, leaving an
        empty slot for the next insertion. */
    method GetUnusedElement(kind: nat) returns (r: Option<Element<V>>, ghost at: nat)
      requires Valid()
      modifies `data
      ensures Valid() && Keys() == old(Keys())
      ensures r.None? ==>
        data == old(data) && forall i | used <= i < |data| && data[i].Some? :: data[i].value.kind != kind
      ensures r.Some? ==>
        && used <= at < old(|data|) && r == old(data)[at] && r.value.kind == kind
        && data == old(data)[at := old(data)[used]][used := None]
    {
      for i := used to |data|
        invariant data == old(data) && forall j | used <= j < i && data[j].Some? :: data[j].value.kind != kind
      {
        if data[i].Some? && data[i].value.kind == kind {
          r, at := data[i], i;
          SpareState(data, sorted, used, next_power_of_2, data[i := data[used]][used := None]);
          data := data[i := data[used]];
          data := data[used := None];
          return;
        }
      }
      r, at := None, 0;
    }

    /** array_reset: forget the elements, but keep them for reuse. */
    method Reset()
      requires Valid()
      modifies `data, `used
      ensures Valid() && used == 0 && |data| == old(|data|)
      ensures forall i | 0 <= i < old(used) ::
        data[i] == Some(old(data[i]).value.(key := [], value := clear(old(data[i]).value.value)))
      ensures forall i | old(used) <= i < |data| :: data[i] == old(data)[i]
    {
      for i := 0 to used
        invariant |data| == old(|data|)
        invariant forall k | 0 <= k < i ::
          data[k] == Some(old(data[k]).value.(key := [], value := clear(old(data[k]).value.value)))
        invariant forall k | i <= k < |data| :: data[k] == old(data)[k]
      {
        data := data[i := Some(data[i].value.(key := [], value := clear(data[i].value.value)))];
      }
      used := 0;
    }
  }

  lemma GrownState<V>(data: seq<Option<Element<V>>>, sorted: seq<nat>, used: nat, np2: nat,
                      slots: seq<Option<Element<V>>>, positions: seq<nat>)
    requires Shape(data, sorted, used, np2) && |slots| == |positions|
    ensures Shape(data + slots, sorted + positions, used, np2)
    ensures KeysOf(data + slots, used) == KeysOf(data, used)
    ensures (sorted + positions)[..used] == sorted[..used] && (data + slots)[..used] == data[..used]
  {
    assert (sorted + positions)[..used] == sorted[..used];
    assert KeysOf(data + slots, used) == KeysOf(data, used);
  }

  lemma SpareState<V>(data: seq<Option<Element<V>>>, sorted: seq<nat>, used: nat, np2: nat,
                      data': seq<Option<Element<V>>>)
    requires Shape(data, sorted, used, np2) && |data'| == |data|
    requires forall k | 0 <= k < used :: data'[k] == data[k]
    ensures Shape(data', sorted, used, np2) && KeysOf(data', used) == KeysOf(data, used)
  {
    assert KeysOf(data', used) == KeysOf(data, used);
  }

  function ElementKeys<V>(elements: seq<Element<V>>): (r: seq<Key>)
    ensures |r| == |elements| && forall k | 0 <= k < |r| :: r[k] == elements[k].key
  {
    if elements == [] then [] else ElementKeys(elements[..|elements| - 1]) + [elements[|elements| - 1].key]
  }

  /** Elements of one kind that have keys of their own, over these bytes. */
  ghost predicate Keyed<V>(elements: seq<Element<V>>, kind: nat, bytes: set<int>) {
    forall k | 0 <= k < |elements| ::
      elements[k].key != [] && Over(elements[k].key, bytes) && !elements[k].isIndexKey && elements[k].kind == kind
  }

  /** All used elements are of this kind. */
  ghost predicate OfKind<V>(data: seq<Option<Element<V>>>, used: nat, kind: nat) {
    used <= |data| && forall k | 0 <= k < used :: data[k].Some? && data[k].value.kind == kind
  }

  /** One of several elements of the same kind, each with a key of its own. */
  method InsertSame<V>(a: Array<V>, e: Element<V>, ghost kind: nat)
    requires a.Valid() && e.key != [] && a.ok(e.key) && !e.isIndexKey && e.kind == kind && OfKind(a.data, a.used, kind)
    modifies a
    ensures a.Valid() && a.Contents() == Insert(Compare, old(a.Contents()), e.key) && OfKind(a.data, a.used, kind)
  {
    ghost var data, used := a.data, a.used;
    var rc, at := a.InsertUnique(e);
    if rc == 0 && at == used {
      assert forall k | 0 <= k < used :: a.data[k] == a.data[..a.used][k] == data[..used][k];
      assert a.data[used] == a.data[..a.used][used];
    }
  }

  /** A new array into which the elements are inserted one after the other. */
  method BuildArray<V>(elements: seq<Element<V>>, dup: (V, V) -> V, clear: V -> V,
                       ghost kind: nat, ghost bytes: set<int>) returns (a: Array<V>)
    requires Keyed(elements, kind, bytes) && forall x | '0' as int <= x <= '9' as int || x == 0 :: x in bytes
    ensures fresh(a) && a.Valid() && a.Contents() == Built(Compare, ElementKeys(elements))
  {
    a := new Array(bytes, dup, clear);
    for k := 0 to |elements|
      invariant fresh(a) && a.Valid() && a.bytes == bytes && OfKind(a.data, a.used, kind)
      invariant a.Contents() == Built(Compare, ElementKeys(elements[..k]))
    {
      InsertSame(a, elements[k], kind);
      assert elements[..k + 1][..k] == elements[..k];
      assert ElementKeys(elements[..k + 1]) == ElementKeys(elements[..k]) + [elements[k].key];
    }
    assert elements[..|elements|] == elements;
  }

  /** What a list makes of its k-th element. */
  function WithNumber<V>(e: Element<V>, k: nat): Element<V> {
    e.(key := Decimal(k), isIndexKey := true)
  }

  /** A list in the configuration: elements without keys of their own, one after the other. */
  ghost predicate Listing<V>(elements: seq<Element<V>>, n: nat, data: seq<Option<Element<V>>>, used: nat) {
    n <= |elements| && used == n <= |data| && forall k | 0 <= k < n :: data[k] == Some(WithNumber(elements[k], k))
  }

  /** The next number is not among the keys. */
  lemma NextNumberNew<V>(a: Array<V>, elements: seq<Element<V>>, n: nat)
    requires a.Valid() && Listing(elements, n, a.data, a.used)
    ensures a.Finds(Decimal(n)) == -1
  {
    assert a.ok(Decimal(n));
    a.FindsPresent(Decimal(n));
    forall k | 0 <= k < n
      ensures !a.Matches(Decimal(n), k)
    {
      DecimalsDiffer(n, k);
    }
  }

  lemma ListingNext<V>(elements: seq<Element<V>>, n: nat, data: seq<Option<Element<V>>>,
                       data': seq<Option<Element<V>>>, used': nat)
    requires n < |elements| && Listing(elements, n, data, n) && used' == n + 1 <= |data'|
    requires data'[..n + 1] == data[..n] + [Some(WithNumber(elements[n], n))]
    ensures Listing(elements, n + 1, data', n + 1)
  {
    assert forall k | 0 <= k < n :: data'[k] == data'[..n + 1][k] == data[..n][k];
    assert data'[n] == data'[..n + 1][n];
  }

  /** Elements without keys of their own, inserted into a new array, stay apart and in order. */
  method ListElements<V>(elements: seq<Element<V>>, dup: (V, V) -> V, clear: V -> V, ghost bytes: set<int>)
    returns (a: Array<V>)
    requires |elements| <= INT_MAX && forall k | 0 <= k < |elements| :: elements[k].key == []
    requires forall x | '0' as int <= x <= '9' as int || x == 0 :: x in bytes
    ensures fresh(a) && a.Valid() && a.used == a.unique_ndx == |elements|
    ensures forall k | 0 <= k < |elements| :: a.data[k] == Some(WithNumber(elements[k], k))
  {
    a := new Array(bytes, dup, clear);
    for n := 0 to |elements|
      invariant fresh(a) && a.Valid() && a.unique_ndx == n && Listing(elements, n, a.data, a.used)
    {
      NextNumberNew(a, elements, n);
      ghost var was := a.data;
      var rc, at := a.InsertUnique(elements[n]);
      ListingNext(elements, n, was, a.data, a.used);
    }
  }

  // ----- which keys can be found again -----

  ghost predicate KeysOver(bytes: set<int>, keys: seq<Key>) {
    forall k | 0 <= k < |keys| :: keys[k] != [] && Over(keys[k], bytes)
  }

  /** The search finds the key if and only if an equal one is there. */
  ghost predicate FindsExactly(x: Index<Key>, key: Key)
    requires Sound(x)
  {
    Search(Compare, x.keys, x.sorted, x.np2, key).0 == -1 <==>
    forall k | 0 <= k < |x.keys| :: Compare(key, x.keys[k]) != 0
  }

  /** That is so in every array into which keys over these bytes have been inserted. */
  ghost predicate AllFindExactly(bytes: set<int>) {
    forall keys, key {:trigger FindsExactly(Built(Compare, keys), key)} | KeysOver(bytes, keys) && Over(key, bytes) ::
      FindsExactly(Built(Compare, keys), key)
  }

  /** After u u, m and l the search for u u ends behind l. */
  lemma KeyLost(bytes: set<int>, u: int, m: int, l: int)
    requires u in bytes && m in bytes && l in bytes && !Apart(u, m, l)
    ensures !AllFindExactly(bytes)
  {
    var a, b, c := [u, u], [m], [l];
    assert CompareFrom(b, a, 0) > 0;
    assert CompareFrom(c, b, 0) > 0;
    assert ByteCmp(u, l) == 0 ==> CompareFrom(a, c, 0) == CompareFrom(a, c, 1) == 1;
    BuiltThree(Compare, a, b, c);
    BehindThree(Compare, a, b, c, a);
    Antisymmetric(a, a, 0);
    assert KeysOver(bytes, [a, b, c]) && Over(a, bytes);
    assert Compare(a, [a, b, c][0]) == 0;
    assert !FindsExactly(Built(Compare, [a, b, c]), a);
  }

  /** An array finds its keys again if and only if their bytes can be ordered. */
  lemma FindsIffOrderable(bytes: set<int>)
    ensures AllFindExactly(bytes) <==> Orderable(bytes)
  {
    if Orderable(bytes) {
      CompareOrders(bytes);
      forall keys, key | KeysOver(bytes, keys) && Over(key, bytes)
        ensures FindsExactly(Built(Compare, keys), key)
      {
        var x := Built(Compare, keys);
        BuiltIndexed(Compare, k => Over(k, bytes), keys);
        SearchExact(Compare, k => Over(k, bytes), x.keys, x.sorted, x.np2, key);
      }
    } else {
      var u, m, l :| u in bytes && m in bytes && l in bytes && !Apart(u, m, l);
      KeyLost(bytes, u, m, l);
    }
  }
}
