/** The packed action table of the generator (src/lemon.c, "acttab"): transaction sets laid over
    each other in one array, found again by an offset. */
module ActionTable {

  /** An entry of aAction or aLookahead; a negative lookahead marks an unused slot. */
  datatype Slot = Slot(lookahead: int, action: int)

  const EMPTY := Slot(-1, -1)

  /** The meaning of a transaction set: an action for each lookahead in it. */
  function SetOf(tx: seq<Slot>): map<int, int> {
    if tx == [] then map[]
    else SetOf(tx[..|tx| - 1])[tx[|tx| - 1].lookahead := tx[|tx| - 1].action]
  }

  ghost predicate Distinct(tx: seq<Slot>) {
    forall i, j | 0 <= i < j < |tx| :: tx[i].lookahead != tx[j].lookahead
  }

  lemma {:induction false} SetOfEntries(tx: seq<Slot>)
    ensures forall i | 0 <= i < |tx| :: tx[i].lookahead in SetOf(tx)
    ensures Distinct(tx) ==> forall i | 0 <= i < |tx| :: SetOf(tx)[tx[i].lookahead] == tx[i].action
    ensures forall la | la in SetOf(tx) :: exists i | 0 <= i < |tx| :: tx[i].lookahead == la
  {
    if tx != [] {
      var rest, last := tx[..|tx| - 1], |tx| - 1;
      SetOfEntries(rest);
      assert forall i | 0 <= i < last :: rest[i] == tx[i];
      assert tx[last].lookahead in SetOf(tx);
      forall la | la in SetOf(tx)
        ensures exists i | 0 <= i < |tx| :: tx[i].lookahead == la
      {
        if la != tx[last].lookahead {
          assert la in SetOf(rest);
          var i :| 0 <= i < |rest| && rest[i].lookahead == la;
          assert tx[i].lookahead == la;
        }
      }
    }
  }

  lemma {:induction false} SetOfSize(tx: seq<Slot>)
    requires Distinct(tx)
    ensures |SetOf(tx)| == |tx|
  {
    if tx != [] {
      var rest, last := tx[..|tx| - 1], tx[|tx| - 1];
      SetOfSize(rest);
      SetOfEntries(rest);
      assert last.lookahead !in SetOf(rest);
      assert SetOf(tx).Keys == SetOf(rest).Keys + {last.lookahead};
    }
  }

  /** Slot j is what a lookup of its lookahead at offset o finds. */
  predicate Mine(slots: seq<Slot>, o: int, j: int)
    requires 0 <= j < |slots|
  {
    slots[j].lookahead >= 0 && slots[j].lookahead == j - o
  }

  ghost function Owned(slots: seq<Slot>, n: nat, o: int): set<int>
    requires n <= |slots|
  {
    set j | 0 <= j < n && Mine(slots, o, j)
  }

  ghost function Shifted(a: set<int>, o: int): set<int> {
    set x | x in a :: x + o
  }

  lemma Member<T>(a: set<T>) returns (x: T)
    requires a != {}
    ensures x in a
  {
    x :| x in a;
  }

  lemma {:induction false} ShiftedSize(a: set<int>, o: int)
    ensures |Shifted(a, o)| == |a|
  {
    if a != {} {
      var x := Member(a);
      var b := a - {x};
      ShiftedSize(b, o);
      assert a == b + {x};
      assert Shifted(b + {x}, o) == Shifted(b, o) + {x + o};
    } else {
      assert Shifted(a, o) == {};
    }
  }

  lemma SubsetOfSameSize(a: set<int>, b: set<int>)
    requires a <= b && |a| == |b|
    ensures a == b
  {
    assert b == a + (b - a);
    assert |b| == |a| + |b - a|;
  }

  ghost predicate Holds(slots: seq<Slot>, n: nat, o: int, la: int, action: int)
    requires n <= |slots|
  {
    la >= 0 && 0 <= o + la < n && slots[o + la] == Slot(la, action)
  }

  ghost predicate Claims(slots: seq<Slot>, packed: map<int, map<int, int>>, j: int)
    requires 0 <= j < |slots|
  {
    var o, la := j - slots[j].lookahead, slots[j].lookahead;
    o in packed && la in packed[o] && packed[o][la] == slots[j].action
  }

  /** Every set packed so far is found again: its entries are in place, and no slot claims to
      belong to a set it does not belong to. */
  ghost predicate Packs(slots: seq<Slot>, n: nat, packed: map<int, map<int, int>>) {
    && n <= |slots|
    && (forall j | n <= j < |slots| :: slots[j].lookahead < 0)
    && (forall j {:trigger Claims(slots, packed, j)} | 0 <= j < n && slots[j].lookahead >= 0 ::
      Claims(slots, packed, j))
    && (forall o | o in packed :: packed[o] != map[])
    && (forall o, la {:trigger Holds(slots, n, o, la, packed[o][la])} | o in packed && la in packed[o] ::
          Holds(slots, n, o, la, packed[o][la]))
  }

  /** slots' is slots with the set m written at offset o. */
  ghost predicate Written(slots: seq<Slot>, m: map<int, int>, o: int, slots': seq<Slot>) {
    && |slots'| == |slots|
    && forall j {:trigger slots'[j]} | 0 <= j < |slots| ::
         slots'[j] == if j - o in m then Slot(j - o, m[j - o]) else slots[j]
  }

  /** There is room for the set m at offset o, and nothing is found there yet. */
  ghost predicate Room(slots: seq<Slot>, n: nat, m: map<int, int>, o: int, n': nat) {
    && n <= n' <= |slots| && Owned(slots, n, o) == {}
    && forall la | la in m :: la >= 0 && 0 <= la + o < n' && slots[la + o].lookahead < 0
  }

  lemma OffsetOwns(slots: seq<Slot>, n: nat, packed: map<int, map<int, int>>, o: int)
    requires Packs(slots, n, packed) && o in packed
    ensures Owned(slots, n, o) != {}
  {
    assert packed[o].Keys != {};
    var la := Member(packed[o].Keys);
    assert Holds(slots, n, o, la, packed[o][la]);
    assert o + la in Owned(slots, n, o);
  }

  lemma ClaimKept(slots: seq<Slot>, n: nat, packed: map<int, map<int, int>>, m: map<int, int>, o: int,
                  slots': seq<Slot>, j: int)
    requires Packs(slots, n, packed) && o !in packed && Written(slots, m, o, slots')
    requires 0 <= j < |slots| && slots'[j].lookahead >= 0
    ensures Claims(slots', packed[o := m], j)
  {
    if j - o !in m {
      assert j < n && Claims(slots, packed, j);
    }
  }

  lemma HoldKept(slots: seq<Slot>, n: nat, packed: map<int, map<int, int>>, m: map<int, int>, o: int,
                 slots': seq<Slot>, n': nat, o': int, la: int)
    requires Packs(slots, n, packed) && o !in packed && Written(slots, m, o, slots') && Room(slots, n, m, o, n')
    requires o' in packed && la in packed[o']
    ensures Holds(slots', n', o', la, packed[o'][la])
  {
    assert Holds(slots, n, o', la, packed[o'][la]);
    var j := o' + la;
    assert slots[j].lookahead >= 0;
    assert forall la' | la' in m :: la' + o != j;
    assert slots'[j] == slots[j];
  }

  /** Writing a set at an offset nobody owns, into unused slots. */
  lemma PackNew(slots: seq<Slot>, n: nat, packed: map<int, map<int, int>>, m: map<int, int>, o: int, slots': seq<Slot>,
                n': nat)
    requires Packs(slots, n, packed) && m != map[] && Room(slots, n, m, o, n') && Written(slots, m, o, slots')
    ensures Packs(slots', n', packed[o := m])
    ensures o !in packed
  {
    if o in packed { OffsetOwns(slots, n, packed, o); }
    var packed' := packed[o := m];
    forall j | 0 <= j < n' && slots'[j].lookahead >= 0
      ensures Claims(slots', packed', j)
    {
      ClaimKept(slots, n, packed, m, o, slots', j);
    }
    forall o', la | o' in packed' && la in packed'[o']
      ensures Holds(slots', n', o', la, packed'[o'][la])
    {
      if o' == o {
        assert slots'[o + la] == Slot(la, m[la]);
      } else {
        HoldKept(slots, n, packed, m, o, slots', n', o', la);
      }
    }
    forall j | n' <= j < |slots'|
      ensures slots'[j].lookahead < 0
    {
      assert j - o !in m;
    }
  }

  /** Finding the very same set in place. */
  lemma PackAgain(slots: seq<Slot>, n: nat, packed: map<int, map<int, int>>, m: map<int, int>, o: int)
    requires Packs(slots, n, packed) && m != map[]
    requires forall la | la in m :: Holds(slots, n, o, la, m[la])
    requires |Owned(slots, n, o)| == |m|
    ensures o in packed && packed[o] == m
  {
    ShiftedSize(m.Keys, o);
    forall x | x in Shifted(m.Keys, o)
      ensures x in Owned(slots, n, o)
    {
      assert Holds(slots, n, o, x - o, m[x - o]);
    }
    SubsetOfSameSize(Shifted(m.Keys, o), Owned(slots, n, o));
    forall la | la in m
      ensures o in packed && la in packed[o] && packed[o][la] == m[la]
    {
      assert Holds(slots, n, o, la, m[la]) && Claims(slots, packed, o + la);
    }
    assert m.Keys != {};
    var la0 :| la0 in m;
    assert packed[o].Keys <= m.Keys by {
      forall la | la in packed[o]
        ensures la in m
      {
        assert Holds(slots, n, o, la, packed[o][la]);
        assert o + la in Owned(slots, n, o);
      }
    }
    assert packed[o].Keys == m.Keys;
  }

  /** Entry j of the transaction set would fall on an unused slot. */
  predicate FreeAt(slots: seq<Slot>, tx: seq<Slot>, o: int, j: int)
    requires 0 <= j < |tx|
  {
    0 <= tx[j].lookahead + o < |slots| && slots[tx[j].lookahead + o].lookahead < 0
  }

  /** Entry j of the transaction set is in place already. */
  predicate PlacedAt(slots: seq<Slot>, n: nat, tx: seq<Slot>, o: int, j: int)
    requires 0 <= j < |tx| && n <= |slots|
  {
    0 <= tx[j].lookahead + o < n && slots[tx[j].lookahead + o] == tx[j]
  }

  /** Offset o is where a scan for room may stop: the set is in place already and nothing else is
      found under o, or nothing is found under o and the set falls on unused slots. */
  ghost predicate Lands(slots: seq<Slot>, n: nat, tx: seq<Slot>, o: int, again: bool) {
    && n <= |slots|
    && (again ==> |Owned(slots, n, o)| == |tx| && forall j | 0 <= j < |tx| :: PlacedAt(slots, n, tx, o, j))
    && (!again ==> Owned(slots, n, o) == {} && forall j | 0 <= j < |tx| :: FreeAt(slots, tx, o, j))
  }

  /** Looking la up at the offset of a packed set gives that set's action, or nothing if la is not
      in the set. */
  lemma LookupExact(slots: seq<Slot>, n: nat, packed: map<int, map<int, int>>, o: int, la: int)
    requires Packs(slots, n, packed) && o in packed && la >= 0
    ensures la in packed[o] <==> 0 <= o + la < n && slots[o + la].lookahead == la
    ensures la in packed[o] ==> slots[o + la].action == packed[o][la]
  {
    if 0 <= o + la < n && slots[o + la].lookahead == la {
      assert Claims(slots, packed, o + la);
    }
    if la in packed[o] {
      assert Holds(slots, n, o, la, packed[o][la]);
    }
  }

  class ActTab {
    var nAction: nat             // used slots in aAction
    var aAction: seq<Slot>       // the table under construction, with its spare slots
    var aLookahead: seq<Slot>    // the transaction set being built
    var mnLookahead: int
    var mnAction: int
    var mxLookahead: int
    ghost var packed: map<int, map<int, int>>   // the sets inserted so far, by offset

    ghost predicate Valid()
      reads this
    {
      Packs(aAction, nAction, packed) && Distinct(aLookahead) && Bounded()
    }

    /** The bounds kept while the transaction set grows; mnAction goes with mnLookahead. */
    ghost predicate Bounded()
      reads this
    {
      && (forall j | 0 <= j < |aLookahead| :: 0 <= mnLookahead <= aLookahead[j].lookahead <= mxLookahead)
      && (aLookahead != [] ==> Slot(mnLookahead, mnAction) in aLookahead)
    }

    constructor ()
      ensures Valid() && packed == map[] && aLookahead == []
    {
      nAction, aAction, aLookahead := 0, [], [];
      mnLookahead, mnAction, mxLookahead := 0, 0, 0;
      packed := map[];
    }

    /** Add an action to the transaction set. */
    method Add(lookahead: int, action: int)
      requires Valid() && lookahead >= 0
      requires forall j | 0 <= j < |aLookahead| :: aLookahead[j].lookahead != lookahead
      modifies `aLookahead, `mnLookahead, `mnAction, `mxLookahead
      ensures Valid() && aLookahead == old(aLookahead) + [Slot(lookahead, action)]
    {
      if aLookahead == [] {
        mxLookahead := lookahead;
        mnLookahead := lookahead;
        mnAction := action;
      } else {
        if mxLookahead < lookahead { mxLookahead := lookahead; }
        if mnLookahead > lookahead {
          mnLookahead := lookahead;
          mnAction := action;
        }
      }
      aLookahead := aLookahead + [Slot(lookahead, action)];
      assert aLookahead[|aLookahead| - 1] == Slot(lookahead, action);
      assert forall x | x in old(aLookahead) :: x in aLookahead;
    }

    /** Would the set fall on unused slots when its least lookahead goes to slot i, at an offset
        under which nothing is found yet? */
    method FitsAt(i: nat, ghost o: int) returns (fits: bool)
      requires Valid() && o == i - mnLookahead && nAction + mxLookahead < |aAction| && i <= nAction + mnLookahead
      ensures fits ==> forall j | 0 <= j < |aLookahead| :: FreeAt(aAction, aLookahead, o, j)
      ensures fits ==> Owned(aAction, nAction, o) == {}
    {
      for j := 0 to |aLookahead|
        invariant forall j' | 0 <= j' < j :: FreeAt(aAction, aLookahead, o, j')
      {
        var k := aLookahead[j].lookahead - mnLookahead + i;
        if aAction[k].lookahead >= 0 { return false; }
        assert FreeAt(aAction, aLookahead, o, j);
      }
      assert Owned(aAction, 0, o) == {};
      for j := 0 to nAction
        invariant Owned(aAction, j, o) == {}
      {
        if aAction[j].lookahead == j + mnLookahead - i { return false; }
        assert !Mine(aAction, o, j);
      }
      return true;
    }

    /** Is the set already in place with its least lookahead in slot i, with nothing else found
        under the same offset? */
    method SameAt(i: nat, ghost o: int) returns (same: bool)
      requires Valid() && o == i - mnLookahead
      ensures same ==> forall j | 0 <= j < |aLookahead| :: PlacedAt(aAction, nAction, aLookahead, o, j)
      ensures same ==> |Owned(aAction, nAction, o)| == |aLookahead|
    {
      for j := 0 to |aLookahead|
        invariant forall j' | 0 <= j' < j :: PlacedAt(aAction, nAction, aLookahead, o, j')
      {
        var k := aLookahead[j].lookahead - mnLookahead + i;
        if k < 0 || k >= nAction { return false; }
        if aLookahead[j].lookahead != aAction[k].lookahead { return false; }
        if aLookahead[j].action != aAction[k].action { return false; }
        assert PlacedAt(aAction, nAction, aLookahead, o, j);
      }
      var n := 0;
      assert Owned(aAction, 0, o) == {};
      for j := 0 to nAction
        invariant n == |Owned(aAction, j, o)|
      {
        OwnedStep(aAction, j, o);
        if aAction[j].lookahead >= 0 {
          if aAction[j].lookahead == j + mnLookahead - i { n := n + 1; }
        }
      }
      return n == |aLookahead|;
    }

    /** Make room for the worst case, in which the set is appended. */
    method Reserve()
      requires Valid() && aLookahead != []
      modifies `aAction
      ensures Valid() && nAction + mxLookahead + 1 < |aAction|
    {
      var n := mxLookahead + 1;
      if nAction + n >= |aAction| {
        aAction := aAction + seq(nAction + n + 20, _ => EMPTY);
        forall j | 0 <= j < nAction && aAction[j].lookahead >= 0
          ensures Claims(aAction, packed, j)
        {
          assert Claims(old(aAction), packed, j);
        }
        forall o, la | o in packed && la in packed[o]
          ensures Holds(aAction, nAction, o, la, packed[o][la])
        {
          assert Holds(old(aAction), nAction, o, la, packed[o][la]);
        }
      }
    }

    /** Slot i where the scan stops: the set fits there, or is there already, or i is past every
        used slot. */
    method FindSlot() returns (i: nat, again: bool, ghost o: int)
      requires Valid() && aLookahead != [] && nAction + mxLookahead + 1 < |aAction|
      ensures i <= nAction + mnLookahead && o == i - mnLookahead
      ensures Lands(aAction, nAction, aLookahead, o, again)
    {
      i, again, o := 0, false, -mnLookahead;
      while i < nAction + mnLookahead
        invariant i <= nAction + mnLookahead && o == i - mnLookahead
      {
        if aAction[i].lookahead < 0 {
          again := false;
          var fits := FitsAt(i, o);
          if fits { return; }
        } else if aAction[i].lookahead == mnLookahead && aAction[i].action == mnAction {
          again := SameAt(i, o);
          if again { return; }
        }
        i, o := i + 1, o + 1;
      }
      again := false;
      NobodyPastEnd(aAction, nAction, o);
    }

    /** Write the transaction set at offset o. */
    method Write(o: int)
      requires Valid() && forall j | 0 <= j < |aLookahead| :: 0 <= aLookahead[j].lookahead + o < |aAction|
      modifies `aAction, `nAction
      ensures Written(old(aAction), SetOf(aLookahead), o, aAction)
      ensures old(nAction) <= nAction <= |aAction|
      ensures forall j | 0 <= j < |aLookahead| :: aLookahead[j].lookahead + o < nAction
      ensures (forall j | 0 <= j < |aLookahead| :: aLookahead[j].lookahead + o < old(nAction)) ==>
        nAction == old(nAction)
    {
      var tx := aLookahead;
      for j := 0 to |tx|
        invariant Written(old(aAction), SetOf(tx[..j]), o, aAction)
        invariant old(nAction) <= nAction <= |aAction|
        invariant forall j' | 0 <= j' < j :: tx[j'].lookahead + o < nAction
        invariant (forall j' | 0 <= j' < |tx| :: tx[j'].lookahead + o < old(nAction)) ==> nAction == old(nAction)
      {
        var k := tx[j].lookahead + o;
        aAction := aAction[k := tx[j]];
        if k >= nAction { nAction := k + 1; }
        assert tx[..j + 1][..j] == tx[..j];
      }
      assert tx[..|tx|] == tx;
    }

    /** Lay the transaction set into the table, start a new one, and return the offset under which
        the set is found from now on. */
    method Insert() returns (offset: int)
      requires Valid() && aLookahead != []
      modifies this
      ensures Valid() && aLookahead == []
      ensures packed == old(packed)[offset := SetOf(old(aLookahead))]
      ensures offset in old(packed) ==> old(packed)[offset] == SetOf(old(aLookahead))
      ensures offset >= -old(mnLookahead)
    {
      Reserve();
      ghost var o: int;
      var i, again;
      i, again, o := FindSlot();
      offset := i - mnLookahead;
      ghost var slots, n, tx := aAction, nAction, aLookahead;
      PlacesInRange(slots, n, tx, o, again);
      Write(offset);
      InsertKeeps(slots, n, packed, tx, o, again, aAction, nAction);
      packed := packed[offset := SetOf(tx)];
      aLookahead := [];
    }
  }

  lemma PlacesInRange(slots: seq<Slot>, n: nat, tx: seq<Slot>, o: int, again: bool)
    requires Lands(slots, n, tx, o, again)
    ensures forall j | 0 <= j < |tx| :: 0 <= tx[j].lookahead + o < if again then n else |slots|
  {
    forall j | 0 <= j < |tx|
      ensures 0 <= tx[j].lookahead + o < if again then n else |slots|
    {
      assert if again then PlacedAt(slots, n, tx, o, j) else FreeAt(slots, tx, o, j);
    }
  }

  /** Writing the set where the scan stopped keeps every set. */
  lemma InsertKeeps(slots: seq<Slot>, n: nat, packed: map<int, map<int, int>>, tx: seq<Slot>, o: int, again: bool,
                    slots': seq<Slot>, n': nat)
    requires Packs(slots, n, packed) && Distinct(tx) && tx != []
    requires forall j | 0 <= j < |tx| :: tx[j].lookahead >= 0 && tx[j].lookahead + o < n'
    requires Lands(slots, n, tx, o, again) && (again ==> n' == n)
    requires Written(slots, SetOf(tx), o, slots') && n <= n' <= |slots|
    ensures Packs(slots', n', packed[o := SetOf(tx)])
    ensures o in packed ==> packed[o] == SetOf(tx)
  {
    SetOfEntries(tx);
    assert tx[0].lookahead in SetOf(tx);
    if again {
      SetIsPlaced(slots, n, tx, o);
      SetOfSize(tx);
      PackAgain(slots, n, packed, SetOf(tx), o);
      WrittenAgain(slots, n, SetOf(tx), o, slots');
      assert packed[o := SetOf(tx)] == packed;
    } else {
      SetHasRoom(slots, n, tx, o, n');
      PackNew(slots, n, packed, SetOf(tx), o, slots', n');
    }
  }

  lemma SetIsPlaced(slots: seq<Slot>, n: nat, tx: seq<Slot>, o: int)
    requires n <= |slots| && Distinct(tx) && forall j | 0 <= j < |tx| :: tx[j].lookahead >= 0
    requires forall j | 0 <= j < |tx| :: PlacedAt(slots, n, tx, o, j)
    ensures forall la | la in SetOf(tx) :: Holds(slots, n, o, la, SetOf(tx)[la])
  {
    SetOfEntries(tx);
    forall la | la in SetOf(tx)
      ensures Holds(slots, n, o, la, SetOf(tx)[la])
    {
      var j :| 0 <= j < |tx| && tx[j].lookahead == la;
      assert PlacedAt(slots, n, tx, o, j);
    }
  }

  lemma SetHasRoom(slots: seq<Slot>, n: nat, tx: seq<Slot>, o: int, n': nat)
    requires n <= n' <= |slots| && Owned(slots, n, o) == {} && forall j | 0 <= j < |tx| :: tx[j].lookahead >= 0
    requires forall j | 0 <= j < |tx| :: FreeAt(slots, tx, o, j)
    requires forall j | 0 <= j < |tx| :: tx[j].lookahead + o < n'
    ensures Room(slots, n, SetOf(tx), o, n')
  {
    SetOfEntries(tx);
    forall la | la in SetOf(tx)
      ensures la >= 0 && 0 <= la + o < n' && slots[la + o].lookahead < 0
    {
      var j :| 0 <= j < |tx| && tx[j].lookahead == la;
      assert FreeAt(slots, tx, o, j);
    }
  }

  /** Writing a set over itself changes nothing. */
  lemma WrittenAgain(slots: seq<Slot>, n: nat, m: map<int, int>, o: int, slots': seq<Slot>)
    requires n <= |slots| && Written(slots, m, o, slots')
    requires forall la | la in m :: Holds(slots, n, o, la, m[la])
    ensures slots' == slots
  {
    forall j | 0 <= j < |slots|
      ensures slots'[j] == slots[j]
    {
      if j - o in m { assert Holds(slots, n, o, j - o, m[j - o]); }
    }
  }

  lemma OwnedStep(slots: seq<Slot>, n: nat, o: int)
    requires n < |slots|
    ensures |Owned(slots, n + 1, o)| == |Owned(slots, n, o)| + if Mine(slots, o, n) then 1 else 0
  {
    assert Owned(slots, n + 1, o) == Owned(slots, n, o) + if Mine(slots, o, n) then {n as int} else {};
  }

  lemma NobodyPastEnd(slots: seq<Slot>, n: nat, o: int)
    requires n <= o && n <= |slots|
    ensures Owned(slots, n, o) == {}
  {
    forall j | 0 <= j < n
      ensures !Mine(slots, o, j)
    {}
  }
}
