/** The part of the generator that turns the action lists of the states into the tables of the
    parser (src/lemon.c, ReportTable). */
module ReportTables {
  import opened Actions
  import opened ActionTable
  import ParseTables

  const NO_OFFSET := -2147483647

  /** The two transaction sets of a state: on terminals and on nonterminals. */
  predicate InSet(z: Sizes, sp: nat, isTkn: bool) {
    if isTkn then sp < z.nterminal else z.nterminal <= sp < z.nsymbol
  }

  predicate Chosen(z: Sizes, a: Action, isTkn: bool) {
    Live(a) && InSet(z, a.sp, isTkn)
  }

  /** The entries handed to the action table for one transaction set of a state. */
  function Entries(z: Sizes, acts: seq<Action>, isTkn: bool): seq<Slot> {
    if acts == [] then []
    else
      var last := acts[|acts| - 1];
      Entries(z, acts[..|acts| - 1], isTkn)
        + if Chosen(z, last, isTkn) then [Slot(last.sp, ComputeAction(z, last))] else []
  }

  /** The actions name symbols, states and rules there are. */
  ghost predicate Listed(z: Sizes, acts: seq<Action>) {
    forall a | a in acts :: a.sp <= z.nsymbol && Numbered(z, a)
  }

  /** The action lists the generator arrives at. */
  ghost predicate WellFormed(z: Sizes, lists: seq<seq<Action>>) {
    && |lists| == z.nstate && z.nterminal <= z.nsymbol < 0x7FFF_FFFF
    && (forall s | 0 <= s < |lists| :: Settled(lists[s]))
    && (forall s | 0 <= s < |lists| :: Listed(z, lists[s]))
  }

  /** Set i of the two per state, as ax[] has them before it is sorted. */
  function SetEntries(z: Sizes, lists: seq<seq<Action>>, i: nat): seq<Slot>
    requires i < 2 * |lists|
  {
    Entries(z, lists[i / 2], i % 2 == 0)
  }

  /** An order that qsort may leave ax[] in: each set once, larger sets first. */
  ghost predicate LargestFirst(z: Sizes, lists: seq<seq<Action>>, order: seq<nat>) {
    && |order| == 2 * |lists|
    && (forall k | 0 <= k < |order| :: order[k] < 2 * |lists|)
    && (forall i | 0 <= i < 2 * |lists| :: i in order)
    && (forall k, l | 0 <= k < l < |order| :: order[k] != order[l])
    && (forall k, l | 0 <= k < l < |order| :: |SetEntries(z, lists, order[k])| >= |SetEntries(z, lists, order[l])|)
  }

  lemma {:induction false} EntriesMean(z: Sizes, acts: seq<Action>, isTkn: bool, la: nat)
    ensures la in SetOf(Entries(z, acts, isTkn)) <==> InSet(z, la, isTkn) && Found(acts, la).Some?
    ensures la in SetOf(Entries(z, acts, isTkn)) ==>
              SetOf(Entries(z, acts, isTkn))[la] == ComputeAction(z, Found(acts, la).value)
    ensures la in SetOf(Entries(z, acts, isTkn)) && Listed(z, acts) ==>
      var act := SetOf(Entries(z, acts, isTkn))[la];
      act >= 0 && ParseTables.DeedIn(z.nstate, z.nrule, act) == DeedOf(Found(acts, la).value)
  {
    if acts != [] {
      var rest, last := acts[..|acts| - 1], acts[|acts| - 1];
      EntriesMean(z, rest, isTkn, la);
      var e, slot := Entries(z, rest, isTkn), Slot(last.sp, ComputeAction(z, last));
      assert (e + [slot])[..|e|] == e;
      assert e + [] == e;
      if Live(last) && Listed(z, acts) { ActionRead(z, last); }
    }
  }

  lemma {:induction false} EntriesFrom(z: Sizes, acts: seq<Action>, isTkn: bool)
    ensures forall e | e in Entries(z, acts, isTkn) :: e.lookahead >= 0 && InSet(z, e.lookahead, isTkn) && e.action >= 0
    ensures forall e | e in Entries(z, acts, isTkn) :: exists i | 0 <= i < |acts| ::
      Live(acts[i]) && acts[i].sp == e.lookahead
  {
    if acts != [] {
      var rest, last := acts[..|acts| - 1], |acts| - 1;
      EntriesFrom(z, rest, isTkn);
      forall e | e in Entries(z, acts, isTkn)
        ensures e.lookahead >= 0 && InSet(z, e.lookahead, isTkn) && e.action >= 0
        ensures exists i | 0 <= i < |acts| :: Live(acts[i]) && acts[i].sp == e.lookahead
      {
        if e in Entries(z, rest, isTkn) {
          var i :| 0 <= i < |rest| && Live(rest[i]) && rest[i].sp == e.lookahead;
          assert Live(acts[i]) && acts[i].sp == e.lookahead;
        } else {
          assert Live(acts[last]) && acts[last].sp == e.lookahead;
        }
      }
    }
  }

  /** The offset noted for set x: that of the terminals of state x / 2, or of its nonterminals. */
  function OffsetOf(tkn: seq<int>, nt: seq<int>, x: nat): int
    requires x < 2 * |tkn| && |tkn| == |nt|
  {
    if x % 2 == 0 then tkn[x / 2] else nt[x / 2]
  }

  /** Set x can be found in the table under the offset noted for it. */
  ghost predicate Laid(z: Sizes, lists: seq<seq<Action>>, packed: map<int, map<int, int>>, tkn: seq<int>, nt: seq<int>,
                       x: nat)
    requires x < 2 * |lists| && |tkn| == |nt| == |lists|
  {
    var o := OffsetOf(tkn, nt, x);
    o > NO_OFFSET && o in packed && packed[o] == SetOf(SetEntries(z, lists, x))
  }

  /** The sets in done have been laid into the table, the others have no offset yet. */
  ghost predicate LaidSoFar(z: Sizes, lists: seq<seq<Action>>, packed: map<int, map<int, int>>, tkn: seq<int>,
                            nt: seq<int>, done: seq<nat>) {
    && |tkn| == |nt| == |lists|
    && (forall x {:trigger Laid(z, lists, packed, tkn, nt, x)} | 0 <= x < 2 * |lists| && x in done ::
      Laid(z, lists, packed, tkn, nt, x))
    && (forall x {:trigger OffsetOf(tkn, nt, x)} | 0 <= x < 2 * |lists| && x !in done ::
      OffsetOf(tkn, nt, x) == NO_OFFSET)
  }

  /** A new set leaves the earlier ones where they are. */
  lemma LaidMore(z: Sizes, lists: seq<seq<Action>>, packed: map<int, map<int, int>>, tkn: seq<int>, nt: seq<int>,
                 done: seq<nat>, x: nat, o: int, tkn': seq<int>, nt': seq<int>)
    requires LaidSoFar(z, lists, packed, tkn, nt, done) && x < 2 * |lists| && x !in done && o > NO_OFFSET
    requires o in packed ==> packed[o] == SetOf(SetEntries(z, lists, x))
    requires if x % 2 == 0 then tkn' == tkn[x / 2 := o] && nt' == nt else tkn' == tkn && nt' == nt[x / 2 := o]
    ensures LaidSoFar(z, lists, packed[o := SetOf(SetEntries(z, lists, x))], tkn', nt', done + [x])
  {
    var packed' := packed[o := SetOf(SetEntries(z, lists, x))];
    forall y | 0 <= y < 2 * |lists| && y in done + [x]
      ensures Laid(z, lists, packed', tkn', nt', y)
    {
      if y != x {
        assert Laid(z, lists, packed, tkn, nt, y);
        assert OffsetOf(tkn', nt', y) == OffsetOf(tkn, nt, y);
      }
    }
    forall y | 0 <= y < 2 * |lists| && y !in done + [x]
      ensures OffsetOf(tkn', nt', y) == NO_OFFSET
    {
      assert OffsetOf(tkn, nt, y) == NO_OFFSET;
    }
  }

  lemma NotYet(z: Sizes, acts: seq<Action>, i: nat, isTkn: bool)
    requires i < |acts| && Settled(acts) && Live(acts[i])
    ensures forall e | e in Entries(z, acts[..i], isTkn) :: e.lookahead != acts[i].sp
  {
    EntriesFrom(z, acts[..i], isTkn);
  }

  /** Build the transaction set of a state from its action list. */
  method BuildSet(tab: ActTab, z: Sizes, acts: seq<Action>, isTkn: bool)
    requires tab.Valid() && tab.aLookahead == [] && Settled(acts)
    modifies tab`aLookahead, tab`mnLookahead, tab`mnAction, tab`mxLookahead
    ensures tab.Valid() && tab.aLookahead == Entries(z, acts, isTkn)
  {
    for i := 0 to |acts|
      invariant tab.Valid() && tab.aLookahead == Entries(z, acts[..i], isTkn)
    {
      var a := acts[i];
      assert acts[..i + 1][..i] == acts[..i];
      if InSet(z, a.sp, isTkn) {
        var action := ComputeAction(z, a);
        if action >= 0 {
          NotYet(z, acts, i, isTkn);
          tab.Add(a.sp, action);
        }
      }
    }
    assert acts[..|acts|] == acts;
  }

  /** The number of actions in one transaction set of a state. */
  method CountSet(z: Sizes, acts: seq<Action>, isTkn: bool) returns (n: nat)
    ensures n == |Entries(z, acts, isTkn)|
  {
    n := 0;
    for i := 0 to |acts|
      invariant n == |Entries(z, acts[..i], isTkn)|
    {
      assert acts[..i + 1][..i] == acts[..i];
      if ComputeAction(z, acts[i]) >= 0 && InSet(z, acts[i].sp, isTkn) { n := n + 1; }
    }
    assert acts[..|acts|] == acts;
  }

  /** The default action of a state: the last live action on {default} in its list. */
  method FindDefault(z: Sizes, acts: seq<Action>) returns (dflt: nat)
    requires Listed(z, acts)
    ensures ParseTables.DeedIn(z.nstate, z.nrule, dflt) == Default(z, acts)
  {
    dflt := z.nstate + z.nrule;
    for i := 0 to |acts|
      invariant ParseTables.DeedIn(z.nstate, z.nrule, dflt) == Default(z, acts[..i])
    {
      assert acts[..i + 1][..i] == acts[..i];
      if Live(acts[i]) { ActionRead(z, acts[i]); }
      if ComputeAction(z, acts[i]) >= 0 && acts[i].sp == z.nsymbol { dflt := ComputeAction(z, acts[i]); }
    }
    assert acts[..|acts|] == acts;
  }

  lemma LeastInRange(z: Sizes, acts: seq<Action>, isTkn: bool, least: Slot)
    requires least in Entries(z, acts, isTkn) && z.nterminal <= z.nsymbol
    ensures 0 <= least.lookahead < z.nsymbol
  {
    EntriesFrom(z, acts, isTkn);
  }

  /** Offsets noted for a terminal set are at least mnTkn, those for a nonterminal set at least mnNt. */
  predicate AboveLeast(tkn: seq<int>, nt: seq<int>, mnTkn: int, mnNt: int, x: nat)
    requires x < 2 * |tkn| && |tkn| == |nt|
  {
    OffsetOf(tkn, nt, x) >= if x % 2 == 0 then mnTkn else mnNt
  }

  /** What packing leaves behind for set x. */
  ghost predicate SetDone(z: Sizes, lists: seq<seq<Action>>, packed: map<int, map<int, int>>, tkn: seq<int>,
                          nt: seq<int>, mnTkn: int, mnNt: int, x: nat)
    requires x < 2 * |lists| && |tkn| == |nt| == |lists|
  {
    if SetEntries(z, lists, x) == [] then OffsetOf(tkn, nt, x) == NO_OFFSET
    else Laid(z, lists, packed, tkn, nt, x) && AboveLeast(tkn, nt, mnTkn, mnNt, x)
  }

  lemma LeastKept(order: seq<nat>, i: nat, tkn: seq<int>, nt: seq<int>, mnTkn: int, mnNt: int, o: int, tkn': seq<int>,
                  nt': seq<int>, mnTkn': int, mnNt': int)
    requires i < |order| && |tkn| == |nt| && forall k | 0 <= k <= i :: order[k] < 2 * |tkn|
    requires forall k | 0 <= k < i :: order[k] != order[i] && AboveLeast(tkn, nt, mnTkn, mnNt, order[k])
    requires if order[i] % 2 == 0 then tkn' == tkn[order[i] / 2 := o] && nt' == nt
      else tkn' == tkn && nt' == nt[order[i] / 2 := o]
    requires mnTkn' == if order[i] % 2 == 0 && o < mnTkn then o else mnTkn
    requires mnNt' == if order[i] % 2 != 0 && o < mnNt then o else mnNt
    ensures forall k | 0 <= k <= i :: AboveLeast(tkn', nt', mnTkn', mnNt', order[k])
  {
    forall k | 0 <= k < i
      ensures AboveLeast(tkn', nt', mnTkn', mnNt', order[k])
    {
      assert AboveLeast(tkn, nt, mnTkn, mnNt, order[k]);
    }
  }

  /** Where packing stands after the first i sets of the order. */
  ghost predicate Progress(z: Sizes, lists: seq<seq<Action>>, order: seq<nat>, i: nat, packed: map<int, map<int, int>>,
                           tkn: seq<int>, nt: seq<int>, mnTkn: int, mnNt: int)
    requires i <= |order| && forall k | 0 <= k < |order| :: order[k] < 2 * |lists|
  {
    && mnTkn <= 0 && mnNt <= 0
    && LaidSoFar(z, lists, packed, tkn, nt, order[..i])
    && forall k | 0 <= k < i :: SetEntries(z, lists, order[k]) != [] && AboveLeast(tkn, nt, mnTkn, mnNt, order[k])
  }

  lemma ProgressStep(z: Sizes, lists: seq<seq<Action>>, order: seq<nat>, i: nat, packed: map<int, map<int, int>>,
                     tkn: seq<int>, nt: seq<int>, mnTkn: int, mnNt: int, o: int, tkn': seq<int>, nt': seq<int>,
                     mnTkn': int, mnNt': int)
    requires LargestFirst(z, lists, order) && i < |order| && SetEntries(z, lists, order[i]) != []
    requires Progress(z, lists, order, i, packed, tkn, nt, mnTkn, mnNt) && o > NO_OFFSET
    requires o in packed ==> packed[o] == SetOf(SetEntries(z, lists, order[i]))
    requires if order[i] % 2 == 0 then tkn' == tkn[order[i] / 2 := o] && nt' == nt
      else tkn' == tkn && nt' == nt[order[i] / 2 := o]
    requires mnTkn' == if order[i] % 2 == 0 && o < mnTkn then o else mnTkn
    requires mnNt' == if order[i] % 2 != 0 && o < mnNt then o else mnNt
    ensures Progress(z, lists, order, i + 1, packed[o := SetOf(SetEntries(z, lists, order[i]))],
      tkn', nt', mnTkn', mnNt')
  {
    LaidMore(z, lists, packed, tkn, nt, order[..i], order[i], o, tkn', nt');
    assert order[..i + 1] == order[..i] + [order[i]];
    LeastKept(order, i, tkn, nt, mnTkn, mnNt, o, tkn', nt', mnTkn', mnNt');
  }

  /** Stopping at the first empty set misses nothing, because larger sets come first. */
  lemma AllDone(z: Sizes, lists: seq<seq<Action>>, order: seq<nat>, i: nat, packed: map<int, map<int, int>>,
                tkn: seq<int>, nt: seq<int>, mnTkn: int, mnNt: int, x: nat)
    requires LargestFirst(z, lists, order) && i <= |order| && x < 2 * |lists|
    requires i < |order| ==> |SetEntries(z, lists, order[i])| == 0
    requires Progress(z, lists, order, i, packed, tkn, nt, mnTkn, mnNt)
    ensures SetDone(z, lists, packed, tkn, nt, mnTkn, mnNt, x)
  {
    assert x in order;
    var k :| 0 <= k < |order| && order[k] == x;
    if k < i {
      assert order[..i][k] == x;
      assert Laid(z, lists, packed, tkn, nt, x);
    } else {
      assert |SetEntries(z, lists, order[k])| == 0;
      assert x !in order[..i];
      assert OffsetOf(tkn, nt, x) == NO_OFFSET;
    }
  }

  /** The sizes of the transaction sets, in the order in which they will be laid. */
  method CountSets(z: Sizes, lists: seq<seq<Action>>, order: seq<nat>) returns (ax: seq<nat>)
    requires LargestFirst(z, lists, order)
    ensures |ax| == |order| && forall k | 0 <= k < |order| :: ax[k] == |SetEntries(z, lists, order[k])|
  {
    ax := [];
    for i := 0 to |order|
      invariant |ax| == i && forall k | 0 <= k < i :: ax[k] == |SetEntries(z, lists, order[k])|
    {
      var n := CountSet(z, lists[order[i] / 2], order[i] % 2 == 0);
      ax := ax + [n];
    }
  }

  /** Lay transaction set x into the table. */
  method PackOne(tab: ActTab, z: Sizes, lists: seq<seq<Action>>, x: nat) returns (o: int)
    requires WellFormed(z, lists) && x < 2 * |lists| && SetEntries(z, lists, x) != []
    requires tab.Valid() && tab.aLookahead == []
    modifies tab
    ensures tab.Valid() && tab.aLookahead == [] && o > NO_OFFSET
    ensures tab.packed == old(tab.packed)[o := SetOf(SetEntries(z, lists, x))]
    ensures o in old(tab.packed) ==> old(tab.packed)[o] == SetOf(SetEntries(z, lists, x))
  {
    BuildSet(tab, z, lists[x / 2], x % 2 == 0);
    LeastInRange(z, lists[x / 2], x % 2 == 0, Slot(tab.mnLookahead, tab.mnAction));
    o := tab.Insert();
  }

  /** Lay all transaction sets that are not empty into the action table. */
  method PackSets(z: Sizes, lists: seq<seq<Action>>, order: seq<nat>)
    returns (tab: ActTab, tkn: seq<int>, nt: seq<int>, mnTkn: int, mnNt: int)
    requires WellFormed(z, lists) && LargestFirst(z, lists, order)
    ensures fresh(tab) && tab.Valid() && |tkn| == |nt| == |lists| && mnTkn <= 0 && mnNt <= 0
    ensures forall x | 0 <= x < 2 * |lists| :: SetDone(z, lists, tab.packed, tkn, nt, mnTkn, mnNt, x)
  {
    var ax := CountSets(z, lists, order);
    tab := new ActTab();
    tkn, nt, mnTkn, mnNt := seq(z.nstate, _ => NO_OFFSET), seq(z.nstate, _ => NO_OFFSET), 0, 0;
    var i := 0;
    while i < |order| && ax[i] > 0
      invariant 0 <= i <= |order| && tab.Valid() && tab.aLookahead == [] && fresh(tab)
      invariant |tkn| == |nt| == |lists| && Progress(z, lists, order, i, tab.packed, tkn, nt, mnTkn, mnNt)
    {
      var x := order[i];
      ghost var packed, was, wasNt, least, leastNt := tab.packed, tkn, nt, mnTkn, mnNt;
      var o := PackOne(tab, z, lists, x);
      if x % 2 == 0 {
        tkn := tkn[x / 2 := o];
        if o < mnTkn { mnTkn := o; }
      } else {
        nt := nt[x / 2 := o];
        if o < mnNt { mnNt := o; }
      }
      ProgressStep(z, lists, order, i, packed, was, wasNt, least, leastNt, o, tkn, nt, mnTkn, mnNt);
      i := i + 1;
    }
    forall x | 0 <= x < 2 * |lists|
      ensures SetDone(z, lists, tab.packed, tkn, nt, mnTkn, mnNt, x)
    {
      AllDone(z, lists, order, i, tab.packed, tkn, nt, mnTkn, mnNt, x);
    }
  }

  /** A slot as printed into yy_action. */
  function EmitAction(z: Sizes, slot: Slot): nat {
    if slot.action < 0 then z.nsymbol + z.nrule + 2 else slot.action
  }

  /** A slot as printed into yy_lookahead; an unused slot names the symbol {default}, which is never
      looked up. */
  function EmitLookahead(z: Sizes, slot: Slot): nat {
    if slot.lookahead < 0 then z.nsymbol else slot.lookahead
  }

  /** An offset as printed into yy_shift_ofst or yy_reduce_ofst. */
  function EmitOffset(mn: int, ofst: int): int {
    if ofst == NO_OFFSET then mn - 1 else ofst
  }

  /** t carries the packed table and the offsets of the states. */
  ghost predicate Emitted(z: Sizes, lists: seq<seq<Action>>, tab: seq<Slot>, tkn: seq<int>, nt: seq<int>, mnTkn: int,
                          mnNt: int, t: ParseTables.Tables) {
    && t.Shaped() && t.nstate == |lists| == |tkn| == |nt| && t.noCode == z.nsymbol + 1 && |t.action| == |tab|
    && (forall i | 0 <= i < |tab| :: t.action[i] == EmitAction(z, tab[i]) && t.lookahead[i] == EmitLookahead(z, tab[i]))
    && (forall s | 0 <= s < |lists| :: t.shiftOfst[s] == EmitOffset(mnTkn, tkn[s]))
    && (forall s | 0 <= s < |lists| :: t.reduceOfst[s] == EmitOffset(mnNt, nt[s]))
    && t.shiftUseDflt == mnTkn - 1 && t.reduceUseDflt == mnNt - 1
    && t.nstate == z.nstate && t.nrule == z.nrule
    && (forall s | 0 <= s < |lists| :: ParseTables.DeedIn(z.nstate, z.nrule, t.dflt[s]) == Default(z, lists[s]))
  }

  /** Reading the emitted table at the offset of a set of state s gives what the state does. */
  lemma FetchMeans(z: Sizes, acts: seq<Action>, isTkn: bool, tab: seq<Slot>, packed: map<int, map<int, int>>, o: int,
                   t: ParseTables.Tables, dflt: nat, la: nat)
    requires Listed(z, acts) && ParseTables.DeedIn(z.nstate, z.nrule, dflt) == Default(z, acts)
    requires Packs(tab, |tab|, packed) && o in packed && packed[o] == SetOf(Entries(z, acts, isTkn))
    requires t.Shaped() && |t.action| == |tab| && la < z.nsymbol && InSet(z, la, isTkn)
    requires forall i | 0 <= i < |tab| ::
      t.action[i] == EmitAction(z, tab[i]) && t.lookahead[i] == EmitLookahead(z, tab[i])
    ensures ParseTables.DeedIn(z.nstate, z.nrule, ParseTables.Fetch(t, o, la, dflt)) == Meaning(z, acts, la)
  {
    EntriesMean(z, acts, isTkn, la);
    LookupExact(tab, |tab|, packed, o, la);
  }

  /** A set without entries has no live action on any of its symbols. */
  lemma EmptySetMeans(z: Sizes, acts: seq<Action>, isTkn: bool, la: nat)
    requires Entries(z, acts, isTkn) == [] && InSet(z, la, isTkn)
    ensures Meaning(z, acts, la) == Default(z, acts)
  {
    EntriesMean(z, acts, isTkn, la);
  }

  lemma ShiftMeans(z: Sizes, lists: seq<seq<Action>>, tab: seq<Slot>, packed: map<int, map<int, int>>, tkn: seq<int>,
                   nt: seq<int>, mnTkn: int, mnNt: int, t: ParseTables.Tables, s: nat, la: nat)
    requires WellFormed(z, lists) && Emitted(z, lists, tab, tkn, nt, mnTkn, mnNt, t) && s < |lists| && la < z.nterminal
    requires Packs(tab, |tab|, packed) && SetDone(z, lists, packed, tkn, nt, mnTkn, mnNt, 2 * s)
    ensures ParseTables.DeedOn(t, s, z.nterminal, la) == Meaning(z, lists[s], la)
  {
    assert OffsetOf(tkn, nt, 2 * s) == tkn[s];
    if SetEntries(z, lists, 2 * s) == [] {
      EmptySetMeans(z, lists[s], true, la);
    } else {
      FetchMeans(z, lists[s], true, tab, packed, tkn[s], t, t.dflt[s], la);
    }
  }

  lemma ReduceMeans(z: Sizes, lists: seq<seq<Action>>, tab: seq<Slot>, packed: map<int, map<int, int>>, tkn: seq<int>,
                    nt: seq<int>, mnTkn: int, mnNt: int, t: ParseTables.Tables, s: nat, la: nat)
    requires WellFormed(z, lists) && Emitted(z, lists, tab, tkn, nt, mnTkn, mnNt, t) && s < |lists|
    requires z.nterminal <= la < z.nsymbol
    requires Packs(tab, |tab|, packed) && SetDone(z, lists, packed, tkn, nt, mnTkn, mnNt, 2 * s + 1)
    ensures ParseTables.DeedOn(t, s, z.nterminal, la) == Meaning(z, lists[s], la)
  {
    assert OffsetOf(tkn, nt, 2 * s + 1) == nt[s];
    if SetEntries(z, lists, 2 * s + 1) == [] {
      EmptySetMeans(z, lists[s], false, la);
    } else {
      FetchMeans(z, lists[s], false, tab, packed, nt[s], t, t.dflt[s], la);
    }
  }

  /** The parser that reads t does in every state what the action list of the state says. */
  ghost predicate Faithful(z: Sizes, lists: seq<seq<Action>>, t: ParseTables.Tables) {
    && t.Shaped() && t.nstate == |lists| == z.nstate && t.nrule == z.nrule
    && (forall s, la | 0 <= s < |lists| && 0 <= la < z.nsymbol ::
      ParseTables.DeedOn(t, s, z.nterminal, la) == Meaning(z, lists[s], la))
  }

  lemma EmittedFaithful(z: Sizes, lists: seq<seq<Action>>, slots: seq<Slot>, n: nat, packed: map<int, map<int, int>>,
                        tkn: seq<int>, nt: seq<int>, mnTkn: int, mnNt: int, t: ParseTables.Tables)
    requires WellFormed(z, lists) && |lists| == |tkn| == |nt|
    requires Packs(slots, n, packed) && Emitted(z, lists, slots[..n], tkn, nt, mnTkn, mnNt, t)
    requires forall x | 0 <= x < 2 * |lists| :: SetDone(z, lists, packed, tkn, nt, mnTkn, mnNt, x)
    ensures Faithful(z, lists, t)
  {
    PacksTrimmed(slots, n, packed);
    forall s, la | 0 <= s < |lists| && 0 <= la < z.nsymbol
      ensures ParseTables.DeedOn(t, s, z.nterminal, la) == Meaning(z, lists[s], la)
    {
      if la < z.nterminal {
        ShiftMeans(z, lists, slots[..n], packed, tkn, nt, mnTkn, mnNt, t, s, la);
      } else {
        ReduceMeans(z, lists, slots[..n], packed, tkn, nt, mnTkn, mnNt, t, s, la);
      }
    }
  }

  /** The spare slots at the end of the table do not matter. */
  lemma PacksTrimmed(slots: seq<Slot>, n: nat, packed: map<int, map<int, int>>)
    requires Packs(slots, n, packed)
    ensures Packs(slots[..n], n, packed)
  {
    forall j | 0 <= j < n && slots[..n][j].lookahead >= 0
      ensures Claims(slots[..n], packed, j)
    {
      assert Claims(slots, packed, j);
    }
    forall o, la | o in packed && la in packed[o]
      ensures Holds(slots[..n], n, o, la, packed[o][la])
    {
      assert Holds(slots, n, o, la, packed[o][la]);
    }
  }

  /** Print the packed table. */
  method EmitSlots(z: Sizes, tab: ActTab) returns (action: seq<nat>, lookahead: seq<nat>)
    requires tab.Valid()
    ensures |action| == |lookahead| == tab.nAction
    ensures forall i | 0 <= i < tab.nAction ::
      action[i] == EmitAction(z, tab.aAction[i]) && lookahead[i] == EmitLookahead(z, tab.aAction[i])
  {
    action, lookahead := [], [];
    for i := 0 to tab.nAction
      invariant |action| == i && forall j | 0 <= j < i :: action[j] == EmitAction(z, tab.aAction[j])
    {
      action := action + [EmitAction(z, tab.aAction[i])];
    }
    for i := 0 to tab.nAction
      invariant |lookahead| == i && forall j | 0 <= j < i :: lookahead[j] == EmitLookahead(z, tab.aAction[j])
    {
      lookahead := lookahead + [EmitLookahead(z, tab.aAction[i])];
    }
  }

  /** Print an offset for each state. */
  method EmitOffsets(mn: int, ofst: seq<int>) returns (out: seq<int>)
    ensures |out| == |ofst| && forall s | 0 <= s < |ofst| :: out[s] == EmitOffset(mn, ofst[s])
  {
    out := [];
    for s := 0 to |ofst|
      invariant |out| == s && forall s' | 0 <= s' < s :: out[s'] == EmitOffset(mn, ofst[s'])
    {
      out := out + [EmitOffset(mn, ofst[s])];
    }
  }

  method EmitDefaults(z: Sizes, lists: seq<seq<Action>>) returns (dflt: seq<nat>)
    requires WellFormed(z, lists)
    ensures |dflt| == |lists|
    ensures forall s | 0 <= s < |lists| :: ParseTables.DeedIn(z.nstate, z.nrule, dflt[s]) == Default(z, lists[s])
  {
    dflt := [];
    for s := 0 to |lists|
      invariant |dflt| == s
      invariant forall s' | 0 <= s' < s :: ParseTables.DeedIn(z.nstate, z.nrule, dflt[s']) == Default(z, lists[s'])
    {
      var d := FindDefault(z, lists[s]);
      dflt := dflt + [d];
    }
  }

  /** Turn the action lists into tables; order is the order qsort left the transaction sets in. */
  method ReportTable(z: Sizes, lists: seq<seq<Action>>, order: seq<nat>, ruleInfo: seq<ParseTables.RuleInfo>,
                     errorSymbol: nat) returns (t: ParseTables.Tables)
    requires WellFormed(z, lists) && LargestFirst(z, lists, order) && |ruleInfo| == z.nrule
    ensures Faithful(z, lists, t)
    ensures t.ruleInfo == ruleInfo && t.noCode == z.nsymbol + 1 && t.errorSymbol == errorSymbol
  {
    var tab, tkn, nt, mnTkn, mnNt := PackSets(z, lists, order);
    var action, lookahead := EmitSlots(z, tab);
    var shiftOfst := EmitOffsets(mnTkn, tkn);
    var reduceOfst := EmitOffsets(mnNt, nt);
    var dflt := EmitDefaults(z, lists);
    t := ParseTables.Tables(z.nstate, z.nrule, z.nsymbol + 1, errorSymbol, action, lookahead,
      shiftOfst, mnTkn - 1, reduceOfst, mnNt - 1, dflt, ruleInfo);
    assert Emitted(z, lists, tab.aAction[..tab.nAction], tkn, nt, mnTkn, mnNt, t);
    EmittedFaithful(z, lists, tab.aAction, tab.nAction, tab.packed, tkn, nt, mnTkn, mnNt, t);
  }
}
