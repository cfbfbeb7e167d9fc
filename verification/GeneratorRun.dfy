/** One run of the generator's back end, from the actions found for the states to the tables
    (src/lemon.c: main, the second half of FindActions, CompressTables, Action_sort, ReportTable). */
module GeneratorRun {
  import opened Actions
  import opened Conflicts
  import opened CompressTables
  import opened MergeSort
  import opened ReportTables
  import opened StableMerge
  import opened TableGenerator
  import ParseTables

  /** The nodes are linked one to the next, up to the end. */
  ghost predicate Chained(nodes: seq<Node<Action>>)
    reads set k | 0 <= k < |nodes| :: nodes[k]
  {
    forall k | 0 <= k < |nodes| :: nodes[k].next == if k + 1 < |nodes| then nodes[k + 1] else null
  }

  method Prepend(act: Action, head: Node?<Action>, ghost nodes: seq<Node<Action>>) returns (node: Node<Action>)
    requires Chained(nodes) && head == if nodes == [] then null else nodes[0]
    ensures fresh(node) && node.val == act && Chained([node] + nodes)
  {
    node := new Node(act);
    node.next := head;
    ghost var all := [node] + nodes;
    forall k | 0 <= k < |all|
      ensures all[k].next == if k + 1 < |all| then all[k + 1] else null
    {
      if k > 0 {
        var n := nodes[k - 1];
        assert all[k] == n && old(allocated(n)) && n != node;
        assert n.next == old(n.next);
        assert old(n.next) == if k < |nodes| then nodes[k] else null;
      } else {
        assert all[0] == node && node.next == head;
        assert nodes != [] ==> all[1] == nodes[0];
      }
    }
    assert Chained(all);
  }

  /** The list Action_add has built, with the actions in this order. */
  method NewList(acts: seq<Action>) returns (head: Node?<Action>, ghost nodes: seq<Node<Action>>)
    ensures Keyed(nodes, acts) && ListOf(nodes, Links(nodes), head, Range(0, |nodes|))
    ensures forall k | 0 <= k < |nodes| :: fresh(nodes[k])
  {
    head, nodes := null, [];
    for i := |acts| downto 0
      invariant Keyed(nodes, acts[i..]) && Chained(nodes) && head == if nodes == [] then null else nodes[0]
      invariant forall k | 0 <= k < |nodes| :: fresh(nodes[k])
    {
      ghost var rest := nodes;
      var node := Prepend(acts[i], head, rest);
      head := node;
      nodes := [node] + rest;
    }
    assert acts[0..] == acts;
    ChainedList(nodes, Links(nodes), head);
  }

  lemma ChainedList(nodes: seq<Node<Action>>, links: seq<Node?<Action>>, head: Node?<Action>)
    requires |links| == |nodes| && head == if nodes == [] then null else nodes[0]
    requires forall k | 0 <= k < |nodes| :: links[k] == if k + 1 < |nodes| then nodes[k + 1] else null
    ensures ListOf(nodes, links, head, Range(0, |nodes|))
  {
    forall k | 0 <= k < |nodes|
      ensures LinkAt(nodes, links, Range(0, |nodes|), k)
    {}
  }

  lemma InOrderConcat(acts: seq<Action>, a: seq<nat>, b: seq<nat>)
    requires Positions(|acts|, a + b)
    ensures forall k | 0 <= k < |a| :: a[k] == (a + b)[k] < |acts|
    ensures forall k | 0 <= k < |b| :: b[k] == (a + b)[|a| + k] < |acts|
    ensures InOrder(acts, a + b) == InOrder(acts, a) + InOrder(acts, b)
  {
    assert forall k | 0 <= k < |a| :: a[k] == (a + b)[k];
    assert forall k | 0 <= k < |b| :: b[k] == (a + b)[|a| + k];
  }

  lemma WithoutOne(a: seq<nat>, x: nat, front: seq<nat>, back: seq<nat>)
    requires multiset(a + [x]) == multiset(front + [x] + back)
    ensures multiset(a) == multiset(front + back)
  {
    assert multiset(a) == multiset(a + [x]) - multiset{x};
    assert multiset(front + back) == multiset(front + [x] + back) - multiset{x};
  }

  lemma InOrderParts(acts: seq<Action>, front: seq<nat>, x: nat, back: seq<nat>)
    requires Positions(|acts|, front) && x < |acts| && Positions(|acts|, back)
    ensures Positions(|acts|, front + [x] + back) && Positions(|acts|, front + back)
    ensures InOrder(acts, front + [x] + back) == InOrder(acts, front) + [acts[x]] + InOrder(acts, back)
    ensures InOrder(acts, front + back) == InOrder(acts, front) + InOrder(acts, back)
  {
    var all := front + [x] + back;
    assert forall k | 0 <= k < |all| ::
      all[k] == if k < |front| then front[k] else if k == |front| then x else back[k - |front| - 1];
    InOrderConcat(acts, front, back);
  }

  lemma OneMore<T>(s: seq<T>, v: T, t: seq<T>)
    ensures multiset(s + [v] + t) == multiset(s + t) + multiset{v}
  {}

  lemma OneInOrder(acts: seq<Action>, front: seq<nat>, x: nat, back: seq<nat>)
    requires Positions(|acts|, front) && x < |acts| && Positions(|acts|, back)
    ensures Positions(|acts|, front + [x] + back) && Positions(|acts|, front + back)
    ensures multiset(InOrder(acts, front + [x] + back)) == multiset(InOrder(acts, front + back)) + multiset{acts[x]}
  {
    InOrderParts(acts, front, x, back);
    OneMore(InOrder(acts, front), acts[x], InOrder(acts, back));
  }

  lemma AllPositions(n: nat, front: seq<nat>, x: nat, back: seq<nat>)
    requires Positions(n, front + [x] + back)
    ensures Positions(n, front) && x < n && Positions(n, back) && Positions(n, front + back)
  {
    var all := front + [x] + back;
    assert forall k | 0 <= k < |front| :: front[k] == all[k];
    assert x == all[|front|];
    assert forall k | 0 <= k < |back| :: back[k] == all[|front| + 1 + k];
  }

  /** Taking one position out of two lists of the same positions. */
  lemma SplitOff(a: seq<nat>, b: seq<nat>) returns (init: seq<nat>, x: nat, front: seq<nat>, back: seq<nat>)
    requires a != [] && multiset(a) == multiset(b)
    ensures a == init + [x] + [] && b == front + [x] + back && |init| < |a|
    ensures multiset(init + []) == multiset(front + back)
  {
    x, init := a[|a| - 1], a[..|a| - 1];
    assert x in multiset(b);
    var k :| 0 <= k < |b| && b[k] == x;
    front, back := b[..k], b[k + 1..];
    Around(b, k);
    assert a == init + [x];
    assert init + [] == init;
    WithoutOne(init, x, front, back);
  }

  /** The same positions in another order list the same actions. */
  lemma {:induction false} InOrderPermuted(acts: seq<Action>, a: seq<nat>, b: seq<nat>)
    requires Positions(|acts|, a) && Positions(|acts|, b) && multiset(a) == multiset(b)
    ensures multiset(InOrder(acts, a)) == multiset(InOrder(acts, b))
    decreases |a|
  {
    if a == [] {
      assert |multiset(b)| == 0;
      assert b == [];
    } else {
      var init, x, front, back := SplitOff(a, b);
      AllPositions(|acts|, init, x, []);
      AllPositions(|acts|, front, x, back);
      InOrderPermuted(acts, init + [], front + back);
      OneInOrder(acts, init, x, []);
      OneInOrder(acts, front, x, back);
    }
  }

  lemma InOrderAll(acts: seq<Action>)
    ensures InOrder(acts, Range(0, |acts|)) == acts
  {}

  lemma SameLength<T>(s: seq<T>, t: seq<T>)
    requires multiset(s) == multiset(t)
    ensures |s| == |t|
  {
    assert |multiset(s)| == |multiset(t)|;
  }

  lemma Around<T>(s: seq<T>, k: nat)
    requires k < |s|
    ensures s == s[..k] + [s[k]] + s[k + 1..]
  {}

  lemma AllInOrder(acts: seq<Action>, out: seq<nat>)
    requires Positions(|acts|, out) && multiset(out) == multiset(Range(0, |acts|))
    ensures multiset(InOrder(acts, out)) == multiset(acts) && |InOrder(acts, out)| == |acts|
  {
    InOrderPermuted(acts, out, Range(0, |acts|));
    InOrderAll(acts);
    SameLength(InOrder(acts, out), acts);
  }

  /** Action_sort: the actions of a list, sorted. msort keeps them all as long as there are fewer than
      2^30. */
  method ActionSort(acts: seq<Action>) returns (sorted: seq<Action>)
    requires |acts| < Pow2(LISTSIZE)
    ensures Sorted(sorted) && multiset(sorted) == multiset(acts) && |sorted| == |acts|
  {
    var list, nodes := NewList(acts);
    ActionCmpTotal();
    var head, out := MSort(ActionCmp, list, nodes, acts);
    ActionSortSorted(acts, out);
    AllInOrder(acts, out);
    sorted := ReadOff(head, nodes, acts, out);
  }

  method ReadOff(head: Node?<Action>, ghost nodes: seq<Node<Action>>, ghost acts: seq<Action>, ghost out: seq<nat>)
    returns (r: seq<Action>)
    requires Keyed(nodes, acts) && ListOf(nodes, Links(nodes), head, out)
    ensures r == InOrder(acts, out)
  {
    r := [];
    var node := head;
    ghost var k := 0;
    while node != null
      invariant k <= |out| && node == At(nodes, out, k) && |r| == k
      invariant forall l | 0 <= l < k :: r[l] == acts[out[l]]
      decreases |out| - k
    {
      assert LinkAt(nodes, Links(nodes), out, k);
      r := r + [node.val];
      node := node.next;
      k := k + 1;
    }
  }

  /** What FindActions has added to a state: at least one action, all of them shifts, reductions and
      the acceptance, in any order. */
  ghost predicate FoundActions(z: Sizes, p: Precs, acts: seq<Action>) {
    && WellDeclared(p) && |p.prec| == z.nsymbol && 0 < |acts| < Pow2(LISTSIZE)
    && (forall i | 0 <= i < |acts| ::
      && InRange(p, acts[i]) && Numbered(z, acts[i])
      && (acts[i].kind.SHIFT? || acts[i].kind.ACCEPT? || acts[i].kind.REDUCE?))
    && (forall i, j {:trigger Compatible(acts[i], acts[j])} | 0 <= i < j < |acts| :: Compatible(acts[i], acts[j]))
  }

  lemma TwiceIn(s: seq<Action>, x: Action, i: nat) returns (j: nat)
    requires multiset(s)[x] >= 2 && i < |s| && s[i] == x
    ensures j < |s| && j != i && s[j] == x
  {
    assert s == s[..i] + [x] + s[i + 1..];
    OneMore(s[..i], x, s[i + 1..]);
    assert x in multiset(s[..i] + s[i + 1..]);
    var k :| 0 <= k < |s| - 1 && (s[..i] + s[i + 1..])[k] == x;
    j := if k < i then k else k + 1;
  }

  lemma SameTwice(s: seq<Action>, i: nat, j: nat)
    requires i < j < |s| && s[i] == s[j]
    ensures multiset(s)[s[i]] >= 2
  {
    assert s == s[..i] + [s[i]] + s[i + 1..];
    OneMore(s[..i], s[i], s[i + 1..]);
    assert (s[..i] + s[i + 1..])[j - 1] == s[i];
  }

  /** Elements at two places of a list stand at two places of every permutation of it. */
  lemma TwoPlaces(s: seq<Action>, s': seq<Action>, i: nat, j: nat) returns (i': nat, j': nat)
    requires multiset(s) == multiset(s') && i < j < |s|
    ensures i' < |s'| && j' < |s'| && i' != j' && s'[i'] == s[i] && s'[j'] == s[j]
  {
    assert s[i] in multiset(s') && s[j] in multiset(s');
    i' :| 0 <= i' < |s'| && s'[i'] == s[i];
    if s[i] != s[j] {
      j' :| 0 <= j' < |s'| && s'[j'] == s[j];
    } else {
      SameTwice(s, i, j);
      j' := TwiceIn(s', s[i], i');
    }
  }

  lemma SortedRaw(z: Sizes, p: Precs, acts: seq<Action>, sorted: seq<Action>)
    requires FoundActions(z, p, acts) && Sorted(sorted) && multiset(sorted) == multiset(acts)
    ensures Raw(p, sorted) && forall i | 0 <= i < |sorted| :: Numbered(z, sorted[i])
  {
    forall i | 0 <= i < |sorted|
      ensures InRange(p, sorted[i]) && Numbered(z, sorted[i])
      ensures sorted[i].kind.SHIFT? || sorted[i].kind.ACCEPT? || sorted[i].kind.REDUCE?
    {
      assert sorted[i] in multiset(acts);
    }
    forall i, j | 0 <= i < j < |sorted|
      ensures Compatible(sorted[i], sorted[j])
    {
      var k, l := TwoPlaces(sorted, acts, i, j);
      assert if k < l then Compatible(acts[k], acts[l]) else Compatible(acts[l], acts[k]);
    }
  }

  /** A state from the actions found for it to the list that is packed. */
  method GenerateState(z: Sizes, p: Precs, found: seq<Action>, compress: bool)
    returns (final: seq<Action>, rule: Option<nat>, nconflict: nat, ghost raw: seq<Action>,
      ghost resolved: seq<Action>, ghost compressed: seq<Action>)
    requires FoundActions(z, p, found)
    ensures Raw(p, raw) && multiset(raw) == multiset(found) && nconflict == |Undecidable(p, raw)|
    ensures Generated(z, p, raw, resolved, rule, compressed, final)
    ensures if compress then BestDefault(p, raw, rule) else rule.None?
  {
    var start := ActionSort(found);
    raw := start;
    SortedRaw(z, p, found, raw);
    var acts := new Action[|start|](i requires 0 <= i < |start| => start[i]);
    assert acts[..] == raw;
    nconflict := ResolveConflicts(p, acts);
    resolved := acts[..];
    rule := None;
    if compress { rule := CompressState(z, acts); }
    compressed := acts[..];
    if compress { CompressedBest(p, raw, resolved, rule); }
    final := acts[..];
    if rule.Some? { final := ActionSort(final); }
  }

  /** qsort: some order of the sets, larger ones first. */
  ghost predicate SortsSets(z: Sizes, qsort: seq<seq<Action>> -> seq<nat>) {
    forall lists | WellFormed(z, lists) :: LargestFirst(z, lists, qsort(lists))
  }

  /** The lists of the states generated so far. */
  ghost predicate AllGenerated(z: Sizes, p: Precs, raws: seq<seq<Action>>, resolved: seq<seq<Action>>,
                               rules: seq<Option<nat>>, compressed: seq<seq<Action>>, final: seq<seq<Action>>) {
    && |raws| == |resolved| == |rules| == |compressed| == |final|
    && forall s {:trigger raws[s]} | 0 <= s < |raws| ::
      Generated(z, p, raws[s], resolved[s], rules[s], compressed[s], final[s])
  }

  lemma AllGeneratedWellFormed(z: Sizes, p: Precs, raws: seq<seq<Action>>, resolved: seq<seq<Action>>,
                               rules: seq<Option<nat>>, compressed: seq<seq<Action>>, final: seq<seq<Action>>)
    requires AllGenerated(z, p, raws, resolved, rules, compressed, final)
    requires |final| == z.nstate && z.nterminal <= z.nsymbol < 0x7FFF_FFFF
    ensures WellFormed(z, final)
  {
    forall s | 0 <= s < |final|
      ensures Settled(final[s]) && Listed(z, final[s])
    {
      assert Generated(z, p, raws[s], resolved[s], rules[s], compressed[s], final[s]);
      GeneratedSettled(z, p, raws[s], resolved[s], rules[s], compressed[s], final[s]);
    }
  }

  /** The actions of all states that precedence cannot decide. */
  ghost function AllUndecidable(p: Precs, raws: seq<seq<Action>>): nat
    requires forall s | 0 <= s < |raws| :: Raw(p, raws[s])
  {
    if raws == [] then 0
    else AllUndecidable(p, raws[..|raws| - 1]) + |Undecidable(p, raws[|raws| - 1])|
  }

  /** What is found of the states generated so far. */
  ghost predicate StatesDone(p: Precs, found: seq<seq<Action>>, compress: bool, raws: seq<seq<Action>>,
                             rules: seq<Option<nat>>, nconflict: nat) {
    && |raws| == |rules| <= |found|
    && (forall s | 0 <= s < |raws| :: Raw(p, raws[s]) && multiset(raws[s]) == multiset(found[s]))
    && (forall s | 0 <= s < |raws| :: if compress then BestDefault(p, raws[s], rules[s]) else rules[s].None?)
    && nconflict == AllUndecidable(p, raws)
  }

  lemma StatesNext(p: Precs, found: seq<seq<Action>>, compress: bool, raws: seq<seq<Action>>, rules: seq<Option<nat>>,
                   nconflict: nat, raw: seq<Action>, rule: Option<nat>, n: nat)
    requires StatesDone(p, found, compress, raws, rules, nconflict) && |raws| < |found|
    requires Raw(p, raw) && multiset(raw) == multiset(found[|raws|]) && n == |Undecidable(p, raw)|
    requires if compress then BestDefault(p, raw, rule) else rule.None?
    ensures StatesDone(p, found, compress, raws + [raw], rules + [rule], nconflict + n)
  {
    assert (raws + [raw])[..|raws|] == raws;
  }

  /** The whole run. raws are the sorted lists of what was found, rules the default reductions. */
  method GenerateTables(z: Sizes, p: Precs, found: seq<seq<Action>>, compress: bool,
                        qsort: seq<seq<Action>> -> seq<nat>, ruleInfo: seq<ParseTables.RuleInfo>, errorSymbol: nat)
    returns (t: ParseTables.Tables, rules: seq<Option<nat>>, nconflict: nat, ghost raws: seq<seq<Action>>)
    requires |found| == z.nstate && z.nterminal <= z.nsymbol < 0x7FFF_FFFF && |ruleInfo| == z.nrule
    requires (forall s | 0 <= s < |found| :: FoundActions(z, p, found[s])) && SortsSets(z, qsort)
    ensures t.Shaped() && t.nstate == z.nstate && |raws| == |rules| == z.nstate
    ensures forall s | 0 <= s < z.nstate :: Raw(p, raws[s]) && multiset(raws[s]) == multiset(found[s])
    ensures nconflict == AllUndecidable(p, raws)
    ensures t.nrule == z.nrule && t.noCode == z.nsymbol + 1 && t.ruleInfo == ruleInfo && t.errorSymbol == errorSymbol
    ensures forall s | 0 <= s < z.nstate :: if compress then BestDefault(p, raws[s], rules[s]) else rules[s].None?
    ensures forall s, sp | 0 <= s < z.nstate && 0 <= sp < z.nsymbol :: ActsOn(z, p, t, raws[s], rules[s], s, sp)
  {
    raws, rules, nconflict := [], [], 0;
    ghost var resolved: seq<seq<Action>>, compressed: seq<seq<Action>> := [], [];
    var final: seq<seq<Action>> := [];
    for s := 0 to |found|
      invariant |raws| == s && AllGenerated(z, p, raws, resolved, rules, compressed, final)
      invariant StatesDone(p, found, compress, raws, rules, nconflict)
    {
      var list, rule, n, r, d, c := GenerateState(z, p, found[s], compress);
      StatesNext(p, found, compress, raws, rules, nconflict, r, rule, n);
      nconflict := nconflict + n;
      final, rules := final + [list], rules + [rule];
      raws, resolved, compressed := raws + [r], resolved + [d], compressed + [c];
    }
    AllGeneratedWellFormed(z, p, raws, resolved, rules, compressed, final);
    t := ReportTable(z, final, qsort(final), ruleInfo, errorSymbol);
    forall s, sp | 0 <= s < z.nstate && 0 <= sp < z.nsymbol
      ensures ActsOn(z, p, t, raws[s], rules[s], s, sp)
    {
      GeneratedParserActs(z, p, raws, resolved, rules, compressed, final, t, s, sp);
    }
  }
}
