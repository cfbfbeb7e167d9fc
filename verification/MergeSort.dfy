/** Sorting a linked list in place by re-linking its nodes (src/lemon.c, merge and msort). */
module MergeSort {
  import opened StableMerge

  class Node<T> {
    const val: T
    var next: Node?<T>

    constructor (v: T)
      ensures val == v && next == null
    {
      val, next := v, null;
    }
  }

  /** No position occurs twice. */
  ghost predicate Separate(a: seq<nat>) {
    forall k, l | 0 <= k < l < |a| :: a[k] != a[l]
  }

  ghost predicate Apart(a: seq<nat>, b: seq<nat>) {
    forall x | x in a :: x !in b
  }

  ghost predicate Distinct<T>(nodes: seq<Node<T>>) {
    forall k, l | 0 <= k < l < |nodes| :: nodes[k] != nodes[l]
  }

  /** The nodes of the list to be sorted, in its initial order, carry the keys. */
  ghost predicate Keyed<T(!new)>(nodes: seq<Node<T>>, keys: seq<T>) {
    Distinct(nodes) && |nodes| == |keys| && forall k | 0 <= k < |nodes| :: nodes[k].val == keys[k]
  }

  /** The next fields of the nodes, as they are now. */
  ghost function Links<T>(nodes: seq<Node<T>>): (r: seq<Node?<T>>)
    reads set k | 0 <= k < |nodes| :: nodes[k]
    ensures |r| == |nodes| && forall k | 0 <= k < |nodes| :: r[k] == nodes[k].next
  {
    if nodes == [] then [] else Links(nodes[..|nodes| - 1]) + [nodes[|nodes| - 1].next]
  }

  ghost function At<T>(nodes: seq<Node<T>>, run: seq<nat>, k: nat): Node?<T>
    requires Positions(|nodes|, run)
  {
    if k < |run| then nodes[run[k]] else null
  }

  ghost predicate LinkAt<T>(nodes: seq<Node<T>>, links: seq<Node?<T>>, run: seq<nat>, k: nat)
    requires Positions(|nodes|, run) && |links| == |nodes| && k < |run|
  {
    links[run[k]] == At(nodes, run, k + 1)
  }

  /** From head, following links, come the nodes at the positions run, and then the end. */
  ghost predicate ListOf<T>(nodes: seq<Node<T>>, links: seq<Node?<T>>, head: Node?<T>, run: seq<nat>) {
    && Positions(|nodes|, run) && |links| == |nodes|
    && head == At(nodes, run, 0)
    && forall k {:trigger LinkAt(nodes, links, run, k)} | 0 <= k < |run| :: LinkAt(nodes, links, run, k)
  }

  lemma ListKept<T>(nodes: seq<Node<T>>, links: seq<Node?<T>>, links': seq<Node?<T>>, head: Node?<T>, run: seq<nat>)
    requires ListOf(nodes, links, head, run) && |links'| == |links| && forall x | x in run :: links'[x] == links[x]
    ensures ListOf(nodes, links', head, run)
  {
    forall k | 0 <= k < |run|
      ensures LinkAt(nodes, links', run, k)
    {
      assert LinkAt(nodes, links, run, k) && run[k] in run;
    }
  }

  lemma ListTail<T>(nodes: seq<Node<T>>, links: seq<Node?<T>>, head: Node?<T>, run: seq<nat>)
    requires ListOf(nodes, links, head, run) && run != []
    ensures ListOf(nodes, links, links[run[0]], run[1..])
  {
    assert LinkAt(nodes, links, run, 0);
    forall k | 0 <= k < |run| - 1
      ensures LinkAt(nodes, links, run[1..], k)
    {
      assert LinkAt(nodes, links, run, k + 1);
    }
  }

  /** The nodes at the positions done are linked one to the next; the last one may point anywhere. */
  ghost predicate Chain<T>(nodes: seq<Node<T>>, links: seq<Node?<T>>, done: seq<nat>) {
    && Positions(|nodes|, done) && |links| == |nodes| && done != []
    && forall k {:trigger LinkAt(nodes, links, done, k)} | 0 <= k < |done| - 1 :: LinkAt(nodes, links, done, k)
  }

  lemma ChainGrows<T>(nodes: seq<Node<T>>, links: seq<Node?<T>>, done: seq<nat>, x: nat, links': seq<Node?<T>>)
    requires Chain(nodes, links, done) && Separate(done) && x < |nodes|
    requires links' == links[done[|done| - 1] := nodes[x]]
    ensures Chain(nodes, links', done + [x])
  {
    forall k | 0 <= k < |done|
      ensures LinkAt(nodes, links', done + [x], k)
    {
      if k < |done| - 1 { assert LinkAt(nodes, links, done, k); }
    }
  }

  lemma ChainEnds<T>(nodes: seq<Node<T>>, links: seq<Node?<T>>, done: seq<nat>, rest: seq<nat>, head: Node?<T>,
                     links': seq<Node?<T>>)
    requires Chain(nodes, links, done) && Separate(done) && ListOf(nodes, links, head, rest) && Apart(done, rest)
    requires links' == links[done[|done| - 1] := head]
    ensures ListOf(nodes, links', nodes[done[0]], done + rest)
  {
    var out, d := done + rest, |done|;
    forall k | 0 <= k < |out|
      ensures LinkAt(nodes, links', out, k)
    {
      if k < d - 1 {
        assert LinkAt(nodes, links, done, k);
      } else if k >= d {
        assert LinkAt(nodes, links, rest, k - d);
        assert done[d - 1] in done && rest[k - d] in rest;
      }
    }
  }

  /** Merging has linked the nodes at done; the lists x and y from hx and hy are still to be merged. */
  ghost predicate Parts<T>(nodes: seq<Node<T>>, links: seq<Node?<T>>, done: seq<nat>, hx: Node?<T>, x: seq<nat>,
                           hy: Node?<T>, y: seq<nat>) {
    && Chain(nodes, links, done) && ListOf(nodes, links, hx, x) && ListOf(nodes, links, hy, y)
    && Separate(done) && Separate(x) && Separate(y)
    && Apart(done, x) && Apart(done, y) && Apart(x, y)
  }

  /** Linking the last node so far to the head of x. */
  lemma TakeHead<T>(nodes: seq<Node<T>>, links: seq<Node?<T>>, done: seq<nat>, hx: Node?<T>, x: seq<nat>, hy: Node?<T>,
                    y: seq<nat>, links': seq<Node?<T>>)
    requires Parts(nodes, links, done, hx, x, hy, y) && x != []
    requires links' == links[done[|done| - 1] := hx]
    ensures Parts(nodes, links', done + [x[0]], links'[x[0]], x[1..], hy, y)
  {
    var last := done[|done| - 1];
    assert last in done && x[0] in x;
    assert forall z | z in x[1..] :: z in x;
    ChainGrows(nodes, links, done, x[0], links');
    ListKept(nodes, links, links', hx, x);
    ListTail(nodes, links', hx, x);
    ListKept(nodes, links, links', hy, y);
  }

  /** Starting with the head of x. */
  lemma FirstHead<T>(nodes: seq<Node<T>>, links: seq<Node?<T>>, hx: Node?<T>, x: seq<nat>, hy: Node?<T>, y: seq<nat>)
    requires ListOf(nodes, links, hx, x) && ListOf(nodes, links, hy, y) && Separate(x) && Separate(y) && Apart(x, y)
    requires x != []
    ensures Parts(nodes, links, [x[0]], links[x[0]], x[1..], hy, y)
  {
    assert x[0] in x && forall z | z in x[1..] :: z in x;
    ListTail(nodes, links, hx, x);
  }

  /** Only nodes of a and b may have been re-linked, and only they are being merged. */
  ghost predicate Local<T>(a: seq<nat>, b: seq<nat>, was: seq<Node?<T>>, links: seq<Node?<T>>, done: seq<nat>,
                           x: seq<nat>, y: seq<nat>) {
    && |was| == |links|
    && (forall k | k in done :: k in a || k in b)
    && (forall k | k in x :: k in a || k in b)
    && (forall k | k in y :: k in a || k in b)
    && (forall k | 0 <= k < |was| && k !in a && k !in b :: links[k] == was[k])
  }

  lemma LocalStep<T>(a: seq<nat>, b: seq<nat>, was: seq<Node?<T>>, links: seq<Node?<T>>, done: seq<nat>, x: seq<nat>,
                     y: seq<nat>, t: Node?<T>, links': seq<Node?<T>>)
    requires Local(a, b, was, links, done, x, y) && x != [] && done != [] && done[|done| - 1] < |links|
    requires links' == links[done[|done| - 1] := t]
    ensures Local(a, b, was, links', done + [x[0]], x[1..], y)
  {
    assert done[|done| - 1] in done && x[0] in x;
    assert forall z | z in x[1..] :: z in x;
    assert forall z | z in done + [x[0]] :: z in done || z == x[0];
  }

  /** The step of merging that takes the head of x. */
  lemma Taken<T>(nodes: seq<Node<T>>, a: seq<nat>, b: seq<nat>, was: seq<Node?<T>>, links: seq<Node?<T>>,
                 done: seq<nat>, hx: Node?<T>, x: seq<nat>, hy: Node?<T>, y: seq<nat>, links': seq<Node?<T>>)
    requires Parts(nodes, links, done, hx, x, hy, y) && Local(a, b, was, links, done, x, y) && x != []
    requires links' == links[done[|done| - 1] := hx]
    ensures Parts(nodes, links', done + [x[0]], links'[x[0]], x[1..], hy, y)
    ensures Local(a, b, was, links', done + [x[0]], x[1..], y)
  {
    TakeHead(nodes, links, done, hx, x, hy, y, links');
    LocalStep(a, b, was, links, done, x, y, hx, links');
  }

  /** The end of merging, with x left over. */
  lemma Ended<T>(nodes: seq<Node<T>>, a: seq<nat>, b: seq<nat>, was: seq<Node?<T>>, links: seq<Node?<T>>,
                 done: seq<nat>, hx: Node?<T>, x: seq<nat>, hy: Node?<T>, y: seq<nat>, links': seq<Node?<T>>)
    requires Parts(nodes, links, done, hx, x, hy, y) && Local(a, b, was, links, done, x, y)
    requires links' == links[done[|done| - 1] := hx]
    ensures ListOf(nodes, links', nodes[done[0]], done + x)
    ensures forall k | 0 <= k < |was| && k !in a && k !in b :: links'[k] == was[k]
  {
    ChainEnds(nodes, links, done, x, hx, links');
    assert done[|done| - 1] in done;
  }

  /** The symmetric reading of the two lists. */
  lemma Swapped<T>(nodes: seq<Node<T>>, a: seq<nat>, b: seq<nat>, was: seq<Node?<T>>, links: seq<Node?<T>>,
                   done: seq<nat>, hx: Node?<T>, x: seq<nat>, hy: Node?<T>, y: seq<nat>)
    requires Parts(nodes, links, done, hx, x, hy, y) && Local(a, b, was, links, done, x, y)
    ensures Parts(nodes, links, done, hy, y, hx, x) && Local(a, b, was, links, done, y, x)
  {}

  lemma Started<T>(nodes: seq<Node<T>>, links: seq<Node?<T>>, hx: Node?<T>, x: seq<nat>, hy: Node?<T>, y: seq<nat>)
    requires ListOf(nodes, links, hx, x) && ListOf(nodes, links, hy, y) && Separate(x) && Separate(y) && Apart(x, y)
    requires x != []
    ensures Parts(nodes, links, [x[0]], links[x[0]], x[1..], hy, y) && Local(x, y, links, links, [x[0]], x[1..], y)
  {
    FirstHead(nodes, links, hx, x, hy, y);
    assert x[0] in x && forall z | z in x[1..] :: z in x;
  }

  /** Taking the head that merge takes. */
  lemma MergeTakes<T>(cmp: (T, T) -> int, keys: seq<T>, m: seq<nat>, done: seq<nat>, x: seq<nat>, y: seq<nat>)
    requires Positions(|keys|, x) && Positions(|keys|, y) && x != [] && y != []
    requires m == done + MergeOf(cmp, keys, x, y)
    ensures if cmp(keys[x[0]], keys[y[0]]) < 0 then m == done + [x[0]] + MergeOf(cmp, keys, x[1..], y)
      else m == done + [y[0]] + MergeOf(cmp, keys, x, y[1..])
  {}

  /** The loop of merge. */
  ghost predicate Merging<T(!new)>(cmp: (T, T) -> int, nodes: seq<Node<T>>, keys: seq<T>, a: seq<nat>, b: seq<nat>,
                                   was: seq<Node?<T>>, links: seq<Node?<T>>, done: seq<nat>, hx: Node?<T>, x: seq<nat>,
                                   hy: Node?<T>, y: seq<nat>) {
    && |keys| == |nodes| && Positions(|keys|, a) && Positions(|keys|, b)
    && Parts(nodes, links, done, hx, x, hy, y) && Local(a, b, was, links, done, x, y)
    && MergeOf(cmp, keys, a, b) == done + MergeOf(cmp, keys, x, y)
  }

  lemma MergingStart<T(!new)>(cmp: (T, T) -> int, nodes: seq<Node<T>>, keys: seq<T>, links: seq<Node?<T>>,
                              ha: Node?<T>, a: seq<nat>, hb: Node?<T>, b: seq<nat>)
    requires |keys| == |nodes| && ListOf(nodes, links, ha, a) && ListOf(nodes, links, hb, b) && Separate(a)
    requires Separate(b) && Apart(a, b) && a != [] && b != []
    ensures if cmp(keys[a[0]], keys[b[0]]) < 0 then
              Merging(cmp, nodes, keys, a, b, links, links, [a[0]], links[a[0]], a[1..], hb, b)
            else Merging(cmp, nodes, keys, a, b, links, links, [b[0]], ha, a, links[b[0]], b[1..])
  {
    if cmp(keys[a[0]], keys[b[0]]) < 0 {
      Started(nodes, links, ha, a, hb, b);
    } else {
      Started(nodes, links, hb, b, ha, a);
      Swapped(nodes, b, a, links, links, [b[0]], links[b[0]], b[1..], ha, a);
    }
  }

  lemma MergingStep<T(!new)>(cmp: (T, T) -> int, nodes: seq<Node<T>>, keys: seq<T>, a: seq<nat>, b: seq<nat>,
                             was: seq<Node?<T>>, links: seq<Node?<T>>, done: seq<nat>, hx: Node?<T>, x: seq<nat>,
                             hy: Node?<T>, y: seq<nat>, links': seq<Node?<T>>)
    requires Merging(cmp, nodes, keys, a, b, was, links, done, hx, x, hy, y) && x != [] && y != []
    requires links' == links[done[|done| - 1] := if cmp(keys[x[0]], keys[y[0]]) < 0 then hx else hy]
    ensures if cmp(keys[x[0]], keys[y[0]]) < 0 then
              Merging(cmp, nodes, keys, a, b, was, links', done + [x[0]], links'[x[0]], x[1..], hy, y)
            else Merging(cmp, nodes, keys, a, b, was, links', done + [y[0]], hx, x, links'[y[0]], y[1..])
  {
    MergeTakes(cmp, keys, MergeOf(cmp, keys, a, b), done, x, y);
    if cmp(keys[x[0]], keys[y[0]]) < 0 {
      Taken(nodes, a, b, was, links, done, hx, x, hy, y, links');
    } else {
      Swapped(nodes, a, b, was, links, done, hx, x, hy, y);
      Taken(nodes, a, b, was, links, done, hy, y, hx, x, links');
      Swapped(nodes, a, b, was, links', done + [y[0]], links'[y[0]], y[1..], hx, x);
    }
  }

  lemma MergingEnd<T(!new)>(cmp: (T, T) -> int, nodes: seq<Node<T>>, keys: seq<T>, a: seq<nat>, b: seq<nat>,
                            was: seq<Node?<T>>, links: seq<Node?<T>>, done: seq<nat>, hx: Node?<T>, x: seq<nat>,
                            hy: Node?<T>, y: seq<nat>, links': seq<Node?<T>>)
    requires Merging(cmp, nodes, keys, a, b, was, links, done, hx, x, hy, y) && (x == [] || y == [])
    requires links' == links[done[|done| - 1] := if x != [] then hx else hy]
    ensures ListOf(nodes, links', nodes[done[0]], MergeOf(cmp, keys, a, b))
    ensures forall k | 0 <= k < |was| && k !in a && k !in b :: links'[k] == was[k]
  {
    if x != [] {
      Ended(nodes, a, b, was, links, done, hx, x, hy, y, links');
    } else {
      Swapped(nodes, a, b, was, links, done, hx, x, hy, y);
      Ended(nodes, a, b, was, links, done, hy, y, hx, x, links');
    }
  }

  lemma LinksUpdate<T>(nodes: seq<Node<T>>, links: seq<Node?<T>>, i: nat, target: Node?<T>)
    requires |links| == |nodes| && i < |nodes| && nodes[i].next == target
    requires forall k | 0 <= k < |nodes| && k != i :: nodes[k].next == links[k]
    ensures Links(nodes) == links[i := target]
  {}

  /** Link the smaller of two heads behind ptr. */
  method LinkNext<T(!new)>(cmp: (T, T) -> int, ptr: Node<T>, x: Node<T>, y: Node<T>, ghost nodes: seq<Node<T>>,
                           ghost keys: seq<T>, ghost runA: seq<nat>, ghost runB: seq<nat>, ghost was: seq<Node?<T>>,
                           ghost done: seq<nat>, ghost rx: seq<nat>, ghost ry: seq<nat>)
    returns (ptr': Node<T>, x': Node?<T>, y': Node?<T>, ghost done': seq<nat>, ghost rx': seq<nat>, ghost ry': seq<nat>)
    requires Keyed(nodes, keys) && Merging(cmp, nodes, keys, runA, runB, was, Links(nodes), done, x, rx, y, ry)
    requires ptr == nodes[done[|done| - 1]]
    modifies (set k | 0 <= k < |nodes| :: nodes[k])`next
    ensures Merging(cmp, nodes, keys, runA, runB, was, Links(nodes), done', x', rx', y', ry')
    ensures ptr' == nodes[done'[|done'| - 1]] && done'[0] == done[0] && |rx'| + |ry'| < |rx| + |ry|
  {
    ghost var links := Links(nodes);
    x', y', done', rx', ry' := x, y, done, rx, ry;
    if cmp(x.val, y.val) < 0 {
      ptr.next := x;
      ptr' := x;
      x' := x.next;
      done', rx' := done + [rx[0]], rx[1..];
    } else {
      ptr.next := y;
      ptr' := y;
      y' := y.next;
      done', ry' := done + [ry[0]], ry[1..];
    }
    LinksUpdate(nodes, links, done[|done| - 1], ptr');
    MergingStep(cmp, nodes, keys, runA, runB, was, links, done, x, rx, y, ry, Links(nodes));
  }

  /** Link what is left of one list behind ptr. */
  method LinkLast<T(!new)>(cmp: (T, T) -> int, ptr: Node<T>, x: Node?<T>, y: Node?<T>, ghost nodes: seq<Node<T>>,
                           ghost keys: seq<T>, ghost runA: seq<nat>, ghost runB: seq<nat>, ghost was: seq<Node?<T>>,
                           ghost done: seq<nat>, ghost rx: seq<nat>, ghost ry: seq<nat>)
    requires Keyed(nodes, keys) && Merging(cmp, nodes, keys, runA, runB, was, Links(nodes), done, x, rx, y, ry)
    requires ptr == nodes[done[|done| - 1]] && (x == null || y == null)
    modifies (set k | 0 <= k < |nodes| :: nodes[k])`next
    ensures ListOf(nodes, Links(nodes), nodes[done[0]], MergeOf(cmp, keys, runA, runB))
    ensures forall k | 0 <= k < |nodes| && k !in runA && k !in runB :: Links(nodes)[k] == was[k]
  {
    ghost var links := Links(nodes);
    if x != null { ptr.next := x; } else { ptr.next := y; }
    LinksUpdate(nodes, links, done[|done| - 1], if x != null then x else y);
    MergingEnd(cmp, nodes, keys, runA, runB, was, links, done, x, rx, y, ry, Links(nodes));
  }

  /** Link the nodes of the two rests of the lists behind ptr, smaller first. */
  method MergeRest<T(!new)>(cmp: (T, T) -> int, first: Node<T>, hx: Node?<T>, hy: Node?<T>, ghost nodes: seq<Node<T>>,
                            ghost keys: seq<T>, ghost runA: seq<nat>, ghost runB: seq<nat>, ghost done0: seq<nat>,
                            ghost x0: seq<nat>, ghost y0: seq<nat>)
    requires Keyed(nodes, keys)
    requires Merging(cmp, nodes, keys, runA, runB, Links(nodes), Links(nodes), done0, hx, x0, hy, y0)
    requires |done0| == 1 && first == nodes[done0[0]]
    modifies (set k | 0 <= k < |nodes| :: nodes[k])`next
    ensures ListOf(nodes, Links(nodes), first, MergeOf(cmp, keys, runA, runB))
    ensures forall k | 0 <= k < |nodes| && k !in runA && k !in runB :: Links(nodes)[k] == old(Links(nodes))[k]
  {
    var ptr, x: Node?<T>, y: Node?<T> := first, hx, hy;
    ghost var was := Links(nodes);
    ghost var done, rx, ry := done0, x0, y0;
    while x != null && y != null
      invariant Merging(cmp, nodes, keys, runA, runB, was, Links(nodes), done, x, rx, y, ry)
      invariant ptr == nodes[done[|done| - 1]] && first == nodes[done[0]]
      decreases |rx| + |ry|
    {
      ptr, x, y, done, rx, ry := LinkNext(cmp, ptr, x, y, nodes, keys, runA, runB, was, done, rx, ry);
    }
    LinkLast(cmp, ptr, x, y, nodes, keys, runA, runB, was, done, rx, ry);
  }

  /** Merge two sorted lists by re-linking their nodes. */
  method Merge<T(!new)>(cmp: (T, T) -> int, a: Node?<T>, b: Node?<T>, ghost nodes: seq<Node<T>>, ghost keys: seq<T>,
                        ghost runA: seq<nat>, ghost runB: seq<nat>)
    returns (head: Node?<T>)
    requires Keyed(nodes, keys) && ListOf(nodes, Links(nodes), a, runA) && ListOf(nodes, Links(nodes), b, runB)
    requires Separate(runA) && Separate(runB) && Apart(runA, runB)
    modifies (set k | 0 <= k < |nodes| :: nodes[k])`next
    ensures ListOf(nodes, Links(nodes), head, MergeOf(cmp, keys, runA, runB))
    ensures forall k | 0 <= k < |nodes| && k !in runA && k !in runB :: Links(nodes)[k] == old(Links(nodes))[k]
  {
    if a == null { return b; }
    if b == null { return a; }
    MergingStart(cmp, nodes, keys, Links(nodes), a, runA, b, runB);
    if cmp(a.val, b.val) < 0 {
      head := a;
      MergeRest(cmp, head, a.next, b, nodes, keys, runA, runB, [runA[0]], runA[1..], runB);
    } else {
      head := b;
      MergeRest(cmp, head, a, b.next, nodes, keys, runA, runB, [runB[0]], runA, runB[1..]);
    }
  }

  const LISTSIZE: nat := 30

  lemma AscendingSeparate<T(!new)>(cmp: (T, T) -> int, keys: seq<T>, run: seq<nat>)
    requires TotalPreorder(cmp) && Ascending(cmp, keys, run)
    ensures Separate(run)
  {
    forall k, l | 0 <= k < l < |run|
      ensures run[k] != run[l]
    {
      assert Before(cmp, keys, run[k], run[l]);
    }
  }

  ghost predicate HeadAt<T>(nodes: seq<Node<T>>, links: seq<Node?<T>>, sets: seq<Node?<T>>, bins: seq<seq<nat>>, k: nat)
    requires k < |sets| == |bins|
  {
    ListOf(nodes, links, sets[k], bins[k])
  }

  /** Each entry of set[] is the head of the list its bin describes. */
  ghost predicate Heads<T>(nodes: seq<Node<T>>, links: seq<Node?<T>>, sets: seq<Node?<T>>, bins: seq<seq<nat>>) {
    |sets| == |bins| && forall k | 0 <= k < |bins| :: HeadAt(nodes, links, sets, bins, k)
  }

  /** Re-linking nodes of two runs leaves a list alone that has no node in common with them. */
  lemma OtherKept<T>(nodes: seq<Node<T>>, links: seq<Node?<T>>, links': seq<Node?<T>>, a: seq<nat>, b: seq<nat>,
                     head: Node?<T>, run: seq<nat>)
    requires ListOf(nodes, links, head, run) && |links'| == |links| == |nodes|
    requires forall k | 0 <= k < |nodes| && k !in a && k !in b :: links'[k] == links[k]
    requires Apart(run, a) && Apart(run, b)
    ensures ListOf(nodes, links', head, run)
  {
    forall x | x in run
      ensures links'[x] == links[x]
    {
      assert x !in a && x !in b;
    }
    ListKept(nodes, links, links', head, run);
  }

  /** Merging the run with bin i keeps the bins above i. */
  lemma HeadsKept<T>(cmp: (T, T) -> int, keys: seq<T>, nodes: seq<Node<T>>, links: seq<Node?<T>>,
                     links': seq<Node?<T>>, sets: seq<Node?<T>>, bins: seq<seq<nat>>, n: nat, run: seq<nat>, i: nat,
                     k: nat)
    requires Bins(cmp, keys, n, bins) && Heads(nodes, links, sets, bins) && i < k < |bins|
    requires |links'| == |links| == |nodes|
    requires Follows(run, bins[k])
    requires forall x | 0 <= x < |nodes| && x !in run && x !in bins[i] :: links'[x] == links[x]
    ensures ListOf(nodes, links', sets[k], bins[k])
  {
    assert Follows(bins[i], bins[k]) && HeadAt(nodes, links, sets, bins, k);
    OtherKept(nodes, links, links', run, bins[i], sets[k], bins[k]);
  }

  /** What msort's outer loop knows before element n: the bins, and the rest of the list. */
  ghost predicate Sorting<T(!new)>(cmp: (T, T) -> int, nodes: seq<Node<T>>, keys: seq<T>, links: seq<Node?<T>>,
                                   list: Node?<T>, n: nat, sets: seq<Node?<T>>, bins: seq<seq<nat>>) {
    && |nodes| == |keys| && n <= |keys| && |bins| == LISTSIZE
    && Bins(cmp, keys, n, bins) && Heads(nodes, links, sets, bins)
    && ListOf(nodes, links, list, Range(n, |nodes|))
    && (n < Pow2(LISTSIZE) ==> Lossless(bins, n))
  }

  /** What the inner loop knows while it merges element n upwards as the list ep. */
  ghost predicate Inserting<T(!new)>(cmp: (T, T) -> int, nodes: seq<Node<T>>, keys: seq<T>, links: seq<Node?<T>>,
                                     list: Node?<T>, n: nat, sets: seq<Node?<T>>, bins: seq<seq<nat>>, ep: Node?<T>,
                                     run: seq<nat>, i: nat) {
    && |nodes| == |keys| && |bins| == LISTSIZE && Carry(cmp, keys, n, bins, run, i)
    && Heads(nodes, links, sets, bins) && ListOf(nodes, links, ep, run)
    && ListOf(nodes, links, list, Range(n + 1, |nodes|))
  }

  /** Cutting the first node off the list. */
  lemma CutFirst<T(!new)>(cmp: (T, T) -> int, nodes: seq<Node<T>>, keys: seq<T>, links: seq<Node?<T>>, list: Node?<T>,
                          n: nat, sets: seq<Node?<T>>, bins: seq<seq<nat>>, links': seq<Node?<T>>)
    requires Sorting(cmp, nodes, keys, links, list, n, sets, bins) && n < |nodes| && links' == links[n := null]
    ensures Inserting(cmp, nodes, keys, links', links[n], n, sets, bins, nodes[n], [n], 0)
  {
    var rest := Range(n, |nodes|);
    CarryStart(cmp, keys, n, bins);
    ListTail(nodes, links, list, rest);
    assert rest[1..] == Range(n + 1, |nodes|);
    ListKept(nodes, links, links', links[n], rest[1..]);
    forall k | 0 <= k < |bins|
      ensures HeadAt(nodes, links', sets, bins, k)
    {
      assert HeadAt(nodes, links, sets, bins, k);
      ListKept(nodes, links, links', sets[k], bins[k]);
    }
    assert LinkAt(nodes, links', [n], 0);
  }

  /** Merging with an occupied bin. */
  lemma MergedUp<T(!new)>(cmp: (T, T) -> int, nodes: seq<Node<T>>, keys: seq<T>, links: seq<Node?<T>>, list: Node?<T>,
                          n: nat, sets: seq<Node?<T>>, bins: seq<seq<nat>>, ep: Node?<T>, run: seq<nat>, i: nat,
                          links': seq<Node?<T>>, ep': Node?<T>)
    requires TotalPreorder(cmp) && Inserting(cmp, nodes, keys, links, list, n, sets, bins, ep, run, i) && i + 1 < |bins|
    requires bins[i] != []
    requires |links'| == |nodes| && ListOf(nodes, links', ep', MergeOf(cmp, keys, run, bins[i]))
    requires forall x | 0 <= x < |nodes| && x !in run && x !in bins[i] :: links'[x] == links[x]
    ensures Inserting(cmp, nodes, keys, links', list, n, sets[i := null], bins[i := []], ep',
      MergeOf(cmp, keys, run, bins[i]), i + 1)
  {
    CarryUp(cmp, keys, n, bins, run, i);
    var sets', bins' := sets[i := null], bins[i := []];
    forall k | 0 <= k < |bins|
      ensures HeadAt(nodes, links', sets', bins', k)
    {
      if k > i {
        assert Follows(run, bins[k]);
        HeadsKept(cmp, keys, nodes, links, links', sets, bins, n, run, i, k);
      } else if k < i {
        assert HeadAt(nodes, links, sets, bins, k);
      }
    }
    OtherKept(nodes, links, links', run, bins[i], list, Range(n + 1, |nodes|));
  }

  /** Storing the run in bin i. */
  lemma Stored<T(!new)>(cmp: (T, T) -> int, nodes: seq<Node<T>>, keys: seq<T>, links: seq<Node?<T>>, list: Node?<T>,
                        n: nat, sets: seq<Node?<T>>, bins: seq<seq<nat>>, ep: Node?<T>, run: seq<nat>, i: nat)
    requires Inserting(cmp, nodes, keys, links, list, n, sets, bins, ep, run, i) && (i + 1 < |bins| ==> bins[i] == [])
    ensures Sorting(cmp, nodes, keys, links, list, n + 1, sets[i := ep], bins[i := run])
  {
    CarryStore(cmp, keys, n, bins, run, i);
    var sets', bins' := sets[i := ep], bins[i := run];
    forall k | 0 <= k < |bins|
      ensures HeadAt(nodes, links, sets', bins', k)
    {
      if k != i { assert HeadAt(nodes, links, sets, bins, k); }
    }
  }

  /** The run may be merged with any bin from i on. */
  lemma MayMerge<T(!new)>(cmp: (T, T) -> int, keys: seq<T>, n: nat, bins: seq<seq<nat>>, run: seq<nat>, k: nat)
    requires TotalPreorder(cmp) && Bins(cmp, keys, n, bins) && Ascending(cmp, keys, run) && k < |bins|
    requires Follows(run, bins[k])
    ensures Separate(run) && Separate(bins[k]) && Apart(run, bins[k])
  {
    AscendingSeparate(cmp, keys, run);
    AscendingSeparate(cmp, keys, bins[k]);
  }

  /** Merge ep with the list in bin i, which becomes empty. */
  method MergeUp<T(!new)>(cmp: (T, T) -> int, sets: array<Node?<T>>, i: nat, ep: Node?<T>, ghost nodes: seq<Node<T>>,
                          ghost keys: seq<T>, ghost list: Node?<T>, ghost n: nat, ghost bins: seq<seq<nat>>,
                          ghost run: seq<nat>)
    returns (ep': Node?<T>)
    requires TotalPreorder(cmp) && Keyed(nodes, keys) && sets.Length == LISTSIZE && i < LISTSIZE - 1 && sets[i] != null
    requires Inserting(cmp, nodes, keys, Links(nodes), list, n, sets[..], bins, ep, run, i)
    modifies sets, (set k | 0 <= k < |nodes| :: nodes[k])`next
    ensures Inserting(cmp, nodes, keys, Links(nodes), list, n, sets[..], bins[i := []], ep',
      MergeOf(cmp, keys, run, bins[i]), i + 1)
  {
    ghost var was, links := sets[..], Links(nodes);
    assert HeadAt(nodes, links, was, bins, i) && Follows(run, bins[i]);
    MayMerge(cmp, keys, n, bins, run, i);
    ep' := Merge(cmp, ep, sets[i], nodes, keys, run, bins[i]);
    ghost var links' := Links(nodes);
    MergedUp(cmp, nodes, keys, links, list, n, was, bins, ep, run, i, links', ep');
    sets[i] := null;
    assert sets[..] == was[i := null] && Links(nodes) == links';
  }

  /** Put the list ep into bin i. */
  method Store<T(!new)>(cmp: (T, T) -> int, sets: array<Node?<T>>, i: nat, ep: Node?<T>, ghost nodes: seq<Node<T>>,
                        ghost keys: seq<T>, ghost list: Node?<T>, ghost n: nat, ghost bins: seq<seq<nat>>,
                        ghost run: seq<nat>)
    returns (ghost bins': seq<seq<nat>>)
    requires sets.Length == LISTSIZE && i < LISTSIZE && (i + 1 < LISTSIZE ==> sets[i] == null)
    requires Inserting(cmp, nodes, keys, Links(nodes), list, n, sets[..], bins, ep, run, i)
    modifies sets
    ensures Sorting(cmp, nodes, keys, Links(nodes), list, n + 1, sets[..], bins')
  {
    ghost var was, links := sets[..], Links(nodes);
    assert HeadAt(nodes, links, was, bins, i);
    Stored(cmp, nodes, keys, links, list, n, was, bins, ep, run, i);
    sets[i] := ep;
    assert sets[..] == was[i := ep] && Links(nodes) == links;
    bins' := bins[i := run];
  }

  /** Merge the list of one node, element n, upwards through the bins. */
  method Insert<T(!new)>(cmp: (T, T) -> int, sets: array<Node?<T>>, first: Node<T>, ghost nodes: seq<Node<T>>,
                         ghost keys: seq<T>, ghost list: Node?<T>, ghost n: nat, ghost bins0: seq<seq<nat>>)
    returns (ghost bins: seq<seq<nat>>)
    requires TotalPreorder(cmp) && Keyed(nodes, keys) && sets.Length == LISTSIZE
    requires Inserting(cmp, nodes, keys, Links(nodes), list, n, sets[..], bins0, first, [n], 0)
    modifies sets, (set k | 0 <= k < |nodes| :: nodes[k])`next
    ensures Sorting(cmp, nodes, keys, Links(nodes), list, n + 1, sets[..], bins)
  {
    var ep: Node?<T>, i := first, 0;
    ghost var run: seq<nat> := [n];
    bins := bins0;
    while i < LISTSIZE - 1 && sets[i] != null
      invariant i < LISTSIZE && Inserting(cmp, nodes, keys, Links(nodes), list, n, sets[..], bins, ep, run, i)
    {
      assert sets[..][i] == sets[i];
      ep := MergeUp(cmp, sets, i, ep, nodes, keys, list, n, bins, run);
      run, bins := MergeOf(cmp, keys, run, bins[i]), bins[i := []];
      i := i + 1;
    }
    bins := Store(cmp, sets, i, ep, nodes, keys, list, n, bins, run);
  }

  /** What msort's last loop knows: the bins below i have been merged into the list ep. */
  ghost predicate Gathering<T(!new)>(cmp: (T, T) -> int, nodes: seq<Node<T>>, keys: seq<T>, links: seq<Node?<T>>,
                                     sets: seq<Node?<T>>, bins: seq<seq<nat>>, ep: Node?<T>, run: seq<nat>, i: nat) {
    && |nodes| == |keys| && |bins| == |sets| == LISTSIZE && Gathered(cmp, keys, bins, run, i)
    && ListOf(nodes, links, ep, run) && forall k | i <= k < |bins| :: HeadAt(nodes, links, sets, bins, k)
  }

  lemma GatheredUp<T(!new)>(cmp: (T, T) -> int, nodes: seq<Node<T>>, keys: seq<T>, links: seq<Node?<T>>,
                            sets: seq<Node?<T>>, bins: seq<seq<nat>>, ep: Node?<T>, run: seq<nat>, i: nat,
                            links': seq<Node?<T>>, ep': Node?<T>)
    requires TotalPreorder(cmp) && Gathering(cmp, nodes, keys, links, sets, bins, ep, run, i) && i < |bins|
    requires |links'| == |nodes| && ListOf(nodes, links', ep', MergeOf(cmp, keys, run, bins[i]))
    requires forall x | 0 <= x < |nodes| && x !in run && x !in bins[i] :: links'[x] == links[x]
    ensures Gathering(cmp, nodes, keys, links', sets, bins, ep', MergeOf(cmp, keys, run, bins[i]), i + 1)
  {
    GatherStep(cmp, keys, bins, run, i);
    forall k | i + 1 <= k < |bins|
      ensures HeadAt(nodes, links', sets, bins, k)
    {
      assert HeadAt(nodes, links, sets, bins, k) && Follows(run, bins[k]) && Follows(bins[i], bins[k]);
      OtherKept(nodes, links, links', run, bins[i], sets[k], bins[k]);
    }
  }

  lemma GatherStart<T(!new)>(cmp: (T, T) -> int, nodes: seq<Node<T>>, keys: seq<T>, links: seq<Node?<T>>,
                             sets: seq<Node?<T>>, bins: seq<seq<nat>>, run: seq<nat>)
    requires Sorting(cmp, nodes, keys, links, null, |nodes|, sets, bins) && run == []
    ensures Gathering(cmp, nodes, keys, links, sets, bins, null, run, 0)
  {
    forall k | 0 <= k < |bins|
      ensures Follows(run, bins[k])
    {}
    assert multiset(run) == multiset{};
  }

  /** Merge the list of bin i into ep. */
  method GatherOne<T(!new)>(cmp: (T, T) -> int, bin: Node?<T>, ep: Node?<T>, ghost nodes: seq<Node<T>>,
                            ghost keys: seq<T>, ghost sets: seq<Node?<T>>, ghost bins: seq<seq<nat>>,
                            ghost run: seq<nat>, ghost i: nat)
    returns (ep': Node?<T>)
    requires TotalPreorder(cmp) && Keyed(nodes, keys) && i < LISTSIZE
    requires Gathering(cmp, nodes, keys, Links(nodes), sets, bins, ep, run, i) && bin == sets[i]
    modifies (set k | 0 <= k < |nodes| :: nodes[k])`next
    ensures Gathering(cmp, nodes, keys, Links(nodes), sets, bins, ep', MergeOf(cmp, keys, run, bins[i]), i + 1)
  {
    ghost var links := Links(nodes);
    assert HeadAt(nodes, links, sets, bins, i) && Follows(run, bins[i]);
    ep' := ep;
    if bin != null {
      MayMerge(cmp, keys, |keys|, bins, run, i);
      ep' := Merge(cmp, ep, bin, nodes, keys, run, bins[i]);
    }
    GatheredUp(cmp, nodes, keys, links, sets, bins, ep, run, i, Links(nodes), ep');
  }

  /** Merge all bins, lowest first. */
  method Gather<T(!new)>(cmp: (T, T) -> int, sets: array<Node?<T>>, ghost nodes: seq<Node<T>>, ghost keys: seq<T>,
                         ghost bins: seq<seq<nat>>)
    returns (ep: Node?<T>, ghost run: seq<nat>)
    requires TotalPreorder(cmp) && Keyed(nodes, keys) && sets.Length == LISTSIZE
    requires Sorting(cmp, nodes, keys, Links(nodes), null, |nodes|, sets[..], bins)
    modifies (set k | 0 <= k < |nodes| :: nodes[k])`next
    ensures ListOf(nodes, Links(nodes), ep, run) && Gathered(cmp, keys, bins, run, LISTSIZE)
  {
    ep, run := null, [];
    ghost var was := sets[..];
    GatherStart(cmp, nodes, keys, Links(nodes), was, bins, run);
    var i := 0;
    while i < LISTSIZE
      invariant i <= LISTSIZE && sets[..] == was && Gathering(cmp, nodes, keys, Links(nodes), was, bins, ep, run, i)
    {
      ep := GatherOne(cmp, sets[i], ep, nodes, keys, was, bins, run, i);
      run := MergeOf(cmp, keys, run, bins[i]);
      i := i + 1;
    }
  }

  lemma {:induction false} EmptyBins(bins: seq<seq<nat>>, k: nat)
    requires k <= |bins| && forall l | 0 <= l < |bins| :: bins[l] == []
    ensures Contents(bins, k) == multiset{}
    decreases |bins| - k
  {
    if k < |bins| { EmptyBins(bins, k + 1); }
  }

  lemma SortingStart<T(!new)>(cmp: (T, T) -> int, nodes: seq<Node<T>>, keys: seq<T>, links: seq<Node?<T>>,
                              list: Node?<T>, sets: seq<Node?<T>>, bins: seq<seq<nat>>)
    requires |nodes| == |keys| && |bins| == |sets| == LISTSIZE
    requires (forall k | 0 <= k < LISTSIZE :: sets[k] == null && bins[k] == [])
    requires ListOf(nodes, links, list, Range(0, |nodes|))
    ensures Sorting(cmp, nodes, keys, links, list, 0, sets, bins)
  {
    EmptyBins(bins, 0);
    forall k | 0 <= k < LISTSIZE
      ensures HeadAt(nodes, links, sets, bins, k)
    {}
  }

  /** Cut the first node off the list and insert it. */
  method TakeFirst<T(!new)>(cmp: (T, T) -> int, sets: array<Node?<T>>, ep: Node<T>, ghost nodes: seq<Node<T>>,
                            ghost keys: seq<T>, ghost n: nat, ghost bins0: seq<seq<nat>>)
    returns (list: Node?<T>, ghost bins: seq<seq<nat>>)
    requires TotalPreorder(cmp) && Keyed(nodes, keys) && sets.Length == LISTSIZE
    requires Sorting(cmp, nodes, keys, Links(nodes), ep, n, sets[..], bins0)
    modifies sets, (set k | 0 <= k < |nodes| :: nodes[k])`next
    ensures n < |nodes| && Sorting(cmp, nodes, keys, Links(nodes), list, n + 1, sets[..], bins)
  {
    ghost var links := Links(nodes);
    list := ep.next;
    ep.next := null;
    LinksUpdate(nodes, links, n, null);
    CutFirst(cmp, nodes, keys, links, ep, n, sets[..], bins0, Links(nodes));
    bins := Insert(cmp, sets, ep, nodes, keys, list, n, bins0);
  }

  /** Insert all nodes of the list. */
  method Distribute<T(!new)>(cmp: (T, T) -> int, sets: array<Node?<T>>, head: Node?<T>, ghost nodes: seq<Node<T>>,
                             ghost keys: seq<T>, ghost bins0: seq<seq<nat>>)
    returns (ghost bins: seq<seq<nat>>)
    requires TotalPreorder(cmp) && Keyed(nodes, keys) && sets.Length == LISTSIZE
    requires Sorting(cmp, nodes, keys, Links(nodes), head, 0, sets[..], bins0)
    modifies sets, (set k | 0 <= k < |nodes| :: nodes[k])`next
    ensures Sorting(cmp, nodes, keys, Links(nodes), null, |nodes|, sets[..], bins)
  {
    var list := head;
    ghost var n := 0;
    bins := bins0;
    while list != null
      invariant Sorting(cmp, nodes, keys, Links(nodes), list, n, sets[..], bins)
      decreases |nodes| - n
    {
      list, bins := TakeFirst(cmp, sets, list, nodes, keys, n, bins);
      n := n + 1;
    }
  }

  /** Sort a list by re-linking its nodes. out gives the new order: ascending, with equal elements in
      the order they came in; nothing is lost if and only if there are fewer than 2^30 elements. */
  method MSort<T(!new)>(cmp: (T, T) -> int, list: Node?<T>, ghost nodes: seq<Node<T>>, ghost keys: seq<T>)
    returns (head: Node?<T>, ghost out: seq<nat>)
    requires TotalPreorder(cmp) && Keyed(nodes, keys) && ListOf(nodes, Links(nodes), list, Range(0, |nodes|))
    modifies (set k | 0 <= k < |nodes| :: nodes[k])`next
    ensures ListOf(nodes, Links(nodes), head, out)
    ensures Ascending(cmp, keys, out)
    ensures multiset(out) == multiset(Range(0, |keys|)) <==> |keys| < Pow2(LISTSIZE)
  {
    var sets: array<Node?<T>> := new Node?<T>[LISTSIZE](_ => null);
    ghost var bins := seq(LISTSIZE, _ => []);
    SortingStart(cmp, nodes, keys, Links(nodes), list, sets[..], bins);
    bins := Distribute(cmp, sets, list, nodes, keys, bins);
    head, out := Gather(cmp, sets, nodes, keys, bins);
    GatherEnd(cmp, keys, bins, out);
  }
}
