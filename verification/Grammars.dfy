/** Context-free grammars as the parser generator sees them: symbols are numbers, terminals
    first, and "derives" is the existence of a parse tree. */
module Grammars {

  datatype Rule = Rule(lhs: nat, rhs: seq<nat>)

  datatype Grammar = Grammar(nterminal: nat, nsymbol: nat, rules: seq<Rule>)

  /** A leaf may carry a nonterminal: the yield of a tree is then a sentential form. */
  datatype Tree = Leaf(sym: nat) | Node(rule: nat, kids: seq<Tree>)

  function Root(g: Grammar, t: Tree): nat {
    match t
    case Leaf(x) => x
    case Node(r, _) => if r < |g.rules| then g.rules[r].lhs else 0
  }

  function Roots(g: Grammar, ts: seq<Tree>): (xs: seq<nat>)
    ensures |xs| == |ts| && forall i | 0 <= i < |ts| :: xs[i] == Root(g, ts[i])
  {
    seq(|ts|, i requires 0 <= i < |ts| => Root(g, ts[i]))
  }

  ghost predicate IsTree(g: Grammar, t: Tree) {
    match t
    case Leaf(x) => x < g.nsymbol
    case Node(r, kids) => r < |g.rules| && Roots(g, kids) == g.rules[r].rhs && AreTrees(g, kids)
  }

  ghost predicate AreTrees(g: Grammar, ts: seq<Tree>) {
    forall i | 0 <= i < |ts| :: IsTree(g, ts[i])
  }

  function Yield(t: Tree): seq<nat> {
    match t
    case Leaf(x) => [x]
    case Node(_, kids) => Yields(kids)
  }

  function Yields(ts: seq<Tree>): seq<nat> {
    if ts == [] then [] else Yield(ts[0]) + Yields(ts[1..])
  }

  /** Symbol x derives the sentential form w. */
  ghost predicate Derives(g: Grammar, x: nat, w: seq<nat>) {
    exists t :: IsTree(g, t) && Root(g, t) == x && Yield(t) == w
  }

  lemma {:induction false} YieldsConcat(a: seq<Tree>, b: seq<Tree>)
    ensures Yields(a + b) == Yields(a) + Yields(b)
  {
    if a == [] {
      assert a + b == b;
    } else {
      assert (a + b)[1..] == a[1..] + b;
      YieldsConcat(a[1..], b);
    }
  }

  lemma YieldsLast(ts: seq<Tree>, t: Tree)
    ensures Yields(ts + [t]) == Yields(ts) + Yield(t)
  {
    YieldsConcat(ts, [t]);
    assert [t][1..] == [];
  }
}
