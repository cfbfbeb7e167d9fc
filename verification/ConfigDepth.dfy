/** How many brackets may be open at a time for the shipped parser's stack to have room: twelve. */
module ConfigDepth {
  import opened Grammars
  import opened LrCertificate
  import opened LrCompleteness
  import opened LrNesting
  import opened ConfigTables
  import opened ConfigChecks
  import opened ConfigGrammars
  import opened ConfigProof
  import opened ConfigOverflow

  /** The brackets of the configuration grammar and the claims about the shipped automaton: it
      pushes at most seven entries for each opening bracket and thirteen more. */
  ghost function ConfigNesting(): (n: Nesting)
    ensures n.step == 7 && n.top == 13 && n.weight == BracketAt
    ensures forall s :: n.height(s) == HeightAt(s) && n.closed(s) == ClosedAt(s)
  {
    Nesting(BracketAt, HeightAt, ClosedAt, 7, 13)
  }

  lemma MoveIsNested(s: nat, x: nat, s': nat)
    requires Moves(ConfigGrammar(), ConfigParserTables(), s, x, s')
    ensures MoveNests(ConfigNesting(), s, x, s')
  {
    ConfigCertified();
    MoveIsKept(ConfigGrammar(), ConfigParserTables(), StackClaims(), s, x, s');
    HeightsGrow(s, s');
  }

  lemma ConfigNests()
    ensures Nests(ConfigGrammar(), ConfigParserTables(), ConfigNesting())
  {
    var g, t, n := ConfigGrammar(), ConfigParserTables(), ConfigNesting();
    forall s
      ensures n.height(s) <= n.top
    {
      HeightsBounded(s);
    }
    forall r | 0 <= r < 40
      ensures RuleNests(g, n, r)
    {
      RuleBalanced(r);
    }
    forall s, x, s' | Moves(g, t, s, x, s')
      ensures MoveNests(n, s, x, s')
    {
      MoveIsNested(s, x, s');
    }
  }

  /** Twelve open brackets at a time never overflow the stack of the shipped parser, however long
      the input is and whether or not it is a configuration; so the verdict on it is right. */
  lemma ShallowInputs(tokens: seq<nat>)
    requires IsConfigInput(tokens) && Within(BracketAt, 0, tokens, 12)
    ensures !Outcome(tokens).overflowed && (Outcome(tokens).ok <==> Derives(ConfigGrammar(), INPUT, tokens))
  {
    ConfigCertified();
    ConfigNests();
    WithinSnoc(BracketAt, 0, tokens, 0, 12);
    ShallowFits(ConfigGrammar(), ConfigParserTables(), StackClaims(), ConfigNesting(), FRESH, tokens + [0], 0, 12);
    ShippedParserDecides(tokens);
  }

  // ----- a configuration with one bracket too many -----

  /** A balanced piece of input that opens at most j brackets at a time. */
  ghost predicate Spells(w: seq<nat>, j: nat) {
    IsConfigInput(w) && forall n: nat :: SpellsAt(w, j, n)
  }

  /** With n brackets open before it. */
  ghost predicate SpellsAt(w: seq<nat>, j: nat, n: nat) {
    OpenAt(BracketAt, n, w) == n && Within(BracketAt, n, w, n + j)
  }

  lemma SpellsConcat(a: seq<nat>, b: seq<nat>, j: nat)
    requires Spells(a, j) && Spells(b, j)
    ensures Spells(a + b, j)
  {
    forall n: nat
      ensures SpellsAt(a + b, j, n)
    {
      assert SpellsAt(a, j, n) && SpellsAt(b, j, n);
      WithinConcat(BracketAt, n, a, b, n + j);
    }
  }

  lemma SpellsToken(x: nat, j: nat)
    requires 1 <= x < 26 && BracketAt(x) == 0
    ensures Spells([x], j)
  {
    forall n: nat
      ensures SpellsAt([x], j, n)
    {
      assert [x][1..] == [];
    }
  }

  lemma BracketsAt(open: nat, w: seq<nat>, close: nat, j: nat, n: nat)
    requires BracketAt(open) == 1 && BracketAt(close) == -1 && SpellsAt(w, j, n + 1)
    ensures SpellsAt([open] + w + [close], j + 1, n)
  {
    assert [open][1..] == [] && [close][1..] == [];
    WithinConcat(BracketAt, n, [open] + w, [close], n + (j + 1));
    WithinConcat(BracketAt, n, [open], w, n + (j + 1));
  }

  lemma SpellsBrackets(open: nat, w: seq<nat>, close: nat, j: nat)
    requires 1 <= open < 26 && 1 <= close < 26 && BracketAt(open) == 1 && BracketAt(close) == -1 && Spells(w, j)
    ensures Spells([open] + w + [close], j + 1)
  {
    var v, k := [open] + w + [close], j + 1;
    forall n: nat
      ensures SpellsAt(v, k, n)
    {
      BracketsAt(open, w, close, j, n);
    }
  }

  /** A parse tree of symbol x with such a yield. */
  ghost predicate Parses(t: Tree, x: nat, j: nat) {
    IsTree(ConfigGrammar(), t) && Root(ConfigGrammar(), t) == x && Spells(Yield(t), j)
  }

  lemma {:induction false} KidsSpell(kids: seq<Tree>, j: nat)
    requires forall d | 0 <= d < |kids| :: Spells(Yield(kids[d]), j)
    ensures Spells(Yields(kids), j)
  {
    if kids != [] {
      KidsSpell(kids[1..], j);
      SpellsConcat(Yield(kids[0]), Yields(kids[1..]), j);
    }
  }

  lemma ParsesToken(x: nat, j: nat)
    requires 1 <= x < 26 && BracketAt(x) == 0
    ensures Parses(Leaf(x), x, j)
  {
    SpellsToken(x, j);
  }

  lemma ParsesTree(r: nat, kids: seq<Tree>)
    requires r < 40 && |kids| == |RuleAt(r).rhs|
    requires forall d | 0 <= d < |kids| ::
               IsTree(ConfigGrammar(), kids[d]) && Root(ConfigGrammar(), kids[d]) == RuleAt(r).rhs[d]
    ensures IsTree(ConfigGrammar(), Node(r, kids)) && Root(ConfigGrammar(), Node(r, kids)) == RuleAt(r).lhs
  {
    assert Roots(ConfigGrammar(), kids) == RuleAt(r).rhs;
  }

  lemma ParsesNode(r: nat, kids: seq<Tree>, j: nat)
    requires r < 40 && |kids| == |RuleAt(r).rhs|
    requires forall d | 0 <= d < |kids| :: Parses(kids[d], RuleAt(r).rhs[d], j)
    ensures Parses(Node(r, kids), RuleAt(r).lhs, j)
  {
    ParsesTree(r, kids);
    KidsSpell(kids, j);
  }

  lemma ParsesThree(r: nat, a: Tree, x: nat, b: Tree, y: nat, c: Tree, w: nat, j: nat)
    requires r < 40 && RuleAt(r).rhs == [x, y, w] && Parses(a, x, j) && Parses(b, y, j) && Parses(c, w, j)
    ensures Parses(Node(r, [a, b, c]), RuleAt(r).lhs, j)
  {
    ParsesNode(r, [a, b, c], j);
  }

  /** A key as a value, as an expression and as a stringop. */
  function Key(): Tree { Node(14, [Node(11, [Leaf(4)])]) }
  function Plain(): Tree { Node(13, [Key()]) }
  function Word(): Tree { Node(37, [Plain()]) }

  /** key + v */
  function Sum(v: Tree): Tree { Node(12, [Plain(), Leaf(5), v]) }

  /** (key, key => key + v) */
  function First(): Tree { Node(22, [Node(23, [Plain()])]) }
  function Element(v: Tree): Tree { Node(24, [Word(), Leaf(11), Sum(v)]) }
  function Elements(v: Tree): Tree { Node(20, [First(), Leaf(10), Element(v)]) }
  function Array(v: Tree): Tree { Node(17, [Node(19, [Leaf(8), Elements(v), Leaf(9)])]) }

  /** k arrays, one inside the other. */
  function Deep(k: nat): Tree {
    if k == 0 then Key() else Array(Deep(k - 1))
  }

  function Equals(): Tree { Node(33, [Leaf(20)]) }

  /** $SRVVARNAME[key] == key + v { } */
  function Context(v: Tree): Tree {
    Node(32, [Leaf(16), Leaf(17), Leaf(18), Word(), Leaf(19), Equals(), Sum(v)])
  }
  function Section(v: Tree): Tree { Node(31, [Context(v), Leaf(13), Node(2, []), Leaf(14)]) }
  function Config(v: Tree): Tree { Node(0, [Node(1, [Node(2, []), Node(5, [Node(30, [Section(v)]), Leaf(1)])])]) }

  lemma WordsParse(j: nat)
    ensures Parses(Key(), 35, j) && Parses(Plain(), 36, j) && Parses(Word(), 42, j)
  {
    ParsesToken(4, j);
    ParsesNode(11, [Leaf(4)], j);
    ParsesNode(14, [Node(11, [Leaf(4)])], j);
    ParsesNode(13, [Key()], j);
    ParsesNode(37, [Plain()], j);
  }

  lemma SumOf(plain: Tree, v: Tree, j: nat)
    requires Parses(plain, 36, j) && Parses(v, 35, j)
    ensures Parses(Node(12, [plain, Leaf(5), v]), 36, j)
  {
    ParsesToken(5, j);
    ParsesThree(12, plain, 36, Leaf(5), 5, v, 35, j);
  }

  lemma ElementOf(word: Tree, sum: Tree, j: nat)
    requires Parses(word, 42, j) && Parses(sum, 36, j)
    ensures Parses(Node(24, [word, Leaf(11), sum]), 37, j)
  {
    ParsesToken(11, j);
    ParsesThree(24, word, 42, Leaf(11), 11, sum, 36, j);
  }

  lemma ElementsOf(first: Tree, element: Tree, j: nat)
    requires Parses(first, 39, j) && Parses(element, 37, j)
    ensures Parses(Node(20, [first, Leaf(10), element]), 39, j)
  {
    ParsesToken(10, j);
    ParsesThree(20, first, 39, Leaf(10), 10, element, 37, j);
  }

  lemma SumParses(v: Tree, j: nat)
    requires Parses(v, 35, j)
    ensures Parses(Sum(v), 36, j)
  {
    WordsParse(j);
    SumOf(Plain(), v, j);
  }

  lemma FirstParses(j: nat)
    ensures Parses(First(), 39, j)
  {
    WordsParse(j);
    ParsesNode(23, [Plain()], j);
    ParsesNode(22, [Node(23, [Plain()])], j);
  }

  lemma ElementsParse(v: Tree, j: nat)
    requires Parses(v, 35, j)
    ensures Parses(Elements(v), 39, j)
  {
    WordsParse(j);
    FirstParses(j);
    SumParses(v, j);
    ElementOf(Word(), Sum(v), j);
    ElementsOf(First(), Element(v), j);
  }

  lemma YieldsThree(a: Tree, b: Tree, c: Tree)
    ensures Yields([a, b, c]) == Yield(a) + Yield(b) + Yield(c)
  {
    assert [a, b, c][1..] == [b, c] && [b, c][1..] == [c] && [c][1..] == [];
    assert Yields([c]) == Yield(c);
  }

  lemma ArrayOf(elements: Tree, j: nat)
    requires Parses(elements, 39, j)
    ensures Parses(Node(17, [Node(19, [Leaf(8), elements, Leaf(9)])]), 35, j + 1)
  {
    var kids := [Leaf(8), elements, Leaf(9)];
    ParsesTree(19, kids);
    SpellsBrackets(8, Yield(elements), 9, j);
    YieldsThree(Leaf(8), elements, Leaf(9));
    ParsesNode(17, [Node(19, kids)], j + 1);
  }

  lemma ArrayParses(v: Tree, j: nat)
    requires Parses(v, 35, j)
    ensures Parses(Array(v), 35, j + 1)
  {
    ElementsParse(v, j);
    ArrayOf(Elements(v), j);
  }

  lemma {:induction false} DeepParses(k: nat)
    ensures Parses(Deep(k), 35, k)
  {
    if k == 0 {
      WordsParse(0);
    } else {
      DeepParses(k - 1);
      ArrayParses(Deep(k - 1), k - 1);
    }
  }

  /** One tree for each of the symbols. */
  ghost predicate AllParse(kids: seq<Tree>, syms: seq<nat>, j: nat) {
    |kids| == |syms| && forall d | 0 <= d < |kids| :: Parses(kids[d], syms[d], j)
  }

  lemma AllParseJoin(a: seq<Tree>, x: seq<nat>, b: seq<Tree>, y: seq<nat>, j: nat)
    requires AllParse(a, x, j) && AllParse(b, y, j)
    ensures AllParse(a + b, x + y, j)
  {}

  lemma BracketOf(word: Tree, j: nat)
    requires Parses(word, 42, j)
    ensures AllParse([Leaf(16), Leaf(17), Leaf(18), word], [16, 17, 18, 42], j)
  {
    ParsesToken(16, j);
    ParsesToken(17, j);
    ParsesToken(18, j);
  }

  lemma ComparisonOf(equals: Tree, sum: Tree, j: nat)
    requires Parses(equals, 43, j) && Parses(sum, 36, j)
    ensures AllParse([Leaf(19), equals, sum], [19, 43, 36], j)
  {
    ParsesToken(19, j);
  }

  lemma ContextRule()
    ensures [16, 17, 18, 42] + [19, 43, 36] == RuleAt(32).rhs
  {}

  lemma ContextOf(word: Tree, equals: Tree, sum: Tree, j: nat)
    requires Parses(word, 42, j) && Parses(equals, 43, j) && Parses(sum, 36, j)
    ensures Parses(Node(32, [Leaf(16), Leaf(17), Leaf(18), word, Leaf(19), equals, sum]), 46, j)
  {
    var a, b := [Leaf(16), Leaf(17), Leaf(18), word], [Leaf(19), equals, sum];
    BracketOf(word, j);
    ComparisonOf(equals, sum, j);
    AllParseJoin(a, [16, 17, 18, 42], b, [19, 43, 36], j);
    assert a + b == [Leaf(16), Leaf(17), Leaf(18), word, Leaf(19), equals, sum];
    ContextRule();
    ParsesNode(32, a + b, j);
  }

  lemma EqualsParses(j: nat)
    ensures Parses(Equals(), 43, j)
  {
    ParsesToken(20, j);
    ParsesNode(33, [Leaf(20)], j);
  }

  lemma ContextParses(v: Tree, j: nat)
    requires Parses(v, 35, j)
    ensures Parses(Context(v), 46, j)
  {
    WordsParse(j);
    SumParses(v, j);
    EqualsParses(j);
    ContextOf(Word(), Equals(), Sum(v), j);
  }

  lemma LineOf(section: Tree, j: nat)
    requires Parses(section, 38, j)
    ensures Parses(Node(5, [Node(30, [section]), Leaf(1)]), 29, j)
  {
    ParsesToken(1, j);
    ParsesNode(30, [section], j);
    ParsesNode(5, [Node(30, [section]), Leaf(1)], j);
  }

  lemma InputOf(line: Tree, j: nat)
    requires Parses(line, 29, j)
    ensures Parses(Node(0, [Node(1, [Node(2, []), line])]), INPUT, j)
  {
    ParsesNode(2, [], j);
    ParsesNode(1, [Node(2, []), line], j);
    ParsesNode(0, [Node(1, [Node(2, []), line])], j);
  }

  lemma SectionOf(context: Tree, j: nat)
    requires Parses(context, 46, j) && j > 0
    ensures Parses(Node(31, [context, Leaf(13), Node(2, []), Leaf(14)]), 38, j)
  {
    ParsesNode(2, [], j - 1);
    var kids := [context, Leaf(13), Node(2, []), Leaf(14)];
    ParsesTree(31, kids);
    SpellsBrackets(13, Yield(Node(2, [])), 14, j - 1);
    YieldsThree(Leaf(13), Node(2, []), Leaf(14));
    assert kids[1..] == [Leaf(13), Node(2, []), Leaf(14)];
    SpellsConcat(Yield(context), Yields(kids[1..]), j);
  }

  lemma ConfigParses(v: Tree, j: nat)
    requires Parses(v, 35, j) && j > 0
    ensures Parses(Config(v), INPUT, j)
  {
    ContextParses(v, j);
    SectionOf(Context(v), j);
    LineOf(Section(v), j);
    InputOf(Node(5, [Node(30, [Section(v)]), Leaf(1)]), j);
  }

  /** While the parser works on kid d, the d kids before it lie on the stack. */
  lemma {:induction false} PeakKid(kids: seq<Tree>, i: nat, d: nat)
    requires i <= d < |kids|
    ensures PeakFrom(kids, i) >= d - i + Peak(kids[d])
    decreases d - i
  {
    if i < d { PeakKid(kids, i + 1, d); }
  }

  lemma PeakSum(v: Tree)
    ensures Peak(Sum(v)) >= 2 + Peak(v)
  {
    PeakKid([Plain(), Leaf(5), v], 0, 2);
  }

  lemma PeakArray(v: Tree)
    ensures Peak(Array(v)) >= 7 + Peak(v)
  {
    var element := [Word(), Leaf(11), Sum(v)];
    var elements := [First(), Leaf(10), Element(v)];
    var kids := [Leaf(8), Elements(v), Leaf(9)];
    PeakSum(v);
    PeakKid(element, 0, 2);
    PeakKid(elements, 0, 2);
    PeakKid(kids, 0, 1);
    PeakKid([Node(19, kids)], 0, 0);
  }

  lemma {:induction false} PeakDeep(k: nat)
    ensures Peak(Deep(k)) > 7 * k
  {
    if k > 0 {
      PeakDeep(k - 1);
      PeakArray(Deep(k - 1));
    }
  }

  lemma PeakSection(v: Tree)
    ensures Peak(Section(v)) >= 8 + Peak(v)
  {
    var context := [Leaf(16), Leaf(17), Leaf(18), Word(), Leaf(19), Equals(), Sum(v)];
    PeakSum(v);
    PeakKid(context, 0, 6);
    PeakKid([Context(v), Leaf(13), Node(2, []), Leaf(14)], 0, 0);
  }

  lemma PeakConfig(v: Tree)
    ensures PeakFrom(Config(v).kids, 0) >= 9 + Peak(v)
  {
    var line := [Node(30, [Section(v)]), Leaf(1)];
    var lines := [Node(2, []), Node(5, line)];
    PeakSection(v);
    PeakKid([Section(v)], 0, 0);
    PeakKid(line, 0, 0);
    PeakKid(lines, 0, 1);
    PeakKid([Node(1, lines)], 0, 0);
  }

  lemma EndsInEol(v: Tree)
    ensures Yield(Config(v)) != []
  {
    var line := [Node(30, [Section(v)]), Leaf(1)];
    assert line == [Node(30, [Section(v)])] + [Leaf(1)];
    YieldsLast([Node(30, [Section(v)])], Leaf(1));
    YieldsLast([Node(2, [])], Node(5, line));
    assert [Node(2, []), Node(5, line)] == [Node(2, [])] + [Node(5, line)];
    YieldsLast([], Config(v).kids[0]);
    assert [] + [Config(v).kids[0]] == Config(v).kids;
  }

  lemma DeepConfig(k: nat)
    requires k > 0
    ensures var tree, w := Config(Deep(k)), Yield(Config(Deep(k)));
      && IsTree(ConfigGrammar(), tree) && Root(ConfigGrammar(), tree) == INPUT
      && IsConfigInput(w) && w != [] && Within(BracketAt, 0, w, k)
  {
    DeepParses(k);
    ConfigParses(Deep(k), k);
    EndsInEol(Deep(k));
    assert SpellsAt(Yield(Config(Deep(k))), k, 0);
  }

  /** With more than twelve brackets open the stack overflows even on a configuration. */
  lemma DeepOverflows(k: nat)
    requires k > 12
    ensures var w := Yield(Config(Deep(k)));
      && IsConfigInput(w) && Within(BracketAt, 0, w, k)
      && Derives(ConfigGrammar(), INPUT, w) && Outcome(w).overflowed
  {
    DeepConfig(k);
    PeakDeep(k);
    PeakConfig(Deep(k));
    ShippedParserAccepts(Yield(Config(Deep(k))), Config(Deep(k)));
  }

  /** The stack has room for every input of at most k brackets open at a time iff k is at most 12. */
  lemma RoomIffTwelve(k: nat)
    ensures k <= 12 <==>
      forall w | IsConfigInput(w) && Within(BracketAt, 0, w, k) :: !Outcome(w).overflowed
  {
    if k <= 12 {
      forall w | IsConfigInput(w) && Within(BracketAt, 0, w, k)
        ensures !Outcome(w).overflowed
      {
        WithinMore(BracketAt, 0, w, k, 12);
        ShallowInputs(w);
      }
    } else {
      DeepOverflows(k);
    }
  }
}
