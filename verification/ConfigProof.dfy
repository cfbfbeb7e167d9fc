/** The shipped tables pass both certificates, so the shipped parser decides exactly the language
    of its grammar for as long as its stack of 100 entries does not overflow. */
module ConfigProof {
  import opened Grammars
  import opened ParseTables
  import opened LrMachine
  import opened LrCertificate
  import opened LrSoundness
  import opened LrCompleteness
  import opened LrParser
  import opened ConfigTables
  import opened ConfigChecks
  import opened ConfigGrammars

  // ----- the tables as plain functions -----

  lemma FindsRead(s: nat, x: nat)
    requires s < 63 && x < 47
    ensures FindShift(ConfigParserTables(), s, x) == Read(ShiftOfstAt(s), -5, x, DefaultAt(s))
    ensures FindReduce(ConfigParserTables(), s, x) == Read(ReduceOfstAt(s), -37, x, DefaultAt(s))
  {}

  /** The packed tables decode to the action and goto tables. */
  lemma TablesDecode(s: nat, x: nat)
    requires s < 63 && x < 47
    ensures Decodes(ConfigGrammar(), ConfigParserTables(), StackClaims(), s, x)
  {
    FindsRead(s, x);
    if x <= 26 { ReadActions(s, x); } else { ReadGotos(s, x); }
  }

  lemma RuleShape(r: nat)
    requires r < 40
    ensures LhsAt(r) == RuleAt(r).lhs && LenAt(r) == |RuleAt(r).rhs| && Produces(LhsAt(r), r)
  {}

  lemma RuleSymbol(r: nat, d: nat)
    requires r < 40 && d < LenAt(r) == |RuleAt(r).rhs|
    ensures RuleAt(r).rhs[d] == SymAt(r, d) < 47
  {}

  // ----- the stack certificate -----

  lemma EdgeKept(s: nat, x: nat, s': nat)
    requires s < 63 && s' < 63 && Edge(s, x, s')
    ensures MoveKept(StackClaims(), s, x, s')
  {
    var c := StackClaims();
    forall k | 0 <= k < c.depth(s') - 1
      ensures Covers(c, s, s', k)
    {
      if s' < 32 { DepthsCover0(s, s', k); } else { DepthsCover32(s, s', k); }
    }
  }

  lemma ClaimsFit()
    ensures Fits(ConfigGrammar(), ConfigParserTables(), StackClaims())
  {
    forall r | 0 <= r < 40
      ensures RuleFits(ConfigGrammar(), ConfigParserTables(), r)
    {
      RuleShape(r);
      LhsInRange(r);
    }
  }

  lemma ReductionIsSpelled(s: nat, x: nat, r: nat)
    requires s < 63 && x < 26 && ActAt(s, x) == 63 + r && r < 40
    ensures |RuleAt(r).rhs| <= DepthAt(s)
    ensures forall i | 0 <= i < |RuleAt(r).rhs| :: PastAt(s, i) == RuleAt(r).rhs[|RuleAt(r).rhs| - 1 - i]
  {
    RuleShape(r);
    ReductionSpelled(s, x, 0);
    forall i | 0 <= i < LenAt(r)
      ensures PastAt(s, i) == RuleAt(r).rhs[LenAt(r) - 1 - i]
    {
      ReductionSpelled(s, x, i);
      RuleSymbol(r, LenAt(r) - 1 - i);
    }
  }

  lemma ReductionGoes(s: nat, x: nat, r: nat, p: nat)
    requires Fits(ConfigGrammar(), ConfigParserTables(), StackClaims())
    requires s < 63 && x < 26 && ActAt(s, x) == 63 + r && r < 40
    requires if LenAt(r) == 0 then p == s else UnderAt(s, LenAt(r) - 1, p)
    ensures GotoOk(ConfigGrammar(), ConfigParserTables(), StackClaims(), s, r, p, x)
  {
    RuleShape(r);
    RuleShape(0);
    if s < 24 { ReductionGoes0(s, x, p); }
    else if s < 48 { ReductionGoes24(s, x, p); }
    else { ReductionGoes48(s, x, p); }
  }

  lemma ReductionChecks(s: nat, x: nat, r: nat)
    requires Fits(ConfigGrammar(), ConfigParserTables(), StackClaims())
    requires s < 63 && x < 26 && ActAt(s, x) == 63 + r && r < 40
    ensures ReduceOk(ConfigGrammar(), ConfigParserTables(), StackClaims(), s, r, x)
  {
    var g, t, c := ConfigGrammar(), ConfigParserTables(), StackClaims();
    RuleShape(r);
    ReductionIsSpelled(s, x, r);
    forall p | if LenAt(r) == 0 then p == s else UnderAt(s, LenAt(r) - 1, p)
      ensures GotoOk(g, t, c, s, r, p, x)
    {
      ReductionGoes(s, x, r, p);
    }
  }

  lemma TokenChecks(s: nat, x: nat)
    requires Fits(ConfigGrammar(), ConfigParserTables(), StackClaims()) && s < 63 && x < 26
    ensures TokenOk(ConfigGrammar(), ConfigParserTables(), StackClaims(), s, x)
  {
    if s < 16 { ActionsKept0(s, x); } else if s < 32 { ActionsKept16(s, x); }
    else if s < 48 { ActionsKept32(s, x); } else { ActionsKept48(s, x); }
    if ActAt(s, x) < 63 {
      EdgeKept(s, x, ActAt(s, x));
    } else if ActAt(s, x) < 103 {
      ReductionChecks(s, x, ActAt(s, x) - 63);
    }
  }

  lemma GotoChecks(s: nat, x: nat)
    requires Fits(ConfigGrammar(), ConfigParserTables(), StackClaims()) && s < 63 && 26 < x < 47
    ensures GotoKept(ConfigGrammar(), ConfigParserTables(), StackClaims(), s, x)
  {
    if s < 8 { GotosKept0(s, x); }
    else if s < 12 { GotosKept8(s, x); }
    else if s < 13 { GotosKept12(s, x); }
    else if s < 16 { GotosKept13(s, x); }
    else if s < 24 { GotosKept16(s, x); }
    else if s < 32 { GotosKept24(s, x); }
    else if s < 40 { GotosKept32(s, x); }
    else if s < 48 { GotosKept40(s, x); }
    else { GotosKept48(s, x); }
    if GotoAt(s, x) < 63 {
      EdgeKept(s, x, GotoAt(s, x));
    }
  }

  lemma StateChecks(s: nat)
    requires Fits(ConfigGrammar(), ConfigParserTables(), StackClaims()) && s < 63
    ensures StateOk(ConfigGrammar(), ConfigParserTables(), StackClaims(), s)
  {
    var g, t, c := ConfigGrammar(), ConfigParserTables(), StackClaims();
    forall x | 0 <= x < 26
      ensures TokenOk(g, t, c, s, x)
    {
      TokenChecks(s, x);
    }
    forall x | 26 < x < 47
      ensures GotoKept(g, t, c, s, x)
    {
      GotoChecks(s, x);
    }
    NoErrorShift(s);
  }

  lemma ConfigCertified()
    ensures Certified(ConfigGrammar(), ConfigParserTables(), StackClaims())
  {
    ClaimsFit();
    forall s, x | 0 <= s < 63 && 0 <= x < 47
      ensures Decodes(ConfigGrammar(), ConfigParserTables(), StackClaims(), s, x)
    {
      TablesDecode(s, x);
    }
    forall s | 0 <= s < 63
      ensures StateOk(ConfigGrammar(), ConfigParserTables(), StackClaims(), s)
    {
      StateChecks(s);
    }
  }

  // ----- the item certificate -----

  lemma RuleVanishes(r: nat, d: nat)
    requires r < 40 && d <= LenAt(r)
    ensures d <= |RuleAt(r).rhs|
    ensures Vanishes(ConfigGrammar(), ItemClaims(), r, d) == VanishesAt(r, d)
    decreases LenAt(r) - d
  {
    RuleShape(r);
    if d < LenAt(r) {
      RuleSymbol(r, d);
      RuleVanishes(r, d + 1);
    }
  }

  lemma RuleBegins(r: nat, d: nat, b: nat)
    requires r < 40 && d <= LenAt(r)
    ensures d <= |RuleAt(r).rhs|
    ensures Begins(ConfigGrammar(), ItemClaims(), r, d, b) == BeginsAt(r, d, b)
    decreases LenAt(r) - d
  {
    RuleShape(r);
    if d < LenAt(r) {
      RuleSymbol(r, d);
      RuleBegins(r, d + 1, b);
    }
  }

  lemma FirstChecks(r: nat, b: nat)
    requires r < 40 && b < 26
    ensures FirstOk(ConfigGrammar(), ItemClaims(), r, b)
  {
    RuleShape(r);
    RuleVanishes(r, 0);
    RuleBegins(r, 0, b);
    NullableClosed(r);
    if r < 20 { FirstClosed0(r, b); } else { FirstClosed20(r, b); }
  }

  lemma ItemsReduce(s: nat, r: nat, d: nat, a: nat)
    requires s < 63 && ItemAt(s, r, d, a)
    ensures r < 40 && d <= LenAt(r) && a < 26 && (d == LenAt(r) ==> ActAt(s, a) == 63 + r)
  {
    if s < 16 { ItemsReduce0(s, r, d, a); }
    else if s < 32 { ItemsReduce16(s, r, d, a); }
    else if s < 48 { ItemsReduce32(s, r, d, a); }
    else { ItemsReduce48(s, r, d, a); }
  }

  lemma ItemsMove(s: nat, r: nat, d: nat, a: nat)
    requires s < 63 && ItemAt(s, r, d, a) && d < LenAt(r)
    ensures DotMoves(s, r, d, a, NextAt(s, SymAt(r, d)))
  {
    if s < 1 { ItemsMove0(s, r, d, a); }
    else if s < 3 { ItemsMove1(s, r, d, a); }
    else if s < 6 { ItemsMove3(s, r, d, a); }
    else if s < 12 { ItemsMove6(s, r, d, a); }
    else if s < 13 { ItemsMove12(s, r, d, a); }
    else if s < 18 { ItemsMove13(s, r, d, a); }
    else if s < 24 { ItemsMove18(s, r, d, a); }
    else if s < 29 { ItemsMove24(s, r, d, a); }
    else if s < 36 { ItemsMove29(s, r, d, a); }
    else if s < 40 { ItemsMove36(s, r, d, a); }
    else if s < 43 { ItemsMove40(s, r, d, a); }
    else if s < 46 { ItemsMove43(s, r, d, a); }
    else if s < 50 { ItemsMove46(s, r, d, a); }
    else if s < 55 { ItemsMove50(s, r, d, a); }
    else if s < 59 { ItemsMove55(s, r, d, a); }
    else { ItemsMove59(s, r, d, a); }
  }

  lemma ItemsPredict(s: nat, r: nat, d: nat, a: nat)
    requires s < 63 && ItemAt(s, r, d, a) && d < LenAt(r)
    ensures Predicts(s, r, d, a, SymAt(r, d))
  {
    if s < 6 { ItemsPredict0(s, r, d, a); }
    else if s < 12 { ItemsPredict6(s, r, d, a); }
    else if s < 18 { ItemsPredict12(s, r, d, a); }
    else if s < 24 { ItemsPredict18(s, r, d, a); }
    else if s < 30 { ItemsPredict24(s, r, d, a); }
    else if s < 36 { ItemsPredict30(s, r, d, a); }
    else if s < 42 { ItemsPredict36(s, r, d, a); }
    else if s < 48 { ItemsPredict42(s, r, d, a); }
    else if s < 54 { ItemsPredict48(s, r, d, a); }
    else if s < 60 { ItemsPredict54(s, r, d, a); }
    else { ItemsPredict60(s, r, d, a); }
  }

  lemma LeadsSame(r: nat, d: nat, a: nat, b: nat)
    requires r < 40 && d <= LenAt(r)
    ensures d <= |RuleAt(r).rhs|
    ensures Leads(ConfigGrammar(), ItemClaims(), r, d, a, b) == LeadsAt(r, d, a, b)
  {
    RuleVanishes(r, d);
    RuleBegins(r, d, b);
  }

  lemma RulePredicted(s: nat, r: nat, d: nat, a: nat, q: nat)
    requires s < 63 && ItemAt(s, r, d, a) && r < 40 && d < LenAt(r) == |RuleAt(r).rhs|
    requires q < 40 && Produces(SymAt(r, d), q)
    ensures Predicted(ConfigGrammar(), ItemClaims(), s, r, d, a, q)
  {
    ItemsPredict(s, r, d, a);
    forall b | 0 <= b < 26 && Leads(ConfigGrammar(), ItemClaims(), r, d + 1, a, b)
      ensures ItemAt(s, q, 0, b)
    {
      LeadsSame(r, d + 1, a, b);
    }
  }

  lemma ItemChecks(s: nat, r: nat, d: nat, a: nat)
    requires s < 63 && ItemAt(s, r, d, a)
    ensures ItemOk(ConfigGrammar(), ConfigParserTables(), StackClaims(), ItemClaims(), s, r, d, a)
  {
    ItemsReduce(s, r, d, a);
    RuleShape(r);
    if d < LenAt(r) {
      RuleSymbol(r, d);
      ItemsMove(s, r, d, a);
      forall q | 0 <= q < 40 && RuleAt(q).lhs == SymAt(r, d)
        ensures Predicted(ConfigGrammar(), ItemClaims(), s, r, d, a, q)
      {
        RuleShape(q);
        RulePredicted(s, r, d, a, q);
      }
    }
  }

  lemma ConfigClosed()
    ensures Closed(ConfigGrammar(), ConfigParserTables(), StackClaims(), ItemClaims())
  {
    var g, t, c, k := ConfigGrammar(), ConfigParserTables(), StackClaims(), ItemClaims();
    RuleShape(0);
    forall r, b | 0 <= r < 40 && 0 <= b < 26
      ensures FirstOk(g, k, r, b)
    {
      FirstChecks(r, b);
    }
    forall s, r, d, a | 0 <= s < 63 && k.item(s, r, d, a)
      ensures ItemOk(g, t, c, k, s, r, d, a)
    {
      ItemChecks(s, r, d, a);
    }
    forall q | 0 <= q < 40 && g.rules[q].lhs == Start(g)
      ensures k.item(0, q, 0, 0)
    {
      RuleShape(q);
    }
  }

  // ----- the shipped parser -----

  const INPUT := 27

  ghost predicate IsConfigInput(tokens: seq<nat>) {
    forall i | 0 <= i < |tokens| :: 1 <= tokens[i] < 26
  }

  /** The empty file is a configuration, although the driver never starts a parse for it. */
  lemma EmptyInput()
    ensures Derives(ConfigGrammar(), INPUT, [])
  {
    var g := ConfigGrammar();
    RuleShape(0);
    RuleShape(2);
    var lines := Node(2, []);
    assert Roots(g, []) == [];
    assert IsTree(g, lines);
    assert Roots(g, [lines]) == [28];
    assert IsTree(g, Node(0, [lines]));
    assert Yields([lines]) == Yield(lines) + Yields([lines][1..]) == [];
    assert Root(g, Node(0, [lines])) == INPUT && Yield(Node(0, [lines])) == [];
  }

  /** What the shipped parser is left with after a whole configuration. */
  ghost function Outcome(tokens: seq<nat>): Machine
    requires IsConfigInput(tokens)
  {
    ConfigCertified();
    FeedAll(ConfigGrammar(), ConfigParserTables(), StackClaims(), FRESH, tokens + [0])
  }

  /** The shipped parser on a configuration, with its parse tree: it is accepted and the parser is as
      new if the tree fits its stack of 100 entries, and the stack overflows if not. */
  lemma ShippedParserAccepts(tokens: seq<nat>, tree: Tree)
    requires IsConfigInput(tokens) && tokens != []
    requires IsTree(ConfigGrammar(), tree) && Root(ConfigGrammar(), tree) == INPUT && Yield(tree) == tokens
    ensures if FitsStack(tree) then Outcome(tokens) == FRESH else Outcome(tokens).overflowed
  {
    ConfigCertified();
    ConfigClosed();
    RuleShape(0);
    Completeness(ConfigGrammar(), ConfigParserTables(), StackClaims(), ItemClaims(), tokens, tree);
  }

  /** Unless its stack overflows, the shipped parser leaves `ok` set exactly on the token strings
      that its grammar derives from `input`. */
  lemma ShippedParserDecides(tokens: seq<nat>)
    requires IsConfigInput(tokens)
    ensures !Outcome(tokens).overflowed ==> (Outcome(tokens).ok <==> Derives(ConfigGrammar(), INPUT, tokens))
  {
    var g, t, c := ConfigGrammar(), ConfigParserTables(), StackClaims();
    ConfigCertified();
    RuleShape(0);
    EmptyInput();
    Soundness(g, t, c, tokens);
    if tokens == [] {
      assert FeedAll(g, t, c, FRESH, [0]) == FRESH;
      assert tokens + [0] == [0];
    } else if Derives(g, INPUT, tokens) {
      var tree :| IsTree(g, tree) && Root(g, tree) == INPUT && Yield(tree) == tokens;
      ShippedParserAccepts(tokens, tree);
    }
  }

  /** Success without overflow is exactly having a parse tree that fits the stack. */
  lemma AcceptedIffFits(tokens: seq<nat>)
    requires IsConfigInput(tokens) && tokens != []
    ensures Outcome(tokens) == FRESH <==>
      exists tree :: IsTree(ConfigGrammar(), tree) && Root(ConfigGrammar(), tree) == INPUT && Yield(tree) == tokens &&
        FitsStack(tree)
  {
    ShippedParserDecides(tokens);
    if Outcome(tokens) == FRESH {
      var tree :| IsTree(ConfigGrammar(), tree) && Root(ConfigGrammar(), tree) == INPUT && Yield(tree) == tokens;
      ShippedParserAccepts(tokens, tree);
    }
    if tree :|
      IsTree(ConfigGrammar(), tree) && Root(ConfigGrammar(), tree) == INPUT && Yield(tree) == tokens && FitsStack(tree)
    {
      ShippedParserAccepts(tokens, tree);
    }
  }

  /** The parser object run on a whole configuration. */
  method ParseConfig(tokens: seq<nat>) returns (p: Parser)
    requires IsConfigInput(tokens)
    ensures fresh(p) && p.Valid() && p.Machine() == Outcome(tokens)
    ensures !p.overflowed ==> (p.ok <==> Derives(ConfigGrammar(), INPUT, tokens))
  {
    ConfigCertified();
    ShippedParserDecides(tokens);
    p := ParseAll(ConfigParserTables(), tokens, ConfigGrammar(), StackClaims());
  }
}
