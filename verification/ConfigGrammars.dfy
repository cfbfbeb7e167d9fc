/** The shipped configuration grammar and tables as the objects the parser works on. */
module ConfigGrammars {
  import opened Grammars
  import opened ParseTables
  import opened LrCertificate
  import opened LrCompleteness
  import opened ConfigTables

  /** The rules, numbered as in yyRuleName; symbols are numbered as in yyTokenName. */
  function RuleAt(r: nat): Rule {
    match r
    case 0 => Rule(27, [28])  // input -> metalines
    case 1 => Rule(28, [28, 29])  // metalines -> metalines metaline
    case 2 => Rule(28, [])  // metalines ->
    case 3 => Rule(29, [30])  // metaline -> varline
    case 4 => Rule(29, [31])  // metaline -> global
    case 5 => Rule(29, [32, 1])  // metaline -> condlines EOL
    case 6 => Rule(29, [33])  // metaline -> include
    case 7 => Rule(29, [34])  // metaline -> include_shell
    case 8 => Rule(29, [1])  // metaline -> EOL
    case 9 => Rule(30, [41, 2, 36])  // varline -> key ASSIGN expression
    case 10 => Rule(30, [41, 3, 36])  // varline -> key APPEND expression
    case 11 => Rule(41, [4])  // key -> LKEY
    case 12 => Rule(36, [36, 5, 35])  // expression -> expression PLUS value
    case 13 => Rule(36, [35])  // expression -> value
    case 14 => Rule(35, [41])  // value -> key
    case 15 => Rule(35, [6])  // value -> STRING
    case 16 => Rule(35, [7])  // value -> INTEGER
    case 17 => Rule(35, [40])  // value -> array
    case 18 => Rule(40, [8, 9])  // array -> LPARAN RPARAN
    case 19 => Rule(40, [8, 39, 9])  // array -> LPARAN aelements RPARAN
    case 20 => Rule(39, [39, 10, 37])  // aelements -> aelements COMMA aelement
    case 21 => Rule(39, [39, 10])  // aelements -> aelements COMMA
    case 22 => Rule(39, [37])  // aelements -> aelement
    case 23 => Rule(37, [36])  // aelement -> expression
    case 24 => Rule(37, [42, 11, 36])  // aelement -> stringop ARRAY_ASSIGN expression
    case 25 => Rule(44, [1])  // eols -> EOL
    case 26 => Rule(44, [])  // eols ->
    case 27 => Rule(45, [12])  // globalstart -> GLOBAL
    case 28 => Rule(31, [45, 13, 28, 14])  // global -> globalstart LCURLY metalines RCURLY
    case 29 => Rule(32, [32, 44, 15, 38])  // condlines -> condlines eols ELSE condline
    case 30 => Rule(32, [38])  // condlines -> condline
    case 31 => Rule(38, [46, 13, 28, 14])  // condline -> context LCURLY metalines RCURLY
    case 32 => Rule(46, [16, 17, 18, 42, 19, 43, 36])  // context -> DOLLAR SRVVARNAME LBRACKET stringop RBRACKET cond expression
    case 33 => Rule(43, [20])  // cond -> EQ
    case 34 => Rule(43, [21])  // cond -> MATCH
    case 35 => Rule(43, [22])  // cond -> NE
    case 36 => Rule(43, [23])  // cond -> NOMATCH
    case 37 => Rule(42, [36])  // stringop -> expression
    case 38 => Rule(33, [24, 42])  // include -> INCLUDE stringop
    case _ => Rule(34, [25, 42])  // include_shell -> INCLUDE_SHELL stringop
  }

  function Info(r: nat): RuleInfo {
    RuleInfo(RuleAt(r).lhs, |RuleAt(r).rhs|)
  }

  function ConfigGrammar(): (g: Grammar)
    ensures g.nterminal == 26 && g.nsymbol == 47 && |g.rules| == 40
    ensures forall r | 0 <= r < 40 :: g.rules[r] == RuleAt(r)
  {
    Grammar(26, 47, seq(40, i requires 0 <= i < 40 => RuleAt(i)))
  }

  function ConfigParserTables(): (t: Tables)
    ensures t.Shaped() && t.nstate == 63 && t.nrule == 40 && t.noCode == 48 && t.errorSymbol == 26
    ensures t.shiftUseDflt == -5 && t.reduceUseDflt == -37 && |t.action| == 128
    ensures forall i | 0 <= i < 128 :: t.action[i] == ActionAt(i) && t.lookahead[i] == LookaheadAt(i)
    ensures forall s | 0 <= s < 63 :: t.shiftOfst[s] == ShiftOfstAt(s) && t.reduceOfst[s] == ReduceOfstAt(s)
    ensures forall s | 0 <= s < 63 :: t.dflt[s] == DefaultAt(s)
    ensures forall r | 0 <= r < 40 :: t.ruleInfo[r] == Info(r)
  {
    Tables(63, 40, 48, 26,
           seq(128, i requires 0 <= i < 128 => ActionAt(i)), seq(128, i requires 0 <= i < 128 => LookaheadAt(i)),
           seq(63, i requires 0 <= i < 63 => ShiftOfstAt(i)), -5,
           seq(63, i requires 0 <= i < 63 => ReduceOfstAt(i)), -37,
           seq(63, i requires 0 <= i < 63 => DefaultAt(i)), seq(40, i requires 0 <= i < 40 => Info(i)))
  }

  ghost function StackClaims(): (c: Certificate)
    ensures forall s :: c.depth(s) == DepthAt(s) && c.rank(s) == RankAt(s)
    ensures forall s, x :: c.act(s, x) == ActAt(s, x) && c.goto(s, x) == GotoAt(s, x)
    ensures forall s, k :: c.past(s, k) == PastAt(s, k)
    ensures forall s, k, p :: c.under(s, k, p) == UnderAt(s, k, p)
  {
    Certificate(ActAt, GotoAt, DepthAt, PastAt, UnderAt, RankAt)
  }

  ghost function ItemClaims(): (k: Items)
    ensures forall s, r, d, a :: k.item(s, r, d, a) == ItemAt(s, r, d, a)
    ensures forall x :: k.nullable(x) == NullableAt(x)
    ensures forall x, b :: k.first(x, b) == FirstAt(x, b)
  {
    Items(ItemAt, NullableAt, FirstAt)
  }
}
