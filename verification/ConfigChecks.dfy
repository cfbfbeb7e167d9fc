/** The local checks behind the two certificates, made by evaluating the table functions. */
module ConfigChecks {
  import opened ConfigTables

  function Read(ofst: int, unused: int, x: nat, otherwise: nat): nat {
    if ofst == unused || ofst + x < 0 || ofst + x >= 128 || LookaheadAt(ofst + x) != x then otherwise
    else ActionAt(ofst + x)
  }

  lemma DefaultIsNoState(s: nat)
    ensures DefaultAt(s) >= 63
  {}

  lemma ReadActions0(s: nat, x: nat)
    requires s < 16 && x <= 26
    ensures Read(ShiftOfstAt(s), -5, x, DefaultAt(s)) == ActAt(s, x)
  {}

  lemma ReadActions16(s: nat, x: nat)
    requires 16 <= s < 32 && x <= 26
    ensures Read(ShiftOfstAt(s), -5, x, DefaultAt(s)) == ActAt(s, x)
  {}

  lemma ReadActions32(s: nat, x: nat)
    requires 32 <= s < 48 && x <= 26
    ensures Read(ShiftOfstAt(s), -5, x, DefaultAt(s)) == ActAt(s, x)
  {}

  lemma ReadActions48(s: nat, x: nat)
    requires 48 <= s < 63 && x <= 26
    ensures Read(ShiftOfstAt(s), -5, x, DefaultAt(s)) == ActAt(s, x)
  {}

  lemma ReadGotos0(s: nat, x: nat)
    requires s < 16 && 26 < x < 47
    ensures Read(ReduceOfstAt(s), -37, x, DefaultAt(s)) == GotoAt(s, x)
  {}

  lemma ReadGotos16(s: nat, x: nat)
    requires 16 <= s < 32 && 26 < x < 47
    ensures Read(ReduceOfstAt(s), -37, x, DefaultAt(s)) == GotoAt(s, x)
  {}

  lemma ReadGotos32(s: nat, x: nat)
    requires 32 <= s < 40 && 26 < x < 47
    ensures Read(ReduceOfstAt(s), -37, x, DefaultAt(s)) == GotoAt(s, x)
  {}

  lemma ReadGotos40(s: nat, x: nat)
    requires 40 <= s < 48 && 26 < x < 47
    ensures Read(ReduceOfstAt(s), -37, x, DefaultAt(s)) == GotoAt(s, x)
  {}

  lemma ReadGotos48(s: nat, x: nat)
    requires 48 <= s < 63 && 26 < x < 47
    ensures Read(ReduceOfstAt(s), -37, x, DefaultAt(s)) == GotoAt(s, x)
  {}

  lemma ReadActions(s: nat, x: nat)
    requires s < 63 && x <= 26
    ensures Read(ShiftOfstAt(s), -5, x, DefaultAt(s)) == ActAt(s, x)
  {
    if s < 16 { ReadActions0(s, x); } else if s < 32 { ReadActions16(s, x); }
    else if s < 48 { ReadActions32(s, x); } else { ReadActions48(s, x); }
  }

  lemma ReadGotos(s: nat, x: nat)
    requires s < 63 && 26 < x < 47
    ensures Read(ReduceOfstAt(s), -37, x, DefaultAt(s)) == GotoAt(s, x)
  {
    if s < 16 { ReadGotos0(s, x); } else if s < 32 { ReadGotos16(s, x); }
    else if s < 40 { ReadGotos32(s, x); } else if s < 48 { ReadGotos40(s, x); } else { ReadGotos48(s, x); }
  }

  ghost predicate Edge(s: nat, x: nat, s': nat) {
    s' != 0 && DepthAt(s') <= 1 + DepthAt(s) && PastAt(s', 0) == x && UnderAt(s', 0, s)
  }

  lemma ActionsKept0(s: nat, x: nat)
    requires s < 16 && x < 26
    ensures ActAt(s, x) <= 103 && (ActAt(s, x) < 63 ==> x != 0 && Edge(s, x, ActAt(s, x)))
  {}

  lemma ActionsKept16(s: nat, x: nat)
    requires 16 <= s < 32 && x < 26
    ensures ActAt(s, x) <= 103 && (ActAt(s, x) < 63 ==> x != 0 && Edge(s, x, ActAt(s, x)))
  {}

  lemma ActionsKept32(s: nat, x: nat)
    requires 32 <= s < 48 && x < 26
    ensures ActAt(s, x) <= 103 && (ActAt(s, x) < 63 ==> x != 0 && Edge(s, x, ActAt(s, x)))
  {}

  lemma ActionsKept48(s: nat, x: nat)
    requires 48 <= s < 63 && x < 26
    ensures ActAt(s, x) <= 103 && (ActAt(s, x) < 63 ==> x != 0 && Edge(s, x, ActAt(s, x)))
  {}

  lemma NoErrorShift(s: nat)
    requires s < 63
    ensures ActAt(s, 26) >= 63
  {
    DefaultIsNoState(s);
  }

  lemma GotosKept0(s: nat, x: nat)
    requires s < 8 && 26 < x < 47
    ensures GotoAt(s, x) < 63 ==> Edge(s, x, GotoAt(s, x))
  {
    DefaultIsNoState(s);
  }

  lemma GotosKept8(s: nat, x: nat)
    requires 8 <= s < 12 && 26 < x < 47
    ensures GotoAt(s, x) < 63 ==> Edge(s, x, GotoAt(s, x))
  {
    DefaultIsNoState(s);
  }

  lemma GotosKept12(s: nat, x: nat)
    requires s == 12 && 26 < x < 47
    ensures GotoAt(s, x) < 63 ==> Edge(s, x, GotoAt(s, x))
  {
    DefaultIsNoState(s);
  }

  lemma GotosKept13(s: nat, x: nat)
    requires 13 <= s < 16 && 26 < x < 47
    ensures GotoAt(s, x) < 63 ==> Edge(s, x, GotoAt(s, x))
  {
    DefaultIsNoState(s);
  }

  lemma GotosKept16(s: nat, x: nat)
    requires 16 <= s < 24 && 26 < x < 47
    ensures GotoAt(s, x) < 63 ==> Edge(s, x, GotoAt(s, x))
  {
    DefaultIsNoState(s);
  }

  lemma GotosKept24(s: nat, x: nat)
    requires 24 <= s < 32 && 26 < x < 47
    ensures GotoAt(s, x) < 63 ==> Edge(s, x, GotoAt(s, x))
  {
    DefaultIsNoState(s);
  }

  lemma GotosKept32(s: nat, x: nat)
    requires 32 <= s < 40 && 26 < x < 47
    ensures GotoAt(s, x) < 63 ==> Edge(s, x, GotoAt(s, x))
  {
    DefaultIsNoState(s);
  }

  lemma GotosKept40(s: nat, x: nat)
    requires 40 <= s < 48 && 26 < x < 47
    ensures GotoAt(s, x) < 63 ==> Edge(s, x, GotoAt(s, x))
  {
    DefaultIsNoState(s);
  }

  lemma GotosKept48(s: nat, x: nat)
    requires 48 <= s < 63 && 26 < x < 47
    ensures GotoAt(s, x) < 63 ==> Edge(s, x, GotoAt(s, x))
  {
    DefaultIsNoState(s);
  }

  lemma DepthsCover0(s: nat, s': nat, k: nat)
    requires s' < 32 && UnderAt(s', 0, s) && k + 1 < DepthAt(s')
    ensures PastAt(s', k + 1) == PastAt(s, k) && forall p | UnderAt(s, k, p) :: UnderAt(s', k + 1, p)
  {}

  lemma DepthsCover32(s: nat, s': nat, k: nat)
    requires 32 <= s' < 63 && UnderAt(s', 0, s) && k + 1 < DepthAt(s')
    ensures PastAt(s', k + 1) == PastAt(s, k) && forall p | UnderAt(s, k, p) :: UnderAt(s', k + 1, p)
  {}

  lemma ReductionSpelled(s: nat, x: nat, i: nat)
    requires s < 63 && x < 26 && 63 <= ActAt(s, x) < 103
    ensures LenAt(ActAt(s, x) - 63) <= DepthAt(s)
    ensures i < LenAt(ActAt(s, x) - 63) ==> PastAt(s, i) == SymAt(ActAt(s, x) - 63, LenAt(ActAt(s, x) - 63) - 1 - i)
  {}

  ghost predicate GotoFine(s: nat, x: nat, r: nat, p: nat) {
    && p < 63
    && var goto := GotoAt(p, LhsAt(r));
       || (goto < 63 && 1 + RankAt(goto) < LenAt(r) + RankAt(s))
       || (goto == 104 && p == 0 && x == 0 && LhsAt(r) == 27)
  }

  lemma ReductionGoes0(s: nat, x: nat, p: nat)
    requires s < 24 && x < 26 && 63 <= ActAt(s, x) < 103
    requires if LenAt(ActAt(s, x) - 63) == 0 then p == s else UnderAt(s, LenAt(ActAt(s, x) - 63) - 1, p)
    ensures GotoFine(s, x, ActAt(s, x) - 63, p)
  {}

  lemma ReductionGoes24(s: nat, x: nat, p: nat)
    requires 24 <= s < 48 && x < 26 && 63 <= ActAt(s, x) < 103
    requires if LenAt(ActAt(s, x) - 63) == 0 then p == s else UnderAt(s, LenAt(ActAt(s, x) - 63) - 1, p)
    ensures GotoFine(s, x, ActAt(s, x) - 63, p)
  {}

  lemma ReductionGoes48(s: nat, x: nat, p: nat)
    requires 48 <= s < 63 && x < 26 && 63 <= ActAt(s, x) < 103
    requires if LenAt(ActAt(s, x) - 63) == 0 then p == s else UnderAt(s, LenAt(ActAt(s, x) - 63) - 1, p)
    ensures GotoFine(s, x, ActAt(s, x) - 63, p)
  {}

  /** A path through the automaton is no higher than claimed, and ends at a closing bracket. */
  lemma HeightsGrow(s: nat, s': nat)
    requires s' < 63 && UnderAt(s', 0, s)
    ensures !ClosedAt(s) && (BracketAt(PastAt(s', 0)) < 0 ==> ClosedAt(s'))
    ensures HeightAt(s) + 1 <= HeightAt(s') + if BracketAt(PastAt(s', 0)) > 0 then 7 else 0
  {}

  lemma HeightsBounded(s: nat)
    ensures HeightAt(s) <= 13
  {}

  lemma LhsInRange(r: nat)
    ensures 26 < LhsAt(r) < 47
  {}

  /** The entries of the tables that parsing include ( ( ( reads. */
  lemma NestedEntries()
    ensures ActAt(0, 24) == 65 && LenAt(2) == 0 && LhsAt(2) == 28 && GotoAt(0, 28) == 1
    ensures ActAt(1, 24) == 58 && ActAt(58, 8) == 26 && ActAt(26, 8) == 26
  {}

  // ----- items -----

  predicate NullableSym(x: nat) {
    26 <= x && NullableAt(x)
  }

  predicate VanishesAt(r: nat, d: nat)
    requires d <= LenAt(r)
    decreases LenAt(r) - d
  {
    d == LenAt(r) || (NullableSym(SymAt(r, d)) && VanishesAt(r, d + 1))
  }

  predicate BeginsAt(r: nat, d: nat, b: nat)
    requires d <= LenAt(r)
    decreases LenAt(r) - d
  {
    d < LenAt(r)
    && ((if SymAt(r, d) < 26 then SymAt(r, d) == b else FirstAt(SymAt(r, d), b))
        || (NullableSym(SymAt(r, d)) && BeginsAt(r, d + 1, b)))
  }

  predicate LeadsAt(r: nat, d: nat, a: nat, b: nat)
    requires d <= LenAt(r)
  {
    BeginsAt(r, d, b) || (a == b && VanishesAt(r, d))
  }

  lemma NullableClosed(r: nat)
    requires r < 40
    ensures VanishesAt(r, 0) ==> NullableAt(LhsAt(r))
  {}

  lemma FirstClosed0(r: nat, b: nat)
    requires r < 20 && b < 26
    ensures BeginsAt(r, 0, b) ==> FirstAt(LhsAt(r), b)
  {}

  lemma FirstClosed20(r: nat, b: nat)
    requires 20 <= r < 40 && b < 26
    ensures BeginsAt(r, 0, b) ==> FirstAt(LhsAt(r), b)
  {}

  function NextAt(s: nat, x: nat): nat {
    if x < 26 then ActAt(s, x) else GotoAt(s, x)
  }

  ghost predicate DotMoves(s: nat, r: nat, d: nat, a: nat, n: nat) {
    n < 63 && SymAt(r, d) < 47 && SymAt(r, d) != 26 && ItemAt(n, r, d + 1, a)
  }

  ghost predicate Predicts(s: nat, r: nat, d: nat, a: nat, x: nat)
    requires d < LenAt(r)
  {
    forall q, b | Produces(x, q) && 0 <= b < 26 && LeadsAt(r, d + 1, a, b) :: ItemAt(s, q, 0, b)
  }

  lemma ItemsReduce0(s: nat, r: nat, d: nat, a: nat)
    requires s < 16 && ItemAt(s, r, d, a)
    ensures r < 40 && d <= LenAt(r) && a < 26 && (d == LenAt(r) ==> ActAt(s, a) == 63 + r)
  {}

  lemma ItemsReduce16(s: nat, r: nat, d: nat, a: nat)
    requires 16 <= s < 32 && ItemAt(s, r, d, a)
    ensures r < 40 && d <= LenAt(r) && a < 26 && (d == LenAt(r) ==> ActAt(s, a) == 63 + r)
  {}

  lemma ItemsReduce32(s: nat, r: nat, d: nat, a: nat)
    requires 32 <= s < 48 && ItemAt(s, r, d, a)
    ensures r < 40 && d <= LenAt(r) && a < 26 && (d == LenAt(r) ==> ActAt(s, a) == 63 + r)
  {}

  lemma ItemsReduce48(s: nat, r: nat, d: nat, a: nat)
    requires 48 <= s < 63 && ItemAt(s, r, d, a)
    ensures r < 40 && d <= LenAt(r) && a < 26 && (d == LenAt(r) ==> ActAt(s, a) == 63 + r)
  {}

  lemma ItemsMove0(s: nat, r: nat, d: nat, a: nat)
    requires s == 0 && ItemAt(s, r, d, a) && d < LenAt(r)
    ensures DotMoves(s, r, d, a, NextAt(s, SymAt(r, d)))
  {}

  lemma ItemsMove1(s: nat, r: nat, d: nat, a: nat)
    requires 1 <= s < 3 && ItemAt(s, r, d, a) && d < LenAt(r)
    ensures DotMoves(s, r, d, a, NextAt(s, SymAt(r, d)))
  {}

  lemma ItemsMove3(s: nat, r: nat, d: nat, a: nat)
    requires 3 <= s < 6 && ItemAt(s, r, d, a) && d < LenAt(r)
    ensures DotMoves(s, r, d, a, NextAt(s, SymAt(r, d)))
  {}

  lemma ItemsMove6(s: nat, r: nat, d: nat, a: nat)
    requires 6 <= s < 12 && ItemAt(s, r, d, a) && d < LenAt(r)
    ensures DotMoves(s, r, d, a, NextAt(s, SymAt(r, d)))
  {}

  lemma ItemsMove12(s: nat, r: nat, d: nat, a: nat)
    requires s == 12 && ItemAt(s, r, d, a) && d < LenAt(r)
    ensures DotMoves(s, r, d, a, NextAt(s, SymAt(r, d)))
  {}

  lemma ItemsMove13(s: nat, r: nat, d: nat, a: nat)
    requires 13 <= s < 18 && ItemAt(s, r, d, a) && d < LenAt(r)
    ensures DotMoves(s, r, d, a, NextAt(s, SymAt(r, d)))
  {}

  lemma ItemsMove18(s: nat, r: nat, d: nat, a: nat)
    requires 18 <= s < 24 && ItemAt(s, r, d, a) && d < LenAt(r)
    ensures DotMoves(s, r, d, a, NextAt(s, SymAt(r, d)))
  {}

  lemma ItemsMove24(s: nat, r: nat, d: nat, a: nat)
    requires 24 <= s < 29 && ItemAt(s, r, d, a) && d < LenAt(r)
    ensures DotMoves(s, r, d, a, NextAt(s, SymAt(r, d)))
  {}

  lemma ItemsMove29(s: nat, r: nat, d: nat, a: nat)
    requires 29 <= s < 36 && ItemAt(s, r, d, a) && d < LenAt(r)
    ensures DotMoves(s, r, d, a, NextAt(s, SymAt(r, d)))
  {}

  lemma ItemsMove36(s: nat, r: nat, d: nat, a: nat)
    requires 36 <= s < 40 && ItemAt(s, r, d, a) && d < LenAt(r)
    ensures DotMoves(s, r, d, a, NextAt(s, SymAt(r, d)))
  {}

  lemma ItemsMove40(s: nat, r: nat, d: nat, a: nat)
    requires 40 <= s < 43 && ItemAt(s, r, d, a) && d < LenAt(r)
    ensures DotMoves(s, r, d, a, NextAt(s, SymAt(r, d)))
  {}

  lemma ItemsMove43(s: nat, r: nat, d: nat, a: nat)
    requires 43 <= s < 46 && ItemAt(s, r, d, a) && d < LenAt(r)
    ensures DotMoves(s, r, d, a, NextAt(s, SymAt(r, d)))
  {}

  lemma ItemsMove46(s: nat, r: nat, d: nat, a: nat)
    requires 46 <= s < 50 && ItemAt(s, r, d, a) && d < LenAt(r)
    ensures DotMoves(s, r, d, a, NextAt(s, SymAt(r, d)))
  {}

  lemma ItemsMove50(s: nat, r: nat, d: nat, a: nat)
    requires 50 <= s < 55 && ItemAt(s, r, d, a) && d < LenAt(r)
    ensures DotMoves(s, r, d, a, NextAt(s, SymAt(r, d)))
  {}

  lemma ItemsMove55(s: nat, r: nat, d: nat, a: nat)
    requires 55 <= s < 59 && ItemAt(s, r, d, a) && d < LenAt(r)
    ensures DotMoves(s, r, d, a, NextAt(s, SymAt(r, d)))
  {}

  lemma ItemsMove59(s: nat, r: nat, d: nat, a: nat)
    requires 59 <= s < 63 && ItemAt(s, r, d, a) && d < LenAt(r)
    ensures DotMoves(s, r, d, a, NextAt(s, SymAt(r, d)))
  {}

  lemma ItemsPredict0(s: nat, r: nat, d: nat, a: nat)
    requires s < 6 && ItemAt(s, r, d, a) && d < LenAt(r)
    ensures Predicts(s, r, d, a, SymAt(r, d))
  {}

  lemma ItemsPredict6(s: nat, r: nat, d: nat, a: nat)
    requires 6 <= s < 12 && ItemAt(s, r, d, a) && d < LenAt(r)
    ensures Predicts(s, r, d, a, SymAt(r, d))
  {}

  lemma ItemsPredict12(s: nat, r: nat, d: nat, a: nat)
    requires 12 <= s < 18 && ItemAt(s, r, d, a) && d < LenAt(r)
    ensures Predicts(s, r, d, a, SymAt(r, d))
  {}

  lemma ItemsPredict18(s: nat, r: nat, d: nat, a: nat)
    requires 18 <= s < 24 && ItemAt(s, r, d, a) && d < LenAt(r)
    ensures Predicts(s, r, d, a, SymAt(r, d))
  {}

  lemma ItemsPredict24(s: nat, r: nat, d: nat, a: nat)
    requires 24 <= s < 30 && ItemAt(s, r, d, a) && d < LenAt(r)
    ensures Predicts(s, r, d, a, SymAt(r, d))
  {}

  lemma ItemsPredict30(s: nat, r: nat, d: nat, a: nat)
    requires 30 <= s < 36 && ItemAt(s, r, d, a) && d < LenAt(r)
    ensures Predicts(s, r, d, a, SymAt(r, d))
  {}

  lemma ItemsPredict36(s: nat, r: nat, d: nat, a: nat)
    requires 36 <= s < 42 && ItemAt(s, r, d, a) && d < LenAt(r)
    ensures Predicts(s, r, d, a, SymAt(r, d))
  {}

  lemma ItemsPredict42(s: nat, r: nat, d: nat, a: nat)
    requires 42 <= s < 48 && ItemAt(s, r, d, a) && d < LenAt(r)
    ensures Predicts(s, r, d, a, SymAt(r, d))
  {}

  lemma ItemsPredict48(s: nat, r: nat, d: nat, a: nat)
    requires 48 <= s < 54 && ItemAt(s, r, d, a) && d < LenAt(r)
    ensures Predicts(s, r, d, a, SymAt(r, d))
  {}

  lemma ItemsPredict54(s: nat, r: nat, d: nat, a: nat)
    requires 54 <= s < 60 && ItemAt(s, r, d, a) && d < LenAt(r)
    ensures Predicts(s, r, d, a, SymAt(r, d))
  {}

  lemma ItemsPredict60(s: nat, r: nat, d: nat, a: nat)
    requires 60 <= s < 63 && ItemAt(s, r, d, a) && d < LenAt(r)
    ensures Predicts(s, r, d, a, SymAt(r, d))
  {}
}
