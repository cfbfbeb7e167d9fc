/** The generated driver as it runs: a parser object whose stack is pushed and popped in place
    (src/lempar.c). Each method is tied to the machine that specifies it. */
module LrParser {
  import opened Grammars
  import opened ParseTables
  import opened LrMachine
  import opened LrCertificate

  /** All that the loop below needs to know about one turn. */
  lemma TurnSettles(g: Grammar, t: Tables, c: Certificate, l: Loop) returns (l': Loop)
    requires Running(g, t, c, l) && l.la.Some? && l.m.stack != []
    ensures CanAct(t, l.m.stack, l.la.value) && l' == Iterate(t, l)
    ensures && Running(g, t, c, l') && Settle(g, t, c, l') == Settle(g, t, c, l)
            && Measure(c, l') < Measure(c, l)
            && l'.atEnd == l.atEnd && (l'.la.Some? ==> l'.la.value != t.noCode)
  {
    TurnKeeps(g, t, c, l);
    SettleTurn(g, t, c, l);
    l' := Iterate(t, l);
  }

  class Parser {
    const t: Tables
    var yyidx: int               // index of the top element, -1 when uninitialised
    var yyerrcnt: int            // shifts left before out of the error
    var yystack: array<Entry>
    var ok: bool                 // ctx->ok, cleared by %parse_failure
    ghost var overflowed: bool

    ghost predicate Valid()
      reads this, yystack
    {
      && yystack.Length == STACK_DEPTH && -1 <= yyidx < STACK_DEPTH
      && InRange(t, yystack[..yyidx + 1])
    }

    ghost function Machine(): Machine
      requires -1 <= yyidx < yystack.Length
      reads this, yystack
    {
      LrMachine.Machine(yystack[..yyidx + 1], ok, overflowed)
    }

    constructor (t: Tables)
      requires t.Shaped()
      ensures Valid() && fresh(yystack) && this.t == t && Machine() == FRESH
    {
      this.t := t;
      yyidx, yyerrcnt, ok, overflowed := -1, -1, true, false;
      yystack := new Entry[STACK_DEPTH](_ => Entry(0, 0));
    }

    method FindShiftAction(la: nat) returns (act: nat)
      requires Valid() && yyidx >= 0
      ensures act == FindShift(t, Top(yystack[..yyidx + 1]), la)
    {
      var stateno := yystack[yyidx].stateno;
      var i := t.shiftOfst[stateno];
      if i == t.shiftUseDflt { return t.dflt[stateno]; }
      if la == t.noCode { return t.NoAction(); }
      i := i + la;
      if i < 0 || i >= |t.action| || t.lookahead[i] != la {
        return t.dflt[stateno];
      } else {
        return t.action[i];
      }
    }

    method FindReduceAction(la: nat) returns (act: nat)
      requires Valid() && yyidx >= 0
      ensures act == FindReduce(t, Top(yystack[..yyidx + 1]), la)
    {
      var stateno := yystack[yyidx].stateno;
      var i := t.reduceOfst[stateno];
      if i == t.reduceUseDflt { return t.dflt[stateno]; }
      if la == t.noCode { return t.NoAction(); }
      i := i + la;
      if i < 0 || i >= |t.action| || t.lookahead[i] != la {
        return t.dflt[stateno];
      } else {
        return t.action[i];
      }
    }

    method PopAll()
      requires Valid()
      modifies `yyidx
      ensures Valid() && Machine() == old(Machine()).(stack := [])
    {
      while yyidx >= 0
        invariant -1 <= yyidx <= old(yyidx)
      {
        yyidx := yyidx - 1;
      }
    }

    method Shift(newState: nat, major: nat)
      requires Valid() && newState < t.nstate
      modifies this, yystack
      ensures Valid() && yystack == old(yystack) && Machine() == Push(old(Machine()), newState, major)
    {
      yyidx := yyidx + 1;
      if yyidx >= STACK_DEPTH {
        yyidx := yyidx - 1;
        PopAll();
        overflowed := true;
        return;
      }
      yystack[yyidx] := Entry(newState, major);
    }

    method Reduce(ruleno: nat)
      requires Valid() && ruleno < t.nrule && t.ruleInfo[ruleno].nrhs <= yyidx
      modifies this, yystack
      ensures Valid() && yystack == old(yystack) && Machine() == LrMachine.Reduce(t, old(Machine()), ruleno)
    {
      var goto, size := t.ruleInfo[ruleno].lhs, t.ruleInfo[ruleno].nrhs;
      ghost var stack := yystack[..yyidx + 1];
      yyidx := yyidx - size;
      assert yystack[..yyidx + 1] == stack[..|stack| - size];
      var act := FindReduceAction(goto);
      if act < t.nstate {
        Shift(act, goto);
      } else if act == t.AcceptAction() {
        PopAll();
      }
    }

    /** Pop until some state shifts the error symbol; `act` is that shift. */
    method PopToErrorState() returns (act: nat)
      requires Valid() && yyidx >= 0
      modifies `yyidx
      ensures Valid() && Machine() == old(Machine()).(stack := PopToError(t, old(Machine()).stack))
      ensures yyidx >= 0 ==> act == FindShift(t, Top(Machine().stack), t.errorSymbol) < t.nstate
    {
      act := FindShiftAction(t.errorSymbol);
      ghost var rest := PopToError(t, Machine().stack);
      while yyidx >= 0 && act >= t.nstate
        invariant -1 <= yyidx <= old(yyidx)
        invariant yyidx >= 0 ==> act == FindShift(t, Top(yystack[..yyidx + 1]), t.errorSymbol)
        invariant PopToError(t, yystack[..yyidx + 1]) == rest
        decreases yyidx
      {
        assert yystack[..yyidx + 1][..yyidx] == yystack[..yyidx];
        yyidx := yyidx - 1;
        if yyidx >= 0 {
          act := FindShiftAction(t.errorSymbol);
        }
      }
    }

    /** The error branch of the loop: discard the token, or recover, or fail. */
    method RecoverFrom(major: nat, atEnd: bool, errorHit: bool) returns (major': nat)
      requires Valid() && yyidx >= 0 && major != t.noCode
      modifies this, yystack
      ensures Valid() && yystack == old(yystack)
      ensures var l := LrMachine.Recover(t, LrMachine.Loop(old(Machine()), Some(major), atEnd, errorHit));
              Machine() == l.m && l.errorHit && major' == if l.la.Some? then major else t.noCode
    {
      major' := major;
      var yymx := yystack[yyidx].major;
      if yymx == t.errorSymbol || errorHit {
        major' := t.noCode;
      } else {
        var act := PopToErrorState();
        if yyidx < 0 || major == 0 {
          PopAll();
          ok := false;
          major' := t.noCode;
        } else {
          Shift(act, t.errorSymbol);
        }
      }
      yyerrcnt := 3;
    }

    /** The body of the do-while loop. */
    method TakeAction(major: nat, atEnd: bool, errorHit: bool, ghost l: Loop) returns (major': nat, errorHit': bool)
      requires Valid() && 0 < t.noCode && major != t.noCode && CanAct(t, l.m.stack, major)
      requires l == LrMachine.Loop(Machine(), Some(major), atEnd, errorHit)
      modifies this, yystack
      ensures Valid() && yystack == old(yystack)
      ensures Machine() == Iterate(t, l).m && errorHit' == Iterate(t, l).errorHit
      ensures major' == if Iterate(t, l).la.Some? then Iterate(t, l).la.value else t.noCode
    {
      major', errorHit' := major, errorHit;
      var act := FindShiftAction(major);
      if act < t.nstate {
        Shift(act, major);
        yyerrcnt := yyerrcnt - 1;
        if atEnd && yyidx >= 0 { major' := 0; } else { major' := t.noCode; }
      } else if act < t.nstate + t.nrule {
        Reduce(act - t.nstate);
      } else if act == t.ErrorAction() {
        major' := RecoverFrom(major, atEnd, errorHit);
        errorHit' := true;
      } else {
        PopAll();
        major' := t.noCode;
      }
    }

    /** The do-while loop. */
    method RunLoop(token: nat, ghost g: Grammar, ghost c: Certificate)
      requires Valid() && yyidx >= 0 && token != t.noCode
      requires Running(g, t, c, LrMachine.Loop(Machine(), Some(token), token == 0, false))
      modifies this, yystack
      ensures Valid() && yystack == old(yystack)
      ensures Machine() == Settle(g, t, c, LrMachine.Loop(old(Machine()), Some(token), token == 0, false))
    {
      var major, errorHit := token, false;
      ghost var l := LrMachine.Loop(Machine(), Some(token), token == 0, false);
      ghost var end := Settle(g, t, c, l);
      while major != t.noCode && yyidx >= 0
        invariant Valid() && yystack == old(yystack)
        invariant l.m == Machine() && l.atEnd == (token == 0) && l.errorHit == errorHit
        invariant if l.la.Some? then major == l.la.value != t.noCode else major == t.noCode
        invariant Running(g, t, c, l)
        invariant Settle(g, t, c, l) == end
        decreases Measure(c, l)
      {
        ghost var l' := TurnSettles(g, t, c, l);
        major, errorHit := TakeAction(major, token == 0, errorHit, l);
        l := l';
      }
    }

    /** One call of the driver. */
    method Parse(token: nat, ghost g: Grammar, ghost c: Certificate)
      requires Valid() && Certified(g, t, c) && Linked(g, t, Machine().stack) && token < g.nterminal
      modifies this, yystack
      ensures Valid() && yystack == old(yystack)
      ensures Machine() == Feed(g, t, c, old(Machine()), token)
    {
      if yyidx < 0 {
        if token == 0 { return; }
        yyidx := 0;
        yyerrcnt := -1;
        yystack[0] := Entry(0, 0);
        assert Machine().stack == [Entry(0, 0)];
      }
      RunLoop(token, g, c);
    }
  }

  /** A fresh parser fed every token and then the end marker, as the configuration reader does. */
  method ParseAll(t: Tables, tokens: seq<nat>, ghost g: Grammar, ghost c: Certificate) returns (p: Parser)
    requires Certified(g, t, c) && AreTokens(g, tokens)
    ensures fresh(p) && p.Valid() && p.Machine() == FeedAll(g, t, c, FRESH, tokens + [0])
  {
    p := new Parser(t);
    for i := 0 to |tokens|
      invariant fresh(p) && fresh(p.yystack) && p.Valid() && p.t == t
      invariant p.Machine() == FeedAll(g, t, c, FRESH, tokens[..i])
    {
      p.Parse(tokens[i], g, c);
      FeedAllSnoc(g, t, c, FRESH, tokens[..i], tokens[i]);
      assert tokens[..i] + [tokens[i]] == tokens[..i + 1];
    }
    assert tokens[..|tokens|] == tokens;
    p.Parse(0, g, c);
    FeedAllSnoc(g, t, c, FRESH, tokens, 0);
  }
}
