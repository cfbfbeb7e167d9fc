/** Conflict resolution (src/lemon.c, resolve_conflict and the loops of FindActions that call it):
    of all the actions a state has on one symbol, one is left alive. */
module Conflicts {
  import opened Actions

  datatype Assoc = LEFT | RIGHT | NONE | UNK

  /** Precedence of the symbols (negative if not declared), their associativity, and the symbol a
      rule takes its precedence from, if any. */
  datatype Precs = Precs(prec: seq<int>, assoc: seq<Assoc>, precsym: seq<Option<nat>>)

  /** The precedence and the associativity of a symbol are declared together. */
  ghost predicate WellDeclared(p: Precs) {
    && |p.prec| == |p.assoc|
    && (forall s | 0 <= s < |p.prec| && p.prec[s] >= 0 :: p.assoc[s] != UNK)
    && (forall r | 0 <= r < |p.precsym| && p.precsym[r].Some? :: p.precsym[r].value < |p.prec|)
  }

  predicate InRange(p: Precs, a: Action) {
    a.sp < |p.prec| && (a.kind.REDUCE? ==> a.arg < |p.precsym|)
  }

  /** The order in which enum e_action lists its members. */
  function Rank(k: Kind): nat {
    match k
    case SHIFT => 0 case ACCEPT => 1 case REDUCE => 2 case ERROR => 3 case CONFLICT => 4
    case SH_RESOLVED => 5 case RD_RESOLVED => 6 case NOT_USED => 7
  }

  /** actioncmp puts x no later than y. */
  predicate Ordered(x: Action, y: Action) {
    x.sp < y.sp || (x.sp == y.sp && (Rank(x.kind) < Rank(y.kind) || (x.kind == y.kind && x.arg <= y.arg)))
  }

  ghost predicate Sorted(acts: seq<Action>) {
    forall i, j {:trigger Ordered(acts[i], acts[j])} | 0 <= i < j < |acts| :: Ordered(acts[i], acts[j])
  }

  predicate Compatible(x: Action, y: Action) {
    x.sp == y.sp ==> !(x.kind.SHIFT? && y.kind.SHIFT?) && !x.kind.ACCEPT? && !y.kind.ACCEPT?
  }

  /** What FindActions has built for a state before it resolves conflicts: a state shifts a symbol
      to one state only, and accepts on a symbol on which it does nothing else. */
  ghost predicate Raw(p: Precs, acts: seq<Action>) {
    && WellDeclared(p) && Sorted(acts)
    && (forall i | 0 <= i < |acts| ::
      InRange(p, acts[i]) && (acts[i].kind.SHIFT? || acts[i].kind.ACCEPT? || acts[i].kind.REDUCE?))
    && (forall i, j {:trigger Compatible(acts[i], acts[j])} | 0 <= i < j < |acts| :: Compatible(acts[i], acts[j]))
  }

  /** The precedence an action competes with, if it is known: a rule's own, or its symbol's. */
  function PrecOf(p: Precs, a: Action): (r: Option<int>)
    requires WellDeclared(p) && InRange(p, a)
  {
    var sym := if a.kind.REDUCE? then p.precsym[a.arg] else Some(a.sp);
    if sym.Some? && p.prec[sym.value] >= 0 then Some(p.prec[sym.value]) else None
  }

  /** resolve_conflict on two live actions: what becomes of each. */
  function Resolve(p: Precs, x: Action, y: Action): (r: (Kind, Kind))
    requires WellDeclared(p) && InRange(p, x) && InRange(p, y)
    requires y.kind.REDUCE? && (x.kind.SHIFT? || x.kind.REDUCE?)
  {
    var px, py := PrecOf(p, x), PrecOf(p, y);
    if px.None? || py.None? then (x.kind, CONFLICT)
    else if px.value > py.value then (x.kind, RD_RESOLVED)
    else if x.kind.SHIFT? then
      if px.value < py.value then (SH_RESOLVED, y.kind)
      else if p.assoc[x.sp] == RIGHT then (x.kind, RD_RESOLVED)
      else if p.assoc[x.sp] == LEFT then (SH_RESOLVED, y.kind)
      else (x.kind, CONFLICT)
    else if px.value < py.value then (RD_RESOLVED, y.kind)
    else (x.kind, CONFLICT)
  }

  /** y, coming later, takes the place of x. */
  predicate Beats(p: Precs, y: Action, x: Action)
    requires WellDeclared(p) && InRange(p, x) && InRange(p, y)
    requires y.kind.REDUCE? && (x.kind.SHIFT? || x.kind.REDUCE?)
  {
    Resolve(p, x, y).1 == REDUCE
  }

  /** Actions lo..hi compete for one symbol. */
  ghost predicate Rivals(p: Precs, acts: seq<Action>, lo: nat, hi: nat) {
    && WellDeclared(p) && lo < hi <= |acts|
    && (forall i | lo <= i < hi :: InRange(p, acts[i]) && acts[i].sp == acts[lo].sp)
    && (forall i | lo < i < hi :: acts[i].kind.REDUCE?)
    && (lo + 1 < hi ==> acts[lo].kind.SHIFT? || acts[lo].kind.REDUCE?)
  }

  /** The survivor when the actions lo..hi are compared one after the other. */
  ghost function Champion(p: Precs, acts: seq<Action>, lo: nat, hi: nat): (c: nat)
    requires Rivals(p, acts, lo, hi)
    ensures lo <= c < hi
  {
    if hi == lo + 1 then lo
    else
      var c := Champion(p, acts, lo, hi - 1);
      if Beats(p, acts[hi - 1], acts[c]) then hi - 1 else c
  }

  /** Action j as resolution leaves it, among its rivals lo..hi. */
  ghost function Verdict(p: Precs, acts: seq<Action>, lo: nat, hi: nat, j: nat): Action
    requires Rivals(p, acts, lo, hi) && lo <= j < hi
  {
    if Champion(p, acts, lo, hi) == j then acts[j]
    else if Champion(p, acts, lo, j + 1) == j then
      acts[j].(kind := if acts[j].kind.SHIFT? then SH_RESOLVED else RD_RESOLVED)
    else
      acts[j].(kind := Resolve(p, acts[Champion(p, acts, lo, j)], acts[j]).1)
  }

  /** What an action competes with: its precedence, and a shift of a left-associative symbol gives
      way to a reduce of the same precedence. */
  function Strength(p: Precs, a: Action): Option<int>
    requires WellDeclared(p) && InRange(p, a)
  {
    match PrecOf(p, a)
    case None => None
    case Some(v) => Some(2 * v - if a.kind.SHIFT? && p.assoc[a.sp] == LEFT then 1 else 0)
  }

  /** Action c is the first of its rivals lo..hi if the precedence of that one is unknown, and
      otherwise the earliest of the strongest actions whose precedence is known. */
  ghost predicate Strongest(p: Precs, acts: seq<Action>, lo: nat, hi: nat, c: nat)
    requires Rivals(p, acts, lo, hi)
  {
    if Strength(p, acts[lo]).None? then c == lo
    else
      && lo <= c < hi && Strength(p, acts[c]).Some?
      && forall i | lo <= i < hi && Strength(p, acts[i]).Some? ::
           if i < c then Strength(p, acts[i]).value < Strength(p, acts[c]).value
           else Strength(p, acts[i]).value <= Strength(p, acts[c]).value
  }

  lemma BeatsByStrength(p: Precs, y: Action, x: Action)
    requires WellDeclared(p) && InRange(p, x) && InRange(p, y) && x.sp == y.sp
    requires y.kind.REDUCE? && (x.kind.SHIFT? || x.kind.REDUCE?)
    ensures Beats(p, y, x) <==>
      Strength(p, x).Some? && Strength(p, y).Some? && Strength(p, y).value > Strength(p, x).value
  {}

  lemma {:induction false} ChampionIsStrongest(p: Precs, acts: seq<Action>, lo: nat, hi: nat)
    requires Rivals(p, acts, lo, hi)
    ensures Strongest(p, acts, lo, hi, Champion(p, acts, lo, hi))
  {
    if hi > lo + 1 {
      ChampionIsStrongest(p, acts, lo, hi - 1);
      StrongestNext(p, acts, lo, hi, Champion(p, acts, lo, hi - 1));
    }
  }

  lemma StrongestNext(p: Precs, acts: seq<Action>, lo: nat, hi: nat, c: nat)
    requires Rivals(p, acts, lo, hi) && Rivals(p, acts, lo, hi - 1) && Strongest(p, acts, lo, hi - 1, c)
    ensures InRange(p, acts[hi - 1]) && InRange(p, acts[c])
    ensures acts[hi - 1].kind.REDUCE? && (acts[c].kind.SHIFT? || acts[c].kind.REDUCE?)
    ensures Strongest(p, acts, lo, hi, if Beats(p, acts[hi - 1], acts[c]) then hi - 1 else c)
  {
    BeatsByStrength(p, acts[hi - 1], acts[c]);
  }

  lemma {:induction false} ChampionGrows(p: Precs, acts: seq<Action>, lo: nat, mid: nat, hi: nat)
    requires Rivals(p, acts, lo, mid) && Rivals(p, acts, lo, hi) && mid <= hi
    ensures Champion(p, acts, lo, hi) == Champion(p, acts, lo, mid) || Champion(p, acts, lo, hi) >= mid
  {
    if mid < hi { ChampionGrows(p, acts, lo, mid, hi - 1); }
  }

  lemma {:induction false} ChampionOfPrefix(p: Precs, acts: seq<Action>, lo: nat, hi: nat)
    requires Rivals(p, acts, lo, hi)
    ensures Champion(p, acts, lo, Champion(p, acts, lo, hi) + 1) == Champion(p, acts, lo, hi)
  {
    if hi > lo + 1 && Champion(p, acts, lo, hi) != hi - 1 { ChampionOfPrefix(p, acts, lo, hi - 1); }
  }

  /** Resolution has struck this action out. */
  predicate Struck(a: Action) {
    a.kind.SH_RESOLVED? || a.kind.RD_RESOLVED? || a.kind.CONFLICT?
  }

  /** Only the champion is left alive. */
  lemma VerdictLive(p: Precs, acts: seq<Action>, lo: nat, hi: nat, j: nat)
    requires Rivals(p, acts, lo, hi) && lo <= j < hi && Live(acts[lo])
    ensures if j == Champion(p, acts, lo, hi) then Live(Verdict(p, acts, lo, hi, j))
      else Struck(Verdict(p, acts, lo, hi, j))
    ensures Verdict(p, acts, lo, hi, Champion(p, acts, lo, hi)) == acts[Champion(p, acts, lo, hi)]
  {}

  /** The first and one past the last of the actions on the symbol of action i. */
  function GroupStart(acts: seq<Action>, i: nat): (r: nat)
    requires i < |acts|
    ensures r <= i
  {
    if i > 0 && acts[i - 1].sp == acts[i].sp then GroupStart(acts, i - 1) else i
  }

  function GroupEnd(acts: seq<Action>, i: nat): (r: nat)
    requires i < |acts|
    ensures i < r <= |acts|
    decreases |acts| - i
  {
    if i + 1 < |acts| && acts[i + 1].sp == acts[i].sp then GroupEnd(acts, i + 1) else i + 1
  }

  lemma {:induction false} SameGroup(acts: seq<Action>, i: nat, j: nat)
    requires Sorted(acts) && i < |acts| && j < |acts| && acts[i].sp == acts[j].sp
    ensures GroupStart(acts, i) == GroupStart(acts, j) && GroupEnd(acts, i) == GroupEnd(acts, j)
    ensures GroupStart(acts, i) <= j < GroupEnd(acts, i)
    decreases if i < j then j - i else i - j
  {
    if i < j {
      assert Ordered(acts[i], acts[i + 1]) && (i + 1 < j ==> Ordered(acts[i + 1], acts[j]));
      SameGroup(acts, i + 1, j);
    } else if j < i {
      assert Ordered(acts[j], acts[j + 1]) && (j + 1 < i ==> Ordered(acts[j + 1], acts[i]));
      SameGroup(acts, i, j + 1);
    }
  }

  lemma {:induction false} GroupStartFirst(acts: seq<Action>, i: nat)
    requires Sorted(acts) && i < |acts|
    ensures var lo := GroupStart(acts, i); acts[lo].sp == acts[i].sp && (lo > 0 ==> acts[lo - 1].sp < acts[i].sp)
  {
    if i > 0 && acts[i - 1].sp == acts[i].sp { GroupStartFirst(acts, i - 1); }
    else if i > 0 { assert Ordered(acts[i - 1], acts[i]); }
  }

  lemma {:induction false} GroupEndLast(acts: seq<Action>, i: nat)
    requires Sorted(acts) && i < |acts|
    ensures var hi := GroupEnd(acts, i); acts[hi - 1].sp == acts[i].sp && (hi < |acts| ==> acts[hi].sp > acts[i].sp)
    decreases |acts| - i
  {
    if i + 1 < |acts| {
      assert Ordered(acts[i], acts[i + 1]);
      if acts[i + 1].sp == acts[i].sp { GroupEndLast(acts, i + 1); }
    }
  }

  /** Action c is the strongest of those found for its symbol. */
  ghost predicate Wins(p: Precs, raw: seq<Action>, c: nat) {
    c < |raw| &&
    var lo, hi := GroupStart(raw, c), GroupEnd(raw, c);
    Rivals(p, raw, lo, hi) && Strongest(p, raw, lo, hi, c)
  }

  lemma StrongestFirst(p: Precs, raw: seq<Action>, lo: nat, hi: nat, c: nat, d: nat)
    requires Rivals(p, raw, lo, hi) && Strongest(p, raw, lo, hi, c) && lo <= c < d < hi
    ensures !Strongest(p, raw, lo, hi, d)
  {}

  /** One action only is the strongest. */
  lemma OneStrongest(p: Precs, raw: seq<Action>, lo: nat, hi: nat, c: nat, d: nat)
    requires Rivals(p, raw, lo, hi) && Strongest(p, raw, lo, hi, c) && Strongest(p, raw, lo, hi, d)
    ensures c == d
  {
    if lo <= c < d < hi {
      StrongestFirst(p, raw, lo, hi, c, d);
    } else if lo <= d < c < hi {
      StrongestFirst(p, raw, lo, hi, d, c);
    }
  }

  /** The actions on one symbol are rivals. */
  lemma GroupRivals(p: Precs, acts: seq<Action>, i: nat)
    requires Raw(p, acts) && i < |acts|
    ensures Rivals(p, acts, GroupStart(acts, i), GroupEnd(acts, i))
  {
    var lo, hi := GroupStart(acts, i), GroupEnd(acts, i);
    GroupStartFirst(acts, i);
    GroupEndLast(acts, i);
    forall k | lo <= k < hi
      ensures acts[k].sp == acts[lo].sp
    {
      if lo < k { assert Ordered(acts[lo], acts[k]); }
      if k < hi - 1 { assert Ordered(acts[k], acts[hi - 1]); }
    }
    forall k | lo < k < hi
      ensures acts[k].kind.REDUCE?
    {
      assert Ordered(acts[lo], acts[k]) && Compatible(acts[lo], acts[k]);
    }
    if lo + 1 < hi { assert Compatible(acts[lo], acts[lo + 1]); }
  }

  /** Action j as resolution leaves it. */
  ghost function VerdictAt(p: Precs, acts: seq<Action>, j: nat): (r: Action)
    requires Raw(p, acts) && j < |acts|
    ensures r.sp == acts[j].sp
  {
    GroupRivals(p, acts, j);
    Verdict(p, acts, GroupStart(acts, j), GroupEnd(acts, j), j)
  }

  /** r is the list as resolution leaves it. */
  ghost predicate Settles(p: Precs, acts: seq<Action>, r: seq<Action>) {
    && Raw(p, acts) && |r| == |acts|
    && (forall j {:trigger VerdictAt(p, acts, j)} | 0 <= j < |acts| :: r[j] == VerdictAt(p, acts, j))
    && (forall j | 0 <= j < |acts| :: r[j].sp == acts[j].sp)
  }

  lemma SettledList(p: Precs, acts: seq<Action>) returns (r: seq<Action>)
    requires Raw(p, acts)
    ensures Settles(p, acts, r)
  {
    r := seq(|acts|, j requires 0 <= j < |acts| => VerdictAt(p, acts, j));
  }

  /** Of the actions on a symbol, only the champion survives, and unchanged. */
  lemma SettleAt(p: Precs, acts: seq<Action>, r: seq<Action>, i: nat)
    requires Settles(p, acts, r) && i < |acts|
    ensures Rivals(p, acts, GroupStart(acts, i), GroupEnd(acts, i))
    ensures if i == Champion(p, acts, GroupStart(acts, i), GroupEnd(acts, i)) then r[i] == acts[i] else Struck(r[i])
  {
    GroupRivals(p, acts, i);
    VerdictLive(p, acts, GroupStart(acts, i), GroupEnd(acts, i), i);
    assert r[i] == VerdictAt(p, acts, i);
  }

  lemma OneSurvivor(p: Precs, acts: seq<Action>, r: seq<Action>, i: nat, j: nat)
    requires Settles(p, acts, r) && i < j < |acts| && acts[i].sp == acts[j].sp
    ensures !Live(r[i]) || !Live(r[j])
  {
    SettleAt(p, acts, r, i);
    SettleAt(p, acts, r, j);
    SameGroup(acts, i, j);
  }

  /** Resolution leaves at most one action alive on each symbol. */
  lemma SettlesSettled(p: Precs, acts: seq<Action>, r: seq<Action>)
    requires Settles(p, acts, r)
    ensures Settled(r)
  {
    forall i, j | 0 <= i < j < |r| && Live(r[i]) && Live(r[j])
      ensures r[i].sp != r[j].sp
    {
      if r[i].sp == r[j].sp { OneSurvivor(p, acts, r, i, j); }
    }
  }

  /** After resolution a symbol that had any action has a live one, and that is the strongest. */
  lemma SettlesFound(p: Precs, acts: seq<Action>, r: seq<Action>, i: nat)
    requires Settles(p, acts, r) && i < |acts|
    ensures Rivals(p, acts, GroupStart(acts, i), GroupEnd(acts, i))
    ensures exists c | GroupStart(acts, i) <= c < GroupEnd(acts, i) ::
      Strongest(p, acts, GroupStart(acts, i), GroupEnd(acts, i), c) && Found(r, acts[i].sp) == Some(acts[c])
  {
    GroupRivals(p, acts, i);
    var lo, hi := GroupStart(acts, i), GroupEnd(acts, i);
    var c := Champion(p, acts, lo, hi);
    ChampionIsStrongest(p, acts, lo, hi);
    GroupMembers(acts, i, c);
    SameGroup(acts, i, c);
    SettleAt(p, acts, r, c);
    SettlesSettled(p, acts, r);
    FoundLive(r, acts[i].sp);
  }

  /** Resolution invents no action. */
  lemma SettlesNothingNew(p: Precs, acts: seq<Action>, r: seq<Action>, sp: nat)
    requires Settles(p, acts, r) && forall i | 0 <= i < |acts| :: acts[i].sp != sp
    ensures Found(r, sp) == None
  {}

  /** Resolve a conflict between actions x and y of a list, in place; 1 if it could not be resolved. */
  method ResolveConflict(p: Precs, acts: array<Action>, x: nat, y: nat) returns (errcnt: nat)
    requires WellDeclared(p) && x < y < acts.Length && InRange(p, acts[x]) && InRange(p, acts[y])
    requires acts[x].sp == acts[y].sp
    requires Struck(acts[x]) || Struck(acts[y]) ||
      (acts[y].kind.REDUCE? && (acts[x].kind.SHIFT? || acts[x].kind.REDUCE?))
    modifies acts
    ensures old(Struck(acts[x]) || Struck(acts[y])) ==> acts[..] == old(acts[..]) && errcnt == 0
    ensures old(!Struck(acts[x]) && !Struck(acts[y])) ==>
      var (kx, ky) := Resolve(p, old(acts[x]), old(acts[y]));
      acts[..] == old(acts[..])[x := old(acts[x]).(kind := kx)][y := old(acts[y]).(kind := ky)] &&
        errcnt == if ky == CONFLICT then 1 else 0
  {
    errcnt := 0;
    var ax, ay := acts[x], acts[y];
    if ax.kind.SHIFT? && ay.kind.REDUCE? {
      var spx, spy := ax.sp, p.precsym[ay.arg];
      if spy == None || p.prec[spx] < 0 || p.prec[spy.value] < 0 {
        acts[y] := ay.(kind := CONFLICT);
        errcnt := errcnt + 1;
      } else if p.prec[spx] > p.prec[spy.value] {
        acts[y] := ay.(kind := RD_RESOLVED);
      } else if p.prec[spx] < p.prec[spy.value] {
        acts[x] := ax.(kind := SH_RESOLVED);
      } else if p.assoc[spx] == RIGHT {
        acts[y] := ay.(kind := RD_RESOLVED);
      } else if p.assoc[spx] == LEFT {
        acts[x] := ax.(kind := SH_RESOLVED);
      } else {
        assert p.assoc[spx] == NONE;
        acts[y] := ay.(kind := CONFLICT);
        errcnt := errcnt + 1;
      }
    } else if ax.kind.REDUCE? && ay.kind.REDUCE? {
      var spx, spy := p.precsym[ax.arg], p.precsym[ay.arg];
      if spx == None || spy == None || p.prec[spx.value] < 0 || p.prec[spy.value] < 0 ||
        p.prec[spx.value] == p.prec[spy.value] {
        acts[y] := ay.(kind := CONFLICT);
        errcnt := errcnt + 1;
      } else if p.prec[spx.value] > p.prec[spy.value] {
        acts[y] := ay.(kind := RD_RESOLVED);
      } else {
        acts[x] := ax.(kind := RD_RESOLVED);
      }
    } else {
      assert Struck(ax) || Struck(ay);
    }
  }

  lemma SymbolsAscend(acts: seq<Action>, i: nat, j: nat)
    requires Sorted(acts) && i <= j < |acts|
    ensures acts[i].sp <= acts[j].sp
  {
    if i < j { assert Ordered(acts[i], acts[j]); }
  }

  lemma GroupMembers(acts: seq<Action>, i: nat, k: nat)
    requires Sorted(acts) && i < |acts| && GroupStart(acts, i) <= k < GroupEnd(acts, i)
    ensures acts[k].sp == acts[i].sp
  {
    var lo, hi := GroupStart(acts, i), GroupEnd(acts, i);
    GroupStartFirst(acts, i);
    GroupEndLast(acts, i);
    SymbolsAscend(acts, lo, k);
    SymbolsAscend(acts, k, hi - 1);
  }

  /** The next action on the symbol of c is one of its rivals. */
  lemma NextRival(p: Precs, acts: seq<Action>, c: nat, f: nat)
    requires Raw(p, acts) && c < |acts| && c < f < GroupEnd(acts, c)
    ensures Rivals(p, acts, GroupStart(acts, c), f) && Rivals(p, acts, GroupStart(acts, c), f + 1)
    ensures InRange(p, acts[c]) && InRange(p, acts[f]) && acts[f].kind.REDUCE?
    ensures (acts[c].kind.SHIFT? || acts[c].kind.REDUCE?)
    ensures acts[f].sp == acts[c].sp && GroupStart(acts, f) == GroupStart(acts, c)
    ensures GroupEnd(acts, f) == GroupEnd(acts, c)
  {
    GroupRivals(p, acts, c);
    GroupMembers(acts, c, f);
    SameGroup(acts, c, f);
  }

  /** c is the survivor among its group's actions before f. */
  ghost predicate Leads(p: Precs, acts: seq<Action>, c: nat, f: nat) {
    && Raw(p, acts) && c < |acts| && c < f <= GroupEnd(acts, c)
    && Rivals(p, acts, GroupStart(acts, c), f) && Champion(p, acts, GroupStart(acts, c), f) == c
  }

  /** The loser of a comparison has its verdict. */
  lemma LoserVerdict(p: Precs, acts: seq<Action>, lo: nat, hi: nat, c: nat, f: nat)
    requires Rivals(p, acts, lo, hi) && lo <= c < f < hi && Rivals(p, acts, lo, f) && Champion(p, acts, lo, f) == c
    ensures Rivals(p, acts, lo, f + 1) && Champion(p, acts, lo, f + 1) == if Beats(p, acts[f], acts[c]) then f else c
    ensures Beats(p, acts[f], acts[c]) ==>
      Verdict(p, acts, lo, hi, c) == acts[c].(kind := Resolve(p, acts[c], acts[f]).0)
    ensures !Beats(p, acts[f], acts[c]) ==>
      Verdict(p, acts, lo, hi, f) == acts[f].(kind := Resolve(p, acts[c], acts[f]).1)
  {
    ChampionGrows(p, acts, lo, f + 1, hi);
    ChampionOfPrefix(p, acts, lo, f);
  }

  lemma LeadsNext(p: Precs, acts: seq<Action>, settled: seq<Action>, c: nat, f: nat)
    requires Leads(p, acts, c, f) && f < GroupEnd(acts, c) && Settles(p, acts, settled)
    ensures InRange(p, acts[c]) && InRange(p, acts[f]) && acts[f].kind.REDUCE?
    ensures (acts[c].kind.SHIFT? || acts[c].kind.REDUCE?)
    ensures Leads(p, acts, if Beats(p, acts[f], acts[c]) then f else c, f + 1)
    ensures var (kx, ky) := Resolve(p, acts[c], acts[f]);
      if Beats(p, acts[f], acts[c]) then settled[c] == acts[c].(kind := kx) else settled[f] == acts[f].(kind := ky)
  {
    NextRival(p, acts, c, f);
    GroupRivals(p, acts, c);
    LoserVerdict(p, acts, GroupStart(acts, c), GroupEnd(acts, c), c, f);
    assert settled[c] == VerdictAt(p, acts, c) && settled[f] == VerdictAt(p, acts, f);
  }

  /** Where the loops stand: c survives so far, every other of the first f actions has its verdict,
      and the rest are untouched. */
  ghost predicate Standing(acts: seq<Action>, settled: seq<Action>, now: seq<Action>, c: nat, f: nat) {
    && |now| == |acts| == |settled| && c < f <= |acts|
    && (forall k | 0 <= k < f && k != c :: now[k] == settled[k])
    && now[c] == acts[c]
    && (forall k | f <= k < |acts| :: now[k] == acts[k])
  }

  /** The effect of a comparison on the list: the survivor stays as it was, the other loses. */
  lemma StandingStep(acts: seq<Action>, settled: seq<Action>, now: seq<Action>, c: nat, f: nat, kx: Kind, ky: Kind,
                     overtaken: bool)
    requires Standing(acts, settled, now, c, f) && f < |acts|
    requires if overtaken then settled[c] == acts[c].(kind := kx) && ky == acts[f].kind
      else settled[f] == acts[f].(kind := ky) && kx == acts[c].kind
    ensures Standing(acts, settled, now[c := acts[c].(kind := kx)][f := acts[f].(kind := ky)],
      if overtaken then f else c, f + 1)
  {}

  /** Where the loops stand, seen from the outer cursor i: the survivor is still to come, or is being
      compared, or has been compared with its whole group. */
  ghost predicate Cursor(p: Precs, acts: seq<Action>, i: nat, c: nat, f: nat) {
    && Leads(p, acts, c, f) && i < |acts| && acts[i].sp == acts[c].sp
    && (i <= c ==> f == c + 1) && (i > c ==> f == GroupEnd(acts, c))
  }

  /** Once compared with its whole group, the survivor has its verdict. */
  lemma LeaderSettled(p: Precs, acts: seq<Action>, settled: seq<Action>, c: nat)
    requires Settles(p, acts, settled) && c < |acts| && Leads(p, acts, c, GroupEnd(acts, c))
    ensures settled[c] == acts[c]
  {
    SettleAt(p, acts, settled, c);
  }

  lemma OthersStruck(p: Precs, acts: seq<Action>, settled: seq<Action>, c: nat, f: nat, k: nat)
    requires Settles(p, acts, settled) && Leads(p, acts, c, f) && k < f && k != c && acts[k].sp == acts[c].sp
    ensures Struck(settled[k])
  {
    SettleAt(p, acts, settled, k);
    SameGroup(acts, c, k);
    ChampionGrows(p, acts, GroupStart(acts, c), f, GroupEnd(acts, c));
  }

  /** A group begins with its first action in the lead. */
  lemma LeadsFirst(p: Precs, acts: seq<Action>, c: nat)
    requires Raw(p, acts) && c < |acts| && (c > 0 ==> acts[c - 1].sp != acts[c].sp)
    ensures Cursor(p, acts, c, c, c + 1)
  {
    GroupRivals(p, acts, c);
    assert GroupStart(acts, c) == c;
    assert Rivals(p, acts, c, c + 1);
  }

  /** At the end of a group the survivor has been compared with all of it. */
  lemma GroupOver(p: Precs, acts: seq<Action>, settled: seq<Action>, i: nat, c: nat, f: nat)
    requires Settles(p, acts, settled) && Leads(p, acts, c, f) && i < |acts| && acts[i].sp == acts[c].sp
    requires (i < c ==> f == c + 1) && (i >= c ==> f == GroupEnd(acts, c))
    requires i + 1 < |acts| ==> acts[i + 1].sp != acts[i].sp
    ensures f == i + 1 && settled[c] == acts[c]
  {
    SameGroup(acts, i, c);
    assert GroupEnd(acts, i) == i + 1;
    LeaderSettled(p, acts, settled, c);
  }

  lemma StandingNext(acts: seq<Action>, settled: seq<Action>, now: seq<Action>, c: nat, f: nat)
    requires Standing(acts, settled, now, c, f) && settled[c] == acts[c] && f < |acts|
    ensures Standing(acts, settled, now, f, f + 1)
  {}

  /** The number of actions in conflict. */
  function Unresolved(acts: seq<Action>): nat {
    if acts == [] then 0 else Unresolved(acts[..|acts| - 1]) + if acts[|acts| - 1].kind.CONFLICT? then 1 else 0
  }

  lemma {:induction false} UnresolvedUpdate(acts: seq<Action>, i: nat, a: Action)
    requires i < |acts|
    ensures Unresolved(acts[i := a]) + (if acts[i].kind.CONFLICT? then 1 else 0) ==
      Unresolved(acts) + if a.kind.CONFLICT? then 1 else 0
  {
    var last := |acts| - 1;
    if i < last {
      UnresolvedUpdate(acts[..last], i, a);
      assert acts[i := a][..last] == acts[..last][i := a];
    } else {
      assert acts[i := a][..last] == acts[..last];
    }
  }

  lemma {:induction false} UnresolvedNone(acts: seq<Action>)
    requires forall i | 0 <= i < |acts| :: !acts[i].kind.CONFLICT?
    ensures Unresolved(acts) == 0
  {
    if acts != [] { UnresolvedNone(acts[..|acts| - 1]); }
  }

  /** Precedence does not decide between x and a later reduction y. */
  predicate Undecided(p: Precs, x: Action, y: Action)
    requires WellDeclared(p) && InRange(p, x) && InRange(p, y)
  {
    var px, py := PrecOf(p, x), PrecOf(p, y);
    || px.None? || py.None?
    || (px.value == py.value && !(x.kind.SHIFT? && (p.assoc[x.sp] == LEFT || p.assoc[x.sp] == RIGHT)))
  }

  /** Action j is not decided against the strongest of the actions on its symbol before it. */
  ghost predicate InConflict(p: Precs, raw: seq<Action>, j: nat)
    requires Raw(p, raw) && j < |raw|
  {
    var lo := GroupStart(raw, j);
    exists c | lo <= c < j :: Rivals(p, raw, lo, j) && Strongest(p, raw, lo, j, c) && Undecided(p, raw[c], raw[j])
  }

  ghost function Undecidable(p: Precs, raw: seq<Action>): set<nat>
    requires Raw(p, raw)
  {
    set j | 0 <= j < |raw| && InConflict(p, raw, j)
  }

  lemma ConflictIff(p: Precs, raw: seq<Action>, settled: seq<Action>, j: nat)
    requires Settles(p, raw, settled) && j < |raw|
    ensures settled[j].kind.CONFLICT? <==> InConflict(p, raw, j)
  {
    var lo, hi := GroupStart(raw, j), GroupEnd(raw, j);
    GroupRivals(p, raw, j);
    SameGroup(raw, j, j);
    assert settled[j] == VerdictAt(p, raw, j);
    if lo < j {
      var c := Champion(p, raw, lo, j);
      ChampionIsStrongest(p, raw, lo, j);
      ChampionOfPrefix(p, raw, lo, hi);
      assert InConflict(p, raw, j) <==> Undecided(p, raw[c], raw[j]) by {
        if InConflict(p, raw, j) {
          var d :| lo <= d < j && Strongest(p, raw, lo, j, d) && Undecided(p, raw[d], raw[j]);
          OneStrongest(p, raw, lo, j, c, d);
        }
      }
      UndecidedResolves(p, raw[c], raw[j]);
    }
  }

  lemma UndecidedResolves(p: Precs, x: Action, y: Action)
    requires WellDeclared(p) && InRange(p, x) && InRange(p, y)
    requires y.kind.REDUCE? && (x.kind.SHIFT? || x.kind.REDUCE?)
    ensures Undecided(p, x, y) <==> Resolve(p, x, y).1 == CONFLICT
  {}

  function Places(acts: seq<Action>): set<nat> {
    set j | 0 <= j < |acts| && acts[j].kind.CONFLICT?
  }

  lemma {:induction false} UnresolvedPlaces(acts: seq<Action>)
    ensures Unresolved(acts) == |Places(acts)|
  {
    if acts == [] {
      assert Places(acts) == {};
    } else {
      var n := |acts| - 1;
      var rest := acts[..n];
      UnresolvedPlaces(rest);
      assert Places(acts) == if acts[n].kind.CONFLICT? then Places(rest) + {n} else Places(rest);
    }
  }

  /** The count is the number of actions that precedence cannot decide against those before them. */
  lemma ConflictCount(p: Precs, raw: seq<Action>, settled: seq<Action>)
    requires Settles(p, raw, settled)
    ensures Unresolved(settled) == |Undecidable(p, raw)|
  {
    forall j | 0 <= j < |raw|
      ensures settled[j].kind.CONFLICT? <==> InConflict(p, raw, j)
    {
      ConflictIff(p, raw, settled, j);
    }
    UnresolvedPlaces(settled);
    assert Places(settled) == Undecidable(p, raw);
  }

  /** What the inner loop knows when the outer cursor is at i and the inner one at j. */
  ghost predicate Comparing(p: Precs, was: seq<Action>, i: nat, j: nat, c: nat, f: nat) {
    && Leads(p, was, c, f) && i < |was| && i < j <= GroupEnd(was, i) && was[i].sp == was[c].sp
    && (i < c ==> f == c + 1) && (i == c ==> f == j) && (i > c ==> f == GroupEnd(was, c))
  }

  /** Resolution changes no symbol. */
  ghost predicate SameSymbols(was: seq<Action>, now: seq<Action>) {
    |now| == |was| && forall k | 0 <= k < |was| :: now[k].sp == was[k].sp
  }

  lemma SymbolsKept(p: Precs, was: seq<Action>, settled: seq<Action>, now: seq<Action>, c: nat, f: nat)
    requires Settles(p, was, settled) && Standing(was, settled, now, c, f)
    ensures SameSymbols(was, now)
  {}

  /** Compare the outer cursor's action with the one at j, on the same symbol. */
  method Compare(p: Precs, acts: array<Action>, i: nat, j: nat, ghost was: seq<Action>, ghost settled: seq<Action>,
                 ghost c: nat, ghost f: nat)
    returns (errcnt: nat, ghost c': nat, ghost f': nat)
    requires Raw(p, was) && Settles(p, was, settled) && Comparing(p, was, i, j, c, f)
    requires Standing(was, settled, acts[..], c, f)
    requires j < |was| && was[j].sp == was[i].sp
    modifies acts
    ensures Comparing(p, was, i, j + 1, c', f') && Standing(was, settled, acts[..], c', f')
    ensures SameSymbols(was, acts[..])
    ensures Unresolved(acts[..]) == old(Unresolved(acts[..])) + errcnt
  {
    ghost var now := acts[..];
    CompareReady(p, was, settled, now, i, j, c, f);
    errcnt := ResolveConflict(p, acts, i, j);
    c', f' := c, f;
    SameGroup(was, i, j);
    if i == c {
      c', f' := CompareDone(p, was, settled, now, i, j);
      ghost var (kx, ky) := Resolve(p, was[i], was[j]);
      UnresolvedAfter(now, i, j, kx, ky);
    }
    SymbolsKept(p, was, settled, acts[..], c', f');
  }

  lemma CompareReady(p: Precs, was: seq<Action>, settled: seq<Action>, now: seq<Action>, i: nat, j: nat, c: nat, f: nat)
    requires Raw(p, was) && Settles(p, was, settled) && Comparing(p, was, i, j, c, f)
    requires Standing(was, settled, now, c, f)
    requires j < |was| && was[j].sp == was[i].sp
    ensures now[i].sp == now[j].sp && InRange(p, now[i]) && InRange(p, now[j])
    ensures if i != c then Struck(now[i]) else
      f == j && now[i] == was[i] && now[j] == was[j] && was[j].kind.REDUCE? &&
        (was[i].kind.SHIFT? || was[i].kind.REDUCE?)
  {
    SameGroup(was, c, j);
    if i == c {
      LeadsNext(p, was, settled, c, f);
    } else {
      SameGroup(was, c, i);
      OthersStruck(p, was, settled, c, f, i);
      assert now[i] == settled[i];
      if j < f && j != c { OthersStruck(p, was, settled, c, f, j); }
    }
  }

  lemma UnresolvedAfter(now: seq<Action>, x: nat, y: nat, kx: Kind, ky: Kind)
    requires x < y < |now| && !now[x].kind.CONFLICT? && !now[y].kind.CONFLICT? && !kx.CONFLICT?
    ensures Unresolved(now[x := now[x].(kind := kx)][y := now[y].(kind := ky)]) == Unresolved(now) + if ky ==
      CONFLICT then 1 else 0
  {
    UnresolvedUpdate(now, x, now[x].(kind := kx));
    UnresolvedUpdate(now[x := now[x].(kind := kx)], y, now[y].(kind := ky));
  }

  lemma CompareDone(p: Precs, was: seq<Action>, settled: seq<Action>, now: seq<Action>, i: nat, j: nat)
    returns (c: nat, f: nat)
    requires Settles(p, was, settled) && Leads(p, was, i, j) && Standing(was, settled, now, i, j)
    requires j < GroupEnd(was, i) && InRange(p, was[i]) && InRange(p, was[j])
    requires was[j].kind.REDUCE? && (was[i].kind.SHIFT? || was[i].kind.REDUCE?)
    ensures Leads(p, was, c, f) && (c == i || c == j) && f == j + 1
    ensures var (kx, ky) := Resolve(p, was[i], was[j]);
      Standing(was, settled, now[i := was[i].(kind := kx)][j := was[j].(kind := ky)], c, f)
  {
    LeadsNext(p, was, settled, i, j);
    var (kx, ky) := Resolve(p, was[i], was[j]);
    var overtaken := Beats(p, was[j], was[i]);
    c, f := if overtaken then j else i, j + 1;
    StandingStep(was, settled, now, i, j, kx, ky, overtaken);
  }

  /** Moving the outer cursor on, within the group or into the next. */
  lemma CursorStep(p: Precs, was: seq<Action>, settled: seq<Action>, now: seq<Action>, i: nat, j: nat, c: nat, f: nat)
    returns (c': nat, f': nat)
    requires Settles(p, was, settled) && Comparing(p, was, i, j, c, f) && Standing(was, settled, now, c, f)
    requires i + 1 < |was| && (j < |was| ==> was[j].sp != was[i].sp)
    ensures Cursor(p, was, i + 1, c', f') && Standing(was, settled, now, c', f')
  {
    c', f' := c, f;
    SameGroup(was, i, c);
    if j < GroupEnd(was, i) { GroupMembers(was, i, j); }
    if was[i + 1].sp != was[i].sp {
      GroupOver(p, was, settled, i, c, f);
      StandingNext(was, settled, now, c, f);
      LeadsFirst(p, was, i + 1);
      c', f' := i + 1, i + 2;
    }
  }

  /** Compare the action at the outer cursor with each later action on its symbol. */
  method CompareAll(p: Precs, acts: array<Action>, i: nat, ghost was: seq<Action>, ghost settled: seq<Action>,
                    ghost c: nat, ghost f: nat)
    returns (nconflict: nat, ghost c': nat, ghost f': nat)
    requires Settles(p, was, settled) && i + 1 < acts.Length
    requires Cursor(p, was, i, c, f) && Standing(was, settled, acts[..], c, f)
    modifies acts
    ensures Cursor(p, was, i + 1, c', f') && Standing(was, settled, acts[..], c', f')
    ensures Unresolved(acts[..]) == old(Unresolved(acts[..])) + nconflict
  {
    nconflict, c', f' := 0, c, f;
    var j := i + 1;
    ghost var now := acts[..];
    SymbolsKept(p, was, settled, now, c, f);
    while j < acts.Length && acts[j].sp == acts[i].sp
      invariant i < j <= acts.Length && now == acts[..] && SameSymbols(was, now)
      invariant Comparing(p, was, i, j, c', f') && Standing(was, settled, now, c', f')
      invariant Unresolved(now) == old(Unresolved(acts[..])) + nconflict
    {
      assert now[i].sp == was[i].sp && now[j].sp == was[j].sp && was[j].sp == was[i].sp;
      var errcnt;
      errcnt, c', f' := Compare(p, acts, i, j, was, settled, c', f');
      now := acts[..];
      nconflict := nconflict + errcnt;
      j := j + 1;
    }
    assert now[i].sp == was[i].sp && (j < |was| ==> now[j].sp == was[j].sp);
    c', f' := CursorStep(p, was, settled, now, i, j, c', f');
  }

  /** Leave one action alive on each symbol of a state's sorted action list; the number of conflicts
      that precedence could not decide. */
  method ResolveConflicts(p: Precs, acts: array<Action>) returns (nconflict: nat)
    requires acts.Length > 0 && Raw(p, acts[..])
    modifies acts
    ensures Settles(p, old(acts[..]), acts[..])
    ensures nconflict == Unresolved(acts[..]) == |Undecidable(p, old(acts[..]))|
  {
    ghost var was := acts[..];
    ghost var settled := SettledList(p, was);
    ghost var c: nat, f: nat := 0, 1;
    nconflict := 0;
    LeadsFirst(p, was, 0);
    UnresolvedNone(was);
    var i := 0;
    while i + 1 < acts.Length
      invariant i < acts.Length && Cursor(p, was, i, c, f) && Standing(was, settled, acts[..], c, f)
      invariant nconflict == Unresolved(acts[..])
    {
      var n;
      n, c, f := CompareAll(p, acts, i, was, settled, c, f);
      nconflict := nconflict + n;
      i := i + 1;
    }
    GroupOver(p, was, settled, i, c, f);
    assert acts[..] == settled;
    ConflictCount(p, was, settled);
  }
}
