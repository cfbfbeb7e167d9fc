/** The generator's sets (src/lemon.c, "set.c"): one byte per element, grown until nothing changes. */
module BitSets {

  function Falses(s: seq<bool>): nat {
    if s == [] then 0 else Falses(s[..|s| - 1]) + if s[|s| - 1] then 0 else 1
  }

  lemma {:induction false} FalsesGrow(s: seq<bool>, s': seq<bool>)
    requires |s| == |s'| && forall i | 0 <= i < |s| && s[i] :: s'[i]
    ensures Falses(s') <= Falses(s) && (s != s' ==> Falses(s') < Falses(s))
  {
    if s != [] {
      var last := |s| - 1;
      FalsesGrow(s[..last], s'[..last]);
      assert s == s[..last] + [s[last]] && s' == s'[..last] + [s'[last]];
    }
  }

  ghost predicate Contains(first: seq<seq<bool>>, x: nat, t: nat) {
    x < |first| && t < |first[x]| && first[x][t]
  }

  /** The bits not set yet. */
  function Missing(first: seq<seq<bool>>): nat {
    if first == [] then 0 else Missing(first[..|first| - 1]) + Falses(first[|first| - 1])
  }

  ghost predicate RowGrows(row: seq<bool>, row': seq<bool>) {
    |row| == |row'| && forall i | 0 <= i < |row| && row[i] :: row'[i]
  }

  ghost predicate Grows(first: seq<seq<bool>>, first': seq<seq<bool>>) {
    |first| == |first'| && forall x | 0 <= x < |first| :: RowGrows(first[x], first'[x])
  }

  lemma {:induction false} MissingGrow(first: seq<seq<bool>>, first': seq<seq<bool>>)
    requires Grows(first, first')
    ensures Missing(first') <= Missing(first) && (first != first' ==> Missing(first') < Missing(first))
  {
    if first != [] {
      var last := |first| - 1;
      assert forall x | 0 <= x < last :: RowGrows(first[x], first'[x]);
      MissingGrow(first[..last], first'[..last]);
      assert RowGrows(first[last], first'[last]);
      FalsesGrow(first[last], first'[last]);
      assert first == first[..last] + [first[last]] && first' == first'[..last] + [first'[last]];
    }
  }

  lemma GrowsTwice(a: seq<seq<bool>>, b: seq<seq<bool>>, c: seq<seq<bool>>)
    requires Grows(a, b) && Grows(b, c)
    ensures Grows(a, c) && (a == c ==> a == b)
  {
    forall x | 0 <= x < |a|
      ensures RowGrows(a[x], c[x]) && (a[x] == c[x] ==> a[x] == b[x])
    {
      assert RowGrows(a[x], b[x]) && RowGrows(b[x], c[x]);
    }
  }

  /** Add e to the set s; true if it was not there. */
  method SetAdd(sets: array<seq<bool>>, s: nat, e: nat) returns (added: bool)
    requires s < sets.Length && e < |sets[s]|
    modifies sets
    ensures sets[..] == old(sets[..])[s := old(sets[s])[e := true]] && added == !old(sets[s])[e]
  {
    added := !sets[s][e];
    sets[s] := sets[s][e := true];
  }

  /** Add every element of set s2 to set s1; true if s1 changes. */
  method SetUnion(sets: array<seq<bool>>, s1: nat, s2: nat) returns (progress: bool)
    requires s1 < sets.Length && s2 < sets.Length && |sets[s1]| == |sets[s2]|
    modifies sets
    ensures |sets[s1]| == old(|sets[s1]|)
    ensures forall x | 0 <= x < sets.Length && x != s1 :: sets[x] == old(sets[x])
    ensures forall e | 0 <= e < |sets[s1]| :: sets[s1][e] <==> old(sets[s1])[e] || old(sets[s2])[e]
    ensures progress <==> sets[s1] != old(sets[s1])
  {
    progress := false;
    var n := |sets[s1]|;
    ghost var was := sets[..];
    for i := 0 to n
      invariant |sets[s1]| == n && forall x | 0 <= x < sets.Length && x != s1 :: sets[x] == was[x]
      invariant forall e | 0 <= e < i :: sets[s1][e] <==> was[s1][e] || was[s2][e]
      invariant forall e | i <= e < n :: sets[s1][e] == was[s1][e]
      invariant progress <==> sets[s1] != was[s1]
    {
      if !sets[s2][i] { continue; }
      if !sets[s1][i] {
        progress := true;
        sets[s1] := sets[s1][i := true];
        assert sets[s1][i] != was[s1][i];
      }
    }
  }
}
