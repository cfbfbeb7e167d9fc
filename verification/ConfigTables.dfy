/** The tables shipped in src/configparser.c, the grammar they were generated from, and the
    claims that certify them, all as plain functions on numbers. Symbols are numbered as in
    yyTokenName and rules as in yyRuleName. */
module ConfigTables {

  /** yy_action */
  function ActionAt(i: nat): nat {
    match i
    case 0 => 2
    case 1 => 3
    case 2 => 4
    case 3 => 5
    case 4 => 13
    case 5 => 14
    case 6 => 63
    case 7 | 24 | 60 => 15
    case 8 => 7
    case 9 => 45
    case 10 | 27 | 40 | 62 | 63 => 20
    case 11 => 88
    case 12 => 16
    case 13 | 22 | 39 | 75 => 46
    case 14 | 28 | 52 | 80 | 88 | 96 | 99 | 107 | 119 => 28
    case 15 | 81 | 97 => 49
    case 16 => 41
    case 17 | 49 => 10
    case 18 | 35 | 71 => 40
    case 20 | 34 | 58 | 86 | 94 | 102 | 105 | 113 | 125 | 127 => 22
    case 21 => 50
    case 23 => 8
    case 25 => 104
    case 26 => 1
    case 29 => 18
    case 30 | 47 | 83 => 58
    case 31 | 48 | 84 => 60
    case 32 => 6
    case 36 => 47
    case 37 => 62
    case 38 => 11
    case 41 => 9
    case 42 | 64 => 23
    case 43 | 65 => 24
    case 44 | 66 => 26
    case 45 => 29
    case 46 | 79 | 106 | 109 | 110 | 111 | 118 | 122 | 123 => 89
    case 50 => 17
    case 51 => 38
    case 53 | 89 => 27
    case 54 => 37
    case 55 | 68 | 72 => 19
    case 56 => 30
    case 59 | 95 => 34
    case 61 => 100
    case 67 => 12
    case 69 => 31
    case 70 => 32
    case 73 => 44
    case 74 => 43
    case 76 => 95
    case 77 => 35
    case 78 => 90
    case 82 => 42
    case 87 => 59
    case 90 => 33
    case 91 => 48
    case 92 => 52
    case 98 => 51
    case 100 => 36
    case 103 => 61
    case 108 => 39
    case 114 => 54
    case 115 => 55
    case 116 => 56
    case 117 => 57
    case 120 => 53
    case 121 => 21
    case _ => 25
  }

  /** yy_lookahead */
  function LookaheadAt(i: nat): nat {
    match i
    case 0 => 29
    case 1 => 30
    case 2 => 31
    case 3 => 32
    case 4 => 33
    case 5 => 34
    case 6 => 0
    case 7 | 24 | 32 | 60 => 1
    case 8 => 44
    case 9 | 41 => 38
    case 10 | 27 | 40 | 62 | 63 => 4
    case 11 | 23 | 46 => 15
    case 13 | 22 | 39 | 75 => 16
    case 14 | 28 | 52 | 80 | 88 | 96 | 99 | 107 | 119 | 121 => 35
    case 15 | 29 | 53 | 81 | 89 | 97 | 100 | 108 | 120 => 36
    case 16 => 45
    case 17 | 49 => 46
    case 18 | 35 | 71 => 12
    case 19 | 33 | 57 | 85 | 93 | 101 | 104 | 112 | 124 | 126 => 40
    case 21 | 59 | 87 | 95 | 103 => 42
    case 25 => 27
    case 26 | 67 | 74 => 28
    case 30 | 47 | 83 => 24
    case 31 | 48 | 84 => 25
    case 36 => 17
    case 37 | 73 => 14
    case 38 | 76 | 78 | 82 => 13
    case 42 | 64 => 6
    case 43 | 65 => 7
    case 44 | 66 => 8
    case 45 | 69 => 9
    case 50 => 2
    case 51 => 3
    case 54 | 90 => 37
    case 55 | 68 | 72 => 5
    case 56 => 39
    case 61 | 77 => 11
    case 70 => 10
    case 79 | 106 | 109 | 110 | 111 | 118 | 122 | 123 => 47
    case 91 => 18
    case 92 => 43
    case 98 => 19
    case 114 => 20
    case 115 => 21
    case 116 => 22
    case 117 => 23
    case _ => 41
  }

  /** yy_shift_ofst */
  function ShiftOfstAt(i: nat): int {
    match i
    case 1 => 6
    case 5 => 31
    case 6 => -4
    case 7 => 8
    case 8 => -3
    case 10 => 25
    case 12 => 23
    case 16 => 48
    case 17 | 19 | 32 | 35 | 38 | 48 | 52 | 58 | 60 => 58
    case 18 | 36 | 39 | 49 => 67
    case 26 => 36
    case 27 => 50
    case 30 => 60
    case 34 => 66
    case 40 => 65
    case 41 => 69
    case 43 => 59
    case 46 => 19
    case 47 => 73
    case 50 => 79
    case 51 => 94
    case 53 => 63
    case _ => -5
  }

  /** yy_reduce_ofst */
  function ReduceOfstAt(i: nat): int {
    match i
    case 0 => -2
    case 1 | 12 | 43 => -29
    case 5 => -36
    case 8 => 3
    case 11 => 39
    case 17 => -7
    case 19 => 86
    case 26 => 17
    case 32 => 53
    case 35 => 64
    case 38 => 72
    case 42 => 46
    case 48 => -21
    case 51 => 49
    case 52 => 84
    case 58 => 45
    case 60 => 61
    case _ => -37
  }

  /** yy_default */
  function DefaultAt(i: nat): nat {
    match i
    case 0 | 11 | 42 => 65
    case 2 => 64
    case 3 => 66
    case 4 => 67
    case 6 => 68
    case 9 => 92
    case 13 => 69
    case 14 => 70
    case 15 => 71
    case 18 => 72
    case 20 => 74
    case 21 => 75
    case 22 => 77
    case 23 => 78
    case 24 => 79
    case 25 => 80
    case 27 => 86
    case 28 => 76
    case 29 => 81
    case 31 => 82
    case 32 => 84
    case 33 => 83
    case 36 => 87
    case 37 => 85
    case 39 => 73
    case 44 => 91
    case 45 => 93
    case 49 => 100
    case 54 => 96
    case 55 => 97
    case 56 => 98
    case 57 => 99
    case 59 => 101
    case 61 => 102
    case 62 => 94
    case _ => 103
  }

  /** The rules by columns: left-hand side, length, and symbols of the right-hand side. */
  function LhsAt(r: nat): nat {
    match r
    case 0 => 27
    case 1 | 2 => 28
    case 9 | 10 => 30
    case 11 => 41
    case 12 | 13 => 36
    case 14 | 15 | 16 | 17 => 35
    case 18 | 19 => 40
    case 20 | 21 | 22 => 39
    case 23 | 24 => 37
    case 25 | 26 => 44
    case 27 => 45
    case 28 => 31
    case 29 | 30 => 32
    case 31 => 38
    case 32 => 46
    case 33 | 34 | 35 | 36 => 43
    case 37 => 42
    case 38 => 33
    case 39 => 34
    case _ => 29
  }

  function LenAt(r: nat): nat {
    match r
    case 1 | 5 | 18 | 21 | 38 | 39 => 2
    case 2 | 26 => 0
    case 9 | 10 | 12 | 19 | 20 | 24 => 3
    case 28 | 29 | 31 => 4
    case 32 => 7
    case _ => 1
  }

  function SymAt(r: nat, d: nat): nat {
    match d
    case 0 => (match r
      case 8 | 25 => 1
      case 11 => 4
      case 15 => 6
      case 16 => 7
      case 18 | 19 => 8
      case 27 => 12
      case 32 => 16
      case 33 => 20
      case 34 => 21
      case 35 => 22
      case 36 => 23
      case 38 => 24
      case 39 => 25
      case 0 | 1 => 28
      case 3 => 30
      case 4 => 31
      case 5 | 29 => 32
      case 6 => 33
      case 7 => 34
      case 13 => 35
      case 12 | 23 | 37 => 36
      case 22 => 37
      case 30 => 38
      case 20 | 21 => 39
      case 17 => 40
      case 9 | 10 | 14 => 41
      case 24 => 42
      case 28 => 45
      case 31 => 46
      case _ => 0)
    case 1 => (match r
      case 5 => 1
      case 9 => 2
      case 10 => 3
      case 12 => 5
      case 18 => 9
      case 20 | 21 => 10
      case 24 => 11
      case 28 | 31 => 13
      case 32 => 17
      case 1 => 29
      case 19 => 39
      case 38 | 39 => 42
      case 29 => 44
      case _ => 0)
    case 2 => (match r
      case 19 => 9
      case 29 => 15
      case 32 => 18
      case 28 | 31 => 28
      case 12 => 35
      case 9 | 10 | 24 => 36
      case 20 => 37
      case _ => 0)
    case 3 => (match r
      case 28 | 31 => 14
      case 29 => 38
      case 32 => 42
      case _ => 0)
    case 4 => (match r
      case 32 => 19
      case _ => 0)
    case 5 => (match r
      case 32 => 43
      case _ => 0)
    case 6 => (match r
      case 32 => 36
      case _ => 0)
    case _ => 0
  }

  predicate Produces(x: nat, q: nat) {
    match x
    case 27 => q == 0
    case 28 => q == 1 || q == 2
    case 29 => 3 <= q <= 8
    case 30 => q == 9 || q == 10
    case 41 => q == 11
    case 36 => q == 12 || q == 13
    case 35 => 14 <= q <= 17
    case 40 => q == 18 || q == 19
    case 39 => 20 <= q <= 22
    case 37 => q == 23 || q == 24
    case 44 => q == 25 || q == 26
    case 45 => q == 27
    case 31 => q == 28
    case 32 => q == 29 || q == 30
    case 38 => q == 31
    case 46 => q == 32
    case 43 => 33 <= q <= 36
    case 42 => q == 37
    case 33 => q == 38
    case 34 => q == 39
    case _ => false
  }

  /** The action table before packing: what state s does on terminal x. */
  function ActAt(s: nat, x: nat): nat {
    match s
    case 1 => if x == 1 then 15 else if x == 4 then 20 else if x == 12 then 40 else if x == 16 then 46 else
      if x == 24 then 58 else if x == 25 then 60 else if x == 0 then 63 else 103
    case 5 => if x == 1 then 6 else if x == 15 then 89 else 103
    case 6 => if x == 15 then 88 else 68
    case 7 => if x == 15 then 8 else 103
    case 8 => if x == 16 then 46 else 103
    case 10 => if x == 13 then 11 else 103
    case 12 => if x == 1 then 15 else if x == 4 then 20 else if x == 12 then 40 else if x == 16 then 46 else
      if x == 24 then 58 else if x == 25 then 60 else if x == 14 then 62 else 103
    case 16 => if x == 2 then 17 else if x == 3 then 38 else 103
    case 17 | 19 | 35 | 38 | 48 | 52 | 58 | 60 => if x == 4 then 20 else if x == 6 then 23 else if x == 7 then 24 else if x == 8 then 26 else 103
    case 18 => if x == 5 then 19 else 72
    case 26 => if x == 4 then 20 else if x == 6 then 23 else if x == 7 then 24 else if x == 8 then 26 else
      if x == 9 then 29 else 103
    case 27 => if x == 5 then 19 else if x == 11 then 100 else 86
    case 30 => if x == 9 then 31 else if x == 10 then 32 else 103
    case 32 => if x == 4 then 20 else if x == 6 then 23 else if x == 7 then 24 else if x == 8 then 26 else 84
    case 34 => if x == 11 then 35 else 103
    case 36 => if x == 5 then 19 else 87
    case 39 => if x == 5 then 19 else 73
    case 40 => if x == 13 then 90 else 103
    case 41 => if x == 13 then 42 else 103
    case 43 => if x == 1 then 15 else if x == 4 then 20 else if x == 12 then 40 else if x == 14 then 44 else
      if x == 16 then 46 else if x == 24 then 58 else if x == 25 then 60 else 103
    case 46 => if x == 17 then 47 else 103
    case 47 => if x == 18 then 48 else 103
    case 49 => if x == 5 then 19 else 100
    case 50 => if x == 19 then 51 else 103
    case 51 => if x == 20 then 54 else if x == 21 then 55 else if x == 22 then 56 else if x == 23 then 57 else 103
    case 53 => if x == 5 then 19 else if x == 13 then 95 else 103
    case _ => DefaultAt(s)
  }

  /** The goto table before packing: where state p goes on nonterminal x. */
  function GotoAt(p: nat, x: nat): nat {
    match x
    case 27 => if p == 0 then 104 else DefaultAt(p)
    case 28 => if p == 0 then 1 else if p == 11 then 12 else if p == 42 then 43 else DefaultAt(p)
    case 29 => if p == 1 || p == 12 || p == 43 then 2 else DefaultAt(p)
    case 30 => if p == 1 || p == 12 || p == 43 then 3 else DefaultAt(p)
    case 31 => if p == 1 || p == 12 || p == 43 then 4 else DefaultAt(p)
    case 32 => if p == 1 || p == 12 || p == 43 then 5 else DefaultAt(p)
    case 33 => if p == 1 || p == 12 || p == 43 then 13 else DefaultAt(p)
    case 34 => if p == 1 || p == 12 || p == 43 then 14 else DefaultAt(p)
    case 35 =>
      if p == 17 || p == 26 || p == 32 || p == 35 || p == 38 || p == 48 || p == 52 || p == 58 || p == 60 then 28 else
      if p == 19 then 21 else DefaultAt(p)
    case 36 => if p == 17 then 18 else if p == 26 || p == 32 then 27 else if p == 35 then 36 else
      if p == 38 then 39 else if p == 48 || p == 58 || p == 60 then 49 else if p == 52 then 53 else
      DefaultAt(p)
    case 37 => if p == 26 then 37 else if p == 32 then 33 else DefaultAt(p)
    case 38 => if p == 1 || p == 12 || p == 43 then 45 else if p == 8 then 9 else DefaultAt(p)
    case 39 => if p == 26 then 30 else DefaultAt(p)
    case 40 =>
      if p == 17 || p == 19 || p == 26 || p == 32 || p == 35 || p == 38 || p == 48 || p == 52 || p == 58 || p == 60 then 25 else
      DefaultAt(p)
    case 41 => if p == 1 || p == 12 || p == 43 then 16 else
      if p == 17 || p == 19 || p == 26 || p == 32 || p == 35 || p == 38 || p == 48 || p == 52 || p == 58 || p == 60 then 22 else
      DefaultAt(p)
    case 42 => if p == 26 || p == 32 then 34 else if p == 48 then 50 else if p == 58 then 59 else
      if p == 60 then 61 else DefaultAt(p)
    case 43 => if p == 51 then 52 else DefaultAt(p)
    case 44 => if p == 5 then 7 else DefaultAt(p)
    case 45 => if p == 1 || p == 12 || p == 43 then 41 else DefaultAt(p)
    case 46 => if p == 1 || p == 8 || p == 12 || p == 43 then 10 else DefaultAt(p)
    case _ => DefaultAt(p)
  }

  function DepthAt(s: nat): nat {
    match s
    case 0 => 0
    case 2 | 6 | 7 | 11 | 17 | 19 | 29 | 30 | 32 | 35 | 38 | 42 | 47 | 59 | 61 => 2
    case 8 | 12 | 18 | 21 | 31 | 33 | 36 | 39 | 43 | 48 => 3
    case 9 | 44 | 50 | 62 => 4
    case 51 => 5
    case 52 => 6
    case 53 => 7
    case _ => 1
  }

  function RankAt(s: nat): nat {
    match s
    case 0 | 5 | 11 | 27 | 42 | 49 => 2
    case 3 | 4 | 6 | 13 | 14 | 15 | 21 | 37 | 40 | 54 | 55 | 56 | 57 | 59 | 61 | 62 => 1
    case 20 => 5
    case 22 | 23 | 24 | 25 | 29 => 4
    case 28 | 31 | 45 => 3
    case _ => 0
  }

  /** LPARAN and LCURLY open a bracket, RPARAN and RCURLY close one. */
  function BracketAt(x: nat): int {
    match x
    case 8 | 13 => 1
    case 9 | 14 => -1
    case _ => 0
  }

  function HeightAt(s: nat): nat {
    match s
    case 0 | 11 | 42 => 0
    case 1 | 12 | 43 => 1
    case 6 | 7 | 17 | 38 | 59 | 61 => 3
    case 8 | 18 | 39 => 4
    case 9 | 10 | 46 => 5
    case 26 | 47 => 6
    case 29 | 30 | 37 | 48 => 7
    case 31 | 32 | 49 | 50 => 8
    case 27 | 33 | 34 | 51 => 9
    case 35 | 52 | 54 | 55 | 56 | 57 => 10
    case 28 | 36 | 53 => 11
    case 19 => 12
    case 20 | 21 | 22 | 23 | 24 | 25 => 13
    case _ => 2
  }

  predicate ClosedAt(s: nat) { s == 29 || s == 31 || s == 44 || s == 62 }

  function PastAt(s: nat, k: nat): nat {
    match k
    case 0 => (match s
      case 1 | 12 | 43 => 28
      case 2 => 29
      case 3 => 30
      case 4 => 31
      case 5 => 32
      case 6 | 15 => 1
      case 7 => 44
      case 8 => 15
      case 9 | 45 => 38
      case 10 => 46
      case 11 | 42 => 13
      case 13 => 33
      case 14 => 34
      case 16 | 22 => 41
      case 17 => 2
      case 18 | 27 | 36 | 39 | 49 | 53 => 36
      case 19 => 5
      case 20 => 4
      case 21 | 28 => 35
      case 23 => 6
      case 24 => 7
      case 25 => 40
      case 26 => 8
      case 29 | 31 => 9
      case 30 => 39
      case 32 => 10
      case 33 | 37 => 37
      case 34 | 50 | 59 | 61 => 42
      case 35 => 11
      case 38 => 3
      case 40 => 12
      case 41 => 45
      case 44 | 62 => 14
      case 46 => 16
      case 47 => 17
      case 48 => 18
      case 51 => 19
      case 52 => 43
      case 54 => 20
      case 55 => 21
      case 56 => 22
      case 57 => 23
      case 58 => 24
      case 60 => 25
      case _ => 0)
    case 1 => (match s
      case 2 | 44 | 62 => 28
      case 6 | 7 => 32
      case 8 => 44
      case 9 => 15
      case 11 => 46
      case 12 | 43 => 13
      case 17 | 38 => 41
      case 18 => 2
      case 19 => 36
      case 21 => 5
      case 29 | 30 => 8
      case 31 | 32 => 39
      case 33 => 10
      case 35 | 51 => 42
      case 36 => 11
      case 39 => 3
      case 42 => 45
      case 47 => 16
      case 48 => 17
      case 50 => 18
      case 52 => 19
      case 53 => 43
      case 59 => 24
      case 61 => 25
      case _ => 0)
    case 2 => (match s
      case 8 => 32
      case 9 => 44
      case 12 => 46
      case 18 | 39 => 41
      case 21 => 36
      case 31 => 8
      case 33 => 39
      case 36 | 52 => 42
      case 43 => 45
      case 44 | 62 => 13
      case 48 => 16
      case 50 => 17
      case 51 => 18
      case 53 => 19
      case _ => 0)
    case 3 => (match s
      case 9 => 32
      case 44 => 45
      case 50 => 16
      case 51 => 17
      case 52 => 18
      case 53 => 42
      case 62 => 46
      case _ => 0)
    case 4 => (match s
      case 51 => 16
      case 52 => 17
      case 53 => 18
      case _ => 0)
    case 5 => (match s
      case 52 => 16
      case 53 => 17
      case _ => 0)
    case 6 => (match s
      case 53 => 16
      case _ => 0)
    case _ => 0
  }

  predicate UnderAt(s: nat, k: nat, p: nat) {
    match k
    case 0 => (match s
      case 1 => p == 0
      case 2 | 3 | 4 | 5 | 13 | 14 | 15 | 16 | 40 | 41 | 45 | 58 | 60 => p == 1 || p == 12 || p == 43
      case 6 | 7 => p == 5
      case 8 => p == 7
      case 9 => p == 8
      case 10 | 46 => p == 1 || p == 8 || p == 12 || p == 43
      case 11 => p == 10
      case 12 => p == 11
      case 17 | 38 => p == 16
      case 18 => p == 17
      case 19 => p == 18 || p == 27 || p == 36 || p == 39 || p == 49 || p == 53
      case 20 => p == 1 || p == 12 || p == 17 || p == 19 || p == 26 || p == 32 || p == 35 || p == 38 || p == 43 || p == 48 || p == 52 || p == 58 || p == 60
      case 21 => p == 19
      case 22 | 23 | 24 | 25 | 26 => p == 17 || p == 19 || p == 26 || p == 32 || p == 35 || p == 38 || p == 48 || p == 52 || p == 58 || p == 60
      case 27 | 34 => p == 26 || p == 32
      case 28 => p == 17 || p == 26 || p == 32 || p == 35 || p == 38 || p == 48 || p == 52 || p == 58 || p == 60
      case 29 | 30 | 37 => p == 26
      case 31 | 32 => p == 30
      case 33 => p == 32
      case 35 => p == 34
      case 36 => p == 35
      case 39 => p == 38
      case 42 => p == 41
      case 43 => p == 42
      case 44 => p == 43
      case 47 => p == 46
      case 48 => p == 47
      case 49 => p == 48 || p == 58 || p == 60
      case 50 => p == 48
      case 51 => p == 50
      case 52 | 54 | 55 | 56 | 57 => p == 51
      case 53 => p == 52
      case 59 => p == 58
      case 61 => p == 60
      case 62 => p == 12
      case _ => false)
    case 1 => (match s
      case 2 => p == 0 || p == 11 || p == 42
      case 6 | 7 | 17 | 38 | 42 | 59 | 61 => p == 1 || p == 12 || p == 43
      case 8 => p == 5
      case 9 => p == 7
      case 11 | 47 => p == 1 || p == 8 || p == 12 || p == 43
      case 12 => p == 10
      case 18 | 39 => p == 16
      case 19 => p == 17 || p == 26 || p == 32 || p == 35 || p == 38 || p == 48 || p == 52 || p == 58 || p == 60
      case 21 => p == 18 || p == 27 || p == 36 || p == 39 || p == 49 || p == 53
      case 29 | 30 => p == 17 || p == 19 || p == 26 || p == 32 || p == 35 || p == 38 || p == 48 || p == 52 || p == 58 || p == 60
      case 31 | 32 => p == 26
      case 33 => p == 30
      case 35 => p == 26 || p == 32
      case 36 => p == 34
      case 43 => p == 41
      case 44 => p == 42
      case 48 => p == 46
      case 50 => p == 47
      case 51 => p == 48
      case 52 => p == 50
      case 53 => p == 51
      case 62 => p == 11
      case _ => false)
    case 2 => (match s
      case 8 | 18 | 39 | 43 => p == 1 || p == 12 || p == 43
      case 9 => p == 5
      case 12 | 48 => p == 1 || p == 8 || p == 12 || p == 43
      case 21 => p == 17 || p == 26 || p == 32 || p == 35 || p == 38 || p == 48 || p == 52 || p == 58 || p == 60
      case 31 => p == 17 || p == 19 || p == 26 || p == 32 || p == 35 || p == 38 || p == 48 || p == 52 || p == 58 || p == 60
      case 33 => p == 26
      case 36 => p == 26 || p == 32
      case 44 => p == 41
      case 50 => p == 46
      case 51 => p == 47
      case 52 => p == 48
      case 53 => p == 50
      case 62 => p == 10
      case _ => false)
    case 3 => (match s
      case 9 | 44 => p == 1 || p == 12 || p == 43
      case 50 | 62 => p == 1 || p == 8 || p == 12 || p == 43
      case 51 => p == 46
      case 52 => p == 47
      case 53 => p == 48
      case _ => false)
    case 4 => (match s
      case 51 => p == 1 || p == 8 || p == 12 || p == 43
      case 52 => p == 46
      case 53 => p == 47
      case _ => false)
    case 5 => (match s
      case 52 => p == 1 || p == 8 || p == 12 || p == 43
      case 53 => p == 46
      case _ => false)
    case 6 => (match s
      case 53 => p == 1 || p == 8 || p == 12 || p == 43
      case _ => false)
    case _ => false
  }

  predicate Ahead0(a: nat)
    { a == 0 || a == 1 || a == 4 || a == 5 || a == 12 || a == 14 || a == 16 || a == 24 || a == 25 }
  predicate Ahead1(a: nat) { a == 1 || a == 4 || a == 12 || a == 14 || a == 16 || a == 24 || a == 25 }
  predicate Ahead2(a: nat) { a == 0 || a == 1 || a == 4 || a == 12 || a == 14 || a == 16 || a == 24 || a == 25 }
  predicate Ahead4(a: nat)
    { a == 0 || a == 1 || a == 4 || a == 5 || 9 <= a <= 14 || a == 16 || a == 19 || a == 24 || a == 25 }
  predicate Ahead5(a: nat) { a == 5 || 9 <= a <= 11 }
  predicate Ahead8(a: nat) { a == 0 || a == 1 || a == 4 || a == 12 || a == 16 || a == 24 || a == 25 }
  predicate Ahead9(a: nat) { a == 5 || a == 9 || a == 10 }
  predicate Ahead12(a: nat) { a == 4 || 6 <= a <= 8 }
  predicate Ahead17(a: nat) { 0 <= a <= 5 || 9 <= a <= 14 || a == 16 || a == 19 || a == 24 || a == 25 }
  predicate Ahead19(a: nat)
    { a == 0 || a == 1 || a == 4 || a == 12 || a == 14 || a == 16 || a == 19 || a == 24 || a == 25 }
  predicate Ahead20(a: nat)
    { a == 0 || a == 1 || a == 4 || a == 5 || a == 12 || a == 14 || a == 16 || a == 19 || a == 24 || a == 25 }

  /** LALR(1) items of each state: rule r, d symbols in, lookahead a. */
  predicate ItemAt(s: nat, r: nat, d: nat, a: nat) {
    match s
    case 0 => (d == 0 && r == 0 && a == 0)
      || (d == 0 && (r == 1 || r == 2) && Ahead8(a))
    case 1 => (d == 0 && (3 <= r <= 10 || r == 28 || r == 38 || r == 39) && Ahead8(a))
      || (d == 0 && 29 <= r <= 31 && (a == 1 || a == 15))
      || (d == 0 && r == 11 && (a == 2 || a == 3))
      || (d == 0 && (r == 27 || r == 32) && a == 13)
      || (d == 1 && r == 0 && a == 0)
      || (d == 1 && r == 1 && Ahead8(a))
    case 2 => (d == 2 && r == 1 && Ahead2(a))
    case 3 => (d == 1 && r == 3 && Ahead2(a))
    case 4 => (d == 1 && r == 4 && Ahead2(a))
    case 5 => (d == 0 && (r == 25 || r == 26) && a == 15)
      || (d == 1 && r == 5 && Ahead2(a))
      || (d == 1 && r == 29 && (a == 1 || a == 15))
    case 6 => (d == 1 && r == 25 && a == 15)
      || (d == 2 && r == 5 && Ahead2(a))
    case 7 => (d == 2 && r == 29 && (a == 1 || a == 15))
    case 8 => (d == 0 && r == 31 && (a == 1 || a == 15))
      || (d == 0 && r == 32 && a == 13)
      || (d == 3 && r == 29 && (a == 1 || a == 15))
    case 9 => (d == 4 && r == 29 && (a == 1 || a == 15))
    case 10 => (d == 1 && r == 31 && (a == 1 || a == 15))
    case 11 => (d == 0 && (r == 1 || r == 2) && Ahead1(a))
      || (d == 2 && r == 31 && (a == 1 || a == 15))
    case 12 => (d == 0 && (3 <= r <= 10 || r == 28 || r == 38 || r == 39) && Ahead1(a))
      || (d == 0 && 29 <= r <= 31 && (a == 1 || a == 15))
      || (d == 0 && r == 11 && (a == 2 || a == 3))
      || (d == 0 && (r == 27 || r == 32) && a == 13)
      || (d == 1 && r == 1 && Ahead1(a))
      || (d == 3 && r == 31 && (a == 1 || a == 15))
    case 13 => (d == 1 && r == 6 && Ahead2(a))
    case 14 => (d == 1 && r == 7 && Ahead2(a))
    case 15 => (d == 1 && r == 8 && Ahead2(a))
    case 16 => (d == 1 && (r == 9 || r == 10) && Ahead2(a))
    case 17 => (d == 0 && 11 <= r <= 19 && Ahead0(a))
      || (d == 2 && r == 9 && Ahead2(a))
    case 18 => (d == 1 && r == 12 && Ahead0(a))
      || (d == 3 && r == 9 && Ahead2(a))
    case 19 => (d == 0 && (r == 11 || 14 <= r <= 19) && Ahead4(a))
      || (d == 2 && r == 12 && Ahead4(a))
    case 20 => (d == 1 && r == 11 && Ahead17(a))
    case 21 => (d == 3 && r == 12 && Ahead4(a))
    case 22 => (d == 1 && r == 14 && Ahead4(a))
    case 23 => (d == 1 && r == 15 && Ahead4(a))
    case 24 => (d == 1 && r == 16 && Ahead4(a))
    case 25 => (d == 1 && r == 17 && Ahead4(a))
    case 26 => (d == 0 && 11 <= r <= 19 && Ahead5(a))
      || (d == 0 && 20 <= r <= 24 && (a == 9 || a == 10))
      || (d == 0 && r == 37 && a == 11)
      || (d == 1 && (r == 18 || r == 19) && Ahead4(a))
    case 27 => (d == 1 && r == 12 && Ahead5(a))
      || (d == 1 && r == 23 && (a == 9 || a == 10))
      || (d == 1 && r == 37 && a == 11)
    case 28 => (d == 1 && r == 13 && Ahead4(a))
    case 29 => (d == 2 && r == 18 && Ahead4(a))
    case 30 => (d == 1 && (r == 20 || r == 21) && (a == 9 || a == 10))
      || (d == 2 && r == 19 && Ahead4(a))
    case 31 => (d == 3 && r == 19 && Ahead4(a))
    case 32 => (d == 0 && 11 <= r <= 19 && Ahead5(a))
      || (d == 0 && (r == 23 || r == 24) && (a == 9 || a == 10))
      || (d == 0 && r == 37 && a == 11)
      || (d == 2 && (r == 20 || r == 21) && (a == 9 || a == 10))
    case 33 => (d == 3 && r == 20 && (a == 9 || a == 10))
    case 34 => (d == 1 && r == 24 && (a == 9 || a == 10))
    case 35 => (d == 0 && 11 <= r <= 19 && Ahead9(a))
      || (d == 2 && r == 24 && (a == 9 || a == 10))
    case 36 => (d == 1 && r == 12 && Ahead9(a))
      || (d == 3 && r == 24 && (a == 9 || a == 10))
    case 37 => (d == 1 && r == 22 && (a == 9 || a == 10))
    case 38 => (d == 0 && 11 <= r <= 19 && Ahead0(a))
      || (d == 2 && r == 10 && Ahead2(a))
    case 39 => (d == 1 && r == 12 && Ahead0(a))
      || (d == 3 && r == 10 && Ahead2(a))
    case 40 => (d == 1 && r == 27 && a == 13)
    case 41 => (d == 1 && r == 28 && Ahead2(a))
    case 42 => (d == 0 && (r == 1 || r == 2) && Ahead1(a))
      || (d == 2 && r == 28 && Ahead2(a))
    case 43 => (d == 0 && (3 <= r <= 10 || r == 28 || r == 38 || r == 39) && Ahead1(a))
      || (d == 0 && 29 <= r <= 31 && (a == 1 || a == 15))
      || (d == 0 && r == 11 && (a == 2 || a == 3))
      || (d == 0 && (r == 27 || r == 32) && a == 13)
      || (d == 1 && r == 1 && Ahead1(a))
      || (d == 3 && r == 28 && Ahead2(a))
    case 44 => (d == 4 && r == 28 && Ahead2(a))
    case 45 => (d == 1 && r == 30 && (a == 1 || a == 15))
    case 46 => (d == 1 && r == 32 && a == 13)
    case 47 => (d == 2 && r == 32 && a == 13)
    case 48 => (d == 0 && 11 <= r <= 19 && (a == 5 || a == 19))
      || (d == 0 && r == 37 && a == 19)
      || (d == 3 && r == 32 && a == 13)
    case 49 => (d == 1 && r == 12 && Ahead20(a))
      || (d == 1 && r == 37 && Ahead19(a))
    case 50 => (d == 4 && r == 32 && a == 13)
    case 51 => (d == 0 && 33 <= r <= 36 && Ahead12(a))
      || (d == 5 && r == 32 && a == 13)
    case 52 => (d == 0 && 11 <= r <= 19 && (a == 5 || a == 13))
      || (d == 6 && r == 32 && a == 13)
    case 53 => (d == 1 && r == 12 && (a == 5 || a == 13))
      || (d == 7 && r == 32 && a == 13)
    case 54 => (d == 1 && r == 33 && Ahead12(a))
    case 55 => (d == 1 && r == 34 && Ahead12(a))
    case 56 => (d == 1 && r == 35 && Ahead12(a))
    case 57 => (d == 1 && r == 36 && Ahead12(a))
    case 58 => (d == 0 && 11 <= r <= 19 && Ahead0(a))
      || (d == 0 && r == 37 && Ahead2(a))
      || (d == 1 && r == 38 && Ahead2(a))
    case 59 => (d == 2 && r == 38 && Ahead2(a))
    case 60 => (d == 0 && 11 <= r <= 19 && Ahead0(a))
      || (d == 0 && r == 37 && Ahead2(a))
      || (d == 1 && r == 39 && Ahead2(a))
    case 61 => (d == 2 && r == 39 && Ahead2(a))
    case 62 => (d == 4 && r == 31 && (a == 1 || a == 15))
    case _ => false
  }

  predicate NullableAt(x: nat) { x == 27 || x == 28 || x == 44 }

  predicate FirstAt(x: nat, b: nat) {
    match x
    case 26 => false
    case 27 | 28 | 29 => b == 1 || b == 4 || b == 12 || b == 16 || b == 24 || b == 25
    case 30 | 41 => b == 4
    case 31 | 45 => b == 12
    case 32 | 38 | 46 => b == 16
    case 33 => b == 24
    case 34 => b == 25
    case 35 | 36 | 37 | 39 | 42 => b == 4 || 6 <= b <= 8
    case 40 => b == 8
    case 43 => 20 <= b <= 23
    case 44 => b == 1
    case _ => false
  }

}
