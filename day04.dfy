/** Day 4: a word search.  Part 1 counts the readings of XMAS in the eight directions; part 2
    counts the X-shaped crossings of two MAS diagonals. */
module Day04 {
  import opened Common

  const Word: string := "XMAS"

  /** DIRECTIONS, in the source's order. */
  const Directions: seq<(int, int)> := [(0, 1), (1, 1), (1, 0), (1, -1), (0, -1), (-1, -1), (-1, 0), (-1, 1)]

  /** The letters as main stores them: the lines concatenated, the width of the first non-empty
      line (x_max) and the number of lines (y_max). */
  datatype Grid = Grid(data: string, width: nat, height: nat)

  /** One line of the reading loop: the first non-empty line fixes the width, a later non-empty
      line of another width panics (None), an empty line is kept as a row. */
  function ReadRow(g: Grid, line: string): Option<Grid>
  {
    if g.width == 0 then Some(Grid(g.data + line, |line|, g.height + 1))
    else if |line| > 0 && |line| != g.width then None
    else Some(Grid(g.data + line, g.width, g.height + 1))
  }

  /** The grid after the first `n` lines. */
  function ReadGrid(lines: seq<string>, n: nat): Option<Grid>
    requires n <= |lines|
  {
    if n == 0 then Some(Grid([], 0, 0))
    else match ReadGrid(lines, n - 1)
      case None => None
      case Some(g) => ReadRow(g, lines[n - 1])
  }

  /** Every non-empty line has the width of the first non-empty line, and the data holds at
      most a full rectangle. */
  lemma {:induction false} ReadGridShape(lines: seq<string>, n: nat)
    requires n <= |lines| && ReadGrid(lines, n).Some?
    ensures var g := ReadGrid(lines, n).value;
            && g.height == n
            && |g.data| <= g.width * g.height
            && forall k :: 0 <= k < n && lines[k] != [] ==> |lines[k]| == g.width
  {
    if n > 0 {
      ReadGridShape(lines, n - 1);
      var g := ReadGrid(lines, n - 1).value;
      var r := ReadGrid(lines, n).value;
      if g.width == 0 {
        assert |g.data| == 0;
        MulNonNegative(r.width, n - 1);
        assert r.width * n == r.width * (n - 1) + r.width;
      } else {
        assert r.width * n == g.width * (n - 1) + g.width;
      }
    }
  }

  /** check_char: the cell is inside and holds `c`.  A cell past the end of the data (a grid
      with empty lines) holds nothing, as `chars().nth` returns None there. */
  predicate CheckChar(g: Grid, x: int, y: int, c: char): (b: bool)
    ensures b <==> Inside(g, x, y) && g.data[Cell(g, x, y)] == c
  {
    0 <= x < g.width && 0 <= y < g.height && x + y * g.width < |g.data| && g.data[x + y * g.width] == c
  }

  /** XMAS reads from (x, y) in direction `d`. */
  predicate WordAt(g: Grid, x: int, y: int, d: nat)
    requires d < 8
  {
    forall i :: 0 <= i < 4 ==> CheckChar(g, x + Directions[d].0 * i, y + Directions[d].1 * i, Word[i])
  }

  /** The inner loop of check_word for one direction: every letter of XMAS in place. */
  method WordFrom(g: Grid, x: int, y: int, d: nat) returns (found: bool)
    requires d < 8
    ensures found <==> WordAt(g, x, y, d)
  {
    var (dx, dy) := Directions[d];
    for i := 0 to 4
      invariant forall k :: 0 <= k < i ==> CheckChar(g, x + dx * k, y + dy * k, Word[k])
    {
      if !CheckChar(g, x + dx * i, y + dy * i, Word[i]) {
        return false;
      }
    }
    return true;
  }

  /** The number of directions among the first `n` in which XMAS reads from (x, y). */
  function DirCount(g: Grid, x: int, y: int, n: nat): nat
    requires n <= 8
  {
    if n == 0 then 0 else DirCount(g, x, y, n - 1) + (if WordAt(g, x, y, n - 1) then 1 else 0)
  }

  /** check_word: the directions, out of eight, in which XMAS reads from (x, y). */
  method CheckWord(g: Grid, x: int, y: int) returns (ret: nat)
    ensures ret == DirCount(g, x, y, 8)
  {
    ret := 0;
    for d := 0 to 8
      invariant ret == DirCount(g, x, y, d)
    {
      var found := WordFrom(g, x, y, d);
      if found {
        ret := ret + 1;
      }
    }
  }

  /** At most one reading per direction, and none unless the cell holds the X. */
  lemma {:induction false} DirCountBounds(g: Grid, x: int, y: int, n: nat)
    requires n <= 8
    ensures DirCount(g, x, y, n) <= n
    ensures DirCount(g, x, y, n) > 0 ==> CheckChar(g, x, y, 'X')
  {
    if n > 0 {
      DirCountBounds(g, x, y, n - 1);
      if WordAt(g, x, y, n - 1) {
        assert CheckChar(g, x + Directions[n - 1].0 * 0, y + Directions[n - 1].1 * 0, Word[0]);
      }
    }
  }

  /** The opposite end of a reading: XMAS reads from (x, y) in direction d exactly when the
      word ends three steps further, so reading SAMX backwards from there gives it. */
  lemma WordEnds(g: Grid, x: int, y: int, d: nat)
    requires d < 8 && WordAt(g, x, y, d)
    ensures CheckChar(g, x + 3 * Directions[d].0, y + 3 * Directions[d].1, 'S')
  {
    assert CheckChar(g, x + Directions[d].0 * 3, y + Directions[d].1 * 3, Word[3]);
  }

  /** check_mas: an A in the centre and, on each diagonal, an M at one end and an S at the
      other. */
  predicate CheckMas(g: Grid, x: int, y: int): (b: bool)
    ensures b ==> 1 <= x < g.width - 1 && 1 <= y < g.height - 1
    ensures b ==> Inside(g, x, y) && Inside(g, x + 1, y + 1) && Inside(g, x - 1, y - 1)
                  && Inside(g, x + 1, y - 1) && Inside(g, x - 1, y + 1)
    ensures b ==> g.data[Cell(g, x, y)] == 'A'
    ensures b ==> multiset{g.data[Cell(g, x + 1, y + 1)], g.data[Cell(g, x - 1, y - 1)],
                           g.data[Cell(g, x + 1, y - 1)], g.data[Cell(g, x - 1, y + 1)]} == multiset{'M', 'M', 'S', 'S'}
  {
    var d1 := (CheckChar(g, x + 1, y + 1, 'M') && CheckChar(g, x - 1, y - 1, 'S'))
        || (CheckChar(g, x + 1, y + 1, 'S') && CheckChar(g, x - 1, y - 1, 'M'));
    var d2 := (CheckChar(g, x + 1, y - 1, 'M') && CheckChar(g, x - 1, y + 1, 'S'))
        || (CheckChar(g, x + 1, y - 1, 'S') && CheckChar(g, x - 1, y + 1, 'M'));
    if CheckChar(g, x, y, 'A') && d1 && d2 then
      TwoPairs(g.data[Cell(g, x + 1, y + 1)], g.data[Cell(g, x - 1, y - 1)],
               g.data[Cell(g, x + 1, y - 1)], g.data[Cell(g, x - 1, y + 1)]);
      true
    else false
  }

  /** Two pairs, each an M and an S, hold two of each. */
  lemma TwoPairs(a: char, b: char, c: char, d: char)
    requires (a == 'M' && b == 'S') || (a == 'S' && b == 'M')
    requires (c == 'M' && d == 'S') || (c == 'S' && d == 'M')
    ensures multiset{a, b, c, d} == multiset{'M', 'M', 'S', 'S'}
  {
    assert multiset{a, b} == multiset{'M', 'S'};
    assert multiset{c, d} == multiset{'M', 'S'};
    assert multiset{a, b, c, d} == multiset{a, b} + multiset{c, d};
  }

  /** A crossing needs all four diagonal neighbours, so it is never on the border. */
  lemma MasInterior(g: Grid, x: int, y: int)
    requires CheckMas(g, x, y)
    ensures 1 <= x < g.width - 1 && 1 <= y < g.height - 1
  {
  }

  /** A crossing is the same whichever way round each diagonal is read: the pattern is
      unchanged by swapping the M and S of a diagonal. */
  lemma MasSymmetric(g: Grid, x: int, y: int)
    ensures CheckMas(g, x, y) <==>
      CheckChar(g, x, y, 'A')
      && (multiset{g.data[Cell(g, x + 1, y + 1)], g.data[Cell(g, x - 1, y - 1)]} == multiset{'M', 'S'}
          && Inside(g, x + 1, y + 1) && Inside(g, x - 1, y - 1))
      && (multiset{g.data[Cell(g, x + 1, y - 1)], g.data[Cell(g, x - 1, y + 1)]} == multiset{'M', 'S'}
          && Inside(g, x + 1, y - 1) && Inside(g, x - 1, y + 1))
  {
    var a, b := Cell(g, x + 1, y + 1), Cell(g, x - 1, y - 1);
    var c, d := Cell(g, x + 1, y - 1), Cell(g, x - 1, y + 1);
    if Inside(g, x + 1, y + 1) && Inside(g, x - 1, y - 1) {
      PairIsMS(g.data[a], g.data[b]);
    }
    if Inside(g, x + 1, y - 1) && Inside(g, x - 1, y + 1) {
      PairIsMS(g.data[c], g.data[d]);
    }
  }

  /** The index of a cell, or 0 when it is outside. */
  function Cell(g: Grid, x: int, y: int): nat
  {
    if Inside(g, x, y) then x + y * g.width else 0
  }

  /** The cell is in bounds and inside the data. */
  predicate Inside(g: Grid, x: int, y: int)
  {
    0 <= x < g.width && 0 <= y < g.height && x + y * g.width < |g.data|
  }

  /** Two letters are an M and an S in some order exactly when they form the multiset {M, S}. */
  lemma PairIsMS(p: char, q: char)
    ensures (p == 'M' && q == 'S') || (p == 'S' && q == 'M') <==> multiset{p, q} == multiset{'M', 'S'}
  {
    if multiset{p, q} == multiset{'M', 'S'} {
      assert p in multiset{'M', 'S'} && q in multiset{'M', 'S'};
    }
  }

  /** The part-1 and part-2 counts of the first `n` cells of row `y`. */
  function RowWords(g: Grid, y: int, n: nat): nat
  {
    if n == 0 then 0 else RowWords(g, y, n - 1) + DirCount(g, n - 1, y, 8)
  }

  function RowCrossings(g: Grid, y: int, n: nat): nat
  {
    if n == 0 then 0 else RowCrossings(g, y, n - 1) + (if CheckMas(g, n - 1, y) then 1 else 0)
  }

  /** The counts of the first `m` rows, in row-major order. */
  function Words(g: Grid, m: nat): nat
  {
    if m == 0 then 0 else Words(g, m - 1) + RowWords(g, m - 1, g.width)
  }

  function Crossings(g: Grid, m: nat): nat
  {
    if m == 0 then 0 else Crossings(g, m - 1) + RowCrossings(g, m - 1, g.width)
  }

  /** The sweep of main over every cell, row by row. */
  method Sweep(g: Grid) returns (part1: nat, part2: nat)
    ensures part1 == Words(g, g.height) && part2 == Crossings(g, g.height)
    ensures part1 <= 8 * (g.width * g.height) && part2 <= g.width * g.height
  {
    part1, part2 := 0, 0;
    for y := 0 to g.height
      invariant part1 == Words(g, y) && part2 == Crossings(g, y)
    {
      for x := 0 to g.width
        invariant part1 == Words(g, y) + RowWords(g, y, x)
        invariant part2 == Crossings(g, y) + RowCrossings(g, y, x)
      {
        var w := CheckWord(g, x, y);
        part1 := part1 + w;
        if CheckMas(g, x, y) {
          part2 := part2 + 1;
        }
      }
    }
    SweepBounds(g, g.height);
  }

  lemma {:induction false} RowBounds(g: Grid, y: int, n: nat)
    ensures RowWords(g, y, n) <= 8 * n && RowCrossings(g, y, n) <= n
  {
    if n > 0 {
      RowBounds(g, y, n - 1);
      DirCountBounds(g, n - 1, y, 8);
    }
  }

  /** Each cell adds at most 8 words and at most one crossing. */
  lemma {:induction false} SweepBounds(g: Grid, m: nat)
    ensures Words(g, m) <= 8 * (g.width * m) && Crossings(g, m) <= g.width * m
  {
    if m > 0 {
      SweepBounds(g, m - 1);
      RowBounds(g, m - 1, g.width);
      assert g.width * m == g.width * (m - 1) + g.width;
    }
  }

  /** main without the file and the printing: read the lines, then sweep; None when the widths
      are not uniform. */
  method Answers(lines: seq<string>) returns (r: Option<(nat, nat)>)
    ensures r.Some? <==> ReadGrid(lines, |lines|).Some?
    ensures r.Some? ==> var g := ReadGrid(lines, |lines|).value;
                        r.value.0 == Words(g, g.height) && r.value.1 == Crossings(g, g.height)
  {
    var g := Grid([], 0, 0);
    for n := 0 to |lines|
      invariant ReadGrid(lines, n) == Some(g)
    {
      var next := ReadRow(g, lines[n]);
      if next.None? {
        ReadGridNone(lines, n + 1, |lines|);
        return None;
      }
      g := next.value;
    }
    var part1, part2 := Sweep(g);
    r := Some((part1, part2));
  }

  /** Once a line panics, reading panics. */
  lemma {:induction false} ReadGridNone(lines: seq<string>, a: nat, b: nat)
    requires a <= b <= |lines| && ReadGrid(lines, a).None?
    ensures ReadGrid(lines, b).None?
    decreases b - a
  {
    if a < b {
      ReadGridNone(lines, a + 1, b);
    }
  }
}
