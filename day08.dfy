/** Day 8: antennas on a grid, one character per frequency.  Every ordered pair of antennas of a
    frequency casts antinodes along the line through them: part 1 counts the cells one step beyond
    either antenna, part 2 every cell of the line inside the map. */
module Day08 {
  import opened Common
  import opened Geometry

  const ClearChar := '.'

  // ---------------------------------------------------------------------------------------
  // Reading the antennas

  /** `frequencies.entry(c)`: append the position to the list of `c`, creating it if absent. */
  function AddNode(fm: map<char, seq<Point>>, c: char, p: Point): (r: map<char, seq<Point>>)
    ensures r.Keys == fm.Keys + {c}
    ensures r[c] == (if c in fm then fm[c] else []) + [p]
    ensures forall k :: k in fm && k != c ==> r[k] == fm[k]
  {
    fm[c := (if c in fm then fm[c] else []) + [p]]
  }

  /** The map after the first `n` characters of row `y`. */
  function ScanRow(fm: map<char, seq<Point>>, line: string, y: int, n: nat): map<char, seq<Point>>
    requires n <= |line|
  {
    if n == 0 then fm
    else
      var before := ScanRow(fm, line, y, n - 1);
      if line[n - 1] != ClearChar then AddNode(before, line[n - 1], Point(n - 1, y)) else before
  }

  /** The map after the first `m` rows. */
  function Frequencies(lines: seq<string>, m: nat): map<char, seq<Point>>
    requires m <= |lines|
  {
    if m == 0 then map[] else ScanRow(Frequencies(lines, m - 1), lines[m - 1], m - 1, |lines[m - 1]|)
  }

  /** An antenna of frequency `c` stands at `p` among the first `m` rows. */
  predicate Antenna(lines: seq<string>, m: nat, c: char, p: Point)
    requires m <= |lines|
  {
    0 <= p.y < m && 0 <= p.x < |lines[p.y]| && lines[p.y][p.x] == c && c != ClearChar
  }

  /** Scanning part of a row records exactly the antennas seen there. */
  lemma {:induction false} ScanRowMeaning(fm: map<char, seq<Point>>, line: string, y: int, n: nat, c: char, p: Point)
    requires n <= |line|
    ensures var r := ScanRow(fm, line, y, n);
            var old_ := if c in fm then fm[c] else [];
            var now := if c in r then r[c] else [];
            (p in now <==> p in old_ || (p.y == y && 0 <= p.x < n && line[p.x] == c && c != ClearChar))
            && (c in fm ==> c in r)
  {
    if n > 0 {
      ScanRowMeaning(fm, line, y, n - 1, c, p);
    }
  }

  /** The map holds, for every frequency, exactly the positions of its antennas, and no
      entry for the empty cell. */
  lemma {:induction false} FrequenciesMeaning(lines: seq<string>, m: nat, c: char, p: Point)
    requires m <= |lines|
    ensures var fm := Frequencies(lines, m);
            (c in fm && p in fm[c]) <==> Antenna(lines, m, c, p)
  {
    if m > 0 {
      var prev := Frequencies(lines, m - 1);
      var row := lines[m - 1];
      FrequenciesMeaning(lines, m - 1, c, p);
      ScanRowMeaning(prev, row, m - 1, |row|, c, p);
      assert Frequencies(lines, m) == ScanRow(prev, row, m - 1, |row|);
      assert Antenna(lines, m, c, p) <==>
             Antenna(lines, m - 1, c, p) || (p.y == m - 1 && 0 <= p.x < |row| && row[p.x] == c && c != ClearChar);
    }
  }

  /** The row scan of main for one line. */
  method ScanLine(fm: map<char, seq<Point>>, line: string, y: int) returns (r: map<char, seq<Point>>)
    ensures r == ScanRow(fm, line, y, |line|)
  {
    r := fm;
    for x := 0 to |line|
      invariant r == ScanRow(fm, line, y, x)
    {
      var c := line[x];
      if c != ClearChar {
        r := AddNode(r, c, Point(x, y));
      }
    }
  }

  /** The reading loop of main over all rows. */
  method ReadFrequencies(lines: seq<string>) returns (fm: map<char, seq<Point>>)
    ensures fm == Frequencies(lines, |lines|)
  {
    fm := map[];
    for y := 0 to |lines|
      invariant fm == Frequencies(lines, y)
    {
      fm := ScanLine(fm, lines[y], y);
    }
  }

  // ---------------------------------------------------------------------------------------
  // Antinodes

  /** The point `k` steps of `d` away from `p`. */
  function Line(p: Point, d: Point, k: int): Point
  {
    Point(p.x + k * d.x, p.y + k * d.y)
  }

  /** No point of a ray from inside the map stays inside for this many steps. */
  function Reach(b: Rect): nat
  {
    var w, h := b.width - b.x, b.height - b.y;
    if w >= h && w >= 0 then w else if h >= 0 then h else 0
  }

  /** The ray's points inside the map, one step on and further. */
  function RayPoints(b: Rect, p: Point, d: Point): set<Point>
  {
    set k | 1 <= k <= Reach(b) && IsInside(b, Line(p, d, k)) :: Line(p, d, k)
  }

  /** The first `n - 1` points of the ray. */
  function RayPrefix(p: Point, d: Point, n: int): set<Point>
  {
    set k | 1 <= k < n :: Line(p, d, k)
  }

  lemma MulBetween(j: int, k: int, v: int)
    requires 0 <= j <= k
    ensures v >= 0 ==> 0 <= j * v <= k * v
    ensures v < 0 ==> k * v <= j * v <= 0
  {
    MulNonNegative(j, if v >= 0 then v else -v);
    MulNonNegative(k - j, if v >= 0 then v else -v);
    assert (k - j) * v == k * v - j * v;
  }

  /** The map is convex: a point between two inside points on a ray is inside. */
  lemma Convex(b: Rect, p: Point, d: Point, j: int, k: int)
    requires IsInside(b, p) && IsInside(b, Line(p, d, k)) && 0 <= j <= k
    ensures IsInside(b, Line(p, d, j))
  {
    MulBetween(j, k, d.x);
    MulBetween(j, k, d.y);
  }

  /** A non-zero step taken `k` times covers at least `k`. */
  lemma ScaledAtLeast(k: int, v: int)
    requires k >= 1 && v != 0
    ensures Abs(k * v) >= k
  {
    var a := Abs(v);
    MulNonNegative(a - 1, k);
    assert (a - 1) * k == a * k - k;
    if v < 0 {
      assert k * v == -(a * k);
    } else {
      assert k * v == a * k;
    }
  }

  /** A ray from inside with a non-zero step leaves the map within Reach steps. */
  lemma InsideBound(b: Rect, p: Point, d: Point, k: int)
    requires IsInside(b, p) && IsInside(b, Line(p, d, k)) && k >= 1 && d != Point(0, 0)
    ensures k < Reach(b)
  {
    if d.x != 0 {
      ScaledAtLeast(k, d.x);
      assert Line(p, d, k).x - p.x == k * d.x;
    } else {
      ScaledAtLeast(k, d.y);
      assert Line(p, d, k).y - p.y == k * d.y;
    }
  }

  /** The inner `for i in 1..` loop for one antenna: it walks the ray until it leaves the map,
      adding the first point to part 1 and every point to part 2.  It stops at the first point
      outside, yet that loses nothing: every inside point of the ray is recorded. */
  method Ray(b: Rect, p: Point, d: Point, part1: set<Point>, part2: set<Point>)
    returns (r1: set<Point>, r2: set<Point>)
    requires IsInside(b, p) && d != Point(0, 0)
    ensures r1 == part1 + Near(b, p, d)
    ensures r2 == part2 + RayPoints(b, p, d)
  {
    r1, r2 := part1, part2;
    var i := 1;
    while true
      invariant 1 <= i
      invariant forall k :: 1 <= k < i ==> IsInside(b, Line(p, d, k))
      invariant r1 == part1 + (if i > 1 then {Line(p, d, 1)} else {})
      invariant r2 == part2 + RayPrefix(p, d, i)
      decreases Reach(b) - i
    {
      var q := Point(p.x + d.x * i, p.y + d.y * i);
      assert q == Line(p, d, i);
      if !IsInside(b, q) {
        RayComplete(b, p, d, i);
        return;
      }
      InsideBound(b, p, d, i);
      if i == 1 {
        r1 := r1 + {q};
      }
      assert RayPrefix(p, d, i + 1) == RayPrefix(p, d, i) + {q};
      r2 := r2 + {q};
      i := i + 1;
    }
  }

  /** When step `n` is the first outside, the prefix before it is the whole inside ray. */
  lemma RayComplete(b: Rect, p: Point, d: Point, n: int)
    requires IsInside(b, p) && d != Point(0, 0) && n >= 1 && !IsInside(b, Line(p, d, n))
    requires forall k :: 1 <= k < n ==> IsInside(b, Line(p, d, k))
    ensures RayPrefix(p, d, n) == RayPoints(b, p, d)
  {
    forall q | q in RayPoints(b, p, d)
      ensures q in RayPrefix(p, d, n)
    {
      var k :| 1 <= k <= Reach(b) && IsInside(b, Line(p, d, k)) && q == Line(p, d, k);
      if k >= n {
        Convex(b, p, d, n, k);
      }
    }
    forall q | q in RayPrefix(p, d, n)
      ensures q in RayPoints(b, p, d)
    {
      var k :| 1 <= k < n && q == Line(p, d, k);
      InsideBound(b, p, d, k);
    }
  }

  /** The antinodes of the ordered pair (a, c): part 1 (`whole` false) the cells one step beyond
      a away from c and one step beyond c away from a; part 2 (`whole` true) both antennas and
      every inside cell of the two rays. */
  function PairSet(b: Rect, a: Point, c: Point, whole: bool): set<Point>
  {
    var d := Sub(a, c);
    var back := Point(-d.x, -d.y);
    if whole then {a, c} + RayPoints(b, a, d) + RayPoints(b, c, back)
    else Near(b, a, d) + Near(b, c, back)
  }

  /** One ordered pair of different antennas, as the body of the `b` loop does it. */
  method Pair(b: Rect, a: Point, c: Point, part1: set<Point>, part2: set<Point>)
    returns (r1: set<Point>, r2: set<Point>)
    requires IsInside(b, a) && IsInside(b, c) && a != c
    ensures r1 == part1 + PairSet(b, a, c, false)
    ensures r2 == part2 + PairSet(b, a, c, true)
  {
    var d := Sub(a, c);
    var back := Point(-d.x, -d.y);
    r1, r2 := Ray(b, a, d, part1, part2 + {a, c});
    r1, r2 := Ray(b, c, back, r1, r2);
    PairSetParts(b, a, c);
    Regroup(part1, Near(b, a, d), Near(b, c, back));
    Regroup3(part2, {a, c}, RayPoints(b, a, d), RayPoints(b, c, back));
  }

  /** The first cell beyond `p` along `d`, when it is inside. */
  function Near(b: Rect, p: Point, d: Point): set<Point>
  {
    if IsInside(b, Line(p, d, 1)) then {Line(p, d, 1)} else {}
  }

  /** PairSet by its parts. */
  lemma PairSetParts(b: Rect, a: Point, c: Point)
    ensures var d := Sub(a, c); var back := Point(-d.x, -d.y);
            && PairSet(b, a, c, false) == Near(b, a, d) + Near(b, c, back)
            && PairSet(b, a, c, true) == {a, c} + RayPoints(b, a, d) + RayPoints(b, c, back)
  {
  }

  lemma Regroup(s: set<Point>, x: set<Point>, y: set<Point>)
    ensures s + x + y == s + (x + y)
  {
  }

  lemma Regroup3(s: set<Point>, x: set<Point>, y: set<Point>, z: set<Point>)
    ensures s + x + y + z == s + (x + y + z)
  {
  }

  /** How one ordered pair of antennas casts antinodes. */
  type PairRule = (Point, Point) -> set<Point>

  /** The rule of part 1 (`whole` false) or of part 2 (`whole` true). */
  function Casting(b: Rect, whole: bool): PairRule
  {
    (a: Point, c: Point) => PairSet(b, a, c, whole)
  }

  /** The antinodes of the pairs (nodes[i], nodes[j]) for j < n. */
  function RowSet(pairs: PairRule, nodes: seq<Point>, i: nat, n: nat): set<Point>
    requires i < |nodes| && n <= |nodes|
  {
    if n == 0 then {}
    else RowSet(pairs, nodes, i, n - 1)
         + (if nodes[i] != nodes[n - 1] then pairs(nodes[i], nodes[n - 1]) else {})
  }

  /** The antinodes of the pairs whose first antenna is among the first `m`. */
  function FreqSet(pairs: PairRule, nodes: seq<Point>, m: nat): set<Point>
    requires m <= |nodes|
  {
    if m == 0 then {} else FreqSet(pairs, nodes, m - 1) + RowSet(pairs, nodes, m - 1, |nodes|)
  }

  /** A row holds exactly the antinodes of its pairs of different antennas. */
  lemma {:induction false} RowSetMeaning(pairs: PairRule, nodes: seq<Point>, i: nat, n: nat, q: Point)
    requires i < |nodes| && n <= |nodes|
    ensures q in RowSet(pairs, nodes, i, n) <==>
            exists j :: 0 <= j < n && nodes[i] != nodes[j] && q in pairs(nodes[i], nodes[j])
  {
    if n > 0 {
      RowSetMeaning(pairs, nodes, i, n - 1, q);
      var last := if nodes[i] != nodes[n - 1] then pairs(nodes[i], nodes[n - 1]) else {};
      assert RowSet(pairs, nodes, i, n) == RowSet(pairs, nodes, i, n - 1) + last;
      if q in last {
        assert nodes[i] != nodes[n - 1] && q in pairs(nodes[i], nodes[n - 1]);
      }
      if exists j :: 0 <= j < n && nodes[i] != nodes[j] && q in pairs(nodes[i], nodes[j]) {
        var j :| 0 <= j < n && nodes[i] != nodes[j] && q in pairs(nodes[i], nodes[j]);
        if j == n - 1 {
          assert q in last;
        }
      }
    }
  }

  /** A frequency holds exactly the antinodes of its ordered pairs of different antennas. */
  lemma FreqSetMeaning(pairs: PairRule, nodes: seq<Point>, m: nat, q: Point)
    requires m <= |nodes|
    ensures q in FreqSet(pairs, nodes, m) <==> PairWitness(pairs, nodes, m, q)
  {
    if q in FreqSet(pairs, nodes, m) {
      FreqSetSound(pairs, nodes, m, q);
    }
    if PairWitness(pairs, nodes, m, q) {
      var i, j :| 0 <= i < m && 0 <= j < |nodes| && Casts(pairs, nodes, i, j, q);
      FreqSetComplete(pairs, nodes, m, q, i, j);
    }
  }

  lemma {:induction false} FreqSetSound(pairs: PairRule, nodes: seq<Point>, m: nat, q: Point)
    requires m <= |nodes| && q in FreqSet(pairs, nodes, m)
    ensures PairWitness(pairs, nodes, m, q)
  {
    if q in RowSet(pairs, nodes, m - 1, |nodes|) {
      RowSetMeaning(pairs, nodes, m - 1, |nodes|, q);
      var j :| 0 <= j < |nodes| && nodes[m - 1] != nodes[j] && q in pairs(nodes[m - 1], nodes[j]);
      assert Casts(pairs, nodes, m - 1, j, q);
    } else {
      FreqSetSound(pairs, nodes, m - 1, q);
      var i, j :| 0 <= i < m - 1 && 0 <= j < |nodes| && Casts(pairs, nodes, i, j, q);
      assert 0 <= i < m;
    }
  }

  lemma {:induction false} FreqSetComplete(pairs: PairRule, nodes: seq<Point>, m: nat, q: Point, i: nat, j: nat)
    requires i < m <= |nodes| && j < |nodes| && Casts(pairs, nodes, i, j, q)
    ensures q in FreqSet(pairs, nodes, m)
  {
    if i < m - 1 {
      FreqSetComplete(pairs, nodes, m - 1, q, i, j);
    } else {
      RowSetMeaning(pairs, nodes, m - 1, |nodes|, q);
    }
  }

  /** The pair (nodes[i], nodes[j]) is of different antennas and casts `q`. */
  predicate Casts(pairs: PairRule, nodes: seq<Point>, i: int, j: int, q: Point)
    requires 0 <= i < |nodes| && 0 <= j < |nodes|
  {
    nodes[i] != nodes[j] && q in pairs(nodes[i], nodes[j])
  }

  /** Some pair whose first antenna is among the first `m` casts `q`. */
  predicate PairWitness(pairs: PairRule, nodes: seq<Point>, m: nat, q: Point)
    requires m <= |nodes|
  {
    exists i, j :: 0 <= i < m && 0 <= j < |nodes| && Casts(pairs, nodes, i, j, q)
  }

  /** All antennas of a frequency lie inside the map. */
  predicate AllInside(b: Rect, nodes: seq<Point>)
  {
    forall i :: 0 <= i < |nodes| ==> IsInside(b, nodes[i])
  }

  /** The `b` loop for one `a`. */
  method ScanRowPairs(b: Rect, nodes: seq<Point>, i: nat, part1: set<Point>, part2: set<Point>)
    returns (r1: set<Point>, r2: set<Point>)
    requires i < |nodes| && AllInside(b, nodes)
    ensures r1 == part1 + RowSet(Casting(b, false), nodes, i, |nodes|)
    ensures r2 == part2 + RowSet(Casting(b, true), nodes, i, |nodes|)
  {
    r1, r2 := part1, part2;
    for j := 0 to |nodes|
      invariant r1 == part1 + RowSet(Casting(b, false), nodes, i, j)
      invariant r2 == part2 + RowSet(Casting(b, true), nodes, i, j)
    {
      r1, r2 := Visit(b, nodes, i, j, part1, part2, r1, r2);
    }
  }

  /** One pass of the `b` loop: a pair of different antennas adds its antinodes. */
  method Visit(b: Rect, nodes: seq<Point>, i: nat, j: nat, part1: set<Point>, part2: set<Point>,
               r1: set<Point>, r2: set<Point>)
    returns (s1: set<Point>, s2: set<Point>)
    requires i < |nodes| && j < |nodes| && AllInside(b, nodes)
    requires r1 == part1 + RowSet(Casting(b, false), nodes, i, j)
    requires r2 == part2 + RowSet(Casting(b, true), nodes, i, j)
    ensures s1 == part1 + RowSet(Casting(b, false), nodes, i, j + 1)
    ensures s2 == part2 + RowSet(Casting(b, true), nodes, i, j + 1)
  {
    if nodes[i] == nodes[j] {
      RowSetStep(b, nodes, i, j, false);
      RowSetStep(b, nodes, i, j, true);
      return r1, r2;
    }
    s1, s2 := Pair(b, nodes[i], nodes[j], r1, r2);
    PairStep(b, nodes, i, j, part1, r1, s1, false);
    PairStep(b, nodes, i, j, part2, r2, s2, true);
  }

  /** After a pair of different antennas, the row so far has grown by one pair. */
  lemma PairStep(b: Rect, nodes: seq<Point>, i: nat, j: nat, base: set<Point>, before: set<Point>,
                 after: set<Point>, whole: bool)
    requires i < |nodes| && j < |nodes| && nodes[i] != nodes[j]
    requires before == base + RowSet(Casting(b, whole), nodes, i, j)
    requires after == before + PairSet(b, nodes[i], nodes[j], whole)
    ensures after == base + RowSet(Casting(b, whole), nodes, i, j + 1)
  {
    RowSetStep(b, nodes, i, j, whole);
    Regroup(base, RowSet(Casting(b, whole), nodes, i, j), PairSet(b, nodes[i], nodes[j], whole));
  }

  /** One more pair extends a row by its antinodes when its antennas differ. */
  lemma RowSetStep(b: Rect, nodes: seq<Point>, i: nat, j: nat, whole: bool)
    requires i < |nodes| && j < |nodes|
    ensures RowSet(Casting(b, whole), nodes, i, j + 1)
            == RowSet(Casting(b, whole), nodes, i, j) + (if nodes[i] != nodes[j] then PairSet(b, nodes[i], nodes[j], whole) else {})
  {
  }

  /** The `a` and `b` loops for one frequency. */
  method ScanFrequency(b: Rect, nodes: seq<Point>, part1: set<Point>, part2: set<Point>)
    returns (r1: set<Point>, r2: set<Point>)
    requires AllInside(b, nodes)
    ensures r1 == part1 + FreqSet(Casting(b, false), nodes, |nodes|)
    ensures r2 == part2 + FreqSet(Casting(b, true), nodes, |nodes|)
  {
    r1, r2 := part1, part2;
    for i := 0 to |nodes|
      invariant r1 == part1 + FreqSet(Casting(b, false), nodes, i)
      invariant r2 == part2 + FreqSet(Casting(b, true), nodes, i)
    {
      ghost var (old1, old2) := (r1, r2);
      r1, r2 := ScanRowPairs(b, nodes, i, r1, r2);
      RowStep(b, nodes, i, part1, old1, r1, false);
      RowStep(b, nodes, i, part2, old2, r2, true);
    }
  }

  /** After one more row, the frequency so far has grown by that row. */
  lemma RowStep(b: Rect, nodes: seq<Point>, i: nat, base: set<Point>, before: set<Point>,
                after: set<Point>, whole: bool)
    requires i < |nodes|
    requires before == base + FreqSet(Casting(b, whole), nodes, i)
    requires after == before + RowSet(Casting(b, whole), nodes, i, |nodes|)
    ensures after == base + FreqSet(Casting(b, whole), nodes, i + 1)
  {
    Regroup(base, FreqSet(Casting(b, whole), nodes, i), RowSet(Casting(b, whole), nodes, i, |nodes|));
  }

  /** The antinodes of the frequencies in `keys`. */
  function Collect(b: Rect, fm: map<char, seq<Point>>, keys: set<char>, whole: bool): set<Point>
  {
    set f, q | f in keys && f in fm && q in FreqSet(Casting(b, whole), fm[f], |fm[f]|) :: q
  }

  /** The outer loop over `frequencies.values()`, in whatever order the map gives. */
  method Antinodes(b: Rect, fm: map<char, seq<Point>>) returns (part1: set<Point>, part2: set<Point>)
    requires forall f :: f in fm ==> AllInside(b, fm[f])
    ensures part1 == Collect(b, fm, fm.Keys, false)
    ensures part2 == Collect(b, fm, fm.Keys, true)
  {
    part1, part2 := {}, {};
    var todo := fm.Keys;
    while todo != {}
      invariant todo <= fm.Keys
      invariant part1 == Collect(b, fm, fm.Keys - todo, false)
      invariant part2 == Collect(b, fm, fm.Keys - todo, true)
      decreases |todo|
    {
      var f :| f in todo;
      part1, part2 := ScanFrequency(b, fm[f], part1, part2);
      CollectStep(b, fm, fm.Keys - todo, f, false);
      CollectStep(b, fm, fm.Keys - todo, f, true);
      assert fm.Keys - (todo - {f}) == (fm.Keys - todo) + {f};
      todo := todo - {f};
    }
    assert fm.Keys - todo == fm.Keys;
  }

  lemma CollectStep(b: Rect, fm: map<char, seq<Point>>, done: set<char>, f: char, whole: bool)
    requires f in fm
    ensures Collect(b, fm, done + {f}, whole) == Collect(b, fm, done, whole) + FreqSet(Casting(b, whole), fm[f], |fm[f]|)
  {
  }

  // ---------------------------------------------------------------------------------------
  // Properties of the antinode sets

  /** Part 1's cells of a pair are among part 2's, and part 2's cells are inside. */
  lemma PairFacts(b: Rect, a: Point, c: Point)
    requires IsInside(b, a) && IsInside(b, c) && a != c
    ensures PairSet(b, a, c, false) <= PairSet(b, a, c, true)
    ensures forall q :: q in PairSet(b, a, c, true) ==> IsInside(b, q)
  {
    var d := Sub(a, c);
    var back := Point(-d.x, -d.y);
    if IsInside(b, Line(a, d, 1)) {
      InsideBound(b, a, d, 1);
    }
    if IsInside(b, Line(c, back, 1)) {
      InsideBound(b, c, back, 1);
    }
  }

  /** part1 ⊆ part2, and every recorded antinode is inside the map. */
  lemma CollectFacts(b: Rect, fm: map<char, seq<Point>>, keys: set<char>)
    requires forall f :: f in fm ==> AllInside(b, fm[f])
    ensures Collect(b, fm, keys, false) <= Collect(b, fm, keys, true)
    ensures forall q :: q in Collect(b, fm, keys, true) ==> IsInside(b, q)
  {
    forall q | q in Collect(b, fm, keys, false)
      ensures q in Collect(b, fm, keys, true)
    {
      var f :| f in keys && f in fm && q in FreqSet(Casting(b, false), fm[f], |fm[f]|);
      var nodes := fm[f];
      FreqSetMeaning(Casting(b, false), nodes, |nodes|, q);
      var i, j :| 0 <= i < |nodes| && 0 <= j < |nodes| && Casts(Casting(b, false), nodes, i, j, q);
      PairFacts(b, nodes[i], nodes[j]);
      assert Casts(Casting(b, true), nodes, i, j, q);
      FreqSetMeaning(Casting(b, true), nodes, |nodes|, q);
    }
    forall q | q in Collect(b, fm, keys, true)
      ensures IsInside(b, q)
    {
      var f :| f in keys && f in fm && q in FreqSet(Casting(b, true), fm[f], |fm[f]|);
      var nodes := fm[f];
      FreqSetMeaning(Casting(b, true), nodes, |nodes|, q);
      var i, j :| 0 <= i < |nodes| && 0 <= j < |nodes| && Casts(Casting(b, true), nodes, i, j, q);
      PairFacts(b, nodes[i], nodes[j]);
    }
  }

  // ---------------------------------------------------------------------------------------
  // main

  /** Every line has the width of the first. */
  predicate Uniform(lines: seq<string>)
    requires |lines| > 0
  {
    forall k :: 0 <= k < |lines| ==> |lines[k]| == |lines[0]|
  }

  /** The antennas of a uniform map lie inside its bounds. */
  lemma FrequenciesInside(lines: seq<string>)
    requires |lines| > 0 && Uniform(lines)
    ensures var fm := Frequencies(lines, |lines|);
            forall f :: f in fm ==> AllInside(Rect(0, 0, |lines[0]|, |lines|), fm[f])
  {
    var fm := Frequencies(lines, |lines|);
    forall f, i | f in fm && 0 <= i < |fm[f]|
      ensures IsInside(Rect(0, 0, |lines[0]|, |lines|), fm[f][i])
    {
      FrequenciesMeaning(lines, |lines|, f, fm[f][i]);
    }
  }

  /** main without the file and the printing: None where it panics (no line, or lines of
      different widths); otherwise the sizes of the two antinode sets. */
  method Answers(lines: seq<string>) returns (r: Option<(nat, nat)>)
    ensures r.Some? <==> |lines| > 0 && Uniform(lines)
    ensures r.Some? ==> var b := Rect(0, 0, |lines[0]|, |lines|);
                        var fm := Frequencies(lines, |lines|);
                        r.value == (|Collect(b, fm, fm.Keys, false)|, |Collect(b, fm, fm.Keys, true)|)
                        && r.value.0 <= r.value.1
  {
    if |lines| == 0 {
      return None;
    }
    for k := 0 to |lines|
      invariant forall j :: 0 <= j < k ==> |lines[j]| == |lines[0]|
    {
      if |lines[k]| != |lines[0]| {
        return None;
      }
    }
    var b := Rect(0, 0, |lines[0]|, |lines|);
    var fm := ReadFrequencies(lines);
    FrequenciesInside(lines);
    var part1, part2 := Antinodes(b, fm);
    CollectFacts(b, fm, fm.Keys);
    SubsetSize(part1, part2);
    r := Some((|part1|, |part2|));
  }

  lemma SubsetSize(a: set<Point>, b: set<Point>)
    requires a <= b
    ensures |a| <= |b|
  {
    assert b == a + (b - a);
  }
}
