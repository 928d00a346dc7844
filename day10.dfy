/** Day 10: a height map of digits.  A hiking trail climbs from a 0 to a 9 one unit per step,
    moving up, down, left or right.  Part 1 counts the distinct 9s reachable from each trailhead,
    part 2 the distinct trails. */
module Day10 {
  import opened Common
  import opened Geometry

  const TrailHead := 0
  const TrailEnd := 9
  /** u8::MAX: the height of a cell that is not a digit. */
  const NoHeight := 255

  /** DIRECTIONS, in the source's order. */
  const Directions: seq<Point> := [Point(0, 1), Point(1, 0), Point(0, -1), Point(-1, 0)]

  /** The map: one row of heights per line. */
  type Grid = seq<seq<int>>

  // ---------------------------------------------------------------------------------------
  // Reading the map

  /** `c.to_digit(10)`, or u8::MAX for any other character. */
  function HeightOf(c: char): (h: int)
    ensures 0 <= h <= 9 || h == NoHeight
  {
    if IsDigit(c) then DigitValue(c) else NoHeight
  }

  /** One row of the map. */
  function Row(line: string): (r: seq<int>)
    ensures |r| == |line|
    ensures forall i :: 0 <= i < |line| ==> r[i] == HeightOf(line[i])
  {
    seq(|line|, i requires 0 <= i < |line| => HeightOf(line[i]))
  }

  /** Every cell is a digit's height or u8::MAX. */
  predicate ValidHeights(m: Grid)
  {
    forall y, x :: 0 <= y < |m| && 0 <= x < |m[y]| ==> 0 <= m[y][x] <= 9 || m[y][x] == NoHeight
  }

  /** A non-empty map whose rows all have the width of the first. */
  predicate Uniform(m: Grid)
  {
    |m| > 0 && forall y :: 0 <= y < |m| ==> |m[y]| == |m[0]|
  }

  /** The map read from the lines. */
  function MapOf(lines: seq<string>): (m: Grid)
    ensures |m| == |lines| && forall y :: 0 <= y < |lines| ==> |m[y]| == |lines[y]|
  {
    seq(|lines|, y requires 0 <= y < |lines| => Row(lines[y]))
  }

  /** Whatever the characters, every cell of the map is a digit's height or u8::MAX. */
  lemma MapOfValid(lines: seq<string>)
    ensures ValidHeights(MapOf(lines))
  {
  }

  /** The reading loop of main. */
  method ReadMap(lines: seq<string>) returns (m: Grid)
    ensures m == MapOf(lines)
  {
    m := [];
    for y := 0 to |lines|
      invariant |m| == y && forall k :: 0 <= k < y ==> m[k] == Row(lines[k])
    {
      var tmp := [];
      for x := 0 to |lines[y]|
        invariant tmp == Row(lines[y][..x])
      {
        assert lines[y][..x + 1] == lines[y][..x] + [lines[y][x]];
        tmp := tmp + [HeightOf(lines[y][x])];
      }
      assert lines[y][..|lines[y]|] == lines[y];
      m := m + [tmp];
    }
  }

  // ---------------------------------------------------------------------------------------
  // walk

  /** The bounds main builds: the width of the first row and the number of rows. */
  function Bounds(m: Grid): Rect
    requires |m| > 0
  {
    Rect(0, 0, |m[0]|, |m|)
  }

  /** A point of the map. */
  predicate InMap(m: Grid, p: Point)
  {
    0 <= p.y < |m| && 0 <= p.x < |m[p.y]|
  }

  function Height(m: Grid, p: Point): int
    requires InMap(m, p)
  {
    m[p.y][p.x]
  }

  /** The neighbour in direction `d` is inside and exactly one higher. */
  predicate Uphill(m: Grid, p: Point, d: nat)
    requires Uniform(m) && InMap(m, p) && d < 4
  {
    var t := Add(p, Directions[d]);
    IsInside(Bounds(m), t) && Height(m, t) == Height(m, p) + 1
  }

  lemma InsideInMap(m: Grid, t: Point)
    requires Uniform(m) && IsInside(Bounds(m), t)
    ensures InMap(m, t)
  {
  }

  /** walk: the trail ends reachable from `p`, once per trail.  The source only ever calls it on
      heights 0 to 9 (a trailhead, then one higher each call), so `height + 1` never overflows. */
  function Walk(m: Grid, p: Point): (ends: seq<Point>)
    requires Uniform(m) && InMap(m, p) && 0 <= Height(m, p) <= 9
    ensures forall k :: 0 <= k < |ends| ==> InMap(m, ends[k]) && Height(m, ends[k]) == TrailEnd
    ensures Height(m, p) == TrailEnd ==> ends == [p]
    decreases 9 - Height(m, p), 5
  {
    if Height(m, p) == TrailEnd then [p] else WalkDirs(m, p, 4)
  }

  /** The loop of walk over the first `n` directions. */
  function WalkDirs(m: Grid, p: Point, n: nat): (ends: seq<Point>)
    requires Uniform(m) && InMap(m, p) && 0 <= Height(m, p) < 9 && n <= 4
    ensures forall k :: 0 <= k < |ends| ==> InMap(m, ends[k]) && Height(m, ends[k]) == TrailEnd
    decreases 9 - Height(m, p), n
  {
    if n == 0 then []
    else
      var t := Add(p, Directions[n - 1]);
      WalkDirs(m, p, n - 1) + (if Uphill(m, p, n - 1) then InsideInMap(m, t); Walk(m, t) else [])
  }

  // ---------------------------------------------------------------------------------------
  // What walk counts

  /** A hiking trail: neighbouring steps, one higher each, ending at a 9. */
  predicate IsTrail(m: Grid, path: seq<Point>)
  {
    && |path| >= 1
    && (forall i :: 0 <= i < |path| ==> InMap(m, path[i]))
    && (forall i :: 0 <= i < |path| - 1 ==> Step(m, path[i], path[i + 1]))
    && Height(m, path[|path| - 1]) == TrailEnd
  }

  /** `q` is a neighbour of `p` one higher. */
  predicate Step(m: Grid, p: Point, q: Point)
    requires InMap(m, p) && InMap(m, q)
  {
    (exists d :: 0 <= d < 4 && q == Add(p, Directions[d])) && Height(m, q) == Height(m, p) + 1
  }

  /** The trails from `p`, in the order walk finds their ends. */
  function Trails(m: Grid, p: Point): seq<seq<Point>>
    requires Uniform(m) && InMap(m, p) && 0 <= Height(m, p) <= 9
    decreases 9 - Height(m, p), 5
  {
    if Height(m, p) == TrailEnd then [[p]] else TrailsDirs(m, p, 4)
  }

  function TrailsDirs(m: Grid, p: Point, n: nat): seq<seq<Point>>
    requires Uniform(m) && InMap(m, p) && 0 <= Height(m, p) < 9 && n <= 4
    decreases 9 - Height(m, p), n
  {
    if n == 0 then []
    else
      var t := Add(p, Directions[n - 1]);
      TrailsDirs(m, p, n - 1) + (if Uphill(m, p, n - 1) then InsideInMap(m, t); Prefixed(p, Trails(m, t)) else [])
  }

  /** Every trail with `p` put in front. */
  function Prefixed(p: Point, ts: seq<seq<Point>>): (r: seq<seq<Point>>)
    ensures |r| == |ts| && forall k :: 0 <= k < |ts| ==> r[k] == [p] + ts[k]
  {
    seq(|ts|, k requires 0 <= k < |ts| => [p] + ts[k])
  }

  /** The last point of every trail. */
  function Ends(ts: seq<seq<Point>>): (r: seq<Point>)
    requires forall k :: 0 <= k < |ts| ==> |ts[k]| >= 1
    ensures |r| == |ts| && forall k :: 0 <= k < |ts| ==> r[k] == ts[k][|ts[k]| - 1]
  {
    seq(|ts|, k requires 0 <= k < |ts| => ts[k][|ts[k]| - 1])
  }

  /** walk returns the ends of the trails from `p`, one per trail and in the same order. */
  lemma {:induction false} WalkIsEnds(m: Grid, p: Point)
    requires Uniform(m) && InMap(m, p) && 0 <= Height(m, p) <= 9
    ensures forall k :: 0 <= k < |Trails(m, p)| ==> |Trails(m, p)[k]| >= 1
    ensures Walk(m, p) == Ends(Trails(m, p))
    decreases 9 - Height(m, p), 5
  {
    if Height(m, p) != TrailEnd {
      WalkDirsIsEnds(m, p, 4);
    }
  }

  lemma {:induction false} WalkDirsIsEnds(m: Grid, p: Point, n: nat)
    requires Uniform(m) && InMap(m, p) && 0 <= Height(m, p) < 9 && n <= 4
    ensures forall k :: 0 <= k < |TrailsDirs(m, p, n)| ==> |TrailsDirs(m, p, n)[k]| >= 1
    ensures WalkDirs(m, p, n) == Ends(TrailsDirs(m, p, n))
    decreases 9 - Height(m, p), n
  {
    if n > 0 {
      WalkDirsIsEnds(m, p, n - 1);
      var before := TrailsDirs(m, p, n - 1);
      if Uphill(m, p, n - 1) {
        var t := Add(p, Directions[n - 1]);
        InsideInMap(m, t);
        WalkIsEnds(m, t);
        var group := Prefixed(p, Trails(m, t));
        assert Ends(group) == Ends(Trails(m, t));
        EndsAppend(before, group);
      } else {
        assert TrailsDirs(m, p, n) == before;
      }
    }
  }

  lemma EndsAppend(a: seq<seq<Point>>, b: seq<seq<Point>>)
    requires forall k :: 0 <= k < |a| ==> |a[k]| >= 1
    requires forall k :: 0 <= k < |b| ==> |b[k]| >= 1
    ensures forall k :: 0 <= k < |a + b| ==> |(a + b)[k]| >= 1
    ensures Ends(a + b) == Ends(a) + Ends(b)
  {
  }

  /** Every listed path is a trail from `p`. */
  lemma {:induction false} TrailsSound(m: Grid, p: Point, k: nat)
    requires Uniform(m) && InMap(m, p) && 0 <= Height(m, p) <= 9 && k < |Trails(m, p)|
    ensures IsTrail(m, Trails(m, p)[k]) && Trails(m, p)[k][0] == p
    decreases 9 - Height(m, p), 5
  {
    if Height(m, p) != TrailEnd {
      TrailsDirsSound(m, p, 4, k);
    }
  }

  lemma {:induction false} TrailsDirsSound(m: Grid, p: Point, n: nat, k: nat)
    requires Uniform(m) && InMap(m, p) && 0 <= Height(m, p) < 9 && n <= 4 && k < |TrailsDirs(m, p, n)|
    ensures IsTrail(m, TrailsDirs(m, p, n)[k]) && TrailsDirs(m, p, n)[k][0] == p
    decreases 9 - Height(m, p), n
  {
    var before := TrailsDirs(m, p, n - 1);
    if k < |before| {
      TrailsDirsSound(m, p, n - 1, k);
    } else {
      var t := Add(p, Directions[n - 1]);
      InsideInMap(m, t);
      var inner := Trails(m, t);
      TrailsSound(m, t, k - |before|);
      var tail := inner[k - |before|];
      var path := [p] + tail;
      assert TrailsDirs(m, p, n)[k] == path;
      assert Step(m, p, t);
      assert forall i :: 0 < i < |path| - 1 ==> path[i] == tail[i - 1] && path[i + 1] == tail[i];
    }
  }

  /** A trail from `p` is one step to a higher neighbour followed by a trail from there. */
  lemma TrailTail(m: Grid, path: seq<Point>)
    requires IsTrail(m, path) && |path| >= 2
    ensures IsTrail(m, path[1..])
  {
    var tail := path[1..];
    assert forall i :: 0 <= i < |tail| ==> tail[i] == path[i + 1];
  }

  /** The i-th point of a trail is i higher than its start. */
  lemma {:induction false} TrailHeight(m: Grid, path: seq<Point>, i: nat)
    requires IsTrail(m, path) && i < |path|
    ensures Height(m, path[i]) == Height(m, path[0]) + i
  {
    if i > 0 {
      TrailHeight(m, path, i - 1);
    }
  }

  /** A trail from a 9 is that cell alone. */
  lemma TrailFromEnd(m: Grid, path: seq<Point>)
    requires IsTrail(m, path) && Height(m, path[0]) == TrailEnd
    ensures path == [path[0]]
  {
    TrailHeight(m, path, |path| - 1);
  }

  /** Every trail from `p` is listed. */
  lemma {:induction false} TrailsComplete(m: Grid, p: Point, path: seq<Point>)
    requires Uniform(m) && InMap(m, p) && 0 <= Height(m, p) <= 9
    requires IsTrail(m, path) && path[0] == p
    ensures path in Trails(m, p)
    decreases 9 - Height(m, p), 5
  {
    if Height(m, p) == TrailEnd {
      TrailFromEnd(m, path);
    } else {
      assert |path| >= 2;
      var d :| 0 <= d < 4 && path[1] == Add(p, Directions[d]);
      TrailsDirsComplete(m, p, 4, path, d);
    }
  }

  lemma {:induction false} TrailsDirsComplete(m: Grid, p: Point, n: nat, path: seq<Point>, d: nat)
    requires Uniform(m) && InMap(m, p) && 0 <= Height(m, p) < 9 && d < n <= 4
    requires IsTrail(m, path) && path[0] == p && |path| >= 2 && path[1] == Add(p, Directions[d])
    ensures path in TrailsDirs(m, p, n)
    decreases 9 - Height(m, p), n
  {
    if d < n - 1 {
      TrailsDirsComplete(m, p, n - 1, path, d);
    } else {
      var t := path[1];
      assert Step(m, path[0], path[1]);
      assert IsInside(Bounds(m), t);
      TrailTail(m, path);
      TrailsComplete(m, t, path[1..]);
      var inner := Trails(m, t);
      var k :| 0 <= k < |inner| && inner[k] == path[1..];
      assert Prefixed(p, inner)[k] == path;
    }
  }

  /** No list entry is repeated. */
  predicate Distinct<T(==)>(xs: seq<T>)
  {
    forall a, b :: 0 <= a < b < |xs| ==> xs[a] != xs[b]
  }

  /** No trail is listed twice. */
  lemma {:induction false} TrailsDistinct(m: Grid, p: Point)
    requires Uniform(m) && InMap(m, p) && 0 <= Height(m, p) <= 9
    ensures Distinct(Trails(m, p))
    decreases 9 - Height(m, p), 5
  {
    if Height(m, p) != TrailEnd {
      TrailsDirsDistinct(m, p, 4);
    }
  }

  lemma {:induction false} TrailsDirsDistinct(m: Grid, p: Point, n: nat)
    requires Uniform(m) && InMap(m, p) && 0 <= Height(m, p) < 9 && n <= 4
    ensures Distinct(TrailsDirs(m, p, n))
    ensures forall k :: 0 <= k < |TrailsDirs(m, p, n)| ==>
              |TrailsDirs(m, p, n)[k]| >= 2 && exists d :: 0 <= d < n && TrailsDirs(m, p, n)[k][1] == Add(p, Directions[d])
    decreases 9 - Height(m, p), n
  {
    if n > 0 {
      TrailsDirsDistinct(m, p, n - 1);
      var before := TrailsDirs(m, p, n - 1);
      if Uphill(m, p, n - 1) {
        var t := Add(p, Directions[n - 1]);
        InsideInMap(m, t);
        TrailsDistinct(m, t);
        var inner := Trails(m, t);
        var group := Prefixed(p, inner);
        forall k | 0 <= k < |inner|
          ensures |inner[k]| >= 1 && inner[k][0] == t
        {
          TrailsSound(m, t, k);
        }
        assert forall a, b :: 0 <= a < b < |group| ==> group[a][1..] == inner[a] && group[b][1..] == inner[b];
        forall a, b | 0 <= a < |before| && 0 <= b < |group|
          ensures before[a] != group[b]
        {
          var d :| 0 <= d < n - 1 && before[a][1] == Add(p, Directions[d]);
          assert group[b][1] == t;
        }
        assert TrailsDirs(m, p, n) == before + group;
        forall k | 0 <= k < |group|
          ensures |group[k]| >= 2 && group[k][1] == Add(p, Directions[n - 1])
        {
        }
      }
    }
  }

  /** What walk returns from a point of height 0 to 9: exactly the ends of the trails from it,
      each trail once, so its length is the number of trails; every end is a 9. */
  lemma WalkMeaning(m: Grid, p: Point)
    requires Uniform(m) && InMap(m, p) && 0 <= Height(m, p) <= 9
    ensures |Walk(m, p)| == |Trails(m, p)| && Distinct(Trails(m, p))
    ensures forall k :: 0 <= k < |Trails(m, p)| ==> IsTrail(m, Trails(m, p)[k]) && Trails(m, p)[k][0] == p
    ensures forall path :: IsTrail(m, path) && path[0] == p ==> path in Trails(m, p)
    ensures forall k :: 0 <= k < |Walk(m, p)| ==> InMap(m, Walk(m, p)[k]) && Height(m, Walk(m, p)[k]) == TrailEnd
    ensures Height(m, p) == TrailEnd ==> Walk(m, p) == [p]
  {
    WalkIsEnds(m, p);
    TrailsDistinct(m, p);
    forall k | 0 <= k < |Trails(m, p)|
      ensures IsTrail(m, Trails(m, p)[k]) && Trails(m, p)[k][0] == p
    {
      TrailsSound(m, p, k);
    }
    forall path | IsTrail(m, path) && path[0] == p
      ensures path in Trails(m, p)
    {
      TrailsComplete(m, p, path);
    }
  }

  // ---------------------------------------------------------------------------------------
  // main

  /** The distinct points of a list. */
  function Distinctly(s: seq<Point>): set<Point>
  {
    set i | 0 <= i < |s| :: s[i]
  }

  /** A list has at least as many entries as distinct points. */
  lemma {:induction false} DistinctlyBound(s: seq<Point>)
    ensures |Distinctly(s)| <= |s|
  {
    if s != [] {
      var front := s[..|s| - 1];
      DistinctlyBound(front);
      assert Distinctly(s) == Distinctly(front) + {s[|s| - 1]};
    }
  }

  /** Part 1's and part 2's additions for one cell: a trailhead adds its distinct ends and its
      trails, any other cell nothing. */
  function CellScore(m: Grid, x: int, y: int): (nat, nat)
    requires Uniform(m) && 0 <= y < |m| && 0 <= x < |m[0]|
  {
    if m[y][x] == TrailHead then
      var found := Walk(m, Point(x, y));
      (|Distinctly(found)|, |found|)
    else (0, 0)
  }

  /** The sums over the first `n` cells of column `x` (main loops x outside, y inside). */
  function ColumnSum(m: Grid, x: int, n: nat): (nat, nat)
    requires Uniform(m) && 0 <= x < |m[0]| && n <= |m|
  {
    if n == 0 then (0, 0)
    else
      var (a, b) := ColumnSum(m, x, n - 1);
      var (c, d) := CellScore(m, x, n - 1);
      (a + c, b + d)
  }

  /** The sums over the first `n` columns. */
  function GridSum(m: Grid, n: nat): (nat, nat)
    requires Uniform(m) && n <= |m[0]|
  {
    if n == 0 then (0, 0)
    else
      var (a, b) := GridSum(m, n - 1);
      var (c, d) := ColumnSum(m, n - 1, |m|);
      (a + c, b + d)
  }

  /** Distinct ends never exceed trails, so part 1 is at most part 2. */
  lemma {:induction false} ColumnSumOrdered(m: Grid, x: int, n: nat)
    requires Uniform(m) && 0 <= x < |m[0]| && n <= |m|
    ensures ColumnSum(m, x, n).0 <= ColumnSum(m, x, n).1
  {
    if n > 0 {
      ColumnSumOrdered(m, x, n - 1);
      if m[n - 1][x] == TrailHead {
        DistinctlyBound(Walk(m, Point(x, n - 1)));
      }
    }
  }

  lemma {:induction false} GridSumOrdered(m: Grid, n: nat)
    requires Uniform(m) && n <= |m[0]|
    ensures GridSum(m, n).0 <= GridSum(m, n).1
  {
    if n > 0 {
      GridSumOrdered(m, n - 1);
      ColumnSumOrdered(m, n - 1, |m|);
    }
  }

  /** The scoring loops of main. */
  method Score(m: Grid) returns (part1: nat, part2: nat)
    requires Uniform(m)
    ensures (part1, part2) == GridSum(m, |m[0]|) && part1 <= part2
  {
    part1, part2 := 0, 0;
    for x := 0 to |m[0]|
      invariant (part1, part2) == GridSum(m, x)
    {
      ghost var start := (part1, part2);
      for y := 0 to |m|
        invariant (part1 - start.0, part2 - start.1) == ColumnSum(m, x, y)
      {
        if m[y][x] == TrailHead {
          var p := Point(x, y);
          var found := Walk(m, p);
          var ends := |Distinctly(found)|;
          var paths := |found|;
          part1 := part1 + ends;
          part2 := part2 + paths;
        }
      }
    }
    GridSumOrdered(m, |m[0]|);
  }

  /** main without the file and the printing: None where it panics (no line, or rows of
      different widths). */
  method Answers(lines: seq<string>) returns (r: Option<(nat, nat)>)
    ensures r.Some? <==> Uniform(MapOf(lines))
    ensures r.Some? ==> var m := MapOf(lines); r.value == GridSum(m, |m[0]|) && r.value.0 <= r.value.1
  {
    var m := ReadMap(lines);
    if |m| == 0 {
      return None;
    }
    for y := 0 to |m|
      invariant forall k :: 0 <= k < y ==> |m[k]| == |m[0]|
    {
      if |m[y]| != |m[0]| {
        return None;
      }
    }
    var part1, part2 := Score(m);
    r := Some((part1, part2));
  }
}
