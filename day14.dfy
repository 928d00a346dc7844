/** Day 14: robots moving with constant velocity on a wrapping grid.  Part 1 multiplies the
    numbers of robots in the four quadrants after 100 seconds; part 2 looks for the first second
    at which most occupied cells have at least two occupied neighbours. */
module Day14 {
  import opened Common
  import opened Geometry

  /** A robot: where it starts and how far it moves each second.  The bounds it wraps in are
      passed alongside (the source keeps a reference to them in every robot). */
  datatype Robot = Robot(position: Point, velocity: Point)

  // ---------------------------------------------------------------------------------------
  // Robot::parse

  /** The characters parse_point keeps at the end of a piece: digits and '-'. */
  predicate NumChar(c: char)
  {
    IsDigit(c) || c == '-'
  }

  /** How many characters at the end of s[..n] are digits or '-'. */
  function TailLength(s: string, n: nat): (k: nat)
    requires n <= |s|
    ensures k <= n
  {
    if n == 0 || !NumChar(s[n - 1]) then 0 else TailLength(s, n - 1) + 1
  }

  /** The longest suffix made of digits and '-' (the slice after the last other character). */
  function NumberTail(s: string): (t: string)
  {
    s[|s| - TailLength(s, |s|)..]
  }

  /** What the suffix is: it holds only digits and '-', and the character before it is not one. */
  lemma NumberTailMeaning(s: string)
    ensures var t := NumberTail(s); |t| <= |s| && t == s[|s| - |t|..]
    ensures forall i :: 0 <= i < |NumberTail(s)| ==> NumChar(NumberTail(s)[i])
    ensures |NumberTail(s)| < |s| ==> !NumChar(s[|s| - |NumberTail(s)| - 1])
  {
    TailRun(s, |s|);
  }

  /** The counted characters are digits or '-' and the one before them is not. */
  lemma {:induction false} TailRun(s: string, n: nat)
    requires n <= |s|
    ensures forall i :: n - TailLength(s, n) <= i < n ==> NumChar(s[i])
    ensures TailLength(s, n) < n ==> !NumChar(s[n - TailLength(s, n) - 1])
  {
    if n > 0 && NumChar(s[n - 1]) {
      TailRun(s, n - 1);
    }
  }

  /** A number written after a character that is not a digit or '-' is the whole tail. */
  lemma {:induction false} TailAfter(prefix: string, t: string, k: nat)
    requires prefix == [] || !NumChar(prefix[|prefix| - 1])
    requires forall i :: 0 <= i < |t| ==> NumChar(t[i])
    requires k <= |t|
    ensures TailLength(prefix + t, |prefix| + k) == k
  {
    if k > 0 {
      TailAfter(prefix, t, k - 1);
      assert (prefix + t)[|prefix| + k - 1] == t[k - 1];
    } else if prefix != [] {
      assert (prefix + t)[|prefix| - 1] == prefix[|prefix| - 1];
    }
  }

  /** The `filter_map` of parse_point over the first `n` pieces: the tails that parse as i64. */
  function Values(pieces: seq<string>, n: nat): seq<int>
    requires n <= |pieces|
  {
    if n == 0 then []
    else match ParseIn(NumberTail(pieces[n - 1]), I64Min, I64Max)
      case Some(v) => Values(pieces, n - 1) + [v]
      case None => Values(pieces, n - 1)
  }

  /** Every value comes from a piece whose tail parses to it. */
  lemma {:induction false} ValuesFrom(pieces: seq<string>, n: nat)
    requires n <= |pieces|
    ensures |Values(pieces, n)| <= n
    ensures forall v :: v in Values(pieces, n) ==>
              exists k :: 0 <= k < n && ParseIn(NumberTail(pieces[k]), I64Min, I64Max) == Some(v)
  {
    if n > 0 {
      ValuesFrom(pieces, n - 1);
    }
  }

  /** parse_point: split on ',' and keep exactly two numbers. */
  function PointOf(part: string): (r: Option<Point>)
  {
    var pieces := Split(part, ',');
    var vs := Values(pieces, |pieces|);
    if |vs| == 2 then Some(Point(vs[0], vs[1])) else None
  }

  /** Robot::parse: two space-separated points, position then velocity. */
  function RobotOf(line: string): (r: Option<Robot>)
    ensures r.Some? ==> |Split(line, ' ')| == 2
    ensures r.Some? ==> PointOf(Split(line, ' ')[0]) == Some(r.value.position)
    ensures r.Some? ==> PointOf(Split(line, ' ')[1]) == Some(r.value.velocity)
  {
    var parts := Split(line, ' ');
    if |parts| != 2 then None
    else match (PointOf(parts[0]), PointOf(parts[1]))
      case (Some(p), Some(v)) => Some(Robot(p, v))
      case _ => None
  }

  /** A 64-bit coordinate. */
  predicate InI64(p: Point)
  {
    I64Min <= p.x <= I64Max && I64Min <= p.y <= I64Max
  }

  /** A point as the input writes it: "p=3,-4". */
  function PointText(tag: string, p: Point): string
  {
    tag + IntToString(p.x) + "," + IntToString(p.y)
  }

  /** A robot as the input writes it: "p=56,68 v=1,-12". */
  function RobotText(r: Robot): string
  {
    PointText("p=", r.position) + " " + PointText("v=", r.velocity)
  }

  /** The tag and the digits hold no separator. */
  lemma NoSeparator(tag: string, n: int, sep: char)
    requires sep == ',' || sep == ' '
    requires tag == "p=" || tag == "v=" || tag == ""
    ensures sep !in tag + IntToString(n)
  {
    var s := tag + IntToString(n);
    assert forall i :: |tag| <= i < |s| ==> s[i] == IntToString(n)[i - |tag|];
  }

  /** A run of digits and '-' after any other character is the whole tail. */
  lemma TailSuffix(prefix: string, t: string)
    requires prefix == [] || !NumChar(prefix[|prefix| - 1])
    requires forall i :: 0 <= i < |t| ==> NumChar(t[i])
    ensures NumberTail(prefix + t) == t
  {
    TailAfter(prefix, t, |t|);
    assert (prefix + t)[|prefix|..] == t;
  }

  /** The number of a written coordinate is the whole tail of its piece. */
  lemma TailOfText(tag: string, n: int)
    requires tag == "p=" || tag == "v=" || tag == ""
    ensures NumberTail(tag + IntToString(n)) == IntToString(n)
  {
    var t := IntToString(n);
    assert forall i :: 0 <= i < |t| ==> NumChar(t[i]);
    TailSuffix(tag, t);
  }

  /** A written point splits at its comma into the two coordinates. */
  lemma SplitPoint(tag: string, p: Point)
    requires tag == "p=" || tag == "v="
    ensures Split(PointText(tag, p), ',') == [tag + IntToString(p.x), "" + IntToString(p.y)]
  {
    var first, second := tag + IntToString(p.x), IntToString(p.y);
    NoSeparator(tag, p.x, ',');
    NoSeparator("", p.y, ',');
    assert "" + second == second;
    assert PointText(tag, p) == first + [','] + second;
    SplitPrefix(first, second, ',');
  }

  /** Two pieces whose tails parse give the two values. */
  lemma TwoValues(a: string, b: string, x: int, y: int)
    requires ParseIn(NumberTail(a), I64Min, I64Max) == Some(x)
    requires ParseIn(NumberTail(b), I64Min, I64Max) == Some(y)
    ensures Values([a, b], 2) == [x, y]
  {
    assert Values([a, b], 1) == [x];
  }

  /** A written coordinate parses back, from its piece's tail. */
  lemma CoordinateFormat(tag: string, n: int)
    requires tag == "p=" || tag == "v=" || tag == ""
    requires I64Min <= n <= I64Max
    ensures ParseIn(NumberTail(tag + IntToString(n)), I64Min, I64Max) == Some(n)
  {
    TailOfText(tag, n);
    ParseIntToString(n);
  }

  /** A written point has no space. */
  lemma PointNoSpace(tag: string, p: Point)
    requires tag == "p=" || tag == "v="
    ensures ' ' !in PointText(tag, p)
  {
    NoSeparator(tag, p.x, ' ');
    NoSeparator("", p.y, ' ');
    assert PointText(tag, p) == (tag + IntToString(p.x)) + [','] + ("" + IntToString(p.y));
  }

  /** A written point reads back as itself. */
  lemma PointFormat(tag: string, p: Point)
    requires tag == "p=" || tag == "v="
    requires InI64(p)
    ensures PointOf(PointText(tag, p)) == Some(p)
    ensures ' ' !in PointText(tag, p)
  {
    SplitPoint(tag, p);
    CoordinateFormat(tag, p.x);
    CoordinateFormat("", p.y);
    TwoValues(tag + IntToString(p.x), "" + IntToString(p.y), p.x, p.y);
    PointNoSpace(tag, p);
  }

  /** A written robot reads back as itself, negative velocities included. */
  lemma RobotFormat(r: Robot)
    requires InI64(r.position) && InI64(r.velocity)
    ensures RobotOf(RobotText(r)) == Some(r)
  {
    var first, second := PointText("p=", r.position), PointText("v=", r.velocity);
    PointFormat("p=", r.position);
    PointFormat("v=", r.velocity);
    SplitPrefix(first, second, ' ');
    assert Split(second, ' ') == [second];
    assert RobotText(r) == first + [' '] + second;
  }

  /** The line of the source's parse test, as RobotText writes it. */
  lemma ExampleText()
    ensures RobotText(Robot(Point(56, 68), Point(1, -12))) == "p=56,68 v=1,-12"
  {
    assert IntToString(56) == "56" && IntToString(68) == "68";
    assert IntToString(1) == "1" && IntToString(-12) == "-12";
  }

  /** The source's parse test: "p=56,68 v=1,-12". */
  lemma ExampleParse()
    ensures RobotOf("p=56,68 v=1,-12") == Some(Robot(Point(56, 68), Point(1, -12)))
  {
    ExampleText();
    RobotFormat(Robot(Point(56, 68), Point(1, -12)));
  }

  /** Day::parse: every line that parses gives a robot; the others are skipped. */
  function RobotsOf(lines: seq<string>, n: nat): (r: seq<Robot>)
    requires n <= |lines|
    ensures |r| <= n
  {
    if n == 0 then []
    else match RobotOf(lines[n - 1])
      case Some(robot) => RobotsOf(lines, n - 1) + [robot]
      case None => RobotsOf(lines, n - 1)
  }

  /** The robots of an input. */
  function Robots(input: string): seq<Robot>
  {
    RobotsOf(Lines(input), |Lines(input)|)
  }

  // ---------------------------------------------------------------------------------------
  // Robot::get_position

  /** The grid main uses. */
  const MainBounds := Rect(0, 0, 101, 103)

  /** The grid: Rust's rem_euclid panics on a zero width or height. */
  predicate Wraps(b: Rect)
  {
    b.width != 0 && b.height != 0
  }

  /** Robot::get_position: start plus velocity times seconds, wrapped with rem_euclid (which,
      like Dafny's %, is never negative). */
  function Position(r: Robot, b: Rect, t: int): (p: Point)
    requires Wraps(b)
    ensures 0 <= p.x < Abs(b.width) && 0 <= p.y < Abs(b.height)
  {
    Point((r.position.x + r.velocity.x * t) % b.width, (r.position.y + r.velocity.y * t) % b.height)
  }

  /** A positive grid anchored at the origin holds every position. */
  lemma PositionInside(r: Robot, b: Rect, t: int)
    requires b.x == 0 && b.y == 0 && b.width > 0 && b.height > 0
    ensures IsInside(b, Position(r, b, t))
  {
  }

  /** rem_euclid by a negative divisor is rem_euclid by its absolute value. */
  lemma ModAbs(x: int, w: int)
    requires w != 0
    ensures x % w == x % Abs(w)
  {
    if w < 0 {
      assert x == (-(x / w)) * Abs(w) + x % w;
      DivMulAdd(-(x / w), Abs(w), x % w);
    }
  }

  /** Adding a multiple of the divisor does not change the remainder. */
  lemma ModShift(a: int, k: int, w: int)
    requires w != 0
    ensures (a + k * w) % w == a % w
  {
    ModAbs(a, w);
    ModAbs(a + k * w, w);
    var d := Abs(w);
    var q := a / d;
    assert a == q * d + a % d;
    var k' := if w > 0 then k else -k;
    assert k * w == k' * d;
    assert a + k * w == (q + k') * d + a % d;
    DivMulAdd(q + k', d, a % d);
  }

  /** One coordinate returns after `period` seconds when `period` is a multiple of the width. */
  lemma WrapPeriodic(a: int, v: int, t: int, w: int, m: int)
    requires w != 0
    ensures (a + v * (t + w * m)) % w == (a + v * t) % w
  {
    assert a + v * (t + w * m) == (a + v * t) + (v * m) * w;
    ModShift(a + v * t, v * m, w);
  }

  /** Motion is periodic: after width * height seconds every robot is back where it was. */
  lemma PositionPeriodic(r: Robot, b: Rect, t: int)
    requires Wraps(b)
    ensures Position(r, b, t + b.width * b.height) == Position(r, b, t)
  {
    WrapPeriodic(r.position.x, r.velocity.x, t, b.width, b.height);
    WrapPeriodic(r.position.y, r.velocity.y, t, b.height, b.width);
    assert b.height * b.width == b.width * b.height;
  }

  /** One coordinate: wrapping after s seconds and moving t more is moving s + t. */
  lemma WrapCompose(a: int, v: int, s: int, t: int, w: int)
    requires w != 0
    ensures ((a + v * s) % w + v * t) % w == (a + v * (s + t)) % w
  {
    var x := a + v * s;
    assert x == (x / w) * w + x % w;
    assert x % w + v * t == (x + v * t) + (-(x / w)) * w;
    ModShift(x + v * t, -(x / w), w);
    assert x + v * t == a + v * (s + t);
  }

  /** Motion composes: s seconds and then t more from the wrapped position is s + t seconds. */
  lemma PositionCompose(r: Robot, b: Rect, s: int, t: int)
    requires Wraps(b)
    ensures Position(Robot(Position(r, b, s), r.velocity), b, t) == Position(r, b, s + t)
  {
    WrapCompose(r.position.x, r.velocity.x, s, t, b.width);
    WrapCompose(r.position.y, r.velocity.y, s, t, b.height);
  }

  // ---------------------------------------------------------------------------------------
  // Part 1: the quadrants

  /** Where every robot is after `t` seconds. */
  function Positions(robots: seq<Robot>, b: Rect, t: int): (ps: seq<Point>)
    requires Wraps(b)
    ensures |ps| == |robots| && forall k :: 0 <= k < |robots| ==> ps[k] == Position(robots[k], b, t)
  {
    seq(|robots|, k requires 0 <= k < |robots| => Position(robots[k], b, t))
  }

  /** One half of [lo, lo + size): the lower or the upper, leaving out the middle line when
      the size is odd. */
  predicate InHalf(lo: int, size: int, upper: bool, v: int)
  {
    var mid := size / 2;
    if upper then lo + size - mid <= v < lo + size else lo <= v < lo + mid
  }

  /** Quadrant k of the bounds (0: top left, 1: top right, 2: bottom left, 3: bottom right). */
  predicate InQuadrant(b: Rect, k: nat, p: Point)
  {
    InHalf(b.x, b.width, k % 2 == 1, p.x) && InHalf(b.y, b.height, k >= 2, p.y)
  }

  /** A point lies in at most one quadrant. */
  lemma QuadrantsDisjoint(b: Rect, p: Point, k: nat, j: nat)
    requires k < 4 && j < 4 && k != j
    ensures !(InQuadrant(b, k, p) && InQuadrant(b, j, p))
  {
  }

  /** How many of the first `n` points lie in quadrant k. */
  function Count(ps: seq<Point>, b: Rect, k: nat, n: nat): (c: nat)
    requires n <= |ps|
    ensures c <= n
  {
    if n == 0 then 0 else Count(ps, b, k, n - 1) + (if InQuadrant(b, k, ps[n - 1]) then 1 else 0)
  }

  /** The points in all four quadrants together. */
  function Occupied(ps: seq<Point>, b: Rect, n: nat): nat
    requires n <= |ps|
  {
    Count(ps, b, 0, n) + Count(ps, b, 1, n) + Count(ps, b, 2, n) + Count(ps, b, 3, n)
  }

  /** No point is counted twice: the quadrants together hold at most all the points. */
  lemma {:induction false} OccupiedBound(ps: seq<Point>, b: Rect, n: nat)
    requires n <= |ps|
    ensures Occupied(ps, b, n) <= n
  {
    if n > 0 {
      OccupiedBound(ps, b, n - 1);
      var p := ps[n - 1];
      forall k: nat, j: nat | k < 4 && j < 4 && k != j
        ensures !(InQuadrant(b, k, p) && InQuadrant(b, j, p))
      {
        QuadrantsDisjoint(b, p, k, j);
      }
    }
  }

  /** part1: the product of the four quadrant counts after 100 seconds. */
  function Part1(robots: seq<Robot>, b: Rect): (r: int)
    requires Wraps(b)
    ensures 0 <= r <= |robots| * |robots| * |robots| * |robots|
  {
    var ps := Positions(robots, b, 100);
    ProductAtMost(Count(ps, b, 0, |ps|), Count(ps, b, 1, |ps|), Count(ps, b, 2, |ps|), Count(ps, b, 3, |ps|), |ps|);
    Count(ps, b, 0, |ps|) * Count(ps, b, 1, |ps|) * Count(ps, b, 2, |ps|) * Count(ps, b, 3, |ps|)
  }

  /** Four factors, each at most n, multiply to at most n^4, and never below zero. */
  lemma ProductAtMost(a: nat, b: nat, c: nat, d: nat, n: nat)
    requires a <= n && b <= n && c <= n && d <= n
    ensures 0 <= a * b * c * d <= n * n * n * n
  {
    MulAtMost(a, b, n, n);
    MulAtMost(a * b, c, n * n, n);
    MulAtMost(a * b * c, d, n * n * n, n);
  }

  /** Multiplying non-negative values is monotone in both factors. */
  lemma MulAtMost(x: int, y: int, xm: int, ym: int)
    requires 0 <= x <= xm && 0 <= y <= ym
    ensures 0 <= x * y <= xm * ym
  {
    MulNonNegative(x, y);
    MulNonNegative(xm - x, y);
    MulNonNegative(xm, ym - y);
  }

  /** A product of naturals is zero exactly when a factor is. */
  lemma ProductZero(a: nat, b: nat, c: nat, d: nat)
    ensures a * b * c * d == 0 <==> a == 0 || b == 0 || c == 0 || d == 0
  {
    if a > 0 && b > 0 && c > 0 && d > 0 {
      MulNonNegative(a - 1, b);
      assert a * b >= b;
      MulNonNegative(a * b - 1, c);
      assert a * b * c >= c;
      MulNonNegative(a * b * c - 1, d);
    }
  }

  /** The safety factor is zero exactly when some quadrant has no robot. */
  lemma Part1Zero(robots: seq<Robot>, b: Rect)
    requires Wraps(b)
    ensures var ps := Positions(robots, b, 100);
            Part1(robots, b) == 0 <==> exists k :: 0 <= k < 4 && Count(ps, b, k, |ps|) == 0
  {
    var ps := Positions(robots, b, 100);
    var c0, c1, c2, c3 := Count(ps, b, 0, |ps|), Count(ps, b, 1, |ps|), Count(ps, b, 2, |ps|), Count(ps, b, 3, |ps|);
    ProductZero(c0, c1, c2, c3);
    if c0 == 0 {
      assert Count(ps, b, 0, |ps|) == 0;
    } else if c1 == 0 {
      assert Count(ps, b, 1, |ps|) == 0;
    } else if c2 == 0 {
      assert Count(ps, b, 2, |ps|) == 0;
    } else if c3 == 0 {
      assert Count(ps, b, 3, |ps|) == 0;
    }
  }

  // ---------------------------------------------------------------------------------------
  // Part 2: the neighbour heuristic

  /** DIRECTIONS: the four neighbours. */
  const Directions: seq<Point> := [Point(0, 1), Point(1, 0), Point(0, -1), Point(-1, 0)]

  /** The distinct cells the robots occupy after `t` seconds. */
  function Cells(robots: seq<Robot>, b: Rect, t: int): set<Point>
    requires Wraps(b)
  {
    set k | 0 <= k < |robots| :: Position(robots[k], b, t)
  }

  /** How many of the four neighbours of `p` are occupied. */
  function Neighbours(p: Point, cells: set<Point>): (n: nat)
    ensures n <= 4
  {
    (if Add(p, Directions[0]) in cells then 1 else 0) + (if Add(p, Directions[1]) in cells then 1 else 0) +
    (if Add(p, Directions[2]) in cells then 1 else 0) + (if Add(p, Directions[3]) in cells then 1 else 0)
  }

  /** The occupied cells with at least two occupied neighbours. */
  function Clustered(cells: set<Point>): (r: set<Point>)
    ensures r <= cells
  {
    set p | p in cells && Neighbours(p, cells) >= 2
  }

  /** part2's test for second `t`: more than half of the occupied cells are clustered. */
  predicate Tree(robots: seq<Robot>, b: Rect, t: int)
    requires Wraps(b)
  {
    |Clustered(Cells(robots, b, t))| > |Cells(robots, b, t)| / 2
  }

  /** The seconds part2 tries are 1 .. Limit - 1. */
  const Limit := 100000

  /** part2: the first second that passes the test, or -1. */
  method Part2(robots: seq<Robot>, b: Rect) returns (r: int)
    requires Wraps(b)
    ensures r == -1 || 1 <= r < Limit
    ensures r == -1 ==> forall t :: 1 <= t < Limit ==> !Tree(robots, b, t)
    ensures r != -1 ==> Tree(robots, b, r) && forall t :: 1 <= t < r ==> !Tree(robots, b, t)
  {
    for i := 1 to Limit
      invariant forall t :: 1 <= t < i ==> !Tree(robots, b, t)
    {
      var cells := Cells(robots, b, i);
      var clustered := Clustered(cells);
      if |clustered| > |cells| / 2 {
        return i;
      }
    }
    return -1;
  }

  /** The test repeats every width * height seconds. */
  lemma TreePeriodic(robots: seq<Robot>, b: Rect, t: int)
    requires Wraps(b)
    ensures Cells(robots, b, t + b.width * b.height) == Cells(robots, b, t)
    ensures Tree(robots, b, t + b.width * b.height) == Tree(robots, b, t)
  {
    forall k | 0 <= k < |robots|
      ensures Position(robots[k], b, t + b.width * b.height) == Position(robots[k], b, t)
    {
      PositionPeriodic(robots[k], b, t);
    }
  }

  /** A lone robot is never clustered, so one robot never passes the test. */
  lemma LoneRobot(robot: Robot, b: Rect, t: int)
    requires Wraps(b)
    ensures !Tree([robot], b, t)
  {
    var p := Position(robot, b, t);
    assert p in Cells([robot], b, t) by {
      assert Position([robot][0], b, t) == p;
    }
    assert Cells([robot], b, t) == {p};
    assert Add(p, Directions[0]) != p && Add(p, Directions[1]) != p;
    assert Add(p, Directions[2]) != p && Add(p, Directions[3]) != p;
    assert Clustered({p}) == {};
  }

  // ---------------------------------------------------------------------------------------
  // The sample of the source's test

  /** The 11 by 7 grid of the sample. */
  const SampleBounds := Rect(0, 0, 11, 7)

  /** The twelve robots of the sample. */
  const SampleRobots := [
    Robot(Point(0, 4), Point(3, -3)), Robot(Point(6, 3), Point(-1, -3)),
    Robot(Point(10, 3), Point(-1, 2)), Robot(Point(2, 0), Point(2, -1)),
    Robot(Point(0, 0), Point(1, 3)), Robot(Point(3, 0), Point(-2, -2)),
    Robot(Point(7, 6), Point(-1, -3)), Robot(Point(3, 0), Point(-1, -2)),
    Robot(Point(9, 3), Point(2, 3)), Robot(Point(7, 3), Point(-1, 2)),
    Robot(Point(2, 4), Point(2, -3)), Robot(Point(9, 5), Point(-3, -3))]

  /** Where the sample robots are after 100 seconds. */
  const SampleAt100 := [
    Point(3, 5), Point(5, 4), Point(9, 0), Point(4, 5), Point(1, 6), Point(1, 3),
    Point(6, 0), Point(2, 3), Point(0, 2), Point(6, 0), Point(4, 5), Point(6, 6)]

  lemma SamplePositions()
    ensures Positions(SampleRobots, SampleBounds, 100) == SampleAt100
  {
  }

  /** Quadrant 0 of the sample after 100 seconds holds 1. */
  lemma SampleCount0()
    ensures Count(SampleAt100, SampleBounds, 0, 12) == 1
  {
    var ps, b := SampleAt100, SampleBounds;
    assert Count(ps, b, 0, 1) == 0;
    assert Count(ps, b, 0, 2) == 0;
    assert Count(ps, b, 0, 3) == 0;
    assert Count(ps, b, 0, 4) == 0;
    assert Count(ps, b, 0, 5) == 0;
    assert Count(ps, b, 0, 6) == 0;
    assert Count(ps, b, 0, 7) == 0;
    assert Count(ps, b, 0, 8) == 0;
    assert Count(ps, b, 0, 9) == 1;
    assert Count(ps, b, 0, 10) == 1;
    assert Count(ps, b, 0, 11) == 1;
    assert Count(ps, b, 0, 12) == 1;
  }

  /** Quadrant 1 of the sample after 100 seconds holds 3. */
  lemma SampleCount1()
    ensures Count(SampleAt100, SampleBounds, 1, 12) == 3
  {
    var ps, b := SampleAt100, SampleBounds;
    assert Count(ps, b, 1, 1) == 0;
    assert Count(ps, b, 1, 2) == 0;
    assert Count(ps, b, 1, 3) == 1;
    assert Count(ps, b, 1, 4) == 1;
    assert Count(ps, b, 1, 5) == 1;
    assert Count(ps, b, 1, 6) == 1;
    assert Count(ps, b, 1, 7) == 2;
    assert Count(ps, b, 1, 8) == 2;
    assert Count(ps, b, 1, 9) == 2;
    assert Count(ps, b, 1, 10) == 3;
    assert Count(ps, b, 1, 11) == 3;
    assert Count(ps, b, 1, 12) == 3;
  }

  /** Quadrant 2 of the sample after 100 seconds holds 4. */
  lemma SampleCount2()
    ensures Count(SampleAt100, SampleBounds, 2, 12) == 4
  {
    var ps, b := SampleAt100, SampleBounds;
    assert Count(ps, b, 2, 1) == 1;
    assert Count(ps, b, 2, 2) == 1;
    assert Count(ps, b, 2, 3) == 1;
    assert Count(ps, b, 2, 4) == 2;
    assert Count(ps, b, 2, 5) == 3;
    assert Count(ps, b, 2, 6) == 3;
    assert Count(ps, b, 2, 7) == 3;
    assert Count(ps, b, 2, 8) == 3;
    assert Count(ps, b, 2, 9) == 3;
    assert Count(ps, b, 2, 10) == 3;
    assert Count(ps, b, 2, 11) == 4;
    assert Count(ps, b, 2, 12) == 4;
  }

  /** Quadrant 3 of the sample after 100 seconds holds 1. */
  lemma SampleCount3()
    ensures Count(SampleAt100, SampleBounds, 3, 12) == 1
  {
    var ps, b := SampleAt100, SampleBounds;
    assert Count(ps, b, 3, 1) == 0;
    assert Count(ps, b, 3, 2) == 0;
    assert Count(ps, b, 3, 3) == 0;
    assert Count(ps, b, 3, 4) == 0;
    assert Count(ps, b, 3, 5) == 0;
    assert Count(ps, b, 3, 6) == 0;
    assert Count(ps, b, 3, 7) == 0;
    assert Count(ps, b, 3, 8) == 0;
    assert Count(ps, b, 3, 9) == 0;
    assert Count(ps, b, 3, 10) == 0;
    assert Count(ps, b, 3, 11) == 0;
    assert Count(ps, b, 3, 12) == 1;
  }

  /** The quadrants hold 1, 3, 4 and 1 robots: part1 is 12, as the test expects. */
  lemma SamplePart1()
    ensures Part1(SampleRobots, SampleBounds) == 12
  {
    SamplePositions();
    SampleCount0();
    SampleCount1();
    SampleCount2();
    SampleCount3();
  }
}
