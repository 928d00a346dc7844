/** Day 6: a guard walks a grid, turning right at obstacles, until it leaves the grid or
    repeats a collision.  Part 1 counts the cells it visits; part 2 counts the visited free
    cells where one extra obstacle makes it loop. */
module Day06 {
  import opened Common
  import opened Geometry

  const GuardChar := '^'
  const ClearChar := '.'
  const ObstacleChar := '#'

  /** DIRECTIONS: up, right, down, left (y grows downwards). */
  const Directions: seq<Point> := [Point(0, -1), Point(1, 0), Point(0, 1), Point(-1, 0)]

  /** Turning right rotates the heading a quarter turn clockwise: (dx, dy) becomes (-dy, dx),
      so up, right, down and left follow each other and four turns come back. */
  lemma TurnRotates(d: nat)
    requires d < 4
    ensures Directions[(d + 1) % 4] == Point(-Directions[d].y, Directions[d].x)
    ensures (((d + 1) % 4 + 1) % 4 + 1) % 4 != d
    ensures ((((d + 1) % 4 + 1) % 4 + 1) % 4 + 1) % 4 == d
  {
  }

  /** An obstacle hit: where the obstacle is and the heading at the time. */
  datatype Collision = Collision(x: int, y: int, dir: nat)

  /** How simulate ends.  Crash is the source's panic on an index outside the map data. */
  datatype Outcome = Leave | Looping | Crash

  /** The fields of Simulation that simulate changes. */
  datatype Guard = Guard(x: int, y: int, dir: nat, visited: set<(int, int)>, collisions: set<Collision>)

  /** The map cell of a point: x + y * width, as the source indexes the flat data. */
  function Index(b: Rect, x: int, y: int): int
  {
    x + y * b.width
  }

  /** One pass of simulate's loop: Stop with the result, or Go on from the new state. */
  datatype Step = Stop(outcome: Outcome, last: Guard) | Go(next: Guard)

  /** One pass of simulate's loop: record the cell, then leave, crash, detect the loop, turn
      at an obstacle, or step forward. */
  function StepOf(g: Guard, b: Rect, data: seq<char>): Step
    requires g.dir < 4
  {
    var g1 := g.(visited := g.visited + {(g.x, g.y)});
    var tx, ty := g.x + Directions[g.dir].x, g.y + Directions[g.dir].y;
    var i := Index(b, tx, ty);
    if !IsInside(b, Point(tx, ty)) then Stop(Leave, g1)
    else if i < 0 || i >= |data| then Stop(Crash, g1)
    else if data[i] == ObstacleChar then
      var c := Collision(tx, ty, g.dir);
      if c in g1.collisions then Stop(Looping, g1)
      else Go(g1.(collisions := g1.collisions + {c}, dir := (g.dir + 1) % 4))
    else Go(g1.(x := tx, y := ty))
  }

  /** What one pass does: the current cell is recorded; LEAVE exactly when the next cell is
      outside; at an obstacle the pair (obstacle, heading) is recorded and the guard turns in
      place, and LOOPING is returned exactly when that pair was recorded before; otherwise the
      guard moves to the next cell, which is inside and free. */
  lemma StepMeaning(g: Guard, b: Rect, data: seq<char>)
    requires g.dir < 4
    ensures var tx, ty := g.x + Directions[g.dir].x, g.y + Directions[g.dir].y;
            var i := Index(b, tx, ty);
            var visited := g.visited + {(g.x, g.y)};
            match StepOf(g, b, data)
            case Stop(o, last) =>
              && last == g.(visited := visited)
              && (o == Leave <==> !IsInside(b, Point(tx, ty)))
              && (o == Looping <==> IsInside(b, Point(tx, ty)) && 0 <= i < |data| && data[i] == ObstacleChar
                                    && Collision(tx, ty, g.dir) in g.collisions)
            case Go(n) =>
              && IsInside(b, Point(tx, ty)) && 0 <= i < |data| && n.visited == visited
              && (data[i] == ObstacleChar ==>
                    n == Guard(g.x, g.y, (g.dir + 1) % 4, visited, g.collisions + {Collision(tx, ty, g.dir)})
                    && Collision(tx, ty, g.dir) !in g.collisions)
              && (data[i] != ObstacleChar ==> n == Guard(tx, ty, g.dir, visited, g.collisions))
  {
  }

  /** simulate's loop for at most `fuel` passes; None when the fuel runs out. */
  function Run(g: Guard, b: Rect, data: seq<char>, fuel: nat): Option<(Outcome, Guard)>
    requires g.dir < 4
    decreases fuel
  {
    if fuel == 0 then None
    else match StepOf(g, b, data)
      case Stop(o, last) => Some((o, last))
      case Go(next) => Run(next, b, data, fuel - 1)
  }

  /** Every state along a run keeps a heading in 0..3. */
  lemma StepDir(g: Guard, b: Rect, data: seq<char>)
    requires g.dir < 4
    ensures StepOf(g, b, data).Go? ==> StepOf(g, b, data).next.dir < 4
  {
  }

  /** The guard stands inside and on a free cell, or on its start. */
  predicate Placed(b: Rect, data: seq<char>, start: (int, int), cell: (int, int))
  {
    cell == start ||
    (IsInside(b, Point(cell.0, cell.1)) && 0 <= Index(b, cell.0, cell.1) < |data|
     && data[Index(b, cell.0, cell.1)] != ObstacleChar)
  }

  /** A run only grows the visited set and the collision record, always holds the cell it
      started from, and visits only the start and cells inside the map that are free. */
  lemma {:induction false} RunVisits(g: Guard, b: Rect, data: seq<char>, fuel: nat, start: (int, int))
    requires g.dir < 4 && Run(g, b, data, fuel).Some?
    requires Placed(b, data, start, (g.x, g.y))
    requires forall c :: c in g.visited ==> Placed(b, data, start, c)
    ensures var (_, last) := Run(g, b, data, fuel).value;
            && g.visited + {(g.x, g.y)} <= last.visited
            && g.collisions <= last.collisions
            && forall c :: c in last.visited ==> Placed(b, data, start, c)
    decreases fuel
  {
    StepMeaning(g, b, data);
    match StepOf(g, b, data)
    case Stop(_, _) =>
    case Go(next) =>
      StepDir(g, b, data);
      RunVisits(next, b, data, fuel - 1, start);
  }

  /** More fuel never changes a finished run. */
  lemma {:induction false} RunMoreFuel(g: Guard, b: Rect, data: seq<char>, fuel: nat, more: nat)
    requires g.dir < 4 && Run(g, b, data, fuel).Some? && fuel <= more
    ensures Run(g, b, data, more) == Run(g, b, data, fuel)
    decreases fuel
  {
    match StepOf(g, b, data)
    case Stop(_, _) =>
    case Go(next) =>
      StepDir(g, b, data);
      RunMoreFuel(next, b, data, fuel - 1, more - 1);
  }

  /** The state of a new Simulation. */
  function Start(x: int, y: int): Guard
  {
    Guard(x, y, 0, {}, {})
  }

  class Simulation {
    var x: int
    var y: int
    var dir: nat
    var visited: set<(int, int)>
    var collisions: set<Collision>
    const bounds: Rect
    const data: seq<char>

    /** The changing fields as one value. */
    function State(): Guard
      reads this
    {
      Guard(x, y, dir, visited, collisions)
    }

    /** Simulation::new: facing up, nothing visited, nothing hit. */
    constructor (startX: int, startY: int, bounds: Rect, data: seq<char>)
      ensures State() == Start(startX, startY)
      ensures this.bounds == bounds && this.data == data
    {
      x, y, dir := startX, startY, 0;
      visited, collisions := {}, {};
      this.bounds, this.data := bounds, data;
    }

    /** turn: the next heading clockwise. */
    method Turn()
      requires dir < 4
      modifies this
      ensures State() == old(State()).(dir := (old(dir) + 1) % 4)
      ensures dir < 4
    {
      dir := (dir + 1) % 4;
    }

    /** One pass of simulate's loop body: the result when the loop returns, None when it
        goes round again. */
    method Pass() returns (stop: Option<Outcome>)
      requires dir < 4
      modifies this
      ensures match StepOf(old(State()), bounds, data)
              case Stop(o, last) => stop == Some(o) && State() == last
              case Go(next) => stop == None && State() == next
    {
      visited := visited + {(x, y)};
      var tx, ty := x + Directions[dir].x, y + Directions[dir].y;
      if !IsInside(bounds, Point(tx, ty)) {
        return Some(Leave);
      }
      var i := tx + ty * bounds.width;
      if i < 0 || i >= |data| {
        return Some(Crash);
      }
      if data[i] == ObstacleChar {
        var c := Collision(tx, ty, dir);
        if c in collisions {
          return Some(Looping);
        }
        collisions := collisions + {c};
        Turn();
        return None;
      }
      x, y := tx, ty;
      return None;
    }

    /** simulate, for at most `fuel` passes: None when the fuel runs out. */
    method Simulate(fuel: nat) returns (r: Option<Outcome>)
      requires dir < 4
      modifies this
      ensures var run := Run(old(State()), bounds, data, fuel);
              (r.None? <==> run.None?) && (r.Some? ==> r.value == run.value.0 && State() == run.value.1)
    {
      var left := fuel;
      while left > 0
        invariant dir < 4
        invariant Run(old(State()), bounds, data, fuel) == Run(State(), bounds, data, left)
        decreases left
      {
        ghost var before := State();
        var stop := Pass();
        if stop.Some? {
          return stop;
        }
        StepDir(before, bounds, data);
        left := left - 1;
      }
      return None;
    }
  }

  // ---------------------------------------------------------------------------------------
  // Reading the map (the first block of main)

  /** The map as main builds it: the rows joined, the width (-1 before the first row), the
      number of rows, and the guard's start (-1, -1 when there is none). */
  datatype Grid = Grid(data: seq<char>, width: int, height: int, startX: int, startY: int)

  /** The first position of the guard character in a line, from index `i` on. */
  function GuardAt(line: string, i: nat): (r: Option<nat>)
    requires i <= |line|
    ensures r.Some? ==> i <= r.value < |line| && line[r.value] == GuardChar
    ensures r.Some? ==> forall k :: i <= k < r.value ==> line[k] != GuardChar
    ensures r.None? ==> forall k :: i <= k < |line| ==> line[k] != GuardChar
    decreases |line| - i
  {
    if i == |line| then None else if line[i] == GuardChar then Some(i) else GuardAt(line, i + 1)
  }

  /** One line of main's reading loop: the width must match the first line's, a second
      guard is an error, and the line is appended. */
  function ReadRow(g: Grid, line: string): Option<Grid>
  {
    if |line| != g.width && g.width != -1 then None
    else
      var width := if |line| == g.width then g.width else |line|;
      match GuardAt(line, 0)
      case Some(i) =>
        if g.startX == -1 && g.startY == -1 then Some(Grid(g.data + line, width, g.height + 1, i, g.height))
        else None
      case None => Some(Grid(g.data + line, width, g.height + 1, g.startX, g.startY))
  }

  /** The first `n` lines read. */
  function ReadGrid(lines: seq<string>, n: nat): Option<Grid>
    requires n <= |lines|
  {
    if n == 0 then Some(Grid([], -1, 0, -1, -1))
    else match ReadGrid(lines, n - 1)
      case None => None
      case Some(g) => ReadRow(g, lines[n - 1])
  }

  /** A read map is a width-by-height rectangle of rows of equal length, and the start, when
      there is one, is inside it on the guard character. */
  ghost predicate WellFormed(lines: seq<string>, n: nat, g: Grid)
    requires n <= |lines|
  {
    && g.height == n
    && (n == 0 ==> g.width == -1 && g.data == [])
    && (n > 0 ==> g.width == |lines[0]| && |g.data| == g.width * g.height)
    && (forall k :: 0 <= k < n ==> |lines[k]| == |lines[0]|)
    && StartOk(g)
  }

  /** No start, or a start inside the map on the guard character. */
  predicate StartOk(g: Grid)
  {
    (g.startX == -1 && g.startY == -1) ||
    (0 <= g.startX < g.width && 0 <= g.startY < g.height &&
     0 <= g.startX + g.startY * g.width < |g.data| && g.data[g.startX + g.startY * g.width] == GuardChar)
  }

  /** A cell of a width-by-height map indexes the flat data. */
  lemma IndexInGrid(x: int, y: int, w: int, h: int)
    requires 0 <= x < w && 0 <= y < h
    ensures 0 <= x + y * w < w * h
  {
    MulNonNegative(h - 1 - y, w);
    MulNonNegative(y, w);
    assert (h - 1 - y) * w == h * w - y * w - w;
  }

  /** Reading keeps the map well formed. */
  lemma {:induction false} ReadGridShape(lines: seq<string>, n: nat)
    requires n <= |lines| && ReadGrid(lines, n).Some?
    ensures WellFormed(lines, n, ReadGrid(lines, n).value)
  {
    if n > 0 {
      ReadGridShape(lines, n - 1);
      ReadRowShape(lines, n - 1, ReadGrid(lines, n - 1).value);
    }
  }

  /** Appending one line keeps the map well formed. */
  lemma ReadRowShape(lines: seq<string>, n: nat, g: Grid)
    requires n < |lines| && WellFormed(lines, n, g) && ReadRow(g, lines[n]).Some?
    ensures WellFormed(lines, n + 1, ReadRow(g, lines[n]).value)
  {
    var r := ReadRow(g, lines[n]).value;
    var line := lines[n];
    assert r.data == g.data + line && r.width == |line| && r.height == n + 1;
    if n > 0 {
      assert |r.data| == g.width * n + g.width == g.width * (n + 1);
    }
    RowStart(g, line, r);
  }

  /** The start survives an appended row, or is found on it. */
  lemma RowStart(g: Grid, line: string, r: Grid)
    requires StartOk(g) && 0 <= g.height && |g.data| == g.width * g.height
    requires ReadRow(g, line) == Some(r)
    ensures StartOk(r)
  {
    assert r.data == g.data + line && r.width == |line| && r.height == g.height + 1;
    if r.startX != g.startX || r.startY != g.startY {
      var i := GuardAt(line, 0).value;
      assert r.startX == i && r.startY == g.height;
      IndexInGrid(i, g.height, r.width, r.height);
      assert g.height * r.width == |g.data|;
      assert r.data[i + g.height * r.width] == line[i];
    } else if r.startX != -1 || r.startY != -1 {
      assert g.startX + g.startY * g.width < |g.data|;
    }
  }

  /** One iteration of the reading loop. */
  method ReadStep(g: Grid, ghost lines: seq<string>, i: nat, line: string) returns (r: Option<Grid>)
    requires i < |lines| && lines[i] == line && ReadGrid(lines, i) == Some(g)
    ensures r == ReadGrid(lines, i + 1)
  {
    r := ReadRow(g, line);
  }

  /** main's reading loop; None where it panics. */
  method Parse(lines: seq<string>) returns (r: Option<Grid>)
    ensures r == ReadGrid(lines, |lines|)
  {
    var g := Grid([], -1, 0, -1, -1);
    for i := 0 to |lines|
      invariant ReadGrid(lines, i) == Some(g)
    {
      var next := ReadStep(g, lines, i, lines[i]);
      if next.None? {
        ReadGridNone(lines, i + 1, |lines|);
        return None;
      }
      g := next.value;
    }
    return Some(g);
  }

  /** Once a line panics, reading panics. */
  lemma {:induction false} ReadGridNone(lines: seq<string>, a: nat, b: nat)
    requires a <= b <= |lines| && ReadGrid(lines, a).None?
    ensures ReadGrid(lines, b).None?
    decreases b - a
  {
    if a < b {
      ReadGridNone(lines, a + 1, b);
    }
  }

  /** The bounds main derives from the map. */
  function BoundsOf(g: Grid): Rect
  {
    Rect(0, 0, g.width, g.height)
  }

  // ---------------------------------------------------------------------------------------
  // Part 1 and part 2 (the rest of main)

  /** Part 1's walk: it must LEAVE (LOOPING panics), and its final state holds the visited
      cells.  None on a panic or when the fuel runs out. */
  function Walk(data: seq<char>, b: Rect, sx: int, sy: int, fuel: nat): (r: Option<Guard>)
    ensures r.Some? ==> (sx, sy) in r.value.visited
    ensures r.Some? ==> forall c :: c in r.value.visited ==> Placed(b, data, (sx, sy), c)
  {
    match Run(Start(sx, sy), b, data, fuel)
    case Some((Leave, last)) =>
      RunVisits(Start(sx, sy), b, data, fuel, (sx, sy));
      Some(last)
    case _ => None
  }

  /** One trial of part 2 for a visited cell: skipped (false) unless the cell is CLEAR,
      otherwise whether the walk loops with an obstacle there; None on a panic or when the
      fuel runs out. */
  function Trial(data: seq<char>, b: Rect, sx: int, sy: int, cell: (int, int), fuel: nat): Option<bool>
  {
    var i := Index(b, cell.0, cell.1);
    if i < 0 || i >= |data| then None
    else if data[i] != ClearChar then Some(false)
    else match Run(Start(sx, sy), b, data[i := ObstacleChar], fuel)
      case Some((Looping, _)) => Some(true)
      case Some((Leave, _)) => Some(false)
      case _ => None
  }

  /** The cells whose trial loops. */
  function Loops(data: seq<char>, b: Rect, sx: int, sy: int, cells: set<(int, int)>, fuel: nat): (r: set<(int, int)>)
    ensures r <= cells
  {
    set c | c in cells && Trial(data, b, sx, sy, c, fuel) == Some(true)
  }

  /** Every trial ends without a panic. */
  predicate TrialsEnd(data: seq<char>, b: Rect, sx: int, sy: int, cells: set<(int, int)>, fuel: nat)
  {
    forall c :: c in cells ==> Trial(data, b, sx, sy, c, fuel).Some?
  }

  /** A loop placement is on a free cell that the guard visits, never on its start. */
  lemma LoopCellFree(data: seq<char>, b: Rect, sx: int, sy: int, cells: set<(int, int)>, fuel: nat, c: (int, int))
    requires c in Loops(data, b, sx, sy, cells, fuel)
    ensures c in cells && 0 <= Index(b, c.0, c.1) < |data| && data[Index(b, c.0, c.1)] == ClearChar
  {
  }

  lemma PickCell(s: set<(int, int)>)
    requires s != {}
    ensures exists c :: c in s
  {
    if forall c :: c !in s {
      assert false;
    }
  }

  /** Part 2 of main: each visited cell that is CLEAR gets an obstacle, the guard runs again
      from the start, and the cell is put back, so the map is the same before every trial
      and afterwards.  The count is that of the cells whose trial loops. */
  method Part2(data: array<char>, b: Rect, sx: int, sy: int, cells: set<(int, int)>, fuel: nat) returns (r: Option<nat>)
    modifies data
    ensures data[..] == old(data[..])
    ensures var loops := Loops(old(data[..]), b, sx, sy, cells, fuel);
            (r.Some? <==> TrialsEnd(old(data[..]), b, sx, sy, cells, fuel)) && (r.Some? ==> r.value == |loops|)
  {
    ghost var map0 := data[..];
    var todo := cells;
    var count := 0;
    while todo != {}
      invariant todo <= cells
      invariant data[..] == map0
      invariant TrialsEnd(map0, b, sx, sy, cells - todo, fuel)
      invariant count == |Loops(map0, b, sx, sy, cells - todo, fuel)|
      decreases |todo|
    {
      PickCell(todo);
      var c :| c in todo;
      var t := TryCell(data, b, sx, sy, c, fuel);
      if t.None? {
        return None;
      }
      ghost var before := cells - todo;
      todo := todo - {c};
      assert cells - todo == before + {c};
      if t.value {
        assert Loops(map0, b, sx, sy, cells - todo, fuel) == Loops(map0, b, sx, sy, before, fuel) + {c};
        count := count + 1;
      } else {
        assert Loops(map0, b, sx, sy, cells - todo, fuel) == Loops(map0, b, sx, sy, before, fuel);
      }
    }
    assert cells - todo == cells;
    return Some(count);
  }

  /** One trial: place the obstacle, simulate, restore the cell. */
  method TryCell(data: array<char>, b: Rect, sx: int, sy: int, c: (int, int), fuel: nat) returns (r: Option<bool>)
    modifies data
    ensures data[..] == old(data[..])
    ensures r == Trial(old(data[..]), b, sx, sy, c, fuel)
  {
    var i := c.0 + c.1 * b.width;
    if i < 0 || i >= data.Length {
      return None;
    }
    if data[i] != ClearChar {
      return Some(false);
    }
    ghost var map0 := data[..];
    data[i] := ObstacleChar;
    assert data[..] == map0[i := ObstacleChar];
    var solver := new Simulation(sx, sy, b, data[..]);
    var outcome := solver.Simulate(fuel);
    data[i] := ClearChar;
    assert data[..] == map0;
    match outcome {
      case Some(Looping) => return Some(true);
      case Some(Leave) => return Some(false);
      case _ => return None;
    }
  }

  /** main after reading the lines: part 1 walks the guard from its start on the parsed map
      and counts the visited cells; part 2 runs the trials over exactly those cells on a
      mutable copy of the map.  None where the source panics (or the fuel runs out); part 1
      is printed before part 2 can panic. */
  method Answers(lines: seq<string>, fuel: nat) returns (part1: Option<nat>, part2: Option<nat>)
    ensures part2.Some? ==> part1.Some?
    ensures match ReadGrid(lines, |lines|)
            case None => part1.None?
            case Some(g) =>
              match Walk(g.data, BoundsOf(g), g.startX, g.startY, fuel)
              case None => part1.None?
              case Some(last) =>
                && part1 == Some(|last.visited|)
                && (part2.Some? <==> TrialsEnd(g.data, BoundsOf(g), g.startX, g.startY, last.visited, fuel))
                && (part2.Some? ==> part2.value == |Loops(g.data, BoundsOf(g), g.startX, g.startY, last.visited, fuel)|)
  {
    var parsed := Parse(lines);
    if parsed.None? {
      return None, None;
    }
    var g := parsed.value;
    var b := BoundsOf(g);
    var solver := new Simulation(g.startX, g.startY, b, g.data);
    var outcome := solver.Simulate(fuel);
    if outcome != Some(Leave) {
      return None, None;
    }
    part1 := Some(|solver.visited|);
    var data := new char[|g.data|](i requires 0 <= i < |g.data| => g.data[i]);
    assert data[..] == g.data;
    part2 := Part2(data, b, g.startX, g.startY, solver.visited, fuel);
  }
}
