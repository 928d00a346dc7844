/** Day 16: a reindeer runs a maze from 'S' to 'E'.  It starts facing east; a step forward
    scores 1 point and a quarter turn 1000.  A search over a min-queue of (score, pose, cells
    passed) finds the lowest score, and the cells of every route popped at that score are
    gathered. */
module Day16 {
  import opened Common
  import opened Geometry
  import opened Search

  const StartMark: char := 'S'
  const EndMark: char := 'E'
  const Wall: char := '#'

  /** Down, right, up, left (y grows downwards). */
  const Directions: seq<Point> := [Point(0, 1), Point(1, 0), Point(0, -1), Point(-1, 0)]

  /** The points a step forward and a quarter turn score. */
  const StepScore: int := 1
  const TurnScore: int := 1000

  /** A place in the maze and the index of the direction faced. */
  datatype Pose = Pose(pos: Point, dir: int)

  /** QueueItem: its order is the reverse of the score, so the heap pops the lowest score. */
  datatype Item = Item(score: int, pos: Point, dir: int, path: set<Point>)

  function PoseOf(item: Item): Pose
  {
    Pose(item.pos, item.dir)
  }

  function ScoreOf(item: Item): int
  {
    item.score
  }

  // ---------------------------------------------------------------------------------------
  // The maze

  /** A cell of the level that is not a wall. */
  predicate Open(level: seq<string>, p: Point)
  {
    0 <= p.y < |level| && 0 <= p.x < |level[p.y]| && level[p.y][p.x] != Wall
  }

  /** The level is a rectangle whose border is wall.  solve indexes the row and the column of
      the cell ahead of every popped pose, which panics (or hits `todo!()`) off the level. */
  predicate Enclosed(level: seq<string>)
  {
    && |level| >= 1
    && (forall y :: 0 <= y < |level| ==> |level[y]| == |level[0]|)
    && forall y, x :: 0 <= y < |level| && 0 <= x < |level[y]| && level[y][x] != Wall ==>
         0 < y < |level| - 1 && 0 < x < |level[y]| - 1
  }

  /** The cell ahead of a pose. */
  function Ahead(p: Pose): Point
    requires 0 <= p.dir < 4
  {
    Add(p.pos, Directions[p.dir])
  }

  /** A quarter turn: `(dir + k).rem_euclid(4)`. */
  function Turn(p: Pose, k: int): Pose
  {
    Pose(p.pos, (p.dir + k) % 4)
  }

  /** The cell ahead of a pose on an open cell is inside the level. */
  lemma AheadInside(level: seq<string>, p: Pose)
    requires Enclosed(level) && Open(level, p.pos) && 0 <= p.dir < 4
    ensures 0 <= Ahead(p).y < |level| && 0 <= Ahead(p).x < |level[Ahead(p).y]|
    ensures Ahead(p) != p.pos
  {
  }

  /** The moves of the reindeer: forward onto a cell that is not a wall, or a quarter turn
      either way. */
  predicate Move(level: seq<string>, a: Pose, b: Pose)
  {
    0 <= a.dir < 4 && ((b == Pose(Ahead(a), a.dir) && Open(level, b.pos)) || b == Turn(a, 1) || b == Turn(a, -1))
  }

  /** A turn keeps the place and scores 1000; a step forward scores 1. */
  function MoveScore(a: Pose, b: Pose): int
  {
    if a.pos == b.pos then TurnScore else StepScore
  }

  // ---------------------------------------------------------------------------------------
  // Routes

  /** Every pose of a route moves to the next. */
  ghost predicate Route(level: seq<string>, walk: seq<Pose>)
  {
    |walk| >= 1 && forall i :: 0 <= i < |walk| - 1 ==> MoveAt(level, walk, i)
  }

  ghost predicate MoveAt(level: seq<string>, walk: seq<Pose>, i: int)
    requires 0 <= i < |walk| - 1
  {
    Move(level, walk[i], walk[i + 1])
  }

  /** The score of a route: the scores of its moves added up. */
  function Score(walk: seq<Pose>): nat
  {
    if |walk| <= 1 then 0 else Score(walk[..|walk| - 1]) + if walk[|walk| - 2].pos == walk[|walk| - 1].pos then TurnScore else StepScore
  }

  /** The cells a route passes. */
  function Cells(walk: seq<Pose>): set<Point>
  {
    set i | 0 <= i < |walk| :: walk[i].pos
  }

  /** `walk` is a route from `from` to `to` scoring `n`. */
  ghost predicate Leads(level: seq<string>, from: Pose, walk: seq<Pose>, to: Pose, n: int)
  {
    Route(level, walk) && walk[0] == from && walk[|walk| - 1] == to && Score(walk) == n
  }

  /** Pose `to` is reached from `from` with score `n`. */
  ghost predicate Reach(level: seq<string>, from: Pose, to: Pose, n: int)
  {
    exists walk :: Leads(level, from, walk, to, n)
  }

  /** A route from `from` that ends on the end cell. */
  ghost predicate Finishes(level: seq<string>, from: Pose, end: Point, walk: seq<Pose>)
  {
    Route(level, walk) && walk[0] == from && walk[|walk| - 1].pos == end
  }

  /** `s` is the lowest score of a route from `from` to the end cell. */
  ghost predicate Lowest(level: seq<string>, from: Pose, end: Point, s: int)
  {
    && (exists walk :: Finishes(level, from, end, walk) && Score(walk) == s)
    && forall walk :: Finishes(level, from, end, walk) ==> s <= Score(walk)
  }

  /** No route from `from` reaches the end cell. */
  ghost predicate Unreachable(level: seq<string>, from: Pose, end: Point)
  {
    forall walk :: !Finishes(level, from, end, walk)
  }

  /** Cell `p` lies on a route to the end cell scoring `s`. */
  ghost predicate OnRoute(level: seq<string>, from: Pose, end: Point, s: int, p: Point)
  {
    exists walk :: Finishes(level, from, end, walk) && Score(walk) == s && p in Cells(walk)
  }

  /** What solve leaves: the lowest score, and only cells of routes with that score; or no
      solution, no cells and no route at all. */
  ghost predicate Solved(level: seq<string>, from: Pose, end: Point, solution: Option<int>, path: set<Point>)
  {
    && (solution.Some? ==> Lowest(level, from, end, solution.value) && forall p :: p in path <==> OnRoute(level, from, end, solution.value, p))
    && (solution.None? ==> Unreachable(level, from, end) && path == {})
  }

  lemma {:induction false} ScorePrefix(walk: seq<Pose>, k: nat)
    requires 1 <= k <= |walk|
    ensures Score(walk[..k]) <= Score(walk)
    decreases |walk|
  {
    if k < |walk| {
      ScorePrefix(walk[..|walk| - 1], k);
      assert walk[..|walk| - 1][..k] == walk[..k];
    } else {
      assert walk[..k] == walk;
    }
  }

  /** A prefix of a route is a route to its last pose. */
  lemma LeadsPrefix(level: seq<string>, from: Pose, walk: seq<Pose>, to: Pose, n: int, k: nat)
    requires Leads(level, from, walk, to, n) && 1 <= k <= |walk|
    ensures Leads(level, from, walk[..k], walk[k - 1], Score(walk[..k])) && Score(walk[..k]) <= n
  {
    forall i | 0 <= i < k - 1
      ensures MoveAt(level, walk[..k], i)
    {
      assert MoveAt(level, walk, i);
    }
    ScorePrefix(walk, k);
  }

  /** A route extends by a move, adding the move's score and the cell moved to. */
  lemma LeadsExtend(level: seq<string>, from: Pose, walk: seq<Pose>, to: Pose, n: int, next: Pose)
    requires Leads(level, from, walk, to, n) && Move(level, to, next)
    ensures Leads(level, from, walk + [next], next, n + MoveScore(to, next))
    ensures Cells(walk + [next]) == Cells(walk) + {next.pos}
  {
    var walk' := walk + [next];
    forall i | 0 <= i < |walk'| - 1
      ensures MoveAt(level, walk', i)
    {
      if i < |walk| - 1 {
        assert MoveAt(level, walk, i);
      }
    }
    assert walk'[..|walk'| - 1] == walk;
    assert Cells(walk') == Cells(walk) + {next.pos} by {
      forall p | p in Cells(walk') ensures p in Cells(walk) + {next.pos} {
        var i :| 0 <= i < |walk'| && walk'[i].pos == p;
        if i < |walk| {
          assert walk[i].pos == p;
        }
      }
      forall p | p in Cells(walk) ensures p in Cells(walk') {
        var i :| 0 <= i < |walk| && walk[i].pos == p;
        assert walk'[i].pos == p;
      }
      assert walk'[|walk|].pos == next.pos;
    }
  }

  /** A proper prefix of a walk scores less than the walk: every move costs at least 1. */
  lemma ScoreStrict(walk: seq<Pose>, k: nat)
    requires 1 <= k <= |walk|
    ensures k < |walk| ==> Score(walk[..k]) < Score(walk)
  {
    if k < |walk| {
      ScorePrefix(walk, k + 1);
      assert walk[..k + 1][..k] == walk[..k];
    }
  }

  /** The poses of a route from the `k`-th on form a route. */
  lemma RouteSuffix(level: seq<string>, walk: seq<Pose>, k: nat)
    requires Route(level, walk) && k < |walk|
    ensures Route(level, walk[k..])
  {
    forall i | 0 <= i < |walk| - k - 1
      ensures MoveAt(level, walk[k..], i)
    {
      assert MoveAt(level, walk, k + i);
    }
  }

  /** A route joined to one that starts where it ends is a route scoring the two added up. */
  lemma {:induction false} Splice(level: seq<string>, w: seq<Pose>, v: seq<Pose>)
    requires Route(level, w) && Route(level, v) && w[|w| - 1] == v[0]
    ensures Route(level, w + v[1..]) && Score(w + v[1..]) == Score(w) + Score(v)
    decreases |v|
  {
    if |v| == 1 {
      assert w + v[1..] == w;
    } else {
      var n := |v| - 1;
      var front := v[..n];
      LeadsPrefix(level, v[0], v, v[n], Score(v), n);
      Splice(level, w, front);
      var x := w + front[1..];
      if n == 1 {
        assert x == w;
      }
      assert x[|x| - 1] == v[n - 1];
      assert MoveAt(level, v, n - 1);
      LeadsExtend(level, x[0], x, v[n - 1], Score(x), v[n]);
      assert x + [v[n]] == w + v[1..];
    }
  }

  /** A route from `from` to the `k`-th pose of a route to the end cell, followed by the rest
      of that route, finishes too, and scores the difference of the two routes to that pose
      more or less. */
  lemma {:induction false} SpliceFinishes(level: seq<string>, from: Pose, end: Point, walk: seq<Pose>, k: nat, w: seq<Pose>)
    requires Finishes(level, from, end, walk) && k < |walk|
    requires Route(level, w) && w[0] == from && w[|w| - 1] == walk[k]
    ensures Finishes(level, from, end, w + walk[k + 1..])
    ensures Score(w + walk[k + 1..]) + Score(walk[..k + 1]) == Score(w) + Score(walk)
  {
    RouteSuffix(level, walk, k);
    Splice(level, w, walk[k..]);
    assert walk[k..][1..] == walk[k + 1..];
    LeadsPrefix(level, from, walk, walk[|walk| - 1], Score(walk), k + 1);
    Splice(level, walk[..k + 1], walk[k..]);
    assert walk[..k + 1] + walk[k + 1..] == walk;
    if k + 1 == |walk| {
      assert w + walk[k + 1..] == w;
    }
  }

  /** A best route reaches the end cell only at its last pose. */
  lemma BestEndsOnce(level: seq<string>, from: Pose, end: Point, walk: seq<Pose>, i: nat)
    requires Best(level, from, end, walk) && i < |walk| && walk[i].pos == end
    ensures i == |walk| - 1
  {
    LeadsPrefix(level, from, walk, walk[|walk| - 1], Score(walk), i + 1);
    assert Finishes(level, from, end, walk[..i + 1]);
    ScoreStrict(walk, i + 1);
  }

  /** The first item of a route from the start pose is the start item. */
  lemma RouteItemStart(walk: seq<Pose>, from: Pose)
    requires |walk| >= 1 && walk[0] == from
    ensures RouteItem(walk, 0) == Item(0, from.pos, from.dir, {from.pos})
  {
    assert walk[..1] == [from];
    assert Cells([from]) == {from.pos} by {
      assert [from][0].pos == from.pos;
    }
  }

  /** The item of one more pose of a route adds the move's score and the cell moved to. */
  lemma RouteItemNext(level: seq<string>, walk: seq<Pose>, i: nat)
    requires Route(level, walk) && i < |walk| - 1
    ensures RouteItem(walk, i + 1)
            == Item(RouteItem(walk, i).score + MoveScore(walk[i], walk[i + 1]), walk[i + 1].pos, walk[i + 1].dir,
                    RouteItem(walk, i).path + {walk[i + 1].pos})
    ensures walk[i].pos in RouteItem(walk, i).path
  {
    LeadsPrefix(level, walk[0], walk, walk[|walk| - 1], Score(walk), i + 1);
    assert MoveAt(level, walk, i);
    LeadsExtend(level, walk[0], walk[..i + 1], walk[i], Score(walk[..i + 1]), walk[i + 1]);
    assert walk[..i + 1] + [walk[i + 1]] == walk[..i + 2];
    assert walk[..i + 1][i].pos == walk[i].pos;
  }

  // ---------------------------------------------------------------------------------------
  // The search state of solve

  /** `cost` is the ghost record of the score each visited pose was first popped at; the
      visited set of the source is its domain. */

  /** The item traces a route from `from` with its score that passes exactly its cells. */
  ghost predicate Traced(level: seq<string>, from: Pose, item: Item)
  {
    exists walk :: Leads(level, from, walk, PoseOf(item), item.score) && Cells(walk) == item.path
  }

  /** A score no known solution rules out. */
  predicate Below(solution: Option<int>, n: int)
  {
    solution.None? || n < solution.value
  }

  /** Every queued item stands on an open cell, traces a route, and scores no less than a known
      solution. */
  ghost predicate Queued(level: seq<string>, from: Pose, solution: Option<int>, pq: multiset<Item>)
  {
    forall i :: i in pq ==>
      && Open(level, i.pos) && 0 <= i.dir < 4 && Traced(level, from, i)
      && (solution.Some? ==> solution.value <= i.score)
  }

  /** The poses and scores queued. */
  function Keys(pq: multiset<Item>): set<(Pose, int)>
  {
    set i | i in pq :: (PoseOf(i), i.score)
  }

  /** Every visited pose is off the end cell, open, and reached at its cost. */
  ghost predicate Found(level: seq<string>, from: Pose, end: Point, cost: map<Pose, int>)
  {
    forall v :: v in cost ==> v.pos != end && Open(level, v.pos) && 0 <= v.dir < 4 && cost[v] >= 0 && Reach(level, from, v, cost[v])
  }

  /** A visited pose's cost is no more than any route to it that a known solution does not rule
      out. */
  ghost predicate LowerBounds(level: seq<string>, from: Pose, cost: map<Pose, int>, solution: Option<int>)
  {
    forall v, n :: v in cost && Reach(level, from, v, n) && Below(solution, n) ==> cost[v] <= n
  }

  /** The move from visited pose `u` to `v` is visited, or queued at the score it gives, or
      scores above a known solution. */
  predicate Handled(cost: map<Pose, int>, pq: multiset<Item>, solution: Option<int>, u: Pose, v: Pose)
    requires u in cost
  {
    var n := cost[u] + MoveScore(u, v);
    v in cost || (v, n) in Keys(pq) || (solution.Some? && solution.value <= n)
  }

  /** Every move from a visited pose is handled. */
  ghost predicate Pushed(level: seq<string>, cost: map<Pose, int>, pq: multiset<Item>, solution: Option<int>)
  {
    forall u, v {:trigger Handled(cost, pq, solution, u, v)} :: u in cost && Move(level, u, v) ==> Handled(cost, pq, solution, u, v)
  }

  /** The start pose is visited, or queued at 0, or a solution of 0 is known. */
  predicate Started(from: Pose, cost: map<Pose, int>, pq: multiset<Item>, solution: Option<int>)
  {
    from in cost || (from, 0) in Keys(pq) || (solution.Some? && solution.value <= 0)
  }

  /** A known solution is the lowest score and every gathered cell is on a route with it. */
  ghost predicate Gathered(level: seq<string>, from: Pose, end: Point, solution: Option<int>, path: set<Point>)
  {
    && (solution.Some? ==> Lowest(level, from, end, solution.value) && forall p :: p in path ==> OnRoute(level, from, end, solution.value, p))
    && (solution.None? ==> path == {})
  }

  /** A route to the end cell that scores no more than any other. */
  ghost predicate Best(level: seq<string>, from: Pose, end: Point, walk: seq<Pose>)
  {
    Finishes(level, from, end, walk) && forall other :: Finishes(level, from, end, other) ==> Score(walk) <= Score(other)
  }

  /** The item solve queues for the first `i + 1` poses of a route: the route's score and
      cells so far. */
  function RouteItem(walk: seq<Pose>, i: int): Item
    requires 0 <= i < |walk|
  {
    Item(Score(walk[..i + 1]), walk[i].pos, walk[i].dir, Cells(walk[..i + 1]))
  }

  /** The cells of a route are gathered, or the item of one of its prefixes is queued. */
  ghost predicate Covered(walk: seq<Pose>, pq: multiset<Item>, path: set<Point>)
  {
    Cells(walk) <= path || exists i :: 0 <= i < |walk| && RouteItem(walk, i) in pq
  }

  /** Every best route is covered. */
  ghost predicate Complete(level: seq<string>, from: Pose, end: Point, pq: multiset<Item>, path: set<Point>)
  {
    forall walk :: Best(level, from, end, walk) ==> Covered(walk, pq, path)
  }

  /** No visited pose cost more than a queued item scores: the pops come in order of score. */
  ghost predicate Monotone(cost: map<Pose, int>, pq: multiset<Item>)
  {
    forall v, o :: v in cost && o in pq ==> cost[v] <= o.score
  }

  /** The invariant of solve's loop. */
  ghost predicate Searching(level: seq<string>, from: Pose, end: Point, cost: map<Pose, int>, pq: multiset<Item>,
                            solution: Option<int>, path: set<Point>)
  {
    && Enclosed(level) && Open(level, from.pos) && 0 <= from.dir < 4
    && Queued(level, from, solution, pq)
    && Found(level, from, end, cost)
    && LowerBounds(level, from, cost, solution)
    && Pushed(level, cost, pq, solution)
    && Started(from, cost, pq, solution)
    && Gathered(level, from, end, solution, path)
    && Complete(level, from, end, pq, path)
    && Monotone(cost, pq)
  }

  // ---------------------------------------------------------------------------------------
  // The frontier

  /** A route to an unvisited pose that no known solution rules out has an item queued that
      scores no more than the route. */
  lemma {:induction false} Frontier(level: seq<string>, from: Pose, cost: map<Pose, int>, pq: multiset<Item>,
                                    solution: Option<int>, walk: seq<Pose>)
    returns (i: Item)
    requires LowerBounds(level, from, cost, solution) && Pushed(level, cost, pq, solution) && Started(from, cost, pq, solution)
    requires Route(level, walk) && walk[0] == from && walk[|walk| - 1] !in cost && Below(solution, Score(walk))
    ensures i in pq && i.score <= Score(walk)
    decreases |walk|
  {
    var n := |walk| - 1;
    if n == 0 {
      assert (from, 0) in Keys(pq);
      i :| i in pq && (PoseOf(i), i.score) == (from, 0);
    } else if walk[n - 1] in cost {
      i := FrontierEdge(level, from, cost, pq, solution, walk);
    } else {
      LeadsPrefix(level, from, walk, walk[n], Score(walk), n);
      i := Frontier(level, from, cost, pq, solution, walk[..n]);
    }
  }

  /** The last move of a route leaves a visited pose for an unvisited one: the item the move
      pushed is still queued. */
  lemma FrontierEdge(level: seq<string>, from: Pose, cost: map<Pose, int>, pq: multiset<Item>,
                     solution: Option<int>, walk: seq<Pose>)
    returns (i: Item)
    requires LowerBounds(level, from, cost, solution) && Pushed(level, cost, pq, solution)
    requires Route(level, walk) && walk[0] == from && |walk| >= 2 && Below(solution, Score(walk))
    requires walk[|walk| - 2] in cost && walk[|walk| - 1] !in cost
    ensures i in pq && i.score <= Score(walk)
  {
    var n := |walk| - 1;
    var u, v := walk[n - 1], walk[n];
    LeadsPrefix(level, from, walk, v, Score(walk), n);
    assert walk[..n + 1] == walk;
    assert Reach(level, from, u, Score(walk[..n]));
    assert MoveAt(level, walk, n - 1);
    assert Handled(cost, pq, solution, u, v);
    i :| i in pq && (PoseOf(i), i.score) == (v, cost[u] + MoveScore(u, v));
  }

  /** No known solution and an empty queue: the end cell is out of reach. */
  lemma Exhausted(level: seq<string>, from: Pose, end: Point, cost: map<Pose, int>, solution: Option<int>, path: set<Point>)
    requires Searching(level, from, end, cost, multiset{}, solution, path)
    ensures Solved(level, from, end, solution, path)
  {
    if solution.None? {
      forall walk | Finishes(level, from, end, walk)
        ensures false
      {
        var i := Frontier(level, from, cost, multiset{}, solution, walk);
      }
    } else {
      forall p | OnRoute(level, from, end, solution.value, p)
        ensures p in path
      {
        var walk :| Finishes(level, from, end, walk) && Score(walk) == solution.value && p in Cells(walk);
        assert Best(level, from, end, walk);
        assert Covered(walk, multiset{}, path);
      }
    }
  }

  // ---------------------------------------------------------------------------------------
  // add_solution

  /** The solution after add_solution: the first end item's score. */
  function SolutionAfter(solution: Option<int>, item: Item): Option<int>
  {
    if solution.None? then Some(item.score) else solution
  }

  /** The cells after add_solution: the item's cells join when it sets or equals the solution. */
  function PathAfter(solution: Option<int>, path: set<Point>, item: Item): set<Point>
  {
    if solution.None? || solution == Some(item.score) then path + item.path else path
  }

  // ---------------------------------------------------------------------------------------
  // queue_item and the moves of a popped item

  /** queue_item: an item is dropped when it scores above a known solution or its pose was
      visited. */
  function Kept(solution: Option<int>, visited: set<Pose>, item: Item): multiset<Item>
  {
    if (solution.Some? && item.score > solution.value) || PoseOf(item) in visited then multiset{} else multiset{item}
  }

  /** The item one step forward. */
  function ForwardItem(item: Item): Item
    requires 0 <= item.dir < 4
  {
    var target := Ahead(PoseOf(item));
    Item(item.score + StepScore, target, item.dir, item.path + {target})
  }

  /** The item after a quarter turn. */
  function TurnItem(item: Item, k: int): Item
  {
    Item(item.score + TurnScore, item.pos, (item.dir + k) % 4, item.path)
  }

  /** The items a popped item queues: forward unless a wall is ahead, then both turns. */
  function Expansion(level: seq<string>, solution: Option<int>, visited: set<Pose>, item: Item): multiset<Item>
    requires 0 <= item.dir < 4
  {
    (if Open(level, Ahead(PoseOf(item))) then Kept(solution, visited, ForwardItem(item)) else multiset{})
    + Kept(solution, visited, TurnItem(item, 1)) + Kept(solution, visited, TurnItem(item, -1))
  }

  // ---------------------------------------------------------------------------------------
  // Termination

  /** Every pose on the level. */
  function Universe(width: int, height: int): set<Pose>
  {
    set x, y, d | 0 <= x < width && 0 <= y < height && 0 <= d < 4 :: Pose(Point(x, y), d)
  }

  /** What an item still costs the loop: an end item is popped once, an item of a visited
      pose is popped and queues at most an end item, an item of an unvisited pose is paid for
      by the poses left to visit. */
  function Weight(end: Point, visited: set<Pose>, item: Item): nat
  {
    if item.pos == end then 1 else if PoseOf(item) in visited then 2 else 0
  }

  ghost function Pick(pq: multiset<Item>): Item
    requires pq != multiset{}
  {
    var i :| i in pq; i
  }

  /** The weights of the queue added up. */
  ghost function Weigh(pq: multiset<Item>, end: Point, visited: set<Pose>): nat
    decreases |pq|
  {
    if pq == multiset{} then 0 else
      var i := Pick(pq);
      Weight(end, visited, i) + Weigh(pq - multiset{i}, end, visited)
  }

  lemma {:induction false} WeighRemove(pq: multiset<Item>, end: Point, visited: set<Pose>, item: Item)
    requires item in pq
    ensures Weigh(pq, end, visited) == Weight(end, visited, item) + Weigh(pq - multiset{item}, end, visited)
    decreases |pq|
  {
    var i := Pick(pq);
    if i != item {
      WeighRemove(pq - multiset{i}, end, visited, item);
      WeighRemove(pq - multiset{item}, end, visited, i);
      assert pq - multiset{i} - multiset{item} == pq - multiset{item} - multiset{i};
    }
  }

  lemma WeighAdd(pq: multiset<Item>, end: Point, visited: set<Pose>, item: Item)
    ensures Weigh(pq + multiset{item}, end, visited) == Weigh(pq, end, visited) + Weight(end, visited, item)
  {
    WeighRemove(pq + multiset{item}, end, visited, item);
    assert pq + multiset{item} - multiset{item} == pq;
  }

  /** queue_item adds the weight of the item it keeps. */
  lemma WeighKept(pq: multiset<Item>, end: Point, visited: set<Pose>, solution: Option<int>, seen: set<Pose>, item: Item)
    ensures Weigh(pq + Kept(solution, seen, item), end, visited)
            == Weigh(pq, end, visited) + if Kept(solution, seen, item) == multiset{} then 0 else Weight(end, visited, item)
  {
    if Kept(solution, seen, item) == multiset{} {
      assert pq + Kept(solution, seen, item) == pq;
    } else {
      WeighAdd(pq, end, visited, item);
    }
  }

  /** One turn of solve's loop makes progress: a pose is newly visited, or the weight of the
      queue drops. */
  ghost predicate Progress(width: int, height: int, end: Point, visited: set<Pose>, pq: multiset<Item>, visited': set<Pose>, pq': multiset<Item>)
  {
    || (visited' <= Universe(width, height) && |Universe(width, height) - visited'| < |Universe(width, height) - visited|)
    || (visited' == visited && Weigh(pq', end, visited) < Weigh(pq, end, visited))
  }

  // ---------------------------------------------------------------------------------------
  // One turn of solve's loop

  /** The search starts with nothing visited and the start pose queued at 0. */
  lemma SolveStart(level: seq<string>, from: Pose, end: Point)
    requires Enclosed(level) && Open(level, from.pos) && 0 <= from.dir < 4
    ensures Searching(level, from, end, map[], multiset{Item(0, from.pos, from.dir, {from.pos})}, None, {})
  {
    var item := Item(0, from.pos, from.dir, {from.pos});
    assert Leads(level, from, [from], PoseOf(item), 0);
    assert Cells([from]) == {from.pos} by {
      assert [from][0].pos == from.pos;
    }
    assert (from, 0) in Keys(multiset{item});
    forall walk | Best(level, from, end, walk)
      ensures Covered(walk, multiset{item}, {})
    {
      RouteItemStart(walk, from);
    }
  }

  /** An end item found with no solution known scores the lowest: every route to the end cell
      has an item queued that scores no more. */
  lemma EndLowest(level: seq<string>, from: Pose, end: Point, cost: map<Pose, int>, pq: multiset<Item>, item: Item)
    requires Queued(level, from, None, pq) && Found(level, from, end, cost)
    requires LowerBounds(level, from, cost, None) && Pushed(level, cost, pq, None) && Started(from, cost, pq, None)
    requires item in pq && item.pos == end && forall o :: o in pq ==> item.score <= o.score
    ensures Lowest(level, from, end, item.score)
    ensures forall p :: p in item.path ==> OnRoute(level, from, end, item.score, p)
  {
    var walk :| Leads(level, from, walk, PoseOf(item), item.score) && Cells(walk) == item.path;
    assert Finishes(level, from, end, walk);
    forall other | Finishes(level, from, end, other)
      ensures item.score <= Score(other)
    {
      var i := Frontier(level, from, cost, pq, None, other);
    }
  }

  /** The cells of an end item that equals the known solution lie on a route with it. */
  lemma EndCells(level: seq<string>, from: Pose, end: Point, item: Item)
    requires Traced(level, from, item) && item.pos == end
    ensures forall p :: p in item.path ==> OnRoute(level, from, end, item.score, p)
  {
    var walk :| Leads(level, from, walk, PoseOf(item), item.score) && Cells(walk) == item.path;
    assert Finishes(level, from, end, walk);
  }

  /** Popping the item of a best route's prefix at the end cell gathers the route's cells:
      the prefix is the whole route, and its score is the solution. */
  lemma CompleteEnd(level: seq<string>, from: Pose, end: Point, pq: multiset<Item>, solution: Option<int>,
                    path: set<Point>, item: Item)
    requires Gathered(level, from, end, solution, path) && Complete(level, from, end, pq, path)
    requires item in pq && item.pos == end
    ensures Complete(level, from, end, pq - multiset{item}, PathAfter(solution, path, item))
  {
    var path' := PathAfter(solution, path, item);
    forall walk | Best(level, from, end, walk)
      ensures Covered(walk, pq - multiset{item}, path')
    {
      if !(Cells(walk) <= path) {
        var i :| 0 <= i < |walk| && RouteItem(walk, i) in pq;
        if RouteItem(walk, i) == item {
          BestEndsOnce(level, from, end, walk, i);
          assert walk[..i + 1] == walk;
          if solution.Some? {
            var w :| Finishes(level, from, end, w) && Score(w) == solution.value;
          }
          assert Cells(walk) <= path';
        } else {
          assert RouteItem(walk, i) in pq - multiset{item};
        }
      }
    }
  }

  /** The pose after a prefix of a best route cannot have been visited at a cost no more than
      the prefix scores, or splicing the rest of the route onto the route to it would beat the
      best. */
  lemma {:induction false} RouteUnvisited(level: seq<string>, from: Pose, end: Point, cost: map<Pose, int>,
                                          walk: seq<Pose>, i: nat)
    requires Found(level, from, end, cost) && Best(level, from, end, walk) && i < |walk| - 1
    requires forall v :: v in cost ==> cost[v] <= Score(walk[..i + 1])
    ensures walk[i + 1] !in cost
  {
    var next := walk[i + 1];
    RouteItemNext(level, walk, i);
    if next in cost {
      var w :| Leads(level, from, w, next, cost[next]);
      SpliceFinishes(level, from, end, walk, i + 1, w);
    }
  }

  /** Popping the item of a best route's prefix off the end cell queues the item of the next
      prefix: it scores no more than the best, and its pose is unvisited. */
  lemma {:induction false} RouteStep(level: seq<string>, from: Pose, end: Point, cost: map<Pose, int>,
                                     solution: Option<int>, walk: seq<Pose>, i: nat, item: Item)
    requires Enclosed(level) && Found(level, from, end, cost) && (solution.Some? ==> Lowest(level, from, end, solution.value))
    requires Best(level, from, end, walk) && i < |walk| && item == RouteItem(walk, i) && item.pos != end
    requires Open(level, item.pos) && 0 <= item.dir < 4
    requires forall v :: v in cost ==> cost[v] <= item.score
    ensures i + 1 < |walk| && RouteItem(walk, i + 1) in Expansion(level, solution, Visit(cost, item).Keys, item)
  {
    RouteUnvisited(level, from, end, cost, walk, i);
    RouteItemNext(level, walk, i);
    var x := RouteItem(walk, i + 1);
    RouteItemKept(level, from, end, solution, walk, i + 1);
    assert MoveAt(level, walk, i);
    AheadInside(level, PoseOf(item));
    assert PoseOf(x) !in Visit(cost, item).Keys;
    if walk[i + 1] == Turn(PoseOf(item), 1) {
      assert x == TurnItem(item, 1);
    } else if walk[i + 1] == Turn(PoseOf(item), -1) {
      assert x == TurnItem(item, -1);
    } else {
      assert x == ForwardItem(item);
    }
  }

  /** The item of a best route's prefix scores no more than a known solution. */
  lemma RouteItemKept(level: seq<string>, from: Pose, end: Point, solution: Option<int>, walk: seq<Pose>, i: nat)
    requires (solution.Some? ==> Lowest(level, from, end, solution.value)) && Best(level, from, end, walk) && i < |walk|
    ensures solution.Some? ==> RouteItem(walk, i).score <= solution.value
  {
    ScorePrefix(walk, i + 1);
    if solution.Some? {
      var w :| Finishes(level, from, end, w) && Score(w) == solution.value;
    }
  }

  /** Visiting a popped item keeps every best route covered. */
  lemma CompleteVisit(level: seq<string>, from: Pose, end: Point, cost: map<Pose, int>, pq: multiset<Item>,
                      solution: Option<int>, path: set<Point>, item: Item)
    requires Enclosed(level) && Queued(level, from, solution, pq) && Found(level, from, end, cost)
    requires Gathered(level, from, end, solution, path) && Complete(level, from, end, pq, path) && Monotone(cost, pq)
    requires item in pq && item.pos != end
    ensures Complete(level, from, end, pq - multiset{item} + Expansion(level, solution, Visit(cost, item).Keys, item), path)
  {
    var pq' := pq - multiset{item} + Expansion(level, solution, Visit(cost, item).Keys, item);
    forall walk | Best(level, from, end, walk)
      ensures Covered(walk, pq', path)
    {
      if !(Cells(walk) <= path) {
        var i :| 0 <= i < |walk| && RouteItem(walk, i) in pq;
        if RouteItem(walk, i) == item {
          RouteStep(level, from, end, cost, solution, walk, i, item);
          assert RouteItem(walk, i + 1) in pq';
        } else {
          assert RouteItem(walk, i) in pq';
        }
      }
    }
  }

  /** Every item a popped item queues scores more than it. */
  lemma ExpansionAbove(level: seq<string>, solution: Option<int>, visited: set<Pose>, item: Item)
    requires 0 <= item.dir < 4
    ensures forall o :: o in Expansion(level, solution, visited, item) ==> item.score < o.score
  {
  }

  /** Visiting the lowest-scoring item keeps the visited costs below the queue. */
  lemma MonotoneVisit(level: seq<string>, cost: map<Pose, int>, pq: multiset<Item>, solution: Option<int>, item: Item)
    requires Monotone(cost, pq) && item in pq && 0 <= item.dir < 4 && forall o :: o in pq ==> item.score <= o.score
    ensures Monotone(Visit(cost, item), pq - multiset{item} + Expansion(level, solution, Visit(cost, item).Keys, item))
  {
    var extra := Expansion(level, solution, Visit(cost, item).Keys, item);
    ExpansionAbove(level, solution, Visit(cost, item).Keys, item);
    assert forall o :: o in pq - multiset{item} + extra ==> o in pq || o in extra;
  }

  /** Popping an end item and calling add_solution keeps the invariant. */
  lemma EndPop(level: seq<string>, from: Pose, end: Point, cost: map<Pose, int>, pq: multiset<Item>,
               solution: Option<int>, path: set<Point>, item: Item)
    requires Searching(level, from, end, cost, pq, solution, path)
    requires item in pq && item.pos == end && forall o :: o in pq ==> item.score <= o.score
    ensures Searching(level, from, end, cost, pq - multiset{item}, SolutionAfter(solution, item), PathAfter(solution, path, item))
  {
    var rest := pq - multiset{item};
    var solution' := SolutionAfter(solution, item);
    assert solution'.Some? && solution'.value <= item.score;
    if solution.None? {
      EndLowest(level, from, end, cost, pq, item);
    } else if solution == Some(item.score) {
      EndCells(level, from, end, item);
    }
    forall u, v | u in cost && Move(level, u, v)
      ensures Handled(cost, rest, solution', u, v)
    {
      assert Handled(cost, pq, solution, u, v);
      EndHandles(cost, pq, solution, item, u, v);
    }
    EndStarted(from, cost, pq, solution, item);
    CompleteEnd(level, from, end, pq, solution, path, item);
  }

  /** A move handled before an end item is popped stays handled: the item's own score is now
      no better than the solution. */
  lemma EndHandles(cost: map<Pose, int>, pq: multiset<Item>, solution: Option<int>, item: Item, u: Pose, v: Pose)
    requires u in cost && Handled(cost, pq, solution, u, v) && item in pq
    requires solution.Some? ==> solution.value <= item.score
    ensures Handled(cost, pq - multiset{item}, SolutionAfter(solution, item), u, v)
  {
    var n := cost[u] + MoveScore(u, v);
    if v !in cost && (v, n) in Keys(pq) && (v, n) != (PoseOf(item), item.score) {
      var o :| o in pq && (PoseOf(o), o.score) == (v, n);
      assert o in pq - multiset{item};
    }
  }

  /** The start pose stays handled when an end item is popped. */
  lemma EndStarted(from: Pose, cost: map<Pose, int>, pq: multiset<Item>, solution: Option<int>, item: Item)
    requires Started(from, cost, pq, solution) && item in pq
    requires solution.Some? ==> solution.value <= item.score
    ensures Started(from, cost, pq - multiset{item}, SolutionAfter(solution, item))
  {
    if from !in cost && (from, 0) in Keys(pq) && (from, 0) != (PoseOf(item), item.score) {
      var o :| o in pq && (PoseOf(o), o.score) == (from, 0);
      assert o in pq - multiset{item};
    }
  }

  /** The ghost cost record after a non-end pop: the pose keeps its first score. */
  function Visit(cost: map<Pose, int>, item: Item): (r: map<Pose, int>)
    ensures r.Keys == cost.Keys + {PoseOf(item)}
  {
    if PoseOf(item) in cost then cost else cost[PoseOf(item) := item.score]
  }

  /** Visiting the popped pose: it is reached at its score, no route that a known solution
      does not rule out scores less, and the other poses keep theirs. */
  lemma VisitFound(level: seq<string>, from: Pose, end: Point, cost: map<Pose, int>, pq: multiset<Item>,
                   solution: Option<int>, item: Item)
    requires Queued(level, from, solution, pq) && Found(level, from, end, cost)
    requires LowerBounds(level, from, cost, solution) && Pushed(level, cost, pq, solution) && Started(from, cost, pq, solution)
    requires item in pq && item.pos != end && forall o :: o in pq ==> item.score <= o.score
    ensures Found(level, from, end, Visit(cost, item)) && LowerBounds(level, from, Visit(cost, item), solution)
  {
    var v := PoseOf(item);
    if v !in cost {
      var walk :| Leads(level, from, walk, v, item.score) && Cells(walk) == item.path;
      assert Reach(level, from, v, item.score);
      forall n | Reach(level, from, v, n) && Below(solution, n)
        ensures item.score <= n
      {
        var other :| Leads(level, from, other, v, n);
        var i := Frontier(level, from, cost, pq, solution, other);
      }
    }
  }

  /** A traced item moved by one move is traced, and its pose's cell is on its path. */
  lemma StepTraced(level: seq<string>, from: Pose, item: Item, next: Pose)
    requires Traced(level, from, item) && Move(level, PoseOf(item), next)
    ensures item.pos in item.path
    ensures Traced(level, from, Item(item.score + MoveScore(PoseOf(item), next), next.pos, next.dir, item.path + {next.pos}))
  {
    var walk: seq<Pose> :| Leads(level, from, walk, PoseOf(item), item.score) && Cells(walk) == item.path;
    assert walk[|walk| - 1].pos == item.pos;
    LeadsExtend(level, from, walk, PoseOf(item), item.score, next);
  }

  /** An item that is open, traced and no better than a known solution is queued if kept. */
  lemma KeptQueued(level: seq<string>, from: Pose, solution: Option<int>, visited: set<Pose>, item: Item)
    requires Open(level, item.pos) && 0 <= item.dir < 4 && Traced(level, from, item)
    requires solution.Some? ==> solution.value <= item.score
    ensures Queued(level, from, solution, Kept(solution, visited, item))
  {
  }

  /** Each item a popped item queues stands on an open cell, traces a route one move longer,
      and scores no less than a known solution. */
  lemma ExpansionQueued(level: seq<string>, from: Pose, solution: Option<int>, visited: set<Pose>, item: Item)
    requires Enclosed(level) && Open(level, item.pos) && 0 <= item.dir < 4 && Traced(level, from, item)
    requires solution.Some? ==> solution.value <= item.score
    ensures Queued(level, from, solution, Expansion(level, solution, visited, item))
  {
    var u := PoseOf(item);
    var ahead := Pose(Ahead(u), u.dir);
    var forward: multiset<Item> := multiset{};
    if Open(level, ahead.pos) {
      StepTraced(level, from, item, ahead);
      KeptQueued(level, from, solution, visited, ForwardItem(item));
      forward := Kept(solution, visited, ForwardItem(item));
    }
    StepTraced(level, from, item, Turn(u, 1));
    assert item.path + {item.pos} == item.path;
    KeptQueued(level, from, solution, visited, TurnItem(item, 1));
    StepTraced(level, from, item, Turn(u, -1));
    KeptQueued(level, from, solution, visited, TurnItem(item, -1));
    var left := Kept(solution, visited, TurnItem(item, 1));
    var right := Kept(solution, visited, TurnItem(item, -1));
    assert Expansion(level, solution, visited, item) == forward + left + right;
  }

  /** The moves of a newly visited pose are handled by what it queues. */
  lemma ExpansionHandles(level: seq<string>, cost: map<Pose, int>, pq: multiset<Item>, solution: Option<int>, item: Item, v: Pose)
    requires 0 <= item.dir < 4 && PoseOf(item) in cost && cost[PoseOf(item)] == item.score && Move(level, PoseOf(item), v)
    requires Expansion(level, solution, cost.Keys, item) <= pq
    ensures Handled(cost, pq, solution, PoseOf(item), v)
  {
    var u := PoseOf(item);
    var forward := if Open(level, Ahead(u)) then Kept(solution, cost.Keys, ForwardItem(item)) else multiset{};
    var left := Kept(solution, cost.Keys, TurnItem(item, 1));
    var right := Kept(solution, cost.Keys, TurnItem(item, -1));
    assert forward <= pq && left <= pq && right <= pq;
    if v == Turn(u, 1) {
      KeptHandles(cost, pq, solution, u, TurnItem(item, 1));
    } else if v == Turn(u, -1) {
      KeptHandles(cost, pq, solution, u, TurnItem(item, -1));
    } else {
      KeptHandles(cost, pq, solution, u, ForwardItem(item));
    }
  }

  /** A move whose item is queued if kept is handled. */
  lemma KeptHandles(cost: map<Pose, int>, pq: multiset<Item>, solution: Option<int>, u: Pose, x: Item)
    requires u in cost && Kept(solution, cost.Keys, x) <= pq && x.score == cost[u] + MoveScore(u, PoseOf(x))
    ensures Handled(cost, pq, solution, u, PoseOf(x))
  {
    if Kept(solution, cost.Keys, x) != multiset{} {
      assert x in pq;
      assert (PoseOf(x), x.score) in Keys(pq);
    }
  }

  /** A move handled before the pop stays handled after it. */
  lemma PopHandles(cost: map<Pose, int>, pq: multiset<Item>, solution: Option<int>, item: Item, extra: multiset<Item>, u: Pose, v: Pose)
    requires u in cost && Handled(cost, pq, solution, u, v) && item in pq
    ensures Handled(Visit(cost, item), pq - multiset{item} + extra, solution, u, v)
  {
    var n := cost[u] + MoveScore(u, v);
    if v !in cost && (v, n) in Keys(pq) && (v, n) != (PoseOf(item), item.score) {
      var o :| o in pq && (PoseOf(o), o.score) == (v, n);
      assert o in pq - multiset{item} + extra;
    }
  }

  /** Popping a pose off the end cell, visiting it and queuing its moves keeps the invariant. */
  lemma VisitPop(level: seq<string>, from: Pose, end: Point, cost: map<Pose, int>, pq: multiset<Item>,
                 solution: Option<int>, path: set<Point>, item: Item)
    requires Searching(level, from, end, cost, pq, solution, path)
    requires item in pq && item.pos != end && forall o :: o in pq ==> item.score <= o.score
    ensures var cost' := Visit(cost, item);
            Searching(level, from, end, cost', pq - multiset{item} + Expansion(level, solution, cost'.Keys, item), solution, path)
  {
    var cost' := Visit(cost, item);
    var rest := pq - multiset{item};
    var extra := Expansion(level, solution, cost'.Keys, item);
    var pq' := rest + extra;
    VisitFound(level, from, end, cost, pq, solution, item);
    ExpansionQueued(level, from, solution, cost'.Keys, item);
    assert forall o :: o in pq' ==> o in rest || o in extra;
    forall u, v | u in cost' && Move(level, u, v)
      ensures Handled(cost', pq', solution, u, v)
    {
      if u in cost {
        assert Handled(cost, pq, solution, u, v);
        PopHandles(cost, pq, solution, item, extra, u, v);
      } else {
        ExpansionHandles(level, cost', pq', solution, item, v);
      }
    }
    VisitStarted(from, cost, pq, solution, item, extra);
    CompleteVisit(level, from, end, cost, pq, solution, path, item);
    MonotoneVisit(level, cost, pq, solution, item);
  }

  /** The start pose stays handled when a pose is visited: it is the popped one, or its item
      is still queued. */
  lemma VisitStarted(from: Pose, cost: map<Pose, int>, pq: multiset<Item>, solution: Option<int>, item: Item, extra: multiset<Item>)
    requires Started(from, cost, pq, solution) && item in pq
    ensures Started(from, Visit(cost, item), pq - multiset{item} + extra, solution)
  {
    if from !in cost && (from, 0) in Keys(pq) && (from, 0) != (PoseOf(item), item.score) {
      var o :| o in pq && (PoseOf(o), o.score) == (from, 0);
      assert o in pq - multiset{item} + extra;
    }
  }

  /** Every open pose of an enclosed level is in the universe. */
  lemma InUniverse(level: seq<string>, p: Pose)
    requires Enclosed(level) && Open(level, p.pos) && 0 <= p.dir < 4
    ensures p in Universe(|level[0]|, |level|)
  {
  }

  /** Visiting a pose of the universe not visited before leaves fewer poses to visit. */
  lemma NewProgress(universe: set<Pose>, visited: set<Pose>, u: Pose)
    requires visited <= universe && u in universe && u !in visited
    ensures |universe - (visited + {u})| < |universe - visited|
  {
    assert universe - (visited + {u}) == (universe - visited) - {u};
  }

  /** Queuing an item off the end cell whose pose is not visited adds no weight. */
  lemma WeighTurn(pq: multiset<Item>, end: Point, visited: set<Pose>, solution: Option<int>, item: Item)
    requires item.pos != end
    ensures Weigh(pq + Kept(solution, visited, item), end, visited) == Weigh(pq, end, visited)
  {
    WeighKept(pq, end, visited, solution, visited, item);
  }

  /** Queuing an item whose pose is not visited adds a weight of at most 1. */
  lemma WeighForward(pq: multiset<Item>, end: Point, visited: set<Pose>, solution: Option<int>, item: Item)
    ensures Weigh(pq + Kept(solution, visited, item), end, visited) <= Weigh(pq, end, visited) + 1
  {
    WeighKept(pq, end, visited, solution, visited, item);
  }

  /** Popping an item of a visited pose off the end cell drops its weight of 2 and queues at
      most the forward item, of weight at most 1 as its pose is not visited. */
  lemma StaleProgress(level: seq<string>, end: Point, visited: set<Pose>, pq: multiset<Item>, solution: Option<int>, item: Item)
    requires item in pq && item.pos != end && PoseOf(item) in visited && 0 <= item.dir < 4
    ensures Weigh(pq - multiset{item} + Expansion(level, solution, visited, item), end, visited) < Weigh(pq, end, visited)
  {
    var rest := pq - multiset{item};
    WeighRemove(pq, end, visited, item);
    var forward := if Open(level, Ahead(PoseOf(item))) then Kept(solution, visited, ForwardItem(item)) else multiset{};
    if Open(level, Ahead(PoseOf(item))) {
      WeighForward(rest, end, visited, solution, ForwardItem(item));
    } else {
      assert rest + forward == rest;
    }
    var left := TurnItem(item, 1);
    var right := TurnItem(item, -1);
    WeighTurn(rest + forward, end, visited, solution, left);
    WeighTurn(rest + forward + Kept(solution, visited, left), end, visited, solution, right);
    assert rest + forward + Kept(solution, visited, left) + Kept(solution, visited, right)
        == rest + Expansion(level, solution, visited, item);
  }

  /** The visited poses all lie in the universe. */
  lemma FoundInUniverse(level: seq<string>, from: Pose, end: Point, cost: map<Pose, int>)
    requires Enclosed(level) && Found(level, from, end, cost)
    ensures cost.Keys <= Universe(|level[0]|, |level|)
  {
    forall v | v in cost
      ensures v in Universe(|level[0]|, |level|)
    {
      InUniverse(level, v);
    }
  }

  /** Popping an end item drops the weight of the queue by its weight of 1. */
  lemma EndProgress(width: int, height: int, end: Point, visited: set<Pose>, pq: multiset<Item>, item: Item)
    requires item in pq && item.pos == end
    ensures Progress(width, height, end, visited, pq, visited, pq - multiset{item})
  {
    WeighRemove(pq, end, visited, item);
  }

  /** A non-end pop visits a pose of the universe not visited before, or pops a visited
      pose's item. */
  lemma VisitProgress(level: seq<string>, from: Pose, end: Point, cost: map<Pose, int>, pq: multiset<Item>,
                      solution: Option<int>, item: Item)
    requires Enclosed(level) && Found(level, from, end, cost)
    requires item in pq && item.pos != end && Open(level, item.pos) && 0 <= item.dir < 4
    ensures var cost' := Visit(cost, item);
            Progress(|level[0]|, |level|, end, cost.Keys, pq, cost'.Keys, pq - multiset{item} + Expansion(level, solution, cost'.Keys, item))
  {
    var universe := Universe(|level[0]|, |level|);
    FoundInUniverse(level, from, end, cost);
    if PoseOf(item) in cost {
      StaleProgress(level, end, cost.Keys, pq, solution, item);
    } else {
      InUniverse(level, PoseOf(item));
      NewProgress(universe, cost.Keys, PoseOf(item));
      assert Visit(cost, item).Keys == cost.Keys + {PoseOf(item)};
    }
  }

  // ---------------------------------------------------------------------------------------
  // The solver

  /** A maze: the level, the start and end cells and the facing at the start, and what solve
      gathers: the lowest score and the cells of the routes that score it. */
  class Maze {
    const level: seq<string>
    const start: Point
    const end: Point
    const direction: int
    var solution: Option<int>
    var path: set<Point>

    constructor(level: seq<string>, start: Point, end: Point)
      ensures this.level == level && this.start == start && this.end == end && direction == 1
      ensures solution == None && path == {}
    {
      this.level := level;
      this.start := start;
      this.end := end;
      direction := 1;
      solution := None;
      path := {};
    }

    /** The pose the reindeer starts in. */
    function From(): Pose
    {
      Pose(start, direction)
    }

    /** add_solution: the first end item sets the solution; it and every later end item of the
        same score add their cells. */
    method AddSolution(item: Item)
      modifies this
      ensures solution == SolutionAfter(old(solution), item) && path == PathAfter(old(solution), old(path), item)
    {
      if solution.None? {
        solution := Some(item.score);
        path := path + item.path;
      } else if solution == Some(item.score) {
        path := path + item.path;
      }
    }

    /** queue_item: push the item unless it scores above the solution or its pose was visited. */
    method QueueItem(pq: multiset<Item>, visited: set<Pose>, item: Item) returns (pq': multiset<Item>)
      ensures pq' == pq + Kept(solution, visited, item)
      ensures item in pq' <==> item in pq || (!(solution.Some? && item.score > solution.value) && PoseOf(item) !in visited)
    {
      if solution.Some? && item.score > solution.value {
        return pq;
      }
      if PoseOf(item) in visited {
        return pq;
      }
      pq' := pq + multiset{item};
    }

    /** The body of solve's loop after a pose is visited: forward unless a wall is ahead, then
        both quarter turns. */
    method Expand(item: Item, pq: multiset<Item>, visited: set<Pose>) returns (pq': multiset<Item>)
      requires Enclosed(level) && Open(level, item.pos) && 0 <= item.dir < 4
      ensures pq' == pq + Expansion(level, solution, visited, item)
    {
      var target := Add(item.pos, Directions[item.dir]);
      AheadInside(level, PoseOf(item));
      var forward := pq;
      if level[target.y][target.x] != Wall {
        forward := QueueItem(pq, visited, ForwardItem(item));
      }
      var left := QueueItem(forward, visited, TurnItem(item, 1));
      pq' := QueueItem(left, visited, TurnItem(item, -1));
      ghost var ahead := if Open(level, target) then Kept(solution, visited, ForwardItem(item)) else multiset{};
      ghost var l := Kept(solution, visited, TurnItem(item, 1));
      ghost var r := Kept(solution, visited, TurnItem(item, -1));
      assert forward == pq + ahead;
      assert ahead + l + r == Expansion(level, solution, visited, item);
      MultisetAssociative(pq, ahead, l);
      MultisetAssociative(pq, ahead + l, r);
    }

    /** One turn of solve's loop: pop the lowest-scoring item; an end item goes to add_solution,
        any other visits its pose and queues its moves. */
    method Advance(pq: multiset<Item>, visited: set<Pose>, ghost cost: map<Pose, int>)
      returns (pq': multiset<Item>, visited': set<Pose>, ghost cost': map<Pose, int>)
      modifies this
      requires Searching(level, From(), end, cost, pq, solution, path) && visited == cost.Keys && pq != multiset{}
      ensures Searching(level, From(), end, cost', pq', solution, path) && visited' == cost'.Keys
      ensures Progress(|level[0]|, |level|, end, visited, pq, visited', pq')
    {
      var item, rest := Pop(pq, ScoreOf);
      if item.pos == end {
        EndPop(level, From(), end, cost, pq, solution, path, item);
        EndProgress(|level[0]|, |level|, end, visited, pq, item);
        AddSolution(item);
        pq', visited', cost' := rest, visited, cost;
      } else {
        visited' := visited + {PoseOf(item)};
        cost' := Visit(cost, item);
        VisitPop(level, From(), end, cost, pq, solution, path, item);
        VisitProgress(level, From(), end, cost, pq, solution, item);
        pq' := Expand(item, rest, visited');
      }
    }

    /** solve: a lowest-score-first search over poses that stops when the queue runs dry,
        leaving the lowest score to the end cell and the cells of the routes that score it. */
    method Solve()
      modifies this
      requires Enclosed(level) && Open(level, start) && direction == 1 && solution == None && path == {}
      ensures Solved(level, From(), end, solution, path)
    {
      var pq := multiset{Item(0, start, direction, {start})};
      var visited: set<Pose> := {};
      ghost var cost: map<Pose, int> := map[];
      SolveStart(level, From(), end);
      while pq != multiset{}
        invariant Searching(level, From(), end, cost, pq, solution, path) && visited == cost.Keys
        decreases |Universe(|level[0]|, |level|) - visited|, Weigh(pq, end, visited)
      {
        pq, visited, cost := Advance(pq, visited, cost);
      }
      Exhausted(level, From(), end, cost, solution, path);
    }

    /** part1: the lowest score, if any route reaches the end cell. */
    function Part1(): (r: Option<int>)
      reads this
      requires Solved(level, From(), end, solution, path)
      ensures r.Some? ==> Lowest(level, From(), end, r.value)
      ensures r.None? ==> Unreachable(level, From(), end)
    {
      solution
    }

    /** part2: how many cells lie on lowest-scoring routes, if any route reaches the end cell. */
    function Part2(): (r: Option<int>)
      reads this
      requires Solved(level, From(), end, solution, path)
      ensures r.Some? ==> solution.Some? && r.value == |path| && forall p :: p in path <==> OnRoute(level, From(), end, solution.value, p)
      ensures r.None? ==> Unreachable(level, From(), end)
    {
      if solution.Some? then Some(|path|) else None
    }
  }

  /** parse: the first 'S' and the first 'E' of the lines, scanning rows in order; no maze when
      either is missing. */
  method Parse(lines: seq<string>) returns (r: Option<Maze>)
    ensures r.Some? <==> Locate(lines, StartMark).Some? && Locate(lines, EndMark).Some?
    ensures r.Some? ==> && fresh(r.value) && r.value.level == lines && r.value.direction == 1
                        && r.value.start == Locate(lines, StartMark).value && r.value.end == Locate(lines, EndMark).value
                        && r.value.solution == None && r.value.path == {}
  {
    var start: Option<Point> := None;
    var end: Option<Point> := None;
    for y := 0 to |lines|
      invariant start == Locate(lines[..y], StartMark) && end == Locate(lines[..y], EndMark)
    {
      assert lines[..y + 1][..y] == lines[..y];
      if start.None? {
        var idx := IndexOf(lines[y], StartMark);
        if idx.Some? {
          start := Some(Point(idx.value, y));
        }
      }
      if end.None? {
        var idx := IndexOf(lines[y], EndMark);
        if idx.Some? {
          end := Some(Point(idx.value, y));
        }
      }
    }
    assert lines[..|lines|] == lines;
    if start.Some? && end.Some? {
      var maze := new Maze(lines, start.value, end.value);
      return Some(maze);
    }
    return None;
  }
}
