/** Day 18: bytes fall one by one into a memory grid and corrupt their cell; part 1 is the length
    of the shortest path from the top-left to the bottom-right corner after a number of bytes,
    part 2 the first byte after which no path is left. */
module Day18 {
  import opened Common
  import opened Geometry
  import opened Search

  const Clear: char := '.'
  const Corrupted: char := '#'

  /** Up, right, down, left. */
  const Directions: seq<Point> := [Point(0, -1), Point(1, 0), Point(0, 1), Point(-1, 0)]

  /** PqItem: its order is the reverse of the cost, so the heap pops the cheapest item. */
  datatype Item = Item(cost: int, point: Point)

  function CostOf(item: Item): int
  {
    item.cost
  }

  // ---------------------------------------------------------------------------------------
  // parse

  /** `.map(|s| s.parse::<i64>()).flatten()`: the pieces that parse, in order; the others are
      dropped silently. */
  function Numbers(parts: seq<string>): (r: seq<int>)
    ensures |r| <= |parts|
  {
    if parts == [] then []
    else
      Numbers(parts[..|parts| - 1]) +
      match ParseIn(parts[|parts| - 1], I64Min, I64Max)
      case Some(v) => [v]
      case None => []
  }

  /** One line of falling bytes: exactly two numbers among its comma-separated pieces, or None
      where parse panics. */
  function ParsePoint(line: string): Option<Point>
  {
    var v := Numbers(Split(line, ','));
    if |v| == 2 then Some(Point(v[0], v[1])) else None
  }

  /** The falling bytes, or None if a line does not hold two numbers. */
  function ParseFalling(lines: seq<string>): (r: Option<seq<Point>>)
    ensures r.Some? ==> |r.value| == |lines| && forall i :: 0 <= i < |lines| ==> ParsePoint(lines[i]) == Some(r.value[i])
    ensures r.None? ==> exists i :: 0 <= i < |lines| && ParsePoint(lines[i]).None?
  {
    if lines == [] then Some([])
    else match (ParseFalling(lines[..|lines| - 1]), ParsePoint(lines[|lines| - 1]))
      case (Some(front), Some(p)) => Some(front + [p])
      case _ => None
  }

  /** A coordinate pair written as "x,y" is read back. */
  lemma PointRoundTrip(p: Point)
    requires I64Min <= p.x <= I64Max && I64Min <= p.y <= I64Max
    ensures ParsePoint(IntToString(p.x) + "," + IntToString(p.y)) == Some(p)
  {
    var a, b := IntToString(p.x), IntToString(p.y);
    assert ',' !in a && ',' !in b;
    SplitPrefix(a, b, ',');
    JoinSplit([b], ',');
    assert Join([b], ',') == b;
    assert a + "," + b == a + [','] + b;
    var parts := Split(a + "," + b, ',');
    assert parts == [a, b];
    ParseIntToString(p.x);
    ParseIntToString(p.y);
    assert ParseIn(a, I64Min, I64Max) == Some(p.x);
    assert ParseIn(b, I64Min, I64Max) == Some(p.y);
    assert parts[..1] == [a] && parts[..1][..0] == [];
    assert Numbers(parts[..1]) == [p.x];
    assert Numbers(parts) == [p.x, p.y];
  }

  /** Pieces that are not numbers are skipped rather than rejected. */
  lemma FlattenSkips()
    ensures ParsePoint("3,x,4") == Some(Point(3, 4))
  {
    var parts := Split("3,x,4", ',');
    SampleSplit();
    SampleNumbers();
    assert Numbers(parts[..2]) == [3] by {
      assert parts[..2] == ["3", "x"] && parts[..2][..1] == ["3"] && parts[..2][..1][..0] == [];
    }
    assert Numbers(parts) == [3, 4];
  }

  lemma SampleSplit()
    ensures Split("3,x,4", ',') == ["3", "x", "4"]
  {
    SplitPrefix("3", "x,4", ',');
    SplitPrefix("x", "4", ',');
    JoinSplit(["4"], ',');
    assert Join(["4"], ',') == "4";
    assert "3,x,4" == "3" + [','] + "x,4";
    assert "x,4" == "x" + [','] + "4";
  }

  lemma SampleNumbers()
    ensures ParseIn("3", I64Min, I64Max) == Some(3) && ParseIn("4", I64Min, I64Max) == Some(4)
    ensures ParseIn("x", I64Min, I64Max) == None
  {
    assert DigitsValue("3") == 3 && DigitsValue("4") == 4;
    assert "x"[0] == 'x' && !IsDigit("x"[0]);
  }

  // ---------------------------------------------------------------------------------------
  // The level

  /** The level after the first `n` bytes fell: those cells corrupted, every other one clear. */
  function LevelAfter(bounds: Rect, falling: seq<Point>, n: nat): (level: seq<seq<char>>)
    requires n <= |falling| && GoodBounds(bounds)
    ensures Shaped(level, bounds)
    ensures forall y, x :: 0 <= y < bounds.height && 0 <= x < bounds.width ==>
              (level[y][x] == Corrupted <==> Point(x, y) in falling[..n])
  {
    seq(bounds.height, y => seq(bounds.width, x => if Point(x, y) in falling[..n] then Corrupted else Clear))
  }

  /** A cell one can step off: inside the level and not corrupted. */
  predicate Open(level: seq<seq<char>>, bounds: Rect, p: Point)
  {
    IsInside(bounds, p) && 0 <= p.y < |level| && 0 <= p.x < |level[p.y]| && level[p.y][p.x] != Corrupted
  }

  const Origin: Point := Point(0, 0)

  function Exit(bounds: Rect): Point
  {
    Point(bounds.width - 1, bounds.height - 1)
  }

  /** A walk from the origin: each step moves to a neighbouring cell and leaves an open one. */
  ghost predicate Walk(level: seq<seq<char>>, bounds: Rect, path: seq<Point>)
  {
    && |path| >= 1 && path[0] == Origin
    && forall i :: 0 <= i < |path| - 1 ==> Step(level, bounds, path, i)
  }

  /** Step `i` of a walk moves to a neighbouring cell and leaves an open one. */
  ghost predicate Step(level: seq<seq<char>>, bounds: Rect, path: seq<Point>, i: int)
    requires 0 <= i < |path| - 1
  {
    Open(level, bounds, path[i]) && Sub(path[i + 1], path[i]) in Directions
  }

  /** `p` is reached from the origin in exactly `n` steps. */
  ghost predicate Reach(level: seq<seq<char>>, bounds: Rect, p: Point, n: nat)
  {
    exists path :: Walk(level, bounds, path) && |path| == n + 1 && path[n] == p
  }

  lemma WalkPrefix(level: seq<seq<char>>, bounds: Rect, path: seq<Point>, k: nat)
    requires Walk(level, bounds, path) && 1 <= k <= |path|
    ensures Walk(level, bounds, path[..k])
  {
    forall i | 0 <= i < k - 1
      ensures Step(level, bounds, path[..k], i)
    {
      assert Step(level, bounds, path, i);
    }
  }

  /** No step is shorter than one unit of Manhattan distance. */
  lemma {:induction false} WalkDistance(level: seq<seq<char>>, bounds: Rect, path: seq<Point>)
    requires Walk(level, bounds, path)
    ensures Distance(path[|path| - 1], Origin) <= |path| - 1
    decreases |path|
  {
    var n := |path| - 1;
    if n > 0 {
      WalkPrefix(level, bounds, path, n);
      WalkDistance(level, bounds, path[..n]);
      assert Step(level, bounds, path, n - 1);
      assert Distance(path[n], path[n - 1]) == 1;
      DistanceTriangle(path[n], path[n - 1], Origin);
    }
  }

  /** A path of `n` steps ends at least `n` cells (Manhattan) from the origin. */
  lemma ReachDistance(level: seq<seq<char>>, bounds: Rect, p: Point, n: nat)
    requires Reach(level, bounds, p, n)
    ensures Distance(p, Origin) <= n
  {
    var path :| Walk(level, bounds, path) && |path| == n + 1 && path[n] == p;
    WalkDistance(level, bounds, path);
  }

  lemma ReachStep(level: seq<seq<char>>, bounds: Rect, p: Point, n: nat, d: Point)
    requires Open(level, bounds, p) && Reach(level, bounds, p, n) && d in Directions
    ensures Reach(level, bounds, Add(p, d), n + 1)
  {
    var path :| Walk(level, bounds, path) && |path| == n + 1 && path[n] == p;
    var path' := path + [Add(p, d)];
    assert Sub(Add(p, d), p) == d;
    forall i | 0 <= i < |path'| - 1
      ensures Step(level, bounds, path', i)
    {
      if i < n {
        assert Step(level, bounds, path, i);
      }
    }
    assert path'[n + 1] == Add(p, d);
  }

  /** Anything that reaches the exit makes the level non-empty, so the exit is inside it. */
  lemma ReachInside(level: seq<seq<char>>, bounds: Rect, n: nat)
    requires GoodBounds(bounds) && Reach(level, bounds, Exit(bounds), n)
    ensures IsInside(bounds, Exit(bounds))
  {
    var path :| Walk(level, bounds, path) && |path| == n + 1 && path[n] == Exit(bounds);
    if n > 0 {
      assert Step(level, bounds, path, 0);
    }
  }

  // ---------------------------------------------------------------------------------------
  // solve

  /** A cell the search has reached: its cost is below `i64::MAX`. */
  predicate Settled(costs: seq<seq<int>>, bounds: Rect, p: Point)
  {
    IsInside(bounds, p) && 0 <= p.y < |costs| && 0 <= p.x < |costs[p.y]| && costs[p.y][p.x] < I64Max
  }

  function Cost(costs: seq<seq<int>>, bounds: Rect, p: Point): int
    requires Settled(costs, bounds, p)
  {
    costs[p.y][p.x]
  }

  /** Every queued item describes a real path, and no cost exceeds the number of reached
      cells. */
  ghost predicate Queued(level: seq<seq<char>>, bounds: Rect, costs: seq<seq<int>>, pq: multiset<Item>)
  {
    forall i :: i in pq ==> 0 <= i.cost <= CountBelow(costs, I64Max) && Reach(level, bounds, i.point, i.cost)
  }

  /** A reached cell's cost is no more than any path to it. */
  ghost predicate LowerBounds(level: seq<seq<char>>, bounds: Rect, costs: seq<seq<int>>)
  {
    forall p, n: nat :: Settled(costs, bounds, p) && Reach(level, bounds, p, n) ==> Cost(costs, bounds, p) <= n
  }

  /** Every reached open cell has pushed its neighbours, and each of those items is still
      queued unless its cell is outside or reached. */
  ghost predicate Pushed(level: seq<seq<char>>, bounds: Rect, costs: seq<seq<int>>, pq: multiset<Item>)
  {
    forall p, d {:trigger Handled(bounds, costs, pq, p, d)} ::
      Settled(costs, bounds, p) && Open(level, bounds, p) && d in Directions ==> Handled(bounds, costs, pq, p, d)
  }

  /** The item a reached cell `p` pushed towards `d` is queued, or its cell is outside or
      reached. */
  predicate Handled(bounds: Rect, costs: seq<seq<int>>, pq: multiset<Item>, p: Point, d: Point)
    requires Settled(costs, bounds, p)
  {
    var q := Add(p, d);
    Item(Cost(costs, bounds, p) + 1, q) in pq || !IsInside(bounds, q) || Settled(costs, bounds, q)
  }

  /** The invariant of the search loop. */
  ghost predicate Searching(level: seq<seq<char>>, bounds: Rect, costs: seq<seq<int>>, pq: multiset<Item>)
  {
    && GoodBounds(bounds) && Shaped(level, bounds) && Shaped(costs, bounds)
    && (forall y, x :: 0 <= y < |costs| && 0 <= x < |costs[y]| ==> costs[y][x] >= 0)
    && Queued(level, bounds, costs, pq)
    && LowerBounds(level, bounds, costs)
    && Pushed(level, bounds, costs, pq)
    && (IsInside(bounds, Origin) && !Settled(costs, bounds, Origin) ==> Item(0, Origin) in pq)
    && !Settled(costs, bounds, Exit(bounds))
  }

  /** An unreached cell inside the level at the end of a walk has an item queued that costs
      no more than the walk's length: the queue is the search frontier. */
  lemma {:induction false} Frontier(level: seq<seq<char>>, bounds: Rect, costs: seq<seq<int>>, pq: multiset<Item>, path: seq<Point>)
    requires Searching(level, bounds, costs, pq) && Walk(level, bounds, path)
    requires IsInside(bounds, path[|path| - 1]) && !Settled(costs, bounds, path[|path| - 1])
    ensures exists i :: i in pq && i.cost <= |path| - 1
    decreases |path|
  {
    var n := |path| - 1;
    if n == 0 {
      assert Item(0, Origin) in pq;
    } else {
      var prefix := path[..n];
      WalkPrefix(level, bounds, path, n);
      var q := path[n - 1];
      var d := Sub(path[n], q);
      assert Step(level, bounds, path, n - 1);
      if Settled(costs, bounds, q) {
        assert Reach(level, bounds, q, n - 1) by {
          assert prefix[n - 1] == q;
        }
        assert Add(q, d) == path[n];
        assert Handled(bounds, costs, pq, q, d);
        assert Item(Cost(costs, bounds, q) + 1, path[n]) in pq;
      } else {
        Frontier(level, bounds, costs, pq, prefix);
      }
    }
  }

  /** Every path of `n` steps to an unreached cell inside the level has an item of cost at most
      `n` queued. */
  lemma FrontierReach(level: seq<seq<char>>, bounds: Rect, costs: seq<seq<int>>, pq: multiset<Item>, p: Point, n: nat)
    requires Searching(level, bounds, costs, pq) && Reach(level, bounds, p, n)
    requires IsInside(bounds, p) && !Settled(costs, bounds, p)
    ensures exists i :: i in pq && i.cost <= n
  {
    var path :| Walk(level, bounds, path) && |path| == n + 1 && path[n] == p;
    Frontier(level, bounds, costs, pq, path);
  }

  /** The first pop of the exit carries the length of a shortest path. */
  lemma FoundExit(level: seq<seq<char>>, bounds: Rect, costs: seq<seq<int>>, pq: multiset<Item>, item: Item)
    requires Searching(level, bounds, costs, pq) && item in pq && forall o :: o in pq ==> item.cost <= o.cost
    requires item.point == Exit(bounds) && IsInside(bounds, item.point)
    ensures item.cost >= 0 && Reach(level, bounds, Exit(bounds), item.cost)
    ensures forall n: nat :: Reach(level, bounds, Exit(bounds), n) ==> item.cost <= n
  {
    forall n: nat | Reach(level, bounds, Exit(bounds), n)
      ensures item.cost <= n
    {
      FrontierReach(level, bounds, costs, pq, Exit(bounds), n);
    }
  }

  /** An empty queue means the exit cannot be reached. */
  lemma Exhausted(level: seq<seq<char>>, bounds: Rect, costs: seq<seq<int>>)
    requires Searching(level, bounds, costs, multiset{})
    ensures forall n: nat :: !Reach(level, bounds, Exit(bounds), n)
  {
    forall n: nat
      ensures !Reach(level, bounds, Exit(bounds), n)
    {
      if IsInside(bounds, Exit(bounds)) {
        if Reach(level, bounds, Exit(bounds), n) {
          FrontierReach(level, bounds, costs, multiset{}, Exit(bounds), n);
        }
      } else if Reach(level, bounds, Exit(bounds), n) {
        ReachInside(level, bounds, n);
      }
    }
  }

  /** Dropping an item whose cell is outside the level keeps the invariant. */
  lemma SkipOutside(level: seq<seq<char>>, bounds: Rect, costs: seq<seq<int>>, pq: multiset<Item>, item: Item)
    requires Searching(level, bounds, costs, pq) && item in pq && !IsInside(bounds, item.point)
    ensures Searching(level, bounds, costs, pq - multiset{item})
  {
    var rest := pq - multiset{item};
    assert forall i :: i in pq ==> i in rest || i == item;
    forall p, d | Settled(costs, bounds, p) && Open(level, bounds, p) && d in Directions
      ensures Handled(bounds, costs, rest, p, d)
    {
      assert Handled(bounds, costs, pq, p, d);
    }
  }

  /** Dropping an item that does not improve its cell keeps the invariant. */
  lemma SkipStale(level: seq<seq<char>>, bounds: Rect, costs: seq<seq<int>>, pq: multiset<Item>, item: Item)
    requires Searching(level, bounds, costs, pq) && item in pq && IsInside(bounds, item.point)
    requires item.cost >= costs[item.point.y][item.point.x]
    ensures Searching(level, bounds, costs, pq - multiset{item})
  {
    var rest := pq - multiset{item};
    assert forall i :: i in pq ==> i in rest || i == item;
    CountBelowBound(costs, bounds.width, I64Max);
    assert Settled(costs, bounds, item.point);
    forall p, d | Settled(costs, bounds, p) && Open(level, bounds, p) && d in Directions
      ensures Handled(bounds, costs, rest, p, d)
    {
      assert Handled(bounds, costs, pq, p, d);
    }
  }

  /** The popped item improves its cell, which is inside the level and not the exit. */
  ghost predicate Improves(level: seq<seq<char>>, bounds: Rect, costs: seq<seq<int>>, pq: multiset<Item>, item: Item)
  {
    && Searching(level, bounds, costs, pq) && item in pq && (forall o :: o in pq ==> item.cost <= o.cost)
    && IsInside(bounds, item.point) && item.point != Exit(bounds)
    && item.cost < costs[item.point.y][item.point.x]
  }

  /** `costs[p.y][p.x] = item.cost`. */
  function Record(costs: seq<seq<int>>, item: Item): seq<seq<int>>
    requires 0 <= item.point.y < |costs| && 0 <= item.point.x < |costs[item.point.y]|
  {
    costs[item.point.y := costs[item.point.y][item.point.x := item.cost]]
  }

  /** What the pops pushes for its cell: the four neighbours when it is open, nothing when
      it is corrupted. */
  function Pushes(level: seq<seq<char>>, bounds: Rect, item: Item): multiset<Item>
  {
    if Open(level, bounds, item.point) then Neighbours(item, 4) else multiset{}
  }

  /** Recording the cell reaches it at its cost and changes no other cell. */
  lemma RecordCells(bounds: Rect, costs: seq<seq<int>>, item: Item)
    requires GoodBounds(bounds) && Shaped(costs, bounds) && IsInside(bounds, item.point) && item.cost < I64Max
    ensures var costs' := Record(costs, item);
            && Settled(costs', bounds, item.point) && Cost(costs', bounds, item.point) == item.cost
            && (forall q :: q != item.point ==> (Settled(costs', bounds, q) <==> Settled(costs, bounds, q)))
            && (forall q :: q != item.point && Settled(costs, bounds, q) ==> Cost(costs', bounds, q) == Cost(costs, bounds, q))
  {
  }

  /** Recording the cell reaches it at its cost and reaches no other cell; the popped item's
      cell was not reached before and no path to it is shorter. */
  lemma RecordSettles(level: seq<seq<char>>, bounds: Rect, costs: seq<seq<int>>, pq: multiset<Item>, item: Item)
    requires Improves(level, bounds, costs, pq, item)
    ensures var costs' := Record(costs, item);
            && !Settled(costs, bounds, item.point)
            && Settled(costs', bounds, item.point) && Cost(costs', bounds, item.point) == item.cost
            && (forall q :: q != item.point ==> (Settled(costs', bounds, q) <==> Settled(costs, bounds, q)))
            && (forall q :: Settled(costs, bounds, q) ==> Cost(costs', bounds, q) == Cost(costs, bounds, q))
            && CountBelow(costs', I64Max) == CountBelow(costs, I64Max) + 1
            && item.cost <= CountBelow(costs, I64Max)
            && forall n: nat :: Reach(level, bounds, item.point, n) ==> item.cost <= n
  {
    var p := item.point;
    CountBelowBound(costs, bounds.width, I64Max);
    assert !Settled(costs, bounds, p);
    CountBelowUpdate(costs, p.y, p.x, item.cost, I64Max);
    forall n: nat | Reach(level, bounds, p, n)
      ensures item.cost <= n
    {
      FrontierReach(level, bounds, costs, pq, p, n);
    }
  }

  /** The queue after the pop keeps describing real paths within the new count. */
  lemma SettleQueued(level: seq<seq<char>>, bounds: Rect, costs: seq<seq<int>>, pq: multiset<Item>, item: Item)
    requires Improves(level, bounds, costs, pq, item)
    ensures Queued(level, bounds, Record(costs, item), pq - multiset{item} + Pushes(level, bounds, item))
  {
    var costs' := Record(costs, item);
    var pushed := Pushes(level, bounds, item);
    RecordSettles(level, bounds, costs, pq, item);
    var count := CountBelow(costs', I64Max);
    assert Queued(level, bounds, costs, pq);
    assert 0 <= item.cost && item.cost + 1 <= count && Reach(level, bounds, item.point, item.cost);
    forall i | i in pq - multiset{item} + pushed
      ensures 0 <= i.cost <= count && Reach(level, bounds, i.point, i.cost)
    {
      if i in pushed {
        PushedReach(level, bounds, item, i);
      } else {
        assert i in pq;
      }
    }
  }

  /** An item pushed from a reached cell is one step further and reached at its cost. */
  lemma PushedReach(level: seq<seq<char>>, bounds: Rect, item: Item, i: Item)
    requires item.cost >= 0 && Reach(level, bounds, item.point, item.cost) && i in Pushes(level, bounds, item)
    ensures i.cost == item.cost + 1 && Reach(level, bounds, i.point, i.cost)
  {
    var k := NeighboursMember(item, 4, i);
    ReachStep(level, bounds, item.point, item.cost, Directions[k]);
  }

  /** Every reached cell keeps its lower bound, and the new one gets one. */
  lemma SettleLowerBounds(level: seq<seq<char>>, bounds: Rect, costs: seq<seq<int>>, pq: multiset<Item>, item: Item)
    requires Improves(level, bounds, costs, pq, item)
    ensures LowerBounds(level, bounds, Record(costs, item))
  {
    RecordSettles(level, bounds, costs, pq, item);
  }

  /** Every reached open cell's neighbours stay handled, the new cell's by its pushes. */
  lemma SettlePushed(level: seq<seq<char>>, bounds: Rect, costs: seq<seq<int>>, pq: multiset<Item>, item: Item)
    requires GoodBounds(bounds) && Shaped(costs, bounds) && Pushed(level, bounds, costs, pq) && item in pq
    requires IsInside(bounds, item.point) && !Settled(costs, bounds, item.point) && item.cost < I64Max
    ensures Pushed(level, bounds, Record(costs, item), pq - multiset{item} + Pushes(level, bounds, item))
  {
    var p := item.point;
    var costs' := Record(costs, item);
    var pq' := pq - multiset{item} + Pushes(level, bounds, item);
    RecordCells(bounds, costs, item);
    forall q, d | Settled(costs', bounds, q) && Open(level, bounds, q) && d in Directions
      ensures Handled(bounds, costs', pq', q, d)
    {
      if q == p {
        var k :| 0 <= k < 4 && Directions[k] == d;
        NeighboursHold(item, 4, k);
        assert Pushes(level, bounds, item) == Neighbours(item, 4);
        assert Item(item.cost + 1, Add(p, d)) in pq';
        assert Cost(costs', bounds, p) == item.cost;
      } else {
        assert Handled(bounds, costs, pq, q, d);
        assert Cost(costs', bounds, q) == Cost(costs, bounds, q);
        var r := Add(q, d);
        var o := Item(Cost(costs, bounds, q) + 1, r);
        if o in pq {
          if o == item {
            assert Settled(costs', bounds, r);
          } else {
            assert o in pq';
          }
        } else if IsInside(bounds, r) {
          assert Settled(costs, bounds, r);
          assert Settled(costs', bounds, r);
        }
      }
    }
  }

  /** Reaching the popped item's cell at its cost, and pushing its neighbours when it is open,
      keeps the invariant. */
  lemma Settle(level: seq<seq<char>>, bounds: Rect, costs: seq<seq<int>>, pq: multiset<Item>, item: Item)
    requires Improves(level, bounds, costs, pq, item)
    ensures Searching(level, bounds, Record(costs, item), pq - multiset{item} + Pushes(level, bounds, item))
  {
    var costs' := Record(costs, item);
    var pq' := pq - multiset{item} + Pushes(level, bounds, item);
    RecordSettles(level, bounds, costs, pq, item);
    SettleQueued(level, bounds, costs, pq, item);
    SettleLowerBounds(level, bounds, costs, pq, item);
    SettlePushed(level, bounds, costs, pq, item);
  }

  /** The items pushed for the first `k` directions. */
  function Neighbours(item: Item, k: nat): multiset<Item>
    requires k <= 4
  {
    if k == 0 then multiset{} else Neighbours(item, k - 1) + multiset{Item(item.cost + 1, Add(item.point, Directions[k - 1]))}
  }

  lemma {:induction false} NeighboursHold(item: Item, k: nat, j: nat)
    requires j < k <= 4
    ensures Item(item.cost + 1, Add(item.point, Directions[j])) in Neighbours(item, k)
  {
    if j < k - 1 {
      NeighboursHold(item, k - 1, j);
    }
  }

  lemma {:induction false} NeighboursMember(item: Item, k: nat, i: Item) returns (j: nat)
    requires k <= 4 && i in Neighbours(item, k)
    ensures j < k && i == Item(item.cost + 1, Add(item.point, Directions[j]))
  {
    if i == Item(item.cost + 1, Add(item.point, Directions[k - 1])) {
      j := k - 1;
    } else {
      j := NeighboursMember(item, k - 1, i);
    }
  }

  /** solve: the search from the origin over a min-queue of costs.  It returns the length of a
      shortest path to the exit, or None when the corrupted cells cut every path. */
  method SolveLevel(level: seq<seq<char>>, bounds: Rect) returns (r: Option<int>)
    requires GoodBounds(bounds) && Shaped(level, bounds)
    ensures r.Some? ==> r.value >= 0 && Reach(level, bounds, Exit(bounds), r.value)
    ensures r.Some? ==> forall n: nat :: Reach(level, bounds, Exit(bounds), n) ==> r.value <= n
    ensures r.None? ==> forall n: nat :: !Reach(level, bounds, Exit(bounds), n)
  {
    var costs := seq(bounds.height, y => seq(bounds.width, x => I64Max));
    var pq := multiset{Item(0, Origin)};
    SearchStart(level, bounds);
    while pq != multiset{}
      invariant Searching(level, bounds, costs, pq) && Total(costs) >= 0
      decreases Total(costs), |pq|
    {
      var found;
      costs, pq, found := PopItem(level, bounds, costs, pq);
      if found.Some? {
        return found;
      }
    }
    Exhausted(level, bounds, costs);
    return None;
  }

  /** One turn of solve's loop: pop the cheapest item and skip it (outside the level, or not
      improving its cell), return it (the exit), or record it and push its neighbours (when
      its cell is not corrupted). */
  method PopItem(level: seq<seq<char>>, bounds: Rect, costs: seq<seq<int>>, pq: multiset<Item>)
    returns (costs': seq<seq<int>>, pq': multiset<Item>, found: Option<int>)
    requires Searching(level, bounds, costs, pq) && Total(costs) >= 0 && pq != multiset{}
    ensures found.Some? ==> found.value >= 0 && Reach(level, bounds, Exit(bounds), found.value)
    ensures found.Some? ==> forall n: nat :: Reach(level, bounds, Exit(bounds), n) ==> found.value <= n
    ensures found.None? ==> Searching(level, bounds, costs', pq') && Total(costs') >= 0
    ensures found.None? ==> Total(costs') < Total(costs) || (costs' == costs && |pq'| < |pq|)
  {
    var item, rest := Pop(pq, CostOf);
    var p := item.point;
    costs', pq', found := costs, rest, None;
    if !IsInside(bounds, p) {
      SkipOutside(level, bounds, costs, pq, item);
      return;
    }
    if p == Exit(bounds) {
      FoundExit(level, bounds, costs, pq, item);
      return costs, pq, Some(item.cost);
    }
    if item.cost >= costs[p.y][p.x] {
      SkipStale(level, bounds, costs, pq, item);
      return;
    }
    costs', pq' := Improve(level, bounds, costs, pq, item, rest);
  }

  /** The popped item improves its cell: record its cost, then push the four neighbours unless
      the cell is corrupted. */
  method Improve(level: seq<seq<char>>, bounds: Rect, costs: seq<seq<int>>, pq: multiset<Item>, item: Item, rest: multiset<Item>)
    returns (costs': seq<seq<int>>, pq': multiset<Item>)
    requires Improves(level, bounds, costs, pq, item) && rest == pq - multiset{item}
    ensures costs' == Record(costs, item) && pq' == rest + Pushes(level, bounds, item)
    ensures Searching(level, bounds, costs', pq') && 0 <= Total(costs') < Total(costs)
  {
    var p := item.point;
    costs' := costs[p.y := costs[p.y][p.x := item.cost]];
    Settle(level, bounds, costs, pq, item);
    TotalUpdate(costs, p.y, p.x, item.cost);
    TotalNonNegative(costs');
    if level[p.y][p.x] == Corrupted {
      pq' := rest;
    } else {
      pq' := PushNeighbours(item, rest);
    }
  }

  /** `for dir in DIRECTIONS { pq.push(..) }`: the four neighbours at one step more. */
  method PushNeighbours(item: Item, pq: multiset<Item>) returns (pq': multiset<Item>)
    ensures pq' == pq + Neighbours(item, 4)
  {
    pq' := pq;
    for k := 0 to 4
      invariant pq' == pq + Neighbours(item, k)
    {
      pq' := pq' + multiset{Item(item.cost + 1, Add(item.point, Directions[k]))};
    }
  }

  /** The search starts with no cell reached and the origin queued at cost 0. */
  lemma SearchStart(level: seq<seq<char>>, bounds: Rect)
    requires GoodBounds(bounds) && Shaped(level, bounds)
    ensures var costs := seq(bounds.height, y => seq(bounds.width, x => I64Max));
            Searching(level, bounds, costs, multiset{Item(0, Origin)}) && Total(costs) >= 0
  {
    var costs := seq(bounds.height, y => seq(bounds.width, x => I64Max));
    CountBelowNone(costs, I64Max);
    TotalNonNegative(costs);
    assert Walk(level, bounds, [Origin]);
    assert Reach(level, bounds, Origin, 0);
  }

  // ---------------------------------------------------------------------------------------
  // Day18: the level and its falling bytes

  /** Dropping byte `n` corrupts its cell and changes no other. */
  lemma DropLevel(bounds: Rect, falling: seq<Point>, n: nat)
    requires GoodBounds(bounds) && n < |falling| && IsInside(bounds, falling[n])
    ensures var p, before := falling[n], LevelAfter(bounds, falling, n);
            LevelAfter(bounds, falling, n + 1) == before[p.y := before[p.y][p.x := Corrupted]]
  {
    var p, before, after := falling[n], LevelAfter(bounds, falling, n), LevelAfter(bounds, falling, n + 1);
    var dropped := before[p.y := before[p.y][p.x := Corrupted]];
    assert falling[..n + 1] == falling[..n] + [p];
    forall y | 0 <= y < bounds.height
      ensures after[y] == dropped[y]
    {
      assert forall x :: 0 <= x < bounds.width ==> after[y][x] == dropped[y][x];
    }
  }

  /** No path from the origin to the exit is left after the first `n` bytes. */
  ghost predicate Blocked(bounds: Rect, falling: seq<Point>, n: nat)
  {
    GoodBounds(bounds) && n <= |falling| &&
    forall m: nat :: !Reach(LevelAfter(bounds, falling, n), bounds, Exit(bounds), m)
  }

  /** A path is left after each count of bytes strictly between `lo` and `hi`. */
  ghost predicate OpenBetween(bounds: Rect, falling: seq<Point>, lo: nat, hi: nat)
  {
    forall j :: lo < j < hi ==> !Blocked(bounds, falling, j)
  }

  lemma OpenBetweenExtend(bounds: Rect, falling: seq<Point>, lo: nat, hi: nat)
    requires OpenBetween(bounds, falling, lo, hi) && (lo < hi ==> !Blocked(bounds, falling, hi))
    ensures OpenBetween(bounds, falling, lo, hi + 1)
  {
  }

  /** The memory space, the bytes that will fall into it, and how many have fallen. */
  class Solver {
    const bounds: Rect
    const falling: seq<Point>
    var level: seq<seq<char>>
    var fallingIdx: nat

    /** The level shows exactly the bytes fallen so far. */
    ghost predicate Valid()
      reads this
    {
      GoodBounds(bounds) && fallingIdx <= |falling| && level == LevelAfter(bounds, falling, fallingIdx)
    }

    /** parse: an all-clear level and the bytes to come, none fallen yet.  A line that does not
        hold two numbers is the source's panic, excluded here. */
    constructor(bounds: Rect, lines: seq<string>)
      requires GoodBounds(bounds) && ParseFalling(lines).Some?
      ensures Valid() && this.bounds == bounds && falling == ParseFalling(lines).value && fallingIdx == 0
      ensures forall y, x :: 0 <= y < bounds.height && 0 <= x < bounds.width ==> level[y][x] == Clear
    {
      this.bounds := bounds;
      falling := ParseFalling(lines).value;
      level := seq(bounds.height, y => seq(bounds.width, x => Clear));
      fallingIdx := 0;
      new;
      assert falling[..0] == [];
      assert level == LevelAfter(bounds, falling, 0) by {
        var clear := LevelAfter(bounds, falling, 0);
        forall y | 0 <= y < bounds.height
          ensures level[y] == clear[y]
        {
          assert forall x :: 0 <= x < bounds.width ==> level[y][x] == clear[y][x];
        }
      }
    }

    /** drop: the next byte corrupts its cell.  Indexing panics when no byte is left or the
        byte lies outside the level; then `ok` is false and the state is left as it was. */
    method Drop() returns (ok: bool)
      requires Valid()
      modifies this
      ensures Valid()
      ensures ok <==> Droppable(bounds, falling, old(fallingIdx))
      ensures !ok ==> fallingIdx == old(fallingIdx) && level == old(level)
      ensures ok ==> fallingIdx == old(fallingIdx) + 1
      ensures ok ==> var p := falling[old(fallingIdx)]; level == old(level)[p.y := old(level)[p.y][p.x := Corrupted]]
    {
      if fallingIdx >= |falling| {
        return false;
      }
      var p := falling[fallingIdx];
      if !(0 <= p.y < |level| && 0 <= p.x < |level[p.y]|) {
        return false;
      }
      DropLevel(bounds, falling, fallingIdx);
      fallingIdx := fallingIdx + 1;
      level := level[p.y := level[p.y][p.x := Corrupted]];
      ok := true;
    }

    /** solve on the current level. */
    method Solve() returns (r: Option<int>)
      requires Valid()
      ensures r.Some? ==> r.value >= 0 && Reach(level, bounds, Exit(bounds), r.value)
      ensures r.Some? ==> forall n: nat :: Reach(level, bounds, Exit(bounds), n) ==> r.value <= n
      ensures r.None? ==> Blocked(bounds, falling, fallingIdx)
    {
      r := SolveLevel(level, bounds);
    }

    /** get_last_dropped: the byte that fell last, whose cell is now corrupted.  `falling_idx - 1`
        underflows before the first drop, so that case is excluded. */
    method GetLastDropped() returns (r: Option<Point>)
      requires Valid() && fallingIdx >= 1
      ensures r == Some(falling[fallingIdx - 1])
      ensures IsInside(bounds, r.value) ==> level[r.value.y][r.value.x] == Corrupted
    {
      r := if fallingIdx - 1 < |falling| then Some(falling[fallingIdx - 1]) else None;
      assert r.value in falling[..fallingIdx];
    }
  }

  /** The byte at index `i` exists and lies inside the level, so dropping it does not panic. */
  predicate Droppable(bounds: Rect, falling: seq<Point>, i: nat)
  {
    i < |falling| && IsInside(bounds, falling[i])
  }

  /** Part 1 of main: drop a number of bytes, then the shortest path.  `ok` is false when a
      drop panics, and then the first `k` drops succeeded and the next could not. */
  method Part1(solver: Solver, drops: nat) returns (ok: bool, r: Option<int>)
    requires solver.Valid()
    modifies solver
    ensures solver.Valid()
    ensures ok <==> forall i :: old(solver.fallingIdx) <= i < old(solver.fallingIdx) + drops ==>
                      Droppable(solver.bounds, solver.falling, i)
    ensures !ok ==> r.None? && old(solver.fallingIdx) <= solver.fallingIdx < old(solver.fallingIdx) + drops
                    && !Droppable(solver.bounds, solver.falling, solver.fallingIdx)
    ensures ok ==> solver.fallingIdx == old(solver.fallingIdx) + drops
    ensures ok && r.Some? ==> r.value >= 0 && Reach(solver.level, solver.bounds, Exit(solver.bounds), r.value)
    ensures ok && r.Some? ==> forall n: nat :: Reach(solver.level, solver.bounds, Exit(solver.bounds), n) ==> r.value <= n
    ensures ok && r.None? ==> Blocked(solver.bounds, solver.falling, solver.fallingIdx)
  {
    ghost var start := solver.fallingIdx;
    for i := 0 to drops
      invariant solver.Valid() && solver.fallingIdx == start + i
      invariant forall j :: start <= j < start + i ==> Droppable(solver.bounds, solver.falling, j)
    {
      var dropped := solver.Drop();
      if !dropped {
        return false, None;
      }
    }
    ok := true;
    r := solver.Solve();
  }

  /** One round of part 2: the next byte falls, and the search says whether a path is left.
      `ok` is false when the drop panics. */
  method DropAndCheck(solver: Solver) returns (ok: bool, blocked: bool)
    requires solver.Valid()
    modifies solver
    ensures solver.Valid()
    ensures ok <==> Droppable(solver.bounds, solver.falling, old(solver.fallingIdx))
    ensures !ok ==> solver.fallingIdx == old(solver.fallingIdx) && !blocked
    ensures ok ==> solver.fallingIdx == old(solver.fallingIdx) + 1
    ensures ok ==> (blocked <==> Blocked(solver.bounds, solver.falling, solver.fallingIdx))
  {
    ok := solver.Drop();
    if !ok {
      return false, false;
    }
    var result := solver.Solve();
    blocked := result.None?;
  }

  /** Part 2 of main: drop bytes one at a time until no path is left, and name the byte that
      closed the last one.  Running out of bytes, or a byte outside the level, is the source's
      index panic, None here. */
  method Part2(solver: Solver) returns (r: Option<Point>)
    requires solver.Valid()
    modifies solver
    ensures solver.Valid() && old(solver.fallingIdx) <= solver.fallingIdx
    ensures OpenBetween(solver.bounds, solver.falling, old(solver.fallingIdx), solver.fallingIdx)
    ensures r.Some? ==> old(solver.fallingIdx) < solver.fallingIdx && r.value == solver.falling[solver.fallingIdx - 1]
                        && Blocked(solver.bounds, solver.falling, solver.fallingIdx)
    ensures r.None? ==> !Droppable(solver.bounds, solver.falling, solver.fallingIdx)
                        && (solver.fallingIdx > old(solver.fallingIdx) ==> !Blocked(solver.bounds, solver.falling, solver.fallingIdx))
  {
    ghost var start := solver.fallingIdx;
    var blocked := false;
    var ok := true;
    while ok && !blocked
      invariant solver.Valid() && start <= solver.fallingIdx
      invariant OpenBetween(solver.bounds, solver.falling, start, solver.fallingIdx)
      invariant start < solver.fallingIdx ==> (blocked <==> Blocked(solver.bounds, solver.falling, solver.fallingIdx))
      invariant start == solver.fallingIdx ==> !blocked
      invariant !ok ==> !blocked && !Droppable(solver.bounds, solver.falling, solver.fallingIdx)
      decreases |solver.falling| - solver.fallingIdx, ok
    {
      OpenBetweenExtend(solver.bounds, solver.falling, start, solver.fallingIdx);
      ok, blocked := DropAndCheck(solver);
    }
    if blocked {
      r := solver.GetLastDropped();
    } else {
      r := None;
    }
  }
}
