/** Day 20: a racetrack through a maze from 'S' to 'E'.  A search over a min-queue gives every
    track cell its distance from the start and from the end; a cheat jumps from one track cell
    to another at a Manhattan distance within a range, through walls, and the cheats that
    shorten the race are grouped by the number of steps they save. */
module Day20 {
  import opened Common
  import opened Geometry
  import opened Search

  const Wall: char := '#'
  const StartMark: char := 'S'
  const EndMark: char := 'E'

  /** Up, right, down, left. */
  const Directions: seq<Point> := [Point(0, -1), Point(1, 0), Point(0, 1), Point(-1, 0)]

  /** Day20: the level, its bounds, and the cells where the race starts and ends. */
  datatype Race = Race(bounds: Rect, level: seq<seq<char>>, start: Point, end: Point)

  /** PqItem without its path vector, which is built but never read.  Its order is the reverse
      of the distance, so the heap pops the nearest item. */
  datatype Item = Item(distance: int, position: Point)

  function DistanceOf(item: Item): int
  {
    item.distance
  }

  // ---------------------------------------------------------------------------------------
  // parse

  /** parse: the bounds are the first line's length and the number of lines; the start and the
      end are the first 'S' and the first 'E' in reading order, and the result is None unless
      both occur.  `level[0]` panics on an empty input, which is None here as well. */
  method Parse(lines: seq<string>) returns (r: Option<Race>)
    ensures |lines| == 0 ==> r.None?
    ensures r.Some? <==> Locate(lines, StartMark).Some? && Locate(lines, EndMark).Some?
    ensures r.Some? ==> r.value == Race(Rect(0, 0, |lines[0]|, |lines|), lines,
                                        Locate(lines, StartMark).value, Locate(lines, EndMark).value)
  {
    if |lines| == 0 {
      return None;
    }
    var bounds := Rect(0, 0, |lines[0]|, |lines|);
    var start: Option<Point> := None;
    var end: Option<Point> := None;
    for y := 0 to |lines|
      invariant start == Locate(lines[..y], StartMark) && end == Locate(lines[..y], EndMark)
    {
      assert lines[..y + 1][..y] == lines[..y];
      if start.None? {
        var idx := IndexOf(lines[y], StartMark);
        if idx.Some? {
          start := Some(Point(idx.value, y));
        }
      }
      if end.None? {
        var idx := IndexOf(lines[y], EndMark);
        if idx.Some? {
          end := Some(Point(idx.value, y));
        }
      }
    }
    assert lines[..|lines|] == lines;
    if start.Some? && end.Some? {
      return Some(Race(bounds, lines, start.value, end.value));
    }
    return None;
  }

  // ---------------------------------------------------------------------------------------
  // The track

  /** A track cell: inside the level and not a wall. */
  predicate Open(level: seq<seq<char>>, bounds: Rect, p: Point)
  {
    IsInside(bounds, p) && 0 <= p.y < |level| && 0 <= p.x < |level[p.y]| && level[p.y][p.x] != Wall
  }

  /** The level is a rectangle at the origin whose border is wall: looking at the neighbours of
      a track cell on the border would index outside the level and panic. */
  predicate Track(level: seq<seq<char>>, bounds: Rect)
  {
    && GoodBounds(bounds) && Shaped(level, bounds)
    && forall y, x :: 0 <= y < |level| && 0 <= x < |level[y]| && level[y][x] != Wall ==>
         0 < y < bounds.height - 1 && 0 < x < bounds.width - 1
  }

  /** The neighbours of a track cell are inside the level. */
  lemma StepInside(level: seq<seq<char>>, bounds: Rect, p: Point, d: Point)
    requires Track(level, bounds) && Open(level, bounds, p) && d in Directions
    ensures IsInside(bounds, Add(p, d))
  {
  }

  /** A walk from `from`: each step moves to a neighbouring track cell. */
  ghost predicate Walk(level: seq<seq<char>>, bounds: Rect, from: Point, path: seq<Point>)
  {
    && |path| >= 1 && path[0] == from
    && forall i :: 0 <= i < |path| - 1 ==> Step(level, bounds, path, i)
  }

  /** Step `i` of a walk moves to a neighbouring track cell. */
  ghost predicate Step(level: seq<seq<char>>, bounds: Rect, path: seq<Point>, i: int)
    requires 0 <= i < |path| - 1
  {
    Open(level, bounds, path[i + 1]) && Sub(path[i + 1], path[i]) in Directions
  }

  /** `p` is reached from `from` in exactly `n` steps. */
  ghost predicate Reach(level: seq<seq<char>>, bounds: Rect, from: Point, p: Point, n: nat)
  {
    exists path :: Walk(level, bounds, from, path) && |path| == n + 1 && path[n] == p
  }

  lemma WalkPrefix(level: seq<seq<char>>, bounds: Rect, from: Point, path: seq<Point>, k: nat)
    requires Walk(level, bounds, from, path) && 1 <= k <= |path|
    ensures Walk(level, bounds, from, path[..k])
  {
    forall i | 0 <= i < k - 1
      ensures Step(level, bounds, path[..k], i)
    {
      assert Step(level, bounds, path, i);
    }
  }

  /** A walk extends by a step onto a neighbouring track cell. */
  lemma ReachStep(level: seq<seq<char>>, bounds: Rect, from: Point, p: Point, n: nat, d: Point)
    requires Reach(level, bounds, from, p, n) && d in Directions && Open(level, bounds, Add(p, d))
    ensures Reach(level, bounds, from, Add(p, d), n + 1)
  {
    var path :| Walk(level, bounds, from, path) && |path| == n + 1 && path[n] == p;
    var path' := path + [Add(p, d)];
    assert Sub(Add(p, d), p) == d;
    forall i | 0 <= i < |path'| - 1
      ensures Step(level, bounds, path', i)
    {
      if i < n {
        assert Step(level, bounds, path, i);
      }
    }
    assert path'[n + 1] == Add(p, d);
  }

  /** A walk from a track cell ends on a track cell. */
  lemma ReachOpen(level: seq<seq<char>>, bounds: Rect, from: Point, p: Point, n: nat)
    requires Open(level, bounds, from) && Reach(level, bounds, from, p, n)
    ensures Open(level, bounds, p)
  {
    var path :| Walk(level, bounds, from, path) && |path| == n + 1 && path[n] == p;
    if n > 0 {
      assert Step(level, bounds, path, n - 1);
    }
  }

  // ---------------------------------------------------------------------------------------
  // get_distances

  /** A cell the search has reached: its distance is below `i64::MAX`. */
  predicate Settled(dist: seq<seq<int>>, bounds: Rect, p: Point)
  {
    IsInside(bounds, p) && 0 <= p.y < |dist| && 0 <= p.x < |dist[p.y]| && dist[p.y][p.x] < I64Max
  }

  function Cost(dist: seq<seq<int>>, bounds: Rect, p: Point): int
    requires Settled(dist, bounds, p)
  {
    dist[p.y][p.x]
  }

  /** Every queued item sits on a track cell it reaches in its number of steps, which is no
      more than the number of reached cells. */
  ghost predicate Queued(level: seq<seq<char>>, bounds: Rect, from: Point, dist: seq<seq<int>>, pq: multiset<Item>)
  {
    forall i :: i in pq ==>
      && 0 <= i.distance <= CountBelow(dist, I64Max) && Open(level, bounds, i.position)
      && Reach(level, bounds, from, i.position, i.distance)
  }

  /** A reached cell is reached in its recorded number of steps. */
  ghost predicate Found(level: seq<seq<char>>, bounds: Rect, from: Point, dist: seq<seq<int>>)
  {
    forall p :: Settled(dist, bounds, p) && Cost(dist, bounds, p) >= 0 ==> Reach(level, bounds, from, p, Cost(dist, bounds, p))
  }

  /** A reached cell's distance is no more than any walk to it. */
  ghost predicate LowerBounds(level: seq<seq<char>>, bounds: Rect, from: Point, dist: seq<seq<int>>)
  {
    forall p, n: nat :: Settled(dist, bounds, p) && Reach(level, bounds, from, p, n) ==> Cost(dist, bounds, p) <= n
  }

  /** Every reached cell has looked at its neighbours. */
  ghost predicate Pushed(level: seq<seq<char>>, bounds: Rect, dist: seq<seq<int>>, pq: multiset<Item>)
  {
    forall p, d {:trigger Handled(level, bounds, dist, pq, p, d)} ::
      Settled(dist, bounds, p) && d in Directions ==> Handled(level, bounds, dist, pq, p, d)
  }

  /** The neighbour of reached cell `p` towards `d` is queued one step further, or is a wall,
      or is reached. */
  predicate Handled(level: seq<seq<char>>, bounds: Rect, dist: seq<seq<int>>, pq: multiset<Item>, p: Point, d: Point)
    requires Settled(dist, bounds, p)
  {
    var q := Add(p, d);
    Item(Cost(dist, bounds, p) + 1, q) in pq || !Open(level, bounds, q) || Settled(dist, bounds, q)
  }

  /** The invariant of get_distances' loop. */
  ghost predicate Searching(level: seq<seq<char>>, bounds: Rect, from: Point, dist: seq<seq<int>>, pq: multiset<Item>)
  {
    && Track(level, bounds) && Open(level, bounds, from) && Shaped(dist, bounds)
    && (forall y, x :: 0 <= y < |dist| && 0 <= x < |dist[y]| ==> dist[y][x] >= 0)
    && Queued(level, bounds, from, dist, pq)
    && Found(level, bounds, from, dist)
    && LowerBounds(level, bounds, from, dist)
    && Pushed(level, bounds, dist, pq)
    && (!Settled(dist, bounds, from) ==> Item(0, from) in pq)
  }

  /** An unreached cell at the end of a walk has an item queued that is no further than the
      walk's length: the queue is the search frontier. */
  lemma {:induction false} Frontier(level: seq<seq<char>>, bounds: Rect, from: Point, dist: seq<seq<int>>, pq: multiset<Item>, path: seq<Point>)
    returns (i: Item)
    requires LowerBounds(level, bounds, from, dist) && Pushed(level, bounds, dist, pq)
    requires !Settled(dist, bounds, from) ==> Item(0, from) in pq
    requires Walk(level, bounds, from, path) && !Settled(dist, bounds, path[|path| - 1])
    ensures i in pq && i.distance <= |path| - 1
    decreases |path|
  {
    var n := |path| - 1;
    if n == 0 {
      i := Item(0, from);
    } else if Settled(dist, bounds, path[n - 1]) {
      i := FrontierEdge(level, bounds, from, dist, pq, path);
    } else {
      WalkPrefix(level, bounds, from, path, n);
      i := Frontier(level, bounds, from, dist, pq, path[..n]);
    }
  }

  /** The last step of a walk leaves a reached cell for an unreached one: the item the reached
      cell pushed is still queued. */
  lemma FrontierEdge(level: seq<seq<char>>, bounds: Rect, from: Point, dist: seq<seq<int>>, pq: multiset<Item>, path: seq<Point>)
    returns (i: Item)
    requires LowerBounds(level, bounds, from, dist) && Pushed(level, bounds, dist, pq)
    requires Walk(level, bounds, from, path) && |path| >= 2
    requires Settled(dist, bounds, path[|path| - 2]) && !Settled(dist, bounds, path[|path| - 1])
    ensures i in pq && i.distance <= |path| - 1
  {
    var n := |path| - 1;
    var q := path[n - 1];
    var d := Sub(path[n], q);
    WalkPrefix(level, bounds, from, path, n);
    assert Reach(level, bounds, from, q, n - 1) by {
      assert path[..n][n - 1] == q;
    }
    assert Step(level, bounds, path, n - 1);
    assert Add(q, d) == path[n];
    assert Handled(level, bounds, dist, pq, q, d);
    i := Item(Cost(dist, bounds, q) + 1, path[n]);
  }

  /** Every walk of `n` steps to an unreached cell has an item at most `n` steps away queued. */
  lemma FrontierReach(level: seq<seq<char>>, bounds: Rect, from: Point, dist: seq<seq<int>>, pq: multiset<Item>, p: Point, n: nat)
    requires Searching(level, bounds, from, dist, pq) && Reach(level, bounds, from, p, n)
    requires !Settled(dist, bounds, p)
    ensures exists i :: i in pq && i.distance <= n
  {
    var path :| Walk(level, bounds, from, path) && |path| == n + 1 && path[n] == p;
    var i := Frontier(level, bounds, from, dist, pq, path);
  }

  /** An empty queue means every reachable cell is reached. */
  lemma Exhausted(level: seq<seq<char>>, bounds: Rect, from: Point, dist: seq<seq<int>>)
    requires Searching(level, bounds, from, dist, multiset{})
    ensures forall p, n: nat :: Reach(level, bounds, from, p, n) ==> Settled(dist, bounds, p)
  {
    forall p, n: nat | Reach(level, bounds, from, p, n)
      ensures Settled(dist, bounds, p)
    {
      if !Settled(dist, bounds, p) {
        FrontierReach(level, bounds, from, dist, multiset{}, p, n);
      }
    }
  }

  /** Dropping an item that does not improve its cell keeps the invariant. */
  lemma SkipStale(level: seq<seq<char>>, bounds: Rect, from: Point, dist: seq<seq<int>>, pq: multiset<Item>, item: Item)
    requires Searching(level, bounds, from, dist, pq) && item in pq
    requires item.distance >= dist[item.position.y][item.position.x]
    ensures Searching(level, bounds, from, dist, pq - multiset{item})
  {
    var rest := pq - multiset{item};
    assert forall i :: i in pq ==> i in rest || i == item;
    CountBelowBound(dist, bounds.width, I64Max);
    assert Settled(dist, bounds, item.position);
    forall p, d | Settled(dist, bounds, p) && d in Directions
      ensures Handled(level, bounds, dist, rest, p, d)
    {
      assert Handled(level, bounds, dist, pq, p, d);
    }
  }

  /** The popped item improves its cell. */
  ghost predicate Improves(level: seq<seq<char>>, bounds: Rect, from: Point, dist: seq<seq<int>>, pq: multiset<Item>, item: Item)
  {
    && Searching(level, bounds, from, dist, pq) && item in pq && (forall o :: o in pq ==> item.distance <= o.distance)
    && item.distance < dist[item.position.y][item.position.x]
  }

  /** `distances[y][x] = item.distance`. */
  function Record(dist: seq<seq<int>>, item: Item): seq<seq<int>>
    requires 0 <= item.position.y < |dist| && 0 <= item.position.x < |dist[item.position.y]|
  {
    dist[item.position.y := dist[item.position.y][item.position.x := item.distance]]
  }

  /** The item pushed towards `d`: the neighbour when it is a track cell that the item brings
      nearer, else nothing. */
  function PushTo(level: seq<seq<char>>, bounds: Rect, dist: seq<seq<int>>, item: Item, d: Point): multiset<Item>
    requires GoodBounds(bounds) && Shaped(dist, bounds)
  {
    var q := Add(item.position, d);
    if Open(level, bounds, q) && item.distance + 1 < dist[q.y][q.x] then multiset{Item(item.distance + 1, q)} else multiset{}
  }

  /** The items pushed for the first `k` directions. */
  function Pushes(level: seq<seq<char>>, bounds: Rect, dist: seq<seq<int>>, item: Item, k: nat): multiset<Item>
    requires k <= 4 && GoodBounds(bounds) && Shaped(dist, bounds)
  {
    if k == 0 then multiset{} else Pushes(level, bounds, dist, item, k - 1) + PushTo(level, bounds, dist, item, Directions[k - 1])
  }

  lemma {:induction false} PushesHold(level: seq<seq<char>>, bounds: Rect, dist: seq<seq<int>>, item: Item, k: nat, j: nat)
    requires j < k <= 4 && GoodBounds(bounds) && Shaped(dist, bounds)
    requires PushTo(level, bounds, dist, item, Directions[j]) != multiset{}
    ensures Item(item.distance + 1, Add(item.position, Directions[j])) in Pushes(level, bounds, dist, item, k)
  {
    if j < k - 1 {
      PushesHold(level, bounds, dist, item, k - 1, j);
    }
  }

  lemma {:induction false} PushesMember(level: seq<seq<char>>, bounds: Rect, dist: seq<seq<int>>, item: Item, k: nat, i: Item) returns (j: nat)
    requires k <= 4 && GoodBounds(bounds) && Shaped(dist, bounds) && i in Pushes(level, bounds, dist, item, k)
    ensures j < k && i == Item(item.distance + 1, Add(item.position, Directions[j])) && Open(level, bounds, i.position)
  {
    if i in PushTo(level, bounds, dist, item, Directions[k - 1]) {
      j := k - 1;
    } else {
      j := PushesMember(level, bounds, dist, item, k - 1, i);
    }
  }

  /** Recording the popped cell reaches it at its distance and reaches no other cell; the cell
      was not reached before and no walk to it is shorter. */
  lemma RecordSettles(level: seq<seq<char>>, bounds: Rect, from: Point, dist: seq<seq<int>>, pq: multiset<Item>, item: Item)
    requires Improves(level, bounds, from, dist, pq, item)
    ensures var dist' := Record(dist, item);
            && !Settled(dist, bounds, item.position)
            && Settled(dist', bounds, item.position) && Cost(dist', bounds, item.position) == item.distance
            && (forall q :: q != item.position ==> (Settled(dist', bounds, q) <==> Settled(dist, bounds, q)))
            && (forall q :: Settled(dist, bounds, q) ==> Cost(dist', bounds, q) == Cost(dist, bounds, q))
            && CountBelow(dist', I64Max) == CountBelow(dist, I64Max) + 1
            && item.distance + 1 <= CountBelow(dist', I64Max) <= bounds.width * bounds.height
            && forall n: nat :: Reach(level, bounds, from, item.position, n) ==> item.distance <= n
  {
    var p := item.position;
    var dist' := Record(dist, item);
    CountBelowBound(dist, bounds.width, I64Max);
    assert !Settled(dist, bounds, p);
    CountBelowUpdate(dist, p.y, p.x, item.distance, I64Max);
    CountBelowBound(dist', bounds.width, I64Max);
    forall n: nat | Reach(level, bounds, from, p, n)
      ensures item.distance <= n
    {
      FrontierReach(level, bounds, from, dist, pq, p, n);
    }
  }

  /** The pushed items describe real walks within the new count. */
  lemma PushesQueued(level: seq<seq<char>>, bounds: Rect, from: Point, dist': seq<seq<int>>, item: Item, i: Item)
    requires GoodBounds(bounds) && Shaped(dist', bounds) && i in Pushes(level, bounds, dist', item, 4)
    requires 0 <= item.distance < CountBelow(dist', I64Max) && Reach(level, bounds, from, item.position, item.distance)
    ensures 0 <= i.distance <= CountBelow(dist', I64Max) && Open(level, bounds, i.position)
    ensures Reach(level, bounds, from, i.position, i.distance)
  {
    var k := PushesMember(level, bounds, dist', item, 4, i);
    ReachStep(level, bounds, from, item.position, item.distance, Directions[k]);
  }

  /** The queue after the pop keeps describing real walks within the new count. */
  lemma SettleQueued(level: seq<seq<char>>, bounds: Rect, from: Point, dist: seq<seq<int>>, pq: multiset<Item>, item: Item)
    requires Improves(level, bounds, from, dist, pq, item)
    ensures var dist' := Record(dist, item);
            Queued(level, bounds, from, dist', pq - multiset{item} + Pushes(level, bounds, dist', item, 4))
  {
    var dist' := Record(dist, item);
    var pushed := Pushes(level, bounds, dist', item, 4);
    RecordSettles(level, bounds, from, dist, pq, item);
    assert Reach(level, bounds, from, item.position, item.distance);
    forall i | i in pq - multiset{item} + pushed
      ensures 0 <= i.distance <= CountBelow(dist', I64Max) && Open(level, bounds, i.position)
      ensures Reach(level, bounds, from, i.position, i.distance)
    {
      if i in pushed {
        PushesQueued(level, bounds, from, dist', item, i);
      } else {
        assert i in pq;
      }
    }
  }

  /** Every reached cell stays reached at its distance, and the new one is reached at the
      item's. */
  lemma SettleFound(level: seq<seq<char>>, bounds: Rect, from: Point, dist: seq<seq<int>>, pq: multiset<Item>, item: Item)
    requires Improves(level, bounds, from, dist, pq, item)
    ensures Found(level, bounds, from, Record(dist, item))
  {
    RecordSettles(level, bounds, from, dist, pq, item);
  }

  /** Every reached cell keeps its lower bound, and the new one gets one. */
  lemma SettleLowerBounds(level: seq<seq<char>>, bounds: Rect, from: Point, dist: seq<seq<int>>, pq: multiset<Item>, item: Item)
    requires Improves(level, bounds, from, dist, pq, item)
    ensures LowerBounds(level, bounds, from, Record(dist, item))
  {
    RecordSettles(level, bounds, from, dist, pq, item);
  }

  /** Recording the item's cell leaves every other cell as it was. */
  lemma RecordFrame(dist: seq<seq<int>>, bounds: Rect, item: Item, q: Point)
    requires GoodBounds(bounds) && Shaped(dist, bounds) && IsInside(bounds, item.position) && q != item.position
    ensures Settled(Record(dist, item), bounds, q) <==> Settled(dist, bounds, q)
    ensures Settled(dist, bounds, q) ==> Cost(Record(dist, item), bounds, q) == Cost(dist, bounds, q)
  {
  }

  /** The new cell's neighbours are handled by its pushes. */
  lemma SettlePushedSelf(level: seq<seq<char>>, bounds: Rect, dist': seq<seq<int>>, rest: multiset<Item>, item: Item, d: Point)
    requires GoodBounds(bounds) && Shaped(dist', bounds) && d in Directions
    requires Settled(dist', bounds, item.position) && Cost(dist', bounds, item.position) == item.distance
    requires item.distance + 1 < I64Max
    ensures Handled(level, bounds, dist', rest + Pushes(level, bounds, dist', item, 4), item.position, d)
  {
    var k :| 0 <= k < 4 && Directions[k] == d;
    if PushTo(level, bounds, dist', item, d) != multiset{} {
      PushesHold(level, bounds, dist', item, 4, k);
    }
  }

  /** An older cell's neighbour stays handled: its item is still queued unless it was the one
      popped, whose cell is now reached. */
  lemma SettlePushedOther(level: seq<seq<char>>, bounds: Rect, dist: seq<seq<int>>, pq: multiset<Item>, item: Item,
                          pushes: multiset<Item>, q: Point, d: Point)
    requires GoodBounds(bounds) && Shaped(dist, bounds) && IsInside(bounds, item.position) && item in pq && item.distance < I64Max
    requires Settled(dist, bounds, q) && q != item.position && Handled(level, bounds, dist, pq, q, d)
    ensures Settled(Record(dist, item), bounds, q)
    ensures Handled(level, bounds, Record(dist, item), pq - multiset{item} + pushes, q, d)
  {
    var dist' := Record(dist, item);
    var t := Add(q, d);
    RecordFrame(dist, bounds, item, q);
    var o := Item(Cost(dist, bounds, q) + 1, t);
    if o == item {
      assert Settled(dist', bounds, t);
    } else if o in pq {
      assert o in pq - multiset{item};
    } else if Open(level, bounds, t) {
      if t != item.position {
        RecordFrame(dist, bounds, item, t);
      }
    }
  }

  /** Every reached cell's neighbours stay handled, the new cell's by its pushes. */
  lemma SettlePushed(level: seq<seq<char>>, bounds: Rect, dist: seq<seq<int>>, pq: multiset<Item>, item: Item)
    requires GoodBounds(bounds) && Shaped(dist, bounds) && Pushed(level, bounds, dist, pq) && item in pq
    requires IsInside(bounds, item.position) && !Settled(dist, bounds, item.position) && item.distance + 1 < I64Max
    ensures var dist' := Record(dist, item);
            Pushed(level, bounds, dist', pq - multiset{item} + Pushes(level, bounds, dist', item, 4))
  {
    var p := item.position;
    var dist' := Record(dist, item);
    var pushes := Pushes(level, bounds, dist', item, 4);
    forall q, d | Settled(dist', bounds, q) && d in Directions
      ensures Handled(level, bounds, dist', pq - multiset{item} + pushes, q, d)
    {
      if q == p {
        SettlePushedSelf(level, bounds, dist', pq - multiset{item}, item, d);
      } else {
        RecordFrame(dist, bounds, item, q);
        SettlePushedOther(level, bounds, dist, pq, item, pushes, q, d);
      }
    }
  }

  /** Reaching the popped item's cell at its distance, and pushing the neighbours it brings
      nearer, keeps the invariant. */
  lemma Settle(level: seq<seq<char>>, bounds: Rect, from: Point, dist: seq<seq<int>>, pq: multiset<Item>, item: Item)
    requires Improves(level, bounds, from, dist, pq, item)
    ensures var dist' := Record(dist, item);
            Searching(level, bounds, from, dist', pq - multiset{item} + Pushes(level, bounds, dist', item, 4))
  {
    RecordSettles(level, bounds, from, dist, pq, item);
    SettleQueued(level, bounds, from, dist, pq, item);
    SettleFound(level, bounds, from, dist, pq, item);
    SettleLowerBounds(level, bounds, from, dist, pq, item);
    SettlePushed(level, bounds, dist, pq, item);
  }

  /** `r` maps exactly the cells reachable from `from`, each to the length of a shortest walk. */
  ghost predicate Distances(level: seq<seq<char>>, bounds: Rect, from: Point, r: map<Point, int>)
  {
    && (forall p :: p in r <==> exists n: nat :: Reach(level, bounds, from, p, n))
    && (forall p :: p in r ==> r[p] >= 0 && Reach(level, bounds, from, p, r[p]))
    && (forall p, n: nat :: p in r && Reach(level, bounds, from, p, n) ==> r[p] <= n)
  }

  /** get_distances: every track cell reachable from `from` mapped to the length of a shortest
      walk to it, and nothing else.  `from` must be a track cell ('S' or 'E' in the source). */
  method GetDistances(level: seq<seq<char>>, bounds: Rect, from: Point) returns (r: map<Point, int>)
    requires Track(level, bounds) && Open(level, bounds, from)
    ensures Distances(level, bounds, from, r)
  {
    var dist := seq(bounds.height, y => seq(bounds.width, x => I64Max));
    var pq := multiset{Item(0, from)};
    SearchStart(level, bounds, from);
    while pq != multiset{}
      invariant Searching(level, bounds, from, dist, pq) && Total(dist) >= 0
      decreases Total(dist), |pq|
    {
      dist, pq := PopItem(level, bounds, from, dist, pq);
    }
    Exhausted(level, bounds, from, dist);
    r := ReachedCells(dist, bounds);
  }

  /** One turn of get_distances' loop: pop the nearest item; skip it unless it improves its
      cell, else record it and push the neighbours it brings nearer. */
  method PopItem(level: seq<seq<char>>, bounds: Rect, from: Point, dist: seq<seq<int>>, pq: multiset<Item>)
    returns (dist': seq<seq<int>>, pq': multiset<Item>)
    requires Searching(level, bounds, from, dist, pq) && Total(dist) >= 0 && pq != multiset{}
    ensures Searching(level, bounds, from, dist', pq') && Total(dist') >= 0
    ensures Total(dist') < Total(dist) || (dist' == dist && |pq'| < |pq|)
  {
    var item, rest := Pop(pq, DistanceOf);
    var p := item.position;
    if item.distance < dist[p.y][p.x] {
      dist', pq' := Improve(level, bounds, from, dist, pq, item, rest);
    } else {
      SkipStale(level, bounds, from, dist, pq, item);
      dist', pq' := dist, rest;
    }
  }

  /** The popped item improves its cell: record its distance, then push each neighbour that is
      a track cell and that it brings nearer. */
  method Improve(level: seq<seq<char>>, bounds: Rect, from: Point, dist: seq<seq<int>>, pq: multiset<Item>, item: Item, rest: multiset<Item>)
    returns (dist': seq<seq<int>>, pq': multiset<Item>)
    requires Improves(level, bounds, from, dist, pq, item) && rest == pq - multiset{item}
    ensures dist' == Record(dist, item) && pq' == rest + Pushes(level, bounds, dist', item, 4)
    ensures Searching(level, bounds, from, dist', pq') && 0 <= Total(dist') < Total(dist)
  {
    var p := item.position;
    dist' := dist[p.y := dist[p.y][p.x := item.distance]];
    Settle(level, bounds, from, dist, pq, item);
    TotalUpdate(dist, p.y, p.x, item.distance);
    TotalNonNegative(dist');
    pq' := PushNeighbours(level, bounds, dist', item, rest);
  }

  /** `for dir in DIRECTIONS`: push each neighbour unless it is a wall or already as near. */
  method PushNeighbours(level: seq<seq<char>>, bounds: Rect, dist: seq<seq<int>>, item: Item, pq: multiset<Item>)
    returns (pq': multiset<Item>)
    requires Track(level, bounds) && Shaped(dist, bounds) && Open(level, bounds, item.position)
    ensures pq' == pq + Pushes(level, bounds, dist, item, 4)
  {
    pq' := pq;
    for k := 0 to 4
      invariant pq' == pq + Pushes(level, bounds, dist, item, k)
    {
      pq' := PushTowards(level, bounds, dist, item, Directions[k], pq');
      MultisetAssociative(pq, Pushes(level, bounds, dist, item, k), PushTo(level, bounds, dist, item, Directions[k]));
    }
  }

  /** One turn of the loop over the directions. */
  method PushTowards(level: seq<seq<char>>, bounds: Rect, dist: seq<seq<int>>, item: Item, d: Point, pq: multiset<Item>)
    returns (pq': multiset<Item>)
    requires Track(level, bounds) && Shaped(dist, bounds) && Open(level, bounds, item.position) && d in Directions
    ensures pq' == pq + PushTo(level, bounds, dist, item, d)
  {
    var q := Add(item.position, d);
    StepInside(level, bounds, item.position, d);
    if level[q.y][q.x] != Wall && item.distance + 1 < dist[q.y][q.x] {
      pq' := pq + multiset{Item(item.distance + 1, q)};
    } else {
      pq' := pq;
    }
  }

  /** The search starts with no cell reached and `from` queued at distance 0. */
  lemma SearchStart(level: seq<seq<char>>, bounds: Rect, from: Point)
    requires Track(level, bounds) && Open(level, bounds, from)
    ensures var dist := seq(bounds.height, y => seq(bounds.width, x => I64Max));
            Searching(level, bounds, from, dist, multiset{Item(0, from)}) && Total(dist) >= 0
  {
    var dist := seq(bounds.height, y => seq(bounds.width, x => I64Max));
    CountBelowNone(dist, I64Max);
    TotalNonNegative(dist);
    assert Walk(level, bounds, from, [from]);
    assert Reach(level, bounds, from, from, 0);
  }

  /** The cells of rows before `y`, and of row `y` before column `x`. */
  predicate Before(p: Point, y: int, x: int)
  {
    p.y < y || (p.y == y && p.x < x)
  }

  /** The closing loops of get_distances: every reached cell with its distance. */
  method ReachedCells(dist: seq<seq<int>>, bounds: Rect) returns (r: map<Point, int>)
    requires GoodBounds(bounds) && Shaped(dist, bounds)
    ensures forall p :: p in r <==> Settled(dist, bounds, p)
    ensures forall p :: p in r ==> r[p] == Cost(dist, bounds, p)
  {
    r := map[];
    for y := 0 to |dist|
      invariant forall p :: p in r <==> Settled(dist, bounds, p) && Before(p, y, 0)
      invariant forall p :: p in r ==> r[p] == Cost(dist, bounds, p)
    {
      for x := 0 to |dist[y]|
        invariant forall p :: p in r <==> Settled(dist, bounds, p) && Before(p, y, x)
        invariant forall p :: p in r ==> r[p] == Cost(dist, bounds, p)
      {
        if dist[y][x] < I64Max {
          r := r[Point(x, y) := dist[y][x]];
        }
      }
    }
  }

  // ---------------------------------------------------------------------------------------
  // Walks reversed and joined

  lemma DirectionsOpposite(d: Point)
    requires d in Directions
    ensures Point(-d.x, -d.y) in Directions
  {
  }

  /** The track is undirected: a walk from a track cell can be walked back. */
  lemma ReachReverse(level: seq<seq<char>>, bounds: Rect, from: Point, p: Point, n: nat)
    requires Open(level, bounds, from) && Reach(level, bounds, from, p, n)
    ensures Reach(level, bounds, p, from, n)
  {
    var path :| Walk(level, bounds, from, path) && |path| == n + 1 && path[n] == p;
    var back := seq(n + 1, i requires 0 <= i <= n => path[n - i]);
    forall i | 0 <= i < n
      ensures Step(level, bounds, back, i)
    {
      assert Step(level, bounds, path, n - i - 1);
      DirectionsOpposite(Sub(path[n - i], path[n - i - 1]));
      if i < n - 1 {
        assert Step(level, bounds, path, n - i - 2);
      }
    }
    assert Walk(level, bounds, p, back);
  }

  /** A walk to `p` followed by a walk from `p` is a walk. */
  lemma ReachJoin(level: seq<seq<char>>, bounds: Rect, from: Point, p: Point, m: nat, q: Point, n: nat)
    requires Reach(level, bounds, from, p, m) && Reach(level, bounds, p, q, n)
    ensures Reach(level, bounds, from, q, m + n)
  {
    var first :| Walk(level, bounds, from, first) && |first| == m + 1 && first[m] == p;
    var second :| Walk(level, bounds, p, second) && |second| == n + 1 && second[n] == q;
    var joined := first + second[1..];
    forall i | 0 <= i < m + n
      ensures Step(level, bounds, joined, i)
    {
      if i < m {
        assert Step(level, bounds, first, i);
      } else {
        assert Step(level, bounds, second, i - m);
      }
    }
    assert joined[m + n] == q;
  }

  // ---------------------------------------------------------------------------------------
  // calculate_cheats

  /** The cells a shortest route passes are never cheaper than the race: a cell `x` reached from
      the start in `ds[x]` steps and from the end in `de[x]` steps lies on a route of
      `ds[x] + de[x]` steps. */
  lemma DistancesConsistent(level: seq<seq<char>>, bounds: Rect, start: Point, end: Point, ds: map<Point, int>, de: map<Point, int>)
    requires Open(level, bounds, end) && end in ds
    requires Distances(level, bounds, start, ds) && Distances(level, bounds, end, de)
    ensures Consistent(ds, de, ds[end])
  {
    forall x | x in ds && x in de
      ensures ds[x] + de[x] >= ds[end]
    {
      ReachReverse(level, bounds, end, x, de[x]);
      ReachJoin(level, bounds, start, x, ds[x], end, de[x]);
    }
  }

  /** `get_points_with_distance(d)` (a helper not defined in src/lib.rs): every point at
      Manhattan distance exactly `d`. */
  function Ring(c: Point, d: nat): (r: set<Point>)
    ensures forall p :: p in r <==> Distance(c, p) == d
  {
    set x, y | c.x - d <= x <= c.x + d && c.y - d <= y <= c.y + d && Distance(c, Point(x, y)) == d :: Point(x, y)
  }

  /** The pairs (cheat start, cheat end) with the start in `starts` and a cheat length in
      `lo..hi`. */
  function Pairs(starts: set<Point>, lo: int, hi: int): (r: set<(Point, Point)>)
    ensures forall c :: c in r <==> c.0 in starts && lo <= Distance(c.0, c.1) < hi
  {
    var r := set s, d: nat, e | s in starts && lo <= d < hi && e in Ring(s, d) :: (s, e);
    assert forall c: (Point, Point) :: c.0 in starts && lo <= Distance(c.0, c.1) < hi ==> c in r by {
      forall c: (Point, Point) | c.0 in starts && lo <= Distance(c.0, c.1) < hi
        ensures c in r
      {
        var d: nat := Distance(c.0, c.1);
        assert c.1 in Ring(c.0, d);
      }
    }
    r
  }

  /** The pairs from `s` to a cell of `ends`. */
  function From(s: Point, ends: set<Point>): (r: set<(Point, Point)>)
    ensures forall c :: c in r <==> c.0 == s && c.1 in ends
  {
    set e | e in ends :: (s, e)
  }

  /** The key of a cheat: its two cells as an unordered pair (the source sorts them with the
      order of src/lib.rs, which is not part of this model). */
  function Key(c: (Point, Point)): set<Point>
  {
    {c.0, c.1}
  }

  /** A cheat that shortens the race: from a cell reached from the start to a cell that reaches
      the end, at a length in `lo..hi`, with a total below the race distance. */
  predicate Cheat(ds: map<Point, int>, de: map<Point, int>, race: int, lo: int, hi: int, c: (Point, Point))
  {
    c.0 in ds && c.1 in de && lo <= Distance(c.0, c.1) < hi && ds[c.0] + de[c.1] + Distance(c.0, c.1) < race
  }

  /** The steps a cheat saves. */
  function Saving(ds: map<Point, int>, de: map<Point, int>, race: int, c: (Point, Point)): int
    requires c.0 in ds && c.1 in de
  {
    race - (ds[c.0] + de[c.1] + Distance(c.0, c.1))
  }

  /** The cheats saving at least `least` steps. */
  ghost function GoodCheats(ds: map<Point, int>, de: map<Point, int>, race: int, lo: int, hi: int, least: int): (r: set<(Point, Point)>)
    ensures forall c :: c in r <==> Cheat(ds, de, race, lo, hi, c) && Saving(ds, de, race, c) >= least
  {
    set s, e | s in ds && e in de && Cheat(ds, de, race, lo, hi, (s, e)) && Saving(ds, de, race, (s, e)) >= least :: (s, e)
  }

  /** No cell is on a route shorter than the race. */
  predicate Consistent(ds: map<Point, int>, de: map<Point, int>, race: int)
  {
    forall x :: x in ds && x in de ==> ds[x] + de[x] >= race
  }

  /** Two cheats with the same key are the same cheat: a cheat and its reverse cannot both
      shorten the race. */
  lemma NoClash(ds: map<Point, int>, de: map<Point, int>, race: int, lo: int, hi: int, c: (Point, Point), c': (Point, Point))
    requires Consistent(ds, de, race) && Cheat(ds, de, race, lo, hi, c) && Cheat(ds, de, race, lo, hi, c')
    requires Key(c) == Key(c')
    ensures c == c'
  {
    assert c.0 in Key(c') && c.1 in Key(c') && c'.0 in Key(c) && c'.1 in Key(c);
    if c != c' {
      DistanceSymmetric(c.0, c.1);
    }
  }

  /** Keys of distinct cheats differ, so there are as many keys as cheats. */
  lemma {:induction false} KeyCount(ds: map<Point, int>, de: map<Point, int>, race: int, lo: int, hi: int, cheats: set<(Point, Point)>)
    requires Consistent(ds, de, race) && forall c :: c in cheats ==> Cheat(ds, de, race, lo, hi, c)
    ensures |set c | c in cheats :: Key(c)| == |cheats|
    decreases |cheats|
  {
    if cheats != {} {
      var c :| c in cheats;
      var rest := cheats - {c};
      KeyCount(ds, de, race, lo, hi, rest);
      forall c' | c' in rest
        ensures Key(c') != Key(c)
      {
        if Key(c') == Key(c) {
          NoClash(ds, de, race, lo, hi, c, c');
        }
      }
      assert (set c' | c' in cheats :: Key(c')) == (set c' | c' in rest :: Key(c')) + {Key(c)};
    }
  }

  /** What the shortcut map holds once the pairs in `seen` were looked at: each key comes from a
      seen cheat, `origin`, and carries its saving, and every seen cheat has its key. */
  ghost predicate Collected(ds: map<Point, int>, de: map<Point, int>, race: int, lo: int, hi: int,
                            shortcuts: map<set<Point>, int>, origin: map<set<Point>, (Point, Point)>, seen: set<(Point, Point)>)
  {
    && origin.Keys == shortcuts.Keys
    && (forall k :: k in origin ==>
          && origin[k] in seen && Cheat(ds, de, race, lo, hi, origin[k]) && Key(origin[k]) == k
          && shortcuts[k] == Saving(ds, de, race, origin[k]))
    && (forall c :: c in seen && Cheat(ds, de, race, lo, hi, c) ==> Key(c) in origin && origin[Key(c)] == c)
  }

  /** Recording a cheat not seen yet keeps the shortcut map collected: its key is vacant. */
  lemma Insert(ds: map<Point, int>, de: map<Point, int>, race: int, lo: int, hi: int,
               shortcuts: map<set<Point>, int>, origin: map<set<Point>, (Point, Point)>, seen: set<(Point, Point)>, c: (Point, Point))
    requires Consistent(ds, de, race) && Collected(ds, de, race, lo, hi, shortcuts, origin, seen)
    requires Cheat(ds, de, race, lo, hi, c) && c !in seen
    ensures Key(c) !in shortcuts
    ensures Collected(ds, de, race, lo, hi, shortcuts[Key(c) := Saving(ds, de, race, c)], origin[Key(c) := c], seen + {c})
  {
    if Key(c) in shortcuts {
      NoClash(ds, de, race, lo, hi, c, origin[Key(c)]);
    }
  }

  /** The body of the innermost loop of calculate_cheats: the pair `(s, e)`. */
  method Consider(ds: map<Point, int>, de: map<Point, int>, race: int, lo: int, hi: int, s: Point, d: nat, e: Point,
                  shortcuts: map<set<Point>, int>, ghost origin: map<set<Point>, (Point, Point)>, ghost seen: set<(Point, Point)>)
    returns (shortcuts': map<set<Point>, int>, ghost origin': map<set<Point>, (Point, Point)>)
    requires Consistent(ds, de, race) && s in ds && lo <= d < hi && Distance(s, e) == d
    requires Collected(ds, de, race, lo, hi, shortcuts, origin, seen) && (s, e) !in seen
    ensures Collected(ds, de, race, lo, hi, shortcuts', origin', seen + {(s, e)})
  {
    shortcuts', origin' := shortcuts, origin;
    if e in de {
      var total := ds[s] + de[e] + d;
      if total < race {
        var key := {s, e};
        // The Occupied arm of the source, whose assert! compares a saving with a length, is
        // never taken: Insert shows the key is vacant.
        Insert(ds, de, race, lo, hi, shortcuts, origin, seen, (s, e));
        shortcuts' := shortcuts[key := race - total];
        origin' := origin[key := (s, e)];
      }
    }
  }

  /** Taking `e` out of the cells still to visit adds `(s, e)` to the pairs visited. */
  lemma FromNext(s: Point, ring: set<Point>, ends: set<Point>, e: Point)
    requires e in ends && ends <= ring
    ensures (s, e) in From(s, ring) && (s, e) !in From(s, ring - ends)
    ensures From(s, ring - (ends - {e})) == From(s, ring - ends) + {(s, e)}
  {
  }

  /** The loop over `get_points_with_distance(d)`. */
  method CollectRing(ds: map<Point, int>, de: map<Point, int>, race: int, lo: int, hi: int, s: Point, d: nat,
                     shortcuts: map<set<Point>, int>, ghost origin: map<set<Point>, (Point, Point)>, ghost seen: set<(Point, Point)>)
    returns (shortcuts': map<set<Point>, int>, ghost origin': map<set<Point>, (Point, Point)>)
    requires Consistent(ds, de, race) && s in ds && lo <= d < hi
    requires Collected(ds, de, race, lo, hi, shortcuts, origin, seen) && seen !! From(s, Ring(s, d))
    ensures Collected(ds, de, race, lo, hi, shortcuts', origin', seen + From(s, Ring(s, d)))
  {
    shortcuts', origin' := shortcuts, origin;
    var ring := Ring(s, d);
    var ends := ring;
    ghost var seen' := seen;
    while ends != {}
      invariant ends <= ring && seen' == seen + From(s, ring - ends)
      invariant Collected(ds, de, race, lo, hi, shortcuts', origin', seen')
      decreases |ends|
    {
      var e :| e in ends;
      FromNext(s, ring, ends, e);
      shortcuts', origin' := Consider(ds, de, race, lo, hi, s, d, e, shortcuts', origin', seen');
      seen' := seen' + {(s, e)};
      ends := ends - {e};
    }
    assert ring - ends == ring;
  }

  /** The loop over the cheat lengths `lo..hi` from one cheat start. */
  method CollectFrom(ds: map<Point, int>, de: map<Point, int>, race: int, lo: int, hi: int, s: Point,
                     shortcuts: map<set<Point>, int>, ghost origin: map<set<Point>, (Point, Point)>, ghost seen: set<(Point, Point)>)
    returns (shortcuts': map<set<Point>, int>, ghost origin': map<set<Point>, (Point, Point)>)
    requires Consistent(ds, de, race) && s in ds && 0 <= lo
    requires Collected(ds, de, race, lo, hi, shortcuts, origin, seen) && seen !! Pairs({s}, lo, hi)
    ensures Collected(ds, de, race, lo, hi, shortcuts', origin', seen + Pairs({s}, lo, hi))
  {
    shortcuts', origin' := shortcuts, origin;
    var d := lo;
    while d < hi
      invariant lo <= d && (d <= hi || d == lo)
      invariant Collected(ds, de, race, lo, hi, shortcuts', origin', seen + Pairs({s}, lo, d))
      decreases hi - d
    {
      assert From(s, Ring(s, d)) <= Pairs({s}, lo, hi);
      shortcuts', origin' := CollectRing(ds, de, race, lo, hi, s, d, shortcuts', origin', seen + Pairs({s}, lo, d));
      assert Pairs({s}, lo, d + 1) == Pairs({s}, lo, d) + From(s, Ring(s, d));
      d := d + 1;
    }
    assert Pairs({s}, lo, d) == Pairs({s}, lo, hi);
  }

  /** The outer loop of calculate_cheats: every cheat from every reached cell, under its key. */
  method CollectShortcuts(ds: map<Point, int>, de: map<Point, int>, race: int, lo: int, hi: int)
    returns (shortcuts: map<set<Point>, int>)
    requires Consistent(ds, de, race) && 0 <= lo
    ensures Shortcuts(ds, de, race, lo, hi, shortcuts)
  {
    shortcuts := map[];
    ghost var origin: map<set<Point>, (Point, Point)> := map[];
    var starts := ds.Keys;
    ghost var done: set<Point> := {};
    while starts != {}
      invariant starts !! done && starts + done == ds.Keys
      invariant Collected(ds, de, race, lo, hi, shortcuts, origin, Pairs(done, lo, hi))
      decreases |starts|
    {
      var s :| s in starts;
      shortcuts, origin := CollectFrom(ds, de, race, lo, hi, s, shortcuts, origin, Pairs(done, lo, hi));
      assert Pairs(done + {s}, lo, hi) == Pairs(done, lo, hi) + Pairs({s}, lo, hi);
      starts := starts - {s};
      done := done + {s};
    }
    forall k | k in shortcuts
      ensures exists c :: Cheat(ds, de, race, lo, hi, c) && Key(c) == k
    {
      assert Cheat(ds, de, race, lo, hi, origin[k]);
    }
    forall c | Cheat(ds, de, race, lo, hi, c)
      ensures Key(c) in shortcuts && shortcuts[Key(c)] == Saving(ds, de, race, c)
    {
      assert c in Pairs(done, lo, hi);
    }
  }

  // ---------------------------------------------------------------------------------------
  // The histogram of savings and its tally

  /** The keys among `keys` whose value in `m` is `v`. */
  function KeysWith<K>(m: map<K, int>, keys: set<K>, v: int): set<K>
  {
    set k | k in keys && k in m && m[k] == v
  }

  /** The keys of `m` whose value is at least `least`. */
  function KeysAtLeast<K>(m: map<K, int>, least: int): set<K>
  {
    set k | k in m && m[k] >= least
  }

  /** `hist` counts, for every value `m` gives a key of `keys`, the keys holding it. */
  ghost predicate HistogramOver<K>(m: map<K, int>, keys: set<K>, hist: map<int, int>)
  {
    && (forall v :: v in hist <==> exists k :: k in keys && k in m && m[k] == v)
    && (forall v :: v in hist ==> hist[v] == |KeysWith(m, keys, v)|)
  }

  lemma KeysWithAdd<K>(m: map<K, int>, keys: set<K>, k: K, w: int)
    requires k in m && k !in keys
    ensures KeysWith(m, keys + {k}, w) == if m[k] == w then KeysWith(m, keys, w) + {k} else KeysWith(m, keys, w)
    ensures m[k] == w ==> k !in KeysWith(m, keys, w)
  {
  }

  /** Counting one more key. */
  lemma HistogramAdd<K>(m: map<K, int>, keys: set<K>, hist: map<int, int>, k: K)
    requires HistogramOver(m, keys, hist) && k in m && k !in keys
    ensures var v := m[k];
            HistogramOver(m, keys + {k}, hist[v := if v in hist then hist[v] + 1 else 1])
  {
    var v := m[k];
    var hist' := hist[v := if v in hist then hist[v] + 1 else 1];
    forall w
      ensures w in hist' <==> exists k' :: k' in keys + {k} && k' in m && m[k'] == w
    {
      if w == v {
        assert k in keys + {k} && k in m && m[k] == w;
      }
    }
    forall w | w in hist'
      ensures hist'[w] == |KeysWith(m, keys + {k}, w)|
    {
      KeysWithAdd(m, keys, k, w);
      if w == v && v !in hist {
        assert KeysWith(m, keys, v) == {};
      }
    }
  }

  /** The closing loop of calculate_cheats: `*ret.entry(saving).or_insert(0) += 1`. */
  method Histogram<K>(m: map<K, int>) returns (hist: map<int, int>)
    ensures HistogramOver(m, m.Keys, hist)
  {
    hist := map[];
    var todo := m.Keys;
    ghost var done: set<K> := {};
    while todo != {}
      invariant todo !! done && todo + done == m.Keys
      invariant HistogramOver(m, done, hist)
      decreases |todo|
    {
      var k :| k in todo;
      var v := m[k];
      HistogramAdd(m, done, hist, k);
      hist := hist[v := if v in hist then hist[v] + 1 else 1];
      todo := todo - {k};
      done := done + {k};
    }
  }

  /** The keys whose value is at least `least` and among `values`. */
  ghost function KeysAmong<K>(m: map<K, int>, values: set<int>, least: int): set<K>
  {
    set k | k in m && m[k] in values && m[k] >= least
  }

  /** Counting one more histogram entry. */
  lemma TallyAdd<K>(m: map<K, int>, hist: map<int, int>, values: set<int>, least: int, v: int)
    requires HistogramOver(m, m.Keys, hist) && v in hist && v !in values
    ensures |KeysAmong(m, values + {v}, least)| == |KeysAmong(m, values, least)| + if v >= least then hist[v] else 0
  {
    if v >= least {
      assert KeysAmong(m, values + {v}, least) == KeysAmong(m, values, least) + KeysWith(m, m.Keys, v);
      assert KeysAmong(m, values, least) !! KeysWith(m, m.Keys, v);
    } else {
      assert KeysAmong(m, values + {v}, least) == KeysAmong(m, values, least);
    }
  }

  /** Once every histogram entry is counted, every key is. */
  lemma TallyDone<K>(m: map<K, int>, hist: map<int, int>, least: int)
    requires HistogramOver(m, m.Keys, hist)
    ensures KeysAmong(m, hist.Keys, least) == KeysAtLeast(m, least)
  {
  }

  /** The fold of part1/part2: the entries of the histogram whose value is at least `least`,
      summed, count the keys whose value is at least `least`. */
  method Tally<K>(ghost m: map<K, int>, hist: map<int, int>, least: int) returns (r: int)
    requires HistogramOver(m, m.Keys, hist)
    ensures r == |KeysAtLeast(m, least)|
  {
    r := 0;
    var todo: set<int> := hist.Keys;
    ghost var done: set<int> := {};
    assert KeysAmong(m, done, least) == {};
    while todo != {}
      invariant todo !! done && todo + done == hist.Keys
      invariant r == |KeysAmong(m, done, least)|
      decreases |todo|
    {
      NonEmptyHasMember(todo);
      var v: int :| v in todo;
      TallyAdd(m, hist, done, least, v);
      r := r + if v >= least then hist[v] else 0;
      todo := todo - {v};
      done := done + {v};
    }
    TallyDone(m, hist, least);
  }

  /** The cheats saving exactly `v` steps. */
  ghost function CheatsSaving(ds: map<Point, int>, de: map<Point, int>, race: int, lo: int, hi: int, v: int): (r: set<(Point, Point)>)
    ensures forall c :: c in r <==> Cheat(ds, de, race, lo, hi, c) && Saving(ds, de, race, c) == v
  {
    set s, e | s in ds && e in de && Cheat(ds, de, race, lo, hi, (s, e)) && Saving(ds, de, race, (s, e)) == v :: (s, e)
  }

  /** What calculate_cheats collects: a key for every cheat, holding its saving. */
  ghost predicate Shortcuts(ds: map<Point, int>, de: map<Point, int>, race: int, lo: int, hi: int, shortcuts: map<set<Point>, int>)
  {
    && (forall k :: k in shortcuts <==> exists c :: Cheat(ds, de, race, lo, hi, c) && Key(c) == k)
    && (forall c :: Cheat(ds, de, race, lo, hi, c) ==> Key(c) in shortcuts && shortcuts[Key(c)] == Saving(ds, de, race, c))
  }

  /** The histogram of the shortcut map counts cheats by their saving. */
  lemma HistogramCounts(ds: map<Point, int>, de: map<Point, int>, race: int, lo: int, hi: int, shortcuts: map<set<Point>, int>, hist: map<int, int>)
    requires Consistent(ds, de, race) && Shortcuts(ds, de, race, lo, hi, shortcuts)
    requires HistogramOver(shortcuts, shortcuts.Keys, hist)
    ensures forall v :: v in hist <==> CheatsSaving(ds, de, race, lo, hi, v) != {}
    ensures forall v :: v in hist ==> hist[v] == |CheatsSaving(ds, de, race, lo, hi, v)|
  {
    forall v
      ensures KeysWith(shortcuts, shortcuts.Keys, v) == set c | c in CheatsSaving(ds, de, race, lo, hi, v) :: Key(c)
    {
      forall k | k in KeysWith(shortcuts, shortcuts.Keys, v)
        ensures exists c :: c in CheatsSaving(ds, de, race, lo, hi, v) && Key(c) == k
      {
        var c :| Cheat(ds, de, race, lo, hi, c) && Key(c) == k;
        assert c in CheatsSaving(ds, de, race, lo, hi, v);
      }
    }
    forall v | v in hist
      ensures hist[v] == |CheatsSaving(ds, de, race, lo, hi, v)|
    {
      KeyCount(ds, de, race, lo, hi, CheatsSaving(ds, de, race, lo, hi, v));
    }
    forall v | CheatsSaving(ds, de, race, lo, hi, v) != {}
      ensures v in hist
    {
      var c :| c in CheatsSaving(ds, de, race, lo, hi, v);
      assert Key(c) in shortcuts;
    }
  }

  /** calculate_cheats: the histogram of the savings of all cheats of a length in `lo..hi`,
      measured with the distances from the start and from the end. */
  method CalculateCheats(race: Race, lo: int, hi: int) returns (hist: map<int, int>, ds: map<Point, int>, de: map<Point, int>)
    requires Track(race.level, race.bounds) && Open(race.level, race.bounds, race.start) && Open(race.level, race.bounds, race.end)
    requires exists n: nat :: Reach(race.level, race.bounds, race.start, race.end, n)
    requires 0 <= lo
    ensures Distances(race.level, race.bounds, race.start, ds) && Distances(race.level, race.bounds, race.end, de)
    ensures race.end in ds
    ensures forall v :: v in hist <==> CheatsSaving(ds, de, ds[race.end], lo, hi, v) != {}
    ensures forall v :: v in hist ==> hist[v] == |CheatsSaving(ds, de, ds[race.end], lo, hi, v)|
  {
    ds := GetDistances(race.level, race.bounds, race.start);
    de := GetDistances(race.level, race.bounds, race.end);
    var total := ds[race.end];
    DistancesConsistent(race.level, race.bounds, race.start, race.end, ds, de);
    var shortcuts := CollectShortcuts(ds, de, total, lo, hi);
    hist := Histogram(shortcuts);
    HistogramCounts(ds, de, total, lo, hi, shortcuts, hist);
  }

  /** Every cheat with its saving. */
  ghost function SavingsOf(ds: map<Point, int>, de: map<Point, int>, race: int, lo: int, hi: int): (r: map<(Point, Point), int>)
    ensures forall c :: c in r <==> Cheat(ds, de, race, lo, hi, c)
    ensures forall c :: c in r ==> Cheat(ds, de, race, lo, hi, c) && r[c] == Saving(ds, de, race, c)
  {
    var cheats := set s, e | s in ds && e in de && Cheat(ds, de, race, lo, hi, (s, e)) :: (s, e);
    map c | c in cheats :: Saving(ds, de, race, c)
  }

  /** calculate_cheats' histogram is the histogram of the savings of all cheats, so tallying it
      counts the cheats that save enough. */
  lemma SavingsHistogram(ds: map<Point, int>, de: map<Point, int>, race: int, lo: int, hi: int, hist: map<int, int>, least: int)
    requires forall v :: v in hist <==> CheatsSaving(ds, de, race, lo, hi, v) != {}
    requires forall v :: v in hist ==> hist[v] == |CheatsSaving(ds, de, race, lo, hi, v)|
    ensures HistogramOver(SavingsOf(ds, de, race, lo, hi), SavingsOf(ds, de, race, lo, hi).Keys, hist)
    ensures KeysAtLeast(SavingsOf(ds, de, race, lo, hi), least) == GoodCheats(ds, de, race, lo, hi, least)
  {
    var m := SavingsOf(ds, de, race, lo, hi);
    forall v
      ensures KeysWith(m, m.Keys, v) == CheatsSaving(ds, de, race, lo, hi, v)
    {
    }
    forall v | v in hist
      ensures exists c :: c in m.Keys && c in m && m[c] == v
    {
      var c :| c in CheatsSaving(ds, de, race, lo, hi, v);
      assert c in m;
    }
  }

  /** part1: the cheats of length 2 that save at least 100 steps. */
  method Part1(race: Race) returns (r: int, ghost ds: map<Point, int>, ghost de: map<Point, int>)
    requires Track(race.level, race.bounds) && Open(race.level, race.bounds, race.start) && Open(race.level, race.bounds, race.end)
    requires exists n: nat :: Reach(race.level, race.bounds, race.start, race.end, n)
    ensures Distances(race.level, race.bounds, race.start, ds) && Distances(race.level, race.bounds, race.end, de)
    ensures race.end in ds && r == |GoodCheats(ds, de, ds[race.end], 2, 3, 100)|
  {
    var hist;
    hist, ds, de := CalculateCheats(race, 2, 3);
    SavingsHistogram(ds, de, ds[race.end], 2, 3, hist, 100);
    r := Tally(SavingsOf(ds, de, ds[race.end], 2, 3), hist, 100);
  }

  /** part2: the cheats of length 2 to 20 that save at least 100 steps. */
  method Part2(race: Race) returns (r: int, ghost ds: map<Point, int>, ghost de: map<Point, int>)
    requires Track(race.level, race.bounds) && Open(race.level, race.bounds, race.start) && Open(race.level, race.bounds, race.end)
    requires exists n: nat :: Reach(race.level, race.bounds, race.start, race.end, n)
    ensures Distances(race.level, race.bounds, race.start, ds) && Distances(race.level, race.bounds, race.end, de)
    ensures race.end in ds && r == |GoodCheats(ds, de, ds[race.end], 2, 21, 100)|
  {
    var hist;
    hist, ds, de := CalculateCheats(race, 2, 21);
    SavingsHistogram(ds, de, ds[race.end], 2, 21, hist, 100);
    r := Tally(SavingsOf(ds, de, ds[race.end], 2, 21), hist, 100);
  }
}
