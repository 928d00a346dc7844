/** What the shortest-path solvers of days 16, 18 and 20 share: std's BinaryHeap as an abstract
    min-priority queue, grids and their bounds, finding a marked cell, and the sum of a cost
    grid that bounds how often a cell can improve. */
module Search {
  import opened Common
  import opened Geometry

  /** Grid bounds: a rectangle at the origin, small enough that no path length reaches the
      `i64::MAX` that marks an unvisited cell. */
  predicate GoodBounds(bounds: Rect)
  {
    bounds.x == 0 && bounds.y == 0 && bounds.width >= 0 && bounds.height >= 0 && bounds.width * bounds.height < I64Max
  }

  /** A grid with the dimensions of the bounds. */
  predicate Shaped<T>(g: seq<seq<T>>, bounds: Rect)
  {
    |g| == bounds.height && forall y :: 0 <= y < |g| ==> |g[y]| == bounds.width
  }

  /** `line.find(c)` / `line.iter().position(|x| *x == c)`: the first index of `c` in a row. */
  function IndexOf(row: seq<char>, c: char): (r: Option<nat>)
    ensures r.Some? ==> r.value < |row| && row[r.value] == c && forall i :: 0 <= i < r.value ==> row[i] != c
    ensures r.None? ==> forall i :: 0 <= i < |row| ==> row[i] != c
  {
    if row == [] then None
    else if row[0] == c then Some(0)
    else match IndexOf(row[1..], c)
      case Some(i) => Some(i + 1)
      case None => None
  }

  /** The cell the parse loops keep for `c`: the first row holding it, at its first index there. */
  function Locate(grid: seq<seq<char>>, c: char): (r: Option<Point>)
    ensures r.Some? ==> var p := r.value;
              && 0 <= p.y < |grid| && 0 <= p.x < |grid[p.y]| && grid[p.y][p.x] == c
              && (forall x :: 0 <= x < p.x ==> grid[p.y][x] != c)
              && (forall y, x :: 0 <= y < p.y && 0 <= x < |grid[y]| ==> grid[y][x] != c)
    ensures r.None? ==> forall y, x :: 0 <= y < |grid| && 0 <= x < |grid[y]| ==> grid[y][x] != c
  {
    if grid == [] then None
    else
      var last := |grid| - 1;
      match Locate(grid[..last], c)
      case Some(p) => Some(p)
      case None =>
        match IndexOf(grid[last], c)
        case Some(i) => Some(Point(i, last))
        case None => None
  }

  /** `t` is an item of least key in the queue. */
  predicate Least<T>(pq: multiset<T>, key: T -> int, t: T)
  {
    t in pq && forall o :: o in pq ==> key(t) <= key(o)
  }

  /** Either of two items is least in a queue made of a queue and one item more. */
  lemma LeastAdd<T>(rest: multiset<T>, x: T, key: T -> int, m: T)
    requires Least(rest, key, m)
    ensures Least(rest + multiset{x}, key, if key(x) <= key(m) then x else m)
  {
    var pq := rest + multiset{x};
    forall o | o in pq
      ensures key(if key(x) <= key(m) then x else m) <= key(o)
    {
      if o != x {
        assert o in rest;
      }
    }
  }

  /** A non-empty queue holds an item of least key. */
  lemma {:induction false} LeastExists<T>(pq: multiset<T>, key: T -> int)
    requires pq != multiset{}
    ensures exists t :: Least(pq, key, t)
    decreases |pq|
  {
    var x :| x in pq;
    var rest := pq - multiset{x};
    assert pq == rest + multiset{x};
    if rest == multiset{} {
      assert pq == multiset{x};
      assert Least(pq, key, x);
    } else {
      LeastExists(rest, key);
      var m :| Least(rest, key, m);
      LeastAdd(rest, x, key, m);
    }
  }

  /** `BinaryHeap::pop` where the item order is the reverse of `key`: an item of least key
      leaves the queue.  Among items of equal key the heap's layout decides, which the model
      leaves open. */
  method Pop<T>(pq: multiset<T>, key: T -> int) returns (item: T, rest: multiset<T>)
    requires pq != multiset{}
    ensures item in pq && rest == pq - multiset{item} && |rest| == |pq| - 1
    ensures forall o :: o in pq ==> key(item) <= key(o)
  {
    LeastExists(pq, key);
    item :| Least(pq, key, item);
    rest := pq - multiset{item};
  }

  lemma MultisetAssociative<T>(a: multiset<T>, b: multiset<T>, c: multiset<T>)
    ensures a + b + c == a + (b + c)
  {
  }

  /** The sum of every entry of a grid. */
  function Total(g: seq<seq<int>>): int
  {
    if g == [] then 0 else Total(g[..|g| - 1]) + RowTotal(g[|g| - 1])
  }

  function RowTotal(row: seq<int>): int
  {
    if row == [] then 0 else RowTotal(row[..|row| - 1]) + row[|row| - 1]
  }

  lemma {:induction false} RowTotalUpdate(row: seq<int>, i: nat, v: int)
    requires i < |row|
    ensures RowTotal(row[i := v]) == RowTotal(row) - row[i] + v
  {
    var last := |row| - 1;
    if i < last {
      RowTotalUpdate(row[..last], i, v);
      assert row[i := v][..last] == row[..last][i := v];
    } else {
      assert row[i := v][..last] == row[..last];
    }
  }

  /** Changing one entry changes the total by the difference. */
  lemma {:induction false} TotalUpdate(g: seq<seq<int>>, y: nat, x: nat, v: int)
    requires y < |g| && x < |g[y]|
    ensures Total(g[y := g[y][x := v]]) == Total(g) - g[y][x] + v
  {
    var last := |g| - 1;
    var g' := g[y := g[y][x := v]];
    if y < last {
      TotalUpdate(g[..last], y, x, v);
      assert g'[..last] == g[..last][y := g[y][x := v]];
    } else {
      assert g'[..last] == g[..last];
      RowTotalUpdate(g[y], x, v);
    }
  }

  lemma {:induction false} RowTotalNonNegative(row: seq<int>)
    requires forall i :: 0 <= i < |row| ==> row[i] >= 0
    ensures RowTotal(row) >= 0
  {
    if row != [] {
      RowTotalNonNegative(row[..|row| - 1]);
    }
  }

  /** A grid of non-negative entries has a non-negative total. */
  lemma {:induction false} TotalNonNegative(g: seq<seq<int>>)
    requires forall y, x :: 0 <= y < |g| && 0 <= x < |g[y]| ==> g[y][x] >= 0
    ensures Total(g) >= 0
  {
    if g != [] {
      TotalNonNegative(g[..|g| - 1]);
      RowTotalNonNegative(g[|g| - 1]);
    }
  }

  /** The number of entries below `limit`: the cells a search has reached. */
  function CountBelow(g: seq<seq<int>>, limit: int): (n: nat)
  {
    if g == [] then 0 else CountBelow(g[..|g| - 1], limit) + RowCountBelow(g[|g| - 1], limit)
  }

  function RowCountBelow(row: seq<int>, limit: int): (n: nat)
    ensures n <= |row|
  {
    if row == [] then 0 else RowCountBelow(row[..|row| - 1], limit) + (if row[|row| - 1] < limit then 1 else 0)
  }

  lemma {:induction false} RowCountBelowUpdate(row: seq<int>, i: nat, v: int, limit: int)
    requires i < |row| && row[i] >= limit && v < limit
    ensures RowCountBelow(row[i := v], limit) == RowCountBelow(row, limit) + 1
  {
    var last := |row| - 1;
    if i < last {
      RowCountBelowUpdate(row[..last], i, v, limit);
      assert row[i := v][..last] == row[..last][i := v];
    } else {
      assert row[i := v][..last] == row[..last];
    }
  }

  /** Bringing one entry below the limit counts one more cell. */
  lemma {:induction false} CountBelowUpdate(g: seq<seq<int>>, y: nat, x: nat, v: int, limit: int)
    requires y < |g| && x < |g[y]| && g[y][x] >= limit && v < limit
    ensures CountBelow(g[y := g[y][x := v]], limit) == CountBelow(g, limit) + 1
  {
    var last := |g| - 1;
    var g' := g[y := g[y][x := v]];
    if y < last {
      CountBelowUpdate(g[..last], y, x, v, limit);
      assert g'[..last] == g[..last][y := g[y][x := v]];
    } else {
      assert g'[..last] == g[..last];
      RowCountBelowUpdate(g[y], x, v, limit);
    }
  }

  /** A grid with no entry below the limit counts none. */
  lemma {:induction false} CountBelowNone(g: seq<seq<int>>, limit: int)
    requires forall y, x :: 0 <= y < |g| && 0 <= x < |g[y]| ==> g[y][x] >= limit
    ensures CountBelow(g, limit) == 0
  {
    if g != [] {
      CountBelowNone(g[..|g| - 1], limit);
      RowCountBelowNone(g[|g| - 1], limit);
    }
  }

  lemma {:induction false} RowCountBelowNone(row: seq<int>, limit: int)
    requires forall x :: 0 <= x < |row| ==> row[x] >= limit
    ensures RowCountBelow(row, limit) == 0
  {
    if row != [] {
      RowCountBelowNone(row[..|row| - 1], limit);
    }
  }

  /** A grid of `height` rows of `width` entries has at most `width * height` entries below
      any limit. */
  lemma {:induction false} CountBelowBound(g: seq<seq<int>>, width: nat, limit: int)
    requires forall y :: 0 <= y < |g| ==> |g[y]| == width
    ensures CountBelow(g, limit) <= width * |g|
  {
    if g != [] {
      CountBelowBound(g[..|g| - 1], width, limit);
    }
  }
}
