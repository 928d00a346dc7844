/** Day 12: a garden of plots labelled by letters.  A region is a maximal 4-connected set of
    plots with the same letter; part 1 prices each region at area × fence count, part 2 at
    area × number of straight sides. */
module Day12 {
  import opened Common
  import opened Geometry

  /** DIRECTIONS, in the source's order: up, right, down, left. */
  const Directions: seq<Point> := [Point(0, -1), Point(1, 0), Point(0, 1), Point(-1, 0)]

  /** The garden plots: a letter per plot, None once a plot has been assigned to a region. */
  type Map = seq<seq<Option<char>>>

  /** A fence between a plot of a region and a neighbouring cell outside it. */
  datatype Fence = Fence(inside: Point, outside: Point)

  /** A region's letter, its size and its fences. */
  datatype Area = Area(id: char, area: nat, fences: set<Fence>)

  // ---------------------------------------------------------------------------------------
  // Cells and neighbours

  /** Two cells at Manhattan distance 1 are exactly a cell and its neighbour in one of the four
      directions: the condition Fence::new asserts. */
  lemma NeighbourIsDirection(p: Point, q: Point)
    ensures Distance(p, q) == 1 <==> exists d :: 0 <= d < 4 && q == Add(p, Directions[d])
  {
    if Distance(p, q) == 1 {
      if q.x == p.x + 1 {
        assert q == Add(p, Directions[1]);
      } else if q.x == p.x - 1 {
        assert q == Add(p, Directions[3]);
      } else if q.y == p.y + 1 {
        assert q == Add(p, Directions[2]);
      } else {
        assert q == Add(p, Directions[0]);
      }
    }
  }

  /** A step in any direction reaches a cell at distance 1. */
  lemma StepDistance(p: Point, d: nat)
    requires d < 4
    ensures Distance(p, Add(p, Directions[d])) == 1
  {
  }

  /** Fence::new: the two cells must be neighbours. */
  function NewFence(inside: Point, outside: Point): Fence
    requires Distance(inside, outside) == 1
  {
    Fence(inside, outside)
  }

  /** Going one way and then the opposite way returns to the start. */
  lemma Opposite(p: Point, d: nat)
    requires d < 4
    ensures Add(Add(p, Directions[d]), Directions[(d + 2) % 4]) == p
  {
  }

  /** The cells inside the bounds. */
  function Cells(b: Rect): set<Point>
  {
    set x, y | b.x <= x < b.width && b.y <= y < b.height :: Point(x, y)
  }

  /** A plot with letter `id`: inside the bounds and still carrying that letter. */
  predicate Plot(m: Map, b: Rect, id: char, c: Point)
  {
    IsInside(b, c) && 0 <= c.y < |m| && 0 <= c.x < |m[c.y]| && m[c.y][c.x] == Some(id)
  }

  /** A fence of a region with letter `id`: from one of its plots to a neighbouring cell that is
      not one. */
  predicate FenceOf(m: Map, b: Rect, id: char, f: Fence)
  {
    Plot(m, b, id, f.inside) && !Plot(m, b, id, f.outside) && Distance(f.inside, f.outside) == 1
  }

  /** Every row reaches the width of the bounds, which start at the origin and have the map's
      height (what build_areas needs to index every cell). */
  predicate Wide(m: Map, b: Rect)
  {
    b.x == 0 && b.y == 0 && b.width >= 0 && b.height == |m| && forall y :: 0 <= y < |m| ==> |m[y]| >= b.width
  }

  /** The sizes of nested differences add up. */
  lemma DiffSizes<T>(a: set<T>, b: set<T>, c: set<T>)
    requires a <= b <= c
    ensures |c - a| == |b - a| + |c - b|
  {
    assert c - a == (b - a) + (c - b);
  }

  /** Marking one more cell visited shrinks the unvisited cells. */
  lemma Shrinks(cells: set<Point>, before: set<Point>, after: set<Point>, p: Point)
    requires before <= after && p in cells && p !in before && p in after
    ensures |cells - after| < |cells - before|
  {
    var a, b := cells - after, cells - before;
    assert a <= b && b == a + (b - a) && p in b - a;
  }

  /** Every neighbour of `c` with the letter is visited, and every other neighbour is fenced
      off. */
  predicate Surrounded(m: Map, b: Rect, id: char, c: Point, visited: set<Point>, fences: set<Fence>)
  {
    forall d :: 0 <= d < 4 ==>
      (Plot(m, b, id, Add(c, Directions[d])) ==> Add(c, Directions[d]) in visited)
      && (!Plot(m, b, id, Add(c, Directions[d])) ==> Fence(c, Add(c, Directions[d])) in fences)
  }

  /** The visited and fence sets only grow, and hold plots and fences of the region's letter. */
  predicate Grows(m: Map, b: Rect, id: char, visited: set<Point>, visited': set<Point>, fences: set<Fence>, fences': set<Fence>)
  {
    && visited <= visited' && fences <= fences'
    && (forall v :: v in visited' ==> Plot(m, b, id, v))
    && (forall f :: f in fences' ==> FenceOf(m, b, id, f))
  }

  lemma SurroundedGrows(m: Map, b: Rect, id: char, c: Point, v: set<Point>, v': set<Point>, f: set<Fence>, f': set<Fence>)
    requires Surrounded(m, b, id, c, v, f) && v <= v' && f <= f'
    ensures Surrounded(m, b, id, c, v', f')
  {
  }

  /** The loop of rec_map_area after `i` directions from `p`. */
  predicate Flooding(m: Map, b: Rect, id: char, p: Point, i: nat, visited: set<Point>, v: set<Point>, fences: set<Fence>, f: set<Fence>)
  {
    && Grows(m, b, id, visited, v, fences, f) && p in v
    && (forall c :: c in v - visited - {p} ==> Surrounded(m, b, id, c, v, f))
    && (forall d :: 0 <= d < i && d < 4 ==>
          (Plot(m, b, id, Add(p, Directions[d])) ==> Add(p, Directions[d]) in v)
          && (!Plot(m, b, id, Add(p, Directions[d])) ==> Fence(p, Add(p, Directions[d])) in f))
    && (forall g :: g in f - fences ==> g.inside in v - visited)
  }

  /** One more direction of the loop: the recursive call's guarantees extend the loop's. */
  lemma FloodingStep(m: Map, b: Rect, id: char, p: Point, i: nat, visited: set<Point>, v: set<Point>, fences: set<Fence>, f: set<Fence>,
                     v2: set<Point>, f2: set<Fence>)
    requires i < 4 && Flooding(m, b, id, p, i, visited, v, fences, f) && p !in visited
    requires Grows(m, b, id, v, v2, f, f2)
    requires Plot(m, b, id, Add(p, Directions[i])) ==> Add(p, Directions[i]) in v2
    requires forall c :: c in v2 - v ==> Surrounded(m, b, id, c, v2, f2)
    requires !Plot(m, b, id, Add(p, Directions[i])) ==> Fence(p, Add(p, Directions[i])) in f2
    requires forall g :: g in f2 - f ==> g.inside in v2 - v || g.inside == p
    ensures Flooding(m, b, id, p, i + 1, visited, v2, fences, f2)
  {
    forall c | c in v2 - visited - {p}
      ensures Surrounded(m, b, id, c, v2, f2)
    {
      if c in v {
        SurroundedGrows(m, b, id, c, v, v2, f, f2);
      }
    }
  }

  /** After the four directions every newly visited plot, `p` included, is surrounded. */
  lemma FloodingDone(m: Map, b: Rect, id: char, p: Point, visited: set<Point>, v: set<Point>, fences: set<Fence>, f: set<Fence>)
    requires Flooding(m, b, id, p, 4, visited, v, fences, f)
    ensures forall c :: c in v - visited ==> Surrounded(m, b, id, c, v, f)
  {
    assert Surrounded(m, b, id, p, v, f);
  }

  // ---------------------------------------------------------------------------------------
  // Regions

  /** A set of plots of letter `id` that holds every same-letter neighbour of its plots. */
  predicate Closed(m: Map, b: Rect, id: char, r: set<Point>)
  {
    forall c, d :: c in r && 0 <= d < 4 && Plot(m, b, id, Add(c, Directions[d])) ==> Add(c, Directions[d]) in r
  }

  /** An area describes region `r` of the parsed map: its letter, its size, and as fences
      exactly the steps from a plot of the region to a neighbouring cell outside it. */
  ghost predicate RegionOf(m: Map, b: Rect, a: Area, r: set<Point>)
  {
    && r != {} && a.area == |r|
    && (forall c :: c in r ==> Plot(m, b, a.id, c))
    && Closed(m, b, a.id, r)
    && (forall f :: f in a.fences <==> f.inside in r && Distance(f.inside, f.outside) == 1 && f.outside !in r)
  }

  /** The plots of all regions. */
  function Union(rs: seq<set<Point>>): set<Point>
  {
    if rs == [] then {} else Union(rs[..|rs| - 1]) + rs[|rs| - 1]
  }

  lemma {:induction false} UnionMember(rs: seq<set<Point>>, c: Point)
    ensures c in Union(rs) <==> exists j :: 0 <= j < |rs| && c in rs[j]
  {
    if rs != [] {
      var front := rs[..|rs| - 1];
      UnionMember(front, c);
      if c in Union(front) {
        var j :| 0 <= j < |front| && c in front[j];
        assert rs[j] == front[j];
      }
      if j :| 0 <= j < |rs| && c in rs[j] {
        if j < |front| {
          assert front[j] == rs[j];
        }
      }
    }
  }

  lemma UnionAppend(rs: seq<set<Point>>, r: set<Point>)
    ensures Union(rs + [r]) == Union(rs) + r
  {
    assert (rs + [r])[..|rs|] == rs;
  }

  /** No plot is in two regions. */
  predicate Disjoint(rs: seq<set<Point>>)
  {
    forall i, j :: 0 <= i < j < |rs| ==> rs[i] !! rs[j]
  }

  /** The sizes of the areas. */
  function TotalArea(areas: seq<Area>): nat
  {
    if areas == [] then 0 else TotalArea(areas[..|areas| - 1]) + areas[|areas| - 1].area
  }

  /** The cells of the map as build_areas has left them: those of the regions found so far are
      None, the others keep the parsed letter. */
  predicate Tracks(m: Map, orig: Map, b: Rect, u: set<Point>)
  {
    && |m| == |orig| && (forall y :: 0 <= y < |m| ==> |m[y]| == |orig[y]|)
    && forall y, x :: 0 <= y < |m| && 0 <= x < |m[y]| ==>
         m[y][x] == (if Point(x, y) in u && IsInside(b, Point(x, y)) then None else orig[y][x])
  }

  /** What build_areas keeps between cells: the areas so far describe disjoint regions of the
      parsed map whose sizes add up, and exactly their plots are cleared. */
  ghost predicate Building(m: Map, orig: Map, b: Rect, areas: seq<Area>, rs: seq<set<Point>>)
  {
    && |areas| == |rs|
    && (forall i :: 0 <= i < |rs| ==> RegionOf(orig, b, areas[i], rs[i]))
    && Disjoint(rs)
    && TotalArea(areas) == |Union(rs)|
    && Tracks(m, orig, b, Union(rs))
  }

  /** Every cell of the parsed map holds a letter. */
  predicate AllLetters(m: Map)
  {
    forall y, x :: 0 <= y < |m| && 0 <= x < |m[y]| ==> m[y][x].Some?
  }

  /** What rec_map_area guarantees about a region flooded from scratch on the current map. */
  predicate Flooded(m: Map, b: Rect, id: char, r: set<Point>, fences: set<Fence>)
  {
    && Grows(m, b, id, {}, r, {}, fences)
    && (forall c :: c in r ==> Surrounded(m, b, id, c, r, fences))
    && (forall f :: f in fences ==> f.inside in r)
  }

  /** The flooded plots are fresh plots of the parsed map. */
  lemma FloodedFresh(m: Map, orig: Map, b: Rect, areas: seq<Area>, rs: seq<set<Point>>, id: char, r: set<Point>, fences: set<Fence>)
    requires Building(m, orig, b, areas, rs) && Flooded(m, b, id, r, fences)
    ensures forall c :: c in r ==> c !in Union(rs) && Plot(orig, b, id, c)
  {
  }

  /** The flooded plots hold every same-letter neighbour in the parsed map: such a neighbour
      cannot lie in an earlier region, or that region, being closed, would already hold the
      plot it neighbours. */
  lemma FloodedClosed(m: Map, orig: Map, b: Rect, areas: seq<Area>, rs: seq<set<Point>>, id: char, r: set<Point>, fences: set<Fence>)
    requires Building(m, orig, b, areas, rs) && Flooded(m, b, id, r, fences)
    ensures Closed(orig, b, id, r)
  {
    var u := Union(rs);
    FloodedFresh(m, orig, b, areas, rs, id, r, fences);
    forall c, d | c in r && 0 <= d < 4 && Plot(orig, b, id, Add(c, Directions[d]))
      ensures Add(c, Directions[d]) in r
    {
      var n := Add(c, Directions[d]);
      if n in u {
        UnionMember(rs, n);
        var j :| 0 <= j < |rs| && n in rs[j];
        assert RegionOf(orig, b, areas[j], rs[j]);
        Opposite(c, d);
        UnionMember(rs, c);
        assert false;
      } else {
        assert Plot(m, b, id, n);
        assert Surrounded(m, b, id, c, r, fences);
      }
    }
  }

  /** The recorded fences are exactly the steps out of the flooded plots. */
  lemma FloodedFences(m: Map, b: Rect, id: char, r: set<Point>, fences: set<Fence>)
    requires Flooded(m, b, id, r, fences)
    ensures forall f :: f in fences <==> f.inside in r && Distance(f.inside, f.outside) == 1 && f.outside !in r
  {
    forall f: Fence | f.inside in r && Distance(f.inside, f.outside) == 1 && f.outside !in r
      ensures f in fences
    {
      NeighbourIsDirection(f.inside, f.outside);
      var d :| 0 <= d < 4 && f.outside == Add(f.inside, Directions[d]);
      assert Surrounded(m, b, id, f.inside, r, fences);
    }
  }

  /** The region flooded from a fresh plot is a region of the parsed map, disjoint from those
      found before. */
  lemma NewRegion(m: Map, orig: Map, b: Rect, areas: seq<Area>, rs: seq<set<Point>>, id: char, r: set<Point>, fences: set<Fence>)
    requires Building(m, orig, b, areas, rs) && r != {} && Flooded(m, b, id, r, fences)
    ensures RegionOf(orig, b, Area(id, |r|, fences), r) && r !! Union(rs)
  {
    FloodedFresh(m, orig, b, areas, rs, id, r, fences);
    FloodedClosed(m, orig, b, areas, rs, id, r, fences);
    FloodedFences(m, b, id, r, fences);
  }

  lemma DisjointAppend(rs: seq<set<Point>>, r: set<Point>)
    requires Disjoint(rs) && r !! Union(rs)
    ensures Disjoint(rs + [r])
  {
    forall i, j | 0 <= i < j < |rs| + 1
      ensures (rs + [r])[i] !! (rs + [r])[j]
    {
      if j == |rs| {
        forall c | c in rs[i]
          ensures c !in r
        {
          UnionMember(rs, c);
        }
      }
    }
  }

  lemma TotalAreaAppend(areas: seq<Area>, a: Area)
    ensures TotalArea(areas + [a]) == TotalArea(areas) + a.area
  {
    assert (areas + [a])[..|areas|] == areas;
  }

  /** Clearing the new region's plots keeps what build_areas keeps. */
  lemma AddRegion(m': Map, orig: Map, b: Rect, areas: seq<Area>, rs: seq<set<Point>>, a: Area, r: set<Point>)
    requires |areas| == |rs| && (forall i :: 0 <= i < |rs| ==> RegionOf(orig, b, areas[i], rs[i]))
    requires Disjoint(rs) && TotalArea(areas) == |Union(rs)|
    requires RegionOf(orig, b, a, r) && r !! Union(rs)
    requires Tracks(m', orig, b, Union(rs) + r)
    ensures Building(m', orig, b, areas + [a], rs + [r])
  {
    UnionAppend(rs, r);
    DisjointAppend(rs, r);
    TotalAreaAppend(areas, a);
  }

  /** Once every cell belongs to a region, the regions cover exactly the cells. */
  lemma UnionIsCells(orig: Map, b: Rect, areas: seq<Area>, rs: seq<set<Point>>)
    requires |areas| == |rs| && forall i :: 0 <= i < |rs| ==> RegionOf(orig, b, areas[i], rs[i])
    requires forall y, x :: b.y <= y < b.height && b.x <= x < b.width ==> Point(x, y) in Union(rs)
    ensures Union(rs) == Cells(b)
  {
    forall c | c in Union(rs)
      ensures c in Cells(b)
    {
      UnionMember(rs, c);
      var j :| 0 <= j < |rs| && c in rs[j];
      assert Plot(orig, b, areas[j].id, c);
    }
  }

  /** The cells of row `y` left of `w`. */
  function RowCells(w: int, y: int): set<Point>
  {
    set x | 0 <= x < w :: Point(x, y)
  }

  lemma {:induction false} RowCellsCount(w: nat, y: int)
    ensures |RowCells(w, y)| == w
  {
    if w > 0 {
      RowCellsCount(w - 1, y);
      assert RowCells(w, y) == RowCells(w - 1, y) + {Point(w - 1, y)};
    }
  }

  /** The cells of `h` rows are those of the first h - 1 rows and those of the last. */
  lemma CellsSplit(w: int, h: int)
    requires h > 0
    ensures Cells(Rect(0, 0, w, h)) == Cells(Rect(0, 0, w, h - 1)) + RowCells(w, h - 1)
    ensures Cells(Rect(0, 0, w, h - 1)) !! RowCells(w, h - 1)
  {
    var all, above, row := Cells(Rect(0, 0, w, h)), Cells(Rect(0, 0, w, h - 1)), RowCells(w, h - 1);
    forall c | c in all
      ensures c in above + row
    {
      if c.y < h - 1 {
        assert c == Point(c.x, c.y);
      }
    }
  }

  /** A rectangle at the origin has width × height cells. */
  lemma {:induction false} CellsCount(b: Rect, h: nat)
    requires b.x == 0 && b.y == 0 && b.width >= 0 && h <= b.height
    ensures |Cells(Rect(0, 0, b.width, h))| == b.width * h
  {
    if h > 0 {
      CellsCount(b, h - 1);
      RowCellsCount(b.width, h - 1);
      CellsSplit(b.width, h);
      assert b.width * h == b.width * (h - 1) + b.width;
    }
  }

  /** Every cell of the rows above `y`, and of row `y` left of `x`, is in `u`. */
  predicate Covered(u: set<Point>, w: int, y: int, x: int)
  {
    && (forall y', x' :: 0 <= y' < y && 0 <= x' < w ==> Point(x', y') in u)
    && (forall x' :: 0 <= x' < x ==> Point(x', y) in u)
  }

  lemma CoveredStep(u: set<Point>, u': set<Point>, w: int, y: int, x: int)
    requires Covered(u, w, y, x) && u <= u' && Point(x, y) in u'
    ensures Covered(u', w, y, x + 1)
  {
  }

  lemma CoveredRow(u: set<Point>, w: int, y: int)
    requires Covered(u, w, y, w)
    ensures Covered(u, w, y + 1, 0)
  {
  }

  lemma TracksWide(m: Map, orig: Map, b: Rect, u: set<Point>)
    requires Wide(orig, b) && Tracks(m, orig, b, u)
    ensures Wide(m, b)
  {
  }

  /** A cell of the sweep that no longer holds a letter belongs to an earlier region. */
  lemma LeftCovered(m: Map, orig: Map, b: Rect, u: set<Point>, x: int, y: int)
    requires Wide(orig, b) && AllLetters(orig) && Tracks(m, orig, b, u)
    requires 0 <= x < b.width && 0 <= y < b.height && m[y][x].None?
    ensures Point(x, y) in u
  {
  }

  /** Clearing the flooded plots, all of which hold the letter, clears exactly them. */
  lemma ClearTracks(m: Map, m': Map, orig: Map, b: Rect, u: set<Point>, r: set<Point>, id: char)
    requires Tracks(m, orig, b, u) && forall c :: c in r ==> Plot(m, b, id, c)
    requires |m'| == |m| && forall y :: 0 <= y < |m'| ==> |m'[y]| == |m[y]|
    requires forall y, x :: 0 <= y < |m'| && 0 <= x < |m'[y]| ==>
               m'[y][x] == (if Point(x, y) in r && m[y][x] == Some(id) then None else m[y][x])
    ensures Tracks(m', orig, b, u + r)
  {
    forall y, x | 0 <= y < |m'| && 0 <= x < |m'[y]|
      ensures m'[y][x] == (if Point(x, y) in u + r && IsInside(b, Point(x, y)) then None else orig[y][x])
    {
      if Point(x, y) in r {
        assert Plot(m, b, id, Point(x, y));
      }
    }
  }

  /** A flooded region, cleared from the map and recorded, keeps what build_areas keeps. */
  lemma Recorded(m: Map, m': Map, orig: Map, b: Rect, areas: seq<Area>, rs: seq<set<Point>>, id: char, r: set<Point>, fences: set<Fence>)
    requires Building(m, orig, b, areas, rs) && Flooded(m, b, id, r, fences) && r != {}
    requires |m'| == |m| && forall y :: 0 <= y < |m'| ==> |m'[y]| == |m[y]|
    requires forall y, x :: 0 <= y < |m'| && 0 <= x < |m'[y]| ==>
               m'[y][x] == (if Point(x, y) in r && m[y][x] == Some(id) then None else m[y][x])
    ensures Building(m', orig, b, areas + [Area(id, |r|, fences)], rs + [r])
    ensures Union(rs + [r]) == Union(rs) + r
  {
    NewRegion(m, orig, b, areas, rs, id, r, fences);
    ClearTracks(m, m', orig, b, Union(rs), r, id);
    AddRegion(m', orig, b, areas, rs, Area(id, |r|, fences), r);
    UnionAppend(rs, r);
  }

  // ---------------------------------------------------------------------------------------
  // The garden

  class Garden {
    var plots: Map
    var bounds: Rect
    var areas: seq<Area>
    /** The plots of each area, in the order of `areas`. */
    ghost var regions: seq<set<Point>>

    /** Garden::parse for a non-empty input: every character becomes Some(letter); the bounds
        are the first line's width and the number of lines. */
    constructor (lines: seq<string>)
      requires |lines| > 0
      ensures plots == PlotsOf(lines)
      ensures bounds == Rect(0, 0, |lines[0]|, |lines|) && areas == [] && regions == []
    {
      plots := PlotsOf(lines);
      bounds := Rect(0, 0, |lines[0]|, |lines|);
      areas := [];
      regions := [];
    }

    /** rec_map_area: flood the region with letter `id` from `p`, coming from `prev`.  Returns
        the number of newly visited plots and the grown visited and fence sets. */
    method MapArea(id: char, p: Point, prev: Option<Point>, visited: set<Point>, fences: set<Fence>)
      returns (size: nat, visited': set<Point>, fences': set<Fence>)
      requires forall v :: v in visited ==> Plot(plots, bounds, id, v)
      requires forall f :: f in fences ==> FenceOf(plots, bounds, id, f)
      requires prev.Some? ==> Plot(plots, bounds, id, prev.value) && Distance(prev.value, p) == 1
      ensures Grows(plots, bounds, id, visited, visited', fences, fences') && size == |visited' - visited|
      ensures Plot(plots, bounds, id, p) ==> p in visited'
      ensures forall c :: c in visited' - visited ==> Surrounded(plots, bounds, id, c, visited', fences')
      ensures prev.Some? && !Plot(plots, bounds, id, p) ==> Fence(prev.value, p) in fences'
      ensures forall f :: f in fences' - fences ==> f.inside in visited' - visited || (prev.Some? && f.inside == prev.value)
      decreases |Cells(bounds) - visited|, 1
    {
      size, visited', fences' := 0, visited, fences;
      if p !in visited {
        if IsInside(bounds, p) && 0 <= p.y < |plots| && 0 <= p.x < |plots[p.y]| && plots[p.y][p.x] == Some(id) {
          size, visited', fences' := FloodAround(id, p, visited, fences);
        } else if prev.Some? {
          fences' := fences' + {NewFence(prev.value, p)};
        }
      }
    }

    /** The body of rec_map_area for an unvisited plot: visit it, then recurse in every
        direction. */
    method FloodAround(id: char, p: Point, visited: set<Point>, fences: set<Fence>)
      returns (size: nat, visited': set<Point>, fences': set<Fence>)
      requires forall v :: v in visited ==> Plot(plots, bounds, id, v)
      requires forall f :: f in fences ==> FenceOf(plots, bounds, id, f)
      requires Plot(plots, bounds, id, p) && p !in visited
      ensures Grows(plots, bounds, id, visited, visited', fences, fences') && size == |visited' - visited|
      ensures p in visited'
      ensures forall c :: c in visited' - visited ==> Surrounded(plots, bounds, id, c, visited', fences')
      ensures forall f :: f in fences' - fences ==> f.inside in visited' - visited
      decreases |Cells(bounds) - visited|, 0
    {
      visited', fences' := visited + {p}, fences;
      size := 1;
      assert p == Point(p.x, p.y) && p in Cells(bounds);
      for i := 0 to 4
        invariant Flooding(plots, bounds, id, p, i, visited, visited', fences, fences')
        invariant size == |visited' - visited|
      {
        var target := Add(p, Directions[i]);
        Shrinks(Cells(bounds), visited, visited', p);
        StepDistance(p, i);
        var s, v2, f2 := MapArea(id, target, Some(p), visited', fences');
        DiffSizes(visited, visited', v2);
        FloodingStep(plots, bounds, id, p, i, visited, visited', fences, fences', v2, f2);
        size, visited', fences' := size + s, v2, f2;
      }
      FloodingDone(plots, bounds, id, p, visited, visited', fences, fences');
    }

    /** build_areas: sweep the cells row by row; every cell still holding a letter floods a new
        region, which is cleared from the map and recorded as an area.  Afterwards the regions
        partition the map's cells, each area describes its region of the parsed map, and the
        sizes add up to the number of cells. */
    method BuildAreas()
      requires Wide(plots, bounds) && AllLetters(plots)
      modifies this
      ensures bounds == old(bounds) && |areas| == |regions|
      ensures forall i :: 0 <= i < |areas| ==> RegionOf(old(plots), bounds, areas[i], regions[i])
      ensures Disjoint(regions) && Union(regions) == Cells(bounds)
      ensures TotalArea(areas) == bounds.width * bounds.height
    {
      ghost var orig := plots;
      areas := [];
      regions := [];
      for y := 0 to bounds.height
        invariant bounds == old(bounds) && Building(plots, orig, bounds, areas, regions)
        invariant Covered(Union(regions), bounds.width, y, 0)
      {
        for x := 0 to bounds.width
          invariant bounds == old(bounds) && Building(plots, orig, bounds, areas, regions)
          invariant Covered(Union(regions), bounds.width, y, x)
        {
          ghost var before := Union(regions);
          Visit(x, y, orig);
          CoveredStep(before, Union(regions), bounds.width, y, x);
        }
        CoveredRow(Union(regions), bounds.width, y);
      }
      UnionIsCells(orig, bounds, areas, regions);
      CellsCount(bounds, bounds.height);
    }

    /** The body of build_areas for cell (x, y): a cell still holding a letter floods a new
        region; either way the cell then belongs to a region. */
    method Visit(x: int, y: int, ghost orig: Map)
      requires Wide(orig, bounds) && AllLetters(orig) && 0 <= x < bounds.width && 0 <= y < bounds.height
      requires Building(plots, orig, bounds, areas, regions)
      modifies this
      ensures bounds == old(bounds) && Building(plots, orig, bounds, areas, regions)
      ensures old(Union(regions)) <= Union(regions) && Point(x, y) in Union(regions)
    {
      TracksWide(plots, orig, bounds, Union(regions));
      if plots[y][x].Some? {
        var chr := plots[y][x].value;
        assert Plot(plots, bounds, chr, Point(x, y));
        var size, visited, fences := MapArea(chr, Point(x, y), None, {}, {});
        AddArea(chr, size, visited, fences, orig);
      } else {
        LeftCovered(plots, orig, bounds, Union(regions), x, y);
      }
    }

    /** The rest of build_areas for a flooded region: clear its plots from the map and record
        its area. */
    method AddArea(chr: char, size: nat, visited: set<Point>, fences: set<Fence>, ghost orig: Map)
      requires Building(plots, orig, bounds, areas, regions)
      requires Flooded(plots, bounds, chr, visited, fences) && visited != {} && size == |visited|
      modifies this
      ensures bounds == old(bounds) && Building(plots, orig, bounds, areas, regions)
      ensures Union(regions) == old(Union(regions)) + visited
    {
      ghost var before := plots;
      plots := Clear(plots, chr, visited);
      var area := Area(chr, size, fences);
      Recorded(before, plots, orig, bounds, areas, regions, chr, visited, fences);
      areas := areas + [area];
      regions := regions + [visited];
    }
  }

  // ---------------------------------------------------------------------------------------
  // Prices

  /** get_part1: the sum of area × fence count over the areas. */
  function Part1(areas: seq<Area>): (r: nat)
    ensures forall i :: 0 <= i < |areas| ==> areas[i].area * |areas[i].fences| <= r
    ensures (forall i :: 0 <= i < |areas| ==> areas[i].fences == {}) ==> r == 0
  {
    if areas == [] then 0 else Part1(areas[..|areas| - 1]) + areas[|areas| - 1].area * |areas[|areas| - 1].fences|
  }

  /** The direction a fence's side runs in: along x for a fence between vertically neighbouring
      cells, along y for one between horizontal neighbours. */
  function RunStep(f: Fence): Point
  {
    Point(if f.inside.x == f.outside.x then 1 else 0, if f.inside.y == f.outside.y then 1 else 0)
  }

  /** The fence `k` steps further along the side. */
  function Shift(f: Fence, k: int): Fence
  {
    var s := RunStep(f);
    Fence(Point(f.inside.x + s.x * k, f.inside.y + s.y * k), Point(f.outside.x + s.x * k, f.outside.y + s.y * k))
  }

  /** How far along the side of `f` the fence `g` lies. */
  function Along(f: Fence, g: Fence): int
  {
    (g.inside.x - f.inside.x) * RunStep(f).x + (g.inside.y - f.inside.y) * RunStep(f).y
  }

  /** A fence of neighbouring cells runs along exactly one axis (the assertion dx + dy == 1),
      shifting it keeps its cells neighbours (Fence::new's assertion), and the shift is
      measured back by Along. */
  lemma ShiftMeaning(f: Fence, k: int)
    requires Distance(f.inside, f.outside) == 1
    ensures RunStep(f).x + RunStep(f).y == 1
    ensures Distance(Shift(f, k).inside, Shift(f, k).outside) == 1
    ensures Along(f, Shift(f, k)) == k
  {
  }

  /** The fences `k` steps along the side of `f`, for `-lo < k < hi`. */
  function Run(f: Fence, lo: int, hi: int): set<Fence>
  {
    set k | -lo < k < hi :: Shift(f, k)
  }

  /** The first fence of each maximal straight run of fences: the fence one step back along
      its side is missing.  Each side of a region is one such run. */
  function Starts(fences: set<Fence>): set<Fence>
  {
    set f | f in fences && Shift(f, -1) !in fences
  }

  /** A set of fences that holds, with each fence, its neighbours along the side that are
      fences: a union of whole sides. */
  ghost predicate WholeSides(fences: set<Fence>, u: set<Fence>)
  {
    forall g {:trigger Neighbours(fences, u, g)} :: g in u ==> Neighbours(fences, u, g)
  }

  /** The neighbours of `g` along its side that are fences are in `u`. */
  predicate Neighbours(fences: set<Fence>, u: set<Fence>, g: Fence)
  {
    (Shift(g, 1) in fences ==> Shift(g, 1) in u) && (Shift(g, -1) in fences ==> Shift(g, -1) in u)
  }

  /** Shifting twice is shifting by the sum: a shifted fence runs the same way. */
  lemma ShiftShift(f: Fence, a: int, b: int)
    ensures RunStep(Shift(f, a)) == RunStep(f)
    ensures Shift(Shift(f, a), b) == Shift(f, a + b)
  {
    var s := RunStep(f);
    assert f.inside.x + s.x * a + s.x * b == f.inside.x + s.x * (a + b);
    assert f.inside.y + s.y * a + s.y * b == f.inside.y + s.y * (a + b);
    assert f.outside.x + s.x * a + s.x * b == f.outside.x + s.x * (a + b);
    assert f.outside.y + s.y * a + s.y * b == f.outside.y + s.y * (a + b);
  }

  /** Distinct shifts of a fence of neighbouring cells are distinct fences. */
  lemma ShiftInjective(f: Fence, a: int, b: int)
    requires Distance(f.inside, f.outside) == 1 && Shift(f, a) == Shift(f, b)
    ensures a == b
  {
    ShiftMeaning(f, a);
    ShiftMeaning(f, b);
  }

  /** A fence of a side reaches back through fences of the area to `f`: if it lies in a union
      of whole sides, so does `f`. */
  lemma {:induction false} ReachBack(fences: set<Fence>, u: set<Fence>, f: Fence, k: int)
    requires WholeSides(fences, u) && Shift(f, k) in u
    requires forall j :: (0 <= j <= k || k <= j <= 0) ==> Shift(f, j) in fences
    ensures f in u
    decreases if k < 0 then -k else k
  {
    assert Neighbours(fences, u, Shift(f, k));
    if k > 0 {
      ShiftShift(f, k, -1);
      ReachBack(fences, u, f, k - 1);
    } else if k < 0 {
      ShiftShift(f, k, 1);
      ReachBack(fences, u, f, k + 1);
    } else {
      ShiftShift(f, 0, 0);
      assert Shift(f, 0) == f;
    }
  }

  /** The fences of a maximal run through `f` that lies outside a union of whole sides: adding
      them keeps a union of whole sides, and adds exactly one run start. */
  lemma RunAdded(fences: set<Fence>, u: set<Fence>, f: Fence, lo: int, hi: int)
    requires Distance(f.inside, f.outside) == 1 && u <= fences && WholeSides(fences, u) && f !in u
    requires lo >= 1 && hi >= 1 && Shift(f, hi) !in fences && Shift(f, -lo) !in fences
    requires forall k :: -lo < k < hi ==> Shift(f, k) in fences
    ensures Run(f, lo, hi) <= fences && WholeSides(fences, u + Run(f, lo, hi))
    ensures |Starts(fences) * (u + Run(f, lo, hi))| == |Starts(fences) * u| + 1
  {
    var run := Run(f, lo, hi);
    forall g | g in run
      ensures g !in u
      ensures (Shift(g, 1) in fences ==> Shift(g, 1) in run) && (Shift(g, -1) in fences ==> Shift(g, -1) in run)
      ensures g in Starts(fences) <==> g == Shift(f, 1 - lo)
    {
      var k :| -lo < k < hi && g == Shift(f, k);
      if g in u {
        ReachBack(fences, u, f, k);
      }
      ShiftShift(f, k, 1);
      ShiftShift(f, k, -1);
      if g == Shift(f, 1 - lo) {
        ShiftInjective(f, k, 1 - lo);
      }
      if k != 1 - lo {
        assert Shift(f, k - 1) in run;
      }
    }
    forall g | g in u + run
      ensures Neighbours(fences, u + run, g)
    {
      if g in u {
        assert Neighbours(fences, u, g);
      }
    }
    var head := Shift(f, 1 - lo);
    assert head in run;
    ShiftShift(f, 1 - lo, -1);
    assert Starts(fences) * (u + run) == Starts(fences) * u + {head};
  }

  /** The fences 1 to `n - 1` steps from `f` in direction `sign`. */
  function Marks(f: Fence, sign: int, n: int): set<Fence>
  {
    set j | 1 <= j < n :: Shift(f, sign * j)
  }

  /** One more step marks one more fence, distinct from those before. */
  lemma MarksNext(f: Fence, sign: int, n: int)
    requires Distance(f.inside, f.outside) == 1 && (sign == 1 || sign == -1) && n >= 1
    ensures Marks(f, sign, n + 1) == Marks(f, sign, n) + {Shift(f, sign * n)}
    ensures Shift(f, sign * n) !in Marks(f, sign, n)
  {
    forall g | g in Marks(f, sign, n)
      ensures g != Shift(f, sign * n)
    {
      var j :| 1 <= j < n && g == Shift(f, sign * j);
      if g == Shift(f, sign * n) {
        ShiftInjective(f, sign * j, sign * n);
      }
    }
  }

  /** A fence found one step further is marked, one more than before, all in the area. */
  lemma ExtendStep(fences: set<Fence>, f: Fence, sign: int, used: set<Fence>, used': set<Fence>, i: int)
    requires Distance(f.inside, f.outside) == 1 && (sign == 1 || sign == -1) && i >= 1
    requires Marks(f, sign, i) <= fences && |Marks(f, sign, i)| == i - 1 && used' == used + Marks(f, sign, i)
    requires Shift(f, sign * i) in fences
    ensures Marks(f, sign, i + 1) <= fences && |Marks(f, sign, i + 1)| == i && |fences| >= i
    ensures used' + {Shift(f, sign * i)} == used + Marks(f, sign, i + 1)
  {
    MarksNext(f, sign, i);
    SubsetSize(Marks(f, sign, i + 1), fences);
  }

  /** One of the two walks of get_part2 from fence `f` (sign +1 or -1): mark the fences 1, 2, …
      steps along the side as used until one is missing, at `stop` steps. */
  method Extend(fences: set<Fence>, f: Fence, sign: int, used: set<Fence>) returns (used': set<Fence>, ghost stop: int)
    requires Distance(f.inside, f.outside) == 1 && (sign == 1 || sign == -1)
    ensures used <= used' && used' - used <= fences
    ensures forall k :: 1 <= k && (forall j :: 1 <= j <= k ==> Shift(f, sign * j) in fences) ==> Shift(f, sign * k) in used'
    ensures stop >= 1 && Shift(f, sign * stop) !in fences && forall j :: 1 <= j < stop ==> Shift(f, sign * j) in fences
    ensures used' == used + Marks(f, sign, stop)
  {
    used' := used;
    var i := 1;
    while true
      invariant i >= 1 && Marks(f, sign, i) <= fences && |Marks(f, sign, i)| == i - 1
      invariant used' == used + Marks(f, sign, i)
      decreases |fences| + 1 - i
    {
      ShiftMeaning(f, sign * i);
      var neighbour := NewFence(Shift(f, sign * i).inside, Shift(f, sign * i).outside);
      if neighbour in fences {
        ExtendStep(fences, f, sign, used, used', i);
        used' := used' + {neighbour};
        i := i + 1;
      } else {
        stop := i;
        break;
      }
    }
    MarksMeaning(fences, f, sign, stop);
  }

  /** The fences marked up to a missing one: all in the area, and each fence of the unbroken
      stretch among them. */
  lemma MarksMeaning(fences: set<Fence>, f: Fence, sign: int, stop: int)
    requires stop >= 1 && Marks(f, sign, stop) <= fences && Shift(f, sign * stop) !in fences
    ensures forall j :: 1 <= j < stop ==> Shift(f, sign * j) in fences
    ensures forall k :: 1 <= k && (forall j :: 1 <= j <= k ==> Shift(f, sign * j) in fences) ==> Shift(f, sign * k) in Marks(f, sign, stop)
  {
    forall j | 1 <= j < stop
      ensures Shift(f, sign * j) in fences
    {
      assert Shift(f, sign * j) in Marks(f, sign, stop);
    }
    forall k | 1 <= k && (forall j :: 1 <= j <= k ==> Shift(f, sign * j) in fences)
      ensures Shift(f, sign * k) in Marks(f, sign, stop)
    {
      assert k < stop;
    }
  }

  /** The fences both walks of get_part2 mark from `f`, with `f` itself, are its run. */
  lemma WalksAreRun(f: Fence, lo: int, hi: int)
    requires lo >= 1 && hi >= 1
    ensures Run(f, lo, hi) == Marks(f, 1, hi) + Marks(f, -1, lo) + {f}
  {
    ShiftShift(f, 0, 0);
    assert Shift(f, 0) == f;
    forall g | g in Run(f, lo, hi)
      ensures g in Marks(f, 1, hi) + Marks(f, -1, lo) + {f}
    {
      var k :| -lo < k < hi && g == Shift(f, k);
      if k > 0 {
        assert g == Shift(f, 1 * k);
      } else if k < 0 {
        assert g == Shift(f, -1 * -k);
      }
    }
    forall j | 1 <= j < lo
      ensures Shift(f, -1 * j) in Run(f, lo, hi)
    {
      assert -lo < -j < hi;
    }
  }

  /** The side count of get_part2 for one area: walk the fences in any order; a fence not yet
      used starts a new side, whose fences further along in both directions become used.  The
      count is the number of maximal straight runs, whatever the order. */
  method Sides(fences: set<Fence>) returns (num: nat)
    requires forall f :: f in fences ==> Distance(f.inside, f.outside) == 1
    ensures num <= |fences| && (fences != {} ==> num >= 1)
    ensures num == |Starts(fences)|
  {
    var used: set<Fence> := {};
    num := 0;
    var rest := fences;
    while rest != {}
      invariant rest <= fences && num <= |fences - rest| && used <= fences
      invariant (rest != fences || used != {}) ==> num >= 1
      invariant WholeSides(fences, used + (fences - rest))
      invariant num == |Starts(fences) * (used + (fences - rest))|
      decreases |rest|
    {
      var fence :| fence in rest;
      DiffSizes(fences - rest, fences - rest, fences - (rest - {fence}));
      if fence !in used {
        num := num + 1;
        ghost var used0, lo, hi := used, 0, 0;
        used, lo, hi := MarkSide(fences, fence, used);
        NewSide(fences, rest, used0, used, fence, lo, hi);
      } else {
        assert num >= 1;
        UsedDone(fences, rest, used, fence);
      }
      rest := rest - {fence};
    }
    AllDone(fences, used);
  }

  /** Passing over a used fence leaves the union of used and passed fences as it was. */
  lemma UsedDone(fences: set<Fence>, rest: set<Fence>, used: set<Fence>, f: Fence)
    requires f in used
    ensures used + (fences - (rest - {f})) == used + (fences - rest)
  {
  }

  /** With every fence passed, the used and passed fences are all the fences, and so hold
      every run start. */
  lemma AllDone(fences: set<Fence>, used: set<Fence>)
    requires used <= fences
    ensures Starts(fences) * (used + (fences - {})) == Starts(fences)
  {
    assert used + (fences - {}) == fences;
  }

  /** The body of get_part2 for a fence not yet used: both walks from it, which mark the
      rest of its maximal run. */
  method MarkSide(fences: set<Fence>, f: Fence, used: set<Fence>) returns (used': set<Fence>, ghost lo: int, ghost hi: int)
    requires Distance(f.inside, f.outside) == 1 && f in fences
    ensures lo >= 1 && hi >= 1 && Shift(f, hi) !in fences && Shift(f, -lo) !in fences
    ensures forall k :: -lo < k < hi ==> Shift(f, k) in fences
    ensures used' + {f} == used + Run(f, lo, hi)
  {
    var dx := if f.inside.x == f.outside.x then 1 else 0;
    var dy := if f.inside.y == f.outside.y then 1 else 0;
    ShiftMeaning(f, 0);
    assert dx + dy == 1;
    used', hi := Extend(fences, f, 1, used);
    used', lo := Extend(fences, f, -1, used');
    WalksAreRun(f, lo, hi);
    RunFences(fences, f, lo, hi);
    assert Shift(f, 1 * hi) == Shift(f, hi) && Shift(f, -1 * lo) == Shift(f, -lo);
  }

  /** A fence not yet used starts a new side: its run joins the whole sides gathered so far
      with one more run start. */
  lemma NewSide(fences: set<Fence>, rest: set<Fence>, used0: set<Fence>, used: set<Fence>, f: Fence, lo: int, hi: int)
    requires Distance(f.inside, f.outside) == 1 && f in rest && rest <= fences && used0 <= fences && f !in used0
    requires WholeSides(fences, used0 + (fences - rest))
    requires lo >= 1 && hi >= 1 && Shift(f, hi) !in fences && Shift(f, -lo) !in fences
    requires forall k :: -lo < k < hi ==> Shift(f, k) in fences
    requires used + {f} == used0 + Run(f, lo, hi)
    ensures used <= fences && WholeSides(fences, used + (fences - (rest - {f})))
    ensures |Starts(fences) * (used + (fences - (rest - {f})))| == |Starts(fences) * (used0 + (fences - rest))| + 1
  {
    var u := used0 + (fences - rest);
    RunAdded(fences, u, f, lo, hi);
    assert used + (fences - (rest - {f})) == u + Run(f, lo, hi);
  }

  /** The shifts both walks found in the area, with `f`, are all the run's shifts. */
  lemma RunFences(fences: set<Fence>, f: Fence, lo: int, hi: int)
    requires f in fences && lo >= 1 && hi >= 1
    requires forall j :: 1 <= j < hi ==> Shift(f, 1 * j) in fences
    requires forall j :: 1 <= j < lo ==> Shift(f, -1 * j) in fences
    ensures forall k :: -lo < k < hi ==> Shift(f, k) in fences
  {
    ShiftShift(f, 0, 0);
    forall k | -lo < k < hi
      ensures Shift(f, k) in fences
    {
      if k > 0 {
        assert Shift(f, 1 * k) in fences;
      } else if k < 0 {
        assert Shift(f, -1 * -k) in fences;
      } else {
        assert Shift(f, 0) == f;
      }
    }
  }

  /** The bulk price: area × number of maximal straight runs of fences, summed over the areas. */
  function BulkPrice(areas: seq<Area>): nat
  {
    if areas == [] then 0 else BulkPrice(areas[..|areas| - 1]) + areas[|areas| - 1].area * |Starts(areas[|areas| - 1].fences)|
  }

  /** get_part2: the sum of area × side count.  Every side holds at least one fence, so the
      bulk discount never raises a price. */
  method Part2(areas: seq<Area>) returns (ret: nat)
    requires forall i :: 0 <= i < |areas| ==> forall f :: f in areas[i].fences ==> Distance(f.inside, f.outside) == 1
    ensures ret == BulkPrice(areas) && ret <= Part1(areas)
  {
    ret := 0;
    for i := 0 to |areas|
      invariant ret == BulkPrice(areas[..i]) && ret <= Part1(areas[..i])
    {
      assert areas[..i + 1][..i] == areas[..i];
      var num := Sides(areas[i].fences);
      MulMono(areas[i].area, num, |areas[i].fences|);
      ret := ret + areas[i].area * num;
    }
    assert areas[..|areas|] == areas;
  }

  lemma SubsetSize<T>(a: set<T>, b: set<T>)
    requires a <= b
    ensures |a| <= |b|
  {
    assert b == a + (b - a);
  }

  lemma MulMono(a: nat, b: nat, c: nat)
    requires b <= c
    ensures a * b <= a * c
  {
  }

  lemma FencesAreSteps(m: Map, b: Rect, areas: seq<Area>, rs: seq<set<Point>>)
    requires |areas| == |rs| && forall i :: 0 <= i < |areas| ==> RegionOf(m, b, areas[i], rs[i])
    ensures forall i :: 0 <= i < |areas| ==> forall f :: f in areas[i].fences ==> Distance(f.inside, f.outside) == 1
  {
    forall i | 0 <= i < |areas|
      ensures forall f :: f in areas[i].fences ==> Distance(f.inside, f.outside) == 1
    {
      assert RegionOf(m, b, areas[i], rs[i]);
    }
  }

  /** main without the file and the printing: None where the source panics (no line at all, or
      a row shorter than the first, which build_areas indexes past). */
  method Answers(lines: seq<string>) returns (r: Option<(nat, nat)>, ghost areas: seq<Area>, ghost regions: seq<set<Point>>)
    ensures r.Some? <==> |lines| > 0 && forall y :: 0 <= y < |lines| ==> |lines[y]| >= |lines[0]|
    ensures r.Some? ==> Partition(PlotsOf(lines), Rect(0, 0, |lines[0]|, |lines|), areas, regions)
    ensures r.Some? ==> r.value == (Part1(areas), BulkPrice(areas)) && r.value.1 <= r.value.0
  {
    areas, regions := [], [];
    if |lines| == 0 {
      return None, areas, regions;
    }
    var garden := new Garden(lines);
    for y := 0 to |lines|
      invariant forall k :: 0 <= k < y ==> |lines[k]| >= |lines[0]|
    {
      if |lines[y]| < |lines[0]| {
        return None, areas, regions;
      }
    }
    ghost var parsed := garden.plots;
    garden.BuildAreas();
    FencesAreSteps(parsed, garden.bounds, garden.areas, garden.regions);
    var part1 := Part1(garden.areas);
    var part2 := Part2(garden.areas);
    r := Some((part1, part2));
    areas, regions := garden.areas, garden.regions;
  }

  /** The clearing loop of build_areas: every visited plot still carrying the letter becomes
      None, whatever order the set is walked in. */
  method Clear(m: Map, chr: char, visited: set<Point>) returns (m': Map)
    ensures |m'| == |m| && forall y :: 0 <= y < |m'| ==> |m'[y]| == |m[y]|
    ensures forall y, x :: 0 <= y < |m'| && 0 <= x < |m'[y]| ==>
              m'[y][x] == (if Point(x, y) in visited && m[y][x] == Some(chr) then None else m[y][x])
  {
    m' := m;
    var rest := visited;
    while rest != {}
      invariant rest <= visited
      invariant |m'| == |m| && forall y :: 0 <= y < |m'| ==> |m'[y]| == |m[y]|
      invariant forall y, x :: 0 <= y < |m'| && 0 <= x < |m'[y]| ==>
                  m'[y][x] == (if Point(x, y) in visited - rest && m[y][x] == Some(chr) then None else m[y][x])
      decreases |rest|
    {
      var point :| point in rest;
      if 0 <= point.y < |m'| && 0 <= point.x < |m'[point.y]| && m'[point.y][point.x] == Some(chr) {
        m' := m'[point.y := m'[point.y][point.x := None]];
      }
      rest := rest - {point};
    }
  }

  /** The parsed map: each line's characters wrapped in Some. */
  function PlotsOf(lines: seq<string>): (m: Map)
    ensures |m| == |lines| && forall y :: 0 <= y < |lines| ==> m[y] == Letters(lines[y])
  {
    seq(|lines|, y requires 0 <= y < |lines| => Letters(lines[y]))
  }

  /** The areas and regions build_areas leaves: one RegionOf region of the map per area,
      pairwise disjoint and together exactly the cells of the bounds. */
  ghost predicate Partition(m: Map, b: Rect, areas: seq<Area>, regions: seq<set<Point>>)
  {
    && |areas| == |regions|
    && (forall i :: 0 <= i < |areas| ==> RegionOf(m, b, areas[i], regions[i]))
    && Disjoint(regions) && Union(regions) == Cells(b)
  }

  function Letters(line: string): (r: seq<Option<char>>)
    ensures |r| == |line| && forall i :: 0 <= i < |line| ==> r[i] == Some(line[i])
  {
    seq(|line|, i requires 0 <= i < |line| => Some(line[i]))
  }
}
