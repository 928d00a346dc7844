/** Day 21 (src/day21/main.rs): the minimum number of presses a human makes on a
    directional keypad so that, through `depth` robot-driven directional keypads, the last
    robot types a code on the numeric keypad. */
module Day21 {
  import opened Common
  import opened Geometry

  const Up: char := '^'
  const Down: char := 'v'
  const Left: char := '<'
  const Right: char := '>'
  const Action: char := 'A'

  const NumpadStart: Point := Point(2, 3)
  const DirpadStart: Point := Point(2, 0)

  predicate IsNumKey(c: char)
  {
    '0' <= c <= '9' || c == Action
  }

  /** NUMPAD: the cell of each numeric key; the gap is at (0, 3). */
  function Numpad(c: char): Point
    requires IsNumKey(c)
  {
    match c
    case '7' => Point(0, 0)
    case '8' => Point(1, 0)
    case '9' => Point(2, 0)
    case '4' => Point(0, 1)
    case '5' => Point(1, 1)
    case '6' => Point(2, 1)
    case '1' => Point(0, 2)
    case '2' => Point(1, 2)
    case '3' => Point(2, 2)
    case '0' => Point(1, 3)
    case _ => NumpadStart
  }

  predicate IsDirKey(c: char)
  {
    IsArrow(c) || c == Action
  }

  /** DIRPAD: the cell of each directional key; the gap is at (0, 0). */
  function Dirpad(c: char): Point
    requires IsDirKey(c)
  {
    if c == Up then Point(1, 0)
    else if c == Left then Point(0, 1)
    else if c == Down then Point(1, 1)
    else if c == Right then Point(2, 1)
    else DirpadStart
  }

  /** NUMPAD_VALID and DIRPAD_VALID: the cells a cursor may rest on are the cells holding a key. */
  const NumpadValid: set<Point> := set c: char | IsNumKey(c) :: Numpad(c)
  const DirpadValid: set<Point> := set c: char | IsDirKey(c) :: Dirpad(c)

  predicate IsArrow(c: char)
  {
    c == Up || c == Right || c == Down || c == Left
  }

  /** DIR_TO_POINT: the cursor step of an arrow key (y grows downwards). */
  function DirToPoint(c: char): Point
    requires IsArrow(c)
  {
    if c == Up then Point(0, -1)
    else if c == Right then Point(1, 0)
    else if c == Down then Point(0, 1)
    else Point(-1, 0)
  }

  // ---------------------------------------------------------------------------
  // Keypad tables

  predicate InGrid(p: Point, width: int, height: int)
  {
    0 <= p.x < width && 0 <= p.y < height
  }

  /** Distinct keys sit on distinct cells, and 'A' is where the cursor starts. */
  lemma NumpadKeys()
    ensures forall a, b :: IsNumKey(a) && IsNumKey(b) && a != b ==> Numpad(a) != Numpad(b)
    ensures Numpad(Action) == NumpadStart
  {
  }

  lemma NumpadKeyValid(c: char)
    requires IsNumKey(c)
    ensures Numpad(c) in NumpadValid && NumpadStart in NumpadValid
  {
    assert Numpad(Action) == NumpadStart;
  }

  /** The valid numeric cells are the 3 x 4 grid without its gap (0, 3). */
  lemma NumpadCells()
    ensures forall p :: p in NumpadValid <==> InGrid(p, 3, 4) && p != Point(0, 3)
  {
    forall p | InGrid(p, 3, 4) && p != Point(0, 3)
      ensures p in NumpadValid
    {
      var key :=
        if p.y == 0 then (if p.x == 0 then '7' else if p.x == 1 then '8' else '9')
        else if p.y == 1 then (if p.x == 0 then '4' else if p.x == 1 then '5' else '6')
        else if p.y == 2 then (if p.x == 0 then '1' else if p.x == 1 then '2' else '3')
        else (if p.x == 1 then '0' else Action);
      assert Numpad(key) == p;
    }
  }

  lemma DirpadKeys()
    ensures forall a, b :: IsDirKey(a) && IsDirKey(b) && a != b ==> Dirpad(a) != Dirpad(b)
    ensures Dirpad(Action) == DirpadStart
  {
  }

  lemma DirpadKeyValid(c: char)
    requires IsDirKey(c)
    ensures Dirpad(c) in DirpadValid && DirpadStart in DirpadValid
  {
    assert Dirpad(Action) == DirpadStart;
  }

  /** The valid directional cells are the 3 x 2 grid without its gap (0, 0). */
  lemma DirpadCells()
    ensures forall p :: p in DirpadValid <==> InGrid(p, 3, 2) && p != Point(0, 0)
  {
    forall p | InGrid(p, 3, 2) && p != Point(0, 0)
      ensures p in DirpadValid
    {
      var key :=
        if p.y == 0 then (if p.x == 1 then Up else Action)
        else (if p.x == 0 then Left else if p.x == 1 then Down else Right);
      assert Dirpad(key) == p;
    }
  }

  // ---------------------------------------------------------------------------
  // Paths: delta_to_path and is_path_valid

  predicate Arrows(path: seq<char>)
  {
    forall i :: 0 <= i < |path| ==> IsArrow(path[i])
  }

  predicate OnDirpad(path: seq<char>)
  {
    forall i :: 0 <= i < |path| ==> IsDirKey(path[i])
  }

  /** Where the cursor ends after following `path` from `p`. */
  function Trace(p: Point, path: seq<char>): Point
    requires Arrows(path)
    decreases path
  {
    if path == [] then p else Trace(Add(p, DirToPoint(path[0])), path[1..])
  }

  /** Every cell entered after a move lies in `valid`; the start cell is not checked. */
  predicate PathValid(p: Point, path: seq<char>, valid: set<Point>)
    requires Arrows(path)
    decreases path
  {
    path == [] || (var q := Add(p, DirToPoint(path[0])); q in valid && PathValid(q, path[1..], valid))
  }

  lemma {:induction false} TraceAppend(p: Point, s: seq<char>, t: seq<char>)
    requires Arrows(s) && Arrows(t)
    ensures Arrows(s + t)
    ensures Trace(p, s + t) == Trace(Trace(p, s), t)
    decreases |s|
  {
    if s != [] {
      assert (s + t)[1..] == s[1..] + t;
      TraceAppend(Add(p, DirToPoint(s[0])), s[1..], t);
    } else {
      assert s + t == t;
    }
  }

  /** PathValid is the statement that every prefix ends on a valid cell. */
  lemma {:induction false} PathValidPrefixes(p: Point, path: seq<char>, valid: set<Point>)
    requires Arrows(path)
    ensures PathValid(p, path, valid) <==> forall k :: 1 <= k <= |path| ==> Trace(p, path[..k]) in valid
    decreases |path|
  {
    if path != [] {
      var q := Add(p, DirToPoint(path[0]));
      PathValidPrefixes(q, path[1..], valid);
      forall k | 1 <= k <= |path|
        ensures Trace(p, path[..k]) == Trace(q, path[1..][..k - 1])
      {
        assert path[..k][1..] == path[1..][..k - 1];
      }
      assert Trace(p, path[..1]) == q by {
        assert path[..1][1..] == [];
      }
      if forall k :: 1 <= k <= |path| ==> Trace(p, path[..k]) in valid {
        forall k | 1 <= k <= |path| - 1
          ensures Trace(q, path[1..][..k]) in valid
        {
          assert Trace(p, path[..k + 1]) in valid;
        }
      }
    }
  }

  /** is_path_valid: the loop stops at the first move that leaves the valid cells. */
  method IsPathValid(start: Point, path: seq<char>, valid: set<Point>) returns (ok: bool)
    requires Arrows(path)
    ensures ok == PathValid(start, path, valid)
  {
    var p := start;
    for i := 0 to |path|
      invariant PathValid(start, path, valid) == PathValid(p, path[i..], valid)
    {
      assert path[i..][1..] == path[i + 1..];
      p := Add(p, DirToPoint(path[i]));
      if p !in valid {
        return false;
      }
    }
    assert path[|path|..] == [];
    return true;
  }

  function Horizontal(delta: Point): char
  {
    if delta.x > 0 then Right else Left
  }

  function Vertical(delta: Point): char
  {
    if delta.y > 0 then Down else Up
  }

  /** The moves of delta_to_path: all horizontal moves first, then all vertical ones. */
  function Moves(delta: Point): seq<char>
  {
    Repeat(Horizontal(delta), Abs(delta.x)) + Repeat(Vertical(delta), Abs(delta.y))
  }

  /** The other corner of the rectangle: all vertical moves first. */
  function VerticalFirst(delta: Point): seq<char>
  {
    Repeat(Vertical(delta), Abs(delta.y)) + Repeat(Horizontal(delta), Abs(delta.x))
  }

  /** delta_to_path */
  method DeltaToPath(delta: Point) returns (r: seq<char>)
    ensures |r| == Abs(delta.x) + Abs(delta.y)
    ensures forall i :: 0 <= i < Abs(delta.x) ==> r[i] == (if delta.x > 0 then Right else Left)
    ensures forall i :: Abs(delta.x) <= i < |r| ==> r[i] == (if delta.y > 0 then Down else Up)
    ensures r == Moves(delta)
  {
    r := [];
    for i := 0 to Abs(delta.x)
      invariant r == Repeat(Horizontal(delta), i)
    {
      r := r + [if delta.x > 0 then Right else Left];
      assert Repeat(Horizontal(delta), i + 1) == Repeat(Horizontal(delta), i) + [Horizontal(delta)];
    }
    ghost var horizontal := r;
    for i := 0 to Abs(delta.y)
      invariant r == horizontal + Repeat(Vertical(delta), i)
    {
      r := r + [if delta.y > 0 then Down else Up];
      assert Repeat(Vertical(delta), i + 1) == Repeat(Vertical(delta), i) + [Vertical(delta)];
    }
  }

  /** A cell reached by `k` moves in direction `c`. */
  function Shift(p: Point, c: char, k: int): Point
  {
    if c == Right then Point(p.x + k, p.y)
    else if c == Left then Point(p.x - k, p.y)
    else if c == Down then Point(p.x, p.y + k)
    else Point(p.x, p.y - k)
  }

  lemma {:induction false} Run(p: Point, c: char, n: nat, valid: set<Point>)
    requires IsArrow(c)
    ensures Arrows(Repeat(c, n))
    ensures Trace(p, Repeat(c, n)) == Shift(p, c, n)
    ensures PathValid(p, Repeat(c, n), valid) <==> forall k :: 1 <= k <= n ==> Shift(p, c, k) in valid
    decreases n
  {
    if n > 0 {
      var q := Add(p, DirToPoint(c));
      assert q == Shift(p, c, 1);
      assert Repeat(c, n)[1..] == Repeat(c, n - 1);
      Run(q, c, n - 1, valid);
      forall k | 1 <= k <= n - 1
        ensures Shift(q, c, k) == Shift(p, c, k + 1)
      {
      }
      if forall k :: 1 <= k <= n ==> Shift(p, c, k) in valid {
        forall k | 1 <= k <= n - 1
          ensures Shift(q, c, k) in valid
        {
          assert Shift(p, c, k + 1) in valid;
        }
      }
      if PathValid(p, Repeat(c, n), valid) {
        forall k | 1 <= k <= n
          ensures Shift(p, c, k) in valid
        {
          if k > 1 {
            assert Shift(q, c, k - 1) == Shift(p, c, k);
          }
        }
      }
    }
  }

  /** The moves of delta_to_path bring the cursor to the target. */
  lemma MovesReachTarget(p: Point, delta: Point)
    ensures |Moves(delta)| == Abs(delta.x) + Abs(delta.y)
    ensures delta == Point(0, 0) ==> Moves(delta) == []
    ensures Arrows(Moves(delta)) && Trace(p, Moves(delta)) == Add(p, delta)
  {
    var h, v := Horizontal(delta), Vertical(delta);
    Run(p, h, Abs(delta.x), {});
    var corner := Shift(p, h, Abs(delta.x));
    assert corner == Point(p.x + delta.x, p.y);
    Run(corner, v, Abs(delta.y), {});
    assert Shift(corner, v, Abs(delta.y)) == Add(p, delta);
    TraceAppend(p, Repeat(h, Abs(delta.x)), Repeat(v, Abs(delta.y)));
  }

  // ---------------------------------------------------------------------------
  // Orderings of a move multiset: itertools' `permutations(len)`

  function RemoveAt<T>(s: seq<T>, i: nat): (r: seq<T>)
    requires i < |s|
    ensures |r| == |s| - 1
  {
    s[..i] + s[i + 1..]
  }

  function PrependAll<T>(x: T, ss: seq<seq<T>>): (r: seq<seq<T>>)
    ensures |r| == |ss|
    ensures forall k :: 0 <= k < |r| ==> r[k] == [x] + ss[k]
  {
    seq(|ss|, k requires 0 <= k < |ss| => [x] + ss[k])
  }

  /** Every arrangement of the positions of `s`, first element first; equal values give equal
      arrangements more than once, as itertools does. */
  function Permutations<T>(s: seq<T>): seq<seq<T>>
    decreases |s|, 1, 0
  {
    if s == [] then [[]] else PermutationsFrom(s, 0)
  }

  function PermutationsFrom<T>(s: seq<T>, i: nat): seq<seq<T>>
    requires i <= |s|
    decreases |s|, 0, |s| - i
  {
    if i == |s| then [] else PrependAll(s[i], Permutations(RemoveAt(s, i))) + PermutationsFrom(s, i + 1)
  }

  lemma RemoveAtMultiset<T>(s: seq<T>, i: nat)
    requires i < |s|
    ensures multiset(s) == multiset(RemoveAt(s, i)) + multiset{s[i]}
  {
    assert s == s[..i] + [s[i]] + s[i + 1..];
  }

  /** Every element of Permutations(s) is a rearrangement of s. */
  lemma {:induction false} PermutationsSound<T>(s: seq<T>, t: seq<T>)
    requires t in Permutations(s)
    ensures multiset(t) == multiset(s)
    decreases |s|, 1, 0
  {
    if s != [] {
      PermutationsFromSound(s, 0, t);
    }
  }

  lemma {:induction false} PermutationsFromSound<T>(s: seq<T>, i: nat, t: seq<T>)
    requires i <= |s| && t in PermutationsFrom(s, i)
    ensures multiset(t) == multiset(s)
    decreases |s|, 0, |s| - i
  {
    var here := PrependAll(s[i], Permutations(RemoveAt(s, i)));
    if t in here {
      var k :| 0 <= k < |here| && here[k] == t;
      var rest := Permutations(RemoveAt(s, i))[k];
      PermutationsSound(RemoveAt(s, i), rest);
      RemoveAtMultiset(s, i);
      assert t == [s[i]] + rest;
    } else {
      PermutationsFromSound(s, i + 1, t);
    }
  }

  lemma {:induction false} InPermutationsFrom<T>(s: seq<T>, j: nat, i: nat, t: seq<T>)
    requires j <= i < |s| && t in PrependAll(s[i], Permutations(RemoveAt(s, i)))
    ensures t in PermutationsFrom(s, j)
    decreases i - j
  {
    if j < i {
      InPermutationsFrom(s, j + 1, i, t);
    }
  }

  /** Every rearrangement of s occurs in Permutations(s). */
  lemma {:induction false} PermutationsComplete<T>(s: seq<T>, t: seq<T>)
    requires multiset(t) == multiset(s)
    ensures t in Permutations(s)
    decreases |s|
  {
    assert |t| == |multiset(t)| == |s|;
    if s != [] {
      assert t[0] in multiset(s);
      var i :| 0 <= i < |s| && s[i] == t[0];
      RemoveAtMultiset(s, i);
      assert t == [t[0]] + t[1..];
      assert multiset(t) == multiset{t[0]} + multiset(t[1..]);
      assert multiset(t[1..]) == multiset(t) - multiset{t[0]};
      assert multiset(RemoveAt(s, i)) == multiset(s) - multiset{s[i]};
      PermutationsComplete(RemoveAt(s, i), t[1..]);
      var rests := Permutations(RemoveAt(s, i));
      var k :| 0 <= k < |rests| && rests[k] == t[1..];
      assert PrependAll(s[i], rests)[k] == t;
      InPermutationsFrom(s, 0, i, t);
    }
  }

  lemma ArrowsOfPermutation(s: seq<char>, t: seq<char>)
    requires Arrows(s) && multiset(t) == multiset(s)
    ensures Arrows(t)
  {
    forall k | 0 <= k < |t|
      ensures IsArrow(t[k])
    {
      assert t[k] in multiset(t);
      assert t[k] in s;
    }
  }

  // ---------------------------------------------------------------------------
  // Candidate orderings: the `filter_map` in rec_dir and solve_line

  /** The orderings among `perms` that stay on `valid`, each with ACTION appended. */
  function ValidOrderings(cursor: Point, perms: seq<seq<char>>, valid: set<Point>): (r: seq<seq<char>>)
    ensures forall k :: 0 <= k < |r| ==> OnDirpad(r[k])
  {
    if perms == [] then []
    else
      var last := perms[|perms| - 1];
      var earlier := ValidOrderings(cursor, perms[..|perms| - 1], valid);
      earlier + (if Arrows(last) && PathValid(cursor, last, valid) then [last + [Action]] else [])
  }

  /** Each kept ordering is one of `perms`, stays on `valid` and ends with ACTION. */
  lemma {:induction false} ValidOrderingsSound(cursor: Point, perms: seq<seq<char>>, valid: set<Point>, c: seq<char>)
    requires c in ValidOrderings(cursor, perms, valid)
    ensures |c| > 0 && c[|c| - 1] == Action
    ensures var m := c[..|c| - 1]; m in perms && Arrows(m) && PathValid(cursor, m, valid)
    decreases |perms|
  {
    var last := perms[|perms| - 1];
    var earlier := ValidOrderings(cursor, perms[..|perms| - 1], valid);
    if c in earlier {
      ValidOrderingsSound(cursor, perms[..|perms| - 1], valid, c);
    } else {
      assert c == last + [Action];
      assert c[..|c| - 1] == last;
    }
  }

  /** Extending the scanned prefix of `perms` by one ordering keeps or appends it. */
  lemma ValidOrderingsStep(cursor: Point, perms: seq<seq<char>>, j: nat, valid: set<Point>)
    requires j < |perms|
    ensures ValidOrderings(cursor, perms[..j + 1], valid) ==
      ValidOrderings(cursor, perms[..j], valid) +
      (if Arrows(perms[j]) && PathValid(cursor, perms[j], valid) then [perms[j] + [Action]] else [])
  {
    assert perms[..j + 1][..j] == perms[..j];
  }

  lemma {:induction false} ValidOrderingsComplete(cursor: Point, perms: seq<seq<char>>, valid: set<Point>, t: seq<char>)
    requires t in perms && Arrows(t) && PathValid(cursor, t, valid)
    ensures t + [Action] in ValidOrderings(cursor, perms, valid)
    decreases |perms|
  {
    if perms[|perms| - 1] != t {
      assert t in perms[..|perms| - 1];
      ValidOrderingsComplete(cursor, perms[..|perms| - 1], valid, t);
    }
  }

  lemma PermutationsOfMoves(delta: Point)
    ensures Arrows(Moves(delta))
    ensures forall t :: t in Permutations(Moves(delta)) ==> Arrows(t) && multiset(t) == multiset(Moves(delta))
    ensures forall k :: 0 <= k < |Permutations(Moves(delta))| ==> Arrows(Permutations(Moves(delta))[k])
  {
    MovesReachTarget(Point(0, 0), delta);
    var perms := Permutations(Moves(delta));
    forall t | t in perms
      ensures Arrows(t) && multiset(t) == multiset(Moves(delta))
    {
      PermutationsSound(Moves(delta), t);
      ArrowsOfPermutation(Moves(delta), t);
    }
    forall k | 0 <= k < |perms|
      ensures Arrows(perms[k])
    {
      assert perms[k] in perms;
    }
  }

  /** The sequences whose cost is minimised for one key: each valid shortest ordering of the
      moves from `cursor` to `target`, followed by ACTION. */
  function Candidates(cursor: Point, target: Point, valid: set<Point>): (r: seq<seq<char>>)
    ensures forall k :: 0 <= k < |r| ==> OnDirpad(r[k])
  {
    ValidOrderings(cursor, Permutations(Moves(Sub(target, cursor))), valid)
  }

  /** The candidates are exactly the valid rearrangements of the needed moves, plus ACTION. */
  lemma CandidatesExactly(cursor: Point, target: Point, valid: set<Point>, m: seq<char>)
    ensures m + [Action] in Candidates(cursor, target, valid) <==>
      multiset(m) == multiset(Moves(Sub(target, cursor))) && Arrows(m) && PathValid(cursor, m, valid)
  {
    var delta := Sub(target, cursor);
    var perms := Permutations(Moves(delta));
    PermutationsOfMoves(delta);
    var r := Candidates(cursor, target, valid);
    if m + [Action] in r {
      ValidOrderingsSound(cursor, perms, valid, m + [Action]);
      assert (m + [Action])[..|m|] == m;
      PermutationsSound(Moves(delta), m);
    }
    if multiset(m) == multiset(Moves(delta)) && Arrows(m) && PathValid(cursor, m, valid) {
      PermutationsComplete(Moves(delta), m);
      ValidOrderingsComplete(cursor, perms, valid, m);
    }
  }

  /** Every candidate moves the cursor from `cursor` to `target` before pressing ACTION. */
  lemma CandidatesReachTarget(cursor: Point, target: Point, valid: set<Point>, c: seq<char>)
    requires c in Candidates(cursor, target, valid)
    ensures |c| == Distance(cursor, target) + 1 && c[|c| - 1] == Action
  {
    var delta := Sub(target, cursor);
    PermutationsOfMoves(delta);
    MovesReachTarget(cursor, delta);
    ValidOrderingsSound(cursor, Permutations(Moves(delta)), valid, c);
    var m := c[..|c| - 1];
    PermutationsSound(Moves(delta), m);
    assert |m| == |multiset(m)| == |multiset(Moves(delta))|;
  }

  /** For a zero move the only candidate is pressing ACTION. */
  lemma CandidatesStayPut(p: Point, valid: set<Point>)
    ensures Candidates(p, p, valid) == [[Action]]
  {
    assert Moves(Sub(p, p)) == [];
    var perms: seq<seq<char>> := Permutations(Moves(Sub(p, p)));
    assert perms == [[]];
    assert perms[..0] == [];
    assert Arrows([]) && PathValid(p, [], valid);
    assert ValidOrderings(p, perms[..0], valid) == [];
    assert ValidOrderings(p, perms, valid) == [[] + [Action]];
    assert [] + [Action] == [Action];
  }

  predicate Between(v: int, a: int, b: int)
  {
    (a <= v <= b) || (b <= v <= a)
  }

  /** `q` lies in the rectangle spanned by `a` and `b`. */
  predicate InBox(q: Point, a: Point, b: Point)
  {
    Between(q.x, a.x, b.x) && Between(q.y, a.y, b.y)
  }

  /** A straight run stays on the pad when the gap is not on it and both ends are on the grid. */
  lemma RunClearOfGap(p: Point, c: char, n: nat, valid: set<Point>, width: int, height: int, gap: Point)
    requires IsArrow(c)
    requires forall q :: q in valid <==> InGrid(q, width, height) && q != gap
    requires InGrid(p, width, height) && InGrid(Shift(p, c, n), width, height)
    requires !InBox(gap, p, Shift(p, c, n))
    ensures Arrows(Repeat(c, n)) && Trace(p, Repeat(c, n)) == Shift(p, c, n)
    ensures PathValid(p, Repeat(c, n), valid)
  {
    Run(p, c, n, valid);
    forall k | 1 <= k <= n
      ensures Shift(p, c, k) in valid
    {
      assert InBox(Shift(p, c, k), p, Shift(p, c, n));
    }
  }

  /** With the gap on a corner of the grid, one of the two L-shaped routes misses it. */
  lemma CornerGapMissed(s: Point, t: Point, width: int, height: int, gap: Point)
    requires (gap.x == 0 || gap.x == width - 1) && (gap.y == 0 || gap.y == height - 1)
    requires InGrid(s, width, height) && InGrid(t, width, height) && s != gap && t != gap
    ensures (!InBox(gap, s, Point(t.x, s.y)) && !InBox(gap, Point(t.x, s.y), t))
         || (!InBox(gap, s, Point(s.x, t.y)) && !InBox(gap, Point(s.x, t.y), t))
  {
  }

  /** An L-shaped route (first `c1` moves `n1` times, then `c2` moves `n2` times) that misses the
      gap is a candidate. */
  lemma LRouteCandidate(s: Point, t: Point, valid: set<Point>, width: int, height: int, gap: Point,
                        c1: char, n1: nat, c2: char, n2: nat)
    requires forall p :: p in valid <==> InGrid(p, width, height) && p != gap
    requires InGrid(s, width, height) && InGrid(t, width, height)
    requires IsArrow(c1) && IsArrow(c2)
    requires InGrid(Shift(s, c1, n1), width, height) && Shift(Shift(s, c1, n1), c2, n2) == t
    requires !InBox(gap, s, Shift(s, c1, n1)) && !InBox(gap, Shift(s, c1, n1), t)
    requires multiset(Repeat(c1, n1) + Repeat(c2, n2)) == multiset(Moves(Sub(t, s)))
    ensures Candidates(s, t, valid) != []
  {
    var corner := Shift(s, c1, n1);
    RunClearOfGap(s, c1, n1, valid, width, height, gap);
    RunClearOfGap(corner, c2, n2, valid, width, height, gap);
    PathValidSplit(s, Repeat(c1, n1), Repeat(c2, n2), valid);
    CandidatesExactly(s, t, valid, Repeat(c1, n1) + Repeat(c2, n2));
  }

  /** Either the horizontal-first or the vertical-first ordering stays on a pad whose gap is
      a corner; so a valid candidate always exists. */
  lemma CornerOrderingExists(s: Point, t: Point, valid: set<Point>, width: int, height: int, gap: Point)
    requires forall p :: p in valid <==> InGrid(p, width, height) && p != gap
    requires (gap.x == 0 || gap.x == width - 1) && (gap.y == 0 || gap.y == height - 1)
    requires s in valid && t in valid
    ensures Candidates(s, t, valid) != []
  {
    var d := Sub(t, s);
    var h, v := Horizontal(d), Vertical(d);
    var a, b := Abs(d.x), Abs(d.y);
    assert Shift(s, h, a) == Point(t.x, s.y) && Shift(Point(t.x, s.y), v, b) == t;
    assert Shift(s, v, b) == Point(s.x, t.y) && Shift(Point(s.x, t.y), h, a) == t;
    CornerGapMissed(s, t, width, height, gap);
    if !InBox(gap, s, Point(t.x, s.y)) && !InBox(gap, Point(t.x, s.y), t) {
      LRouteCandidate(s, t, valid, width, height, gap, h, a, v, b);
    } else {
      assert multiset(Repeat(v, b) + Repeat(h, a)) == multiset(Moves(d));
      LRouteCandidate(s, t, valid, width, height, gap, v, b, h, a);
    }
  }

  lemma {:induction false} PathValidSplit(p: Point, s: seq<char>, t: seq<char>, valid: set<Point>)
    requires Arrows(s) && Arrows(t)
    requires PathValid(p, s, valid) && PathValid(Trace(p, s), t, valid)
    ensures Arrows(s + t) && PathValid(p, s + t, valid)
    decreases |s|
  {
    if s != [] {
      assert (s + t)[1..] == s[1..] + t;
      PathValidSplit(Add(p, DirToPoint(s[0])), s[1..], t, valid);
    } else {
      assert s + t == t;
    }
  }

  /** The `expect` in rec_dir never fires: any two directional keys are joined by a valid ordering. */
  lemma DirpadCandidatesExist(s: Point, t: Point)
    requires s in DirpadValid && t in DirpadValid
    ensures Candidates(s, t, DirpadValid) != []
  {
    DirpadCells();
    CornerOrderingExists(s, t, DirpadValid, 3, 2, Point(0, 0));
  }

  /** The `expect` in solve_line never fires: any two numeric keys are joined by a valid ordering. */
  lemma NumpadCandidatesExist(s: Point, t: Point)
    requires s in NumpadValid && t in NumpadValid
    ensures Candidates(s, t, NumpadValid) != []
  {
    NumpadCells();
    CornerOrderingExists(s, t, NumpadValid, 3, 4, Point(0, 3));
  }

  // ---------------------------------------------------------------------------
  // The cost, as a plain recursive definition

  /** rec_dir panics on a character that is not on the directional pad, but only at depth > 0. */
  predicate CostDefined(depth: int, path: seq<char>)
  {
    depth <= 0 || OnDirpad(path)
  }

  /** A non-empty list of non-empty sequences of directional keys. */
  predicate KeySequences(cands: seq<seq<char>>)
  {
    cands != [] && forall k :: 0 <= k < |cands| ==> cands[k] != [] && OnDirpad(cands[k])
  }

  /** Candidate lists for a (cursor cell, target cell) pair. */
  type Table = (Point, Point) -> seq<seq<char>>

  /** What the cost definition needs of a table: candidates for every pair of directional cells. */
  predicate TableFits(t: Table)
  {
    forall a, b :: a in DirpadValid && b in DirpadValid ==> KeySequences(t(a, b))
  }

  /** The candidates rec_dir minimises over, for every pair of directional cells. */
  const DirpadCandidates: Table := (a: Point, b: Point) => Candidates(a, b, DirpadValid)

  /** On the cells of a pad, `tab` holds the valid shortest orderings of that pad. */
  ghost predicate TableFor(tab: Table, valid: set<Point>)
  {
    forall a, b {:trigger Candidates(a, b, valid)} ::
      a in valid && b in valid ==> tab(a, b) == Candidates(a, b, valid)
  }

  /** `t` agrees with DirpadCandidates on the directional cells and fits the cost definition. */
  ghost predicate CandidateTable(t: Table)
  {
    TableFits(t) && TableFor(t, DirpadValid)
  }

  lemma DirpadCandidatesFit()
    ensures TableFits(DirpadCandidates) && CandidateTable(DirpadCandidates)
  {
    forall a, b | a in DirpadValid && b in DirpadValid
      ensures KeySequences(DirpadCandidates(a, b))
    {
      DirpadCandidatesExist(a, b);
      var cands := Candidates(a, b, DirpadValid);
      forall k | 0 <= k < |cands|
        ensures cands[k] != []
      {
        CandidatesReachTarget(a, b, DirpadValid, cands[k]);
      }
    }
  }

  /** The candidates solve_line minimises over, for every pair of numeric cells. */
  const NumpadCandidates: Table := (a: Point, b: Point) => Candidates(a, b, NumpadValid)

  /** Candidates for every pair of numeric cells. */
  predicate NumTableFits(nt: Table)
  {
    forall a, b :: a in NumpadValid && b in NumpadValid ==> KeySequences(nt(a, b))
  }

  lemma NumpadCandidatesFit()
    ensures NumTableFits(NumpadCandidates) && TableFor(NumpadCandidates, NumpadValid)
  {
    forall a, b | a in NumpadValid && b in NumpadValid
      ensures KeySequences(NumpadCandidates(a, b))
    {
      NumpadCandidatesExist(a, b);
      var cands := Candidates(a, b, NumpadValid);
      forall k | 0 <= k < |cands|
        ensures cands[k] != []
      {
        CandidatesReachTarget(a, b, NumpadValid, cands[k]);
      }
    }
  }

  /** Presses the human makes so that `depth` directional pads type `path` one level down, the
      pad moves for each key being taken from `t`. */
  function Cost(t: Table, depth: int, path: seq<char>): nat
    requires TableFits(t) && CostDefined(depth, path)
    decreases depth, 3, 0
  {
    if depth <= 0 then |path| else CostUpTo(t, depth, path, |path|)
  }

  /** The cost of the first `k` characters of `path`; the cursor starts on ACTION. */
  function CostUpTo(t: Table, depth: int, path: seq<char>, k: nat): nat
    requires TableFits(t) && depth > 0 && OnDirpad(path) && k <= |path|
    decreases depth, 2, k
  {
    if k == 0 then 0 else CostUpTo(t, depth, path, k - 1) + StepCost(t, depth, path, k - 1)
  }

  /** The cost of character `i`: the cursor rests on the previous character's key. */
  function StepCost(t: Table, depth: int, path: seq<char>, i: nat): nat
    requires TableFits(t) && depth > 0 && OnDirpad(path) && i < |path|
    decreases depth, 1, 0
  {
    if i > 0 && path[i - 1] == path[i] then Cost(t, depth - 1, [Action])
    else
      var cursor := if i == 0 then DirpadStart else Dirpad(path[i - 1]);
      DirpadKeyValid(path[i]);
      DirpadKeyValid(if i > 0 then path[i - 1] else Action);
      MinCost(t, depth - 1, t(cursor, Dirpad(path[i])))
  }

  /** The least cost among candidate sequences. */
  function MinCost(t: Table, depth: int, cands: seq<seq<char>>): nat
    requires TableFits(t) && cands != [] && forall k :: 0 <= k < |cands| ==> CostDefined(depth, cands[k])
    decreases depth, 4, |cands|
  {
    var last := Cost(t, depth, cands[|cands| - 1]);
    if |cands| == 1 then last else Min(MinCost(t, depth, cands[..|cands| - 1]), last)
  }

  /** `.min()` of the candidate costs: None for no candidate. */
  function MinOpt(t: Table, depth: int, cands: seq<seq<char>>): Option<int>
    requires TableFits(t) && forall k :: 0 <= k < |cands| ==> CostDefined(depth, cands[k])
  {
    if cands == [] then None else Some(MinCost(t, depth, cands))
  }

  lemma {:induction false} MinCostIsMinimum(t: Table, depth: int, cands: seq<seq<char>>)
    requires TableFits(t) && cands != [] && forall k :: 0 <= k < |cands| ==> CostDefined(depth, cands[k])
    ensures exists k :: 0 <= k < |cands| && MinCost(t, depth, cands) == Cost(t, depth, cands[k])
    ensures forall k :: 0 <= k < |cands| ==> MinCost(t, depth, cands) <= Cost(t, depth, cands[k])
    decreases |cands|
  {
    var n := |cands|;
    if n > 1 {
      MinCostIsMinimum(t, depth, cands[..n - 1]);
      var j :| 0 <= j < n - 1 && MinCost(t, depth, cands[..n - 1]) == Cost(t, depth, cands[..n - 1][j]);
      if MinCost(t, depth, cands) == Cost(t, depth, cands[n - 1]) {
      } else {
        assert MinCost(t, depth, cands) == Cost(t, depth, cands[j]);
      }
      forall k | 0 <= k < n - 1
        ensures MinCost(t, depth, cands) <= Cost(t, depth, cands[k])
      {
        assert cands[..n - 1][k] == cands[k];
      }
    } else {
      assert MinCost(t, depth, cands) == Cost(t, depth, cands[0]);
    }
  }

  /** A lower bound on every candidate's cost bounds the least of them. */
  lemma {:induction false} MinCostAtLeast(t: Table, depth: int, cands: seq<seq<char>>, b: int)
    requires TableFits(t) && cands != [] && forall k :: 0 <= k < |cands| ==> CostDefined(depth, cands[k])
    requires forall k :: 0 <= k < |cands| ==> Cost(t, depth, cands[k]) >= b
    ensures MinCost(t, depth, cands) >= b
    decreases |cands|
  {
    if |cands| > 1 {
      MinCostAtLeast(t, depth, cands[..|cands| - 1], b);
    }
  }

  /** Pressing a repeated character via the shortcut costs what the general branch would:
      a zero move admits only the candidate "A". */
  lemma RepressIsExact(t: Table, depth: int, p: Point)
    requires CandidateTable(t) && depth > 0 && p in DirpadValid
    ensures t(p, p) == [[Action]]
    ensures MinOpt(t, depth - 1, t(p, p)) == Some(Cost(t, depth - 1, [Action]))
  {
    CandidatesStayPut(p, DirpadValid);
    assert t(p, p) == Candidates(p, p, DirpadValid);
  }

  /** Every character costs at least one press, so the cost is at least the length. */
  lemma {:induction false} CostAtLeastLength(t: Table, depth: int, path: seq<char>)
    requires TableFits(t) && CostDefined(depth, path)
    ensures Cost(t, depth, path) >= |path|
    decreases depth, 2
  {
    if depth > 0 {
      CostUpToAtLeast(t, depth, path, |path|);
    }
  }

  lemma {:induction false} CostUpToAtLeast(t: Table, depth: int, path: seq<char>, k: nat)
    requires TableFits(t) && depth > 0 && OnDirpad(path) && k <= |path|
    ensures CostUpTo(t, depth, path, k) >= k
    decreases depth, 1, k
  {
    if k > 0 {
      CostUpToAtLeast(t, depth, path, k - 1);
      StepCostAtLeastOne(t, depth, path, k - 1);
    }
  }

  lemma {:induction false} StepCostAtLeastOne(t: Table, depth: int, path: seq<char>, i: nat)
    requires TableFits(t) && depth > 0 && OnDirpad(path) && i < |path|
    ensures StepCost(t, depth, path, i) >= 1
    decreases depth, 0, 0
  {
    if i > 0 && path[i - 1] == path[i] {
      CostAtLeastLength(t, depth - 1, [Action]);
    } else {
      var cursor := if i == 0 then DirpadStart else Dirpad(path[i - 1]);
      DirpadKeyValid(path[i]);
      DirpadKeyValid(if i > 0 then path[i - 1] else Action);
      MinCostOfKeys(t, depth - 1, t(cursor, Dirpad(path[i])));
    }
  }

  /** Non-empty candidates cost at least one press each, so their minimum does too. */
  lemma MinCostOfKeys(t: Table, depth: int, cands: seq<seq<char>>)
    requires TableFits(t) && KeySequences(cands)
    ensures MinCost(t, depth, cands) >= 1
    decreases depth, 3
  {
    forall k | 0 <= k < |cands|
      ensures Cost(t, depth, cands[k]) >= 1
    {
      CostAtLeastLength(t, depth, cands[k]);
    }
    MinCostAtLeast(t, depth, cands, 1);
  }

  /** The two branches of rec_dir's loop body, in terms of the candidates rec_dir scans. */
  lemma StepCostCases(t: Table, depth: int, path: seq<char>, i: nat, cursor: Point)
    requires CandidateTable(t) && depth > 0 && OnDirpad(path) && i < |path|
    requires cursor == if i == 0 then DirpadStart else Dirpad(path[i - 1])
    ensures CostUpTo(t, depth, path, i + 1) == CostUpTo(t, depth, path, i) + StepCost(t, depth, path, i)
    ensures i > 0 && path[i - 1] == path[i] ==> StepCost(t, depth, path, i) == Cost(t, depth - 1, [Action])
    ensures cursor in DirpadValid && Dirpad(path[i]) in DirpadValid
    ensures !(i > 0 && path[i - 1] == path[i]) ==>
      t(cursor, Dirpad(path[i])) != [] &&
      MinOpt(t, depth - 1, t(cursor, Dirpad(path[i]))) == Some(StepCost(t, depth, path, i))
  {
    DirpadKeyValid(path[i]);
    DirpadKeyValid(if i > 0 then path[i - 1] else Action);
  }

  // ---------------------------------------------------------------------------
  // The memoised implementation: rec_dir

  type Memo = map<(int, seq<char>), int>

  /** Every memo entry holds the value of the plain definition. */
  ghost predicate MemoSound(memo: Memo, t: Table)
  {
    TableFits(t) &&
    forall key :: key in memo ==> CostDefined(key.0, key.1) && memo[key] == Cost(t, key.0, key.1)
  }

  /** No stored entry is removed or changed. */
  ghost predicate Extends(memo: Memo, memo': Memo)
  {
    forall key :: key in memo ==> key in memo' && memo'[key] == memo[key]
  }

  /** One more candidate: `.min()` takes the smaller of the old minimum and its cost. */
  lemma MinOptSnoc(t: Table, depth: int, cands: seq<seq<char>>, c: seq<char>)
    requires TableFits(t) && forall k :: 0 <= k < |cands| ==> CostDefined(depth, cands[k])
    requires CostDefined(depth, c)
    ensures forall k :: 0 <= k < |cands + [c]| ==> CostDefined(depth, (cands + [c])[k])
    ensures MinOpt(t, depth, cands + [c]) ==
      Some(if MinOpt(t, depth, cands).None? then Cost(t, depth, c) else Min(MinOpt(t, depth, cands).value, Cost(t, depth, c)))
  {
    assert (cands + [c])[..|cands|] == cands;
  }

  /** The `permutations … filter_map … min` chain shared by rec_dir and solve_line, on the pad
      whose cells are `valid`; `tab` holds that pad's candidates and `t` the directional ones the
      costs are stated with. */
  method MinOverOrderings(memo: Memo, depth: int, cursor: Point, target: Point, valid: set<Point>,
                          ghost tab: Table, ghost t: Table)
    returns (best: int, memo': Memo)
    requires CandidateTable(t) && MemoSound(memo, t)
    requires TableFor(tab, valid) && cursor in valid && target in valid && KeySequences(tab(cursor, target))
    ensures Some(best) == MinOpt(t, depth, tab(cursor, target))
    ensures MemoSound(memo', t) && Extends(memo, memo')
    decreases depth, 5
  {
    assert tab(cursor, target) == Candidates(cursor, target, valid);
    var moves := DeltaToPath(Sub(target, cursor));
    PermutationsOfMoves(Sub(target, cursor));
    var found;
    found, memo' := ScanOrderings(memo, depth, cursor, Permutations(moves), valid, t);
    best := found.value;
  }

  /** The loop over the orderings: each valid one, with ACTION appended, is costed by rec_dir. */
  method ScanOrderings(memo: Memo, depth: int, cursor: Point, perms: seq<seq<char>>, valid: set<Point>, ghost t: Table)
    returns (found: Option<int>, memo': Memo)
    requires CandidateTable(t) && MemoSound(memo, t)
    requires forall k :: 0 <= k < |perms| ==> Arrows(perms[k])
    ensures found == MinOpt(t, depth, ValidOrderings(cursor, perms, valid))
    ensures MemoSound(memo', t) && Extends(memo, memo')
    decreases depth, 4
  {
    found := None;
    memo' := memo;
    for j := 0 to |perms|
      invariant MemoSound(memo', t) && Extends(memo, memo')
      invariant found == MinOpt(t, depth, ValidOrderings(cursor, perms[..j], valid))
    {
      ghost var before := ValidOrderings(cursor, perms[..j], valid);
      ValidOrderingsStep(cursor, perms, j, valid);
      var ok := IsPathValid(cursor, perms[j], valid);
      if ok {
        var cand := perms[j] + [Action];
        var v;
        v, memo' := RecDir(memo', depth, cand, t);
        MinOptSnoc(t, depth, before, cand);
        found := Some(if found.None? || v < found.value then v else found.value);
      } else {
        assert before + [] == before;
      }
    }
    assert perms[..|perms|] == perms;
  }

  /** rec_dir: a hit returns the stored value, a miss computes and stores it. */
  method RecDir(memo: Memo, depth: int, path: seq<char>, ghost t: Table) returns (r: int, memo': Memo)
    requires CandidateTable(t) && MemoSound(memo, t) && CostDefined(depth, path)
    ensures r == Cost(t, depth, path)
    ensures MemoSound(memo', t) && Extends(memo, memo') && (depth, path) in memo'
    decreases depth, 3
  {
    if (depth, path) in memo {
      return memo[(depth, path)], memo;
    }
    if depth <= 0 {
      r, memo' := |path|, memo;
    } else {
      r, memo' := PressAll(memo, depth, path, t);
    }
    memo' := memo'[(depth, path) := r];
  }

  /** The loop of rec_dir over the characters of `path`, for depth > 0. */
  method PressAll(memo: Memo, depth: int, path: seq<char>, ghost t: Table) returns (r: int, memo': Memo)
    requires CandidateTable(t) && MemoSound(memo, t) && depth > 0 && OnDirpad(path)
    ensures r == Cost(t, depth, path)
    ensures MemoSound(memo', t) && Extends(memo, memo')
    decreases depth, 2
  {
    memo' := memo;
    r := 0;
    var cursor := DirpadStart;
    var last: Option<char> := None;
    for i := 0 to |path|
      invariant MemoSound(memo', t) && Extends(memo, memo')
      invariant r == CostUpTo(t, depth, path, i)
      invariant cursor == if i == 0 then DirpadStart else Dirpad(path[i - 1])
      invariant last == if i == 0 then None else Some(path[i - 1])
    {
      var step;
      step, memo' := PressKey(memo', depth, path, i, cursor, last, t);
      r := r + step;
      cursor := Dirpad(path[i]);
      last := Some(path[i]);
    }
  }

  /** One pass of rec_dir's loop body: the presses for character `i` of `path`. */
  method PressKey(memo: Memo, depth: int, path: seq<char>, i: nat, cursor: Point, last: Option<char>, ghost t: Table)
    returns (step: int, memo': Memo)
    requires CandidateTable(t) && MemoSound(memo, t) && depth > 0 && OnDirpad(path) && i < |path|
    requires cursor == if i == 0 then DirpadStart else Dirpad(path[i - 1])
    requires last == if i == 0 then None else Some(path[i - 1])
    ensures CostUpTo(t, depth, path, i + 1) == CostUpTo(t, depth, path, i) + step
    ensures MemoSound(memo', t) && Extends(memo, memo')
    decreases depth, 1
  {
    var c := path[i];
    StepCostCases(t, depth, path, i, cursor);
    if last == Some(c) {
      step, memo' := RecDir(memo, depth - 1, [Action], t);
    } else {
      assert !(i > 0 && path[i - 1] == path[i]);
      step, memo' := MinOverOrderings(memo, depth - 1, cursor, Dirpad(c), DirpadValid, t, t);
    }
  }

  // ---------------------------------------------------------------------------
  // solve_line and solve

  predicate OnNumpad(code: string)
  {
    forall i :: 0 <= i < |code| ==> IsNumKey(code[i])
  }

  /** The presses for key `i` of a code: the cheapest valid numeric ordering from the previous key. */
  function KeyCost(nt: Table, t: Table, code: string, depth: int, i: nat): nat
    requires NumTableFits(nt) && TableFits(t) && OnNumpad(code) && i < |code|
  {
    var cursor := if i == 0 then NumpadStart else Numpad(code[i - 1]);
    NumpadKeyValid(code[i]);
    NumpadKeyValid(if i > 0 then code[i - 1] else Action);
    MinCost(t, depth, nt(cursor, Numpad(code[i])))
  }

  /** The presses for the first `k` keys of a code, numeric candidates taken from `nt`. */
  function LineCost(nt: Table, t: Table, code: string, depth: int, k: nat): nat
    requires NumTableFits(nt) && TableFits(t) && OnNumpad(code) && k <= |code|
  {
    if k == 0 then 0 else LineCost(nt, t, code, depth, k - 1) + KeyCost(nt, t, code, depth, k - 1)
  }

  /** The press count solve_line computes for a code. */
  function CodeCost(code: string, depth: int): nat
    requires OnNumpad(code)
  {
    NumpadCandidatesFit();
    DirpadCandidatesFit();
    LineCost(NumpadCandidates, DirpadCandidates, code, depth, |code|)
  }

  /** solve_line: a fresh memo per code, a cursor starting on the numeric ACTION key.  A
      character off the numeric keypad is the `expect` panic, None here. */
  method SolveLine(code: string, depth: int) returns (r: Option<int>)
    ensures r.Some? <==> OnNumpad(code)
    ensures r.Some? ==> r.value == CodeCost(code, depth)
  {
    NumpadCandidatesFit();
    DirpadCandidatesFit();
    r := SolveWith(code, depth, NumpadCandidates, DirpadCandidates);
  }

  /** The loop of solve_line, costs stated with the candidate tables `nt` and `t`; it stops at
      the first character that is not a numeric key. */
  method SolveWith(code: string, depth: int, ghost nt: Table, ghost t: Table) returns (r: Option<int>)
    requires CandidateTable(t) && NumTableFits(nt) && TableFor(nt, NumpadValid)
    ensures r.Some? <==> OnNumpad(code)
    ensures r.Some? ==> r.value == LineCost(nt, t, code, depth, |code|)
  {
    var sum := 0;
    var cursor := NumpadStart;
    var memo: Memo := map[];
    for i := 0 to |code|
      invariant OnNumpad(code[..i])
      invariant MemoSound(memo, t)
      invariant sum == LineCost(nt, t, code[..i], depth, i)
      invariant cursor == if i == 0 then NumpadStart else Numpad(code[i - 1])
    {
      if !IsNumKey(code[i]) {
        assert !OnNumpad(code);
        return None;
      }
      var prefix := code[..i + 1];
      assert prefix[..i] == code[..i];
      assert OnNumpad(prefix);
      LineCostPrefix(nt, t, prefix, depth, i);
      var target := Numpad(code[i]);
      NumpadKeyValid(code[i]);
      NumpadKeyValid(if i > 0 then code[i - 1] else Action);
      var best;
      best, memo := MinOverOrderings(memo, depth, cursor, target, NumpadValid, nt, t);
      sum := sum + best;
      cursor := target;
    }
    assert code[..|code|] == code;
    r := Some(sum);
  }

  /** The cost of the first `k` keys depends on those keys alone. */
  lemma {:induction false} LineCostPrefix(nt: Table, t: Table, code: string, depth: int, k: nat)
    requires NumTableFits(nt) && TableFits(t) && OnNumpad(code) && k <= |code|
    ensures OnNumpad(code[..k]) && LineCost(nt, t, code[..k], depth, k) == LineCost(nt, t, code, depth, k)
    decreases k
  {
    if k > 0 {
      var front := code[..k];
      LineCostPrefix(nt, t, front, depth, k - 1);
      LineCostPrefix(nt, t, code, depth, k - 1);
      assert front[..k - 1] == code[..k - 1];
      assert front[k - 1] == code[k - 1] && (k >= 2 ==> front[k - 2] == code[k - 2]);
      assert KeyCost(nt, t, front, depth, k - 1) == KeyCost(nt, t, code, depth, k - 1);
    }
  }

  /** A code never costs fewer presses than it has keys. */
  lemma {:induction false} LineCostAtLeastLength(nt: Table, t: Table, code: string, depth: int, k: nat)
    requires NumTableFits(nt) && TableFits(t) && OnNumpad(code) && k <= |code|
    ensures LineCost(nt, t, code, depth, k) >= k
    decreases k
  {
    if k > 0 {
      LineCostAtLeastLength(nt, t, code, depth, k - 1);
      var i := k - 1;
      var cursor := if i == 0 then NumpadStart else Numpad(code[i - 1]);
      NumpadKeyValid(code[i]);
      NumpadKeyValid(if i > 0 then code[i - 1] else Action);
      MinCostOfKeys(t, depth, nt(cursor, Numpad(code[i])));
    }
  }

  /** solve_line never returns fewer presses than the code has keys. */
  lemma CodeCostAtLeastLength(code: string, depth: int)
    requires OnNumpad(code)
    ensures CodeCost(code, depth) >= |code|
  {
    NumpadCandidatesFit();
    DirpadCandidatesFit();
    LineCostAtLeastLength(NumpadCandidates, DirpadCandidates, code, depth, |code|);
  }

  function DigitsOf(line: string): (r: string)
    ensures AllDigits(r) && |r| <= |line|
  {
    if line == [] then []
    else DigitsOf(line[..|line| - 1]) + (if IsDigit(line[|line| - 1]) then [line[|line| - 1]] else [])
  }

  /** The `filter_map` of solve: the number formed by each line's digits; lines without digits
      are skipped. */
  function CodeNumbers(lines: seq<string>): (r: seq<nat>)
    ensures |r| <= |lines|
  {
    if lines == [] then []
    else
      var digits := DigitsOf(lines[|lines| - 1]);
      CodeNumbers(lines[..|lines| - 1]) + (if digits == [] then [] else [DigitsValue(digits)])
  }

  /** `zip` then `fold`: the sum of products over the shorter of the two lists. */
  function ZipProductSum(nums: seq<nat>, lengths: seq<int>): int
  {
    if nums == [] || lengths == [] then 0
    else nums[0] * lengths[0] + ZipProductSum(nums[1..], lengths[1..])
  }

  /** The `map(solve_line)` of solve: the press count of each code, in order. */
  function LineCosts(codes: seq<string>, depth: int): (r: seq<int>)
    requires AllCodes(codes)
    ensures |r| == |codes|
  {
    if codes == [] then []
    else
      var n := |codes| - 1;
      LineCosts(codes[..n], depth) + [CodeCost(codes[n], depth)]
  }

  /** The loop behind `lines.iter().map(|n| solve_line(n, depth)).collect()`; None when a line
      panics. */
  method SolveCodes(lines: seq<string>, depth: int) returns (lengths: Option<seq<int>>)
    ensures lengths.Some? <==> AllCodes(lines)
    ensures lengths.Some? ==> lengths.value == LineCosts(lines, depth)
  {
    var acc := [];
    for i := 0 to |lines|
      invariant AllCodes(lines[..i])
      invariant acc == LineCosts(lines[..i], depth)
    {
      var ok;
      ok, acc := AddCode(lines, i, depth, acc);
      if !ok {
        return None;
      }
    }
    assert lines[..|lines|] == lines;
    lengths := Some(acc);
  }

  /** One pass of the collecting loop: solve_line on line `i`, appended to the costs so far. */
  method AddCode(lines: seq<string>, i: nat, depth: int, acc: seq<int>) returns (ok: bool, acc': seq<int>)
    requires i < |lines| && AllCodes(lines[..i]) && acc == LineCosts(lines[..i], depth)
    ensures ok <==> OnNumpad(lines[i])
    ensures !ok ==> !AllCodes(lines)
    ensures ok ==> AllCodes(lines[..i + 1]) && acc' == LineCosts(lines[..i + 1], depth)
  {
    var len := SolveLine(lines[i], depth);
    if len.None? {
      return false, acc;
    }
    AllCodesSnoc(lines, i);
    ok, acc' := true, acc + [len.value];
  }

  /** Every line is made of numeric keypad keys (solve_line panics otherwise). */
  predicate AllCodes(lines: seq<string>)
  {
    forall i :: 0 <= i < |lines| ==> OnNumpad(lines[i])
  }

  lemma AllCodesSnoc(lines: seq<string>, i: nat)
    requires i < |lines| && AllCodes(lines[..i]) && OnNumpad(lines[i])
    ensures AllCodes(lines[..i + 1]) && lines[..i + 1][..i] == lines[..i]
  {
    assert lines[..i + 1] == lines[..i] + [lines[i]];
  }

  /** solve: the complexity sum over the codes of the input; None when a line panics. */
  method Solve(input: string, depth: int) returns (total: Option<int>)
    ensures total.Some? <==> AllCodes(Lines(input))
    ensures total.Some? ==> total.value == ZipProductSum(CodeNumbers(Lines(input)), LineCosts(Lines(input), depth))
  {
    var lines := Lines(input);
    var lengths := SolveCodes(lines, depth);
    if lengths.None? {
      return None;
    }
    total := Some(ZipProductSum(CodeNumbers(lines), lengths.value));
  }

  /** With every line holding digits, each code's number meets its own length. */
  lemma {:induction false} CodeNumbersAligned(lines: seq<string>)
    requires forall i :: 0 <= i < |lines| ==> DigitsOf(lines[i]) != []
    ensures |CodeNumbers(lines)| == |lines|
    ensures forall i :: 0 <= i < |lines| ==> CodeNumbers(lines)[i] == DigitsValue(DigitsOf(lines[i]))
    decreases |lines|
  {
    if lines != [] {
      CodeNumbersAligned(lines[..|lines| - 1]);
    }
  }
}
