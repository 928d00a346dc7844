/** Day 25: locks and keys.  The input is a list of schematics separated by blank lines; a
    schematic whose top row is all '#' is a lock, any other one is a key.  Each column becomes a
    pin height, and a key fits a lock when no column's heights add up to more than 5. */
module Day25 {
  import opened Common

  const Block: char := '#'
  const Space: char := '.'
  const MaxHeight: int := 5

  /** A schematic: its rows, each a string of cells. */
  type Shape = seq<string>

  // ---------------------------------------------------------------------------------------
  // Scanning one column

  /** Where the scan of a column stops: at a '.' on row `y`, at the end without finding one,
      or on a row too short for the column (indexing it panics). */
  datatype Stop = SpaceAt(y: int) | NoSpace | ShortRow

  /** A lock column, scanned downward from row `y`: the first row holding '.' there. */
  function LockScan(shape: Shape, x: nat, y: nat): (r: Stop)
    requires y >= 1
    ensures r.SpaceAt? ==> y <= r.y < |shape| && x < |shape[r.y]| && shape[r.y][x] == Space &&
                           forall k :: y <= k < r.y ==> x < |shape[k]| && shape[k][x] != Space
    ensures r.NoSpace? ==> forall k :: y <= k < |shape| ==> x < |shape[k]| && shape[k][x] != Space
    ensures r.ShortRow? ==> exists k :: (y <= k < |shape| && x >= |shape[k]| &&
                           forall j :: y <= j < k ==> x < |shape[j]| && shape[j][x] != Space)
    decreases |shape| - y
  {
    if y >= |shape| then NoSpace
    else if x >= |shape[y]| then ShortRow
    else if shape[y][x] == Space then SpaceAt(y)
    else LockScan(shape, x, y + 1)
  }

  /** A key column, scanned upward from row `n - 1` to row 0: the lowest row holding '.'. */
  function KeyScan(shape: Shape, x: nat, n: nat): (r: Stop)
    requires n <= |shape|
    ensures r.SpaceAt? ==> 0 <= r.y < n && x < |shape[r.y]| && shape[r.y][x] == Space &&
                           forall k :: r.y < k < n ==> x < |shape[k]| && shape[k][x] != Space
    ensures r.NoSpace? ==> forall k :: 0 <= k < n ==> x < |shape[k]| && shape[k][x] != Space
    ensures r.ShortRow? ==> exists k :: (0 <= k < n && x >= |shape[k]| &&
                           forall j :: k < j < n ==> x < |shape[j]| && shape[j][x] != Space)
  {
    if n == 0 then NoSpace
    else if x >= |shape[n - 1]| then ShortRow
    else if shape[n - 1][x] == Space then SpaceAt(n - 1)
    else KeyScan(shape, x, n - 1)
  }

  /** The inner loop of parse for a lock column: rows 1 up to the bottom, stopping at the first
      '.'; None where a row is too short (a panic). */
  method LockColumn(shape: Shape, x: nat) returns (r: Stop)
    ensures r == LockScan(shape, x, 1)
  {
    var y := 1;
    while y < |shape|
      invariant 1 <= y
      invariant LockScan(shape, x, 1) == LockScan(shape, x, y)
      decreases |shape| - y
    {
      if x >= |shape[y]| {
        return ShortRow;
      }
      if shape[y][x] == Space {
        return SpaceAt(y);
      }
      y := y + 1;
    }
    return NoSpace;
  }

  /** The inner loop of parse for a key column: rows from the bottom up, stopping at the first
      '.'. */
  method KeyColumn(shape: Shape, x: nat) returns (r: Stop)
    ensures r == KeyScan(shape, x, |shape|)
  {
    var y := |shape|;
    while y > 0
      invariant 0 <= y <= |shape|
      invariant KeyScan(shape, x, |shape|) == KeyScan(shape, x, y)
    {
      y := y - 1;
      if x >= |shape[y]| {
        return ShortRow;
      }
      if shape[y][x] == Space {
        return SpaceAt(y);
      }
    }
    return NoSpace;
  }

  // ---------------------------------------------------------------------------------------
  // Patterns

  /** The pin heights of a lock's first `w` columns: the first '.' below the top row, minus
      one; a column without '.' adds nothing.  None where a row is too short. */
  function LockPattern(shape: Shape, w: nat): (r: Option<seq<int>>)
    ensures r.Some? ==> |r.value| <= w
  {
    if w == 0 then Some([])
    else match LockPattern(shape, w - 1)
      case None => None
      case Some(p) =>
        match LockScan(shape, w - 1, 1)
        case SpaceAt(y) => Some(p + [y - 1])
        case NoSpace => Some(p)
        case ShortRow => None
  }

  /** The pin heights of a key's first `w` columns: height - y - 2 for the lowest '.' on row
      `y`; a column without '.' adds nothing. */
  function KeyPattern(shape: Shape, w: nat): (r: Option<seq<int>>)
    ensures r.Some? ==> |r.value| <= w
  {
    if w == 0 then Some([])
    else match KeyPattern(shape, w - 1)
      case None => None
      case Some(p) =>
        match KeyScan(shape, w - 1, |shape|)
        case SpaceAt(y) => Some(p + [|shape| - y - 2])
        case NoSpace => Some(p)
        case ShortRow => None
  }

  /** A column of a lock whose rows are all at least `w` long always gets a height between 0
      and the number of rows below the top one, minus one. */
  lemma {:induction false} LockPatternBounds(shape: Shape, w: nat)
    requires forall k :: 0 <= k < |shape| ==> w <= |shape[k]|
    ensures LockPattern(shape, w).Some?
    ensures forall i :: 0 <= i < |LockPattern(shape, w).value| ==>
              0 <= LockPattern(shape, w).value[i] <= |shape| - 2
  {
    if w > 0 {
      LockPatternBounds(shape, w - 1);
    }
  }

  /** Likewise for a key: heights between -1 (a '.' on the bottom row) and the number of rows
      minus two. */
  lemma {:induction false} KeyPatternBounds(shape: Shape, w: nat)
    requires forall k :: 0 <= k < |shape| ==> w <= |shape[k]|
    ensures KeyPattern(shape, w).Some?
    ensures forall i :: 0 <= i < |KeyPattern(shape, w).value| ==>
              -1 <= KeyPattern(shape, w).value[i] <= |shape| - 2
  {
    if w > 0 {
      KeyPatternBounds(shape, w - 1);
    }
  }

  /** The numbers below `w` that `marked` holds for. */
  function Marked(marked: nat -> bool, w: nat): set<nat>
  {
    set x: nat | x < w && marked(x)
  }

  /** One more number adds itself to Marked exactly when it is marked. */
  lemma MarkedStep(marked: nat -> bool, w: nat)
    ensures |Marked(marked, w + 1)| == |Marked(marked, w)| + (if marked(w) then 1 else 0)
  {
    if marked(w) {
      assert Marked(marked, w + 1) == Marked(marked, w) + {w};
    } else {
      assert Marked(marked, w + 1) == Marked(marked, w);
    }
  }

  /** Whether a lock column holds a '.' below the top row. */
  function SpacedColumn(shape: Shape): nat -> bool
  {
    (x: nat) => LockScan(shape, x, 1).SpaceAt?
  }

  /** The lock columns, among the first `w`, that hold a '.' below the top row. */
  function SpacedColumns(shape: Shape, w: nat): set<nat>
  {
    Marked(SpacedColumn(shape), w)
  }

  /** Every column of a lock holding a '.' below the top row adds exactly one height, and the
      others add none: with rows long enough, the pattern has one entry per such column. */
  lemma {:induction false} LockPatternLength(shape: Shape, w: nat)
    requires forall k :: 0 <= k < |shape| ==> w <= |shape[k]|
    ensures LockPattern(shape, w).Some?
    ensures |LockPattern(shape, w).value| == |SpacedColumns(shape, w)|
  {
    LockPatternBounds(shape, w);
    if w > 0 {
      LockPatternLength(shape, w - 1);
      MarkedStep(SpacedColumn(shape), w - 1);
    }
  }

  /** A panic in one column is a panic for the whole lock. */
  lemma {:induction false} LockPatternNoneStays(shape: Shape, a: nat, b: nat)
    requires a <= b && LockPattern(shape, a).None?
    ensures LockPattern(shape, b).None?
    decreases b - a
  {
    if a < b {
      LockPatternNoneStays(shape, a + 1, b);
    }
  }

  /** A panic in one column is a panic for the whole key. */
  lemma {:induction false} KeyPatternNoneStays(shape: Shape, a: nat, b: nat)
    requires a <= b && KeyPattern(shape, a).None?
    ensures KeyPattern(shape, b).None?
    decreases b - a
  {
    if a < b {
      KeyPatternNoneStays(shape, a + 1, b);
    }
  }

  /** The method form of the column loop of parse for a lock. */
  method LockPatternOf(shape: Shape, width: nat) returns (r: Option<seq<int>>)
    ensures r == LockPattern(shape, width)
  {
    var pattern: seq<int> := [];
    for x := 0 to width
      invariant LockPattern(shape, x) == Some(pattern)
    {
      var stop := LockColumn(shape, x);
      match stop
      case ShortRow =>
        LockPatternNoneStays(shape, x + 1, width);
        return None;
      case SpaceAt(y) => pattern := pattern + [y - 1];
      case NoSpace =>
    }
    return Some(pattern);
  }

  /** The method form of the column loop of parse for a key. */
  method KeyPatternOf(shape: Shape, width: nat) returns (r: Option<seq<int>>)
    ensures r == KeyPattern(shape, width)
  {
    var pattern: seq<int> := [];
    for x := 0 to width
      invariant KeyPattern(shape, x) == Some(pattern)
    {
      var stop := KeyColumn(shape, x);
      match stop
      case ShortRow =>
        KeyPatternNoneStays(shape, x + 1, width);
        return None;
      case SpaceAt(y) => pattern := pattern + [|shape| - y - 2];
      case NoSpace =>
    }
    return Some(pattern);
  }

  // ---------------------------------------------------------------------------------------
  // Schematics

  /** A parsed schematic. */
  datatype Schematic = Lock(pattern: seq<int>) | Key(pattern: seq<int>)

  /** The top row is all '#'. */
  predicate IsLockTop(row: string)
  {
    forall i :: 0 <= i < |row| ==> row[i] == Block
  }

  /** One schematic: a lock when its top row is all '#', a key otherwise; the width is that of
      the top row.  None where parse panics (no rows, or a row too short). */
  function SchematicOf(shape: Shape): (r: Option<Schematic>)
    ensures shape == [] ==> r.None?
    ensures r.Some? ==> (r.value.Lock? <==> IsLockTop(shape[0]))
  {
    if shape == [] then None
    else if IsLockTop(shape[0]) then
      match LockPattern(shape, |shape[0]|)
      case Some(p) => Some(Lock(p))
      case None => None
    else
      match KeyPattern(shape, |shape[0]|)
      case Some(p) => Some(Key(p))
      case None => None
  }

  /** The schematics of the parts of the input, one per part. */
  function SchematicsOf(parts: seq<string>): (r: seq<Option<Schematic>>)
    ensures |r| == |parts| && forall k :: 0 <= k < |parts| ==> r[k] == SchematicOf(Lines(parts[k]))
  {
    seq(|parts|, k requires 0 <= k < |parts| => SchematicOf(Lines(parts[k])))
  }

  /** The schematics of the input, whose parts are separated by blank lines. */
  function Schematics(input: string): (r: seq<Option<Schematic>>)
  {
    SchematicsOf(SplitOn(input, "\n\n"))
  }

  /** The locks among the first `n` schematics, in order. */
  function Locks(ss: seq<Schematic>, n: nat): (r: seq<seq<int>>)
    requires n <= |ss|
    ensures |r| <= n
  {
    if n == 0 then []
    else if ss[n - 1].Lock? then Locks(ss, n - 1) + [ss[n - 1].pattern]
    else Locks(ss, n - 1)
  }

  /** The keys among the first `n` schematics, in order. */
  function Keys(ss: seq<Schematic>, n: nat): (r: seq<seq<int>>)
    requires n <= |ss|
    ensures |r| <= n
  {
    if n == 0 then []
    else if ss[n - 1].Key? then Keys(ss, n - 1) + [ss[n - 1].pattern]
    else Keys(ss, n - 1)
  }

  /** Every schematic goes to exactly one of the two lists. */
  lemma {:induction false} LocksAndKeys(ss: seq<Schematic>, n: nat)
    requires n <= |ss|
    ensures |Locks(ss, n)| + |Keys(ss, n)| == n
  {
    if n > 0 {
      LocksAndKeys(ss, n - 1);
    }
  }

  /** The present values of the first `n` options, None when one is missing. */
  function AllPresent(os: seq<Option<Schematic>>, n: nat): (r: Option<seq<Schematic>>)
    requires n <= |os|
    ensures r.Some? ==> |r.value| == n
  {
    if n == 0 then Some([])
    else match AllPresent(os, n - 1)
      case None => None
      case Some(front) => if os[n - 1].Some? then Some(front + [os[n - 1].value]) else None
  }

  /** Day25: the lists of lock and key patterns, filled by parse and read by part1. */
  class Day25 {
    var locks: seq<seq<int>>
    var keys: seq<seq<int>>

    /** The struct literal at the end of parse. */
    constructor (locks: seq<seq<int>>, keys: seq<seq<int>>)
      ensures this.locks == locks && this.keys == keys
    {
      this.locks := locks;
      this.keys := keys;
    }

    /** part1: the number of (lock, key) pairs that fit. */
    method Part1() returns (r: nat)
      ensures r == FitCount(locks, keys, |locks|)
      ensures r <= |locks| * |keys|
    {
      r := 0;
      for i := 0 to |locks|
        invariant r == FitCount(locks, keys, i)
      {
        var inner := r;
        for j := 0 to |keys|
          invariant r == inner + FitsWith(locks[i], keys, j)
        {
          if Fits(locks[i], keys[j]) {
            r := r + 1;
          }
        }
      }
      FitCountBound(locks, keys, |locks|);
    }
  }

  /** The body of parse's loop for one part: the lock or key the shape describes, None where
      the source panics. */
  method ReadSchematic(shape: Shape) returns (r: Option<Schematic>)
    ensures r == SchematicOf(shape)
  {
    if shape == [] {
      return None;
    }
    var width := |shape[0]|;
    if IsLockTop(shape[0]) {
      var pattern := LockPatternOf(shape, width);
      if pattern.None? {
        return None;
      }
      return Some(Lock(pattern.value));
    } else {
      var pattern := KeyPatternOf(shape, width);
      if pattern.None? {
        return None;
      }
      return Some(Key(pattern.value));
    }
  }

  /** One missing schematic makes the whole parse panic. */
  lemma AbsentStops(os: seq<Option<Schematic>>, i: nat)
    requires i < |os| && os[i].None?
    ensures AllPresent(os, |os|).None?
  {
    AllPresentMeaning(os, |os|);
  }

  /** The parse succeeds exactly when every part does, and then lists their schematics. */
  lemma {:induction false} AllPresentMeaning(os: seq<Option<Schematic>>, n: nat)
    requires n <= |os|
    ensures AllPresent(os, n).Some? <==> forall k :: 0 <= k < n ==> os[k].Some?
    ensures AllPresent(os, n).Some? ==> forall k :: 0 <= k < n ==> AllPresent(os, n).value[k] == os[k].value
  {
    if n > 0 {
      AllPresentMeaning(os, n - 1);
    }
  }

  /** The loop of Day25::parse over the parts of the input. */
  method ParseParts(parts: seq<string>) returns (r: Option<Day25>)
    ensures var ss := AllPresent(SchematicsOf(parts), |parts|);
            (r.Some? <==> ss.Some?) &&
            (r.Some? ==> fresh(r.value) && r.value.locks == Locks(ss.value, |parts|) &&
                         r.value.keys == Keys(ss.value, |parts|))
  {
    ghost var os := SchematicsOf(parts);
    ghost var ss: seq<Schematic> := [];
    var locks: seq<seq<int>> := [];
    var keys: seq<seq<int>> := [];
    for i := 0 to |parts|
      invariant AllPresent(os, i) == Some(ss)
      invariant locks == Locks(ss, i) && keys == Keys(ss, i)
    {
      var schematic := ReadSchematic(Lines(parts[i]));
      if schematic.None? {
        AbsentStops(os, i);
        return None;
      }
      if schematic.value.Lock? {
        locks := locks + [schematic.value.pattern];
      } else {
        keys := keys + [schematic.value.pattern];
      }
      SortStep(ss, schematic.value);
      ss := ss + [schematic.value];
    }
    var ret := new Day25(locks, keys);
    return Some(ret);
  }

  /** Day25::parse: each part of the input between blank lines becomes a lock or a key
      pattern; None where the source panics. */
  method Parse(input: string) returns (r: Option<Day25>)
    ensures var os := Schematics(input);
            var ss := AllPresent(os, |os|);
            (r.Some? <==> ss.Some?) &&
            (r.Some? ==> fresh(r.value) && r.value.locks == Locks(ss.value, |os|) &&
                         r.value.keys == Keys(ss.value, |os|))
  {
    r := ParseParts(SplitOn(input, "\n\n"));
  }

  /** A step of the parse loop: one more schematic goes to the end of its list. */
  lemma SortStep(ss: seq<Schematic>, x: Schematic)
    ensures Locks(ss + [x], |ss| + 1) == Locks(ss, |ss|) + (if x.Lock? then [x.pattern] else [])
    ensures Keys(ss + [x], |ss| + 1) == Keys(ss, |ss|) + (if x.Key? then [x.pattern] else [])
  {
    assert (ss + [x])[..|ss|] == ss[..|ss|];
    LocksPrefix(ss + [x], ss, |ss|);
    KeysPrefix(ss + [x], ss, |ss|);
  }

  /** Locks only depends on the first `n` schematics. */
  lemma {:induction false} LocksPrefix(ss: seq<Schematic>, front: seq<Schematic>, n: nat)
    requires n <= |ss| && n <= |front| && ss[..n] == front[..n]
    ensures Locks(ss, n) == Locks(front, n)
  {
    if n > 0 {
      assert ss[n - 1] == ss[..n][n - 1];
      assert front[n - 1] == front[..n][n - 1];
      assert ss[..n - 1] == ss[..n][..n - 1];
      assert front[..n - 1] == front[..n][..n - 1];
      LocksPrefix(ss, front, n - 1);
    }
  }

  /** Keys only depends on the first `n` schematics. */
  lemma {:induction false} KeysPrefix(ss: seq<Schematic>, front: seq<Schematic>, n: nat)
    requires n <= |ss| && n <= |front| && ss[..n] == front[..n]
    ensures Keys(ss, n) == Keys(front, n)
  {
    if n > 0 {
      assert ss[n - 1] == ss[..n][n - 1];
      assert front[n - 1] == front[..n][n - 1];
      assert ss[..n - 1] == ss[..n][..n - 1];
      assert front[..n - 1] == front[..n][..n - 1];
      KeysPrefix(ss, front, n - 1);
    }
  }

  // ---------------------------------------------------------------------------------------
  // part1

  /** A key fits a lock when, over the columns both have (`zip` stops at the shorter), no two
      heights add up to more than 5. */
  predicate Fits(lock: seq<int>, key: seq<int>)
  {
    forall i :: 0 <= i < |lock| && i < |key| ==> lock[i] + key[i] <= MaxHeight
  }

  /** The number of the first `n` keys that fit `lock`. */
  function FitsWith(lock: seq<int>, keys: seq<seq<int>>, n: nat): (r: nat)
    requires n <= |keys|
    ensures r <= n
  {
    if n == 0 then 0 else FitsWith(lock, keys, n - 1) + (if Fits(lock, keys[n - 1]) then 1 else 0)
  }

  /** The number of fitting pairs among the first `n` locks and all keys. */
  function FitCount(locks: seq<seq<int>>, keys: seq<seq<int>>, n: nat): nat
    requires n <= |locks|
  {
    if n == 0 then 0 else FitCount(locks, keys, n - 1) + FitsWith(locks[n - 1], keys, |keys|)
  }

  /** At most every pair fits. */
  lemma {:induction false} FitCountBound(locks: seq<seq<int>>, keys: seq<seq<int>>, n: nat)
    requires n <= |locks|
    ensures FitCount(locks, keys, n) <= n * |keys|
  {
    if n > 0 {
      FitCountBound(locks, keys, n - 1);
      assert n * |keys| == (n - 1) * |keys| + |keys|;
    }
  }

  /** Whether key `j` fits `lock`. */
  function FitMark(lock: seq<int>, keys: seq<seq<int>>): nat -> bool
  {
    (j: nat) => j < |keys| && Fits(lock, keys[j])
  }

  /** FitsWith counts exactly the fitting keys: it is the size of the set of their indices. */
  lemma {:induction false} FitsWithCounts(lock: seq<int>, keys: seq<seq<int>>, n: nat)
    requires n <= |keys|
    ensures FitsWith(lock, keys, n) == |Marked(FitMark(lock, keys), n)|
  {
    if n > 0 {
      FitsWithCounts(lock, keys, n - 1);
      MarkedStep(FitMark(lock, keys), n - 1);
    }
  }

  /** The example's patterns: three (lock, key) pairs fit. */
  lemma ExampleFits()
    ensures FitCount([[0, 5, 3, 4, 3], [1, 2, 0, 5, 3]],
                     [[5, 0, 2, 1, 3], [4, 3, 4, 0, 2], [3, 0, 2, 0, 1]], 2) == 3
  {
    var keys := [[5, 0, 2, 1, 3], [4, 3, 4, 0, 2], [3, 0, 2, 0, 1]];
    assert !Fits([0, 5, 3, 4, 3], keys[0]) by { assert [0, 5, 3, 4, 3][4] + keys[0][4] > 5; }
    assert !Fits([0, 5, 3, 4, 3], keys[1]) by { assert [0, 5, 3, 4, 3][1] + keys[1][1] > 5; }
    assert Fits([0, 5, 3, 4, 3], keys[2]);
    assert !Fits([1, 2, 0, 5, 3], keys[0]) by { assert [1, 2, 0, 5, 3][0] + keys[0][0] > 5; }
    assert Fits([1, 2, 0, 5, 3], keys[1]);
    assert Fits([1, 2, 0, 5, 3], keys[2]);
  }

  /** A lock column with a '.' adds its height to the pattern. */
  lemma LockPatternStep(shape: Shape, w: nat, p: seq<int>, y: int)
    requires LockPattern(shape, w) == Some(p) && LockScan(shape, w, 1) == SpaceAt(y)
    ensures LockPattern(shape, w + 1) == Some(p + [y - 1])
  {
  }

  /** A key column with a '.' adds its height to the pattern. */
  lemma KeyPatternStep(shape: Shape, w: nat, p: seq<int>, y: int)
    requires KeyPattern(shape, w) == Some(p) && KeyScan(shape, w, |shape|) == SpaceAt(y)
    ensures KeyPattern(shape, w + 1) == Some(p + [|shape| - y - 2])
  {
  }

  /** The example lock's heights, appended one by one. */
  lemma LockHeightsAppended()
    ensures [] + [0] == [0] && [0] + [5] == [0, 5] && [0, 5] + [3] == [0, 5, 3]
    ensures [0, 5, 3] + [4] == [0, 5, 3, 4] && [0, 5, 3, 4] + [3] == [0, 5, 3, 4, 3]
  {
  }

  /** The example key's heights, appended one by one. */
  lemma KeyHeightsAppended()
    ensures [] + [5] == [5] && [5] + [0] == [5, 0] && [5, 0] + [2] == [5, 0, 2]
    ensures [5, 0, 2] + [1] == [5, 0, 2, 1] && [5, 0, 2, 1] + [3] == [5, 0, 2, 1, 3]
  {
  }

  /** The first lock of the example. */
  const ExampleLockShape: Shape := ["#####", ".####", ".####", ".####", ".#.#.", ".#...", "....."]

  /** Where the first columns of the example lock first hold a '.'. */
  lemma ExampleLockLeft()
    ensures LockScan(ExampleLockShape, 0, 1) == SpaceAt(1)
    ensures LockScan(ExampleLockShape, 1, 1) == SpaceAt(6)
    ensures LockScan(ExampleLockShape, 2, 1) == SpaceAt(4)
  {
  }

  /** Where the last columns of the example lock first hold a '.'. */
  lemma ExampleLockRight()
    ensures LockScan(ExampleLockShape, 3, 1) == SpaceAt(5)
    ensures LockScan(ExampleLockShape, 4, 1) == SpaceAt(4)
  {
  }

  /** The example lock has heights 0, 5, 3, 4, 3. */
  lemma ExampleLock()
    ensures SchematicOf(ExampleLockShape) == Some(Lock([0, 5, 3, 4, 3]))
  {
    var shape := ExampleLockShape;
    ExampleLockLeft();
    ExampleLockRight();
    LockHeightsAppended();
    LockPatternStep(shape, 0, [], 1);
    LockPatternStep(shape, 1, [0], 6);
    LockPatternStep(shape, 2, [0, 5], 4);
    LockPatternStep(shape, 3, [0, 5, 3], 5);
    LockPatternStep(shape, 4, [0, 5, 3, 4], 4);
    assert IsLockTop(shape[0]);
  }

  /** The first key of the example. */
  const ExampleKeyShape: Shape := [".....", "#....", "#....", "#...#", "#.#.#", "#.###", "#####"]

  /** Where the first columns of the example key last hold a '.'. */
  lemma ExampleKeyLeft()
    ensures KeyScan(ExampleKeyShape, 0, 7) == SpaceAt(0)
    ensures KeyScan(ExampleKeyShape, 1, 7) == SpaceAt(5)
    ensures KeyScan(ExampleKeyShape, 2, 7) == SpaceAt(3)
  {
  }

  /** Where the last columns of the example key last hold a '.'. */
  lemma ExampleKeyRight()
    ensures KeyScan(ExampleKeyShape, 3, 7) == SpaceAt(4)
    ensures KeyScan(ExampleKeyShape, 4, 7) == SpaceAt(2)
  {
  }

  /** The example key has heights 5, 0, 2, 1, 3. */
  lemma ExampleKey()
    ensures SchematicOf(ExampleKeyShape) == Some(Key([5, 0, 2, 1, 3]))
  {
    var shape := ExampleKeyShape;
    assert shape[0][0] == '.';
    ExampleKeyLeft();
    ExampleKeyRight();
    KeyHeightsAppended();
    KeyPatternStep(shape, 0, [], 0);
    KeyPatternStep(shape, 1, [5], 5);
    KeyPatternStep(shape, 2, [5, 0], 3);
    KeyPatternStep(shape, 3, [5, 0, 2], 4);
    KeyPatternStep(shape, 4, [5, 0, 2, 1], 2);
  }
}
