/** Day 11: stones that change on every blink.  Stones are kept in a table from value to a
    stone holding that value and how many stones carry it; `StoneTable` is the table that
    `add_to` and `simulate` update in place, and one blink over a whole table is proved
    equal to the order-independent table `Blinked`. */
module Day11 {
  import opened Common

  /** A stone value and the number of stones that carry it. */
  datatype Stone = Stone(value: int, count: int)

  // ---------------------------------------------------------------------------
  // Digits and splitting

  /** split_value: None for an odd digit count, otherwise the two halves of the digits, by
      Rust's truncating `/` and `%` with 10^(d/2). */
  function SplitDigits(v: int): (r: Option<(int, int)>)
    ensures r.Some? <==> Digits(v) % 2 == 0
  {
    var d := Digits(v);
    if d % 2 == 1 then None
    else
      var half := Pow(10, d / 2);
      PowPositive(10, d / 2);
      Some((TruncDiv(v, half), TruncRem(v, half)))
  }

  /** The halves put back together give the value, and the right half is below 10^(d/2). */
  lemma SplitRecombines(v: int)
    requires SplitDigits(v).Some?
    ensures var (left, right) := SplitDigits(v).value; var half := Pow(10, Digits(v) / 2);
      half > 0 && left * half + right == v && Abs(right) < half
  {
    PowPositive(10, Digits(v) / 2);
  }

  /** split_value's loop: divide by 10 until zero, counting the steps. */
  method SplitValue(value: int) returns (r: Option<(int, int)>)
    ensures r == SplitDigits(value)
  {
    var tmp := value;
    var digits: nat := 0;
    while true
      invariant digits + Digits(tmp) == Digits(value)
      decreases Abs(tmp)
    {
      var before := tmp;
      tmp := TruncDiv(tmp, 10);
      digits := digits + 1;
      if tmp == 0 {
        assert Digits(before) == 1;
        break;
      }
    }
    if digits % 2 == 1 {
      return None;
    }
    var half := Pow(10, digits / 2);
    PowPositive(10, digits / 2);
    return Some((TruncDiv(value, half), TruncRem(value, half)));
  }

  /** The examples: 123 has an odd digit count, 1234 splits into 12 and 34. */
  lemma SplitExamples()
    ensures SplitDigits(123) == None
    ensures SplitDigits(1234) == Some((12, 34))
  {
    assert Digits(1234) == 4 by {
      assert Digits(1) == 1;
    }
    assert Pow(10, 2) == 100;
  }

  // ---------------------------------------------------------------------------
  // One stone's blink

  /** The stones one stone becomes, in the order simulate adds them: 0 becomes 1; an even
      digit count splits into the left and the right half; anything else is multiplied by 2024.
      Every new stone keeps the original count. */
  function Blink(s: Stone): (r: seq<Stone>)
    ensures 1 <= |r| <= 2
    ensures forall i :: 0 <= i < |r| ==> r[i].count == s.count
    ensures |r| == 2 <==> s.value != 0 && Digits(s.value) % 2 == 0
  {
    if s.value == 0 then [Stone(1, s.count)]
    else match SplitDigits(s.value)
      case Some((left, right)) => [Stone(left, s.count), Stone(right, s.count)]
      case None => [Stone(s.value * 2024, s.count)]
  }

  /** How many stones of value `v` one stone's blink produces. */
  function Produced(s: Stone, v: int): int
  {
    var b := Blink(s);
    (if b[0].value == v then s.count else 0) + (if |b| == 2 && b[1].value == v then s.count else 0)
  }

  // ---------------------------------------------------------------------------
  // Tables of stones

  /** Every key holds a stone of that value. */
  predicate WellKeyed(m: map<int, Stone>)
  {
    forall v :: v in m ==> m[v].value == v
  }

  /** No negative counts. */
  predicate NonNegative(m: map<int, Stone>)
  {
    forall v :: v in m ==> m[v].count >= 0
  }

  /** The number of stones of value `v` in a table. */
  function CountIn(m: map<int, Stone>, v: int): int
  {
    if v in m then m[v].count else 0
  }

  /** add_to: add the stone's count to the entry for its value, creating the entry if absent. */
  function Added(m: map<int, Stone>, s: Stone): (r: map<int, Stone>)
    ensures WellKeyed(m) ==> WellKeyed(r)
    ensures r.Keys == m.Keys + {s.value}
    ensures forall v :: CountIn(r, v) == CountIn(m, v) + (if v == s.value then s.count else 0)
  {
    if s.value in m then m[s.value := m[s.value].(count := m[s.value].count + s.count)] else m[s.value := s]
  }

  /** add_to for each stone of `ss` in order. */
  function AddedAll(m: map<int, Stone>, ss: seq<Stone>): (r: map<int, Stone>)
    ensures WellKeyed(m) ==> WellKeyed(r)
    decreases |ss|
  {
    if ss == [] then m else AddedAll(Added(m, ss[0]), ss[1..])
  }

  /** add_to over a blink of one or two stones. */
  lemma AddedAllShort(m: map<int, Stone>, ss: seq<Stone>)
    requires 1 <= |ss| <= 2
    ensures |ss| == 1 ==> AddedAll(m, ss) == Added(m, ss[0])
    ensures |ss| == 2 ==> AddedAll(m, ss) == Added(Added(m, ss[0]), ss[1])
  {
    var m1 := Added(m, ss[0]);
    assert AddedAll(m, ss) == AddedAll(m1, ss[1..]);
    if |ss| == 2 {
      assert AddedAll(m1, ss[1..]) == AddedAll(Added(m1, ss[1]), ss[1..][1..]);
      assert ss[1..][1..] == [];
    }
  }

  /** The sum of `f` over the stones of `m` whose keys are in `keys`. */
  ghost function SumOver(m: map<int, Stone>, keys: set<int>, f: Stone -> int): int
    requires keys <= m.Keys
    decreases keys
  {
    if keys == {} then 0
    else
      NonEmptyHasMember(keys);
      var k :| k in keys;
      f(m[k]) + SumOver(m, keys - {k}, f)
  }

  /** The sum does not depend on which entry is taken first. */
  lemma {:induction false} SumOverRemove(m: map<int, Stone>, keys: set<int>, f: Stone -> int, k: int)
    requires keys <= m.Keys && k in keys
    ensures SumOver(m, keys, f) == f(m[k]) + SumOver(m, keys - {k}, f)
    decreases keys
  {
    var j :| j in keys && SumOver(m, keys, f) == f(m[j]) + SumOver(m, keys - {j}, f);
    if j != k {
      SumOverRemove(m, keys - {j}, f, k);
      SumOverRemove(m, keys - {k}, f, j);
      assert keys - {j} - {k} == keys - {k} - {j};
    }
  }

  /** Two tables whose entries on `keys` give the same terms give the same sum. */
  lemma {:induction false} SumOverAgree(m1: map<int, Stone>, m2: map<int, Stone>, keys: set<int>, f: Stone -> int)
    requires keys <= m1.Keys && keys <= m2.Keys
    requires forall k :: k in keys ==> f(m1[k]) == f(m2[k])
    ensures SumOver(m1, keys, f) == SumOver(m2, keys, f)
    decreases keys
  {
    if keys != {} {
      NonEmptyHasMember(keys);
      var k :| k in keys;
      SumOverRemove(m1, keys, f, k);
      SumOverRemove(m2, keys, f, k);
      SumOverAgree(m1, m2, keys - {k}, f);
    }
  }

  /** A sum of non-negative terms is non-negative. */
  lemma {:induction false} SumOverNonNegative(m: map<int, Stone>, keys: set<int>, f: Stone -> int)
    requires keys <= m.Keys
    requires forall k :: k in keys ==> f(m[k]) >= 0
    ensures SumOver(m, keys, f) >= 0
    decreases keys
  {
    if keys != {} {
      NonEmptyHasMember(keys);
      var k :| k in keys;
      SumOverRemove(m, keys, f, k);
      SumOverNonNegative(m, keys - {k}, f);
    }
  }

  /** The number of stones held under `keys`. */
  ghost function TotalOver(m: map<int, Stone>, keys: set<int>): int
    requires keys <= m.Keys
  {
    SumOver(m, keys, (s: Stone) => s.count)
  }

  /** Stone::count: the number of stones in a table. */
  ghost function Total(m: map<int, Stone>): int
  {
    TotalOver(m, m.Keys)
  }

  /** add_to raises the total by exactly the stone's count. */
  lemma AddedTotal(m: map<int, Stone>, s: Stone)
    ensures Total(Added(m, s)) == Total(m) + s.count
  {
    var r := Added(m, s);
    var count := (s: Stone) => s.count;
    SumOverRemove(r, r.Keys, count, s.value);
    SumOverAgree(r, m, r.Keys - {s.value}, count);
    if s.value in m {
      assert r.Keys == m.Keys;
      SumOverRemove(m, m.Keys, count, s.value);
      assert r[s.value].count == m[s.value].count + s.count;
    } else {
      assert r.Keys - {s.value} == m.Keys;
    }
  }

  /** How many stones of value `v` the blinks of the stones under `keys` produce. */
  ghost function Contribution(m: map<int, Stone>, keys: set<int>, v: int): int
    requires keys <= m.Keys
  {
    SumOver(m, keys, (s: Stone) => Produced(s, v))
  }

  /** How many of the stones under `keys` split, counted with their multiplicity. */
  ghost function SplitsOver(m: map<int, Stone>, keys: set<int>): int
    requires keys <= m.Keys
  {
    SumOver(m, keys, (s: Stone) => if |Blink(s)| == 2 then s.count else 0)
  }

  /** The stones of a table that split in one blink. */
  ghost function Splits(m: map<int, Stone>): int
  {
    SplitsOver(m, m.Keys)
  }

  /** The values the blinks of the stones under `keys` produce. */
  function ProducedValues(m: map<int, Stone>, keys: set<int>): set<int>
  {
    set k, t | k in keys && k in m && t in Blink(m[k]) :: t.value
  }

  /** The values one stone's blink produces. */
  function BlinkValues(s: Stone): set<int>
  {
    set t | t in Blink(s) :: t.value
  }

  /** One blink of a whole table, independent of the order its stones are visited in. */
  ghost function Blinked(m: map<int, Stone>): (r: map<int, Stone>)
    ensures WellKeyed(r)
  {
    map v | v in ProducedValues(m, m.Keys) :: Stone(v, Contribution(m, m.Keys, v))
  }

  /** simulate raises each value's count by what the stone's blink produces of it. */
  lemma SimulateCounts(m: map<int, Stone>, s: Stone)
    ensures forall v :: CountIn(AddedAll(m, Blink(s)), v) == CountIn(m, v) + Produced(s, v)
  {
    AddedAllShort(m, Blink(s));
  }

  /** simulate adds exactly the values of the stone's blink to the table's keys. */
  lemma SimulateKeys(m: map<int, Stone>, s: Stone)
    ensures AddedAll(m, Blink(s)).Keys == m.Keys + BlinkValues(s)
  {
    AddedAllShort(m, Blink(s));
  }

  /** simulate raises the total by the stone's count, twice over when it splits. */
  lemma SimulateTotal(m: map<int, Stone>, s: Stone)
    ensures Total(AddedAll(m, Blink(s))) == Total(m) + s.count + (if |Blink(s)| == 2 then s.count else 0)
  {
    var b := Blink(s);
    AddedAllShort(m, b);
    AddedTotal(m, b[0]);
    if |b| == 2 {
      AddedTotal(Added(m, b[0]), b[1]);
    }
  }

  /** Taking one more key adds the values of its stone's blink. */
  lemma ProducedValuesAdd(m: map<int, Stone>, done: set<int>, k: int)
    requires k in m
    ensures ProducedValues(m, done + {k}) == ProducedValues(m, done) + BlinkValues(m[k])
  {
    var done' := done + {k};
    forall v | v in ProducedValues(m, done')
      ensures v in ProducedValues(m, done) + BlinkValues(m[k])
    {
      var j, t :| j in done' && j in m && t in Blink(m[j]) && t.value == v;
      if j != k {
        assert v in ProducedValues(m, done);
      }
    }
    forall v | v in BlinkValues(m[k])
      ensures v in ProducedValues(m, done')
    {
      var t :| t in Blink(m[k]) && t.value == v;
    }
  }

  /** Simulating one more stone of `m` keeps the table's keys the values produced so far. */
  lemma BlinkStepKeys(m: map<int, Stone>, done: set<int>, k: int, before: map<int, Stone>)
    requires k in m
    requires before.Keys == ProducedValues(m, done)
    ensures AddedAll(before, Blink(m[k])).Keys == ProducedValues(m, done + {k})
  {
    SimulateKeys(before, m[k]);
    ProducedValuesAdd(m, done, k);
  }

  /** Simulating one more stone of `m` keeps every count the contribution so far. */
  lemma BlinkStepCounts(m: map<int, Stone>, done: set<int>, k: int, before: map<int, Stone>)
    requires done <= m.Keys && k in m && k !in done
    requires forall v :: CountIn(before, v) == Contribution(m, done, v)
    ensures forall v :: CountIn(AddedAll(before, Blink(m[k])), v) == Contribution(m, done + {k}, v)
  {
    var done' := done + {k};
    assert done' - {k} == done;
    SimulateCounts(before, m[k]);
    forall v
      ensures CountIn(AddedAll(before, Blink(m[k])), v) == Contribution(m, done', v)
    {
      SumOverRemove(m, done', (s: Stone) => Produced(s, v), k);
    }
  }

  /** Simulating one more stone of `m` keeps the total the stones so far plus their splits. */
  lemma BlinkStepTotal(m: map<int, Stone>, done: set<int>, k: int, before: map<int, Stone>)
    requires done <= m.Keys && k in m && k !in done
    requires Total(before) == TotalOver(m, done) + SplitsOver(m, done)
    ensures Total(AddedAll(before, Blink(m[k]))) == TotalOver(m, done + {k}) + SplitsOver(m, done + {k})
  {
    var done' := done + {k};
    assert done' - {k} == done;
    SimulateTotal(before, m[k]);
    SumOverRemove(m, done', (s: Stone) => s.count, k);
    SumOverRemove(m, done', (s: Stone) => if |Blink(s)| == 2 then s.count else 0, k);
  }

  // ---------------------------------------------------------------------------
  // The table that add_to and simulate update in place

  class StoneTable {
    var stones: map<int, Stone>

    constructor ()
      ensures stones == map[]
    {
      stones := map[];
    }

    /** Stone::add_to. */
    method AddTo(s: Stone)
      modifies this
      ensures stones == Added(old(stones), s)
    {
      if s.value in stones {
        stones := stones[s.value := stones[s.value].(count := stones[s.value].count + s.count)];
      } else {
        stones := stones[s.value := s];
      }
    }

    /** Stone::simulate: add the stones one stone becomes. */
    method Simulate(s: Stone)
      modifies this
      ensures stones == AddedAll(old(stones), Blink(s))
    {
      AddedAllShort(stones, Blink(s));
      if s.value == 0 {
        AddTo(Stone(1, s.count));
      } else {
        var half := SplitValue(s.value);
        if half.Some? {
          AddTo(Stone(half.value.0, s.count));
          AddTo(Stone(half.value.1, s.count));
        } else {
          AddTo(Stone(s.value * 2024, s.count));
        }
      }
    }
  }

  /** A well-keyed table with the produced values as keys and the contributions as counts is
      the blinked table. */
  lemma BlinkedFrom(m: map<int, Stone>, t: map<int, Stone>)
    requires WellKeyed(t)
    requires t.Keys == ProducedValues(m, m.Keys)
    requires forall v :: CountIn(t, v) == Contribution(m, m.Keys, v)
    ensures t == Blinked(m)
  {
    forall v | v in t
      ensures t[v] == Blinked(m)[v]
    {
      assert CountIn(t, v) == Contribution(m, m.Keys, v);
    }
  }

  /** Taking `k` out of the keys still to visit adds it to the keys visited. */
  lemma DoneStep(all: set<int>, todo: set<int>, k: int)
    requires k in todo && todo <= all
    ensures all - (todo - {k}) == (all - todo) + {k}
  {
  }

  /** One blink in main: simulate every stone of `m` into a fresh table.  The result is
      `Blinked(m)` whatever the visiting order, and it holds exactly `Splits(m)` more stones. */
  method BlinkAll(m: map<int, Stone>) returns (solved: map<int, Stone>)
    ensures solved == Blinked(m)
    ensures Total(solved) == Total(m) + Splits(m)
  {
    var table := new StoneTable();
    var todo := m.Keys;
    assert m.Keys - todo == {};
    while todo != {}
      invariant todo <= m.Keys
      invariant table.stones.Keys == ProducedValues(m, m.Keys - todo)
      invariant forall v :: CountIn(table.stones, v) == Contribution(m, m.Keys - todo, v)
      invariant Total(table.stones) == TotalOver(m, m.Keys - todo) + SplitsOver(m, m.Keys - todo)
      invariant WellKeyed(table.stones)
      decreases |todo|
    {
      NonEmptyHasMember(todo);
      var k :| k in todo;
      ghost var before := table.stones;
      table.Simulate(m[k]);
      BlinkStepKeys(m, m.Keys - todo, k, before);
      BlinkStepCounts(m, m.Keys - todo, k, before);
      BlinkStepTotal(m, m.Keys - todo, k, before);
      DoneStep(m.Keys, todo, k);
      todo := todo - {k};
    }
    assert m.Keys - todo == m.Keys;
    solved := table.stones;
    BlinkedFrom(m, solved);
  }

  /** With no negative count, no stone is lost in a blink: together with BlinkAll's total,
      the table after a blink holds at least as many stones as before. */
  lemma BlinkNeverShrinks(m: map<int, Stone>)
    requires NonNegative(m)
    ensures Splits(m) >= 0
  {
    SumOverNonNegative(m, m.Keys, (s: Stone) => if |Blink(s)| == 2 then s.count else 0);
  }

  /** Stone::count's loop: add up the counts, visiting the entries in any order. */
  method Count(m: map<int, Stone>) returns (ret: int)
    ensures ret == Total(m)
  {
    ret := 0;
    var todo := m.Keys;
    assert m.Keys - todo == {};
    while todo != {}
      invariant todo <= m.Keys
      invariant ret == TotalOver(m, m.Keys - todo)
      decreases |todo|
    {
      NonEmptyHasMember(todo);
      var k :| k in todo;
      var done' := m.Keys - (todo - {k});
      assert done' - {k} == m.Keys - todo;
      SumOverRemove(m, done', (s: Stone) => s.count, k);
      ret := ret + m[k].count;
      todo := todo - {k};
    }
    assert m.Keys - todo == m.Keys;
  }


  // ---------------------------------------------------------------------------
  // Parsing and main

  /** The pieces of a space-separated line that parse as `i64`; the others are skipped. */
  function Numbers(parts: seq<string>): (r: seq<int>)
    ensures |r| <= |parts|
  {
    if parts == [] then []
    else
      var rest := Numbers(parts[1..]);
      match ParseIn(parts[0], I64Min, I64Max)
      case Some(n) => [n] + rest
      case None => rest
  }

  /** One stone of count 1 per number. */
  function Ones(nums: seq<int>): (r: seq<Stone>)
    ensures |r| == |nums|
    ensures forall i :: 0 <= i < |nums| ==> r[i] == Stone(nums[i], 1)
  {
    if nums == [] then [] else [Stone(nums[0], 1)] + Ones(nums[1..])
  }

  /** Adding count-1 stones makes each value's count its number of occurrences. */
  lemma {:induction false} OnesCount(m: map<int, Stone>, nums: seq<int>, v: int)
    ensures CountIn(AddedAll(m, Ones(nums)), v) == CountIn(m, v) + multiset(nums)[v]
    decreases |nums|
  {
    if nums != [] {
      assert Ones(nums)[1..] == Ones(nums[1..]);
      OnesCount(Added(m, Stone(nums[0], 1)), nums[1..], v);
      assert nums == [nums[0]] + nums[1..];
    }
  }

  /** Stone::parse: every number that parses becomes a stone of count 1, duplicates merged. */
  method Parse(s: string) returns (table: StoneTable)
    ensures fresh(table)
    ensures table.stones == AddedAll(map[], Ones(Numbers(Split(s, ' '))))
  {
    var nums := Numbers(Split(s, ' '));
    table := new StoneTable();
    for i := 0 to |nums|
      invariant AddedAll(table.stones, Ones(nums[i..])) == AddedAll(map[], Ones(nums))
    {
      assert Ones(nums[i..])[1..] == Ones(nums[i + 1..]);
      table.AddTo(Stone(nums[i], 1));
    }
  }

  /** A parsed table counts each value as often as it occurs among the numbers. */
  lemma ParsedCounts(s: string, v: int)
    ensures var m := AddedAll(map[], Ones(Numbers(Split(s, ' '))));
      WellKeyed(m) && CountIn(m, v) == multiset(Numbers(Split(s, ' ')))[v]
  {
    OnesCount(map[], Numbers(Split(s, ' ')), v);
  }

  /** The parse example once "125 17" is split into the numbers 125 and 17: one stone of
      each value, each of count 1. */
  lemma ParseExample()
    ensures AddedAll(map[], Ones([125, 17])) == map[125 := Stone(125, 1), 17 := Stone(17, 1)]
  {
    assert Ones([125, 17]) == [Stone(125, 1), Stone(17, 1)];
    AddedAllShort(map[], [Stone(125, 1), Stone(17, 1)]);
  }

  /** The first blink of the simulate example: 125 becomes 253000 and 17 splits into 1 and 7. */
  lemma BlinkExample()
    ensures Blink(Stone(125, 1)) == [Stone(253000, 1)]
    ensures Blink(Stone(17, 1)) == [Stone(1, 1), Stone(7, 1)]
  {
    assert Digits(125) == 3 by {
      assert Digits(1) == 1;
    }
    assert Digits(17) == 2 by {
      assert Digits(1) == 1;
    }
    assert Pow(10, 1) == 10;
  }

  /** The second blink of the simulate example: "253000 1 7" becomes "253 0 2024 14168". */
  lemma SecondBlinkExample()
    ensures Blink(Stone(253000, 1)) == [Stone(253, 1), Stone(0, 1)]
    ensures Blink(Stone(1, 1)) == [Stone(2024, 1)]
    ensures Blink(Stone(7, 1)) == [Stone(14168, 1)]
  {
    assert Digits(253000) == 6 by {
      assert Digits(2) == 1;
    }
    assert Digits(1) == 1;
    assert Digits(7) == 1;
    assert Pow(10, 3) == 1000;
  }

  /** `n` blinks of a table. */
  ghost function Iterate(m: map<int, Stone>, n: nat): (r: map<int, Stone>)
    ensures n > 0 ==> WellKeyed(r)
  {
    if n == 0 then m else Blinked(Iterate(m, n - 1))
  }

  /** main: 25 blinks for part one, 50 more for part two, counting the stones each time. */
  method Solve(input: string) returns (part1: int, part2: int)
    ensures var m := AddedAll(map[], Ones(Numbers(Split(input, ' '))));
      part1 == Total(Iterate(m, 25)) && part2 == Total(Iterate(m, 75))
  {
    var table := Parse(input);
    var stones := table.stones;
    ghost var start := stones;
    for i := 0 to 25
      invariant stones == Iterate(start, i) && WellKeyed(stones)
    {
      stones := BlinkAll(stones);
    }
    part1 := Count(stones);
    for i := 25 to 75
      invariant stones == Iterate(start, i) && WellKeyed(stones)
    {
      stones := BlinkAll(stones);
    }
    part2 := Count(stones);
  }
}
