/** Day 19: counting the ways to lay out a design from towels.  A decomposition of a design is
    a non-empty sequence of towel indices whose towels, placed end to end, spell the design;
    towels are told apart by position, so a towel listed twice is two towels.  `Count` is the
    number `rec` computes without its memo, `Decomps` lists the decompositions, and the two are
    proved to agree. */
module Day19 {
  import opened Common

  // ---------------------------------------------------------------------------
  // Decompositions

  /** No towel is empty: otherwise rec calls itself on the same design for ever. */
  predicate NoEmptyTowel(towels: seq<string>)
  {
    forall j :: 0 <= j < |towels| ==> |towels[j]| > 0
  }

  /** `towel` is a prefix of `design` (`starts_with`). */
  predicate StartsWith(design: string, towel: string)
  {
    |towel| <= |design| && design[..|towel|] == towel
  }

  /** rec without the memo: over the first `n` towels, a towel spelling the whole design counts
      one, a towel spelling a proper prefix counts the ways to lay out the rest. */
  function CountUpTo(towels: seq<string>, design: string, n: nat): (r: int)
    requires NoEmptyTowel(towels) && n <= |towels|
    ensures r >= 0
    decreases |design|, n
  {
    if n == 0 then 0
    else
      var t := towels[n - 1];
      CountUpTo(towels, design, n - 1) +
        (if !StartsWith(design, t) then 0
         else if |t| == |design| then 1
         else CountUpTo(towels, design[|t|..], |towels|))
  }

  /** The number rec returns for `design`. */
  function Count(towels: seq<string>, design: string): int
    requires NoEmptyTowel(towels)
  {
    CountUpTo(towels, design, |towels|)
  }

  /** The towels of a sequence of indices, end to end. */
  function Spell(towels: seq<string>, d: seq<nat>): string
    requires forall i :: 0 <= i < |d| ==> d[i] < |towels|
  {
    if d == [] then [] else towels[d[0]] + Spell(towels, d[1..])
  }

  /** `d` is a decomposition of `design`. */
  predicate IsDecomp(towels: seq<string>, design: string, d: seq<nat>)
  {
    |d| >= 1 && (forall i :: 0 <= i < |d| ==> d[i] < |towels|) && Spell(towels, d) == design
  }

  /** Each of `ds` with `j` put in front. */
  function Prefixed(j: nat, ds: seq<seq<nat>>): (r: seq<seq<nat>>)
    ensures |r| == |ds|
    ensures forall k :: 0 <= k < |ds| ==> r[k] == [j] + ds[k]
  {
    seq(|ds|, k requires 0 <= k < |ds| => [j] + ds[k])
  }

  /** The decompositions of `design` whose first towel is among the first `n`, grouped by first
      towel in towel order. */
  function DecompsUpTo(towels: seq<string>, design: string, n: nat): seq<seq<nat>>
    requires NoEmptyTowel(towels) && n <= |towels|
    decreases |design|, n
  {
    if n == 0 then []
    else
      var t := towels[n - 1];
      DecompsUpTo(towels, design, n - 1) +
        (if !StartsWith(design, t) then []
         else if |t| == |design| then [[n - 1]]
         else Prefixed(n - 1, DecompsUpTo(towels, design[|t|..], |towels|)))
  }

  /** Every decomposition of `design`. */
  function Decomps(towels: seq<string>, design: string): seq<seq<nat>>
    requires NoEmptyTowel(towels)
  {
    DecompsUpTo(towels, design, |towels|)
  }

  /** rec counts exactly as many ways as there are listed decompositions. */
  lemma {:induction false} DecompsCount(towels: seq<string>, design: string, n: nat)
    requires NoEmptyTowel(towels) && n <= |towels|
    ensures |DecompsUpTo(towels, design, n)| == CountUpTo(towels, design, n)
    decreases |design|, n
  {
    if n > 0 {
      DecompsCount(towels, design, n - 1);
      var t := towels[n - 1];
      if StartsWith(design, t) && |t| < |design| {
        DecompsCount(towels, design[|t|..], |towels|);
      }
    }
  }

  /** Every listed entry is a decomposition whose first towel is among the first `n`. */
  lemma {:induction false} DecompsSound(towels: seq<string>, design: string, n: nat, k: nat)
    requires NoEmptyTowel(towels) && n <= |towels|
    requires k < |DecompsUpTo(towels, design, n)|
    ensures IsDecomp(towels, design, DecompsUpTo(towels, design, n)[k])
    ensures DecompsUpTo(towels, design, n)[k][0] < n
    decreases |design|, n
  {
    var before := DecompsUpTo(towels, design, n - 1);
    var t := towels[n - 1];
    if k < |before| {
      DecompsSound(towels, design, n - 1, k);
    } else if |t| == |design| {
      assert design[..|t|] == design;
    } else {
      var rest := design[|t|..];
      var inner := DecompsUpTo(towels, rest, |towels|);
      DecompsSound(towels, rest, |towels|, k - |before|);
      var d := [n - 1] + inner[k - |before|];
      assert d[1..] == inner[k - |before|];
      assert design == t + rest;
    }
  }

  /** Every decomposition whose first towel is among the first `n` is listed. */
  lemma {:induction false} DecompsComplete(towels: seq<string>, design: string, n: nat, d: seq<nat>)
    requires NoEmptyTowel(towels) && n <= |towels|
    requires IsDecomp(towels, design, d) && d[0] < n
    ensures d in DecompsUpTo(towels, design, n)
    decreases |design|, n
  {
    var t := towels[n - 1];
    if d[0] < n - 1 {
      DecompsComplete(towels, design, n - 1, d);
    } else {
      var tail := d[1..];
      assert design == t + Spell(towels, tail);
      assert StartsWith(design, t);
      if tail == [] {
        assert d == [n - 1];
      } else {
        SpellNonEmpty(towels, tail);
        var rest := design[|t|..];
        assert Spell(towels, tail) == rest;
        DecompsComplete(towels, rest, |towels|, tail);
        var inner := DecompsUpTo(towels, rest, |towels|);
        var k :| 0 <= k < |inner| && inner[k] == tail;
        assert Prefixed(n - 1, inner)[k] == d;
      }
    }
  }

  /** Towels end to end spell at least as much as the first one. */
  lemma SpellNonEmpty(towels: seq<string>, d: seq<nat>)
    requires NoEmptyTowel(towels) && |d| >= 1
    requires forall i :: 0 <= i < |d| ==> d[i] < |towels|
    ensures |Spell(towels, d)| >= 1
  {
  }

  /** No entry is listed twice. */
  predicate Distinct(xs: seq<seq<nat>>)
  {
    forall a, b :: 0 <= a < b < |xs| ==> xs[a] != xs[b]
  }

  /** Every listed entry starts with one of the first `n` towels. */
  lemma {:induction false} DecompsFirst(towels: seq<string>, design: string, n: nat)
    requires NoEmptyTowel(towels) && n <= |towels|
    ensures forall k :: 0 <= k < |DecompsUpTo(towels, design, n)| ==>
      |DecompsUpTo(towels, design, n)[k]| >= 1 && DecompsUpTo(towels, design, n)[k][0] < n
    decreases n
  {
    if n > 0 {
      DecompsFirst(towels, design, n - 1);
    }
  }

  /** Putting the same index in front keeps entries apart. */
  lemma PrefixedDistinct(j: nat, ds: seq<seq<nat>>)
    requires Distinct(ds)
    ensures Distinct(Prefixed(j, ds))
  {
    var r := Prefixed(j, ds);
    forall a, b | 0 <= a < b < |r|
      ensures r[a] != r[b]
    {
      assert r[a][1..] == ds[a] && r[b][1..] == ds[b];
    }
  }

  /** No decomposition is listed twice. */
  lemma {:induction false} DecompsDistinct(towels: seq<string>, design: string, n: nat)
    requires NoEmptyTowel(towels) && n <= |towels|
    ensures Distinct(DecompsUpTo(towels, design, n))
    decreases |design|, n, 1
  {
    if n > 0 {
      var before := DecompsUpTo(towels, design, n - 1);
      var t := towels[n - 1];
      DecompsDistinct(towels, design, n - 1);
      DecompsFirst(towels, design, n - 1);
      var group := if !StartsWith(design, t) then []
        else if |t| == |design| then [[n - 1]]
        else Prefixed(n - 1, DecompsUpTo(towels, design[|t|..], |towels|));
      GroupDistinct(towels, design, n);
      DistinctAppend(before, group);
      assert DecompsUpTo(towels, design, n) == before + group;
    }
  }

  /** The entries that start with towel n - 1 are distinct and start with n - 1. */
  lemma {:induction false} GroupDistinct(towels: seq<string>, design: string, n: nat)
    requires NoEmptyTowel(towels) && 0 < n <= |towels|
    ensures var t := towels[n - 1];
            var group := if !StartsWith(design, t) then []
              else if |t| == |design| then [[n - 1]]
              else Prefixed(n - 1, DecompsUpTo(towels, design[|t|..], |towels|));
            Distinct(group) && forall b :: 0 <= b < |group| ==> |group[b]| >= 1 && group[b][0] == n - 1
    decreases |design|, n, 0
  {
    var t := towels[n - 1];
    if StartsWith(design, t) && |t| < |design| {
      DecompsDistinct(towels, design[|t|..], |towels|);
      PrefixedDistinct(n - 1, DecompsUpTo(towels, design[|t|..], |towels|));
    }
  }

  /** Two lists without repeats and without a common entry concatenate without repeats. */
  lemma DistinctAppend(xs: seq<seq<nat>>, ys: seq<seq<nat>>)
    requires Distinct(xs) && Distinct(ys)
    requires forall a, b :: 0 <= a < |xs| && 0 <= b < |ys| ==> xs[a] != ys[b]
    ensures Distinct(xs + ys)
  {
  }

  /** rec counts the decompositions: `Decomps` lists each decomposition exactly once, lists
      nothing else, and has `Count` entries. */
  lemma CountIsDecompositions(towels: seq<string>, design: string)
    requires NoEmptyTowel(towels)
    ensures |Decomps(towels, design)| == Count(towels, design)
    ensures forall d :: d in Decomps(towels, design) <==> IsDecomp(towels, design, d)
    ensures Distinct(Decomps(towels, design))
  {
    DecompsCount(towels, design, |towels|);
    DecompsDistinct(towels, design, |towels|);
    forall d | d in Decomps(towels, design)
      ensures IsDecomp(towels, design, d)
    {
      var k :| 0 <= k < |Decomps(towels, design)| && Decomps(towels, design)[k] == d;
      DecompsSound(towels, design, |towels|, k);
    }
    forall d | IsDecomp(towels, design, d)
      ensures d in Decomps(towels, design)
    {
      DecompsComplete(towels, design, |towels|, d);
    }
  }

  // ---------------------------------------------------------------------------
  // Parsing

  /** The index of the first empty line, or the number of lines when there is none. */
  function FirstEmpty(lines: seq<string>): (e: nat)
    ensures e <= |lines|
    ensures forall k :: 0 <= k < e ==> lines[k] != []
    ensures e < |lines| ==> lines[e] == []
  {
    if lines == [] then 0
    else if lines[0] == [] then 0
    else 1 + FirstEmpty(lines[1..])
  }

  /** Every piece trimmed. */
  function TrimAll(parts: seq<string>): (r: seq<string>)
    ensures |r| == |parts|
    ensures forall i :: 0 <= i < |parts| ==> r[i] == Trim(parts[i])
  {
    seq(|parts|, i requires 0 <= i < |parts| => Trim(parts[i]))
  }

  /** The towels of the first `n` lines: each line split at ',' and every piece trimmed. */
  function TowelsUpTo(lines: seq<string>, n: nat): seq<string>
    requires n <= |lines|
  {
    if n == 0 then [] else TowelsUpTo(lines, n - 1) + TrimAll(Split(lines[n - 1], ','))
  }

  /** The non-empty lines from index `lo` up to `n`, in order. */
  function DesignsBetween(lines: seq<string>, lo: nat, n: nat): (r: seq<string>)
    requires lo <= n <= |lines|
    ensures forall k :: 0 <= k < |r| ==> r[k] != []
    decreases n
  {
    if n == lo then []
    else DesignsBetween(lines, lo, n - 1) + (if lines[n - 1] == [] then [] else [lines[n - 1]])
  }

  /** Day19::parse's towels: the lines before the first empty line. */
  function ParsedTowels(lines: seq<string>): seq<string>
  {
    TowelsUpTo(lines, FirstEmpty(lines))
  }

  /** Day19::parse's designs: the non-empty lines after the first empty line. */
  function ParsedDesigns(lines: seq<string>): seq<string>
  {
    if FirstEmpty(lines) == |lines| then [] else DesignsBetween(lines, FirstEmpty(lines) + 1, |lines|)
  }

  /** Parsed towels hold no ',' and no surrounding space; parsed designs are never empty. */
  lemma {:induction false} ParsedShape(lines: seq<string>)
    ensures forall j :: 0 <= j < |ParsedTowels(lines)| ==> ',' !in ParsedTowels(lines)[j]
    ensures forall j :: 0 <= j < |ParsedTowels(lines)| ==> ParsedTowels(lines)[j] == Trim(ParsedTowels(lines)[j])
    ensures forall k :: 0 <= k < |ParsedDesigns(lines)| ==> ParsedDesigns(lines)[k] != []
  {
    TowelsShape(lines, FirstEmpty(lines));
  }

  lemma {:induction false} TowelsShape(lines: seq<string>, n: nat)
    requires n <= |lines|
    ensures forall j :: 0 <= j < |TowelsUpTo(lines, n)| ==> ',' !in TowelsUpTo(lines, n)[j]
    ensures forall j :: 0 <= j < |TowelsUpTo(lines, n)| ==> TowelsUpTo(lines, n)[j] == Trim(TowelsUpTo(lines, n)[j])
    decreases n
  {
    if n > 0 {
      TowelsShape(lines, n - 1);
      var parts := Split(lines[n - 1], ',');
      forall j | 0 <= j < |parts|
        ensures ',' !in Trim(parts[j]) && Trim(Trim(parts[j])) == Trim(parts[j])
      {
        TrimFacts(parts[j]);
      }
    }
  }

  /** Trimming keeps a middle part of the string and is idempotent. */
  lemma TrimFacts(s: string)
    ensures forall c :: c in Trim(s) ==> c in s
    ensures Trim(Trim(s)) == Trim(s)
  {
    var a := TrimStart(s);
    assert forall c :: c in a ==> c in s;
    var b := TrimEnd(a);
    assert forall c :: c in b ==> c in a;
    if b != [] {
      assert !IsSpace(b[|b| - 1]);
      assert b[0] == a[0];
    }
  }

  // ---------------------------------------------------------------------------
  // The solver

  /** The counts of every design, in order. */
  function Counts(towels: seq<string>, designs: seq<string>): (r: seq<int>)
    requires NoEmptyTowel(towels)
    ensures |r| == |designs|
    ensures forall k :: 0 <= k < |designs| ==> r[k] == Count(towels, designs[k])
  {
    seq(|designs|, k requires 0 <= k < |designs| => Count(towels, designs[k]))
  }

  /** How many counts are positive (part1's fold). */
  function Positives(s: seq<int>): (r: int)
    ensures 0 <= r <= |s|
  {
    if s == [] then 0 else Positives(s[..|s| - 1]) + (if s[|s| - 1] > 0 then 1 else 0)
  }

  /** The sum of the counts (part2's fold). */
  function Total(s: seq<int>): int
  {
    if s == [] then 0 else Total(s[..|s| - 1]) + s[|s| - 1]
  }

  /** Counts are never negative, so there are never more possible designs than ways. */
  lemma {:induction false} PositivesAtMostTotal(s: seq<int>)
    requires forall k :: 0 <= k < |s| ==> s[k] >= 0
    ensures Positives(s) <= Total(s)
    decreases |s|
  {
    if s != [] {
      PositivesAtMostTotal(s[..|s| - 1]);
    }
  }

  /** Day19::parse's loop over the lines: while reading towels, an empty line switches to
      designs and any other line adds its towels; afterwards every non-empty line is a design. */
  method ReadLines(lines: seq<string>) returns (ts: seq<string>, ds: seq<string>)
    ensures ts == ParsedTowels(lines)
    ensures ds == ParsedDesigns(lines)
  {
    var e := FirstEmpty(lines);
    ts, ds := [], [];
    var readingTowels := true;
    for i := 0 to |lines|
      invariant readingTowels <==> i <= e
      invariant readingTowels ==> ts == TowelsUpTo(lines, i) && ds == []
      invariant !readingTowels ==> ts == TowelsUpTo(lines, e) && ds == DesignsBetween(lines, e + 1, i)
    {
      var line := lines[i];
      if readingTowels {
        if line == [] {
          readingTowels := false;
          continue;
        }
        ts := ts + TrimAll(Split(line, ','));
      } else if line != [] {
        ds := ds + [line];
      }
    }
  }

  class Solver {
    var towels: seq<string>
    var designs: seq<string>
    var solutions: seq<int>

    /** Every memo entry holds the count of its key. */
    predicate MemoOk(memo: map<string, int>)
      reads this
      requires NoEmptyTowel(towels)
    {
      forall k :: k in memo ==> memo[k] == Count(towels, k)
    }

    /** Day19::parse: towels from the lines before the first empty line, designs from the
        non-empty lines after it, no solutions yet. */
    constructor Parse(input: string)
      ensures towels == ParsedTowels(Lines(input))
      ensures designs == ParsedDesigns(Lines(input))
      ensures solutions == []
    {
      var ts, ds := ReadLines(Lines(input));
      towels, designs, solutions := ts, ds, [];
    }

    /** rec: add up, towel by towel, one for a towel spelling the whole design and the ways for
        the rest after a towel spelling a prefix, taken from the memo when it is there; then
        store the result under the design.  The memo only ever holds true counts. */
    method Rec(memo: map<string, int>, design: string) returns (ret: int, memo': map<string, int>)
      requires NoEmptyTowel(towels) && MemoOk(memo)
      ensures ret == Count(towels, design)
      ensures MemoOk(memo') && memo.Keys <= memo'.Keys
      ensures design in memo' && memo'[design] == ret
      decreases |design|
    {
      ret := 0;
      memo' := memo;
      for j := 0 to |towels|
        invariant MemoOk(memo') && memo.Keys <= memo'.Keys
        invariant ret == CountUpTo(towels, design, j)
      {
        var towel := towels[j];
        if StartsWith(design, towel) {
          if |design| == |towel| {
            ret := ret + 1;
            continue;
          }
          var slice := design[|towel|..];
          if slice in memo' {
            ret := ret + memo'[slice];
          } else {
            var sub;
            sub, memo' := Rec(memo', slice);
            ret := ret + sub;
          }
        }
      }
      memo' := memo'[design := ret];
    }

    /** solve: nothing when there are solutions already; otherwise one count per design, in
        order, each with a fresh memo. */
    method Solve()
      requires NoEmptyTowel(towels)
      modifies this
      ensures towels == old(towels) && designs == old(designs)
      ensures old(solutions) != [] ==> solutions == old(solutions)
      ensures old(solutions) == [] ==> solutions == Counts(towels, designs)
    {
      if solutions != [] {
        return;
      }
      for k := 0 to |designs|
        invariant towels == old(towels) && designs == old(designs)
        invariant solutions == Counts(towels, designs[..k])
      {
        var count, _ := Rec(map[], designs[k]);
        solutions := solutions + [count];
      }
      assert designs[..|designs|] == designs;
    }

    /** part1: the number of designs that can be made; before solve (or with no design at all)
        part1 panics, which is None here. */
    function Part1(): (r: Option<int>)
      reads this
      ensures r.Some? <==> solutions != []
      ensures r.Some? ==> 0 <= r.value <= |solutions|
    {
      if solutions == [] then None else Some(Positives(solutions))
    }

    /** part2: the total number of ways; None where part2 panics. */
    function Part2(): (r: Option<int>)
      reads this
      ensures r.Some? <==> solutions != []
      ensures r.Some? && (forall k :: 0 <= k < |solutions| ==> solutions[k] >= 0) ==> Part1().value <= r.value
    {
      if solutions == [] then None
      else
        assert (forall k :: 0 <= k < |solutions| ==> solutions[k] >= 0) ==> Positives(solutions) <= Total(solutions) by {
          if forall k :: 0 <= k < |solutions| ==> solutions[k] >= 0 {
            PositivesAtMostTotal(solutions);
          }
        }
        Some(Total(solutions))
    }
  }

  /** After solve, part1 is at most part2. */
  lemma Part1AtMostPart2(towels: seq<string>, designs: seq<string>)
    requires NoEmptyTowel(towels)
    ensures Positives(Counts(towels, designs)) <= Total(Counts(towels, designs))
  {
    PositivesAtMostTotal(Counts(towels, designs));
  }

  /** main: parse, solve, then part1 and part2. */
  method Answers(input: string) returns (part1: Option<int>, part2: Option<int>)
    requires NoEmptyTowel(ParsedTowels(Lines(input)))
    ensures var towels := ParsedTowels(Lines(input)); var designs := ParsedDesigns(Lines(input));
      var sols := Counts(towels, designs);
      part1 == (if sols == [] then None else Some(Positives(sols))) &&
      part2 == (if sols == [] then None else Some(Total(sols)))
  {
    var solver := new Solver.Parse(input);
    solver.Solve();
    part1 := solver.Part1();
    part2 := solver.Part2();
  }
}
