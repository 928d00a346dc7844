/** Day 7: equations whose operators are missing.  A line "target: n1 n2 ..." is solvable when
    some choice of operators, applied strictly left to right, turns the numbers into the target.
    The search `Rec` prunes any partial value above the target; it is proved equal to the plain
    existence of an operator assignment whenever every number is at least 1. */
module Day07 {
  import opened Common

  /** The binary operators: `mult`, `add` and `concat`. */
  datatype Op = Mult | Add | Concat

  /** Solver: the target value and the numbers to combine. */
  datatype Solver = Solver(solution: int, numbers: seq<int>)

  /** The operators of part one and of part two, in main's order. */
  const Part1Ops: seq<Op> := [Mult, Add]
  const Part2Ops: seq<Op> := [Mult, Add, Concat]

  // ---------------------------------------------------------------------------
  // The operators

  /** concat: the digits of `a` followed by those of `b`, where `b` has the number of digits
      concat's divide-by-ten loop counts (0 has one). */
  function ConcatValue(a: int, b: int): int
  {
    PowPositive(10, Digits(b));
    a * Pow(10, Digits(b)) + b
  }

  /** For non-negative operands, concat is undone by dividing by 10 to the digit count of `b`:
      the quotient is `a` and the remainder `b`. */
  lemma ConcatSplits(a: int, b: int)
    requires a >= 0 && b >= 0
    ensures Pow(10, Digits(b)) > 0
    ensures ConcatValue(a, b) / Pow(10, Digits(b)) == a
    ensures ConcatValue(a, b) % Pow(10, Digits(b)) == b
  {
    DigitsBounds(b);
    PowPositive(10, Digits(b));
    DivMulAdd(a, Pow(10, Digits(b)), b);
  }

  /** The test values of concat. */
  lemma ConcatExamples()
    ensures ConcatValue(1, 2) == 12
    ensures ConcatValue(1, 0) == 10
    ensures ConcatValue(0, 1) == 1
    ensures ConcatValue(10, 10) == 1010
    ensures ConcatValue(1234, 1234) == 12341234
  {
    assert Digits(1) == 1 && Digits(10) == 2 && Digits(123) == 3 && Digits(1234) == 4;
    assert Pow(10, 2) == 100;
    assert Pow(10, 4) == 10000;
  }

  /** concat's loop: divide a copy of `b` by 10 and multiply a copy of `a` by 10 until the
      copy of `b` reaches zero, then add `b`. */
  method ConcatNumbers(a: int, b: int) returns (r: int)
    ensures r == ConcatValue(a, b)
  {
    var tmp := b;
    var tmp2 := a;
    ghost var steps: nat := 0;
    while true
      invariant steps + Digits(tmp) == Digits(b)
      invariant tmp2 == a * Pow(10, steps)
      decreases Abs(tmp)
    {
      var before := tmp;
      tmp := TruncDiv(tmp, 10);
      tmp2 := tmp2 * 10;
      steps := steps + 1;
      assert a * Pow(10, steps) == a * Pow(10, steps - 1) * 10;
      if tmp == 0 {
        assert Digits(before) == 1;
        break;
      }
    }
    r := tmp2 + b;
  }

  /** The operation an operator names. */
  function Apply(op: Op, a: int, b: int): int
  {
    match op
    case Mult => a * b
    case Add => a + b
    case Concat => ConcatValue(a, b)
  }

  /** No operator lowers a non-negative running value when the next number is at least 1. */
  lemma ApplyGrows(op: Op, a: int, b: int)
    requires a >= 0 && b >= 1
    ensures Apply(op, a, b) >= a
  {
    match op
    case Mult =>
      MulNonNegative(b - 1, a);
      assert (b - 1) * a == a * b - a;
    case Add =>
    case Concat =>
      PowPositive(10, Digits(b));
      MulNonNegative(Pow(10, Digits(b)) - 1, a);
      assert (Pow(10, Digits(b)) - 1) * a == a * Pow(10, Digits(b)) - a;
  }

  // ---------------------------------------------------------------------------
  // The search and what it decides

  /** rec: with the value `sum` of numbers[..i+1], give up once the value is above the target;
      at the last number compare with the target; otherwise try every operator on the next
      number. */
  function Rec(s: Solver, ops: seq<Op>, i: nat, sum: int): (r: bool)
    requires i < |s.numbers|
    ensures r ==> sum <= s.solution
    ensures i == |s.numbers| - 1 ==> (r <==> sum == s.solution)
    ensures ops == [] && i < |s.numbers| - 1 ==> !r
    decreases |s.numbers| - i
  {
    if sum > s.solution then false
    else if i == |s.numbers| - 1 then sum == s.solution
    else exists op :: op in ops && Rec(s, ops, i + 1, Apply(op, sum, s.numbers[i + 1]))
  }

  /** solve: start the search from the first number; no numbers is never solvable. */
  function Solve(s: Solver, ops: seq<Op>): (r: bool)
    ensures r ==> |s.numbers| > 0 && s.numbers[0] <= s.solution
    ensures |s.numbers| == 1 ==> (r <==> s.numbers[0] == s.solution)
    ensures ops == [] && |s.numbers| > 1 ==> !r
  {
    if |s.numbers| == 0 then false else Rec(s, ops, 0, s.numbers[0])
  }

  /** The same search without the pruning. */
  ghost predicate Reach(s: Solver, ops: seq<Op>, i: nat, sum: int)
    requires i < |s.numbers|
    decreases |s.numbers| - i
  {
    if i == |s.numbers| - 1 then sum == s.solution
    else exists op :: op in ops && Reach(s, ops, i + 1, Apply(op, sum, s.numbers[i + 1]))
  }

  /** The value of numbers[i+1..] combined onto `sum` left to right with the operators `choice`. */
  function EvalFrom(nums: seq<int>, i: nat, sum: int, choice: seq<Op>): int
    requires i < |nums| && |choice| == |nums| - 1 - i
    decreases |choice|
  {
    if choice == [] then sum else EvalFrom(nums, i + 1, Apply(choice[0], sum, nums[i + 1]), choice[1..])
  }

  /** Every operator of the assignment is one of `ops`. */
  predicate Uses(choice: seq<Op>, ops: seq<Op>)
  {
    forall k :: 0 <= k < |choice| ==> choice[k] in ops
  }

  /** The puzzle's meaning: some left-to-right assignment of operators from `ops` turns the
      numbers into the target. */
  ghost predicate Solvable(s: Solver, ops: seq<Op>)
  {
    |s.numbers| > 0 &&
    exists choice: seq<Op> :: |choice| == |s.numbers| - 1 && Uses(choice, ops) &&
      EvalFrom(s.numbers, 0, s.numbers[0], choice) == s.solution
  }

  /** The unpruned search finds exactly the assignments that hit the target. */
  lemma {:induction false} ReachIffChoice(s: Solver, ops: seq<Op>, i: nat, sum: int)
    requires i < |s.numbers|
    ensures Reach(s, ops, i, sum) <==>
      exists choice: seq<Op> :: |choice| == |s.numbers| - 1 - i && Uses(choice, ops) &&
        EvalFrom(s.numbers, i, sum, choice) == s.solution
    decreases |s.numbers| - i
  {
    var nums := s.numbers;
    if i == |nums| - 1 {
      assert EvalFrom(nums, i, sum, []) == sum;
    } else {
      if Reach(s, ops, i, sum) {
        var op :| op in ops && Reach(s, ops, i + 1, Apply(op, sum, nums[i + 1]));
        ReachIffChoice(s, ops, i + 1, Apply(op, sum, nums[i + 1]));
        var rest: seq<Op> :| |rest| == |nums| - 1 - (i + 1) && Uses(rest, ops) &&
          EvalFrom(nums, i + 1, Apply(op, sum, nums[i + 1]), rest) == s.solution;
        var choice := [op] + rest;
        assert choice[1..] == rest;
        assert Uses(choice, ops);
        assert EvalFrom(nums, i, sum, choice) == s.solution;
      }
      if exists choice: seq<Op> :: |choice| == |nums| - 1 - i && Uses(choice, ops) &&
          EvalFrom(nums, i, sum, choice) == s.solution {
        var choice: seq<Op> :| |choice| == |nums| - 1 - i && Uses(choice, ops) &&
          EvalFrom(nums, i, sum, choice) == s.solution;
        var next := Apply(choice[0], sum, nums[i + 1]);
        assert Uses(choice[1..], ops) by {
          forall k | 0 <= k < |choice[1..]|
            ensures choice[1..][k] in ops
          {
            assert choice[1..][k] == choice[k + 1];
          }
        }
        ReachIffChoice(s, ops, i + 1, next);
        assert choice[0] in ops;
      }
    }
  }

  /** Without pruning, a value above the target stays above it when every remaining number is
      at least 1, so nothing is reached from it. */
  lemma {:induction false} ReachAbove(s: Solver, ops: seq<Op>, i: nat, sum: int)
    requires i < |s.numbers| && sum > s.solution && sum >= 0
    requires forall j :: i < j < |s.numbers| ==> s.numbers[j] >= 1
    ensures !Reach(s, ops, i, sum)
    decreases |s.numbers| - i
  {
    if i < |s.numbers| - 1 {
      forall op | op in ops
        ensures !Reach(s, ops, i + 1, Apply(op, sum, s.numbers[i + 1]))
      {
        ApplyGrows(op, sum, s.numbers[i + 1]);
        ReachAbove(s, ops, i + 1, Apply(op, sum, s.numbers[i + 1]));
      }
    }
  }

  /** The pruned search never accepts more than the unpruned one. */
  lemma {:induction false} RecReach(s: Solver, ops: seq<Op>, i: nat, sum: int)
    requires i < |s.numbers|
    ensures Rec(s, ops, i, sum) ==> Reach(s, ops, i, sum)
    decreases |s.numbers| - i
  {
    if Rec(s, ops, i, sum) && i < |s.numbers| - 1 {
      var op :| op in ops && Rec(s, ops, i + 1, Apply(op, sum, s.numbers[i + 1]));
      RecReach(s, ops, i + 1, Apply(op, sum, s.numbers[i + 1]));
    }
  }

  /** The pruning loses nothing when the running value and every remaining number are
      non-negative and at least 1 respectively. */
  lemma {:induction false} PruningSound(s: Solver, ops: seq<Op>, i: nat, sum: int)
    requires i < |s.numbers| && sum >= 0
    requires forall j :: i < j < |s.numbers| ==> s.numbers[j] >= 1
    ensures Rec(s, ops, i, sum) == Reach(s, ops, i, sum)
    decreases |s.numbers| - i
  {
    RecReach(s, ops, i, sum);
    if sum > s.solution {
      ReachAbove(s, ops, i, sum);
    } else if i < |s.numbers| - 1 && Reach(s, ops, i, sum) {
      var op :| op in ops && Reach(s, ops, i + 1, Apply(op, sum, s.numbers[i + 1]));
      ApplyGrows(op, sum, s.numbers[i + 1]);
      PruningSound(s, ops, i + 1, Apply(op, sum, s.numbers[i + 1]));
    }
  }

  /** solve accepts only lines that some operator assignment solves. */
  lemma SolveSound(s: Solver, ops: seq<Op>)
    ensures Solve(s, ops) ==> Solvable(s, ops)
  {
    if |s.numbers| > 0 {
      RecReach(s, ops, 0, s.numbers[0]);
      ReachIffChoice(s, ops, 0, s.numbers[0]);
    }
  }

  /** When every number is at least 1, solve decides exactly whether some operator assignment
      solves the line. */
  lemma SolveCorrect(s: Solver, ops: seq<Op>)
    requires forall j :: 0 <= j < |s.numbers| ==> s.numbers[j] >= 1
    ensures Solve(s, ops) <==> Solvable(s, ops)
  {
    if |s.numbers| > 0 {
      PruningSound(s, ops, 0, s.numbers[0]);
      ReachIffChoice(s, ops, 0, s.numbers[0]);
    }
  }

  /** More operators never make a line unsolvable. */
  lemma {:induction false} RecMoreOps(s: Solver, ops: seq<Op>, more: seq<Op>, i: nat, sum: int)
    requires i < |s.numbers|
    requires forall op :: op in ops ==> op in more
    ensures Rec(s, ops, i, sum) ==> Rec(s, more, i, sum)
    decreases |s.numbers| - i
  {
    if Rec(s, ops, i, sum) && i < |s.numbers| - 1 {
      var op :| op in ops && Rec(s, ops, i + 1, Apply(op, sum, s.numbers[i + 1]));
      RecMoreOps(s, ops, more, i + 1, Apply(op, sum, s.numbers[i + 1]));
    }
  }

  /** Every line part one solves, part two solves too. */
  lemma Part1InPart2(s: Solver)
    ensures Solve(s, Part1Ops) ==> Solve(s, Part2Ops)
  {
    if |s.numbers| > 0 {
      RecMoreOps(s, Part1Ops, Part2Ops, 0, s.numbers[0]);
    }
  }

  // ---------------------------------------------------------------------------
  // Parsing

  /** Every piece parses as an `i64`, or None. */
  function ParseNumbers(parts: seq<string>): (r: Option<seq<int>>)
    ensures r.Some? ==> |r.value| == |parts|
    ensures r.Some? ==> forall i :: 0 <= i < |parts| ==> ParseIn(parts[i], I64Min, I64Max) == Some(r.value[i])
  {
    if parts == [] then Some([])
    else match (ParseIn(parts[0], I64Min, I64Max), ParseNumbers(parts[1..]))
      case (Some(n), Some(rest)) => Some([n] + rest)
      case _ => None
  }

  /** Solver::new: the target before ": ", then at least two space-separated numbers, every one
      of them parsing; anything else is None. */
  function ParseSolver(line: string): (r: Option<Solver>)
    ensures r.Some? ==> |r.value.numbers| >= 2
  {
    var parts := SplitOn(line, ": ");
    match ParseIn(parts[0], I64Min, I64Max)
    case None => None
    case Some(solution) =>
      if |parts| < 2 then None
      else match ParseNumbers(Split(parts[1], ' '))
        case None => None
        case Some(numbers) => if |numbers| < 2 then None else Some(Solver(solution, numbers))
  }

  /** Each number written in decimal. */
  function Written(nums: seq<int>): (r: seq<string>)
    ensures |r| == |nums|
    ensures forall i :: 0 <= i < |nums| ==> r[i] == IntToString(nums[i])
  {
    seq(|nums|, i requires 0 <= i < |nums| => IntToString(nums[i]))
  }

  /** A line written the way the puzzle input writes it. */
  function Format(s: Solver): string
  {
    IntToString(s.solution) + ": " + Join(Written(s.numbers), ' ')
  }

  /** Numbers written out parse back. */
  lemma {:induction false} ParseNumbersWritten(nums: seq<int>)
    requires forall i :: 0 <= i < |nums| ==> I64Min <= nums[i] <= I64Max
    ensures ParseNumbers(Written(nums)) == Some(nums)
    decreases |nums|
  {
    var parts := Written(nums);
    if nums != [] {
      ParseIntToString(nums[0]);
      ParseNumbersWritten(nums[1..]);
      assert parts[1..] == Written(nums[1..]);
      assert [nums[0]] + nums[1..] == nums;
    }
  }

  /** Solver::new reads back every well-formed line: a target and at least two numbers, all in
      the `i64` range. */
  lemma ParseFormat(s: Solver)
    requires |s.numbers| >= 2 && I64Min <= s.solution <= I64Max
    requires forall i :: 0 <= i < |s.numbers| ==> I64Min <= s.numbers[i] <= I64Max
    ensures ParseSolver(Format(s)) == Some(s)
  {
    var written := Written(s.numbers);
    var rest := Join(written, ' ');
    var target := IntToString(s.solution);
    WrittenFree(s.solution, ':');
    forall i | 0 <= i < |written|
      ensures ' ' !in written[i] && ':' !in written[i]
    {
      WrittenFree(s.numbers[i], ' ');
      WrittenFree(s.numbers[i], ':');
    }
    JoinSplitFree(written, ' ', ':');
    SplitOnPrefix(target, rest, ": ");
    SplitOnNone(rest, ": ");
    assert Format(s) == target + ": " + rest;
    JoinSplit(written, ' ');
    ParseNumbersWritten(s.numbers);
    ParseIntToString(s.solution);
    ParseSolverOf(Format(s), target, rest, s);
  }

  /** Solver::new on a line that splits into a parsing target and parsing numbers. */
  lemma ParseSolverOf(line: string, target: string, rest: string, s: Solver)
    requires SplitOn(line, ": ") == [target, rest]
    requires ParseIn(target, I64Min, I64Max) == Some(s.solution)
    requires ParseNumbers(Split(rest, ' ')) == Some(s.numbers) && |s.numbers| >= 2
    ensures ParseSolver(line) == Some(s)
  {
  }

  /** A written integer holds no character other than digits and '-'. */
  lemma WrittenFree(n: int, c: char)
    requires !IsDigit(c) && c != '-'
    ensures c !in IntToString(n)
  {
  }

  /** A character in no part and unequal to the separator is not in the joined string. */
  lemma {:induction false} JoinSplitFree(parts: seq<string>, sep: char, c: char)
    requires c != sep
    requires forall i :: 0 <= i < |parts| ==> c !in parts[i]
    ensures c !in Join(parts, sep)
    decreases |parts|
  {
    if |parts| > 1 {
      JoinSplitFree(parts[1..], sep, c);
    }
  }

  // ---------------------------------------------------------------------------
  // main

  /** Part one's total: the targets of the lines solvable with mult and add. */
  function Part1Total(eqs: seq<Solver>): int
  {
    if eqs == [] then 0
    else Part1Total(eqs[..|eqs| - 1]) + (if Solve(eqs[|eqs| - 1], Part1Ops) then eqs[|eqs| - 1].solution else 0)
  }

  /** Part two's total: the targets of the lines solvable with mult, add and concat. */
  function Part2Total(eqs: seq<Solver>): int
  {
    if eqs == [] then 0
    else Part2Total(eqs[..|eqs| - 1]) + (if Solve(eqs[|eqs| - 1], Part2Ops) then eqs[|eqs| - 1].solution else 0)
  }

  /** The lines of the input that Solver::new accepts, in order. */
  function Equations(lines: seq<string>): (r: seq<Solver>)
    ensures |r| <= |lines|
    ensures forall k :: 0 <= k < |r| ==> |r[k].numbers| >= 2
  {
    if lines == [] then []
    else
      var rest := Equations(lines[..|lines| - 1]);
      match ParseSolver(lines[|lines| - 1])
      case Some(s) => rest + [s]
      case None => rest
  }

  /** main: a line solvable with part one's operators counts for both parts, any other line
      solvable with part two's operators for part two only. */
  method Totals(eqs: seq<Solver>) returns (part1: int, part2: int)
    ensures part1 == Part1Total(eqs)
    ensures part2 == Part2Total(eqs)
  {
    part1, part2 := 0, 0;
    for i := 0 to |eqs|
      invariant part1 == Part1Total(eqs[..i])
      invariant part2 == Part2Total(eqs[..i])
    {
      assert eqs[..i + 1][..i] == eqs[..i];
      var s := eqs[i];
      if Solve(s, Part1Ops) {
        Part1InPart2(s);
        part1 := part1 + s.solution;
        part2 := part2 + s.solution;
      } else if Solve(s, Part2Ops) {
        part2 := part2 + s.solution;
      }
    }
    assert eqs[..|eqs|] == eqs;
  }

  /** With non-negative targets part two's total is at least part one's. */
  lemma {:induction false} Part1AtMostPart2(eqs: seq<Solver>)
    requires forall k :: 0 <= k < |eqs| ==> eqs[k].solution >= 0
    ensures Part1Total(eqs) <= Part2Total(eqs)
    decreases |eqs|
  {
    if eqs != [] {
      Part1AtMostPart2(eqs[..|eqs| - 1]);
      Part1InPart2(eqs[|eqs| - 1]);
    }
  }

  /** main on the whole input. */
  method Answers(input: string) returns (part1: int, part2: int)
    ensures part1 == Part1Total(Equations(Lines(input)))
    ensures part2 == Part2Total(Equations(Lines(input)))
  {
    part1, part2 := Totals(Equations(Lines(input)));
  }
}
