/** Day 2: reports of levels.  A report is safe when every step between neighbours is between
    1 and 3 and all steps go the same way; an unsafe report is fixable when dropping one level
    makes it safe. */
module Day02 {
  import opened Common

  /** The step into level `i`: the previous level minus this one. */
  function Diff(s: seq<int>, i: nat): int
    requires 1 <= i < |s|
  {
    s[i - 1] - s[i]
  }

  /** Safe: every step has size 1 to 3, and the levels all decrease or all increase. */
  predicate Safe(s: seq<int>)
  {
    (forall i :: 1 <= i < |s| ==> 1 <= Abs(Diff(s, i)) <= 3) &&
    ((forall i :: 1 <= i < |s| ==> Diff(s, i) > 0) || (forall i :: 1 <= i < |s| ==> Diff(s, i) < 0))
  }

  /** Reports of zero or one level are safe. */
  lemma ShortSafe(s: seq<int>)
    requires |s| <= 1
    ensures Safe(s)
  {
  }

  /** A prefix of a safe report that also holds level `i` is safe when the step into `i` has size
      1 to 3 and goes the same way as the step before it. */
  lemma SafeExtend(s: seq<int>, i: nat)
    requires 1 <= i < |s| && Safe(s[..i])
    requires 1 <= Abs(Diff(s, i)) <= 3
    requires i >= 2 ==> !((Diff(s, i - 1) > 0 && Diff(s, i) < 0) || (Diff(s, i - 1) < 0 && Diff(s, i) > 0))
    ensures Safe(s[..i + 1])
  {
    var t := s[..i + 1];
    assert forall k :: 1 <= k < i ==> Diff(t, k) == Diff(s[..i], k);
    if i >= 2 {
      assert Diff(s[..i], i - 1) == Diff(s, i - 1);
      if Diff(s, i) > 0 {
        assert forall k :: 1 <= k < i ==> Diff(s[..i], k) > 0;
      } else {
        assert forall k :: 1 <= k < i ==> Diff(s[..i], k) < 0;
      }
    }
  }

  /** A report with an unsafe prefix is unsafe. */
  lemma UnsafePrefix(s: seq<int>, n: nat)
    requires n <= |s| && !Safe(s[..n])
    ensures !Safe(s)
  {
    if Safe(s) {
      assert forall k :: 1 <= k < n ==> Diff(s[..n], k) == Diff(s, k);
      assert false;
    }
  }

  /** check: walks the levels remembering the previous level and step, and returns the index
      where the first violation shows, or None for a safe report. */
  method Check(numbers: seq<int>) returns (r: Option<nat>)
    ensures r.None? <==> Safe(numbers)
    ensures r.Some? ==> 1 <= r.value < |numbers| && Safe(numbers[..r.value]) && !Safe(numbers[..r.value + 1])
  {
    var prevNum: Option<int> := None;
    var prevDiff: Option<int> := None;
    for i := 0 to |numbers|
      invariant Safe(numbers[..i])
      invariant prevNum == if i == 0 then None else Some(numbers[i - 1])
      invariant prevDiff == if i < 2 then None else Some(Diff(numbers, i - 1))
    {
      var num := numbers[i];
      if prevNum.Some? {
        var diff := prevNum.value - num;
        assert diff == Diff(numbers, i);
        if diff == 0 || Abs(diff) > 3 {
          assert Diff(numbers[..i + 1], i) == diff;
          return Some(i);
        }
        if prevDiff.Some? {
          if (prevDiff.value > 0 && diff < 0) || (prevDiff.value < 0 && diff > 0) {
            assert Diff(numbers[..i + 1], i) == diff;
            assert Diff(numbers[..i + 1], i - 1) == prevDiff.value;
            return Some(i);
          }
        }
        SafeExtend(numbers, i);
        prevDiff := Some(diff);
      } else {
        ShortSafe(numbers[..1]);
      }
      prevNum := Some(num);
    }
    assert numbers[..|numbers|] == numbers;
    r := None;
  }

  /** The report without level `i` (`Vec::remove`). */
  function Removed(s: seq<int>, i: nat): (r: seq<int>)
    requires i < |s|
    ensures |r| == |s| - 1
    ensures forall k :: 0 <= k < i ==> r[k] == s[k]
    ensures forall k :: i <= k < |r| ==> r[k] == s[k + 1]
  {
    s[..i] + s[i + 1..]
  }

  /** Fixable: unsafe, but safe once some one level is dropped. */
  ghost predicate Fixable(s: seq<int>)
  {
    !Safe(s) && exists i :: 0 <= i < |s| && Safe(Removed(s, i))
  }

  /** The fix loop of main for one unsafe report: the first level whose removal makes the report
      safe, or None. */
  method FirstFix(numbers: seq<int>) returns (r: Option<nat>)
    ensures r.Some? ==> r.value < |numbers| && Safe(Removed(numbers, r.value))
    ensures r.Some? ==> forall k :: 0 <= k < r.value ==> !Safe(Removed(numbers, k))
    ensures r.None? <==> forall k :: 0 <= k < |numbers| ==> !Safe(Removed(numbers, k))
  {
    for i := 0 to |numbers|
      invariant forall k :: 0 <= k < i ==> !Safe(Removed(numbers, k))
    {
      var cpy := Removed(numbers, i);
      var res := Check(cpy);
      if res.None? {
        return Some(i);
      }
    }
    r := None;
  }

  /** The number of safe reports. */
  function SafeCount(reports: seq<seq<int>>): nat
  {
    if reports == [] then 0
    else SafeCount(reports[..|reports| - 1]) + (if Safe(reports[|reports| - 1]) then 1 else 0)
  }

  /** The number of fixable reports. */
  ghost function FixableCount(reports: seq<seq<int>>): nat
  {
    if reports == [] then 0
    else FixableCount(reports[..|reports| - 1]) + (if Fixable(reports[|reports| - 1]) then 1 else 0)
  }

  /** A report is counted at most once: the safe and the fixable reports together are no more
      than all reports. */
  lemma {:induction false} CountsBounded(reports: seq<seq<int>>)
    ensures SafeCount(reports) + FixableCount(reports) <= |reports|
  {
    if reports != [] {
      CountsBounded(reports[..|reports| - 1]);
    }
  }

  /** The counting loop of main: the safe reports, and the unsafe ones some removal fixes. */
  method Tally(reports: seq<seq<int>>) returns (safe: nat, fixable: nat)
    ensures safe == SafeCount(reports)
    ensures fixable == FixableCount(reports)
    ensures safe + fixable <= |reports|
  {
    safe, fixable := 0, 0;
    for n := 0 to |reports|
      invariant safe == SafeCount(reports[..n])
      invariant fixable == FixableCount(reports[..n])
    {
      var numbers := reports[n];
      assert reports[..n + 1][..n] == reports[..n];
      var result := Check(numbers);
      if result.None? {
        safe := safe + 1;
      } else {
        var fix := FirstFix(numbers);
        if fix.Some? {
          fixable := fixable + 1;
        }
      }
    }
    assert reports[..|reports|] == reports;
    CountsBounded(reports);
  }

  /** The reports of the input: one per line of space-separated i64 levels; None where a
      `parse().unwrap()` panics. */
  function ParseReports(lines: seq<string>): (r: Option<seq<seq<int>>>)
    ensures r.Some? ==> |r.value| == |lines| &&
                        forall k :: 0 <= k < |lines| ==> ParseI64s(Split(lines[k], ' ')) == Some(r.value[k])
  {
    if lines == [] then Some([])
    else match (ParseReports(lines[..|lines| - 1]), ParseI64s(Split(lines[|lines| - 1], ' ')))
      case (Some(front), Some(v)) => Some(front + [v])
      case _ => None
  }

  /** The two answers for the lines of the input. */
  method AnswersOf(lines: seq<string>) returns (r: Option<(nat, nat)>)
    ensures r.Some? <==> ParseReports(lines).Some?
    ensures r.Some? ==> var reports := ParseReports(lines).value;
                        r.value.0 == SafeCount(reports) &&
                        r.value.1 == SafeCount(reports) + FixableCount(reports) <= |reports|
  {
    var parsed := ParseReports(lines);
    if parsed.None? {
      return None;
    }
    var safe, fixable := Tally(parsed.value);
    var part2 := safe + fixable;
    r := Some((safe, part2));
  }

  /** The two answers: the safe reports, and the safe reports plus the fixable ones; None where
      parsing panics. */
  method Answers(input: string) returns (r: Option<(nat, nat)>)
    ensures r.Some? <==> ParseReports(Lines(input)).Some?
    ensures r.Some? ==> var reports := ParseReports(Lines(input)).value;
                        r.value.0 == SafeCount(reports) &&
                        r.value.1 == SafeCount(reports) + FixableCount(reports)
  {
    r := AnswersOf(Lines(input));
  }

  /** The puzzle's sample reports. */
  lemma Examples()
    ensures Safe([7, 6, 4, 2, 1])
    ensures !Safe([1, 2, 7, 8, 9])
    ensures !Safe([1, 3, 2, 4, 5]) && Safe(Removed([1, 3, 2, 4, 5], 1))
  {
    assert Diff([1, 2, 7, 8, 9], 2) == -5;
    assert Diff([1, 3, 2, 4, 5], 1) == -2 && Diff([1, 3, 2, 4, 5], 2) == 1;
    assert Removed([1, 3, 2, 4, 5], 1) == [1, 2, 4, 5];
  }
}
