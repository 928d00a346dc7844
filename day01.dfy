/** Day 1: two columns of location ids.  Part 1 pairs the columns smallest with smallest and
    adds up the distances; part 2 weighs each left id by how often it occurs on the right. */
module Day01 {
  import opened Common

  // ---------------------------------------------------------------------------------------
  // Reading a line

  /** `find(' ')` from index `i` on: the first space. */
  function FindSpace(s: string, i: nat): (r: Option<nat>)
    requires i <= |s|
    ensures r.Some? ==> i <= r.value < |s| && s[r.value] == ' '
    ensures r.Some? ==> forall k :: i <= k < r.value ==> s[k] != ' '
    ensures r.None? ==> forall k :: i <= k < |s| ==> s[k] != ' '
    decreases |s| - i
  {
    if i == |s| then None else if s[i] == ' ' then Some(i) else FindSpace(s, i + 1)
  }

  /** `rfind(' ')` among the first `n` characters: the last space. */
  function RFindSpace(s: string, n: nat): (r: Option<nat>)
    requires n <= |s|
    ensures r.Some? ==> r.value < n && s[r.value] == ' '
    ensures r.Some? ==> forall k :: r.value < k < n ==> s[k] != ' '
    ensures r.None? ==> forall k :: 0 <= k < n ==> s[k] != ' '
  {
    if n == 0 then None else if s[n - 1] == ' ' then Some(n - 1) else RFindSpace(s, n - 1)
  }

  /** One line: the i64 before the first space and the i64 after the last space; None where an
      `unwrap` panics (no space, or a part that does not parse). */
  function ParseLine(line: string): (r: Option<(int, int)>)
    ensures r.Some? ==> exists k :: 0 <= k < |line| && line[k] == ' '
  {
    match (FindSpace(line, 0), RFindSpace(line, |line|))
    case (Some(idx), Some(last)) =>
      (match (ParseIn(line[..idx], I64Min, I64Max), ParseIn(line[last + 1..], I64Min, I64Max))
       case (Some(a), Some(b)) => Some((a, b))
       case _ => None)
    case _ => None
  }

  /** A written pair, numbers separated by `gap` spaces. */
  function PairText(a: int, b: int, gap: nat): string
  {
    IntToString(a) + Repeat(' ', gap) + IntToString(b)
  }

  /** Reading a line undoes writing it, whatever the number of spaces between the numbers. */
  lemma ParsePairText(a: int, b: int, gap: nat)
    requires gap >= 1
    requires I64Min <= a <= I64Max && I64Min <= b <= I64Max
    ensures ParseLine(PairText(a, b, gap)) == Some((a, b))
  {
    var sa, sb := IntToString(a), IntToString(b);
    var line := PairText(a, b, gap);
    assert line[|sa|] == ' ';
    assert forall k :: 0 <= k < |sa| ==> line[k] == sa[k];
    assert FindSpace(line, 0) == Some(|sa|);
    var last := |sa| + gap - 1;
    assert line[last] == ' ';
    assert forall k :: last < k < |line| ==> line[k] == sb[k - last - 1];
    assert RFindSpace(line, |line|) == Some(last);
    assert line[..|sa|] == sa && line[last + 1..] == sb;
    ParseIntToString(a);
    ParseIntToString(b);
  }

  /** The two columns of the first `n` lines; None once a line panics. */
  function Columns(lines: seq<string>, n: nat): (r: Option<(seq<int>, seq<int>)>)
    requires n <= |lines|
    ensures r.Some? ==> |r.value.0| == n && |r.value.1| == n
  {
    if n == 0 then Some(([], []))
    else match (Columns(lines, n - 1), ParseLine(lines[n - 1]))
      case (Some((f, s)), Some((a, b))) => Some((f + [a], s + [b]))
      case _ => None
  }

  /** Each line gives one entry of each column, in order. */
  lemma {:induction false} ColumnsMeaning(lines: seq<string>, n: nat, k: nat)
    requires k < n <= |lines| && Columns(lines, n).Some?
    ensures ParseLine(lines[k]) == Some((Columns(lines, n).value.0[k], Columns(lines, n).value.1[k]))
  {
    if k < n - 1 {
      ColumnsMeaning(lines, n - 1, k);
    }
  }

  /** Once a line panics, reading panics. */
  lemma {:induction false} ColumnsNone(lines: seq<string>, a: nat, b: nat)
    requires a <= b <= |lines| && Columns(lines, a).None?
    ensures Columns(lines, b).None?
    decreases b - a
  {
    if a < b {
      ColumnsNone(lines, a + 1, b);
    }
  }

  /** The reading loop of main: push the two numbers of each line. */
  method ReadColumns(lines: seq<string>) returns (r: Option<(seq<int>, seq<int>)>)
    ensures r == Columns(lines, |lines|)
  {
    var first, second := [], [];
    for n := 0 to |lines|
      invariant Columns(lines, n) == Some((first, second))
    {
      var pair := ParseLine(lines[n]);
      if pair.None? {
        ColumnsNone(lines, n + 1, |lines|);
        return None;
      }
      first := first + [pair.value.0];
      second := second + [pair.value.1];
    }
    return Some((first, second));
  }

  // ---------------------------------------------------------------------------------------
  // Sorting (`Vec::sort`)

  predicate Sorted(s: seq<int>)
  {
    forall i, j :: 0 <= i < j < |s| ==> s[i] <= s[j]
  }

  /** `x` put before the first larger-or-equal element of `t`. */
  function Insert(x: int, t: seq<int>): seq<int>
  {
    if t == [] || x <= t[0] then [x] + t else [t[0]] + Insert(x, t[1..])
  }

  /** The elements in ascending order (insertion into the sorted rest). */
  function Sort(s: seq<int>): seq<int>
  {
    if s == [] then [] else Insert(s[0], Sort(s[1..]))
  }

  /** Insertion adds exactly the one element. */
  lemma {:induction false} InsertPermutes(x: int, t: seq<int>)
    ensures multiset(Insert(x, t)) == multiset(t) + multiset{x}
  {
    if t != [] && x > t[0] {
      InsertPermutes(x, t[1..]);
      assert t == [t[0]] + t[1..];
    }
  }

  /** Sorting keeps the elements. */
  lemma {:induction false} SortPermutes(s: seq<int>)
    ensures multiset(Sort(s)) == multiset(s)
  {
    if s != [] {
      SortPermutes(s[1..]);
      InsertPermutes(s[0], Sort(s[1..]));
      assert s == [s[0]] + s[1..];
    }
  }

  lemma {:induction false} InsertSorted(x: int, t: seq<int>)
    requires Sorted(t)
    ensures Sorted(Insert(x, t))
  {
    if t != [] && x > t[0] {
      InsertSorted(x, t[1..]);
      InsertPermutes(x, t[1..]);
      var r := Insert(x, t);
      var tail := Insert(x, t[1..]);
      assert r == [t[0]] + tail;
      forall k | 0 <= k < |tail|
        ensures t[0] <= tail[k]
      {
        assert tail[k] in multiset(tail);
        assert tail[k] == x || tail[k] in multiset(t[1..]);
        if tail[k] != x {
          var j :| 0 <= j < |t[1..]| && t[1..][j] == tail[k];
          assert t[j + 1] == tail[k];
        }
      }
    }
  }

  /** Sort orders its input. */
  lemma {:induction false} SortSorted(s: seq<int>)
    ensures Sorted(Sort(s)) && |Sort(s)| == |s|
  {
    SortPermutes(s);
    assert |multiset(Sort(s))| == |multiset(s)|;
    if s != [] {
      SortSorted(s[1..]);
      InsertSorted(s[0], Sort(s[1..]));
    }
  }

  /** The head of a sorted list is its least element. */
  lemma SortedHead(s: seq<int>, x: int)
    requires Sorted(s) && x in s
    ensures s[0] <= x
  {
  }

  /** Dropping equal heads from lists with the same elements leaves the same elements. */
  lemma MultisetTail(a: seq<int>, b: seq<int>)
    requires a != [] && b != [] && a[0] == b[0] && multiset(a) == multiset(b)
    ensures multiset(a[1..]) == multiset(b[1..])
  {
    assert a == [a[0]] + a[1..] && b == [b[0]] + b[1..];
    calc {
      multiset(a[1..]);
      multiset(a) - multiset{a[0]};
      multiset(b) - multiset{b[0]};
      multiset(b[1..]);
    }
  }

  /** Two sorted lists with the same elements are equal: the sorted order is unique. */
  lemma {:induction false} SortedUnique(a: seq<int>, b: seq<int>)
    requires Sorted(a) && Sorted(b) && multiset(a) == multiset(b)
    ensures a == b
  {
    assert |a| == |multiset(a)| == |multiset(b)| == |b|;
    if a != [] {
      assert a[0] in multiset(b) && b[0] in multiset(a);
      SortedHead(b, a[0]);
      SortedHead(a, b[0]);
      MultisetTail(a, b);
      SortedUnique(a[1..], b[1..]);
      assert a == [a[0]] + a[1..] && b == [b[0]] + b[1..];
    }
  }

  /** Sorting sees only the elements, not their order. */
  lemma SortOrderFree(a: seq<int>, b: seq<int>)
    requires multiset(a) == multiset(b)
    ensures Sort(a) == Sort(b)
  {
    SortSorted(a);
    SortSorted(b);
    SortPermutes(a);
    SortPermutes(b);
    SortedUnique(Sort(a), Sort(b));
  }

  // ---------------------------------------------------------------------------------------
  // Part 1: distance

  /** The distances of the first `n` zipped pairs. */
  function ZipDistance(a: seq<int>, b: seq<int>, n: nat): nat
    requires n <= |a| && n <= |b|
  {
    if n == 0 then 0 else ZipDistance(a, b, n - 1) + Abs(a[n - 1] - b[n - 1])
  }

  /** Part 1: the columns sorted and zipped; pairs past the shorter column are dropped. */
  function TotalDistance(first: seq<int>, second: seq<int>): nat
  {
    SortSorted(first);
    SortSorted(second);
    ZipDistance(Sort(first), Sort(second), Min(|first|, |second|))
  }

  /** The distance loop over the zipped sorted columns. */
  method Distance(first: seq<int>, second: seq<int>) returns (d: int)
    requires Sorted(first) && Sorted(second)
    ensures d == ZipDistance(first, second, Min(|first|, |second|))
  {
    d := 0;
    var n := if |first| <= |second| then |first| else |second|;
    for i := 0 to n
      invariant d == ZipDistance(first, second, i)
    {
      d := d + Abs(first[i] - second[i]);
    }
  }

  /** Pairing is symmetric: swapping the columns gives the same distance. */
  lemma {:induction false} ZipDistanceSymmetric(a: seq<int>, b: seq<int>, n: nat)
    requires n <= |a| && n <= |b|
    ensures ZipDistance(a, b, n) == ZipDistance(b, a, n)
  {
    if n > 0 {
      ZipDistanceSymmetric(a, b, n - 1);
    }
  }

  /** Each sorted list paired with itself is at distance 0. */
  lemma {:induction false} ZipDistanceSelf(a: seq<int>, n: nat)
    requires n <= |a|
    ensures ZipDistance(a, a, n) == 0
  {
    if n > 0 {
      ZipDistanceSelf(a, n - 1);
    }
  }

  /** The total distance depends only on which ids each column holds, not on the input order. */
  lemma TotalDistanceOrderFree(a: seq<int>, b: seq<int>, a': seq<int>, b': seq<int>)
    requires multiset(a) == multiset(a') && multiset(b) == multiset(b')
    ensures TotalDistance(a, b) == TotalDistance(a', b')
  {
    SortOrderFree(a, a');
    SortOrderFree(b, b');
    assert |a| == |multiset(a)| == |a'| && |b| == |multiset(b)| == |b'|;
  }

  /** Columns holding the same ids are at distance 0. */
  lemma TotalDistanceSame(a: seq<int>, b: seq<int>)
    requires multiset(a) == multiset(b)
    ensures TotalDistance(a, b) == 0
  {
    SortOrderFree(a, b);
    SortSorted(a);
    ZipDistanceSelf(Sort(a), |a|);
    assert |a| == |multiset(a)| == |b|;
  }

  // ---------------------------------------------------------------------------------------
  // Part 2: similarity

  /** `second.iter().filter(|&n| n == a).count()`. */
  method Occurrences(second: seq<int>, a: int) returns (found: nat)
    ensures found == multiset(second)[a]
  {
    found := 0;
    for i := 0 to |second|
      invariant found == multiset(second[..i])[a]
    {
      MultisetTake(second, i + 1);
      if second[i] == a {
        found := found + 1;
      }
    }
    assert second[..|second|] == second;
  }

  /** The score of one left id: the id times its occurrences on the right. */
  function Score(a: int, second: seq<int>): int
  {
    a * multiset(second)[a]
  }

  /** Part 2: the scores of the left ids, added up. */
  function Similarity(first: seq<int>, second: seq<int>): int
  {
    if first == [] then 0 else Score(first[0], second) + Similarity(first[1..], second)
  }

  lemma {:induction false} SimilarityConcat(a: seq<int>, b: seq<int>, second: seq<int>)
    ensures Similarity(a + b, second) == Similarity(a, second) + Similarity(b, second)
  {
    if a == [] {
      assert a + b == b;
    } else {
      assert (a + b)[0] == a[0] && (a + b)[1..] == a[1..] + b;
      SimilarityConcat(a[1..], b, second);
    }
  }

  /** Taking element `j` out of a list adds its score back. */
  lemma SimilarityRemove(b: seq<int>, j: nat, second: seq<int>)
    requires j < |b|
    ensures Similarity(b, second) == Score(b[j], second) + Similarity(b[..j] + b[j + 1..], second)
  {
    assert b == b[..j] + ([b[j]] + b[j + 1..]);
    SimilarityConcat(b[..j], [b[j]] + b[j + 1..], second);
    SimilarityConcat(b[..j], b[j + 1..], second);
    assert ([b[j]] + b[j + 1..])[1..] == b[j + 1..];
  }

  /** Taking the head of `a` out of `b` where `b` holds it keeps the two lists' elements equal. */
  lemma MultisetRemove(a: seq<int>, b: seq<int>, j: nat)
    requires a != [] && j < |b| && b[j] == a[0] && multiset(a) == multiset(b)
    ensures multiset(a[1..]) == multiset(b[..j] + b[j + 1..])
  {
    assert a == [a[0]] + a[1..];
    assert b == b[..j] + [b[j]] + b[j + 1..];
    calc {
      multiset(a[1..]);
      multiset(a) - multiset{a[0]};
      multiset(b) - multiset{b[j]};
      multiset(b[..j]) + multiset(b[j + 1..]);
      multiset(b[..j] + b[j + 1..]);
    }
  }

  /** The similarity is a sum over the left ids, so their order does not matter. */
  lemma {:induction false} SimilarityOrderFree(a: seq<int>, b: seq<int>, second: seq<int>)
    requires multiset(a) == multiset(b)
    ensures Similarity(a, second) == Similarity(b, second)
    decreases |a|
  {
    assert |a| == |multiset(a)| == |b|;
    if a != [] {
      assert a[0] in multiset(b);
      var j :| 0 <= j < |b| && b[j] == a[0];
      SimilarityRemove(b, j, second);
      MultisetRemove(a, b, j);
      SimilarityOrderFree(a[1..], b[..j] + b[j + 1..], second);
    }
  }

  /** The similarity loop: for each left id, count its occurrences on the right. */
  method SimilarityOf(first: seq<int>, second: seq<int>) returns (similarity: int)
    ensures similarity == Similarity(first, second)
  {
    similarity := 0;
    for i := 0 to |first|
      invariant similarity == Similarity(first[..i], second)
    {
      var a := first[i];
      var found := Occurrences(second, a);
      SimilarityConcat(first[..i], [a], second);
      assert first[..i + 1] == first[..i] + [a];
      similarity := similarity + a * found;
    }
    assert first[..|first|] == first;
  }

  /** Both parts for the read columns: sort them, then the distance and similarity loops. */
  method Parts(first: seq<int>, second: seq<int>) returns (part1: int, part2: int)
    ensures part1 == TotalDistance(first, second) && part1 >= 0
    ensures part2 == Similarity(first, second)
  {
    var sortedFirst, sortedSecond := Sort(first), Sort(second);
    SortSorted(first);
    SortSorted(second);
    part1 := Distance(sortedFirst, sortedSecond);
    part2 := SimilarityOf(sortedFirst, sortedSecond);
    SortPermutes(first);
    SortPermutes(second);
    SimilarityOrderFree(sortedFirst, first, sortedSecond);
    SimilarityIgnoresOrder(first, sortedSecond, second);
  }

  /** main without the file and the printing: read the columns, sort them in place, compute
      both parts.  None where a line panics. */
  method Answers(lines: seq<string>) returns (r: Option<(int, int)>)
    ensures r.Some? <==> Columns(lines, |lines|).Some?
    ensures r.Some? ==> var columns := Columns(lines, |lines|).value;
                        r.value.0 == TotalDistance(columns.0, columns.1) && r.value.0 >= 0 &&
                        r.value.1 == Similarity(columns.0, columns.1)
  {
    var columns := ReadColumns(lines);
    if columns.None? {
      return None;
    }
    var part1, part2 := Parts(columns.value.0, columns.value.1);
    r := Some((part1, part2));
  }

  /** The right column is only counted, so its order does not matter either. */
  lemma {:induction false} SimilarityIgnoresOrder(first: seq<int>, s: seq<int>, s': seq<int>)
    requires multiset(s) == multiset(s')
    ensures Similarity(first, s) == Similarity(first, s')
  {
    if first != [] {
      SimilarityIgnoresOrder(first[1..], s, s');
    }
  }

  lemma SortExampleLeft()
    ensures Sort([3, 4, 2, 1, 3, 3]) == [1, 2, 3, 3, 3, 4]
  {
    assert Sort([3]) == [3];
    assert Sort([3, 3]) == Insert(3, [3]) == [3, 3];
    assert Sort([1, 3, 3]) == Insert(1, [3, 3]) == [1, 3, 3];
    assert Sort([2, 1, 3, 3]) == Insert(2, [1, 3, 3]) == [1, 2, 3, 3];
    assert Sort([4, 2, 1, 3, 3]) == Insert(4, [1, 2, 3, 3]) == [1, 2, 3, 3, 4];
    assert Sort([3, 4, 2, 1, 3, 3]) == Insert(3, [1, 2, 3, 3, 4]) == [1, 2, 3, 3, 3, 4];
  }

  lemma SortExampleRight()
    ensures Sort([4, 3, 5, 3, 9, 3]) == [3, 3, 3, 4, 5, 9]
  {
    assert Sort([3]) == [3];
    assert Sort([9, 3]) == Insert(9, [3]) == [3, 9];
    assert Sort([3, 9, 3]) == Insert(3, [3, 9]) == [3, 3, 9];
    assert Sort([5, 3, 9, 3]) == Insert(5, [3, 3, 9]) == [3, 3, 5, 9];
    assert Sort([3, 5, 3, 9, 3]) == Insert(3, [3, 3, 5, 9]) == [3, 3, 3, 5, 9];
    assert Sort([4, 3, 5, 3, 9, 3]) == Insert(4, [3, 3, 3, 5, 9]) == [3, 3, 3, 4, 5, 9];
  }

  /** The puzzle's sample, part 1: ids 3 4 2 1 3 3 against 4 3 5 3 9 3 are 11 apart. */
  lemma ExampleDistance()
    ensures TotalDistance([3, 4, 2, 1, 3, 3], [4, 3, 5, 3, 9, 3]) == 11
  {
    SortExampleLeft();
    SortExampleRight();
    assert ZipDistance([1, 2, 3, 3, 3, 4], [3, 3, 3, 4, 5, 9], 6) == 11;
  }

  lemma ExampleCounts()
    ensures var b := [4, 3, 5, 3, 9, 3];
            multiset(b)[3] == 3 && multiset(b)[4] == 1 && multiset(b)[2] == 0 && multiset(b)[1] == 0
  {
  }

  /** The puzzle's sample, part 2: the similarity score is 31. */
  lemma ExampleSimilarity()
    ensures Similarity([3, 4, 2, 1, 3, 3], [4, 3, 5, 3, 9, 3]) == 31
  {
    ExampleCounts();
    var a, b := [3, 4, 2, 1, 3, 3], [4, 3, 5, 3, 9, 3];
    assert Similarity(a[5..], b) == 9;
    assert Similarity(a[4..], b) == 18;
    assert Similarity(a[3..], b) == 18;
    assert Similarity(a[2..], b) == 18;
    assert Similarity(a[1..], b) == 22;
    assert a == [a[0]] + a[1..];
  }
}
