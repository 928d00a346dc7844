/** Day 5: print queue.  Rules "X|Y" say page X goes before page Y; an update is in order when
    no page has a rule successor printed before it.  Ordered updates give their middle page to
    part 1; the others are repaired by inserting each page before its first already-placed
    successor, and the repaired update's middle page goes to part 2. */
module Day05 {
  import opened Common

  type Rules = map<int, set<int>>

  /** The pages that must come after `x`. */
  function Succ(rules: Rules, x: int): set<int>
  {
    if x in rules then rules[x] else {}
  }

  /** Rule `a|b` is present. */
  predicate Before(rules: Rules, a: int, b: int)
  {
    b in Succ(rules, a)
  }

  // ---------------------------------------------------------------------------
  // Reading the input

  /** The rules with `a|b` added. */
  function AddRule(rules: Rules, a: int, b: int): (r: Rules)
    ensures forall x :: Succ(r, x) == if x == a then Succ(rules, a) + {b} else Succ(rules, x)
  {
    rules[a := Succ(rules, a) + {b}]
  }

  /** The rule of a line "X|Y": both sides (and any further ones) parsed as i64, and at least two
      of them; None where the source panics. */
  function RuleOf(line: string): (r: Option<(int, int)>)
  {
    match ParseI64s(Split(line, '|'))
    case Some(ns) => if |ns| >= 2 then Some((ns[0], ns[1])) else None
    case None => None
  }

  /** The updates of a line "a,b,c": every page parsed as i64; None where the source panics. */
  function PageOf(line: string): Option<seq<int>>
  {
    ParseI64s(Split(line, ','))
  }

  /** What a line reads as: whether it is empty, its rule and its update.  Parsing has no side
      effects, so reading the one the current mode asks for is reading that field. */
  datatype Parsed = Parsed(blank: bool, rule: Option<(int, int)>, page: Option<seq<int>>)

  function ParseLine(line: string): (r: Parsed)
    ensures r.blank <==> |line| == 0
    ensures r.rule == RuleOf(line) && r.page == PageOf(line)
  {
    Parsed(|line| == 0, RuleOf(line), PageOf(line))
  }

  /** Every line of the input, read both ways. */
  function ParsedLines(lines: seq<string>): (r: seq<Parsed>)
    ensures |r| == |lines| && forall k :: 0 <= k < |lines| ==> r[k] == ParseLine(lines[k])
  {
    seq(|lines|, k requires 0 <= k < |lines| => ParseLine(lines[k]))
  }

  /** The reading state: still reading rules, the rules so far, the updates so far. */
  datatype Input = Input(readRules: bool, rules: Rules, pages: seq<seq<int>>)

  /** One line read: while reading rules an empty line ends them and any other is a rule; after
      that every line is an update of comma-separated pages. */
  function ReadLine(st: Input, p: Parsed): Option<Input>
  {
    if st.readRules then
      if p.blank then Some(st.(readRules := false))
      else match p.rule
        case Some((a, b)) => Some(st.(rules := AddRule(st.rules, a, b)))
        case None => None
    else match p.page
      case Some(page) => Some(st.(pages := st.pages + [page]))
      case None => None
  }

  /** The state after the first `n` lines. */
  function ReadLines(ps: seq<Parsed>, n: nat): Option<Input>
    requires n <= |ps|
  {
    if n == 0 then Some(Input(true, map[], []))
    else match ReadLines(ps, n - 1)
      case Some(st) => ReadLine(st, ps[n - 1])
      case None => None
  }

  /** The lines hold no empty line before `n`. */
  predicate NoBlankBefore(ps: seq<Parsed>, n: nat)
    requires n <= |ps|
  {
    forall k :: 0 <= k < n ==> !ps[k].blank
  }

  /** The rules the first `n` lines give, whether or not a later line panics: a line adds its
      rule when no empty line comes before it. */
  function RulesFrom(ps: seq<Parsed>, n: nat): Rules
    requires n <= |ps|
  {
    if n == 0 then map[]
    else if NoBlankBefore(ps, n) && ps[n - 1].rule.Some? then
      AddRule(RulesFrom(ps, n - 1), ps[n - 1].rule.value.0, ps[n - 1].rule.value.1)
    else RulesFrom(ps, n - 1)
  }

  /** No empty line before `n`: none before `n - 1`, and line `n - 1` is not empty. */
  lemma NoBlankStep(ps: seq<Parsed>, n: nat)
    requires 0 < n <= |ps|
    ensures NoBlankBefore(ps, n) <==> NoBlankBefore(ps, n - 1) && !ps[n - 1].blank
  {
  }

  /** A read that did not panic is reading rules exactly while no empty line has been seen, and
      holds the rules of its lines. */
  lemma {:induction false} ReadLinesState(ps: seq<Parsed>, n: nat)
    requires n <= |ps| && ReadLines(ps, n).Some?
    ensures ReadLines(ps, n).value.readRules <==> NoBlankBefore(ps, n)
    ensures ReadLines(ps, n).value.rules == RulesFrom(ps, n)
  {
    if n > 0 {
      ReadLinesState(ps, n - 1);
      NoBlankStep(ps, n);
    }
  }

  /** Line `k` is the rule "a|b" and no empty line comes before it. */
  predicate RuleLine(ps: seq<Parsed>, k: nat, a: int, b: int)
    requires k < |ps|
  {
    NoBlankBefore(ps, k + 1) && ps[k].rule == Some((a, b))
  }

  /** Some line before `n` is the rule line "a|b". */
  predicate RuleLineBefore(ps: seq<Parsed>, n: nat, a: int, b: int)
    requires n <= |ps|
  {
    exists k :: 0 <= k < n && RuleLine(ps, k, a, b)
  }

  /** One more line is one more candidate. */
  lemma RuleLineBeforeStep(ps: seq<Parsed>, n: nat, a: int, b: int)
    requires 0 < n <= |ps|
    ensures RuleLineBefore(ps, n, a, b) <==> RuleLineBefore(ps, n - 1, a, b) || RuleLine(ps, n - 1, a, b)
  {
    if RuleLineBefore(ps, n, a, b) && !RuleLine(ps, n - 1, a, b) {
      var k :| 0 <= k < n && RuleLine(ps, k, a, b);
      assert RuleLineBefore(ps, n - 1, a, b);
    }
    if RuleLineBefore(ps, n - 1, a, b) {
      var k :| 0 <= k < n - 1 && RuleLine(ps, k, a, b);
      assert RuleLineBefore(ps, n, a, b);
    }
    if RuleLine(ps, n - 1, a, b) {
      assert RuleLineBefore(ps, n, a, b);
    }
  }

  /** `b` is a successor of `a` in the rules of the first `n` lines exactly when one of them
      before the first empty line is "a|b". */
  lemma {:induction false} RulesFromMeaning(ps: seq<Parsed>, n: nat, a: int, b: int)
    requires n <= |ps|
    ensures Before(RulesFrom(ps, n), a, b) <==> RuleLineBefore(ps, n, a, b)
  {
    if n > 0 {
      RulesFromMeaning(ps, n - 1, a, b);
      RuleLineBeforeStep(ps, n, a, b);
    }
  }

  /** What reading means: `b` is a successor of `a` exactly when a line "a|b" comes before the
      first empty line. */
  lemma ReadLinesRules(ps: seq<Parsed>, a: int, b: int)
    requires ReadLines(ps, |ps|).Some?
    ensures Before(ReadLines(ps, |ps|).value.rules, a, b) <==> RuleLineBefore(ps, |ps|, a, b)
  {
    ReadLinesState(ps, |ps|);
    RulesFromMeaning(ps, |ps|, a, b);
  }

  /** Reading one more line. */
  lemma ReadLinesNext(ps: seq<Parsed>, n: nat, st: Input)
    requires n < |ps| && ReadLines(ps, n) == Some(st)
    ensures ReadLines(ps, n + 1) == ReadLine(st, ps[n])
  {
  }

  /** Once reading panics it stays panicked. */
  lemma {:induction false} ReadLinesNone(ps: seq<Parsed>, n: nat)
    requires n <= |ps| && ReadLines(ps, n).None?
    ensures ReadLines(ps, |ps|).None?
    decreases |ps| - n
  {
    if n < |ps| {
      ReadLinesNone(ps, n + 1);
    }
  }

  /** One line of the reading loop of main: only what the current mode asks for is parsed. */
  method ReadOne(st: Input, line: string, ghost p: Parsed) returns (r: Option<Input>)
    requires p == ParseLine(line)
    ensures r == ReadLine(st, p)
  {
    if st.readRules {
      if |line| == 0 {
        return Some(st.(readRules := false));
      }
      var res := ParseI64s(Split(line, '|'));
      if res.None? || |res.value| < 2 {
        return None;
      }
      var rules := st.rules[res.value[0] := Succ(st.rules, res.value[0]) + {res.value[1]}];
      r := Some(st.(rules := rules));
    } else {
      var tmp := ParseI64s(Split(line, ','));
      if tmp.None? {
        return None;
      }
      r := Some(st.(pages := st.pages + [tmp.value]));
    }
  }

  /** The reading loop of main. */
  method Read(lines: seq<string>) returns (r: Option<Input>)
    ensures r == ReadLines(ParsedLines(lines), |lines|)
  {
    ghost var ps := ParsedLines(lines);
    var st := Input(true, map[], []);
    for n := 0 to |lines|
      invariant ReadLines(ps, n) == Some(st)
    {
      var next := ReadOne(st, lines[n], ps[n]);
      ReadLinesNext(ps, n, st);
      if next.None? {
        ReadLinesNone(ps, n + 1);
        return None;
      }
      st := next.value;
    }
    r := Some(st);
  }

  // ---------------------------------------------------------------------------
  // check_part1

  /** In order: no page has a rule successor printed before it. */
  predicate Ordered(rules: Rules, page: seq<int>)
  {
    forall i, j :: 0 <= i < j < |page| ==> !Before(rules, page[j], page[i])
  }

  /** check_part1: the middle page of an ordered, non-empty update. */
  function CheckPart1(rules: Rules, page: seq<int>): (r: Option<int>)
    ensures r.Some? <==> |page| > 0 && Ordered(rules, page)
    ensures r.Some? ==> r.value == page[|page| / 2]
  {
    if |page| > 0 && Ordered(rules, page) then Some(page[|page| / 2]) else None
  }

  /** The inner loop of check_part1: whether some successor was already printed. */
  method AnyPrinted(succ: set<int>, before: seq<int>) returns (found: bool)
    ensures found <==> exists r :: r in succ && r in before
  {
    var todo := succ;
    while todo != {}
      invariant todo <= succ
      invariant forall r :: r in succ && r !in todo ==> r !in before
      decreases |todo|
    {
      NonEmptyHasMember(todo);
      var r :| r in todo;
      if r in before {
        return true;
      }
      todo := todo - {r};
    }
    found := false;
  }

  /** check_part1 as a loop: the pages printed so far are kept, and each page's successors are
      looked for among them. */
  method CheckPage(rules: Rules, page: seq<int>) returns (r: Option<int>)
    ensures r == CheckPart1(rules, page)
  {
    if |page| == 0 {
      return None;
    }
    var before: seq<int> := [];
    for i := 0 to |page|
      invariant before == page[..i]
      invariant Ordered(rules, page[..i])
    {
      var num := page[i];
      var found := AnyPrinted(Succ(rules, num), before);
      if found {
        var x :| x in Succ(rules, num) && x in before;
        var j :| 0 <= j < i && page[j] == x;
        assert !Ordered(rules, page);
        return None;
      }
      var next := page[..i + 1];
      assert Ordered(rules, next) by {
        forall a, b | 0 <= a < b < i + 1
          ensures !Before(rules, next[b], next[a])
        {
          if b == i {
            assert next[a] in before;
          } else {
            assert page[..i][b] == next[b] && page[..i][a] == next[a];
          }
        }
      }
      before := before + [num];
    }
    assert page[..|page|] == page;
    r := Some(page[|page| / 2]);
  }

  // ---------------------------------------------------------------------------
  // fix_part2

  /** Where a page goes: before the first placed page that is one of its successors, or at the
      end. */
  function InsertAt(rules: Rules, ret: seq<int>, x: int): (idx: nat)
    ensures idx <= |ret|
  {
    if ret == [] then 0
    else if Before(rules, x, ret[0]) then 0
    else 1 + InsertAt(rules, ret[1..], x)
  }

  /** The slot is the first placed successor: no placed page before it is a successor, and the
      page at it is one. */
  lemma {:induction false} InsertAtSlot(rules: Rules, ret: seq<int>, x: int)
    ensures forall k :: 0 <= k < InsertAt(rules, ret, x) ==> !Before(rules, x, ret[k])
    ensures InsertAt(rules, ret, x) < |ret| ==> Before(rules, x, ret[InsertAt(rules, ret, x)])
  {
    if ret != [] && !Before(rules, x, ret[0]) {
      InsertAtSlot(rules, ret[1..], x);
      var idx := InsertAt(rules, ret, x);
      forall k | 0 <= k < idx
        ensures !Before(rules, x, ret[k])
      {
        if k > 0 {
          assert ret[k] == ret[1..][k - 1];
        }
      }
    }
  }

  /** `v` inserted at `idx` (`Vec::insert`). */
  function Inserted(s: seq<int>, idx: nat, v: int): (r: seq<int>)
    requires idx <= |s|
    ensures |r| == |s| + 1
  {
    s[..idx] + [v] + s[idx..]
  }

  /** Inserting adds exactly the one page. */
  lemma InsertedPermutes(s: seq<int>, idx: nat, v: int)
    requires idx <= |s|
    ensures multiset(Inserted(s, idx, v)) == multiset(s) + multiset{v}
  {
    assert s == s[..idx] + s[idx..];
  }

  /** fix_part2 on the first `n` pages. */
  function Fixed(rules: Rules, page: seq<int>, n: nat): (r: seq<int>)
    requires n <= |page|
    ensures |r| == n
  {
    if n == 0 then []
    else
      var ret := Fixed(rules, page, n - 1);
      Inserted(ret, InsertAt(rules, ret, page[n - 1]), page[n - 1])
  }

  /** The repaired update is a rearrangement of the update. */
  lemma {:induction false} FixedPermutes(rules: Rules, page: seq<int>, n: nat)
    requires n <= |page|
    ensures multiset(Fixed(rules, page, n)) == multiset(page[..n])
  {
    if n > 0 {
      FixedPermutes(rules, page, n - 1);
      var ret := Fixed(rules, page, n - 1);
      var x := page[n - 1];
      FixedUnfold(rules, page, n);
      InsertedPermutes(ret, InsertAt(rules, ret, x), x);
      MultisetTake(page, n);
      assert multiset(Fixed(rules, page, n)) == multiset(page[..n]);
    }
  }

  /** Page `n - 1` inserted into the repair of the pages before it. */
  lemma FixedUnfold(rules: Rules, page: seq<int>, n: nat)
    requires 0 < n <= |page|
    ensures Fixed(rules, page, n) ==
            Inserted(Fixed(rules, page, n - 1), InsertAt(rules, Fixed(rules, page, n - 1), page[n - 1]), page[n - 1])
  {
  }

  /** Every element of a rearrangement of the first `m` pages is a page of the update. */
  lemma PermutedWithin(s: seq<int>, page: seq<int>, m: nat)
    requires m <= |page| && multiset(s) == multiset(page[..m])
    ensures Within(s, page)
  {
    forall k | 0 <= k < |s|
      ensures s[k] in page
    {
      assert s[k] in multiset(page[..m]);
      var i :| 0 <= i < m && page[..m][i] == s[k];
      assert page[i] == s[k];
    }
  }

  /** No page is repeated. */
  predicate Distinct(page: seq<int>)
  {
    forall i, j :: 0 <= i < j < |page| ==> page[i] != page[j]
  }

  /** The rules order the pages of an update strictly and totally: two different pages have a
      rule between them one way and not the other, no page precedes itself, rules chain, and no
      page is repeated. */
  predicate TotalOn(rules: Rules, page: seq<int>)
  {
    Distinct(page) &&
    (forall a, b :: a in page && b in page && a != b ==> Before(rules, a, b) != Before(rules, b, a)) &&
    (forall a :: a in page ==> !Before(rules, a, a)) &&
    (forall a, b, c :: a in page && b in page && c in page && Before(rules, a, b) && Before(rules, b, c) ==>
      Before(rules, a, c))
  }

  /** Sorted by the rules: every earlier page has a rule to every later one. */
  predicate Chained(rules: Rules, s: seq<int>)
  {
    forall i, j :: 0 <= i < j < |s| ==> Before(rules, s[i], s[j])
  }

  /** Every element of `s` is a page of `page`. */
  predicate Within(s: seq<int>, page: seq<int>)
  {
    forall k :: 0 <= k < |s| ==> s[k] in page
  }

  /** A page goes after every placed page before its slot and before every placed page from
      its slot on, when the rules order the pages strictly and totally. */
  lemma InsertAtSplits(rules: Rules, page: seq<int>, ret: seq<int>, x: int)
    requires TotalOn(rules, page) && Chained(rules, ret)
    requires x in page && x !in ret && Within(ret, page)
    ensures forall k :: 0 <= k < InsertAt(rules, ret, x) ==> Before(rules, ret[k], x)
    ensures forall k :: InsertAt(rules, ret, x) <= k < |ret| ==> Before(rules, x, ret[k])
  {
    var idx := InsertAt(rules, ret, x);
    InsertAtSlot(rules, ret, x);
    forall k | 0 <= k < idx
      ensures Before(rules, ret[k], x)
    {
      assert ret[k] in page && ret[k] != x && !Before(rules, x, ret[k]);
    }
    forall k | idx < k < |ret|
      ensures Before(rules, x, ret[k])
    {
      assert ret[idx] in page && ret[k] in page;
      assert Before(rules, x, ret[idx]) && Before(rules, ret[idx], ret[k]);
    }
  }

  /** A page inserted into a chained sequence after every element before `idx` and before every
      element from `idx` on leaves it chained. */
  lemma InsertChained(rules: Rules, ret: seq<int>, x: int, idx: nat)
    requires idx <= |ret| && Chained(rules, ret)
    requires forall k :: 0 <= k < idx ==> Before(rules, ret[k], x)
    requires forall k :: idx <= k < |ret| ==> Before(rules, x, ret[k])
    ensures Chained(rules, Inserted(ret, idx, x))
  {
    var r := Inserted(ret, idx, x);
    assert forall k :: 0 <= k < idx ==> r[k] == ret[k];
    assert r[idx] == x;
    assert forall k :: idx < k < |r| ==> r[k] == ret[k - 1];
    forall i, j | 0 <= i < j < |r|
      ensures Before(rules, r[i], r[j])
    {
      if j < idx {
        assert Before(rules, ret[i], ret[j]);
      } else if j == idx {
        assert Before(rules, ret[i], x);
      } else if i < idx {
        assert Before(rules, ret[i], ret[j - 1]);
      } else if i == idx {
        assert Before(rules, x, ret[j - 1]);
      } else {
        assert Before(rules, ret[i - 1], ret[j - 1]);
      }
    }
  }

  /** A rearrangement of the pages before `n - 1` holds only pages of the update and, when no
      page is repeated, not page `n - 1`. */
  lemma EarlierMembers(ret: seq<int>, page: seq<int>, n: nat)
    requires 0 < n <= |page| && Distinct(page) && multiset(ret) == multiset(page[..n - 1])
    ensures page[n - 1] !in ret
    ensures Within(ret, page)
  {
    assert page[n - 1] !in multiset(page[..n - 1]);
    PermutedWithin(ret, page, n - 1);
  }

  /** When the rules order the update's pages strictly and totally, the repaired update is
      chained, so it is in order. */
  lemma {:induction false} FixedChained(rules: Rules, page: seq<int>, n: nat)
    requires n <= |page| && TotalOn(rules, page)
    ensures Chained(rules, Fixed(rules, page, n))
  {
    if n > 0 {
      FixedChained(rules, page, n - 1);
      var ret := Fixed(rules, page, n - 1);
      FixedPermutes(rules, page, n - 1);
      EarlierMembers(ret, page, n);
      InsertAtSplits(rules, page, ret, page[n - 1]);
      InsertChained(rules, ret, page[n - 1], InsertAt(rules, ret, page[n - 1]));
      FixedUnfold(rules, page, n);
    }
  }

  /** A repaired update passes check_part1 when the rules order its pages strictly and
      totally. */
  lemma FixedPasses(rules: Rules, page: seq<int>)
    requires |page| > 0 && TotalOn(rules, page)
    ensures CheckPart1(rules, Fixed(rules, page, |page|)).Some?
  {
    var r := Fixed(rules, page, |page|);
    FixedChained(rules, page, |page|);
    FixedPermutes(rules, page, |page|);
    PermutedWithin(r, page, |page|);
    forall i, j | 0 <= i < j < |r|
      ensures !Before(rules, r[j], r[i])
    {
      assert r[i] in page && r[j] in page && Before(rules, r[i], r[j]);
    }
  }

  /** The inner loop of fix_part2: the least position among the placed pages of any successor,
      or the end. */
  method FindSlot(rules: Rules, ret: seq<int>, num: int) returns (idx: nat)
    ensures idx == InsertAt(rules, ret, num)
  {
    idx := |ret|;
    var todo := Succ(rules, num);
    while todo != {}
      invariant todo <= Succ(rules, num) && idx <= |ret|
      invariant forall k :: 0 <= k < idx ==> ret[k] !in Succ(rules, num) - todo
      invariant idx < |ret| ==> ret[idx] in Succ(rules, num) - todo
      decreases |todo|
    {
      NonEmptyHasMember(todo);
      var r :| r in todo;
      var pos := Position(ret, r);
      idx := Min(if pos.Some? then pos.value else idx, idx);
      todo := todo - {r};
    }
    InsertAtIsFirst(rules, ret, num, idx);
  }

  /** `ret.iter().position(|e| e == r)`: the first index holding `r`. */
  function Position(s: seq<int>, x: int): (r: Option<nat>)
    ensures r.Some? ==> r.value < |s| && s[r.value] == x && forall k :: 0 <= k < r.value ==> s[k] != x
    ensures r.None? ==> x !in s
  {
    if s == [] then None
    else if s[0] == x then Some(0)
    else match Position(s[1..], x)
      case Some(k) => Some(k + 1)
      case None => None
  }

  /** The first successor's position is where InsertAt puts the page. */
  lemma {:induction false} InsertAtIsFirst(rules: Rules, ret: seq<int>, x: int, idx: nat)
    requires idx <= |ret|
    requires forall k :: 0 <= k < idx ==> !Before(rules, x, ret[k])
    requires idx < |ret| ==> Before(rules, x, ret[idx])
    ensures InsertAt(rules, ret, x) == idx
  {
    if ret != [] && idx > 0 {
      InsertAtIsFirst(rules, ret[1..], x, idx - 1);
    }
  }

  /** fix_part2 as a loop: each page inserted at its slot. */
  method FixPage(rules: Rules, page: seq<int>) returns (ret: seq<int>)
    ensures ret == Fixed(rules, page, |page|)
  {
    ret := [];
    for n := 0 to |page|
      invariant ret == Fixed(rules, page, n)
    {
      var num := page[n];
      var idx := FindSlot(rules, ret, num);
      ret := ret[..idx] + [num] + ret[idx..];
    }
  }

  // ---------------------------------------------------------------------------
  // main

  /** What one update gives: its middle page to part 1 when in order, the middle page of its
      repair to part 2 when that is in order, and a panic otherwise. */
  datatype Outcome = InOrder(middle: int) | Repaired(middle: int) | Unfixable

  function PageOutcome(rules: Rules, page: seq<int>): (o: Outcome)
    ensures o.InOrder? <==> |page| > 0 && Ordered(rules, page)
    ensures o.InOrder? ==> o.middle == page[|page| / 2]
    ensures o.Repaired? ==> var fixed := Fixed(rules, page, |page|);
                            |fixed| > 0 && Ordered(rules, fixed) && o.middle == fixed[|fixed| / 2]
  {
    match CheckPart1(rules, page)
    case Some(num) => InOrder(num)
    case None =>
      match CheckPart1(rules, Fixed(rules, page, |page|))
      case Some(num) => Repaired(num)
      case None => Unfixable
  }

  /** The sums with one more update's outcome added; None on a panic. */
  function AddOutcome(acc: Option<(int, int)>, o: Outcome): Option<(int, int)>
  {
    match acc
    case None => None
    case Some((p1, p2)) =>
      match o
      case InOrder(num) => Some((p1 + num, p2))
      case Repaired(num) => Some((p1, p2 + num))
      case Unfixable => None
  }

  /** The sums over the first `n` updates; None where an update is unfixable (the source
      panics). */
  function Sums(rules: Rules, pages: seq<seq<int>>, n: nat): Option<(int, int)>
    requires n <= |pages|
  {
    if n == 0 then Some((0, 0))
    else AddOutcome(Sums(rules, pages, n - 1), PageOutcome(rules, pages[n - 1]))
  }

  /** Every update is non-empty and strictly and totally ordered by the rules. */
  predicate AllTotal(rules: Rules, pages: seq<seq<int>>)
  {
    forall k :: 0 <= k < |pages| ==> |pages[k]| > 0 && TotalOn(rules, pages[k])
  }

  /** An update the rules order strictly and totally is never unfixable. */
  lemma TotalFixable(rules: Rules, page: seq<int>)
    requires |page| > 0 && TotalOn(rules, page)
    ensures !PageOutcome(rules, page).Unfixable?
  {
    FixedPasses(rules, page);
  }

  /** A fixable update keeps the sums defined. */
  lemma SumsStepSome(rules: Rules, pages: seq<seq<int>>, n: nat)
    requires 0 < n <= |pages| && Sums(rules, pages, n - 1).Some?
    requires !PageOutcome(rules, pages[n - 1]).Unfixable?
    ensures Sums(rules, pages, n).Some?
  {
  }

  /** When the rules order every non-empty update strictly and totally, nothing panics. */
  lemma {:induction false} SumsDefined(rules: Rules, pages: seq<seq<int>>, n: nat)
    requires n <= |pages| && AllTotal(rules, pages)
    ensures Sums(rules, pages, n).Some?
  {
    if n > 0 {
      SumsDefined(rules, pages, n - 1);
      TotalFixable(rules, pages[n - 1]);
      SumsStepSome(rules, pages, n);
    }
  }

  /** Once a repaired update is out of order the sums stay undefined. */
  lemma {:induction false} SumsNone(rules: Rules, pages: seq<seq<int>>, n: nat)
    requires n <= |pages| && Sums(rules, pages, n).None?
    ensures Sums(rules, pages, |pages|).None?
    decreases |pages| - n
  {
    if n < |pages| {
      SumsNone(rules, pages, n + 1);
    }
  }

  /** One update of the summing loop of main: check it, and repair and check it again when it
      is out of order. */
  method Classify(rules: Rules, page: seq<int>) returns (o: Outcome)
    ensures o == PageOutcome(rules, page)
  {
    var first := CheckPage(rules, page);
    match first
    case Some(num) =>
      o := InOrder(num);
    case None =>
      var fixed := FixPage(rules, page);
      var second := CheckPage(rules, fixed);
      match second
      case Some(num) =>
        o := Repaired(num);
      case None =>
        o := Unfixable;
  }

  /** The two additions of the summing loop of main. */
  method Accumulate(part1: int, part2: int, o: Outcome) returns (r: Option<(int, int)>)
    ensures r == AddOutcome(Some((part1, part2)), o)
  {
    match o
    case InOrder(num) =>
      r := Some((part1 + num, part2));
    case Repaired(num) =>
      r := Some((part1, part2 + num));
    case Unfixable =>
      r := None;
  }

  /** The summing loop of main. */
  method Tally(rules: Rules, pages: seq<seq<int>>) returns (r: Option<(int, int)>)
    ensures r == Sums(rules, pages, |pages|)
  {
    var part1, part2 := 0, 0;
    for n := 0 to |pages|
      invariant Sums(rules, pages, n) == Some((part1, part2))
    {
      var o := Classify(rules, pages[n]);
      var next := Accumulate(part1, part2, o);
      assert next == Sums(rules, pages, n + 1);
      if next.None? {
        SumsNone(rules, pages, n + 1);
        return None;
      }
      part1, part2 := next.value.0, next.value.1;
    }
    r := Some((part1, part2));
  }

  /** The two answers; None where the source panics. */
  method Answers(input: string) returns (r: Option<(int, int)>)
    ensures ReadLines(ParsedLines(Lines(input)), |Lines(input)|).None? ==> r.None?
    ensures ReadLines(ParsedLines(Lines(input)), |Lines(input)|).Some? ==>
      var st := ReadLines(ParsedLines(Lines(input)), |Lines(input)|).value;
      r == Sums(st.rules, st.pages, |st.pages|)
  {
    var st := Read(Lines(input));
    if st.None? {
      return None;
    }
    r := Tally(st.value.rules, st.value.pages);
  }

  /** The rules of the puzzle's sample: 47|53, 97|13, 97|61, 97|47, 75|29, 61|13, 75|53, 29|13,
      97|29, 53|29, 61|53, 97|53, 61|29, 47|13, 75|47, 97|75, 47|61, 75|61, 47|29, 75|13, 53|13. */
  const SampleRules: Rules := map[97 := {13, 61, 47, 29, 53, 75}, 75 := {29, 53, 47, 61, 13},
                                  61 := {13, 53, 29}, 47 := {53, 13, 61, 29}, 29 := {13}, 53 := {29, 13}]

  /** The sample update 75,47,61,53,29 is in order, with middle page 61. */
  lemma ExampleOrdered()
    ensures CheckPart1(SampleRules, [75, 47, 61, 53, 29]) == Some(61)
  {
  }

  /** The sample update 75,97,47,61,53 is out of order, and its repair puts 97 before 75. */
  lemma ExampleRepair()
    ensures CheckPart1(SampleRules, [75, 97, 47, 61, 53]).None?
    ensures Fixed(SampleRules, [75, 97, 47, 61, 53], 2) == [97, 75]
  {
    var bad := [75, 97, 47, 61, 53];
    assert Before(SampleRules, bad[1], bad[0]);
    assert Fixed(SampleRules, bad, 1) == [75];
  }
}
