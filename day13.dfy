/** Day 13: claw machines.  Button A moves the claw by `deltaA`, button B by `deltaB`; a press of
    A costs 3 tokens and a press of B costs 1.  The two linear equations are solved by Cramer's
    rule in integers. */
module Day13 {
  import opened Common
  import opened Geometry

  datatype Machine = Machine(deltaA: Point, deltaB: Point, prize: Point)

  // ---------------------------------------------------------------------------------------
  // Reading numbers and lines

  /** The decimal digits of `v`, everything else (letters, signs, spaces) dropped. */
  function KeepDigits(v: string): (r: string)
    ensures AllDigits(r) && |r| <= |v|
    ensures AllDigits(v) ==> r == v
  {
    if v == [] then []
    else if IsDigit(v[|v| - 1]) then KeepDigits(v[..|v| - 1]) + [v[|v| - 1]]
    else KeepDigits(v[..|v| - 1])
  }

  /** The fold of parse_int_pair over the characters of one piece: each decimal digit shifts the
      accumulator by one place; other characters are skipped (`to_digit(10)` then `flatten`). */
  function DigitFold(v: string): (n: nat)
    ensures n == DigitsValue(KeepDigits(v))
  {
    if v == [] then 0
    else if IsDigit(v[|v| - 1]) then
      var k := KeepDigits(v[..|v| - 1]) + [v[|v| - 1]];
      assert k[..|k| - 1] == KeepDigits(v[..|v| - 1]);
      10 * DigitFold(v[..|v| - 1]) + DigitValue(v[|v| - 1])
    else DigitFold(v[..|v| - 1])
  }

  /** Only the digits count: a prefix without digits, such as "X+" or " Y=", changes nothing. */
  lemma {:induction false} DigitFoldSkips(prefix: string, digits: string)
    requires forall i :: 0 <= i < |prefix| ==> !IsDigit(prefix[i])
    requires AllDigits(digits)
    ensures DigitFold(prefix + digits) == DigitsValue(digits)
    decreases |digits|
  {
    if digits == [] {
      assert prefix + digits == prefix;
      NoDigitsFold(prefix);
    } else {
      var s := prefix + digits;
      assert s[..|s| - 1] == prefix + digits[..|digits| - 1];
      DigitFoldSkips(prefix, digits[..|digits| - 1]);
    }
  }

  /** A string without digits folds to zero. */
  lemma {:induction false} NoDigitsFold(s: string)
    requires forall i :: 0 <= i < |s| ==> !IsDigit(s[i])
    ensures DigitFold(s) == 0
    decreases |s|
  {
    if s != [] {
      NoDigitsFold(s[..|s| - 1]);
    }
  }

  /** parse_int_pair: the value splits on ',' into exactly two pieces, each read by DigitFold. */
  function IntPair(value: string): (r: Option<Point>)
    ensures r.Some? <==> |Split(value, ',')| == 2
    ensures r.Some? ==> r.value.x >= 0 && r.value.y >= 0
  {
    var parts := Split(value, ',');
    if |parts| == 2 then Some(Point(DigitFold(parts[0]), DigitFold(parts[1]))) else None
  }

  /** The labels of the three kinds of line a machine's block holds. */
  datatype Label = ButtonA | ButtonB | PrizeAt

  /** One line of a block: labelled with the pair it holds (None when that does not parse),
      or some other line. */
  datatype Line = Labelled(kind: Label, pair: Option<Point>) | Other

  /** The label text before the ':' of each kind of line. */
  function LabelText(l: Label): string
  {
    match l
    case ButtonA => "Button A"
    case ButtonB => "Button B"
    case PrizeAt => "Prize"
  }

  /** The match of Machine::parse on `line.split(':')`: exactly two pieces, the first one a label. */
  function LineOf(line: string): (r: Line)
    ensures r.Labelled? ==> |Split(line, ':')| == 2 && Split(line, ':')[0] == LabelText(r.kind)
    ensures r.Labelled? ==> r.pair == IntPair(Split(line, ':')[1])
  {
    var parts := Split(line, ':');
    if |parts| != 2 then Other
    else if parts[0] == "Button A" then Labelled(ButtonA, IntPair(parts[1]))
    else if parts[0] == "Button B" then Labelled(ButtonB, IntPair(parts[1]))
    else if parts[0] == "Prize" then Labelled(PrizeAt, IntPair(parts[1]))
    else Other
  }

  /** A line written as the label, ':' and a value without ':' is read as that label and value. */
  lemma LineOfFormat(l: Label, value: string)
    requires ':' !in value
    ensures LineOf(LabelText(l) + ":" + value) == Labelled(l, IntPair(value))
  {
    SplitPrefix(LabelText(l), value, ':');
    assert LabelText(l) + ":" + value == LabelText(l) + [':'] + value;
  }

  /** A prefix without `ch` followed by digits holds no `ch` when `ch` is not a digit. */
  lemma NoCharBeforeDigits(prefix: string, digits: string, ch: char)
    requires ch !in prefix && AllDigits(digits) && !IsDigit(ch)
    ensures ch !in prefix + digits
  {
    assert forall i :: |prefix| <= i < |prefix + digits| ==> (prefix + digits)[i] == digits[i - |prefix|];
  }

  /** One coordinate as written in the input, such as " X+94": the label adds no digits and
      no comma. */
  lemma CoordinateFormat(tag: string, n: nat)
    requires tag == " X+" || tag == " Y+"
    ensures ',' !in tag + NatToString(n)
    ensures DigitFold(tag + NatToString(n)) == n
  {
    assert forall i :: 0 <= i < |tag| ==> !IsDigit(tag[i]) && tag[i] != ',';
    NoCharBeforeDigits(tag, NatToString(n), ',');
    DigitFoldSkips(tag, NatToString(n));
    NatToStringValue(n);
  }

  /** Written as in the puzzle input (" X+94, Y+34"), a pair of naturals reads back as itself. */
  lemma IntPairFormat(x: nat, y: nat)
    ensures IntPair(" X+" + NatToString(x) + ", Y+" + NatToString(y)) == Some(Point(x, y))
  {
    var first, second := " X+" + NatToString(x), " Y+" + NatToString(y);
    CoordinateFormat(" X+", x);
    CoordinateFormat(" Y+", y);
    assert " X+" + NatToString(x) + ", Y+" + NatToString(y) == first + [','] + second;
    SplitPrefix(first, second, ',');
    assert Split(first + [','] + second, ',') == [first, second];
  }

  // ---------------------------------------------------------------------------------------
  // Machine::parse

  /** The three optional values the parse loop keeps. */
  datatype Partial = Partial(a: Option<Point>, b: Option<Point>, p: Option<Point>)

  /** The value a partial parse holds for one label. */
  function Get(st: Partial, l: Label): Option<Point>
  {
    match l
    case ButtonA => st.a
    case ButtonB => st.b
    case PrizeAt => st.p
  }

  /** One line of the loop: a labelled line overwrites its value, even with None. */
  function Step(st: Partial, line: Line): (r: Partial)
    ensures line.Other? ==> r == st
    ensures line.Labelled? ==> Get(r, line.kind) == line.pair &&
                               forall l :: l != line.kind ==> Get(r, l) == Get(st, l)
  {
    match line
    case Other => st
    case Labelled(ButtonA, v) => st.(a := v)
    case Labelled(ButtonB, v) => st.(b := v)
    case Labelled(PrizeAt, v) => st.(p := v)
  }

  /** The state after the first `n` lines. */
  function Scan(ls: seq<Line>, n: nat): Partial
    requires n <= |ls|
  {
    if n == 0 then Partial(None, None, None) else Step(Scan(ls, n - 1), ls[n - 1])
  }

  /** The final match: a machine when all three values are present. */
  function Finish(st: Partial): (r: Option<Machine>)
    ensures r.Some? <==> st.a.Some? && st.b.Some? && st.p.Some?
    ensures r.Some? ==> r.value == Machine(st.a.value, st.b.value, st.p.value)
  {
    match (st.a, st.b, st.p)
    case (Some(a), Some(b), Some(p)) => Some(Machine(a, b, p))
    case _ => None
  }

  /** Line `k` carries label `l`. */
  predicate HasLabel(ls: seq<Line>, k: nat, l: Label)
    requires k < |ls|
  {
    ls[k].Labelled? && ls[k].kind == l
  }

  /** `v` is what the last line labelled `l` among the first `n` holds, or None when no such
      line exists. */
  ghost predicate LastValue(ls: seq<Line>, n: nat, l: Label, v: Option<Point>)
    requires n <= |ls|
  {
    (v.None? && forall k :: 0 <= k < n ==> !HasLabel(ls, k, l)) ||
    (exists k :: 0 <= k < n && HasLabel(ls, k, l) && ls[k].pair == v &&
                 forall j :: k < j < n ==> !HasLabel(ls, j, l))
  }

  /** The last labelled line wins: after `n` lines, each value is the one of the last line with
      its label (or None when there is none). */
  lemma {:induction false} ScanLast(ls: seq<Line>, n: nat, l: Label)
    requires n <= |ls|
    ensures LastValue(ls, n, l, Get(Scan(ls, n), l))
  {
    if n > 0 {
      ScanLast(ls, n - 1, l);
      if HasLabel(ls, n - 1, l) {
        assert LastValue(ls, n, l, Get(Scan(ls, n), l));
      } else {
        assert Get(Scan(ls, n), l) == Get(Scan(ls, n - 1), l);
      }
    }
  }

  /** The value of the last line labelled `l` is unique: LastValue holds for one value only. */
  lemma LastValueUnique(ls: seq<Line>, n: nat, l: Label, v: Option<Point>, w: Option<Point>)
    requires n <= |ls|
    requires LastValue(ls, n, l, v) && LastValue(ls, n, l, w)
    ensures v == w
  {
    if v.Some? || w.Some? {
      var k :| 0 <= k < n && HasLabel(ls, k, l) && ls[k].pair == (if v.Some? then v else w) &&
               forall j :: k < j < n ==> !HasLabel(ls, j, l);
      if v.Some? && w.Some? {
        var k' :| 0 <= k' < n && HasLabel(ls, k', l) && ls[k'].pair == w &&
                  forall j :: k' < j < n ==> !HasLabel(ls, j, l);
        assert k == k';
      }
    }
  }

  /** The block's lines classified one by one. */
  function Classified(lines: seq<string>): (r: seq<Line>)
    ensures |r| == |lines| && forall k :: 0 <= k < |lines| ==> r[k] == LineOf(lines[k])
  {
    seq(|lines|, k requires 0 <= k < |lines| => LineOf(lines[k]))
  }

  /** Machine::parse on the lines of a block. */
  function MachineOf(lines: seq<string>): Option<Machine>
  {
    Finish(Scan(Classified(lines), |lines|))
  }

  /** Machine::parse yields a machine exactly when, for each of the three labels, the last line
      with that label parses, and the machine holds those last values. */
  lemma MachineOfMeaning(lines: seq<string>, m: Machine)
    ensures MachineOf(lines) == Some(m) <==>
              var ls := Classified(lines);
              LastValue(ls, |ls|, ButtonA, Some(m.deltaA)) &&
              LastValue(ls, |ls|, ButtonB, Some(m.deltaB)) &&
              LastValue(ls, |ls|, PrizeAt, Some(m.prize))
  {
    var ls := Classified(lines);
    var st := Scan(ls, |ls|);
    ScanLast(ls, |ls|, ButtonA);
    ScanLast(ls, |ls|, ButtonB);
    ScanLast(ls, |ls|, PrizeAt);
    if LastValue(ls, |ls|, ButtonA, Some(m.deltaA)) {
      LastValueUnique(ls, |ls|, ButtonA, Some(m.deltaA), Get(st, ButtonA));
    }
    if LastValue(ls, |ls|, ButtonB, Some(m.deltaB)) {
      LastValueUnique(ls, |ls|, ButtonB, Some(m.deltaB), Get(st, ButtonB));
    }
    if LastValue(ls, |ls|, PrizeAt, Some(m.prize)) {
      LastValueUnique(ls, |ls|, PrizeAt, Some(m.prize), Get(st, PrizeAt));
    }
  }

  /** Machine::parse: the loop over the lines keeps three optional values and overwrites one
      of them on each labelled line. */
  method ParseMachine(lines: seq<string>) returns (r: Option<Machine>)
    ensures r == MachineOf(lines)
  {
    var dA: Option<Point> := None;
    var dB: Option<Point> := None;
    var p: Option<Point> := None;
    ghost var ls := Classified(lines);
    for i := 0 to |lines|
      invariant Partial(dA, dB, p) == Scan(ls, i)
    {
      var parts := Split(lines[i], ':');
      assert ls[i] == LineOf(lines[i]);
      if |parts| == 2 && parts[0] == "Button A" {
        dA := IntPair(parts[1]);
      } else if |parts| == 2 && parts[0] == "Button B" {
        dB := IntPair(parts[1]);
      } else if |parts| == 2 && parts[0] == "Prize" {
        p := IntPair(parts[1]);
      }
    }
    r := Finish(Partial(dA, dB, p));
  }

  // ---------------------------------------------------------------------------------------
  // Solving by Cramer's rule

  /** What the shared arithmetic of solve_p1 and solve_p2 ends in: a division by zero (a Rust
      panic), a non-integral solution, or the press counts. */
  datatype Solution = DivByZero | NotIntegral | Presses(x: int, y: int)

  /** Both equations hold for `x` presses of A and `y` presses of B:
      a*x + b*y == c and d*x + e*y == f. */
  predicate Solves(a: int, b: int, c: int, d: int, e: int, f: int, x: int, y: int)
  {
    a * x + b * y == c && d * x + e * y == f
  }

  /** The body of solve_p1 and solve_p2 up to the cap.  Rust's `%` and `/` round toward zero
      while Dafny's are Euclidean, but `t % s != 0` holds in both exactly when `s` does not
      divide `t`, and both divide exactly once it does; a zero divisor panics in Rust. */
  function Cramer(a: int, b: int, c: int, d: int, e: int, f: int): (r: Solution)
    ensures r.DivByZero? <==> a * e - d * b == 0 || (a == 0 && (a * f - d * c) % (a * e - d * b) == 0)
  {
    var top := a * f - d * c;
    var bottom := a * e - d * b;
    if bottom == 0 then DivByZero
    else if top % bottom != 0 then NotIntegral
    else
      var y := top / bottom;
      var top2 := c - b * y;
      if a == 0 then DivByZero
      else if top2 % a != 0 then NotIntegral
      else Presses(top2 / a, y)
  }

  /** A positive multiple of `v` is at least `v`. */
  lemma MulGrows(w: nat, v: nat)
    ensures w == 0 || w * v >= v
  {
    if w > 0 {
      MulNonNegative(w - 1, v);
      assert w * v == (w - 1) * v + v;
    }
  }

  /** Exact division by a non-zero divisor, for either sign. */
  lemma ExactQuotient(q: int, d: int)
    requires d != 0
    ensures (q * d) % d == 0 && (q * d) / d == q
  {
    var x := q * d;
    var t := x / d;
    var r := x % d;
    assert x == t * d + r && 0 <= r < Abs(d);
    var u := q - t;
    assert u * d == r;
    var v := if d > 0 then d else -d;
    var w := if u >= 0 then u else -u;
    assert w * v == Abs(r);
    MulGrows(w, v);
  }

  /** Eliminating x: for a solution, a*f - d*c is y times the determinant a*e - d*b. */
  lemma EliminateX(a: int, b: int, c: int, d: int, e: int, f: int, x: int, y: int)
    requires Solves(a, b, c, d, e, f, x, y)
    ensures a * f - d * c == y * (a * e - d * b)
  {
    calc {
      a * f - d * c;
      a * (d * x + e * y) - d * (a * x + b * y);
      (a * (d * x) + a * (e * y)) - (d * (a * x) + d * (b * y));
      a * (e * y) - d * (b * y);
      y * (a * e - d * b);
    }
  }

  /** Back substitution: the first equation and the eliminated one give the second equation. */
  lemma BackSubstitute(a: int, b: int, c: int, d: int, e: int, f: int, x: int, y: int)
    requires a != 0
    requires a * x + b * y == c
    requires a * f - d * c == y * (a * e - d * b)
    ensures d * x + e * y == f
  {
    calc {
      a * (d * x + e * y);
      d * (a * x) + (a * e) * y;
      d * (c - b * y) + (a * e) * y;
      d * c + y * (a * e - d * b);
      a * f;
    }
    assert a * (d * x + e * y - f) == 0;
  }

  /** Soundness: press counts the rule returns solve both equations. */
  lemma CramerSound(a: int, b: int, c: int, d: int, e: int, f: int)
    requires Cramer(a, b, c, d, e, f).Presses?
    ensures var r := Cramer(a, b, c, d, e, f); Solves(a, b, c, d, e, f, r.x, r.y)
  {
    var top := a * f - d * c;
    var bottom := a * e - d * b;
    var y := top / bottom;
    assert top == y * bottom;
    var top2 := c - b * y;
    var x := top2 / a;
    assert top2 == a * x;
    BackSubstitute(a, b, c, d, e, f, x, y);
  }

  /** Completeness: when both divisors are non-zero, any integral solution is the one the rule
      returns (so it is also the only one). */
  lemma CramerComplete(a: int, b: int, c: int, d: int, e: int, f: int, x: int, y: int)
    requires a * e - d * b != 0 && a != 0
    requires Solves(a, b, c, d, e, f, x, y)
    ensures Cramer(a, b, c, d, e, f) == Presses(x, y)
  {
    EliminateX(a, b, c, d, e, f, x, y);
    ExactQuotient(y, a * e - d * b);
    assert c - b * y == x * a;
    ExactQuotient(x, a);
  }

  /** With non-zero divisors, two integral solutions of the same equations are equal. */
  lemma SolutionUnique(a: int, b: int, c: int, d: int, e: int, f: int, x: int, y: int, x': int, y': int)
    requires a * e - d * b != 0 && a != 0
    requires Solves(a, b, c, d, e, f, x, y) && Solves(a, b, c, d, e, f, x', y')
    ensures x == x' && y == y'
  {
    CramerComplete(a, b, c, d, e, f, x, y);
    CramerComplete(a, b, c, d, e, f, x', y');
  }

  // ---------------------------------------------------------------------------------------
  // solve_p1 and solve_p2

  /** What a machine's solver yields: a panic, no prize (None), or the tokens spent. */
  datatype Outcome = Panic | NoPrize | Tokens(n: int)

  /** The offset solve_p2 adds to both prize coordinates. */
  const Offset: int := 10000000000000

  /** Cramer's rule on a machine, with `shift` added to both prize coordinates. */
  function SolveShifted(m: Machine, shift: int): Solution
  {
    Cramer(m.deltaA.x, m.deltaB.x, m.prize.x + shift, m.deltaA.y, m.deltaB.y, m.prize.y + shift)
  }

  /** `x` presses of A and `y` presses of B bring the claw to the prize moved by `shift`. */
  predicate Wins(m: Machine, shift: int, x: int, y: int)
  {
    Solves(m.deltaA.x, m.deltaB.x, m.prize.x + shift, m.deltaA.y, m.deltaB.y, m.prize.y + shift, x, y)
  }

  /** The machine's equations have a unique solution: both divisors of the rule are non-zero. */
  predicate Regular(m: Machine)
  {
    m.deltaA.x * m.deltaB.y - m.deltaA.y * m.deltaB.x != 0 && m.deltaA.x != 0
  }

  /** solve_p1 as written: the solution when neither count exceeds 100, at 3 tokens per press
      of A and 1 per press of B.  Negative counts are not rejected. */
  function SolveP1(m: Machine): (r: Outcome)
    ensures r.Tokens? ==> exists x, y :: x <= 100 && y <= 100 && Wins(m, 0, x, y) && r.n == 3 * x + y
  {
    match SolveShifted(m, 0)
    case DivByZero => Panic
    case NotIntegral => NoPrize
    case Presses(x, y) =>
      CramerSound(m.deltaA.x, m.deltaB.x, m.prize.x, m.deltaA.y, m.deltaB.y, m.prize.y);
      assert Wins(m, 0, x, y);
      if x > 100 || y > 100 then NoPrize else Tokens(3 * x + y)
  }

  /** solve_p1 finds every solution with at most 100 presses of each button. */
  lemma SolveP1Complete(m: Machine, x: int, y: int)
    requires Regular(m) && x <= 100 && y <= 100 && Wins(m, 0, x, y)
    ensures SolveP1(m) == Tokens(3 * x + y)
  {
    CramerComplete(m.deltaA.x, m.deltaB.x, m.prize.x, m.deltaA.y, m.deltaB.y, m.prize.y, x, y);
  }

  /** solve_p1 as written pays out for a negative press count: A = (1, 2), B = (2, 1) and the
      prize at (1, 5) give 3 presses of A and -1 of B, 8 tokens, although no non-negative
      counts reach the prize. */
  lemma SolveP1NegativePresses()
    ensures SolveP1(Machine(Point(1, 2), Point(2, 1), Point(1, 5))) == Tokens(8)
    ensures forall x, y :: x >= 0 && y >= 0 ==> !Wins(Machine(Point(1, 2), Point(2, 1), Point(1, 5)), 0, x, y)
  {
  }

  /** solve_p1 with the evidently intended guard: press counts are between 0 and 100. */
  function SolveP1Checked(m: Machine): (r: Outcome)
    ensures r.Tokens? ==> 0 <= r.n <= 400
  {
    match SolveShifted(m, 0)
    case DivByZero => Panic
    case NotIntegral => NoPrize
    case Presses(x, y) => if x > 100 || y > 100 || x < 0 || y < 0 then NoPrize else Tokens(3 * x + y)
  }

  /** For a machine with a unique solution, the checked solver pays `t` tokens exactly when
      some counts between 0 and 100 win the prize at cost `t`. */
  lemma SolveP1CheckedMeaning(m: Machine, t: int)
    requires Regular(m)
    ensures SolveP1Checked(m) == Tokens(t) <==>
              exists x, y :: 0 <= x <= 100 && 0 <= y <= 100 && Wins(m, 0, x, y) && t == 3 * x + y
  {
    if SolveP1Checked(m) == Tokens(t) {
      CramerSound(m.deltaA.x, m.deltaB.x, m.prize.x, m.deltaA.y, m.deltaB.y, m.prize.y);
      var s := SolveShifted(m, 0);
      assert Wins(m, 0, s.x, s.y);
    }
    if exists x, y :: 0 <= x <= 100 && 0 <= y <= 100 && Wins(m, 0, x, y) && t == 3 * x + y {
      var x, y :| 0 <= x <= 100 && 0 <= y <= 100 && Wins(m, 0, x, y) && t == 3 * x + y;
      CramerComplete(m.deltaA.x, m.deltaB.x, m.prize.x, m.deltaA.y, m.deltaB.y, m.prize.y, x, y);
    }
  }

  /** The checked solver differs from solve_p1 only by refusing negative counts. */
  lemma SolveP1CheckedAgrees(m: Machine)
    ensures SolveP1Checked(m) != SolveP1(m) ==>
              SolveP1(m).Tokens? && SolveP1Checked(m) == NoPrize &&
              (SolveShifted(m, 0).x < 0 || SolveShifted(m, 0).y < 0)
  {
  }

  /** solve_p2 as written: the prize moved by 10000000000000 along both axes and no cap on the
      counts (which are again not checked for sign). */
  function SolveP2(m: Machine): (r: Outcome)
    ensures r.Tokens? ==> exists x, y :: Wins(m, Offset, x, y) && r.n == 3 * x + y
  {
    match SolveShifted(m, Offset)
    case DivByZero => Panic
    case NotIntegral => NoPrize
    case Presses(x, y) =>
      CramerSound(m.deltaA.x, m.deltaB.x, m.prize.x + Offset, m.deltaA.y, m.deltaB.y, m.prize.y + Offset);
      assert Wins(m, Offset, x, y);
      Tokens(3 * x + y)
  }

  /** solve_p2 finds every solution for the moved prize, however large. */
  lemma SolveP2Complete(m: Machine, x: int, y: int)
    requires Regular(m) && Wins(m, Offset, x, y)
    ensures SolveP2(m) == Tokens(3 * x + y)
  {
    CramerComplete(m.deltaA.x, m.deltaB.x, m.prize.x + Offset, m.deltaA.y, m.deltaB.y, m.prize.y + Offset, x, y);
  }

  /** solve_p2 as written also pays out for a negative press count: A = (1, 2), B = (2, 1) and
      the prize at (0, 10000000000003) give 10000000000002 presses of A and -1 of B, although
      no non-negative counts reach the moved prize. */
  lemma SolveP2NegativePresses()
    ensures SolveP2(Machine(Point(1, 2), Point(2, 1), Point(0, 10000000000003))) == Tokens(30000000000005)
    ensures forall x, y :: x >= 0 && y >= 0 ==> !Wins(Machine(Point(1, 2), Point(2, 1), Point(0, 10000000000003)), Offset, x, y)
  {
  }

  /** solve_p2 with the evidently intended guard: press counts are non-negative. */
  function SolveP2Checked(m: Machine): (r: Outcome)
    ensures r.Tokens? ==> r.n >= 0
  {
    match SolveShifted(m, Offset)
    case DivByZero => Panic
    case NotIntegral => NoPrize
    case Presses(x, y) => if x < 0 || y < 0 then NoPrize else Tokens(3 * x + y)
  }

  /** For a machine with a unique solution, the checked part-2 solver pays `t` tokens exactly
      when some non-negative counts win the moved prize at cost `t`. */
  lemma SolveP2CheckedMeaning(m: Machine, t: int)
    requires Regular(m)
    ensures SolveP2Checked(m) == Tokens(t) <==>
              exists x, y :: 0 <= x && 0 <= y && Wins(m, Offset, x, y) && t == 3 * x + y
  {
    if SolveP2Checked(m) == Tokens(t) {
      CramerSound(m.deltaA.x, m.deltaB.x, m.prize.x + Offset, m.deltaA.y, m.deltaB.y, m.prize.y + Offset);
      var s := SolveShifted(m, Offset);
      assert Wins(m, Offset, s.x, s.y);
    }
    if exists x, y :: 0 <= x && 0 <= y && Wins(m, Offset, x, y) && t == 3 * x + y {
      var x, y :| 0 <= x && 0 <= y && Wins(m, Offset, x, y) && t == 3 * x + y;
      CramerComplete(m.deltaA.x, m.deltaB.x, m.prize.x + Offset, m.deltaA.y, m.deltaB.y, m.prize.y + Offset, x, y);
    }
  }

  // ---------------------------------------------------------------------------------------
  // main

  /** `input.replace("\r\n", "\n")`: each CR LF pair, scanned left to right, becomes LF. */
  function CrlfToLf(s: string): (r: string)
    ensures |r| <= |s|
    ensures '\r' !in s ==> r == s
  {
    if |s| >= 2 && s[0] == '\r' && s[1] == '\n' then "\n" + CrlfToLf(s[2..])
    else if s == [] then []
    else [s[0]] + CrlfToLf(s[1..])
  }

  /** The machines of the input: its blocks between blank lines, those that parse. */
  function Machines(input: string): seq<Machine>
  {
    var blocks := SplitOn(CrlfToLf(input), "\n\n");
    Somes(seq(|blocks|, k requires 0 <= k < |blocks| => MachineOf(Lines(blocks[k]))))
  }

  /** `flatten` over options: the present values in order. */
  function Somes(os: seq<Option<Machine>>): (r: seq<Machine>)
    ensures |r| <= |os|
    ensures forall m :: m in r <==> Some(m) in os
  {
    if os == [] then []
    else if os[0].Some? then [os[0].value] + Somes(os[1..])
    else Somes(os[1..])
  }

  /** The sum of the tokens of the first `n` outcomes, None as soon as one of them panics
      (`flatten` drops the machines without a prize). */
  function Total(os: seq<Outcome>, n: nat): (r: Option<int>)
    requires n <= |os|
  {
    if n == 0 then Some(0)
    else match (Total(os, n - 1), os[n - 1])
      case (None, _) => None
      case (_, Panic) => None
      case (Some(t), NoPrize) => Some(t)
      case (Some(t), Tokens(k)) => Some(t + k)
  }

  /** The total panics exactly when some machine's solver does. */
  lemma {:induction false} TotalPanics(os: seq<Outcome>, n: nat)
    requires n <= |os|
    ensures Total(os, n).None? <==> exists k :: 0 <= k < n && os[k].Panic?
  {
    if n > 0 {
      TotalPanics(os, n - 1);
    }
  }

  /** Totals of outcomes with at most `cap` tokens each stay between 0 and `cap` per machine. */
  lemma {:induction false} TotalBounds(os: seq<Outcome>, n: nat, cap: nat)
    requires n <= |os|
    requires forall k :: 0 <= k < n && os[k].Tokens? ==> 0 <= os[k].n <= cap
    ensures Total(os, n).Some? ==> 0 <= Total(os, n).value <= cap * n
  {
    if n > 0 {
      TotalBounds(os, n - 1, cap);
    }
  }

  /** Totals of outcomes with at most `cap` tokens each stay at most `cap` per machine, whatever
      their sign. */
  lemma {:induction false} TotalAtMost(os: seq<Outcome>, n: nat, cap: nat)
    requires n <= |os|
    requires forall k :: 0 <= k < n && os[k].Tokens? ==> os[k].n <= cap
    ensures Total(os, n).Some? ==> Total(os, n).value <= cap * n
  {
    if n > 0 {
      TotalAtMost(os, n - 1, cap);
    }
  }

  /** Part 1 as main computes it: solve_p1, as written, on every machine. */
  function Part1Outcomes(ms: seq<Machine>): (r: seq<Outcome>)
    ensures |r| == |ms| && forall k :: 0 <= k < |ms| ==> r[k] == SolveP1(ms[k])
  {
    seq(|ms|, k requires 0 <= k < |ms| => SolveP1(ms[k]))
  }

  /** Part 2 as main computes it: solve_p2, as written, on every machine. */
  function Part2Outcomes(ms: seq<Machine>): (r: seq<Outcome>)
    ensures |r| == |ms| && forall k :: 0 <= k < |ms| ==> r[k] == SolveP2(ms[k])
  {
    seq(|ms|, k requires 0 <= k < |ms| => SolveP2(ms[k]))
  }

  /** main: the totals of both parts over the machines of the input, as the source computes
      them; a total is None exactly when a solver panics on a zero divisor.  Part 1 pays at
      most 400 per machine, since both counts are capped at 100, but it is not bounded below:
      a negative count is paid for (see `Part1Negative`). */
  function Answers(input: string): (r: (Option<int>, Option<int>))
    ensures r.0.None? <==> exists k :: 0 <= k < |Machines(input)| && SolveP1(Machines(input)[k]).Panic?
    ensures r.1.None? <==> exists k :: 0 <= k < |Machines(input)| && SolveP2(Machines(input)[k]).Panic?
    ensures r.0.Some? ==> r.0.value <= 400 * |Machines(input)|
  {
    var ms := Machines(input);
    var os1, os2 := Part1Outcomes(ms), Part2Outcomes(ms);
    TotalPanics(os1, |ms|);
    TotalPanics(os2, |ms|);
    TotalAtMost(os1, |ms|, 400);
    (Total(os1, |ms|), Total(os2, |ms|))
  }

  /** The as-written part 1 total of a single machine can be negative: A = (2, 1), B = (3, 3)
      and prize (1, 2) solve to x = -1, y = 1, which solve_p1 pays as -2 tokens. */
  lemma Part1Negative()
    ensures Total(Part1Outcomes([Machine(Point(2, 1), Point(3, 3), Point(1, 2))]), 1) == Some(-2)
  {
    var m := Machine(Point(2, 1), Point(3, 3), Point(1, 2));
    assert SolveP1(m) == Tokens(-2) by {
      assert SolveShifted(m, 0) == Presses(-1, 1);
    }
    TotalSingle(Part1Outcomes([m]));
  }

  /** The total of one machine that pays is that machine's tokens. */
  lemma TotalSingle(os: seq<Outcome>)
    requires |os| == 1 && os[0].Tokens?
    ensures Total(os, 1) == Some(os[0].n)
  {
    assert Total(os, 0) == Some(0);
  }

  /** The intended part 1: the checked solver on every machine. */
  function CheckedPart1Outcomes(ms: seq<Machine>): (r: seq<Outcome>)
    ensures |r| == |ms| && forall k :: 0 <= k < |ms| ==> r[k] == SolveP1Checked(ms[k])
  {
    seq(|ms|, k requires 0 <= k < |ms| => SolveP1Checked(ms[k]))
  }

  /** The intended part 2: the checked solver on every machine. */
  function CheckedPart2Outcomes(ms: seq<Machine>): (r: seq<Outcome>)
    ensures |r| == |ms| && forall k :: 0 <= k < |ms| ==> r[k] == SolveP2Checked(ms[k])
  {
    seq(|ms|, k requires 0 <= k < |ms| => SolveP2Checked(ms[k]))
  }

  /** With the checked solvers, the fewest tokens for all winnable prizes, between 0 and 400 per
      machine. */
  lemma Part1Bound(ms: seq<Machine>)
    ensures Total(CheckedPart1Outcomes(ms), |ms|).Some? ==>
              0 <= Total(CheckedPart1Outcomes(ms), |ms|).value <= 400 * |ms|
  {
    TotalBounds(CheckedPart1Outcomes(ms), |ms|, 400);
  }

  /** The evidently intended main: the totals of the checked solvers, which never pay for a
      negative count, so part 1 is between 0 and 400 per machine and part 2 is non-negative. */
  function CheckedAnswers(input: string): (r: (Option<int>, Option<int>))
    ensures r.0.None? <==> exists k :: 0 <= k < |Machines(input)| && SolveP1Checked(Machines(input)[k]).Panic?
    ensures r.1.None? <==> exists k :: 0 <= k < |Machines(input)| && SolveP2Checked(Machines(input)[k]).Panic?
    ensures r.0.Some? ==> 0 <= r.0.value <= 400 * |Machines(input)|
    ensures r.1.Some? ==> 0 <= r.1.value
  {
    var ms := Machines(input);
    var os1, os2 := CheckedPart1Outcomes(ms), CheckedPart2Outcomes(ms);
    TotalPanics(os1, |ms|);
    TotalPanics(os2, |ms|);
    TotalBounds(os1, |ms|, 400);
    TotalNonNegative(os2, |ms|);
    (Total(os1, |ms|), Total(os2, |ms|))
  }

  /** Totals of outcomes paying no negative amount are non-negative. */
  lemma {:induction false} TotalNonNegative(os: seq<Outcome>, n: nat)
    requires n <= |os|
    requires forall k :: 0 <= k < n && os[k].Tokens? ==> 0 <= os[k].n
    ensures Total(os, n).Some? ==> 0 <= Total(os, n).value
  {
    if n > 0 {
      TotalNonNegative(os, n - 1);
    }
  }

  /** On the machine of the first finding, main's part 1 adds 8 tokens while the checked solver
      adds none. */
  lemma FindingTotals()
    ensures Total(Part1Outcomes([Machine(Point(1, 2), Point(2, 1), Point(1, 5))]), 1) == Some(8)
    ensures Total(CheckedPart1Outcomes([Machine(Point(1, 2), Point(2, 1), Point(1, 5))]), 1) == Some(0)
  {
    var m := Machine(Point(1, 2), Point(2, 1), Point(1, 5));
    SolveP1NegativePresses();
    assert Part1Outcomes([m])[0] == Tokens(8);
    assert CheckedPart1Outcomes([m])[0] == NoPrize;
  }

  // ---------------------------------------------------------------------------------------
  // The puzzle's example

  const Example: seq<Machine> := [
    Machine(Point(94, 34), Point(22, 67), Point(8400, 5400)),
    Machine(Point(26, 66), Point(67, 21), Point(12748, 12176)),
    Machine(Point(17, 86), Point(84, 37), Point(7870, 6450)),
    Machine(Point(69, 23), Point(27, 71), Point(18641, 10279))
  ]

  /** solve_p1 on the example: 80 A and 40 B for the first machine, 38 A and 86 B for the
      third, no prize for the others. */
  lemma ExampleSolveP1()
    ensures SolveP1(Example[0]) == Tokens(280) && SolveP1(Example[1]) == NoPrize
    ensures SolveP1(Example[2]) == Tokens(200) && SolveP1(Example[3]) == NoPrize
  {
  }

  /** Part 1 of the example: 480 tokens in all. */
  lemma ExamplePart1()
    ensures Total(Part1Outcomes(Example), 4) == Some(480)
  {
    var os := Part1Outcomes(Example);
    assert os[0] == Tokens(280) && os[1] == NoPrize && os[2] == Tokens(200) && os[3] == NoPrize;
    assert Total(os, 1) == Some(280);
    assert Total(os, 2) == Some(280);
    assert Total(os, 3) == Some(480);
  }

  /** solve_p2 on the example: only the second and fourth machines win. */
  lemma ExampleSolveP2()
    ensures SolveP2(Example[0]) == NoPrize && SolveP2(Example[1]) == Tokens(459236326669)
    ensures SolveP2(Example[2]) == NoPrize && SolveP2(Example[3]) == Tokens(416082282239)
  {
  }

  /** Part 2 of the example: 875318608908 tokens in all. */
  lemma ExamplePart2()
    ensures Total(Part2Outcomes(Example), 4) == Some(875318608908)
  {
    var os := Part2Outcomes(Example);
    assert os[0] == NoPrize && os[1] == Tokens(459236326669);
    assert os[2] == NoPrize && os[3] == Tokens(416082282239);
    assert Total(os, 1) == Some(0);
    assert Total(os, 2) == Some(459236326669);
    assert Total(os, 3) == Some(459236326669);
  }
}
