/** Day 3: a corrupted program.  A tokenizer scans the text for "mul(a,b)" with one to three
    digits in each number, "do()" and "don't()"; part 1 sums every product, part 2 only the
    products seen while enabled.  The text is taken to be ASCII, so a byte index is a character
    index. */
module Day03 {
  import opened Common

  datatype Command = Mult(a: nat, b: nat) | Do | Dont

  const MulText: string := "mul("
  const DoText: string := "do()"
  const DontText: string := "don't()"

  /** `data[index..].starts_with(word)`. */
  predicate StartsAt(data: string, index: nat, word: string)
  {
    index + |word| <= |data| && data[index..index + |word|] == word
  }

  /** What extract_char does: a number and the index after its terminator, no number (index
      unchanged), or a panic of `chars().nth(..).unwrap()` past the end of the text. */
  datatype Extracted = ExPanic | ExNone | ExGot(value: nat, next: nat)

  /** extract_char from offset `i` of the candidate number at `index`: up to four characters are
      read; digits are skipped over, and the terminator after one to three digits ends the
      number. */
  function ExtractFrom(data: string, index: nat, end: char, i: nat): (r: Extracted)
    requires i <= 4 && forall k :: index <= k < index + i && k < |data| ==> IsDigit(data[k])
    decreases 4 - i
  {
    if i == 4 then ExNone
    else if index + i >= |data| then ExPanic
    else if IsDigit(data[index + i]) then ExtractFrom(data, index, end, i + 1)
    else if data[index + i] == end && i > 0 then ExGot(DigitsValue(data[index..index + i]), index + i + 1)
    else ExNone
  }

  /** extract_char at `index`. */
  function Extract(data: string, index: nat, end: char): Extracted
  {
    ExtractFrom(data, index, end, 0)
  }

  /** A number extracted is one to three digits followed by the terminator; it is what
      `parse::<i64>` makes of those digits, below 1000; and the index moves past the
      terminator. */
  lemma {:induction false} ExtractGot(data: string, index: nat, end: char, i: nat)
    requires i <= 4 && forall k :: index <= k < index + i && k < |data| ==> IsDigit(data[k])
    requires ExtractFrom(data, index, end, i).ExGot?
    ensures var r := ExtractFrom(data, index, end, i);
      index + 2 <= r.next <= index + 4 && r.next <= |data| && data[r.next - 1] == end &&
      AllDigits(data[index..r.next - 1]) &&
      ParseIn(data[index..r.next - 1], I64Min, I64Max) == Some(r.value) && r.value < 1000
    decreases 4 - i
  {
    if IsDigit(data[index + i]) {
      ExtractGot(data, index, end, i + 1);
    } else {
      DigitsValueBelow(data[index..index + i]);
      assert Pow(10, i) <= 1000 by {
        assert Pow(10, 1) == 10 && Pow(10, 2) == 100 && Pow(10, 3) == 1000;
      }
    }
  }

  /** What next does: a panic, the end of the commands, or a command and the index after it. */
  datatype Stepped = Panicked | Finished | Yield(cmd: Command, next: nat)

  /** The "mul(" branch of next: a panic, a multiplication and the index after it, or no
      multiplication and the index where extraction left the scan. */
  datatype MulOutcome = MulPanic | MulFound(a: nat, b: nat, next: nat) | MulMissed(resume: nat)

  /** The "mul(" branch at `index`: the two numbers are extracted in turn, with no rollback when
      one is missing. */
  function MulAt(data: string, index: nat): MulOutcome
  {
    var i1 := index + |MulText|;
    var a := Extract(data, i1, ',');
    if a.ExPanic? then MulPanic
    else
      var i2 := if a.ExGot? then a.next else i1;
      var b := Extract(data, i2, ')');
      if b.ExPanic? then MulPanic
      else
        var i3 := if b.ExGot? then b.next else i2;
        if a.ExGot? && b.ExGot? then MulFound(a.value, b.value, i3)
        else MulMissed(i3)
  }

  /** The "mul(" branch ends past the "mul(" and within the text, with factors below 1000. */
  lemma MulAtAdvances(data: string, index: nat)
    requires StartsAt(data, index, MulText)
    ensures MulAt(data, index).MulFound? ==>
      index + |MulText| < MulAt(data, index).next <= |data| &&
      MulAt(data, index).a < 1000 && MulAt(data, index).b < 1000
    ensures MulAt(data, index).MulMissed? ==> index + |MulText| <= MulAt(data, index).resume <= |data|
  {
    var i1 := index + |MulText|;
    var a := Extract(data, i1, ',');
    if a.ExGot? {
      ExtractGot(data, i1, ',', 0);
    }
    if !a.ExPanic? {
      var i2 := if a.ExGot? then a.next else i1;
      var b := Extract(data, i2, ')');
      if b.ExGot? {
        ExtractGot(data, i2, ')', 0);
      }
    }
  }

  /** next from `index`: "mul(" is tried first (when it yields no multiplication the scan moves
      one past wherever extraction left it), then "do()", then "don't()"; anything else is
      skipped one character at a time. */
  function NextFrom(data: string, index: nat): (r: Stepped)
    decreases |data| - index
  {
    if index >= |data| then Finished
    else if StartsAt(data, index, MulText) then
      MulAtAdvances(data, index);
      match MulAt(data, index)
      case MulPanic => Panicked
      case MulFound(a, b, next) => Yield(Mult(a, b), next)
      case MulMissed(resume) => NextFrom(data, resume + 1)
    else if StartsAt(data, index, DoText) then Yield(Do, index + |DoText|)
    else if StartsAt(data, index, DontText) then Yield(Dont, index + |DontText|)
    else NextFrom(data, index + 1)
  }

  /** A command moves the index forward, within the text; a multiplication has factors below
      1000. */
  lemma {:induction false} NextAdvances(data: string, index: nat)
    ensures NextFrom(data, index).Yield? ==>
      index < NextFrom(data, index).next <= |data| &&
      (NextFrom(data, index).cmd.Mult? ==> NextFrom(data, index).cmd.a < 1000 && NextFrom(data, index).cmd.b < 1000)
    decreases |data| - index
  {
    if index < |data| {
      if StartsAt(data, index, MulText) {
        MulAtAdvances(data, index);
        if MulAt(data, index).MulMissed? {
          NextAdvances(data, MulAt(data, index).resume + 1);
        }
      } else if !StartsAt(data, index, DoText) && !StartsAt(data, index, DontText) {
        NextAdvances(data, index + 1);
      }
    }
  }

  /** A command is found only where its text starts: "do()" gives Do four characters on,
      "don't()" gives Dont seven characters on. */
  lemma DoDontAt(data: string, index: nat)
    requires index < |data| && !StartsAt(data, index, MulText)
    ensures StartsAt(data, index, DoText) ==> NextFrom(data, index) == Yield(Do, index + 4)
    ensures !StartsAt(data, index, DoText) && StartsAt(data, index, DontText) ==>
      NextFrom(data, index) == Yield(Dont, index + 7)
  {
  }

  /** The commands from `index` to the end of the text, or None where next panics. */
  function Commands(data: string, index: nat): Option<seq<Command>>
    decreases |data| - index
  {
    NextAdvances(data, index);
    match NextFrom(data, index)
    case Panicked => None
    case Finished => Some([])
    case Yield(cmd, next) =>
      match Commands(data, next)
      case None => None
      case Some(rest) => Some([cmd] + rest)
  }

  /** The tokenizer: the text and the scan position. */
  class Tokenizer {
    var data: string
    var index: nat

    constructor (data: string)
      ensures this.data == data && index == 0
    {
      this.data := data;
      index := 0;
    }

    /** extract_char: the number at the scan position up to `end`, moving the position past the
        terminator when a number is found. */
    method ExtractChar(end: char) returns (r: Extracted)
      modifies this
      ensures data == old(data)
      ensures r == Extract(data, old(index), end)
      ensures index == if r.ExGot? then r.next else old(index)
    {
      for i := 0 to 4
        invariant forall k :: index <= k < index + i && k < |data| ==> IsDigit(data[k])
        invariant Extract(data, index, end) == ExtractFrom(data, index, end, i)
      {
        if index + i >= |data| {
          return ExPanic;
        }
        var chr := data[index + i];
        if IsDigit(chr) {
        } else if chr == end {
          if i > 0 {
            r := ExGot(DigitsValue(data[index..index + i]), index + i + 1);
            index := index + i + 1;
            return;
          }
          return ExNone;
        } else {
          return ExNone;
        }
      }
      r := ExNone;
    }

    /** The "mul(" branch of next: the scan moved past "mul(" and the numbers extracted. */
    method TryMul() returns (r: MulOutcome)
      requires StartsAt(data, index, MulText)
      modifies this
      ensures data == old(data)
      ensures r == MulAt(data, old(index))
      ensures r.MulFound? ==> index == r.next
      ensures r.MulMissed? ==> index == r.resume
    {
      index := index + |MulText|;
      var a := ExtractChar(',');
      if a.ExPanic? {
        return MulPanic;
      }
      var b := ExtractChar(')');
      if b.ExPanic? {
        return MulPanic;
      }
      if a.ExGot? && b.ExGot? {
        return MulFound(a.value, b.value, b.next);
      }
      r := MulMissed(index);
    }

    /** next: the next command and the scan position after it. */
    method Next() returns (r: Stepped)
      modifies this
      ensures data == old(data)
      ensures r == NextFrom(data, old(index))
      ensures r.Yield? ==> index == r.next
      ensures r.Finished? ==> index >= |data|
    {
      while index < |data|
        invariant data == old(data)
        invariant NextFrom(data, old(index)) == NextFrom(data, index)
        decreases |data| - index
      {
        if StartsAt(data, index, MulText) {
          MulAtAdvances(data, index);
          var m := TryMul();
          match m
          case MulPanic =>
            return Panicked;
          case MulFound(a, b, next) =>
            return Yield(Mult(a, b), next);
          case MulMissed(_) =>
        } else if StartsAt(data, index, DoText) {
          index := index + |DoText|;
          return Yield(Do, index);
        } else if StartsAt(data, index, DontText) {
          index := index + |DontText|;
          return Yield(Dont, index);
        }
        index := index + 1;
      }
      r := Finished;
    }
  }

  /** The product a command contributes: a * b for a multiplication, nothing otherwise. */
  function Product(c: Command): nat
  {
    match c
    case Mult(a, b) => a * b
    case _ => 0
  }

  /** Whether products count after these commands: enabled at the start, then as the last
      "do()" or "don't()" says. */
  function Active(cmds: seq<Command>): bool
  {
    if cmds == [] then true
    else match cmds[|cmds| - 1]
      case Do => true
      case Dont => false
      case Mult(_, _) => Active(cmds[..|cmds| - 1])
  }

  /** Part 1: every product. */
  function Sum1(cmds: seq<Command>): int
  {
    if cmds == [] then 0 else Sum1(cmds[..|cmds| - 1]) + Product(cmds[|cmds| - 1])
  }

  /** Part 2: the products of the multiplications met while enabled. */
  function Sum2(cmds: seq<Command>): int
  {
    if cmds == [] then 0
    else Sum2(cmds[..|cmds| - 1]) + (if Active(cmds[..|cmds| - 1]) then Product(cmds[|cmds| - 1]) else 0)
  }

  /** Products are never negative, so the enabled ones sum to at most all of them. */
  lemma {:induction false} Sum2AtMostSum1(cmds: seq<Command>)
    ensures 0 <= Sum2(cmds) <= Sum1(cmds)
  {
    if cmds != [] {
      Sum2AtMostSum1(cmds[..|cmds| - 1]);
    }
  }

  /** Without a "don't()" every product counts: part 2 equals part 1. */
  lemma {:induction false} Sum2WithoutDont(cmds: seq<Command>)
    requires Dont !in cmds
    ensures Active(cmds) && Sum2(cmds) == Sum1(cmds)
  {
    if cmds != [] {
      var front := cmds[..|cmds| - 1];
      assert Dont !in front by {
        assert forall k :: 0 <= k < |front| ==> front[k] == cmds[k];
      }
      Sum2WithoutDont(front);
    }
  }

  /** The commands already taken, ahead of those still to come. */
  function Prepend(seen: seq<Command>, rest: Option<seq<Command>>): (r: Option<seq<Command>>)
    ensures r.Some? <==> rest.Some?
    ensures r.Some? ==> r.value == seen + rest.value
  {
    match rest
    case None => None
    case Some(cmds) => Some(seen + cmds)
  }

  /** Taking commands one after another. */
  lemma PrependTwice(seen: seq<Command>, cmd: Command, rest: Option<seq<Command>>)
    ensures Prepend(seen, Prepend([cmd], rest)) == Prepend(seen + [cmd], rest)
  {
    if rest.Some? {
      assert seen + ([cmd] + rest.value) == (seen + [cmd]) + rest.value;
    }
  }

  /** main: the tokenizer driven to its end, summing the products, all of them and those while
      enabled; None where next panics. */
  method Answers(input: string) returns (r: Option<(int, int)>)
    ensures r.None? <==> Commands(input, 0).None?
    ensures r.Some? ==> r.value.0 == Sum1(Commands(input, 0).value) &&
                        r.value.1 == Sum2(Commands(input, 0).value) &&
                        0 <= r.value.1 <= r.value.0
  {
    var tokenizer := new Tokenizer(input);
    var sum1, sum2, isActive := 0, 0, true;
    ghost var seen: seq<Command> := [];
    assert Commands(input, 0) == Prepend(seen, Commands(input, 0)) by {
      if Commands(input, 0).Some? {
        assert [] + Commands(input, 0).value == Commands(input, 0).value;
      }
    }
    while true
      invariant tokenizer.data == input && tokenizer.index <= |input|
      invariant Commands(input, 0) == Prepend(seen, Commands(input, tokenizer.index))
      invariant sum1 == Sum1(seen) && sum2 == Sum2(seen) && isActive == Active(seen)
      decreases |input| - tokenizer.index
    {
      ghost var before := tokenizer.index;
      var t := tokenizer.Next();
      NextAdvances(input, before);
      match t
      case Panicked =>
        return None;
      case Finished =>
        assert seen + [] == seen;
        Sum2AtMostSum1(seen);
        return Some((sum1, sum2));
      case Yield(cmd, next) =>
        assert Commands(input, before) == Prepend([cmd], Commands(input, next));
        PrependTwice(seen, cmd, Commands(input, next));
        assert (seen + [cmd])[..|seen|] == seen;
        seen := seen + [cmd];
        match cmd
        case Mult(a, b) =>
          sum1 := sum1 + a * b;
          if isActive {
            sum2 := sum2 + a * b;
          }
        case Do =>
          isActive := true;
        case Dont =>
          isActive := false;
    }
  }

  /** "mul(2,4)" is a multiplication; in "mul(12)" the first number lacks its comma, yet the
      second extraction still consumes "12)": there is no rollback. */
  lemma Example()
    ensures MulAt("mul(2,4)", 0) == MulFound(2, 4, 8)
    ensures MulAt("mul(12)", 0) == MulMissed(7)
    ensures MulAt("mul(1", 0) == MulPanic
  {
    assert Extract("mul(2,4)", 4, ',') == ExGot(2, 6) by {
      assert "mul(2,4)"[4..5] == "2";
    }
    assert Extract("mul(2,4)", 6, ')') == ExGot(4, 8) by {
      assert "mul(2,4)"[6..7] == "4";
    }
    assert Extract("mul(12)", 4, ',') == ExNone;
    assert Extract("mul(12)", 4, ')') == ExGot(12, 7) by {
      assert "mul(12)"[4..6] == "12";
    }
  }
}
