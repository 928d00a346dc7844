/** Day 24: a circuit of AND, OR and XOR gates.  Input wires get levels first; then the gates
    are swept over again and again, each firing once both its inputs are known, until every
    wire whose name starts with 'z' has a level.  The z wires, z00 first, are the bits of the
    answer. */
module Day24 {
  import opened Common

  // ---------------------------------------------------------------------------------------
  // OPERATIONS: two's-complement bitwise operators on unbounded integers

  datatype Op = And | Or | Xor

  /** The operator on one bit. */
  predicate Bit(op: Op, x: bool, y: bool)
  {
    match op
    case And => x && y
    case Or => x || y
    case Xor => x != y
  }

  /** The operator applied bit by bit from the least significant bit, in two's complement: a
      value whose remaining bits are all 0 or all 1 (0 or -1) ends the recursion. */
  function Bitwise(op: Op, a: int, b: int): int
    decreases Abs(a) + Abs(b)
  {
    if (a == 0 || a == -1) && (b == 0 || b == -1) then (if Bit(op, a == -1, b == -1) then -1 else 0)
    else 2 * Bitwise(op, a / 2, b / 2) + (if Bit(op, a % 2 == 1, b % 2 == 1) then 1 else 0)
  }

  /** Bitwise is bitwise: the lowest bit of the result is the operator on the lowest bits,
      and the remaining bits are the operator on the remaining bits. */
  lemma BitwiseBits(op: Op, a: int, b: int)
    ensures (Bitwise(op, a, b) % 2 == 1) == Bit(op, a % 2 == 1, b % 2 == 1)
    ensures Bitwise(op, a, b) / 2 == Bitwise(op, a / 2, b / 2)
  {
  }

  /** On levels 0 and 1 the operators are the logical ones. */
  lemma BitwiseOnBits(op: Op, a: int, b: int)
    requires (a == 0 || a == 1) && (b == 0 || b == 1)
    ensures Bitwise(op, a, b) == if Bit(op, a == 1, b == 1) then 1 else 0
  {
    if a == 1 || b == 1 {
      assert Bitwise(op, a / 2, b / 2) == 0;
    }
  }

  /** OR with a multiple of 2^k of a value below 2^k adds the two (the bits do not overlap). */
  lemma {:induction false} OrHigh(a: int, k: nat, b: int)
    requires 0 <= a < Pow(2, k) && (b == 0 || b == 1)
    ensures Bitwise(Or, a, b * Pow(2, k)) == a + b * Pow(2, k)
  {
    if k == 0 {
      assert a == 0;
      if b == 1 {
        assert Bitwise(Or, 0, 1) == 2 * Bitwise(Or, 0, 0) + 1;
      }
    } else {
      var h := b * Pow(2, k);
      assert h == 2 * (b * Pow(2, k - 1));
      assert h / 2 == b * Pow(2, k - 1) && h % 2 == 0;
      OrHigh(a / 2, k - 1, b);
      if !((a == 0 || a == -1) && (h == 0 || h == -1)) {
        assert Bitwise(Or, a, h) == 2 * Bitwise(Or, a / 2, h / 2) + a % 2;
      }
    }
  }

  /** OPERATIONS: the operator table by name. */
  function OpOf(name: string): (r: Option<Op>)
    ensures r.Some? <==> name in {"AND", "OR", "XOR"}
  {
    if name == "AND" then Some(And)
    else if name == "OR" then Some(Or)
    else if name == "XOR" then Some(Xor)
    else None
  }

  // ---------------------------------------------------------------------------------------
  // Gates and the circuit

  /** A gate: its two input wires, its output wire, its operator, and whether it has fired. */
  datatype Gate = Gate(a: string, b: string, out: string, op: Op, done: bool)

  /** A wire whose name starts with 'z' is an output. */
  predicate IsOutput(wire: string)
  {
    |wire| > 0 && wire[0] == 'z'
  }

  /** The whole state of Day24. */
  datatype Circuit = Circuit(gates: seq<Gate>, levels: map<string, int>, outputs: map<string, Option<int>>)

  /** Some registered output still has no level (the condition of part1's `while`). */
  predicate Pending(outputs: map<string, Option<int>>)
  {
    exists w :: w in outputs && outputs[w].None?
  }

  /** Gate `i` is visited: an undone gate whose inputs both have levels fires, writing its
      result to its output wire and, for a z wire, to the outputs; otherwise nothing changes. */
  function Fire(c: Circuit, i: nat): (r: Circuit)
    requires i < |c.gates|
    ensures |r.gates| == |c.gates|
  {
    var g := c.gates[i];
    if !g.done && g.a in c.levels && g.b in c.levels then
      var result := Bitwise(g.op, c.levels[g.a], c.levels[g.b]);
      Circuit(c.gates[i := g.(done := true)], c.levels[g.out := result],
              if IsOutput(g.out) then c.outputs[g.out := Some(result)] else c.outputs)
    else c
  }

  /** Gate `i` can fire: it has not fired and both inputs have levels. */
  predicate Ready(c: Circuit, i: nat)
    requires i < |c.gates|
  {
    !c.gates[i].done && c.gates[i].a in c.levels && c.gates[i].b in c.levels
  }

  /** What firing does: a gate fires only when ready, only once, and then its output wire
      holds the operator applied to the input levels; z wires are mirrored into the outputs.
      Nothing else changes. */
  lemma FireMeaning(c: Circuit, i: nat)
    requires i < |c.gates|
    ensures !Ready(c, i) ==> Fire(c, i) == c
    ensures Ready(c, i) ==> var g := c.gates[i]; var r := Fire(c, i);
              var v := Bitwise(g.op, c.levels[g.a], c.levels[g.b]);
              && r.gates == c.gates[i := g.(done := true)]
              && r.levels == c.levels[g.out := v]
              && (IsOutput(g.out) ==> r.outputs == c.outputs[g.out := Some(v)])
              && (!IsOutput(g.out) ==> r.outputs == c.outputs)
  {
  }

  /** The sweep of part1's `for` loop over the first `n` gates, in order. */
  function Sweep(c: Circuit, n: nat): (r: Circuit)
    requires n <= |c.gates|
    ensures |r.gates| == |c.gates|
  {
    if n == 0 then c else Fire(Sweep(c, n - 1), n - 1)
  }

  /** The `while` loop of part1: sweep all gates until no registered output is missing;
      None when `fuel` sweeps were not enough. */
  function Propagate(c: Circuit, fuel: nat): Option<Circuit>
    decreases fuel
  {
    if !Pending(c.outputs) then Some(c)
    else if fuel == 0 then None
    else Propagate(Sweep(c, |c.gates|), fuel - 1)
  }

  /** Propagation ends only when every registered output has a level. */
  lemma {:induction false} PropagateDone(c: Circuit, fuel: nat)
    requires Propagate(c, fuel).Some?
    ensures !Pending(Propagate(c, fuel).value.outputs)
    decreases fuel
  {
    if Pending(c.outputs) {
      PropagateDone(Sweep(c, |c.gates|), fuel - 1);
    }
  }

  /** More fuel never changes a finished propagation. */
  lemma {:induction false} PropagateMoreFuel(c: Circuit, fuel: nat, more: nat)
    requires Propagate(c, fuel).Some? && fuel <= more
    ensures Propagate(c, more) == Propagate(c, fuel)
    decreases fuel
  {
    if Pending(c.outputs) {
      PropagateMoreFuel(Sweep(c, |c.gates|), fuel - 1, more - 1);
    }
  }

  // ---------------------------------------------------------------------------------------
  // How much fuel is enough

  /** The number of gates among the first `n` that have not fired. */
  function Undone(gates: seq<Gate>, n: nat): (r: nat)
    requires n <= |gates|
    ensures r <= n
  {
    if n == 0 then 0 else Undone(gates, n - 1) + (if gates[n - 1].done then 0 else 1)
  }

  /** Marking an undone gate as done takes one off the count of any prefix holding it. */
  lemma {:induction false} UndoneMark(gates: seq<Gate>, i: nat, n: nat)
    requires i < n <= |gates| && !gates[i].done
    ensures Undone(gates[i := gates[i].(done := true)], n) == Undone(gates, n) - 1
  {
    var marked := gates[i := gates[i].(done := true)];
    if n - 1 > i {
      UndoneMark(gates, i, n - 1);
    } else {
      UndoneSame(gates, marked, n - 1);
    }
  }

  /** Two gate lists with the same done flags below `n` count the same. */
  lemma {:induction false} UndoneSame(gates: seq<Gate>, other: seq<Gate>, n: nat)
    requires n <= |gates| && n <= |other|
    requires forall k :: 0 <= k < n ==> gates[k].done == other[k].done
    ensures Undone(gates, n) == Undone(other, n)
  {
    if n > 0 {
      UndoneSame(gates, other, n - 1);
    }
  }

  /** A visit fires a gate (one fewer undone) or changes nothing. */
  lemma FireCount(c: Circuit, i: nat)
    requires i < |c.gates|
    ensures Fire(c, i) == c || Undone(Fire(c, i).gates, |c.gates|) == Undone(c.gates, |c.gates|) - 1
  {
    if Ready(c, i) {
      UndoneMark(c.gates, i, |c.gates|);
    }
  }

  /** A sweep fires some gates or changes nothing at all. */
  lemma {:induction false} SweepCount(c: Circuit, n: nat)
    requires n <= |c.gates|
    ensures Undone(Sweep(c, n).gates, |c.gates|) <= Undone(c.gates, |c.gates|)
    ensures Undone(Sweep(c, n).gates, |c.gates|) == Undone(c.gates, |c.gates|) ==> Sweep(c, n) == c
  {
    if n > 0 {
      SweepCount(c, n - 1);
      FireCount(Sweep(c, n - 1), n - 1);
    }
  }

  /** A sweep that fires nothing while an output is missing repeats forever: no amount of
      fuel finishes (the source does not terminate). */
  lemma {:induction false} Stuck(c: Circuit, fuel: nat)
    requires Pending(c.outputs) && Sweep(c, |c.gates|) == c
    ensures Propagate(c, fuel).None?
  {
    if fuel > 0 {
      Stuck(c, fuel - 1);
    }
  }

  /** One sweep more than there are undone gates is always enough: if that much fuel runs out,
      the source's loop never ends. */
  lemma {:induction false} FuelSuffices(c: Circuit, fuel: nat, more: nat)
    requires fuel > Undone(c.gates, |c.gates|)
    requires Propagate(c, fuel).None?
    ensures Propagate(c, more).None?
    decreases fuel
  {
    var next := Sweep(c, |c.gates|);
    SweepCount(c, |c.gates|);
    if next == c {
      Stuck(c, more);
    } else if more > 0 {
      FuelSuffices(next, fuel - 1, more - 1);
    }
  }

  // ---------------------------------------------------------------------------------------
  // Reading the answer off the z wires

  /** `format!("z{:02}", i)`. */
  function ZName(i: nat): (r: string)
    ensures |r| >= 3 && r[0] == 'z' && AllDigits(r[1..])
  {
    "z" + (if i < 10 then "0" else "") + NatToString(i)
  }

  /** The digits of ZName(i) read back as i, so different indices name different wires. */
  lemma ZNameValue(i: nat)
    ensures DigitsValue(ZName(i)[1..]) == i
  {
    NatToStringValue(i);
    if i < 10 {
      var d := ZName(i)[1..];
      assert d == "0" + NatToString(i) && |d| == 2;
      assert d[..1] == "0";
    } else {
      assert ZName(i)[1..] == NatToString(i);
    }
  }

  /** The names z00 .. of the first `n` output bits. */
  function ZNames(n: nat): set<string>
  {
    if n == 0 then {} else ZNames(n - 1) + {ZName(n - 1)}
  }

  /** There are `n` of them. */
  lemma {:induction false} ZNamesCount(n: nat)
    ensures |ZNames(n)| == n
    ensures forall w :: w in ZNames(n) ==> exists k :: 0 <= k < n && w == ZName(k)
  {
    if n > 0 {
      ZNamesCount(n - 1);
      if ZName(n - 1) in ZNames(n - 1) {
        var k :| 0 <= k < n - 1 && ZName(n - 1) == ZName(k);
        ZNameValue(k);
        ZNameValue(n - 1);
      }
    }
  }

  /** Output bit `k` has a level. */
  predicate Present(outputs: map<string, Option<int>>, k: nat)
  {
    ZName(k) in outputs && outputs[ZName(k)].Some?
  }

  /** Bits 0 .. n - 1 all have levels. */
  predicate PresentBelow(outputs: map<string, Option<int>>, n: nat)
  {
    forall k :: 0 <= k < n ==> Present(outputs, k)
  }

  /** With bits 0 .. n - 1 present, at least n outputs are registered. */
  lemma PresentBound(outputs: map<string, Option<int>>, n: nat)
    requires PresentBelow(outputs, n)
    ensures n <= |outputs.Keys|
  {
    ZNamesCount(n);
    forall w | w in ZNames(n)
      ensures w in outputs.Keys
    {
      var k :| 0 <= k < n && w == ZName(k);
      assert Present(outputs, k);
    }
    SubsetCount(ZNames(n), outputs.Keys);
  }

  /** A subset is no larger than its superset. */
  lemma {:induction false} SubsetCount(a: set<string>, b: set<string>)
    requires a <= b
    ensures |a| <= |b|
    decreases |a|
  {
    if a != {} {
      var x :| x in a;
      SubsetCount(a - {x}, b - {x});
    }
  }

  /** The first output bit from `i` on that has no level: where part1's `for i in 0..` loop
      breaks. */
  function Width(outputs: map<string, Option<int>>, i: nat): (r: nat)
    requires PresentBelow(outputs, i)
    ensures r >= i && PresentBelow(outputs, r) && !Present(outputs, r)
    decreases |outputs.Keys| - i
  {
    PresentBound(outputs, i);
    if Present(outputs, i) then
      PresentBound(outputs, i + 1);
      Width(outputs, i + 1)
    else i
  }

  /** The level of output bit `k`. */
  function Level(outputs: map<string, Option<int>>, k: nat): int
    requires Present(outputs, k)
  {
    outputs[ZName(k)].value
  }

  /** `ret |= level << i` for i = 0 .. n - 1. */
  function Assembled(outputs: map<string, Option<int>>, n: nat): int
    requires PresentBelow(outputs, n)
  {
    if n == 0 then 0 else Bitwise(Or, Assembled(outputs, n - 1), Level(outputs, n - 1) * Pow(2, n - 1))
  }

  /** The binary number whose bit k is the level of z_k. */
  function Binary(outputs: map<string, Option<int>>, n: nat): int
    requires PresentBelow(outputs, n)
  {
    if n == 0 then 0 else Binary(outputs, n - 1) + Level(outputs, n - 1) * Pow(2, n - 1)
  }

  /** When every level is 0 or 1, the assembled answer is the binary number of the z wires,
      z00 the least significant bit. */
  lemma {:induction false} AssembledBinary(outputs: map<string, Option<int>>, n: nat)
    requires PresentBelow(outputs, n)
    requires forall k :: 0 <= k < n ==> Level(outputs, k) == 0 || Level(outputs, k) == 1
    ensures Assembled(outputs, n) == Binary(outputs, n)
    ensures 0 <= Binary(outputs, n) < Pow(2, n)
  {
    if n > 0 {
      AssembledBinary(outputs, n - 1);
      var low, bit, p := Binary(outputs, n - 1), Level(outputs, n - 1), Pow(2, n - 1);
      OrHigh(low, n - 1, bit);
      BitPlace(low, bit, p);
    }
  }

  /** Adding bit * p to a value below p stays below 2 * p. */
  lemma BitPlace(low: int, bit: int, p: int)
    requires 0 <= low < p && (bit == 0 || bit == 1)
    ensures 0 <= low + bit * p < 2 * p
  {
  }

  /** part1's answer for a finished circuit. */
  function Answer(c: Circuit): int
  {
    Assembled(c.outputs, Width(c.outputs, 0))
  }

  // ---------------------------------------------------------------------------------------
  // Parsing

  /** One line read both ways: as a level line "name: value" and as a gate line
      "a OP b -> out"; None where reading it that way panics. */
  datatype Parsed = Parsed(empty: bool, level: Option<(string, int)>, gate: Option<Gate>)

  /** A level line: split on ':', the second piece trimmed and parsed as an i32. */
  function LevelOf(line: string): Option<(string, int)>
  {
    var parts := Split(line, ':');
    if |parts| < 2 then None
    else match ParseIn(Trim(parts[1]), I32Min, I32Max)
      case Some(v) => Some((parts[0], v))
      case None => None
  }

  /** A gate line: split on ' ', a known operator second, "->" fourth, the output fifth. */
  function GateOf(line: string): (r: Option<Gate>)
    ensures r.Some? ==> !r.value.done
  {
    var parts := Split(line, ' ');
    if |parts| < 5 || parts[3] != "->" then None
    else match OpOf(parts[1])
      case Some(op) => Some(Gate(parts[0], parts[2], parts[4], op, false))
      case None => None
  }

  /** A line read both ways. */
  function ParseLine(line: string): (p: Parsed)
    ensures p.empty <==> line == []
  {
    Parsed(line == [], LevelOf(line), GateOf(line))
  }

  /** The lines read both ways. */
  function ParsedLines(lines: seq<string>): (r: seq<Parsed>)
    ensures |r| == |lines| && forall k :: 0 <= k < |lines| ==> r[k] == ParseLine(lines[k])
  {
    seq(|lines|, k requires 0 <= k < |lines| => ParseLine(lines[k]))
  }

  /** What parse has built so far, and whether it is still reading levels. */
  datatype Reader = Reader(readingLevels: bool, circuit: Circuit)

  /** One line of parse: while reading levels an empty line ends them and other lines set a
      level; afterwards each line adds a gate, registering a z output as missing. */
  function ReadLine(rd: Reader, p: Parsed): Option<Reader>
  {
    var c := rd.circuit;
    if rd.readingLevels then
      if p.empty then Some(rd.(readingLevels := false))
      else match p.level
        case None => None
        case Some((key, value)) => Some(rd.(circuit := c.(levels := c.levels[key := value])))
    else match p.gate
      case None => None
      case Some(g) =>
        Some(rd.(circuit := Circuit(c.gates + [g], c.levels,
                                    if IsOutput(g.out) then c.outputs[g.out := None] else c.outputs)))
  }

  /** The first `n` lines read. */
  function ReadLines(ps: seq<Parsed>, n: nat): Option<Reader>
    requires n <= |ps|
  {
    if n == 0 then Some(Reader(true, Circuit([], map[], map[])))
    else match ReadLines(ps, n - 1)
      case None => None
      case Some(rd) => ReadLine(rd, ps[n - 1])
  }

  /** After parsing, no gate has fired, no output has a level yet, and the registered outputs
      are exactly the z wires some gate drives. */
  ghost predicate Fresh(c: Circuit)
  {
    (forall k :: 0 <= k < |c.gates| ==> !c.gates[k].done) &&
    (forall w :: w in c.outputs ==> c.outputs[w].None?) &&
    (forall w :: w in c.outputs <==> IsOutput(w) && exists k :: 0 <= k < |c.gates| && c.gates[k].out == w)
  }

  /** Parsing leaves a fresh circuit. */
  lemma {:induction false} ReadLinesFresh(ps: seq<Parsed>, n: nat)
    requires n <= |ps| && ReadLines(ps, n).Some?
    requires forall k :: 0 <= k < n && ps[k].gate.Some? ==> !ps[k].gate.value.done
    ensures Fresh(ReadLines(ps, n).value.circuit)
  {
    if n > 0 {
      ReadLinesFresh(ps, n - 1);
      var c := ReadLines(ps, n - 1).value.circuit;
      var r := ReadLines(ps, n).value.circuit;
      if r.gates != c.gates {
        var g := ps[n - 1].gate.value;
        assert r.gates == c.gates + [g];
        forall w
          ensures w in r.outputs <==> IsOutput(w) && exists k :: 0 <= k < |r.gates| && r.gates[k].out == w
        {
          if w in r.outputs && w != g.out {
            assert w in c.outputs;
            var k :| 0 <= k < |c.gates| && c.gates[k].out == w;
            assert r.gates[k].out == w;
          }
          if IsOutput(w) && w == g.out {
            assert r.gates[|c.gates|].out == w;
          }
          if IsOutput(w) && (exists k :: 0 <= k < |r.gates| && r.gates[k].out == w) && w != g.out {
            var k :| 0 <= k < |r.gates| && r.gates[k].out == w;
            assert k < |c.gates| && c.gates[k].out == w;
          }
        }
      } else {
        assert r.outputs == c.outputs;
      }
    }
  }

  /** Day24::parse leaves a fresh circuit. */
  lemma ParseFresh(input: string)
    requires ReadLines(ParsedLines(Lines(input)), |Lines(input)|).Some?
    ensures Fresh(ReadLines(ParsedLines(Lines(input)), |Lines(input)|).value.circuit)
  {
    ReadLinesFresh(ParsedLines(Lines(input)), |Lines(input)|);
  }

  // ---------------------------------------------------------------------------------------
  // Day24 as a class

  class Day24 {
    var gates: seq<Gate>
    var levels: map<string, int>
    var outputs: map<string, Option<int>>

    /** The fields as one value. */
    function State(): Circuit
      reads this
    {
      Circuit(gates, levels, outputs)
    }

    constructor (c: Circuit)
      ensures State() == c
    {
      gates := c.gates;
      levels := c.levels;
      outputs := c.outputs;
    }

    /** The body of part1's `for gate in self.gates.iter_mut()` for gate `i`. */
    method Visit(i: nat)
      requires i < |gates|
      modifies this
      ensures State() == Fire(old(State()), i)
    {
      var gate := gates[i];
      if !gate.done {
        if gate.a in levels && gate.b in levels {
          var result := Bitwise(gate.op, levels[gate.a], levels[gate.b]);
          gates := gates[i := gate.(done := true)];
          levels := levels[gate.out := result];
          if IsOutput(gate.out) {
            outputs := outputs[gate.out := Some(result)];
          }
        }
      }
    }

    /** One sweep over all gates. */
    method SweepAll()
      modifies this
      ensures State() == Sweep(old(State()), |old(gates)|)
    {
      ghost var start := State();
      for i := 0 to |gates|
        invariant |gates| == |start.gates|
        invariant State() == Sweep(start, i)
      {
        Visit(i);
      }
    }

    /** part1's `while` loop, with at most `fuel` sweeps: true when every registered output
        has a level, false when the fuel ran out first. */
    method Run(fuel: nat) returns (finished: bool)
      modifies this
      ensures finished ==> Propagate(old(State()), fuel) == Some(State())
      ensures !finished ==> Propagate(old(State()), fuel).None?
    {
      var left := fuel;
      while exists w | w in outputs :: outputs[w].None?
        invariant Propagate(old(State()), fuel) == Propagate(State(), left)
        decreases left
      {
        if left == 0 {
          return false;
        }
        SweepAll();
        left := left - 1;
      }
      return true;
    }

    /** The bit assembly of part1: z00, z01, ... while present, each ORed in at its place. */
    method Assemble() returns (r: int)
      ensures r == Answer(State())
    {
      r := 0;
      var i := 0;
      while ZName(i) in outputs && outputs[ZName(i)].Some?
        invariant PresentBelow(outputs, i)
        invariant Width(outputs, 0) == Width(outputs, i)
        invariant r == Assembled(outputs, i)
        decreases |outputs.Keys| - i
      {
        PresentBound(outputs, i + 1);
        var level := outputs[ZName(i)].value;
        r := Bitwise(Or, r, level * Pow(2, i));
        i := i + 1;
      }
    }

    /** part1: propagate, then assemble; None when `fuel` sweeps do not finish. */
    method Part1(fuel: nat) returns (r: Option<int>)
      modifies this
      ensures var p := Propagate(old(State()), fuel);
              (r.Some? <==> p.Some?) && (r.Some? ==> r.value == Answer(p.value))
    {
      var finished := Run(fuel);
      if !finished {
        return None;
      }
      var value := Assemble();
      return Some(value);
    }
  }

  /** Day24::parse: None where a line panics. */
  method Parse(input: string) returns (r: Option<Day24>)
    ensures var rd := ReadLines(ParsedLines(Lines(input)), |Lines(input)|);
            (r.Some? <==> rd.Some?) && (r.Some? ==> fresh(r.value) && r.value.State() == rd.value.circuit)
  {
    var lines := Lines(input);
    var rd := ReadAll(ParsedLines(lines));
    if rd.None? {
      return None;
    }
    var day := new Day24(rd.value.circuit);
    return Some(day);
  }

  /** The loop of parse over the lines. */
  method ReadAll(ps: seq<Parsed>) returns (r: Option<Reader>)
    ensures r == ReadLines(ps, |ps|)
  {
    var rd := Reader(true, Circuit([], map[], map[]));
    for i := 0 to |ps|
      invariant ReadLines(ps, i) == Some(rd)
    {
      var next := ReadStep(rd, ps, i);
      if next.None? {
        ReadLinesNone(ps, i + 1, |ps|);
        return None;
      }
      rd := next.value;
    }
    return Some(rd);
  }

  /** One iteration of parse's loop. */
  method ReadStep(rd: Reader, ps: seq<Parsed>, i: nat) returns (next: Option<Reader>)
    requires i < |ps| && ReadLines(ps, i) == Some(rd)
    ensures next == ReadLines(ps, i + 1)
  {
    next := ReadLine(rd, ps[i]);
  }

  /** Once a line panics, parsing panics. */
  lemma {:induction false} ReadLinesNone(ps: seq<Parsed>, a: nat, b: nat)
    requires a <= b <= |ps| && ReadLines(ps, a).None?
    ensures ReadLines(ps, b).None?
    decreases b - a
  {
    if a < b {
      ReadLinesNone(ps, a + 1, b);
    }
  }

  // ---------------------------------------------------------------------------------------
  // The example of the source's test

  /** The circuit of the test's input, written out by hand. */
  const ExampleCircuit := Circuit(
    [Gate("x00", "y00", "z00", And, false), Gate("x01", "y01", "z01", Xor, false),
     Gate("x02", "y02", "z02", Or, false)],
    map["x00" := 1, "x01" := 1, "x02" := 1, "y00" := 0, "y01" := 1, "y02" := 0],
    map["z00" := None, "z01" := None, "z02" := None])

  /** The circuit after one sweep: every gate has fired. */
  const ExampleDone := Circuit(
    [Gate("x00", "y00", "z00", And, true), Gate("x01", "y01", "z01", Xor, true),
     Gate("x02", "y02", "z02", Or, true)],
    map["x00" := 1, "x01" := 1, "x02" := 1, "y00" := 0, "y01" := 1, "y02" := 0,
        "z00" := 0, "z01" := 0, "z02" := 1],
    map["z00" := Some(0), "z01" := Some(0), "z02" := Some(1)])

  /** The circuit after the first gate fires: z00 = 1 AND 0. */
  const ExampleAfter1 := Circuit(
    ExampleCircuit.gates[0 := ExampleCircuit.gates[0].(done := true)],
    ExampleCircuit.levels["z00" := 0], ExampleCircuit.outputs["z00" := Some(0)])

  /** The circuit after the second gate fires: z01 = 1 XOR 1. */
  const ExampleAfter2 := Circuit(
    ExampleAfter1.gates[1 := ExampleAfter1.gates[1].(done := true)],
    ExampleAfter1.levels["z01" := 0], ExampleAfter1.outputs["z01" := Some(0)])

  /** The AND gate fires first. */
  lemma ExampleFire0()
    ensures Fire(ExampleCircuit, 0) == ExampleAfter1
  {
    BitwiseOnBits(And, 1, 0);
  }

  /** Then the XOR gate. */
  lemma ExampleFire1()
    ensures Fire(ExampleAfter1, 1) == ExampleAfter2
  {
    BitwiseOnBits(Xor, 1, 1);
  }

  /** Then the OR gate, and all three have fired. */
  lemma ExampleFire2()
    ensures Fire(ExampleAfter2, 2) == ExampleDone
  {
    BitwiseOnBits(Or, 1, 0);
    var c := Fire(ExampleAfter2, 2);
    assert c.gates == ExampleDone.gates;
    assert c.levels == ExampleDone.levels;
    assert c.outputs == ExampleDone.outputs;
  }

  /** The first sweep fires all three gates. */
  lemma ExampleSweep()
    ensures Sweep(ExampleCircuit, 3) == ExampleDone
  {
    ExampleFire0();
    ExampleFire1();
    ExampleFire2();
  }

  /** One sweep finishes the propagation. */
  lemma ExamplePropagate()
    ensures Propagate(ExampleCircuit, 1) == Some(ExampleDone)
  {
    assert ExampleCircuit.outputs["z00"].None?;
    ExampleSweep();
  }

  /** The names of the first four output bits. */
  lemma ExampleNames()
    ensures ZName(0) == "z00" && ZName(1) == "z01" && ZName(2) == "z02" && ZName(3) == "z03"
  {
  }

  /** Bits z00 .. z02 are present and z03 is not. */
  lemma ExampleWidth()
    ensures PresentBelow(ExampleDone.outputs, 3)
    ensures Width(ExampleDone.outputs, 0) == 3
    ensures Level(ExampleDone.outputs, 0) == 0 && Level(ExampleDone.outputs, 1) == 0
    ensures Level(ExampleDone.outputs, 2) == 1
  {
    ExampleNames();
    var o := ExampleDone.outputs;
    assert Width(o, 3) == 3;
  }

  /** The z wires read 0, 0, 1: part1 answers 4, as the test expects. */
  lemma ExampleAnswer()
    ensures Answer(ExampleDone) == 4
  {
    var o := ExampleDone.outputs;
    ExampleWidth();
    AssembledBinary(o, 3);
    assert Binary(o, 1) == 0;
    assert Binary(o, 2) == 0;
    assert Pow(2, 2) == 4;
  }
}
