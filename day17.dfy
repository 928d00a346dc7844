/** Day 17: a three-bit computer with registers A, B and C, an instruction pointer and an
    output list.  The machine is a class whose instruction methods update its fields; each
    instruction and the run loop are proved against the state functions `Exec` and `Run`. */
module Day17 {
  import opened Common

  /** The registers, the instruction pointer and the output, as one value. */
  datatype Regs = Regs(a: int, b: int, c: int, ip: nat, out: seq<int>)

  /** How a run ends: the pointer left the program, an instruction panicked, or the step
      budget ran out before either. */
  datatype Status = Halted | Panicked | OutOfFuel

  /** The result of one instruction: the next state, or a panic. */
  datatype Outcome = Next(next: Regs) | Fault

  /** `value as usize` for an `i32` operand on a 64-bit target. */
  function AsUsize(v: int): (r: nat)
    requires I32Min <= v <= I32Max
    ensures v >= 0 ==> r == v
    ensures v < 0 ==> r >= 0x1_0000_0000_0000_0000 - 0x8000_0000
  {
    if v >= 0 then v else v + 0x1_0000_0000_0000_0000
  }

  /** The combo operand: 0..3 stand for themselves, 4..6 for A, B and C; anything else panics. */
  function Combo(r: Regs, v: int): (x: Option<int>)
    ensures x.Some? <==> 0 <= v <= 6
    ensures 0 <= v <= 3 ==> x == Some(v)
    ensures v == 4 ==> x == Some(r.a)
    ensures v == 5 ==> x == Some(r.b)
    ensures v == 6 ==> x == Some(r.c)
  {
    if 0 <= v <= 3 then Some(v)
    else if v == 4 then Some(r.a)
    else if v == 5 then Some(r.b)
    else if v == 6 then Some(r.c)
    else None
  }

  /** `A / 2^combo`, the shared part of adv, bdv and cdv.  A negative exponent has no
      unbounded meaning and is treated as a panic. */
  function Shifted(r: Regs, v: int): Option<int>
  {
    match Combo(r, v)
    case Some(k) => if k >= 0 then PowPositive(2, k); Some(TruncDiv(r.a, Pow(2, k))) else None
    case None => None
  }

  /** One instruction: opcode `op` with operand `v`, from state `r`. */
  function Exec(r: Regs, op: int, v: int): Outcome
    requires I32Min <= v <= I32Max
  {
    if op == 0 then
      (match Shifted(r, v) case Some(q) => Next(r.(a := q, ip := r.ip + 2)) case None => Fault)
    else if op == 1 then Next(r.(b := IntXor(r.b, v), ip := r.ip + 2))
    else if op == 2 then
      (match Combo(r, v) case Some(x) => Next(r.(b := x % 8, ip := r.ip + 2)) case None => Fault)
    else if op == 3 then
      (if r.a == 0 then Next(r.(ip := r.ip + 2)) else Next(r.(ip := AsUsize(v))))
    else if op == 4 then Next(r.(b := IntXor(r.b, r.c), ip := r.ip + 2))
    else if op == 5 then
      (match Combo(r, v) case Some(x) => Next(r.(out := r.out + [x % 8], ip := r.ip + 2)) case None => Fault)
    else if op == 6 then
      (match Shifted(r, v) case Some(q) => Next(r.(b := q, ip := r.ip + 2)) case None => Fault)
    else if op == 7 then
      (match Shifted(r, v) case Some(q) => Next(r.(c := q, ip := r.ip + 2)) case None => Fault)
    else Fault
  }

  /** Every value of a program is an `i32`. */
  predicate IsProgram(program: seq<int>)
  {
    forall i :: 0 <= i < |program| ==> I32Min <= program[i] <= I32Max
  }

  /** Every output value is a three-bit number. */
  predicate Octal(out: seq<int>)
  {
    forall i :: 0 <= i < |out| ==> 0 <= out[i] < 8
  }

  /** At most `fuel` instructions of `program` from `r`; the status and the final state. */
  function Run(r: Regs, program: seq<int>, fuel: nat): (res: (Status, Regs))
    requires IsProgram(program)
    ensures res.0 == Halted <==> res.1.ip >= |program|
    ensures r.out <= res.1.out
    ensures Octal(r.out) ==> Octal(res.1.out)
    decreases fuel
  {
    if r.ip >= |program| then (Halted, r)
    else if fuel == 0 then (OutOfFuel, r)
    else if r.ip + 1 >= |program| then (Panicked, r)
    else
      match Exec(r, program[r.ip], program[r.ip + 1])
      case Next(r') =>
        ExecOutput(r, program[r.ip], program[r.ip + 1]);
        Run(r', program, fuel - 1)
      case Fault => (Panicked, r)
  }

  // ---------------------------------------------------------------------------
  // What each instruction promises

  /** Only `out` appends, and only one value in 0..7. */
  lemma ExecOutput(r: Regs, op: int, v: int)
    requires I32Min <= v <= I32Max
    requires Exec(r, op, v).Next?
    ensures op != 5 ==> Exec(r, op, v).next.out == r.out
    ensures op == 5 ==> exists x :: 0 <= x < 8 && Exec(r, op, v).next.out == r.out + [x]
  {
    if op == 5 {
      var x := Combo(r, v).value % 8;
      assert Exec(r, op, v).next.out == r.out + [x];
    }
  }

  /** Every instruction but jnz moves the pointer by two; jnz jumps to its operand unless A is 0. */
  lemma ExecPointer(r: Regs, op: int, v: int)
    requires I32Min <= v <= I32Max
    requires Exec(r, op, v).Next?
    ensures 0 <= op <= 7
    ensures op != 3 || r.a == 0 ==> Exec(r, op, v).next.ip == r.ip + 2
    ensures op == 3 && r.a != 0 && v >= 0 ==> Exec(r, op, v).next.ip == v
  {
  }

  /** Each instruction writes at most one register, the one its opcode names. */
  lemma ExecRegisters(r: Regs, op: int, v: int)
    requires I32Min <= v <= I32Max
    requires Exec(r, op, v).Next?
    ensures op != 0 ==> Exec(r, op, v).next.a == r.a
    ensures op !in {1, 2, 4, 6} ==> Exec(r, op, v).next.b == r.b
    ensures op != 7 ==> Exec(r, op, v).next.c == r.c
    ensures op == 2 ==> 0 <= Exec(r, op, v).next.b < 8
  {
  }

  /** The divisions halve A `combo` times, rounding toward zero; a non-negative A stays
      non-negative and never grows. */
  lemma ShiftedShrinks(r: Regs, v: int)
    requires r.a >= 0 && Shifted(r, v).Some?
    ensures 0 <= Shifted(r, v).value <= r.a
  {
    var d := Pow(2, Combo(r, v).value);
    PowPositive(2, Combo(r, v).value);
    DivAtMost(r.a, d);
  }

  lemma DivAtMost(x: nat, d: int)
    requires d > 0
    ensures 0 <= x / d <= x
  {
    var q := x / d;
    assert q * d + x % d == x;
    if q > x {
      MulAtLeast(q, d);
    }
  }

  lemma {:induction false} MulAtLeast(q: int, d: int)
    requires q >= 0 && d >= 1
    ensures q * d >= q
    decreases d
  {
    if d > 1 {
      MulAtLeast(q, d - 1);
      assert q * d == q * (d - 1) + q;
    }
  }

  /** Halting is final: once a run halts, more fuel changes nothing. */
  lemma {:induction false} RunMoreFuel(r: Regs, program: seq<int>, fuel: nat, more: nat)
    requires IsProgram(program)
    requires Run(r, program, fuel).0 != OutOfFuel
    requires fuel <= more
    ensures Run(r, program, more) == Run(r, program, fuel)
    decreases fuel
  {
    if r.ip < |program| && fuel > 0 && r.ip + 1 < |program| {
      match Exec(r, program[r.ip], program[r.ip + 1])
      case Next(r') => RunMoreFuel(r', program, fuel - 1, more - 1);
      case Fault =>
    }
  }

  // ---------------------------------------------------------------------------
  // The machine

  class Machine {
    var a: int
    var b: int
    var c: int
    var ip: nat
    var program: seq<int>
    var out: seq<int>

    /** The registers, pointer and output as one value. */
    function State(): (r: Regs)
      reads this
      ensures r.ip == ip && r.out == out
    {
      Regs(a, b, c, ip, out)
    }

    constructor (a: int, b: int, c: int, program: seq<int>)
      ensures State() == Regs(a, b, c, 0, []) && this.program == program
    {
      this.a, this.b, this.c := a, b, c;
      ip := 0;
      this.program := program;
      out := [];
    }

    /** adv: A := A / 2^combo. */
    method Adv(value: int) returns (ok: bool)
      requires I32Min <= value <= I32Max
      modifies this
      ensures program == old(program)
      ensures ok == Exec(old(State()), 0, value).Next?
      ensures ok ==> State() == Exec(old(State()), 0, value).next
      ensures !ok ==> State() == old(State())
    {
      var q := Shifted(State(), value);
      ok := q.Some?;
      if ok {
        ip := ip + 2;
        a := q.value;
      }
    }

    /** bxl: B := B xor literal. */
    method Bxl(value: int)
      requires I32Min <= value <= I32Max
      modifies this
      ensures program == old(program)
      ensures Exec(old(State()), 1, value) == Next(State())
    {
      ip := ip + 2;
      b := IntXor(b, value);
    }

    /** bst: B := combo mod 8. */
    method Bst(value: int) returns (ok: bool)
      requires I32Min <= value <= I32Max
      modifies this
      ensures program == old(program)
      ensures ok == Exec(old(State()), 2, value).Next?
      ensures ok ==> State() == Exec(old(State()), 2, value).next
      ensures !ok ==> State() == old(State())
    {
      var x := Combo(State(), value);
      ok := x.Some?;
      if ok {
        ip := ip + 2;
        b := x.value % 8;
      }
    }

    /** jnz: jump to the literal unless A is 0. */
    method Jnz(value: int)
      requires I32Min <= value <= I32Max
      modifies this
      ensures program == old(program)
      ensures Exec(old(State()), 3, value) == Next(State())
    {
      if a == 0 {
        ip := ip + 2;
      } else {
        ip := AsUsize(value);
      }
    }

    /** bxc: B := B xor C; the operand is ignored. */
    method Bxc(value: int)
      requires I32Min <= value <= I32Max
      modifies this
      ensures program == old(program)
      ensures Exec(old(State()), 4, value) == Next(State())
    {
      ip := ip + 2;
      b := IntXor(b, c);
    }

    /** out: append combo mod 8. */
    method Out(value: int) returns (ok: bool)
      requires I32Min <= value <= I32Max
      modifies this
      ensures program == old(program)
      ensures ok == Exec(old(State()), 5, value).Next?
      ensures ok ==> State() == Exec(old(State()), 5, value).next
      ensures !ok ==> State() == old(State())
    {
      var x := Combo(State(), value);
      ok := x.Some?;
      if ok {
        ip := ip + 2;
        out := out + [x.value % 8];
      }
    }

    /** bdv: B := A / 2^combo. */
    method Bdv(value: int) returns (ok: bool)
      requires I32Min <= value <= I32Max
      modifies this
      ensures program == old(program)
      ensures ok == Exec(old(State()), 6, value).Next?
      ensures ok ==> State() == Exec(old(State()), 6, value).next
      ensures !ok ==> State() == old(State())
    {
      var q := Shifted(State(), value);
      ok := q.Some?;
      if ok {
        ip := ip + 2;
        b := q.value;
      }
    }

    /** cdv: C := A / 2^combo. */
    method Cdv(value: int) returns (ok: bool)
      requires I32Min <= value <= I32Max
      modifies this
      ensures program == old(program)
      ensures ok == Exec(old(State()), 7, value).Next?
      ensures ok ==> State() == Exec(old(State()), 7, value).next
      ensures !ok ==> State() == old(State())
    {
      var q := Shifted(State(), value);
      ok := q.Some?;
      if ok {
        ip := ip + 2;
        c := q.value;
      }
    }

    /** Runs until the pointer leaves the program, an instruction panics, or `fuel`
        instructions have run. */
    method RunProgram(fuel: nat) returns (status: Status)
      requires IsProgram(program)
      modifies this
      ensures program == old(program)
      ensures (status, State()) == Run(old(State()), program, fuel)
    {
      var steps := fuel;
      while ip < |program|
        invariant program == old(program)
        invariant Run(State(), program, steps) == Run(old(State()), program, fuel)
        decreases steps
      {
        if steps == 0 {
          return OutOfFuel;
        }
        if ip + 1 >= |program| {
          return Panicked;
        }
        var value := program[ip + 1];
        var op := program[ip];
        var ok := true;
        if op == 0 {
          ok := Adv(value);
        } else if op == 1 {
          Bxl(value);
        } else if op == 2 {
          ok := Bst(value);
        } else if op == 3 {
          Jnz(value);
        } else if op == 4 {
          Bxc(value);
        } else if op == 5 {
          ok := Out(value);
        } else if op == 6 {
          ok := Bdv(value);
        } else if op == 7 {
          ok := Cdv(value);
        } else {
          ok := false;
        }
        if !ok {
          return Panicked;
        }
        steps := steps - 1;
      }
      return Halted;
    }

    /** Part two's reset: clear the output, set A, zero B and C, rewind the pointer. */
    method Reset(i: int)
      modifies this
      ensures program == old(program)
      ensures State() == Regs(i, 0, 0, 0, [])
    {
      out := [];
      a := i;
      b := 0;
      c := 0;
      ip := 0;
    }
  }

  // ---------------------------------------------------------------------------
  // Parsing

  /** The registers and program collected so far from the input's lines. */
  datatype Input = Input(a: Option<int>, b: Option<int>, c: Option<int>, program: seq<int>)

  /** The values of a comma-separated list that parse as `i32`; the others are dropped. */
  function ProgramValues(parts: seq<string>): (r: seq<int>)
    ensures IsProgram(r)
    ensures |r| <= |parts|
  {
    if parts == [] then []
    else
      var rest := ProgramValues(parts[1..]);
      match ParseIn(parts[0], I32Min, I32Max)
      case Some(v) => [v] + rest
      case None => rest
  }

  /** One line: "Register X: v" sets (or, if v does not parse, clears) register X;
      "Program: ..." appends its values; any other line is ignored. */
  function ParseLine(acc: Input, line: string): (r: Input)
    requires IsProgram(acc.program)
    ensures IsProgram(r.program)
    ensures acc.program <= r.program
  {
    var parts := SplitOn(line, ": ");
    if |parts| != 2 then acc
    else if parts[0] == "Register A" then acc.(a := ParseIn(parts[1], I64Min, I64Max))
    else if parts[0] == "Register B" then acc.(b := ParseIn(parts[1], I64Min, I64Max))
    else if parts[0] == "Register C" then acc.(c := ParseIn(parts[1], I64Min, I64Max))
    else if parts[0] == "Program" then acc.(program := acc.program + ProgramValues(Split(parts[1], ',')))
    else acc
  }

  /** The first `n` lines folded into an Input. */
  function ParseUpTo(lines: seq<string>, n: nat): (r: Input)
    requires n <= |lines|
    ensures IsProgram(r.program)
  {
    if n == 0 then Input(None, None, None, []) else ParseLine(ParseUpTo(lines, n - 1), lines[n - 1])
  }

  /** Machine::parse: a machine exactly when all three registers were read. */
  method Parse(input: string) returns (m: Option<Machine>)
    ensures var r := ParseUpTo(Lines(input), |Lines(input)|);
      && (m.Some? <==> r.a.Some? && r.b.Some? && r.c.Some?)
      && (m.Some? ==> fresh(m.value) && m.value.State() == Regs(r.a.value, r.b.value, r.c.value, 0, [])
                      && m.value.program == r.program)
  {
    var lines := Lines(input);
    var acc := Input(None, None, None, []);
    for i := 0 to |lines|
      invariant acc == ParseUpTo(lines, i)
    {
      acc := ParseLine(acc, lines[i]);
    }
    if acc.a.Some? && acc.b.Some? && acc.c.Some? {
      var machine := new Machine(acc.a.value, acc.b.value, acc.c.value, acc.program);
      return Some(machine);
    }
    return None;
  }

  // ---------------------------------------------------------------------------
  // Part two: searching for the A that makes the program print itself

  /** The search's possible endings: a value of A was found, a run did not halt (it
      panicked or ran out of fuel), or the budget of tries ran out. */
  datatype Search = Found(i: int) | Stopped(status: Status) | Exhausted

  /** `s.ends_with(t)`. */
  predicate EndsWith(s: seq<int>, t: seq<int>)
  {
    |t| <= |s| && s[|s| - |t|..] == t
  }

  /** main's part-two loop: run from A = i; stop if the output is the program; if the output
      is a suffix of the program, shift i left by three bits, otherwise add one.  Each run gets
      `fuel` instructions and the search tries at most `tries` values of i. */
  method FindSelf(m: Machine, fuel: nat, tries: nat) returns (result: Search)
    requires IsProgram(m.program)
    modifies m
    ensures m.program == old(m.program)
    ensures result.Found? ==> var res := Run(Regs(result.i, 0, 0, 0, []), m.program, fuel);
      res.0 == Halted && res.1.out == m.program
    ensures result.Stopped? ==> result.status != Halted
  {
    var i := 0;
    var left := tries;
    while left > 0
      invariant m.program == old(m.program)
      decreases left
    {
      left := left - 1;
      m.Reset(i);
      var status := m.RunProgram(fuel);
      if status != Halted {
        return Stopped(status);
      }
      if m.out == m.program {
        return Found(i);
      }
      if EndsWith(m.program, m.out) {
        i := i * 8;
      } else {
        i := i + 1;
      }
    }
    return Exhausted;
  }

  // ---------------------------------------------------------------------------
  // The examples: programs of the shape `adv k; out A; jnz 0`

  /** `program` is `adv k; out A; jnz 0`. */
  predicate IsLoop(program: seq<int>, k: int)
  {
    |program| == 6 && program[0] == 0 && program[1] == k && program[2] == 5 && program[3] == 4
    && program[4] == 3 && program[5] == 0
  }

  /** One pass of `adv k; out A; jnz 0` that leaves A non-zero: A is divided by 2^k, its low
      three bits are printed and the program jumps back to the start. */
  lemma LoopPass(program: seq<int>, k: int, a: int, out: seq<int>, a': int, out': seq<int>, fuel: nat)
    requires k in {1, 3} && IsLoop(program, k)
    requires a >= 0 && a' == a / (if k == 1 then 2 else 8) && a' != 0 && out' == out + [a' % 8]
    ensures Run(Regs(a, 0, 0, 0, out), program, fuel + 3) == Run(Regs(a', 0, 0, 0, out'), program, fuel)
  {
    var s1 := Regs(a', 0, 0, 2, out);
    var s2 := Regs(a', 0, 0, 4, out');
    assert Pow(2, 1) == 2 && Pow(2, 3) == 8;
    assert Exec(Regs(a, 0, 0, 0, out), 0, k) == Next(s1);
    assert Run(Regs(a, 0, 0, 0, out), program, fuel + 3) == Run(s1, program, fuel + 2);
    assert Exec(s1, 5, 4) == Next(s2);
    assert Run(s1, program, fuel + 2) == Run(s2, program, fuel + 1);
    assert Exec(s2, 3, 0) == Next(s2.(ip := 0));
  }

  /** The last pass: A drops to 0, 0 is printed and jnz falls through past the end. */
  lemma LastPass(program: seq<int>, k: int, a: int, out: seq<int>, out': seq<int>)
    requires k in {1, 3} && IsLoop(program, k)
    requires 0 <= a < (if k == 1 then 2 else 8) && out' == out + [0]
    ensures Run(Regs(a, 0, 0, 0, out), program, 3) == (Halted, Regs(0, 0, 0, 6, out'))
  {
    assert Pow(2, 1) == 2 && Pow(2, 3) == 8;
    var s1 := Regs(0, 0, 0, 2, out);
    var s2 := Regs(0, 0, 0, 4, out');
    assert Exec(Regs(a, 0, 0, 0, out), 0, k) == Next(s1);
    assert Run(Regs(a, 0, 0, 0, out), program, 3) == Run(s1, program, 2);
    assert Exec(s1, 5, 4) == Next(s2);
    assert Run(s1, program, 2) == Run(s2, program, 1);
    assert Exec(s2, 3, 0) == Next(s2.(ip := 6));
  }

  lemma FirstExampleA(program: seq<int>)
    requires IsLoop(program, 1)
    ensures Run(Regs(729, 0, 0, 0, []), program, 30) == Run(Regs(91, 0, 0, 0, [4, 6, 3]), program, 21)
  {
    assert [4] == [] + [364 % 8];
    assert [4, 6] == [4] + [182 % 8];
    assert [4, 6, 3] == [4, 6] + [91 % 8];
    LoopPass(program, 1, 729, [], 364, [4], 27);
    LoopPass(program, 1, 364, [4], 182, [4, 6], 24);
    LoopPass(program, 1, 182, [4, 6], 91, [4, 6, 3], 21);
  }

  lemma FirstExampleB(program: seq<int>)
    requires IsLoop(program, 1)
    ensures Run(Regs(91, 0, 0, 0, [4, 6, 3]), program, 21) == Run(Regs(11, 0, 0, 0, [4, 6, 3, 5, 6, 3]), program, 12)
  {
    assert [4, 6, 3, 5] == [4, 6, 3] + [45 % 8];
    assert [4, 6, 3, 5, 6] == [4, 6, 3, 5] + [22 % 8];
    assert [4, 6, 3, 5, 6, 3] == [4, 6, 3, 5, 6] + [11 % 8];
    LoopPass(program, 1, 91, [4, 6, 3], 45, [4, 6, 3, 5], 18);
    LoopPass(program, 1, 45, [4, 6, 3, 5], 22, [4, 6, 3, 5, 6], 15);
    LoopPass(program, 1, 22, [4, 6, 3, 5, 6], 11, [4, 6, 3, 5, 6, 3], 12);
  }

  lemma FirstExampleC(program: seq<int>)
    requires IsLoop(program, 1)
    ensures Run(Regs(11, 0, 0, 0, [4, 6, 3, 5, 6, 3]), program, 12) == Run(Regs(1, 0, 0, 0, [4, 6, 3, 5, 6, 3, 5, 2, 1]), program, 3)
  {
    assert [4, 6, 3, 5, 6, 3, 5] == [4, 6, 3, 5, 6, 3] + [5 % 8];
    assert [4, 6, 3, 5, 6, 3, 5, 2] == [4, 6, 3, 5, 6, 3, 5] + [2 % 8];
    assert [4, 6, 3, 5, 6, 3, 5, 2, 1] == [4, 6, 3, 5, 6, 3, 5, 2] + [1 % 8];
    LoopPass(program, 1, 11, [4, 6, 3, 5, 6, 3], 5, [4, 6, 3, 5, 6, 3, 5], 9);
    LoopPass(program, 1, 5, [4, 6, 3, 5, 6, 3, 5], 2, [4, 6, 3, 5, 6, 3, 5, 2], 6);
    LoopPass(program, 1, 2, [4, 6, 3, 5, 6, 3, 5, 2], 1, [4, 6, 3, 5, 6, 3, 5, 2, 1], 3);
  }

  /** Register A = 729 with program 0,1,5,4,3,0 prints 4,6,3,5,6,3,5,2,1,0 and halts. */
  lemma FirstExample(program: seq<int>)
    requires program == [0, 1, 5, 4, 3, 0]
    ensures Run(Regs(729, 0, 0, 0, []), program, 30) == (Halted, Regs(0, 0, 0, 6, [4, 6, 3, 5, 6, 3, 5, 2, 1, 0]))
  {
    FirstExampleA(program);
    FirstExampleB(program);
    FirstExampleC(program);
    LastPass(program, 1, 1, [4, 6, 3, 5, 6, 3, 5, 2, 1], [4, 6, 3, 5, 6, 3, 5, 2, 1, 0]);
  }

  lemma SecondExampleA(program: seq<int>)
    requires IsLoop(program, 3)
    ensures Run(Regs(117440, 0, 0, 0, []), program, 18) == Run(Regs(229, 0, 0, 0, [0, 3, 5]), program, 9)
  {
    assert [0] == [] + [14680 % 8];
    assert [0, 3] == [0] + [1835 % 8];
    assert [0, 3, 5] == [0, 3] + [229 % 8];
    LoopPass(program, 3, 117440, [], 14680, [0], 15);
    LoopPass(program, 3, 14680, [0], 1835, [0, 3], 12);
    LoopPass(program, 3, 1835, [0, 3], 229, [0, 3, 5], 9);
  }

  lemma SecondExampleB(program: seq<int>)
    requires IsLoop(program, 3)
    ensures Run(Regs(229, 0, 0, 0, [0, 3, 5]), program, 9) == Run(Regs(3, 0, 0, 0, [0, 3, 5, 4, 3]), program, 3)
  {
    assert [0, 3, 5, 4] == [0, 3, 5] + [28 % 8];
    assert [0, 3, 5, 4, 3] == [0, 3, 5, 4] + [3 % 8];
    LoopPass(program, 3, 229, [0, 3, 5], 28, [0, 3, 5, 4], 6);
    LoopPass(program, 3, 28, [0, 3, 5, 4], 3, [0, 3, 5, 4, 3], 3);
  }

  /** Register A = 117440 makes program 0,3,5,4,3,0 print itself. */
  lemma SecondExample(program: seq<int>)
    requires program == [0, 3, 5, 4, 3, 0]
    ensures Run(Regs(117440, 0, 0, 0, []), program, 18) == (Halted, Regs(0, 0, 0, 6, program))
  {
    SecondExampleA(program);
    SecondExampleB(program);
    LastPass(program, 3, 3, [0, 3, 5, 4, 3], [0, 3, 5, 4, 3, 0]);
  }
}
