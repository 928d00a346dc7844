/** Small helpers shared by the solvers: Option, string splitting and integer parsing
    as done by Rust's `str::lines`, `str::split` and `str::parse`. */
module Common {

  datatype Option<T> = None | Some(value: T)

  predicate IsDigit(c: char)
  {
    '0' <= c <= '9'
  }

  function DigitValue(c: char): (d: nat)
    requires IsDigit(c)
    ensures d < 10
  {
    (c as int) - ('0' as int)
  }

  /** Value of a string of decimal digits, most significant first. */
  function DigitsValue(s: string): (n: nat)
    requires forall i :: 0 <= i < |s| ==> IsDigit(s[i])
  {
    if s == [] then 0 else 10 * DigitsValue(s[..|s| - 1]) + DigitValue(s[|s| - 1])
  }

  predicate AllDigits(s: string)
  {
    forall i :: 0 <= i < |s| ==> IsDigit(s[i])
  }

  /** `s.parse::<u64>()` (without width limits): a non-empty run of digits, optional leading '+'. */
  function ParseNat(s: string): (r: Option<nat>)
    ensures r.Some? ==> |s| > 0
    ensures AllDigits(s) && |s| > 0 ==> r == Some(DigitsValue(s))
  {
    if |s| > 0 && AllDigits(s) then Some(DigitsValue(s))
    else if |s| > 1 && s[0] == '+' && AllDigits(s[1..]) then Some(DigitsValue(s[1..]))
    else None
  }

  /** `s.parse::<i64>()` (without width limits): optional sign, then a non-empty run of digits. */
  function ParseInt(s: string): (r: Option<int>)
    ensures AllDigits(s) && |s| > 0 ==> r == Some(DigitsValue(s))
    ensures |s| > 1 && s[0] == '-' && AllDigits(s[1..]) ==> r == Some(0 - DigitsValue(s[1..]))
    ensures s == [] ==> r == None
  {
    if |s| > 1 && s[0] == '-' && AllDigits(s[1..]) then Some(0 - DigitsValue(s[1..]))
    else match ParseNat(s)
      case Some(n) => Some(n)
      case None => None
  }

  /** `s.parse::<T>()` for a signed integer type whose values lie in [lo, hi]. */
  function ParseIn(s: string, lo: int, hi: int): (r: Option<int>)
    ensures r.Some? <==> ParseInt(s).Some? && lo <= ParseInt(s).value <= hi
    ensures r.Some? ==> r == ParseInt(s)
  {
    match ParseInt(s)
    case Some(n) => if lo <= n <= hi then Some(n) else None
    case None => None
  }

  const I32Min: int := -0x8000_0000
  const I32Max: int := 0x7fff_ffff
  const I64Min: int := -0x8000_0000_0000_0000
  const I64Max: int := 0x7fff_ffff_ffff_ffff

  /** `s.split(sep)`: the pieces between occurrences of `sep`; always at least one piece. */
  function Split(s: string, sep: char): (r: seq<string>)
    ensures |r| >= 1
    ensures forall i :: 0 <= i < |r| ==> sep !in r[i]
    ensures sep !in s ==> r == [s]
    decreases |s|
  {
    if s == [] then [[]]
    else
      var rest := Split(s[1..], sep);
      if s[0] == sep then [[]] + rest
      else
        assert sep !in s ==> sep !in s[1..] && s == [s[0]] + s[1..];
        [[s[0]] + rest[0]] + rest[1..]
  }

  /** Joining the pieces of Split back with `sep` gives the original string. */
  function Join(parts: seq<string>, sep: char): string
  {
    if |parts| <= 1 then (if parts == [] then [] else parts[0])
    else parts[0] + [sep] + Join(parts[1..], sep)
  }

  lemma {:induction false} SplitJoin(s: string, sep: char)
    ensures Join(Split(s, sep), sep) == s
    decreases |s|
  {
    if s != [] {
      SplitJoin(s[1..], sep);
      var rest := Split(s[1..], sep);
      if s[0] == sep {
        assert Join([[]] + rest, sep) == [] + [sep] + Join(rest, sep);
      } else {
        var r := [[s[0]] + rest[0]] + rest[1..];
        if |rest| == 1 {
          assert Join(r, sep) == [s[0]] + rest[0];
        } else {
          assert Join(rest, sep) == rest[0] + [sep] + Join(rest[1..], sep);
          assert r[1..] == rest[1..];
          assert Join(r, sep) == [s[0]] + rest[0] + [sep] + Join(rest[1..], sep);
        }
      }
    }
  }

  /** `s.split(sep)` for a non-empty string separator: leftmost, non-overlapping matches. */
  function SplitOn(s: string, sep: string): (r: seq<string>)
    requires |sep| > 0
    ensures |r| >= 1
    decreases |s|
  {
    if |s| < |sep| then [s]
    else if s[..|sep|] == sep then [[]] + SplitOn(s[|sep|..], sep)
    else
      var rest := SplitOn(s[1..], sep);
      [[s[0]] + rest[0]] + rest[1..]
  }

  /** Joining with a string separator, the inverse of SplitOn. */
  function JoinOn(parts: seq<string>, sep: string): string
  {
    if |parts| <= 1 then (if parts == [] then [] else parts[0])
    else parts[0] + sep + JoinOn(parts[1..], sep)
  }

  /** Prepending a character to the first part prepends it to the joined string. */
  lemma JoinOnPrepend(ch: char, rest: seq<string>, sep: string)
    requires |rest| >= 1
    ensures JoinOn([[ch] + rest[0]] + rest[1..], sep) == [ch] + JoinOn(rest, sep)
  {
    var r := [[ch] + rest[0]] + rest[1..];
    if |rest| > 1 {
      assert r[1..] == rest[1..];
    }
  }

  lemma {:induction false} SplitOnJoin(s: string, sep: string)
    requires |sep| > 0
    ensures JoinOn(SplitOn(s, sep), sep) == s
    decreases |s|
  {
    if |s| >= |sep| {
      if s[..|sep|] == sep {
        SplitOnJoin(s[|sep|..], sep);
        assert s == s[..|sep|] + s[|sep|..];
      } else {
        SplitOnJoin(s[1..], sep);
        JoinOnPrepend(s[0], SplitOn(s[1..], sep), sep);
        assert s == [s[0]] + s[1..];
      }
    }
  }

  /** Removes one trailing '\r', the carriage return of a "\r\n" line ending. */
  function StripCr(line: string): (r: string)
    ensures r == line || line == r + ['\r']
  {
    if |line| > 0 && line[|line| - 1] == '\r' then line[..|line| - 1] else line
  }

  function MapStripCr(parts: seq<string>): (r: seq<string>)
    ensures |r| == |parts|
    ensures forall i :: 0 <= i < |r| ==> r[i] == StripCr(parts[i])
  {
    seq(|parts|, i requires 0 <= i < |parts| => StripCr(parts[i]))
  }

  /** `str::lines`: split at '\n', no final empty line after a trailing '\n', and the '\r' of
      a "\r\n" ending dropped; a last line without '\n' after it keeps a final '\r'. */
  function Lines(s: string): (r: seq<string>)
    ensures s == [] ==> r == []
    ensures '\n' !in s && s != [] ==> r == [s]
    ensures forall i :: 0 <= i < |r| ==> '\n' !in r[i]
  {
    if s == [] then []
    else
      var parts := Split(s, '\n');
      if s[|s| - 1] == '\n' then MapStripCr(parts[..|parts| - 1])
      else MapStripCr(parts[..|parts| - 1]) + [parts[|parts| - 1]]
  }

  /** Splitting `a`, a separator and `b`, where `a` holds no separator, gives `a` and then the
      pieces of `b`. */
  lemma {:induction false} SplitPrefix(a: string, b: string, sep: char)
    requires sep !in a
    ensures Split(a + [sep] + b, sep) == [a] + Split(b, sep)
    decreases |a|
  {
    var s := a + [sep] + b;
    if a == [] {
      assert s[1..] == b;
    } else {
      assert s[1..] == a[1..] + [sep] + b;
      SplitPrefix(a[1..], b, sep);
      assert [a[0]] + a[1..] == a;
    }
  }

  /** Split undoes Join when no part holds the separator. */
  lemma {:induction false} JoinSplit(parts: seq<string>, sep: char)
    requires |parts| >= 1
    requires forall i :: 0 <= i < |parts| ==> sep !in parts[i]
    ensures Split(Join(parts, sep), sep) == parts
    decreases |parts|
  {
    if |parts| > 1 {
      JoinSplit(parts[1..], sep);
      SplitPrefix(parts[0], Join(parts[1..], sep), sep);
      assert [parts[0]] + parts[1..] == parts;
    }
  }

  /** A string without the separator's first character is one piece. */
  lemma {:induction false} SplitOnNone(s: string, sep: string)
    requires |sep| > 0 && sep[0] !in s
    ensures SplitOn(s, sep) == [s]
    decreases |s|
  {
    if |s| >= |sep| {
      assert s[..|sep|][0] == s[0];
      SplitOnNone(s[1..], sep);
      assert [s[0]] + s[1..] == s;
    }
  }

  /** Splitting `a`, the separator and `b`, where `a` holds no separator character, gives `a`
      and then the pieces of `b`. */
  lemma {:induction false} SplitOnPrefix(a: string, b: string, sep: string)
    requires |sep| > 0 && sep[0] !in a
    ensures SplitOn(a + sep + b, sep) == [a] + SplitOn(b, sep)
    decreases |a|
  {
    var s := a + sep + b;
    if a == [] {
      assert s[..|sep|] == sep && s[|sep|..] == b;
    } else {
      assert s[..|sep|][0] == a[0];
      assert s[1..] == a[1..] + sep + b;
      SplitOnPrefix(a[1..], b, sep);
      assert [a[0]] + a[1..] == a;
    }
  }

  /** `char::is_whitespace`: the characters with the Unicode White_Space property. */
  predicate IsSpace(c: char)
  {
    ('\t' <= c <= '\r') || c == ' ' || c == '\U{85}' || c == '\U{A0}' || c == '\U{1680}'
    || ('\U{2000}' <= c <= '\U{200A}') || c == '\U{2028}' || c == '\U{2029}' || c == '\U{202F}'
    || c == '\U{205F}' || c == '\U{3000}'
  }

  /** `str::trim_start`: drops the leading whitespace and nothing else. */
  function TrimStart(s: string): (r: string)
    ensures |r| <= |s| && r == s[|s| - |r|..]
    ensures forall i :: 0 <= i < |s| - |r| ==> IsSpace(s[i])
    ensures r == [] || !IsSpace(r[0])
  {
    if s != [] && IsSpace(s[0]) then TrimStart(s[1..]) else s
  }

  /** `str::trim_end`: drops the trailing whitespace and nothing else. */
  function TrimEnd(s: string): (r: string)
    ensures |r| <= |s| && r == s[..|r|]
    ensures forall i :: |r| <= i < |s| ==> IsSpace(s[i])
    ensures r == [] || !IsSpace(r[|r| - 1])
  {
    if s != [] && IsSpace(s[|s| - 1]) then TrimEnd(s[..|s| - 1]) else s
  }

  /** `str::trim`: drops the whitespace at both ends. */
  function Trim(s: string): string
  {
    TrimEnd(TrimStart(s))
  }

  /** Rust's `/` on integers, which rounds toward zero, for a positive divisor. */
  function TruncDiv(x: int, d: int): (q: int)
    requires d > 0
    ensures x >= 0 ==> q == x / d
    ensures x < 0 ==> q == -((-x) / d)
  {
    if x >= 0 then x / d else -((-x) / d)
  }

  /** Rust's `%` on integers, whose sign follows the dividend, for a positive divisor. */
  function TruncRem(x: int, d: int): (r: int)
    requires d > 0
    ensures TruncDiv(x, d) * d + r == x
    ensures x >= 0 ==> 0 <= r < d
    ensures x < 0 ==> -d < r <= 0
  {
    if x >= 0 then x % d else -((-x) % d)
  }

  function Sum(s: seq<int>): int
  {
    if s == [] then 0 else Sum(s[..|s| - 1]) + s[|s| - 1]
  }

  /** The magnitude of an integer. */
  function Abs(v: int): (r: nat)
    ensures r == v || r == -v
  {
    if v < 0 then -v else v
  }

  function Min(a: int, b: int): int
  {
    if a <= b then a else b
  }

  function Max(a: int, b: int): int
  {
    if a >= b then a else b
  }

  /** `n` copies of `c`. */
  function Repeat<T>(c: T, n: nat): (r: seq<T>)
    ensures |r| == n
    ensures forall i :: 0 <= i < n ==> r[i] == c
  {
    if n == 0 then [] else [c] + Repeat(c, n - 1)
  }

  function Pow(b: int, e: nat): int
  {
    if e == 0 then 1 else b * Pow(b, e - 1)
  }

  lemma {:induction false} PowPositive(b: int, e: nat)
    requires b > 0
    ensures Pow(b, e) > 0
  {
    if e > 0 {
      PowPositive(b, e - 1);
    }
  }

  /** The number of decimal digits of `v` as a divide-by-ten loop counts them: 0 has one. */
  function Digits(v: int): (d: nat)
    ensures d >= 1
    decreases Abs(v)
  {
    if -10 < v < 10 then 1 else 1 + Digits(TruncDiv(v, 10))
  }

  /** Digits(v) is the length of |v| written in decimal: 10^(d-1) <= |v| < 10^d. */
  lemma {:induction false} DigitsBounds(v: int)
    ensures Abs(v) < Pow(10, Digits(v))
    ensures v != 0 ==> Pow(10, Digits(v) - 1) <= Abs(v)
    decreases Abs(v)
  {
    if !(-10 < v < 10) {
      DigitsBounds(TruncDiv(v, 10));
    }
  }

  lemma {:induction false} MulNonNegative(a: int, d: int)
    requires a >= 0 && d >= 0
    ensures a * d >= 0
    decreases a
  {
    if a > 0 {
      MulNonNegative(a - 1, d);
      assert a * d == (a - 1) * d + d;
    }
  }

  /** The character of a decimal digit. */
  function DigitChar(d: nat): (c: char)
    requires d < 10
    ensures IsDigit(c) && DigitValue(c) == d
  {
    (d + '0' as int) as char
  }

  /** A natural number in decimal, most significant digit first, without leading zeros. */
  function NatToString(n: nat): (r: string)
    ensures |r| >= 1 && AllDigits(r)
    decreases n
  {
    if n < 10 then [DigitChar(n)] else NatToString(n / 10) + [DigitChar(n % 10)]
  }

  /** An integer in decimal, with a leading '-' when negative (Rust's `Display` for integers). */
  function IntToString(n: int): (r: string)
    ensures |r| >= 1
    ensures forall i :: 0 <= i < |r| ==> IsDigit(r[i]) || r[i] == '-'
  {
    if n < 0 then "-" + NatToString(-n) else NatToString(n)
  }

  /** Reading the digits of NatToString back gives the number. */
  lemma {:induction false} NatToStringValue(n: nat)
    ensures DigitsValue(NatToString(n)) == n
    decreases n
  {
    if n >= 10 {
      NatToStringValue(n / 10);
      var s := NatToString(n);
      assert s[..|s| - 1] == NatToString(n / 10);
    }
  }

  /** `parse` undoes `to_string` for every integer. */
  lemma ParseIntToString(n: int)
    ensures ParseInt(IntToString(n)) == Some(n)
  {
    if n < 0 {
      NatToStringValue(-n);
      assert IntToString(n)[1..] == NatToString(-n);
    } else {
      NatToStringValue(n);
    }
  }

  /** Division by a positive divisor recovers quotient and remainder of `q * d + r`. */
  lemma DivMulAdd(q: int, d: int, r: int)
    requires d > 0 && 0 <= r < d
    ensures (q * d + r) / d == q && (q * d + r) % d == r
  {
    var x := q * d + r;
    var q' := x / d;
    var r' := x % d;
    assert q' * d + r' == x;
    if q' > q {
      assert (q' - q - 1) * d == q' * d - q * d - d;
      MulNonNegative(q' - q - 1, d);
    } else if q' < q {
      assert (q - q' - 1) * d == q * d - q' * d - d;
      MulNonNegative(q - q' - 1, d);
    }
  }

  /** `^` on non-negative integers, bit by bit from the least significant. */
  function Xor(a: nat, b: nat): (r: nat)
    decreases a + b
  {
    if a == 0 then b
    else if b == 0 then a
    else 2 * Xor(a / 2, b / 2) + (if a % 2 == b % 2 then 0 else 1)
  }

  /** XOR with zero is the identity, and a value XORed with itself is zero. */
  lemma {:induction false} XorZero(a: nat)
    ensures Xor(a, 0) == a && Xor(0, a) == a && Xor(a, a) == 0
    decreases a
  {
    if a > 0 {
      XorZero(a / 2);
    }
  }

  /** XOR is commutative. */
  lemma {:induction false} XorCommutative(a: nat, b: nat)
    ensures Xor(a, b) == Xor(b, a)
    decreases a + b
  {
    if a > 0 && b > 0 {
      XorCommutative(a / 2, b / 2);
    }
  }

  /** XOR undoes itself: XORing twice with the same value gives the original. */
  lemma {:induction false} XorCancel(a: nat, b: nat)
    ensures Xor(Xor(a, b), b) == a
    decreases a + b
  {
    if a > 0 && b > 0 {
      XorCancel(a / 2, b / 2);
      var x := Xor(a / 2, b / 2);
      var bit := if a % 2 == b % 2 then 0 else 1;
      assert Xor(a, b) == 2 * x + bit;
      if 2 * x + bit == 0 {
        XorZero(b / 2);
      }
    } else {
      XorZero(b);
      XorZero(a);
    }
  }

  /** Two's-complement XOR of signed integers (Rust's `^` on i64, without a width bound):
      a negative `x` is the bitwise complement of the natural `-x - 1`. */
  function IntXor(a: int, b: int): (r: int)
    ensures a >= 0 && b >= 0 ==> r == Xor(a, b)
    ensures r < 0 <==> (a < 0) != (b < 0)
  {
    if a >= 0 && b >= 0 then Xor(a, b)
    else if a < 0 && b < 0 then Xor(-a - 1, -b - 1)
    else if a < 0 then -(Xor(-a - 1, b) as int) - 1
    else -(Xor(a, -b - 1) as int) - 1
  }

  /** A non-empty set of integers has a member (the witness a `:|` over the set needs). */
  lemma NonEmptyHasMember(s: set<int>)
    requires s != {}
    ensures exists x :: x in s
  {
    if forall y :: y !in s {
      assert false;
    }
  }

  /** A string of `n` decimal digits is worth less than 10^n. */
  lemma {:induction false} DigitsValueBelow(s: string)
    requires AllDigits(s)
    ensures DigitsValue(s) < Pow(10, |s|)
  {
    if s != [] {
      DigitsValueBelow(s[..|s| - 1]);
    }
  }

  /** `parts.map(|n| n.parse::<i64>().unwrap()).collect()`: every piece parsed, None where one
      of them panics. */
  function ParseI64s(parts: seq<string>): (r: Option<seq<int>>)
    ensures r.Some? ==> |r.value| == |parts| &&
                        forall k :: 0 <= k < |parts| ==> ParseIn(parts[k], I64Min, I64Max) == Some(r.value[k])
    ensures r.None? ==> exists k :: 0 <= k < |parts| && ParseIn(parts[k], I64Min, I64Max).None?
  {
    if parts == [] then Some([])
    else match (ParseI64s(parts[..|parts| - 1]), ParseIn(parts[|parts| - 1], I64Min, I64Max))
      case (Some(front), Some(v)) => Some(front + [v])
      case _ => None
  }

  /** The first `n` elements are the first `n - 1` and element `n - 1`. */
  lemma MultisetTake<T>(s: seq<T>, n: nat)
    requires 0 < n <= |s|
    ensures multiset(s[..n]) == multiset(s[..n - 1]) + multiset{s[n - 1]}
  {
    assert s[..n] == s[..n - 1] + [s[n - 1]];
  }
}
