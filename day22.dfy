/** Day 22: the monkey market. A secret number evolves by three XOR-and-prune steps per round;
    the last decimal digit is the price, and the last four price changes, packed one byte each
    into a 32-bit shift register, key the price at which a monkey would sell.

    The register is an `i32`; the model keeps its bits as an integer and writes the shift's
    32-bit wrap-around and the two's-complement reading out explicitly. */
module Day22 {
  import opened Common

  newtype i8 = x: int | -128 <= x < 128
  newtype u8 = x: int | 0 <= x < 256
  newtype i32 = x: int | -0x8000_0000 <= x < 0x8000_0000

  /** 2^32: the number of distinct `i32` bit patterns. */
  const Word: int := 0x1_0000_0000

  // ---------------------------------------------------------------------------
  // Bytes and the big-endian packing

  /** `i8::from_le_bytes`: the signed value of a byte. */
  function Signed(b: u8): (d: i8)
    ensures d as int % 256 == b as int
  {
    if b < 128 then b as int as i8 else (b as int - 256) as i8
  }

  /** `item as i32 & 0xFF`: the two's-complement byte of an `i8`; reading it back as an `i8`
      gives the value unchanged. */
  function Byte(d: i8): (b: u8)
    ensures Signed(b) == d
  {
    (d as int % 256) as u8
  }

  /** Reading a byte as an `i8` and taking its byte again gives it back. */
  lemma ByteSigned(b: u8)
    ensures Byte(Signed(b)) == b
  {
  }

  /** The `i32` whose two's-complement bits are `u`. */
  function ToI32(u: int): (v: i32)
    requires 0 <= u < Word
    ensures v as int % Word == u
  {
    if u < 0x8000_0000 then u as i32 else (u - Word) as i32
  }

  /** `<<= 8` on the bits of an `i32`: the top byte falls off and the low byte is zero. */
  function Shl8(u: int): (r: int)
    requires 0 <= u < Word
    ensures 0 <= r < Word && r % 256 == 0 && r / 256 == u % 0x100_0000
  {
    (u * 256) % Word
  }

  /** The register bits after shifting in the first `k` bytes; the `|=` of a byte into the
      zeroed low byte is an addition. */
  function PackUpTo(bs: seq<u8>, k: nat): (r: int)
    requires k <= |bs|
    ensures 0 <= r < Word
  {
    if k == 0 then 0 else Shl8(PackUpTo(bs, k - 1)) + bs[k - 1] as int
  }

  function Pack(bs: seq<u8>): (r: int)
    ensures 0 <= r < Word
  {
    PackUpTo(bs, |bs|)
  }

  /** Four bytes side by side, the first in the most significant position. */
  function Quad(a: u8, b: u8, c: u8, d: u8): int
  {
    a as int * 0x100_0000 + b as int * 0x1_0000 + c as int * 0x100 + d as int
  }

  /** The last (at most) four entries: what the register can still hold. */
  function Window<T>(xs: seq<T>): (r: seq<T>)
    ensures |r| == Min(|xs|, 4)
  {
    if |xs| <= 4 then xs else xs[|xs| - 4..]
  }

  lemma QuadShift(a: u8, b: u8, c: u8, d: u8, e: u8)
    ensures 0 <= Quad(a, b, c, d) < Word
    ensures Shl8(Quad(a, b, c, d)) + e as int == Quad(b, c, d, e)
  {
    var low := Quad(b, c, d, 0);
    assert Quad(a, b, c, d) * 256 == a as int * Word + low;
    assert 0 <= low < Word;
  }

  lemma PackFour(bs: seq<u8>)
    requires |bs| >= 4
    ensures PackUpTo(bs, 4) == Quad(bs[0], bs[1], bs[2], bs[3])
  {
    assert PackUpTo(bs, 1) == bs[0] as int;
    assert PackUpTo(bs, 2) == bs[0] as int * 0x100 + bs[1] as int;
    assert PackUpTo(bs, 3) == bs[0] as int * 0x1_0000 + bs[1] as int * 0x100 + bs[2] as int;
  }

  /** Once four bytes are in, the register holds exactly the last four. */
  lemma {:induction false} PackLastFour(bs: seq<u8>, k: nat)
    requires 4 <= k <= |bs|
    ensures PackUpTo(bs, k) == Quad(bs[k - 4], bs[k - 3], bs[k - 2], bs[k - 1])
  {
    if k == 4 {
      PackFour(bs);
    } else {
      PackLastFour(bs, k - 1);
      QuadShift(bs[k - 5], bs[k - 4], bs[k - 3], bs[k - 2], bs[k - 1]);
    }
  }

  /** A fifth push drops the oldest byte: the packing only depends on the window. */
  lemma PackWindow(bs: seq<u8>)
    ensures Pack(bs) == Pack(Window(bs))
  {
    if |bs| > 4 {
      var w := Window(bs);
      PackLastFour(bs, |bs|);
      PackFour(w);
    }
  }

  /** The packing of a prefix does not look at the bytes after it. */
  lemma {:induction false} PackUpToPrefix(bs: seq<u8>, cs: seq<u8>, k: nat)
    requires k <= |bs| <= |cs| && bs == cs[..|bs|]
    ensures PackUpTo(bs, k) == PackUpTo(cs, k)
  {
    if k > 0 {
      PackUpToPrefix(bs, cs, k - 1);
      assert bs[k - 1] == cs[k - 1];
    }
  }

  /** `_unpack` without its text: the four signed bytes of a packed `i32`, most significant
      first. */
  function Unpack(v: i32): (r: seq<i8>)
    ensures |r| == 4
  {
    var u := v as int % Word;
    [Signed((u / 0x100_0000 % 256) as u8), Signed((u / 0x1_0000 % 256) as u8),
     Signed((u / 0x100 % 256) as u8), Signed((u % 256) as u8)]
  }

  lemma QuadBytes(a: u8, b: u8, c: u8, d: u8)
    ensures 0 <= Quad(a, b, c, d) < Word
    ensures Quad(a, b, c, d) / 0x100_0000 % 256 == a as int
    ensures Quad(a, b, c, d) / 0x1_0000 % 256 == b as int
    ensures Quad(a, b, c, d) / 0x100 % 256 == c as int && Quad(a, b, c, d) % 256 == d as int
  {
    var q := Quad(a, b, c, d);
    assert q / 0x100_0000 == a as int;
    assert q / 0x1_0000 == a as int * 0x100 + b as int;
    assert q / 0x100 == a as int * 0x1_0000 + b as int * 0x100 + c as int;
  }

  /** The byte of each value. */
  function Bytes(ds: seq<i8>): (r: seq<u8>)
    ensures |r| == |ds|
  {
    if ds == [] then [] else Bytes(ds[..|ds| - 1]) + [Byte(ds[|ds| - 1])]
  }

  /** Each byte is the byte of the value at the same place, and reads back as that value. */
  lemma {:induction false} BytesAt(ds: seq<i8>)
    ensures forall i :: 0 <= i < |ds| ==> Bytes(ds)[i] == Byte(ds[i]) && Signed(Bytes(ds)[i]) == ds[i]
  {
    if ds != [] {
      BytesAt(ds[..|ds| - 1]);
    }
  }

  /** The `i32` register after shifting in the values `ds`, oldest first. */
  function Packed(ds: seq<i8>): i32
  {
    ToI32(Pack(Bytes(ds)))
  }

  /** Packing four `i8` values and unpacking the `i32` gives them back. */
  lemma UnpackPack(ds: seq<i8>)
    requires |ds| == 4
    ensures Unpack(Packed(ds)) == ds
  {
    var bs := Bytes(ds);
    BytesAt(ds);
    PackFour(bs);
    QuadBytes(bs[0], bs[1], bs[2], bs[3]);
  }

  /** Shifting one more value in: the `<<= 8` and the `|=` of its byte. */
  lemma PackedSnoc(ds: seq<i8>, d: i8)
    ensures Packed(ds + [d]) == ToI32(Shl8(Packed(ds) as int % Word) + Byte(d) as int)
  {
    var bs := Bytes(ds);
    assert (ds + [d])[..|ds|] == ds;
    PackUpToPrefix(bs, bs + [Byte(d)], |bs|);
  }

  /** Only the last four values shifted in survive in the register. */
  lemma PackedWindow(ds: seq<i8>)
    ensures Packed(ds) == Packed(Window(ds))
  {
    var bs := Bytes(ds);
    PackWindow(bs);
    BytesAt(ds);
    BytesAt(Window(ds));
    assert Bytes(Window(ds)) == Window(bs);
  }

  /** The register after pushing the first `k` of the values `ds` one by one into a fresh
      buffer: each push shifts the bits left by a byte and puts the new value's byte in the
      low byte. */
  function RegisterPrefix(ds: seq<i8>, k: nat): i32
    requires k <= |ds|
  {
    if k == 0 then 0
    else ToI32(Shl8(RegisterPrefix(ds, k - 1) as int % Word) + Byte(ds[k - 1]) as int)
  }

  /** The register after pushing all of `ds`. */
  function Register(ds: seq<i8>): i32
  {
    RegisterPrefix(ds, |ds|)
  }

  /** The register after `k` pushes depends on the first `k` values only. */
  lemma {:induction false} RegisterPrefixAgree(ds: seq<i8>, es: seq<i8>, k: nat)
    requires k <= |ds| && k <= |es|
    requires forall i :: 0 <= i < k ==> ds[i] == es[i]
    ensures RegisterPrefix(ds, k) == RegisterPrefix(es, k)
  {
    if k > 0 {
      RegisterPrefixAgree(ds, es, k - 1);
    }
  }

  /** Pushing one more value shifts the register by a byte and adds the value's byte. */
  lemma RegisterSnoc(ds: seq<i8>, d: i8)
    ensures Register(ds + [d]) == ToI32(Shl8(Register(ds) as int % Word) + Byte(d) as int)
  {
    RegisterPrefixAgree(ds + [d], ds, |ds|);
  }

  /** Pushing one by one gives the big-endian packing of all values. */
  lemma {:induction false} RegisterPacked(ds: seq<i8>)
    ensures Register(ds) == Packed(ds)
  {
    if ds != [] {
      var init := ds[..|ds| - 1];
      RegisterPacked(init);
      PackedSnoc(init, ds[|ds| - 1]);
      RegisterSnoc(init, ds[|ds| - 1]);
      assert init + [ds[|ds| - 1]] == ds;
    } else {
      assert Pack(Bytes(ds)) == 0;
    }
  }

  /** The register only holds the last four values pushed. */
  lemma RegisterWindow(ds: seq<i8>)
    ensures Register(ds) == Packed(Window(ds))
  {
    RegisterPacked(ds);
    PackedWindow(ds);
  }

  // ---------------------------------------------------------------------------
  // IntBuffer

  /** The 32-bit shift register of the last four price changes. */
  class IntBuffer {
    var value: i32
    var items: nat
    /** Every value pushed so far, oldest first. */
    ghost var pushed: seq<i8>

    ghost predicate Valid()
      reads this
    {
      value == Register(pushed) && items == |pushed|
    }

    constructor ()
      ensures Valid() && pushed == []
      ensures value == 0 && items == 0
    {
      value := 0;
      items := 0;
      pushed := [];
    }

    method Push(item: i8)
      requires Valid()
      modifies this
      ensures Valid() && pushed == old(pushed) + [item]
      ensures value == ToI32(Shl8(old(value) as int % Word) + Byte(item) as int)
      ensures items == old(items) + 1
    {
      value := ToI32(Shl8(value as int % Word) + Byte(item) as int);
      items := items + 1;
      RegisterSnoc(pushed, item);
      pushed := pushed + [item];
    }

    /** The register: what pushing every value so far leaves, which by `RegisterWindow` is
        the packing of the last (at most) four of them. */
    function Get(): (r: i32)
      requires Valid()
      reads this
      ensures r == Register(pushed)
    {
      value
    }

    /** How many values the register holds: never more than four. */
    function Len(): (r: nat)
      requires Valid()
      reads this
      ensures r == Min(|pushed|, 4) && r <= 4
    {
      Min(items, 4)
    }
  }

  /** `_pack`: shifts each value in, as pushing them into a fresh buffer would. */
  method PackValues(ds: seq<i8>) returns (r: i32)
    ensures r == Packed(ds) && r == Packed(Window(ds))
  {
    r := 0;
    for i := 0 to |ds|
      invariant r == Packed(ds[..i])
    {
      PackedSnoc(ds[..i], ds[i]);
      assert ds[..i + 1] == ds[..i] + [ds[i]];
      r := ToI32(Shl8(r as int % Word) + Byte(ds[i]) as int);
    }
    assert ds[..|ds|] == ds;
    PackedWindow(ds);
  }

  /** Pushing values one by one into a fresh buffer leaves the packing of the last four. */
  method PushAll(ds: seq<i8>) returns (buf: IntBuffer)
    ensures fresh(buf) && buf.Valid() && buf.pushed == ds
    ensures buf.Get() == Packed(Window(ds)) && buf.Len() == Min(|ds|, 4)
  {
    buf := new IntBuffer();
    for i := 0 to |ds|
      invariant buf.Valid() && buf.pushed == ds[..i]
    {
      buf.Push(ds[i]);
      assert ds[..i + 1] == ds[..i] + [ds[i]];
    }
    assert ds[..|ds|] == ds;
    RegisterWindow(ds);
  }

  // ---------------------------------------------------------------------------
  // The secret number

  const Prune: int := 16777216

  /** One round of calculate's loop: mix with ×64, ÷32 and ×2048, pruning after each.  The
      secret read from the input may be negative: its first XOR is the signed one, and the
      Euclidean remainder (`rem_euclid`) makes every later value non-negative. */
  function Evolve(n: int): (r: nat)
    ensures r < Prune
  {
    var a := IntXor(n, n * 64) % Prune;
    var b := Xor(a, a / 32) % Prune;
    Xor(b, b * 2048) % Prune
  }

  /** The secret after `k` rounds; from the first round on it lies below 2^24. */
  function SecretAfter(secret: int, k: nat): (r: int)
    ensures k > 0 ==> 0 <= r < Prune
  {
    if k == 0 then secret else Evolve(SecretAfter(secret, k - 1))
  }

  /** A price: the last decimal digit of a secret. */
  newtype Digit = x: int | 0 <= x <= 9

  /** The price of a secret (`rem_euclid(10)`): congruent to it modulo 10. */
  function Price(n: int): (p: Digit)
    ensures (n - p as int) % 10 == 0
  {
    (n % 10) as Digit
  }

  /** The price after round `k` (round 0 is the initial secret). */
  function PriceAt(secret: int, k: nat): Digit
  {
    Price(SecretAfter(secret, k))
  }

  /** The change from price `a` to price `b`, as the `i8` the buffer receives. */
  function Change(a: Digit, b: Digit): (c: i8)
    ensures a as int + c as int == b as int
  {
    (b as int - a as int) as i8
  }

  /** The price changes of the first `k` rounds. */
  function Diffs(secret: int, k: nat): (r: seq<i8>)
    ensures |r| == k
  {
    if k == 0 then [] else Diffs(secret, k - 1) + [Change(PriceAt(secret, k - 1), PriceAt(secret, k))]
  }

  /** Change `j` runs from round `j`'s price to round `j + 1`'s, however many rounds follow. */
  lemma {:induction false} DiffsAt(secret: int, k: nat, j: nat)
    requires j < k
    ensures Diffs(secret, k)[j] == Change(PriceAt(secret, j), PriceAt(secret, j + 1))
  {
    if j < k - 1 {
      DiffsAt(secret, k - 1, j);
    }
  }

  /** The register (`get()`) after round `k`. */
  function Key(secret: int, k: nat): i32
  {
    Register(Diffs(secret, k))
  }

  /** The first-occurrence table after `k` rounds, given each round's key and price: from
      round 4 on, a round's key that is not yet present is bound to that round's price; present
      keys are left alone. */
  function FirstTable(key: nat -> i32, price: nat -> i32, k: nat): map<i32, i32>
  {
    if k == 0 then map[]
    else
      var table := FirstTable(key, price, k - 1);
      if k >= 4 && key(k) !in table then table[key(k) := price(k)] else table
  }

  /** The pattern table after `k` rounds: from round 4 on, a round's register that is not yet
      present is bound to that round's price; present keys are left alone. */
  function Patterns(secret: int, k: nat): map<i32, i32>
  {
    if k == 0 then map[]
    else
      var table := Patterns(secret, k - 1);
      var key := Key(secret, k);
      if k >= 4 && key !in table then table[key := PriceAt(secret, k) as i32] else table
  }

  /** A buyer's registers and prices, round by round. */
  function KeyOf(secret: int): nat -> i32
  {
    (j: nat) => Key(secret, j)
  }

  function PriceOf(secret: int): nat -> i32
  {
    (j: nat) => PriceAt(secret, j) as i32
  }

  /** A buyer's pattern table is the first-occurrence table of its registers and prices. */
  lemma {:induction false} PatternsTable(secret: int, k: nat)
    ensures Patterns(secret, k) == FirstTable(KeyOf(secret), PriceOf(secret), k)
  {
    if k > 0 {
      PatternsTable(secret, k - 1);
      assert KeyOf(secret)(k) == Key(secret, k);
      assert PriceOf(secret)(k) == PriceAt(secret, k) as i32;
    }
  }

  /** The three mixing steps of one round of calculate's loop, updating the number in place. */
  method Mix(current: int) returns (num: int)
    ensures num == Evolve(current) && 0 <= num < Prune
  {
    num := current;
    num := IntXor(num, num * 64);
    num := num % Prune;
    num := Xor(num, num / 32);
    num := num % Prune;
    num := Xor(num, num * 2048);
    num := num % Prune;
  }

  /** calculate: `rounds` rounds of evolution, recording each new change pattern's price. */
  method Calculate(secret: int, rounds: int) returns (number: int, patterns: map<i32, i32>)
    ensures number == SecretAfter(secret, if rounds > 0 then rounds else 0)
    ensures patterns == Patterns(secret, if rounds > 0 then rounds else 0)
  {
    patterns := map[];
    var buf := new IntBuffer();
    var num := secret;
    var lastPrice := (num % 10) as i8;
    var n := if rounds > 0 then rounds else 0;
    for i := 0 to n
      invariant num == SecretAfter(secret, i) && lastPrice as int == PriceAt(secret, i) as int
      invariant buf.Valid() && buf.pushed == Diffs(secret, i)
      invariant patterns == Patterns(secret, i)
    {
      num, lastPrice, patterns := Round(secret, i, buf, num, lastPrice, patterns);
    }
    number := num;
  }

  /** One pass of calculate's loop: the next secret, its price, the change pushed into the
      buffer, and the price recorded under a window of four changes seen for the first time. */
  method Round(secret: int, i: nat, buf: IntBuffer, num: int, lastPrice: i8, patterns: map<i32, i32>)
    returns (nextNum: int, nextPrice: i8, nextPatterns: map<i32, i32>)
    requires num == SecretAfter(secret, i) && lastPrice as int == PriceAt(secret, i) as int
    requires buf.Valid() && buf.pushed == Diffs(secret, i)
    requires patterns == Patterns(secret, i)
    modifies buf
    ensures nextNum == SecretAfter(secret, i + 1) && nextPrice as int == PriceAt(secret, i + 1) as int
    ensures buf.Valid() && buf.pushed == Diffs(secret, i + 1)
    ensures nextPatterns == Patterns(secret, i + 1)
  {
    nextNum := Mix(num);
    var price := (nextNum % 10) as i8;
    buf.Push(price - lastPrice);
    nextPrice := price;
    nextPatterns := patterns;
    if buf.Len() == 4 {
      var key := buf.Get();
      if key !in patterns {
        nextPatterns := patterns[key := price as i32];
      }
    }
  }

  // ---------------------------------------------------------------------------
  // What the pattern table promises

  /** Every entry comes from a round from 4 on whose key it is and whose price it records. */
  lemma {:induction false} FirstTableEntries(key: nat -> i32, price: nat -> i32, k: nat, x: i32)
    requires x in FirstTable(key, price, k)
    ensures exists j :: 4 <= j <= k && key(j) == x && price(j) == FirstTable(key, price, k)[x]
  {
    var table := FirstTable(key, price, k - 1);
    if x in table {
      FirstTableEntries(key, price, k - 1, x);
      var j :| 4 <= j <= k - 1 && key(j) == x && price(j) == table[x];
      assert FirstTable(key, price, k)[x] == table[x];
    } else {
      assert k >= 4 && key(k) == x && FirstTable(key, price, k)[x] == price(k);
    }
  }

  /** Later rounds never overwrite an entry. */
  lemma {:induction false} FirstTableGrow(key: nat -> i32, price: nat -> i32, k: nat, k': nat)
    requires k <= k'
    ensures forall x :: x in FirstTable(key, price, k) ==>
      x in FirstTable(key, price, k') && FirstTable(key, price, k')[x] == FirstTable(key, price, k)[x]
  {
    if k < k' {
      FirstTableGrow(key, price, k, k' - 1);
    }
  }

  /** The keys are exactly those of rounds 4..k. */
  lemma {:induction false} FirstTableDomain(key: nat -> i32, price: nat -> i32, k: nat, x: i32)
    ensures x in FirstTable(key, price, k) <==> exists j :: 4 <= j <= k && key(j) == x
  {
    if k > 0 {
      FirstTableDomain(key, price, k - 1, x);
      if x in FirstTable(key, price, k - 1) {
        var j :| 4 <= j <= k - 1 && key(j) == x;
        assert 4 <= j <= k;
      }
    }
  }

  /** A key is bound to the price of the first round (from round 4 on) where it appears. */
  lemma {:induction false} FirstTableFirst(key: nat -> i32, price: nat -> i32, j: nat, k: nat)
    requires 4 <= j <= k
    requires forall i :: 4 <= i < j ==> key(i) != key(j)
    ensures key(j) in FirstTable(key, price, k) && FirstTable(key, price, k)[key(j)] == price(j)
  {
    if k == j {
      FirstTableDomain(key, price, j - 1, key(j));
    } else {
      FirstTableFirst(key, price, j, k - 1);
    }
  }

  /** Every price in a buyer's pattern table is a single digit. */
  lemma PatternPrices(secret: int, k: nat)
    ensures forall key :: key in Patterns(secret, k) ==> 0 <= Patterns(secret, k)[key] <= 9
  {
    PatternsTable(secret, k);
    forall key | key in Patterns(secret, k)
      ensures 0 <= Patterns(secret, k)[key] <= 9
    {
      FirstTableEntries(KeyOf(secret), PriceOf(secret), k, key);
    }
  }

  /** Every entry of a buyer's table is the register of some round from 4 on, bound to that
      round's price. */
  lemma PatternsEntries(secret: int, k: nat, key: i32)
    requires key in Patterns(secret, k)
    ensures exists j :: 4 <= j <= k && Key(secret, j) == key && Patterns(secret, k)[key] == PriceAt(secret, j) as i32
  {
    PatternsTable(secret, k);
    FirstTableEntries(KeyOf(secret), PriceOf(secret), k, key);
  }

  /** Later rounds never overwrite an entry of a buyer's table. */
  lemma PatternsGrow(secret: int, k: nat, k': nat)
    requires k <= k'
    ensures forall key :: key in Patterns(secret, k) ==>
      key in Patterns(secret, k') && Patterns(secret, k')[key] == Patterns(secret, k)[key]
  {
    PatternsTable(secret, k);
    PatternsTable(secret, k');
    FirstTableGrow(KeyOf(secret), PriceOf(secret), k, k');
  }

  /** A buyer's keys are exactly the registers of rounds 4..k. */
  lemma PatternsDomain(secret: int, k: nat, key: i32)
    ensures key in Patterns(secret, k) <==> exists j :: 4 <= j <= k && Key(secret, j) == key
  {
    PatternsTable(secret, k);
    FirstTableDomain(KeyOf(secret), PriceOf(secret), k, key);
  }

  /** A key is bound to the price of the round where it first appears. */
  lemma PatternsFirst(secret: int, j: nat, k: nat)
    requires 4 <= j <= k
    requires forall i :: 4 <= i < j ==> Key(secret, i) != Key(secret, j)
    ensures Key(secret, j) in Patterns(secret, k)
    ensures Patterns(secret, k)[Key(secret, j)] == PriceAt(secret, j) as i32
  {
    PatternsTable(secret, k);
    FirstTableFirst(KeyOf(secret), PriceOf(secret), j, k);
  }

  /** A key is the packing of the four price changes that end at its round. */
  lemma KeyIsLastFourChanges(secret: int, k: nat)
    requires k >= 4
    ensures Unpack(Key(secret, k)) == Diffs(secret, k)[k - 4..]
  {
    RegisterWindow(Diffs(secret, k));
    UnpackPack(Window(Diffs(secret, k)));
  }

  // ---------------------------------------------------------------------------
  // The two answers of main

  /** Part one: the sum of the first `n` buyers' secrets after `rounds` rounds. */
  function SecretSum(secrets: seq<int>, n: nat, rounds: nat): (r: int)
    requires n <= |secrets|
    ensures rounds > 0 || (forall k :: 0 <= k < n ==> secrets[k] >= 0) ==> r >= 0
    ensures rounds > 0 ==> r <= n * (Prune - 1)
  {
    if n == 0 then 0
    else
      assert (n - 1) * (Prune - 1) + (Prune - 1) == n * (Prune - 1);
      SecretSum(secrets, n - 1, rounds) + SecretAfter(secrets[n - 1], rounds)
  }

  /** The bananas one pattern earns from the first `n` buyers: each buyer's recorded price, or
      0 if the pattern never appears for that buyer. */
  function Bananas(tables: seq<map<i32, i32>>, n: nat, key: i32): (r: int)
    requires n <= |tables|
    ensures (forall i :: 0 <= i < n ==> DigitPrices(tables[i])) ==> 0 <= r <= 9 * n
  {
    if n == 0 then 0
    else Bananas(tables, n - 1, key) + (if key in tables[n - 1] then tables[n - 1][key] as int else 0)
  }

  /** Every price in a table is a single digit. */
  predicate DigitPrices(table: map<i32, i32>)
  {
    forall key :: key in table ==> 0 <= table[key] <= 9
  }

  /** Every pattern recorded for some buyer. */
  function AllKeys(tables: seq<map<i32, i32>>): (r: set<i32>)
    ensures forall key :: key in r <==> exists i :: 0 <= i < |tables| && key in tables[i]
  {
    if tables == [] then {} else AllKeys(tables[..|tables| - 1]) + tables[|tables| - 1].Keys
  }

  /** `best` is the largest total any recorded pattern earns, or 0 if that is larger. */
  predicate IsBest(tables: seq<map<i32, i32>>, best: int)
  {
    && best >= 0
    && (forall key :: key in AllKeys(tables) ==> Bananas(tables, |tables|, key) <= best)
    && (best == 0 || exists key :: key in AllKeys(tables) && Bananas(tables, |tables|, key) == best)
  }

  /** There is only one best total, whatever order the patterns are tried in. */
  lemma BestUnique(tables: seq<map<i32, i32>>, a: int, b: int)
    requires IsBest(tables, a) && IsBest(tables, b)
    ensures a == b
  {
  }

  /** The part-two loop: the best total over all recorded patterns, starting from 0. */
  method BestSum(tables: seq<map<i32, i32>>) returns (best: int)
    ensures IsBest(tables, best)
  {
    best := 0;
    var all := AllKeys(tables);
    var todo := all;
    while todo != {}
      invariant todo <= all
      invariant best >= 0
      invariant forall key :: key in all && key !in todo ==> Bananas(tables, |tables|, key) <= best
      invariant best == 0 || exists key :: key in all && key !in todo && Bananas(tables, |tables|, key) == best
      decreases |todo|
    {
      var key :| key in todo;
      var sum := Bananas(tables, |tables|, key);
      if sum > best {
        best := sum;
      }
      todo := todo - {key};
    }
  }

  /** The buyers' pattern tables after `rounds` rounds. */
  function Tables(secrets: seq<int>, rounds: nat): (r: seq<map<i32, i32>>)
    ensures |r| == |secrets|
  {
    seq(|secrets|, i requires 0 <= i < |secrets| => Patterns(secrets[i], rounds))
  }

  /** Both answers for a list of buyers: part one's sum of secrets and part two's best total. */
  method Solve(secrets: seq<int>, rounds: nat) returns (part1: int, part2: int)
    ensures part1 == SecretSum(secrets, |secrets|, rounds)
    ensures IsBest(Tables(secrets, rounds), part2)
  {
    var tables: seq<map<i32, i32>> := [];
    part1 := 0;
    for i := 0 to |secrets|
      invariant part1 == SecretSum(secrets, i, rounds)
      invariant tables == Tables(secrets[..i], rounds)
    {
      var number, patterns := Calculate(secrets[i], rounds);
      part1 := part1 + number;
      tables := tables + [patterns];
    }
    assert secrets[..|secrets|] == secrets;
    part2 := BestSum(tables);
  }

  /** The best total is at most nine bananas per buyer. */
  lemma BestBound(secrets: seq<int>, rounds: nat, best: int)
    requires IsBest(Tables(secrets, rounds), best)
    ensures 0 <= best <= 9 * |secrets|
  {
    var tables := Tables(secrets, rounds);
    forall i | 0 <= i < |tables|
      ensures DigitPrices(tables[i])
    {
      PatternPrices(secrets[i], rounds);
    }
    if best != 0 {
      var key :| key in AllKeys(tables) && Bananas(tables, |tables|, key) == best;
    }
  }

  /** main's reading: `filter_map(|n| n.parse::<i64>().ok())` over the lines keeps, in order,
      the lines that are i64 numbers. */
  function Secrets(lines: seq<string>): (r: seq<int>)
    ensures |r| <= |lines|
    ensures forall k :: 0 <= k < |r| ==> I64Min <= r[k] <= I64Max
  {
    if lines == [] then []
    else
      var front := Secrets(lines[..|lines| - 1]);
      match ParseIn(lines[|lines| - 1], I64Min, I64Max)
      case Some(v) => front + [v]
      case None => front
  }

  /** A line that is not an i64 number is skipped, and when every line is one, each gives
      its buyer in order. */
  lemma {:induction false} SecretsKept(lines: seq<string>)
    ensures (forall k :: 0 <= k < |lines| ==> ParseIn(lines[k], I64Min, I64Max).Some?) ==>
              |Secrets(lines)| == |lines| &&
              forall k :: 0 <= k < |lines| ==> Some(Secrets(lines)[k]) == ParseIn(lines[k], I64Min, I64Max)
    ensures forall k :: 0 <= k < |lines| && ParseIn(lines[k], I64Min, I64Max).None? ==> |Secrets(lines)| < |lines|
  {
    if lines != [] {
      var init := lines[..|lines| - 1];
      SecretsKept(init);
      assert forall k :: 0 <= k < |init| ==> init[k] == lines[k];
    }
  }

  /** main: both answers for the buyers read from the input, 2000 rounds each. */
  method Answers(input: string) returns (part1: int, part2: int)
    ensures part1 == SecretSum(Secrets(Lines(input)), |Secrets(Lines(input))|, 2000)
    ensures IsBest(Tables(Secrets(Lines(input)), 2000), part2)
  {
    part1, part2 := Solve(Secrets(Lines(input)), 2000);
  }
}
