/** Day 9: compacting a disk.  The disk is an array of slots, each free or holding a block of a
    file.  part1 moves single blocks from the end into the first free slots; part2 moves whole
    files, highest id first, into the leftmost free run before them.  Both only ever move a block
    into a free slot and free its source, so the blocks on the disk are preserved; part2 is also
    proved equal to a functional description that searches every run from the start of the
    disk. */
module Day09 {
  import opened Common

  /** A file: its id, its size in blocks and the slot its first block starts at. */
  datatype File = File(id: nat, size: nat, initialIndex: nat)

  /** A slot: a block of a file, or free. */
  type Slot = Option<File>

  // ---------------------------------------------------------------------------
  // Checksum

  /** The checksum of the first `n` slots: position times file id over the used slots. */
  function ChecksumUpTo(s: seq<Slot>, n: nat): (r: int)
    requires n <= |s|
    ensures r >= 0
    ensures (forall k :: 0 <= k < n ==> s[k].None?) ==> r == 0
    ensures forall k :: 0 <= k < n && s[k].Some? ==> k * s[k].value.id <= r
  {
    if n == 0 then 0
    else ChecksumUpTo(s, n - 1) + (match s[n - 1] case Some(f) => (n - 1) * f.id case None => 0)
  }

  /** checksum: never negative, zero on a free disk, and at least the term of every used
      slot. */
  function Checksum(s: seq<Slot>): (r: int)
    ensures r >= 0
    ensures (forall k :: 0 <= k < |s| ==> s[k].None?) ==> r == 0
    ensures forall k :: 0 <= k < |s| && s[k].Some? ==> k * s[k].value.id <= r
  {
    ChecksumUpTo(s, |s|)
  }

  /** The checksum is the sum of every used slot's position times its id: moving a block from
      slot `p` to a free slot `q` changes it by (q - p) times the id, so moving blocks left
      lowers it. */
  lemma {:induction false} ChecksumMove(s: seq<Slot>, p: nat, q: nat, n: nat)
    requires p < |s| && q < |s| && p != q && n <= |s|
    requires s[p].Some? && s[q].None?
    ensures ChecksumUpTo(s[q := s[p]][p := None], n) ==
      ChecksumUpTo(s, n) + (if q < n then q * s[p].value.id else 0) - (if p < n then p * s[p].value.id else 0)
    decreases n
  {
    if n > 0 {
      ChecksumMove(s, p, q, n - 1);
    }
  }

  /** checksum's loop. */
  method ComputeChecksum(disk: array<Slot>) returns (ret: int)
    ensures ret == Checksum(disk[..])
  {
    ret := 0;
    for i := 0 to disk.Length
      invariant ret == ChecksumUpTo(disk[..], i)
    {
      match disk[i]
      case Some(file) => ret := ret + i * file.id;
      case None =>
    }
  }

  // ---------------------------------------------------------------------------
  // Moving blocks

  /** Moving the block at `from` into the free slot `to` keeps every block on the disk. */
  lemma MoveKeepsBlocks(s: seq<Slot>, to: nat, from: nat)
    requires to < |s| && from < |s| && s[to].None?
    ensures multiset(s[to := s[from]][from := None]) == multiset(s)
  {
    var t := s[to := s[from]];
    if to != from {
      assert t[from] == s[from];
    }
  }

  /** The slots `to..to+size` free. */
  predicate Free(s: seq<Slot>, to: nat, size: nat)
    requires to + size <= |s|
  {
    forall k :: to <= k < to + size ==> s[k].None?
  }

  /** The first `i` blocks of `from..from+size` moved into `to..to+size`, which lies before it. */
  function Moved(s: seq<Slot>, from: nat, to: nat, i: nat): (r: seq<Slot>)
    requires to + i <= from && from + i <= |s|
    ensures |r| == |s|
  {
    seq(|s|, k requires 0 <= k < |s| =>
      if to <= k < to + i then s[from + k - to]
      else if from <= k < from + i then None
      else s[k])
  }

  /** Moving one more block is one move of a block into a free slot. */
  lemma MovedStep(s: seq<Slot>, from: nat, to: nat, i: nat)
    requires to + i + 1 <= from && from + i + 1 <= |s|
    requires Free(s, to, i + 1)
    ensures Moved(s, from, to, i)[to + i].None?
    ensures Moved(s, from, to, i + 1) ==
      Moved(s, from, to, i)[to + i := Moved(s, from, to, i)[from + i]][from + i := None]
  {
  }

  /** Moving a file's blocks into a free run keeps every block on the disk. */
  lemma {:induction false} MovedKeepsBlocks(s: seq<Slot>, from: nat, to: nat, i: nat)
    requires to + i <= from && from + i <= |s|
    requires Free(s, to, i)
    ensures multiset(Moved(s, from, to, i)) == multiset(s)
    decreases i
  {
    if i == 0 {
      assert Moved(s, from, to, 0) == s;
    } else {
      MovedKeepsBlocks(s, from, to, i - 1);
      MovedStep(s, from, to, i - 1);
      MoveKeepsBlocks(Moved(s, from, to, i - 1), to + i - 1, from + i - 1);
    }
  }

  // ---------------------------------------------------------------------------
  // Free runs

  /** The leftmost start at or after `j` of `size` free slots ending at or before `end`; there
      is never a run of size 0. */
  function FirstRunFrom(s: seq<Slot>, size: nat, end: nat, j: nat): (r: Option<nat>)
    requires end <= |s|
    ensures r.Some? ==> j <= r.value && r.value + size <= end && size > 0 && Free(s, r.value, size)
    decreases end - j
  {
    if size == 0 || j + size > end then None
    else if Free(s, j, size) then Some(j)
    else FirstRunFrom(s, size, end, j + 1)
  }

  /** No run found means no free run of that size at all between `j` and `end`; a run found is
      the leftmost one. */
  lemma {:induction false} FirstRunLeftmost(s: seq<Slot>, size: nat, end: nat, j: nat, k: nat)
    requires end <= |s| && j <= k && k + size <= end && size > 0 && Free(s, k, size)
    ensures FirstRunFrom(s, size, end, j).Some? && FirstRunFrom(s, size, end, j).value <= k
    decreases end - j
  {
    if !Free(s, j, size) {
      FirstRunLeftmost(s, size, end, j + 1, k);
    }
  }

  /** The run found is the first free run: none starts earlier. */
  lemma {:induction false} FirstRunIs(s: seq<Slot>, size: nat, end: nat, j: nat, k: nat)
    requires end <= |s| && j <= k && k + size <= end && size > 0 && Free(s, k, size)
    requires forall m :: j <= m < k ==> !Free(s, m, size)
    ensures FirstRunFrom(s, size, end, j) == Some(k)
    decreases k - j
  {
    if j < k {
      FirstRunIs(s, size, end, j + 1, k);
    }
  }

  /** No free run between `j` and `end`. */
  lemma {:induction false} FirstRunNone(s: seq<Slot>, size: nat, end: nat, j: nat)
    requires end <= |s|
    requires forall m :: j <= m && m + size <= end ==> !Free(s, m, size)
    ensures FirstRunFrom(s, size, end, j) == None
    decreases end - j
  {
    if size > 0 && j + size <= end {
      FirstRunNone(s, size, end, j + 1);
    }
  }

  /** Starting the search after a prefix of used slots finds the same run as from the start. */
  lemma {:induction false} FirstRunSkip(s: seq<Slot>, size: nat, end: nat, j: nat)
    requires end <= |s|
    requires forall k :: 0 <= k < j && k < |s| ==> s[k].Some?
    ensures FirstRunFrom(s, size, end, 0) == FirstRunFrom(s, size, end, j)
  {
    if size > 0 {
      match FirstRunFrom(s, size, end, j)
      case Some(k) =>
        FirstRunNoEarlier(s, size, end, j, k);
        forall m | 0 <= m < k
          ensures !Free(s, m, size)
        {
          if m < j {
            assert s[m].Some?;
          }
        }
        FirstRunIs(s, size, end, 0, k);
      case None =>
        forall m | 0 <= m && m + size <= end
          ensures !Free(s, m, size)
        {
          if m < j {
            assert s[m].Some?;
          } else if Free(s, m, size) {
            FirstRunLeftmost(s, size, end, j, m);
          }
        }
        FirstRunNone(s, size, end, 0);
    }
  }

  /** No free run starts between `j` and the run found from `j`. */
  lemma {:induction false} FirstRunNoEarlier(s: seq<Slot>, size: nat, end: nat, j: nat, k: nat)
    requires end <= |s| && FirstRunFrom(s, size, end, j) == Some(k)
    ensures forall m :: j <= m < k ==> !Free(s, m, size)
    decreases end - j
  {
    if j < k {
      FirstRunNoEarlier(s, size, end, j + 1, k);
    }
  }

  /** find_space: scans `start..end` for the first run of `size` free slots.  The returned run
      is the leftmost one at or after the incoming `start`, and the updated `start'` moves only
      across the occupied slots at the front of the scanned range. */
  method FindSpace(start: nat, disk: array<Slot>, size: nat, end: nat) returns (start': nat, r: Option<nat>)
    requires end <= disk.Length
    ensures r == FirstRunFrom(disk[..], size, end, start)
    ensures start <= start' && (start' == start || start' < end)
    ensures forall k :: start <= k <= start' && start < start' ==> disk[k].Some?
  {
    start' := start;
    var streak := 0;
    var onlyUsed := true;
    for i := start to Max(start, end)
      invariant start <= start' && (start' == start || start' < i <= end)
      invariant forall k :: start <= k <= start' && start < start' ==> disk[k].Some?
      invariant i - streak >= start
      invariant forall k :: i - streak <= k < i ==> disk[k].None?
      invariant i - streak == start || disk[i - streak - 1].Some?
      invariant onlyUsed <==> forall k :: start <= k < i ==> disk[k].Some?
      invariant onlyUsed ==> streak == 0
      invariant size > 0 ==> streak < size
      invariant size > 0 ==> forall m :: start <= m && m + size <= i && m + size <= disk.Length ==> !Free(disk[..], m, size)
    {
      if disk[i].Some? {
        if onlyUsed {
          start' := i;
        } else {
          streak := 0;
        }
        if size > 0 {
          NoRunThroughUsed(disk[..], size, start, i);
        }
      } else {
        streak := streak + 1;
        onlyUsed := false;
        if streak == size {
          r := Some(i - (size - 1));
          FirstRunIs(disk[..], size, end, start, i - (size - 1));
          return;
        }
        if size > 0 {
          NoRunShorterStreak(disk[..], size, start, i, streak);
        }
      }
    }
    if size > 0 {
      FirstRunNone(disk[..], size, end, start);
    }
    r := None;
  }

  /** A run ending at a used slot is not free. */
  lemma NoRunThroughUsed(s: seq<Slot>, size: nat, start: nat, i: nat)
    requires i < |s| && s[i].Some? && size > 0
    requires forall m :: start <= m && m + size <= i ==> !Free(s, m, size)
    ensures forall m :: start <= m && m + size <= i + 1 ==> !Free(s, m, size)
  {
    forall m | start <= m && m + size == i + 1
      ensures !Free(s, m, size)
    {
      assert !s[i].None?;
    }
  }

  /** A run ending at slot `i` reaches back past the free stretch ending there, so it holds a
      used slot or starts before `start`. */
  lemma NoRunShorterStreak(s: seq<Slot>, size: nat, start: nat, i: nat, streak: nat)
    requires i < |s| && streak <= i + 1 && streak < size && i + 1 - streak >= start
    requires i + 1 - streak == start || s[i - streak].Some?
    requires forall m :: start <= m && m + size <= i ==> !Free(s, m, size)
    ensures forall m :: start <= m && m + size <= i + 1 ==> !Free(s, m, size)
  {
    forall m | start <= m && m + size == i + 1
      ensures !Free(s, m, size)
    {
      assert m <= i - streak < m + size;
      if i + 1 - streak == start {
        assert false;
      }
      assert !s[i - streak].None?;
    }
  }

  // ---------------------------------------------------------------------------
  // Part 2

  /** A file's slots lie on a disk of `len` slots. */
  predicate Fits(f: File, len: nat)
  {
    f.initialIndex + f.size <= len
  }

  /** Every file's slots lie on a disk of `len` slots. */
  predicate AllFit(files: seq<File>, len: nat)
  {
    forall j :: 0 <= j < |files| ==> Fits(files[j], len)
  }

  /** One file of part2: moved whole into the leftmost free run of its size that ends at or
      before its original slot, searching from the start of the disk, or left alone. */
  function Step(s: seq<Slot>, f: File): (r: seq<Slot>)
    requires Fits(f, |s|)
    ensures |r| == |s|
  {
    match FirstRunFrom(s, f.size, f.initialIndex, 0)
    case Some(j) => Moved(s, f.initialIndex, j, f.size)
    case None => s
  }

  /** The disk after the files from `k` on are handled, the last file first. */
  function Done(s: seq<Slot>, files: seq<File>, k: nat): (r: seq<Slot>)
    requires k <= |files| && AllFit(files, |s|)
    ensures |r| == |s|
    decreases |files| - k
  {
    if k == |files| then s else Step(Done(s, files, k + 1), files[k])
  }

  /** The disk after part2: every file handled once, highest id first. */
  function Compacted(s: seq<Slot>, files: seq<File>): (r: seq<Slot>)
    requires AllFit(files, |s|)
    ensures |r| == |s|
  {
    Done(s, files, 0)
  }

  /** Part2 keeps every block on the disk. */
  lemma {:induction false} DoneKeepsBlocks(s: seq<Slot>, files: seq<File>, k: nat)
    requires k <= |files| && AllFit(files, |s|)
    ensures multiset(Done(s, files, k)) == multiset(s)
    decreases |files| - k
  {
    if k < |files| {
      DoneKeepsBlocks(s, files, k + 1);
      var t := Done(s, files, k + 1);
      var f := files[k];
      match FirstRunFrom(t, f.size, f.initialIndex, 0)
      case Some(j) => MovedKeepsBlocks(t, f.initialIndex, j, f.size);
      case None =>
    }
  }

  /** Part2 keeps every block on the disk. */
  lemma CompactedKeepsBlocks(s: seq<Slot>, files: seq<File>)
    requires AllFit(files, |s|)
    ensures multiset(Compacted(s, files)) == multiset(s)
  {
    DoneKeepsBlocks(s, files, 0);
  }

  /** A file moves only into a free run that ends at or before its original slot, and the run
      is the leftmost such; otherwise the disk is unchanged. */
  lemma StepMovesLeft(s: seq<Slot>, f: File)
    requires Fits(f, |s|)
    ensures Step(s, f) == s ||
      (exists j: nat :: j + f.size <= f.initialIndex && Free(s, j, f.size) &&
         Step(s, f) == Moved(s, f.initialIndex, j, f.size) &&
         (forall m :: 0 <= m < j ==> !Free(s, m, f.size)))
  {
    match FirstRunFrom(s, f.size, f.initialIndex, 0)
    case Some(j) => FirstRunNoEarlier(s, f.size, f.initialIndex, 0, j);
    case None =>
  }

  /** The blocks of one file moved into the free run at `to`. */
  method MoveFile(disk: array<Slot>, from: nat, to: nat, size: nat)
    requires to + size <= from && from + size <= disk.Length
    requires Free(disk[..], to, size)
    modifies disk
    ensures disk[..] == Moved(old(disk[..]), from, to, size)
  {
    ghost var s := disk[..];
    for i := 0 to size
      invariant disk[..] == Moved(s, from, to, i)
    {
      MovedStep(s, from, to, i);
      assert disk[to + i].None?;
      disk[to + i] := disk[from + i];
      disk[from + i] := None;
    }
  }

  /** part2: the files from last to first, each moved whole into the leftmost free run before
      it.  The search resumes from `start`, below which every slot stays used, so it finds the
      same run as a search from the start of the disk. */
  method Part2(disk: array<Slot>, files: seq<File>) returns (ret: int)
    requires AllFit(files, disk.Length)
    modifies disk
    ensures disk[..] == Compacted(old(disk[..]), files)
    ensures ret == Checksum(disk[..])
  {
    var start := 0;
    var k := |files|;
    while k > 0
      invariant 0 <= k <= |files|
      invariant disk[..] == Done(old(disk[..]), files, k)
      invariant forall j :: 0 <= j < start && j < disk.Length ==> disk[j].Some?
    {
      k := k - 1;
      var file := files[k];
      assert Fits(file, disk.Length);
      var oldStart := start;
      var idx;
      start, idx := FindSpace(start, disk, file.size, file.initialIndex);
      FirstRunSkip(disk[..], file.size, file.initialIndex, oldStart);
      UsedBelow(disk[..], oldStart, start);
      match idx
      case Some(idx) =>
        assert disk[..][idx].None?;
        assert start <= idx;
        MoveFile(disk, file.initialIndex, idx, file.size);
      case None =>
    }
    ret := ComputeChecksum(disk);
  }

  /** The used slots below the old start and between it and the new one are all the slots
      below the new start. */
  lemma UsedBelow(s: seq<Slot>, oldStart: nat, start: nat)
    requires forall j :: 0 <= j < oldStart && j < |s| ==> s[j].Some?
    requires oldStart <= start
    requires forall k :: oldStart <= k <= start && oldStart < start && k < |s| ==> s[k].Some?
    ensures forall j :: 0 <= j < start && j < |s| ==> s[j].Some?
  {
  }

  // ---------------------------------------------------------------------------
  // Part 1

  /** Every used slot holds a block of a file of at least one block, as every disk built from
      a disk map does; a block of an empty file would stall part1. */
  predicate NoEmptyBlocks(s: seq<Slot>)
  {
    forall k :: 0 <= k < |s| && s[k].Some? ==> s[k].value.size > 0
  }

  /** One transfer of part1: the block at `from` put into the free slot `to`, and `from` freed. */
  method Transfer(disk: array<Slot>, to: nat, from: nat)
    requires to < disk.Length && from < disk.Length && disk[to].None?
    requires NoEmptyBlocks(disk[..])
    modifies disk
    ensures disk[..] == old(disk[..])[to := old(disk[from])][from := None]
    ensures multiset(disk[..]) == multiset(old(disk[..]))
    ensures NoEmptyBlocks(disk[..])
  {
    MoveKeepsBlocks(disk[..], to, from);
    disk[to] := disk[from];
    disk[from] := None;
  }

  /** The inner loop of part1 for the file whose block sits at `rear`: up to its size blocks
      taken from `rear` backwards into the first free slots from `front`.  It always advances
      `front`; `panicked` stands for a rear index minus the block offset below zero or a front
      index past the end. */
  method MoveRear(disk: array<Slot>, front: nat, rear: nat, size: nat) returns (front': nat, panicked: bool)
    requires front < rear < disk.Length && size > 0
    requires NoEmptyBlocks(disk[..])
    modifies disk
    ensures multiset(disk[..]) == multiset(old(disk[..]))
    ensures NoEmptyBlocks(disk[..])
    ensures !panicked ==> front < front'
  {
    front' := front;
    for i := 0 to size
      invariant front <= front' <= disk.Length
      invariant i == 0 ==> front' == front
      invariant i > 0 ==> front' > front
      invariant multiset(disk[..]) == multiset(old(disk[..]))
      invariant NoEmptyBlocks(disk[..])
    {
      if i > rear {
        return front', true;
      }
      while front' < rear - i
        invariant front <= front' && (i == 0 ==> front' <= rear) && (i > 0 ==> front' > front)
        decreases rear - i - front'
      {
        if disk[front'].None? {
          break;
        }
        front' := front' + 1;
      }
      if front' >= disk.Length {
        return front', true;
      }
      if disk[front'].Some? {
        if i == 0 {
          assert front' >= rear;
        }
        return front', false;
      }
      Transfer(disk, front', rear - i);
      front' := front' + 1;
    }
    panicked := false;
  }

  /** part1: blocks taken from the rear of the disk and put into the first free slots.  Each
      transfer fills a slot that is free at that moment and frees the slot it came from, so the
      blocks on the disk are kept.  None stands for the source's panics: an empty disk (whose
      last index is below zero), a rear index minus the block offset below zero, or a front
      index past the end. */
  method Part1(disk: array<Slot>) returns (ret: Option<int>)
    requires NoEmptyBlocks(disk[..])
    modifies disk
    ensures multiset(disk[..]) == multiset(old(disk[..]))
    ensures ret.Some? ==> ret.value == Checksum(disk[..])
    ensures disk.Length == 0 ==> ret.None?
  {
    if disk.Length == 0 {
      return None;
    }
    var front: nat := 0;
    var rear: nat := disk.Length - 1;
    while front < rear
      invariant rear < disk.Length
      invariant multiset(disk[..]) == multiset(old(disk[..]))
      invariant NoEmptyBlocks(disk[..])
      decreases rear - front
    {
      match disk[rear]
      case None =>
        rear := rear - 1;
      case Some(file) =>
        assert disk[..][rear].Some?;
        var panicked;
        front, panicked := MoveRear(disk, front, rear, file.size);
        if panicked {
          return None;
        }
    }
    var sum := ComputeChecksum(disk);
    ret := Some(sum);
  }

  // ---------------------------------------------------------------------------
  // Building the disk from the disk map

  /** The first `n` characters of the disk map are digits. */
  predicate DigitsBefore(m: string, n: nat)
  {
    n <= |m| && forall j :: 0 <= j < n ==> IsDigit(m[j])
  }

  /** The slot after the first `n` digits: their sum. */
  function Position(m: string, n: nat): nat
    requires DigitsBefore(m, n)
  {
    if n == 0 then 0 else Position(m, n - 1) + DigitValue(m[n - 1])
  }

  /** The files of the first `n` digits: each even-indexed digit is the size of the file whose
      id is half its index, starting where the digits before it end. */
  function FilesUpTo(m: string, n: nat): seq<File>
    requires DigitsBefore(m, n)
  {
    if n == 0 then []
    else if (n - 1) % 2 == 0 then
      FilesUpTo(m, n - 1) + [File((n - 1) / 2, DigitValue(m[n - 1]), Position(m, n - 1))]
    else FilesUpTo(m, n - 1)
  }

  /** The slot of a file that covers `p`. */
  predicate Covers(f: File, p: int)
  {
    f.initialIndex <= p < f.initialIndex + f.size
  }

  /** The slot `p` after the first `n` files are written: the last of them that covers it. */
  function Owner(files: seq<File>, n: nat, p: int): (r: Slot)
    requires n <= |files|
    ensures r.Some? ==> Covers(r.value, p) && r.value in files[..n]
    ensures r.None? ==> forall k :: 0 <= k < n ==> !Covers(files[k], p)
  {
    if n == 0 then None
    else if Covers(files[n - 1], p) then Some(files[n - 1])
    else Owner(files, n - 1, p)
  }

  /** A disk of `len` slots after the first `n` files are written. */
  function Layout(files: seq<File>, len: nat, n: nat): (r: seq<Slot>)
    requires n <= |files|
    ensures |r| == len
  {
    seq(len, p => Owner(files, n, p))
  }

  /** Where the last file ends: the length of the disk. */
  function DiskLength(files: seq<File>): nat
    requires |files| > 0
  {
    files[|files| - 1].initialIndex + files[|files| - 1].size
  }

  /** The files of a disk map and their positions. */
  lemma {:induction false} FilesShape(m: string, n: nat)
    requires DigitsBefore(m, n)
    ensures |FilesUpTo(m, n)| == (n + 1) / 2
    ensures forall k :: 0 <= k < (n + 1) / 2 ==>
      FilesUpTo(m, n)[k] == File(k, DigitValue(m[2 * k]), Position(m, 2 * k))
  {
    if n > 0 {
      FilesShape(m, n - 1);
    }
  }

  /** Positions only grow. */
  lemma {:induction false} PositionGrows(m: string, a: nat, b: nat)
    requires a <= b && DigitsBefore(m, b)
    ensures Position(m, a) <= Position(m, b)
    decreases b - a
  {
    if a < b {
      PositionGrows(m, a, b - 1);
    }
  }

  /** The files of a disk map follow one another: each ends at or before the next starts, and
      every one fits the disk, which ends where the last one ends. */
  lemma FilesInOrder(m: string)
    requires DigitsBefore(m, |m|) && |m| > 0
    ensures |FilesUpTo(m, |m|)| > 0
    ensures forall j, k :: 0 <= j < k < |FilesUpTo(m, |m|)| ==>
      FilesUpTo(m, |m|)[j].initialIndex + FilesUpTo(m, |m|)[j].size <= FilesUpTo(m, |m|)[k].initialIndex
    ensures AllFit(FilesUpTo(m, |m|), DiskLength(FilesUpTo(m, |m|)))
  {
    var files := FilesUpTo(m, |m|);
    FilesShape(m, |m|);
    forall j, k | 0 <= j < k < |files|
      ensures files[j].initialIndex + files[j].size <= files[k].initialIndex
    {
      PositionGrows(m, 2 * j + 1, 2 * k);
    }
  }

  /** Every slot of a file holds that file when the files do not overlap. */
  lemma {:induction false} OwnerIs(files: seq<File>, n: nat, k: nat, p: int)
    requires k < n <= |files| && Covers(files[k], p)
    requires forall j, l :: 0 <= j < l < |files| ==>
      files[j].initialIndex + files[j].size <= files[l].initialIndex
    ensures Owner(files, n, p) == Some(files[k])
  {
    if k < n - 1 {
      assert !Covers(files[n - 1], p);
      OwnerIs(files, n - 1, k, p);
    }
  }

  /** The files of a disk map. */
  function FilesOf(m: string): (r: seq<File>)
    requires DigitsBefore(m, |m|)
    ensures |m| > 0 ==> |r| > 0
  {
    FilesShape(m, |m|);
    FilesUpTo(m, |m|)
  }

  /** The disk main builds from a disk map. */
  function InitialDisk(m: string): (r: seq<Slot>)
    requires DigitsBefore(m, |m|) && |m| > 0
  {
    Layout(FilesOf(m), DiskLength(FilesOf(m)), |FilesOf(m)|)
  }

  /** The slots of file k of a disk map hold file k. */
  lemma DiskSlot(m: string, k: nat, p: int)
    requires DigitsBefore(m, |m|) && |m| > 0
    requires k < |FilesOf(m)| && Covers(FilesOf(m)[k], p)
    ensures 0 <= p < |InitialDisk(m)| && InitialDisk(m)[p] == Some(FilesOf(m)[k])
  {
    var files := FilesOf(m);
    FilesInOrder(m);
    assert Fits(files[k], DiskLength(files));
    OwnerIs(files, |files|, k, p);
  }

  /** The disk built from a disk map: the slots of file k hold file k, every file fits it, and
      no slot holds a block of an empty file. */
  lemma DiskOfMap(m: string)
    requires DigitsBefore(m, |m|) && |m| > 0
    ensures AllFit(FilesOf(m), |InitialDisk(m)|)
    ensures forall k: nat, p: int :: k < |FilesOf(m)| && Covers(FilesOf(m)[k], p) ==>
      0 <= p < |InitialDisk(m)| && InitialDisk(m)[p] == Some(FilesOf(m)[k])
    ensures NoEmptyBlocks(InitialDisk(m))
  {
    var files := FilesOf(m);
    FilesInOrder(m);
    forall k: nat, p: int | k < |files| && Covers(files[k], p)
      ensures 0 <= p < |InitialDisk(m)| && InitialDisk(m)[p] == Some(files[k])
    {
      DiskSlot(m, k, p);
    }
    assert forall k: nat, p: int :: k < |FilesOf(m)| && Covers(FilesOf(m)[k], p) ==>
      0 <= p < |InitialDisk(m)|;
    assert forall k: nat, p: int :: k < |FilesOf(m)| && Covers(FilesOf(m)[k], p) ==>
      InitialDisk(m)[p] == Some(FilesOf(m)[k]);
    var disk := InitialDisk(m);
    forall p | 0 <= p < |disk| && disk[p].Some?
      ensures disk[p].value.size > 0
    {
      assert disk[p] == Owner(files, |files|, p);
    }
  }

  /** The parse loop of main: the files of the disk map, or false when a character is not a
      digit (the source's `expect` panics). */
  method ReadMap(input: string) returns (files: seq<File>, ok: bool)
    ensures ok <==> DigitsBefore(input, |input|)
    ensures ok ==> files == FilesUpTo(input, |input|)
  {
    files := [];
    var position := 0;
    for i := 0 to |input|
      invariant DigitsBefore(input, i)
      invariant files == FilesUpTo(input, i)
      invariant position == Position(input, i)
    {
      if !IsDigit(input[i]) {
        return [], false;
      }
      var d := DigitValue(input[i]);
      if i % 2 == 0 {
        files := files + [File(i / 2, d, position)];
      }
      position := position + d;
    }
    ok := true;
  }

  /** The disk of main: `len` free slots, then every file's slots set to that file. */
  method WriteDisk(files: seq<File>, len: nat) returns (disk: array<Slot>)
    requires AllFit(files, len)
    ensures fresh(disk)
    ensures disk[..] == Layout(files, len, |files|)
  {
    disk := new Slot[len](_ => None);
    assert disk[..] == Layout(files, len, 0);
    for n := 0 to |files|
      invariant disk[..] == Layout(files, len, n)
    {
      var file := files[n];
      assert Fits(file, len);
      for i := file.initialIndex to file.initialIndex + file.size
        invariant forall p :: 0 <= p < len ==>
          disk[p] == if file.initialIndex <= p < i then Some(file) else Owner(files, n, p)
      {
        disk[i] := Some(file);
      }
      assert disk[..] == Layout(files, len, n + 1);
    }
  }

  /** A copy of the disk (`disk.clone()`). */
  method Clone(disk: array<Slot>) returns (copy: array<Slot>)
    ensures fresh(copy) && copy[..] == disk[..]
  {
    copy := new Slot[disk.Length];
    forall k | 0 <= k < disk.Length {
      copy[k] := disk[k];
    }
  }

  /** The disk and files of main, or false where main panics: a character that is not a digit,
      or an empty map (no last file). */
  method Build(input: string) returns (files: seq<File>, disk: array<Slot>, ok: bool)
    ensures fresh(disk)
    ensures ok <==> |input| > 0 && DigitsBefore(input, |input|)
    ensures ok ==> files == FilesOf(input) && disk[..] == InitialDisk(input)
  {
    files, ok := ReadMap(input);
    if !ok {
      disk := new Slot[0];
      return;
    }
    if |input| == 0 {
      disk := new Slot[0];
      ok := false;
      return;
    }
    DiskOfMap(input);
    disk := WriteDisk(files, DiskLength(files));
  }

  /** The two answers; None where the source panics.  part1 is the checksum of a rearrangement
      of the initial disk; part2 the checksum of the compacted initial disk. */
  method Answers(input: string) returns (part1: Option<int>, part2: Option<int>)
    ensures !(|input| > 0 && DigitsBefore(input, |input|)) ==> part1.None? && part2.None?
    ensures |input| > 0 && DigitsBefore(input, |input|) ==>
      AllFit(FilesOf(input), |InitialDisk(input)|) &&
      part2 == Some(Checksum(Compacted(InitialDisk(input), FilesOf(input))))
    ensures part1.Some? ==> exists d :: multiset(d) == multiset(InitialDisk(input)) && part1.value == Checksum(d)
  {
    var files, disk, ok := Build(input);
    if !ok {
      return None, None;
    }
    DiskOfMap(input);
    var copy := Clone(disk);
    part1 := Part1(copy);
    ghost var rearranged := copy[..];
    assert part1.Some? ==> multiset(rearranged) == multiset(InitialDisk(input)) && part1.value == Checksum(rearranged);
    var sum := Part2(disk, files);
    part2 := Some(sum);
  }
}
