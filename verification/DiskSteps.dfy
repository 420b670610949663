/** What the elementary disk operations change and what they leave: marking a bit, first-fit
    allocation, storing a slot, a size, a whole directory entry. */
module DiskSteps {
  import opened DiskFormat
  import opened FileSpec

  /** At least the part of the drive that the first bitmap slice covers. */
  predicate Sized(disk: seq<Sector>) { |disk| >= FIRST_SLICE }

  /** The bit of a sector that the first slice covers; kernel and host agree on these. */
  predicate Used(disk: seq<Sector>, sec: nat) { Bit(disk, KERNEL_STRIDE, sec) }

  /** The bit of inode i, and of data block b. */
  predicate INodeUsed(disk: seq<Sector>, i: nat) { Used(disk, 513 + i) }

  predicate BlockUsed(disk: seq<Sector>, b: nat) { Used(disk, 769 + b) }

  lemma KernelAndHost(disk: seq<Sector>, stride: nat, sec: nat)
    requires sec < FIRST_SLICE
    ensures Slice(disk, stride, sec) == Sec(disk, 1)
    ensures Bit(disk, stride, sec) == Used(disk, sec)
    ensures |disk| > 1 ==> Mark(disk, stride, sec) == Mark(disk, KERNEL_STRIDE, sec)
  {
    assert SliceNo(sec) == 0;
  }

  // ---- the bitmap

  /** A zero byte has no bit set. */
  lemma {:induction false} ZeroHasNone(r: nat)
    decreases r
    ensures !HasBit(0, r)
  {
    if r > 0 {
      ZeroHasNone(r - 1);
    }
  }

  /** A slice, a byte of it and a bit of that determine the sector. */
  lemma BitPosition(sec: nat, q: nat)
    requires SliceNo(sec) == SliceNo(q) && sec / 8 % 512 == q / 8 % 512 && sec % 8 == q % 8
    ensures sec == q
  {
    var a, b := sec / 8, q / 8;
    assert a / 512 == SliceNo(sec) && b / 512 == SliceNo(q);
    assert a == 512 * (a / 512) + a % 512 && b == 512 * (b / 512) + b % 512;
    assert sec == 8 * a + sec % 8 && q == 8 * b + q % 8;
  }

  lemma MarkSliceBit(s: Sector, sec: nat, q: nat)
    requires SliceNo(sec) == SliceNo(q)
    ensures HasBit(MarkSlice(s, sec)[q / 8 % 512], q % 8) == (q == sec || HasBit(s[q / 8 % 512], q % 8))
  {
    hide HasBit, WithBit, SliceNo;
    WithBitHas(s[sec / 8 % 512], sec % 8, q % 8);
    if sec / 8 % 512 == q / 8 % 512 && sec % 8 == q % 8 {
      BitPosition(sec, q);
    }
  }

  /** Setting a bit sets that bit and leaves all others. */
  lemma MarkBit(disk: seq<Sector>, stride: nat, sec: nat, q: nat)
    requires stride == KERNEL_STRIDE || stride == HOST_STRIDE
    requires 1 + stride * SliceNo(sec) < |disk|
    ensures Bit(Mark(disk, stride, sec), stride, q) == (q == sec || Bit(disk, stride, q))
  {
    hide HasBit, MarkSlice;
    if SliceNo(q) == SliceNo(sec) {
      MarkSliceBit(Slice(disk, stride, sec), sec, q);
    }
  }

  lemma MarkElsewhere(disk: seq<Sector>, stride: nat, sec: nat, i: int)
    requires i != 1 + stride * SliceNo(sec)
    ensures |Mark(disk, stride, sec)| == |disk| && Sec(Mark(disk, stride, sec), i) == Sec(disk, i)
  {
  }

  /** Marking a sector of the first slice. */
  lemma MarkLow(disk: seq<Sector>, sec: nat)
    requires |disk| > 1 && sec < FIRST_SLICE
    ensures var disk' := Mark(disk, KERNEL_STRIDE, sec);
            |disk'| == |disk| && (forall i :: i != 1 ==> Sec(disk', i) == Sec(disk, i))
            && (forall q :: 0 <= q < FIRST_SLICE ==> Used(disk', q) == (q == sec || Used(disk, q)))
  {
    hide Bit, Mark;
    forall q | 0 <= q < FIRST_SLICE
      ensures Used(Mark(disk, KERNEL_STRIDE, sec), q) == (q == sec || Used(disk, q))
    {
      MarkBit(disk, KERNEL_STRIDE, sec, q);
    }
    forall i | i != 1
      ensures Sec(Mark(disk, KERNEL_STRIDE, sec), i) == Sec(disk, i)
    {
      MarkElsewhere(disk, KERNEL_STRIDE, sec, i);
    }
    MarkElsewhere(disk, KERNEL_STRIDE, sec, 0);
  }

  /** First fit: the number found is the least one whose bit is clear. */
  lemma {:induction false} FirstClearFinds(disk: seq<Sector>, stride: nat, base: nat, n: nat, i: nat)
    requires i <= n
    decreases n - i
    ensures var k := FirstClear(disk, stride, base, n, i);
            i <= k <= n && (k < n ==> !Taken(disk, stride, base, k))
            && forall j :: i <= j < k ==> Taken(disk, stride, base, j)
  {
    hide Bit, Taken;
    if i < n && Taken(disk, stride, base, i) {
      FirstClearFinds(disk, stride, base, n, i + 1);
    }
  }

  /** The number of free data blocks below block b. */
  function Free(disk: seq<Sector>, b: nat): nat {
    if b == 0 then 0 else Free(disk, b - 1) + if BlockUsed(disk, b - 1) then 0 else 1
  }

  /** The blocks that the kernel can hand out without leaving the first bitmap slice. */
  function Room(disk: seq<Sector>): nat { Free(disk, SAFE_BLOCKS) }

  lemma {:induction false} FreeSome(disk: seq<Sector>, b: nat) returns (k: nat)
    requires Free(disk, b) > 0
    ensures k < b && !BlockUsed(disk, k)
  {
    hide Bit;
    if BlockUsed(disk, b - 1) {
      k := FreeSome(disk, b - 1);
    } else {
      k := b - 1;
    }
  }

  lemma {:induction false} FreeMarked(disk: seq<Sector>, disk': seq<Sector>, k: nat, b: nat)
    requires b <= SAFE_BLOCKS && !BlockUsed(disk, k)
    requires forall q :: 0 <= q < FIRST_SLICE ==> Used(disk', q) == (q == 769 + k || Used(disk, q))
    ensures Free(disk', b) == Free(disk, b) - if k < b then 1 else 0
  {
    hide Bit;
    if b > 0 {
      FreeMarked(disk, disk', k, b - 1);
      assert BlockUsed(disk', b - 1) == (b - 1 == k || BlockUsed(disk, b - 1));
    }
  }

  lemma {:induction false} FreeSame(disk: seq<Sector>, disk': seq<Sector>, b: nat)
    requires b <= SAFE_BLOCKS && Sec(disk', 1) == Sec(disk, 1)
    ensures Free(disk', b) == Free(disk, b)
  {
    if b > 0 {
      FreeSame(disk, disk', b - 1);
      KernelAndHost(disk, KERNEL_STRIDE, 769 + (b - 1));
      KernelAndHost(disk', KERNEL_STRIDE, 769 + (b - 1));
    }
  }

  /** dataAlloc while the first slice has room: a free block, now marked, and nothing else. */
  lemma DataAllocEffect(disk: seq<Sector>, stride: nat)
    requires |disk| > 1 && Room(disk) > 0 && (stride == KERNEL_STRIDE || stride == HOST_STRIDE)
    ensures var (disk', b) := DataAlloc(disk, stride);
            0 <= b < SAFE_BLOCKS && !BlockUsed(disk, b) && disk' == Mark(disk, KERNEL_STRIDE, 769 + b)
            && |disk'| == |disk| && (forall i :: i != 1 ==> Sec(disk', i) == Sec(disk, i))
            && (forall q :: 0 <= q < FIRST_SLICE ==> Used(disk', q) == (q == 769 + b || Used(disk, q)))
            && Room(disk') == Room(disk) - 1
  {
    hide Bit, Mark, Free;
    var k := FreeSome(disk, SAFE_BLOCKS);
    KernelAndHost(disk, stride, 769 + k);
    FirstClearFinds(disk, stride, 769, SC_DATA, 0);
    assert k < FirstClear(disk, stride, 769, SC_DATA, 0) ==> Taken(disk, stride, 769, k);
    var (disk', b) := DataAlloc(disk, stride);
    assert b <= k;
    KernelAndHost(disk, stride, 769 + b);
    MarkLow(disk, 769 + b);
    FreeMarked(disk, disk', b, SAFE_BLOCKS);
  }

  /** INodeAlloc while there is a free inode. */
  lemma INodeAllocEffect(disk: seq<Sector>, stride: nat)
    requires |disk| > 1 && (stride == KERNEL_STRIDE || stride == HOST_STRIDE)
    requires exists k :: 0 <= k < SC_INODE && !INodeUsed(disk, k)
    ensures var (disk', b) := INodeAlloc(disk, stride);
            0 <= b < SC_INODE && !INodeUsed(disk, b)
            && |disk'| == |disk| && (forall i :: i != 1 ==> Sec(disk', i) == Sec(disk, i))
            && (forall q :: 0 <= q < FIRST_SLICE ==> Used(disk', q) == (q == 513 + b || Used(disk, q)))
            && Room(disk') == Room(disk)
  {
    hide Bit, Mark, Free;
    var k :| 0 <= k < SC_INODE && !INodeUsed(disk, k);
    KernelAndHost(disk, stride, 513 + k);
    FirstClearFinds(disk, stride, 513, SC_INODE, 0);
    assert k < FirstClear(disk, stride, 513, SC_INODE, 0) ==> Taken(disk, stride, 513, k);
    var (disk', b) := INodeAlloc(disk, stride);
    assert b <= k;
    KernelAndHost(disk, stride, 513 + b);
    MarkLow(disk, 513 + b);
    FreeOther(disk, disk', 513 + b, SAFE_BLOCKS);
  }

  lemma {:induction false} FreeOther(disk: seq<Sector>, disk': seq<Sector>, sec: nat, b: nat)
    requires b <= SAFE_BLOCKS && sec < 769
    requires forall q :: 0 <= q < FIRST_SLICE ==> Used(disk', q) == (q == sec || Used(disk, q))
    ensures Free(disk', b) == Free(disk, b)
  {
    hide Bit;
    if b > 0 {
      FreeOther(disk, disk', sec, b - 1);
      assert BlockUsed(disk', b - 1) == BlockUsed(disk, b - 1);
    }
  }

  /** Every bit of a data block, wherever the kernel looks for it, is set. */
  predicate AllTaken(disk: seq<Sector>) { forall i :: 0 <= i < SC_DATA ==> Taken(disk, KERNEL_STRIDE, 769, i) }

  /** dataAlloc of the kernel stays inside the bitmap exactly when the first slice has room or
      all bits are set: it writes slice c to sector 1 + (c << 9), and for c > 0 that is an inode
      or a data block. */
  lemma DataAllocInBitmap(disk: seq<Sector>)
    requires |disk| >= 769 + SC_DATA
    ensures var disk' := DataAlloc(disk, KERNEL_STRIDE).0;
            (forall i :: LocDir(0) <= i ==> Sec(disk', i) == Sec(disk, i)) <==> (Room(disk) > 0 || AllTaken(disk))
  {
    hide Bit, Mark, Free, Taken;
    assert AllTaken(disk) <==> DataAlloc(disk, KERNEL_STRIDE).1 == -1 by {
      FirstClearFinds(disk, KERNEL_STRIDE, 769, SC_DATA, 0);
    }
    if Room(disk) > 0 {
      DataAllocEffect(disk, KERNEL_STRIDE);
    } else if DataAlloc(disk, KERNEL_STRIDE).1 != -1 {
      DataAllocOverruns(disk);
    }
  }

  /** Any block beyond the first slice changes a sector outside the bitmap; for the first 4096 of
      them it is the sector of inode 0. */
  lemma DataAllocOverruns(disk: seq<Sector>)
    requires |disk| >= 769 + SC_DATA && Room(disk) == 0 && DataAlloc(disk, KERNEL_STRIDE).1 != -1
    ensures var (disk', b) := DataAlloc(disk, KERNEL_STRIDE);
            var i := 1 + KERNEL_STRIDE * SliceNo(769 + b);
            LocDir(0) <= i && Sec(disk', i) != Sec(disk, i)
            && (b < SAFE_BLOCKS + FIRST_SLICE ==> i == LocINode(0))
  {
    hide Bit, Mark, Free;
    FirstClearFinds(disk, KERNEL_STRIDE, 769, SC_DATA, 0);
    var (disk', b) := DataAlloc(disk, KERNEL_STRIDE);
    if b < SAFE_BLOCKS {
      NoneFree(disk, SAFE_BLOCKS, b);
    }
    MarkChanges(disk, 769 + b);
  }

  lemma {:induction false} NoneFree(disk: seq<Sector>, b: nat, k: nat)
    requires k < b && Free(disk, b) == 0
    ensures BlockUsed(disk, k)
  {
    hide Bit;
    if k < b - 1 {
      NoneFree(disk, b - 1, k);
    }
  }

  lemma MarkChanges(disk: seq<Sector>, sec: nat)
    requires !Bit(disk, KERNEL_STRIDE, sec) && 1 + KERNEL_STRIDE * SliceNo(sec) < |disk|
    ensures Sec(Mark(disk, KERNEL_STRIDE, sec), 1 + KERNEL_STRIDE * SliceNo(sec)) != Sec(disk, 1 + KERNEL_STRIDE * SliceNo(sec))
  {
    hide HasBit, MarkSlice;
    MarkBit(disk, KERNEL_STRIDE, sec, sec);
  }

  // ---- the directory

  /** The two disks have the same directory. */
  predicate SameDirs(disk: seq<Sector>, disk': seq<Sector>) {
    |disk'| == |disk| && forall i :: LocDir(0) <= i < LocDir(SC_DIR) ==> Sec(disk', i) == Sec(disk, i)
  }

  lemma SameEntry(disk: seq<Sector>, disk': seq<Sector>, x: int)
    requires SameDirs(disk, disk') && 0 <= x < ENTRIES
    ensures Ino(disk', x) == Ino(disk, x) && Size(disk', x) == Size(disk, x) && Name(disk', x) == Name(disk, x)
  {
    hide WordAt;
    assert LocDir(0) <= LocDir(DirNo(x)) < LocDir(SC_DIR);
  }

  /** Storing a size changes the size of that entry and nothing else. */
  lemma SetSizeEffect(disk: seq<Sector>, x: int, n: U32, y: int)
    requires Sized(disk) && 0 <= x < ENTRIES && 0 <= y < ENTRIES
    ensures var disk' := SetSize(disk, x, n);
            Ino(disk', y) == Ino(disk, y) && Size(disk', y) == (if y == x then n else Size(disk, y))
            && Name(disk', y) == Name(disk, y)
  {
    hide WordAt, SetWord;
    var s := DirSec(disk, x);
    if DirNo(y) == DirNo(x) {
      SetWordAt(s, SizeWord(DirPos(x)), n, SizeWord(DirPos(y)));
      SetWordAt(s, SizeWord(DirPos(x)), n, INodeWord(DirPos(y)));
      assert x == 16 * DirNo(x) + DirPos(x) && y == 16 * DirNo(y) + DirPos(y);
      NameAfterSetWord(s, DirPos(x), SizeWord(DirPos(x)), n, DirPos(y));
    }
  }

  lemma NameAfterSetWord(s: Sector, e: int, i: int, w: U32, p: int)
    requires 0 <= e < NR_ENTRIES && 0 <= p < NR_ENTRIES && (i == SizeWord(e) || i == INodeWord(e))
    ensures SetWord(s, i, w)[32 * p..32 * p + LEN_FILENAME] == s[32 * p..32 * p + LEN_FILENAME]
  {
    hide SetWord;
    forall k | 32 * p <= k < 32 * p + LEN_FILENAME
      ensures SetWord(s, i, w)[k] == s[k]
    {
      SetWordByte(s, i, w, k);
    }
  }

  lemma PutNameWord(s: Sector, e: int, name: seq<Byte>, i: int)
    requires 0 <= e < NR_ENTRIES && |name| < LEN_FILENAME
    requires 0 <= i < NR_BLOCKS && !(8 * e <= i < 8 * e + 6)
    ensures WordAt(PutName(s, e, name), i) == WordAt(s, i)
  {
  }

  lemma PutNameName(s: Sector, e: int, name: seq<Byte>, p: int)
    requires 0 <= e < NR_ENTRIES && 0 <= p < NR_ENTRIES && |name| < LEN_FILENAME
    ensures p != e ==> PutName(s, e, name)[32 * p..32 * p + LEN_FILENAME] == s[32 * p..32 * p + LEN_FILENAME]
    ensures PutName(s, e, name)[32 * e..32 * e + |name| + 1] == name + [0]
  {
  }

  /** A new directory entry: its name, size and inode are as asked, the others are unchanged. */
  lemma PutEntryEffect(disk: seq<Sector>, x: int, name: seq<Byte>, size: U32, ino: U32, y: int)
    requires Sized(disk) && 0 <= x < ENTRIES && 0 <= y < ENTRIES && |name| < LEN_FILENAME
    ensures var disk' := PutEntry(disk, x, name, size, ino);
            Ino(disk', y) == (if y == x then ino else Ino(disk, y))
            && Size(disk', y) == (if y == x then size else Size(disk, y))
            && (y != x ==> Name(disk', y) == Name(disk, y)) && SameName(disk', x, name)
  {
    hide WordAt, SetWord, PutName;
    var s, e := DirSec(disk, x), DirPos(x);
    var s1 := SetWord(s, INodeWord(e), ino);
    var s2 := PutName(s1, e, name);
    var s3 := SetWord(s2, SizeWord(e), size);
    PutNameName(s1, e, name, e);
    NameAfterSetWord(s2, e, SizeWord(e), size, e);
    assert s3[32 * e..32 * e + LEN_FILENAME][..|name| + 1] == s2[32 * e..32 * e + LEN_FILENAME][..|name| + 1];
    assert s2[32 * e..32 * e + LEN_FILENAME][..|name| + 1] == s2[32 * e..32 * e + |name| + 1];
    assert DirSec(PutEntry(disk, x, name, size, ino), x) == s3;
    if DirNo(y) == DirNo(x) {
      assert x == 16 * DirNo(x) + DirPos(x) && y == 16 * DirNo(y) + DirPos(y);
      PutEntrySector(s, e, name, size, ino, DirPos(y));
    }
  }

  lemma PutEntrySector(s: Sector, e: int, name: seq<Byte>, size: U32, ino: U32, p: int)
    requires 0 <= e < NR_ENTRIES && 0 <= p < NR_ENTRIES && |name| < LEN_FILENAME
    ensures var t := EntrySector(s, e, name, size, ino);
            WordAt(t, INodeWord(p)) == (if p == e then ino else WordAt(s, INodeWord(p)))
            && WordAt(t, SizeWord(p)) == (if p == e then size else WordAt(s, SizeWord(p)))
            && (p != e ==> t[32 * p..32 * p + LEN_FILENAME] == s[32 * p..32 * p + LEN_FILENAME])
  {
    hide WordAt, SetWord, PutName;
    var s1 := SetWord(s, INodeWord(e), ino);
    var s2 := PutName(s1, e, name);
    SetWordAt(s2, SizeWord(e), size, INodeWord(p));
    SetWordAt(s2, SizeWord(e), size, SizeWord(p));
    SetWordAt(s, INodeWord(e), ino, INodeWord(p));
    SetWordAt(s, INodeWord(e), ino, SizeWord(p));
    PutNameWord(s1, e, name, INodeWord(p));
    PutNameWord(s1, e, name, SizeWord(p));
    NameAfterSetWord(s2, e, SizeWord(e), size, p);
    NameAfterSetWord(s, e, INodeWord(e), ino, p);
    PutNameName(s1, e, name, p);
  }

  // ---- growth

  /** The words d..last of an inode after growth: free blocks before, marked after, each one
      once; all other words and all sectors but the first bitmap sector are unchanged. */
  lemma {:induction false} GrowEffect(disk: seq<Sector>, inode: Sector, d: int, last: int)
    requires Sized(disk) && 0 <= d <= last + 1 <= NR_BLOCKS && last + 1 - d <= Room(disk)
    decreases last - d
    ensures var (disk', inode') := Grow(disk, inode, d, last);
            |disk'| == |disk| && (forall i :: i != 1 ==> Sec(disk', i) == Sec(disk, i))
            && (forall q :: 0 <= q < FIRST_SLICE && Used(disk, q) ==> Used(disk', q))
            && (forall j :: 0 <= j < NR_BLOCKS && !(d <= j <= last) ==> WordAt(inode', j) == WordAt(inode, j))
            && (forall j :: d <= j <= last ==> FreshBlock(disk, disk', WordAt(inode', j)))
            && (forall j, k :: d <= j < k <= last ==> WordAt(inode', j) != WordAt(inode', k))
            && Room(disk') == Room(disk) - (last + 1 - d)
  {
    hide Bit, Room, WordAt, SetWord, DataAlloc;
    if d <= last {
      DataAllocEffect(disk, KERNEL_STRIDE);
      var (disk1, b) := DataAlloc(disk, KERNEL_STRIDE);
      var inode1 := SetWord(inode, d, Wrap(b));
      assert Wrap(b) == b;
      GrowEffect(disk1, inode1, d + 1, last);
      var (disk', inode') := Grow(disk1, inode1, d + 1, last);
      forall j | 0 <= j < NR_BLOCKS
        ensures WordAt(inode1, j) == if j == d then b else WordAt(inode, j)
      {
        SetWordAt(inode, d, b, j);
      }
      assert WordAt(inode', d) == b;
      forall j | d < j <= last
        ensures FreshBlock(disk, disk', WordAt(inode', j)) && WordAt(inode', j) != b
      {
        assert FreshBlock(disk1, disk', WordAt(inode', j));
        assert BlockUsed(disk1, b);
      }
      assert FreshBlock(disk, disk', b);
    }
  }

  /** Block b is marked once the first n free blocks have been taken. */
  predicate Soon(disk: seq<Sector>, b: nat, n: int) { BlockUsed(disk, b) || Free(disk, b) < n }

  /** First fit: growth takes the lowest free blocks. */
  lemma {:induction false} GrowTakesLowest(disk: seq<Sector>, inode: Sector, d: int, last: int, b: nat)
    requires Sized(disk) && 0 <= d <= last + 1 <= NR_BLOCKS && last + 1 - d <= Room(disk) && b < SAFE_BLOCKS
    decreases last - d
    ensures BlockUsed(Grow(disk, inode, d, last).0, b) <==> Soon(disk, b, last + 1 - d)
  {
    hide Bit, SetWord, DataAlloc, Free, Room;
    if d <= last {
      DataAllocEffect(disk, KERNEL_STRIDE);
      var (disk1, k) := DataAlloc(disk, KERNEL_STRIDE);
      GrowTakesLowest(disk1, SetWord(inode, d, Wrap(k)), d + 1, last, b);
      AllocLeast(disk, b);
      FreeMarked(disk, disk1, k, b);
    }
  }

  lemma AllocLeast(disk: seq<Sector>, b: nat)
    requires Sized(disk) && Room(disk) > 0 && b < SAFE_BLOCKS
    ensures var k := DataAlloc(disk, KERNEL_STRIDE).1;
            (b < k ==> BlockUsed(disk, b)) && (b <= k ==> Free(disk, b) == 0)
            && (k < b ==> Free(disk, b) > 0)
  {
    hide Bit, Mark, Free;
    DataAllocEffect(disk, KERNEL_STRIDE);
    FirstClearFinds(disk, KERNEL_STRIDE, 769, SC_DATA, 0);
    var k := DataAlloc(disk, KERNEL_STRIDE).1;
    forall i | 0 <= i < k
      ensures BlockUsed(disk, i)
    {
      assert Taken(disk, KERNEL_STRIDE, 769, i);
    }
    if b <= k {
      AllUsed(disk, b);
    } else if Free(disk, b) == 0 {
      NoneFree(disk, b, k);
    }
  }

  lemma {:induction false} AllUsed(disk: seq<Sector>, b: nat)
    requires forall i :: 0 <= i < b ==> BlockUsed(disk, i)
    ensures Free(disk, b) == 0
  {
    hide Bit;
    if b > 0 {
      AllUsed(disk, b - 1);
    }
  }

  predicate FreshBlock(disk: seq<Sector>, disk': seq<Sector>, b: U32) {
    b < SAFE_BLOCKS && !BlockUsed(disk, b) && BlockUsed(disk', b)
  }
}
