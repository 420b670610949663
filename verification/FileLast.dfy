/** The write that starts at a slot without a block, on the one file whose own inode it hits,
    number 255: exactly when the invariant survives it. */
module FileLast {
  import opened DiskFormat
  import opened FileSpec
  import opened FileBytes
  import opened DiskSteps
  import opened FileInvariant
  import opened FileWrite
  import opened FileRefine
  import opened FileEntry

  // ---- an inode whose slots are replaced

  /** The slots of t have blocks for the first n bytes. */
  ghost predicate SlotsCover(t: Sector, n: int) {
    n <= NR_BLOCKS * BLOCK && forall j :: 0 <= j && 512 * j < n ==> WordAt(t, j) != NO_BLOCK
  }

  /** The slots of t can serve file x: blocks that no other file holds, each one once, and
      enough of them for n bytes.  They are marked, or among the first free blocks, of which
      the write takes some more. */
  ghost predicate SlotsGood(disk: seq<Sector>, x: int, t: Sector, n: int, more: int) {
    && (forall j :: 0 <= j < NR_BLOCKS ==> WordAt(t, j) == NO_BLOCK || BlockGood(disk, x, WordAt(t, j), more))
    && (forall j, k :: 0 <= j < k < NR_BLOCKS && WordAt(t, j) != NO_BLOCK ==> WordAt(t, j) != WordAt(t, k))
    && SlotsCover(t, n)
  }

  ghost predicate BlockGood(disk: seq<Sector>, x: int, b: U32, more: int) {
    b < SAFE_BLOCKS && Soon(disk, b, more) && forall y, k :: Held(disk, y, k) && y != x ==> Block(disk, y, k) != b
  }

  /** File x has the size n and the inode sector t; nothing else is different. */
  ghost predicate Replaced(disk: seq<Sector>, disk': seq<Sector>, x: int, n: U32, t: Sector) {
    && |disk'| == |disk| && Live(disk, x) && SameEntries(disk, disk', x) && Size(disk', x) == n && INodeOf(disk', x) == t
    && (forall y :: Live(disk, y) && y != x ==> INodeOf(disk', y) == INodeOf(disk, y))
    && (forall q :: 0 <= q < FIRST_SLICE ==> Used(disk', q) == Used(disk, q))
  }

  lemma ReplacedIff(disk: seq<Sector>, disk': seq<Sector>, x: int, n: U32, t: Sector)
    requires DiskInv(disk) && Replaced(disk, disk', x, n, t)
    ensures DiskInv(disk') <==> SlotsGood(disk, x, t, n, 0)
  {
    hide DiskInv, Replaced, SlotsGood;
    if SlotsGood(disk, x, t, n, 0) {
      GoodKeeps(disk, disk', x, n, t);
    }
    if DiskInv(disk') {
      KeptGood(disk, disk', x, n, t);
    }
  }

  lemma ReplacedSlots(disk: seq<Sector>, disk': seq<Sector>, x: int, n: U32, t: Sector, y: int, j: int)
    requires Replaced(disk, disk', x, n, t)
    ensures Live(disk', y) == Live(disk, y)
    ensures Live(disk, y) ==> Block(disk', y, j) == if y == x then WordAt(t, j) else Block(disk, y, j)
    ensures y != x ==> Held(disk', y, j) == Held(disk, y, j)
    ensures Held(disk', x, j) <==> 0 <= j < NR_BLOCKS && WordAt(t, j) != NO_BLOCK
  {
    hide Ino, Size, Name, Used, WordAt, INodeOf;
    SameLive(disk, disk', x, y);
    SameLive(disk, disk', x, x);
  }

  lemma GoodKeeps(disk: seq<Sector>, disk': seq<Sector>, x: int, n: U32, t: Sector)
    requires DiskInv(disk) && Replaced(disk, disk', x, n, t) && SlotsGood(disk, x, t, n, 0)
    ensures DiskInv(disk')
  {
    hide INodesMarked, INodesApart, BlocksMarked, BlocksApart, DeadNamesEmpty, SizesCovered, Replaced, SlotsGood;
    GoodEntries(disk, disk', x, n, t);
    GoodMarked(disk, disk', x, n, t);
    GoodApart(disk, disk', x, n, t);
    GoodCovered(disk, disk', x, n, t);
    assert |disk'| == |disk| by { ReplacedSize(disk, disk', x, n, t); }
  }

  lemma ReplacedSize(disk: seq<Sector>, disk': seq<Sector>, x: int, n: U32, t: Sector)
    requires Replaced(disk, disk', x, n, t)
    ensures |disk'| == |disk| && Live(disk, x) && Size(disk', x) == n
  {
  }

  lemma GoodEntries(disk: seq<Sector>, disk': seq<Sector>, x: int, n: U32, t: Sector)
    requires DiskInv(disk) && Replaced(disk, disk', x, n, t)
    ensures INodesMarked(disk') && INodesApart(disk') && DeadNamesEmpty(disk')
  {
    hide Ino, Size, Name, Bit, WordAt, INodeOf, BlocksMarked, BlocksApart, SizesCovered;
    forall y ensures Live(disk', y) == Live(disk, y) { SameLive(disk, disk', x, y); }
  }

  lemma GoodMarked(disk: seq<Sector>, disk': seq<Sector>, x: int, n: U32, t: Sector)
    requires DiskInv(disk) && Replaced(disk, disk', x, n, t) && SlotsGood(disk, x, t, n, 0)
    ensures BlocksMarked(disk')
  {
    hide Ino, Size, Name, Bit, WordAt, INodeOf, Block, Held, Live, INodesMarked, INodesApart, BlocksApart, SizesCovered, DeadNamesEmpty, SameEntries;
    forall y, j | Held(disk', y, j)
      ensures Block(disk', y, j) < SAFE_BLOCKS && BlockUsed(disk', Block(disk', y, j))
    {
      ReplacedSlots(disk, disk', x, n, t, y, j);
      HeldLive(disk', y, j);
    }
  }

  lemma GoodApart(disk: seq<Sector>, disk': seq<Sector>, x: int, n: U32, t: Sector)
    requires DiskInv(disk) && Replaced(disk, disk', x, n, t) && SlotsGood(disk, x, t, n, 0)
    ensures BlocksApart(disk')
  {
    hide DiskInv, Replaced, SlotsGood, Block, Held;
    forall y, j, z, k | Held(disk', y, j) && Held(disk', z, k) && (y != z || j != k)
      ensures Block(disk', y, j) != Block(disk', z, k)
    {
      GoodPair(disk, disk', x, n, t, y, j, z, k);
    }
  }

  lemma GoodPair(disk: seq<Sector>, disk': seq<Sector>, x: int, n: U32, t: Sector, y: int, j: int, z: int, k: int)
    requires DiskInv(disk) && Replaced(disk, disk', x, n, t) && SlotsGood(disk, x, t, n, 0)
    requires Held(disk', y, j) && Held(disk', z, k) && (y != z || j != k)
    ensures Block(disk', y, j) != Block(disk', z, k)
  {
    hide Replaced, WordAt, INodeOf, Block, Held, Live, Used, INodesMarked, INodesApart, BlocksMarked, SizesCovered, DeadNamesEmpty;
    ReplacedSlots(disk, disk', x, n, t, y, j);
    ReplacedSlots(disk, disk', x, n, t, z, k);
    HeldLive(disk', y, j);
    HeldLive(disk', z, k);
  }

  lemma GoodCovered(disk: seq<Sector>, disk': seq<Sector>, x: int, n: U32, t: Sector)
    requires DiskInv(disk) && Replaced(disk, disk', x, n, t) && SlotsGood(disk, x, t, n, 0)
    ensures SizesCovered(disk')
  {
    hide DiskInv, Replaced, Covers, Live, Size, BlockGood;
    forall y | Live(disk', y)
      ensures Covers(disk', y, Size(disk', y))
    {
      ReplacedSlots(disk, disk', x, n, t, y, 0);
      ReplacedSize(disk, disk', x, n, t);
      if y == x {
        CoversIff(disk, disk', x, n, t, n);
      } else {
        SizeCovered(disk, y);
        OtherCovers(disk, disk', x, n, t, y, Size(disk, y));
        OtherSize(disk, disk', x, n, t, y);
      }
    }
  }

  lemma OtherSize(disk: seq<Sector>, disk': seq<Sector>, x: int, n: U32, t: Sector, y: int)
    requires Replaced(disk, disk', x, n, t) && Live(disk, y) && y != x
    ensures Size(disk', y) == Size(disk, y)
  {
  }

  /** Whether the new slots cover a length is a matter of the slots alone. */
  lemma CoversIff(disk: seq<Sector>, disk': seq<Sector>, x: int, n: U32, t: Sector, len: int)
    requires Replaced(disk, disk', x, n, t)
    ensures Covers(disk', x, len) <==> SlotsCover(t, len)
  {
    hide Replaced, Held, WordAt;
    forall j
      ensures Held(disk', x, j) <==> 0 <= j < NR_BLOCKS && WordAt(t, j) != NO_BLOCK
    {
      ReplacedSlots(disk, disk', x, n, t, x, j);
    }
  }

  lemma OtherCovers(disk: seq<Sector>, disk': seq<Sector>, x: int, n: U32, t: Sector, y: int, len: int)
    requires Replaced(disk, disk', x, n, t) && y != x && Live(disk, y)
    ensures Covers(disk', y, len) <==> Covers(disk, y, len)
  {
    hide Replaced, Held;
    forall j
      ensures Held(disk', y, j) == Held(disk, y, j)
    {
      ReplacedSlots(disk, disk', x, n, t, y, j);
    }
  }

  lemma KeptGood(disk: seq<Sector>, disk': seq<Sector>, x: int, n: U32, t: Sector)
    requires DiskInv(disk) && DiskInv(disk') && Replaced(disk, disk', x, n, t)
    ensures SlotsGood(disk, x, t, n, 0)
  {
    hide DiskInv, Replaced, SlotsCover, BlockGood, WordAt, Live, Size;
    ReplacedSize(disk, disk', x, n, t);
    ReplacedSlots(disk, disk', x, n, t, x, 0);
    SizeCovered(disk', x);
    CoversIff(disk, disk', x, n, t, n);
    forall j | 0 <= j < NR_BLOCKS
      ensures WordAt(t, j) == NO_BLOCK || BlockGood(disk, x, WordAt(t, j), 0)
    {
      if WordAt(t, j) != NO_BLOCK {
        KeptBlock(disk, disk', x, n, t, j);
      }
    }
    forall j, k | 0 <= j < k < NR_BLOCKS && WordAt(t, j) != NO_BLOCK
      ensures WordAt(t, j) != WordAt(t, k)
    {
      KeptPair(disk, disk', x, n, t, j, k);
    }
  }

  lemma KeptBlock(disk: seq<Sector>, disk': seq<Sector>, x: int, n: U32, t: Sector, j: int)
    requires DiskInv(disk) && DiskInv(disk') && Replaced(disk, disk', x, n, t) && 0 <= j < NR_BLOCKS && WordAt(t, j) != NO_BLOCK
    ensures BlockGood(disk, x, WordAt(t, j), 0)
  {
    hide WordAt, INodeOf, Block, Held, Live, Bit, INodesMarked, INodesApart, SizesCovered, DeadNamesEmpty, Ino, Size, Name, SameEntries;
    ReplacedSlots(disk, disk', x, n, t, x, j);
    forall y, k | Held(disk, y, k) && y != x
      ensures Block(disk, y, k) != WordAt(t, j)
    {
      ReplacedSlots(disk, disk', x, n, t, y, k);
      HeldLive(disk, y, k);
    }
  }

  lemma KeptPair(disk: seq<Sector>, disk': seq<Sector>, x: int, n: U32, t: Sector, j: int, k: int)
    requires DiskInv(disk') && Replaced(disk, disk', x, n, t) && 0 <= j < k < NR_BLOCKS && WordAt(t, j) != NO_BLOCK
    ensures WordAt(t, j) != WordAt(t, k)
  {
    hide Replaced, WordAt, INodeOf, Block, Held, Live, Used, INodesMarked, INodesApart, BlocksMarked, SizesCovered, DeadNamesEmpty;
    ReplacedSlots(disk, disk', x, n, t, x, j);
    ReplacedSlots(disk, disk', x, n, t, x, k);
    ReplacedSize(disk, disk', x, n, t);
  }

  // ---- the write

  /** The disk with blocks for the later slots, before any byte is stored. */
  function Grown(fs: Fs, fd: int, len: nat): seq<Sector> {
    var f := StreamAt(fs, fd);
    GrowFile(fs.disk, f.inode, BlockNo(f.offset) + 1, BlockNo(f.offset + len))
  }

  /** The inode sector after the write: the first bytes written over the slots. */
  function LastSlots(fs: Fs, buf: seq<Byte>): Sector {
    if |buf| >= BLOCK then buf[..BLOCK] else buf + Sec(fs.disk, LocINode(SC_INODE - 1))[|buf|..]
  }

  ghost predicate OnLast(fs: Fs, fd: int, buf: seq<Byte>) {
    Inv(fs) && Writable(fs, fd, |buf|) && |buf| > 0 && fs.streams[fd].inode == SC_INODE - 1 && !Started(fs, fd)
  }

  /** The misplaced write on inode 255 keeps the invariant if and only if its own first bytes,
      read as slots, can serve the file and all streams that are open on it. */
  lemma LastIff(fs: Fs, fd: int, buf: seq<Byte>)
    requires OnLast(fs, fd, buf)
    ensures var f, t := fs.streams[fd], LastSlots(fs, buf);
      Inv(FsWrite(fs, fd, buf)) <==>
        SlotsGood(fs.disk, f.entry, t, f.size + |buf|, Needed(f, |buf|)) && StreamsFit(fs, fd, t)
  {
    hide Room, Started, Inv, FsWrite, SlotsGood, SlotsCover, Replaced, DiskInv, LastSlots, Grown, OtherStreams, StreamsFit, Ino, Live, Needed;
    LastReplaced(fs, fd, buf);
    var f, t, disk2, fs' := fs.streams[fd], LastSlots(fs, buf), Grown(fs, fd, |buf|), FsWrite(fs, fd, buf);
    ReplacedIff(disk2, fs'.disk, f.entry, f.size + |buf|, t);
    GrownGood(fs, fd, |buf|, t, f.size + |buf|);
    LastStreams(fs, fd, buf);
    StreamsIff(fs, fs', disk2, fd, f.size + |buf|, t);
  }

  lemma LastReplaced(fs: Fs, fd: int, buf: seq<Byte>)
    requires OnLast(fs, fd, buf)
    ensures Open(fs, fd) && fs.streams[fd].offset == fs.streams[fd].size && fs.streams[fd].size + |buf| < TWO_32
    ensures Live(fs.disk, fs.streams[fd].entry) && OtherStreams(Fs(Grown(fs, fd, |buf|), fs.streams), fd)
    ensures fs.streams[fd].inode == Ino(Grown(fs, fd, |buf|), fs.streams[fd].entry)
    ensures var f := fs.streams[fd];
      DiskInv(Grown(fs, fd, |buf|))
      && Replaced(Grown(fs, fd, |buf|), FsWrite(fs, fd, buf).disk, f.entry, f.size + |buf|, LastSlots(fs, buf))
  {
    hide Inv, DiskInv, Room, Started, GrowFile, SetSize, WriteBase, Block, Sec, Live, Size, INodeOf, Changed, Held, Covers, Ino, Slot, Wrote, Used, FsWrite, OtherStreams, LastSlots, Needed;
    var f := fs.streams[fd];
    var x, d := f.entry, BlockNo(f.offset);
    NotStartedAtEnd(fs, fd, |buf|);
    OpenEntry(fs, fd);
    var end: U32 := f.offset + |buf|;
    var disk2 := Grown(fs, fd, |buf|);
    GapWrite(fs, fd, buf);
    GrowsAtGap(fs, fd, |buf|, disk2);
    GrownStreams(fs, fd, |buf|);
    var disk3 := SetSize(disk2, x, end);
    EntryInRange(disk2, x);
    SizeChanged(disk2, x, end);
    SetSizeSectors(disk2, x, end);
    ChangedSameEntries(disk2, disk3, x);
    INodeIs(disk3, x);
    var inode := INodeOf(disk2, x);
    var disk4 := WriteBase(disk3, inode, f.offset, buf);
    GapSeparate(disk2, x, d, BlockNo(end));
    WriteBaseWrote(disk3, inode, f.offset, buf, d, BlockNo(end));
    WroteLen(disk3, disk4, inode, f.offset, buf, d, BlockNo(end));
    GapStaysLow(disk2, disk3, disk4, x, f.offset, buf);
    NotStartedOffset(fs, fd, |buf|);
    FreeSlotSec(disk2, x, d);
    LastSector(fs, fd, disk3, disk4, inode, buf, d, BlockNo(end));
    LowReplaced(disk2, disk3, disk4, x, end, LastSlots(fs, buf));
  }

  /** Growth keeps all other streams as they should be. */
  lemma GrownStreams(fs: Fs, fd: int, len: nat)
    requires Inv(fs) && Writable(fs, fd, len) && len > 0 && !Started(fs, fd)
    ensures OtherStreams(Fs(Grown(fs, fd, len), fs.streams), fd)
  {
    hide Inv, DiskInv, Room, Started, GrowFile, Block, Sec, Live, Size, Changed, Held, Covers, Ino, Slot, StreamOk;
    var f := fs.streams[fd];
    NotStartedAtEnd(fs, fd, len);
    OpenEntry(fs, fd);
    InvSplit(fs, fd);
    GrowthChanged(fs.disk, f.entry, BlockNo(f.offset) + 1, BlockNo(f.offset + len));
    OthersChanged(fs, Fs(Grown(fs, fd, len), fs.streams), fd, f.entry);
  }

  lemma LastSector(fs: Fs, fd: int, disk3: seq<Sector>, disk4: seq<Sector>, inode: Sector, buf: seq<Byte>, d: int, last: int)
    requires 0 <= fd < |fs.streams| && InBlock(fs.streams[fd].offset) == 0 && d == BlockNo(fs.streams[fd].offset) <= last
    requires Wrote(disk3, disk4, inode, fs.streams[fd].offset, buf, d, last) && SlotSec(inode, d) == 768
    requires Sec(disk3, 768) == Sec(Grown(fs, fd, |buf|), 768)
    ensures Sec(disk4, 768) == LastSlots(fs, buf)
  {
    hide Sec, SlotSec, ByteAt, Grown;
    if |buf| < BLOCK { GrownSector(fs, fd, |buf|); }
    var off, t := fs.streams[fd].offset, LastSlots(fs, buf);
    assert LocINode(SC_INODE - 1) == 768;
    forall k | 0 <= k < BLOCK
      ensures Sec(disk4, 768)[k] == t[k]
    {
      assert BlockNo(off + k) == d && InBlock(off + k) == k;
      assert ByteAt(disk4, inode, off + k) == Spliced(disk3, inode, off, buf, off + k);
      ByteAtSec(disk4, inode, off + k);
      ByteAtSec(disk3, inode, off + k);
    }
  }

  /** A write of less than a block takes no block here. */
  lemma GrownSector(fs: Fs, fd: int, len: nat)
    requires 0 <= fd < |fs.streams| && InBlock(fs.streams[fd].offset) == 0 && len < BLOCK
    ensures Sec(Grown(fs, fd, len), 768) == Sec(fs.disk, 768)
  {
    var off := fs.streams[fd].offset;
    assert BlockNo(off + len) == BlockNo(off);
  }

  /** Growth leaves to each file the blocks it had and takes the lowest free ones. */
  lemma GrownGood(fs: Fs, fd: int, len: nat, t: Sector, n: int)
    requires Inv(fs) && Writable(fs, fd, len) && len > 0 && !Started(fs, fd)
    ensures var f := fs.streams[fd];
            SlotsGood(Grown(fs, fd, len), f.entry, t, n, 0) <==> SlotsGood(fs.disk, f.entry, t, n, Needed(f, len))
  {
    hide Inv, Room, Started, Grown, SlotsCover, BlockGood, Needed, WordAt;
    var f := fs.streams[fd];
    forall j | 0 <= j < NR_BLOCKS
      ensures BlockGood(Grown(fs, fd, len), f.entry, WordAt(t, j), 0) <==>
              BlockGood(fs.disk, f.entry, WordAt(t, j), Needed(f, len))
    {
      GrownBlock(fs, fd, len, WordAt(t, j));
    }
  }

  lemma GrownBlock(fs: Fs, fd: int, len: nat, b: U32)
    requires Inv(fs) && Writable(fs, fd, len) && len > 0 && !Started(fs, fd)
    ensures var f := fs.streams[fd];
            BlockGood(Grown(fs, fd, len), f.entry, b, 0) <==> BlockGood(fs.disk, f.entry, b, Needed(f, len))
  {
    hide Inv, Room, Started, Grown, Needed, Held, Block, Used, Soon;
    var f := fs.streams[fd];
    var disk' := Grown(fs, fd, len);
    if b < SAFE_BLOCKS {
      GrownSoon(fs, fd, len, b);
    }
    forall y, k | y != f.entry
      ensures Held(disk', y, k) == Held(fs.disk, y, k)
      ensures Held(fs.disk, y, k) ==> Block(disk', y, k) == Block(fs.disk, y, k)
    {
      GrownOther(fs, fd, len, y, k);
    }
  }

  lemma GrownSoon(fs: Fs, fd: int, len: nat, b: nat)
    requires Inv(fs) && Writable(fs, fd, len) && len > 0 && !Started(fs, fd) && b < SAFE_BLOCKS
    ensures Soon(Grown(fs, fd, len), b, 0) <==> Soon(fs.disk, b, Needed(fs.streams[fd], len))
  {
    hide Inv, DiskInv, Started, Room, GrowFile, Free, Used, Live, Ino, Covers, Slot, Block, Sec;
    var f := fs.streams[fd];
    NotStartedAtEnd(fs, fd, len);
    OpenEntry(fs, fd);
    InvSized(fs.disk);
    GrowFileMarks(fs.disk, f.inode, BlockNo(f.offset) + 1, BlockNo(f.offset + len), b);
  }

  lemma GrowFileMarks(disk: seq<Sector>, ino: int, d: int, last: int, b: nat)
    requires Sized(disk) && 0 <= ino < SC_INODE && b < SAFE_BLOCKS
    requires 0 <= d <= last + 1 <= NR_BLOCKS && last + 1 - d <= Room(disk)
    ensures BlockUsed(GrowFile(disk, ino, d, last), b) <==> Soon(disk, b, last + 1 - d)
  {
    hide Room, Grow, Used, Soon;
    var inode := Sec(disk, LocINode(ino));
    GrowTakesLowest(disk, inode, d, last, b);
    UsedSlice(Grow(disk, inode, d, last).0, GrowFile(disk, ino, d, last), 769 + b);
  }

  lemma GrownOther(fs: Fs, fd: int, len: nat, y: int, k: int)
    requires Inv(fs) && Writable(fs, fd, len) && len > 0 && !Started(fs, fd) && y != fs.streams[fd].entry
    ensures Held(Grown(fs, fd, len), y, k) == Held(fs.disk, y, k)
    ensures Held(fs.disk, y, k) ==> Block(Grown(fs, fd, len), y, k) == Block(fs.disk, y, k)
  {
    hide DiskInv, Room, Started, GrowFile, WordAt, INodeOf, Ino, Size, Name, Used;
    var f := fs.streams[fd];
    NotStartedAtEnd(fs, fd, len);
    OpenEntry(fs, fd);
    GrowthChanged(fs.disk, f.entry, BlockNo(f.offset) + 1, BlockNo(f.offset + len));
    SameLive(fs.disk, Grown(fs, fd, len), f.entry, y);
  }

  lemma LowReplaced(disk2: seq<Sector>, disk3: seq<Sector>, disk4: seq<Sector>, x: int, n: U32, t: Sector)
    requires DiskInv(disk2) && Live(disk2, x) && Ino(disk2, x) == SC_INODE - 1 && |disk4| == |disk3| == |disk2|
    requires SameEntries(disk2, disk3, x) && Size(disk3, x) == n
    requires forall i :: !(LocDir(0) <= i < LocDir(SC_DIR)) ==> Sec(disk3, i) == Sec(disk2, i)
    requires forall i :: 0 <= i < 768 ==> Sec(disk4, i) == Sec(disk3, i)
    requires Sec(disk4, 768) == t
    ensures Replaced(disk2, disk4, x, n, t)
  {
    hide DiskInv, Ino, Size, Name, Sec, Used;
    forall y | 0 <= y < ENTRIES
      ensures Ino(disk4, y) == Ino(disk3, y) && Size(disk4, y) == Size(disk3, y) && Name(disk4, y) == Name(disk3, y)
    {
      EntryOfSector(disk3, disk4, y);
    }
    forall q | 0 <= q < FIRST_SLICE
      ensures Used(disk4, q) == Used(disk2, q)
    {
      UsedSlice(disk2, disk4, q);
    }
    forall y | Live(disk2, y) && y != x
      ensures INodeOf(disk4, y) == INodeOf(disk2, y)
    {
      MarkedINode(disk2, y);
      ApartINode(disk2, x, y);
    }
  }

  lemma EntryOfSector(disk: seq<Sector>, disk': seq<Sector>, y: int)
    requires 0 <= y < ENTRIES && forall i :: 0 <= i < 768 ==> Sec(disk', i) == Sec(disk, i)
    ensures Ino(disk', y) == Ino(disk, y) && Size(disk', y) == Size(disk, y) && Name(disk', y) == Name(disk, y)
  {
    hide Sec, WordAt;
    assert Sec(disk', LocDir(DirNo(y))) == Sec(disk, LocDir(DirNo(y)));
  }

  lemma LastStreams(fs: Fs, fd: int, buf: seq<Byte>)
    requires OnLast(fs, fd, buf) && fs.streams[fd].offset == fs.streams[fd].size
    ensures var f := fs.streams[fd]; var end := f.size + |buf|;
      end < TWO_32 && FsWrite(fs, fd, buf).streams == fs.streams[fd := f.(size := end, offset := end)]
  {
    hide Inv, GrowFile, SetSize, WriteBase, Sec, Room, Needed;
    var f := fs.streams[fd];
    assert f.size != 0;
    assert FirstBlock(fs, fd, |buf|) == fs;
  }

  /** What the streams ask for once the file's slots are replaced. */
  ghost predicate StreamsFit(fs: Fs, fd: int, t: Sector)
    requires Open(fs, fd)
  {
    forall i :: 0 <= i < |fs.streams| && i != fd && fs.streams[i].used && fs.streams[i].entry == fs.streams[fd].entry ==>
      SlotsCover(t, fs.streams[i].size)
  }

  lemma StreamsIff(fs: Fs, fs': Fs, disk: seq<Sector>, fd: int, n: U32, t: Sector)
    requires Open(fs, fd) && OtherStreams(Fs(disk, fs.streams), fd)
    requires Ino(disk, fs.streams[fd].entry) == fs.streams[fd].inode
    requires Replaced(disk, fs'.disk, fs.streams[fd].entry, n, t)
    requires fs'.streams == fs.streams[fd := fs.streams[fd].(size := n, offset := n)]
    ensures Inv(fs') <==> DiskInv(fs'.disk) && StreamsFit(fs, fd, t)
  {
    hide DiskInv, Replaced, SlotsCover, Ino, Live, Covers, Size, Inv, StreamOk;
    InvSplit(fs', fd);
    if DiskInv(fs'.disk) {
      OwnStream(disk, fs'.disk, fs.streams[fd], n, t);
    }
    forall i | 0 <= i < |fs.streams| && i != fd
      ensures StreamOk(fs'.disk, fs'.streams[i]) <==>
              (fs.streams[i].used && fs.streams[i].entry == fs.streams[fd].entry ==> SlotsCover(t, fs.streams[i].size))
    {
      assert StreamOk(disk, fs.streams[i]);
      OtherStream(disk, fs'.disk, fs.streams[fd].entry, n, t, fs.streams[i]);
    }
  }

  lemma OwnStream(disk: seq<Sector>, disk': seq<Sector>, f: Stream, n: U32, t: Sector)
    requires Replaced(disk, disk', f.entry, n, t) && Ino(disk, f.entry) == f.inode && DiskInv(disk')
    ensures StreamOk(disk', f.(size := n, offset := n))
  {
    hide DiskInv, Replaced, Ino, Live, Covers, Size;
    ReplacedSize(disk, disk', f.entry, n, t);
    SameIno(disk, disk', f.entry, n, t);
    ReplacedSlots(disk, disk', f.entry, n, t, f.entry, 0);
    SizeCovered(disk', f.entry);
  }

  lemma OtherStream(disk: seq<Sector>, disk': seq<Sector>, x: int, n: U32, t: Sector, g: Stream)
    requires Replaced(disk, disk', x, n, t) && StreamOk(disk, g)
    ensures StreamOk(disk', g) <==> (g.used && g.entry == x ==> SlotsCover(t, g.size))
  {
    hide Replaced, SlotsCover, Ino, Live, Covers, Size;
    if g.used {
      ReplacedSlots(disk, disk', x, n, t, g.entry, 0);
      SameIno(disk, disk', x, n, t);
      if g.entry == x {
        CoversIff(disk, disk', x, n, t, g.size);
      } else {
        OtherCovers(disk, disk', x, n, t, g.entry, g.size);
      }
    }
  }

  lemma SameIno(disk: seq<Sector>, disk': seq<Sector>, x: int, n: U32, t: Sector)
    requires Replaced(disk, disk', x, n, t)
    ensures forall y :: Live(disk, y) ==> Ino(disk', y) == Ino(disk, y)
  {
    hide Ino, Size, Name, Used, INodeOf;
  }
}
