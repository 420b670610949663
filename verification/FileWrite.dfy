/** fs_write_kr and fs_read_kr refine a flat byte sequence: a write is a splice, whatever
    blocks it splits into and reallocates, and touches no other file. */
module FileWrite {
  import opened DiskFormat
  import opened FileSpec
  import opened FileBytes
  import opened DiskSteps
  import opened FileInvariant

  predicate Open(fs: Fs, fd: int) { 0 <= fd < |fs.streams| && fs.streams[fd].used }

  /** The bytes that a stream sees: those of its file up to the size in the stream. */
  function Opened(fs: Fs, fd: int): seq<Byte> {
    Content(fs.disk, Sec(fs.disk, LocINode(StreamAt(fs, fd).inode)), StreamAt(fs, fd).size)
  }

  function Max(a: int, b: int): int { if a > b then a else b }

  function Min(a: int, b: int): int { if a < b then a else b }

  /** bytes[..off] + buf + bytes[off + |buf|..] */
  function Splice(bytes: seq<Byte>, off: nat, buf: seq<Byte>): seq<Byte>
    requires off <= |bytes|
  {
    bytes[..off] + buf + bytes[Min(off + |buf|, |bytes|)..]
  }

  /** The blocks a write takes from the bitmap. */
  function Needed(f: Stream, len: nat): nat {
    if f.size == 0 then 1 + if len > BLOCK then BlockNo(f.offset + len) - BlockNo(f.offset) else 0
    else if f.offset + len > f.size then BlockNo(f.offset + len) - BlockNo(f.offset) else 0
  }

  /** What every caller has to see to: a position inside the file, an end inside the inode, and
      enough room on the disk. */
  predicate Writable(fs: Fs, fd: int, len: nat) {
    Open(fs, fd) && var f := fs.streams[fd];
    f.offset <= f.size && BlockNo(f.offset + len) < NR_BLOCKS && Needed(f, len) <= Room(fs.disk)
  }

  /** The slot at the offset has a block, or will get one as the first of the file. */
  predicate Started(fs: Fs, fd: int) {
    var f := StreamAt(fs, fd);
    f.size == 0 || Slot(fs.disk, f.inode, BlockNo(f.offset)) != NO_BLOCK
  }

  /** Everything but file x is what it was. */
  ghost predicate KeepsOthers(disk: seq<Sector>, disk': seq<Sector>, x: int) {
    && |disk'| == |disk| && SameEntries(disk, disk', x)
    && (forall y :: Live(disk, y) && y != x ==> INodeOf(disk', y) == INodeOf(disk, y))
  }

  predicate SameData(disk: seq<Sector>, disk': seq<Sector>) {
    |disk'| == |disk| && forall i :: 769 <= i < |disk| ==> Sec(disk', i) == Sec(disk, i)
  }

  lemma KeepsThen(disk: seq<Sector>, disk1: seq<Sector>, disk2: seq<Sector>, x: int)
    requires KeepsOthers(disk, disk1, x) && KeepsOthers(disk1, disk2, x)
    ensures KeepsOthers(disk, disk2, x)
  {
    hide Ino, Size, Name, INodeOf;
    forall y ensures Live(disk1, y) == Live(disk, y) { SameLive(disk, disk1, x, y); }
  }

  // ---- the invariant with one stream about to change

  ghost predicate OtherStreams(fs: Fs, fd: int) {
    |fs.streams| == NR_FILE_STREAM && forall i :: 0 <= i < |fs.streams| && i != fd ==> StreamOk(fs.disk, fs.streams[i])
  }

  lemma InvSplit(fs: Fs, fd: int)
    requires 0 <= fd < |fs.streams|
    ensures Inv(fs) <==> DiskInv(fs.disk) && OtherStreams(fs, fd) && StreamOk(fs.disk, fs.streams[fd])
  {
    hide DiskInv, StreamOk;
  }

  lemma OthersChanged(fs: Fs, fs': Fs, fd: int, x: int)
    requires OtherStreams(fs, fd) && Changed(fs.disk, fs'.disk, x)
    requires |fs'.streams| == |fs.streams| && forall i :: 0 <= i < |fs.streams| && i != fd ==> fs'.streams[i] == fs.streams[i]
    ensures OtherStreams(fs', fd)
  {
    hide Changed, StreamOk;
    forall i | 0 <= i < |fs.streams| && i != fd
      ensures StreamOk(fs'.disk, fs'.streams[i])
    {
      ChangedStream(fs.disk, fs'.disk, x, fs.streams[i]);
    }
  }

  // ---- stage 1: an empty file gets a block

  ghost predicate Stage(fs: Fs, fs': Fs, fd: int) {
    && Open(fs, fd) && |fs'.streams| == |fs.streams|
    && DiskInv(fs'.disk) && OtherStreams(fs', fd)
    && fs'.streams == fs.streams[fd := fs.streams[fd].(size := StreamAt(fs', fd).size)]
    && StreamOk(fs'.disk, fs'.streams[fd])
    && KeepsOthers(fs.disk, fs'.disk, fs.streams[fd].entry)
    && SameData(fs.disk, fs'.disk)
  }

  lemma StageThen(fs: Fs, fs1: Fs, fs2: Fs, fd: int)
    requires Stage(fs, fs1, fd) && Stage(fs1, fs2, fd)
    ensures Stage(fs, fs2, fd)
  {
    hide DiskInv, OtherStreams, StreamOk, KeepsOthers, Sec;
    KeepsThen(fs.disk, fs1.disk, fs2.disk, fs.streams[fd].entry);
  }

  lemma StageSame(fs: Fs, fd: int)
    requires Inv(fs) && Open(fs, fd)
    ensures Stage(fs, fs, fd)
  {
    hide DiskInv, StreamOk, Ino, Size, Name, INodeOf;
    InvSplit(fs, fd);
  }

  /** Growth of an open file, for both branches of fs_write_kr. */
  lemma GrowStage(fs: Fs, fd: int, d: int, last: int, n: U32)
    requires Inv(fs) && Open(fs, fd) && 0 <= d <= last + 1 <= NR_BLOCKS && last + 1 - d <= Room(fs.disk)
    requires n <= NR_BLOCKS * BLOCK
    requires forall j :: 0 <= j < d && 512 * j < n ==> Held(fs.disk, fs.streams[fd].entry, j)
    requires n <= 512 * (last + 1)
    ensures var f := fs.streams[fd];
            var fs' := SetStream(Fs(GrowFile(fs.disk, f.inode, d, last), fs.streams), fd, f.(size := n));
            Stage(fs, fs', fd) && Room(fs'.disk) == Room(fs.disk) - (last + 1 - d)
            && (forall j :: 0 <= j < NR_BLOCKS && !(d <= j <= last) ==> Block(fs'.disk, f.entry, j) == Block(fs.disk, f.entry, j))
            && (forall j :: d <= j <= last ==> Held(fs'.disk, f.entry, j))
            && (forall y :: 0 <= y < ENTRIES ==> Size(fs'.disk, y) == Size(fs.disk, y))
  {
    hide DiskInv, Ino, Size, Name, INodeOf, Block, Changed, Room, Held, Covers, Sec;
    var f := fs.streams[fd];
    InvSplit(fs, fd);
    var disk' := GrowFile(fs.disk, f.inode, d, last);
    GrowthChanged(fs.disk, f.entry, d, last);
    ChangedSameEntries(fs.disk, disk', f.entry);
    SizeCovered(fs.disk, f.entry);
    ChangedCovers(fs.disk, disk', f.entry, f.entry, Size(fs.disk, f.entry));
    ChangedKeeps(fs.disk, disk', f.entry);
    SameLive(fs.disk, disk', f.entry, f.entry);
    OthersChanged(fs, SetStream(Fs(disk', fs.streams), fd, f.(size := n)), fd, f.entry);
    GrowCovers(fs.disk, disk', f.entry, d, last, n);
  }

  lemma SizeCovered(disk: seq<Sector>, x: int)
    requires DiskInv(disk) && Live(disk, x)
    ensures Covers(disk, x, Size(disk, x))
  {
    hide Covers, Ino, Size;
  }

  lemma ChangedSameEntries(disk: seq<Sector>, disk': seq<Sector>, x: int)
    requires Changed(disk, disk', x)
    ensures SameEntries(disk, disk', x) && |disk'| == |disk|
  {
    hide SameEntries, SameSlots;
  }

  lemma GrowCovers(disk: seq<Sector>, disk': seq<Sector>, x: int, d: int, last: int, n: int)
    requires Live(disk', x) == Live(disk, x)
    requires n <= NR_BLOCKS * BLOCK && 0 <= d <= last + 1 <= NR_BLOCKS && n <= 512 * (last + 1)
    requires forall j :: 0 <= j < d && 512 * j < n ==> Held(disk, x, j)
    requires forall j :: 0 <= j < NR_BLOCKS && !(d <= j <= last) ==> Block(disk', x, j) == Block(disk, x, j)
    requires forall j :: d <= j <= last ==> Held(disk', x, j)
    ensures Covers(disk', x, n)
  {
    hide Live, Block;
    forall j | 0 <= j && 512 * j < n
      ensures Held(disk', x, j)
    {
      if j < d {
        assert Held(disk, x, j);
        assert Block(disk', x, j) == Block(disk, x, j);
      }
    }
  }

  lemma FirstBlockStage(fs: Fs, fd: int, len: nat)
    requires Inv(fs) && Open(fs, fd) && (fs.streams[fd].size == 0 ==> Room(fs.disk) > 0)
    ensures var f := fs.streams[fd];
            var fs' := FirstBlock(fs, fd, len);
            Stage(fs, fs', fd) && Inv(fs')
            && (f.size != 0 ==> fs' == fs)
            && (f.size == 0 ==> fs'.streams[fd].size == Min(len, BLOCK) && Held(fs'.disk, f.entry, 0) && Room(fs'.disk) == Room(fs.disk) - 1)
  {
    hide Inv, Stage, Held, Block, GrowFile, Room;
    var f := fs.streams[fd];
    if f.size != 0 {
      StageSame(fs, fd);
    } else {
      GrowStage(fs, fd, 0, 0, if len > BLOCK then BLOCK else len);
    }
    StageInv(fs, FirstBlock(fs, fd, len), fd);
  }

  lemma StageInv(fs: Fs, fs': Fs, fd: int)
    requires Stage(fs, fs', fd)
    ensures Inv(fs') && |fs'.streams| == |fs.streams| && Open(fs', fd)
    ensures fs'.streams[fd] == fs.streams[fd].(size := fs'.streams[fd].size)
  {
    hide DiskInv, OtherStreams, StreamOk, KeepsOthers, Sec, Inv;
    InvSplit(fs', fd);
  }

  // ---- stage 2: slots after the first one written

  lemma ExtendStage(fs: Fs, fd: int, len: nat)
    requires Inv(fs) && Open(fs, fd)
    requires var f := fs.streams[fd];
             f.offset <= f.size && BlockNo(f.offset + len) < NR_BLOCKS
             && (f.offset + len > f.size ==>
               Held(fs.disk, f.entry, BlockNo(f.offset)) && BlockNo(f.offset + len) - BlockNo(f.offset) <= Room(fs.disk))
    ensures var f := fs.streams[fd];
            var fs' := Extend(fs, fd, len);
            Stage(fs, fs', fd) && Inv(fs')
            && fs'.streams[fd].size == Max(f.size, f.offset + len)
            && (f.offset + len <= f.size ==> fs' == fs)
            && (forall j :: 0 <= j <= BlockNo(f.offset) ==> Block(fs'.disk, f.entry, j) == Block(fs.disk, f.entry, j))
            && (f.offset + len > f.size ==> Room(fs'.disk) == Room(fs.disk) - (BlockNo(f.offset + len) - BlockNo(f.offset)))
            && (f.offset + len > f.size ==> Held(fs'.disk, f.entry, BlockNo(f.offset + len)))
  {
    hide Inv, Stage, Held, Block, GrowFile, Room;
    var f := fs.streams[fd];
    if f.offset + len <= f.size {
      StageSame(fs, fd);
    } else {
      forall j | 0 <= j < BlockNo(f.offset) + 1 && 512 * j < f.offset + len
        ensures Held(fs.disk, f.entry, j)
      {
        if j < BlockNo(f.offset) {
          OpenCovered(fs, fd, j);
        }
      }
      GrowStage(fs, fd, BlockNo(f.offset) + 1, BlockNo(f.offset + len), f.offset + len);
      StageHeld(fs, Extend(fs, fd, len), fd, BlockNo(f.offset));
    }
    StageInv(fs, Extend(fs, fd, len), fd);
  }

  lemma StageHeld(fs: Fs, fs': Fs, fd: int, j: int)
    requires Stage(fs, fs', fd) && Held(fs.disk, fs.streams[fd].entry, j)
    requires Block(fs'.disk, fs.streams[fd].entry, j) == Block(fs.disk, fs.streams[fd].entry, j)
    ensures Held(fs'.disk, fs.streams[fd].entry, j)
  {
    hide DiskInv, OtherStreams, StreamOk, SameData, Block, Ino, Size, Name;
    SameLive(fs.disk, fs'.disk, fs.streams[fd].entry, fs.streams[fd].entry);
  }

  lemma OpenCovered(fs: Fs, fd: int, j: int)
    requires Inv(fs) && Open(fs, fd) && 0 <= j && 512 * j < fs.streams[fd].size
    ensures Held(fs.disk, fs.streams[fd].entry, j)
  {
    hide DiskInv, Held;
    assert StreamOk(fs.disk, fs.streams[fd]);
  }

  lemma OpenEntry(fs: Fs, fd: int)
    requires Inv(fs) && Open(fs, fd)
    ensures var f := fs.streams[fd];
            DiskInv(fs.disk) && Live(fs.disk, f.entry) && f.inode == Ino(fs.disk, f.entry) && f.inode < SC_INODE
            && Covers(fs.disk, f.entry, f.size) && |fs.streams| == NR_FILE_STREAM
            && (forall j :: Slot(fs.disk, f.inode, j) == Block(fs.disk, f.entry, j))
  {
    hide DiskInv, Held, Covers;
    assert StreamOk(fs.disk, fs.streams[fd]);
    MarkedINode(fs.disk, fs.streams[fd].entry);
  }

  // ---- stage 3: the size goes to the directory

  lemma StoreSizeStage(fs: Fs, fd: int)
    requires Inv(fs) && Open(fs, fd)
    ensures var fs' := StoreSize(fs, fd);
            var x := fs.streams[fd].entry;
            Stage(fs, fs', fd) && Inv(fs') && Size(fs'.disk, x) == fs.streams[fd].size && fs'.streams == fs.streams
            && (forall j :: 0 <= j < NR_BLOCKS ==> Block(fs'.disk, x, j) == Block(fs.disk, x, j))
            && Room(fs'.disk) == Room(fs.disk)
  {
    hide DiskInv, Ino, Size, Name, INodeOf, Changed, Free, SetSize, Covers, Inv, Sec;
    var f := fs.streams[fd];
    var disk' := SetSize(fs.disk, f.entry, f.size);
    var fs' := StoreSize(fs, fd);
    InvSplit(fs, fd);
    OpenEntry(fs, fd);
    SizeChanged(fs.disk, f.entry, f.size);
    ChangedSameEntries(fs.disk, disk', f.entry);
    ChangedCovers(fs.disk, disk', f.entry, f.entry, f.size);
    ChangedKeeps(fs.disk, disk', f.entry);
    SameLive(fs.disk, disk', f.entry, f.entry);
    OthersChanged(fs, fs', fd, f.entry);
    SetSizeSectors(fs.disk, f.entry, f.size);
    FreeSame(fs.disk, disk', SAFE_BLOCKS);
    assert Stage(fs, fs', fd);
    StageInv(fs, fs', fd);
  }

  // ---- the three stages together

  /** The state in which the bytes are stored: the size is final, all slots up to it have
      blocks, and no byte that the write will not replace has moved. */
  ghost predicate Prepared(fs: Fs, fs': Fs, fd: int, len: nat) {
    && Stage(fs, fs', fd) && Inv(fs')
    && var f := fs.streams[fd];
    && fs'.streams[fd].size == Max(f.size, f.offset + len)
    && Size(fs'.disk, f.entry) == Max(f.size, f.offset + len)
    && (forall k :: 0 <= k < f.size && !(f.offset <= k < f.offset + len) ==>
         Block(fs'.disk, f.entry, BlockNo(k)) == Block(fs.disk, f.entry, BlockNo(k)))
    && Room(fs'.disk) == Room(fs.disk) - Needed(f, len)
    && (f.offset + len > Max(f.size, BLOCK) ==> Held(fs'.disk, f.entry, BlockNo(f.offset + len)))
  }

  function Prepare(fs: Fs, fd: int, len: nat): Fs { StoreSize(Extend(FirstBlock(fs, fd, len), fd, len), fd) }

  lemma PrepareStages(fs: Fs, fd: int, len: nat)
    requires Inv(fs) && Writable(fs, fd, len) && (len > 0 ==> Started(fs, fd))
    ensures Prepared(fs, Prepare(fs, fd, len), fd, len)
  {
    hide Inv, Stage, Held, Room, FirstBlock, Extend, StoreSize, Block, Started, Live, Covers, Size, Ino, Slot, DiskInv;
    var f := fs.streams[fd];
    OpenEntry(fs, fd);
    FirstBlockStage(fs, fd, len);
    var fs1 := FirstBlock(fs, fd, len);
    StageInv(fs, fs1, fd);
    StartedHeld(fs, fs1, fd, len);
    ExtendStage(fs1, fd, len);
    var fs2 := Extend(fs1, fd, len);
    StageInv(fs1, fs2, fd);
    StoreSizeStage(fs2, fd);
    var fs3 := StoreSize(fs2, fd);
    StageThen(fs, fs1, fs2, fd);
    StageThen(fs, fs2, fs3, fd);
    SizeBound(fs, fd);
    if f.offset + len > Max(f.size, BLOCK) {
      HeldLive(fs2.disk, f.entry, BlockNo(f.offset + len));
      StageHeld(fs2, fs3, fd, BlockNo(f.offset + len));
    }
    KeptSlots(fs, fs1.disk, fs2.disk, fs3.disk, fd, len);
  }

  /** Slots of bytes that the write does not replace keep their blocks through the stages. */
  lemma KeptSlots(fs: Fs, disk1: seq<Sector>, disk2: seq<Sector>, disk3: seq<Sector>, fd: int, len: nat)
    requires Open(fs, fd) && fs.streams[fd].size <= NR_BLOCKS * BLOCK
    requires fs.streams[fd].size != 0 ==> disk1 == fs.disk
    requires var f := fs.streams[fd];
             && (f.size != 0 && f.offset + len <= f.size ==> disk2 == disk1)
             && (forall j :: 0 <= j <= BlockNo(f.offset) ==> Block(disk2, f.entry, j) == Block(disk1, f.entry, j))
             && (forall j :: 0 <= j < NR_BLOCKS ==> Block(disk3, f.entry, j) == Block(disk2, f.entry, j))
    ensures var f := fs.streams[fd];
            forall k :: 0 <= k < f.size && !(f.offset <= k < f.offset + len) ==>
              Block(disk3, f.entry, BlockNo(k)) == Block(fs.disk, f.entry, BlockNo(k))
  {
    hide Block;
    var f := fs.streams[fd];
    forall k | 0 <= k < f.size && !(f.offset <= k < f.offset + len)
      ensures Block(disk3, f.entry, BlockNo(k)) == Block(fs.disk, f.entry, BlockNo(k))
    {
      assert f.offset + len > f.size ==> BlockNo(k) <= BlockNo(f.offset);
    }
  }

  lemma SizeBound(fs: Fs, fd: int)
    requires Inv(fs) && Open(fs, fd)
    ensures fs.streams[fd].size <= NR_BLOCKS * BLOCK
  {
    hide DiskInv, Held;
    assert StreamOk(fs.disk, fs.streams[fd]);
  }

  lemma StartedHeld(fs: Fs, fs1: Fs, fd: int, len: nat)
    requires Inv(fs) && Open(fs, fd) && Inv(fs1) && Open(fs1, fd)
    requires var f := fs.streams[fd]; f.offset <= f.size && BlockNo(f.offset + len) < NR_BLOCKS
    requires fs1.streams[fd].entry == fs.streams[fd].entry
    requires len > 0 ==> Started(fs, fd)
    requires fs.streams[fd].size != 0 ==> fs1 == fs
    requires fs.streams[fd].size == 0 ==> Held(fs1.disk, fs.streams[fd].entry, 0)
    ensures len > 0 ==> Held(fs1.disk, fs.streams[fd].entry, BlockNo(fs.streams[fd].offset))
  {
    hide Inv, Ino;
    OpenEntry(fs, fd);
    OpenEntry(fs1, fd);
  }

  // ---- stage 4: the bytes

  lemma HeldSec(disk: seq<Sector>, x: int, j: int)
    requires DiskInv(disk) && Held(disk, x, j)
    ensures SlotSec(INodeOf(disk, x), j) == 769 + Block(disk, x, j) < FIRST_SLICE <= |disk|
  {
    hide Ino, INodeOf, WordAt;
  }

  lemma ApartSec(disk: seq<Sector>, x: int, j: int, y: int, k: int)
    requires DiskInv(disk) && Held(disk, x, j) && Held(disk, y, k) && (x != y || j != k)
    ensures SlotSec(INodeOf(disk, x), j) != SlotSec(INodeOf(disk, y), k)
  {
    hide SlotSec, Held, INodeOf;
    HeldSec(disk, x, j);
    HeldSec(disk, y, k);
  }

  lemma FreeSlotSec(disk: seq<Sector>, x: int, j: int)
    requires Block(disk, x, j) == NO_BLOCK
    ensures SlotSec(INodeOf(disk, x), j) == 768
  {
    hide INodeOf, WordAt;
  }

  /** The slots d..last of file x are held, except perhaps the last one. */
  ghost predicate HeldRange(disk: seq<Sector>, x: int, d: int, last: int) {
    Live(disk, x) && 0 <= d <= last < NR_BLOCKS && forall j :: d <= j < last ==> Held(disk, x, j)
  }

  lemma RangeSeparate(disk: seq<Sector>, x: int, d: int, last: int)
    requires DiskInv(disk) && HeldRange(disk, x, d, last)
    ensures Separate(|disk|, INodeOf(disk, x), d, last)
  {
    hide DiskInv, Held, SlotSec, INodeOf, Live, Block;
    forall j | d <= j <= last
      ensures 0 <= SlotSec(INodeOf(disk, x), j) < |disk|
      ensures j < last ==> 769 <= SlotSec(INodeOf(disk, x), j)
      ensures !Held(disk, x, j) ==> SlotSec(INodeOf(disk, x), j) == 768
    {
      SlotSecRange(disk, x, j);
    }
    forall j, k | d <= j < k <= last
      ensures SlotSec(INodeOf(disk, x), j) != SlotSec(INodeOf(disk, x), k)
    {
      if Held(disk, x, k) { ApartSec(disk, x, j, x, k); }
    }
  }

  lemma SlotSecRange(disk: seq<Sector>, x: int, j: int)
    requires DiskInv(disk) && Live(disk, x) && 0 <= j < NR_BLOCKS
    ensures 768 <= SlotSec(INodeOf(disk, x), j) < |disk|
    ensures Held(disk, x, j) <==> 769 <= SlotSec(INodeOf(disk, x), j)
  {
    hide SlotSec, INodeOf, Ino, Block;
    if Held(disk, x, j) {
      HeldSec(disk, x, j);
    } else {
      FreeSlotSec(disk, x, j);
      assert Sized(disk);
    }
  }

  /** The bytes of other slots and other files stay. */
  lemma WroteElsewhere(disk: seq<Sector>, disk': seq<Sector>, x: int, off: nat, buf: seq<Byte>, d: int, last: int, y: int, j: int)
    requires DiskInv(disk) && HeldRange(disk, x, d, last) && Wrote(disk, disk', INodeOf(disk, x), off, buf, d, last)
    requires Held(disk, y, j) && (y != x || !(d <= j <= last))
    ensures Sec(disk', SlotSec(INodeOf(disk, y), j)) == Sec(disk, SlotSec(INodeOf(disk, y), j))
  {
    hide DiskInv, Sec, SlotSec, INodeOf, Live, Block, Held, ByteAt;
    HeldLive(disk, y, j);
    forall i | d <= i <= last
      ensures SlotSec(INodeOf(disk, x), i) != SlotSec(INodeOf(disk, y), j)
    {
      SlotSecRange(disk, x, i);
      SlotSecRange(disk, y, j);
      if Held(disk, x, i) { ApartSec(disk, x, i, y, j); }
    }
    assert Outside(INodeOf(disk, x), d, last, SlotSec(INodeOf(disk, y), j));
  }

  lemma HeldLive(disk: seq<Sector>, x: int, j: int)
    requires Held(disk, x, j)
    ensures Live(disk, x) && 0 <= j < NR_BLOCKS
  {
    hide Live, Block;
  }

  /** Nothing below the data area changes: not even sector 768, which an unused last slot
      stands for, because that slot gets no bytes. */
  lemma WroteLow(disk: seq<Sector>, disk': seq<Sector>, x: int, off: nat, buf: seq<Byte>, d: int, last: int)
    requires DiskInv(disk) && HeldRange(disk, x, d, last) && Wrote(disk, disk', INodeOf(disk, x), off, buf, d, last)
    requires Held(disk, x, last) || off + |buf| <= 512 * last
    ensures SameLow(disk, disk')
  {
    hide DiskInv, Sec, SlotSec, INodeOf, Live, Block, Held, ByteAt, Wrote;
    forall i | 0 <= i < 769
      ensures Sec(disk', i) == Sec(disk, i)
    {
      WroteLowSector(disk, disk', x, off, buf, d, last, i);
    }
    WroteLen(disk, disk', INodeOf(disk, x), off, buf, d, last);
  }

  lemma WroteLowSector(disk: seq<Sector>, disk': seq<Sector>, x: int, off: nat, buf: seq<Byte>, d: int, last: int, i: int)
    requires DiskInv(disk) && HeldRange(disk, x, d, last) && Wrote(disk, disk', INodeOf(disk, x), off, buf, d, last)
    requires Held(disk, x, last) || off + |buf| <= 512 * last
    requires 0 <= i < 769
    ensures Sec(disk', i) == Sec(disk, i)
  {
    hide DiskInv, Sec, SlotSec, INodeOf, Live, Block, Held, ByteAt;
    var inode := INodeOf(disk, x);
    forall j | d <= j <= last && SlotSec(inode, j) == i
      ensures j == last && !Held(disk, x, last)
    {
      SlotSecRange(disk, x, j);
    }
    if SlotSec(inode, last) == i {
      forall p | 0 <= p < BLOCK
        ensures Sec(disk', i)[p] == Sec(disk, i)[p]
      {
        var k := 512 * last + p;
        assert BlockNo(k) == last && InBlock(k) == p;
        assert ByteAt(disk', inode, k) == Spliced(disk, inode, off, buf, k);
        ByteAtSec(disk, inode, k);
        ByteAtSec(disk', inode, k);
      }
    } else {
      assert Outside(inode, d, last, i);
    }
  }

  lemma ByteAtSec(disk: seq<Sector>, inode: Sector, k: nat)
    ensures ByteAt(disk, inode, k) == Sec(disk, SlotSec(inode, BlockNo(k)))[InBlock(k)]
  {
  }

  /** A file whose inode and blocks are unchanged has the same bytes. */
  lemma SameBytes(disk: seq<Sector>, disk': seq<Sector>, inode: Sector, n: nat)
    requires forall j :: 0 <= j && 512 * j < n ==> Sec(disk', SlotSec(inode, j)) == Sec(disk, SlotSec(inode, j))
    ensures Content(disk', inode, n) == Content(disk, inode, n)
  {
    hide Sec, SlotSec, ByteAt;
    forall k | 0 <= k < n
      ensures ByteAt(disk', inode, k) == ByteAt(disk, inode, k)
    {
      ByteAtSec(disk, inode, k);
      ByteAtSec(disk', inode, k);
      assert 512 * BlockNo(k) <= k;
    }
  }

  /** What StoreBytes does to the disk. */
  lemma StoreBytesEffect(fs: Fs, fd: int, buf: seq<Byte>)
    requires Inv(fs) && Open(fs, fd)
    requires var f := fs.streams[fd]; f.offset + |buf| <= f.size && BlockNo(f.offset + |buf|) < NR_BLOCKS
    ensures var f := fs.streams[fd];
            var disk' := StoreBytes(fs, fd, buf).disk;
            SameLow(fs.disk, disk')
            && (forall y :: Live(fs.disk, y) && y != f.entry ==> File(disk', y) == File(fs.disk, y))
            && (forall k :: 0 <= k < f.size ==>
                 ByteAt(disk', INodeOf(fs.disk, f.entry), k) == Spliced(fs.disk, INodeOf(fs.disk, f.entry), f.offset, buf, k))
  {
    hide DiskInv, Sec, SlotSec, INodeOf, Live, Block, Held, ByteAt, WriteBase, SameLow, Wrote, Content, Covers, Separate, Size, Inv, Ino;
    var f := fs.streams[fd];
    var x, d, last := f.entry, BlockNo(f.offset), BlockNo(f.offset + |buf|);
    OpenEntry(fs, fd);
    OpenINode(fs, fd);
    var inode := INodeOf(fs.disk, x);
    OpenRange(fs, fd, |buf|);
    RangeSeparate(fs.disk, x, d, last);
    WriteBaseWrote(fs.disk, inode, f.offset, buf, d, last);
    var disk' := WriteBase(fs.disk, inode, f.offset, buf);
    WroteLow(fs.disk, disk', x, f.offset, buf, d, last);
    forall y | Live(fs.disk, y) && y != f.entry
      ensures File(disk', y) == File(fs.disk, y)
    {
      OtherFile(fs.disk, disk', x, f.offset, buf, d, last, y);
    }
    forall k | 0 <= k < f.size
      ensures ByteAt(disk', inode, k) == Spliced(fs.disk, inode, f.offset, buf, k)
    {
      OwnByte(fs, fd, disk', buf, k);
    }
  }

  lemma OpenINode(fs: Fs, fd: int)
    requires Inv(fs) && Open(fs, fd)
    ensures Sec(fs.disk, LocINode(fs.streams[fd].inode)) == INodeOf(fs.disk, fs.streams[fd].entry)
  {
    hide Inv, Ino, Held;
    OpenEntry(fs, fd);
  }

  lemma OpenRange(fs: Fs, fd: int, len: nat)
    requires Inv(fs) && Open(fs, fd)
    requires var f := fs.streams[fd]; f.offset + len <= f.size && BlockNo(f.offset + len) < NR_BLOCKS
    ensures var f := fs.streams[fd];
            var d, last := BlockNo(f.offset), BlockNo(f.offset + len);
            HeldRange(fs.disk, f.entry, d, last) && (Held(fs.disk, f.entry, last) || f.offset + len <= 512 * last)
  {
    hide Inv, Held, Live, Covers, Block;
    OpenEntry(fs, fd);
    var f := fs.streams[fd];
    forall j | 0 <= j && 512 * j < f.size
      ensures Held(fs.disk, f.entry, j)
    {
      OpenCovered(fs, fd, j);
    }
  }

  lemma OtherFile(disk: seq<Sector>, disk': seq<Sector>, x: int, off: nat, buf: seq<Byte>, d: int, last: int, y: int)
    requires DiskInv(disk) && HeldRange(disk, x, d, last) && Wrote(disk, disk', INodeOf(disk, x), off, buf, d, last)
    requires SameLow(disk, disk') && Live(disk, y) && y != x
    ensures File(disk', y) == File(disk, y)
  {
    hide DiskInv, Sec, SlotSec, INodeOf, Live, Block, Held, ByteAt, SameLow, Wrote, Content, Covers, HeldRange;
    LowFile(disk, disk', y);
    SizeCovered(disk, y);
    forall j | 0 <= j && 512 * j < Size(disk, y)
      ensures Sec(disk', SlotSec(INodeOf(disk, y), j)) == Sec(disk, SlotSec(INodeOf(disk, y), j))
    {
      CoversHeld(disk, y, Size(disk, y), j);
      WroteElsewhere(disk, disk', x, off, buf, d, last, y, j);
    }
    SameBytes(disk, disk', INodeOf(disk, y), Size(disk, y));
  }

  lemma CoversHeld(disk: seq<Sector>, x: int, n: int, j: int)
    requires Covers(disk, x, n) && 0 <= j && 512 * j < n
    ensures Held(disk, x, j)
  {
    hide Held;
  }

  lemma LowFile(disk: seq<Sector>, disk': seq<Sector>, y: int)
    requires DiskInv(disk) && SameLow(disk, disk') && Live(disk, y)
    ensures INodeOf(disk', y) == INodeOf(disk, y) && Size(disk', y) == Size(disk, y) && Live(disk', y)
  {
    hide Sec, Size, Ino;
    SameEntry(disk, disk', y);
    MarkedINode(disk, y);
    SameBlocks(disk, disk', y);
  }

  lemma OwnByte(fs: Fs, fd: int, disk': seq<Sector>, buf: seq<Byte>, k: nat)
    requires Inv(fs) && Open(fs, fd)
    requires var f := fs.streams[fd]; f.offset + |buf| <= f.size && BlockNo(f.offset + |buf|) < NR_BLOCKS && k < f.size
    requires var f := fs.streams[fd];
             Wrote(fs.disk, disk', INodeOf(fs.disk, f.entry), f.offset, buf, BlockNo(f.offset), BlockNo(f.offset + |buf|))
    ensures var f := fs.streams[fd];
            ByteAt(disk', INodeOf(fs.disk, f.entry), k) == Spliced(fs.disk, INodeOf(fs.disk, f.entry), f.offset, buf, k)
  {
    hide DiskInv, Sec, SlotSec, INodeOf, Live, Block, Held, ByteAt, Covers, HeldRange, Inv;
    var f := fs.streams[fd];
    var x, d, last := f.entry, BlockNo(f.offset), BlockNo(f.offset + |buf|);
    if !(d <= BlockNo(k) <= last) {
      OpenEntry(fs, fd);
      OpenRange(fs, fd, |buf|);
      assert 512 * BlockNo(k) <= k;
      OpenCovered(fs, fd, BlockNo(k));
      WroteElsewhere(fs.disk, disk', x, f.offset, buf, d, last, x, BlockNo(k));
      ByteAtSec(fs.disk, INodeOf(fs.disk, x), k);
      ByteAtSec(disk', INodeOf(fs.disk, x), k);
    }
  }
}
