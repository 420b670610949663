/** The main theorems on one open file: fs_write_kr splices, fs_read_kr reads the flat file,
    and when a write would break the file system. */
module FileRefine {
  import opened DiskFormat
  import opened FileSpec
  import opened FileBytes
  import opened DiskSteps
  import opened FileInvariant
  import opened FileWrite

  lemma WriteStages(fs: Fs, fd: int, buf: seq<Byte>)
    ensures FsWrite(fs, fd, buf) == StoreBytes(Prepare(fs, fd, |buf|), fd, buf)
  {
  }

  /** The write keeps the invariant. */
  lemma WriteKeeps(fs: Fs, fd: int, buf: seq<Byte>)
    requires Inv(fs) && Writable(fs, fd, |buf|) && (|buf| > 0 ==> Started(fs, fd))
    ensures Inv(FsWrite(fs, fd, buf))
    ensures Room(FsWrite(fs, fd, buf).disk) == Room(fs.disk) - Needed(fs.streams[fd], |buf|)
  {
    hide Inv, Stage, Needed, FirstBlock, Extend, StoreSize, Room, WriteBase, SameLow, Prepare, Covers, Changed, Size, Block, ByteAt, INodeOf, Started, File;
    WriteStages(fs, fd, buf);
    PrepareStages(fs, fd, |buf|);
    var fs3 := Prepare(fs, fd, |buf|);
    PreparedOpen(fs, fs3, fd, |buf|);
    StoreBytesEffect(fs3, fd, buf);
    var fs4 := StoreBytes(fs3, fd, buf);
    LowInv(fs3, fs4, fd);
    LowRoom(fs3.disk, fs4.disk);
  }

  lemma PreparedOpen(fs: Fs, fs': Fs, fd: int, len: nat)
    requires Prepared(fs, fs', fd, len)
    ensures Inv(fs') && Open(fs', fd) && |fs'.streams| == |fs.streams|
    ensures fs'.streams[fd] == fs.streams[fd].(size := Max(fs.streams[fd].size, fs.streams[fd].offset + len))
    ensures forall i :: 0 <= i < |fs.streams| && i != fd ==> fs'.streams[i] == fs.streams[i]
  {
    hide Inv, DiskInv, KeepsOthers, OtherStreams, SameData;
    StageInv(fs, fs', fd);
  }

  lemma LowRoom(disk: seq<Sector>, disk': seq<Sector>)
    requires SameLow(disk, disk')
    ensures Room(disk') == Room(disk)
  {
    hide Sec, Free;
    FreeSame(disk, disk', SAFE_BLOCKS);
  }

  /** Changes of the data area and of a stream's offset keep the invariant. */
  lemma LowInv(fs: Fs, fs': Fs, fd: int)
    requires Inv(fs) && Open(fs, fd) && SameLow(fs.disk, fs'.disk)
    requires |fs'.streams| == |fs.streams| && forall i :: 0 <= i < |fs.streams| && i != fd ==> fs'.streams[i] == fs.streams[i]
    requires exists n :: fs'.streams[fd] == fs.streams[fd].(offset := n)
    ensures Inv(fs')
  {
    hide SameLow, Sec, Live, Covers, Size, Ino, Changed, DiskInv;
    var x := fs.streams[fd].entry;
    assert INodesMarked(fs.disk) by { assert DiskInv(fs.disk); InvMarked(fs.disk); }
    DataChanged(fs.disk, fs'.disk, x);
    OpenEntry(fs, fd);
    SizeCovered(fs.disk, x);
    EntryInRange(fs.disk, x);
    ChangedCovers(fs.disk, fs'.disk, x, x, Size(fs.disk, x));
    ChangedKeeps(fs.disk, fs'.disk, x);
    forall i | 0 <= i < |fs.streams|
      ensures StreamOk(fs'.disk, fs'.streams[i])
    {
      ChangedStream(fs.disk, fs'.disk, x, fs.streams[i]);
    }
  }

  lemma InvMarked(disk: seq<Sector>)
    requires DiskInv(disk)
    ensures INodesMarked(disk)
  {
  }

  lemma EntryInRange(disk: seq<Sector>, x: int)
    requires Live(disk, x)
    ensures 0 <= x < ENTRIES
  {
  }

  lemma SpliceAt(bytes: seq<Byte>, off: nat, buf: seq<Byte>)
    requires off <= |bytes|
    ensures |Splice(bytes, off, buf)| == Max(|bytes|, off + |buf|)
    ensures forall k :: 0 <= k < Max(|bytes|, off + |buf|) ==>
              Splice(bytes, off, buf)[k] == if off <= k < off + |buf| then buf[k - off] else bytes[k]
  {
  }

  lemma OpenedLen(fs: Fs, fd: int)
    ensures |Opened(fs, fd)| == StreamAt(fs, fd).size
  {
    hide Sec, ByteAt;
  }

  /** A write is a splice: afterwards the file is its old bytes with buf in place of those from
      the offset on, as long as both together; entry and stream agree on the size. */
  lemma WriteRefines(fs: Fs, fd: int, buf: seq<Byte>)
    requires Inv(fs) && Writable(fs, fd, |buf|) && (|buf| > 0 ==> Started(fs, fd))
    ensures |Opened(fs, fd)| == fs.streams[fd].size
    ensures var f := fs.streams[fd];
            var fs' := FsWrite(fs, fd, buf);
            Open(fs', fd) && Opened(fs', fd) == Splice(Opened(fs, fd), f.offset, buf)
            && File(fs'.disk, f.entry) == Opened(fs', fd)
            && fs'.streams == fs.streams[fd := f.(size := Max(f.size, f.offset + |buf|), offset := f.offset + |buf|)]
            && Size(fs'.disk, f.entry) == fs'.streams[fd].size
  {
    hide Inv, Stage, Needed, FirstBlock, Extend, StoreSize, Room, WriteBase, SameLow, Prepare, Covers, Changed, Size, Block, ByteAt, INodeOf, Started, Prepared;
    hide Content, Sec, Splice, Live, Ino, SameData;
    var f := fs.streams[fd];
    WriteStages(fs, fd, buf);
    PrepareStages(fs, fd, |buf|);
    var fs3 := Prepare(fs, fd, |buf|);
    PreparedOpen(fs, fs3, fd, |buf|);
    PreparedSize(fs, fs3, fd, |buf|);
    StoreBytesEffect(fs3, fd, buf);
    var fs4 := StoreBytes(fs3, fd, buf);
    OpenEntry(fs3, fd);
    OpenEntry(fs, fd);
    OpenINode(fs, fd);
    OpenINode(fs3, fd);
    LowFile(fs3.disk, fs4.disk, f.entry);
    assert Sec(fs4.disk, LocINode(f.inode)) == Sec(fs3.disk, LocINode(f.inode)) by { LowINode(fs3.disk, fs4.disk, f.inode); }
    OpenedLen(fs, fd);
    WrittenBytes(fs, fs3, fs4.disk, fd, buf);
  }

  /** Byte by byte, the stored file is the splice. */
  lemma WrittenBytes(fs: Fs, fs': Fs, disk: seq<Sector>, fd: int, buf: seq<Byte>)
    requires Inv(fs) && Open(fs, fd) && fs.streams[fd].offset <= fs.streams[fd].size && Prepared(fs, fs', fd, |buf|)
    requires var inode := INodeOf(fs'.disk, fs.streams[fd].entry);
             forall k :: 0 <= k < Max(fs.streams[fd].size, fs.streams[fd].offset + |buf|) ==>
               ByteAt(disk, inode, k) == Spliced(fs'.disk, inode, fs.streams[fd].offset, buf, k)
    ensures |Opened(fs, fd)| == fs.streams[fd].size
    ensures var f := fs.streams[fd];
            Content(disk, INodeOf(fs'.disk, f.entry), Max(f.size, f.offset + |buf|)) == Splice(Opened(fs, fd), f.offset, buf)
  {
    hide Inv, Prepared, INodeOf, ByteAt, Splice, Content, Sec;
    var f := fs.streams[fd];
    var n := Max(f.size, f.offset + |buf|);
    var inode := INodeOf(fs'.disk, f.entry);
    OpenINode(fs, fd);
    ContentLen(fs.disk, INodeOf(fs.disk, f.entry), f.size);
    ContentLen(disk, inode, n);
    SpliceAt(Opened(fs, fd), f.offset, buf);
    forall k | 0 <= k < n
      ensures Content(disk, inode, n)[k] == Splice(Opened(fs, fd), f.offset, buf)[k]
    {
      if !(f.offset <= k < f.offset + |buf|) {
        PreparedByte(fs, fs', fd, |buf|, k);
      }
    }
  }

  lemma PreparedSize(fs: Fs, fs': Fs, fd: int, len: nat)
    requires Prepared(fs, fs', fd, len)
    ensures Size(fs'.disk, fs.streams[fd].entry) == Max(fs.streams[fd].size, fs.streams[fd].offset + len)
  {
    hide Inv, DiskInv, KeepsOthers, OtherStreams, SameData, Size;
  }

  lemma LowINode(disk: seq<Sector>, disk': seq<Sector>, ino: int)
    requires SameLow(disk, disk') && 0 <= ino < SC_INODE
    ensures Sec(disk', LocINode(ino)) == Sec(disk, LocINode(ino))
  {
    hide Sec;
  }

  /** No byte outside the part to be written has moved. */
  lemma PreparedByte(fs: Fs, fs': Fs, fd: int, len: nat, k: nat)
    requires Inv(fs) && Prepared(fs, fs', fd, len) && k < fs.streams[fd].size
    requires !(fs.streams[fd].offset <= k < fs.streams[fd].offset + len)
    ensures ByteAt(fs'.disk, INodeOf(fs'.disk, fs.streams[fd].entry), k) == ByteAt(fs.disk, INodeOf(fs.disk, fs.streams[fd].entry), k)
  {
    hide Inv, DiskInv, Stage, Sec, INodeOf, Live, Size, WordAt, NO_BLOCK;
    PreparedData(fs, fs', fd, len);
    var x := fs.streams[fd].entry;
    assert 512 * BlockNo(k) <= k;
    OpenCovered(fs, fd, BlockNo(k));
    OpenEntry(fs, fd);
    HeldSec(fs.disk, x, BlockNo(k));
    ByteAtSec(fs.disk, INodeOf(fs.disk, x), k);
    ByteAtSec(fs'.disk, INodeOf(fs'.disk, x), k);
  }

  lemma PreparedData(fs: Fs, fs': Fs, fd: int, len: nat)
    requires Prepared(fs, fs', fd, len)
    ensures Open(fs, fd) && SameData(fs.disk, fs'.disk) && KeepsOthers(fs.disk, fs'.disk, fs.streams[fd].entry)
  {
    hide Inv, DiskInv, KeepsOthers, OtherStreams, SameData, Size;
  }

  /** A write leaves all other files as they were, and the directory but for one size. */
  lemma WriteOthers(fs: Fs, fd: int, buf: seq<Byte>, y: int)
    requires Inv(fs) && Writable(fs, fd, |buf|) && (|buf| > 0 ==> Started(fs, fd))
    requires 0 <= y < ENTRIES
    ensures var disk, disk' := fs.disk, FsWrite(fs, fd, buf).disk;
            Ino(disk', y) == Ino(disk, y) && Name(disk', y) == Name(disk, y)
            && (y != fs.streams[fd].entry && Live(disk, y) ==> File(disk', y) == File(disk, y))
  {
    hide Inv, Stage, Needed, FirstBlock, Extend, StoreSize, Room, WriteBase, SameLow, Prepare, Covers, Changed, Size, Block, ByteAt, INodeOf, Started, Prepared;
    hide Content, Sec, Ino, Name, SameData;
    var x := fs.streams[fd].entry;
    WriteStages(fs, fd, buf);
    PrepareStages(fs, fd, |buf|);
    var fs3 := Prepare(fs, fd, |buf|);
    PreparedOpen(fs, fs3, fd, |buf|);
    PreparedData(fs, fs3, fd, |buf|);
    StoreBytesEffect(fs3, fd, buf);
    var fs4 := StoreBytes(fs3, fd, buf);
    LowEntry(fs3.disk, fs4.disk, y);
    if y != x && Live(fs.disk, y) {
      SameLive(fs.disk, fs3.disk, x, y);
      OpenEntry(fs, fd);
      PreparedFile(fs.disk, fs3.disk, x, y);
    }
  }

  lemma LowEntry(disk: seq<Sector>, disk': seq<Sector>, y: int)
    requires SameLow(disk, disk') && 0 <= y < ENTRIES
    ensures Ino(disk', y) == Ino(disk, y) && Name(disk', y) == Name(disk, y)
  {
    hide Sec, Ino, Name;
    SameEntry(disk, disk', y);
  }

  lemma PreparedFile(disk: seq<Sector>, disk': seq<Sector>, x: int, y: int)
    requires DiskInv(disk) && KeepsOthers(disk, disk', x) && SameData(disk, disk') && Live(disk, y) && y != x
    ensures File(disk', y) == File(disk, y)
  {
    hide DiskInv, Sec, SlotSec, INodeOf, Live, Block, Held, Content, Covers, Size, Ino;
    EntryInRange(disk, y);
    SizeCovered(disk, y);
    forall j | 0 <= j && 512 * j < Size(disk, y)
      ensures Sec(disk', SlotSec(INodeOf(disk, y), j)) == Sec(disk, SlotSec(INodeOf(disk, y), j))
    {
      CoversHeld(disk, y, Size(disk, y), j);
      HeldSec(disk, y, j);
    }
    SameBytes(disk, disk', INodeOf(disk, y), Size(disk, y));
  }

  // ---- reading

  predicate Readable(fs: Fs, fd: int) { Open(fs, fd) && fs.streams[fd].offset <= fs.streams[fd].size }

  /** A read delivers the bytes from the offset on, up to the end of the file; -1 at its end.
      It changes the offset and nothing else. */
  lemma ReadRefines(fs: Fs, fd: int, len: nat)
    requires Inv(fs) && Readable(fs, fd) && fs.streams[fd].offset + len < TWO_32
    ensures |Opened(fs, fd)| == fs.streams[fd].size
    ensures var f := fs.streams[fd];
            var (fs', n, data) := FsRead(fs, fd, len);
            var end := Min(f.offset + len, f.size);
            data == Opened(fs, fd)[f.offset..end]
            && n == (if end == f.offset then -1 else |data|)
            && fs' == SetStream(fs, fd, f.(offset := end))
    ensures Inv(FsRead(fs, fd, len).0)
  {
    hide Inv, Sec, ReadBase, ByteAt;
    var f := fs.streams[fd];
    var inode := Sec(fs.disk, LocINode(f.inode));
    ContentLen(fs.disk, inode, f.size);
    var n := ReadLen(f, len);
    if n > 0 {
      ReadBaseBytes(fs.disk, inode, f.offset, n);
      OffsetInv(fs, fd, f.offset + n);
    }
  }

  lemma OffsetInv(fs: Fs, fd: int, n: U32)
    requires Inv(fs) && 0 <= fd < |fs.streams|
    ensures Inv(SetStream(fs, fd, fs.streams[fd].(offset := n)))
  {
    hide DiskInv, Live, Covers;
  }

  /** Read after write: seeking back and reading as many bytes gives what was written. */
  lemma WriteReadBack(fs: Fs, fd: int, buf: seq<Byte>)
    requires Inv(fs) && Writable(fs, fd, |buf|) && Started(fs, fd) && |buf| > 0
    ensures var off := fs.streams[fd].offset;
            var (fs2, index) := LseekMd(FsWrite(fs, fd, buf), fd, off, 0);
            index == off && FsRead(fs2, fd, |buf|).1 == |buf| && FsRead(fs2, fd, |buf|).2 == buf
  {
    hide Inv, FsWrite, Room, Content, Splice, FsRead, Started, File, Sec;
    var f := fs.streams[fd];
    var fs1 := FsWrite(fs, fd, buf);
    WriteKeeps(fs, fd, buf);
    WriteRefines(fs, fd, buf);
    var fs2 := LseekMd(fs1, fd, f.offset, 0).0;
    OffsetInv(fs1, fd, f.offset);
    assert Opened(fs2, fd) == Opened(fs1, fd);
    OpenedLen(fs, fd);
    SpliceAt(Opened(fs, fd), f.offset, buf);
    ReadRefines(fs2, fd, |buf|);
  }

  /** Only sectors of the slots from the first to the last byte are written. */
  lemma WritePartFrame(disk: seq<Sector>, inode: Sector, off: nat, buf: seq<Byte>, d: int, last: int, i: int)
    requires InBlock(off) + |buf| <= BLOCK && d <= BlockNo(off) <= last && Outside(inode, d, last, i)
    ensures Sec(WritePart(disk, inode, off, buf), i) == Sec(disk, i)
  {
    hide LocData, WordAt;
    assert BlockOf(inode, off) == SlotSec(inode, BlockNo(off));
  }

  lemma {:induction false} WriteRestFrame(disk: seq<Sector>, inode: Sector, off: nat, buf: seq<Byte>, d: int, last: int, i: int)
    requires InBlock(off) == 0 && d <= BlockNo(off) && BlockNo(off + |buf|) <= last && Outside(inode, d, last, i)
    decreases |buf|
    ensures Sec(WriteRest(disk, inode, off, buf), i) == Sec(disk, i)
  {
    hide WritePart, Outside, Sec;
    if |buf| >= BLOCK {
      assert InBlock(off + BLOCK) == 0;
      WritePartFrame(disk, inode, off, buf[..BLOCK], d, last, i);
      WriteRestFrame(WritePart(disk, inode, off, buf[..BLOCK]), inode, off + BLOCK, buf[BLOCK..], d, last, i);
    } else {
      WritePartFrame(disk, inode, off, buf, d, last, i);
    }
  }

  lemma WriteBaseFrame(disk: seq<Sector>, inode: Sector, off: nat, buf: seq<Byte>, d: int, last: int, i: int)
    requires d <= BlockNo(off) && BlockNo(off + |buf|) <= last && Outside(inode, d, last, i)
    ensures Sec(WriteBase(disk, inode, off, buf), i) == Sec(disk, i)
  {
    hide WritePart, WriteRest, Outside, Sec;
    var n := BLOCK - InBlock(off);
    if |buf| > n {
      NextBlock(off);
      WritePartFrame(disk, inode, off, buf[..n], d, last, i);
      WriteRestFrame(WritePart(disk, inode, off, buf[..n]), inode, off + n, buf[n..], d, last, i);
    } else {
      WritePartFrame(disk, inode, off, buf, d, last, i);
    }
  }

  // ---- when a write breaks the file system

  /** A write of at least one byte keeps the invariant exactly when the slot at its offset has
      a block (or the file is empty).  The kernel takes blocks for later slots only, so after a
      write that ended on a block boundary without growing past it, the next one has no block
      of its own: it lands in the sector of inode 255. */
  lemma WriteKeepsIff(fs: Fs, fd: int, buf: seq<Byte>)
    requires Inv(fs) && Writable(fs, fd, |buf|) && |buf| > 0 && fs.streams[fd].inode != SC_INODE - 1
    ensures Inv(FsWrite(fs, fd, buf)) <==> Started(fs, fd)
  {
    hide Inv, FsWrite, Room, Started;
    if Started(fs, fd) {
      WriteKeeps(fs, fd, buf);
    } else {
      NotStarted(fs, fd, buf);
    }
  }

  /** The slot at the offset has no block: then the offset is the size, a multiple of 512. */
  lemma NotStartedAtEnd(fs: Fs, fd: int, len: nat)
    requires Inv(fs) && Writable(fs, fd, len) && !Started(fs, fd)
    ensures fs.streams[fd].offset == fs.streams[fd].size > 0
    ensures Block(fs.disk, fs.streams[fd].entry, BlockNo(fs.streams[fd].offset)) == NO_BLOCK
  {
    hide Inv, Live, Covers, Room, Needed, WordAt;
    var f := fs.streams[fd];
    OpenEntry(fs, fd);
    if 512 * BlockNo(f.offset) < f.size {
      OpenCovered(fs, fd, BlockNo(f.offset));
    }
  }

  lemma NotStarted(fs: Fs, fd: int, buf: seq<Byte>)
    requires Inv(fs) && Writable(fs, fd, |buf|) && |buf| > 0 && fs.streams[fd].inode != SC_INODE - 1 && !Started(fs, fd)
    ensures !Inv(FsWrite(fs, fd, buf))
  {
    hide Inv, DiskInv, Room, Started, GrowFile, SetSize, WriteBase, Block, Sec, Live, Size, INodeOf, Changed, Held, Covers, Ino, Slot;
    var f := fs.streams[fd];
    var x, d := f.entry, BlockNo(f.offset);
    NotStartedAtEnd(fs, fd, |buf|);
    OpenEntry(fs, fd);
    var end: U32 := f.offset + |buf|;
    var disk2 := GrowFile(fs.disk, f.inode, d + 1, BlockNo(end));
    GapWrite(fs, fd, buf);
    GrowsAtGap(fs, fd, |buf|, disk2);
    var disk3 := SetSize(disk2, x, end);
    EntryInRange(disk2, x);
    SizeChanged(disk2, x, end);
    ChangedSameEntries(disk2, disk3, x);
    assert INodeOf(disk3, x) == INodeOf(disk2, x);
    var disk4 := WriteBase(disk3, Sec(disk3, LocINode(f.inode)), f.offset, buf);
    assert Ino(disk3, x) == f.inode;
    assert Sec(disk3, LocINode(f.inode)) == INodeOf(disk2, x) by { INodeIs(disk3, x); }
    GapStaysLow(disk2, disk3, disk4, x, f.offset, buf);
    SameINodeBlock(disk2, disk3, x, d);
    GapFile(disk3, disk4, x, d, end);
    if Inv(FsWrite(fs, fd, buf)) {
      NotCovered(FsWrite(fs, fd, buf), x, d);
    }
  }

  /** What the write does then, stage by stage. */
  lemma GapWrite(fs: Fs, fd: int, buf: seq<Byte>)
    requires Open(fs, fd) && fs.streams[fd].offset == fs.streams[fd].size > 0 && |buf| > 0
    requires BlockNo(fs.streams[fd].offset + |buf|) < NR_BLOCKS
    ensures var f := fs.streams[fd];
            var end := f.offset + |buf|;
            var disk3 := SetSize(GrowFile(fs.disk, f.inode, BlockNo(f.offset) + 1, BlockNo(end)), f.entry, end);
            FsWrite(fs, fd, buf).disk == WriteBase(disk3, Sec(disk3, LocINode(f.inode)), f.offset, buf)
  {
    hide GrowFile, SetSize, WriteBase, Sec;
    var f := fs.streams[fd];
    assert FirstBlock(fs, fd, |buf|) == fs;
  }

  lemma SameINodeBlock(disk: seq<Sector>, disk': seq<Sector>, x: int, j: int)
    requires INodeOf(disk', x) == INodeOf(disk, x)
    ensures Block(disk', x, j) == Block(disk, x, j)
  {
  }

  lemma INodeIs(disk: seq<Sector>, x: int)
    ensures INodeOf(disk, x) == Sec(disk, LocINode(Ino(disk, x)))
  {
  }

  lemma NotCovered(fs: Fs, x: int, j: int)
    requires Inv(fs) && Live(fs.disk, x) && 0 <= j && 512 * j < Size(fs.disk, x)
    ensures Block(fs.disk, x, j) != NO_BLOCK
  {
    hide Size, Live, Block;
    SizeCovered(fs.disk, x);
  }

  /** The growth takes blocks for the later slots; the slot at the offset stays without one. */
  lemma GrowsAtGap(fs: Fs, fd: int, len: nat, disk2: seq<Sector>)
    requires Inv(fs) && Writable(fs, fd, len) && len > 0 && !Started(fs, fd)
    requires var f := fs.streams[fd]; disk2 == GrowFile(fs.disk, f.inode, BlockNo(f.offset) + 1, BlockNo(f.offset + len))
    ensures var f := fs.streams[fd];
            var d, last := BlockNo(f.offset), BlockNo(f.offset + len);
            DiskInv(disk2) && Live(disk2, f.entry) && Ino(disk2, f.entry) == f.inode
            && Block(disk2, f.entry, d) == NO_BLOCK && (forall j :: d < j <= last ==> Held(disk2, f.entry, j))
  {
    hide Inv, DiskInv, Room, Started, GrowFile, Block, Sec, Live, Size, Changed, Held, Covers, Ino, Slot;
    var f := fs.streams[fd];
    var x, d, last := f.entry, BlockNo(f.offset), BlockNo(f.offset + len);
    NotStartedAtEnd(fs, fd, len);
    OpenEntry(fs, fd);
    EntryInRange(fs.disk, x);
    GrowthChanged(fs.disk, x, d + 1, last);
    ChangedSameEntries(fs.disk, disk2, x);
    SizeCovered(fs.disk, x);
    ChangedCovers(fs.disk, disk2, x, x, Size(fs.disk, x));
    ChangedKeeps(fs.disk, disk2, x);
    SameLive(fs.disk, disk2, x, x);
  }

  /** The bytes go to sector 768 and to data blocks: all lower sectors stay. */
  lemma GapStaysLow(disk2: seq<Sector>, disk3: seq<Sector>, disk4: seq<Sector>, x: int, off: nat, buf: seq<Byte>)
    requires DiskInv(disk2) && |disk3| == |disk2|
    requires Block(disk2, x, BlockNo(off)) == NO_BLOCK
    requires forall j :: BlockNo(off) < j <= BlockNo(off + |buf|) ==> Held(disk2, x, j)
    requires disk4 == WriteBase(disk3, INodeOf(disk2, x), off, buf)
    ensures forall i :: 0 <= i < 768 ==> Sec(disk4, i) == Sec(disk3, i)
  {
    hide DiskInv, Block, Sec, INodeOf, Held, WriteBase, SlotSec;
    forall i | 0 <= i < 768
      ensures Sec(disk4, i) == Sec(disk3, i)
    {
      forall j | BlockNo(off) <= j <= BlockNo(off + |buf|)
        ensures SlotSec(INodeOf(disk2, x), j) != i
      {
        if j == BlockNo(off) {
          FreeSlotSec(disk2, x, j);
        } else {
          HeldSec(disk2, x, j);
        }
      }
      WriteBaseFrame(disk3, INodeOf(disk2, x), off, buf, BlockNo(off), BlockNo(off + |buf|), i);
    }
  }

  lemma GapFile(disk3: seq<Sector>, disk4: seq<Sector>, x: int, d: int, end: int)
    requires 0 <= x < ENTRIES && forall i :: 0 <= i < 768 ==> Sec(disk4, i) == Sec(disk3, i)
    requires Ino(disk3, x) < SC_INODE - 1 && Size(disk3, x) == end && Block(disk3, x, d) == NO_BLOCK
    ensures Live(disk4, x) && Size(disk4, x) == end && Block(disk4, x, d) == NO_BLOCK
  {
    hide Sec, WordAt;
    assert Sec(disk4, LocDir(DirNo(x))) == Sec(disk3, LocDir(DirNo(x)));
    assert Sec(disk4, LocINode(Ino(disk3, x))) == Sec(disk3, LocINode(Ino(disk3, x)));
  }

  /** After a first write of exactly one block the stream stands at a slot without one. */
  lemma OneBlockWritten(fs: Fs, fd: int, buf: seq<Byte>)
    requires Inv(fs) && Open(fs, fd) && fs.streams[fd].offset == 0 && fs.streams[fd].size == 0 && |buf| == BLOCK
    requires Room(fs.disk) > 0 && Block(fs.disk, fs.streams[fd].entry, 1) == NO_BLOCK
    ensures !Started(FsWrite(fs, fd, buf), fd)
  {
    hide Inv, DiskInv, Room, GrowFile, SetSize, WriteBase, Block, Sec, Live, Size, INodeOf, Held, Covers, Ino, Stage, SameLow, File, ByteAt, Changed, FreshBlock;
    var x, ino := fs.streams[fd].entry, fs.streams[fd].inode;
    OpenEntry(fs, fd);
    var fs1 := FirstBlock(fs, fd, BLOCK);
    GrowStage(fs, fd, 0, 0, BLOCK);
    StageInv(fs, fs1, fd);
    assert Extend(fs1, fd, BLOCK) == fs1;
    StoreSizeStage(fs1, fd);
    var fs3 := StoreSize(fs1, fd);
    StoreBytesEffect(fs3, fd, buf);
    var fs4 := StoreBytes(fs3, fd, buf);
    assert FsWrite(fs, fd, buf) == fs4;
    OpenEntry(fs3, fd);
    LowINode(fs3.disk, fs4.disk, ino);
    SlotSame(fs3.disk, fs4.disk, ino, 1);
  }

  lemma SlotSame(disk: seq<Sector>, disk': seq<Sector>, ino: int, j: int)
    requires Sec(disk', LocINode(ino)) == Sec(disk, LocINode(ino))
    ensures Slot(disk', ino, j) == Slot(disk, ino, j)
  {
  }

  // ---- the same on inode 255

  /** The file whose slot has no block is the one on inode 255: the misplaced bytes then replace
      the file's own slots. */
  lemma NotStartedLast(fs: Fs, fd: int, buf: seq<Byte>)
    requires Inv(fs) && Writable(fs, fd, |buf|) && |buf| > 0 && fs.streams[fd].inode == SC_INODE - 1 && !Started(fs, fd)
    ensures var s := Sec(FsWrite(fs, fd, buf).disk, LocINode(SC_INODE - 1));
            forall k :: 0 <= k < |buf| && k < BLOCK ==> s[k] == buf[k]
    ensures forall j :: 0 <= j < NR_BLOCKS && 4 * j + 3 < |buf| ==>
              Slot(FsWrite(fs, fd, buf).disk, SC_INODE - 1, j) == Join(buf[4 * j], buf[4 * j + 1], buf[4 * j + 2], buf[4 * j + 3])
  {
    hide Inv, DiskInv, Room, Started, GrowFile, SetSize, WriteBase, Block, Sec, Live, Size, INodeOf, Changed, Held, Covers, Ino, Slot, Wrote;
    var f := fs.streams[fd];
    var x, d := f.entry, BlockNo(f.offset);
    NotStartedAtEnd(fs, fd, |buf|);
    OpenEntry(fs, fd);
    var end: U32 := f.offset + |buf|;
    var disk2 := GrowFile(fs.disk, f.inode, d + 1, BlockNo(end));
    GapWrite(fs, fd, buf);
    GrowsAtGap(fs, fd, |buf|, disk2);
    var disk3 := SetSize(disk2, x, end);
    EntryInRange(disk2, x);
    SizeChanged(disk2, x, end);
    ChangedSameEntries(disk2, disk3, x);
    INodeIs(disk3, x);
    var inode := INodeOf(disk2, x);
    GapSeparate(disk2, x, d, BlockNo(end));
    WriteBaseWrote(disk3, inode, f.offset, buf, d, BlockNo(end));
    FreeSlotSec(disk2, x, d);
    NotStartedOffset(fs, fd, |buf|);
    GapBytes(disk3, WriteBase(disk3, inode, f.offset, buf), inode, f.offset, buf, d, BlockNo(end));
    BufSlots(FsWrite(fs, fd, buf).disk, buf);
  }

  lemma NotStartedOffset(fs: Fs, fd: int, len: nat)
    requires Inv(fs) && Writable(fs, fd, len) && !Started(fs, fd)
    ensures InBlock(fs.streams[fd].offset) == 0
  {
    hide Inv, Live, Covers, Room, Needed, WordAt;
    var f := fs.streams[fd];
    OpenEntry(fs, fd);
    if 512 * BlockNo(f.offset) < f.size {
      OpenCovered(fs, fd, BlockNo(f.offset));
    }
  }

  lemma GapSeparate(disk: seq<Sector>, x: int, d: int, last: int)
    requires DiskInv(disk) && 0 <= d <= last < NR_BLOCKS && Live(disk, x)
    requires Block(disk, x, d) == NO_BLOCK && forall j :: d < j <= last ==> Held(disk, x, j)
    ensures Separate(|disk|, INodeOf(disk, x), d, last)
  {
    hide DiskInv, Held, SlotSec, INodeOf, Live, Block;
    FreeSlotSec(disk, x, d);
    forall j | d <= j <= last
      ensures 0 <= SlotSec(INodeOf(disk, x), j) < |disk| && (j > d ==> 769 <= SlotSec(INodeOf(disk, x), j))
    {
      SlotSecRange(disk, x, j);
    }
    forall j, k | d <= j < k <= last
      ensures SlotSec(INodeOf(disk, x), j) != SlotSec(INodeOf(disk, x), k)
    {
      if j > d { ApartSec(disk, x, j, x, k); }
    }
  }

  lemma GapBytes(disk: seq<Sector>, disk': seq<Sector>, inode: Sector, off: nat, buf: seq<Byte>, d: int, last: int)
    requires Wrote(disk, disk', inode, off, buf, d, last) && InBlock(off) == 0 && d == BlockNo(off) <= last && SlotSec(inode, d) == 768
    ensures forall k :: 0 <= k < |buf| && k < BLOCK ==> Sec(disk', 768)[k] == buf[k]
  {
    hide Sec, SlotSec, ByteAt;
    forall k | 0 <= k < |buf| && k < BLOCK
      ensures Sec(disk', 768)[k] == buf[k]
    {
      assert BlockNo(off + k) == d && InBlock(off + k) == k;
      assert ByteAt(disk', inode, off + k) == Spliced(disk, inode, off, buf, off + k);
      ByteAtSec(disk', inode, off + k);
    }
  }

  lemma BufSlots(disk: seq<Sector>, buf: seq<Byte>)
    requires forall k :: 0 <= k < |buf| && k < BLOCK ==> Sec(disk, 768)[k] == buf[k]
    ensures forall j :: 0 <= j < NR_BLOCKS && 4 * j + 3 < |buf| ==>
              Slot(disk, SC_INODE - 1, j) == Join(buf[4 * j], buf[4 * j + 1], buf[4 * j + 2], buf[4 * j + 3])
  {
    hide Sec, Join;
    assert LocINode(SC_INODE - 1) == 768;
  }

  /** On inode 255 the invariant depends on the caller's data: it cannot survive unless every
      word of them that now stands in a slot of the file is the number of a marked block. */
  lemma LastNeedsBlocks(fs: Fs, fd: int, buf: seq<Byte>, j: int)
    requires Inv(fs) && Writable(fs, fd, |buf|) && |buf| > 0 && fs.streams[fd].inode == SC_INODE - 1 && !Started(fs, fd)
    requires Inv(FsWrite(fs, fd, buf)) && 0 <= j < NR_BLOCKS && 4 * j + 3 < |buf| && 512 * j < fs.streams[fd].size + |buf|
    ensures var b := Join(buf[4 * j], buf[4 * j + 1], buf[4 * j + 2], buf[4 * j + 3]);
            b < SAFE_BLOCKS && BlockUsed(FsWrite(fs, fd, buf).disk, b)
  {
    hide Inv, FsWrite, Started, Room, Needed, Join, DiskInv, Live, Size, Ino, Slot, Block, Held, Covers, Used;
    NotStartedLast(fs, fd, buf);
    LastEntry(fs, fd, buf);
    var fs' := FsWrite(fs, fd, buf);
    InvDiskOf(fs');
    SizeCovered(fs'.disk, fs.streams[fd].entry);
    CoversHeld(fs'.disk, fs.streams[fd].entry, Size(fs'.disk, fs.streams[fd].entry), j);
    HeldBlock(fs'.disk, fs.streams[fd].entry, j);
  }

  lemma InvDiskOf(fs: Fs)
    requires Inv(fs)
    ensures DiskInv(fs.disk)
  {
  }

  lemma HeldBlock(disk: seq<Sector>, x: int, j: int)
    requires DiskInv(disk) && Held(disk, x, j)
    ensures Slot(disk, Ino(disk, x), j) < SAFE_BLOCKS && BlockUsed(disk, Slot(disk, Ino(disk, x), j))
  {
    hide Used, WordAt, Ino;
    assert Block(disk, x, j) == Slot(disk, Ino(disk, x), j);
  }

  lemma LastEntry(fs: Fs, fd: int, buf: seq<Byte>)
    requires Inv(fs) && Writable(fs, fd, |buf|) && |buf| > 0 && !Started(fs, fd)
    ensures var disk', f := FsWrite(fs, fd, buf).disk, fs.streams[fd];
            Live(disk', f.entry) && Ino(disk', f.entry) == f.inode && Size(disk', f.entry) == f.size + |buf|
  {
    hide Inv, DiskInv, Room, Started, GrowFile, SetSize, WriteBase, Block, Sec, Live, Size, INodeOf, Changed, Held, Covers, Ino, Slot;
    var f := fs.streams[fd];
    var x, d := f.entry, BlockNo(f.offset);
    NotStartedAtEnd(fs, fd, |buf|);
    OpenEntry(fs, fd);
    var end: U32 := f.offset + |buf|;
    var disk2 := GrowFile(fs.disk, f.inode, d + 1, BlockNo(end));
    GapWrite(fs, fd, buf);
    GrowsAtGap(fs, fd, |buf|, disk2);
    var disk3 := SetSize(disk2, x, end);
    EntryInRange(disk2, x);
    SizeChanged(disk2, x, end);
    ChangedSameEntries(disk2, disk3, x);
    INodeIs(disk3, x);
    var disk4 := WriteBase(disk3, INodeOf(disk2, x), f.offset, buf);
    GapStaysLow(disk2, disk3, disk4, x, f.offset, buf);
    LowDirectory(disk3, disk4, x);
    SameLive(disk2, disk3, x, x);
  }

  lemma LowDirectory(disk3: seq<Sector>, disk4: seq<Sector>, x: int)
    requires 0 <= x < ENTRIES && forall i :: 0 <= i < 768 ==> Sec(disk4, i) == Sec(disk3, i)
    ensures Live(disk4, x) == Live(disk3, x) && Ino(disk4, x) == Ino(disk3, x) && Size(disk4, x) == Size(disk3, x)
  {
    hide Sec, WordAt;
    assert Sec(disk4, LocDir(DirNo(x))) == Sec(disk3, LocDir(DirNo(x)));
  }
}
