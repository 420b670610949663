/** The invariant of the disk: inodes of live entries are marked and not shared, data blocks
    are marked and occupy one slot of one file each, and cover the file's size. */
module FileInvariant {
  import opened DiskFormat
  import opened FileSpec
  import opened FileBytes
  import opened DiskSteps

  /** Entry x names a file. */
  predicate Live(disk: seq<Sector>, x: int) { 0 <= x < ENTRIES && Ino(disk, x) != NO_BLOCK }

  function INodeOf(disk: seq<Sector>, x: int): Sector { Sec(disk, LocINode(Ino(disk, x))) }

  /** Slot j of file x. */
  function Block(disk: seq<Sector>, x: int, j: int): U32 { WordAt(INodeOf(disk, x), j) }

  predicate Held(disk: seq<Sector>, x: int, j: int) { Live(disk, x) && 0 <= j < NR_BLOCKS && Block(disk, x, j) != NO_BLOCK }

  /** The bytes of file x. */
  function File(disk: seq<Sector>, x: int): seq<Byte> { Content(disk, INodeOf(disk, x), Size(disk, x)) }

  ghost predicate INodesMarked(disk: seq<Sector>) {
    forall x :: Live(disk, x) ==> Ino(disk, x) < SC_INODE && INodeUsed(disk, Ino(disk, x))
  }

  ghost predicate INodesApart(disk: seq<Sector>) {
    forall x, y :: Live(disk, x) && Live(disk, y) && x != y ==> Ino(disk, x) != Ino(disk, y)
  }

  ghost predicate BlocksMarked(disk: seq<Sector>) {
    forall x, j :: Held(disk, x, j) ==> Block(disk, x, j) < SAFE_BLOCKS && BlockUsed(disk, Block(disk, x, j))
  }

  /** No data block is in two slots. */
  ghost predicate BlocksApart(disk: seq<Sector>) {
    forall x, j, y, k :: Held(disk, x, j) && Held(disk, y, k) && (x != y || j != k) ==> Block(disk, x, j) != Block(disk, y, k)
  }

  /** The slots that hold the first n bytes have blocks. */
  ghost predicate Covers(disk: seq<Sector>, x: int, n: int) {
    n <= NR_BLOCKS * BLOCK && forall j :: 0 <= j && 512 * j < n ==> Held(disk, x, j)
  }

  ghost predicate SizesCovered(disk: seq<Sector>) {
    forall x :: Live(disk, x) ==> Covers(disk, x, Size(disk, x))
  }

  /** Entries that name no file have the empty name. */
  ghost predicate DeadNamesEmpty(disk: seq<Sector>) {
    forall x :: 0 <= x < ENTRIES && !Live(disk, x) ==> Name(disk, x)[0] == 0
  }

  ghost predicate DiskInv(disk: seq<Sector>) {
    && Sized(disk) && INodesMarked(disk) && INodesApart(disk) && BlocksMarked(disk) && BlocksApart(disk)
    && SizesCovered(disk) && DeadNamesEmpty(disk)
  }

  /** An open stream names a live entry and its inode, and its size is covered. */
  ghost predicate StreamOk(disk: seq<Sector>, f: Stream) {
    f.used ==> Live(disk, f.entry) && f.inode == Ino(disk, f.entry) && Covers(disk, f.entry, f.size)
  }

  ghost predicate Inv(fs: Fs) {
    DiskInv(fs.disk) && |fs.streams| == NR_FILE_STREAM && forall fd :: 0 <= fd < |fs.streams| ==> StreamOk(fs.disk, fs.streams[fd])
  }

  // ---- one file changes

  /** Entries stay what they are but for the size of entry x. */
  ghost predicate SameEntries(disk: seq<Sector>, disk': seq<Sector>, x: int) {
    forall y :: 0 <= y < ENTRIES ==>
      Ino(disk', y) == Ino(disk, y) && Name(disk', y) == Name(disk, y) && (y != x ==> Size(disk', y) == Size(disk, y))
  }

  /** The slots of all files stay what they are, except that file x may get fresh blocks. */
  ghost predicate SameSlots(disk: seq<Sector>, disk': seq<Sector>, x: int) {
    && (forall y, j :: Live(disk, y) && 0 <= j < NR_BLOCKS ==>
         Block(disk', y, j) == Block(disk, y, j) || (y == x && FreshBlock(disk, disk', Block(disk', y, j))))
    && (forall j, k :: 0 <= j < k < NR_BLOCKS && FreshBlock(disk, disk', Block(disk', x, j)) ==> Block(disk', x, j) != Block(disk', x, k))
  }

  ghost predicate MoreUsed(disk: seq<Sector>, disk': seq<Sector>) {
    forall q :: 0 <= q < FIRST_SLICE && Used(disk, q) ==> Used(disk', q)
  }

  /** A change of file x: its size and blocks, and bits that become set. */
  ghost predicate Changed(disk: seq<Sector>, disk': seq<Sector>, x: int) {
    |disk'| == |disk| && SameEntries(disk, disk', x) && SameSlots(disk, disk', x) && MoreUsed(disk, disk')
  }

  lemma SameLive(disk: seq<Sector>, disk': seq<Sector>, x: int, y: int)
    requires SameEntries(disk, disk', x)
    ensures Live(disk', y) == Live(disk, y)
  {
    hide Ino, Size, Name;
  }

  lemma ChangedMarks(disk: seq<Sector>, disk': seq<Sector>, x: int)
    requires Changed(disk, disk', x) && DiskInv(disk)
    ensures INodesMarked(disk') && INodesApart(disk') && DeadNamesEmpty(disk')
  {
    hide Ino, Size, Name, Used, Block, SameSlots, BlocksMarked, BlocksApart, SizesCovered;
    forall y ensures Live(disk', y) == Live(disk, y) { SameLive(disk, disk', x, y); }
  }

  lemma ChangedBlocks(disk: seq<Sector>, disk': seq<Sector>, x: int)
    requires Changed(disk, disk', x) && DiskInv(disk)
    ensures BlocksMarked(disk')
  {
    hide Ino, Size, Name, Used, Block, INodesMarked, INodesApart, BlocksApart, SizesCovered, DeadNamesEmpty, SameEntries;
    forall y ensures Live(disk', y) == Live(disk, y) { SameLive(disk, disk', x, y); }
    forall y, j | Held(disk', y, j)
      ensures Block(disk', y, j) < SAFE_BLOCKS && BlockUsed(disk', Block(disk', y, j))
    {
      assert Block(disk', y, j) == Block(disk, y, j) ==> Held(disk, y, j);
    }
  }

  lemma ChangedApart(disk: seq<Sector>, disk': seq<Sector>, x: int)
    requires Changed(disk, disk', x) && DiskInv(disk)
    ensures BlocksApart(disk')
  {
    hide Ino, Size, Name, Used, Block, INodesMarked, INodesApart, SizesCovered, DeadNamesEmpty, SameEntries;
    hide FreshBlock, BlocksApart, BlocksMarked, SameSlots, MoreUsed;
    forall y ensures Live(disk', y) == Live(disk, y) { SameLive(disk, disk', x, y); }
    forall y, j, z, k | Held(disk', y, j) && Held(disk', z, k) && (y != z || j != k)
      ensures Block(disk', y, j) != Block(disk', z, k)
    {
      ChangedPair(disk, disk', x, y, j, z, k);
    }
    ApartIntro(disk');
  }

  lemma ApartIntro(disk: seq<Sector>)
    requires forall x, j, y, k :: Held(disk, x, j) && Held(disk, y, k) && (x != y || j != k) ==> Block(disk, x, j) != Block(disk, y, k)
    ensures BlocksApart(disk)
  {
  }

  lemma ChangedPair(disk: seq<Sector>, disk': seq<Sector>, x: int, y: int, j: int, z: int, k: int)
    requires Changed(disk, disk', x) && DiskInv(disk) && (y != z || j != k)
    requires Live(disk, y) && 0 <= j < NR_BLOCKS && Live(disk, z) && 0 <= k < NR_BLOCKS
    requires Block(disk', y, j) != NO_BLOCK && Block(disk', z, k) != NO_BLOCK
    ensures Block(disk', y, j) != Block(disk', z, k)
  {
    hide Ino, Size, Name, Used, Block, INodesMarked, INodesApart, SizesCovered, DeadNamesEmpty, SameEntries, MoreUsed;
    assert Block(disk', y, j) == Block(disk, y, j) ==> Held(disk, y, j);
    assert Block(disk', z, k) == Block(disk, z, k) ==> Held(disk, z, k);
    if y == x && z == x && k < j {
      assert FreshBlock(disk, disk', Block(disk', x, k)) ==> Block(disk', x, k) != Block(disk', x, j);
    }
  }

  lemma ChangedCovers(disk: seq<Sector>, disk': seq<Sector>, x: int, y: int, n: int)
    requires Changed(disk, disk', x) && Covers(disk, y, n)
    ensures Covers(disk', y, n)
  {
    hide Ino, Size, Name, Used, Block;
    forall j | 0 <= j && 512 * j < n
      ensures Held(disk', y, j)
    {
      assert Held(disk, y, j);
    }
  }

  /** A change of one file keeps the invariant, if its blocks cover its new size. */
  lemma ChangedKeeps(disk: seq<Sector>, disk': seq<Sector>, x: int)
    requires Changed(disk, disk', x) && DiskInv(disk)
    requires Live(disk, x) ==> Covers(disk', x, Size(disk', x))
    ensures DiskInv(disk')
  {
    ChangedMarks(disk, disk', x);
    ChangedBlocks(disk, disk', x);
    ChangedApart(disk, disk', x);
    assert SizesCovered(disk') by {
      hide Ino, Size, Name, Used, Block, Covers, SameSlots, INodesMarked, INodesApart, BlocksMarked, BlocksApart, DeadNamesEmpty;
      forall y ensures Live(disk', y) == Live(disk, y) { SameLive(disk, disk', x, y); }
      forall y | Live(disk', y)
        ensures Covers(disk', y, Size(disk', y))
      {
        if y != x {
          ChangedCovers(disk, disk', x, y, Size(disk, y));
        }
      }
    }
  }

  lemma ChangedStream(disk: seq<Sector>, disk': seq<Sector>, x: int, f: Stream)
    requires Changed(disk, disk', x) && StreamOk(disk, f)
    ensures StreamOk(disk', f)
  {
    hide Ino, Size, Name, Used, Block, Covers, SameSlots;
    if f.used {
      ChangedCovers(disk, disk', x, f.entry, f.size);
    }
  }

  // ---- the three kinds of change

  /** Changes of the data area only. */
  predicate SameLow(disk: seq<Sector>, disk': seq<Sector>) {
    |disk'| == |disk| && forall i :: 0 <= i < 769 ==> Sec(disk', i) == Sec(disk, i)
  }

  lemma UsedSlice(disk: seq<Sector>, disk': seq<Sector>, q: nat)
    requires Sec(disk', 1) == Sec(disk, 1) && q < FIRST_SLICE
    ensures Used(disk', q) == Used(disk, q)
  {
    hide HasBit, Sec;
    KernelAndHost(disk, KERNEL_STRIDE, q);
    KernelAndHost(disk', KERNEL_STRIDE, q);
  }

  lemma SameBlocks(disk: seq<Sector>, disk': seq<Sector>, y: int)
    requires Ino(disk', y) == Ino(disk, y) && Ino(disk, y) < SC_INODE
    requires forall i :: LocINode(0) <= i < LocINode(SC_INODE) ==> Sec(disk', i) == Sec(disk, i)
    ensures INodeOf(disk', y) == INodeOf(disk, y) && forall j :: Block(disk', y, j) == Block(disk, y, j)
  {
    hide Ino, Sec;
  }

  lemma DataChanged(disk: seq<Sector>, disk': seq<Sector>, x: int)
    requires SameLow(disk, disk') && INodesMarked(disk)
    ensures Changed(disk, disk', x) && forall y :: 0 <= y < ENTRIES ==> Size(disk', y) == Size(disk, y)
  {
    hide Ino, Size, Name, Sec, HasBit, Block, FreshBlock;
    forall y | 0 <= y < ENTRIES
      ensures Ino(disk', y) == Ino(disk, y) && Name(disk', y) == Name(disk, y) && Size(disk', y) == Size(disk, y)
    {
      SameEntry(disk, disk', y);
    }
    forall y, j | Live(disk, y)
      ensures Block(disk', y, j) == Block(disk, y, j)
    {
      SameBlocks(disk, disk', y);
    }
    forall q | 0 <= q < FIRST_SLICE
      ensures Used(disk', q) == Used(disk, q)
    {
      UsedSlice(disk, disk', q);
    }
    NoFresh(disk, disk');
  }

  lemma NoFresh(disk: seq<Sector>, disk': seq<Sector>)
    requires forall q :: 0 <= q < FIRST_SLICE ==> Used(disk', q) == Used(disk, q)
    ensures forall b :: !FreshBlock(disk, disk', b)
  {
    hide Bit;
  }

  lemma SizeChanged(disk: seq<Sector>, x: int, n: U32)
    requires DiskInv(disk) && 0 <= x < ENTRIES
    ensures Changed(disk, SetSize(disk, x, n), x) && Size(SetSize(disk, x, n), x) == n
    ensures forall y :: Live(disk, y) ==> INodeOf(SetSize(disk, x, n), y) == INodeOf(disk, y)
  {
    hide Ino, Size, Name, Sec, HasBit, Block, INodeOf, FreshBlock, WordAt, SetWord;
    var disk' := SetSize(disk, x, n);
    SetSizeSectors(disk, x, n);
    forall y | 0 <= y < ENTRIES
      ensures Ino(disk', y) == Ino(disk, y) && Name(disk', y) == Name(disk, y)
      ensures Size(disk', y) == if y == x then n else Size(disk, y)
    {
      SetSizeEffect(disk, x, n, y);
    }
    forall y | Live(disk, y)
      ensures INodeOf(disk', y) == INodeOf(disk, y) && forall j :: Block(disk', y, j) == Block(disk, y, j)
    {
      SameBlocks(disk, disk', y);
    }
    forall q | 0 <= q < FIRST_SLICE
      ensures Used(disk', q) == Used(disk, q)
    {
      UsedSlice(disk, disk', q);
    }
    NoFresh(disk, disk');
  }

  lemma SetSizeSectors(disk: seq<Sector>, x: int, n: U32)
    requires 0 <= x < ENTRIES
    ensures var disk' := SetSize(disk, x, n);
            |disk'| == |disk| && forall i :: !(LocDir(0) <= i < LocDir(SC_DIR)) ==> Sec(disk', i) == Sec(disk, i)
  {
    hide SetWord;
  }

  /** Growth of file x by fresh blocks in slots d..last. */
  lemma GrowthChanged(disk: seq<Sector>, x: int, d: int, last: int)
    requires DiskInv(disk) && Live(disk, x)
    requires 0 <= d <= last + 1 <= NR_BLOCKS && last + 1 - d <= Room(disk)
    ensures var disk' := GrowFile(disk, Ino(disk, x), d, last);
            Changed(disk, disk', x) && Room(disk') == Room(disk) - (last + 1 - d)
            && (forall y :: 0 <= y < ENTRIES ==> Size(disk', y) == Size(disk, y))
            && (forall j :: 0 <= j < NR_BLOCKS && !(d <= j <= last) ==> Block(disk', x, j) == Block(disk, x, j))
            && (forall j :: d <= j <= last ==> Held(disk', x, j))
            && (forall y :: Live(disk, y) && y != x ==> INodeOf(disk', y) == INodeOf(disk, y))
            && (forall i :: 769 <= i ==> Sec(disk', i) == Sec(disk, i))
  {
    hide Ino, Size, Name, Sec, HasBit, Block, FreshBlock, WordAt, SetWord, Grow, Room;
    GrowFileEffect(disk, x, d, last);
    var disk' := GrowFile(disk, Ino(disk, x), d, last);
    forall y | 0 <= y < ENTRIES
      ensures Ino(disk', y) == Ino(disk, y) && Name(disk', y) == Name(disk, y) && Size(disk', y) == Size(disk, y)
    {
      SameEntry(disk, disk', y);
    }
  }

  lemma GrowFileEffect(disk: seq<Sector>, x: int, d: int, last: int)
    requires DiskInv(disk) && Live(disk, x)
    requires 0 <= d <= last + 1 <= NR_BLOCKS && last + 1 - d <= Room(disk)
    ensures var disk' := GrowFile(disk, Ino(disk, x), d, last);
            SameDirs(disk, disk') && MoreUsed(disk, disk') && SameSlots(disk, disk', x) && Room(disk') == Room(disk) - (last + 1 - d)
            && (forall j :: 0 <= j < NR_BLOCKS && !(d <= j <= last) ==> Block(disk', x, j) == Block(disk, x, j))
            && (forall j :: d <= j <= last ==> Held(disk', x, j))
            && (forall y :: Live(disk, y) && y != x ==> INodeOf(disk', y) == INodeOf(disk, y))
            && (forall i :: 769 <= i ==> Sec(disk', i) == Sec(disk, i))
  {
    hide Ino, Size, Name, Sec, HasBit, FreshBlock, WordAt, Grow, Room, MoreUsed, SameDirs, INodesMarked, INodesApart;
    hide BlocksMarked, BlocksApart, SizesCovered, DeadNamesEmpty, NO_BLOCK;
    var ino := Ino(disk, x);
    var (disk1, inode1) := Grow(disk, Sec(disk, LocINode(ino)), d, last);
    var disk' := GrowFile(disk, ino, d, last);
    MarkedINode(disk, x);
    GrowFileSectors(disk, ino, d, last);
    forall y | Live(disk, y)
      ensures Ino(disk', y) == Ino(disk, y) && INodeOf(disk', y) == if y == x then inode1 else INodeOf(disk, y)
    {
      SameEntry(disk, disk', y);
      MarkedINode(disk, x);
      MarkedINode(disk, y);
      if y != x { ApartINode(disk, x, y); }
    }
    assert INodeOf(disk', x) == inode1;
    forall j | 0 <= j < NR_BLOCKS
      ensures Block(disk', x, j) == WordAt(inode1, j)
      ensures d <= j <= last ==> FreshBlock(disk, disk', Block(disk', x, j)) && Block(disk', x, j) != NO_BLOCK
    {
      if d <= j <= last { FreshIsBlock(disk, disk', Block(disk', x, j)); }
    }
    assert Live(disk', x) by { SameEntry(disk, disk', x); }
    forall j, k | 0 <= j < k < NR_BLOCKS && FreshBlock(disk, disk', Block(disk', x, j))
      ensures Block(disk', x, j) != Block(disk', x, k)
    {
      OldNotFresh(disk, disk', x, j);
      OldNotFresh(disk, disk', x, k);
    }
  }

  lemma MarkedINode(disk: seq<Sector>, x: int)
    requires DiskInv(disk) && Live(disk, x)
    ensures Ino(disk, x) < SC_INODE && INodeUsed(disk, Ino(disk, x))
  {
    hide Ino, Used;
  }

  lemma ApartINode(disk: seq<Sector>, x: int, y: int)
    requires DiskInv(disk) && Live(disk, x) && Live(disk, y) && x != y
    ensures Ino(disk, x) != Ino(disk, y)
  {
    hide Ino;
  }

  lemma FreshIsBlock(disk: seq<Sector>, disk': seq<Sector>, b: U32)
    requires FreshBlock(disk, disk', b)
    ensures b != NO_BLOCK
  {
    hide Used;
  }

  /** A block that a file held before is not fresh. */
  lemma OldNotFresh(disk: seq<Sector>, disk': seq<Sector>, x: int, j: int)
    requires DiskInv(disk) && Live(disk, x) && 0 <= j < NR_BLOCKS
    ensures !FreshBlock(disk, disk', Block(disk, x, j))
  {
    hide Ino, Used, Block;
    assert Block(disk, x, j) != NO_BLOCK ==> Held(disk, x, j);
  }

  lemma GrowFileSectors(disk: seq<Sector>, ino: int, d: int, last: int)
    requires Sized(disk) && 0 <= ino < SC_INODE
    requires 0 <= d <= last + 1 <= NR_BLOCKS && last + 1 - d <= Room(disk)
    ensures var disk' := GrowFile(disk, ino, d, last);
            var inode := Sec(disk, LocINode(ino));
            var inode1 := Grow(disk, inode, d, last).1;
            SameDirs(disk, disk') && MoreUsed(disk, disk') && Room(disk') == Room(disk) - (last + 1 - d)
            && Sec(disk', LocINode(ino)) == inode1 && (forall i :: i != 1 && i != LocINode(ino) ==> Sec(disk', i) == Sec(disk, i))
            && (forall j :: 0 <= j < NR_BLOCKS && !(d <= j <= last) ==> WordAt(inode1, j) == WordAt(inode, j))
            && (forall j :: d <= j <= last ==> FreshBlock(disk, disk', WordAt(inode1, j)))
            && (forall j, k :: d <= j < k <= last ==> WordAt(inode1, j) != WordAt(inode1, k))
  {
    hide HasBit, WordAt, Grow, Free;
    var (disk1, inode1) := Grow(disk, Sec(disk, LocINode(ino)), d, last);
    var disk' := GrowFile(disk, ino, d, last);
    GrowEffect(disk, Sec(disk, LocINode(ino)), d, last);
    FreeSame(disk1, disk', SAFE_BLOCKS);
    forall q | 0 <= q < FIRST_SLICE
      ensures Used(disk', q) == Used(disk1, q)
    {
      UsedSlice(disk1, disk', q);
    }
    FreshTransfer(disk, disk1, disk');
  }

  lemma FreshTransfer(disk: seq<Sector>, disk1: seq<Sector>, disk': seq<Sector>)
    requires forall q :: 0 <= q < FIRST_SLICE ==> Used(disk', q) == Used(disk1, q)
    ensures forall b :: FreshBlock(disk, disk1, b) ==> FreshBlock(disk, disk', b)
  {
    hide Bit;
  }
}
