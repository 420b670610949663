/** Seeking, appending and closing: what a stream's position means for the file, and that what
    was written is there when the file is opened again. */
module FileStreams {
  import opened DiskFormat
  import opened FileSpec
  import opened FileBytes
  import opened DiskSteps
  import opened FileInvariant
  import opened FileWrite
  import opened FileRefine
  import opened FileEntry
  import opened FileHost
  import opened FileRuns
  import opened FileCopy

  const SEEK_SET := 0
  const SEEK_CUR := 1
  const SEEK_END := 2

  // ---- seeking

  /** Only the offset of stream fd is different. */
  predicate Moved(fs: Fs, fs': Fs, fd: int, n: U32) {
    && 0 <= fd < |fs.streams| == |fs'.streams| && fs'.disk == fs.disk
    && (forall i :: 0 <= i < |fs.streams| && i != fd ==> fs'.streams[i] == fs.streams[i])
    && var f, f' := fs.streams[fd], fs'.streams[fd];
       f'.used == f.used && f'.size == f.size && f'.inode == f.inode && f'.entry == f.entry && f'.offset == n
  }

  /** Every seek moves the stream to the offset it answers, modulo 2^32, counted from the start,
      from where the stream is, or from the end; an unknown origin is the start with offset 0. */
  lemma SeekMoves(fs: Fs, fd: int, offset: int, whence: int)
    requires 0 <= fd < |fs.streams|
    ensures var (fs', answer) := LseekMd(fs, fd, offset, whence);
            var f := fs.streams[fd];
            && Moved(fs, fs', fd, answer % 0x1_0000_0000)
            && (whence == SEEK_SET ==> answer == offset)
            && (whence == SEEK_CUR ==> answer == (f.offset + offset) % 0x1_0000_0000)
            && (whence == SEEK_END ==> answer == (f.size + offset) % 0x1_0000_0000)
            && (!(0 <= whence <= 2) ==> answer == 0)
  {
  }

  /** lseek(fd, 0, SEEK_CUR) tells the position and changes nothing. */
  lemma SeekTells(fs: Fs, fd: int)
    requires 0 <= fd < |fs.streams|
    ensures LseekMd(fs, fd, 0, SEEK_CUR) == (fs, fs.streams[fd].offset)
  {
    assert fs.streams[fd := fs.streams[fd]] == fs.streams;
  }

  /** Two moves from the position add up, back and forth included. */
  lemma SeekAdds(fs: Fs, fd: int, a: int, b: int)
    requires 0 <= fd < |fs.streams|
    ensures LseekMd(LseekMd(fs, fd, a, SEEK_CUR).0, fd, b, SEEK_CUR) == LseekMd(fs, fd, a + b, SEEK_CUR)
  {
    var f := fs.streams[fd];
    WrapAdds(f.offset + a, b);
    var g, h := f.(offset := Wrap(f.offset + a)), f.(offset := Wrap(f.offset + (a + b)));
    assert fs.streams[fd := g][fd := h] == fs.streams[fd := h];
  }

  lemma WrapAdds(x: int, b: int)
    ensures Wrap(Wrap(x) + b) == Wrap(x + b)
  {
  }

  /** At the end there is nothing to read. */
  lemma SeekEndReads(fs: Fs, fd: int, len: nat)
    requires Inv(fs) && Open(fs, fd) && fs.streams[fd].size + len < TWO_32
    ensures var (fs1, end) := LseekMd(fs, fd, 0, SEEK_END);
            end == |Opened(fs, fd)| && FsRead(fs1, fd, len) == (fs1, -1, [])
  {
    hide Inv, FsRead, Sec;
    var (fs1, end) := LseekMd(fs, fd, 0, SEEK_END);
    SeekMoves(fs, fd, 0, SEEK_END);
    OffsetInv(fs, fd, fs.streams[fd].size);
    ReadRefines(fs1, fd, len);
    OpenedLen(fs, fd);
    assert fs1.streams[fd := fs1.streams[fd]] == fs1.streams;
  }

  // ---- closing

  /** Closing frees that stream and nothing else, so that the next open finds one. */
  lemma CloseFrees(fs: Fs, fd: int)
    requires 0 <= fd < |fs.streams|
    ensures var fs' := FsClose(fs, fd);
            && fs'.disk == fs.disk && |fs'.streams| == |fs.streams| && !fs'.streams[fd].used
            && (forall i :: 0 <= i < |fs.streams| && i != fd ==> fs'.streams[i] == fs.streams[i])
            && FreeStream(fs'.streams, 0) <= fd
  {
    FreeStreamFinds(FsClose(fs, fd).streams, 0);
  }

  // ---- first fit

  /** Opening answers the least stream that is not in use, and a file that has to be made takes
      the least entry and the least inode that are free. */
  lemma OpenTakesLeast(fs: Fs, name: seq<Byte>, flags: int)
    requires Inv(fs) && Openable(fs, name, flags)
    ensures var (fs', fd) := OpenMd(fs, name, flags);
            fd != -1 ==>
              var x := StreamAt(fs', fd).entry;
              && 0 <= fd < |fs.streams| && !fs.streams[fd].used && (forall i :: 0 <= i < fd ==> fs.streams[i].used)
              && (FindName(fs.disk, name, 0) < ENTRIES ==>
                    SameName(fs.disk, x, name) && forall y :: 0 <= y < x ==> !SameName(fs.disk, y, name))
              && (FindName(fs.disk, name, 0) == ENTRIES ==>
                    && Ino(fs.disk, x) == NO_BLOCK && (forall y :: 0 <= y < x ==> Ino(fs.disk, y) != NO_BLOCK)
                    && !INodeUsed(fs.disk, Ino(fs'.disk, x)) && forall k :: 0 <= k < Ino(fs'.disk, x) ==> INodeUsed(fs.disk, k))
  {
    hide Inv, FsCreate, Size, FindName, Ino, SameName, INodeUsed, FindFree, INodeFree;
    FreeStreamFinds(fs.streams, 0);
    FindNameFinds(fs.disk, name, 0);
    if FindName(fs.disk, name, 0) == ENTRIES && flags >= 1 {
      CreateTakesLeast(fs, name);
    }
  }

  lemma CreateTakesLeast(fs: Fs, name: seq<Byte>)
    requires Inv(fs) && NameOk(name) && FreeStream(fs.streams, 0) < |fs.streams| && FindFree(fs.disk, 0) < ENTRIES && INodeFree(fs.disk)
    ensures var (fs', fd) := FsCreate(fs, name);
            var x := FindFree(fs.disk, 0);
            && fd == FreeStream(fs.streams, 0) && StreamAt(fs', fd).entry == x
            && Ino(fs.disk, x) == NO_BLOCK && (forall y :: 0 <= y < x ==> Ino(fs.disk, y) != NO_BLOCK)
            && !INodeUsed(fs.disk, Ino(fs'.disk, x)) && forall k :: 0 <= k < Ino(fs'.disk, x) ==> INodeUsed(fs.disk, k)
  {
    hide Inv, DiskInv, Used, Ino, Name, Size, CreateOnDisk, INodeAlloc, Live, File, SameName, Bit, NameOk;
    CreateKeeps(fs, name);
    FindFreeFinds(fs.disk, 0);
    InvDisk(fs);
    INodeLeast(fs.disk);
  }

  lemma INodeLeast(disk: seq<Sector>)
    requires DiskInv(disk) && INodeFree(disk)
    ensures var k := INodeAlloc(disk, KERNEL_STRIDE).1;
            0 <= k < SC_INODE && !INodeUsed(disk, k) && forall i :: 0 <= i < k ==> INodeUsed(disk, i)
  {
    hide INodesMarked, INodesApart, BlocksMarked, BlocksApart, SizesCovered, DeadNamesEmpty, Bit, Mark;
    INodeAllocEffect(disk, KERNEL_STRIDE);
    FirstClearFinds(disk, KERNEL_STRIDE, 513, SC_INODE, 0);
    forall i | 0 <= i < INodeAlloc(disk, KERNEL_STRIDE).1
      ensures INodeUsed(disk, i)
    {
      assert Taken(disk, KERNEL_STRIDE, 513, i);
      KernelAndHost(disk, KERNEL_STRIDE, 513 + i);
    }
  }

  // ---- the shell's redirections of echo

  const FS_RWC := 1

  /** `echo text >> name`: open or make the file, go to its end, write. */
  function Appended(fs: Fs, name: seq<Byte>, buf: seq<Byte>): (Fs, int) {
    var (fs1, fd) := OpenMd(fs, name, FS_RWC);
    (FsWrite(LseekMd(fs1, fd, 0, SEEK_END).0, fd, buf), fd)
  }

  /** There is room for len more bytes behind the first n of a file. */
  predicate Extendable(disk: seq<Sector>, n: U32, len: nat) {
    BlockNo(n + len) < NR_BLOCKS && Needed(Stream(true, n, n, 0, 0), len) <= Room(disk)
  }

  /** The stream that the append writes to: at the end of the file it names. */
  lemma AppendStands(fs: Fs, name: seq<Byte>)
    requires Inv(fs) && Openable(fs, name, FS_RWC) && FindName(fs.disk, name, 0) < ENTRIES
    ensures var x := FindName(fs.disk, name, 0);
            var (fs1, fd) := OpenMd(fs, name, FS_RWC);
            var fs2 := LseekMd(fs1, fd, 0, SEEK_END).0;
            && Inv(fs2) && Open(fs2, fd) && Live(fs.disk, x) && fs2.disk == fs.disk && !fs.streams[fd].used
            && fs2.streams == fs.streams[fd := fs2.streams[fd]]
            && fs2.streams[fd].entry == x && fs2.streams[fd].offset == fs2.streams[fd].size == Size(fs.disk, x)
            && Opened(fs2, fd) == File(fs.disk, x) && |File(fs.disk, x)| == Size(fs.disk, x)
            && fs2.streams[fd].inode == Ino(fs.disk, x)
            && (BlockNo(Size(fs.disk, x)) < NR_BLOCKS ==>
                  (Started(fs2, fd) <==> Size(fs.disk, x) == 0 || Held(fs.disk, x, BlockNo(Size(fs.disk, x)))))
  {
    hide Inv, OpenMd, Openable, Size, FindName, SameName, Name, Room, Live, File, Opened, Started;
    var x := FindName(fs.disk, name, 0);
    var (fs1, fd) := OpenMd(fs, name, FS_RWC);
    OpenKeeps(fs, name, FS_RWC);
    OpenFound(fs, name, FS_RWC);
    SeekMoves(fs1, fd, 0, SEEK_END);
    OffsetInv(fs1, fd, fs1.streams[fd].size);
    var fs2 := LseekMd(fs1, fd, 0, SEEK_END).0;
    OpenedIsFile(fs2, fd);
    OpenEntry(fs2, fd);
    FileLen(fs.disk, x);
    EndStarted(fs2, fd);
    InvDisk(fs);
    InvDisk(fs1);
  }

  lemma EndStarted(fs: Fs, fd: int)
    requires Inv(fs) && Open(fs, fd)
    ensures var f := fs.streams[fd];
            BlockNo(f.offset) < NR_BLOCKS ==> (Started(fs, fd) <==> f.size == 0 || Held(fs.disk, f.entry, BlockNo(f.offset)))
  {
    hide Inv, WordAt, Ino;
    OpenEntry(fs, fd);
  }

  /** The append law: the file gets the bytes at its end, and every other file keeps its own. */
  lemma AppendAdds(fs: Fs, name: seq<Byte>, buf: seq<Byte>)
    requires Inv(fs) && Openable(fs, name, FS_RWC) && FindName(fs.disk, name, 0) < ENTRIES
    requires var x := FindName(fs.disk, name, 0); var n := Size(fs.disk, x);
             Extendable(fs.disk, n, |buf|) && (|buf| > 0 && n > 0 ==> Held(fs.disk, x, BlockNo(n)))
    ensures var x := FindName(fs.disk, name, 0); var (fs', fd) := Appended(fs, name, buf);
            Inv(fs') && Open(fs', fd) && File(fs'.disk, x) == File(fs.disk, x) + buf
            && fs'.streams[fd].offset == |File(fs'.disk, x)|
    ensures var x := FindName(fs.disk, name, 0); var fs' := Appended(fs, name, buf).0;
            forall y :: Live(fs.disk, y) && y != x ==> Live(fs'.disk, y) && File(fs'.disk, y) == File(fs.disk, y)
  {
    hide Inv, OpenMd, FsWrite, Openable, Size, FindName, Room, Live, File, Opened, Started, Held, LseekMd, Ino, Name, Needed;
    var x := FindName(fs.disk, name, 0);
    AppendStands(fs, name);
    var (fs1, fd) := OpenMd(fs, name, FS_RWC);
    var fs2 := LseekMd(fs1, fd, 0, SEEK_END).0;
    NeededSame(fs2.streams[fd], Stream(true, Size(fs.disk, x), Size(fs.disk, x), 0, 0), |buf|);
    WriteKeeps(fs2, fd, buf);
    WriteRefines(fs2, fd, buf);
    SpliceEnd(File(fs.disk, x), buf);
    forall y | Live(fs.disk, y) && y != x
      ensures Live(FsWrite(fs2, fd, buf).disk, y) && File(FsWrite(fs2, fd, buf).disk, y) == File(fs.disk, y)
    {
      LiveOther(fs2, fd, buf, y);
    }
    FileLen(FsWrite(fs2, fd, buf).disk, x);
  }

  lemma LiveOther(fs: Fs, fd: int, buf: seq<Byte>, y: int)
    requires Inv(fs) && Writable(fs, fd, |buf|) && (|buf| > 0 ==> Started(fs, fd))
    requires Live(fs.disk, y) && y != fs.streams[fd].entry
    ensures Live(FsWrite(fs, fd, buf).disk, y) && File(FsWrite(fs, fd, buf).disk, y) == File(fs.disk, y)
  {
    hide Inv, FsWrite, Started, File, Room, Ino, Name, Needed;
    WriteOthers(fs, fd, buf, y);
  }

  lemma FileLen(disk: seq<Sector>, x: int)
    ensures |File(disk, x)| == Size(disk, x)
  {
    hide Size, INodeOf;
    ContentLen(disk, INodeOf(disk, x), Size(disk, x));
  }

  /** Appending to a name that is not there makes the file with those bytes. */
  lemma AppendMakes(fs: Fs, name: seq<Byte>, buf: seq<Byte>)
    requires Inv(fs) && Openable(fs, name, FS_RWC) && FindName(fs.disk, name, 0) == ENTRIES && Extendable(fs.disk, 0, |buf|)
    ensures var (fs', fd) := Appended(fs, name, buf);
            Inv(fs') && Open(fs', fd) && SameName(fs'.disk, fs'.streams[fd].entry, name) && File(fs'.disk, fs'.streams[fd].entry) == buf
    ensures var fs' := Appended(fs, name, buf).0;
            forall y :: Live(fs.disk, y) ==> Live(fs'.disk, y) && File(fs'.disk, y) == File(fs.disk, y)
  {
    hide Inv, FsOpen, FsCreate, FsWrite, Openable, Size, FindName, Room, Live, File, Opened, SameName, Ino, Name, Needed, INodeFree;
    var (fs1, fd) := FsCreate(fs, name);
    MissingMakes(fs, name);
    CreateKeeps(fs, name);
    InvDisk(fs1);
    InvDisk(fs);
    SeekMoves(fs1, fd, 0, SEEK_END);
    OffsetInv(fs1, fd, fs1.streams[fd].size);
    var fs2 := LseekMd(fs1, fd, 0, SEEK_END).0;
    NeededSame(fs2.streams[fd], Stream(true, 0, 0, 0, 0), |buf|);
    NoBytes(fs2, fd);
    WriteKeeps(fs2, fd, buf);
    WriteRefines(fs2, fd, buf);
    SpliceEnd([], buf);
    KeepsName(fs2, fd, buf, name);
    LiveRange(fs2.disk, fs2.streams[fd].entry);
    forall y | Live(fs.disk, y)
      ensures Live(FsWrite(fs2, fd, buf).disk, y) && File(FsWrite(fs2, fd, buf).disk, y) == File(fs.disk, y)
    {
      LiveOther(fs2, fd, buf, y);
    }
  }

  lemma MissingMakes(fs: Fs, name: seq<Byte>)
    requires Openable(fs, name, FS_RWC) && FindName(fs.disk, name, 0) == ENTRIES
    ensures OpenMd(fs, name, FS_RWC) == FsCreate(fs, name) && FindFree(fs.disk, 0) < ENTRIES && INodeFree(fs.disk)
    ensures NameOk(name) && FreeStream(fs.streams, 0) < |fs.streams|
  {
    hide FsCreate, FindName, FindFree, INodeFree;
  }

  /** The guard is exact: appending at least one byte, to a file not on inode 255, keeps the
      invariant if and only if the file is empty or the slot at its end has a block. */
  lemma AppendKeepsIff(fs: Fs, name: seq<Byte>, buf: seq<Byte>)
    requires Inv(fs) && Openable(fs, name, FS_RWC) && FindName(fs.disk, name, 0) < ENTRIES && |buf| > 0
    requires var x := FindName(fs.disk, name, 0); Extendable(fs.disk, Size(fs.disk, x), |buf|) && Ino(fs.disk, x) != SC_INODE - 1
    ensures var x := FindName(fs.disk, name, 0); var n := Size(fs.disk, x);
            Inv(Appended(fs, name, buf).0) <==> (n == 0 || Held(fs.disk, x, BlockNo(n)))
  {
    hide Inv, OpenMd, FsWrite, Openable, Size, FindName, Room, Live, File, Opened, Started, Held, LseekMd, Ino, Needed;
    var x := FindName(fs.disk, name, 0);
    AppendStands(fs, name);
    var (fs1, fd) := OpenMd(fs, name, FS_RWC);
    var fs2 := LseekMd(fs1, fd, 0, SEEK_END).0;
    NeededSame(fs2.streams[fd], Stream(true, Size(fs.disk, x), Size(fs.disk, x), 0, 0), |buf|);
    WriteKeepsIff(fs2, fd, buf);
    BlockMonotone(Size(fs.disk, x), |buf|);
  }

  lemma BlockMonotone(n: nat, len: nat)
    ensures BlockNo(n) <= BlockNo(n + len)
  {
  }

  /** `echo text > name`: open or make the file, emptied, and write. */
  function Overwritten(fs: Fs, name: seq<Byte>, buf: seq<Byte>): (Fs, int) {
    var (fs1, fd) := OpenMd(fs, name, FS_RWD);
    (FsWrite(fs1, fd, buf), fd)
  }

  /** It leaves the file with exactly those bytes, whether there was one or not, and with no
      bytes too: in contrast to cat, a write of nothing stores the size. */
  lemma OverwriteReplaces(fs: Fs, name: seq<Byte>, buf: seq<Byte>)
    requires Inv(fs) && Openable(fs, name, FS_RWD) && Extendable(fs.disk, 0, |buf|)
    ensures var (fs', fd) := Overwritten(fs, name, buf);
            Inv(fs') && Open(fs', fd) && SameName(fs'.disk, fs'.streams[fd].entry, name) && File(fs'.disk, fs'.streams[fd].entry) == buf
    ensures var (fs', fd) := Overwritten(fs, name, buf);
            forall y :: Live(fs.disk, y) && y != fs'.streams[fd].entry ==> Live(fs'.disk, y) && File(fs'.disk, y) == File(fs.disk, y)
  {
    hide Inv, OpenMd, FsWrite, Openable, Size, FindName, Room, Live, File, Opened, SameName, Ino, Name, Needed;
    var (fs1, fd) := OpenMd(fs, name, FS_RWD);
    OpenKeeps(fs, name, FS_RWD);
    NeededSame(fs1.streams[fd], Stream(true, 0, 0, 0, 0), |buf|);
    NoBytes(fs1, fd);
    WriteKeeps(fs1, fd, buf);
    WriteRefines(fs1, fd, buf);
    SpliceEnd([], buf);
    KeepsName(fs1, fd, buf, name);
    OpenEntry(fs1, fd);
    LiveRange(fs1.disk, fs1.streams[fd].entry);
    forall y | Live(fs.disk, y) && y != fs1.streams[fd].entry
      ensures Live(FsWrite(fs1, fd, buf).disk, y) && File(FsWrite(fs1, fd, buf).disk, y) == File(fs.disk, y)
    {
      LiveOther(fs1, fd, buf, y);
    }
  }

  /** A write leaves all names alone. */
  lemma KeepsName(fs: Fs, fd: int, buf: seq<Byte>, name: seq<Byte>)
    requires Inv(fs) && Writable(fs, fd, |buf|) && (|buf| > 0 ==> Started(fs, fd))
    ensures forall y :: 0 <= y < ENTRIES ==> SameName(FsWrite(fs, fd, buf).disk, y, name) == SameName(fs.disk, y, name)
    ensures FindName(FsWrite(fs, fd, buf).disk, name, 0) == FindName(fs.disk, name, 0)
  {
    hide Inv, FsWrite, Started, File, Room, Ino, Name, Needed;
    forall y | 0 <= y < ENTRIES
      ensures SameName(FsWrite(fs, fd, buf).disk, y, name) == SameName(fs.disk, y, name)
    {
      WriteOthers(fs, fd, buf, y);
    }
    hide SameName;
    FindNameFinds(fs.disk, name, 0);
    FindNameFinds(FsWrite(fs, fd, buf).disk, name, 0);
  }

  // ---- what was written is there when the file is opened again

  /** Write, close, open by name, read: the reader gets the file as the write left it. */
  lemma WriteIsDurable(fs: Fs, fd: int, buf: seq<Byte>, name: seq<Byte>, len: nat)
    requires Inv(fs) && Writable(fs, fd, |buf|) && (|buf| > 0 ==> Started(fs, fd))
    requires NameOk(name) && FindName(fs.disk, name, 0) == fs.streams[fd].entry
    requires Max(fs.streams[fd].size, fs.streams[fd].offset + |buf|) <= len < TWO_32
    ensures |Opened(fs, fd)| == fs.streams[fd].size
    ensures var (fs', fd') := OpenMd(FsClose(FsWrite(fs, fd, buf), fd), name, FS_RW);
            Open(fs', fd') && FsRead(fs', fd', len).2 == Splice(Opened(fs, fd), fs.streams[fd].offset, buf)
  {
    hide Inv, OpenMd, FsWrite, FsRead, Size, FindName, Room, Live, File, Opened, SameName, Started, Splice, Needed, FsClose, FreeStream, Ino;
    var fs1 := FsWrite(fs, fd, buf);
    WriteKeeps(fs, fd, buf);
    WriteRefines(fs, fd, buf);
    KeepsName(fs, fd, buf, name);
    var fs2 := FsClose(fs1, fd);
    CloseKeeps(fs1, fd);
    CloseFrees(fs1, fd);
    OpenEntry(fs, fd);
    LiveRange(fs.disk, fs.streams[fd].entry);
    assert Openable(fs2, name, FS_RW);
    var (fs', fd') := OpenMd(fs2, name, FS_RW);
    OpenKeeps(fs2, name, FS_RW);
    OpenFound(fs2, name, FS_RW);
    OpenedIsFile(fs', fd');
    FileLen(fs1.disk, fs.streams[fd].entry);
    ReadRefines(fs', fd', len);
    assert Opened(fs', fd')[0..|Opened(fs', fd')|] == Opened(fs', fd');
  }

  // ---- what the host copies is what the kernel opens

  /** The least entry that has the name or is free. */
  ghost predicate Place(disk: seq<Sector>, name: seq<Byte>, x: int) {
    && 0 <= x < ENTRIES && (SameName(disk, x, name) || Ino(disk, x) == NO_BLOCK)
    && forall z :: 0 <= z < x ==> !SameName(disk, z, name) && Ino(disk, z) != NO_BLOCK
  }

  lemma {:induction false} HostFindLeast(disk: seq<Sector>, name: seq<Byte>, x: nat)
    requires x <= ENTRIES
    decreases ENTRIES - x
    ensures forall z :: x <= z < HostFind(disk, name, x) ==> !SameName(disk, z, name) && Ino(disk, z) != NO_BLOCK
  {
    hide SameName, Ino;
    if x < ENTRIES && !(SameName(disk, x, name) || Ino(disk, x) == NO_BLOCK) {
      HostFindLeast(disk, name, x + 1);
    }
  }

  /** The host takes the least entry that has the name or is free; afterwards the kernel finds
      the new bytes under that name, and every other name where it was. */
  lemma HostIsFound(disk: seq<Sector>, name: seq<Byte>, file: seq<Byte>, other: seq<Byte>)
    requires DiskInv(disk) && Copyable(disk, name, file) && NameOk(name) && NameOk(other) && other != name
    ensures var disk' := HostCopy(disk, name, file); var x := FindName(disk', name, 0);
            && Place(disk, name, x) && File(disk', x) == file
            && FindName(disk', other, 0) == FindName(disk, other, 0)
  {
    hide DiskInv, HostCopy, Made, SameName, File, Ino, Size, Name, MoreUsed, FreshINode, INodeOf, Used, INodeAlloc, Room, BitsOf, Sec, Blocks;
    var x, disk' := HostFind(disk, name, 0), HostCopy(disk, name, file);
    CopyIn(disk, name, file);
    CopyMakes(disk, name, file);
    var ino := INodeAlloc(BitsOf(disk), HOST_STRIDE).1;
    MadeEntered(disk, disk', x, name, |file|, ino, Sec(disk', LocINode(ino)));
    FindRange(disk, name, 0);
    HostFindLeast(disk, name, 0);
    FindNameFinds(disk', name, 0);
    FindNameFinds(disk, other, 0);
    FindNameFinds(disk', other, 0);
    forall z, n | 0 <= z < ENTRIES && z != x
      ensures SameName(disk', z, n) == SameName(disk, z, n)
    {
      NameSame(disk, disk', z, n) by { EnteredName(disk, disk', x, |file|, ino, Sec(disk', LocINode(ino)), z); }
    }
    PlaceOther(disk, name, other, x);
    if SameName(disk', x, other) { NamesDiffer(disk', x, name, other); }
  }

  lemma NameSame(disk: seq<Sector>, disk': seq<Sector>, z: int, n: seq<Byte>)
    requires Name(disk', z) == Name(disk, z)
    ensures SameName(disk', z, n) == SameName(disk, z, n)
  {
  }

  lemma EnteredName(disk: seq<Sector>, disk': seq<Sector>, x: int, size: U32, ino: U32, t: Sector, z: int)
    requires Entered(disk, disk', x, size, ino, t) && 0 <= z < ENTRIES && z != x
    ensures Name(disk', z) == Name(disk, z)
  {
  }

  /** An entry that has one name or is free does not have another one. */
  lemma PlaceOther(disk: seq<Sector>, name: seq<Byte>, other: seq<Byte>, x: int)
    requires DiskInv(disk) && NameOk(name) && NameOk(other) && other != name && 0 <= x < ENTRIES
    requires SameName(disk, x, name) || Ino(disk, x) == NO_BLOCK
    ensures !SameName(disk, x, other)
  {
    hide DiskInv, SameName, Ino;
    if SameName(disk, x, other) {
      NamedLive(disk, x, other);
      if SameName(disk, x, name) { NamesDiffer(disk, x, name, other); }
    }
  }
}
