/** Runs of the file system: opens, creations, seeks, reads and writes of the kernel and copies
    by the host tool, in any order.  No block is ever shared, and a file changes only when it
    is written itself. */
module FileRuns {
  import opened DiskFormat
  import opened FileSpec
  import opened FileBytes
  import opened DiskSteps
  import opened FileInvariant
  import opened FileWrite
  import opened FileRefine
  import opened FileEntry
  import opened FileHost

  datatype Op =
    | OpOpen(name: seq<Byte>, flags: int) | OpClose(fd: int) | OpSeek(fd: int, offset: int, whence: int)
    | OpRead(fd: int, len: nat) | OpWrite(fd: int, buf: seq<Byte>)
    | OpHostCopy(name: seq<Byte>, file: seq<Byte>)

  /** The stream table of a kernel that has just started. */
  function NoStreams(): seq<Stream> { seq(NR_FILE_STREAM, _ => Stream(false, 0, 0, 0, 0)) }

  /** The host tool works on the drive of a machine that is off; the kernel starts after it. */
  function Step(fs: Fs, op: Op): Fs {
    match op
    case OpOpen(name, flags) => OpenMd(fs, name, flags).0
    case OpClose(fd) => FsClose(fs, fd)
    case OpSeek(fd, offset, whence) => LseekMd(fs, fd, offset, whence).0
    case OpRead(fd, len) => FsRead(fs, fd, len).0
    case OpWrite(fd, buf) => FsWrite(fs, fd, buf)
    case OpHostCopy(name, file) => Fs(HostCopy(fs.disk, name, file), NoStreams())
  }

  /** A name as the callers give it: not empty, at most 23 bytes, none of them zero. */
  predicate NameOk(name: seq<Byte>) { 0 < |name| < LEN_FILENAME && forall i :: 0 <= i < |name| ==> name[i] != 0 }

  ghost predicate Openable(fs: Fs, name: seq<Byte>, flags: int) {
    && NameOk(name) && FreeStream(fs.streams, 0) < |fs.streams|
    && (FindName(fs.disk, name, 0) == ENTRIES && flags >= 1 ==> FindFree(fs.disk, 0) < ENTRIES && INodeFree(fs.disk))
  }

  ghost predicate Allowed(fs: Fs, op: Op) {
    match op
    case OpOpen(name, flags) => Openable(fs, name, flags)
    case OpClose(fd) => 0 <= fd < |fs.streams|
    case OpSeek(fd, _, _) => 0 <= fd < |fs.streams|
    case OpRead(fd, len) => Readable(fs, fd) && fs.streams[fd].offset + len < TWO_32
    case OpWrite(fd, buf) => Writable(fs, fd, |buf|) && (|buf| > 0 ==> Started(fs, fd))
    case OpHostCopy(name, file) => NameOk(name) && Copyable(fs.disk, name, file)
  }

  // ---- searching

  lemma {:induction false} FindNameFinds(disk: seq<Sector>, name: seq<Byte>, x: nat)
    requires x <= ENTRIES
    decreases ENTRIES - x
    ensures var y := FindName(disk, name, x);
            x <= y <= ENTRIES && (y < ENTRIES ==> SameName(disk, y, name))
            && forall z :: x <= z < y ==> !SameName(disk, z, name)
  {
    hide SameName;
    if x < ENTRIES && !SameName(disk, x, name) {
      FindNameFinds(disk, name, x + 1);
    }
  }

  lemma {:induction false} FindFreeFinds(disk: seq<Sector>, x: nat)
    requires x <= ENTRIES
    decreases ENTRIES - x
    ensures var y := FindFree(disk, x);
            x <= y <= ENTRIES && (y < ENTRIES ==> Ino(disk, y) == NO_BLOCK)
            && forall z :: x <= z < y ==> Ino(disk, z) != NO_BLOCK
  {
    hide Ino;
    if x < ENTRIES && Ino(disk, x) != NO_BLOCK {
      FindFreeFinds(disk, x + 1);
    }
  }

  lemma {:induction false} FreeStreamFinds(streams: seq<Stream>, i: nat)
    requires i <= |streams|
    decreases |streams| - i
    ensures var k := FreeStream(streams, i);
            i <= k <= |streams| && (k < |streams| ==> !streams[k].used) && forall j :: i <= j < k ==> streams[j].used
  {
    if i < |streams| && streams[i].used {
      FreeStreamFinds(streams, i + 1);
    }
  }

  // ---- opening

  lemma AttachKeeps(fs: Fs, x: int)
    requires Inv(fs) && Live(fs.disk, x) && FreeStream(fs.streams, 0) < |fs.streams|
    ensures var (fs', fd) := Attach(fs, x, Size(fs.disk, x), Ino(fs.disk, x));
            Inv(fs') && 0 <= fd < |fs.streams| && !fs.streams[fd].used && fs'.disk == fs.disk
            && fs'.streams == fs.streams[fd := Stream(true, 0, Size(fs.disk, x), Ino(fs.disk, x), x)]
  {
    hide DiskInv, Live, Size, Ino, Covers;
    FreeStreamFinds(fs.streams, 0);
    SizeCovered(fs.disk, x);
    var (fs', fd) := Attach(fs, x, Size(fs.disk, x), Ino(fs.disk, x));
    forall i | 0 <= i < |fs'.streams|
      ensures StreamOk(fs'.disk, fs'.streams[i])
    {
      assert i != fd ==> StreamOk(fs.disk, fs.streams[i]);
    }
  }

  /** A name that is not empty is found on live entries only. */
  lemma NamedLive(disk: seq<Sector>, x: int, name: seq<Byte>)
    requires DiskInv(disk) && NameOk(name) && 0 <= x < ENTRIES && SameName(disk, x, name)
    ensures Live(disk, x)
  {
    hide Ino, Sec;
    assert Name(disk, x)[..|name| + 1][0] == Name(disk, x)[0];
  }

  /** No stream is on an entry that names no file. */
  lemma DeadEntry(fs: Fs, x: int)
    requires Inv(fs) && Ino(fs.disk, x) == NO_BLOCK
    ensures !Live(fs.disk, x) && forall i :: 0 <= i < |fs.streams| && fs.streams[i].used ==> fs.streams[i].entry != x
  {
    hide DiskInv, Ino, Covers;
    forall i | 0 <= i < |fs.streams| && fs.streams[i].used ensures fs.streams[i].entry != x { assert StreamOk(fs.disk, fs.streams[i]); }
  }

  lemma UnusedOk(disk: seq<Sector>, f: Stream)
    requires !f.used
    ensures StreamOk(disk, f)
  {
  }

  lemma CreateKeeps(fs: Fs, name: seq<Byte>)
    requires Inv(fs) && NameOk(name) && FreeStream(fs.streams, 0) < |fs.streams|
    requires FindFree(fs.disk, 0) < ENTRIES && INodeFree(fs.disk)
    ensures var x := FindFree(fs.disk, 0);
            var (fs', fd) := FsCreate(fs, name);
            Inv(fs') && 0 <= fd < |fs.streams| && !fs.streams[fd].used
            && !Live(fs.disk, x) && Live(fs'.disk, x) && SameName(fs'.disk, x, name) && File(fs'.disk, x) == []
            && fs'.streams == fs.streams[fd := Stream(true, 0, 0, Ino(fs'.disk, x), x)] && Room(fs'.disk) == Room(fs.disk)
            && Ino(fs'.disk, x) == INodeAlloc(fs.disk, KERNEL_STRIDE).1 && INodeOf(fs'.disk, x) == FullSector()
    ensures forall y :: Live(fs.disk, y) ==>
              Live(FsCreate(fs, name).0.disk, y) && File(FsCreate(fs, name).0.disk, y) == File(fs.disk, y)
  {
    hide DiskInv, Covers, Size, Ino, Room, CreateOnDisk, Made, SameName, Sec, Content, INodeOf, Used, FreshINode, MoreUsed, Name, FullSector, INodeAlloc, Live, StreamOk, Attach;
    var x := FindFree(fs.disk, 0);
    FindFreeFinds(fs.disk, 0);
    CreateMakes(fs.disk, x, name);
    var disk' := CreateOnDisk(fs.disk, x, name);
    var ino := INodeAlloc(fs.disk, KERNEL_STRIDE).1;
    MadeEntered(fs.disk, disk', x, name, 0, ino, FullSector());
    EnteredKeeps(fs.disk, disk', x, 0, ino, FullSector());
    DeadEntry(fs, x);
    forall i | 0 <= i < |fs.streams|
      ensures StreamOk(disk', fs.streams[i])
    {
      if fs.streams[i].used { EnteredStream(fs.disk, disk', x, 0, ino, FullSector(), fs.streams[i]); }
      else { UnusedOk(disk', fs.streams[i]); }
    }
    AttachKeeps(Fs(disk', fs.streams), x);
    ContentLen(disk', FullSector(), 0);
    forall y | Live(fs.disk, y)
      ensures Live(disk', y) && File(disk', y) == File(fs.disk, y)
    {
      LiveRange(fs.disk, y);
      EnteredFile(fs.disk, disk', x, 0, ino, FullSector(), y);
    }
  }

  /** Opening gives a stream on the file of that name; with a flag it is made when missing. */
  lemma OpenKeeps(fs: Fs, name: seq<Byte>, flags: int)
    requires Inv(fs) && Openable(fs, name, flags)
    ensures var (fs', fd) := OpenMd(fs, name, flags);
            Inv(fs') && (fd == -1 <==> FindName(fs.disk, name, 0) == ENTRIES && flags < 1) && (fd == -1 ==> fs' == fs)
            && (fd != -1 ==> Open(fs', fd) && !fs.streams[fd].used && SameName(fs'.disk, fs'.streams[fd].entry, name)
                             && fs'.streams[fd].offset == 0 && fs'.streams == fs.streams[fd := fs'.streams[fd]]
                             && fs'.streams[fd].size == if flags == 2 then 0 else Size(fs'.disk, fs'.streams[fd].entry))
            && (fd != -1 && Live(fs.disk, fs'.streams[fd].entry) ==> SameName(fs.disk, fs'.streams[fd].entry, name))
    ensures Room(OpenMd(fs, name, flags).0.disk) == Room(fs.disk)
    ensures var disk' := OpenMd(fs, name, flags).0.disk;
            forall y :: Live(fs.disk, y) ==> Live(disk', y) && File(disk', y) == File(fs.disk, y)
  {
    hide DiskInv, Covers, Ino, Room, SameName, Name, Live, File, FsCreate;
    var x := FindName(fs.disk, name, 0);
    FindNameFinds(fs.disk, name, 0);
    if x < ENTRIES {
      NamedLive(fs.disk, x, name);
      AttachKeeps(fs, x);
      var (fs1, fd) := Attach(fs, x, Size(fs.disk, x), Ino(fs.disk, x));
      EmptyStream(fs1, fd);
    } else if flags >= 1 {
      CreateKeeps(fs, name);
      CreateSize(fs, name);
      var (fs1, fd) := FsCreate(fs, name);
      EmptyStream(fs1, fd);
    }
  }

  /** Opening a file that exists makes a second entry of its name if and only if creation is
      asked for, all streams are taken and the directory has a place: fs_open_kr reports a
      missing stream like a missing file. */
  lemma OpenDuplicatesIff(fs: Fs, name: seq<Byte>, flags: int)
    requires Inv(fs) && NameOk(name) && FindName(fs.disk, name, 0) < ENTRIES && INodeFree(fs.disk)
    ensures var fs' := OpenMd(fs, name, flags).0;
            (exists y :: !Live(fs.disk, y) && Live(fs'.disk, y))
            <==> (FreeStream(fs.streams, 0) == |fs.streams| && flags >= 1 && FindFree(fs.disk, 0) < ENTRIES)
    ensures var (fs', fd), y := OpenMd(fs, name, flags), FindFree(fs.disk, 0);
            FreeStream(fs.streams, 0) == |fs.streams| && flags >= 1 && y < ENTRIES ==>
              fd == -1 && y != FindName(fs.disk, name, 0) && !Live(fs.disk, y) && Live(fs'.disk, y) && SameName(fs'.disk, y, name)
  {
    hide DiskInv, INodeFree, CreateOnDisk, Made, Ino, Size, SameName, Name, Entered, INodeAlloc, FullSector, StreamOk;
    FindNameFinds(fs.disk, name, 0);
    FindFreeFinds(fs.disk, 0);
    FreeStreamFinds(fs.streams, 0);
    NamedLive(fs.disk, FindName(fs.disk, name, 0), name);
    var y := FindFree(fs.disk, 0);
    if FreeStream(fs.streams, 0) == |fs.streams| && flags >= 1 && y < ENTRIES {
      var disk' := CreateOnDisk(fs.disk, y, name);
      var ino := INodeAlloc(fs.disk, KERNEL_STRIDE).1;
      CreateMakes(fs.disk, y, name);
      MadeEntered(fs.disk, disk', y, name, 0, ino, FullSector());
      EnteredLive(fs.disk, disk', y, 0, ino, FullSector());
      assert OpenMd(fs, name, flags).0.disk == disk';
    } else {
      assert OpenMd(fs, name, flags).0.disk == fs.disk;
    }
  }

  lemma EnteredLive(disk: seq<Sector>, disk': seq<Sector>, x: int, size: U32, ino: U32, t: Sector)
    requires Entered(disk, disk', x, size, ino, t)
    ensures Live(disk', x)
  {
  }

  lemma CreateSize(fs: Fs, name: seq<Byte>)
    requires Inv(fs) && NameOk(name) && FindFree(fs.disk, 0) < ENTRIES && INodeFree(fs.disk)
    requires File(FsCreate(fs, name).0.disk, FindFree(fs.disk, 0)) == []
    ensures Size(FsCreate(fs, name).0.disk, FindFree(fs.disk, 0)) == 0
  {
    hide Inv, INodeFree, FsCreate, INodeOf, Size;
    var x := FindFree(fs.disk, 0);
    ContentLen(FsCreate(fs, name).0.disk, INodeOf(FsCreate(fs, name).0.disk, x), Size(FsCreate(fs, name).0.disk, x));
  }

  lemma EmptyStream(fs: Fs, fd: int)
    requires Inv(fs) && 0 <= fd < |fs.streams|
    ensures Inv(SetStream(fs, fd, fs.streams[fd].(size := 0)))
  {
    hide DiskInv, Live, Held;
    var fs' := SetStream(fs, fd, fs.streams[fd].(size := 0));
    forall i | 0 <= i < |fs'.streams|
      ensures StreamOk(fs'.disk, fs'.streams[i])
    {
      assert StreamOk(fs.disk, fs.streams[i]);
    }
  }

  lemma CloseKeeps(fs: Fs, fd: int)
    requires Inv(fs) && 0 <= fd < |fs.streams|
    ensures Inv(FsClose(fs, fd))
  {
    hide DiskInv, Live, Covers;
    forall i | 0 <= i < |fs.streams|
      ensures StreamOk(fs.disk, FsClose(fs, fd).streams[i])
    {
      assert StreamOk(fs.disk, fs.streams[i]);
    }
  }

  // ---- one step and whole runs

  /** The operation gives file y new contents. */
  predicate Touches(fs: Fs, op: Op, y: int) {
    (op.OpWrite? && StreamAt(fs, op.fd).entry == y) || (op.OpHostCopy? && HostFind(fs.disk, op.name, 0) == y)
  }

  lemma StepKeeps(fs: Fs, op: Op)
    requires Inv(fs) && Allowed(fs, op)
    ensures Inv(Step(fs, op))
  {
    hide Inv, FsRead, FsWrite, HostCopy, OpenMd, FsClose, Readable, Writable, Started, Openable, Copyable;
    match op
    case OpOpen(name, flags) => OpenKeeps(fs, name, flags);
    case OpClose(fd) => CloseKeeps(fs, fd);
    case OpSeek(fd, offset, whence) => OffsetInv(fs, fd, Wrap(LseekMd(fs, fd, offset, whence).1));
    case OpRead(fd, len) => ReadRefines(fs, fd, len);
    case OpWrite(fd, buf) => WriteKeeps(fs, fd, buf);
    case OpHostCopy(name, file) => HostCopyKeeps(fs, name, file);
  }

  lemma HostCopyKeeps(fs: Fs, name: seq<Byte>, file: seq<Byte>)
    requires Inv(fs) && Copyable(fs.disk, name, file)
    ensures Inv(Fs(HostCopy(fs.disk, name, file), NoStreams()))
  {
    hide DiskInv, HostCopy, Copyable, Live, File, SameName, Room;
    CopyIn(fs.disk, name, file);
  }

  /** A step that does not touch a file leaves its bytes, and the file itself, as they were. */
  lemma StepLeaves(fs: Fs, op: Op, y: int)
    requires Inv(fs) && Allowed(fs, op) && Live(fs.disk, y) && !Touches(fs, op, y)
    ensures Live(Step(fs, op).disk, y) && File(Step(fs, op).disk, y) == File(fs.disk, y)
  {
    hide FsWrite, HostCopy, OpenMd, File, Started, Copyable, DiskInv, Ino, Name, SameName, Room, Openable, StreamOk;
    match op
    case OpOpen(name, flags) => OpenKeeps(fs, name, flags);
    case OpClose(_) =>
    case OpSeek(_, _, _) =>
    case OpRead(fd, len) =>
    case OpWrite(fd, buf) =>
      WriteOthers(fs, fd, buf, y);
    case OpHostCopy(name, file) => CopyIn(fs.disk, name, file);
  }

  function Run(fs: Fs, ops: seq<Op>): Fs
    decreases |ops|
  {
    if ops == [] then fs else Run(Step(fs, ops[0]), ops[1..])
  }

  ghost predicate AllowedRun(fs: Fs, ops: seq<Op>)
    decreases |ops|
  {
    ops == [] || (Allowed(fs, ops[0]) && AllowedRun(Step(fs, ops[0]), ops[1..]))
  }

  predicate TouchedBy(fs: Fs, ops: seq<Op>, y: int)
    decreases |ops|
  {
    ops != [] && (Touches(fs, ops[0], y) || TouchedBy(Step(fs, ops[0]), ops[1..], y))
  }

  lemma {:induction false} RunKeeps(fs: Fs, ops: seq<Op>)
    requires Inv(fs) && AllowedRun(fs, ops)
    decreases |ops|
    ensures Inv(Run(fs, ops))
  {
    hide Inv, Step, Allowed;
    if ops != [] {
      StepKeeps(fs, ops[0]);
      RunKeeps(Step(fs, ops[0]), ops[1..]);
    }
  }

  /** Over any run, a file that no operation touches keeps every byte. */
  lemma {:induction false} RunLeaves(fs: Fs, ops: seq<Op>, y: int)
    requires Inv(fs) && AllowedRun(fs, ops) && Live(fs.disk, y) && !TouchedBy(fs, ops, y)
    decreases |ops|
    ensures Live(Run(fs, ops).disk, y) && File(Run(fs, ops).disk, y) == File(fs.disk, y)
  {
    hide Inv, Step, Allowed, Touches, Live, File;
    if ops != [] {
      StepKeeps(fs, ops[0]);
      StepLeaves(fs, ops[0], y);
      RunLeaves(Step(fs, ops[0]), ops[1..], y);
    }
  }

  // ---- from a freshly formatted disk

  /** A directory sector as the formatter writes it: every inode number is -1. */
  function EmptyDir(e: nat): Sector
    requires e <= NR_ENTRIES
  {
    if e == 0 then ZeroSector() else SetWord(EmptyDir(e - 1), INodeWord(e - 1), NO_BLOCK)
  }

  /** fmt/formatter.c; the boot sector and the contents of the data area do not matter. */
  ghost predicate Formatted(disk: seq<Sector>) {
    && |disk| == 769 + SC_DATA
    && (forall i :: 1 <= i < BITS ==> Sec(disk, i) == ZeroSector())
    && (forall i :: LocDir(0) <= i < LocDir(SC_DIR) ==> Sec(disk, i) == EmptyDir(NR_ENTRIES))
    && (forall i :: LocINode(0) <= i < LocINode(SC_INODE) ==> Sec(disk, i) == ZeroSector())
  }

  lemma {:induction false} EmptyDirWords(n: nat, e: int)
    requires 0 <= e < n <= NR_ENTRIES
    ensures WordAt(EmptyDir(n), INodeWord(e)) == NO_BLOCK
  {
    hide WordAt, SetWord;
    SetWordAt(EmptyDir(n - 1), INodeWord(n - 1), NO_BLOCK, INodeWord(e));
    if e < n - 1 {
      EmptyDirWords(n - 1, e);
    }
  }

  lemma {:induction false} EmptyDirBytes(n: nat, k: int)
    requires n <= NR_ENTRIES && 0 <= k < BLOCK && k % 32 == 0
    ensures EmptyDir(n)[k] == 0
  {
    hide SetWord;
    if n > 0 {
      EmptyDirBytes(n - 1, k);
      SetWordByte(EmptyDir(n - 1), INodeWord(n - 1), NO_BLOCK, k);
    }
  }

  lemma FormattedEntry(disk: seq<Sector>, x: int)
    requires Formatted(disk) && 0 <= x < ENTRIES
    ensures Ino(disk, x) == NO_BLOCK && Name(disk, x)[0] == 0
  {
    hide WordAt, EmptyDir;
    assert LocDir(0) <= LocDir(DirNo(x)) < LocDir(SC_DIR);
    EmptyDirWords(NR_ENTRIES, DirPos(x));
    EmptyDirBytes(NR_ENTRIES, 32 * DirPos(x));
  }

  /** A formatted disk has no files and satisfies the invariant. */
  lemma FormattedInv(disk: seq<Sector>)
    requires Formatted(disk)
    ensures DiskInv(disk) && Inv(Fs(disk, NoStreams())) && forall x :: !Live(disk, x)
  {
    hide Formatted, Ino, DirSec, Block;
    assert Sized(disk) by { FormattedSize(disk); }
    forall x ensures !Live(disk, x) { if 0 <= x < ENTRIES { FormattedEntry(disk, x); } }
    forall x | 0 <= x < ENTRIES ensures Name(disk, x)[0] == 0 { FormattedEntry(disk, x); }
  }

  lemma FormattedSize(disk: seq<Sector>)
    requires Formatted(disk)
    ensures Sized(disk)
  {
  }

  /** In every state that any run reaches from a formatted disk, no data block is in two slots
      of any files, all of them are marked, and inode bits and data bits do not mix. */
  lemma EveryRun(disk: seq<Sector>, ops: seq<Op>)
    requires Formatted(disk) && AllowedRun(Fs(disk, NoStreams()), ops)
    ensures Inv(Run(Fs(disk, NoStreams()), ops))
  {
    hide Inv, Formatted, NoStreams, AllowedRun, Run;
    FormattedInv(disk);
    RunKeeps(Fs(disk, NoStreams()), ops);
  }

  /** What the formatter writes, behind the boot sector it is given. */
  function FormatDisk(boot: Sector): seq<Sector> {
    [boot] + seq(SC_BITMAP, _ => ZeroSector()) + seq(SC_DIR, _ => EmptyDir(NR_ENTRIES)) + seq(SC_INODE + SC_DATA, _ => ZeroSector())
  }

  lemma FormatDiskIs(boot: Sector)
    ensures Formatted(FormatDisk(boot))
  {
    hide EmptyDir;
  }

  lemma FormattedClear(disk: seq<Sector>, sec: nat)
    requires Formatted(disk) && sec < FIRST_SLICE
    ensures !Used(disk, sec)
  {
    hide HasBit;
    KernelAndHost(disk, KERNEL_STRIDE, sec);
    assert Sec(disk, 1) == ZeroSector();
    ZeroHasNone(sec % 8);
  }

  lemma {:induction false} AllFree(disk: seq<Sector>, b: nat)
    requires Formatted(disk) && b <= SAFE_BLOCKS
    ensures Free(disk, b) == b
  {
    hide Bit, Formatted;
    if b > 0 {
      AllFree(disk, b - 1);
      FormattedClear(disk, 769 + (b - 1));
    }
  }

  /** The guards of a run can be met: on a formatted disk a file can be made and written in one
      go, up to the largest size an inode holds. */
  lemma FirstFile(disk: seq<Sector>, name: seq<Byte>, buf: seq<Byte>)
    requires Formatted(disk) && NameOk(name) && 0 < |buf| < NR_BLOCKS * BLOCK
    ensures var fs := Fs(disk, NoStreams());
            var ops := [OpOpen(name, 1), OpWrite(0, buf)];
            AllowedRun(fs, ops) && Live(Run(fs, ops).disk, 0) && File(Run(fs, ops).disk, 0) == buf
  {
    hide Inv, Formatted, OpenMd, FsWrite, File, Live, SameName, NameOk, Openable, AllowedRun, Run, Writable, Started;
    var fs := Fs(disk, NoStreams());
    FormattedInv(disk);
    FirstOpen(disk, name);
    OpenKeeps(fs, name, 1);
    AllFree(disk, SAFE_BLOCKS);
    FirstWrite(OpenMd(fs, name, 1).0, buf);
    TwoSteps(fs, OpOpen(name, 1), OpWrite(0, buf));
  }

  lemma FirstWrite(fs: Fs, buf: seq<Byte>)
    requires Inv(fs) && Open(fs, 0) && fs.streams[0].offset == 0 && fs.streams[0].size == 0 && fs.streams[0].entry == 0
    requires 0 < |buf| < NR_BLOCKS * BLOCK && Room(fs.disk) == SAFE_BLOCKS
    ensures Writable(fs, 0, |buf|) && Started(fs, 0)
    ensures Live(FsWrite(fs, 0, buf).disk, 0) && File(FsWrite(fs, 0, buf).disk, 0) == buf
  {
    hide Inv, FsWrite, File, Live, Needed, Room, Content, Ino, Slot, Sec, Covers, DiskInv;
    FirstNeeds(fs.streams[0], |buf|);
    WriteKeeps(fs, 0, buf);
    WriteRefines(fs, 0, buf);
    OpenedLen(fs, 0);
    WholeSplice(Opened(fs, 0), buf);
    OpenEntry(FsWrite(fs, 0, buf), 0);
  }

  lemma FirstOpen(disk: seq<Sector>, name: seq<Byte>)
    requires Formatted(disk) && NameOk(name)
    ensures var fs := Fs(disk, NoStreams());
            var fs1 := OpenMd(fs, name, 1).0;
            Openable(fs, name, 1) && Open(fs1, 0) && fs1.streams[0].offset == 0 && fs1.streams[0].size == 0 && fs1.streams[0].entry == 0
            && fs1.streams[0].inode == 0 && INodeOf(fs1.disk, 0) == FullSector()
  {
    hide Formatted, SameName, Live, File, Room, CreateOnDisk, INodeAlloc, DiskInv, Size, Ino, StreamOk, NameOk;
    var fs := Fs(disk, NoStreams());
    FormattedInv(disk);
    InvParts(fs);
    FindNameFinds(disk, name, 0);
    if FindName(disk, name, 0) < ENTRIES {
      NamedLive(disk, FindName(disk, name, 0), name);
    }
    FormattedEntry(disk, 0);
    assert FindFree(disk, 0) == 0;
    FormattedClear(disk, 513);
    assert !INodeUsed(disk, 0);
    assert INodeAlloc(disk, KERNEL_STRIDE).1 == 0 by { FormattedINode(disk); }
    FreeStreamFinds(fs.streams, 0);
    assert FreeStream(fs.streams, 0) == 0;
    CreateKeeps(fs, name);
    assert FsOpen(fs, name) == (fs, -1);
    assert OpenMd(fs, name, 1) == FsCreate(fs, name);
  }

  lemma FormattedINode(disk: seq<Sector>)
    requires !Used(disk, 513)
    ensures INodeAlloc(disk, KERNEL_STRIDE).1 == 0
  {
    hide Bit, Mark;
    assert !Taken(disk, KERNEL_STRIDE, 513, 0);
    FirstClearFinds(disk, KERNEL_STRIDE, 513, SC_INODE, 0);
  }

  lemma InvParts(fs: Fs)
    requires Inv(fs)
    ensures DiskInv(fs.disk)
  {
  }

  lemma FirstNeeds(f: Stream, len: nat)
    requires f.offset == 0 && f.size == 0 && len < NR_BLOCKS * BLOCK
    ensures Needed(f, len) <= SAFE_BLOCKS && BlockNo(f.offset + len) < NR_BLOCKS
  {
  }

  lemma WholeSplice(bytes: seq<Byte>, buf: seq<Byte>)
    requires bytes == []
    ensures Splice(bytes, 0, buf) == buf
  {
  }

  lemma OneStep(fs: Fs, b: Op)
    ensures Run(fs, [b]) == Step(fs, b) && (AllowedRun(fs, [b]) <==> Allowed(fs, b))
  {
    hide Step, Allowed;
    assert [b][1..] == [];
  }

  lemma TwoSteps(fs: Fs, a: Op, b: Op)
    ensures Run(fs, [a, b]) == Step(Step(fs, a), b)
    ensures AllowedRun(fs, [a, b]) <==> Allowed(fs, a) && Allowed(Step(fs, a), b)
  {
    hide Step, Allowed;
    assert [a, b][1..] == [b];
    OneStep(Step(fs, a), b);
  }

  /** The smallest run that breaks the file system: make a file, write exactly one block, then
      one byte more.  Both writes have room on the disk and end inside the inode. */
  lemma BlockThenByte(disk: seq<Sector>, name: seq<Byte>, block: seq<Byte>, b: Byte)
    requires Formatted(disk) && NameOk(name) && |block| == BLOCK
    ensures var fs1 := OpenMd(Fs(disk, NoStreams()), name, 1).0;
            var fs2 := FsWrite(fs1, 0, block);
            Inv(fs2) && Writable(fs2, 0, 1) && !Inv(FsWrite(fs2, 0, [b]))
  {
    hide Inv, Formatted, OpenMd, FsWrite, File, Live, SameName, NameOk, Openable, Room, Started, FullSector, INodeOf, Slot, Block, Needed, Content;
    var fs := Fs(disk, NoStreams());
    FormattedInv(disk);
    FirstOpen(disk, name);
    OpenKeeps(fs, name, 1);
    AllFreeRoom(disk);
    var fs1 := OpenMd(fs, name, 1).0;
    FirstWrite(fs1, block);
    var fs2 := FsWrite(fs1, 0, block);
    FullBlock(fs1.disk);
    OneBlockWritten(fs1, 0, block);
    WriteKeeps(fs1, 0, block);
    WriteRefines(fs1, 0, block);
    OneNeeded(fs1.streams[0], fs2.streams[0]);
    WriteKeepsIff(fs2, 0, [b]);
  }

  lemma AllFreeRoom(disk: seq<Sector>)
    requires Formatted(disk)
    ensures Room(disk) == SAFE_BLOCKS
  {
    hide Formatted, Free;
    AllFree(disk, SAFE_BLOCKS);
  }

  lemma FullBlock(disk: seq<Sector>)
    requires INodeOf(disk, 0) == FullSector()
    ensures Block(disk, 0, 1) == NO_BLOCK
  {
    hide INodeOf, FullSector, WordAt;
    FullWord(1);
  }

  lemma OneNeeded(f: Stream, g: Stream)
    requires f.offset == 0 && f.size == 0 && g.offset == BLOCK && g.size == BLOCK
    ensures Needed(f, BLOCK) == 1 && Needed(g, 1) == 0 && BlockNo(g.offset + 1) < NR_BLOCKS
  {
  }
}
