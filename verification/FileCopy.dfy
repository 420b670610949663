/** The copy loop of the shell's `cat src > dst` (cshell/src/main.c) over the file system. */
module FileCopy {
  import opened DiskFormat
  import opened FileSpec
  import opened FileBytes
  import opened DiskSteps
  import opened FileInvariant
  import opened FileWrite
  import opened FileRefine
  import opened FileEntry
  import opened FileRuns

  const CHUNK := 1024

  /** Writing one stream leaves the others alone. */
  lemma WriteStreams(fs: Fs, fd: int, buf: seq<Byte>, i: int)
    requires i != fd
    ensures StreamAt(FsWrite(fs, fd, buf), i) == StreamAt(fs, i)
  {
    hide GrowFile, SetSize, WriteBase;
  }

  predicate InsideFile(f: Stream) { f.offset <= f.size <= NR_BLOCKS * BLOCK }

  /** What one turn of the loop leaves of the source stream: it moves on, and not past its end. */
  lemma ReadAdvances(fs: Fs, src: int, dst: int)
    requires src != dst && InsideFile(StreamAt(fs, src))
    ensures var (fs1, n, data) := FsRead(fs, src, CHUNK);
            var f, f' := StreamAt(fs, src), StreamAt(FsWrite(fs1, dst, data), src);
            n > 0 ==> InsideFile(f') && f'.size == f.size && f.offset < f'.offset
  {
    hide ReadBase, FsWrite, Sec;
    var (fs1, n, data) := FsRead(fs, src, CHUNK);
    WriteStreams(fs1, dst, data, src);
  }

  /** Chunk by chunk, the rest of the source is read and written to the target, until a read
      finds the end. */
  function Cat(fs: Fs, src: int, dst: int): Fs
    requires src != dst && InsideFile(StreamAt(fs, src))
    decreases StreamAt(fs, src).size - StreamAt(fs, src).offset
  {
    var (fs1, n, data) := FsRead(fs, src, CHUNK);
    if n <= 0 then fs1 else
    var fs2 := FsWrite(fs1, dst, data);
    assert InsideFile(StreamAt(fs2, src)) && StreamAt(fs2, src).offset > StreamAt(fs, src).offset
           && StreamAt(fs2, src).size == StreamAt(fs, src).size by { ReadAdvances(fs, src, dst); }
    Cat(fs2, src, dst)
  }

  /** The blocks that the rest of the copy takes when `done` of n bytes are copied. */
  function CatNeeds(n: int, done: int): int {
    if done == 0 then 1 + if n > BLOCK then BlockNo(n) else 0 else BlockNo(n) - BlockNo(done)
  }

  /** The copy so far: both streams stand at `done`, the target holds the first `done` bytes,
      its next slot has a block, and the disk has room for the rest. */
  ghost predicate Copying(fs: Fs, src: int, dst: int, done: nat) {
    && Inv(fs) && Open(fs, src) && Open(fs, dst) && fs.streams[src].entry != fs.streams[dst].entry
    && fs.streams[src].size == Size(fs.disk, fs.streams[src].entry) && done <= fs.streams[src].size < NR_BLOCKS * BLOCK
    && fs.streams[src].offset == done && fs.streams[dst].offset == done && fs.streams[dst].size == done
    && Opened(fs, dst) == File(fs.disk, fs.streams[src].entry)[..done]
    && (0 < done < fs.streams[src].size ==>
         done % CHUNK == 0 && Held(fs.disk, fs.streams[dst].entry, BlockNo(done)))
    && (done < fs.streams[src].size ==> CatNeeds(fs.streams[src].size, done) <= Room(fs.disk))
  }

  /** One turn of the loop. */
  lemma CatTurn(fs: Fs, src: int, dst: int, done: nat)
    requires Copying(fs, src, dst, done) && done < fs.streams[src].size
    ensures var (fs1, n, data) := FsRead(fs, src, CHUNK);
            var fs2 := FsWrite(fs1, dst, data);
            n > 0 && Copying(fs2, src, dst, done + n) && fs2.streams[src].size == fs.streams[src].size
            && fs2.streams[src].entry == fs.streams[src].entry && fs2.streams[dst].entry == fs.streams[dst].entry
            && File(fs2.disk, fs.streams[src].entry) == File(fs.disk, fs.streams[src].entry)
            && File(fs2.disk, fs.streams[dst].entry) == File(fs.disk, fs.streams[src].entry)[..done + n]
  {
    hide Inv, FsRead, FsWrite, Room, Content, Size, Live, Block, Sec, Ino, INodeOf, Name, Splice, Started, Held, CatNeeds, Needed;
    var x, y := fs.streams[src].entry, fs.streams[dst].entry;
    var size := fs.streams[src].size;
    var (fs1, n, data) := FsRead(fs, src, CHUNK);
    ReadRefines(fs, src, CHUNK);
    OpenedIsFile(fs, src);
    assert n == Min(CHUNK, size - done) && |data| == n;
    assert fs1.disk == fs.disk && fs1.streams == fs.streams[src := fs.streams[src].(offset := done + n)];
    SourceOpen(fs, src);
    CatBlocks(size, done, n);
    NeededSame(fs1.streams[dst], Stream(true, done, done, 0, 0), n);
    CatStarted(fs1, dst, done);
    var fs2 := FsWrite(fs1, dst, data);
    WriteKeeps(fs1, dst, data);
    WriteRefines(fs1, dst, data);
    WriteOthers(fs1, dst, data, x);
    FileSize(fs2.disk, fs.disk, x);
    assert Opened(fs1, dst) == Opened(fs, dst);
    SpliceEnd(Opened(fs1, dst), data);
    assert File(fs.disk, x)[..done] + File(fs.disk, x)[done..done + n] == File(fs.disk, x)[..done + n];
    if done + n < size {
      WriteHolds(fs1, dst, data);
    }
  }

  lemma SourceOpen(fs: Fs, src: int)
    requires Inv(fs) && Open(fs, src)
    ensures Live(fs.disk, fs.streams[src].entry) && 0 <= fs.streams[src].entry < ENTRIES
  {
    hide Inv, Held, Ino;
    OpenEntry(fs, src);
  }

  /** A stream whose size is the entry's sees the whole file. */
  lemma OpenedIsFile(fs: Fs, fd: int)
    requires Inv(fs) && Open(fs, fd) && fs.streams[fd].size == Size(fs.disk, fs.streams[fd].entry)
    ensures Opened(fs, fd) == File(fs.disk, fs.streams[fd].entry)
    ensures |File(fs.disk, fs.streams[fd].entry)| == fs.streams[fd].size
  {
    hide Inv, Sec, Size;
    OpenINode(fs, fd);
    ContentLen(fs.disk, INodeOf(fs.disk, fs.streams[fd].entry), fs.streams[fd].size);
  }

  lemma FileSize(disk: seq<Sector>, disk': seq<Sector>, x: int)
    requires File(disk, x) == File(disk', x)
    ensures Size(disk, x) == Size(disk', x)
  {
    hide Size, INodeOf;
    ContentLen(disk, INodeOf(disk, x), Size(disk, x));
    ContentLen(disk', INodeOf(disk', x), Size(disk', x));
  }

  lemma SpliceEnd(bytes: seq<Byte>, data: seq<Byte>)
    ensures Splice(bytes, |bytes|, data) == bytes + data
  {
  }

  lemma CatBlocks(size: int, done: nat, n: nat)
    requires done < size < NR_BLOCKS * BLOCK && n == Min(CHUNK, size - done) && (done > 0 ==> done % CHUNK == 0)
    ensures BlockNo(done + n) < NR_BLOCKS && done + n <= size
    ensures done + n < size ==> (done + n) % CHUNK == 0
    ensures var f := Stream(true, done, done, 0, 0);
            CatNeeds(size, done) == Needed(f, n) + (if done + n < size then CatNeeds(size, done + n) else 0)
    ensures done + n < size ==> CatNeeds(size, done + n) >= 0
  {
  }

  /** What a write needs depends on the offset and the size of the stream only. */
  lemma NeededSame(f: Stream, g: Stream, len: nat)
    requires f.offset == g.offset && f.size == g.size
    ensures Needed(f, len) == Needed(g, len)
  {
  }

  lemma CatStarted(fs: Fs, dst: int, done: nat)
    requires Inv(fs) && Open(fs, dst) && fs.streams[dst].size == done == fs.streams[dst].offset
    requires done > 0 ==> Held(fs.disk, fs.streams[dst].entry, BlockNo(done))
    ensures Started(fs, dst)
  {
    hide Inv, Live, Ino;
    OpenEntry(fs, dst);
  }

  /** After a write that grows the file past its first block, the slot at the end has a block. */
  lemma WriteHolds(fs: Fs, fd: int, buf: seq<Byte>)
    requires Inv(fs) && Writable(fs, fd, |buf|) && |buf| > 0 && Started(fs, fd)
    requires fs.streams[fd].offset + |buf| > Max(fs.streams[fd].size, BLOCK)
    ensures Held(FsWrite(fs, fd, buf).disk, fs.streams[fd].entry, BlockNo(fs.streams[fd].offset + |buf|))
  {
    hide Inv, Stage, Needed, FirstBlock, Extend, StoreSize, Room, WriteBase, SameLow, Prepare, Size, Block, ByteAt, INodeOf, Started, File, Held, Changed, DiskInv, Sec, Live, Content;
    var x, j := fs.streams[fd].entry, BlockNo(fs.streams[fd].offset + |buf|);
    WriteStages(fs, fd, buf);
    PrepareStages(fs, fd, |buf|);
    var fs3 := Prepare(fs, fd, |buf|);
    PreparedOpen(fs, fs3, fd, |buf|);
    StoreBytesEffect(fs3, fd, buf);
    OpenEntry(fs3, fd);
    LowHeld(fs3.disk, StoreBytes(fs3, fd, buf).disk, x, j);
  }

  lemma LowHeld(disk: seq<Sector>, disk': seq<Sector>, x: int, j: int)
    requires DiskInv(disk) && SameLow(disk, disk') && Held(disk, x, j)
    ensures Held(disk', x, j)
  {
    hide DiskInv, SameLow, Live, INodeOf, WordAt;
    LowFile(disk, disk', x);
  }

  /** The whole copy: from the state after both files were opened, the target emptied, the loop
      ends with the target holding exactly the bytes of the source, and its size. */
  lemma {:induction false} CatCopies(fs: Fs, src: int, dst: int, done: nat)
    requires src != dst && Copying(fs, src, dst, done) && 0 < fs.streams[src].size
    requires done == fs.streams[src].size ==> File(fs.disk, fs.streams[dst].entry) == File(fs.disk, fs.streams[src].entry)
    decreases fs.streams[src].size - done
    ensures var fs' := Cat(fs, src, dst);
            var x, y := fs.streams[src].entry, fs.streams[dst].entry;
            Inv(fs') && File(fs'.disk, y) == File(fs.disk, x) && File(fs'.disk, x) == File(fs.disk, x)
  {
    hide Inv, FsRead, FsWrite, File, Room, Opened, Size, Held;
    var x, y := fs.streams[src].entry, fs.streams[dst].entry;
    var (fs1, n, data) := FsRead(fs, src, CHUNK);
    if done < fs.streams[src].size {
      CatTurn(fs, src, dst, done);
      var fs2 := FsWrite(fs1, dst, data);
      WholePrefix(fs, src);
      CatCopies(fs2, src, dst, done + n);
    } else {
      ReadRefines(fs, src, CHUNK);
      SameStreams(fs, src);
    }
  }

  lemma SameStreams(fs: Fs, src: int)
    requires Open(fs, src) && fs.streams[src].offset == fs.streams[src].size && FsRead(fs, src, CHUNK).0 == SetStream(fs, src, fs.streams[src])
    ensures FsRead(fs, src, CHUNK).0 == fs
  {
    hide FsRead;
    assert fs.streams[src := fs.streams[src]] == fs.streams;
  }

  lemma WholePrefix(fs: Fs, src: int)
    requires Inv(fs) && Open(fs, src) && fs.streams[src].size == Size(fs.disk, fs.streams[src].entry)
    ensures var bytes := File(fs.disk, fs.streams[src].entry);
            |bytes| == fs.streams[src].size && bytes[..fs.streams[src].size] == bytes
  {
    hide Inv, File, Size;
    OpenedIsFile(fs, src);
  }

  // ---- the command

  const FS_RW := 0
  const FS_RWD := 2

  /** `cat src > dst` of the shell: open both, copy, close both; -1 stands for a failed open. */
  function ShellCat(fs: Fs, source: seq<Byte>, target: seq<Byte>): Fs {
    var (fs1, src) := OpenMd(fs, source, FS_RW);
    var (fs2, dst) := OpenMd(fs1, target, FS_RWD);
    if src != dst && InsideFile(StreamAt(fs2, src)) then FsClose(FsClose(Cat(fs2, src, dst), dst), src) else fs2
  }

  /** The source exists and is smaller than an inode can hold, the target can be opened, and
      there is room for the copy. */
  ghost predicate CatReady(fs: Fs, source: seq<Byte>, target: seq<Byte>) {
    var x := FindName(fs.disk, source, 0);
    && Inv(fs) && Openable(fs, source, FS_RW) && x < ENTRIES && source != target
    && Openable(OpenMd(fs, source, FS_RW).0, target, FS_RWD)
    && Size(fs.disk, x) < NR_BLOCKS * BLOCK && (Size(fs.disk, x) > 0 ==> CatNeeds(Size(fs.disk, x), 0) <= Room(fs.disk))
  }

  lemma NameBytes(disk: seq<Sector>, x: int, a: seq<Byte>)
    requires NameOk(a) && SameName(disk, x, a)
    ensures |Name(disk, x)| > |a| && Name(disk, x)[|a|] == 0 && forall i :: 0 <= i < |a| ==> Name(disk, x)[i] == a[i]
  {
    hide DirSec;
    var s := Name(disk, x);
    forall i | 0 <= i <= |a| ensures s[i] == (a + [0])[i] { assert s[i] == s[..|a| + 1][i]; }
  }

  lemma NamesDiffer(disk: seq<Sector>, x: int, a: seq<Byte>, b: seq<Byte>)
    requires NameOk(a) && NameOk(b) && SameName(disk, x, a) && SameName(disk, x, b)
    ensures a == b
  {
    hide Name, SameName;
    NameBytes(disk, x, a);
    NameBytes(disk, x, b);
  }

  /** The state in which the copy loop of the command starts. */
  lemma CatStarts(fs: Fs, source: seq<Byte>, target: seq<Byte>)
    requires CatReady(fs, source, target)
    ensures var (fs1, src) := OpenMd(fs, source, FS_RW);
            var (fs2, dst) := OpenMd(fs1, target, FS_RWD);
            var x := FindName(fs.disk, source, 0);
            Copying(fs2, src, dst, 0) && src != dst && fs2.streams[src].entry == x && fs2.streams[src].size == Size(fs.disk, x)
            && SameName(fs2.disk, fs2.streams[dst].entry, target)
    ensures var (fs1, src) := OpenMd(fs, source, FS_RW);
            var fs2 := OpenMd(fs1, target, FS_RWD).0;
            forall y :: Live(fs.disk, y) ==> File(fs2.disk, y) == File(fs.disk, y)
  {
    hide Inv, Room, Ino, File, SameName, Name, Openable, Size, Live;
    var x := FindName(fs.disk, source, 0);
    var (fs1, src) := OpenMd(fs, source, FS_RW);
    OpenKeeps(fs, source, FS_RW);
    OpenFound(fs, source, FS_RW);
    var (fs2, dst) := OpenMd(fs1, target, FS_RWD);
    hide OpenMd;
    OpenKeeps(fs1, target, FS_RWD);
    assert NameOk(source) && NameOk(target) by { OpenableName(fs, source, FS_RW); OpenableName(fs1, target, FS_RWD); }
    FindNameFinds(fs.disk, source, 0);
    InvDisk(fs);
    NamedLive(fs.disk, x, source);
    FileSize(fs1.disk, fs.disk, x);
    FileSize(fs2.disk, fs1.disk, x);
    assert fs2.streams[src] == fs1.streams[src];
    if fs2.streams[dst].entry == x {
      NamesDiffer(fs.disk, x, source, target);
    }
    NoBytes(fs2, dst);
  }

  lemma InvDisk(fs: Fs)
    requires Inv(fs)
    ensures DiskInv(fs.disk) && |fs.streams| == NR_FILE_STREAM
  {
  }

  lemma OpenableName(fs: Fs, name: seq<Byte>, flags: int)
    requires Openable(fs, name, flags)
    ensures NameOk(name)
  {
  }

  lemma NoBytes(fs: Fs, fd: int)
    requires 0 <= fd < |fs.streams| && fs.streams[fd].size == 0
    ensures Opened(fs, fd) == []
  {
    hide Sec;
    ContentLen(fs.disk, Sec(fs.disk, LocINode(fs.streams[fd].inode)), 0);
  }

  /** Opening a file that exists changes no disk and finds that entry. */
  lemma OpenFound(fs: Fs, name: seq<Byte>, flags: int)
    requires Inv(fs) && Openable(fs, name, flags) && FindName(fs.disk, name, 0) < ENTRIES
    ensures var (fs', fd) := OpenMd(fs, name, flags);
            fs'.disk == fs.disk && 0 <= fd < |fs'.streams| && fs'.streams[fd].entry == FindName(fs.disk, name, 0)
  {
    hide Inv, Size, Ino, SameName, INodeFree, Live, Name, Sec;
    FreeStreamFinds(fs.streams, 0);
    FindNameFinds(fs.disk, name, 0);
  }

  lemma CloseFile(fs: Fs, fd: int)
    requires Inv(fs) && 0 <= fd < |fs.streams|
    ensures Inv(FsClose(fs, fd)) && FsClose(fs, fd).disk == fs.disk && |FsClose(fs, fd).streams| == |fs.streams|
  {
    hide Inv;
    CloseKeeps(fs, fd);
  }

  /** `cat src > dst` leaves dst with exactly the bytes of src, for every source of 1 to 65535
      bytes, and leaves src as it was. */
  lemma ShellCatCopies(fs: Fs, source: seq<Byte>, target: seq<Byte>)
    requires CatReady(fs, source, target)
    requires Size(fs.disk, FindName(fs.disk, source, 0)) > 0
    ensures var x := FindName(fs.disk, source, 0);
            var y := TargetEntry(fs, source, target);
            var fs' := ShellCat(fs, source, target);
            Inv(fs') && y != x && File(fs'.disk, y) == File(fs.disk, x) && File(fs'.disk, x) == File(fs.disk, x)
  {
    hide Inv, Room, Ino, File, SameName, Name, Openable, Size, Live, OpenMd, FindName, Cat, CatReady;
    CatStarts(fs, source, target);
    SourceLive(fs, source, target);
    var (fs1, src) := OpenMd(fs, source, FS_RW);
    var (fs2, dst) := OpenMd(fs1, target, FS_RWD);
    CatCopies(fs2, src, dst, 0);
    var fs3 := Cat(fs2, src, dst);
    InvDisk(fs3);
    InvDisk(fs2);
    CloseFile(fs3, dst);
    CloseFile(FsClose(fs3, dst), src);
  }

  /** The directory entry that the target's stream writes to. */
  function TargetEntry(fs: Fs, source: seq<Byte>, target: seq<Byte>): int {
    var (fs2, dst) := OpenMd(OpenMd(fs, source, FS_RW).0, target, FS_RWD);
    StreamAt(fs2, dst).entry
  }

  lemma SourceLive(fs: Fs, source: seq<Byte>, target: seq<Byte>)
    requires CatReady(fs, source, target)
    ensures Live(fs.disk, FindName(fs.disk, source, 0))
  {
    hide Inv, Room, SameName, INodeFree, Ino, OpenMd, Size;
    FindNameFinds(fs.disk, source, 0);
    InvDisk(fs);
    NamedLive(fs.disk, FindName(fs.disk, source, 0), source);
  }

  /** An empty source is the exception: the target's stream is emptied and nothing is written,
      so that the target keeps the bytes it had. */
  lemma ShellCatEmpty(fs: Fs, source: seq<Byte>, target: seq<Byte>)
    requires CatReady(fs, source, target) && FindName(fs.disk, target, 0) < ENTRIES
    requires Size(fs.disk, FindName(fs.disk, source, 0)) == 0
    ensures var y := TargetEntry(fs, source, target);
            File(ShellCat(fs, source, target).disk, y) == File(fs.disk, y)
  {
    hide Inv, Room, Ino, File, SameName, Name, Openable, Size, Live, OpenMd, FindName, FsRead, Opened;
    CatStarts(fs, source, target);
    var (fs1, src) := OpenMd(fs, source, FS_RW);
    var (fs2, dst) := OpenMd(fs1, target, FS_RWD);
    OpenFound(fs, source, FS_RW);
    OpenKeeps(fs, source, FS_RW);
    OpenFound(fs1, target, FS_RWD);
    InvDisk(fs2);
    ReadRefines(fs2, src, CHUNK);
    assert Cat(fs2, src, dst).disk == fs2.disk;
    assert ShellCat(fs, source, target).disk == fs.disk;
  }

  /** For an existing target: the copy is exact if and only if the source has bytes, or the
      target had none before. */
  lemma ShellCatIff(fs: Fs, source: seq<Byte>, target: seq<Byte>)
    requires CatReady(fs, source, target) && FindName(fs.disk, target, 0) < ENTRIES
    ensures var x := FindName(fs.disk, source, 0);
            var y := TargetEntry(fs, source, target);
            File(ShellCat(fs, source, target).disk, y) == File(fs.disk, x)
            <==> (Size(fs.disk, x) > 0 || Size(fs.disk, y) == 0)
  {
    hide Inv, Room, Ino, SameName, Name, Openable, Size, Live, OpenMd, FindName, Cat, CatReady, INodeOf, Content, ShellCat, TargetEntry;
    var x := FindName(fs.disk, source, 0);
    var y := TargetEntry(fs, source, target);
    ContentLen(fs.disk, INodeOf(fs.disk, x), Size(fs.disk, x));
    ContentLen(fs.disk, INodeOf(fs.disk, y), Size(fs.disk, y));
    if Size(fs.disk, x) > 0 {
      ShellCatCopies(fs, source, target);
    } else {
      ShellCatEmpty(fs, source, target);
      if Size(fs.disk, y) == 0 {
        assert File(fs.disk, x) == [] && File(fs.disk, y) == [];
      }
    }
  }
}
