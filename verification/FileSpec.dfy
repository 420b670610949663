/** The file system of kernel/src/fs/file.c and the host tool fmt/copy2myfs.c, as functions
    of the disk and the table of open streams. */
module FileSpec {
  import opened DiskFormat

  const NR_FILE_STREAM := 256

  /** An open file; the fields are 32-bit unsigned. */
  datatype Stream = Stream(used: bool, offset: U32, size: U32, inode: U32, entry: int)

  datatype Fs = Fs(disk: seq<Sector>, streams: seq<Stream>)

  function Wrap(x: int): U32 { x % 0x1_0000_0000 }

  function StreamAt(fs: Fs, fd: int): Stream {
    if 0 <= fd < |fs.streams| then fs.streams[fd] else Stream(false, 0, 0, 0, 0)
  }

  function SetStream(fs: Fs, fd: int, f: Stream): Fs {
    if 0 <= fd < |fs.streams| then fs.(streams := fs.streams[fd := f]) else fs
  }

  // ---- allocation

  /** The bit of sector base + i. */
  predicate Taken(disk: seq<Sector>, stride: nat, base: nat, i: nat) { Bit(disk, stride, base + i) }

  /** The first of the sectors base + i .. base + n - 1 whose bit is clear, counted from base;
      n if there is none. */
  function FirstClear(disk: seq<Sector>, stride: nat, base: nat, n: nat, i: nat): nat
    decreases n - i
  {
    if i >= n then n
    else if !Taken(disk, stride, base, i) then i
    else FirstClear(disk, stride, base, n, i + 1)
  }

  /** INodeAlloc and dataAlloc: the number found, or -1. */
  function Alloc(disk: seq<Sector>, stride: nat, base: nat, n: nat): (seq<Sector>, int) {
    var i := FirstClear(disk, stride, base, n, 0);
    if i < n then (Mark(disk, stride, base + i), i) else (disk, -1)
  }

  function INodeAlloc(disk: seq<Sector>, stride: nat): (seq<Sector>, int) { Alloc(disk, stride, 513, SC_INODE) }

  function DataAlloc(disk: seq<Sector>, stride: nat): (seq<Sector>, int) { Alloc(disk, stride, 769, SC_DATA) }

  // ---- reading and writing blocks

  /** The sector of byte `off` of the file with this inode. */
  function BlockOf(inode: Sector, off: int): int { LocData(WordAt(inode, BlockNo(off))) }

  /** A read that stays inside one block. */
  function ReadPart(disk: seq<Sector>, inode: Sector, off: nat, len: nat): seq<Byte>
    requires InBlock(off) + len <= BLOCK
  {
    Sec(disk, BlockOf(inode, off))[InBlock(off)..InBlock(off) + len]
  }

  /** The loop of fs_read_base_kr over whole blocks, and the block after it. */
  function ReadRest(disk: seq<Sector>, inode: Sector, off: nat, len: nat): seq<Byte>
    requires InBlock(off) == 0
    decreases len
  {
    if len >= BLOCK
    then ReadPart(disk, inode, off, BLOCK) + ReadRest(disk, inode, off + BLOCK, len - BLOCK)
    else ReadPart(disk, inode, off, len)
  }

  function ReadBase(disk: seq<Sector>, inode: Sector, off: nat, len: nat): seq<Byte> {
    var r := InBlock(off);
    if r + len > BLOCK
    then
      assert InBlock(off + (BLOCK - r)) == 0 by { NextBlock(off); }
      ReadPart(disk, inode, off, BLOCK - r) + ReadRest(disk, inode, off + (BLOCK - r), len - (BLOCK - r))
    else ReadPart(disk, inode, off, len)
  }

  /** A write that stays inside one block: read, replace, write. */
  function WritePart(disk: seq<Sector>, inode: Sector, off: nat, buf: seq<Byte>): seq<Sector>
    requires InBlock(off) + |buf| <= BLOCK
  {
    var s := Sec(disk, BlockOf(inode, off));
    Save(disk, BlockOf(inode, off), s[..InBlock(off)] + buf + s[InBlock(off) + |buf|..])
  }

  function WriteRest(disk: seq<Sector>, inode: Sector, off: nat, buf: seq<Byte>): seq<Sector>
    requires InBlock(off) == 0
    decreases |buf|
  {
    if |buf| >= BLOCK
    then
      assert InBlock(off + BLOCK) == 0;
      WriteRest(WritePart(disk, inode, off, buf[..BLOCK]), inode, off + BLOCK, buf[BLOCK..])
    else WritePart(disk, inode, off, buf)
  }

  function WriteBase(disk: seq<Sector>, inode: Sector, off: nat, buf: seq<Byte>): seq<Sector> {
    var r := InBlock(off);
    if r + |buf| > BLOCK
    then
      assert InBlock(off + (BLOCK - r)) == 0 by { NextBlock(off); }
      WriteRest(WritePart(disk, inode, off, buf[..BLOCK - r]), inode, off + (BLOCK - r), buf[BLOCK - r..])
    else WritePart(disk, inode, off, buf)
  }

  // ---- fs_read_kr and fs_write_kr

  /** The number of bytes a read delivers; it is -1 in place of 0 that is returned. */
  function ReadLen(f: Stream, len: int): int {
    if Wrap(f.offset + len) >= f.size then f.size - f.offset else len
  }

  function FsRead(fs: Fs, fd: int, len: int): (Fs, int, seq<Byte>) {
    var f := StreamAt(fs, fd);
    var n := ReadLen(f, len);
    if n <= 0 then (fs, if n == 0 then -1 else n, [])
    else (SetStream(fs, fd, f.(offset := Wrap(f.offset + n))), n, ReadBase(fs.disk, Sec(fs.disk, LocINode(f.inode)), f.offset, n))
  }

  /** The slots d..last of an inode get new blocks, whatever they held. */
  function Grow(disk: seq<Sector>, inode: Sector, d: int, last: int): (seq<Sector>, Sector)
    decreases last - d
  {
    if d > last then (disk, inode) else
    var (disk1, b) := DataAlloc(disk, KERNEL_STRIDE);
    Grow(disk1, SetWord(inode, d, Wrap(b)), d + 1, last)
  }

  function GrowFile(disk: seq<Sector>, ino: int, d: int, last: int): seq<Sector> {
    var (disk1, inode) := Grow(disk, Sec(disk, LocINode(ino)), d, last);
    Save(disk1, LocINode(ino), inode)
  }

  function SetSize(disk: seq<Sector>, x: int, n: U32): seq<Sector> {
    Save(disk, LocDir(DirNo(x)), SetWord(DirSec(disk, x), SizeWord(DirPos(x)), n))
  }

  /** The first branch of fs_write_kr: an empty file gets its first block. */
  function FirstBlock(fs: Fs, fd: int, len: nat): Fs {
    var f := StreamAt(fs, fd);
    if f.size != 0 then fs else
    SetStream(Fs(GrowFile(fs.disk, f.inode, 0, 0), fs.streams), fd, f.(size := if len > BLOCK then BLOCK else len))
  }

  /** The second branch: a write past the end gets blocks for the slots after its first. */
  function Extend(fs: Fs, fd: int, len: nat): Fs {
    var f := StreamAt(fs, fd);
    var end := Wrap(f.offset + len);
    if end <= f.size then fs else
    SetStream(Fs(GrowFile(fs.disk, f.inode, BlockNo(f.offset) + 1, BlockNo(end)), fs.streams), fd, f.(size := end))
  }

  function StoreSize(fs: Fs, fd: int): Fs {
    var f := StreamAt(fs, fd);
    Fs(SetSize(fs.disk, f.entry, f.size), fs.streams)
  }

  function StoreBytes(fs: Fs, fd: int, buf: seq<Byte>): Fs {
    var f := StreamAt(fs, fd);
    SetStream(Fs(WriteBase(fs.disk, Sec(fs.disk, LocINode(f.inode)), f.offset, buf), fs.streams), fd,
              f.(offset := Wrap(f.offset + |buf|)))
  }

  function FsWrite(fs: Fs, fd: int, buf: seq<Byte>): Fs {
    StoreBytes(StoreSize(Extend(FirstBlock(fs, fd, |buf|), fd, |buf|), fd), fd, buf)
  }

  // ---- opening and creating

  /** strcmp finds the entry's name equal to this one; neither holds a zero byte. */
  predicate SameName(disk: seq<Sector>, x: int, name: seq<Byte>) {
    |name| < LEN_FILENAME && Name(disk, x)[..|name| + 1] == name + [0]
  }

  function FindName(disk: seq<Sector>, name: seq<Byte>, x: nat): nat
    decreases ENTRIES - x
  {
    if x >= ENTRIES then ENTRIES else if SameName(disk, x, name) then x else FindName(disk, name, x + 1)
  }

  function FindFree(disk: seq<Sector>, x: nat): nat
    decreases ENTRIES - x
  {
    if x >= ENTRIES then ENTRIES else if Ino(disk, x) == NO_BLOCK then x else FindFree(disk, x + 1)
  }

  function FreeStream(streams: seq<Stream>, i: nat): nat
    decreases |streams| - i
  {
    if i >= |streams| then |streams| else if !streams[i].used then i else FreeStream(streams, i + 1)
  }

  /** The common end of fs_open_kr and fs_create_kr, with the fields of the entry at hand. */
  function Attach(fs: Fs, x: int, size: U32, ino: U32): (Fs, int) {
    var i: int := FreeStream(fs.streams, 0);
    if i >= |fs.streams| then (fs, -1) else (SetStream(fs, i, Stream(true, 0, size, ino, x)), i)
  }

  function FsOpen(fs: Fs, name: seq<Byte>): (Fs, int) {
    var x := FindName(fs.disk, name, 0);
    if x >= ENTRIES then (fs, -1) else Attach(fs, x, Size(fs.disk, x), Ino(fs.disk, x))
  }

  /** strcpy into the name field of entry e; a name of more than 23 bytes is not modelled. */
  function PutName(s: Sector, e: int, name: seq<Byte>): Sector {
    if 0 <= e < NR_ENTRIES && |name| < LEN_FILENAME
    then s[..32 * e] + name + [0] + s[32 * e + |name| + 1..]
    else s
  }

  /** The directory sector with the inode, the name and the size of entry e stored in it. */
  function EntrySector(s: Sector, e: int, name: seq<Byte>, size: U32, ino: U32): Sector {
    SetWord(PutName(SetWord(s, INodeWord(e), ino), e, name), SizeWord(e), size)
  }

  function PutEntry(disk: seq<Sector>, x: int, name: seq<Byte>, size: U32, ino: U32): seq<Sector> {
    Save(disk, LocDir(DirNo(x)), EntrySector(DirSec(disk, x), DirPos(x), name, size, ino))
  }

  function CreateOnDisk(disk: seq<Sector>, x: int, name: seq<Byte>): seq<Sector> {
    var (disk1, ino) := INodeAlloc(disk, KERNEL_STRIDE);
    Save(PutEntry(disk1, x, name, 0, Wrap(ino)), LocINode(ino), FullSector())
  }

  function FsCreate(fs: Fs, name: seq<Byte>): (Fs, int) {
    var x := FindFree(fs.disk, 0);
    if x >= ENTRIES then (fs, -1) else
    Attach(Fs(CreateOnDisk(fs.disk, x, name), fs.streams), x, 0, Wrap(INodeAlloc(fs.disk, KERNEL_STRIDE).1))
  }

  /** fs_open_md: flag 1 creates, flag 2 creates or empties (the stream, not the entry). */
  function OpenMd(fs: Fs, name: seq<Byte>, flags: int): (Fs, int) {
    var (fs1, fd) := FsOpen(fs, name);
    var (fs2, fd2) := if fd == -1 && flags >= 1 then FsCreate(fs1, name) else (fs1, fd);
    (if flags == 2 then SetStream(fs2, fd2, StreamAt(fs2, fd2).(size := 0)) else fs2, fd2)
  }

  /** fs_lseek_md */
  function LseekMd(fs: Fs, fd: int, offset: int, whence: int): (Fs, int) {
    var f := StreamAt(fs, fd);
    var index := if whence == 0 then offset else if whence == 1 then Wrap(f.offset + offset)
      else if whence == 2 then Wrap(f.size + offset) else 0;
    (SetStream(fs, fd, f.(offset := Wrap(index))), index)
  }

  function FsClose(fs: Fs, fd: int): Fs { SetStream(fs, fd, StreamAt(fs, fd).(used := false)) }

  // ---- fmt/copy2myfs.c; the host keeps the bitmap in memory until the end

  /** The sectors 0..256 of the drive; those from 1 on are the bitmap as the host reads it. */
  const BITS := 1 + SC_BITMAP

  function BitsOf(disk: seq<Sector>): seq<Sector> { if |disk| >= BITS then disk[..BITS] else disk }

  /** saveBitmap of the host. */
  function SaveBits(disk: seq<Sector>, bits: seq<Sector>): seq<Sector> {
    if |disk| >= BITS && |bits| == BITS then [disk[0]] + bits[1..] + disk[BITS..] else disk
  }

  /** The first entry of that name, or the first that is free, whichever comes first. */
  function HostFind(disk: seq<Sector>, name: seq<Byte>, x: nat): nat
    decreases ENTRIES - x
  {
    if x >= ENTRIES then ENTRIES
    else if SameName(disk, x, name) || Ino(disk, x) == NO_BLOCK then x
    else HostFind(disk, name, x + 1)
  }

  /** A block of the file, filled up with zeros. */
  function Chunk(file: seq<Byte>, off: nat): Sector
    requires off < |file|
  {
    if off + BLOCK <= |file| then file[off..off + BLOCK]
    else file[off..] + ZeroSector()[|file| - off..]
  }

  /** The copy loop: the data goes to the drive, the bits and the inode stay in memory. */
  function HostLoop(disk: seq<Sector>, bits: seq<Sector>, inode: Sector, file: seq<Byte>, off: nat): (seq<Sector>, seq<Sector>, Sector)
    decreases |file| - off
  {
    if off >= |file| then (disk, bits, inode) else
    var (bits1, b) := DataAlloc(bits, HOST_STRIDE);
    HostLoop(Save(disk, LocData(b), Chunk(file, off)), bits1, SetWord(inode, BlockNo(off), Wrap(b)), file, off + BLOCK)
  }

  function HostCopyTo(disk: seq<Sector>, x: int, name: seq<Byte>, file: seq<Byte>): seq<Sector> {
    var (bits1, ino) := INodeAlloc(BitsOf(disk), HOST_STRIDE);
    var (disk2, bits2, inode2) := HostLoop(disk, bits1, FullSector(), file, 0);
    Save(SaveBits(Save(disk2, LocINode(ino), inode2), bits2),
         LocDir(DirNo(x)), EntrySector(DirSec(disk, x), DirPos(x), name, Wrap(|file|), Wrap(ino)))
  }

  function HostCopy(disk: seq<Sector>, name: seq<Byte>, file: seq<Byte>): seq<Sector> {
    var x := HostFind(disk, name, 0);
    if x >= ENTRIES then disk else HostCopyTo(disk, x, name, file)
  }
}
