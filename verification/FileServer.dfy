/** kernel/src/fs/file.c step by step: the global buffers, the loops over bitmap, directory and
    blocks, and the table of streams, each operation tied to its function in FileSpec. */
module FileServer {
  import opened DiskFormat
  import opened FileSpec
  import opened DiskSteps
  import FileBytes
  import opened FileCopy

  // ---- the bitmap buffer

  /** The slices as readBitmap loads them. */
  ghost predicate Loaded(disk: seq<Sector>, mask: seq<Sector>) {
    |mask| == SC_BITMAP && forall c :: 0 <= c < SC_BITMAP ==> mask[c] == Sec(disk, 1 + KERNEL_STRIDE * c)
  }

  /** saveBitmap, the first n slices. */
  function SaveSlices(disk: seq<Sector>, mask: seq<Sector>, n: nat): seq<Sector>
    requires n <= |mask|
  {
    if n == 0 then disk else Save(SaveSlices(disk, mask, n - 1), 1 + KERNEL_STRIDE * (n - 1), mask[n - 1])
  }

  /** Writing back slices of which one has changed is writing that one. */
  lemma {:induction false} SaveSlicesOne(disk: seq<Sector>, mask: seq<Sector>, c: nat, s: Sector, n: nat)
    requires Loaded(disk, mask) && c < SC_BITMAP && n <= SC_BITMAP
    ensures SaveSlices(disk, mask[c := s], n) == if c < n then Save(disk, 1 + KERNEL_STRIDE * c, s) else disk
  {
    if n > 0 {
      SaveSlicesOne(disk, mask, c, s, n - 1);
    }
  }

  lemma MaskSlice(disk: seq<Sector>, mask: seq<Sector>, sec: nat)
    requires Loaded(disk, mask) && sec < 4096 * SC_BITMAP
    ensures 0 <= SliceNo(sec) < SC_BITMAP && mask[SliceNo(sec)] == Slice(disk, KERNEL_STRIDE, sec)
  {
    assert 0 <= SliceNo(sec) < SC_BITMAP;
  }

  /** strcmp of the name field of entry e of a directory sector with a C string. */
  method SameAs(dir: Sector, e: nat, name: seq<Byte>) returns (same: bool)
    requires e < NR_ENTRIES && |name| < LEN_FILENAME && 0 !in name
    ensures same == NameMatches(dir, e, name)
  {
    var field, text := dir[32 * e..32 * e + LEN_FILENAME], name + [0];
    var i := 0;
    while field[i] != 0 && field[i] == text[i]
      invariant 0 <= i <= |name| && field[..i] == text[..i] && 0 !in field[..i]
      decreases |name| - i
    {
      assert text[i] in name;
      i := i + 1;
    }
    assert i < |name| ==> text[i] in name;
    same := field[i] == text[i];
    assert !same ==> field[..|name| + 1][i] != text[i];
  }

  class FileSystem {
    const disk: array<Sector>
    const streams: array<Stream>
    // the global buffers of file.c; the bitmap as slices of one sector
    const bitmap: array<Sector>
    var inode: Sector
    var dir: Sector
    var buffer: Sector

    ghost predicate Valid() {
      disk != bitmap && bitmap.Length == SC_BITMAP && streams.Length == NR_FILE_STREAM
    }

    function View(): Fs
      reads disk, streams
    {
      Fs(disk[..], streams[..])
    }

    constructor (drive: array<Sector>)
      ensures Valid() && disk == drive && fresh(streams) && fresh(bitmap)
      ensures forall fd :: 0 <= fd < NR_FILE_STREAM ==> !streams[fd].used
    {
      disk := drive;
      bitmap := new Sector[SC_BITMAP](_ => ZeroSector());
      streams := new Stream[NR_FILE_STREAM](_ => Stream(false, 0, 0, 0, 0));
      inode, dir, buffer := ZeroSector(), ZeroSector(), ZeroSector();
    }

    // ---- sectors

    method ReadSect(i: int) returns (s: Sector)
      ensures s == Sec(disk[..], i)
    {
      if 0 <= i < disk.Length {
        s := disk[i];
      } else {
        s := ZeroSector();
      }
    }

    method WriteSect(i: int, s: Sector)
      modifies disk
      ensures disk[..] == Save(old(disk[..]), i, s)
    {
      if 0 <= i < disk.Length {
        disk[i] := s;
      }
    }

    method ReadBitmap()
      requires Valid()
      modifies bitmap
      ensures Loaded(disk[..], bitmap[..])
    {
      var count := 0;
      while count < SC_BITMAP
        invariant 0 <= count <= SC_BITMAP
        invariant disk[..] == old(disk[..])
        invariant forall c :: 0 <= c < count ==> bitmap[c] == Sec(disk[..], 1 + KERNEL_STRIDE * c)
      {
        bitmap[count] := ReadSect(1 + KERNEL_STRIDE * count);
        count := count + 1;
      }
    }

    method SaveBitmap()
      requires Valid()
      modifies disk
      ensures disk[..] == SaveSlices(old(disk[..]), bitmap[..], SC_BITMAP)
    {
      var count := 0;
      while count < SC_BITMAP
        invariant 0 <= count <= SC_BITMAP
        invariant bitmap[..] == old(bitmap[..])
        invariant disk[..] == SaveSlices(old(disk[..]), bitmap[..], count)
      {
        WriteSect(1 + KERNEL_STRIDE * count, bitmap[count]);
        count := count + 1;
      }
    }

    // ---- allocation

    /** The scan of INodeAlloc (base 513) and dataAlloc (base 769). */
    method Scan(base: nat, n: nat) returns (r: int)
      requires Valid() && base + n <= 4096 * SC_BITMAP
      modifies disk, bitmap
      ensures (disk[..], r) == Alloc(old(disk[..]), KERNEL_STRIDE, base, n)
    {
      hide Sec, HasBit, MarkSlice;
      ReadBitmap();
      ghost var D, M := disk[..], bitmap[..];
      var i := 0;
      while i < n
        invariant 0 <= i <= n && disk[..] == D == old(disk[..]) && bitmap[..] == M && Loaded(D, M)
        invariant FirstClear(D, KERNEL_STRIDE, base, n, 0) == FirstClear(D, KERNEL_STRIDE, base, n, i)
      {
        var sec := base + i;
        MaskSlice(D, M, sec);
        var slice := SliceNo(sec);
        assert bitmap[slice] == M[slice];
        if !HasBit(bitmap[slice][sec / 8 % 512], sec % 8) {
          ghost var s := MarkSlice(bitmap[slice], sec);
          bitmap[slice] := MarkSlice(bitmap[slice], sec);
          assert bitmap[..] == M[slice := s];
          SaveSlicesOne(D, M, slice, s, SC_BITMAP);
          SaveBitmap();
          return i;
        }
        i := i + 1;
      }
      return -1;
    }

    method INodeAlloc() returns (r: int)
      requires Valid()
      modifies disk, bitmap
      ensures (disk[..], r) == FileSpec.INodeAlloc(old(disk[..]), KERNEL_STRIDE)
    {
      r := Scan(513, SC_INODE);
    }

    method DataAlloc() returns (r: int)
      requires Valid()
      modifies disk, bitmap
      ensures (disk[..], r) == FileSpec.DataAlloc(old(disk[..]), KERNEL_STRIDE)
    {
      r := Scan(769, SC_DATA);
    }

    // ---- fs_read_base_kr, fs_read_kr

    /** One readData and the memcpy2 after it: n bytes from the stream's position to buf + at. */
    method ReadPiece(fd: int, buf: array<Byte>, at: nat, n: nat)
      requires Valid() && 0 <= fd < streams.Length && at + n <= buf.Length
      requires InBlock(streams[fd].offset) + n <= BLOCK && streams[fd].offset + n < TWO_32
      modifies this`buffer, streams, buf
      ensures streams[..] == old(streams[..])[fd := old(streams[fd]).(offset := old(streams[fd]).offset + n)]
      ensures buf[..at + n] == old(buf[..at]) + ReadPart(disk[..], inode, old(streams[fd]).offset, n)
      ensures buf[at + n..] == old(buf[at + n..])
    {
      hide Sec, LocData, WordAt;
      var from := InBlock(streams[fd].offset);
      ghost var D := disk[..];
      ghost var part := ReadPart(D, inode, streams[fd].offset, n);
      buffer := ReadSect(LocData(WordAt(inode, BlockNo(streams[fd].offset))));
      assert buffer[from..from + n] == part;
      forall k | 0 <= k < n { buf[at + k] := buffer[from + k]; }
      assert disk[..] == D;
      streams[fd] := streams[fd].(offset := streams[fd].offset + n);
      assert buf[..at + n] == old(buf[..at]) + buffer[from..from + n];
    }

    method FsReadBase(fd: int, buf: array<Byte>, length: nat)
      requires Valid() && 0 <= fd < streams.Length && length <= buf.Length
      requires streams[fd].offset + length < TWO_32
      modifies this`inode, this`buffer, streams, buf
      ensures streams[..] == old(streams[..])[fd := old(streams[fd]).(offset := old(streams[fd]).offset + length)]
      ensures buf[..length] == ReadBase(disk[..], Sec(disk[..], LocINode(old(streams[fd]).inode)), old(streams[fd]).offset, length)
      ensures buf[length..] == old(buf[length..])
    {
      hide Sec, ReadPart, LocINode, ReadRest;
      ghost var f := streams[fd];
      inode := ReadSect(LocINode(streams[fd].inode));
      var len: nat := length;
      var r := InBlock(streams[fd].offset);
      if r + len > BLOCK {
        NextBlock(streams[fd].offset);
        ReadPiece(fd, buf, 0, BLOCK - r);
        TailSame(buf[..], old(buf[..]), BLOCK - r, length);
        var offset := BLOCK - r;
        len := len - (BLOCK - r);
        ghost var start, rest, head := f.offset + (BLOCK - r), len, buf[..offset];
        ReadBlocks(fd, buf, offset, len);
        assert buf[..length] == head + ReadRest(disk[..], inode, start, rest);
      } else {
        ReadPiece(fd, buf, 0, len);
      }
    }

    /** The loop over whole blocks, and the block after it. */
    method ReadBlocks(fd: int, buf: array<Byte>, at: nat, length: nat)
      requires Valid() && 0 <= fd < streams.Length && at + length <= buf.Length
      requires InBlock(streams[fd].offset) == 0 && streams[fd].offset + length < TWO_32
      modifies this`buffer, streams, buf
      ensures streams[..] == old(streams[..])[fd := old(streams[fd]).(offset := old(streams[fd]).offset + length)]
      ensures buf[..at + length] == old(buf[..at]) + ReadRest(disk[..], inode, old(streams[fd]).offset, length)
      ensures buf[at + length..] == old(buf[at + length..])
    {
      hide Sec, ReadPart;
      ghost var f, head := streams[fd], buf[..at];
      ghost var D := disk[..];
      var offset: nat, len: nat := at, length;
      while len >= BLOCK
        invariant 0 <= len && offset + len == at + length
        invariant streams[..] == old(streams[..])[fd := f.(offset := f.offset + (offset - at))]
        invariant InBlock(streams[fd].offset) == 0 && streams[fd].offset + len < TWO_32
        invariant buf[at + length..] == old(buf[at + length..])
        invariant head + ReadRest(D, inode, f.offset, length) == buf[..offset] + ReadRest(D, inode, streams[fd].offset, len)
      {
        ghost var before, now, was := buf[..], buf[..offset], streams[fd].offset;
        ReadPiece(fd, buf, offset, BLOCK);
        TailSame(buf[..], before, offset + BLOCK, at + length);
        assert InBlock(was + BLOCK) == 0;
        assert ReadRest(D, inode, was, len) == ReadPart(D, inode, was, BLOCK) + ReadRest(D, inode, was + BLOCK, len - BLOCK);
        Regroup(now, ReadPart(D, inode, was, BLOCK), ReadRest(D, inode, was + BLOCK, len - BLOCK));
        len := len - BLOCK;
        offset := offset + BLOCK;
      }
      ReadPiece(fd, buf, offset, len);
    }

    method FsRead(fd: int, buf: array<Byte>, length: nat) returns (n: int)
      requires Valid() && 0 <= fd < streams.Length && length <= buf.Length
      requires streams[fd].offset <= streams[fd].size && streams[fd].offset + length < TWO_32
      modifies this`inode, this`buffer, streams, buf
      ensures var out := FileSpec.FsRead(old(View()), fd, length);
              View() == out.0 && n == out.1 && |out.2| <= length
              && buf[..|out.2|] == out.2 && buf[|out.2|..] == old(buf[|out.2|..])
    {
      hide Sec, ReadBase, LocINode;
      ghost var fs := View();
      var len := length;
      if streams[fd].offset + len >= streams[fd].size {
        len := streams[fd].size - streams[fd].offset;
      }
      if len == 0 {
        return -1;
      }
      FsReadBase(fd, buf, len);
      assert |ReadBase(fs.disk, Sec(fs.disk, LocINode(fs.streams[fd].inode)), fs.streams[fd].offset, len)| == len;
      return len;
    }

    // ---- fs_write_base_kr, fs_write_kr

    /** readData, memcpy2 and saveData of n bytes from buf + at, at the stream's position. */
    method WritePiece(fd: int, buf: array<Byte>, at: nat, n: nat)
      requires Valid() && 0 <= fd < streams.Length && at + n <= buf.Length
      requires InBlock(streams[fd].offset) + n <= BLOCK && streams[fd].offset + n < TWO_32
      modifies this`buffer, streams, disk
      ensures streams[..] == old(streams[..])[fd := old(streams[fd]).(offset := old(streams[fd]).offset + n)]
      ensures disk[..] == WritePart(old(disk[..]), inode, old(streams[fd]).offset, buf[at..at + n])
    {
      hide Sec, LocData, WordAt;
      var off := streams[fd].offset;
      var d, r := BlockNo(off), InBlock(off);
      buffer := ReadSect(LocData(WordAt(inode, d)));
      buffer := buffer[..r] + buf[at..at + n] + buffer[r + n..];
      WriteSect(LocData(WordAt(inode, d)), buffer);
      streams[fd] := streams[fd].(offset := off + n);
    }

    /** A whole block goes out without being read first. */
    method WriteWhole(fd: int, buf: array<Byte>, at: nat)
      requires Valid() && 0 <= fd < streams.Length && at + BLOCK <= buf.Length
      requires InBlock(streams[fd].offset) == 0 && streams[fd].offset + BLOCK < TWO_32
      modifies this`buffer, streams, disk
      ensures streams[..] == old(streams[..])[fd := old(streams[fd]).(offset := old(streams[fd]).offset + BLOCK)]
      ensures disk[..] == WritePart(old(disk[..]), inode, old(streams[fd]).offset, buf[at..at + BLOCK])
    {
      hide LocData, WordAt;
      var off := streams[fd].offset;
      buffer := buf[at..at + BLOCK];
      ghost var s := Sec(disk[..], BlockOf(inode, off));
      assert s[..0] + buf[at..at + BLOCK] + s[BLOCK..] == buffer;
      WriteSect(LocData(WordAt(inode, BlockNo(off))), buffer);
      streams[fd] := streams[fd].(offset := off + BLOCK);
    }

    method FsWriteBase(fd: int, buf: array<Byte>, length: nat)
      requires Valid() && 0 <= fd < streams.Length && length <= buf.Length
      requires streams[fd].offset + length < TWO_32
      modifies this`inode, this`buffer, streams, disk
      ensures streams[..] == old(streams[..])[fd := old(streams[fd]).(offset := old(streams[fd]).offset + length)]
      ensures disk[..] == WriteBase(old(disk[..]), Sec(old(disk[..]), LocINode(old(streams[fd]).inode)), old(streams[fd]).offset, buf[..length])
    {
      hide Sec, WritePart, LocINode, WriteRest;
      ghost var f, all := streams[fd], buf[..length];
      inode := ReadSect(LocINode(streams[fd].inode));
      var len: nat := length;
      var r := InBlock(streams[fd].offset);
      if r + len > BLOCK {
        NextBlock(streams[fd].offset);
        WritePiece(fd, buf, 0, BLOCK - r);
        var offset := BLOCK - r;
        len := len - (BLOCK - r);
        assert buf[0..offset] == all[..offset];
        assert buf[offset..offset + len] == all[offset..];
        WriteBlocks(fd, buf, offset, len);
      } else {
        assert buf[0..0 + len] == all;
        WritePiece(fd, buf, 0, len);
      }
    }

    /** The loop over whole blocks, and the block after it. */
    method WriteBlocks(fd: int, buf: array<Byte>, at: nat, length: nat)
      requires Valid() && 0 <= fd < streams.Length && at + length <= buf.Length
      requires InBlock(streams[fd].offset) == 0 && streams[fd].offset + length < TWO_32
      modifies this`buffer, streams, disk
      ensures streams[..] == old(streams[..])[fd := old(streams[fd]).(offset := old(streams[fd]).offset + length)]
      ensures disk[..] == WriteRest(old(disk[..]), inode, old(streams[fd]).offset, buf[at..at + length])
    {
      hide Sec, WritePart;
      ghost var f := streams[fd];
      ghost var D := disk[..];
      var offset: nat, len: nat := at, length;
      while len >= BLOCK
        invariant 0 <= len && offset + len == at + length
        invariant streams[..] == old(streams[..])[fd := f.(offset := f.offset + (offset - at))]
        invariant InBlock(streams[fd].offset) == 0 && streams[fd].offset + len < TWO_32
        invariant WriteRest(D, inode, f.offset, buf[at..at + length]) == WriteRest(disk[..], inode, streams[fd].offset, buf[offset..offset + len])
      {
        ghost var bytes := buf[offset..offset + len];
        assert bytes[..BLOCK] == buf[offset..offset + BLOCK];
        assert bytes[BLOCK..] == buf[offset + BLOCK..offset + len];
        assert InBlock(streams[fd].offset + BLOCK) == 0;
        WriteWhole(fd, buf, offset);
        len := len - BLOCK;
        offset := offset + BLOCK;
      }
      WritePiece(fd, buf, offset, len);
    }

    /** New blocks for the slots first..last of the stream's inode. */
    method GrowSlots(fd: int, first: nat, last: int)
      requires Valid() && 0 <= fd < streams.Length && last < NR_BLOCKS
      modifies this`inode, disk, bitmap
      ensures disk[..] == GrowFile(old(disk[..]), streams[fd].inode, first, last)
    {
      hide Sec, LocINode, SetWord, FileSpec.DataAlloc;
      inode := ReadSect(LocINode(streams[fd].inode));
      ghost var D, I := disk[..], inode;
      var d := first;
      while d <= last
        invariant Grow(disk[..], inode, d, last) == Grow(D, I, first, last)
        decreases last - d
      {
        var b := DataAlloc();
        inode := SetWord(inode, d, Wrap(b));
        d := d + 1;
      }
      WriteSect(LocINode(streams[fd].inode), inode);
    }

    method TakeFirstBlock(fd: int, length: nat)
      requires Valid() && 0 <= fd < streams.Length
      modifies this`inode, streams, disk, bitmap
      ensures View() == FirstBlock(old(View()), fd, length)
    {
      hide Sec, GrowFile;
      if streams[fd].size == 0 {
        GrowSlots(fd, 0, 0);
        streams[fd] := streams[fd].(size := if length > BLOCK then BLOCK else length);
      }
    }

    method TakeLaterBlocks(fd: int, length: nat)
      requires Valid() && 0 <= fd < streams.Length && BlockNo(streams[fd].offset + length) < NR_BLOCKS
      modifies this`inode, streams, disk, bitmap
      ensures View() == Extend(old(View()), fd, length)
    {
      hide Sec, GrowFile;
      var f := streams[fd];
      if f.offset + length > f.size {
        GrowSlots(fd, BlockNo(f.offset) + 1, BlockNo(f.offset + length));
        streams[fd] := f.(size := f.offset + length);
      }
    }

    method SaveSize(fd: int)
      requires Valid() && 0 <= fd < streams.Length
      modifies this`dir, disk
      ensures View() == StoreSize(old(View()), fd)
    {
      hide Sec, SetWord;
      var f := streams[fd];
      dir := ReadSect(LocDir(DirNo(f.entry)));
      dir := SetWord(dir, SizeWord(DirPos(f.entry)), f.size);
      WriteSect(LocDir(DirNo(f.entry)), dir);
    }

    method FsWrite(fd: int, buf: array<Byte>, length: nat) returns (n: int)
      requires Valid() && 0 <= fd < streams.Length && length <= buf.Length
      requires BlockNo(streams[fd].offset + length) < NR_BLOCKS
      modifies this`inode, this`dir, this`buffer, streams, disk, bitmap
      ensures View() == FileSpec.FsWrite(old(View()), fd, buf[..length]) && n == length
    {
      hide FirstBlock, Extend, StoreSize, WriteBase, Sec;
      StageOffsets(View(), fd, length);
      TakeFirstBlock(fd, length);
      TakeLaterBlocks(fd, length);
      SaveSize(fd);
      FsWriteBase(fd, buf, length);
      n := length;
    }

    // ---- names

    /** The search of fs_open_kr; the buffer is left at the entry found. */
    method FindEntry(name: seq<Byte>) returns (x: nat)
      requires |name| < LEN_FILENAME && 0 !in name
      modifies this`dir
      ensures x == FindName(disk[..], name, 0) <= ENTRIES
      ensures x < ENTRIES ==> dir == DirSec(disk[..], x)
    {
      hide Sec, NameMatches, SameName;
      var d := 0;
      while d < SC_DIR
        invariant 0 <= d <= SC_DIR && FindName(disk[..], name, 0) == FindName(disk[..], name, 16 * d)
      {
        dir := ReadSect(LocDir(d));
        var e := 0;
        while e < NR_ENTRIES
          invariant 0 <= e <= NR_ENTRIES && dir == Sec(disk[..], LocDir(d))
          invariant FindName(disk[..], name, 0) == FindName(disk[..], name, 16 * d + e)
        {
          EntryPlace(d, e);
          EntryMatches(disk[..], d, e, name);
          var same := SameAs(dir, e, name);
          if same {
            return 16 * d + e;
          }
          e := e + 1;
        }
        d := d + 1;
      }
      return ENTRIES;
    }

    /** The search of fs_create_kr. */
    method FindFreeEntry() returns (x: nat)
      modifies this`dir
      ensures x == FindFree(disk[..], 0) <= ENTRIES
      ensures x < ENTRIES ==> dir == DirSec(disk[..], x)
    {
      hide Sec, WordAt;
      var d := 0;
      while d < SC_DIR
        invariant 0 <= d <= SC_DIR && FindFree(disk[..], 0) == FindFree(disk[..], 16 * d)
      {
        dir := ReadSect(LocDir(d));
        var e := 0;
        while e < NR_ENTRIES
          invariant 0 <= e <= NR_ENTRIES && dir == Sec(disk[..], LocDir(d))
          invariant FindFree(disk[..], 0) == FindFree(disk[..], 16 * d + e)
        {
          EntryPlace(d, e);
          if WordAt(dir, INodeWord(e)) == NO_BLOCK {
            return 16 * d + e;
          }
          e := e + 1;
        }
        d := d + 1;
      }
      return ENTRIES;
    }

    // ---- opening, creating, seeking, closing

    /** The search for an unused stream, filled from the entry in the directory buffer. */
    method UseStream(x: nat) returns (fd: int)
      requires Valid()
      modifies streams
      ensures (View(), fd) == Attach(old(View()), x, WordAt(dir, SizeWord(DirPos(x))), WordAt(dir, INodeWord(DirPos(x))))
    {
      hide WordAt;
      ghost var ss := streams[..];
      var i := 0;
      while i < NR_FILE_STREAM
        invariant 0 <= i <= NR_FILE_STREAM && streams[..] == ss
        invariant FreeStream(ss, 0) == FreeStream(ss, i)
      {
        if !streams[i].used {
          streams[i] := Stream(true, 0, WordAt(dir, SizeWord(DirPos(x))), WordAt(dir, INodeWord(DirPos(x))), x);
          return i;
        }
        i := i + 1;
      }
      return -1;
    }

    method FsOpen(name: seq<Byte>) returns (fd: int)
      requires Valid() && |name| < LEN_FILENAME && 0 !in name
      modifies this`dir, streams
      ensures (View(), fd) == FileSpec.FsOpen(old(View()), name)
    {
      hide Attach, WordAt, Sec;
      var x := FindEntry(name);
      if x == ENTRIES {
        return -1;
      }
      fd := UseStream(x);
    }

    method FsCreate(name: seq<Byte>) returns (fd: int)
      requires Valid() && |name| < LEN_FILENAME && 0 !in name
      modifies this`inode, this`dir, streams, disk, bitmap
      ensures (View(), fd) == FileSpec.FsCreate(old(View()), name)
    {
      hide Attach, WordAt, Sec, SetWord, PutName, FullSector, FileSpec.INodeAlloc;
      ghost var fs := View();
      var x := FindFreeEntry();
      if x == ENTRIES {
        return -1;
      }
      var e := DirPos(x);
      var index := INodeAlloc();
      ghost var disk1 := disk[..];
      AllocKeepsDirs(fs.disk, x);
      dir := SetWord(dir, INodeWord(e), Wrap(index));
      dir := PutName(dir, e, name);
      dir := SetWord(dir, SizeWord(e), 0);
      WriteSect(LocDir(DirNo(x)), dir);
      inode := FullSector();
      WriteSect(LocINode(index), inode);
      assert disk[..] == CreateOnDisk(fs.disk, x, name);
      EntryWords(DirSec(disk1, x), e, name, 0, Wrap(index));
      fd := UseStream(x);
    }

    /** fs_open_md.  A file that is to be emptied must get a stream: with none left, or no
        place in the directory, the kernel would write before its table of streams. */
    method OpenMd(name: seq<Byte>, flags: int) returns (fd: int)
      requires Valid() && |name| < LEN_FILENAME && 0 !in name
      modifies this`inode, this`dir, streams, disk, bitmap
      ensures (View(), fd) == FileSpec.OpenMd(old(View()), name, flags)
    {
      hide FileSpec.FsOpen, FileSpec.FsCreate;
      fd := FsOpen(name);
      if fd == -1 && flags >= 1 {
        fd := FsCreate(name);
      }
      if flags == 2 && 0 <= fd < streams.Length {
        streams[fd] := streams[fd].(size := 0);
      }
    }

    method LseekMd(fd: int, offset: int, whence: int) returns (index: int)
      requires Valid() && 0 <= fd < streams.Length
      modifies streams
      ensures (View(), index) == FileSpec.LseekMd(old(View()), fd, offset, whence)
    {
      index := 0;
      if whence == 0 {
        index := offset;
      } else if whence == 1 {
        index := Wrap(streams[fd].offset + offset);
      } else if whence == 2 {
        index := Wrap(streams[fd].size + offset);
      }
      streams[fd] := streams[fd].(offset := Wrap(index));
    }

    method FsClose(fd: int) returns (r: int)
      requires Valid() && 0 <= fd < streams.Length
      modifies streams
      ensures View() == FileSpec.FsClose(old(View()), fd) && r == if old(streams[fd].used) then 0 else 1
    {
      if streams[fd].used {
        streams[fd] := streams[fd].(used := false);
        r := 0;
      } else {
        r := 1;
      }
    }

    // ---- cshell/src/main.c: the copy loop of `cat src > dst`

    /** Each write has to end inside the inode of the target, as everywhere. */
    method CopyLoop(src: int, dst: int)
      requires Valid() && 0 <= src < streams.Length && 0 <= dst < streams.Length && src != dst
      requires InsideFile(streams[src])
      requires streams[dst].offset + (streams[src].size - streams[src].offset) < NR_BLOCKS * BLOCK
      modifies this`inode, this`dir, this`buffer, streams, disk, bitmap
      ensures View() == Cat(old(View()), src, dst)
    {
      hide FileSpec.FsWrite, ReadBase, Sec;
      var buf := new Byte[CHUNK](_ => 0);
      var l := FsRead(src, buf, CHUNK);
      ReadMoves(old(View()), src, dst);
      while l != -1
        invariant l == -1 || 0 < l <= CHUNK
        invariant InsideFile(streams[src])
        invariant l == -1 ==> View() == Cat(old(View()), src, dst)
        invariant l != -1 ==> streams[dst].offset + l + (streams[src].size - streams[src].offset) < NR_BLOCKS * BLOCK
        invariant l != -1 ==> var fs2 := FileSpec.FsWrite(View(), dst, buf[..l]);
                              InsideFile(StreamAt(fs2, src)) && Cat(fs2, src, dst) == Cat(old(View()), src, dst)
        decreases if l == -1 then 0 else 1 + streams[src].size - streams[src].offset
      {
        ghost var fs1 := View();
        WriteMoves(fs1, dst, buf[..l], src);
        var n := FsWrite(dst, buf, l);
        ReadMoves(View(), src, dst);
        l := FsRead(src, buf, CHUNK);
      }
    }
  }

  /** SameName, on a directory sector. */
  predicate NameMatches(s: Sector, e: nat, name: seq<Byte>)
    requires e < NR_ENTRIES
  {
    |name| < LEN_FILENAME && s[32 * e..32 * e + LEN_FILENAME][..|name| + 1] == name + [0]
  }

  lemma EntryMatches(disk: seq<Sector>, d: nat, e: nat, name: seq<Byte>)
    requires e < NR_ENTRIES
    ensures SameName(disk, 16 * d + e, name) == NameMatches(Sec(disk, LocDir(d)), e, name)
  {
    hide Sec;
    EntryPlace(d, e);
  }

  lemma EntryPlace(d: nat, e: nat)
    requires e < NR_ENTRIES
    ensures DirNo(16 * d + e) == d && DirPos(16 * d + e) == e
  {
  }

  /** Allocating an inode leaves the directory alone, whether or not there is one. */
  lemma AllocKeepsDirs(disk: seq<Sector>, x: nat)
    requires x < ENTRIES
    ensures DirSec(FileSpec.INodeAlloc(disk, KERNEL_STRIDE).0, x) == DirSec(disk, x)
  {
    hide Sec, Mark, Bit;
    FirstClearFinds(disk, KERNEL_STRIDE, 513, SC_INODE, 0);
    var i := FirstClear(disk, KERNEL_STRIDE, 513, SC_INODE, 0);
    if i < SC_INODE {
      assert SliceNo(513 + i) == 0;
      MarkElsewhere(disk, KERNEL_STRIDE, 513 + i, LocDir(DirNo(x)));
    }
  }

  lemma EntryWords(s: Sector, e: int, name: seq<Byte>, size: U32, ino: U32)
    requires 0 <= e < NR_ENTRIES && |name| < LEN_FILENAME
    ensures WordAt(EntrySector(s, e, name, size, ino), INodeWord(e)) == ino
    ensures WordAt(EntrySector(s, e, name, size, ino), SizeWord(e)) == size
  {
    hide WordAt, EntrySector;
    PutEntrySector(s, e, name, size, ino, e);
  }

  /** One read of the copy loop, and what is left of the copy after it. */
  lemma ReadMoves(fs: Fs, src: int, dst: int)
    requires src != dst && InsideFile(StreamAt(fs, src)) && 0 <= src < |fs.streams|
    ensures var (fs1, n, data) := FileSpec.FsRead(fs, src, CHUNK);
            var f, f1 := StreamAt(fs, src), StreamAt(fs1, src);
            && (n == -1 || (0 < n <= CHUNK && |data| == n)) && |fs1.streams| == |fs.streams|
            && f1 == f.(offset := f.offset + if n == -1 then 0 else n) && InsideFile(f1)
            && StreamAt(fs1, dst) == StreamAt(fs, dst)
            && (n == -1 ==> Cat(fs, src, dst) == fs1)
            && (n != -1 ==> var fs2 := FileSpec.FsWrite(fs1, dst, data);
                            InsideFile(StreamAt(fs2, src)) && Cat(fs, src, dst) == Cat(fs2, src, dst))
  {
    hide FileSpec.FsWrite, ReadBase, Sec;
    ReadAdvances(fs, src, dst);
    var f := StreamAt(fs, src);
    var n := ReadLen(f, CHUNK);
    if n > 0 {
      FileBytes.ReadBaseBytes(fs.disk, Sec(fs.disk, LocINode(f.inode)), f.offset, n);
    }
  }

  /** One write of the copy loop moves the target's stream by what it wrote, and no other. */
  lemma WriteMoves(fs: Fs, fd: int, buf: seq<Byte>, i: int)
    requires 0 <= fd < |fs.streams| && i != fd && fs.streams[fd].offset + |buf| < TWO_32
    ensures var fs' := FileSpec.FsWrite(fs, fd, buf);
            |fs'.streams| == |fs.streams| && StreamAt(fs', i) == StreamAt(fs, i)
            && StreamAt(fs', fd).offset == fs.streams[fd].offset + |buf|
  {
    hide GrowFile, SetSize, WriteBase;
  }

  /** No stage before the last one moves the stream. */
  lemma StageOffsets(fs: Fs, fd: int, length: nat)
    requires 0 <= fd < |fs.streams|
    ensures var fs1 := FirstBlock(fs, fd, length);
            var fs2 := Extend(fs1, fd, length);
            && |fs1.streams| == |fs.streams| && |fs2.streams| == |fs.streams|
            && fs1.streams[fd].offset == fs.streams[fd].offset && fs2.streams[fd].offset == fs.streams[fd].offset
            && StoreSize(fs2, fd).streams == fs2.streams
  {
    hide GrowFile;
  }

  lemma TailSame(a: seq<Byte>, b: seq<Byte>, i: nat, j: nat)
    requires |a| == |b| && i <= j <= |a| && a[i..] == b[i..]
    ensures a[j..] == b[j..]
  {
    assert a[j..] == a[i..][j - i..];
    assert b[j..] == b[i..][j - i..];
  }

  lemma Regroup(a: seq<Byte>, b: seq<Byte>, c: seq<Byte>)
    ensures a + (b + c) == (a + b) + c
  {
  }
}
