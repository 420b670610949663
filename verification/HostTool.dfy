/** fmt/copy2myfs.c and readseg of inc/disk.h step by step. */
module HostTool {
  import opened DiskFormat
  import opened FileSpec
  import opened DiskSteps
  import FileServer
  import FileBoot

  lemma MaskSlice(bits: seq<Sector>, sec: nat)
    requires |bits| == BITS && sec < 4096 * SC_BITMAP
    ensures 0 <= SliceNo(sec) < SC_BITMAP && bits[1..][SliceNo(sec)] == Slice(bits, HOST_STRIDE, sec)
  {
    assert 0 <= SliceNo(sec) < SC_BITMAP;
  }

  class CopyTool {
    const disk: array<Sector>     // disk.bin
    const bitmap: array<Sector>   // bitmap.mask, as slices of one sector
    var inode: Sector
    var dir: Sector
    var buffer: Sector

    /** The drive has at least its system area. */
    ghost predicate Valid() { disk != bitmap && bitmap.Length == SC_BITMAP && disk.Length >= BITS }

    /** The bitmap in memory, behind the boot sector. */
    ghost function Bits(): seq<Sector>
      requires Valid()
      reads disk, bitmap
    {
      [disk[0]] + bitmap[..]
    }

    constructor (drive: array<Sector>)
      requires drive.Length >= BITS
      ensures Valid() && disk == drive && fresh(bitmap)
    {
      disk := drive;
      bitmap := new Sector[SC_BITMAP](_ => ZeroSector());
      inode, dir, buffer := ZeroSector(), ZeroSector(), ZeroSector();
    }

    method WriteSect(i: int, s: Sector)
      modifies disk
      ensures disk[..] == Save(old(disk[..]), i, s)
    {
      if 0 <= i < disk.Length {
        disk[i] := s;
      }
    }

    method ReadBitmap()
      requires Valid()
      modifies bitmap
      ensures Bits() == BitsOf(disk[..])
    {
      var count := 0;
      while count < SC_BITMAP
        invariant 0 <= count <= SC_BITMAP && disk[..] == old(disk[..])
        invariant forall c :: 0 <= c < count ==> bitmap[c] == disk[1 + c]
      {
        bitmap[count] := disk[1 + count];
        count := count + 1;
      }
    }

    method SaveBitmap()
      requires Valid()
      modifies disk
      ensures disk[..] == SaveBits(old(disk[..]), old(Bits()))
    {
      var count := 0;
      while count < SC_BITMAP
        invariant 0 <= count <= SC_BITMAP && bitmap[..] == old(bitmap[..])
        invariant forall i :: 0 <= i < disk.Length ==> disk[i] == if 1 <= i < 1 + count then bitmap[i - 1] else old(disk[i])
      {
        disk[1 + count] := bitmap[count];
        count := count + 1;
      }
    }

    /** The scan of INodeAlloc (base 513) and dataAlloc (base 769), in memory only. */
    method Scan(base: nat, n: nat) returns (r: int)
      requires Valid() && base + n <= 4096 * SC_BITMAP
      modifies bitmap
      ensures (Bits(), r) == Alloc(old(Bits()), HOST_STRIDE, base, n)
    {
      hide Sec, HasBit, MarkSlice;
      ghost var B := Bits();
      var i := 0;
      while i < n
        invariant 0 <= i <= n && Bits() == B
        invariant FirstClear(B, HOST_STRIDE, base, n, 0) == FirstClear(B, HOST_STRIDE, base, n, i)
      {
        var sec := base + i;
        MaskSlice(B, sec);
        var slice := SliceNo(sec);
        assert bitmap[slice] == B[1..][slice];
        if !HasBit(bitmap[slice][sec / 8 % 512], sec % 8) {
          bitmap[slice] := MarkSlice(bitmap[slice], sec);
          assert Bits() == B[1 + slice := bitmap[slice]];
          return i;
        }
        i := i + 1;
      }
      return -1;
    }

    method FindEntry(name: seq<Byte>) returns (x: nat)
      requires Valid() && disk.Length >= 513 && |name| < LEN_FILENAME && 0 !in name
      modifies this`dir
      ensures x == HostFind(disk[..], name, 0) <= ENTRIES
      ensures x < ENTRIES ==> dir == DirSec(disk[..], x)
    {
      hide FileServer.NameMatches, SameName, WordAt;
      var d := 0;
      while d < SC_DIR
        invariant 0 <= d <= SC_DIR && HostFind(disk[..], name, 0) == HostFind(disk[..], name, 16 * d)
      {
        dir := disk[LocDir(d)];
        var e := 0;
        while e < NR_ENTRIES
          invariant 0 <= e <= NR_ENTRIES && dir == Sec(disk[..], LocDir(d))
          invariant HostFind(disk[..], name, 0) == HostFind(disk[..], name, 16 * d + e)
        {
          FileServer.EntryPlace(d, e);
          FileServer.EntryMatches(disk[..], d, e, name);
          var same := FileServer.SameAs(dir, e, name);
          if same {
            return 16 * d + e;
          }
          if WordAt(dir, INodeWord(e)) == NO_BLOCK {
            return 16 * d + e;
          }
          e := e + 1;
        }
        d := d + 1;
      }
      return ENTRIES;
    }

    /** One turn of the copy loop: fread, zero fill, dataAlloc, write, slot. */
    method CopyBlock(file: seq<Byte>, offset: nat)
      requires Valid() && offset < |file|
      modifies this`inode, this`buffer, disk, bitmap
      ensures var out := DataAlloc(old(Bits()), HOST_STRIDE);
              Bits() == out.0 && disk[..] == Save(old(disk[..]), LocData(out.1), Chunk(file, offset))
              && inode == SetWord(old(inode), BlockNo(offset), Wrap(out.1))
    {
      hide Sec, DataAlloc;
      var read := if offset + BLOCK <= |file| then BLOCK else |file| - offset;
      buffer := file[offset..offset + read] + buffer[read..];
      if read != BLOCK {
        buffer := buffer[..read] + ZeroSector()[read..];
      }
      assert buffer == Chunk(file, offset);
      var index := ScanData();
      ghost var boot := disk[0];
      LocDataFar(index);
      WriteSect(LocData(index), buffer);
      assert disk[0] == boot;
      if BlockNo(offset) < NR_BLOCKS {
        inode := SetWord(inode, BlockNo(offset), Wrap(index));
      }
    }

    method ScanData() returns (r: int)
      requires Valid()
      modifies bitmap
      ensures (Bits(), r) == DataAlloc(old(Bits()), HOST_STRIDE) && -1 <= r < SC_DATA
    {
      r := Scan(769, SC_DATA);
      FirstClearFinds(old(Bits()), HOST_STRIDE, 769, SC_DATA, 0);
    }

    /** main: the file `file` under the name `name`. */
    method CopyIn(name: seq<Byte>, file: seq<Byte>)
      requires Valid() && disk.Length >= 769 && |name| < LEN_FILENAME && 0 !in name
      requires HostFind(disk[..], name, 0) < ENTRIES
      modifies this, disk, bitmap
      ensures disk[..] == HostCopy(old(disk[..]), name, file)
    {
      hide Sec, HostFind, HostLoop, EntrySector, Alloc, SetWord, PutName;
      ghost var D := disk[..];
      var x := FindEntry(name);
      var e := DirPos(x);
      ReadBitmap();
      var index := Scan(513, SC_INODE);
      ghost var bits1 := Bits();
      inode := FullSector();
      CopyBlocks(file);
      ghost var out := HostLoop(D, bits1, FullSector(), file, 0);
      dir := EntryOf(dir, e, name, Wrap(|file|), Wrap(index));
      ghost var disk2 := disk[..];
      INodeLoc(BitsOf(D), index);
      WriteSect(LocINode(index), inode);
      SaveBitmap();
      WriteSect(LocDir(DirNo(x)), dir);
    }

    /** The copy loop, from the first block to the last. */
    method CopyBlocks(file: seq<Byte>)
      requires Valid()
      modifies this`inode, this`buffer, disk, bitmap
      ensures (disk[..], Bits(), inode) == HostLoop(old(disk[..]), old(Bits()), old(inode), file, 0)
    {
      hide Sec, DataAlloc, SetWord, Chunk;
      var offset := 0;
      while offset < |file|
        invariant 0 <= offset
        invariant HostLoop(disk[..], Bits(), inode, file, offset) == HostLoop(old(disk[..]), old(Bits()), old(inode), file, 0)
        decreases |file| - offset
      {
        CopyBlock(file, offset);
        offset := offset + BLOCK;
      }
    }
  }

  /** The three fields of a directory entry, stored one after the other. */
  method EntryOf(s: Sector, e: int, name: seq<Byte>, size: U32, ino: U32) returns (t: Sector)
    ensures t == EntrySector(s, e, name, size, ino)
  {
    t := SetWord(s, INodeWord(e), ino);
    t := PutName(t, e, name);
    t := SetWord(t, SizeWord(e), size);
  }

  lemma LocDataFar(index: int)
    requires -1 <= index < SC_DATA
    ensures LocData(index) > 0
  {
  }

  lemma INodeLoc(bits: seq<Sector>, index: int)
    requires index == INodeAlloc(bits, HOST_STRIDE).1
    ensures LocINode(index) > 0
  {
    hide Bit, Mark;
    FirstClearFinds(bits, HOST_STRIDE, 513, SC_INODE, 0);
  }

  /** readseg: whole sectors from pa - offset % 512 on, until `count` bytes are there. */
  method ReadSeg(disk: array<Sector>, mem: array<Byte>, pa: int, count: int, offset: nat)
    requires InBlock(offset) <= pa && pa + count + BLOCK <= mem.Length + 1
    modifies mem
    ensures mem[..] == FileBoot.ReadSeg(disk[..], old(mem[..]), pa, count, offset)
  {
    hide Sec;
    ghost var D := disk[..];
    var p, epa, sector := pa - InBlock(offset), pa + count, BlockNo(offset) + 1;
    while p < epa
      invariant 0 <= p
      invariant disk[..] == D
      invariant FileBoot.ReadLoop(D, mem[..], p, epa, sector) == FileBoot.ReadSeg(D, old(mem[..]), pa, count, offset)
      decreases epa - p
    {
      var s := if 0 <= sector < disk.Length then disk[sector] else ZeroSector();
      assert s == Sec(disk[..], sector) by { InDrive(disk[..], sector); }
      ghost var was := mem[..];
      forall k | 0 <= k < BLOCK { mem[p + k] := s[k]; }
      assert mem[..] == FileBoot.Store(was, p, s);
      assert FileBoot.ReadLoop(D, was, p, epa, sector) == FileBoot.ReadLoop(D, FileBoot.Store(was, p, s), p + BLOCK, epa, sector + 1);
      p, sector := p + BLOCK, sector + 1;
    }
  }

  lemma InDrive(disk: seq<Sector>, i: int)
    ensures Sec(disk, i) == if 0 <= i < |disk| then disk[i] else ZeroSector()
  {
  }
}
