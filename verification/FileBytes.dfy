/** A file as a flat sequence of bytes, and the block-splitting reads and writes as operations
    on that sequence. */
module FileBytes {
  import opened DiskFormat
  import opened FileSpec

  /** Byte k of the file whose inode sector this is. */
  function ByteAt(disk: seq<Sector>, inode: Sector, k: nat): Byte { Sec(disk, BlockOf(inode, k))[InBlock(k)] }

  /** The first n bytes. */
  function Content(disk: seq<Sector>, inode: Sector, n: nat): seq<Byte> {
    seq(n, k requires 0 <= k < n => ByteAt(disk, inode, k))
  }

  lemma ContentLen(disk: seq<Sector>, inode: Sector, n: nat)
    ensures |Content(disk, inode, n)| == n
    ensures forall k :: 0 <= k < n ==> Content(disk, inode, n)[k] == ByteAt(disk, inode, k)
  {
  }

  // ---- reads

  lemma ReadPartBytes(disk: seq<Sector>, inode: Sector, off: nat, len: nat)
    requires InBlock(off) + len <= BLOCK
    ensures |ReadPart(disk, inode, off, len)| == len
    ensures forall k :: off <= k < off + len ==> ReadPart(disk, inode, off, len)[k - off] == ByteAt(disk, inode, k)
  {
    hide Sec, LocData, WordAt;
    forall k | off <= k < off + len
      ensures ReadPart(disk, inode, off, len)[k - off] == ByteAt(disk, inode, k)
    {
      assert BlockNo(k) == BlockNo(off) && InBlock(k) == InBlock(off) + (k - off);
    }
  }

  lemma {:induction false} ReadRestBytes(disk: seq<Sector>, inode: Sector, off: nat, len: nat)
    requires InBlock(off) == 0
    decreases len
    ensures |ReadRest(disk, inode, off, len)| == len
    ensures forall k :: off <= k < off + len ==> ReadRest(disk, inode, off, len)[k - off] == ByteAt(disk, inode, k)
  {
    hide ByteAt, ReadPart;
    if len >= BLOCK {
      assert InBlock(off + BLOCK) == 0;
      ReadPartBytes(disk, inode, off, BLOCK);
      ReadRestBytes(disk, inode, off + BLOCK, len - BLOCK);
    } else {
      ReadPartBytes(disk, inode, off, len);
    }
  }

  /** A read of any length at any offset delivers the bytes of the flat file. */
  lemma ReadBaseBytes(disk: seq<Sector>, inode: Sector, off: nat, len: nat)
    ensures |ReadBase(disk, inode, off, len)| == len
    ensures forall k :: off <= k < off + len ==> ReadBase(disk, inode, off, len)[k - off] == ByteAt(disk, inode, k)
  {
    hide ByteAt, ReadPart, ReadRest;
    var r := InBlock(off);
    if r + len > BLOCK {
      NextBlock(off);
      ReadPartBytes(disk, inode, off, BLOCK - r);
      ReadRestBytes(disk, inode, off + (BLOCK - r), len - (BLOCK - r));
    } else {
      ReadPartBytes(disk, inode, off, len);
    }
  }

  // ---- writes

  /** The sector of slot j. */
  function SlotSec(inode: Sector, j: int): int { LocData(WordAt(inode, j)) }

  /** The blocks of slots d..last exist on the drive and are all different. */
  ghost predicate Separate(size: nat, inode: Sector, d: int, last: int) {
    (forall j :: d <= j <= last ==> 0 <= SlotSec(inode, j) < size)
    && (forall j, k :: d <= j < k <= last ==> SlotSec(inode, j) != SlotSec(inode, k))
  }

  ghost predicate Outside(inode: Sector, d: int, last: int, i: int) {
    forall j :: d <= j <= last ==> SlotSec(inode, j) != i
  }

  /** What a write of buf at off does to byte k of the file. */
  function Spliced(disk: seq<Sector>, inode: Sector, off: nat, buf: seq<Byte>, k: nat): Byte {
    if off <= k < off + |buf| then buf[k - off] else ByteAt(disk, inode, k)
  }

  /** A write changed the bytes of slots d..last as it should and no other sector. */
  ghost predicate Wrote(disk: seq<Sector>, disk': seq<Sector>, inode: Sector, off: nat, buf: seq<Byte>, d: int, last: int) {
    && |disk'| == |disk|
    && (forall i :: Outside(inode, d, last, i) ==> Sec(disk', i) == Sec(disk, i))
    && (forall k :: 0 <= k && d <= BlockNo(k) <= last ==> ByteAt(disk', inode, k) == Spliced(disk, inode, off, buf, k))
  }

  lemma WritePartWrote(disk: seq<Sector>, inode: Sector, off: nat, buf: seq<Byte>, d: int, last: int)
    requires InBlock(off) + |buf| <= BLOCK && d <= BlockNo(off) <= last && Separate(|disk|, inode, d, last)
    ensures Wrote(disk, WritePart(disk, inode, off, buf), inode, off, buf, d, last)
  {
    hide LocData, WordAt;
    var disk' := WritePart(disk, inode, off, buf);
    var t := BlockOf(inode, off);
    assert t == SlotSec(inode, BlockNo(off));
    var s := Sec(disk, t);
    var s' := s[..InBlock(off)] + buf + s[InBlock(off) + |buf|..];
    assert Sec(disk', t) == s';
    forall k | 0 <= k && d <= BlockNo(k) <= last
      ensures ByteAt(disk', inode, k) == Spliced(disk, inode, off, buf, k)
    {
      assert BlockOf(inode, k) == SlotSec(inode, BlockNo(k));
      if BlockNo(k) == BlockNo(off) {
        assert InBlock(k) - InBlock(off) == k - off;
      } else {
        assert off <= k ==> k >= off + |buf|;
      }
    }
  }

  /** Two writes one after the other are the write of both pieces. */
  lemma WroteThen(disk: seq<Sector>, disk1: seq<Sector>, disk2: seq<Sector>, inode: Sector,
                  off: nat, a: seq<Byte>, b: seq<Byte>, d: int, last: int)
    requires Wrote(disk, disk1, inode, off, a, d, last) && Wrote(disk1, disk2, inode, off + |a|, b, d, last)
    ensures Wrote(disk, disk2, inode, off, a + b, d, last)
  {
    hide ByteAt, Outside;
    forall k | 0 <= k && d <= BlockNo(k) <= last
      ensures ByteAt(disk2, inode, k) == Spliced(disk, inode, off, a + b, k)
    {
      assert ByteAt(disk2, inode, k) == Spliced(disk1, inode, off + |a|, b, k);
      assert ByteAt(disk1, inode, k) == Spliced(disk, inode, off, a, k);
    }
  }

  lemma {:induction false} WriteRestWrote(disk: seq<Sector>, inode: Sector, off: nat, buf: seq<Byte>, d: int, last: int)
    requires InBlock(off) == 0 && d <= BlockNo(off) && BlockNo(off + |buf|) <= last && Separate(|disk|, inode, d, last)
    decreases |buf|
    ensures Wrote(disk, WriteRest(disk, inode, off, buf), inode, off, buf, d, last)
  {
    hide Separate, WritePart, Wrote;
    if |buf| >= BLOCK {
      assert InBlock(off + BLOCK) == 0;
      var disk1 := WritePart(disk, inode, off, buf[..BLOCK]);
      WritePartWrote(disk, inode, off, buf[..BLOCK], d, last);
      assert |disk1| == |disk| by { WroteLen(disk, disk1, inode, off, buf[..BLOCK], d, last); }
      WriteRestWrote(disk1, inode, off + BLOCK, buf[BLOCK..], d, last);
      WroteThen(disk, disk1, WriteRest(disk1, inode, off + BLOCK, buf[BLOCK..]), inode, off, buf[..BLOCK], buf[BLOCK..], d, last);
      assert buf == buf[..BLOCK] + buf[BLOCK..];
    } else {
      WritePartWrote(disk, inode, off, buf, d, last);
    }
  }

  lemma WroteLen(disk: seq<Sector>, disk': seq<Sector>, inode: Sector, off: nat, buf: seq<Byte>, d: int, last: int)
    requires Wrote(disk, disk', inode, off, buf, d, last)
    ensures |disk'| == |disk|
  {
  }

  /** A write of any length at any offset splices its bytes into the flat file. */
  lemma WriteBaseWrote(disk: seq<Sector>, inode: Sector, off: nat, buf: seq<Byte>, d: int, last: int)
    requires d <= BlockNo(off) && BlockNo(off + |buf|) <= last && Separate(|disk|, inode, d, last)
    ensures Wrote(disk, WriteBase(disk, inode, off, buf), inode, off, buf, d, last)
  {
    hide Separate, WritePart, WriteRest, Wrote;
    var n := BLOCK - InBlock(off);
    if |buf| > n {
      NextBlock(off);
      var disk1 := WritePart(disk, inode, off, buf[..n]);
      WritePartWrote(disk, inode, off, buf[..n], d, last);
      assert |disk1| == |disk| by { WroteLen(disk, disk1, inode, off, buf[..n], d, last); }
      WriteRestWrote(disk1, inode, off + n, buf[n..], d, last);
      WroteThen(disk, disk1, WriteRest(disk1, inode, off + n, buf[n..]), inode, off, buf[..n], buf[n..], d, last);
      assert buf == buf[..n] + buf[n..];
    } else {
      WritePartWrote(disk, inode, off, buf, d, last);
    }
  }
}
