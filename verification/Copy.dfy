/**
 Copying one descriptor to another against a kernel that transfers as little as it likes
 on each call and interrupts as often as it likes, as long as it stops doing so.
 */
module Copy {
  import opened IntBytes
  import opened Transfers

  /** `dest` with `bytes` laid over it from offset `pos` on. */
  function Patch(dest: seq<Byte>, pos: nat, bytes: seq<Byte>): seq<Byte>
    requires pos <= |dest|
  {
    dest[..pos] + bytes + (if |dest| <= pos + |bytes| then [] else dest[pos + |bytes|..])
  }

  /** `dest` with its beginning overwritten by `bytes`. */
  function Overlay(dest: seq<Byte>, bytes: seq<Byte>): seq<Byte>
  {
    if |dest| <= |bytes| then bytes else bytes + dest[|bytes|..]
  }

  /** Byte by byte: the new bytes at the offset, the old ones elsewhere. */
  ghost predicate Laid(dest: seq<Byte>, pos: nat, bytes: seq<Byte>, dest': seq<Byte>)
  {
    && |dest'| == (if |dest| < pos + |bytes| then pos + |bytes| else |dest|)
    && (forall b :: 0 <= b < |bytes| ==> dest'[pos + b] == bytes[b])
    && (forall b :: 0 <= b < |dest| && !(pos <= b < pos + |bytes|) ==> dest'[b] == dest[b])
  }

  lemma PatchIsLaid(dest: seq<Byte>, pos: nat, bytes: seq<Byte>)
    requires pos <= |dest|
    ensures Laid(dest, pos, bytes, Patch(dest, pos, bytes))
  {
  }

  lemma OverlayIsLaid(dest: seq<Byte>, bytes: seq<Byte>)
    ensures Laid(dest, 0, bytes, Overlay(dest, bytes))
  {
  }

  lemma OverlayGrows(dest: seq<Byte>, bytes: seq<Byte>, more: seq<Byte>)
    ensures |bytes| <= |Overlay(dest, bytes)|
    ensures Patch(Overlay(dest, bytes), |bytes|, more) == Overlay(dest, bytes + more)
  {
  }

  /** The two open files, with their offsets, and the calls made so far. */
  class Kernel {
    const source: seq<Byte>
    const decide: nat -> Decision
    ghost const horizon: nat
    var readPos: nat
    var dest: seq<Byte>
    var writePos: nat
    var calls: nat

    /** The offsets are within the files, and the interrupts come to an end some time. */
    ghost predicate Valid()
      reads this
    {
      && readPos <= |source| && writePos <= |dest|
      && forall c :: horizon <= c ==> !decide(c).Interrupt?
    }

    /** How many more interrupts there can be at most. */
    ghost function Patience(): nat
      reads this
    {
      if calls < horizon then horizon - calls else 0
    }

    constructor (source: seq<Byte>, dest: seq<Byte>, decide: nat -> Decision, ghost horizon: nat)
      requires forall c :: horizon <= c ==> !decide(c).Interrupt?
      ensures Valid() && this.source == source && this.dest == dest && readPos == writePos == 0
    {
      this.source, this.decide, this.horizon := source, decide, horizon;
      this.dest, readPos, writePos, calls := dest, 0, 0, 0;
    }

    /** `read(src_fd, buf + at, count)`; -1 stands for EINTR. */
    method Read(buf: array<Byte>, at: nat, count: nat) returns (ret: int)
      requires Valid() && count > 0 && at + count <= buf.Length
      modifies this`readPos, this`calls, buf
      ensures Valid() && -1 <= ret <= count
      ensures calls == old(calls) + 1 && (ret == -1 ==> Patience() < old(Patience()))
      ensures ret == 0 <==> ret != -1 && old(readPos) == |source|
      ensures ret == -1 ==> readPos == old(readPos) && buf[..] == old(buf[..])
      ensures ret >= 0 ==>
                && readPos == old(readPos) + ret
                && buf[..at] == old(buf[..at])
                && buf[at..at + ret] == source[old(readPos)..readPos]
    {
      var d := decide(calls);
      calls := calls + 1;
      if d.Interrupt? {
        return -1;
      }
      var left := |source| - readPos;
      var k := Granted(d.limit, if left < count then left else count);
      forall i | 0 <= i < k {
        buf[at + i] := source[readPos + i];
      }
      ghost var got := buf[at..at + k];
      assert forall i :: 0 <= i < k ==> got[i] == buf[at + i] == source[readPos + i];
      assert got == source[readPos..readPos + k];
      readPos := readPos + k;
      ret := k;
    }

    /** `write(dest_fd, buf + at, count)`; -1 stands for EINTR. */
    method Write(buf: array<Byte>, at: nat, count: nat) returns (ret: int)
      requires Valid() && count > 0 && at + count <= buf.Length
      modifies this`dest, this`writePos, this`calls
      ensures Valid() && (ret == -1 || 0 < ret <= count)
      ensures calls == old(calls) + 1 && (ret == -1 ==> Patience() < old(Patience()))
      ensures ret == -1 ==> writePos == old(writePos) && dest == old(dest)
      ensures ret > 0 ==>
                && writePos == old(writePos) + ret
                && dest == Patch(old(dest), old(writePos), buf[at..at + ret])
    {
      var d := decide(calls);
      calls := calls + 1;
      if d.Interrupt? {
        return -1;
      }
      var k := Granted(d.limit, count);
      dest := Patch(dest, writePos, buf[at..at + k]);
      writePos := writePos + k;
      ret := k;
    }
  }

  /** The inner loop that fills the buffer, up to the block size or the end of the source. */
  method FillBlock(fds: Kernel, buf: array<Byte>) returns (readBytes: nat)
    requires fds.Valid()
    modifies fds`readPos, fds`calls, buf
    ensures fds.Valid() && readBytes <= buf.Length && fds.readPos == old(fds.readPos) + readBytes
    ensures buf[..readBytes] == fds.source[old(fds.readPos)..fds.readPos]
    ensures readBytes < buf.Length ==> fds.readPos == |fds.source|
  {
    readBytes := 0;
    var bytesLeft: int := buf.Length;
    ghost var start := fds.readPos;
    while bytesLeft > 0
      invariant fds.Valid() && fds.readPos == start + readBytes
      invariant readBytes + bytesLeft == buf.Length && bytesLeft >= 0
      invariant buf[..readBytes] == fds.source[start..fds.readPos]
      decreases bytesLeft, fds.Patience()
    {
      ghost var before := fds.source[start..fds.readPos];
      var ret := fds.Read(buf, readBytes, bytesLeft);
      if ret == 0 {
        break;
      }
      if ret == -1 {
        continue;
      }
      assert buf[..readBytes] == before;
      assert buf[..readBytes + ret] == buf[..readBytes] + buf[readBytes..readBytes + ret];
      assert before + fds.source[start + readBytes..fds.readPos] == fds.source[start..fds.readPos];
      bytesLeft := bytesLeft - ret;
      readBytes := readBytes + ret;
    }
  }

  /** The inner loop that writes what the buffer holds. */
  method DrainBlock(fds: Kernel, buf: array<Byte>, readBytes: nat)
    requires fds.Valid() && readBytes <= buf.Length
    modifies fds`dest, fds`writePos, fds`calls
    ensures fds.Valid() && fds.writePos == old(fds.writePos) + readBytes
    ensures fds.dest == Patch(old(fds.dest), old(fds.writePos), buf[..readBytes])
  {
    var writtenBytes: int := 0;
    var bytesLeft: int := readBytes;
    ghost var start, dest := fds.writePos, fds.dest;
    assert Patch(dest, start, buf[..0]) == dest;
    while bytesLeft > 0
      invariant fds.Valid() && fds.writePos == start + writtenBytes
      invariant writtenBytes + bytesLeft == readBytes && writtenBytes >= 0 && bytesLeft >= 0
      invariant fds.dest == Patch(dest, start, buf[..writtenBytes])
      decreases bytesLeft, fds.Patience()
    {
      var ret := fds.Write(buf, writtenBytes, bytesLeft);
      if ret == -1 {
        continue;
      }
      PatchGrows(dest, start, buf[..writtenBytes], buf[writtenBytes..writtenBytes + ret]);
      assert buf[..writtenBytes] + buf[writtenBytes..writtenBytes + ret] == buf[..writtenBytes + ret];
      bytesLeft := bytesLeft - ret;
      writtenBytes := writtenBytes + ret;
    }
  }

  lemma PatchGrows(dest: seq<Byte>, pos: nat, bytes: seq<Byte>, more: seq<Byte>)
    requires pos <= |dest|
    ensures pos + |bytes| <= |Patch(dest, pos, bytes)|
    ensures Patch(Patch(dest, pos, bytes), pos + |bytes|, more) == Patch(dest, pos, bytes + more)
  {
  }

  /** The next bytes of the source, laid after those that are there. */
  lemma BlockCopied(dest: seq<Byte>, source: seq<Byte>, from: nat, to: nat)
    requires from <= to <= |source|
    ensures from <= |Overlay(dest, source[..from])|
    ensures Patch(Overlay(dest, source[..from]), from, source[from..to]) == Overlay(dest, source[..to])
  {
    OverlayGrows(dest, source[..from], source[from..to]);
    hide Overlay, Patch;
    assert source[..from] + source[from..to] == source[..to];
  }

  /** `performCopyBetweenDescriptors`. */
  method PerformCopy(fds: Kernel, blockSize: nat)
    requires fds.Valid() && fds.readPos == fds.writePos == 0 && blockSize > 0
    modifies fds
    ensures fds.dest == Overlay(old(fds.dest), fds.source)
    ensures Laid(old(fds.dest), 0, fds.source, fds.dest)
    ensures fds.readPos == fds.writePos == |fds.source|
  {
    var buf := new Byte[blockSize](i => 0);
    assert Overlay(fds.dest, fds.source[..0]) == fds.dest;
    hide Overlay, Patch, Laid;
    while true
      invariant fds.Valid() && fds.readPos == fds.writePos
      invariant fds.dest == Overlay(old(fds.dest), fds.source[..fds.writePos])
      decreases |fds.source| - fds.readPos
    {
      ghost var from := fds.writePos;
      var readBytes := FillBlock(fds, buf);
      if readBytes == 0 {
        break;
      }
      BlockCopied(old(fds.dest), fds.source, from, fds.readPos);
      DrainBlock(fds, buf, readBytes);
    }
    assert fds.source[..|fds.source|] == fds.source;
    OverlayIsLaid(old(fds.dest), fds.source);
  }

  /**
   The destination is opened without O_TRUNC, so the copy is exact if and only if the
   destination was not longer than the source; otherwise its old tail stays.
   */
  lemma ExactIffNotLonger(dest: seq<Byte>, source: seq<Byte>)
    ensures Overlay(dest, source) == source <==> |dest| <= |source|
    ensures |dest| > |source| ==> Overlay(dest, source)[|source|..] == dest[|source|..]
  {
  }
}
