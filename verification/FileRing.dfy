/**
 The ring buffer kept in a file: `numElems` data cells, then the read index, then the
 write index, each an `int`. Every call opens the file, seeks, reads and overwrites cells.
 */
module FileRing {
  import opened Modular
  import opened IntBytes
  import opened Sequences

  // ---------------------------------------------------------------- cells of a file

  /** The `int` at byte `offset`. */
  function Get(data: seq<Byte>, offset: nat): Int32
    requires offset + SIZEOF_INT <= |data|
  {
    Decode(data[offset..offset + SIZEOF_INT])
  }

  /** The file with the `int` at byte `offset` overwritten. */
  function Put(data: seq<Byte>, offset: nat, v: Int32): (data': seq<Byte>)
    requires offset + SIZEOF_INT <= |data|
    ensures |data'| == |data|
  {
    data[..offset] + Encode(v) + data[offset + SIZEOF_INT..]
  }

  lemma GetPut(data: seq<Byte>, offset: nat, v: Int32)
    requires offset + SIZEOF_INT <= |data|
    ensures Get(Put(data, offset, v), offset) == v
  {
    assert Put(data, offset, v)[offset..offset + SIZEOF_INT] == Encode(v);
    DecodeEncode(v);
  }

  lemma GetPutOther(data: seq<Byte>, offset: nat, v: Int32, other: nat)
    requires offset + SIZEOF_INT <= |data| && other + SIZEOF_INT <= |data|
    requires other + SIZEOF_INT <= offset || offset + SIZEOF_INT <= other
    ensures Get(Put(data, offset, v), other) == Get(data, other)
  {
    assert Put(data, offset, v)[other..other + SIZEOF_INT] == data[other..other + SIZEOF_INT];
  }

  // ---------------------------------------------------------------- layout

  function Offset(cell: nat): nat
  {
    cell * SIZEOF_INT
  }

  function Cell(data: seq<Byte>, cell: nat): Int32
    requires Offset(cell + 1) <= |data|
  {
    Get(data, Offset(cell))
  }

  /** All offsets of the file are representable as an `int`, as the code computes them. */
  predicate Size(n: nat)
  {
    n >= 1 && Offset(n + 2) <= INT_MAX
  }

  /** The length and the two indices are as the calls leave them. */
  predicate WellFormed(data: seq<Byte>, n: nat)
  {
    && Size(n) && |data| == Offset(n + 2)
    && 0 <= Cell(data, n) < n && 0 <= Cell(data, n + 1) < n
  }

  function ReadIndex(data: seq<Byte>, n: nat): (r: nat)
    requires WellFormed(data, n)
    ensures r < n
  {
    Cell(data, n)
  }

  function WriteIndex(data: seq<Byte>, n: nat): (w: nat)
    requires WellFormed(data, n)
    ensures w < n
  {
    Cell(data, n + 1)
  }

  /** The file after `writeToBufferFile(value)`. */
  function Written(data: seq<Byte>, n: nat, value: Int32): seq<Byte>
    requires WellFormed(data, n)
  {
    var w := WriteIndex(data, n);
    Put(Put(data, Offset(w), value), Offset(n + 1), (w + 1) % n)
  }

  /** The file after `readFromBufferFile`, and what that returns. */
  function Consumed(data: seq<Byte>, n: nat): seq<Byte>
    requires WellFormed(data, n)
  {
    Put(data, Offset(n), (ReadIndex(data, n) + 1) % n)
  }

  function Oldest(data: seq<Byte>, n: nat): Int32
    requires WellFormed(data, n)
  {
    Cell(data, ReadIndex(data, n))
  }

  // ---------------------------------------------------------------- the calls

  /** A stdio stream on the file: its bytes and the position. */
  class Stream {
    var data: seq<Byte>
    var pos: nat

    /** `fopen` with mode "wb". */
    constructor Create()
      ensures data == [] && pos == 0
    {
      data, pos := [], 0;
    }

    method Seek(offset: nat)
      modifies this`pos
      ensures pos == offset
    {
      pos := offset;
    }

    /** `fread` of one `int`; `ok` when all of it was there. */
    method ReadInt() returns (ok: bool, v: Int32)
      modifies this`pos
      ensures ok == (old(pos) + SIZEOF_INT <= |data|)
      ensures ok ==> v == Get(data, old(pos)) && pos == old(pos) + SIZEOF_INT
    {
      ok, v := pos + SIZEOF_INT <= |data|, 0;
      if ok {
        v := Decode(data[pos..pos + SIZEOF_INT]);
        pos := pos + SIZEOF_INT;
      }
    }

    /** `fwrite` of one `int` at the end of the file or over what is there. */
    method WriteInt(v: Int32)
      requires pos == |data| || pos + SIZEOF_INT <= |data|
      modifies this
      ensures pos == old(pos) + SIZEOF_INT
      ensures data == if old(pos) == |old(data)| then old(data) + Encode(v) else Put(old(data), old(pos), v)
    {
      data := if pos == |data| then data + Encode(v) else Put(data, pos, v);
      pos := pos + SIZEOF_INT;
    }
  }

  /** `cells` cells, and every byte of them zero. */
  ghost predicate Zeroes(data: seq<Byte>, cells: nat)
  {
    |data| == 4 * cells && forall b :: 0 <= b < |data| ==> data[b] == 0
  }

  lemma ZeroBytes()
    ensures Encode(0) == [0, 0, 0, 0]
  {
  }

  lemma OneMoreZero(data: seq<Byte>, cells: nat)
    requires Zeroes(data, cells)
    ensures Zeroes(data + Encode(0), cells + 1)
  {
    ZeroBytes();
    hide Encode;
  }

  lemma ZeroesAreEmpty(data: seq<Byte>, n: nat)
    requires Size(n) && Zeroes(data, n + 2)
    ensures Represents(data, n, [])
  {
    ZeroBytes();
    DecodeEncode(0);
    assert data[Offset(n)..Offset(n) + SIZEOF_INT] == [0, 0, 0, 0];
    assert data[Offset(n + 1)..Offset(n + 1) + SIZEOF_INT] == [0, 0, 0, 0];
    hide Encode, Decode;
    Remainder(0, n, 0, 0);
  }

  /** How many cells `initFile` writes: none if `numElems + 2` is negative. */
  function Cells(numElems: Int32): nat
  {
    if numElems + 2 < 0 then 0 else numElems + 2
  }

  /** `initFile`: `numElems + 2` zeroes, for every `numElems` to which 2 can be added. */
  method InitFile(numElems: Int32) returns (fp: Stream)
    requires numElems + 2 <= INT_MAX
    ensures fresh(fp) && |fp.data| == 4 * Cells(numElems)
    ensures forall b :: 0 <= b < |fp.data| ==> fp.data[b] == 0
    ensures numElems >= 1 && Size(numElems) ==> Represents(fp.data, numElems, [])
  {
    hide Zeroes, Represents, Encode, Decode;
    fp := new Stream.Create();
    assert Zeroes(fp.data, 0) by { NoZeroes(); }
    var i: int := 0;
    while i < numElems + 2
      invariant 0 <= i <= Cells(numElems)
      invariant fp.pos == |fp.data| && Zeroes(fp.data, i)
    {
      OneMoreZero(fp.data, i);
      fp.WriteInt(0);
      i := i + 1;
    }
    if numElems >= 1 && Size(numElems) {
      ZeroesAreEmpty(fp.data, numElems);
    }
    ZeroesInBytes(fp.data, i);
  }

  lemma ZeroesInBytes(data: seq<Byte>, cells: nat)
    requires Zeroes(data, cells)
    ensures |data| == 4 * cells && forall b :: 0 <= b < |data| ==> data[b] == 0
  {
  }

  lemma NoZeroes()
    ensures Zeroes([], 0)
  {
  }

  /** `writeToBufferFile` on an open stream. */
  method WriteToBufferFile(value: Int32, numElems: nat, fp: Stream)
    requires WellFormed(fp.data, numElems)
    modifies fp
    ensures fp.data == Written(old(fp.data), numElems, value)
  {
    hide Encode, Decode, Put, Get;
    var windexOffset := Offset(numElems + 1);
    fp.Seek(windexOffset);
    var ok, writeIndex := fp.ReadInt();
    assert ok;
    var elementOffset := Offset(writeIndex);
    fp.Seek(elementOffset);
    fp.WriteInt(value);
    writeIndex := (writeIndex + 1) % numElems;
    fp.Seek(windexOffset);
    fp.WriteInt(writeIndex);
  }

  /** `readFromBufferFile` on an open stream. */
  method ReadFromBufferFile(numElems: nat, fp: Stream) returns (value: Int32)
    requires WellFormed(fp.data, numElems)
    modifies fp
    ensures value == Oldest(old(fp.data), numElems)
    ensures fp.data == Consumed(old(fp.data), numElems)
  {
    hide Encode, Decode, Put, Get;
    var rindexOffset := Offset(numElems);
    fp.Seek(rindexOffset);
    var ok, readIndex := fp.ReadInt();
    assert ok;
    var elementOffset := Offset(readIndex);
    fp.Seek(elementOffset);
    ok, value := fp.ReadInt();
    assert ok;
    readIndex := (readIndex + 1) % numElems;
    fp.Seek(rindexOffset);
    fp.WriteInt(readIndex);
  }

  // ---------------------------------------------------------------- bytes

  /** Where things are in the file, counted in bytes. */
  lemma Layout(data: seq<Byte>, n: nat, c: nat)
    requires WellFormed(data, n) && c < n
    ensures |data| == 4 * n + 8
    ensures Cell(data, c) == Decode(data[4 * c..4 * c + 4])
    ensures ReadIndex(data, n) == Decode(data[4 * n..4 * n + 4])
    ensures WriteIndex(data, n) == Decode(data[4 * n + 4..4 * n + 8])
  {
  }

  lemma PutInBytes(data: seq<Byte>, offset: nat, v: Int32)
    requires offset + 4 <= |data|
    ensures var data' := Put(data, offset, v);
            && data'[offset..offset + 4] == Encode(v)
            && forall b :: 0 <= b < |data| && !(offset <= b < offset + 4) ==> data'[b] == data[b]
  {
    hide Encode;
  }

  /** What a write makes of each byte of the file. */
  lemma WriteInBytes(data: seq<Byte>, n: nat, value: Int32)
    requires WellFormed(data, n)
    ensures var w, data' := WriteIndex(data, n), Written(data, n, value);
            && |data'| == |data| == 4 * n + 8
            && data'[4 * w..4 * w + 4] == Encode(value)
            && data'[4 * n + 4..4 * n + 8] == Encode((w + 1) % n)
            && forall b :: 0 <= b < 4 * n + 4 && !(4 * w <= b < 4 * w + 4) ==> data'[b] == data[b]
  {
    var w := WriteIndex(data, n);
    PutInBytes(data, 4 * w, value);
    var mid := Put(data, 4 * w, value);
    PutInBytes(mid, 4 * n + 4, (w + 1) % n);
    hide Encode, Decode, Get, Put;
    var data' := Written(data, n, value);
    assert data'[4 * w..4 * w + 4] == mid[4 * w..4 * w + 4];
  }

  /** What a read makes of each byte of the file. */
  lemma ReadInBytes(data: seq<Byte>, n: nat)
    requires WellFormed(data, n)
    ensures var r, data' := ReadIndex(data, n), Consumed(data, n);
            && |data'| == |data| == 4 * n + 8
            && data'[4 * n..4 * n + 4] == Encode((r + 1) % n)
            && forall b :: 0 <= b < |data| && !(4 * n <= b < 4 * n + 4) ==> data'[b] == data[b]
  {
    PutInBytes(data, 4 * n, (ReadIndex(data, n) + 1) % n);
    hide Encode, Decode, Get, Put;
  }

  // ---------------------------------------------------------------- a queue

  /** The data cell `k` places after that of the oldest value. */
  function Slot(data: seq<Byte>, n: nat, k: nat): (c: nat)
    requires WellFormed(data, n)
    ensures c < n
  {
    (ReadIndex(data, n) + k) % n
  }

  /** The file holds the queue `q`, oldest value first, in the cells from the read index on. */
  ghost predicate Represents(data: seq<Byte>, n: nat, q: seq<Int32>)
  {
    && WellFormed(data, n) && |q| <= n
    && WriteIndex(data, n) == Slot(data, n, |q|)
    && forall k :: 0 <= k < |q| ==> Cell(data, Slot(data, n, k)) == q[k]
  }

  /** What a write leaves alone: every byte outside one data cell and the write index. */
  lemma WriteTouches(data: seq<Byte>, n: nat, value: Int32, b: nat)
    requires WellFormed(data, n) && b < |data|
    ensures var w, data' := WriteIndex(data, n), Written(data, n, value);
            && |data'| == |data|
            && WellFormed(data', n)
            && ReadIndex(data', n) == ReadIndex(data, n) && WriteIndex(data', n) == (w + 1) % n
            && (!(Offset(w) <= b < Offset(w + 1)) && b < Offset(n + 1) ==> data'[b] == data[b])
  {
    var w := WriteIndex(data, n);
    var mid := Put(data, Offset(w), value);
    GetPutOther(data, Offset(w), value, Offset(n));
    GetPutOther(mid, Offset(n + 1), (w + 1) % n, Offset(n));
    GetPut(mid, Offset(n + 1), (w + 1) % n);
  }

  /** What a read leaves alone: everything but the read index. */
  lemma ReadTouches(data: seq<Byte>, n: nat, b: nat)
    requires WellFormed(data, n) && b < |data|
    ensures var r, data' := ReadIndex(data, n), Consumed(data, n);
            && |data'| == |data|
            && WellFormed(data', n)
            && WriteIndex(data', n) == WriteIndex(data, n) && ReadIndex(data', n) == (r + 1) % n
            && (!(Offset(n) <= b < Offset(n + 1)) ==> data'[b] == data[b])
  {
    var r := ReadIndex(data, n);
    GetPut(data, Offset(n), (r + 1) % n);
    GetPutOther(data, Offset(n), (r + 1) % n, Offset(n + 1));
  }

  lemma WrittenCell(data: seq<Byte>, n: nat, value: Int32, c: nat)
    requires WellFormed(data, n) && c < n
    ensures var data' := Written(data, n, value);
            Cell(data', c) == if c == WriteIndex(data, n) then value else Cell(data, c)
  {
    var w := WriteIndex(data, n);
    var mid := Put(data, Offset(w), value);
    GetPutOther(mid, Offset(n + 1), (w + 1) % n, Offset(c));
    if c == w {
      GetPut(data, Offset(w), value);
    } else {
      GetPutOther(data, Offset(w), value, Offset(c));
    }
  }

  lemma ConsumedCell(data: seq<Byte>, n: nat, c: nat)
    requires WellFormed(data, n) && c < n
    ensures Cell(Consumed(data, n), c) == Cell(data, c)
  {
    GetPutOther(data, Offset(n), (ReadIndex(data, n) + 1) % n, Offset(c));
  }

  /** Slots less than a lap apart are different cells. */
  lemma SlotsDiffer(data: seq<Byte>, n: nat, j: nat, k: nat)
    requires WellFormed(data, n) && j < k < j + n
    ensures Slot(data, n, j) != Slot(data, n, k)
  {
    hide Cell, ReadIndex, WriteIndex;
    DistinctSlots(ReadIndex(data, n) + j, ReadIndex(data, n) + k, n);
  }

  /** A write moves no slot. */
  lemma SlotAfterWrite(data: seq<Byte>, n: nat, value: Int32, k: nat)
    requires WellFormed(data, n)
    ensures WellFormed(Written(data, n, value), n)
    ensures Slot(Written(data, n, value), n, k) == Slot(data, n, k)
  {
    hide Cell, ReadIndex, WriteIndex, Written, WellFormed, Slot;
    KeepsReadIndex(data, n, value);
    SameSlots(data, Written(data, n, value), n, k);
  }

  lemma KeepsReadIndex(data: seq<Byte>, n: nat, value: Int32)
    requires WellFormed(data, n)
    ensures WellFormed(Written(data, n, value), n)
    ensures ReadIndex(Written(data, n, value), n) == ReadIndex(data, n)
  {
    WriteTouches(data, n, value, 0);
  }

  lemma SameSlots(data: seq<Byte>, data': seq<Byte>, n: nat, k: nat)
    requires WellFormed(data, n) && WellFormed(data', n) && ReadIndex(data', n) == ReadIndex(data, n)
    ensures Slot(data', n, k) == Slot(data, n, k)
  {
    hide ReadIndex, WellFormed;
  }

  lemma WriteIndexAfterWrite(data: seq<Byte>, n: nat, value: Int32, len: nat)
    requires WellFormed(data, n) && WriteIndex(data, n) == Slot(data, n, len)
    ensures WellFormed(Written(data, n, value), n)
    ensures WriteIndex(Written(data, n, value), n) == Slot(Written(data, n, value), n, len + 1)
  {
    WriteTouches(data, n, value, 0);
    hide Cell, ReadIndex, WriteIndex, Written;
    NextSlot(ReadIndex(data, n) + len, n);
  }

  /** Writing to a ring with room enqueues. */
  lemma WriteEnqueues(data: seq<Byte>, n: nat, q: seq<Int32>, value: Int32)
    requires Represents(data, n, q) && |q| < n
    ensures Represents(Written(data, n, value), n, q + [value])
  {
    var data' := Written(data, n, value);
    WriteIndexAfterWrite(data, n, value, |q|);
    hide Put, Get, Cell, ReadIndex, WriteIndex, Slot, Written, Encode, Decode;
    forall k | 0 <= k < |q| + 1 ensures Cell(data', Slot(data', n, k)) == (q + [value])[k] {
      WrittenCell(data, n, value, Slot(data, n, k));
      SlotAfterWrite(data, n, value, k);
      if k < |q| {
        SlotsDiffer(data, n, k, |q|);
      }
    }
  }

  /** A read moves all slots by one. */
  lemma SlotAfterRead(data: seq<Byte>, n: nat, k: nat)
    requires WellFormed(data, n)
    ensures var data' := Consumed(data, n);
            && WellFormed(data', n) && WriteIndex(data', n) == WriteIndex(data, n)
            && Slot(data', n, k) == Slot(data, n, k + 1)
  {
    ReadTouches(data, n, 0);
    hide Put, Get, Cell, Consumed, Encode, Decode;
    SlotAfter(ReadIndex(data, n) + 1, k, n);
  }

  lemma OldestIsFirst(data: seq<Byte>, n: nat)
    requires WellFormed(data, n)
    ensures ReadIndex(data, n) == Slot(data, n, 0)
  {
    hide Cell;
    Remainder(ReadIndex(data, n), n, 0, ReadIndex(data, n));
  }

  /** Reading from a ring that is not empty dequeues its oldest value. */
  lemma ReadDequeues(data: seq<Byte>, n: nat, q: seq<Int32>)
    requires Represents(data, n, q) && q != []
    ensures Oldest(data, n) == q[0]
    ensures Represents(Consumed(data, n), n, q[1..])
  {
    OldestIsFirst(data, n);
    SlotAfterRead(data, n, |q| - 1);
    hide Put, Get, Cell, ReadIndex, WriteIndex, Slot, Consumed, Encode, Decode;
    var data' := Consumed(data, n);
    forall k | 0 <= k < |q| - 1 ensures Cell(data', Slot(data', n, k)) == q[1..][k] {
      SlotAfterRead(data, n, k);
      ConsumedCell(data, n, Slot(data, n, k + 1));
    }
  }

  /** The data cells in the order in which they come up, from the read index on: a whole lap. */
  function Lap(data: seq<Byte>, n: nat): (q: seq<Int32>)
    requires WellFormed(data, n)
    ensures |q| == n && forall k :: 0 <= k < n ==> q[k] == Cell(data, Slot(data, n, k))
  {
    hide Cell, Slot;
    seq(n, k requires 0 <= k => Cell(data, Slot(data, n, k)))
  }

  /** A whole lap after the oldest value comes its own cell again. */
  lemma LapEndsWhereItBegan(data: seq<Byte>, n: nat)
    requires WellFormed(data, n)
    ensures Slot(data, n, n) == Slot(data, n, 0) == ReadIndex(data, n)
  {
    hide Cell;
    var r := ReadIndex(data, n);
    Remainder(r + n, n, 1, r);
    Remainder(r, n, 0, r);
  }

  /** Nothing in the file distinguishes an empty ring from a full one: both have equal indices. */
  lemma EmptyIsFull(data: seq<Byte>, n: nat, q: seq<Int32>)
    requires WellFormed(data, n)
    ensures Represents(data, n, []) <==> Represents(data, n, Lap(data, n))
    ensures Represents(data, n, q) && |q| == n ==> q == Lap(data, n) && Represents(data, n, [])
  {
    LapEndsWhereItBegan(data, n);
    hide Cell, Slot, ReadIndex, WriteIndex;
  }

  /** A write to a full ring replaces the oldest value. */
  lemma FullWriteReplacesOldest(data: seq<Byte>, n: nat, q: seq<Int32>, value: Int32)
    requires Represents(data, n, q) && |q| == n
    ensures WellFormed(Written(data, n, value), n)
    ensures Oldest(Written(data, n, value), n) == value
  {
    WriteTouches(data, n, value, 0);
    LapEndsWhereItBegan(data, n);
    WrittenCell(data, n, value, ReadIndex(data, n));
  }

  /** A read of an empty ring returns what is left in the cell, and the ring then holds all the other cells. */
  lemma EmptyReadReturnsStale(data: seq<Byte>, n: nat)
    requires Represents(data, n, [])
    ensures Oldest(data, n) == Lap(data, n)[0]
    ensures Represents(Consumed(data, n), n, Lap(data, n)[1..])
  {
    EmptyIsFull(data, n, []);
    hide Represents, Consumed, Oldest, Lap;
    ReadDequeues(data, n, Lap(data, n));
  }

  // ---------------------------------------------------------------- sequences of calls

  datatype Call = Write(value: Int32) | Read

  /** The file and the values returned after `calls`. */
  function RunFile(data: seq<Byte>, n: nat, calls: seq<Call>): (r: (seq<Byte>, seq<Int32>))
    requires WellFormed(data, n)
    ensures WellFormed(r.0, n)
    decreases |calls|
  {
    if calls == [] then (data, [])
    else
      var (mid, outs) := RunFile(data, n, calls[..|calls| - 1]);
      match calls[|calls| - 1]
      case Write(value) =>
        WriteTouches(mid, n, value, 0);
        (Written(mid, n, value), outs)
      case Read =>
        ReadTouches(mid, n, 0);
        (Consumed(mid, n), outs + [Oldest(mid, n)])
  }

  /** The values written by `calls`, in order, and how many are read. */
  function Inputs(calls: seq<Call>): seq<Int32>
    decreases |calls|
  {
    if calls == [] then []
    else
      var last := calls[|calls| - 1];
      Inputs(calls[..|calls| - 1]) + (if last.Write? then [last.value] else [])
  }

  function Reads(calls: seq<Call>): nat
    decreases |calls|
  {
    if calls == [] then 0
    else Reads(calls[..|calls| - 1]) + (if calls[|calls| - 1].Read? then 1 else 0)
  }

  /** Never reads when empty, never writes when full: what the callers' semaphores are for. */
  ghost predicate Disciplined(n: nat, calls: seq<Call>)
    decreases |calls|
  {
    calls == [] ||
    (&& Disciplined(n, calls[..|calls| - 1])
     && Reads(calls) <= |Inputs(calls)| <= Reads(calls) + n)
  }

  /** What the next `m` calls of `readFromBufferFile` return. */
  function NextReads(data: seq<Byte>, n: nat, m: nat): (outs: seq<Int32>)
    requires WellFormed(data, n)
    ensures |outs| == m
    decreases m
  {
    if m == 0 then []
    else
      ReadTouches(data, n, 0);
      [Oldest(data, n)] + NextReads(Consumed(data, n), n, m - 1)
  }

  /** Reads of a ring that holds at least that many values return the first of them. */
  lemma {:induction false} ReadsReturnOldest(data: seq<Byte>, n: nat, q: seq<Int32>, m: nat)
    requires WellFormed(data, n) && Represents(data, n, q) && m <= |q|
    ensures NextReads(data, n, m) == q[..m]
    decreases m
  {
    hide Represents, WellFormed, Consumed, Oldest;
    if m > 0 {
      ReadDequeues(data, n, q);
      ReadStaysWellFormed(data, n);
      ReadsReturnOldest(Consumed(data, n), n, q[1..], m - 1);
      FirstOfPrefix(q, m);
    }
  }

  lemma ReadStaysWellFormed(data: seq<Byte>, n: nat)
    requires WellFormed(data, n)
    ensures WellFormed(Consumed(data, n), n)
  {
    ReadTouches(data, n, 0);
  }

  lemma LapCellAfterFullWrite(data: seq<Byte>, n: nat, q: seq<Int32>, value: Int32, k: nat)
    requires Represents(data, n, q) && |q| == n && k < n
    ensures WellFormed(Written(data, n, value), n)
    ensures WellFormed(Consumed(Written(data, n, value), n), n)
    ensures Lap(Consumed(Written(data, n, value), n), n)[k] == if k + 1 == n then value else q[k + 1]
  {
    AtMostALap(data, n, q);
    hide Written, Consumed, Cell, Slot, Represents, WellFormed, Lap;
    CellAfterFullWrite(data, n, q, value, k + 1);
    var d0 := Written(data, n, value);
    SlotAfterRead(d0, n, k);
    ConsumedCell(d0, n, Slot(d0, n, k + 1));
  }

  /** The cells of a full ring after one more write and one read. */
  lemma LapAfterFullWrite(data: seq<Byte>, n: nat, q: seq<Int32>, value: Int32)
    requires Represents(data, n, q) && |q| == n
    ensures WellFormed(Written(data, n, value), n)
    ensures WellFormed(Consumed(Written(data, n, value), n), n)
    ensures Lap(Consumed(Written(data, n, value), n), n) == q[1..] + [value]
  {
    AtMostALap(data, n, q);
    hide Written, Consumed, Represents, WellFormed, Lap;
    LapCellAfterFullWrite(data, n, q, value, 0);
    var lap := Lap(Consumed(Written(data, n, value), n), n);
    forall k | 0 <= k < n ensures lap[k] == (q[1..] + [value])[k] {
      LapCellAfterFullWrite(data, n, q, value, k);
    }
  }

  lemma CellAfterFullWrite(data: seq<Byte>, n: nat, q: seq<Int32>, value: Int32, k: nat)
    requires Represents(data, n, q) && |q| == n && 0 < k <= n
    ensures var d0 := Written(data, n, value);
            && WellFormed(d0, n)
            && Cell(d0, Slot(d0, n, k)) == if k == n then value else q[k]
  {
    LapEndsWhereItBegan(data, n);
    hide Written, Cell, Slot, ReadIndex, WriteIndex;
    SlotAfterWrite(data, n, value, k);
    WrittenCell(data, n, value, Slot(data, n, k));
    if k < n {
      SlotsDiffer(data, n, 0, k);
    }
  }

  /** What `|q| + 1` reads return after a value was written to a ring that was already full. */
  lemma FullWriteThenReads(data: seq<Byte>, n: nat, q: seq<Int32>, value: Int32)
    requires Represents(data, n, q) && |q| == n
    ensures WellFormed(Written(data, n, value), n)
    ensures NextReads(Written(data, n, value), n, n + 1) == [value] + (q[1..] + [value])
  {
    var d0 := Written(data, n, value);
    FullWriteReplacesOldest(data, n, q, value);
    FullWriteLooksLikeOne(data, n, q, value);
    LapAfterFullWrite(data, n, q, value);
    var d1 := Consumed(d0, n);
    hide Represents, WellFormed, Written, Consumed, Lap, Oldest;
    ReadsReturnOldest(d1, n, Lap(d1, n), n);
    assert Lap(d1, n)[..n] == Lap(d1, n);
  }

  /** After such a write the file looks as if it held one value, and after one read like a whole lap. */
  lemma FullWriteLooksLikeOne(data: seq<Byte>, n: nat, q: seq<Int32>, value: Int32)
    requires Represents(data, n, q) && |q| == n
    ensures Represents(Written(data, n, value), n, [value])
    ensures var d1 := Consumed(Written(data, n, value), n);
            WellFormed(d1, n) && Represents(d1, n, Lap(d1, n))
  {
    EmptyIsFull(data, n, q);
    WriteEnqueues(data, n, [], value);
    var d0 := Written(data, n, value);
    assert [] + [value] == [value];
    ReadDequeues(d0, n, [value]);
    assert [value][1..] == [];
    ReadStaysWellFormed(d0, n);
    EmptyIsFull(Consumed(d0, n), n, []);
  }

  lemma WriteThenReads(data: seq<Byte>, n: nat, q: seq<Int32>, value: Int32)
    requires Represents(data, n, q) && |q| < n
    ensures WellFormed(Written(data, n, value), n)
    ensures NextReads(Written(data, n, value), n, |q| + 1) == q + [value]
  {
    WriteEnqueues(data, n, q, value);
    assert WellFormed(Written(data, n, value), n);
    hide Represents, WellFormed, Written, NextReads;
    ReadsReturnOldest(Written(data, n, value), n, q + [value], |q| + 1);
    assert (q + [value])[..|q| + 1] == q + [value];
  }

  lemma AtMostALap(data: seq<Byte>, n: nat, q: seq<Int32>)
    requires Represents(data, n, q)
    ensures WellFormed(data, n) && n >= 1 && |q| <= n
  {
  }

  lemma ReplacedHead(q: seq<Int32>, value: Int32)
    requires q != []
    ensures [value] + (q[1..] + [value]) == q + [value] <==> value == q[0]
  {
    assert q + [value] == [q[0]] + (q[1..] + [value]);
    assert ([value] + (q[1..] + [value]))[0] == value;
  }

  /**
   Room is needed. After a write the next reads return what was there and then the new
   value if and only if there was room for it, or it equals the value it replaces.
   */
  lemma WriteIsReadBackIff(data: seq<Byte>, n: nat, q: seq<Int32>, value: Int32)
    requires Represents(data, n, q)
    ensures WellFormed(Written(data, n, value), n)
    ensures NextReads(Written(data, n, value), n, |q| + 1) == q + [value]
            <==> |q| < n || (q != [] && value == q[0])
  {
    AtMostALap(data, n, q);
    hide Represents, WellFormed, Written, NextReads;
    if |q| < n {
      WriteThenReads(data, n, q, value);
    } else {
      FullWriteThenReads(data, n, q, value);
      ReplacedHead(q, value);
    }
  }

  // ---------------------------------------------------------------- many laps

  /** Of the values `ins` written so far, the first `r` have been returned and the file holds the rest. */
  ghost predicate Served(data: seq<Byte>, n: nat, outs: seq<Int32>, ins: seq<Int32>, r: nat)
  {
    r <= |ins| && outs == ins[..r] && Represents(data, n, ins[r..])
  }

  lemma WriteServes(data: seq<Byte>, n: nat, outs: seq<Int32>, ins: seq<Int32>, r: nat, value: Int32)
    requires WellFormed(data, n) && Served(data, n, outs, ins, r) && |ins| < r + n
    ensures Served(Written(data, n, value), n, outs, ins + [value], r)
    ensures |Written(data, n, value)| == |data|
  {
    WriteTouches(data, n, value, 0);
    hide Represents, WellFormed, Written;
    WriteEnqueues(data, n, ins[r..], value);
    assert (ins + [value])[r..] == ins[r..] + [value];
    assert (ins + [value])[..r] == ins[..r];
  }

  lemma ReadServes(data: seq<Byte>, n: nat, outs: seq<Int32>, ins: seq<Int32>, r: nat)
    requires WellFormed(data, n) && Served(data, n, outs, ins, r) && r < |ins|
    ensures Served(Consumed(data, n), n, outs + [Oldest(data, n)], ins, r + 1)
    ensures |Consumed(data, n)| == |data|
  {
    ReadTouches(data, n, 0);
    hide Represents, WellFormed, Consumed, Oldest;
    ReadDequeues(data, n, ins[r..]);
    assert ins[r..][1..] == ins[r + 1..];
    assert ins[..r + 1] == ins[..r] + [ins[r]];
  }

  lemma {:induction false} CallsServe(data: seq<Byte>, n: nat, calls: seq<Call>)
    requires WellFormed(data, n) && Represents(data, n, []) && Disciplined(n, calls)
    ensures var (data', outs) := RunFile(data, n, calls);
            Served(data', n, outs, Inputs(calls), Reads(calls)) && |data'| == |data|
    decreases |calls|
  {
    hide Written, Consumed, Oldest, Represents, WellFormed;
    if calls != [] {
      hide Served;
      var front, last := calls[..|calls| - 1], calls[|calls| - 1];
      CallsServe(data, n, front);
      var (mid, outs) := RunFile(data, n, front);
      if last.Write? {
        WriteServes(mid, n, outs, Inputs(front), Reads(front), last.value);
        assert Inputs(calls) == Inputs(front) + [last.value];
      } else {
        ReadServes(mid, n, outs, Inputs(front), Reads(front));
        assert Inputs(calls) == Inputs(front);
      }
    }
  }

  /**
   Over any number of laps, every read returns the oldest unread value: the values returned
   are the first of the values written, and the file holds exactly the remaining ones.
   */
  lemma FileIsFifo(data: seq<Byte>, n: nat, calls: seq<Call>)
    requires Represents(data, n, []) && Disciplined(n, calls)
    ensures var (data', outs) := RunFile(data, n, calls);
            && Reads(calls) <= |Inputs(calls)|
            && outs == Inputs(calls)[..Reads(calls)]
            && Represents(data', n, Inputs(calls)[Reads(calls)..])
            && |data'| == |data|
  {
    assert WellFormed(data, n);
    hide Represents, WellFormed, RunFile, Inputs, Reads, Disciplined;
    CallsServe(data, n, calls);
  }
}
