/**
 The message swap of swap.cpp: a circular file that is read and written in
 blocks through two buffers, which are one and the same buffer while the reader
 and the writer are in the same block.

 `rollback` and `commit` are not part of this model.
 */
module Swap {
  import opened DivMod

  type Byte = b: int | 0 <= b < 256

  /** `s` with `bytes` written over it from position `at` on. */
  function Overwrite(s: seq<Byte>, at: nat, bytes: seq<Byte>): seq<Byte>
    requires at + |bytes| <= |s|
  {
    s[..at] + bytes + s[at + |bytes|..]
  }

  /** The addresses from `lo` up to `hi`. */
  ghost function Range(lo: nat, hi: nat): (r: set<nat>)
    ensures forall a :: a in r <==> lo <= a < hi
    decreases hi - lo
  {
    if lo >= hi then {} else {lo} + Range(lo + 1, hi)
  }

  /** The backing file with its own idea of the current offset.  Reads and writes
      may transfer fewer bytes than asked for. */
  class BackingFile {
    const data: array<Byte>
    var offset: nat
    ghost var saved: set<nat>    // addresses that have been written

    constructor (size: nat)
      ensures data.Length == size && offset == 0 && saved == {} && fresh(data)
    {
      data := new Byte[size];
      offset := 0;
      saved := {};
    }

    method Seek(pos: nat)
      modifies `offset
      ensures offset == pos
    {
      offset := pos;
    }

    /** `read`: the bytes must exist, otherwise the end of the file is reached. */
    method Read(buf: array<Byte>, at: nat, count: nat) returns (rc: nat)
      requires 0 < count && at + count <= buf.Length && offset + count <= data.Length
      requires buf != data
      requires forall a :: offset <= a < offset + count ==> a in saved
      modifies `offset, buf
      ensures 0 < rc <= count && offset == old(offset) + rc
      ensures forall i :: 0 <= i < buf.Length ==>
                buf[i] == if at <= i < at + rc then data[old(offset) + (i - at)] else old(buf[i])
    {
      rc :| 0 < rc <= count;
      forall i | 0 <= i < rc {
        buf[at + i] := data[offset + i];
      }
      offset := offset + rc;
    }

    method Write(buf: array<Byte>, at: nat, count: nat) returns (rc: nat)
      requires 0 < count && at + count <= buf.Length && offset + count <= data.Length
      requires buf != data
      modifies `offset, `saved, data
      ensures 0 < rc <= count && offset == old(offset) + rc
      ensures saved == old(saved) + Range(old(offset), old(offset) + rc)
      ensures forall a :: 0 <= a < data.Length ==>
                data[a] == if old(offset) <= a < old(offset) + rc then buf[at + (a - old(offset))] else old(data[a])
    {
      rc :| 0 < rc <= count;
      forall i | 0 <= i < rc {
        data[offset + i] := buf[at + i];
      }
      saved := saved + Range(offset, offset + rc);
      offset := offset + rc;
    }
  }

  function Min(a: nat, b: nat): nat { if a < b then a else b }

  // ---------------------------------------------------------------------
  // Messages and their records
  // ---------------------------------------------------------------------

  const SHARED := 128               // ZMQ_MSG_SHARED, the top bit of the flags
  const SIZE_BYTES := 8             // sizeof (size_t)
  const SIZE_LIMIT := 0x1_0000_0000_0000_0000

  datatype Msg = Msg(flags: Byte, body: seq<Byte>) {
    /** The message without the ZMQ_MSG_SHARED flag. */
    function Unshared(): Msg { Msg(flags % SHARED, body) }

    predicate Storable() { flags < SHARED && |body| < SIZE_LIMIT }
  }

  /** What is stored of a message: its body and all its flags but for SHARED, the top bit; MORE, the lowest one,
      is among them. */
  lemma UnsharedKeeps(m: Msg)
    ensures m.Unshared().body == m.body
    ensures m.Unshared().flags == if m.flags >= 128 then m.flags - 128 else m.flags
    ensures m.Unshared().flags % 2 == m.flags % 2
  {
  }

  /** A number as it is in memory, `n` bytes wide. */
  function LittleEndian(v: nat, n: nat): (bytes: seq<Byte>)
    ensures |bytes| == n
  {
    if n == 0 then [] else [v % 256] + LittleEndian(v / 256, n - 1)
  }

  function FromLittleEndian(bytes: seq<Byte>): nat {
    if bytes == [] then 0 else bytes[0] + 256 * FromLittleEndian(bytes[1..])
  }

  function Pow256(n: nat): nat { if n == 0 then 1 else 256 * Pow256(n - 1) }

  lemma {:induction false} LittleEndianRoundTrip(v: nat, n: nat)
    requires v < Pow256(n)
    ensures FromLittleEndian(LittleEndian(v, n)) == v
  {
    if n > 0 {
      LittleEndianRoundTrip(v / 256, n - 1);
    }
  }

  /** The length that `fetch` reads back is the length that `store` wrote. */
  lemma SizeRoundTrip(size: nat)
    requires size < SIZE_LIMIT
    ensures FromLittleEndian(LittleEndian(size, SIZE_BYTES)) == size
  {
    assert Pow256(4) == 0x1_0000_0000;
    assert Pow256(8) == SIZE_LIMIT;
    LittleEndianRoundTrip(size, SIZE_BYTES);
  }

  /** Length, flags and body, the way `store` writes a message. */
  function Record(m: Msg): seq<Byte> {
    LittleEndian(|m.body|, SIZE_BYTES) + [m.flags] + m.body
  }

  lemma RecordParts(m: Msg, rest: seq<Byte>)
    ensures var s := Record(m) + rest;
            && |s| >= SIZE_BYTES + 1 + |m.body|
            && s[..SIZE_BYTES] == LittleEndian(|m.body|, SIZE_BYTES)
            && s[SIZE_BYTES..][..1] == [m.flags]
            && s[SIZE_BYTES..][1..][..|m.body|] == m.body
            && s[SIZE_BYTES..][1..][|m.body|..] == rest
  {
  }

  function Records(ms: seq<Msg>): seq<Byte> {
    if ms == [] then [] else Records(ms[..|ms| - 1]) + Record(ms[|ms| - 1])
  }

  lemma RecordsOfLast(ms: seq<Msg>, m: Msg)
    ensures Records(ms + [m]) == Records(ms) + Record(m)
  {
    assert (ms + [m])[..|ms + [m]| - 1] == ms;
  }

  lemma {:induction false} RecordsOfFirst(ms: seq<Msg>)
    requires ms != []
    ensures Records(ms) == Record(ms[0]) + Records(ms[1..])
  {
    if |ms| > 1 {
      var init, last := ms[..|ms| - 1], ms[|ms| - 1];
      RecordsOfFirst(init);
      assert ms[1..] == init[1..] + [last];
      RecordsOfLast(init[1..], last);
      assert Records(ms) == Record(ms[0]) + Records(init[1..]) + Record(last);
    }
  }

  // The swap's specification: a queue of messages with a bounded total size.

  datatype Op = Put(msg: Msg) | Take

  datatype Outcome = Stored(ok: bool) | Fetched(msg: Msg) | Nothing

  function FifoStep(capacity: nat, queue: seq<Msg>, op: Op): (seq<Msg>, Outcome) {
    match op
    case Put(msg) =>
      if |Records(queue)| + |Record(msg)| < capacity then (queue + [msg.Unshared()], Stored(true))
      else (queue, Stored(false))
    case Take =>
      if queue == [] then (queue, Nothing) else (queue[1..], Fetched(queue[0]))
  }

  function Fifo(capacity: nat, queue: seq<Msg>, ops: seq<Op>): seq<Outcome>
    decreases |ops|
  {
    if ops == [] then []
    else
      var (queue', outcome) := FifoStep(capacity, queue, ops[0]);
      [outcome] + Fifo(capacity, queue', ops[1..])
  }

  // ---------------------------------------------------------------------
  // Blocks
  // ---------------------------------------------------------------------

  /** `start` is where a block starts. */
  ghost predicate BlockStart(start: nat, size: nat) {
    size > 0 && (start == 0 || (size <= start && BlockStart(start - size, size)))
  }

  lemma {:induction false} BlockStartIsMultiple(start: nat, size: nat)
    requires BlockStart(start, size)
    ensures start % size == 0
  {
    if start == 0 {
      SmallNumber(0, size);
    } else {
      BlockStartIsMultiple(start - size, size);
      AddBlock(start - size, size);
    }
  }

  /** The offset in its block, and the number of the block, of a position. */
  lemma InsideBlock(start: nat, pos: nat, size: nat)
    requires BlockStart(start, size) && start <= pos < start + size
    ensures pos % size == pos - start && pos / size == start / size
  {
    BlockStartIsMultiple(start, size);
    assert start == (start / size) * size;
    Unique(pos, size, start / size, pos - start);
  }

  /** Different blocks do not overlap. */
  lemma {:induction false} BlocksApart(s: nat, t: nat, size: nat)
    requires BlockStart(s, size) && BlockStart(t, size) && s < t
    ensures s + size <= t
  {
    if s > 0 {
      BlocksApart(s - size, t - size, size);
    }
  }

  lemma SameOrApart(s: nat, t: nat, size: nat)
    requires BlockStart(s, size) && BlockStart(t, size)
    ensures s == t || s + size <= t || t + size <= s
  {
    if s < t {
      BlocksApart(s, t, size);
    } else if t < s {
      BlocksApart(t, s, size);
    }
  }

  lemma BlocksNumbered(s: nat, t: nat, size: nat)
    requires BlockStart(s, size) && BlockStart(t, size)
    ensures s / size == t / size <==> s == t
  {
    BlockStartIsMultiple(s, size);
    BlockStartIsMultiple(t, size);
    if s / size == t / size {
      SameQuotientAndRemainder(s, t, size);
    }
  }

  // ---------------------------------------------------------------------
  // Where the pending bytes are
  // ---------------------------------------------------------------------

  /** Everything that decides which bytes are waiting in the swap and where. */
  datatype Layout = Layout(
    filesize: nat,
    blockSize: nat,
    readBuf: seq<Byte>,
    writeBuf: seq<Byte>,
    sameBuf: bool,            // is it one buffer?
    file: seq<Byte>,
    saved: set<nat>,
    readPos: nat,
    writePos: nat,
    readStart: nat,           // start of the block that readPos is in
    writeStart: nat,          // start of the block that writePos is in
    pending: seq<Byte>        // bytes stored and not fetched, oldest first
  ) {
    function BlockEnd(start: nat): nat { Min(start + blockSize, filesize) }

    /** The writer has gone round the file and is behind the reader. */
    predicate Wrapped() { writePos < readPos }

    /** Where in the file the `k`-th pending byte belongs. */
    function AddressOf(k: nat): int {
      if readPos + k < filesize then readPos + k else readPos + k - filesize
    }

    ghost predicate SizesValid() {
      && filesize > 0 && blockSize > 0 && |file| == filesize
      && |readBuf| == blockSize && |writeBuf| == blockSize
      && (sameBuf ==> readBuf == writeBuf)
    }

    /** Two blocks are the same or do not overlap. */
    predicate Apart(s: nat, t: nat) {
      s == t || s + blockSize <= t || t + blockSize <= s
    }

    ghost predicate PositionsValid() {
      && readStart <= readPos < BlockEnd(readStart)
      && writeStart <= writePos < BlockEnd(writeStart)
      && Apart(readStart, writeStart)
      && |pending| == (if Wrapped() then filesize - readPos + writePos else writePos - readPos)
    }

    /** The `k`-th pending byte is in the read buffer up to the end of the reader's
        block, else in the write buffer if it is in the writer's block, else in the
        file, in a part of the file that has been saved. */
    ghost predicate Holds(k: nat)
      requires SizesValid() && PositionsValid() && k < |pending|
    {
      var a := AddressOf(k);
      if readPos + k < BlockEnd(readStart) then readBuf[a - readStart] == pending[k]
      else if writeStart <= a < writeStart + blockSize then writeBuf[a - writeStart] == pending[k]
      else a in saved && file[a] == pending[k]
    }

    /** One buffer serves both sides exactly while the reader is behind the writer in
        the block that the writer is filling. */
    ghost predicate Coupled() {
      && SizesValid() && PositionsValid()
      && (sameBuf <==> readStart == writeStart && !Wrapped())
      && forall k :: 0 <= k < |pending| ==> Holds(k)
    }
  }

  /** Storing bytes that do not fill the writer's block. */
  lemma PutWithin(l: Layout, bytes: seq<Byte>, l': Layout)
    requires l.Coupled() && |l.pending| + |bytes| < l.filesize
    requires l.writePos + |bytes| < l.BlockEnd(l.writeStart)
    requires var wb := Overwrite(l.writeBuf, l.writePos - l.writeStart, bytes);
             l' == l.(writePos := l.writePos + |bytes|, writeBuf := wb,
                      readBuf := if l.sameBuf then wb else l.readBuf, pending := l.pending + bytes)
    ensures l'.Coupled()
  {
    forall k | 0 <= k < |l'.pending|
      ensures l'.Holds(k)
    {
      if k < |l.pending| {
        assert l.Holds(k);
      }
    }
  }

  /** The ring after storing bytes that fill the writer's block: the block is saved
      and the writer goes on in the next one, with the other buffer if it shared one. */
  ghost predicate CrossesTo(l: Layout, bytes: seq<Byte>, l': Layout)
    requires l.SizesValid() && l.PositionsValid() && l.writePos + |bytes| == l.BlockEnd(l.writeStart)
  {
    var wb := Overwrite(l.writeBuf, l.writePos - l.writeStart, bytes);
    var end := l.BlockEnd(l.writeStart);
    var next := if end == l.filesize then 0 else end;
    && l' == l.(writePos := next, writeStart := next, pending := l.pending + bytes, sameBuf := false,
                readBuf := if l.sameBuf then wb else l.readBuf, writeBuf := l'.writeBuf,
                file := l'.file, saved := l.saved + Range(l.writeStart, end))
    && |l'.file| == l.filesize
    && (forall a :: 0 <= a < l.filesize ==>
          l'.file[a] == if l.writeStart <= a < end then wb[a - l.writeStart] else l.file[a])
    && (!l.sameBuf ==> l'.writeBuf == wb)
    && |l'.writeBuf| == l.blockSize && l.Apart(l.readStart, next)
  }

  lemma CrossingPositions(l: Layout, bytes: seq<Byte>, l': Layout)
    requires l.Coupled() && 0 < |bytes| && |l.pending| + |bytes| < l.filesize
    requires l.writePos + |bytes| == l.BlockEnd(l.writeStart) && CrossesTo(l, bytes, l')
    ensures l'.SizesValid() && l'.PositionsValid()
    ensures !(l'.readStart == l'.writeStart && !l'.Wrapped())
  {
  }

  lemma OldByteAcross(l: Layout, bytes: seq<Byte>, l': Layout, k: nat)
    requires l.Coupled() && 0 < |bytes| && |l.pending| + |bytes| < l.filesize
    requires l.writePos + |bytes| == l.BlockEnd(l.writeStart) && CrossesTo(l, bytes, l')
    requires l'.SizesValid() && l'.PositionsValid() && k < |l.pending|
    ensures l'.Holds(k)
  {
    assert l.Holds(k);
  }

  lemma NewByteAcross(l: Layout, bytes: seq<Byte>, l': Layout, k: nat)
    requires l.SizesValid() && l.PositionsValid() && 0 < |bytes| && |l.pending| + |bytes| < l.filesize
    requires l.sameBuf <==> l.readStart == l.writeStart && !l.Wrapped()
    requires l.writePos + |bytes| == l.BlockEnd(l.writeStart) && CrossesTo(l, bytes, l')
    requires l'.SizesValid() && l'.PositionsValid() && |l.pending| <= k < |l'.pending|
    ensures l'.Holds(k)
  {
    assert l'.pending[k] == bytes[k - |l.pending|];
    assert l'.AddressOf(k) == l.writePos + (k - |l.pending|);
  }

  lemma PutAcross(l: Layout, bytes: seq<Byte>, l': Layout)
    requires l.Coupled() && 0 < |bytes| && |l.pending| + |bytes| < l.filesize
    requires l.writePos + |bytes| == l.BlockEnd(l.writeStart) && CrossesTo(l, bytes, l')
    ensures l'.Coupled()
  {
    CrossingPositions(l, bytes, l');
    forall k | 0 <= k < |l'.pending|
      ensures l'.Holds(k)
    {
      if k < |l.pending| {
        OldByteAcross(l, bytes, l', k);
      } else {
        NewByteAcross(l, bytes, l', k);
      }
    }
  }

  /** The position behind the reader's block. */
  function NextStart(l: Layout): nat {
    if l.BlockEnd(l.readStart) == l.filesize then 0 else l.BlockEnd(l.readStart)
  }

  /** What the reader takes out of its block is what was stored first. */
  lemma TakenBytes(l: Layout, n: nat)
    requires l.Coupled() && n <= |l.pending| && l.readPos + n <= l.BlockEnd(l.readStart)
    ensures l.readBuf[l.readPos - l.readStart..l.readPos - l.readStart + n] == l.pending[..n]
  {
    forall k | 0 <= k < n
      ensures l.readBuf[l.readPos - l.readStart + k] == l.pending[k]
    {
      assert l.Holds(k);
    }
  }

  /** Taking bytes that leave the reader in its block. */
  lemma TakeWithin(l: Layout, n: nat, l': Layout)
    requires l.Coupled() && n <= |l.pending| && l.readPos + n < l.BlockEnd(l.readStart)
    requires l' == l.(readPos := l.readPos + n, pending := l.pending[n..])
    ensures l'.Coupled()
  {
    forall k | 0 <= k < |l'.pending|
      ensures l'.Holds(k)
    {
      assert l.Holds(k + n);
    }
  }

  /** The reader reaches the block the writer is in: from here on they share the
      writer's buffer. */
  lemma TakeIntoWriteBlock(l: Layout, n: nat, l': Layout)
    requires l.Coupled() && 0 < n <= |l.pending| && l.readPos + n == l.BlockEnd(l.readStart)
    requires NextStart(l) == l.writeStart
    requires l' == l.(readPos := l.writeStart, readStart := l.writeStart, pending := l.pending[n..],
                      readBuf := l.writeBuf, sameBuf := true)
    ensures l'.Coupled()
  {
    forall k | 0 <= k < |l'.pending|
      ensures l'.Holds(k)
    {
      assert l.Holds(k + n);
    }
  }

  /** When the reader reaches a block the writer is not in, that block has been saved
      in full, and the reader's buffer is not the writer's. */
  lemma NextBlockSaved(l: Layout, n: nat)
    requires l.Coupled() && 0 < n <= |l.pending| && l.readPos + n == l.BlockEnd(l.readStart)
    requires NextStart(l) != l.writeStart && l.Apart(NextStart(l), l.writeStart)
    ensures !l.sameBuf
    ensures forall a :: NextStart(l) <= a < l.BlockEnd(NextStart(l)) ==> a in l.saved
  {
    var next := NextStart(l);
    forall a | next <= a < l.BlockEnd(next)
      ensures a in l.saved
    {
      assert l.Holds(n + (a - next));
    }
  }

  /** The ring after the reader has reached a block the writer is not in and has read
      it from the file. */
  ghost predicate ReadsNext(l: Layout, n: nat, l': Layout)
    requires l.Coupled() && n <= |l.pending|
  {
    var next := NextStart(l);
    && next != l.writeStart && l.Apart(next, l.writeStart)
    && l' == l.(readPos := next, readStart := next, pending := l.pending[n..], readBuf := l'.readBuf)
    && |l'.readBuf| == l.blockSize
    && (forall a :: next <= a < l.BlockEnd(next) ==> l'.readBuf[a - next] == l.file[a])
  }

  lemma ByteInSavedBlock(l: Layout, n: nat, l': Layout, k: nat)
    requires l.Coupled() && 0 < n <= |l.pending| && l.readPos + n == l.BlockEnd(l.readStart)
    requires ReadsNext(l, n, l') && l'.SizesValid() && l'.PositionsValid() && k < |l'.pending|
    requires l'.readPos + k < l'.BlockEnd(l'.readStart)
    ensures l'.Holds(k)
  {
    assert l.Holds(k + n);
  }

  lemma ByteBeyondSavedBlock(l: Layout, n: nat, l': Layout, k: nat)
    requires l.Coupled() && 0 < n <= |l.pending| && l.readPos + n == l.BlockEnd(l.readStart)
    requires ReadsNext(l, n, l') && l'.SizesValid() && l'.PositionsValid() && k < |l'.pending|
    requires l'.BlockEnd(l'.readStart) <= l'.readPos + k
    ensures l'.Holds(k)
  {
    assert l.Holds(k + n);
  }

  lemma TakeIntoSavedBlock(l: Layout, n: nat, l': Layout)
    requires l.Coupled() && 0 < n <= |l.pending| && l.readPos + n == l.BlockEnd(l.readStart)
    requires ReadsNext(l, n, l')
    ensures l'.Coupled()
  {
    NextBlockSaved(l, n);
    forall k | 0 <= k < |l'.pending|
      ensures l'.Holds(k)
    {
      if l'.readPos + k < l'.BlockEnd(l'.readStart) {
        ByteInSavedBlock(l, n, l', k);
      } else {
        ByteBeyondSavedBlock(l, n, l', k);
      }
    }
  }

  lemma SlicesJoin(s: seq<Byte>, i: nat, n: nat)
    requires i + n <= |s|
    ensures s[..i] + s[i..][..n] == s[..i + n] && s[i..][n..] == s[i + n..]
  {
  }

  class SwapRing {
    const filesize: nat
    const blockSize: nat
    const file: BackingFile
    const buf1: array<Byte>
    const buf2: array<Byte>
    var readBuf: array<Byte>
    var writeBuf: array<Byte>
    var filePos: nat
    var writePos: nat
    var readPos: nat
    var writeBufStart: nat

    ghost var readStart: nat          // start of the block that readPos is in
    ghost var pending: seq<Byte>      // bytes stored and not fetched, oldest first
    ghost var messages: seq<Msg>      // the messages they belong to

    ghost function Here(): Layout
      reads this, readBuf, writeBuf, file, file.data
    {
      Layout(filesize, blockSize, readBuf[..], writeBuf[..], readBuf == writeBuf, file.data[..], file.saved,
             readPos, writePos, readStart, writeBufStart, pending)
    }

    function BlockEnd(start: nat): nat { Min(start + blockSize, filesize) }

    /** Objects and sizes. */
    ghost predicate StorageValid()
      reads this, file
    {
      && filesize > 0 && blockSize > 0
      && file.data.Length == filesize
      && buf1.Length == blockSize && buf2.Length == blockSize
      && buf1 != buf2 && buf1 != file.data && buf2 != file.data
      && (readBuf == buf1 || readBuf == buf2)
      && (writeBuf == buf1 || writeBuf == buf2)
      && file.offset == filePos
    }

    ghost predicate Aligned()
      reads this
    {
      BlockStart(readStart, blockSize) && BlockStart(writeBufStart, blockSize)
    }

    ghost predicate Valid()
      reads this, buf1, buf2, readBuf, writeBuf, file, file.data
    {
      StorageValid() && Aligned() && Here().Coupled()
    }

    constructor (filesize_: nat, blockSize_: nat)
      requires filesize_ > 0 && blockSize_ > 0
      ensures Holding() && messages == []
      ensures filesize == filesize_ && blockSize == blockSize_
      ensures fresh(file) && fresh(file.data) && fresh(buf1) && fresh(buf2)
    {
      filesize, blockSize := filesize_, blockSize_;
      file := new BackingFile(filesize_);
      var b1, b2 := new Byte[blockSize_], new Byte[blockSize_];
      buf1, buf2 := b1, b2;
      readBuf, writeBuf := b1, b1;
      filePos, writePos, readPos, writeBufStart := 0, 0, 0, 0;
      readStart, pending, messages := 0, [], [];
    }

    /** Reads the block at `pos` from the file into a buffer. */
    method FillBuf(buf: array<Byte>, pos: nat)
      requires StorageValid() && (buf == buf1 || buf == buf2)
      requires pos < filesize
      requires forall a :: pos <= a < BlockEnd(pos) ==> a in file.saved
      modifies `filePos, file`offset, buf
      ensures StorageValid()
      ensures forall a :: pos <= a < BlockEnd(pos) ==> buf[a - pos] == file.data[a]
    {
      if filePos != pos {
        file.Seek(pos);
        filePos := pos;
      }
      var stored := 0;
      var total := Min(blockSize, filesize - filePos);
      while stored < total
        invariant 0 <= stored <= total && file.offset == filePos + stored
        invariant filePos == pos
        invariant forall a :: pos <= a < pos + stored ==> buf[a - pos] == file.data[a]
      {
        var rc := file.Read(buf, stored, total - stored);
        stored := stored + rc;
      }
      filePos := filePos + total;
    }

    /** Writes the write buffer to its block of the file. */
    method SaveWriteBuf()
      requires StorageValid() && writeBufStart < filesize
      modifies `filePos, file, file.data
      ensures StorageValid()
      ensures file.saved == old(file.saved) + Range(writeBufStart, BlockEnd(writeBufStart))
      ensures forall a :: 0 <= a < filesize ==>
                file.data[a] ==
                if writeBufStart <= a < BlockEnd(writeBufStart) then writeBuf[a - writeBufStart] else old(file.data[a])
    {
      if filePos != writeBufStart {
        file.Seek(writeBufStart);
        filePos := writeBufStart;
      }
      var stored := 0;
      var total := Min(blockSize, filesize - filePos);
      while stored < total
        invariant 0 <= stored <= total && file.offset == filePos + stored
        invariant filePos == writeBufStart
        invariant file.saved == old(file.saved) + Range(filePos, filePos + stored)
        invariant forall a :: 0 <= a < filesize ==>
                    file.data[a] == if filePos <= a < filePos + stored then writeBuf[a - filePos] else old(file.data[a])
      {
        var rc := file.Write(writeBuf, stored, total - stored);
        stored := stored + rc;
      }
      filePos := filePos + total;
    }

    // The position arithmetic of the copying loops.

    /** The offset of a position in its block, and how much of `remainder` fits between
        it and the end of the block or of the file. */
    method NextChunk(pos: nat, ghost start: nat, remainder: nat) returns (offset: nat, chunk: nat)
      requires BlockStart(start, blockSize) && start <= pos < BlockEnd(start) && remainder > 0
      ensures offset == pos - start
      ensures 0 < chunk <= remainder && pos + chunk <= BlockEnd(start)
      ensures chunk == remainder || pos + chunk == BlockEnd(start)
    {
      InsideBlock(start, pos, blockSize);
      offset := pos % blockSize;
      chunk := Min(remainder, Min(filesize - pos, blockSize - offset));
    }

    /** `(pos + n) % filesize` for a step inside the block at `start`. */
    method Advance(pos: nat, n: nat, ghost start: nat) returns (next: nat)
      requires filesize > 0 && 0 < n && start <= pos && pos + n <= BlockEnd(start)
      ensures next == if pos + n == filesize then 0 else pos + n
    {
      if pos + n < filesize {
        SmallNumber(pos + n, filesize);
      }
      next := (pos + n) % filesize;
    }

    /** `pos % block_size == 0` for a position a step inside the block at `start` leads to. */
    method AtBlockStart(pos: nat, ghost start: nat) returns (yes: bool)
      requires BlockStart(start, blockSize) && (pos == 0 || start < pos <= start + blockSize)
      ensures yes <==> BlockStart(pos, blockSize)
      ensures yes <==> pos == 0 || pos == start + blockSize
    {
      BlockStartIsMultiple(start, blockSize);
      if pos == 0 {
        SmallNumber(0, blockSize);
      } else if pos == start + blockSize {
        BlockStartIsMultiple(pos, blockSize);
      } else {
        InsideBlock(start, pos, blockSize);
        if BlockStart(pos, blockSize) {
          BlocksApart(start, pos, blockSize);
        }
      }
      yes := pos % blockSize == 0;
    }

    /** `p / block_size == q / block_size`, where `p` starts a block and `q` is in the
        block at `start`. */
    method SameBlock(p: nat, q: nat, ghost start: nat) returns (yes: bool)
      requires BlockStart(p, blockSize) && BlockStart(start, blockSize) && start <= q < start + blockSize
      ensures yes <==> p == start
    {
      InsideBlock(start, q, blockSize);
      BlocksNumbered(p, start, blockSize);
      yes := p / blockSize == q / blockSize;
    }

    /** Copies bytes into the ring, which must have room for them. */
    method CopyToFile(source: seq<Byte>)
      requires Valid() && |pending| + |source| < filesize
      modifies `pending, `writePos, `filePos, `writeBufStart, `writeBuf, buf1, buf2, file, file.data
      ensures Valid() && pending == old(pending) + source
    {
      var done := 0;
      while done < |source|
        invariant done <= |source|
        invariant Valid() && pending == old(pending) + source[..done]
      {
        var chunk := PutRound(source[done..]);
        SlicesJoin(source, done, chunk);
        done := done + chunk;
      }
    }

    /** One round of `copy_to_file`: puts as many bytes as fit in the block. */
    method PutRound(source: seq<Byte>) returns (chunk: nat)
      requires Valid() && 0 < |source| && |pending| + |source| < filesize
      modifies `pending, `writePos, `filePos, `writeBufStart, `writeBuf, buf1, buf2, file, file.data
      ensures 0 < chunk <= |source|
      ensures Valid() && pending == old(pending) + source[..chunk]
    {
      var offset;
      offset, chunk := NextChunk(writePos, writeBufStart, |source|);
      PutChunk(source[..chunk], offset);
    }

    /** Copies bytes to the write buffer and moves on. */
    method PutChunk(bytes: seq<Byte>, offset: nat)
      requires Valid() && 0 < |bytes| && |pending| + |bytes| < filesize
      requires offset == writePos - writeBufStart && writePos + |bytes| <= BlockEnd(writeBufStart)
      modifies `pending, `writePos, `filePos, `writeBufStart, `writeBuf, buf1, buf2, file, file.data
      ensures Valid() && pending == old(pending) + bytes
    {
      ghost var before := Here();
      forall i | 0 <= i < |bytes| {
        writeBuf[offset + i] := bytes[i];
      }
      assert writeBuf[..] == Overwrite(before.writeBuf, offset, bytes);
      MoveWriter(before, bytes);
    }

    /** Moves the writer over bytes that were copied into its buffer. */
    method MoveWriter(ghost before: Layout, bytes: seq<Byte>)
      requires StorageValid() && Aligned()
      requires before.Coupled() && 0 < |bytes| && |before.pending| + |bytes| < filesize
      requires before.writePos + |bytes| <= before.BlockEnd(before.writeStart)
      requires var wb := Overwrite(before.writeBuf, before.writePos - before.writeStart, bytes);
               Here() == before.(writeBuf := wb, readBuf := if before.sameBuf then wb else before.readBuf)
      modifies `pending, `writePos, `filePos, `writeBufStart, `writeBuf, file, file.data
      ensures Valid() && pending == old(pending) + bytes
    {
      pending := pending + bytes;
      writePos := Advance(writePos, |bytes|, writeBufStart);
      var crossing := AtBlockStart(writePos, writeBufStart);
      if crossing {
        LeaveWriteBlock(before, bytes);
      } else {
        PutWithin(before, bytes, Here());
      }
    }

    /** Saves the block that was filled and picks the buffer for the next one. */
    method LeaveWriteBlock(ghost before: Layout, ghost bytes: seq<Byte>)
      requires StorageValid() && Aligned()
      requires before.Coupled() && 0 < |bytes| && |before.pending| + |bytes| < before.filesize
      requires before.writePos + |bytes| == before.BlockEnd(before.writeStart)
      requires var end := before.BlockEnd(before.writeStart);
               var wb := Overwrite(before.writeBuf, before.writePos - before.writeStart, bytes);
               Here() == before.(writePos := if end == before.filesize then 0 else end, writeBuf := wb,
                                 readBuf := if before.sameBuf then wb else before.readBuf,
                                 pending := before.pending + bytes)
      requires BlockStart(writePos, blockSize)
      modifies `filePos, `writeBufStart, `writeBuf, file, file.data
      ensures Valid()
    {
      SwitchBlock();
      SameOrApart(readStart, writePos, blockSize);
      PutAcross(before, bytes, Here());
    }

    method SwitchBlock()
      requires StorageValid() && writeBufStart < filesize
      modifies `filePos, `writeBufStart, `writeBuf, file, file.data
      ensures StorageValid() && writeBufStart == writePos && readBuf != writeBuf
      ensures old(readBuf != writeBuf) ==> writeBuf == old(writeBuf)
      ensures file.saved == old(file.saved) + Range(old(writeBufStart), BlockEnd(old(writeBufStart)))
      ensures forall a :: 0 <= a < filesize ==>
                file.data[a] ==
                if old(writeBufStart) <= a < BlockEnd(old(writeBufStart)) then old(writeBuf)[a - old(writeBufStart)]
                else old(file.data[a])
    {
      SaveWriteBuf();
      writeBufStart := writePos;
      if writeBuf == readBuf {
        if readBuf == buf2 {
          writeBuf := buf1;
        } else {
          writeBuf := buf2;
        }
      }
    }

    /** Takes bytes out of the ring, which must hold as many. */
    method CopyFromFile(count: nat) returns (dest: seq<Byte>)
      requires Valid() && count <= |pending|
      modifies `pending, `readPos, `filePos, `readStart, `readBuf, buf1, buf2, file`offset
      ensures Valid() && dest == old(pending)[..count] && pending == old(pending)[count..]
    {
      dest := [];
      while |dest| < count
        invariant |dest| <= count
        invariant Valid() && dest == old(pending)[..|dest|] && pending == old(pending)[|dest|..]
      {
        var bytes := TakeRound(count - |dest|);
        SlicesJoin(old(pending), |dest|, |bytes|);
        dest := dest + bytes;
      }
    }

    /** One round of `copy_from_file`: takes as many bytes as there are in the block. */
    method TakeRound(count: nat) returns (bytes: seq<Byte>)
      requires Valid() && 0 < count <= |pending|
      modifies `pending, `readPos, `filePos, `readStart, `readBuf, buf1, buf2, file`offset
      ensures 0 < |bytes| <= count
      ensures Valid() && bytes == old(pending)[..|bytes|] && pending == old(pending)[|bytes|..]
    {
      var offset, chunk := NextChunk(readPos, readStart, count);
      bytes := TakeChunk(chunk, offset);
    }

    /** Copies bytes out of the read buffer and moves on. */
    method TakeChunk(chunk: nat, offset: nat) returns (bytes: seq<Byte>)
      requires Valid() && 0 < chunk <= |pending|
      requires offset == readPos - readStart && readPos + chunk <= BlockEnd(readStart)
      modifies `pending, `readPos, `filePos, `readStart, `readBuf, buf1, buf2, file`offset
      ensures Valid() && bytes == old(pending)[..chunk] && pending == old(pending)[chunk..]
    {
      TakenBytes(Here(), chunk);
      bytes := readBuf[offset..offset + chunk];
      MoveReader(chunk);
    }

    /** Moves the reader over bytes that were copied out of its buffer. */
    method MoveReader(chunk: nat)
      requires Valid() && 0 < chunk <= |pending| && readPos + chunk <= BlockEnd(readStart)
      modifies `pending, `readPos, `readBuf, `filePos, `readStart, buf1, buf2, file`offset
      ensures Valid() && pending == old(pending)[chunk..]
    {
      ghost var before := Here();
      pending := pending[chunk..];
      readPos := Advance(readPos, chunk, readStart);
      var crossing := AtBlockStart(readPos, readStart);
      if crossing {
        EnterReadBlock(before, chunk);
      } else {
        TakeWithin(before, chunk, Here());
      }
    }

    /** Picks or fills the buffer for the block the reader has reached. */
    method EnterReadBlock(ghost before: Layout, ghost chunk: nat)
      requires StorageValid() && Aligned()
      requires before.Coupled() && 0 < chunk <= |before.pending|
      requires before.readPos + chunk == before.BlockEnd(before.readStart)
      requires Here() == before.(readPos := NextStart(before), pending := before.pending[chunk..])
      requires BlockStart(readPos, blockSize)
      modifies `readBuf, `filePos, `readStart, buf1, buf2, file`offset
      ensures Valid()
    {
      var same := SameBlock(readPos, writePos, writeBufStart);
      readStart := readPos;
      if same {
        readBuf := writeBuf;
        TakeIntoWriteBlock(before, chunk, Here());
      } else {
        SameOrApart(readPos, writeBufStart, blockSize);
        NextBlockSaved(before, chunk);
        FillBuf(readBuf, readPos);
        TakeIntoSavedBlock(before, chunk, Here());
      }
    }

    // -------------------------------------------------------------------
    // Messages
    // -------------------------------------------------------------------

    /** The swap holds exactly the records of `messages`. */
    ghost predicate Holding()
      reads this, buf1, buf2, readBuf, writeBuf, file, file.data
    {
      Valid() && pending == Records(messages) && forall m :: m in messages ==> m.Storable()
    }

    /** The free space of the ring; it is never used up entirely. */
    method BufferSpace() returns (space: nat)
      requires Valid()
      ensures space == filesize - |pending| && space > 0
    {
      if writePos < readPos {
        return readPos - writePos;
      }
      return filesize - (writePos - readPos);
    }

    /** `empty`. */
    method Empty() returns (empty: bool)
      requires Holding()
      ensures empty <==> messages == []
    {
      if messages != [] {
        RecordsOfFirst(messages);
      }
      empty := readPos == writePos;
    }

    /** Stores a message unless the swap is too full: one byte always stays free. */
    method Store(msg: Msg) returns (stored: bool)
      requires Holding() && |msg.body| < SIZE_LIMIT
      modifies this, buf1, buf2, file, file.data
      ensures Holding()
      ensures stored <==> |Records(old(messages))| + |Record(msg)| < filesize
      ensures messages == if stored then old(messages) + [msg.Unshared()] else old(messages)
    {
      var size := |msg.body|;
      var space := BufferSpace();
      assert |Record(msg)| == |Record(msg.Unshared())| == SIZE_BYTES + 1 + size;
      if space <= SIZE_BYTES + 1 + size {
        stored := false;
      } else {
        RecordsOfLast(messages, msg.Unshared());
        messages := messages + [msg.Unshared()];
        StoreRecord(msg.Unshared());
        stored := true;
      }
    }

    /** Writes message length, flags and message body. */
    method StoreRecord(msg: Msg)
      requires Valid() && |pending| + |Record(msg)| < filesize
      modifies `pending, `writePos, `filePos, `writeBufStart, `writeBuf, buf1, buf2, file, file.data
      ensures Valid() && pending == old(pending) + Record(msg)
    {
      CopyToFile(LittleEndian(|msg.body|, SIZE_BYTES));
      CopyToFile([msg.flags]);
      CopyToFile(msg.body);
    }

    /** Fetches the oldest message. */
    method Fetch() returns (msg: Msg)
      requires Holding() && messages != []
      modifies this, buf1, buf2, file, file.data
      ensures Holding()
      ensures msg == old(messages)[0] && messages == old(messages)[1..]
    {
      RecordsOfFirst(messages);
      ghost var first := messages[0];
      messages := messages[1..];
      msg := FetchRecord(first, Records(messages));
    }

    method FetchRecord(ghost first: Msg, ghost rest: seq<Byte>) returns (msg: Msg)
      requires Valid() && first.Storable() && pending == Record(first) + rest
      modifies `pending, `readPos, `filePos, `readStart, `readBuf, buf1, buf2, file`offset
      ensures Valid() && pending == rest && msg == first
    {
      RecordParts(first, rest);
      SizeRoundTrip(|first.body|);
      var sizeBytes := CopyFromFile(SIZE_BYTES);
      var size := FromLittleEndian(sizeBytes);
      var flags := CopyFromFile(1);
      var body := CopyFromFile(size);
      msg := Msg(flags[0], body);
    }

    /** Any sequence of operations gives the results that a plain queue of messages
        with the same capacity gives. */
    method Replay(ops: seq<Op>) returns (outcomes: seq<Outcome>)
      requires Holding()
      requires forall op :: op in ops && op.Put? ==> |op.msg.body| < SIZE_LIMIT
      modifies this, buf1, buf2, file, file.data
      ensures Holding()
      ensures outcomes == Fifo(filesize, old(messages), ops)
      decreases |ops|
    {
      if ops == [] {
        return [];
      }
      var first: Outcome;
      match ops[0] {
        case Put(msg) =>
          var stored := Store(msg);
          first := Stored(stored);
        case Take =>
          var empty := Empty();
          if empty {
            first := Nothing;
          } else {
            var msg := Fetch();
            first := Fetched(msg);
          }
      }
      assert (messages, first) == FifoStep(filesize, old(messages), ops[0]);
      var others := Replay(ops[1..]);
      outcomes := [first] + others;
    }
  }
}
