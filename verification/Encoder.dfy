/**
 The encoder (encoder.hpp, encoder.cpp): takes messages from a source and
 returns them in batches of bytes, from a buffer or straight from the message.
 */
module Encoder {
  import opened Common
  import opened Wire

  /** A message in memory. */
  datatype Message = Message(data: array<Byte>, flags: Byte)

  ghost function Value(m: Message): Msg
    reads m.data
  {
    Msg(m.data[..], m.flags)
  }

  /** `source->read`: any message, or none. */
  method ReadSource() returns (m: Option<Message>)
    ensures m.Some? ==> fresh(m.value.data) && Fits(Value(m.value))
  {
    m := None;
    var some: bool := *;
    if some {
      var size: nat, flags: Byte := *, *;
      if size + 1 < LIMIT {
        var data := new Byte[size];
        m := Some(Message(data, flags));
      }
    }
  }

  /** The bytes returned, those at hand and those after them are the messages on the wire. */
  ghost predicate Coded(emitted: seq<Byte>, now: seq<Byte>, later: seq<Byte>, taken: seq<Msg>) {
    emitted + now + later == Frames(taken) && forall i {:trigger taken[i]} :: 0 <= i < |taken| ==> Fits(taken[i])
  }

  lemma CodedAdvance(emitted: seq<Byte>, a: seq<Byte>, b: seq<Byte>, later: seq<Byte>, taken: seq<Msg>)
    requires Coded(emitted, a + b, later, taken)
    ensures Coded(emitted + a, b, later, taken)
  {
    assert emitted + (a + b) == emitted + a + b;
  }

  lemma CodedBody(emitted: seq<Byte>, body: seq<Byte>, taken: seq<Msg>)
    requires Coded(emitted, [], body, taken)
    ensures Coded(emitted, body, [], taken)
  {
    assert emitted + [] == emitted;
    assert emitted + body + [] == emitted + body;
  }

  lemma CodedTake(emitted: seq<Byte>, taken: seq<Msg>, m: Msg)
    requires Coded(emitted, [], [], taken) && Fits(m)
    ensures Coded(emitted, Header(m), m.body, taken + [m])
  {
    assert emitted + [] + [] == emitted;
    assert (taken + [m])[..|taken|] == taken;
    assert emitted + Header(m) + m.body == emitted + (Header(m) + m.body);
  }

  /** `next`: the action that follows when the bytes at hand are written. */
  datatype Step = ToBody | ToNextMessage

  class MessageEncoder {
    const buf: array<Byte>
    const tmpbuf: array<Byte>
    var inProgress: Message
    var writeBuf: array<Byte>   // `write_pos` is a position in this array
    var writePos: nat
    var toWrite: nat
    var next: Step
    ghost var taken: seq<Msg>      // history: the messages read from the source
    ghost var emitted: seq<Byte>   // history: the bytes returned

    constructor (bufsize: nat)
      ensures Valid() && emitted == [] && taken == [] && buf.Length == bufsize
      ensures fresh(buf) && fresh(tmpbuf) && fresh(writeBuf) && fresh(inProgress.data)
    {
      buf, tmpbuf := new Byte[bufsize], new Byte[10];
      var empty := new Byte[0];
      inProgress := Message(empty, 126);
      writeBuf, writePos, toWrite, next := empty, 0, 0, ToNextMessage;
      taken, emitted := [], [];
    }

    ghost predicate Apart()
      reads this
    {
      && tmpbuf.Length == 10 && writePos + toWrite <= writeBuf.Length
      && (writeBuf == tmpbuf || writeBuf == inProgress.data)
      && buf != tmpbuf && inProgress.data != buf && inProgress.data != tmpbuf
    }

    /** The bytes at hand. */
    ghost function Now(): seq<Byte>
      requires Apart()
      reads this, writeBuf
    {
      writeBuf[writePos..writePos + toWrite]
    }

    /** The bytes that follow them. */
    ghost function Later(): seq<Byte>
      reads `next, `inProgress, inProgress.data
    {
      if next.ToBody? then inProgress.data[..] else []
    }

    ghost predicate Valid()
      reads this, writeBuf, inProgress.data
    {
      Apart() && Coded(emitted, Now(), Later(), taken)
    }

    /** Nothing is left of the part at hand: run the state machine. */
    method RunNext() returns (ok: bool)
      requires Valid() && toWrite == 0
      modifies this, tmpbuf
      ensures Valid() && emitted == old(emitted)
      ensures inProgress.data == old(inProgress.data) || fresh(inProgress.data)
      ensures ok && old(next.ToNextMessage?) ==> toWrite >= 2
      ensures ok && old(next.ToBody?) ==> next.ToNextMessage?
      ensures !ok ==> emitted == Frames(taken)
    {
      if next.ToBody? {
        SizeReady();
        ok := true;
      } else {
        ok := NextMessage();
      }
    }

    /** `size_ready`: the header was written, the body is next. */
    method SizeReady()
      requires Valid() && toWrite == 0 && next.ToBody?
      modifies `writeBuf, `writePos, `toWrite, `next
      ensures Valid() && next.ToNextMessage?
    {
      ghost var body := inProgress.data[..];
      assert Now() == [];
      CodedBody(emitted, body, taken);
      writeBuf, writePos, toWrite := inProgress.data, 0, inProgress.data.Length;
      next := ToNextMessage;
      assert Now() == body;
    }

    /** `message_ready`: the body was written, the next message is taken from the source. */
    method NextMessage() returns (ok: bool)
      requires Valid() && toWrite == 0 && next.ToNextMessage?
      modifies this, tmpbuf
      ensures Valid() && emitted == old(emitted)
      ensures inProgress.data == old(inProgress.data) || fresh(inProgress.data)
      ensures ok ==> next.ToBody? && toWrite >= 2
      ensures !ok ==> emitted == Frames(taken)
    {
      assert Now() == [] && Later() == [];
      assert emitted + [] + [] == emitted;
      var read := ReadSource();
      if read.None? {
        TakeNothing();
        ok := false;
      } else {
        TakeMessage(read.value);
        ok := true;
      }
    }

    /** The old message was closed and an empty one takes its place. */
    method TakeNothing()
      requires Valid() && Now() == [] && Later() == [] && next.ToNextMessage?
      modifies `inProgress, `writeBuf, `writePos, `toWrite
      ensures Valid() && fresh(inProgress.data)
    {
      var empty := new Byte[0];
      inProgress := Message(empty, 126);
      writeBuf, writePos, toWrite := inProgress.data, 0, 0;
      assert Now() == [];
    }

    method TakeMessage(message: Message)
      requires Valid() && Now() == [] && Later() == [] && Fits(Value(message))
      requires message.data != buf && message.data != tmpbuf
      modifies this, tmpbuf
      ensures Valid() && emitted == old(emitted) && inProgress == message && next.ToBody? && toWrite >= 2
    {
      ghost var m := Value(message);
      CodedTake(emitted, taken, m);
      inProgress := message;
      WriteHeader();
      next, taken := ToBody, taken + [m];
      assert Now() == Header(m) && Later() == m.body;
    }

    method WriteHeader()
      requires tmpbuf.Length == 10 && inProgress.data != tmpbuf && Fits(Value(inProgress))
      modifies tmpbuf, `writeBuf, `writePos, `toWrite
      ensures writeBuf == tmpbuf && writePos == 0 && 2 <= toWrite <= 10
      ensures tmpbuf[0..toWrite] == Header(Value(inProgress))
    {
      var size := inProgress.data.Length + 1;
      if size < 255 {
        tmpbuf[0] := size;
        tmpbuf[1] := More(inProgress.flags);
        toWrite := 2;
      } else {
        tmpbuf[0] := 255;
        PutUint64(tmpbuf, 1, size);
        tmpbuf[9] := More(inProgress.flags);
        toWrite := 10;
        assert tmpbuf[0..10] == [255] + tmpbuf[1..9] + [tmpbuf[9]];
      }
      writeBuf, writePos := tmpbuf, 0;
    }

    /** The next bytes are returned, wherever they are returned from. */
    method Advance(count: nat)
      requires Valid() && count <= toWrite
      modifies `emitted, `writePos, `toWrite
      ensures Valid() && writePos == old(writePos) + count && toWrite == old(toWrite) - count
      ensures emitted == old(emitted) + writeBuf[old(writePos)..old(writePos) + count]
    {
      ghost var a, b := writeBuf[writePos..writePos + count], writeBuf[writePos + count..writePos + toWrite];
      assert Now() == a + b;
      CodedAdvance(emitted, a, b, Later(), taken);
      emitted := emitted + a;
      writePos, toWrite := writePos + count, toWrite - count;
      assert Now() == b;
    }

    /** `memcpy` of the next bytes into the buffer. */
    method Copy(buffer: array<Byte>, pos: nat, count: nat)
      requires Valid() && buffer != writeBuf && buffer != inProgress.data
      requires pos + count <= buffer.Length && count <= toWrite
      modifies buffer
      ensures Valid() && buffer[..pos] == old(buffer[..pos])
      ensures buffer[pos..pos + count] == writeBuf[writePos..writePos + count]
    {
      CopyBytes(writeBuf, writePos, buffer, pos, count);
      assert Now() == old(Now()) && Later() == old(Later());
    }

    /** What was returned since `before` is at the given place. */
    ghost predicate Returned(before: seq<Byte>, out: array<Byte>, start: nat, count: nat)
      reads `emitted, out
    {
      start + count <= out.Length && emitted == before + out[start..start + count]
    }

    ghost predicate Buffered(before: seq<Byte>, buffer: array<Byte>, pos: nat)
      reads `emitted, `inProgress, buffer
    {
      buffer != tmpbuf && buffer != inProgress.data && Returned(before, buffer, 0, pos)
    }

    /** The state machine leaves the buffer alone. */
    method RunNextBeside(buffer: array<Byte>, pos: nat, ghost before: seq<Byte>) returns (ok: bool)
      requires Valid() && toWrite == 0 && Buffered(before, buffer, pos)
      modifies this, tmpbuf
      ensures Valid() && Buffered(before, buffer, pos) && emitted == old(emitted)
      ensures inProgress.data == old(inProgress.data) || fresh(inProgress.data)
      ensures ok && old(next.ToNextMessage?) ==> toWrite >= 2
      ensures ok && old(next.ToBody?) ==> next.ToNextMessage?
      ensures !ok ==> emitted == Frames(taken)
    {
      ghost var done := buffer[0..pos];
      ok := RunNext();
      assert buffer[0..pos] == done;
    }

    /** One turn of the loop that copies: some bytes more in the buffer. */
    method FillBuffer(buffer: array<Byte>, pos: nat, room: nat, ghost before: seq<Byte>) returns (count: nat)
      requires Valid() && Buffered(before, buffer, pos) && pos + room <= buffer.Length
      modifies buffer, `emitted, `writePos, `toWrite
      ensures Valid() && count == (if old(toWrite) < room then old(toWrite) else room) && toWrite == old(toWrite) - count
      ensures Buffered(before, buffer, pos + count)
    {
      count := if toWrite < room then toWrite else room;
      ghost var done := buffer[0..pos];
      Copy(buffer, pos, count);
      Advance(count);
      assert buffer[0..pos + count] == done + buffer[pos..pos + count];
      assert before + done + buffer[pos..pos + count] == before + (done + buffer[pos..pos + count]);
    }

    /** All bytes at hand are returned where they are. */
    method ReturnAll(buffer: array<Byte>, ghost before: seq<Byte>) returns (out: array<Byte>, start: nat, count: nat)
      requires Valid() && Buffered(before, buffer, 0)
      modifies `emitted, `writePos, `toWrite
      ensures Valid() && Returned(before, out, start, count) && count == old(toWrite)
    {
      assert before + buffer[0..0] == before;
      out, start, count := writeBuf, writePos, toWrite;
      Advance(toWrite);
    }

    /** Returns the next bytes: out[start..start + count], in the buffer of the caller if there is one. */
    method GetData(data: array?<Byte>, size: nat) returns (out: array<Byte>, start: nat, count: nat)
      requires Valid()
      requires data != null ==> size <= data.Length && data != tmpbuf && data != inProgress.data
      modifies this, buf, tmpbuf, if data == null then {} else {data}
      ensures Valid() && Returned(old(emitted), out, start, count)
      ensures inProgress.data == old(inProgress.data) || fresh(inProgress.data)
      // less than a buffer is returned only if everything that was taken is returned
      ensures count < (if data == null then buf.Length else size) ==> emitted == Frames(taken)
    {
      var buffer := if data == null then buf else data;
      var bufferSize := if data == null then buf.Length else size;
      ghost var before := emitted;
      var pos := 0;
      assert Buffered(before, buffer, 0) by {
        assert before + buffer[0..0] == before;
      }
      while true
        invariant Valid() && pos <= bufferSize && Buffered(before, buffer, pos)
        invariant inProgress.data == old(inProgress.data) || fresh(inProgress.data)
        decreases bufferSize - pos, if next.ToBody? then 1 else 0
      {
        if toWrite == 0 {
          var ok := RunNextBeside(buffer, pos, before);
          if !ok {
            return buffer, 0, pos;
          }
        }
        // Nothing in the buffer yet and enough for a whole one: no need to copy.
        if pos == 0 && data == null && toWrite >= bufferSize {
          out, start, count := ReturnAll(buffer, before);
          return;
        }
        var copied := FillBuffer(buffer, pos, bufferSize - pos, before);
        pos := pos + copied;
        if pos == bufferSize {
          return buffer, 0, pos;
        }
      }
    }
  }
}
