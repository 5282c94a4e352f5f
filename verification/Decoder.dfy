/**
 The decoder (decoder.hpp, decoder.cpp): makes messages out of bytes that it is
 given in any portions, in its own buffer or straight in the message, and
 passes them to a destination that may refuse a message at any time.
 */
module Decoder {
  import opened Common
  import opened Wire

  /** `destination->write`: the destination may take the message or refuse it. */
  method WriteDestination() returns (ok: bool)
  {
    ok := *;
  }

  /** `next`: the action that follows when enough was read. */
  datatype Step = ToOneByteSize | ToEightByteSize | ToFlags | ToMessage | Broken

  /** What was consumed is what was delivered and what is being read. */
  ghost predicate Synced(consumed: seq<Byte>, v: View, delivered: seq<Msg>) {
    Left(v) >= 0 && Feed(START, consumed) == (Advance(v).0, delivered + Advance(v).1)
  }

  lemma SyncedStart()
    ensures Synced([], START, [])
  {
    var none: seq<Msg> := [];
    assert none + [] == none;
  }

  /** Bytes that come from an encoder: nothing but its messages is delivered. */
  lemma SyncedPrefix(consumed: seq<Byte>, v: View, delivered: seq<Msg>, ms: seq<Msg>)
    requires Synced(consumed, v, delivered) && consumed <= Frames(ms)
    requires forall i {:trigger ms[i]} :: 0 <= i < |ms| ==> Fits(ms[i])
    ensures !v.Failed? && delivered <= AllArrived(ms)
  {
    PrefixDecodes(ms, consumed);
    assert delivered <= delivered + Advance(v).1;
  }

  /** And when all bytes came and no message waits, all messages were delivered. */
  lemma SyncedWhole(v: View, delivered: seq<Msg>, ms: seq<Msg>)
    requires Synced(Frames(ms), v, delivered) && Left(v) > 0
    requires forall i {:trigger ms[i]} :: 0 <= i < |ms| ==> Fits(ms[i])
    ensures delivered == AllArrived(ms) && v == START
  {
    FramesDecode(ms);
    assert delivered + [] == delivered;
  }

  lemma SyncedGather(consumed: seq<Byte>, v: View, delivered: seq<Msg>, bytes: seq<Byte>)
    requires Synced(consumed, v, delivered) && |bytes| <= Left(v)
    ensures Synced(consumed + bytes, Gather(v, bytes), delivered)
  {
    if bytes == [] {
      assert consumed + bytes == consumed;
      assert Gather(v, bytes) == v;
    } else {
      FeedConcat(START, consumed, bytes);
      FeedGathers(v, bytes);
      assert delivered + [] == delivered;
    }
  }

  lemma SyncedAct(consumed: seq<Byte>, v: View, delivered: seq<Msg>)
    requires Synced(consumed, v, delivered) && Left(v) == 0 && !v.Failed? && !v.Body?
    ensures Synced(consumed, Act(v), delivered)
  {
  }

  lemma SyncedDeliver(consumed: seq<Byte>, v: View, delivered: seq<Msg>)
    requires Synced(consumed, v, delivered) && Waiting(v)
    ensures Synced(consumed, START, delivered + [Msg(v.got, v.flags)])
  {
    assert delivered + [Msg(v.got, v.flags)] + [] == delivered + [Msg(v.got, v.flags)];
  }

  lemma Adjoining(before: seq<Byte>, s: seq<Byte>, i: nat, j: nat, k: nat)
    requires i <= j <= k <= |s|
    ensures before + s[i..j] + s[j..k] == before + s[i..k]
  {
    assert s[i..j] + s[j..k] == s[i..k];
    assert before + s[i..j] + s[j..k] == before + (s[i..j] + s[j..k]);
  }

  class MessageDecoder {
    const buf: array<Byte>
    const tmpbuf: array<Byte>
    var data: array<Byte>      // the body of `in_progress`
    var flags: Byte            // the flags of `in_progress`
    var readBuf: array<Byte>   // `read_pos` is a position in this array
    var readPos: nat
    var toRead: nat
    var next: Step
    ghost var consumed: seq<Byte>    // history: the bytes processed
    ghost var delivered: seq<Msg>    // history: the messages the destination took

    constructor (bufsize: nat)
      ensures Valid() && consumed == [] && delivered == [] && buf.Length == bufsize
      ensures fresh(buf) && fresh(tmpbuf) && fresh(data) && readBuf == tmpbuf
    {
      buf, tmpbuf, data, flags := new Byte[bufsize], new Byte[8], new Byte[0], 126;
      new;
      readBuf, readPos, toRead, next := tmpbuf, 0, 1, ToOneByteSize;
      consumed, delivered := [], [];
      assert View() == START;
      SyncedStart();
    }

    ghost predicate Apart()
      reads this
    {
      && tmpbuf.Length == 8 && buf != tmpbuf && data != buf && data != tmpbuf
      && readBuf == (if next.ToMessage? then data else tmpbuf)
      && readPos + toRead <= readBuf.Length
      && readPos + toRead == match next
                             case ToOneByteSize => 1
                             case ToEightByteSize => 8
                             case ToFlags => 1
                             case ToMessage => data.Length
                             case Broken => readPos
    }

    /** What is being read. */
    ghost function View(): View
      requires Apart()
      reads this, readBuf
    {
      match next
      case ToOneByteSize => OneByteSize(readBuf[..readPos])
      case ToEightByteSize => EightByteSize(readBuf[..readPos])
      case ToFlags => FlagsByte(data.Length, readBuf[..readPos])
      case ToMessage => Body(flags, data.Length, readBuf[..readPos])
      case Broken => Failed
    }

    ghost predicate Valid()
      reads this, readBuf
    {
      Apart() && Synced(consumed, View(), delivered)
    }

    /** The state machine has run as far as it can. */
    ghost predicate AtRest()
      requires Apart()
      reads this, readBuf
    {
      toRead > 0 || Waiting(View())
    }

    /** Where the next bytes should be put: in the message itself if it misses a buffer full or more. */
    method GetBuffer() returns (out: array<Byte>, start: nat, size: nat)
      requires Valid()
      ensures toRead >= buf.Length ==> out == readBuf && start == readPos && size == toRead
      ensures toRead < buf.Length ==> out == buf && start == 0 && size == buf.Length
    {
      if toRead >= buf.Length {
        return readBuf, readPos, toRead;
      }
      return buf, 0, buf.Length;
    }

    /** Bytes that are in their place are counted as read. */
    method Take(count: nat)
      requires Valid() && count <= toRead
      modifies `readPos, `toRead, `consumed
      ensures Valid() && toRead == old(toRead) - count && next == old(next)
      ensures consumed == old(consumed) + readBuf[old(readPos)..old(readPos) + count]
    {
      ghost var bytes := readBuf[readPos..readPos + count];
      SyncedGather(consumed, View(), delivered, bytes);
      ghost var v := View();
      assert readBuf[..readPos + count] == readBuf[..readPos] + bytes;
      readPos, toRead, consumed := readPos + count, toRead - count, consumed + bytes;
      assert View() == Gather(v, bytes);
    }

    /** The next part is read to `target`, from its beginning. */
    method NextStep(target: array<Byte>, size: nat, step: Step)
      modifies `readBuf, `readPos, `toRead, `next
      ensures readBuf == target && readPos == 0 && toRead == size && next == step
    {
      readBuf, readPos, toRead, next := target, 0, size, step;
    }

    /** Everything that was needed was read: run the state machine. */
    method RunNext() returns (ok: bool)
      requires Valid() && toRead == 0 && !next.Broken?
      modifies `data, `flags, `readBuf, `readPos, `toRead, `next, `delivered
      ensures Valid() && consumed == old(consumed) && (data == old(data) || fresh(data))
      ensures ok ==> !next.Broken? && (toRead > 0 || (next.ToMessage? && !old(next.ToMessage?)))
      ensures !ok ==> next.Broken? || Waiting(View())
    {
      ghost var v := View();
      if next.ToMessage? {
        ok := MessageReady();
      } else {
        SyncedAct(consumed, v, delivered);
        assert readBuf[..readPos] == v.got;
        match next
        case ToOneByteSize => ok := OneByteSizeReady();
        case ToEightByteSize => ok := EightByteSizeReady();
        case ToFlags =>
          FlagsReady();
          ok := true;
      }
    }

    method OneByteSizeReady() returns (ok: bool)
      requires Apart() && toRead == 0 && next.ToOneByteSize?
      modifies `data, `readBuf, `readPos, `toRead, `next
      ensures Apart() && View() == Act(old(View())) && (data == old(data) || fresh(data))
      ensures if ok then toRead > 0 else next.Broken?
    {
      var size := tmpbuf[0];
      if size == 255 {
        NextStep(tmpbuf, 8, ToEightByteSize);
        return true;
      }
      // There has to be at least one byte, the flags.
      if size == 0 {
        next := Broken;
        return false;
      }
      data := new Byte[size - 1];
      NextStep(tmpbuf, 1, ToFlags);
      return true;
    }

    method EightByteSizeReady() returns (ok: bool)
      requires Apart() && toRead == 0 && next.ToEightByteSize?
      modifies `data, `readBuf, `readPos, `toRead, `next
      ensures Apart() && View() == Act(old(View())) && (data == old(data) || fresh(data))
      ensures if ok then toRead > 0 else next.Broken?
    {
      var size := GetUint64(tmpbuf);
      assert tmpbuf[..8] == tmpbuf[..];
      if size == 0 {
        next := Broken;
        return false;
      }
      data := new Byte[size - 1];
      NextStep(tmpbuf, 1, ToFlags);
      return true;
    }

    method FlagsReady()
      requires Apart() && toRead == 0 && next.ToFlags?
      modifies `flags, `readBuf, `readPos, `toRead, `next
      ensures Apart() && View() == Act(old(View())) && next.ToMessage?
    {
      flags := Unmasked(tmpbuf[0]);
      NextStep(data, data.Length, ToMessage);
      assert data[..0] == [];
    }

    method MessageReady() returns (ok: bool)
      requires Valid() && toRead == 0 && next.ToMessage?
      modifies `data, `readBuf, `readPos, `toRead, `next, `delivered
      ensures Valid() && (data == old(data) || fresh(data))
      ensures if ok then toRead > 0 && !next.Broken? else Waiting(View())
    {
      ok := WriteDestination();
      if ok {
        SyncedDeliver(consumed, View(), delivered);
        delivered := delivered + [Msg(data[..], flags)];
        assert data[..readPos] == data[..];
        data := new Byte[0];
        NextStep(tmpbuf, 1, ToOneByteSize);
        assert tmpbuf[..0] == [];
      }
    }

    /** Runs the state machine until more bytes are needed or the destination refuses a message. */
    method RunAll() returns (ok: bool)
      requires Valid() && !next.Broken?
      modifies `data, `flags, `readBuf, `readPos, `toRead, `next, `delivered
      ensures Valid() && consumed == old(consumed) && (data == old(data) || fresh(data))
      ensures if ok then toRead > 0 && !next.Broken? else next.Broken? || Waiting(View())
    {
      while toRead == 0
        invariant Valid() && !next.Broken? && consumed == old(consumed) && (data == old(data) || fresh(data))
        decreases if toRead > 0 then 0 else if next.ToMessage? then 1 else 2
      {
        ok := RunNext();
        if !ok {
          return;
        }
      }
      ok := true;
    }

    /** The bytes are in their place already. */
    method ProcessInPlace(size: nat) returns (processed: int)
      requires Valid() && !next.Broken? && size <= toRead
      modifies `data, `flags, `readBuf, `readPos, `toRead, `next, `delivered, `consumed
      ensures Valid() && consumed == old(consumed) + old(readBuf[readPos..readPos + size])
      ensures data == old(data) || fresh(data)
      ensures processed == (if next.Broken? then -1 else size)
      ensures !next.Broken? ==> AtRest()
    {
      Take(size);
      var ok := RunAll();
      processed := if next.Broken? then -1 else size;
    }

    /** What was consumed since `before` is what the buffer holds. */
    ghost predicate Used(before: seq<Byte>, bytes: array<Byte>, start: nat, count: nat)
      reads `consumed, bytes
    {
      start + count <= bytes.Length && consumed == before + bytes[start..start + count]
    }

    /** Some bytes of the buffer are copied to where they are needed. */
    method CopyIn(bytes: array<Byte>, start: nat, pos: nat, size: nat, ghost before: seq<Byte>) returns (count: nat)
      requires Valid() && bytes != readBuf && pos <= size && start + size <= bytes.Length && Used(before, bytes, start, pos)
      modifies readBuf, `readPos, `toRead, `consumed
      ensures Valid() && next == old(next) && toRead == old(toRead) - count
      ensures count == (if size - pos < old(toRead) then size - pos else old(toRead))
      ensures Used(before, bytes, start, pos + count)
    {
      count := if size - pos < toRead then size - pos else toRead;
      ghost var v, whole := View(), bytes[..];
      CopyBytes(bytes, start + pos, readBuf, readPos, count);
      assert View() == v && bytes[..] == whole;
      Take(count);
      Adjoining(before, whole, start, start + pos, start + (pos + count));
    }

    /** The bytes are in the decoder's buffer and are copied from there. */
    method ProcessCopied(start: nat, size: nat) returns (processed: int)
      requires Valid() && !next.Broken? && start + size <= buf.Length
      modifies this, data, tmpbuf
      ensures Valid() && (data == old(data) || fresh(data))
      ensures -1 <= processed <= size && (processed == -1 <==> next.Broken?)
      ensures !next.Broken? ==> AtRest()
      ensures processed >= 0 ==> Used(old(consumed), buf, start, processed)
      ensures consumed <= old(consumed) + buf[start..start + size]
      ensures 0 <= processed < size ==> Waiting(View())
    {
      var pos := 0;
      assert Used(consumed, buf, start, 0) by {
        assert consumed + buf[start..start + 0] == consumed;
      }
      while true
        invariant Valid() && !next.Broken? && pos <= size && (data == old(data) || fresh(data))
        invariant Used(old(consumed), buf, start, pos)
        decreases size - pos
      {
        assert buf[start..start + size][..pos] == buf[start..start + pos];
        var ok := RunAll();
        if !ok {
          return if next.Broken? then -1 else pos;
        }
        if pos == size {
          return pos;
        }
        var count := CopyIn(buf, start, pos, size, old(consumed));
        pos := pos + count;
      }
    }

    /** Processes bytes[start..start + size], which `GetBuffer` provided the memory for.  Returns how
        many were processed, or -1 if the bytes cannot be decoded. */
    method ProcessBuffer(bytes: array<Byte>, start: nat, size: nat) returns (processed: int)
      requires Valid() && start + size <= bytes.Length
      requires if bytes == readBuf && start == readPos then size <= toRead else bytes == buf
      modifies this, data, tmpbuf
      ensures Valid() && (data == old(data) || fresh(data))
      ensures -1 <= processed <= size && (processed == -1 <==> next.Broken?)
      ensures !next.Broken? ==> AtRest()
      ensures processed >= 0 ==> consumed == old(consumed) + old(bytes[start..start + processed])
      ensures consumed <= old(consumed) + old(bytes[start..start + size])
      ensures bytes != buf && processed != -1 ==> processed == size
      // bytes are left over only if the destination refused a message
      ensures 0 <= processed < size ==> Waiting(View())
    {
      if next.Broken? {
        processed := -1;
      } else if bytes == readBuf && start == readPos {
        processed := ProcessInPlace(size);
      } else {
        processed := ProcessCopied(start, size);
      }
    }
  }
}
