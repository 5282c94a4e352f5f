/**
 The two ends of a connection (zmq_engine.cpp): one engine writes to the socket
 what its encoder returns, the other gives what it reads from the socket to its
 decoder.  The socket takes and returns any number of bytes at a time.
 */
module Engine {
  import opened Wire
  import opened Encoder
  import opened Decoder

  /** How many bytes the socket takes or returns: some, at most as many as it is offered. */
  method SocketCount(offered: nat) returns (count: nat)
    ensures count <= offered
  {
    count :| 0 <= count <= offered;
  }

  class Sender {
    const encoder: MessageEncoder
    var outBuf: array<Byte>
    var outPos: nat
    var outSize: nat
    ghost var sent: seq<Byte>       // history: the bytes the socket took

    constructor (bufsize: nat)
      ensures Valid() && sent == [] && fresh(encoder) && fresh(encoder.buf) && fresh(encoder.tmpbuf)
    {
      encoder := new MessageEncoder(bufsize);
      outBuf, outPos, outSize := new Byte[0], 0, 0;
      sent := [];
    }

    ghost predicate Valid()
      reads this, outBuf, encoder, encoder.writeBuf, encoder.inProgress.data
    {
      && encoder.Valid() && outPos + outSize <= outBuf.Length
      && sent + outBuf[outPos..outPos + outSize] == encoder.emitted
    }

    /** `out_event`: returns the bytes that the socket took. */
    method OutEvent() returns (bytes: seq<Byte>)
      requires Valid()
      modifies this, encoder, encoder.buf, encoder.tmpbuf
      ensures Valid() && sent == old(sent) + bytes
    {
      if outSize == 0 {
        NextBatch();
      }
      var nbytes := SocketCount(outSize);
      bytes := Write(nbytes);
    }

    method NextBatch()
      requires Valid() && outSize == 0
      modifies this, encoder, encoder.buf, encoder.tmpbuf
      ensures Valid() && sent == old(sent)
    {
      assert sent + outBuf[outPos..outPos + 0] == sent;
      outBuf, outPos, outSize := encoder.GetData(null, 0);
    }

    method Write(nbytes: nat) returns (bytes: seq<Byte>)
      requires Valid() && nbytes <= outSize
      modifies `outPos, `outSize, `sent
      ensures Valid() && sent == old(sent) + bytes
    {
      bytes := outBuf[outPos..outPos + nbytes];
      ghost var later := outBuf[outPos + nbytes..outPos + outSize];
      assert outBuf[outPos..outPos + outSize] == bytes + later;
      assert sent + (bytes + later) == sent + bytes + later;
      sent := sent + bytes;
      outPos, outSize := outPos + nbytes, outSize - nbytes;
    }
  }

  class Receiver {
    const decoder: MessageDecoder
    var inBuf: array<Byte>
    var inPos: nat
    var inSize: nat
    var error: bool
    ghost var received: seq<Byte>   // history: the bytes read from the socket

    constructor (bufsize: nat)
      ensures Valid() && received == [] && !error
    {
      decoder := new MessageDecoder(bufsize);
      inBuf, inPos, inSize, error := new Byte[0], 0, 0, false;
      received := [];
    }

    /** The bytes read are processed, or still in the buffer. */
    ghost predicate Holds()
      reads this, inBuf, decoder
    {
      inPos + inSize <= inBuf.Length && received == decoder.consumed + inBuf[inPos..inPos + inSize]
    }

    ghost predicate Valid()
      reads this, inBuf, decoder, decoder.readBuf
    {
      && decoder.Valid() && (error <==> decoder.next.Broken?)
      && (error ==> decoder.consumed <= received)
      && (!error ==> decoder.AtRest())
      && (!error ==> Holds() && (inSize > 0 ==> inBuf == decoder.buf))
    }

    /** `recv`: the bytes are put where the decoder wants them; nobody else looks there. */
    method Fill(target: array<Byte>, start: nat, bytes: seq<Byte>)
      requires decoder.Valid() && decoder.AtRest() && start + |bytes| <= target.Length
      requires target == decoder.buf || (target == decoder.readBuf && decoder.readPos <= start)
      modifies target
      ensures decoder.Valid() && decoder.AtRest() && target[start..start + |bytes|] == bytes
    {
      ghost var v := decoder.View();
      for i := 0 to |bytes|
        invariant target[start..start + i] == bytes[..i]
        invariant decoder.Apart() && decoder.View() == v
      {
        target[start + i] := bytes[i];
      }
    }

    /** The socket returns some of the bytes that are available. */
    method ReadSocket(available: seq<Byte>) returns (count: nat)
      requires Valid() && !error && inSize == 0
      modifies this, decoder.readBuf, decoder.buf
      ensures decoder.Valid() && decoder.AtRest() && Holds() && !error
      ensures count <= |available| && received == old(received) + available[..count]
      ensures if inBuf == decoder.readBuf && inPos == decoder.readPos then inSize <= decoder.toRead else inBuf == decoder.buf
    {
      NothingHeld();
      var target, start, size := decoder.GetBuffer();
      count := SocketCount(if size < |available| then size else |available|);
      Fill(target, start, available[..count]);
      inBuf, inPos, inSize := target, start, count;
      received := received + available[..count];
    }

    lemma NothingHeld()
      requires Holds() && inSize == 0
      ensures received == decoder.consumed
    {
      assert inBuf[inPos..inPos + 0] == [];
    }

    /** Feeds the decoder. */
    method Process()
      requires decoder.Valid() && Holds() && !error
      requires if inBuf == decoder.readBuf && inPos == decoder.readPos then inSize <= decoder.toRead else inBuf == decoder.buf
      modifies this, decoder, decoder.data, decoder.tmpbuf
      ensures Valid() && received == old(received)
      ensures !error && inSize > 0 ==> Waiting(decoder.View())
    {
      ghost var fed, before := inBuf[..], decoder.consumed;
      var processed := decoder.ProcessBuffer(inBuf, inPos, inSize);
      if processed == -1 {
        error := true;
      } else {
        Adjust(processed, before, fed);
      }
    }

    method Adjust(processed: nat, ghost before: seq<Byte>, ghost fed: seq<Byte>)
      requires processed <= inSize && inPos + inSize <= inBuf.Length && |fed| == inBuf.Length
      requires processed < inSize ==> inBuf[..] == fed
      requires decoder.consumed == before + fed[inPos..inPos + processed]
      requires received == before + fed[inPos..inPos + inSize]
      modifies `inPos, `inSize
      ensures Holds() && inSize == old(inSize) - processed
    {
      Adjoining(before, fed, inPos, inPos + processed, inPos + inSize);
      inPos, inSize := inPos + processed, inSize - processed;
      assert inSize == 0 ==> fed[inPos..inPos + inSize] == inBuf[inPos..inPos + inSize];
    }

    /** `in_event`: reads from the socket if nothing is left of the last read, and feeds the decoder.
        Returns how many bytes were read. */
    method InEvent(available: seq<Byte>) returns (count: nat)
      requires Valid() && !error
      modifies this, decoder, decoder.readBuf, decoder.buf, decoder.data, decoder.tmpbuf
      ensures Valid() && count <= |available| && received == old(received) + available[..count]
      // whatever is not processed waits for the destination to take a message
      ensures !error && inSize > 0 ==> Waiting(decoder.View())
    {
      count := 0;
      assert received + available[..0] == received;
      if inSize == 0 {
        count := ReadSocket(available);
      }
      Process();
    }
  }

  /** Whatever the engines did so far: as long as the socket hands on bytes in order, the messages
      delivered are the first of those taken from the source, and nothing fails. */
  lemma DeliveredInOrder(sender: Sender, receiver: Receiver)
    requires sender.Valid() && receiver.Valid() && receiver.received <= sender.sent
    ensures !receiver.error && receiver.decoder.delivered <= AllArrived(sender.encoder.taken)
  {
    var encoder, decoder := sender.encoder, receiver.decoder;
    assert sender.sent <= encoder.emitted <= Frames(encoder.taken);
    assert decoder.consumed <= receiver.received;
    SyncedPrefix(decoder.consumed, decoder.View(), decoder.delivered, encoder.taken);
  }

  /** And when nothing is left - in the encoder, in the batch, on the way, in the buffer, at the
      destination - they are all of them. */
  lemma AllDelivered(sender: Sender, receiver: Receiver)
    requires sender.Valid() && receiver.Valid() && receiver.received == sender.sent
    requires sender.encoder.emitted == Frames(sender.encoder.taken) && sender.outSize == 0 && receiver.inSize == 0
    requires !Waiting(receiver.decoder.View())
    ensures receiver.decoder.delivered == AllArrived(sender.encoder.taken)
  {
    DeliveredInOrder(sender, receiver);
    assert sender.sent + sender.outBuf[sender.outPos..sender.outPos + 0] == sender.sent;
    receiver.NothingHeld();
    SyncedWhole(receiver.decoder.View(), receiver.decoder.delivered, sender.encoder.taken);
  }
}
