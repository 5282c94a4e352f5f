/**
 The two ends of a message pipe without swap (pipe.cpp).

 PipeHandlers says what each operation does to the fields of a reader_t or
 writer_t and to the shared pipe, and which commands it sends.  PipeEnds runs
 the same operations in place.  PipeProtocol (in PipeProtocol.dfy) connects two
 ends by their command channels.
 */
module PipeHandlers {
  import opened Common
  import FlushQueue

  /** A part of a message, or the mark that the writer leaves when it terminates. */
  datatype Item<B> = Part(body: B, more: bool) | Delimiter

  type Pipe<B> = FlushQueue.Queue<Item<B>>

  datatype ToReader = ActivateReader | PipeTermAck
  datatype ToWriter = ActivateWriter(msgsRead: nat) | PipeTerm

  datatype ReaderEnd = ReaderEnd(active: bool, lwm: nat, msgsRead: nat, terminating: bool)

  datatype WriterEnd = WriterEnd(active: bool, hwm: nat, msgsRead: nat, msgsWritten: nat, terminating: bool)

  /** What an operation of the reader leaves behind: `ok` and `item` are what it returns. */
  datatype ReaderReply<B> = ReaderReply(
    end: ReaderEnd, pipe: Pipe<B>, sent: seq<ToWriter>, ok: bool, item: Option<Item<B>>, delimited: bool)

  datatype WriterReply<B> = WriterReply(end: WriterEnd, pipe: Pipe<B>, sent: seq<ToReader>, ok: bool)

  const MAX_WM_DELTA: nat := 1024

  /** The low watermark of `create_pipe`; zero only if the pipe is unlimited. */
  function Lwm(hwm: nat): (lwm: nat)
    ensures hwm == 0 ==> lwm == 0
    ensures hwm > 0 ==> 1 <= lwm <= hwm
    ensures hwm > 2 * MAX_WM_DELTA ==> hwm - lwm == MAX_WM_DELTA
    ensures hwm <= 2 * MAX_WM_DELTA ==> hwm <= 2 * lwm <= hwm + 1
  {
    if hwm > MAX_WM_DELTA * 2 then hwm - MAX_WM_DELTA else (hwm + 1) / 2
  }

  // The reader

  function ReaderTerminate(r: ReaderEnd): (ReaderEnd, seq<ToWriter>) {
    if r.terminating then (r, []) else (r.(active := false, terminating := true), [PipeTerm])
  }

  /** The delimiter was taken out of the pipe. */
  function Delimited<B>(r: ReaderEnd, p: Pipe<B>): ReaderReply<B> {
    var (r', sent) := ReaderTerminate(r);
    ReaderReply(r', p, sent, false, None, true)
  }

  function CheckRead<B>(r: ReaderEnd, p: Pipe<B>): ReaderReply<B> {
    if !r.active then ReaderReply(r, p, [], false, None, false)
    else
      var (p1, found) := FlushQueue.CheckRead(p);
      if !found then ReaderReply(r.(active := false), p1, [], false, None, false)
      else if p1.flushed[0].Delimiter? then Delimited(r, FlushQueue.Read(p1).0)
      else ReaderReply(r, p1, [], true, None, false)
  }

  function Count(r: ReaderEnd, more: bool): ReaderEnd {
    if more then r else r.(msgsRead := r.msgsRead + 1)
  }

  /** The ack that is due after a part was read; repeated for every further part. */
  function Ack(r: ReaderEnd): seq<ToWriter> {
    if r.lwm > 0 && r.msgsRead % r.lwm == 0 then [ActivateWriter(r.msgsRead)] else []
  }

  function Read<B>(r: ReaderEnd, p: Pipe<B>): ReaderReply<B> {
    if !r.active then ReaderReply(r, p, [], false, None, false)
    else
      var (p1, item) := FlushQueue.Read(p);
      if item.None? then ReaderReply(r.(active := false), p1, [], false, None, false)
      else if item.value.Delimiter? then Delimited(r, p1)
      else
        var r1 := Count(r, item.value.more);
        ReaderReply(r1, p1, Ack(r1), true, item, false)
  }

  // The writer

  predicate PipeFull(w: WriterEnd) {
    w.hwm > 0 && w.msgsWritten - w.msgsRead == w.hwm
  }

  predicate CanWrite(w: WriterEnd) { w.active && !PipeFull(w) }

  function CheckWrite(w: WriterEnd): WriterEnd {
    if CanWrite(w) then w else w.(active := false)
  }

  function Write<B>(w: WriterEnd, p: Pipe<B>, body: B, more: bool): WriterReply<B> {
    if !CanWrite(w) then WriterReply(CheckWrite(w), p, [], false)
    else WriterReply(if more then w else w.(msgsWritten := w.msgsWritten + 1),
                     FlushQueue.Write(p, Part(body, more), more), [], true)
  }

  /** `rollback` takes back the parts of an incomplete message. */
  function Rollback<B>(p: Pipe<B>): Pipe<B> { p.(open := []) }

  function Flush<B>(p: Pipe<B>): (Pipe<B>, seq<ToReader>) {
    var (p', awake) := FlushQueue.Flush(p);
    (p', if awake then [] else [ActivateReader])
  }

  function WriterTerminate<B>(w: WriterEnd, p: Pipe<B>): WriterReply<B> {
    if w.terminating then WriterReply(w, p, [], true)
    else
      var (p', sent) := Flush(FlushQueue.Write(Rollback(p), Delimiter, false));
      WriterReply(w.(active := false, terminating := true), p', sent, true)
  }

  function ProcessActivateWriter(w: WriterEnd, msgsRead: nat): WriterEnd {
    w.(msgsRead := msgsRead, active := w.active || !w.terminating)
  }
}

module PipeEnds {
  import opened Common
  import FlushQueue
  import H = PipeHandlers
  import opened PipeHandlers

  /** The ypipe between the two ends. */
  class SharedPipe<B> {
    var queue: Pipe<B>

    constructor ()
      ensures queue == FlushQueue.Empty()
    {
      queue := FlushQueue.Empty();
    }

    method Write(item: Item<B>, incomplete: bool)
      modifies this
      ensures queue == FlushQueue.Write(old(queue), item, incomplete)
    {
      queue := FlushQueue.Write(queue, item, incomplete);
    }

    method Unwrite() returns (item: Option<Item<B>>)
      modifies this
      ensures (queue, item) == FlushQueue.Unwrite(old(queue))
    {
      var (q, i) := FlushQueue.Unwrite(queue);
      queue, item := q, i;
    }

    method Flush() returns (awake: bool)
      modifies this
      ensures (queue, awake) == FlushQueue.Flush(old(queue))
    {
      var (q, a) := FlushQueue.Flush(queue);
      queue, awake := q, a;
    }

    method CheckRead() returns (found: bool)
      modifies this
      ensures (queue, found) == FlushQueue.CheckRead(old(queue))
    {
      var (q, f) := FlushQueue.CheckRead(queue);
      queue, found := q, f;
    }

    method Read() returns (item: Option<Item<B>>)
      modifies this
      ensures (queue, item) == FlushQueue.Read(old(queue))
    {
      var (q, i) := FlushQueue.Read(queue);
      queue, item := q, i;
    }
  }

  class Reader<B> {
    var active: bool
    const pipe: SharedPipe<B>
    const lwm: nat
    var msgsRead: nat
    var terminating: bool
    var delimited: bool         // the sink was told that the delimiter was read
    var outbox: seq<ToWriter>   // commands sent to the writer

    ghost function View(): ReaderEnd
      reads this
    {
      ReaderEnd(active, lwm, msgsRead, terminating)
    }

    constructor (pipe_: SharedPipe<B>, lwm_: nat)
      ensures pipe == pipe_ && outbox == [] && !delimited
      ensures View() == ReaderEnd(true, lwm_, 0, false)
    {
      active, pipe, lwm, msgsRead, terminating := true, pipe_, lwm_, 0, false;
      delimited, outbox := false, [];
    }

    method Terminate()
      modifies `active, `terminating, `outbox
      ensures var (end, sent) := ReaderTerminate(old(View())); View() == end && outbox == old(outbox) + sent
    {
      if terminating {
        return;
      }
      active := false;
      terminating := true;
      outbox := outbox + [PipeTerm];
    }

    method CheckRead() returns (ok: bool)
      modifies this, pipe
      ensures var reply := H.CheckRead(old(View()), old(pipe.queue));
              View() == reply.end && pipe.queue == reply.pipe && outbox == old(outbox) + reply.sent &&
              ok == reply.ok && delimited == (old(delimited) || reply.delimited)
    {
      if !active {
        return false;
      }
      var found := pipe.CheckRead();
      if !found {
        active := false;
        return false;
      }
      // `probe` looks at the item that `check_read` found
      if pipe.queue.flushed[0].Delimiter? {
        var _ := pipe.Read();
        delimited := true;
        Terminate();
        return false;
      }
      return true;
    }

    method Read() returns (item: Option<Item<B>>)
      modifies this, pipe
      ensures var reply := H.Read(old(View()), old(pipe.queue));
              View() == reply.end && pipe.queue == reply.pipe && outbox == old(outbox) + reply.sent &&
              item == reply.item && item.Some? == reply.ok && delimited == (old(delimited) || reply.delimited)
    {
      if !active {
        return None;
      }
      item := pipe.Read();
      if item.None? {
        active := false;
        return;
      }
      if item.value.Delimiter? {
        delimited := true;
        Terminate();
        return None;
      }
      if !item.value.more {
        msgsRead := msgsRead + 1;
      }
      if lwm > 0 && msgsRead % lwm == 0 {
        outbox := outbox + [ActivateWriter(msgsRead)];
      }
    }

    method ProcessActivateReader()
      modifies `active
      ensures View() == old(View()).(active := true)
    {
      active := true;
    }

    /** The destructor reads and closes what is left; only what was flushed can be read. */
    method CloseUnread() returns (closed: seq<Item<B>>)
      modifies pipe
      ensures closed == old(pipe.queue.flushed)
      ensures pipe.queue == old(pipe.queue).(flushed := [], asleep := true)
    {
      closed := [];
      var item := pipe.Read();
      while item.Some?
        invariant match item
                  case Some(v) => closed + [v] + pipe.queue.flushed == old(pipe.queue.flushed) &&
                                  pipe.queue == old(pipe.queue).(flushed := pipe.queue.flushed)
                  case None => closed == old(pipe.queue.flushed) &&
                               pipe.queue == old(pipe.queue).(flushed := [], asleep := true)
        decreases item.Some?, |pipe.queue.flushed|
      {
        closed := closed + [item.value];
        item := pipe.Read();
      }
    }
  }

  class Writer<B> {
    var active: bool
    const pipe: SharedPipe<B>
    const hwm: nat
    var msgsRead: nat
    var msgsWritten: nat
    var terminating: bool
    var outbox: seq<ToReader>   // commands sent to the reader

    ghost function View(): WriterEnd
      reads this
    {
      WriterEnd(active, hwm, msgsRead, msgsWritten, terminating)
    }

    constructor (pipe_: SharedPipe<B>, hwm_: nat)
      ensures pipe == pipe_ && outbox == []
      ensures View() == WriterEnd(true, hwm_, 0, 0, false)
    {
      active, pipe, hwm, msgsRead, msgsWritten, terminating := true, pipe_, hwm_, 0, 0, false;
      outbox := [];
    }

    method CheckWrite() returns (ok: bool)
      modifies `active
      ensures View() == H.CheckWrite(old(View())) && ok == CanWrite(old(View()))
    {
      if !active {
        return false;
      }
      if hwm > 0 && msgsWritten - msgsRead == hwm {
        active := false;
        return false;
      }
      return true;
    }

    method Write(body: B, more: bool) returns (ok: bool)
      modifies this, pipe
      ensures var reply := H.Write(old(View()), old(pipe.queue), body, more);
              View() == reply.end && pipe.queue == reply.pipe && outbox == old(outbox) + reply.sent && ok == reply.ok
    {
      ok := CheckWrite();
      if !ok {
        return;
      }
      pipe.Write(Part(body, more), more);
      if !more {
        msgsWritten := msgsWritten + 1;
      }
    }

    method Rollback()
      requires forall i :: 0 <= i < |pipe.queue.open| ==> pipe.queue.open[i].Part? && pipe.queue.open[i].more
      modifies pipe
      ensures pipe.queue == H.Rollback(old(pipe.queue))
    {
      var item := pipe.Unwrite();
      while item.Some?
        invariant pipe.queue == old(pipe.queue).(open := pipe.queue.open)
        invariant item.None? ==> pipe.queue.open == []
        invariant pipe.queue.open <= old(pipe.queue.open)
        invariant item.Some? ==> item.value.Part? && item.value.more
        decreases item.Some?, |pipe.queue.open|
      {
        assert item.value.more;   // as the code asserts
        item := pipe.Unwrite();
      }
    }

    method Flush()
      modifies pipe, `outbox
      ensures var (p, sent) := H.Flush(old(pipe.queue)); pipe.queue == p && outbox == old(outbox) + sent
    {
      var awake := pipe.Flush();
      if !awake {
        outbox := outbox + [ActivateReader];
      }
    }

    method Terminate()
      requires forall i :: 0 <= i < |pipe.queue.open| ==> pipe.queue.open[i].Part? && pipe.queue.open[i].more
      modifies this, pipe
      ensures var reply := H.WriterTerminate(old(View()), old(pipe.queue));
              View() == reply.end && pipe.queue == reply.pipe && outbox == old(outbox) + reply.sent
    {
      if terminating {
        return;
      }
      terminating := true;
      active := false;
      Rollback();
      // The watermarks are not checked, so the delimiter goes in even if the pipe is full.
      pipe.Write(Delimiter, false);
      Flush();
    }

    method ProcessActivateWriter(msgsRead_: nat)
      modifies this
      ensures View() == H.ProcessActivateWriter(old(View()), msgsRead_) && outbox == old(outbox)
    {
      msgsRead := msgsRead_;
      if !active && !terminating {
        active := true;
      }
    }
  }
}
