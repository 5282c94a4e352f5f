/**
 Two pipe ends, the pipe between them and the command channels that connect
 them: flow control and shutdown of pipe.cpp over every run.

 The owner of the writer may do anything at any time until it is told that the
 writer is gone.  The owner of the reader stops reading when the reader is
 terminating: after its own `terminate`, or after it was told of the delimiter.
 */
module PipeProtocol {
  import opened Common
  import opened PipeHandlers
  import opened DivMod
  import FlushQueue

  datatype State<B> = State(
    pipe: Pipe<B>,
    reader: ReaderEnd,
    writer: WriterEnd,
    toReader: seq<ToReader>,
    toWriter: seq<ToWriter>,
    readerGone: bool,
    writerGone: bool,
    readerEvents: nat,         // history: `terminated` events of the reader
    writerEvents: nat,         // history: `terminated` events of the writer
    delimited: bool,           // history: the delimiter was read
    accepted: seq<Item<B>>,    // history: parts written and not rolled back
    delivered: seq<Item<B>>,   // history: parts read
    discarded: seq<Item<B>>,   // history: unread parts closed when the reader was destroyed
    leaked: seq<Item<B>>,      // history: parts that were in the pipe when it was deallocated
    fault: bool)               // a command was sent to a deallocated end

  datatype Action<B> =
    | Write(body: B, more: bool)
    | CheckWrite
    | Rollback
    | Flush
    | TerminateWriter
    | CheckRead
    | Read
    | TerminateReader
    | ReaderProcess   // the reader takes its next command
    | WriterProcess   // the writer takes its next command

  function Init<B>(hwm: nat): State<B> {
    State(FlushQueue.Empty(), ReaderEnd(true, Lwm(hwm), 0, false), WriterEnd(true, hwm, 0, 0, false), [], [],
          false, false, 0, 0, false, [], [], [], [], false)
  }

  function SendToReader<B>(s: State<B>, sent: seq<ToReader>): State<B> {
    s.(toReader := s.toReader + sent, fault := s.fault || (s.readerGone && sent != []))
  }

  function SendToWriter<B>(s: State<B>, sent: seq<ToWriter>): State<B> {
    s.(toWriter := s.toWriter + sent, fault := s.fault || (s.writerGone && sent != []))
  }

  function AfterRead<B>(s: State<B>, reply: ReaderReply<B>): State<B> {
    SendToWriter(s.(reader := reply.end, pipe := reply.pipe, delimited := s.delimited || reply.delimited,
                    delivered := s.delivered + if reply.item.Some? then [reply.item.value] else []), reply.sent)
  }

  /** The last |q.open| accepted parts are taken back. */
  function Withdrawn<B>(s: State<B>): seq<Item<B>> {
    if |s.pipe.open| <= |s.accepted| then s.accepted[..|s.accepted| - |s.pipe.open|] else []
  }

  /** The parts of messages in a sequence that may end with the delimiter. */
  function Unmarked<B>(items: seq<Item<B>>): seq<Item<B>> {
    if items != [] && items[|items| - 1].Delimiter? then items[..|items| - 1] else items
  }

  function Step<B>(s: State<B>, a: Action<B>): State<B> {
    match a
    case Write(body, more) =>
      if s.writerGone then s
      else
        var reply := PipeHandlers.Write(s.writer, s.pipe, body, more);
        s.(writer := reply.end, pipe := reply.pipe,
           accepted := s.accepted + if reply.ok then [Part(body, more)] else [])
    case CheckWrite => if s.writerGone then s else s.(writer := PipeHandlers.CheckWrite(s.writer))
    case Rollback =>
      if s.writerGone then s else s.(pipe := PipeHandlers.Rollback(s.pipe), accepted := Withdrawn(s))
    case Flush =>
      if s.writerGone then s
      else
        var (pipe, sent) := PipeHandlers.Flush(s.pipe);
        SendToReader(s.(pipe := pipe), sent)
    case TerminateWriter =>
      if s.writerGone || s.writer.terminating then s
      else
        var reply := WriterTerminate(s.writer, s.pipe);
        SendToReader(s.(writer := reply.end, pipe := reply.pipe, accepted := Withdrawn(s)), reply.sent)
    case CheckRead =>
      if s.readerGone || s.reader.terminating then s else AfterRead(s, PipeHandlers.CheckRead(s.reader, s.pipe))
    case Read =>
      if s.readerGone || s.reader.terminating then s else AfterRead(s, PipeHandlers.Read(s.reader, s.pipe))
    case TerminateReader =>
      if s.readerGone then s
      else
        var (reader, sent) := ReaderTerminate(s.reader);
        SendToWriter(s.(reader := reader), sent)
    case ReaderProcess =>
      if s.readerGone || s.toReader == [] then s
      else
        var s1 := s.(toReader := s.toReader[1..]);
        if s.toReader[0].ActivateReader? then s1.(reader := s.reader.(active := true))
        else
          // the reader reads and closes what it can and deallocates the pipe and itself
          s1.(readerGone := true, readerEvents := s.readerEvents + 1, pipe := FlushQueue.Empty(),
              discarded := Unmarked(s.pipe.flushed), leaked := s.pipe.staged + s.pipe.open,
              fault := s.fault || s.toReader[1..] != [])
    case WriterProcess =>
      if s.writerGone || s.toWriter == [] then s
      else
        var s1 := s.(toWriter := s.toWriter[1..]);
        if s.toWriter[0].ActivateWriter? then
          s1.(writer := ProcessActivateWriter(s.writer, s.toWriter[0].msgsRead))
        else
          SendToReader(s1.(writerGone := true, writerEvents := s.writerEvents + 1,
                           fault := s.fault || s.toWriter[1..] != []), [PipeTermAck])
  }

  function Exec<B>(s: State<B>, run: seq<Action<B>>): State<B>
    decreases |run|
  {
    if run == [] then s else Exec(Step(s, run[0]), run[1..])
  }

  // Messages

  predicate EndsMessage<B>(item: Item<B>) { item.Part? && !item.more }

  /** The number of complete messages. */
  function Messages<B>(parts: seq<Item<B>>): nat {
    if parts == [] then 0 else (if EndsMessage(parts[0]) then 1 else 0) + Messages(parts[1..])
  }

  lemma {:induction false} MessagesConcat<B>(a: seq<Item<B>>, b: seq<Item<B>>)
    ensures Messages(a + b) == Messages(a) + Messages(b)
  {
    if a == [] {
      assert a + b == b;
    } else {
      MessagesConcat(a[1..], b);
      assert (a + b)[1..] == a[1..] + b;
    }
  }

  lemma {:induction false} NoMessages<B>(parts: seq<Item<B>>)
    requires forall i :: 0 <= i < |parts| ==> !EndsMessage(parts[i])
    ensures Messages(parts) == 0
  {
    if parts != [] {
      NoMessages(parts[1..]);
    }
  }

  predicate NoDelimiter<B>(parts: seq<Item<B>>) { forall i :: 0 <= i < |parts| ==> parts[i].Part? }

  /** Every message that begins in the sequence is complete. */
  predicate Whole<B>(parts: seq<Item<B>>) { parts == [] || EndsMessage(parts[|parts| - 1]) }

  // Flow control

  /** The commands to the writer: acks that never go back, and `pipe_term` at the end only. */
  predicate Rising(seen: nat, cmds: seq<ToWriter>, read: nat)
    decreases cmds
  {
    if cmds == [] then seen <= read
    else match cmds[0]
         case ActivateWriter(n) => seen <= n && Rising(n, cmds[1..], read)
         case PipeTerm => cmds[1..] == [] && seen <= read
  }

  /** What the writer will have seen when it has processed the commands. */
  function LastAck(seen: nat, cmds: seq<ToWriter>): nat
    decreases cmds
  {
    if cmds == [] then seen
    else match cmds[0]
         case ActivateWriter(n) => LastAck(n, cmds[1..])
         case PipeTerm => LastAck(seen, cmds[1..])
  }

  predicate HasTerm(cmds: seq<ToWriter>) { cmds != [] && cmds[|cmds| - 1].PipeTerm? }

  lemma {:induction false} AppendCommand(seen: nat, cmds: seq<ToWriter>, read: nat, last: ToWriter)
    requires Rising(seen, cmds, read) && !HasTerm(cmds)
    requires last.ActivateWriter? ==> last.msgsRead == read
    ensures Rising(seen, cmds + [last], read)
    ensures LastAck(seen, cmds + [last]) == if last.ActivateWriter? then read else LastAck(seen, cmds)
    decreases cmds
  {
    if cmds == [] {
      assert cmds + [last] == [last];
    } else {
      assert (cmds + [last])[1..] == cmds[1..] + [last];
      AppendCommand(cmds[0].msgsRead, cmds[1..], read, last);
    }
  }

  lemma {:induction false} RisingLater(seen: nat, cmds: seq<ToWriter>, read: nat, later: nat)
    requires Rising(seen, cmds, read) && read <= later
    ensures Rising(seen, cmds, later)
    decreases cmds
  {
    if cmds != [] && cmds[0].ActivateWriter? {
      RisingLater(cmds[0].msgsRead, cmds[1..], read, later);
    }
  }

  lemma {:induction false} AckBounds(seen: nat, cmds: seq<ToWriter>, read: nat)
    requires Rising(seen, cmds, read)
    ensures seen <= LastAck(seen, cmds) <= read
    decreases cmds
  {
    if cmds != [] {
      AckBounds(if cmds[0].ActivateWriter? then cmds[0].msgsRead else seen, cmds[1..], read);
    }
  }

  /** The reader acks when it has read a multiple of lwm messages, so the last ack is the last
      such multiple. */
  predicate AckedUpTo(lwm: nat, acked: nat, read: nat) {
    lwm > 0 ==> acked % lwm == 0 && acked <= read < acked + lwm
  }

  lemma NextAck(lwm: nat, acked: nat, read: nat)
    requires lwm > 0 && AckedUpTo(lwm, acked, read)
    ensures read % lwm == 0 <==> read == acked
    ensures (read + 1) % lwm == 0 <==> read + 1 == acked + lwm || lwm == 1
    ensures (acked + lwm) % lwm == 0
  {
    var q := acked / lwm;
    assert acked == q * lwm;
    Unique(read, lwm, q, read - acked);
    AddBlock(acked, lwm);
    if read + 1 < acked + lwm {
      Unique(read + 1, lwm, q, read + 1 - acked);
    }
  }

  ghost predicate Credit<B>(s: State<B>) {
    && s.reader.lwm == Lwm(s.writer.hwm)
    && Rising(s.writer.msgsRead, s.toWriter, s.reader.msgsRead)
    && AckedUpTo(s.reader.lwm, LastAck(s.writer.msgsRead, s.toWriter), s.reader.msgsRead)
    && s.reader.msgsRead <= s.writer.msgsWritten
    && (s.writer.hwm > 0 ==> s.writer.msgsWritten - s.writer.msgsRead <= s.writer.hwm)
    && (!s.readerGone ==> Messages(s.pipe.All()) == s.writer.msgsWritten - s.reader.msgsRead)
    // the writer is passive only while it cannot write
    && (!s.writer.active && !s.writer.terminating ==> PipeFull(s.writer))
    && (s.writer.active ==> !s.writer.terminating)
    // a message that was begun can be continued
    && (s.pipe.open != [] ==> CanWrite(s.writer))
  }

  ghost predicate Handshake<B>(s: State<B>) {
    && !s.fault
    && s.readerEvents == (if s.readerGone then 1 else 0)
    && s.writerEvents == (if s.writerGone then 1 else 0)
    && (s.reader.terminating <==> s.writerGone || HasTerm(s.toWriter))
    && (s.writerGone ==> s.toWriter == [])
    && (s.readerGone ==> s.writerGone && s.toReader == [])
    && (forall i :: 0 <= i < |s.toReader| - 1 ==> s.toReader[i].ActivateReader?)
    && (s.writerGone && !s.readerGone <==> s.toReader != [] && s.toReader[|s.toReader| - 1].PipeTermAck?)
  }

  /** At most one wake-up is under way, and only while the reader is passive. */
  ghost predicate Wakefulness<B>(s: State<B>) {
    && (forall i :: 1 <= i < |s.toReader| ==> s.toReader[i].PipeTermAck?)
    && (s.pipe.asleep || s.reader.active ==> ActivateReader !in s.toReader)
    && (s.pipe.asleep ==> s.pipe.flushed == [] && !s.reader.active)
    && (!s.reader.active && !s.reader.terminating ==> s.pipe.asleep || ActivateReader in s.toReader)
  }

  /** The parts in the pipe that are not the delimiter. */
  function Contents<B>(s: State<B>): seq<Item<B>> {
    var all := s.pipe.All();
    if s.writer.terminating && !s.delimited && !s.readerGone && all != [] then all[..|all| - 1] else all
  }

  ghost predicate Content<B>(s: State<B>) {
    && (s.writer.terminating && !s.delimited && !s.readerGone ==> Marked(s.pipe))
    && (s.delimited ==> s.writer.terminating && s.reader.terminating && s.pipe.All() == [])
    && (s.writer.terminating ==> s.pipe.staged == [] && s.pipe.open == [])
    && NoDelimiter(Contents(s))
    && s.accepted == s.delivered + s.discarded + s.leaked + Contents(s)
    && (!s.readerGone || s.delimited ==> s.discarded == [] && s.leaked == [])
    && (s.writer.terminating ==> s.leaked == [])
    && (forall i :: 0 <= i < |s.pipe.open| ==> s.pipe.open[i].Part? && s.pipe.open[i].more)
    && Whole(s.pipe.staged)
    && (s.writer.terminating || s.pipe.flushed == [] || Whole(s.pipe.flushed))
    && (!s.writer.terminating && !s.readerGone && s.pipe.flushed == [] ==> Whole(s.delivered))
    && (s.writer.terminating ==> Whole(s.accepted))
    && (s.readerGone ==> s.pipe == FlushQueue.Empty())
  }

  /** The delimiter is the last item that can be read. */
  predicate Marked<B>(p: Pipe<B>) { p.flushed != [] && p.flushed[|p.flushed| - 1].Delimiter? }

  ghost predicate Inv<B>(s: State<B>) {
    Credit(s) && Handshake(s) && Wakefulness(s) && Content(s)
  }

  lemma WriteContent<B>(s: State<B>, body: B, more: bool)
    requires Content(s) && !s.writer.terminating && CanWrite(s.writer) && !s.writerGone && !s.readerGone
    ensures Content(Step(s, Write(body, more)))
    ensures Step(s, Write(body, more)).pipe.All() == s.pipe.All() + [Part(body, more)]
  {
    var s' := Step(s, Write(body, more));
    var part := [Part(body, more)];
    assert s'.pipe.All() == s.pipe.All() + part;
    assert Contents(s') == Contents(s) + part;
    assert s'.accepted == s'.delivered + s'.discarded + s'.leaked + Contents(s');
  }

  lemma WriteKeepsInv<B>(s: State<B>, body: B, more: bool)
    requires Inv(s)
    ensures Inv(Step(s, Write(body, more)))
  {
    assert s.accepted + [] == s.accepted;
    if !s.writerGone && CanWrite(s.writer) {
      WriteContent(s, body, more);
      MessagesConcat(s.pipe.All(), [Part(body, more)]);
      assert Messages([Part(body, more)]) == if more then 0 else 1;
    }
  }

  lemma CheckWriteKeepsInv<B>(s: State<B>)
    requires Inv(s)
    ensures Inv(Step(s, CheckWrite))
  {
  }

  lemma WithdrawnMessages<B>(p: Pipe<B>)
    requires forall i :: 0 <= i < |p.open| ==> p.open[i].Part? && p.open[i].more
    ensures Messages(p.flushed + p.staged) == Messages(p.All())
  {
    MessagesConcat(p.flushed + p.staged, p.open);
    NoMessages(p.open);
  }

  /** What is left of the accepted parts when the open message is taken back. */
  lemma WithdrawnParts<B>(s: State<B>)
    requires Content(s) && !s.writerGone && !s.readerGone
    ensures Withdrawn(s) == s.delivered + if s.writer.terminating then Contents(s) else s.pipe.flushed + s.pipe.staged
  {
    var p := s.pipe;
    if s.writer.terminating {
      assert s.accepted[..|s.accepted|] == s.accepted;
    } else {
      assert Contents(s) == p.All();
      assert s.accepted == (s.delivered + (p.flushed + p.staged)) + p.open;
    }
  }

  lemma RollbackKeepsInv<B>(s: State<B>)
    requires Inv(s)
    ensures Inv(Step(s, Rollback))
  {
    if !s.writerGone {
      var s' := Step(s, Rollback);
      WithdrawnParts(s);
      WithdrawnMessages(s.pipe);
      assert s'.pipe.All() == s.pipe.flushed + s.pipe.staged;
      if s.writer.terminating {
        assert s'.pipe == s.pipe;
      }
      assert Contents(s') <= Contents(s);
      assert NoDelimiter(Contents(s'));
    }
  }

  lemma WholeConcat<B>(a: seq<Item<B>>, b: seq<Item<B>>)
    requires Whole(a) && Whole(b)
    ensures Whole(a + b)
  {
  }

  lemma FlushContent<B>(s: State<B>)
    requires Content(s) && !s.writerGone && !s.readerGone
    ensures Content(Step(s, Flush)) && Step(s, Flush).pipe.All() == s.pipe.All()
  {
    var s' := Step(s, Flush);
    assert s'.pipe.All() == s.pipe.All();
    assert Contents(s') == Contents(s);
    if s.pipe.staged != [] && s.pipe.flushed != [] {
      WholeConcat(s.pipe.flushed, s.pipe.staged);
    }
  }

  lemma FlushWakes<B>(s: State<B>)
    requires Handshake(s) && Wakefulness(s) && !s.writerGone && !s.readerGone
    ensures Handshake(Step(s, Flush)) && Wakefulness(Step(s, Flush))
  {
    assert s.toReader == [] || s.toReader[0] in s.toReader;
    assert s.toReader + [] == s.toReader;
  }

  lemma FlushKeepsInv<B>(s: State<B>)
    requires Inv(s)
    ensures Inv(Step(s, Flush))
  {
    if !s.writerGone {
      FlushContent(s);
      FlushWakes(s);
    }
  }

  lemma TerminateWriterKeepsInv<B>(s: State<B>)
    requires Inv(s)
    ensures Inv(Step(s, TerminateWriter))
  {
    if !s.writerGone && !s.writer.terminating {
      var s' := Step(s, TerminateWriter);
      var p := s.pipe;
      var rest := p.flushed + p.staged;
      WithdrawnParts(s);
      WithdrawnMessages(s.pipe);
      assert s'.pipe.flushed == rest + [Delimiter];
      assert s'.pipe.All() == rest + [Delimiter];
      MessagesConcat(rest, [Delimiter]);
      var mark: seq<Item<B>> := [Delimiter];
      NoMessages(mark);
      assert Contents(s') == rest;
      assert NoDelimiter(rest) by {
        assert forall i :: 0 <= i < |rest| ==> rest[i] == Contents(s)[i];
      }
      assert Whole(s'.accepted) by {
        WholeAccepted(s);
      }
    }
  }

  /** Without the open message, what was accepted ends with a complete message. */
  lemma WholeAccepted<B>(s: State<B>)
    requires Inv(s) && !s.writerGone && !s.writer.terminating
    ensures Whole(s.delivered + (s.pipe.flushed + s.pipe.staged))
  {
  }

  // The reader

  /** The reader takes a part out of the pipe. */
  lemma TakeKeepsInv<B>(s: State<B>)
    requires Inv(s) && !s.readerGone && !s.reader.terminating && s.reader.active
    requires s.pipe.flushed != [] && s.pipe.flushed[0].Part?
    ensures Inv(Step(s, Read))
  {
    var s' := Step(s, Read);
    assert s.pipe.All() == [s.pipe.flushed[0]] + s'.pipe.All();
    TakeCredit(s);
    TakeContent(s);
  }

  lemma TakenAll<B>(p: Pipe<B>)
    requires p.flushed != []
    ensures p.All() == [p.flushed[0]] + p.(flushed := p.flushed[1..]).All()
  {
  }

  lemma TakeContents<B>(s: State<B>)
    requires Content(s) && !s.readerGone && !s.reader.terminating && s.reader.active
    requires s.pipe.flushed != [] && s.pipe.flushed[0].Part?
    ensures var s' := Step(s, Read);
            s.pipe.All() == [s.pipe.flushed[0]] + s'.pipe.All() &&
            Contents(s) == [s.pipe.flushed[0]] + Contents(s') && NoDelimiter(Contents(s'))
  {
    var s' := Step(s, Read);
    TakenAll(s.pipe);
    assert Contents(s) == [s.pipe.flushed[0]] + Contents(s');
    assert forall i :: 0 <= i < |Contents(s')| ==> Contents(s')[i] == Contents(s)[i + 1];
  }

  lemma TakeContent<B>(s: State<B>)
    requires Content(s) && !s.readerGone && !s.reader.terminating && s.reader.active
    requires s.pipe.flushed != [] && s.pipe.flushed[0].Part?
    ensures Content(Step(s, Read))
  {
    var s' := Step(s, Read);
    TakeContents(s);
    assert s.pipe.flushed == [s.pipe.flushed[0]] + s'.pipe.flushed;
    assert s'.accepted == s'.delivered + s'.discarded + s'.leaked + Contents(s');
  }

  lemma TakeCredit<B>(s: State<B>)
    requires Credit(s) && Handshake(s) && !s.readerGone && !s.reader.terminating && s.reader.active
    requires s.pipe.flushed != [] && s.pipe.flushed[0].Part?
    ensures var s' := Step(s, Read);
            !HasTerm(s'.toWriter) &&
            Rising(s'.writer.msgsRead, s'.toWriter, s'.reader.msgsRead) &&
            AckedUpTo(s'.reader.lwm, LastAck(s'.writer.msgsRead, s'.toWriter), s'.reader.msgsRead)
  {
    var seen, read := s.writer.msgsRead, s.reader.msgsRead;
    var r1 := Count(s.reader, s.pipe.flushed[0].more);
    RisingLater(seen, s.toWriter, read, r1.msgsRead);
    if s.reader.lwm > 0 {
      NextAck(s.reader.lwm, LastAck(seen, s.toWriter), read);
      if Ack(r1) != [] {
        AppendCommand(seen, s.toWriter, r1.msgsRead, ActivateWriter(r1.msgsRead));
      }
    }
    assert s.toWriter + [] == s.toWriter;
  }

  /** The reader finds the pipe empty. */
  lemma SleepKeepsInv<B>(s: State<B>, s': State<B>)
    requires Inv(s) && !s.readerGone && !s.reader.terminating && s.reader.active && s.pipe.flushed == []
    requires s' == s.(reader := s.reader.(active := false), pipe := s.pipe.(asleep := true))
    ensures Inv(s')
  {
    assert s'.pipe.All() == s.pipe.All();
  }

  lemma DelimiterLast<B>(s: State<B>)
    requires Content(s) && !s.readerGone && s.pipe.flushed != [] && s.pipe.flushed[0].Delimiter?
    ensures s.writer.terminating && !s.delimited && s.pipe.flushed == [Delimiter]
  {
    var all := s.pipe.All();
    assert all[0] == s.pipe.flushed[0];
    assert Contents(s) <= all;
  }

  /** The reader takes the delimiter out of the pipe and terminates. */
  lemma DelimiterKeepsInv<B>(s: State<B>, s': State<B>)
    requires Inv(s) && !s.readerGone && !s.reader.terminating && s.reader.active
    requires s.pipe.flushed != [] && s.pipe.flushed[0].Delimiter?
    requires s' == AfterRead(s, Delimited(s.reader, FlushQueue.Read(s.pipe).0))
    ensures Inv(s') && s'.delivered == s'.accepted
  {
    DelimiterLast(s);
    assert s.pipe.All() == [Delimiter] && s'.pipe.All() == [];
    AppendCommand(s.writer.msgsRead, s.toWriter, s.reader.msgsRead, PipeTerm);
  }

  lemma CheckReadKeepsInv<B>(s: State<B>)
    requires Inv(s)
    ensures Inv(Step(s, CheckRead))
  {
    if !s.readerGone && !s.reader.terminating && s.reader.active {
      var s' := Step(s, CheckRead);
      assert s.toWriter + [] == s.toWriter && s.delivered + [] == s.delivered;
      if s.pipe.flushed == [] {
        SleepKeepsInv(s, s');
      } else if s.pipe.flushed[0].Delimiter? {
        DelimiterKeepsInv(s, s');
      }
    } else {
      assert Step(s, CheckRead) == s;
    }
  }

  lemma ReadKeepsInv<B>(s: State<B>)
    requires Inv(s)
    ensures Inv(Step(s, Read))
  {
    if !s.readerGone && !s.reader.terminating && s.reader.active {
      var s' := Step(s, Read);
      if s.pipe.flushed == [] {
        assert s.toWriter + [] == s.toWriter && s.delivered + [] == s.delivered;
        SleepKeepsInv(s, s');
      } else if s.pipe.flushed[0].Delimiter? {
        DelimiterKeepsInv(s, s');
      } else {
        TakeKeepsInv(s);
      }
    } else {
      assert s.toWriter + [] == s.toWriter && s.delivered + [] == s.delivered;
      assert Step(s, Read) == s;
    }
  }

  lemma TerminateReaderKeepsInv<B>(s: State<B>)
    requires Inv(s)
    ensures Inv(Step(s, TerminateReader))
  {
    assert s.toWriter + [] == s.toWriter;
    if !s.readerGone && !s.reader.terminating {
      AppendCommand(s.writer.msgsRead, s.toWriter, s.reader.msgsRead, PipeTerm);
      assert Contents(Step(s, TerminateReader)) == Contents(s);
    }
  }

  // Commands

  lemma ReaderProcessKeepsInv<B>(s: State<B>)
    requires Inv(s)
    ensures Inv(Step(s, ReaderProcess))
  {
    if !s.readerGone && s.toReader != [] {
      var s' := Step(s, ReaderProcess);
      if s.toReader[0].ActivateReader? {
        assert Contents(s') == Contents(s);
        assert ActivateReader !in s'.toReader;
      } else {
        assert |s.toReader| == 1;
        DestroyedContent(s);
      }
    }
  }

  lemma UnmarkedWhileOpen<B>(s: State<B>)
    requires NoDelimiter(Contents(s)) && !s.writer.terminating
    ensures Unmarked(s.pipe.flushed) == s.pipe.flushed
  {
    var p := s.pipe;
    if p.flushed != [] {
      assert p.All()[|p.flushed| - 1] == p.flushed[|p.flushed| - 1];
      assert Contents(s) == p.All();
    }
  }

  lemma UnmarkedWhenClosed<B>(s: State<B>)
    requires Content(s) && !s.readerGone && s.writer.terminating
    ensures Unmarked(s.pipe.flushed) == Contents(s) && s.pipe.staged + s.pipe.open == []
  {
    assert s.pipe.All() == s.pipe.flushed;
  }

  lemma Regroup<T>(a: seq<T>, b: seq<T>, c: seq<T>)
    ensures a + [] + [] + (b + c) == a + b + c + []
  {
  }

  lemma DestroyedContent<B>(s: State<B>)
    requires Content(s) && !s.readerGone && s.toReader == [PipeTermAck]
    ensures Content(Step(s, ReaderProcess))
  {
    var p := s.pipe;
    var lost := p.staged + p.open;
    if s.writer.terminating {
      UnmarkedWhenClosed(s);
      assert Contents(s) == Unmarked(p.flushed) + lost;
    } else {
      UnmarkedWhileOpen(s);
      assert Contents(s) == Unmarked(p.flushed) + lost;
    }
    Regroup(s.delivered, Unmarked(p.flushed), lost);
    assert Contents(Step(s, ReaderProcess)) == [];
  }

  lemma AckKeepsInv<B>(s: State<B>)
    requires Inv(s) && !s.writerGone && s.toWriter != [] && s.toWriter[0].ActivateWriter?
    ensures Inv(Step(s, WriterProcess))
  {
    assert Contents(Step(s, WriterProcess)) == Contents(s);
    AckBounds(s.toWriter[0].msgsRead, s.toWriter[1..], s.reader.msgsRead);
  }

  lemma PipeTermKeepsInv<B>(s: State<B>)
    requires Inv(s) && !s.writerGone && s.toWriter != [] && s.toWriter[0].PipeTerm?
    ensures Inv(Step(s, WriterProcess))
  {
    assert Contents(Step(s, WriterProcess)) == Contents(s);
  }

  lemma WriterProcessKeepsInv<B>(s: State<B>)
    requires Inv(s)
    ensures Inv(Step(s, WriterProcess))
  {
    if !s.writerGone && s.toWriter != [] {
      if s.toWriter[0].ActivateWriter? {
        AckKeepsInv(s);
      } else {
        PipeTermKeepsInv(s);
      }
    }
  }

  // Runs

  lemma StepKeepsInv<B>(s: State<B>, a: Action<B>)
    requires Inv(s)
    ensures Inv(Step(s, a))
  {
    match a
    case Write(body, more) => WriteKeepsInv(s, body, more);
    case CheckWrite => CheckWriteKeepsInv(s);
    case Rollback => RollbackKeepsInv(s);
    case Flush => FlushKeepsInv(s);
    case TerminateWriter => TerminateWriterKeepsInv(s);
    case CheckRead => CheckReadKeepsInv(s);
    case Read => ReadKeepsInv(s);
    case TerminateReader => TerminateReaderKeepsInv(s);
    case ReaderProcess => ReaderProcessKeepsInv(s);
    case WriterProcess => WriterProcessKeepsInv(s);
  }

  lemma {:induction false} RunKeepsInv<B>(s: State<B>, run: seq<Action<B>>)
    requires Inv(s)
    ensures Inv(Exec(s, run))
    decreases |run|
  {
    if run != [] {
      StepKeepsInv(s, run[0]);
      RunKeepsInv(Step(s, run[0]), run[1..]);
    }
  }

  lemma InitInv<B>(hwm: nat)
    ensures Inv(Init<B>(hwm))
  {
    assert hwm > 0 ==> 0 % Lwm(hwm) == 0;
  }

  // Flow control over every run

  /** The pipe never holds more complete messages than the high watermark. */
  lemma NeverAboveHwm<B>(hwm: nat, run: seq<Action<B>>)
    requires hwm > 0
    ensures Messages(Exec(Init<B>(hwm), run).pipe.All()) <= hwm
  {
    InitInv<B>(hwm);
    RunKeepsInv(Init<B>(hwm), run);
    var s := Exec(Init<B>(hwm), run);
    HwmStays(Init<B>(hwm), run);
    AckBounds(s.writer.msgsRead, s.toWriter, s.reader.msgsRead);
  }

  lemma StepHwm<B>(s: State<B>, a: Action<B>)
    ensures Step(s, a).writer.hwm == s.writer.hwm
  {
  }

  lemma {:induction false} HwmStays<B>(s: State<B>, run: seq<Action<B>>)
    ensures Exec(s, run).writer.hwm == s.writer.hwm
    decreases |run|
  {
    if run != [] {
      StepHwm(s, run[0]);
      HwmStays(Step(s, run[0]), run[1..]);
    }
  }

  /** When the first part of a message was accepted, no later part is refused. */
  lemma LaterPartsAccepted<B>(hwm: nat, run: seq<Action<B>>, body: B, more: bool)
    requires Exec(Init<B>(hwm), run).pipe.open != [] && !Exec(Init<B>(hwm), run).writerGone
    ensures var s := Exec(Init<B>(hwm), run);
            Step(s, Write(body, more)).accepted == s.accepted + [Part(body, more)]
  {
    InitInv<B>(hwm);
    RunKeepsInv(Init<B>(hwm), run);
  }

  lemma StepAcks<B>(s: State<B>, a: Action<B>)
    requires Rising(s.writer.msgsRead, s.toWriter, s.reader.msgsRead)
    ensures s.writer.msgsRead <= Step(s, a).writer.msgsRead
  {
    if a.WriterProcess? {
      assert !s.writerGone && s.toWriter != [] ==> Rising(s.writer.msgsRead, s.toWriter, s.reader.msgsRead);
    }
  }

  /** The acks that the writer sees never go back and never run ahead of the reader. */
  lemma AcksNeverGoBack<B>(hwm: nat, run: seq<Action<B>>, a: Action<B>)
    ensures var s := Exec(Init<B>(hwm), run);
            s.writer.msgsRead <= Step(s, a).writer.msgsRead && s.writer.msgsRead <= s.reader.msgsRead
  {
    InitInv<B>(hwm);
    RunKeepsInv(Init<B>(hwm), run);
    var s := Exec(Init<B>(hwm), run);
    StepAcks(s, a);
    AckBounds(s.writer.msgsRead, s.toWriter, s.reader.msgsRead);
  }

  /** The number of messages that are still to be read until the next ack. */
  function Due<B>(s: State<B>): int {
    LastAck(s.writer.msgsRead, s.toWriter) + s.reader.lwm - s.reader.msgsRead
  }

  /** A writer that has seen every ack and still cannot write is not stuck: the message whose
      reading sends the next ack is complete and in the pipe. */
  lemma FullIsNotStuck<B>(hwm: nat, run: seq<Action<B>>)
    requires var s := Exec(Init<B>(hwm), run);
             !s.writer.terminating && !CanWrite(s.writer) && s.toWriter == [] && !s.readerGone
    ensures var s := Exec(Init<B>(hwm), run);
            1 <= Due(s) <= Messages(s.pipe.All()) && Due(s) == s.writer.msgsRead + s.reader.lwm - s.reader.msgsRead
  {
    InitInv<B>(hwm);
    RunKeepsInv(Init<B>(hwm), run);
  }

  function Repeat<B>(a: Action<B>, n: nat): seq<Action<B>> {
    if n == 0 then [] else [a] + Repeat(a, n - 1)
  }

  lemma RepeatFirst<B>(s: State<B>, a: Action<B>, n: nat)
    requires n > 0
    ensures Exec(s, Repeat(a, n)) == Exec(Step(s, a), Repeat(a, n - 1))
  {
    assert Repeat(a, n)[1..] == Repeat(a, n - 1);
  }

  /** How many parts make up the first k messages. */
  function PartsOf<B>(parts: seq<Item<B>>, k: nat): (n: nat)
    requires k <= Messages(parts)
    ensures n <= |parts|
    decreases parts
  {
    if k == 0 then 0 else 1 + PartsOf(parts[1..], if EndsMessage(parts[0]) then k - 1 else k)
  }

  lemma PartsStep<B>(parts: seq<Item<B>>, k: nat)
    requires 1 <= k <= Messages(parts)
    ensures var k1 := if EndsMessage(parts[0]) then k - 1 else k;
            k1 <= Messages(parts[1..]) && PartsOf(parts, k) == 1 + PartsOf(parts[1..], k1) &&
            (k1 == 0 ==> PartsOf(parts, k) == 1)
  {
  }

  /** Reading a part acks at a multiple of lwm messages and at no other number. */
  lemma TakeAcks<B>(s: State<B>)
    requires Credit(s) && Handshake(s) && !s.readerGone && !s.reader.terminating && s.reader.active && s.reader.lwm > 0
    requires s.pipe.flushed != [] && s.pipe.flushed[0].Part?
    ensures var s' := Step(s, Read);
            var complete := EndsMessage(s.pipe.flushed[0]);
            s'.reader == s.reader.(msgsRead := s.reader.msgsRead + if complete then 1 else 0) &&
            s'.writer == s.writer && s'.pipe.flushed == s.pipe.flushed[1..] && s'.readerGone == s.readerGone &&
            LastAck(s'.writer.msgsRead, s'.toWriter) ==
              LastAck(s.writer.msgsRead, s.toWriter) + if complete && Due(s) == 1 then s.reader.lwm else 0
  {
    var seen, read := s.writer.msgsRead, s.reader.msgsRead;
    var r1 := Count(s.reader, s.pipe.flushed[0].more);
    RisingLater(seen, s.toWriter, read, r1.msgsRead);
    NextAck(s.reader.lwm, LastAck(seen, s.toWriter), read);
    if Ack(r1) != [] {
      AppendCommand(seen, s.toWriter, r1.msgsRead, ActivateWriter(r1.msgsRead));
    }
    assert s.toWriter + [] == s.toWriter;
  }

  lemma MessageIsFirst<B>(s: State<B>)
    requires Content(s) && !s.readerGone && Messages(s.pipe.flushed) > 0
    ensures s.pipe.flushed[0].Part?
  {
    if s.pipe.flushed[0].Delimiter? {
      DelimiterLast(s);
      NoMessages(s.pipe.flushed);
    }
  }

  /** No ack, or the next one, is sent when a part is read, and in the end there is nothing due. */
  lemma ReadOnward<B>(s: State<B>)
    requires Inv(s) && !s.readerGone && !s.reader.terminating && s.reader.active && s.reader.lwm > 0
    requires 1 <= Due(s) <= Messages(s.pipe.flushed)
    ensures s.pipe.flushed != [] && Inv(Step(s, Read))
    ensures var s1 := Step(s, Read);
            var last := EndsMessage(s.pipe.flushed[0]) && Due(s) == 1;
            !s1.readerGone && !s1.reader.terminating && s1.reader.active && s1.reader.lwm == s.reader.lwm &&
            s1.writer == s.writer && s1.pipe.flushed == s.pipe.flushed[1..] &&
            LastAck(s1.writer.msgsRead, s1.toWriter) ==
              LastAck(s.writer.msgsRead, s.toWriter) + (if last then s.reader.lwm else 0) &&
            (!last ==> Due(s1) == Due(s) - if EndsMessage(s.pipe.flushed[0]) then 1 else 0)
  {
    MessageIsFirst(s);
    TakeKeepsInv(s);
    TakeAcks(s);
  }

  /** One part nearer to the next ack, or there. */
  lemma ReadNearer<B>(s: State<B>)
    requires Inv(s) && !s.readerGone && !s.reader.terminating && s.reader.active && s.reader.lwm > 0
    requires 1 <= Due(s) <= Messages(s.pipe.flushed)
    ensures
      var s1 := Step(s, Read);
      && s.pipe.flushed != [] && Inv(s1) && |s1.pipe.flushed| < |s.pipe.flushed|
      && !s1.readerGone && !s1.reader.terminating && s1.reader.active
      && s1.reader.lwm == s.reader.lwm && s1.writer == s.writer
      && if PartsOf(s.pipe.flushed, Due(s)) == 1 then
           LastAck(s1.writer.msgsRead, s1.toWriter) == LastAck(s.writer.msgsRead, s.toWriter) + s.reader.lwm
         else
           && LastAck(s1.writer.msgsRead, s1.toWriter) == LastAck(s.writer.msgsRead, s.toWriter)
           && 1 <= Due(s1) <= Messages(s1.pipe.flushed)
           && PartsOf(s.pipe.flushed, Due(s)) == 1 + PartsOf(s1.pipe.flushed, Due(s1))
  {
    ReadOnward(s);
    PartsStep(s.pipe.flushed, Due(s));
  }

  /** Reading the messages that are due sends the next ack. */
  lemma {:induction false} ReadingAcks<B>(s: State<B>)
    requires Inv(s) && !s.readerGone && !s.reader.terminating && s.reader.active && s.reader.lwm > 0
    requires 1 <= Due(s) <= Messages(s.pipe.flushed)
    ensures var s' := Exec(s, Repeat(Read, PartsOf(s.pipe.flushed, Due(s))));
            s'.writer == s.writer && !s'.readerGone && !s'.reader.terminating &&
            LastAck(s'.writer.msgsRead, s'.toWriter) == LastAck(s.writer.msgsRead, s.toWriter) + s.reader.lwm
    decreases |s.pipe.flushed|
  {
    var s1 := Step(s, Read);
    var n := PartsOf(s.pipe.flushed, Due(s));
    ReadNearer(s);
    if n == 1 {
      RepeatFirst(s, Read, n);
      assert Repeat<B>(Read, 0) == [];
    } else {
      RepeatFirst(s, Read, n);
      ReadingAcks(s1);
    }
  }

  /** The writer sees the last ack when it has processed the commands sent to it. */
  lemma {:induction false} ProcessingAcks<B>(s: State<B>)
    requires Inv(s) && !s.writerGone && !s.writer.terminating && !HasTerm(s.toWriter)
    ensures var s' := Exec(s, Repeat(WriterProcess, |s.toWriter|));
            Inv(s') && !s'.writer.terminating && s'.writer.msgsWritten == s.writer.msgsWritten &&
            s'.writer.hwm == s.writer.hwm && s'.toWriter == [] &&
            s'.writer.msgsRead == LastAck(s.writer.msgsRead, s.toWriter)
    decreases |s.toWriter|
  {
    if s.toWriter != [] {
      var s1 := Step(s, WriterProcess);
      WriterProcessKeepsInv(s);
      RepeatFirst(s, WriterProcess, |s.toWriter|);
      ProcessingAcks(s1);
    }
  }

  /** So a full pipe opens again: when the reader reads the messages that are due and the writer
      processes its commands, the writer can write. */
  lemma ReadingUnblocks<B>(s: State<B>)
    requires Inv(s) && !s.writer.terminating && !CanWrite(s.writer) && s.toWriter == []
    requires !s.readerGone && !s.reader.terminating && s.reader.active && s.pipe.flushed == s.pipe.All()
    ensures 1 <= Due(s) <= Messages(s.pipe.flushed)
    ensures var s1 := Exec(s, Repeat(Read, PartsOf(s.pipe.flushed, Due(s))));
            var s2 := Exec(s1, Repeat(WriterProcess, |s1.toWriter|));
            CanWrite(s2.writer)
  {
    ReadingAcks(s);
    RunKeepsInv(s, Repeat(Read, PartsOf(s.pipe.flushed, Due(s))));
    ProcessingAcks(Exec(s, Repeat(Read, PartsOf(s.pipe.flushed, Due(s)))));
  }

  /** The reader does not sleep through messages: if there are some and it is passive, it is
      about to be woken up. */
  lemma ReaderIsWoken<B>(hwm: nat, run: seq<Action<B>>)
    requires var s := Exec(Init<B>(hwm), run);
             s.pipe.flushed != [] && !s.reader.active && !s.reader.terminating
    ensures ActivateReader in Exec(Init<B>(hwm), run).toReader
  {
    InitInv<B>(hwm);
    RunKeepsInv(Init<B>(hwm), run);
  }

  // What every call does, in every run

  /** There is a part to be read. */
  predicate CanRead<B>(s: State<B>) { s.reader.active && s.pipe.flushed != [] && s.pipe.flushed[0].Part? }

  lemma ReadablePart<B>(s: State<B>)
    requires !s.readerGone && !s.reader.terminating && CanRead(s)
    ensures PipeHandlers.CheckRead(s.reader, s.pipe).ok && PipeHandlers.Read(s.reader, s.pipe).item == Some(s.pipe.flushed[0])
    ensures Step(s, CheckRead) == s
    ensures Step(s, Read).pipe.All() == s.pipe.All()[1..]
    ensures Step(s, Read).delivered == s.delivered + [s.pipe.flushed[0]]
  {
    assert s.delivered + [] == s.delivered && s.toWriter + [] == s.toWriter;
    AllButFirst(s.pipe.flushed, s.pipe.staged, s.pipe.open);
  }

  lemma AllButFirst<T>(a: seq<T>, b: seq<T>, c: seq<T>)
    requires a != []
    ensures (a + b + c)[1..] == a[1..] + b + c
  {
  }

  lemma NoReadablePart<B>(s: State<B>)
    requires !s.readerGone && !s.reader.terminating && !CanRead(s)
    ensures !PipeHandlers.CheckRead(s.reader, s.pipe).ok && PipeHandlers.Read(s.reader, s.pipe).item.None?
    ensures Step(s, Read) == Step(s, CheckRead)
    ensures Step(s, Read).delivered == s.delivered && !Step(s, Read).reader.active
  {
    assert s.delivered + [] == s.delivered;
  }

  /** `check_read` is true if and only if `read` returns a part, the oldest one that was flushed; then it leaves
      everything as it is.  Otherwise the reader is passive, goes to sleep, or finds the delimiter. */
  lemma CheckReadExactly<B>(hwm: nat, run: seq<Action<B>>)
    requires var s := Exec(Init<B>(hwm), run); !s.readerGone && !s.reader.terminating
    ensures
      var s := Exec(Init<B>(hwm), run);
      var checked, taken := PipeHandlers.CheckRead(s.reader, s.pipe), PipeHandlers.Read(s.reader, s.pipe);
      && (checked.ok <==> s.reader.active && s.pipe.flushed != [] && s.pipe.flushed[0].Part?)
      && (checked.ok <==> taken.item.Some?)
      && (if checked.ok then
            && Step(s, CheckRead) == s
            && taken.item == Some(s.pipe.flushed[0])
            && Step(s, Read).pipe.All() == s.pipe.All()[1..]
            && Step(s, Read).delivered == s.delivered + [s.pipe.flushed[0]]
          else
            && Step(s, Read) == Step(s, CheckRead)
            && Step(s, Read).delivered == s.delivered
            && !Step(s, Read).reader.active)
      && (Step(s, CheckRead).delimited <==> s.reader.active && s.pipe.flushed != [] && s.pipe.flushed[0].Delimiter?)
      && (s.reader.active && s.pipe.flushed == [] ==> Step(s, CheckRead).pipe.asleep)
  {
    InitInv<B>(hwm);
    RunKeepsInv(Init<B>(hwm), run);
    var s := Exec(Init<B>(hwm), run);
    assert !s.delimited;
    if CanRead(s) {
      ReadablePart(s);
    } else {
      NoReadablePart(s);
    }
  }

  /** There is room for a part: the messages in the pipe, and those that were read without the writer knowing
      it yet, are fewer than the high watermark. */
  predicate HasRoom<B>(s: State<B>, hwm: nat) {
    hwm == 0 || Messages(s.pipe.All()) + s.reader.msgsRead - s.writer.msgsRead < hwm
  }

  lemma RoomToWrite<B>(s: State<B>)
    requires Credit(s) && !s.readerGone
    ensures CanWrite(s.writer) <==> !s.writer.terminating && HasRoom(s, s.writer.hwm)
  {
  }

  lemma WriteEffect<B>(s: State<B>, body: B, more: bool)
    requires Credit(s) && Content(s) && !s.writerGone && !s.readerGone
    ensures
      var v := Step(s, Write(body, more));
      if CanWrite(s.writer) then
        v.accepted == s.accepted + [Part(body, more)] && v.pipe.All() == s.pipe.All() + [Part(body, more)]
      else v.accepted == s.accepted && v.pipe == s.pipe
  {
    if CanWrite(s.writer) {
      WriteContent(s, body, more);
    }
  }

  /** A part is accepted if and only if the writer is not terminating and there is room; otherwise nothing
      is written. */
  lemma WriteExactly<B>(hwm: nat, run: seq<Action<B>>, body: B, more: bool)
    requires !Exec(Init<B>(hwm), run).writerGone
    ensures
      var s := Exec(Init<B>(hwm), run);
      var v := Step(s, Write(body, more));
      && (CanWrite(s.writer) <==> !s.writer.terminating && HasRoom(s, hwm))
      && (if !s.writer.terminating && HasRoom(s, hwm) then
            v.accepted == s.accepted + [Part(body, more)] && v.pipe.All() == s.pipe.All() + [Part(body, more)]
          else v.accepted == s.accepted && v.pipe == s.pipe)
  {
    InitInv<B>(hwm);
    RunKeepsInv(Init<B>(hwm), run);
    HwmStays(Init<B>(hwm), run);
    RoomToWrite(Exec(Init<B>(hwm), run));
    WriteEffect(Exec(Init<B>(hwm), run), body, more);
  }

  lemma OpenIsLast<B>(s: State<B>)
    requires Content(s) && Handshake(s) && !s.writerGone
    ensures |s.pipe.open| <= |s.accepted| && s.accepted == Withdrawn(s) + s.pipe.open
  {
    if s.pipe.open != [] {
      var before := s.delivered + s.discarded + s.leaked;
      assert !s.writer.terminating;
      Regroup(before, s.pipe.flushed + s.pipe.staged, s.pipe.open);
    } else {
      assert s.accepted + [] == s.accepted;
    }
  }

  lemma FlushEffect<B>(s: State<B>)
    requires !s.writerGone
    ensures
      var v := Step(s, Flush);
      && v.pipe.flushed == s.pipe.flushed + s.pipe.staged && v.pipe.staged == [] && v.pipe.open == s.pipe.open
      && v.toReader == s.toReader + (if s.pipe.staged != [] && s.pipe.asleep then [ActivateReader] else [])
      && v.accepted == s.accepted
  {
    assert s.toReader + [] == s.toReader;
    assert s.pipe.staged == [] ==> s.pipe.flushed + s.pipe.staged == s.pipe.flushed;
  }

  /** `flush` makes all complete messages readable, and wakes the reader if and only if it sleeps and there are
      some; `rollback` takes back the open message and nothing else. */
  lemma FlushAndRollbackExactly<B>(hwm: nat, run: seq<Action<B>>)
    requires !Exec(Init<B>(hwm), run).writerGone
    ensures
      var s := Exec(Init<B>(hwm), run);
      var v, u := Step(s, Flush), Step(s, Rollback);
      && v.pipe.flushed == s.pipe.flushed + s.pipe.staged && v.pipe.staged == [] && v.pipe.open == s.pipe.open
      && v.toReader == s.toReader + (if s.pipe.staged != [] && s.pipe.asleep then [ActivateReader] else [])
      && v.accepted == s.accepted
      && u.pipe.flushed == s.pipe.flushed && u.pipe.staged == s.pipe.staged && u.pipe.open == []
      && s.accepted == u.accepted + s.pipe.open
  {
    InitInv<B>(hwm);
    RunKeepsInv(Init<B>(hwm), run);
    OpenIsLast(Exec(Init<B>(hwm), run));
    FlushEffect(Exec(Init<B>(hwm), run));
  }

  lemma TerminateEffect<B>(s: State<B>)
    requires !s.writerGone && !s.writer.terminating
    ensures
      var v := Step(s, TerminateWriter);
      && v.writer.terminating && !CanWrite(v.writer)
      && v.pipe.flushed == s.pipe.flushed + s.pipe.staged + [Delimiter]
      && v.accepted == Withdrawn(s)
  {
    assert s.pipe.staged + [] + [Delimiter] == s.pipe.staged + [Delimiter];
    Regroup(s.pipe.flushed, s.pipe.staged, [Delimiter]);
  }

  /** Either end terminates at once, and tells the other end once: the writer by the delimiter behind all
      complete messages, the reader by `pipe_term`. */
  lemma TerminateExactly<B>(hwm: nat, run: seq<Action<B>>)
    ensures
      var s := Exec(Init<B>(hwm), run);
      var v, u := Step(s, TerminateWriter), Step(s, TerminateReader);
      && (!s.writerGone && !s.writer.terminating ==>
            && v.writer.terminating && !CanWrite(v.writer)
            && v.pipe.flushed == s.pipe.flushed + s.pipe.staged + [Delimiter]
            && s.accepted == v.accepted + s.pipe.open)
      && (s.writerGone || s.writer.terminating ==> v == s)
      && (!s.readerGone && !s.reader.terminating ==>
            u.reader.terminating && !u.reader.active && u.toWriter == s.toWriter + [PipeTerm] && u.pipe == s.pipe)
      && (s.readerGone || s.reader.terminating ==> u == s)
  {
    InitInv<B>(hwm);
    RunKeepsInv(Init<B>(hwm), run);
    var s := Exec(Init<B>(hwm), run);
    assert s.toWriter + [] == s.toWriter;
    if !s.writerGone && !s.writer.terminating {
      OpenIsLast(s);
      TerminateEffect(s);
    }
  }

  // Shutdown over every run

  /** Whoever terminates: each end reports `terminated` at most once, and nothing is sent to an
      end that is gone or that has its last command on the way. */
  lemma TerminatedOnce<B>(hwm: nat, run: seq<Action<B>>)
    ensures var s := Exec(Init<B>(hwm), run);
            s.readerEvents <= 1 && s.writerEvents <= 1 && !s.fault &&
            (forall i :: 0 <= i < |s.toWriter| - 1 ==> s.toWriter[i].ActivateWriter?) &&
            (forall i :: 0 <= i < |s.toReader| - 1 ==> s.toReader[i].ActivateReader?)
  {
    InitInv<B>(hwm);
    RunKeepsInv(Init<B>(hwm), run);
    var s := Exec(Init<B>(hwm), run);
    TermIsLast(s.writer.msgsRead, s.toWriter, s.reader.msgsRead);
  }

  lemma {:induction false} TermIsLast(seen: nat, cmds: seq<ToWriter>, read: nat)
    requires Rising(seen, cmds, read)
    ensures forall i :: 0 <= i < |cmds| - 1 ==> cmds[i].ActivateWriter?
    decreases cmds
  {
    if cmds != [] && cmds[0].ActivateWriter? {
      TermIsLast(cmds[0].msgsRead, cmds[1..], read);
      assert forall i :: 1 <= i < |cmds| ==> cmds[i] == cmds[1..][i - 1];
    }
  }

  /** The handshake comes to its end: when the reader is terminating and all commands were
      processed, both ends are gone and have reported it. */
  lemma HandshakeCompletes<B>(hwm: nat, run: seq<Action<B>>)
    requires var s := Exec(Init<B>(hwm), run);
             s.reader.terminating && s.toReader == [] && s.toWriter == []
    ensures var s := Exec(Init<B>(hwm), run);
            s.readerGone && s.writerGone && s.readerEvents == 1 && s.writerEvents == 1
  {
    InitInv<B>(hwm);
    RunKeepsInv(Init<B>(hwm), run);
  }

  /** A reader that gets to the delimiter has read exactly what the writer wrote, and that ends
      with a complete message. */
  lemma DelimiterAfterAll<B>(hwm: nat, run: seq<Action<B>>)
    requires Exec(Init<B>(hwm), run).delimited
    ensures var s := Exec(Init<B>(hwm), run);
            s.delivered == s.accepted && Whole(s.delivered) && s.discarded == [] && s.leaked == []
  {
    InitInv<B>(hwm);
    RunKeepsInv(Init<B>(hwm), run);
  }

  /** And it does get there if only the writer terminates: reading on delivers the rest of the
      parts and then the delimiter. */
  lemma {:induction false} ReadingEnds<B>(s: State<B>)
    requires Inv(s) && s.writer.terminating && !s.reader.terminating && !s.readerGone && s.reader.active
    requires !s.delimited
    ensures var s' := Exec(s, Repeat(Read, |s.pipe.flushed|));
            s'.delimited && s'.accepted == s.accepted && s'.delivered == s.accepted && Whole(s'.delivered)
    decreases |s.pipe.flushed|
  {
    var s1 := Step(s, Read);
    RepeatFirst(s, Read, |s.pipe.flushed|);
    if s.pipe.flushed[0].Delimiter? {
      DelimiterLast(s);
      DelimiterKeepsInv(s, s1);
    } else {
      TakeKeepsInv(s);
      ReadingEnds(s1);
    }
  }

  /** What the writer has written when it has terminated stays as it is. */
  lemma NothingAfterTerminate<B>(s: State<B>, a: Action<B>)
    requires Inv(s) && s.writer.terminating
    ensures Step(s, a).accepted == s.accepted && Step(s, a).writer.terminating
  {
    assert s.accepted + [] == s.accepted;
    assert s.pipe.open == [] ==> Withdrawn(s) == s.accepted;
  }

  /** Every accepted part is delivered, in order, or - when the reader terminates first - closed
      by the reader or lost with the pipe; nothing is lost if the writer has terminated itself. */
  lemma PartsAccountedFor<B>(hwm: nat, run: seq<Action<B>>)
    requires Exec(Init<B>(hwm), run).readerGone
    ensures var s := Exec(Init<B>(hwm), run);
            s.accepted == s.delivered + s.discarded + s.leaked && (s.writer.terminating ==> s.leaked == [])
  {
    InitInv<B>(hwm);
    RunKeepsInv(Init<B>(hwm), run);
    assert Exec(Init<B>(hwm), run).pipe.All() == [];
  }

  /** The writer takes `pipe_term`, its last command. */
  predicate TakesPipeTerm<B>(s: State<B>, a: Action<B>) {
    a.WriterProcess? && !s.writerGone && s.toWriter != [] && s.toWriter[0].PipeTerm?
  }

  /** What is in the pipe and was not flushed when the writer takes `pipe_term`. */
  function UnflushedAtTerm<B>(s: State<B>, run: seq<Action<B>>): seq<Item<B>>
    decreases |run|
  {
    if run == [] || TakesPipeTerm(s, run[0]) then s.pipe.staged + s.pipe.open else UnflushedAtTerm(Step(s, run[0]), run[1..])
  }

  /** Without its writer the pipe is what the reader makes of it. */
  lemma WithoutWriter<B>(s: State<B>, a: Action<B>)
    requires s.writerGone
    ensures Step(s, a).writerGone && Step(s, a).accepted == s.accepted
    ensures s.readerGone ==> Step(s, a).readerGone && Step(s, a).leaked == s.leaked
    ensures !s.readerGone ==>
              if Step(s, a).readerGone then Step(s, a).leaked == s.pipe.staged + s.pipe.open
              else Step(s, a).pipe.staged == s.pipe.staged && Step(s, a).pipe.open == s.pipe.open
  {
  }

  lemma {:induction false} FrozenAfterTerm<B>(s: State<B>, run: seq<Action<B>>)
    requires s.writerGone
    ensures Exec(s, run).accepted == s.accepted
    ensures s.readerGone ==> Exec(s, run).leaked == s.leaked
    ensures !s.readerGone && Exec(s, run).readerGone ==> Exec(s, run).leaked == s.pipe.staged + s.pipe.open
    decreases |run|
  {
    if run != [] {
      WithoutWriter(s, run[0]);
      FrozenAfterTerm(Step(s, run[0]), run[1..]);
    }
  }

  /** Before the writer takes `pipe_term`, neither end goes away. */
  lemma BeforeTerm<B>(s: State<B>, a: Action<B>)
    requires Handshake(s) && !s.writerGone
    ensures !s.readerGone
    ensures if TakesPipeTerm(s, a) then
              Step(s, a).writerGone && !Step(s, a).readerGone && Step(s, a).pipe == s.pipe
            else !Step(s, a).writerGone
  {
  }

  lemma {:induction false} LostFrom<B>(s: State<B>, run: seq<Action<B>>)
    requires Inv(s) && !s.writerGone && Exec(s, run).readerGone
    ensures Exec(s, run).leaked == UnflushedAtTerm(s, run)
    decreases |run|
  {
    if run == [] {
      assert false;
    } else {
      BeforeTerm(s, run[0]);
      if TakesPipeTerm(s, run[0]) {
        FrozenAfterTerm(Step(s, run[0]), run[1..]);
      } else {
        StepKeepsInv(s, run[0]);
        LostFrom(Step(s, run[0]), run[1..]);
      }
    }
  }

  /** What is lost is exactly what had been accepted and not flushed when the writer took `pipe_term`;
      so nothing is lost if and only if everything had been flushed by then. */
  lemma LostExactly<B>(hwm: nat, run: seq<Action<B>>)
    requires Exec(Init<B>(hwm), run).readerGone
    ensures Exec(Init<B>(hwm), run).leaked == UnflushedAtTerm(Init<B>(hwm), run)
  {
    InitInv<B>(hwm);
    LostFrom(Init<B>(hwm), run);
  }

  lemma ExecFive<B>(s: State<B>, a: Action<B>, b: Action<B>, c: Action<B>, d: Action<B>, e: Action<B>)
    ensures Exec(s, [a, b, c, d, e]) == Step(Step(Step(Step(Step(s, a), b), c), d), e)
  {
    var s1 := Step(s, a);
    var s2 := Step(s1, b);
    var s3 := Step(s2, c);
    var s4 := Step(s3, d);
    assert [a, b, c, d, e][1..] == [b, c, d, e] && [b, c, d, e][1..] == [c, d, e];
    assert [c, d, e][1..] == [d, e] && [d, e][1..] == [e] && [e][1..] == [];
    assert Exec(s4, [e]) == Step(s4, e);
    assert Exec(s2, [c, d, e]) == Exec(s4, [e]);
    assert Exec(s, [a, b, c, d, e]) == Exec(s2, [c, d, e]);
  }

  /** It can be lost otherwise: the destructor of the reader closes what was flushed and no more, so
      a part that was written and not flushed when the reader terminated is never closed. */
  lemma UnflushedPartIsLost<B>(body: B)
    ensures var s := Exec(Init<B>(0), [Write(body, true), Flush, TerminateReader, WriterProcess, ReaderProcess]);
            s.readerGone && s.leaked == [Part(body, true)]
  {
    ExecFive(Init<B>(0), Write(body, true), Flush, TerminateReader, WriterProcess, ReaderProcess);
    var s1 := Step(Step(Init<B>(0), Write(body, true)), Flush);
    var s2 := Step(s1, TerminateReader);
    assert s2.toWriter == [PipeTerm];
    var s3 := Step(s2, WriterProcess);
    assert s3.toReader == [PipeTermAck] && s3.pipe.open == [Part(body, true)];
    var s4 := Step(s3, ReaderProcess);
    assert s4.leaked == [Part(body, true)];
  }

  /** A terminating reader that nobody is going to wake up. */
  ghost predicate Unwakeable<B>(s: State<B>) {
    && s.reader.terminating
    && !s.reader.active
    && !s.pipe.asleep
    && ActivateReader !in s.toReader
  }

  lemma StaysUnwakeable<B>(s: State<B>, a: Action<B>)
    requires Unwakeable(s)
    ensures Unwakeable(Step(s, a))
  {
  }

  lemma {:induction false} StaysPassive<B>(s: State<B>, run: seq<Action<B>>)
    requires Unwakeable(s)
    ensures !Exec(s, run).reader.active
    decreases |run|
  {
    if run != [] {
      StaysUnwakeable(s, run[0]);
      StaysPassive(Step(s, run[0]), run[1..]);
    }
  }

  /** A passive reader can be woken up after its `terminate`: by a command that is on the way, or by the
      delimiter that the writer still has to write. */
  lemma WakesTerminating<B>(s: State<B>) returns (later: seq<Action<B>>)
    requires Inv(s) && !s.reader.terminating && !s.reader.active
    ensures Exec(Step(s, TerminateReader), later).reader.active
  {
    var s1 := Step(s, TerminateReader);
    if ActivateReader in s.toReader {
      later := [ReaderProcess];
      assert s1.toReader[0] == ActivateReader;
      assert Exec(s1, later) == Exec(Step(s1, ReaderProcess), []) by {
        assert later[1..] == [];
      }
    } else {
      later := [TerminateWriter, ReaderProcess];
      assert s1.toReader == [] && s1.pipe.asleep && !s1.writer.terminating && !s1.writerGone;
      var s2 := Step(s1, TerminateWriter);
      assert s2.toReader == [ActivateReader];
      assert Exec(s1, later) == Exec(s2, [ReaderProcess]) by {
        assert later[1..] == [ReaderProcess];
      }
      assert Exec(s2, later[1..]) == Exec(Step(s2, ReaderProcess), []) by {
        assert later[1..][1..] == [];
      }
    }
  }

  /** A reader can become active again after its own `terminate` if and only if it was passive when it
      called it. */
  lemma ReactivatedExactly<B>(hwm: nat, run: seq<Action<B>>)
    requires !Exec(Init<B>(hwm), run).reader.terminating
    ensures var s := Exec(Init<B>(hwm), run);
            (exists later :: Exec(Step(s, TerminateReader), later).reader.active) <==> !s.reader.active
  {
    InitInv<B>(hwm);
    RunKeepsInv(Init<B>(hwm), run);
    var s := Exec(Init<B>(hwm), run);
    var s1 := Step(s, TerminateReader);
    if s.reader.active {
      assert Unwakeable(s1);
      forall later ensures !Exec(s1, later).reader.active {
        StaysPassive(s1, later);
      }
    } else {
      var later := WakesTerminating(s);
      assert Exec(s1, later).reader.active;
    }
  }

  /** The owner of the reader has to stop on its own: a wake-up that was under way makes a
      terminating reader active again, and reading then would send an ack behind `pipe_term`. */
  lemma TerminatingReaderIsWoken<B>(body: B)
    ensures var s := Exec(Init<B>(1), [Read, TerminateReader, Write(body, false), Flush, ReaderProcess]);
            s.reader.terminating && s.toWriter == [PipeTerm] &&
            PipeHandlers.Read(s.reader, s.pipe).sent == [ActivateWriter(1)]
  {
    ExecFive(Init<B>(1), Read, TerminateReader, Write(body, false), Flush, ReaderProcess);
    var s1 := Step(Init<B>(1), Read);
    var s2 := Step(s1, TerminateReader);
    var s3 := Step(s2, Write(body, false));
    var s4 := Step(s3, Flush);
    assert s4.toReader == [ActivateReader] && s4.pipe.flushed == [Part(body, false)];
    var s5 := Step(s4, ReaderProcess);
    assert s5.reader == ReaderEnd(true, 1, 0, true) && s5.toWriter == [PipeTerm];
  }
}
