/**
 The mailbox of mailbox.cpp: any number of sending threads, one receiving
 thread, a lock-free pipe and a signaler that holds one byte per signal.

 The mutex of `send` covers the write and the flush; the signal is sent after
 the mutex is released, so other senders and the receiver may run in between.
 Every access to shared data is a step of its own: the pipe is the step machine
 of YpipeSteps, driven by whoever holds the mutex and by the receiver.  The two
 assertions of the code that could fail - that a byte is there when the receiver
 goes passive, and that a read after a successful wait finds a command - set
 `fault` when they do.
 */
module Mailbox {
  import opened Common
  import Pipe = YpipeSteps

  type Thread = nat

  /** Progress of the sender that holds the mutex. */
  datatype Phase<C> = ToWrite(cmd: C) | ToFlush | Flushing | ToUnlock(readerAwake: bool)

  datatype Holder<C> = Nobody | Held(id: Thread, phase: Phase<C>)

  /** Progress of the receiver: idle in active state, taking a command it has
      prefetched, about to consume the signal byte, waiting in passive state, or
      woken up and about to read. */
  datatype Receiver = Active | Taking | Consuming | Passive | Woken

  datatype State<C> = State(
    cpipe: Pipe.State<C>,
    holder: Holder<C>,
    owing: set<Thread>,      // senders that found the reader asleep and have yet to signal
    signals: nat,            // bytes in the signaler
    receiver: Receiver,
    sent: seq<C>,            // history: commands in the order they were written
    fault: bool)

  datatype Action<C> =
    | Lock(id: Thread, cmd: C)   // `send` acquires the mutex
    | Continue                   // the holder of the mutex makes its next step
    | Signal(id: Thread)         // `signaler.send` of a sender that owes a signal
    | Receive                    // the receiver makes its next step

  /** The constructor reads once, which puts the pipe into passive state. */
  function Init<C>(): State<C> {
    State(Pipe.Step(Pipe.Init<C>(), Pipe.CheckRead).0, Nobody, {}, 0, Passive, [], false)
  }

  function SenderStep<C>(s: State<C>): State<C> {
    if s.holder.Nobody? then s
    else
      match s.holder.phase
      case ToWrite(cmd) =>
        s.(cpipe := Pipe.Step(s.cpipe, Pipe.Write(cmd, false)).0, sent := s.sent + [cmd],
           holder := Held(s.holder.id, ToFlush))
      case ToFlush =>
        var (p, res) := Pipe.Step(s.cpipe, Pipe.Flush);
        s.(cpipe := p,
           holder := Held(s.holder.id, if res.Flushed? then ToUnlock(res.readerAwake) else Flushing))
      case Flushing =>
        var (p, res) := Pipe.Step(s.cpipe, if s.cpipe.wpc == Pipe.AtCas then Pipe.FlushCas else Pipe.FlushSet);
        s.(cpipe := p,
           holder := Held(s.holder.id, if res.Flushed? then ToUnlock(res.readerAwake) else Flushing))
      case ToUnlock(ok) =>
        s.(holder := Nobody, owing := if ok then s.owing else s.owing + {s.holder.id})
  }

  function ReceiverStep<C>(s: State<C>): State<C> {
    match s.receiver
    case Active =>
      var (p, res) := Pipe.Step(s.cpipe, Pipe.CheckRead);
      s.(cpipe := p, receiver := if res == Pipe.Checked(true) then Taking else Consuming)
    case Taking =>
      s.(cpipe := Pipe.Step(s.cpipe, Pipe.Pop).0, receiver := Active)
    case Consuming =>
      if s.signals == 0 then s.(fault := true)
      else s.(signals := s.signals - 1, receiver := Passive)
    case Passive =>
      // `signaler.wait`: succeeds when there is a byte to read, times out otherwise
      if s.signals == 0 then s else s.(receiver := Woken)
    case Woken =>
      var (p, res) := Pipe.Step(s.cpipe, Pipe.CheckRead);
      if res == Pipe.Checked(true) then s.(cpipe := p, receiver := Taking)
      else s.(cpipe := p, fault := true)
  }

  function Step<C>(s: State<C>, a: Action<C>): State<C> {
    match a
    case Lock(t, cmd) =>
      if s.holder != Nobody || t in s.owing then s else s.(holder := Held(t, ToWrite(cmd)))
    case Continue => SenderStep(s)
    case Signal(t) =>
      if t in s.owing then s.(owing := s.owing - {t}, signals := s.signals + 1) else s
    case Receive => ReceiverStep(s)
  }

  function Exec<C>(s: State<C>, run: seq<Action<C>>): State<C>
    decreases |run|
  {
    if run == [] then s else Exec(Step(s, run[0]), run[1..])
  }

  // ---------------------------------------------------------------------
  // The inductive invariant
  // ---------------------------------------------------------------------

  predicate Asleep<C>(s: State<C>) { s.cpipe.c.None? }

  /** Some command was flushed and not read yet. */
  predicate Unread<C>(s: State<C>) { s.cpipe.front < s.cpipe.w }

  /** Every time the reader goes to sleep it creates one obligation to signal; the
      obligation moves from the sleeping reader to the sender that finds it asleep
      and from there into the signaler. */
  function Obligations<C>(s: State<C>): nat {
    s.signals + |s.owing|
    + (if s.holder.Held? && s.holder.phase == ToUnlock(false) then 1 else 0)
    + (if Asleep(s) then 1 else 0)
  }

  ghost predicate SenderInv<C>(s: State<C>) {
    && s.cpipe.f == s.cpipe.Back()
    && (s.holder.Held? ==> s.holder.id !in s.owing)
    && (s.holder.Held? && s.holder.phase.Flushing? <==> s.cpipe.wpc != Pipe.Idle)
    && (s.holder.Held? && (s.holder.phase.ToFlush? || s.holder.phase.Flushing?) <==> s.cpipe.w < s.cpipe.f)
  }

  predicate ReceiverInv<C>(s: State<C>) {
    && !s.fault
    && (s.receiver == Taking <==> s.cpipe.rpc == Pipe.Holding)
    && Obligations(s) == (if s.receiver == Consuming then 2 else 1)
    && (s.receiver in {Active, Taking} ==> s.signals == 1)
    && (s.receiver in {Consuming, Woken} ==> s.signals >= 1)
    && (s.receiver in {Consuming, Passive, Woken} && !Asleep(s) ==> Unread(s))
  }

  ghost predicate Inv<C>(s: State<C>) {
    && PipeInv(s.cpipe, s.sent)
    && SenderInv(s)
    && ReceiverInv(s)
  }

  lemma SenderKeepsProtocol<C>(s: State<C>)
    requires Pipe.PositionInv(s.cpipe) && SenderInv(s) && ReceiverInv(s)
    ensures SenderInv(SenderStep(s)) && ReceiverInv(SenderStep(s))
  {
    if s.holder.Held? {
      match s.holder.phase
      case ToWrite(cmd) =>
      case ToFlush =>
      case Flushing =>
      case ToUnlock(ok) =>
    }
  }

  lemma ReceiverKeepsProtocol<C>(s: State<C>)
    requires Pipe.PositionInv(s.cpipe) && SenderInv(s) && ReceiverInv(s)
    ensures SenderInv(ReceiverStep(s)) && ReceiverInv(ReceiverStep(s))
  {
  }

  /** The part of the invariant about the pipe and its contents. */
  ghost predicate PipeInv<C>(p: Pipe.State<C>, sent: seq<C>) {
    Pipe.Inv(p) && Pipe.Values(Pipe.Net(p.edits)) == sent
  }

  lemma WriteKeepsPipe<C>(p: Pipe.State<C>, sent: seq<C>, cmd: C)
    requires PipeInv(p, sent) && p.wpc == Pipe.Idle
    ensures PipeInv(Pipe.Step(p, Pipe.Write(cmd, false)).0, sent + [cmd])
  {
    Pipe.WriteKeepsInv(p, cmd, false);
    var item := Pipe.Item(cmd, false);
    var net := Pipe.Net(p.edits);
    Pipe.NetExtends(p.edits, Pipe.Wrote(item));
    assert Pipe.Values(net + [item]) == Pipe.Values(net) + [cmd];
  }

  lemma OtherStepKeepsPipe<C>(p: Pipe.State<C>, sent: seq<C>, a: Pipe.Action<C>)
    requires PipeInv(p, sent) && !a.Write? && !a.Unwrite?
    ensures PipeInv(Pipe.Step(p, a).0, sent)
  {
    Pipe.StepKeepsInv(p, a);
  }

  lemma SenderKeepsPipe<C>(s: State<C>)
    requires PipeInv(s.cpipe, s.sent) && SenderInv(s)
    ensures PipeInv(SenderStep(s).cpipe, SenderStep(s).sent)
  {
    if s.holder.Held? {
      match s.holder.phase
      case ToWrite(cmd) => WriteKeepsPipe(s.cpipe, s.sent, cmd);
      case ToFlush => OtherStepKeepsPipe(s.cpipe, s.sent, Pipe.Flush);
      case Flushing =>
        OtherStepKeepsPipe(s.cpipe, s.sent, if s.cpipe.wpc == Pipe.AtCas then Pipe.FlushCas else Pipe.FlushSet);
      case ToUnlock(ok) =>
    }
  }

  lemma ReceiverKeepsPipe<C>(s: State<C>)
    requires PipeInv(s.cpipe, s.sent)
    ensures PipeInv(ReceiverStep(s).cpipe, ReceiverStep(s).sent)
  {
    OtherStepKeepsPipe(s.cpipe, s.sent, if s.receiver == Taking then Pipe.Pop else Pipe.CheckRead);
  }

  lemma StepKeepsInv<C>(s: State<C>, a: Action<C>)
    requires Inv(s)
    ensures Inv(Step(s, a))
  {
    match a
    case Continue => SenderKeepsProtocol(s); SenderKeepsPipe(s);
    case Receive => ReceiverKeepsProtocol(s); ReceiverKeepsPipe(s);
    case Lock(_, _) =>
    case Signal(_) =>
  }

  lemma {:induction false} RunKeepsInv<C>(s: State<C>, run: seq<Action<C>>)
    requires Inv(s)
    ensures Inv(Exec(s, run))
    decreases |run|
  {
    if run != [] {
      StepKeepsInv(s, run[0]);
      RunKeepsInv(Step(s, run[0]), run[1..]);
    }
  }

  lemma InitInv<C>()
    ensures Inv(Init<C>())
  {
    Pipe.StepKeepsInv(Pipe.Init<C>(), Pipe.CheckRead);
  }

  // ---------------------------------------------------------------------
  // What holds in every run
  // ---------------------------------------------------------------------

  /** Neither assertion of `recv` ever fails: the byte consumed on going passive
      is there, and the read after a successful wait finds a command. */
  lemma AssertionsHold<C>(run: seq<Action<C>>)
    ensures var s := Exec(Init<C>(), run);
            && !s.fault
            && (s.receiver == Consuming ==> s.signals > 0)
            && (s.receiver == Woken ==> Pipe.Step(s.cpipe, Pipe.CheckRead).1 == Pipe.Checked(true))
  {
    InitInv<C>();
    RunKeepsInv(Init<C>(), run);
  }

  /** No lost wake-up: while the receiver is passive and a flushed command is unread,
      a signal is in the signaler or some sender still owes one.  A passive
      receiver with nothing to read has no signal pending. */
  lemma NoLostWakeup<C>(run: seq<Action<C>>)
    ensures var s := Exec(Init<C>(), run);
            s.receiver == Passive ==>
              if Unread(s) then
                s.signals > 0 || s.owing != {} || (s.holder.Held? && s.holder.phase == ToUnlock(false))
              else
                s.signals == 0 && s.owing == {}
  {
    InitInv<C>();
    RunKeepsInv(Init<C>(), run);
  }

  /** The commands received are the first ones of those sent, in the order in which
      the senders held the mutex; when no sender is inside `send` the rest can all
      be read. */
  lemma CommandsInOrder<C>(run: seq<Action<C>>)
    ensures var s := Exec(Init<C>(), run);
            && s.cpipe.got <= s.sent
            && (s.holder.Nobody? ==> s.cpipe.w == |s.sent|)
  {
    InitInv<C>();
    RunKeepsInv(Init<C>(), run);
    var s := Exec(Init<C>(), run);
    assert s.cpipe.got + s.cpipe.queue == s.sent;
  }

  /** How many signals can be in the signaler: two at most, and two exactly while the
      receiver has yet to consume the byte of its previous wake-up although the pipe was
      filled again, and the sender that found it asleep has signalled already. */
  lemma SignalsBounded<C>(run: seq<Action<C>>)
    ensures var s := Exec(Init<C>(), run);
            && s.signals <= 2
            && (s.signals > 1 <==>
                  && s.receiver == Consuming
                  && !Asleep(s)
                  && s.owing == {}
                  && !(s.holder.Held? && s.holder.phase == ToUnlock(false)))
            && (s.signals > 1 ==> Unread(s))
  {
    InitInv<C>();
    RunKeepsInv(Init<C>(), run);
  }

  /** One sender running `send` without interruption while the receiver sleeps. */
  function WholeSend<C>(id: Thread, cmd: C): seq<Action<C>> {
    [Lock(id, cmd), Continue, Continue, Continue, Continue, Continue, Signal(id)]
  }

  lemma {:induction false} ExecConcat<C>(s: State<C>, a: seq<Action<C>>, b: seq<Action<C>>)
    ensures Exec(s, a + b) == Exec(Exec(s, a), b)
    decreases |a|
  {
    if a == [] {
      assert a + b == b;
    } else {
      assert (a + b)[1..] == a[1..] + b;
      ExecConcat(Step(s, a[0]), a[1..], b);
    }
  }

  lemma ExecTwo<C>(s: State<C>, run: seq<Action<C>>)
    requires |run| >= 2
    ensures Exec(s, run) == Exec(Step(Step(s, run[0]), run[1]), run[2..])
  {
    assert run[1..][1..] == run[2..];
  }

  lemma WriteAndFlush<C>(s: State<C>, id: Thread, cmd: C)
    requires s.holder.Nobody? && id !in s.owing && s.cpipe.wpc == Pipe.Idle && s.cpipe.w == s.cpipe.f == s.cpipe.Back()
    ensures var s' := Exec(s, WholeSend(id, cmd)[..3]);
            && s' == s.(holder := Held(id, Flushing), cpipe := s'.cpipe, sent := s.sent + [cmd])
            && s'.cpipe == Pipe.DoWrite(s.cpipe, cmd, false).(wpc := Pipe.AtCas)
  {
    var run := WholeSend(id, cmd)[..3];
    var s2 := Step(Step(s, run[0]), run[1]);
    ExecTwo(s, run);
    assert Exec(s2, run[2..]) == Exec(Step(s2, Continue), []) by {
      assert run[2..][1..] == [];
    }
  }

  lemma FlushAndSignal<C>(s: State<C>, id: Thread)
    requires s.holder == Held(id, Flushing) && id !in s.owing && s.cpipe.wpc == Pipe.AtCas
    requires s.cpipe.c.None? || s.cpipe.c == Some(s.cpipe.w)
    ensures var s' := Exec(s, [Continue, Continue, Continue, Signal(id)]);
            && s' == s.(holder := Nobody, signals := s.signals + (if Asleep(s) then 1 else 0), cpipe := s'.cpipe)
            && s'.cpipe == s.cpipe.(c := Some(s.cpipe.f), w := s.cpipe.f, wpc := Pipe.Idle, slept := false)
  {
    var run: seq<Action<C>> := [Continue, Continue, Continue, Signal(id)];
    var s2 := Step(Step(s, Continue), Continue);
    ExecTwo(s, run);
    ExecTwo(s2, run[2..]);
    assert run[2..][2..] == [];
    assert s.owing + {id} - {id} == s.owing;
  }

  lemma SendWakesSleeper<C>(s: State<C>, id: Thread, cmd: C)
    requires s.holder.Nobody? && s.owing == {} && s.cpipe.wpc == Pipe.Idle
    requires Asleep(s) && s.cpipe.w == s.cpipe.f == s.cpipe.Back()
    ensures var s' := Exec(s, WholeSend(id, cmd));
            && s' == s.(signals := s.signals + 1, cpipe := s'.cpipe, sent := s'.sent)
            && s'.cpipe == Pipe.DoWrite(s.cpipe, cmd, false).(w := s.cpipe.w + 1, c := Some(s.cpipe.w + 1), slept := false)
  {
    var rest: seq<Action<C>> := [Continue, Continue, Continue, Signal(id)];
    assert WholeSend(id, cmd) == WholeSend(id, cmd)[..3] + rest;
    WriteAndFlush(s, id, cmd);
    ExecConcat(s, WholeSend(id, cmd)[..3], rest);
    FlushAndSignal(Exec(s, WholeSend(id, cmd)[..3]), id);
  }

  /** The receiver wakes up, takes the only command and goes back to sleep, up to
      the point where it has yet to consume the byte of that wake-up. */
  lemma TakeOneAndSleep<C>(s: State<C>)
    requires s.receiver == Passive && s.signals == 1 && s.cpipe.rpc == Pipe.Resting
    requires |s.cpipe.queue| == 1 && s.cpipe.w == s.cpipe.front + 1 && s.cpipe.c == Some(s.cpipe.w)
    requires !Pipe.Prefetched(s.cpipe)
    ensures var s' := Exec(s, [Receive, Receive, Receive, Receive]);
            && s'.receiver == Consuming && s'.signals == 1 && Asleep(s')
            && s'.holder == s.holder && s'.owing == s.owing
            && s'.cpipe.wpc == s.cpipe.wpc && s'.cpipe.w == s'.cpipe.Back() && s'.cpipe.f == s.cpipe.f
  {
    var run: seq<Action<C>> := [Receive, Receive, Receive, Receive];
    var s2 := Step(Step(s, Receive), Receive);
    ExecTwo(s, run);
    ExecTwo(s2, run[2..]);
    assert run[2..][2..] == [];
  }

  const FOUR_RECEIVES: seq<Action<int>> := [Receive, Receive, Receive, Receive]

  lemma FirstCommand()
    ensures var s := Exec(Init<int>(), WholeSend(0, 7));
            && s.receiver == Passive && s.signals == 1 && s.cpipe.rpc == Pipe.Resting
            && |s.cpipe.queue| == 1 && s.cpipe.w == s.cpipe.front + 1 && s.cpipe.c == Some(s.cpipe.w)
            && !Pipe.Prefetched(s.cpipe)
            && s.holder.Nobody? && s.owing == {} && s.cpipe.wpc == Pipe.Idle && s.cpipe.f == s.cpipe.w
  {
    SendWakesSleeper(Init<int>(), 0, 7);
  }

  lemma OneSignalLeft()
    ensures var s := Exec(Exec(Init<int>(), WholeSend(0, 7)), FOUR_RECEIVES);
            && s.signals == 1 && Asleep(s) && s.holder.Nobody? && s.owing == {}
            && s.cpipe.wpc == Pipe.Idle && s.cpipe.w == s.cpipe.f == s.cpipe.Back()
  {
    FirstCommand();
    TakeOneAndSleep(Exec(Init<int>(), WholeSend(0, 7)));
  }

  /** The comment on signaler_t says that at most one signal is in it at any time.
      That is not so: a sender that finds the reader asleep can signal before the
      receiver has consumed the byte of its previous wake-up. */
  lemma TwoSignalsAtOnce()
    ensures Exec(Init<int>(), WholeSend(0, 7) + FOUR_RECEIVES + WholeSend(1, 8)).signals == 2
  {
    var s0 := Init<int>();
    ExecConcat(s0, WholeSend(0, 7) + FOUR_RECEIVES, WholeSend(1, 8));
    ExecConcat(s0, WholeSend(0, 7), FOUR_RECEIVES);
    OneSignalLeft();
    SendWakesSleeper(Exec(Exec(s0, WholeSend(0, 7)), FOUR_RECEIVES), 1, 8);
  }

  // ---------------------------------------------------------------------
  // Nothing gets stuck
  // ---------------------------------------------------------------------

  /** In every run a sender that is let in sends its command: it is flushed, and a receiver that sleeps gets one
      more signal, any other none. */
  lemma SendDelivers<C>(run: seq<Action<C>>, id: Thread, cmd: C)
    requires var s := Exec(Init<C>(), run); s.holder.Nobody? && id !in s.owing
    ensures
      var s := Exec(Init<C>(), run);
      var v := Exec(s, WholeSend(id, cmd));
      && v.sent == s.sent + [cmd] && v.cpipe.w == |v.sent|
      && v.holder.Nobody? && v.owing == s.owing
      && v.signals == s.signals + (if Asleep(s) then 1 else 0)
      && v.receiver == s.receiver && v.cpipe.got == s.cpipe.got && !Asleep(v)
  {
    InitInv<C>();
    RunKeepsInv(Init<C>(), run);
    var s := Exec(Init<C>(), run);
    assert s.cpipe.got + s.cpipe.queue == s.sent;
    var rest: seq<Action<C>> := [Continue, Continue, Continue, Signal(id)];
    assert WholeSend(id, cmd) == WholeSend(id, cmd)[..3] + rest;
    WriteAndFlush(s, id, cmd);
    ExecConcat(s, WholeSend(id, cmd)[..3], rest);
    FlushAndSignal(Exec(s, WholeSend(id, cmd)[..3]), id);
  }

  /** The next command was received. */
  ghost predicate GotNext<C>(s: State<C>, v: State<C>) {
    |s.cpipe.got| < |s.sent| && v.receiver == Active && v.cpipe.got == s.cpipe.got + [s.sent[|s.cpipe.got|]]
  }

  /** The receiver gets the next command in at most three steps if there is one, and waits if there is none; it
      is woken by every signal. */
  lemma ReceiverProgress<C>(run: seq<Action<C>>)
    ensures
      var s := Exec(Init<C>(), run);
      var s1 := Step(s, Receive);
      var s2 := Step(s1, Receive);
      var s3 := Step(s2, Receive);
      match s.receiver
      case Active =>
        if Unread(s) then GotNext(s, s2)
        else s2.receiver == Passive && s2.signals == s.signals - 1 && s2.cpipe.got == s.cpipe.got
      case Taking => GotNext(s, s1)
      case Consuming => s1.receiver == Passive && s1.signals == s.signals - 1 && s1.cpipe == s.cpipe
      case Passive =>
        if s.signals > 0 then GotNext(s, s3)
        else s1 == s
      case Woken => GotNext(s, s2)
  {
    InitInv<C>();
    RunKeepsInv(Init<C>(), run);
    var s := Exec(Init<C>(), run);
    assert s.cpipe.got + s.cpipe.queue == s.sent;
    assert s.cpipe.queue != [] ==> s.cpipe.queue[0] == s.sent[|s.cpipe.got|];
  }
}
