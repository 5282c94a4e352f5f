/**
 Shutdown of a context: the slots and sockets of ctx.cpp, the reaper thread of
 reaper.cpp, and the close path of socket_base.cpp between them.

 Module ContextHandlers says what each operation does to the fields; module
 Context runs the operations in place; module ContextProtocol puts the threads
 together.
 */
module ContextHandlers {
  import opened Common

  type Id = nat

  /** The fields of ctx_t that are guarded by slot_sync. */
  datatype Table = Table(emptySlots: seq<nat>, slots: map<nat, Id>, sockets: set<Id>, terminating: bool)

  datatype Refusal = Terminating | TooManySockets

  datatype Created = Created(slot: nat) | Refused(reason: Refusal)

  function CreateSocket(t: Table, id: Id): (Table, Created) {
    if t.terminating then (t, Refused(Terminating))
    else if t.emptySlots == [] then (t, Refused(TooManySockets))
    else
      var slot := t.emptySlots[|t.emptySlots| - 1];
      (t.(emptySlots := t.emptySlots[..|t.emptySlots| - 1], slots := t.slots[slot := id], sockets := t.sockets + {id}),
       Created(slot))
  }

  /** The result says whether the reaper is told to stop. */
  function DestroySocket(t: Table, id: Id, slot: nat): (Table, bool) {
    var t' := t.(emptySlots := t.emptySlots + [slot], slots := t.slots - {slot}, sockets := t.sockets - {id});
    (t', t'.terminating && t'.sockets == {})
  }

  function BeginTerminate(t: Table): (Table, bool) {
    (t.(terminating := true), t.sockets == {})
  }

  /** The fields of reaper_t; `running` is false when its poller was stopped. */
  datatype ReaperState = ReaperState(sockets: int, terminating: bool, running: bool)

  /** The result says whether `done` is sent. */
  function ProcessStop(r: ReaperState): (ReaperState, bool) {
    if r.sockets == 0 then (r.(terminating := true, running := false), true) else (r.(terminating := true), false)
  }

  function ProcessReaped(r: ReaperState): (ReaperState, bool) {
    var r' := r.(sockets := r.sockets - 1);
    if r'.sockets == 0 && r'.terminating then (r'.(running := false), true) else (r', false)
  }
}

module Context {
  import opened Common
  import opened ContextHandlers
  import H = ContextHandlers

  class Ctx {
    var emptySlots: seq<nat>
    var slots: map<nat, Id>
    var sockets: set<Id>
    var terminating: bool

    ghost function View(): Table
      reads this
    {
      Table(emptySlots, slots, sockets, terminating)
    }

    /** The free slots are listed from the last to the first one behind the I/O threads. */
    constructor (ioThreads: nat, slotCount: nat)
      requires ioThreads + 2 <= slotCount
      ensures View() == Table(emptySlots, map[], {}, false)
      ensures |emptySlots| == slotCount - ioThreads - 2
      ensures forall k :: 0 <= k < |emptySlots| ==> emptySlots[k] == slotCount - 1 - k
    {
      var free: seq<nat> := [];
      var i := slotCount - 1;
      while i >= ioThreads + 2
        invariant ioThreads + 1 <= i <= slotCount - 1 && |free| == slotCount - 1 - i
        invariant forall k :: 0 <= k < |free| ==> free[k] == slotCount - 1 - k
      {
        free := free + [i];
        i := i - 1;
      }
      emptySlots, slots, sockets, terminating := free, map[], {}, false;
    }

    method CreateSocket(id: Id) returns (result: Created)
      modifies this
      ensures (View(), result) == H.CreateSocket(old(View()), id)
    {
      // Once zmq_term() was called, no new sockets can be created.
      if terminating {
        return Refused(Terminating);
      }
      if emptySlots == [] {
        return Refused(TooManySockets);
      }
      var slot := emptySlots[|emptySlots| - 1];
      emptySlots := emptySlots[..|emptySlots| - 1];
      sockets := sockets + {id};
      slots := slots[slot := id];
      return Created(slot);
    }

    method DestroySocket(id: Id, slot: nat) returns (stop: bool)
      modifies this
      ensures (View(), stop) == H.DestroySocket(old(View()), id, slot)
    {
      emptySlots := emptySlots + [slot];
      slots := slots - {slot};
      sockets := sockets - {id};
      stop := terminating && sockets == {};
    }

    method BeginTerminate() returns (stop: bool)
      modifies this
      ensures (View(), stop) == H.BeginTerminate(old(View()))
    {
      terminating := true;
      stop := sockets == {};
    }
  }

  class Reaper {
    var sockets: int
    var terminating: bool
    var running: bool
    var doneSent: nat

    ghost function View(): ReaperState
      reads this
    {
      ReaperState(sockets, terminating, running)
    }

    constructor ()
      ensures View() == ReaperState(0, false, true) && doneSent == 0
    {
      sockets, terminating, running, doneSent := 0, false, true, 0;
    }

    method SendDone()
      modifies `doneSent, `running
      ensures doneSent == old(doneSent) + 1 && !running
    {
      doneSent := doneSent + 1;
      running := false;
    }

    method ProcessStop()
      modifies this
      ensures var (r, done) := H.ProcessStop(old(View())); View() == r && doneSent == old(doneSent) + if done then 1 else 0
    {
      terminating := true;
      if sockets == 0 {
        SendDone();
      }
    }

    method ProcessReaped()
      modifies this
      ensures var (r, done) := H.ProcessReaped(old(View())); View() == r && doneSent == old(doneSent) + if done then 1 else 0
    {
      sockets := sockets - 1;
      if sockets == 0 && terminating {
        SendDone();
      }
    }
  }
}

module ContextProtocol {
  import opened Common
  import opened ContextHandlers

  datatype Command = Stop | Reap(id: Id) | Reaped

  /** Open: used by the application.  Closing: `reap` is on its way.  Reaping: the reaper has it.
      Gone: destroyed and removed from the context. */
  datatype Stage = Open | Closing | Reaping | Gone

  datatype Socket = Socket(slot: nat, stage: Stage)

  /** Progress of zmq_term(). */
  datatype Term = NotCalled | LogClosed | Waiting | Finished

  /** Progress of the reaper thread: between events; in `process_reap` after the termination of
      the socket began; after a socket was removed from the context, with `reaped` still to be
      sent; in `process_reap` with the socket still to be counted. */
  datatype Phase = Ready | Checking(id: Id) | Removed(inReap: bool) | Counting

  datatype State = State(
    first: nat,                // the slots for sockets are first..first + count
    count: nat,
    table: Table,
    reaper: ReaperState,
    mailbox: seq<Command>,     // commands to the reaper
    phase: Phase,
    term: Term,
    log: Id,
    created: map<Id, Socket>,  // history: every socket ever created
    next: Id,
    stopsSent: nat,            // history
    donesSent: nat,            // history
    fault: bool)               // an assertion of `terminate` failed

  datatype Action =
    | Create
    | Close(id: Id)
    | CloseLog                    // zmq_term() begins
    | BeginTerm                   // zmq_term() announces the termination
    | Receive                     // zmq_term() receives `done`
    | ReaperCommand               // the reaper takes its next command
    | ReaperContinue(ready: bool) // it goes on; `ready` if the socket has terminated
    | SocketEvent(id: Id)         // a socket that is being reaped has terminated

  function Send(s: State, cmd: Command): State {
    s.(mailbox := s.mailbox + [cmd], stopsSent := s.stopsSent + if cmd.Stop? then 1 else 0)
  }

  function DoClose(s: State, id: Id): State
    requires id in s.created
  {
    Send(s.(created := s.created[id := s.created[id].(stage := Closing)]), Reap(id))
  }

  /** The part of `check_destroy` that is done under the lock of the context. */
  function Remove(s: State, id: Id, inReap: bool): State
    requires id in s.created
  {
    var (table, stop) := DestroySocket(s.table, id, s.created[id].slot);
    var s1 := s.(table := table, created := s.created[id := s.created[id].(stage := Gone)], phase := Removed(inReap));
    if stop then Send(s1, Stop) else s1
  }

  function Step(s: State, a: Action): State {
    match a
    case Create =>
      if s.term.Finished? then s
      else
        var (table, result) := CreateSocket(s.table, s.next);
        if result.Created?
        then s.(table := table, created := s.created[s.next := Socket(result.slot, Open)], next := s.next + 1)
        else s
    case Close(id) =>
      if id in s.created && s.created[id].stage.Open? && id != s.log then DoClose(s, id) else s
    case CloseLog =>
      if s.term.NotCalled? && s.log in s.created then DoClose(s.(term := LogClosed), s.log) else s
    case BeginTerm =>
      if s.term.LogClosed? then
        var (table, stop) := BeginTerminate(s.table);
        var s1 := s.(table := table, term := Waiting);
        if stop then Send(s1, Stop) else s1
      else s
    case Receive =>
      if s.term.Waiting? && s.donesSent > 0
      then s.(term := Finished, fault := s.fault || s.table.sockets != {}) else s
    case ReaperCommand =>
      if !s.phase.Ready? || !s.reaper.running || s.mailbox == [] then s
      else
        var s1 := s.(mailbox := s.mailbox[1..]);
        if s.mailbox[0].Stop? then
          var (r, done) := ProcessStop(s.reaper);
          s1.(reaper := r, donesSent := s.donesSent + if done then 1 else 0)
        else if s.mailbox[0].Reaped? then
          var (r, done) := ProcessReaped(s.reaper);
          s1.(reaper := r, donesSent := s.donesSent + if done then 1 else 0)
        else if s.mailbox[0].id in s.created then
          var id := s.mailbox[0].id;
          s1.(created := s.created[id := s.created[id].(stage := Reaping)], phase := Checking(id))
        else s1
    case ReaperContinue(ready) =>
      (match s.phase
       case Ready => s
       case Checking(id) =>
         if ready && id in s.created then Remove(s, id, true)
         else s.(phase := Ready, reaper := s.reaper.(sockets := s.reaper.sockets + 1))
       case Removed(inReap) => Send(s, Reaped).(phase := if inReap then Counting else Ready)
       case Counting => s.(phase := Ready, reaper := s.reaper.(sockets := s.reaper.sockets + 1)))
    case SocketEvent(id) =>
      if s.phase.Ready? && s.reaper.running && id in s.created && s.created[id].stage.Reaping?
      then Remove(s, id, false) else s
  }

  function Exec(s: State, run: seq<Action>): State
    decreases |run|
  {
    if run == [] then s else Exec(Step(s, run[0]), run[1..])
  }

  /** A context with its log socket; the slots for sockets begin at `first`. */
  function Init(first: nat, count: nat): State
    requires count > 0
  {
    var empty := seq(count, k requires 0 <= k < count => (first + count - 1 - k) as nat);
    var (table, _) := CreateSocket(Table(empty, map[], {}, false), 0);
    State(first, count, table, ReaperState(0, false, true), [], Ready, NotCalled,
          0, map[0 := Socket(first, Open)], 1, 0, 0, false)
  }

  // The invariant

  function Pending(m: seq<Command>, cmd: Command): nat { multiset(m)[cmd] }

  predicate Alive(s: State, id: Id) { id in s.created && !s.created[id].stage.Gone? }

  function InReaping(s: State): set<Id> { set id | id in s.created && s.created[id].stage.Reaping? }

  predicate IsSlot(first: nat, count: nat, x: nat) { first <= x < first + count }

  ghost predicate SlotsOk(s: State) {
    && (forall i, j :: 0 <= i < j < |s.table.emptySlots| ==> s.table.emptySlots[i] != s.table.emptySlots[j])
    && (forall x {:trigger IsSlot(s.first, s.count, x)} :: IsSlot(s.first, s.count, x) <==> x in s.table.emptySlots || x in s.table.slots)
    && (forall x {:trigger x in s.table.slots} :: x in s.table.slots ==> x !in s.table.emptySlots)
    && (forall x {:trigger s.table.slots[x]} :: x in s.table.slots ==>
          Alive(s, s.table.slots[x]) && s.created[s.table.slots[x]].slot == x)
    && (forall id {:trigger s.created[id]} :: Alive(s, id) ==>
          s.created[id].slot in s.table.slots && s.table.slots[s.created[id].slot] == id)
    && (forall id {:trigger id in s.table.sockets} :: id in s.table.sockets <==> Alive(s, id))
    && (forall id {:trigger id in s.created} :: id in s.created ==> id < s.next)
  }

  /** What the reaper has counted, and what it still has to count down. */
  ghost predicate CountOk(s: State) {
    s.reaper.sockets == |InReaping(s)| + Pending(s.mailbox, Reaped) +
      match s.phase
      case Ready => 0
      case Checking(_) => -1
      case Removed(inReap) => if inReap then 0 else 1
      case Counting => -1
  }

  ghost predicate CommandsOk(s: State) {
    && (forall id {:trigger Pending(s.mailbox, Reap(id))} ::
          Pending(s.mailbox, Reap(id)) == if id in s.created && s.created[id].stage.Closing? then 1 else 0)
    && (s.phase.Checking? ==> s.phase.id in s.created && s.created[s.phase.id].stage.Reaping?)
    && s.stopsSent == (if s.table.terminating && s.table.sockets == {} then 1 else 0)
    && s.stopsSent == Pending(s.mailbox, Stop) + (if s.reaper.terminating then 1 else 0)
    && s.donesSent == (if s.reaper.running then 0 else 1)
  }

  ghost predicate TermOk(s: State) {
    && !s.fault
    && (s.table.terminating <==> s.term.Waiting? || s.term.Finished?)
    && s.log in s.created
    && (s.created[s.log].stage.Open? <==> s.term.NotCalled?)
    && (s.term.Finished? ==> s.donesSent == 1)
    // a reaper that has stopped has left nothing behind
    && (!s.reaper.running ==>
          s.reaper.terminating && s.phase.Ready? && s.mailbox == [] && s.reaper.sockets == 0 && s.table.sockets == {})
    // and one that has nothing left to do has stopped
    && (s.reaper.running && s.reaper.terminating ==> s.reaper.sockets > 0)
  }

  ghost predicate Inv(s: State) { SlotsOk(s) && CountOk(s) && CommandsOk(s) && TermOk(s) }

  lemma InitInv(first: nat, count: nat)
    requires count > 0
    ensures Inv(Init(first, count))
  {
    var s := Init(first, count);
    assert InReaping(s) == {};
    var free := s.table.emptySlots;
    assert |free| == count - 1;
    assert forall k :: 0 <= k < |free| ==> free[k] == first + count - 1 - k;
    forall x | IsSlot(first, count, x) ensures x in free || x in s.table.slots {
      if x != first {
        assert free[first + count - 1 - x] == x;
      }
    }
  }

  // Steps

  lemma Sent(m: seq<Command>, cmd: Command)
    ensures forall c :: Pending(m + [cmd], c) == Pending(m, c) + if c == cmd then 1 else 0
  {
  }

  lemma Taken(m: seq<Command>)
    requires m != []
    ensures forall c :: Pending(m[1..], c) == Pending(m, c) - if c == m[0] then 1 else 0
  {
    assert m == [m[0]] + m[1..];
  }

  lemma CreateKeepsInv(s: State)
    requires Inv(s)
    ensures Inv(Step(s, Create))
  {
    var s' := Step(s, Create);
    assert InReaping(s') == InReaping(s);
  }

  lemma CloseCommands(s: State, id: Id)
    requires Inv(s) && id in s.created && s.created[id].stage.Open?
    ensures SlotsOk(DoClose(s, id)) && CountOk(DoClose(s, id)) && CommandsOk(DoClose(s, id))
    ensures s.reaper.running
  {
    var s' := DoClose(s, id);
    Sent(s.mailbox, Reap(id));
    assert InReaping(s') == InReaping(s);
    assert Alive(s, id);
    assert id in s.table.sockets;
  }

  lemma CloseKeepsInv(s: State, id: Id)
    requires Inv(s) && id in s.created && s.created[id].stage.Open? && id != s.log
    ensures Inv(DoClose(s, id))
  {
    CloseCommands(s, id);
  }

  lemma CloseLogKeepsInv(s: State)
    requires Inv(s) && s.term.NotCalled?
    ensures Inv(Step(s, CloseLog))
  {
    CloseCommands(s, s.log);
    var s1 := s.(term := LogClosed);
    assert InReaping(DoClose(s1, s.log)) == InReaping(DoClose(s, s.log));
  }

  /** A socket that the reaper has is removed from the context. */
  lemma RemoveSlots(s: State, id: Id, inReap: bool)
    requires SlotsOk(s) && id in s.created && s.created[id].stage.Reaping?
    ensures SlotsOk(Remove(s, id, inReap))
  {
    assert Alive(s, id);
  }

  lemma RemoveCommands(s: State, id: Id, inReap: bool)
    requires Inv(s) && id in s.created && s.created[id].stage.Reaping? && s.reaper.running
    ensures CommandsOk(Remove(s, id, inReap)) && TermOk(Remove(s, id, inReap))
    ensures forall c: Command :: !c.Stop? ==> Pending(Remove(s, id, inReap).mailbox, c) == Pending(s.mailbox, c)
    ensures InReaping(Remove(s, id, inReap)) == InReaping(s) - {id}
  {
    var s' := Remove(s, id, inReap);
    Sent(s.mailbox, Stop);
    assert InReaping(s') == InReaping(s) - {id};
    assert Alive(s, id) && id in s.table.sockets;
  }

  lemma RemoveKeepsInv(s: State, id: Id, inReap: bool)
    requires Inv(s) && id in s.created && s.created[id].stage.Reaping? && s.reaper.running
    requires if inReap then s.phase == Checking(id) else s.phase.Ready?
    ensures Inv(Remove(s, id, inReap))
  {
    RemoveSlots(s, id, inReap);
    RemoveCommands(s, id, inReap);
    assert id in InReaping(s);
  }

  lemma BeginTermKeepsInv(s: State)
    requires Inv(s)
    ensures Inv(Step(s, BeginTerm))
  {
    if s.term.LogClosed? {
      var s' := Step(s, BeginTerm);
      Sent(s.mailbox, Stop);
      assert InReaping(s') == InReaping(s);
      assert Pending(s'.mailbox, Reaped) == Pending(s.mailbox, Reaped);
    }
  }

  lemma ReportKeepsInv(s: State, ready: bool)
    requires Inv(s) && s.phase.Removed?
    ensures Inv(Step(s, ReaperContinue(ready)))
  {
    Sent(s.mailbox, Reaped);
    assert InReaping(Step(s, ReaperContinue(ready))) == InReaping(s);
  }

  lemma ReaperContinueKeepsInv(s: State, ready: bool)
    requires Inv(s)
    ensures Inv(Step(s, ReaperContinue(ready)))
  {
    var s' := Step(s, ReaperContinue(ready));
    match s.phase
    case Ready =>
    case Checking(id) =>
      if ready {
        RemoveKeepsInv(s, id, true);
      } else {
        assert InReaping(s') == InReaping(s) && id in InReaping(s);
      }
    case Removed(_) => ReportKeepsInv(s, ready);
    case Counting =>
      assert InReaping(s') == InReaping(s);
  }

  /** When nothing is counted and nothing is open, there is no command left. */
  lemma Nothing(m: seq<Command>)
    requires forall c :: Pending(m, c) == 0
    ensures m == []
  {
    assert m != [] ==> m[0] in multiset(m) && Pending(m, m[0]) == 0;
  }

  lemma NothingLeft(s: State)
    requires SlotsOk(s) && CommandsOk(s) && s.table.sockets == {} && s.reaper.terminating
    requires Pending(s.mailbox, Reaped) == 0
    ensures s.mailbox == []
  {
    forall c ensures Pending(s.mailbox, c) == 0 {
      match c
      case Stop =>
      case Reaped =>
      case Reap(id) => assert id in s.table.sockets <==> Alive(s, id);
    }
    Nothing(s.mailbox);
  }

  lemma StopKeepsInv(s: State)
    requires Inv(s) && s.phase.Ready? && s.reaper.running && s.mailbox != [] && s.mailbox[0].Stop?
    ensures Inv(Step(s, ReaperCommand))
  {
    var s' := Step(s, ReaperCommand);
    Taken(s.mailbox);
    assert InReaping(s') == InReaping(s);
    if s.reaper.sockets == 0 {
      assert CommandsOk(s');
      NothingLeft(s');
    }
  }

  lemma ReapedKeepsInv(s: State)
    requires Inv(s) && s.phase.Ready? && s.reaper.running && s.mailbox != [] && s.mailbox[0].Reaped?
    ensures Inv(Step(s, ReaperCommand))
  {
    var s' := Step(s, ReaperCommand);
    Taken(s.mailbox);
    assert InReaping(s') == InReaping(s);
    if !s'.reaper.running {
      assert CommandsOk(s');
      NothingLeft(s');
    }
  }

  lemma ReapSlots(s: State)
    requires SlotsOk(s) && s.phase.Ready? && s.reaper.running && s.mailbox != [] && s.mailbox[0].Reap?
    requires Alive(s, s.mailbox[0].id)
    ensures SlotsOk(Step(s, ReaperCommand))
  {
  }

  lemma ReapKeepsInv(s: State)
    requires Inv(s) && s.phase.Ready? && s.reaper.running && s.mailbox != [] && s.mailbox[0].Reap?
    ensures Inv(Step(s, ReaperCommand))
  {
    var s' := Step(s, ReaperCommand);
    var id := s.mailbox[0].id;
    Taken(s.mailbox);
    assert Pending(s.mailbox, Reap(id)) > 0;
    assert Alive(s, id) && id in s.table.sockets;
    ReapSlots(s);
    assert InReaping(s') == InReaping(s) + {id} && id !in InReaping(s);
  }

  lemma StepKeepsInv(s: State, a: Action)
    requires Inv(s)
    ensures Inv(Step(s, a))
  {
    match a
    case Create => CreateKeepsInv(s);
    case Close(id) =>
      if id in s.created && s.created[id].stage.Open? && id != s.log {
        CloseKeepsInv(s, id);
      }
    case CloseLog =>
      if s.term.NotCalled? {
        CloseLogKeepsInv(s);
      }
    case BeginTerm => BeginTermKeepsInv(s);
    case Receive =>
    case ReaperCommand =>
      if s.phase.Ready? && s.reaper.running && s.mailbox != [] {
        if s.mailbox[0].Stop? {
          StopKeepsInv(s);
        } else if s.mailbox[0].Reaped? {
          ReapedKeepsInv(s);
        } else {
          ReapKeepsInv(s);
        }
      }
    case ReaperContinue(ready) => ReaperContinueKeepsInv(s, ready);
    case SocketEvent(id) =>
      if s.phase.Ready? && s.reaper.running && id in s.created && s.created[id].stage.Reaping? {
        RemoveKeepsInv(s, id, false);
      }
  }

  lemma {:induction false} RunKeepsInv(s: State, run: seq<Action>)
    requires Inv(s)
    ensures Inv(Exec(s, run))
    decreases |run|
  {
    if run != [] {
      StepKeepsInv(s, run[0]);
      RunKeepsInv(Step(s, run[0]), run[1..]);
    }
  }

  // What every run keeps

  function After(first: nat, count: nat, run: seq<Action>): State
    requires count > 0
  {
    Exec(Init(first, count), run)
  }

  lemma {:induction false} SameSlots(s: State, run: seq<Action>)
    ensures Exec(s, run).first == s.first && Exec(s, run).count == s.count && Exec(s, run).log == s.log
    decreases |run|
  {
    if run != [] {
      SameSlots(Step(s, run[0]), run[1..]);
    }
  }

  /** Every slot is either free, once, or the slot of exactly one socket that is not destroyed. */
  lemma SlotsPartition(first: nat, count: nat, run: seq<Action>, x: nat)
    requires count > 0 && first <= x < first + count
    ensures var s := After(first, count, run);
            var free := s.table.emptySlots;
            (forall i, j :: 0 <= i < j < |free| ==> free[i] != free[j]) &&
            (x in free <==> !exists id :: Alive(s, id) && s.created[id].slot == x) &&
            (forall id, other :: Alive(s, id) && Alive(s, other) && s.created[id].slot == s.created[other].slot ==> id == other)
  {
    InitInv(first, count);
    RunKeepsInv(Init(first, count), run);
    SameSlots(Init(first, count), run);
    var s := After(first, count, run);
    assert IsSlot(first, count, x);
    if x !in s.table.emptySlots {
      var id := s.table.slots[x];
      assert Alive(s, id) && s.created[id].slot == x;
    }
  }

  /** The reaper is told to stop exactly once, when the context is terminating and its last
      socket is gone. */
  lemma StoppedOnce(first: nat, count: nat, run: seq<Action>)
    requires count > 0
    ensures var s := After(first, count, run);
            s.stopsSent <= 1 &&
            (s.stopsSent == 1 <==> (s.term.Waiting? || s.term.Finished?) && forall id :: id in s.created ==> s.created[id].stage.Gone?)
  {
    InitInv(first, count);
    RunKeepsInv(Init(first, count), run);
    var s := After(first, count, run);
    if s.table.sockets == {} {
      forall id | id in s.created ensures s.created[id].stage.Gone? {
        assert Alive(s, id) ==> id in s.table.sockets;
      }
    }
  }

  /** `done` is sent at most once, and only when every socket that was ever created is destroyed;
      after that there is no command for the reaper, and `terminate` finds no socket. */
  lemma DoneOnceAndLast(first: nat, count: nat, run: seq<Action>)
    requires count > 0
    ensures var s := After(first, count, run);
            s.donesSent <= 1 && !s.fault &&
            (s.donesSent == 1 ==> s.mailbox == [] && forall id :: id in s.created ==> s.created[id].stage.Gone?)
  {
    InitInv(first, count);
    RunKeepsInv(Init(first, count), run);
    var s := After(first, count, run);
    if s.donesSent == 1 {
      forall id | id in s.created ensures s.created[id].stage.Gone? {
        assert Alive(s, id) ==> id in s.table.sockets;
      }
    }
  }

  /** And it is sent: when the context is terminating, every socket was closed and has terminated,
      and the reaper has nothing left to do, then `done` was sent. */
  lemma DoneIsSent(first: nat, count: nat, run: seq<Action>)
    requires count > 0
    requires var s := After(first, count, run);
             (s.term.Waiting? || s.term.Finished?) && s.mailbox == [] && s.phase.Ready? &&
             forall id :: id in s.created ==> !s.created[id].stage.Open? && !s.created[id].stage.Reaping?
    ensures After(first, count, run).donesSent == 1
  {
    InitInv(first, count);
    RunKeepsInv(Init(first, count), run);
    var s := After(first, count, run);
    assert InReaping(s) == {};
    assert forall id :: id in s.created ==> Pending(s.mailbox, Reap(id)) == 0;
    assert forall id :: id in s.table.sockets ==> Alive(s, id);
    assert s.table.sockets == {};
  }

  // When a socket can be created

  function Range(first: nat, count: nat): (r: set<nat>)
    ensures forall x :: x in r <==> IsSlot(first, count, x)
  {
    if count == 0 then {} else Range(first, count - 1) + {first + count - 1}
  }

  lemma {:induction false} RangeSize(first: nat, count: nat)
    ensures |Range(first, count)| == count
  {
    if count > 0 {
      RangeSize(first, count - 1);
    }
  }

  function Elements(s: seq<nat>): set<nat> { set x | x in s }

  lemma {:induction false} DistinctSize(s: seq<nat>)
    requires forall i, j :: 0 <= i < j < |s| ==> s[i] != s[j]
    ensures |Elements(s)| == |s|
    decreases |s|
  {
    if s != [] {
      var last := s[|s| - 1];
      var most := s[..|s| - 1];
      DistinctSize(most);
      assert s == most + [last];
      assert Elements(s) == Elements(most) + {last};
      assert last !in Elements(most);
    }
  }

  /** A one-to-one correspondence. */
  lemma {:induction false} SameSize(ids: set<Id>, slots: map<nat, Id>, slotOf: map<Id, nat>)
    requires forall id :: id in ids <==> id in slotOf
    requires forall x {:trigger slots[x]} :: x in slots ==> slots[x] in ids && slotOf[slots[x]] == x
    requires forall id {:trigger slotOf[id]} :: id in ids ==> slotOf[id] in slots && slots[slotOf[id]] == id
    ensures |ids| == |slots.Keys|
    decreases |ids|
  {
    if ids == {} {
      assert forall x :: x !in slots;
      assert slots.Keys == {};
    } else {
      var id :| id in ids;
      var x := slotOf[id];
      var slots1 := slots - {x};
      SameSize(ids - {id}, slots1, slotOf - {id});
      assert slots1.Keys == slots.Keys - {x};
    }
  }

  /** The sockets that are not destroyed. */
  function Live(s: State): set<Id> { set id | id in s.created && !s.created[id].stage.Gone? }

  lemma FreeAndUsed(s: State)
    requires SlotsOk(s)
    ensures |s.table.emptySlots| + |s.table.slots.Keys| == s.count
  {
    var free := Elements(s.table.emptySlots);
    var used := s.table.slots.Keys;
    DistinctSize(s.table.emptySlots);
    RangeSize(s.first, s.count);
    forall x: nat ensures x in free + used <==> x in Range(s.first, s.count) {
      assert IsSlot(s.first, s.count, x) <==> x in s.table.emptySlots || x in s.table.slots;
    }
    assert free + used == Range(s.first, s.count);
    assert |free + used| == |free| + |used|;
  }

  lemma UsedIsLive(s: State)
    requires SlotsOk(s)
    ensures |Live(s)| == |s.table.slots.Keys|
  {
    var slotOf := map id | id in Live(s) :: s.created[id].slot;
    forall id | id in Live(s) ensures s.created[id].slot in s.table.slots && s.table.slots[s.created[id].slot] == id {
      assert Alive(s, id);
    }
    SameSize(Live(s), s.table.slots, slotOf);
  }

  /** Free slots and living sockets together are as many as there are slots. */
  lemma SlotsCount(s: State)
    requires SlotsOk(s)
    ensures |s.table.emptySlots| + |Live(s)| == s.count
  {
    FreeAndUsed(s);
    UsedIsLive(s);
  }

  /** Until `terminate` has returned, a socket is created if and only if the termination was not announced and
      not all slots have a living socket; each refusal gives its own reason and changes nothing. */
  lemma CreateExactly(first: nat, count: nat, run: seq<Action>)
    requires count > 0 && !After(first, count, run).term.Finished?
    ensures
      var s := After(first, count, run);
      var result := CreateSocket(s.table, s.next).1;
      var v := Step(s, Create);
      if s.term.Waiting? then result == Refused(Terminating) && v == s
      else if |Live(s)| == count then result == Refused(TooManySockets) && v == s
      else
        && |Live(s)| < count
        && result.Created?
        && first <= result.slot < first + count
        && (forall id :: id in Live(s) ==> s.created[id].slot != result.slot)
        && s.next !in s.created
        && v.created == s.created[s.next := Socket(result.slot, Open)]
  {
    InitInv(first, count);
    RunKeepsInv(Init(first, count), run);
    SameSlots(Init(first, count), run);
    var s := After(first, count, run);
    SlotsCount(s);
    if !s.term.Waiting? && s.table.emptySlots != [] {
      var slot := s.table.emptySlots[|s.table.emptySlots| - 1];
      assert slot in s.table.emptySlots;
      assert IsSlot(first, count, slot);
      forall id | id in Live(s) ensures s.created[id].slot != slot {
        assert Alive(s, id);
      }
    }
  }

  /** An open socket that is closed goes to the reaper, once. */
  lemma CloseReaps(first: nat, count: nat, run: seq<Action>, id: Id)
    requires count > 0
    requires var s := After(first, count, run); id in s.created && s.created[id].stage.Open? && id != s.log
    ensures
      var s := After(first, count, run);
      var v := Step(s, Close(id));
      && v.mailbox == s.mailbox + [Reap(id)]
      && Pending(v.mailbox, Reap(id)) == 1
      && v.created[id].stage.Closing?
      && (forall other :: other in s.created && other != id ==> v.created[other] == s.created[other])
  {
    InitInv(first, count);
    RunKeepsInv(Init(first, count), run);
    Sent(After(first, count, run).mailbox, Reap(id));
  }
}
