/**
 The lock-free pipe of ypipe.hpp as a machine of atomic steps.

 One writer thread and one reader thread share the pointer `c`; everything
 else is local to one of them.  A pointer into the queue is modelled by the
 absolute position of the slot it points at (module Yqueue shows that slots
 in use have pairwise distinct addresses, so comparing pointers is comparing
 positions).  `flush` is split at its compare-and-swap and again before the
 plain store that follows a failed one; a read is split between `check_read`
 and the removal of the item.

 A step that is not enabled in a state leaves the state as it is, so every
 sequence of steps is a run and the theorems quantify over all of them.
 */
module YpipeSteps {
  import opened Common

  /** An item together with the `incomplete` argument it was written with. */
  datatype Item<T> = Item(value: T, incomplete: bool)

  /** What the writer has done to the back of the queue. */
  datatype Edit<T> = Wrote(item: Item<T>) | Unwrote

  /** Where the writer is: outside `flush`, before its CAS, or before the store
      that follows a failed CAS. */
  datatype WriterPc = Idle | AtCas | AtSet

  /** Where the reader is: outside `read`, or holding a successful `check_read`. */
  datatype ReaderPc = Resting | Holding

  datatype State<T> = State(
    queue: seq<T>,         // items in the queue, front first, without the terminator slot
    front: nat,            // position of the front slot
    w: nat,                // first un-flushed position, writer only
    f: nat,                // flush up to here, writer only
    r: Option<nat>,        // first un-prefetched position, reader only
    c: Option<nat>,        // the shared pointer; None when the reader is asleep
    wpc: WriterPc,
    rpc: ReaderPc,
    edits: seq<Edit<T>>,   // history of the writer
    got: seq<T>,           // history of the reader
    slept: bool            // has the reader gone to sleep since the last flush?
  ) {
    /** The position of the terminator slot. */
    function Back(): nat { front + |queue| }
  }

  datatype Action<T> =
    | Write(value: T, incomplete: bool)
    | Unwrite
    | Flush
    | FlushCas
    | FlushSet
    | CheckRead
    | Pop
    | Leave            // `probe`: the reader looked at the front item and leaves it in place

  datatype Result<T> =
    | Silent
    | Unwritten(taken: Option<T>)
    | Flushed(readerAwake: bool)
    | Checked(available: bool)
    | Popped(value: T)

  function Init<T>(): State<T> {
    State([], 0, 0, 0, Some(0), Some(0), Idle, Resting, [], [], false)
  }

  /** The test at the top of `check_read`: was a value prefetched already? */
  predicate Prefetched<T>(s: State<T>) {
    s.r.Some? && s.r.value != s.front
  }

  /** `check_read`, with its compare-and-swap of `c` from the front pointer to NULL. */
  function DoCheckRead<T>(s: State<T>): (State<T>, Result<T>) {
    if Prefetched(s) then
      (s.(rpc := Holding), Checked(true))
    else
      var swapped := s.c == Some(s.front);
      var s' := s.(r := s.c, c := if swapped then None else s.c, slept := s.slept || swapped);
      if Prefetched(s') then (s'.(rpc := Holding), Checked(true)) else (s', Checked(false))
  }

  function DoWrite<T>(s: State<T>, v: T, incomplete: bool): State<T> {
    var s' := s.(queue := s.queue + [v], edits := s.edits + [Wrote(Item(v, incomplete))]);
    s'.(f := if incomplete then s.f else s'.Back())
  }

  function DoUnwrite<T>(s: State<T>): (State<T>, Result<T>) {
    if s.f == s.Back() || s.queue == [] then (s, Unwritten(None))
    else
      (s.(queue := s.queue[..|s.queue| - 1], edits := s.edits + [Unwrote]),
       Unwritten(Some(s.queue[|s.queue| - 1])))
  }

  function DoPop<T>(s: State<T>): State<T>
    requires s.queue != []
  {
    s.(queue := s.queue[1..], front := s.front + 1, got := s.got + [s.queue[0]], rpc := Resting)
  }

  /** The effect of one atomic step together with the value it returns. */
  function Step<T>(s: State<T>, a: Action<T>): (State<T>, Result<T>) {
    match a
    case Write(v, incomplete) =>
      if s.wpc != Idle then (s, Silent) else (DoWrite(s, v, incomplete), Silent)
    case Unwrite =>
      if s.wpc != Idle then (s, Silent) else DoUnwrite(s)
    case Flush =>
      if s.wpc != Idle then (s, Silent)
      else if s.w == s.f then (s, Flushed(true))
      else (s.(wpc := AtCas), Silent)
    case FlushCas =>
      if s.wpc != AtCas then (s, Silent)
      else if s.c == Some(s.w) then
        (s.(c := Some(s.f), w := s.f, wpc := Idle, slept := false), Flushed(true))
      else (s.(wpc := AtSet), Silent)
    case FlushSet =>
      if s.wpc != AtSet then (s, Silent)
      else (s.(c := Some(s.f), w := s.f, wpc := Idle, slept := false), Flushed(false))
    case CheckRead =>
      if s.rpc != Resting then (s, Silent) else DoCheckRead(s)
    case Pop =>
      if s.rpc != Holding || s.queue == [] then (s, Silent)
      else (DoPop(s), Popped(s.queue[0]))
    case Leave =>
      (s.(rpc := Resting), Silent)
  }

  /** The state after a run. */
  function Exec<T>(s: State<T>, run: seq<Action<T>>): State<T>
    decreases |run|
  {
    if run == [] then s else Exec(Step(s, run[0]).0, run[1..])
  }

  // ---------------------------------------------------------------------
  // What was written and not taken back
  // ---------------------------------------------------------------------

  /** The items written minus the items unwritten. */
  function Net<T>(edits: seq<Edit<T>>): seq<Item<T>> {
    if edits == [] then []
    else
      var before := Net(edits[..|edits| - 1]);
      match edits[|edits| - 1]
      case Wrote(item) => before + [item]
      case Unwrote => if before == [] then [] else before[..|before| - 1]
  }

  function Values<T>(items: seq<Item<T>>): (vs: seq<T>)
    ensures |vs| == |items|
    ensures forall i :: 0 <= i < |vs| ==> vs[i] == items[i].value
  {
    seq(|items|, i requires 0 <= i < |items| => items[i].value)
  }

  /** Position `p` is not in the middle of a run of items that belong together. */
  predicate Boundary<T>(items: seq<Item<T>>, p: nat) {
    p == 0 || (p <= |items| && !items[p - 1].incomplete)
  }

  /** The item at position `i` belongs to a run that is complete before `limit`. */
  ghost predicate InCompleteRun<T>(items: seq<Item<T>>, i: nat, limit: nat) {
    exists j :: i <= j < limit && j < |items| && !items[j].incomplete
  }

  // ---------------------------------------------------------------------
  // The inductive invariant
  // ---------------------------------------------------------------------

  /** The part about positions: it relates the pointers to each other. */
  predicate PositionInv<T>(s: State<T>) {
    && s.front <= s.w <= s.f <= s.Back()
    && (s.r.Some? ==> s.front <= s.r.value <= s.w)
    && (s.c.Some? ==> s.c.value == s.w)
    // the reader sleeps exactly while `c` is NULL, and only when it has read all that was flushed
    && (s.slept <==> s.c.None?)
    && (s.c.None? ==> s.front == s.w)
    && (s.rpc.Holding? ==> Prefetched(s))
    && (s.wpc != Idle ==> s.w < s.f)
    && (s.wpc == AtSet ==> s.c.None?)
  }

  /** The part about contents: `w` and `f` stand between runs of items, everything
      behind `f` is unfinished, and no item was lost. */
  ghost predicate ContentInv<T>(s: State<T>, net: seq<Item<T>>) {
    && |s.got| == s.front
    && s.got + s.queue == Values(net)
    && Boundary(net, s.w)
    && Boundary(net, s.f)
    && (forall i :: s.f <= i < |net| ==> net[i].incomplete)
  }

  ghost predicate Inv<T>(s: State<T>) {
    PositionInv(s) && ContentInv(s, Net(s.edits))
  }

  lemma NetExtends<T>(edits: seq<Edit<T>>, e: Edit<T>)
    ensures Net(edits + [e]) ==
            match e
            case Wrote(item) => Net(edits) + [item]
            case Unwrote => if Net(edits) == [] then [] else Net(edits)[..|Net(edits)| - 1]
  {
    assert (edits + [e])[..|edits + [e]| - 1] == edits;
  }

  lemma WriteKeepsContent<T>(s: State<T>, net: seq<Item<T>>, s': State<T>, item: Item<T>)
    requires PositionInv(s) && ContentInv(s, net)
    requires s'.queue == s.queue + [item.value] && s'.got == s.got
    requires s'.front == s.front && s'.w == s.w
    requires s'.f == if item.incomplete then s.f else s'.Back()
    ensures ContentInv(s', net + [item])
  {
    assert |s.got + s.queue| == |net|;
    assert s'.got + s'.queue == (s.got + s.queue) + [item.value];
    assert Values(net + [item]) == Values(net) + [item.value];
  }

  lemma UnwriteKeepsContent<T>(s: State<T>, net: seq<Item<T>>, s': State<T>)
    requires PositionInv(s) && ContentInv(s, net)
    requires s.queue != [] && s.f < s.Back()
    requires s' == s.(queue := s.queue[..|s.queue| - 1], edits := s'.edits)
    ensures net != [] && ContentInv(s', net[..|net| - 1])
    ensures net[|net| - 1] == Item(s.queue[|s.queue| - 1], true)
  {
    assert |s.got + s.queue| == |net|;
    assert s'.got + s'.queue == (s.got + s.queue)[..|net| - 1];
    assert Values(net[..|net| - 1]) == Values(net)[..|net| - 1];
    assert Values(net)[|net| - 1] == (s.got + s.queue)[|net| - 1];
  }

  lemma WriteKeepsInv<T>(s: State<T>, v: T, incomplete: bool)
    requires Inv(s) && s.wpc == Idle
    ensures Inv(DoWrite(s, v, incomplete))
  {
    var item := Item(v, incomplete);
    NetExtends(s.edits, Wrote(item));
    WriteKeepsContent(s, Net(s.edits), DoWrite(s, v, incomplete), item);
  }

  lemma UnwriteKeepsInv<T>(s: State<T>)
    requires Inv(s) && s.wpc == Idle
    ensures Inv(DoUnwrite(s).0)
  {
    if s.f != s.Back() && s.queue != [] {
      NetExtends(s.edits, Unwrote);
      UnwriteKeepsContent(s, Net(s.edits), DoUnwrite(s).0);
    }
  }

  lemma PopKeepsInv<T>(s: State<T>)
    requires Inv(s) && s.rpc == Holding && s.queue != []
    ensures Inv(DoPop(s))
  {
    assert DoPop(s).got + DoPop(s).queue == s.got + s.queue;
  }

  lemma StepKeepsInv<T>(s: State<T>, a: Action<T>)
    requires Inv(s)
    ensures Inv(Step(s, a).0)
  {
    match a
    case Write(v, incomplete) => if s.wpc == Idle { WriteKeepsInv(s, v, incomplete); }
    case Unwrite => if s.wpc == Idle { UnwriteKeepsInv(s); }
    case Pop => if s.rpc == Holding && s.queue != [] { PopKeepsInv(s); }
    case _ =>
  }

  lemma {:induction false} RunKeepsInv<T>(s: State<T>, run: seq<Action<T>>)
    requires Inv(s)
    ensures Inv(Exec(s, run))
    decreases |run|
  {
    if run != [] {
      StepKeepsInv(s, run[0]);
      RunKeepsInv(Step(s, run[0]).0, run[1..]);
    }
  }

  // ---------------------------------------------------------------------
  // What holds in every run
  // ---------------------------------------------------------------------

  /** Nothing is lost, duplicated or reordered: what the reader got, followed by
      what is still queued, is what was written and not taken back. */
  lemma NothingLost<T>(run: seq<Action<T>>)
    ensures var s := Exec(Init<T>(), run); s.got + s.queue == Values(Net(s.edits))
  {
    RunKeepsInv(Init<T>(), run);
  }

  /** The pointers stay ordered, and the shared one is NULL or the writer's `w`. */
  lemma PositionsOrdered<T>(run: seq<Action<T>>)
    ensures var s := Exec(Init<T>(), run);
            && s.front <= s.w <= s.f <= s.Back()
            && (s.r.Some? ==> s.front <= s.r.value <= s.w)
            && (s.c.None? || s.c == Some(s.w))
  {
    RunKeepsInv(Init<T>(), run);
  }

  /** Whatever the reader has obtained, and whatever it could obtain without the
      writer flushing again, belongs to a run of items that was written to its
      end before the last flush; such items are never taken back. */
  lemma ReaderSeesOnlyCompleteRuns<T>(run: seq<Action<T>>, i: nat)
    requires i < Exec(Init<T>(), run).w
    ensures var s := Exec(Init<T>(), run);
            && |s.got| <= s.w
            && InCompleteRun(Net(s.edits), i, s.w)
  {
    RunKeepsInv(Init<T>(), run);
    var s := Exec(Init<T>(), run);
    var net := Net(s.edits);
    assert |s.got + s.queue| == |net|;
    assert i <= s.w - 1 < s.w && s.w - 1 < |net| && !net[s.w - 1].incomplete;
  }

  lemma UnwriteTaken<T>(s: State<T>, net: seq<Item<T>>)
    requires PositionInv(s) && ContentInv(s, net)
    ensures var res := DoUnwrite(s).1;
            && res.Unwritten?
            && (res.taken.Some? <==> |net| > 0 && net[|net| - 1].incomplete)
            && (res.taken.Some? ==> res.taken.value == net[|net| - 1].value)
  {
    assert |s.got + s.queue| == |net|;
    if s.f < s.Back() {
      UnwriteKeepsContent(s, net, s.(queue := s.queue[..|s.queue| - 1]));
    }
  }

  /** A taken-back item is always one written as incomplete, and it is the last one. */
  lemma UnwriteTakesOnlyIncomplete<T>(run: seq<Action<T>>)
    ensures var s := Exec(Init<T>(), run);
            var net := Net(s.edits);
            var res := Step(s, Unwrite).1;
            s.wpc == Idle ==>
              && res.Unwritten?
              && (res.taken.Some? <==> |net| > 0 && net[|net| - 1].incomplete)
              && (res.taken.Some? ==> res.taken.value == net[|net| - 1].value)
  {
    RunKeepsInv(Init<T>(), run);
    var s := Exec(Init<T>(), run);
    UnwriteTaken(s, Net(s.edits));
  }

  /** `flush` with something to flush reports a sleeping reader exactly when the
      reader has gone to sleep since the last flush; with nothing to flush it
      always reports an awake one.  Either way the report is made by the step
      that publishes the items. */
  lemma FlushReportsSleep<T>(run: seq<Action<T>>)
    ensures var s := Exec(Init<T>(), run);
            && (s.wpc == Idle && s.w == s.f ==> Step(s, Flush) == (s, Flushed(true)))
            && (s.wpc == AtCas ==>
                  && (Step(s, FlushCas).1 == Flushed(true) <==> !s.slept)
                  && (s.slept ==> Step(Step(s, FlushCas).0, FlushSet).1 == Flushed(false)))
            && (s.wpc == AtSet ==> s.slept && Step(s, FlushSet).1 == Flushed(false))
            && (s.slept <==> s.c.None?)
  {
    RunKeepsInv(Init<T>(), run);
  }

  /** The reader finds an item exactly when one was flushed and not yet read; when
      it finds none, it is asleep afterwards. */
  lemma ReaderFindsFlushed<T>(run: seq<Action<T>>)
    ensures var s := Exec(Init<T>(), run);
            var (s', res) := Step(s, CheckRead);
            s.rpc == Resting ==>
              && res == Checked(s.front < s.w)
              && (s.front == s.w ==> s'.slept && s'.c.None?)
              && (s.front < s.w ==> s.queue != [] && Step(s', Pop).1 == Popped(s.queue[0]))
  {
    RunKeepsInv(Init<T>(), run);
  }
}
