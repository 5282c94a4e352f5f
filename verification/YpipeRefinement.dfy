/**
 The simple queue that the lock-free pipe implements.

 Here `flush`, `check_read` and `read` are single indivisible operations.  The
 refinement lemma shows that every atomic step of YpipeSteps is either one of
 these operations or leaves the simple queue as it is, so code that uses a
 pipe can be reasoned about with the simple queue.
 */
module FlushQueue {
  import opened Common

  /** `flushed` can be read, `staged` is complete but not flushed, `open` is the
      beginning of a run whose end has not been written yet. */
  datatype Queue<T> = Queue(flushed: seq<T>, staged: seq<T>, open: seq<T>, asleep: bool) {
    function All(): seq<T> { flushed + staged + open }
  }

  function Empty<T>(): Queue<T> { Queue([], [], [], false) }

  function Write<T>(q: Queue<T>, v: T, incomplete: bool): Queue<T> {
    if incomplete then q.(open := q.open + [v])
    else q.(staged := q.staged + q.open + [v], open := [])
  }

  function Unwrite<T>(q: Queue<T>): (Queue<T>, Option<T>) {
    if q.open == [] then (q, None)
    else (q.(open := q.open[..|q.open| - 1]), Some(q.open[|q.open| - 1]))
  }

  /** The result is false when the reader has to be woken up. */
  function Flush<T>(q: Queue<T>): (Queue<T>, bool) {
    if q.staged == [] then (q, true)
    else (Queue(q.flushed + q.staged, [], q.open, false), !q.asleep)
  }

  function CheckRead<T>(q: Queue<T>): (Queue<T>, bool) {
    if q.flushed == [] then (q.(asleep := true), false) else (q, true)
  }

  function Read<T>(q: Queue<T>): (Queue<T>, Option<T>) {
    if q.flushed == [] then (q.(asleep := true), None)
    else (q.(flushed := q.flushed[1..]), Some(q.flushed[0]))
  }
}

module YpipeRefinement {
  import opened Common
  import opened YpipeSteps
  import FlushQueue

  function Simple<T>(s: State<T>): FlushQueue.Queue<T>
    requires PositionInv(s)
  {
    FlushQueue.Queue(s.queue[..s.w - s.front], s.queue[s.w - s.front..s.f - s.front],
                     s.queue[s.f - s.front..], s.c.None?)
  }

  /** A step that publishes nothing and reads nothing. */
  predicate Internal<T>(s: State<T>, a: Action<T>) {
    match a
    case Write(_, _) => s.wpc != Idle
    case Unwrite => s.wpc != Idle
    case Flush => s.wpc != Idle || s.w != s.f
    case FlushCas => s.wpc != AtCas || s.c != Some(s.w)
    case FlushSet => s.wpc != AtSet
    case CheckRead => s.rpc != Resting
    case Pop => s.rpc != Holding
    case Leave => true
  }

  /** What the step must do to the simple queue, and the value it must return. */
  ghost predicate Refines<T>(q: FlushQueue.Queue<T>, a: Action<T>, q': FlushQueue.Queue<T>, res: Result<T>) {
    match a
    case Write(v, incomplete) => q' == FlushQueue.Write(q, v, incomplete)
    case Unwrite => var (q1, taken) := FlushQueue.Unwrite(q); q' == q1 && res == Unwritten(taken)
    case Flush => FlushQueue.Flush(q) == (q, true) && q' == q && res == Flushed(true)
    case FlushCas => !q.asleep && FlushQueue.Flush(q) == (q', true) && res == Flushed(true)
    case FlushSet => q.asleep && FlushQueue.Flush(q) == (q', false) && res == Flushed(false)
    case CheckRead => var (q1, ok) := FlushQueue.CheckRead(q); q' == q1 && res == Checked(ok)
    case Pop => q.flushed != [] && FlushQueue.Read(q) == (q', Some(q.flushed[0])) && res == Popped(q.flushed[0])
    case Leave => q' == q
  }

  lemma WriteRefines<T>(s: State<T>, v: T, incomplete: bool)
    requires PositionInv(s) && s.wpc == Idle
    ensures var s' := Step(s, Write(v, incomplete)).0;
            PositionInv(s') && Simple(s') == FlushQueue.Write(Simple(s), v, incomplete)
  {
    var s' := Step(s, Write(v, incomplete)).0;
    var q, q' := Simple(s), Simple(s');
    assert q'.flushed == q.flushed;
    if incomplete {
      assert q'.staged == q.staged && q'.open == q.open + [v];
    } else {
      assert q'.staged == q.staged + q.open + [v] && q'.open == [];
    }
  }

  lemma UnwriteRefines<T>(s: State<T>)
    requires PositionInv(s) && s.wpc == Idle
    ensures var (s', res) := Step(s, Unwrite);
            && PositionInv(s')
            && Simple(s') == FlushQueue.Unwrite(Simple(s)).0
            && res == Unwritten(FlushQueue.Unwrite(Simple(s)).1)
  {
    var s' := Step(s, Unwrite).0;
    var q, q' := Simple(s), Simple(s');
    if s.f < s.Back() {
      assert q'.flushed == q.flushed && q'.staged == q.staged;
      assert q'.open == q.open[..|q.open| - 1];
    }
  }

  lemma PublishRefines<T>(s: State<T>, s': State<T>)
    requires PositionInv(s) && s.w < s.f
    requires s' == s.(c := Some(s.f), w := s.f, wpc := Idle, slept := false)
    ensures PositionInv(s') && FlushQueue.Flush(Simple(s)) == (Simple(s'), s.c.Some?)
  {
    var q, q' := Simple(s), Simple(s');
    assert q'.flushed == q.flushed + q.staged && q'.staged == [] && q'.open == q.open;
  }

  lemma PopRefines<T>(s: State<T>)
    requires PositionInv(s) && s.rpc == Holding
    ensures var (s', res) := Step(s, Pop);
            && PositionInv(s')
            && Simple(s).flushed != [] && res == Popped(Simple(s).flushed[0])
            && FlushQueue.Read(Simple(s)) == (Simple(s'), Some(Simple(s).flushed[0]))
  {
    var s' := Step(s, Pop).0;
    var q, q' := Simple(s), Simple(s');
    assert q'.flushed == q.flushed[1..] && q'.staged == q.staged && q'.open == q.open;
  }

  lemma InternalStutters<T>(s: State<T>, a: Action<T>)
    requires PositionInv(s) && Internal(s, a)
    ensures PositionInv(Step(s, a).0) && Simple(Step(s, a).0) == Simple(s)
  {
  }

  lemma FlushRefines<T>(s: State<T>, a: Action<T>)
    requires PositionInv(s) && !Internal(s, a) && (a.Flush? || a.FlushCas? || a.FlushSet?)
    ensures PositionInv(Step(s, a).0) && Refines(Simple(s), a, Simple(Step(s, a).0), Step(s, a).1)
  {
    if !a.Flush? {
      PublishRefines(s, Step(s, a).0);
    }
  }

  lemma CheckReadRefines<T>(s: State<T>)
    requires PositionInv(s) && s.rpc == Resting
    ensures PositionInv(Step(s, CheckRead).0)
    ensures Refines(Simple(s), CheckRead, Simple(Step(s, CheckRead).0), Step(s, CheckRead).1)
  {
  }

  /** Every atomic step of the lock-free pipe either leaves the simple queue alone
      or is exactly one operation on it, with the same result. */
  lemma StepRefines<T>(s: State<T>, a: Action<T>)
    requires PositionInv(s)
    ensures PositionInv(Step(s, a).0)
    ensures if Internal(s, a) then Simple(Step(s, a).0) == Simple(s)
            else Refines(Simple(s), a, Simple(Step(s, a).0), Step(s, a).1)
  {
    if Internal(s, a) {
      InternalStutters(s, a);
    } else if a.Flush? || a.FlushCas? || a.FlushSet? {
      FlushRefines(s, a);
    } else {
      match a
      case Write(v, incomplete) => WriteRefines(s, v, incomplete);
      case Unwrite => UnwriteRefines(s);
      case CheckRead => CheckReadRefines(s);
      case Pop => PopRefines(s);
    }
  }
}
