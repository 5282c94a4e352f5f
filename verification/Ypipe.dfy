/**
 The pipe of ypipe.hpp as it is in memory: pointers `w`, `r`, `f` and `c` into a
 chunked queue, compared as pointers.

 Run without interference, every operation is a sequence of the atomic steps of
 YpipeSteps; `state` is the state of the step machine the object stands for.
 */
module Ypipe {
  import opened Common
  import opened Yqueue
  import Steps = YpipeSteps

  /** `flush` without interference: the steps up to the one that returns. */
  function FlushSteps<T>(s: Steps.State<T>): (Steps.State<T>, Steps.Result<T>) {
    var (s1, res1) := Steps.Step(s, Steps.Flush);
    if res1.Flushed? then (s1, res1)
    else
      var (s2, res2) := Steps.Step(s1, Steps.FlushCas);
      if res2.Flushed? then (s2, res2) else Steps.Step(s2, Steps.FlushSet)
  }

  /** `check_read` without interference; the reader does not keep the item. */
  function CheckReadSteps<T>(s: Steps.State<T>): (Steps.State<T>, bool) {
    var (s1, res) := Steps.Step(s, Steps.CheckRead);
    (Steps.Step(s1, Steps.Leave).0, res == Steps.Checked(true))
  }

  /** `read` without interference. */
  function ReadSteps<T>(s: Steps.State<T>): (Steps.State<T>, Steps.Result<T>) {
    var (s1, res) := Steps.Step(s, Steps.CheckRead);
    if res == Steps.Checked(true) then Steps.Step(s1, Steps.Pop) else (s1, res)
  }

  lemma ReadOutcome<T>(s: Steps.State<T>)
    requires s.wpc == Steps.Idle && s.rpc == Steps.Resting
    ensures var (s1, available) := CheckReadSteps(s);
            ReadSteps(s) ==
            if !available then (s1, Steps.Checked(false))
            else if s1.queue == [] then (s1.(rpc := Steps.Holding), Steps.Silent)
            else (Steps.DoPop(s1), Steps.Popped(s1.queue[0]))
  {
  }

  /** What is in memory: the values in the queue, the addresses of their slots, the
      number of items popped, and the four pointers. */
  datatype Memory<T(0)> = Memory(
    values: seq<T>, cells: seq<Address<T>>, popped: nat,
    w: Address<T>, f: Address<T>, r: Option<Address<T>>, c: Option<Address<T>>)

  ghost predicate PointsTo<T(0)>(m: Memory<T>, a: Address<T>, p: nat) {
    m.popped <= p < m.popped + |m.cells| && a == m.cells[p - m.popped]
  }

  ghost predicate MayPointTo<T(0)>(m: Memory<T>, a: Option<Address<T>>, p: Option<nat>) {
    (a.None? <==> p.None?) && (a.Some? && p.Some? ==> PointsTo(m, a.value, p.value))
  }

  /** The memory holds the items of `s` with one terminator slot behind them, and
      every pointer is the address of the position it has in `s`. */
  ghost predicate Represents<T(0)>(m: Memory<T>, s: Steps.State<T>) {
    && Steps.PositionInv(s) && s.wpc == Steps.Idle && s.rpc == Steps.Resting
    && m.popped == s.front
    && |m.values| == |s.queue| + 1 == |m.cells| - 1
    && m.values[..|s.queue|] == s.queue
    && PointsTo(m, m.w, s.w)
    && PointsTo(m, m.f, s.f)
    && MayPointTo(m, m.r, s.r)
    && MayPointTo(m, m.c, s.c)
  }

  lemma WriteRepresents<T(0)>(m: Memory<T>, s: Steps.State<T>, v: T, incomplete: bool, m': Memory<T>)
    requires Represents(m, s)
    requires |m'.values| > 0 && m'.values[..|m'.values| - 1] == m.values[..|m.values| - 1] + [v]
    requires |m'.cells| > 0 && m'.cells[..|m'.cells| - 1] == m.cells
    requires m' == m.(values := m'.values, cells := m'.cells, f := m'.f)
    requires m'.f == if incomplete then m.f else m'.cells[|m'.cells| - 2]
    ensures Represents(m', Steps.DoWrite(s, v, incomplete))
  {
    var s' := Steps.DoWrite(s, v, incomplete);
    assert |s'.queue| == |m'.values| - 1;
    assert m'.values[..|s'.queue|] == m.values[..|s.queue|] + [v];
    assert forall i :: 0 <= i < |m.cells| ==> m'.cells[i] == m'.cells[..|m'.cells| - 1][i];
  }

  lemma UnwriteRepresents<T(0)>(m: Memory<T>, s: Steps.State<T>, m': Memory<T>)
    requires Represents(m, s) && s.f < s.Back()
    requires m' == m.(values := m.values[..|m.values| - 1], cells := m.cells[..|m.cells| - 1])
    ensures Represents(m', Steps.DoUnwrite(s).0)
    ensures Steps.DoUnwrite(s).1 == Steps.Unwritten(Some(m'.values[|m'.values| - 1]))
  {
    var s' := Steps.DoUnwrite(s).0;
    assert m'.values[..|s'.queue|] == m.values[..|s.queue|][..|s'.queue|];
    assert m.values[..|s.queue|][|s'.queue|] == m'.values[|s'.queue|];
  }

  /** The outcome of `flush` when there is something to flush. */
  lemma FlushRepresents<T(0)>(m: Memory<T>, s: Steps.State<T>, m': Memory<T>)
    requires Represents(m, s) && s.w != s.f
    requires m' == m.(w := m.f, c := Some(m.f))
    ensures var (s', res) := FlushSteps(s); Represents(m', s') && res == Steps.Flushed(s.c.Some?)
  {
  }

  /** The outcome of `check_read` when nothing is prefetched. */
  lemma CheckReadRepresents<T(0)>(m: Memory<T>, s: Steps.State<T>, m': Memory<T>)
    requires Represents(m, s) && !Steps.Prefetched(s)
    requires m' == m.(r := m.c, c := if s.c == Some(s.front) then None else m.c)
    ensures var (s', available) := CheckReadSteps(s);
            && Represents(m', s')
            && available == (s.c.Some? && s.c.value != s.front)
            && (available ==> s'.queue != [] && Steps.Prefetched(s'))
  {
  }

  lemma PopRepresents<T(0)>(m: Memory<T>, s: Steps.State<T>, m': Memory<T>)
    requires Represents(m, s) && Steps.Prefetched(s) && s.queue != []
    requires m' == m.(values := m.values[1..], cells := m.cells[1..], popped := m.popped + 1)
    ensures Represents(m', Steps.DoPop(s)) && m.values[0] == s.queue[0]
  {
    assert m'.values[..|s.queue| - 1] == m.values[..|s.queue|][1..];
    assert m.values[0] == m.values[..|s.queue|][0];
  }

  class YPipe<T(0)> {
    const queue: YQueue<T>
    var w: Address<T>
    var f: Address<T>
    var r: Option<Address<T>>
    var c: Option<Address<T>>
    ghost var state: Steps.State<T>

    ghost function Snapshot(): Memory<T>
      reads this, queue
    {
      Memory(queue.contents, queue.cells, queue.popped, w, f, r, c)
    }

    ghost predicate Valid()
      reads this, queue, queue.Repr
    {
      queue.Valid() && this !in queue.Repr && Represents(Snapshot(), state)
    }

    constructor (granularity: nat)
      requires granularity >= 1
      ensures Valid() && fresh(queue.Repr)
      ensures state == Steps.Init<T>()
    {
      var q := new YQueue<T>(granularity);
      q.Push();
      var back := q.BackAddress();
      queue := q;
      w, f, r, c := back, back, Some(back), Some(back);
      state := Steps.Init<T>();
    }

    /** Two pointers into the queue are equal exactly when their positions are. */
    lemma PointersArePositions(a: Address<T>, p: nat, b: Address<T>, q: nat)
      requires queue.Valid() && PointsTo(Snapshot(), a, p) && PointsTo(Snapshot(), b, q)
      ensures a == b <==> p == q
    {
      queue.AddressesDistinct(p, q);
    }

    method Write(value: T, incomplete: bool)
      requires Valid()
      modifies this, queue.Repr
      ensures Valid() && fresh(queue.Repr - old(queue.Repr))
      ensures state == Steps.Step(old(state), Steps.Write(value, incomplete)).0
    {
      ghost var s0, m0 := state, Snapshot();
      Place(value);
      if !incomplete {
        f := queue.BackAddress();
      }
      state := Steps.DoWrite(state, value, incomplete);
      WriteRepresents(m0, s0, value, incomplete, Snapshot());
    }

    /** Places the value in the queue and adds a new terminator slot. */
    method Place(value: T)
      requires queue.Valid() && queue.contents != [] && this !in queue.Repr
      modifies queue.Repr
      ensures queue.Valid() && this !in queue.Repr && fresh(queue.Repr - old(queue.Repr))
      ensures |queue.contents| > 1
      ensures queue.contents[..|queue.contents| - 1] == old(queue.contents)[..|old(queue.contents)| - 1] + [value]
      ensures queue.popped == old(queue.popped)
      ensures |queue.cells| > 0 && queue.cells[..|queue.cells| - 1] == old(queue.cells)
    {
      queue.SetBack(value);
      queue.Push();
    }

    method Unwrite() returns (taken: Option<T>)
      requires Valid()
      modifies this, queue.Repr
      ensures Valid() && queue.Repr == old(queue.Repr)
      ensures (state, Steps.Unwritten(taken)) == Steps.Step(old(state), Steps.Unwrite)
    {
      var back := queue.BackAddress();
      PointersArePositions(f, state.f, back, state.Back());
      if f == back {
        return None;
      }
      var v := TakeBack();
      taken := Some(v);
    }

    /** The second half of `unwrite`. */
    method TakeBack() returns (v: T)
      requires Valid() && state.f < state.Back()
      modifies this, queue.Repr
      ensures Valid() && queue.Repr == old(queue.Repr)
      ensures (state, Steps.Unwritten(Some(v))) == Steps.DoUnwrite(old(state))
    {
      ghost var s0, m0 := state, Snapshot();
      queue.Unpush();
      v := queue.Back();
      state := Steps.DoUnwrite(state).0;
      UnwriteRepresents(m0, s0, Snapshot());
    }

    method Flush() returns (readerAwake: bool)
      requires Valid()
      modifies this
      ensures Valid()
      ensures (state, Steps.Flushed(readerAwake)) == FlushSteps(old(state))
    {
      PointersArePositions(w, state.w, f, state.f);
      if w == f {
        return true;
      }
      // `c.cas (w, f)`
      var seen := c;
      if seen == Some(w) {
        c := Some(f);
      }
      if seen != Some(w) {
        c := Some(f);
        w := f;
        readerAwake := false;
      } else {
        w := f;
        readerAwake := true;
      }
      state := FlushSteps(state).0;
      FlushRepresents(old(Snapshot()), old(state), Snapshot());
    }

    method CheckRead() returns (available: bool)
      requires Valid()
      modifies this
      ensures Valid()
      ensures (state, available) == CheckReadSteps(old(state))
      ensures available ==> state.queue != [] && Steps.Prefetched(state)
    {
      var front := queue.FrontAddress();
      if r.Some? {
        PointersArePositions(front, state.front, r.value, state.r.value);
        if r.value != front {
          return true;
        }
      }
      available := Prefetch(front);
    }

    /** The second half of `check_read`: `r = c.cas (&queue.front (), NULL)`. */
    method Prefetch(front: Address<T>) returns (available: bool)
      requires Valid() && front == queue.cells[0] && !Steps.Prefetched(state)
      modifies this
      ensures Valid()
      ensures (state, available) == CheckReadSteps(old(state))
      ensures available ==> state.queue != [] && Steps.Prefetched(state)
    {
      if c.Some? {
        PointersArePositions(front, state.front, c.value, state.c.value);
      }
      r := c;
      if c == Some(front) {
        c := None;
      }
      available := !(r == Some(front) || r == None);
      state := CheckReadSteps(state).0;
      CheckReadRepresents(old(Snapshot()), old(state), Snapshot());
    }

    method Read() returns (value: Option<T>)
      requires Valid()
      modifies this, queue.Repr
      ensures Valid() && queue.Repr == old(queue.Repr)
      ensures match value
              case Some(v) => (state, Steps.Popped(v)) == ReadSteps(old(state))
              case None => (state, Steps.Checked(false)) == ReadSteps(old(state))
    {
      ReadOutcome(state);
      var available := CheckRead();
      if !available {
        return None;
      }
      var v := TakeFront();
      value := Some(v);
    }

    /** The second half of `read`. */
    method TakeFront() returns (v: T)
      requires Valid() && state.queue != [] && Steps.Prefetched(state)
      modifies this, queue.Repr
      ensures Valid() && queue.Repr == old(queue.Repr)
      ensures state == Steps.DoPop(old(state)) && v == old(state).queue[0]
    {
      ghost var s0, m0 := state, Snapshot();
      v := queue.Front();
      queue.Pop();
      state := Steps.DoPop(state);
      PopRepresents(m0, s0, Snapshot());
    }

    /** Applies a test to the first item, which must be there. */
    method Probe(test: T -> bool) returns (holds: bool)
      requires Valid() && CheckReadSteps(state).1
      modifies this
      ensures Valid()
      ensures state == CheckReadSteps(old(state)).0
      ensures state.queue != [] && holds == test(state.queue[0])
    {
      var available := CheckRead();
      var front := queue.Front();
      holds := test(front);
    }
  }
}
