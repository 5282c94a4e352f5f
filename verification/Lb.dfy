/**
 Load balancing over a set of outbound pipes (lb.cpp).

 The pipes are arranged and taken in turn as in fair queueing, so FqSpec says
 which pipe is chosen.  On top of that, the rest of a message is dropped when
 its pipe goes away.
 */
module LbSpec {
  import opened Common
  import opened PipeArray
  import F = FqSpec

  datatype State<P> = State(round: F.State<P>, dropping: bool)

  /** What becomes of a part: written to a pipe, dropped, or neither because no pipe has room. */
  datatype Outcome<P> = Written(pipe: P, more: bool) | Dropped(more: bool) | Again

  /** A message is being written to the current pipe. */
  predicate Writing<P>(s: State<P>) { s.round.more && !s.dropping }

  predicate Valid<P(==)>(s: State<P>) { F.Valid(s.round.(more := Writing(s))) }

  /** The pipe that took the first part of a message has room for the rest. */
  predicate Continuable<P(==)>(s: State<P>, room: set<P>)
    requires Valid(s)
  {
    Writing(s) ==> s.round.pipes[s.round.current] in room
  }

  /** The pipes in `room` take a part with the given flag. */
  function Takers<P>(room: set<P>, more: bool): map<P, bool> { map p | p in room :: more }

  function Send<P>(s: State<P>, room: set<P>, more: bool): (State<P>, Outcome<P>)
    requires Valid(s) && Continuable(s, room)
  {
    if s.dropping then (State(s.round.(more := more), more), Dropped(more))
    else
      var (round, taken) := F.Recv(s.round, Takers(room, more));
      (State(round, false), if taken.Some? then Written(taken.value.pipe, more) else Again)
  }

  function HasOut<P>(s: State<P>, room: set<P>): (State<P>, bool)
    requires Valid(s)
  {
    if s.round.more then (s, true)
    else
      var (round, found) := F.HasIn(s.round, Takers(room, false));
      (s.(round := round), found)
  }

  function Terminated<P>(s: State<P>, i: nat): State<P>
    requires i < |s.round.pipes| && s.round.active <= |s.round.pipes|
  {
    State(F.Terminated(s.round, i), s.dropping || (i == s.round.current && s.round.more))
  }

  // Runs

  datatype Event<P> =
    | Attach(pipe: P)
    | Activate(i: nat)
    | Terminate(i: nat)
    | SendPart(more: bool, room: set<P>)
    | Poll(room: set<P>)

  predicate Possible<P(==)>(s: State<P>, e: Event<P>)
    requires Valid(s)
  {
    match e
    case Attach(p) => p !in s.round.pipes
    case Activate(i) => s.round.active <= i < |s.round.pipes|
    case Terminate(i) =>
      // unless the pipe of a message that is being written would be lost track of
      i < |s.round.pipes| &&
      (Writing(s) && i != s.round.current ==>
         i >= s.round.active || s.round.current + 1 < s.round.active || (i == 0 && s.round.active == |s.round.pipes|))
    case SendPart(_, room) => Continuable(s, room)
    case Poll(_) => true
  }

  function Step<P>(s: State<P>, e: Event<P>): (State<P>, seq<Outcome<P>>)
    requires Valid(s) && Possible(s, e)
  {
    match e
    case Attach(p) => (s.(round := F.Attach(s.round, p)), [])
    case Activate(i) => (s.(round := F.Activated(s.round, i)), [])
    case Terminate(i) => (Terminated(s, i), [])
    case SendPart(more, room) => var (s', o) := Send(s, room, more); (s', if o.Again? then [] else [o])
    case Poll(room) => (HasOut(s, room).0, [])
  }

  /** What the next part has to become: it follows the part before it. */
  ghost predicate Next<P>(s: State<P>, o: Outcome<P>)
    requires Valid(s)
  {
    if Writing(s) then o.Dropped? || (o.Written? && o.pipe == s.round.pipes[s.round.current])
    else if s.dropping then o.Dropped?
    else o.Written?
  }

  lemma TerminateKeeps<P>(s: State<P>, i: nat)
    requires Valid(s) && Possible(s, Terminate(i))
    ensures var s' := Terminated(s, i);
            Valid(s') && (Writing(s') ==> Writing(s) && s'.round.pipes[s'.round.current] == s.round.pipes[s.round.current])
    ensures s.dropping ==> Terminated(s, i).dropping
    ensures !Writing(s) ==> Terminated(s, i).dropping == s.dropping
    ensures Writing(s) ==> (Terminated(s, i).dropping <==> i == s.round.current)
  {
    EraseRemoves(s.round.pipes, i);
    if Writing(s) && i != s.round.current {
      F.TerminatedKeepsCurrent(s.round, i);
    }
  }

  lemma SendKeeps<P>(s: State<P>, room: set<P>, more: bool)
    requires Valid(s) && Continuable(s, room)
    ensures Valid(Send(s, room, more).0)
    ensures var (s', o) := Send(s, room, more);
            match o
            case Again => !Writing(s) && !s.dropping && !Writing(s') && !s'.dropping
            case Written(p, m) => Next(s, o) && m == more && !s'.dropping && s'.round.more == more &&
                                  (more ==> s'.round.pipes[s'.round.current] == p)
            case Dropped(m) => Next(s, o) && m == more && s'.dropping == more && s'.round.more == more
  {
    if !s.dropping {
      F.RecvValid(s.round, Takers(room, more));
      F.RecvFirst(s.round, Takers(room, more));
      TakenFlag(s.round, room, more);
    }
  }

  lemma {:induction false} TakenFlag<P>(s: F.State<P>, room: set<P>, more: bool)
    requires F.Valid(s) && F.Continuable(s, Takers(room, more))
    ensures var d := F.Recv(s, Takers(room, more)).1; d.Some? ==> d.value.more == more && d.value.pipe in room
    decreases s.active
  {
    if s.active > 0 && s.pipes[s.current] !in Takers(room, more) {
      F.DeactivatedValid(s);
      TakenFlag(F.Deactivated(s), room, more);
    }
  }

  lemma StepValid<P>(s: State<P>, e: Event<P>)
    requires Valid(s) && Possible(s, e)
    ensures Valid(Step(s, e).0)
  {
    match e
    case Attach(p) => SwapPermutes(s.round.pipes + [p], s.round.active, |s.round.pipes|);
    case Activate(i) => SwapPermutes(s.round.pipes, i, s.round.active);
    case Terminate(i) => TerminateKeeps(s, i);
    case SendPart(more, room) => SendKeeps(s, room, more);
    case Poll(room) =>
      if !s.round.more {
        F.HasInValid(s.round, Takers(room, false));
        F.HasInMore(s.round, Takers(room, false));
      }
  }

  predicate AllPossible<P>(s: State<P>, run: seq<Event<P>>)
    requires Valid(s)
    decreases |run|
  {
    run == [] || (Possible(s, run[0]) && (StepValid(s, run[0]); AllPossible(Step(s, run[0]).0, run[1..])))
  }

  function Exec<P>(s: State<P>, run: seq<Event<P>>): seq<Outcome<P>>
    requires Valid(s) && AllPossible(s, run)
    decreases |run|
  {
    if run == [] then []
    else
      StepValid(s, run[0]);
      var (s1, out1) := Step(s, run[0]);
      out1 + Exec(s1, run[1..])
  }

  /** The parts of a message stay together: what follows a part that was written goes to the same pipe or
      is dropped, what follows a dropped part of the same message is dropped too, and nothing else is. */
  ghost predicate Together<P>(s: State<P>, out: seq<Outcome<P>>)
    requires Valid(s)
  {
    && (out != [] ==> Next(s, out[0]))
    && forall i {:trigger out[i].more} :: 0 <= i < |out| - 1 && !out[i].Again? ==>
         (out[i].more && out[i].Written? ==> out[i + 1].Dropped? || (out[i + 1].Written? && out[i + 1].pipe == out[i].pipe)) &&
         (out[i].more && out[i].Dropped? ==> out[i + 1].Dropped?)
  }

  /** After an event that delivers nothing, the next part becomes what it would have become before, or is
      dropped with its pipe. */
  lemma QuietNext<P>(s: State<P>, e: Event<P>, o: Outcome<P>)
    requires Valid(s) && Possible(s, e) && Step(s, e).1 == []
    requires Valid(Step(s, e).0) && Next(Step(s, e).0, o)
    ensures Next(s, o)
  {
    match e
    case Attach(p) =>
    case Activate(i) =>
    case Terminate(i) => TerminateKeeps(s, i);
    case SendPart(more, room) => SendKeeps(s, room, more);
    case Poll(room) =>
      if !s.round.more {
        F.HasInMore(s.round, Takers(room, false));
      }
  }

  lemma {:induction false} MessagesTogether<P>(s: State<P>, run: seq<Event<P>>)
    requires Valid(s) && AllPossible(s, run)
    ensures Together(s, Exec(s, run))
    decreases |run|
  {
    if run != [] {
      StepValid(s, run[0]);
      var (s1, out1) := Step(s, run[0]);
      var out2 := Exec(s1, run[1..]);
      MessagesTogether(s1, run[1..]);
      if out1 == [] {
        assert out1 + out2 == out2;
        if out2 != [] {
          QuietNext(s, run[0], out2[0]);
        }
      } else {
        SendKeeps(s, run[0].room, run[0].more);
        var out := out1 + out2;
        forall i | 0 <= i < |out| - 1 && !out[i].Again?
          ensures (out[i].more && out[i].Written? ==> out[i + 1].Dropped? || (out[i + 1].Written? && out[i + 1].pipe == out[i].pipe)) &&
                  (out[i].more && out[i].Dropped? ==> out[i + 1].Dropped?)
        {
          if i > 0 {
            assert out[i] == out2[i - 1] && out[i + 1] == out2[i];
            assert out2[i - 1].more == out[i].more;
          }
        }
      }
    }
  }

  // Fairness

  /** The number of whole messages that were written. */
  function Messages<P>(out: seq<Outcome<P>>): nat {
    if out == [] then 0 else (if out[0].Written? && !out[0].more then 1 else 0) + Messages(out[1..])
  }

  predicate To<P(==)>(out: seq<Outcome<P>>, p: P) { exists i | 0 <= i < |out| :: out[i].Written? && out[i].pipe == p }

  /** No pipe is attached or terminated, and p has room whenever the pipes are tried. */
  predicate HasRoom<P(==)>(e: Event<P>, p: P) {
    match e
    case Attach(_) => false
    case Terminate(_) => false
    case Activate(_) => true
    case SendPart(_, room) => p in room
    case Poll(room) => p in room
  }

  lemma StepDistance<P>(s: State<P>, e: Event<P>, p: P, i: nat) returns (j: nat)
    requires Valid(s) && Possible(s, e) && F.ActiveAt(s.round, p, i) && HasRoom(e, p)
    ensures var (s', out) := Step(s, e);
            F.ActiveAt(s'.round, p, j) && |s'.round.pipes| == |s.round.pipes| &&
            (To(out, p) || F.Distance(s'.round, j) + Messages(out) <= F.Distance(s.round, i))
  {
    j := i;
    match e
    case Activate(_) =>
    case SendPart(more, room) =>
      if !s.dropping {
        var available := Takers(room, more);
        F.RecvValid(s.round, available);
        j := F.RecvDistance(s.round, available, p, i);
        TakenFlag(s.round, room, more);
        var o := Send(s, room, more).1;
        assert [o][1..] == [] && [o][0] == o;
        assert o.Written? && o.pipe == p ==> To([o], p);
      } else {
        var o: Outcome<P> := Dropped(more);
        assert [o][1..] == [];
      }
    case Poll(room) =>
      if !s.round.more {
        F.HasInValid(s.round, Takers(room, false));
        j := F.HasInDistance(s.round, Takers(room, false), p, i);
      }
  }

  lemma {:induction false} MessagesConcat<P>(a: seq<Outcome<P>>, b: seq<Outcome<P>>)
    ensures Messages(a + b) == Messages(a) + Messages(b)
  {
    if a == [] {
      assert a + b == b;
    } else {
      MessagesConcat(a[1..], b);
      assert (a + b)[1..] == a[1..] + b;
    }
  }

  lemma {:induction false} RunDistance<P>(s: State<P>, run: seq<Event<P>>, p: P, i: nat)
    requires Valid(s) && AllPossible(s, run) && F.ActiveAt(s.round, p, i)
    requires forall k :: 0 <= k < |run| ==> HasRoom(run[k], p)
    ensures To(Exec(s, run), p) || Messages(Exec(s, run)) <= F.Distance(s.round, i)
    decreases |run|
  {
    if run != [] {
      StepValid(s, run[0]);
      var (s1, out1) := Step(s, run[0]);
      var j := StepDistance(s, run[0], p, i);
      RunDistance(s1, run[1..], p, j);
      var out2 := Exec(s1, run[1..]);
      MessagesConcat(out1, out2);
      assert forall k :: 0 <= k < |out2| ==> (out1 + out2)[|out1| + k] == out2[k];
    }
  }

  /** An active pipe that keeps room is written to before as many whole messages have been written as
      there are pipes, whatever happens to the other pipes. */
  lemma FairlyWritten<P>(s: State<P>, run: seq<Event<P>>, p: P)
    requires Valid(s) && AllPossible(s, run) && p in s.round.pipes[..s.round.active]
    requires forall k :: 0 <= k < |run| ==> HasRoom(run[k], p)
    requires Messages(Exec(s, run)) >= |s.round.pipes|
    ensures To(Exec(s, run), p)
  {
    var i :| 0 <= i < s.round.active && s.round.pipes[i] == p;
    RunDistance(s, run, p, i);
  }

  // What every call does

  /** The active pipes that take a part. */
  function Candidates<P(==)>(s: State<P>, room: set<P>): set<P>
    requires s.round.active <= |s.round.pipes|
  {
    F.ActivePipes(s.round) * room
  }

  lemma SameCandidates<P>(s: State<P>, room: set<P>, more: bool)
    requires s.round.active <= |s.round.pipes|
    ensures F.Candidates(s.round, Takers(room, more)) == Candidates(s, room)
  {
  }

  /** A part is dropped if the rest of its message is dropped; otherwise it is written to an active pipe that
      has room if and only if there is one.  No pipe that has room is deactivated, and none is lost. */
  lemma SendExactly<P>(s: State<P>, room: set<P>, more: bool)
    requires Valid(s) && Continuable(s, room)
    ensures
      var (s', o) := Send(s, room, more);
      && (if s.dropping then o == Dropped(more)
          else if Candidates(s, room) == {} then o.Again?
          else o.Written? && o.pipe in Candidates(s, room) && o.more == more)
      && s'.round.active <= |s'.round.pipes| && multiset(s'.round.pipes) == multiset(s.round.pipes)
      && Candidates(s, room) <= F.ActivePipes(s'.round) <= F.ActivePipes(s.round)
  {
    if !s.dropping {
      SameCandidates(s, room, more);
      F.RecvExactly(s.round, Takers(room, more));
    }
  }

  /** `has_out` is true if and only if a message was begun or some active pipe has room. */
  lemma HasOutExactly<P>(s: State<P>, room: set<P>)
    requires Valid(s)
    ensures
      var (s', found) := HasOut(s, room);
      && (found <==> s.round.more || Candidates(s, room) != {})
      && s'.dropping == s.dropping && s'.round.more == s.round.more
      && s'.round.active <= |s'.round.pipes| && multiset(s'.round.pipes) == multiset(s.round.pipes)
      && Candidates(s, room) <= F.ActivePipes(s'.round) <= F.ActivePipes(s.round)
  {
    if !s.round.more {
      SameCandidates(s, room, false);
      F.HasInExactly(s.round, Takers(room, false));
    }
  }
}

module Lb {
  import opened DivMod
  import opened PipeArray
  import F = FqSpec
  import opened LbSpec
  import S = LbSpec

  class LoadBalancer {
    const pipes: Pipes
    var active: nat
    var current: nat
    var more: bool
    var dropping: bool

    ghost function View(): State<Pipe>
      reads this, pipes
    {
      State(F.State(pipes.items, active, current, more), dropping)
    }

    ghost predicate Valid()
      reads this, pipes, pipes.items
    {
      pipes.Valid() && S.Valid(View())
    }

    constructor ()
      ensures Valid() && View() == State(F.State([], 0, 0, false), false) && fresh(pipes)
    {
      pipes := new Pipes();
      active, current, more, dropping := 0, 0, false, false;
    }

    method Attach(pipe: Pipe)
      requires Valid() && pipe !in pipes.items
      modifies this, pipes, pipes.items, pipe
      ensures Valid() && View() == old(View()).(round := F.Attach(old(View()).round, pipe))
    {
      pipes.PushBack(pipe);
      pipes.Swap(active, pipes.Size() - 1);
      active := active + 1;
      pipes.ValidDistinct();
    }

    method Activated(pipe: Pipe)
      requires Valid() && pipe in pipes.items[active..]
      modifies this, pipes, pipes.items
      ensures Valid() && exists i | old(active) <= i < |old(pipes.items)| ::
                old(pipes.items)[i] == pipe && View() == old(View()).(round := F.Activated(old(View()).round, i))
    {
      var index := pipes.Index(pipe);
      pipes.Swap(index, active);
      active := active + 1;
      pipes.ValidDistinct();
    }

    method Terminated(pipe: Pipe)
      requires Valid() && pipe in pipes.items
      modifies this, pipes, pipes.items
      ensures pipes.Valid() && exists i | 0 <= i < |old(pipes.items)| ::
                old(pipes.items)[i] == pipe && View() == S.Terminated(old(View()), i)
    {
      var index := pipes.Index(pipe);
      // In the middle of a message the rest of it has to be dropped.
      if index == current && more {
        dropping := true;
      }
      if index < active {
        active := active - 1;
        if current == active {
          current := 0;
        }
      }
      pipes.EraseAt(index);
    }

    method Deactivate()
      requires Valid() && active > 0 && !more && !dropping
      modifies this, pipes, pipes.items
      ensures Valid() && View() == old(View()).(round := F.Deactivated(old(View()).round))
      ensures forall i {:trigger pipes.items[i]} :: 0 <= i < |pipes.items| ==> pipes.items[i] in old(pipes.items)
    {
      active := active - 1;
      if current < active {
        pipes.Swap(current, active);
      } else {
        current := 0;
      }
      pipes.ValidDistinct();
    }

    /** The current pipe took a part; after the last one it is the turn of the next pipe. */
    method Written(msgMore: bool)
      requires current < active
      modifies `more, `current
      ensures View() == old(View()).(round := F.Fetched(old(View()).round, msgMore))
    {
      more := msgMore;
      if !more {
        NextInRound(current, active);
        current := (current + 1) % active;
      }
    }

    static lemma NextInRound(k: nat, n: nat)
      requires k < n
      ensures (k + 1) % n == if k + 1 >= n then 0 else k + 1
    {
      if k + 1 < n {
        SmallNumber(k + 1, n);
      } else {
        AddBlock(0, n);
      }
    }

    /** `room` are the pipes that take a part at this moment.  False if none does. */
    method Send(msgMore: bool, room: set<Pipe>) returns (ok: bool)
      requires Valid() && Continuable(View(), room)
      modifies this, pipes, pipes.items
      ensures Valid() && View() == S.Send(old(View()), room, msgMore).0
      ensures ok <==> !S.Send(old(View()), room, msgMore).1.Again?
    {
      SendKeeps(View(), room, msgMore);
      if dropping {
        more := msgMore;
        if !more {
          dropping := false;
        }
        return true;
      }
      ghost var takers := Takers(room, msgMore);
      while active > 0
        invariant Valid() && !dropping && Continuable(View(), room)
        invariant forall i {:trigger pipes.items[i]} :: 0 <= i < |pipes.items| ==> pipes.items[i] in old(pipes.items)
        invariant F.Recv(View().round, takers) == F.Recv(old(View()).round, takers)
        decreases active
      {
        var pipe := pipes.items[current];
        assert pipe in room <==> pipe in takers;
        if pipe in room {
          Written(msgMore);
          return true;
        }
        Deactivate();
      }
      ok := false;
    }
  }
}
