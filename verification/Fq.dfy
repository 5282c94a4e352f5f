/**
 Fair queueing over a set of inbound pipes (fq.cpp).

 The pipes are in one array: the active ones, that may have something to read,
 come first, and `current` goes round among them.
 */
module FqSpec {
  import opened Common
  import opened PipeArray

  datatype State<P> = State(pipes: seq<P>, active: nat, current: nat, more: bool)

  predicate Valid<P(==)>(s: State<P>) {
    && s.active <= |s.pipes| && Distinct(s.pipes)
    && (s.current < s.active || s.current == 0) && (s.more ==> s.active > 0)
  }

  function Attach<P>(s: State<P>, p: P): State<P>
    requires s.active <= |s.pipes|
  {
    s.(pipes := Swapped(s.pipes + [p], s.active, |s.pipes|), active := s.active + 1)
  }

  /** The pipe at i, which is passive, has something to read again. */
  function Activated<P>(s: State<P>, i: nat): State<P>
    requires s.active <= i < |s.pipes|
  {
    s.(pipes := Swapped(s.pipes, i, s.active), active := s.active + 1)
  }

  /** The current pipe had nothing to read. */
  function Deactivated<P>(s: State<P>): State<P>
    requires s.current < s.active <= |s.pipes|
  {
    var active := s.active - 1;
    s.(pipes := Swapped(s.pipes, s.current, active), active := active,
       current := if s.current == active then 0 else s.current)
  }

  /** A part was read from the current pipe. */
  function Fetched<P>(s: State<P>, more: bool): State<P> {
    s.(more := more, current := if more then s.current else if s.current + 1 >= s.active then 0 else s.current + 1)
  }

  /** What is read: the pipe it comes from and whether more parts follow. */
  datatype Delivery<P> = Delivery(pipe: P, more: bool)

  /** When a message was read in part, its next part is available at once: a pipe holds whole
      messages only. */
  predicate Continuable<P(==)>(s: State<P>, available: map<P, bool>)
    requires Valid(s)
  {
    s.more ==> s.pipes[s.current] in available
  }

  /** `recv`: `available` gives the next part of every pipe that has one. */
  function Recv<P>(s: State<P>, available: map<P, bool>): (State<P>, Option<Delivery<P>>)
    requires Valid(s) && Continuable(s, available)
    decreases s.active
  {
    if s.active == 0 then (s, None)
    else
      var p := s.pipes[s.current];
      if p in available then (Fetched(s, available[p]), Some(Delivery(p, available[p])))
      else
        DeactivatedValid(s);
        Recv(Deactivated(s), available)
  }

  /** `has_in`: looks for a pipe with something to read. */
  function HasIn<P>(s: State<P>, available: map<P, bool>): (State<P>, bool)
    requires Valid(s)
    decreases s.active
  {
    if s.more then (s, true)
    else if s.active == 0 then (s, false)
    else if s.pipes[s.current] in available then (s, true)
    else
      DeactivatedValid(s);
      HasIn(Deactivated(s), available)
  }

  lemma DeactivatedValid<P>(s: State<P>)
    requires Valid(s) && s.active > 0 && !s.more
    ensures Valid(Deactivated(s)) && Deactivated(s).active == s.active - 1
  {
    SwapPermutes(s.pipes, s.current, s.active - 1);
  }

  // Runs

  datatype Event<P> =
    | Receive(available: map<P, bool>)
    | Poll(available: map<P, bool>)   // `has_in`
    | Activate(pipe: P)

  /** What pipes do: a message goes on where it began, and only a passive pipe is activated. */
  predicate Possible<P(==)>(s: State<P>, e: Event<P>)
    requires Valid(s)
  {
    match e
    case Receive(available) => Continuable(s, available)
    case Poll(_) => true
    case Activate(p) => p in s.pipes[s.active..]
  }

  function Position<P(==)>(pipes: seq<P>, p: P): (i: nat)
    requires p in pipes
    ensures i < |pipes| && pipes[i] == p
  {
    if pipes[0] == p then 0 else 1 + Position(pipes[1..], p)
  }

  function Step<P(==)>(s: State<P>, e: Event<P>): (State<P>, seq<Delivery<P>>)
    requires Valid(s) && Possible(s, e)
  {
    match e
    case Receive(available) =>
      var (s', d) := Recv(s, available);
      (s', if d.Some? then [d.value] else [])
    case Poll(available) => (HasIn(s, available).0, [])
    case Activate(p) => (Activated(s, s.active + Position(s.pipes[s.active..], p)), [])
  }

  lemma {:induction false} RecvValid<P>(s: State<P>, available: map<P, bool>)
    requires Valid(s) && Continuable(s, available)
    ensures Valid(Recv(s, available).0) && |Recv(s, available).0.pipes| == |s.pipes|
    decreases s.active
  {
    if s.active > 0 && s.pipes[s.current] !in available {
      DeactivatedValid(s);
      RecvValid(Deactivated(s), available);
    }
  }

  lemma {:induction false} HasInValid<P>(s: State<P>, available: map<P, bool>)
    requires Valid(s)
    ensures Valid(HasIn(s, available).0) && |HasIn(s, available).0.pipes| == |s.pipes|
    decreases s.active
  {
    if !s.more && s.active > 0 && s.pipes[s.current] !in available {
      DeactivatedValid(s);
      HasInValid(Deactivated(s), available);
    }
  }

  lemma StepValid<P>(s: State<P>, e: Event<P>)
    requires Valid(s) && Possible(s, e)
    ensures Valid(Step(s, e).0) && |Step(s, e).0.pipes| == |s.pipes|
  {
    match e
    case Receive(available) => RecvValid(s, available);
    case Poll(available) => HasInValid(s, available);
    case Activate(p) => SwapPermutes(s.pipes, s.active + Position(s.pipes[s.active..], p), s.active);
  }

  predicate AllPossible<P(==)>(s: State<P>, run: seq<Event<P>>)
    requires Valid(s)
    decreases |run|
  {
    run == [] || (Possible(s, run[0]) && (StepValid(s, run[0]); AllPossible(Step(s, run[0]).0, run[1..])))
  }

  function Exec<P(==)>(s: State<P>, run: seq<Event<P>>): (State<P>, seq<Delivery<P>>)
    requires Valid(s) && AllPossible(s, run)
    decreases |run|
  {
    if run == [] then (s, [])
    else
      StepValid(s, run[0]);
      var (s1, out1) := Step(s, run[0]);
      var (s2, out2) := Exec(s1, run[1..]);
      (s2, out1 + out2)
  }

  /** The number of whole messages read. */
  function Messages<P>(out: seq<Delivery<P>>): nat {
    if out == [] then 0 else (if out[0].more then 0 else 1) + Messages(out[1..])
  }

  predicate From<P(==)>(out: seq<Delivery<P>>, p: P) { exists i | 0 <= i < |out| :: out[i].pipe == p }

  // Fairness

  /** p is active, at position i. */
  predicate ActiveAt<P(==)>(s: State<P>, p: P, i: nat) { i < s.active <= |s.pipes| && s.pipes[i] == p }

  /** How far the round is from the position i; it does not grow when other pipes come or go. */
  function Distance<P>(s: State<P>, i: nat): int {
    if i >= s.current then i - s.current else |s.pipes| - s.current + i
  }

  /** p has something to read whenever the pipes are looked at. */
  predicate Readable<P(==)>(e: Event<P>, p: P) { e.Activate? || p in e.available }

  lemma DeactivatedDistance<P>(s: State<P>, p: P, i: nat) returns (j: nat)
    requires Valid(s) && !s.more && ActiveAt(s, p, i) && s.current != i
    ensures ActiveAt(Deactivated(s), p, j) && Distance(Deactivated(s), j) <= Distance(s, i)
  {
    j := if i == s.active - 1 then s.current else i;
  }

  lemma {:induction false} HasInDistance<P>(s: State<P>, available: map<P, bool>, p: P, i: nat) returns (j: nat)
    requires Valid(s) && ActiveAt(s, p, i) && p in available
    ensures ActiveAt(HasIn(s, available).0, p, j) && Distance(HasIn(s, available).0, j) <= Distance(s, i)
    decreases s.active
  {
    j := i;
    if !s.more && s.pipes[s.current] !in available {
      DeactivatedValid(s);
      var k := DeactivatedDistance(s, p, i);
      j := HasInDistance(Deactivated(s), available, p, k);
    }
  }

  /** `recv` reads from p, or brings its turn nearer by every whole message it reads. */
  lemma {:induction false} RecvDistance<P>(s: State<P>, available: map<P, bool>, p: P, i: nat) returns (j: nat)
    requires Valid(s) && Continuable(s, available) && ActiveAt(s, p, i) && p in available
    ensures var (s', d) := Recv(s, available);
            d.Some? && ActiveAt(s', p, j) &&
            (d.value.pipe == p || Distance(s', j) + (if d.value.more then 0 else 1) <= Distance(s, i))
    decreases s.active
  {
    j := i;
    if s.pipes[s.current] !in available {
      DeactivatedValid(s);
      var k := DeactivatedDistance(s, p, i);
      j := RecvDistance(Deactivated(s), available, p, k);
    }
  }

  lemma StepDistance<P>(s: State<P>, e: Event<P>, p: P, i: nat) returns (j: nat)
    requires Valid(s) && Possible(s, e) && ActiveAt(s, p, i) && Readable(e, p)
    ensures var (s', out) := Step(s, e);
            ActiveAt(s', p, j) && (From(out, p) || Distance(s', j) + Messages(out) <= Distance(s, i))
  {
    match e
    case Receive(available) =>
      j := RecvDistance(s, available, p, i);
      var d := Recv(s, available).1.value;
      assert [d][1..] == [];
      assert [d][0].pipe == p ==> From([d], p);
    case Poll(available) => j := HasInDistance(s, available, p, i);
    case Activate(q) => j := i;
  }

  lemma {:induction false} MessagesConcat<P>(a: seq<Delivery<P>>, b: seq<Delivery<P>>)
    ensures Messages(a + b) == Messages(a) + Messages(b)
  {
    if a == [] {
      assert a + b == b;
    } else {
      MessagesConcat(a[1..], b);
      assert (a + b)[1..] == a[1..] + b;
    }
  }

  lemma {:induction false} RunDistance<P>(s: State<P>, run: seq<Event<P>>, p: P, i: nat)
    requires Valid(s) && AllPossible(s, run) && ActiveAt(s, p, i)
    requires forall k :: 0 <= k < |run| ==> Readable(run[k], p)
    ensures From(Exec(s, run).1, p) || Messages(Exec(s, run).1) <= Distance(s, i)
    decreases |run|
  {
    if run != [] {
      StepValid(s, run[0]);
      var (s1, out1) := Step(s, run[0]);
      var j := StepDistance(s, run[0], p, i);
      RunDistance(s1, run[1..], p, j);
      var out2 := Exec(s1, run[1..]).1;
      MessagesConcat(out1, out2);
      assert forall k :: 0 <= k < |out2| ==> (out1 + out2)[|out1| + k] == out2[k];
    }
  }

  /** Fairness: an active pipe that stays readable is read before as many whole messages have
      been delivered as there are pipes, whatever happens to the other pipes. */
  lemma FairlyRead<P>(s: State<P>, run: seq<Event<P>>, p: P)
    requires Valid(s) && AllPossible(s, run) && p in s.pipes[..s.active]
    requires forall k :: 0 <= k < |run| ==> Readable(run[k], p)
    requires Messages(Exec(s, run).1) >= |s.pipes|
    ensures From(Exec(s, run).1, p)
  {
    var i :| 0 <= i < s.active && s.pipes[i] == p;
    RunDistance(s, run, p, i);
  }

  /** A message is read from one pipe: what follows a part comes from the same pipe. */
  ghost predicate Whole<P>(s: State<P>, out: seq<Delivery<P>>)
    requires Valid(s)
  {
    && (s.more && out != [] ==> out[0].pipe == s.pipes[s.current])
    && forall i {:trigger out[i].more} :: 0 <= i < |out| - 1 && out[i].more ==> out[i + 1].pipe == out[i].pipe
  }

  lemma {:induction false} RecvFirst<P>(s: State<P>, available: map<P, bool>)
    requires Valid(s) && Continuable(s, available)
    ensures var (s', d) := Recv(s, available);
            d.Some? ==> s'.more == d.value.more && (s.more ==> d.value.pipe == s.pipes[s.current]) &&
                        (s'.more ==> s'.current < s'.active <= |s'.pipes| && s'.pipes[s'.current] == d.value.pipe)
    ensures Recv(s, available).1.None? ==> !s.more && !Recv(s, available).0.more
    decreases s.active
  {
    if s.active > 0 && s.pipes[s.current] !in available {
      DeactivatedValid(s);
      RecvFirst(Deactivated(s), available);
    }
  }

  lemma {:induction false} HasInMore<P>(s: State<P>, available: map<P, bool>)
    requires Valid(s)
    ensures HasIn(s, available).0.more == s.more && (s.more ==> HasIn(s, available).0 == s)
    decreases s.active
  {
    if !s.more && s.active > 0 && s.pipes[s.current] !in available {
      DeactivatedValid(s);
      HasInMore(Deactivated(s), available);
    }
  }

  lemma {:induction false} PartsTogether<P>(s: State<P>, run: seq<Event<P>>)
    requires Valid(s) && AllPossible(s, run)
    ensures Whole(s, Exec(s, run).1)
    decreases |run|
  {
    if run != [] {
      StepValid(s, run[0]);
      var (s1, out1) := Step(s, run[0]);
      PartsTogether(s1, run[1..]);
      var out2 := Exec(s1, run[1..]).1;
      match run[0]
      case Receive(available) =>
        RecvFirst(s, available);
        JoinWhole(out1, out2);
      case Poll(available) =>
        HasInMore(s, available);
        assert out1 + out2 == out2;
      case Activate(_) =>
        assert out1 + out2 == out2;
    }
  }

  lemma JoinWhole<P>(out1: seq<Delivery<P>>, out2: seq<Delivery<P>>)
    requires |out1| <= 1
    requires out1 != [] && out1[0].more && out2 != [] ==> out2[0].pipe == out1[0].pipe
    requires forall i {:trigger out2[i].more} :: 0 <= i < |out2| - 1 && out2[i].more ==> out2[i + 1].pipe == out2[i].pipe
    ensures var out := out1 + out2;
            forall i {:trigger out[i].more} :: 0 <= i < |out| - 1 && out[i].more ==> out[i + 1].pipe == out[i].pipe
  {
    var out := out1 + out2;
    forall i | 0 <= i < |out| - 1 && out[i].more ensures out[i + 1].pipe == out[i].pipe {
      if i >= |out1| {
        assert out2[i - |out1|].more;
      }
    }
  }

  // Removal

  /** `terminated` of the pipe at i. */
  function Terminated<P>(s: State<P>, i: nat): State<P>
    requires i < |s.pipes| && s.active <= |s.pipes|
  {
    var active := if i < s.active then s.active - 1 else s.active;
    s.(pipes := Erased(s.pipes, i), active := active, current := if i < s.active && s.current == active then 0 else s.current)
  }

  function ActivePipes<P(==)>(s: State<P>): set<P>
    requires s.active <= |s.pipes|
  {
    Region(s.pipes, s.active)
  }

  /** Removing a pipe leaves the other active pipes active if and only if there is no passive pipe that
      could take its place, or it is the last active one, or passive itself. */
  lemma TerminatedKeepsActive<P>(s: State<P>, i: nat)
    requires Valid(s) && i < |s.pipes|
    ensures Terminated(s, i).active <= |Terminated(s, i).pipes|
    ensures ActivePipes(Terminated(s, i)) == ActivePipes(s) - {s.pipes[i]} <==>
              s.active == |s.pipes| || i + 1 >= s.active
  {
    var s' := Terminated(s, i);
    var last := |s.pipes| - 1;
    if s.active == |s.pipes| || i + 1 >= s.active {
      forall p ensures p in ActivePipes(s') <==> p in ActivePipes(s) && p != s.pipes[i] {
        if p in ActivePipes(s) && p != s.pipes[i] {
          var k :| 0 <= k < s.active && s.pipes[k] == p;
          assert s'.pipes[if k == last then i else k] == p;
        }
        if p in ActivePipes(s') {
          var k :| 0 <= k < s'.active && s'.pipes[k] == p;
          assert s.pipes[if k == i then last else k] == p;
        }
      }
      assert ActivePipes(s') == ActivePipes(s) - {s.pipes[i]};
    } else {
      assert s'.pipes[i] == s.pipes[last] && s'.pipes[i] in s'.pipes[..s'.active];
      assert s.pipes[last] in ActivePipes(s') && s.pipes[last] !in ActivePipes(s);
    }
  }

  /** Removing another pipe in the middle of a message leaves the message where it is if and only if
      the pipe of the message is not the last active one, or takes the first place. */
  lemma TerminatedKeepsCurrent<P>(s: State<P>, i: nat)
    requires Valid(s) && s.more && i < |s.pipes| && i != s.current
    ensures var s' := Terminated(s, i);
            s'.current < |s'.pipes| &&
            (s'.pipes[s'.current] == s.pipes[s.current] <==>
              i >= s.active || s.current + 1 < s.active || (i == 0 && s.active == |s.pipes|))
  {
    var s' := Terminated(s, i);
    if i < s.active && s.current + 1 == s.active && i != 0 {
      assert s'.pipes[0] == s.pipes[0] && 0 < s.current;
    }
  }

  // What every call does

  /** The active pipes that have something to read. */
  function Candidates<P(==)>(s: State<P>, available: map<P, bool>): set<P>
    requires s.active <= |s.pipes|
  {
    set p | p in ActivePipes(s) && p in available
  }

  lemma CurrentIsActive<P>(s: State<P>)
    requires Valid(s) && s.active > 0
    ensures s.pipes[s.current] in ActivePipes(s)
  {
    InRegion(s.pipes, s.active, s.current);
  }

  lemma DeactivatedPipes<P>(s: State<P>)
    requires Valid(s) && s.active > 0 && !s.more
    ensures var s' := Deactivated(s);
            && ActivePipes(s') == ActivePipes(s) - {s.pipes[s.current]}
            && multiset(s'.pipes) == multiset(s.pipes)
  {
    var last := s.active - 1;
    var r := Swapped(s.pipes, s.current, last);
    SwapPermutes(s.pipes, s.current, last);
    SwapInRegion(s.pipes, s.current, last, s.active);
    RegionShrinks(r, s.active);
  }

  /** An attached pipe is active; the others are what they were, and so is the pipe that is read. */
  lemma AttachExactly<P>(s: State<P>, p: P)
    requires Valid(s) && p !in s.pipes
    ensures var s' := Attach(s, p);
            && Valid(s') && ActivePipes(s') == ActivePipes(s) + {p}
            && multiset(s'.pipes) == multiset(s.pipes) + multiset{p}
            && s'.more == s.more && (s.active > 0 ==> s'.pipes[s'.current] == s.pipes[s.current])
  {
    var pipes := s.pipes + [p];
    SwapPermutes(pipes, s.active, |s.pipes|);
    assert Swapped(pipes, s.active, |s.pipes|) == Swapped(pipes, |s.pipes|, s.active);
    RegionGains(pipes, |s.pipes|, s.active);
    assert pipes[..s.active] == s.pipes[..s.active];
  }

  /** A pipe that is activated is active; the others are what they were, and so is the pipe that is read. */
  lemma ActivatedExactly<P>(s: State<P>, i: nat)
    requires Valid(s) && s.active <= i < |s.pipes|
    ensures var s' := Activated(s, i);
            && Valid(s') && ActivePipes(s') == ActivePipes(s) + {s.pipes[i]}
            && multiset(s'.pipes) == multiset(s.pipes)
            && s'.more == s.more && (s.active > 0 ==> s'.pipes[s'.current] == s.pipes[s.current])
  {
    SwapPermutes(s.pipes, i, s.active);
    RegionGains(s.pipes, i, s.active);
  }

  /** `recv` returns a part if and only if some active pipe has one, and then the next part of such a pipe; no
      pipe that has something to read is deactivated, and none is lost. */
  lemma {:induction false} RecvExactly<P>(s: State<P>, available: map<P, bool>)
    requires Valid(s) && Continuable(s, available)
    ensures
      var (s', d) := Recv(s, available);
      && (d.Some? <==> Candidates(s, available) != {})
      && (d.Some? ==> d.value.pipe in Candidates(s, available) && d.value.more == available[d.value.pipe])
      && Valid(s') && multiset(s'.pipes) == multiset(s.pipes)
      && Candidates(s, available) <= ActivePipes(s') <= ActivePipes(s)
    decreases s.active
  {
    if s.active == 0 {
      assert ActivePipes(s) == {};
    } else {
      CurrentIsActive(s);
      if s.pipes[s.current] !in available {
        DeactivatedValid(s);
        DeactivatedPipes(s);
        RecvExactly(Deactivated(s), available);
        assert Candidates(Deactivated(s), available) == Candidates(s, available);
      } else {
        assert s.pipes[s.current] in Candidates(s, available);
      }
    }
  }

  /** `has_in` is true if and only if a message was begun or some active pipe has something to read; no pipe that
      has is deactivated, and none is lost. */
  lemma {:induction false} HasInExactly<P>(s: State<P>, available: map<P, bool>)
    requires Valid(s)
    ensures
      var (s', found) := HasIn(s, available);
      && (found <==> s.more || Candidates(s, available) != {})
      && Valid(s') && multiset(s'.pipes) == multiset(s.pipes) && s'.more == s.more
      && Candidates(s, available) <= ActivePipes(s') <= ActivePipes(s)
    decreases s.active
  {
    if s.more {
    } else if s.active == 0 {
      assert ActivePipes(s) == {};
    } else {
      CurrentIsActive(s);
      if s.pipes[s.current] !in available {
        DeactivatedValid(s);
        DeactivatedPipes(s);
        HasInExactly(Deactivated(s), available);
        assert Candidates(Deactivated(s), available) == Candidates(s, available);
      } else {
        assert s.pipes[s.current] in Candidates(s, available);
      }
    }
  }
}

module Fq {
  import opened Common
  import opened PipeArray
  import opened FqSpec
  import S = FqSpec

  class FairQueue {
    const pipes: Pipes
    var active: nat
    var current: nat
    var more: bool

    ghost function View(): State<Pipe>
      reads this, pipes
    {
      State(pipes.items, active, current, more)
    }

    ghost predicate Valid()
      reads this, pipes, pipes.items
    {
      pipes.Valid() && S.Valid(View())
    }

    constructor ()
      ensures Valid() && View() == State([], 0, 0, false) && fresh(pipes)
    {
      pipes := new Pipes();
      active, current, more := 0, 0, false;
    }

    method Attach(pipe: Pipe)
      requires Valid() && pipe !in pipes.items
      modifies this, pipes, pipes.items, pipe
      ensures Valid() && View() == S.Attach(old(View()), pipe)
    {
      pipes.PushBack(pipe);
      pipes.Swap(active, pipes.Size() - 1);
      active := active + 1;
      pipes.ValidDistinct();
    }

    method Activated(pipe: Pipe)
      requires Valid() && pipe in pipes.items[active..]
      modifies this, pipes, pipes.items
      ensures Valid() && exists i | old(active) <= i < |old(pipes.items)| ::
                old(pipes.items)[i] == pipe && View() == S.Activated(old(View()), i)
    {
      var index := pipes.Index(pipe);
      pipes.Swap(index, active);
      active := active + 1;
      pipes.ValidDistinct();
    }

    method Deactivate()
      requires Valid() && active > 0 && !more
      modifies this, pipes, pipes.items
      ensures Valid() && View() == S.Deactivated(old(View()))
      ensures forall i {:trigger pipes.items[i]} :: 0 <= i < |pipes.items| ==> pipes.items[i] in old(pipes.items)
    {
      active := active - 1;
      pipes.Swap(current, active);
      if current == active {
        current := 0;
      }
      pipes.ValidDistinct();
    }

    /** `available` is what the pipes have to read at this moment. */
    method Recv(available: map<Pipe, bool>) returns (delivery: Option<Delivery<Pipe>>)
      requires Valid() && Continuable(View(), available)
      modifies this, pipes, pipes.items
      ensures Valid() && (View(), delivery) == S.Recv(old(View()), available)
    {
      var count := active;
      while count != 0
        invariant Valid() && Continuable(View(), available) && count == active
        invariant forall i {:trigger pipes.items[i]} :: 0 <= i < |pipes.items| ==> pipes.items[i] in old(pipes.items)
        invariant S.Recv(View(), available) == S.Recv(old(View()), available)
        decreases count
      {
        var pipe := pipes.items[current];
        // A part of a message is followed by the next one at once.
        assert more ==> pipe in available;
        if pipe in available {
          more := available[pipe];
          if !more {
            current := current + 1;
            if current >= active {
              current := 0;
            }
          }
          return Some(Delivery(pipe, available[pipe]));
        }
        Deactivate();
        count := count - 1;
      }
      delivery := None;
    }

    method HasIn(available: map<Pipe, bool>) returns (found: bool)
      requires Valid()
      modifies this, pipes, pipes.items
      ensures Valid() && (View(), found) == S.HasIn(old(View()), available)
    {
      // There are subsequent parts of the partly-read message available.
      if more {
        return true;
      }
      var count := active;
      while count != 0
        invariant Valid() && !more && count == active
        invariant forall i {:trigger pipes.items[i]} :: 0 <= i < |pipes.items| ==> pipes.items[i] in old(pipes.items)
        invariant S.HasIn(View(), available) == S.HasIn(old(View()), available)
        decreases count
      {
        if pipes.items[current] in available {
          return true;
        }
        Deactivate();
        count := count - 1;
      }
      found := false;
    }
  }
}
