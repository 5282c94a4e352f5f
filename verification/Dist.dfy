/**
 Distribution of every message to all outbound pipes (dist.cpp).

 The array holds the active pipes, which get the message that is being sent,
 then the other eligible ones, which get the next message, then the passive
 ones, which are full.
 */
module DistSpec {
  import opened PipeArray

  datatype State<P> = State(pipes: seq<P>, active: nat, eligible: nat, more: bool)

  predicate Valid<P(==)>(s: State<P>) {
    s.active <= s.eligible <= |s.pipes| && Distinct(s.pipes) && (!s.more ==> s.active == s.eligible)
  }

  function Attach<P>(s: State<P>, p: P): State<P>
    requires s.active <= s.eligible <= |s.pipes|
  {
    var pipes := s.pipes + [p];
    if s.more then s.(pipes := Swapped(pipes, s.eligible, |s.pipes|), eligible := s.eligible + 1)
    else s.(pipes := Swapped(pipes, s.active, |s.pipes|), active := s.active + 1, eligible := s.eligible + 1)
  }

  /** The pipe at i, which is passive, has room again. */
  function Activated<P>(s: State<P>, i: nat): State<P>
    requires s.active <= s.eligible <= i < |s.pipes|
  {
    var pipes := Swapped(s.pipes, i, s.eligible);
    if s.more then s.(pipes := pipes, eligible := s.eligible + 1)
    else s.(pipes := Swapped(pipes, s.eligible, s.active), active := s.active + 1, eligible := s.eligible + 1)
  }

  /** The pipe at i refused the part and becomes passive. */
  function Refused<P>(s: State<P>, i: nat): State<P>
    requires i < s.active <= s.eligible <= |s.pipes|
  {
    s.(pipes := Swapped(Swapped(s.pipes, i, s.active - 1), s.active - 1, s.eligible - 1),
       active := s.active - 1, eligible := s.eligible - 1)
  }

  /** The loop of `distribute` from index i on; the pipes in `room` accept the part. */
  function Distribute<P>(s: State<P>, room: set<P>, i: nat): State<P>
    requires i <= s.active <= s.eligible <= |s.pipes|
    decreases s.active - i
  {
    if i == s.active then s
    else if s.pipes[i] in room then Distribute(s, room, i + 1)
    else Distribute(Refused(s, i), room, i)
  }

  function Send<P>(s: State<P>, room: set<P>, more: bool): State<P>
    requires Valid(s)
  {
    var s1 := Distribute(s, room, 0);
    s1.(active := if more then s1.active else s1.eligible, more := more)
  }

  function Active<P(==)>(s: State<P>): set<P>
    requires s.active <= |s.pipes|
  {
    Region(s.pipes, s.active)
  }

  function Eligible<P(==)>(s: State<P>): set<P>
    requires s.eligible <= |s.pipes|
  {
    Region(s.pipes, s.eligible)
  }

  /** Both regions lose their last pipe, which is the same. */
  lemma RegionsShrink<P>(s: seq<P>, s1: seq<P>, s2: seq<P>, p: P, a: nat, e: nat)
    requires 0 < a <= e <= |s| == |s1| == |s2| && Distinct(s1) && Distinct(s2)
    requires Region(s1, a) == Region(s, a) && Region(s1, e) == Region(s, e) && s1[a - 1] == p
    requires Region(s2, a - 1) == Region(s1, a - 1) && Region(s2, e) == Region(s1, e) && s2[e - 1] == p
    ensures Region(s2, a - 1) == Region(s, a) - {p} && Region(s2, e - 1) == Region(s, e) - {p}
  {
    RegionShrinks(s1, a);
    RegionShrinks(s2, e);
  }

  lemma RefusedPermutes<P>(s: State<P>, i: nat)
    requires i < s.active <= s.eligible <= |s.pipes|
    ensures multiset(Refused(s, i).pipes) == multiset(s.pipes)
    ensures Distinct(s.pipes) ==> Distinct(Refused(s, i).pipes)
  {
    SwapPermutes(s.pipes, i, s.active - 1);
    SwapPermutes(Swapped(s.pipes, i, s.active - 1), s.active - 1, s.eligible - 1);
  }

  lemma FirstSwap<P>(s: seq<P>, i: nat, a: nat, e: nat)
    requires i < a <= e <= |s| && Distinct(s)
    ensures var s1 := Swapped(s, i, a - 1);
            Distinct(s1) && Region(s1, a) == Region(s, a) && Region(s1, e) == Region(s, e) && s1[a - 1] == s[i]
  {
    SwapPermutes(s, i, a - 1);
    SwapInRegion(s, i, a - 1, a);
    SwapInRegion(s, i, a - 1, e);
  }

  lemma SecondSwap<P>(s1: seq<P>, a: nat, e: nat)
    requires 0 < a <= e <= |s1| && Distinct(s1)
    ensures var s2 := Swapped(s1, a - 1, e - 1);
            Distinct(s2) && Region(s2, a - 1) == Region(s1, a - 1) && Region(s2, e) == Region(s1, e) && s2[e - 1] == s1[a - 1]
  {
    SwapPermutes(s1, a - 1, e - 1);
    SwapInRegion(s1, a - 1, e - 1, a - 1);
    SwapInRegion(s1, a - 1, e - 1, e);
  }

  lemma RefusedKeeps<P>(s: State<P>, i: nat)
    requires i < s.active <= s.eligible <= |s.pipes| && Distinct(s.pipes)
    ensures Active(Refused(s, i)) == Active(s) - {s.pipes[i]} && Eligible(Refused(s, i)) == Eligible(s) - {s.pipes[i]}
  {
    var s1 := Swapped(s.pipes, i, s.active - 1);
    FirstSwap(s.pipes, i, s.active, s.eligible);
    SecondSwap(s1, s.active, s.eligible);
    RegionsShrink(s.pipes, s1, Refused(s, i).pipes, s.pipes[i], s.active, s.eligible);
  }

  lemma RefusedPrefix<P>(s: State<P>, i: nat)
    requires i < s.active <= s.eligible <= |s.pipes|
    ensures Refused(s, i).pipes[..i] == s.pipes[..i]
  {
  }

  /** A part reaches exactly the active pipes that have room, and these stay active; the others are
      passive afterwards. */
  lemma {:induction false} DistributeKeeps<P>(s: State<P>, room: set<P>, i: nat)
    requires i <= s.active <= s.eligible <= |s.pipes| && Distinct(s.pipes)
    requires Region(s.pipes, i) <= room
    ensures var s' := Distribute(s, room, i);
            s'.active <= s'.eligible <= |s'.pipes| && |s'.pipes| == |s.pipes| && Distinct(s'.pipes) &&
            Active(s') == Active(s) * room && Eligible(s') == Eligible(s) - (Active(s) - room) &&
            s'.more == s.more && s'.eligible - s'.active == s.eligible - s.active
    decreases s.active - i
  {
    if i == s.active {
      assert Active(s) <= room;
    } else if s.pipes[i] in room {
      RegionShrinks(s.pipes, i + 1);
      DistributeKeeps(s, room, i + 1);
    } else {
      RefusedKeeps(s, i);
      RefusedPermutes(s, i);
      RefusedPrefix(s, i);
      InRegion(s.pipes, s.active, i);
      assert Region(Refused(s, i).pipes, i) == Region(s.pipes, i);
      DistributeKeeps(Refused(s, i), room, i);
    }
  }

  // Runs

  datatype Part<B> = Part(body: B, more: bool)

  /** `log` is what was written to each pipe; `messages` are the messages sent so far, `current` the
      parts of the one that is being sent. */
  datatype System<P, B> = System(
    dist: State<P>, log: map<P, seq<Part<B>>>, messages: seq<seq<Part<B>>>, current: seq<Part<B>>)

  datatype Event<P, B> =
    | AttachPipe(pipe: P)
    | ActivatePipe(pipe: P)
    | SendPart(part: Part<B>, room: set<P>)

  /** What pipes do: only a passive pipe is activated, and one that took the first part of a message
      takes the rest of it. */
  predicate Possible<P(==), B>(y: System<P, B>, e: Event<P, B>)
    requires Valid(y.dist)
  {
    match e
    case AttachPipe(p) => p !in y.dist.pipes
    case ActivatePipe(p) => p in y.dist.pipes[y.dist.eligible..]
    case SendPart(_, room) => y.dist.more ==> Active(y.dist) <= room
  }

  function Position<P(==)>(pipes: seq<P>, p: P): (i: nat)
    requires p in pipes
    ensures i < |pipes| && pipes[i] == p
  {
    if pipes[0] == p then 0 else 1 + Position(pipes[1..], p)
  }

  function Step<P(==), B>(y: System<P, B>, e: Event<P, B>): System<P, B>
    requires Valid(y.dist) && Possible(y, e)
  {
    match e
    case AttachPipe(p) => y.(dist := Attach(y.dist, p), log := y.log[p := []])
    case ActivatePipe(p) =>
      y.(dist := Activated(y.dist, y.dist.eligible + Position(y.dist.pipes[y.dist.eligible..], p)))
    case SendPart(part, room) =>
      var log := map p | p in y.log ::
                   if p in Active(y.dist) && p in room then y.log[p] + [part] else y.log[p];
      System(Send(y.dist, room, part.more), log,
             if part.more then y.messages else y.messages + [y.current + [part]],
             if part.more then y.current + [part] else [])
  }

  /** The parts are those of some of the messages, whole and in order. */
  predicate MadeOf<B(==)>(parts: seq<Part<B>>, messages: seq<seq<Part<B>>>)
    decreases |messages|
  {
    if messages == [] then parts == []
    else
      var most, last := messages[..|messages| - 1], messages[|messages| - 1];
      MadeOf(parts, most) ||
      (|last| <= |parts| && parts[|parts| - |last|..] == last && MadeOf(parts[..|parts| - |last|], most))
  }

  lemma {:induction false} NothingIsMadeOf<B>(messages: seq<seq<Part<B>>>)
    ensures MadeOf([], messages)
    decreases |messages|
  {
    if messages != [] {
      NothingIsMadeOf(messages[..|messages| - 1]);
    }
  }

  lemma MadeOfMore<B>(parts: seq<Part<B>>, messages: seq<seq<Part<B>>>, message: seq<Part<B>>)
    requires MadeOf(parts, messages)
    ensures MadeOf(parts, messages + [message]) && MadeOf(parts + message, messages + [message])
  {
    assert (messages + [message])[..|messages|] == messages;
    var longer := parts + message;
    assert longer[..|longer| - |message|] == parts && longer[|longer| - |message|..] == message;
  }

  /** What a pipe was given: whole messages, and the beginning of the current one if it takes part in it. */
  ghost predicate Fed<P, B>(y: System<P, B>, p: P)
    requires y.dist.active <= |y.dist.pipes| && p in y.log
  {
    var parts := y.log[p];
    if y.dist.more && p in Active(y.dist) then
      |y.current| <= |parts| && parts[|parts| - |y.current|..] == y.current &&
      MadeOf(parts[..|parts| - |y.current|], y.messages)
    else MadeOf(parts, y.messages)
  }

  ghost predicate Inv<P, B>(y: System<P, B>) {
    && Valid(y.dist) && (!y.dist.more ==> y.current == [])
    && (forall p :: p in y.dist.pipes ==> p in y.log)
    && (forall p :: p in y.log ==> Fed(y, p))
  }

  lemma AttachKeepsInv<P, B>(y: System<P, B>, p: P)
    requires Inv(y) && p !in y.dist.pipes
    ensures Inv(Step(y, AttachPipe(p)))
  {
    var s := y.dist;
    var pipes := s.pipes + [p];
    NothingIsMadeOf<B>(y.messages);
    assert Distinct(pipes);
    SwapPermutes(pipes, if s.more then s.eligible else s.active, |s.pipes|);
    var s' := Attach(s, p);
    assert s'.pipes[..s.active] == s.pipes[..s.active];
    assert forall q :: q in s'.pipes ==> q in s.pipes || q == p;
    assert p !in s.pipes[..s.active];
  }

  lemma ActivatedValid<P>(s: State<P>, i: nat)
    requires Valid(s) && s.eligible <= i < |s.pipes|
    ensures var s' := Activated(s, i);
            Valid(s') && s'.more == s.more && s'.pipes[..s.active] == s.pipes[..s.active] &&
            (s.more ==> s'.active == s.active && Active(s') == Active(s)) &&
            forall q :: q in s'.pipes ==> q in s.pipes
  {
    var s' := Activated(s, i);
    SwapPermutes(s.pipes, i, s.eligible);
    SwapPermutes(Swapped(s.pipes, i, s.eligible), s.eligible, s.active);
    assert multiset(s'.pipes) == multiset(s.pipes);
    assert forall q :: q in s'.pipes ==> q in multiset(s.pipes);
  }

  lemma ActivateKeepsInv<P, B>(y: System<P, B>, p: P)
    requires Inv(y) && p in y.dist.pipes[y.dist.eligible..]
    ensures Inv(Step(y, ActivatePipe(p)))
  {
    var s := y.dist;
    var y' := Step(y, ActivatePipe(p));
    ActivatedValid(s, s.eligible + Position(s.pipes[s.eligible..], p));
    forall q | q in y.log ensures Fed(y', q) {
      FedSame(y, y', q);
    }
  }

  lemma FedSame<P, B>(y: System<P, B>, y': System<P, B>, q: P)
    requires y.dist.active <= |y.dist.pipes| && y'.dist.active <= |y'.dist.pipes| && q in y.log && Fed(y, q)
    requires y'.log == y.log && y'.messages == y.messages && y'.current == y.current
    requires y'.dist.more == y.dist.more && (y.dist.more ==> Active(y'.dist) == Active(y.dist))
    ensures Fed(y', q)
  {
  }

  lemma SendValid<P>(s: State<P>, room: set<P>, more: bool)
    requires Valid(s) && (s.more ==> Active(s) <= room)
    ensures Valid(Send(s, room, more))
    ensures more ==> Active(Send(s, room, more)) == Active(s) * room
    ensures forall p :: p in Send(s, room, more).pipes ==> p in s.pipes
  {
    DistributeKeeps(s, room, 0);
    DistributePermutes(s, room, 0);
    assert forall p :: p in Send(s, room, more).pipes ==> p in multiset(s.pipes);
  }

  lemma {:induction false} DistributePermutes<P>(s: State<P>, room: set<P>, i: nat)
    requires i <= s.active <= s.eligible <= |s.pipes|
    ensures multiset(Distribute(s, room, i).pipes) == multiset(s.pipes)
    decreases s.active - i
  {
    if i < s.active {
      if s.pipes[i] in room {
        DistributePermutes(s, room, i + 1);
      } else {
        RefusedPermutes(s, i);
        DistributePermutes(Refused(s, i), room, i);
      }
    }
  }

  /** One pipe, when a part is sent. */
  lemma SendFeeds<P, B>(y: System<P, B>, part: Part<B>, room: set<P>, p: P)
    requires Inv(y) && Possible(y, SendPart(part, room)) && p in y.log
    ensures var y' := Step(y, SendPart(part, room));
            y'.dist.active <= |y'.dist.pipes| && Fed(y', p)
  {
    SendValid(y.dist, room, part.more);
    var parts := y.log[p];
    var y' := Step(y, SendPart(part, room));
    var message := y.current + [part];
    assert Fed(y, p);
    if p in Active(y.dist) && p in room {
      // it has the beginning of the message already
      var before := parts[..|parts| - |y.current|];
      assert !y.dist.more ==> before == parts;
      assert parts == before + y.current;
      assert before + y.current + [part] == before + message;
      assert MadeOf(before, y.messages);
      assert y'.log[p] == before + message;
      assert y'.log[p][..|y'.log[p]| - |message|] == before;
      MadeOfMore(before, y.messages, message);
    } else {
      MadeOfMore(parts, y.messages, message);
    }
  }

  lemma StepKeepsInv<P, B>(y: System<P, B>, e: Event<P, B>)
    requires Inv(y) && Possible(y, e)
    ensures Inv(Step(y, e))
  {
    match e
    case AttachPipe(p) => AttachKeepsInv(y, p);
    case ActivatePipe(p) => ActivateKeepsInv(y, p);
    case SendPart(part, room) =>
      SendValid(y.dist, room, part.more);
      forall p | p in y.log ensures Fed(Step(y, e), p) {
        SendFeeds(y, part, room, p);
      }
  }

  ghost predicate AllPossible<P, B>(y: System<P, B>, run: seq<Event<P, B>>)
    decreases |run|
  {
    run == [] || (Valid(y.dist) && Possible(y, run[0]) && AllPossible(Step(y, run[0]), run[1..]))
  }

  ghost function Exec<P, B>(y: System<P, B>, run: seq<Event<P, B>>): System<P, B>
    requires AllPossible(y, run)
    decreases |run|
  {
    if run == [] then y else Exec(Step(y, run[0]), run[1..])
  }

  lemma {:induction false} RunKeepsInv<P, B>(y: System<P, B>, run: seq<Event<P, B>>)
    requires Inv(y) && AllPossible(y, run)
    ensures Inv(Exec(y, run))
    decreases |run|
  {
    if run != [] {
      StepKeepsInv(y, run[0]);
      RunKeepsInv(Step(y, run[0]), run[1..]);
    }
  }

  function Init<P, B>(): System<P, B> { System(State([], 0, 0, false), map[], [], []) }

  /** Between messages every pipe has been given whole messages only, in the order they were sent and
      none twice, whenever it was attached, refused a message or was activated again. */
  lemma WholeMessages<P, B>(run: seq<Event<P, B>>, p: P)
    requires AllPossible(Init<P, B>(), run) && p in Exec(Init<P, B>(), run).log
    ensures var y := Exec(Init<P, B>(), run);
            y.dist.active <= y.dist.eligible <= |y.dist.pipes| &&
            (!y.dist.more || p !in Active(y.dist) ==> MadeOf(y.log[p], y.messages))
  {
    RunKeepsInv(Init<P, B>(), run);
    assert Fed(Exec(Init<P, B>(), run), p);
  }

  // Nothing is withheld from a pipe that has room

  function Sent<P, B>(run: seq<Event<P, B>>): seq<Part<B>> {
    if run == [] then [] else (if run[0].SendPart? then [run[0].part] else []) + Sent(run[1..])
  }

  lemma Regroup<T>(a: seq<T>, b: seq<T>, c: seq<T>)
    ensures a + b + c == a + (b + c)
  {
  }

  lemma ActiveIsKnown<P, B>(y: System<P, B>, p: P)
    requires Inv(y) && p in Active(y.dist)
    ensures p in y.log
  {
    var k :| 0 <= k < y.dist.active && y.dist.pipes[k] == p;
    assert p in y.dist.pipes;
  }

  lemma RegionGrows<P>(s: seq<P>, a: nat, b: nat, p: P)
    requires a <= b <= |s| && p in Region(s, a)
    ensures p in Region(s, b)
  {
    var k :| 0 <= k < a && s[k] == p;
    assert s[..b][k] == p;
  }

  lemma StepGives<P, B>(y: System<P, B>, e: Event<P, B>, p: P)
    requires Inv(y) && Possible(y, e) && p in Active(y.dist) && (e.SendPart? ==> p in e.room)
    ensures var y' := Step(y, e);
            && y'.dist.active <= |y'.dist.pipes| && p in Active(y'.dist)
            && p in y.log && p in y'.log
            && y'.log[p] == y.log[p] + (if e.SendPart? then [e.part] else [])
  {
    var s := y.dist;
    var k :| 0 <= k < s.active && s.pipes[k] == p;
    assert p in s.pipes;
    match e
    case AttachPipe(q) =>
      var s' := Attach(s, q);
      assert s'.pipes[k] == p;
      InRegion(s'.pipes, s'.active, k);
    case ActivatePipe(q) =>
      var i := s.eligible + Position(s.pipes[s.eligible..], q);
      ActivatedValid(s, i);
      var s' := Activated(s, i);
      assert s'.pipes[k] == s'.pipes[..s.active][k] == p;
      InRegion(s'.pipes, s'.active, k);
    case SendPart(part, room) =>
      DistributeKeeps(s, room, 0);
      var s1 := Distribute(s, room, 0);
      assert p in Region(s1.pipes, s1.active);
      RegionGrows(s1.pipes, s1.active, if part.more then s1.active else s1.eligible, p);
  }

  /** A pipe that takes part and has room for every part gets every part that is sent, from the next
      one on, whatever happens to the other pipes. */
  lemma {:induction false} NothingWithheld<P, B>(y: System<P, B>, run: seq<Event<P, B>>, p: P)
    requires Inv(y) && AllPossible(y, run) && p in Active(y.dist)
    requires forall k :: 0 <= k < |run| && run[k].SendPart? ==> p in run[k].room
    ensures p in y.log && p in Exec(y, run).log && Exec(y, run).log[p] == y.log[p] + Sent(run)
    decreases |run|
  {
    ActiveIsKnown(y, p);
    if run == [] {
      assert y.log[p] + [] == y.log[p];
    } else {
      StepGives(y, run[0], p);
      StepKeepsInv(y, run[0]);
      NothingWithheld(Step(y, run[0]), run[1..], p);
      Regroup(y.log[p], if run[0].SendPart? then [run[0].part] else [], Sent(run[1..]));
    }
  }

  // What attaching and activating do

  /** An attached pipe is eligible at once, and active unless a message is being sent; no other pipe changes. */
  lemma AttachExactly<P>(s: State<P>, p: P)
    requires Valid(s) && p !in s.pipes
    ensures var s' := Attach(s, p);
            && Valid(s') && s'.more == s.more
            && Eligible(s') == Eligible(s) + {p}
            && Active(s') == Active(s) + (if s.more then {} else {p})
            && multiset(s'.pipes) == multiset(s.pipes) + multiset{p}
  {
    var pipes := s.pipes + [p];
    var n := if s.more then s.eligible else s.active;
    SwapPermutes(pipes, n, |s.pipes|);
    assert Swapped(pipes, n, |s.pipes|) == Swapped(pipes, |s.pipes|, n);
    RegionGains(pipes, |s.pipes|, n);
    assert pipes[..s.active] == s.pipes[..s.active] && pipes[..s.eligible] == s.pipes[..s.eligible];
    assert Attach(s, p).pipes[..s.active] == s.pipes[..s.active];
  }

  /** A pipe that has room again is eligible at once, and active unless a message is being sent. */
  lemma ActivatedExactly<P>(s: State<P>, i: nat)
    requires Valid(s) && s.eligible <= i < |s.pipes|
    ensures var s' := Activated(s, i);
            && Valid(s') && s'.more == s.more
            && Eligible(s') == Eligible(s) + {s.pipes[i]}
            && Active(s') == Active(s) + (if s.more then {} else {s.pipes[i]})
            && multiset(s'.pipes) == multiset(s.pipes)
  {
    var r := Swapped(s.pipes, i, s.eligible);
    SwapPermutes(s.pipes, i, s.eligible);
    RegionGains(s.pipes, i, s.eligible);
    assert r[..s.active] == s.pipes[..s.active];
    if !s.more {
      assert Swapped(r, s.eligible, s.active) == r;
    }
  }

  /** After the last part of a message all eligible pipes are active: those that were, but for the active ones
      without room. */
  lemma SendExactly<P>(s: State<P>, room: set<P>, more: bool)
    requires Valid(s) && (s.more ==> Active(s) <= room)
    ensures var s' := Send(s, room, more);
            && Valid(s') && s'.more == more
            && Eligible(s') == Eligible(s) - (Active(s) - room)
            && Active(s') == (if more then Active(s) * room else Eligible(s'))
            && multiset(s'.pipes) == multiset(s.pipes)
  {
    SendValid(s, room, more);
    DistributeKeeps(s, room, 0);
    DistributePermutes(s, room, 0);
  }
}

module Dist {
  import opened PipeArray
  import opened DistSpec
  import S = DistSpec

  class Distributor {
    const pipes: Pipes
    var active: nat
    var eligible: nat
    var more: bool

    ghost function View(): State<Pipe>
      reads this, pipes
    {
      State(pipes.items, active, eligible, more)
    }

    ghost predicate Valid()
      reads this, pipes, pipes.items
    {
      pipes.Valid() && S.Valid(View())
    }

    constructor ()
      ensures Valid() && View() == State([], 0, 0, false) && fresh(pipes)
    {
      pipes := new Pipes();
      active, eligible, more := 0, 0, false;
    }

    method Attach(pipe: Pipe)
      requires Valid() && pipe !in pipes.items
      modifies this, pipes, pipes.items, pipe
      ensures Valid() && View() == S.Attach(old(View()), pipe)
    {
      pipes.PushBack(pipe);
      if more {
        // the new pipe takes no part in the message that is being sent
        pipes.Swap(eligible, pipes.Size() - 1);
        eligible := eligible + 1;
      } else {
        pipes.Swap(active, pipes.Size() - 1);
        active := active + 1;
        eligible := eligible + 1;
      }
      pipes.ValidDistinct();
    }

    method Activated(pipe: Pipe)
      requires Valid() && pipe in pipes.items[eligible..]
      modifies this, pipes, pipes.items
      ensures Valid() && exists i | old(eligible) <= i < |old(pipes.items)| ::
                old(pipes.items)[i] == pipe && View() == S.Activated(old(View()), i)
    {
      var index := pipes.Index(pipe);
      pipes.Swap(index, eligible);
      eligible := eligible + 1;
      if !more {
        pipes.Swap(eligible - 1, active);
        active := active + 1;
      }
      pipes.ValidDistinct();
    }

    /** `write`: the pipe takes the part if it has room, and becomes passive if it has not. */
    method Write(pipe: Pipe, room: set<Pipe>, ghost i: nat) returns (ok: bool)
      requires pipes.Valid() && i < active <= eligible <= |pipes.items| && pipes.items[i] == pipe
      modifies this, pipes, pipes.items
      ensures pipes.Valid() && ok == (pipe in room) && View() == if ok then old(View()) else S.Refused(old(View()), i)
      ensures forall k {:trigger pipes.items[k]} :: 0 <= k < |pipes.items| ==> pipes.items[k] in old(pipes.items)
    {
      ok := pipe in room;
      if !ok {
        var index := pipes.Index(pipe);
        assert index == i;
        pipes.Swap(index, active - 1);
        active := active - 1;
        pipes.Swap(active, eligible - 1);
        eligible := eligible - 1;
      }
    }

    method Distribute(room: set<Pipe>)
      requires pipes.Valid() && active <= eligible <= |pipes.items|
      modifies this, pipes, pipes.items
      ensures pipes.Valid() && View() == S.Distribute(old(View()), room, 0)
    {
      var i := 0;
      while i < active
        invariant pipes.Valid() && i <= active <= eligible <= |pipes.items|
        invariant forall k {:trigger pipes.items[k]} :: 0 <= k < |pipes.items| ==> pipes.items[k] in old(pipes.items)
        invariant S.Distribute(View(), room, i) == S.Distribute(old(View()), room, 0)
        decreases active - i
      {
        var ok := Write(pipes.items[i], room, i);
        if ok {
          i := i + 1;
        }
      }
    }

    method Send(msgMore: bool, room: set<Pipe>)
      requires Valid() && (more ==> S.Active(View()) <= room)
      modifies this, pipes, pipes.items
      ensures Valid() && View() == S.Send(old(View()), room, msgMore)
    {
      SendValid(View(), room, msgMore);
      Distribute(room);
      if !msgMore {
        active := eligible;
      }
      more := msgMore;
    }
  }
}
