/**
 The filter of a subscriber (xsub.cpp): of all messages that arrive, those
 whose first part starts with a subscribed prefix are passed on, whole and in
 order, however `xrecv` and `xhas_in` are mixed.
 */
module XsubSpec {
  import opened Common
  import opened Trie
  import opened TrieNodes

  datatype Part = Part(body: Prefix, more: bool)

  /** `incoming` are the parts that fair queueing has for the socket: whole messages, one after the
      other.  `message` is a first part that `xhas_in` fetched. */
  datatype State = State(incoming: seq<Part>, message: Option<Part>, more: bool)

  predicate Match(subs: multiset<Prefix>, p: Part) { Answer(subs, CheckData(p.body)) }

  /** `xsend` of a subscription or an unsubscription; anything else is dropped. */
  function Subscribe(subs: multiset<Prefix>, data: Prefix): multiset<Prefix> {
    if data == [] then subs
    else if data[0] == 1 then subs + multiset{data[1..]}
    else if data[0] == 0 then subs - multiset{data[1..]}
    else subs
  }

  /** A message that begins with 1 adds one copy of the prefix that follows, one that begins with 0 removes one
      copy if there is any, and nothing else changes anything. */
  lemma SubscribeExactly(subs: multiset<Prefix>, data: Prefix, p: Prefix)
    ensures
      Subscribe(subs, data)[p] ==
        if data == [1] + p then subs[p] + 1
        else if data == [0] + p && subs[p] > 0 then subs[p] - 1
        else subs[p]
  {
    if data != [] {
      assert data == [data[0]] + data[1..];
      assert ([1] + p)[1..] == p && ([0] + p)[1..] == p;
    }
  }

  /** The parts of a message that are still to be popped after a part that did not match. */
  function Popped(parts: seq<Part>, more: bool): seq<Part> {
    if !more || parts == [] then parts else Popped(parts[1..], parts[0].more)
  }

  lemma {:induction false} PoppedShorter(parts: seq<Part>, more: bool)
    ensures |Popped(parts, more)| <= |parts|
  {
    if more && parts != [] {
      PoppedShorter(parts[1..], parts[0].more);
    }
  }

  /** Fetches the first part of the next message that matches. */
  function Fetch(subs: multiset<Prefix>, incoming: seq<Part>): (seq<Part>, Option<Part>)
    decreases |incoming|
  {
    if incoming == [] then ([], None)
    else if Match(subs, incoming[0]) then (incoming[1..], Some(incoming[0]))
    else
      PoppedShorter(incoming[1..], incoming[0].more);
      Fetch(subs, Popped(incoming[1..], incoming[0].more))
  }

  function Recv(s: State, subs: multiset<Prefix>): (State, Option<Part>) {
    if s.message.Some? then (s.(message := None, more := s.message.value.more), s.message)
    else if s.more then
      if s.incoming == [] then (s, None)
      else (s.(incoming := s.incoming[1..], more := s.incoming[0].more), Some(s.incoming[0]))
    else
      var (rest, part) := Fetch(subs, s.incoming);
      (s.(incoming := rest, more := part.Some? && part.value.more), part)
  }

  function HasIn(s: State, subs: multiset<Prefix>): (State, bool) {
    if s.more || s.message.Some? then (s, true)
    else
      var (rest, part) := Fetch(subs, s.incoming);
      (s.(incoming := rest, message := part), part.Some?)
  }

  // What a subscriber is to get

  type Message = seq<Part>

  /** All parts but the last one are followed by more. */
  predicate IsMessage(m: Message) {
    m != [] && !m[|m| - 1].more && forall i :: 0 <= i < |m| - 1 ==> m[i].more
  }

  function Flatten(ms: seq<Message>): seq<Part> { if ms == [] then [] else ms[0] + Flatten(ms[1..]) }

  /** The messages whose first part matches. */
  function Filter(subs: multiset<Prefix>, ms: seq<Message>): seq<Message> {
    if ms == [] then []
    else if ms[0] != [] && Match(subs, ms[0][0]) then [ms[0]] + Filter(subs, ms[1..])
    else Filter(subs, ms[1..])
  }

  datatype Event = Arrive(message: Message) | Receive | Poll

  function Step(s: State, subs: multiset<Prefix>, e: Event): (State, seq<Part>) {
    match e
    case Arrive(m) => (s.(incoming := s.incoming + m), [])
    case Receive => var (s', p) := Recv(s, subs); (s', if p.Some? then [p.value] else [])
    case Poll => (HasIn(s, subs).0, [])
  }

  function Exec(s: State, subs: multiset<Prefix>, run: seq<Event>): (State, seq<Part>)
    decreases |run|
  {
    if run == [] then (s, [])
    else
      var (s1, out1) := Step(s, subs, run[0]);
      var (s2, out2) := Exec(s1, subs, run[1..]);
      (s2, out1 + out2)
  }

  function Arrived(run: seq<Event>): seq<Message> {
    if run == [] then [] else (if run[0].Arrive? then [run[0].message] else []) + Arrived(run[1..])
  }

  /** What is to be delivered of a sequence of parts, when the message at its beginning is being passed on. */
  function Pass(subs: multiset<Prefix>, parts: seq<Part>, passing: bool): seq<Part>
    decreases |parts|
  {
    if parts == [] then []
    else if passing || Match(subs, parts[0]) then [parts[0]] + Pass(subs, parts[1..], parts[0].more)
    else
      PoppedShorter(parts[1..], parts[0].more);
      Pass(subs, Popped(parts[1..], parts[0].more), false)
  }

  /** What the socket still has to deliver. */
  function Due(s: State, subs: multiset<Prefix>): seq<Part> {
    if s.message.Some? then [s.message.value] + Pass(subs, s.incoming, s.message.value.more)
    else Pass(subs, s.incoming, s.more)
  }

  lemma {:induction false} FetchPasses(subs: multiset<Prefix>, incoming: seq<Part>)
    ensures var (rest, part) := Fetch(subs, incoming);
            Pass(subs, incoming, false) ==
              if part.Some? then [part.value] + Pass(subs, rest, part.value.more) else []
    ensures Fetch(subs, incoming).1.None? ==> Fetch(subs, incoming).0 == []
    decreases |incoming|
  {
    if incoming != [] && !Match(subs, incoming[0]) {
      PoppedShorter(incoming[1..], incoming[0].more);
      FetchPasses(subs, Popped(incoming[1..], incoming[0].more));
    }
  }

  lemma RecvDelivers(s: State, subs: multiset<Prefix>)
    ensures var (s', p) := Recv(s, subs);
            Due(s, subs) == (if p.Some? then [p.value] else []) + Due(s', subs)
  {
    FetchPasses(subs, s.incoming);
  }

  lemma HasInDelivers(s: State, subs: multiset<Prefix>)
    ensures Due(HasIn(s, subs).0, subs) == Due(s, subs)
    ensures s.message.None? && !s.more ==> (HasIn(s, subs).1 <==> Due(s, subs) != [])
  {
    FetchPasses(subs, s.incoming);
  }

  // Whole messages

  /** The parts end with the end of a message; if there are none, the message before them is complete. */
  predicate Complete(parts: seq<Part>, more: bool) {
    if parts == [] then !more else !parts[|parts| - 1].more
  }

  predicate Whole(s: State) {
    Complete(s.incoming, if s.message.Some? then s.message.value.more else s.more) && (s.message.Some? ==> !s.more)
  }

  lemma {:induction false} PoppedConcat(parts: seq<Part>, more: bool, m: seq<Part>)
    requires Complete(parts, more)
    ensures Popped(parts + m, more) == Popped(parts, more) + m && Complete(Popped(parts, more), false)
  {
    if parts == [] {
      assert parts + m == m;
    } else if more {
      assert (parts + m)[1..] == parts[1..] + m;
      PoppedConcat(parts[1..], parts[0].more, m);
    }
  }

  lemma {:induction false} PassConcat(subs: multiset<Prefix>, parts: seq<Part>, passing: bool, m: seq<Part>)
    requires Complete(parts, passing)
    ensures Pass(subs, parts + m, passing) == Pass(subs, parts, passing) + Pass(subs, m, false)
    decreases |parts|
  {
    if parts == [] {
      assert parts + m == m;
    } else {
      assert (parts + m)[0] == parts[0] && (parts + m)[1..] == parts[1..] + m;
      if passing || Match(subs, parts[0]) {
        PassConcat(subs, parts[1..], parts[0].more, m);
      } else {
        PoppedShorter(parts[1..], parts[0].more);
        PoppedConcat(parts[1..], parts[0].more, m);
        PassConcat(subs, Popped(parts[1..], parts[0].more), false, m);
      }
    }
  }

  lemma {:induction false} PassRest(subs: multiset<Prefix>, m: seq<Part>, more: bool)
    requires Complete(m, more) && (m == [] <==> !more) && forall i :: 0 <= i < |m| - 1 ==> m[i].more
    ensures Pass(subs, m, more) == m && Popped(m, more) == []
    decreases |m|
  {
    if m != [] {
      assert |m| == 1 ==> m[1..] == [];
      PassRest(subs, m[1..], m[0].more);
    }
  }

  /** A message that matches is passed on whole, any other is dropped whole. */
  lemma PassMessage(subs: multiset<Prefix>, m: Message)
    requires IsMessage(m)
    ensures Pass(subs, m, false) == if Match(subs, m[0]) then m else []
  {
    assert |m| == 1 ==> m[1..] == [];
    PassRest(subs, m[1..], m[0].more);
  }

  lemma {:induction false} FetchWhole(subs: multiset<Prefix>, incoming: seq<Part>)
    requires Complete(incoming, false)
    ensures var (rest, part) := Fetch(subs, incoming); Complete(rest, part.Some? && part.value.more)
    decreases |incoming|
  {
    if incoming != [] && !Match(subs, incoming[0]) {
      PoppedShorter(incoming[1..], incoming[0].more);
      PoppedConcat(incoming[1..], incoming[0].more, []);
      FetchWhole(subs, Popped(incoming[1..], incoming[0].more));
    }
  }

  lemma StepWhole(s: State, subs: multiset<Prefix>, e: Event)
    requires Whole(s) && (e.Arrive? ==> IsMessage(e.message))
    ensures Whole(Step(s, subs, e).0)
  {
    match e
    case Arrive(m) =>
    case Receive => if s.message.None? && !s.more { FetchWhole(subs, s.incoming); }
    case Poll => if s.message.None? && !s.more { FetchWhole(subs, s.incoming); }
  }

  lemma {:induction false} FlattenOne(subs: multiset<Prefix>, m: Message, ms: seq<Message>)
    requires IsMessage(m)
    ensures Flatten(Filter(subs, [m] + ms)) == Pass(subs, m, false) + Flatten(Filter(subs, ms))
  {
    PassMessage(subs, m);
    assert ([m] + ms)[1..] == ms;
    var rest := Filter(subs, ms);
    assert ([m] + rest)[1..] == rest;
  }

  /** What an event adds to the parts that are to be delivered. */
  function Added(subs: multiset<Prefix>, e: Event): seq<Part> { if e.Arrive? then Pass(subs, e.message, false) else [] }

  lemma StepDelivers(s: State, subs: multiset<Prefix>, e: Event)
    requires Whole(s)
    ensures Step(s, subs, e).1 + Due(Step(s, subs, e).0, subs) == Due(s, subs) + Added(subs, e)
  {
    match e
    case Arrive(m) => ArriveDue(s, subs, m);
    case Receive => RecvDelivers(s, subs);
    case Poll => HasInDelivers(s, subs);
  }

  lemma ArrivedFirst(subs: multiset<Prefix>, run: seq<Event>)
    requires run != [] && (run[0].Arrive? ==> IsMessage(run[0].message))
    ensures Flatten(Filter(subs, Arrived(run))) == Added(subs, run[0]) + Flatten(Filter(subs, Arrived(run[1..])))
  {
    if run[0].Arrive? {
      FlattenOne(subs, run[0].message, Arrived(run[1..]));
    } else {
      assert Arrived(run) == Arrived(run[1..]);
    }
  }

  lemma Regroup<T>(out1: seq<T>, out2: seq<T>, due: seq<T>, due1: seq<T>, due2: seq<T>, added: seq<T>, later: seq<T>)
    requires out1 + due1 == due + added && out2 + due2 == due1 + later
    ensures out1 + out2 + due2 == due + (added + later)
  {
    assert out1 + out2 + due2 == out1 + (out2 + due2) == (out1 + due1) + later;
    assert (due + added) + later == due + (added + later);
  }

  lemma {:induction false} RunDelivers(s: State, subs: multiset<Prefix>, run: seq<Event>)
    requires Whole(s) && forall i :: 0 <= i < |run| && run[i].Arrive? ==> IsMessage(run[i].message)
    ensures var (s', out) := Exec(s, subs, run);
            out + Due(s', subs) == Due(s, subs) + Flatten(Filter(subs, Arrived(run)))
    decreases |run|
  {
    if run == [] {
      assert [] + Due(s, subs) == Due(s, subs) == Due(s, subs) + [];
    } else {
      var (s1, out1) := Step(s, subs, run[0]);
      var (s2, out2) := Exec(s1, subs, run[1..]);
      StepWhole(s, subs, run[0]);
      StepDelivers(s, subs, run[0]);
      RunDelivers(s1, subs, run[1..]);
      ArrivedFirst(subs, run);
      Regroup(out1, out2, Due(s, subs), Due(s1, subs), Due(s2, subs), Added(subs, run[0]),
              Flatten(Filter(subs, Arrived(run[1..]))));
    }
  }

  lemma ArriveDue(s: State, subs: multiset<Prefix>, m: Message)
    requires Whole(s)
    ensures Due(s.(incoming := s.incoming + m), subs) == Due(s, subs) + Pass(subs, m, false)
  {
    var flag := if s.message.Some? then s.message.value.more else s.more;
    PassConcat(subs, s.incoming, flag, m);
  }

  /** In every run the parts delivered, and those that the socket still has to deliver, are those of the
      messages that match, in the order of their arrival; and the socket has something to deliver exactly
      when it says so. */
  lemma DeliversFilter(subs: multiset<Prefix>, run: seq<Event>)
    requires forall i :: 0 <= i < |run| && run[i].Arrive? ==> IsMessage(run[i].message)
    ensures var (s, out) := Exec(State([], None, false), subs, run);
            out + Due(s, subs) == Flatten(Filter(subs, Arrived(run)))
    ensures var s := Exec(State([], None, false), subs, run).0;
            HasIn(s, subs).1 <==> Due(s, subs) != []
  {
    var s0 := State([], None, false);
    RunDelivers(s0, subs, run);
    RunWhole(s0, subs, run);
    var (s, out) := Exec(s0, subs, run);
    assert [] + Flatten(Filter(subs, Arrived(run))) == Flatten(Filter(subs, Arrived(run)));
    HasInDelivers(s, subs);
  }

  lemma {:induction false} RunWhole(s: State, subs: multiset<Prefix>, run: seq<Event>)
    requires Whole(s) && forall i :: 0 <= i < |run| && run[i].Arrive? ==> IsMessage(run[i].message)
    ensures Whole(Exec(s, subs, run).0)
    decreases |run|
  {
    if run != [] {
      StepWhole(s, subs, run[0]);
      RunWhole(Step(s, subs, run[0]).0, subs, run[1..]);
    }
  }

  /** In every run `recv` returns a part if and only if one is due, and then the first one. */
  lemma RecvExactly(subs: multiset<Prefix>, run: seq<Event>)
    requires forall i :: 0 <= i < |run| && run[i].Arrive? ==> IsMessage(run[i].message)
    ensures
      var s := Exec(State([], None, false), subs, run).0;
      var (s', part) := Recv(s, subs);
      if Due(s, subs) == [] then part.None? && Due(s', subs) == []
      else part == Some(Due(s, subs)[0]) && Due(s', subs) == Due(s, subs)[1..]
  {
    RunWhole(State([], None, false), subs, run);
    var s := Exec(State([], None, false), subs, run).0;
    RecvDelivers(s, subs);
    if s.message.None? && !s.more {
      FetchPasses(subs, s.incoming);
    }
  }
}

module Xsub {
  import opened Common
  import opened Trie
  import opened TrieNodes
  import opened XsubSpec
  import S = XsubSpec

  class Subscriber {
    const subscriptions: Subscriptions
    var incoming: seq<Part>
    var message: Option<Part>
    var more: bool

    ghost function View(): State
      reads this
    {
      State(incoming, message, more)
    }

    constructor ()
      ensures subscriptions.Valid() && subscriptions.Stores(multiset{}) && View() == State([], None, false)
    {
      subscriptions := new Subscriptions();
      incoming, message, more := [], None, false;
    }

    /** `xsend`: malformed subscriptions are dropped, unsubscriptions of what is not there are ignored. */
    method Send(data: Prefix, ghost subs: multiset<Prefix>)
      requires subscriptions.Valid() && subscriptions.Stores(subs)
      modifies subscriptions, subscriptions.at.Values, Tables(subscriptions.at)
      ensures subscriptions.Valid() && subscriptions.Stores(Subscribe(subs, data))
    {
      if |data| >= 1 {
        if data[0] == 1 {
          subscriptions.Add(data[1..]);
        }
        if data[0] == 0 {
          assert Stored(subscriptions.at, data[1..]) == subs[data[1..]];
          var _ := subscriptions.Rm(data[1..]);
        }
      }
    }

    method Match(part: Part, ghost subs: multiset<Prefix>) returns (matches: bool)
      requires subscriptions.Valid() && subscriptions.Stores(subs)
      ensures matches == S.Match(subs, part)
    {
      matches := subscriptions.Check(part.body);
      assert forall k {:trigger part.body[..k]} ::
        0 <= k <= |part.body| ==> Stored(subscriptions.at, part.body[..k]) == subs[part.body[..k]];
    }

    /** The loop of `xrecv` and of `xhas_in`: fetches the first part of the next message that matches. */
    method Fetch(ghost subs: multiset<Prefix>) returns (part: Option<Part>)
      requires subscriptions.Valid() && subscriptions.Stores(subs) && Complete(incoming, false)
      modifies `incoming
      ensures (incoming, part) == S.Fetch(subs, old(incoming))
    {
      while incoming != []
        invariant S.Fetch(subs, incoming) == S.Fetch(subs, old(incoming)) && Complete(incoming, false)
        decreases |incoming|
      {
        var first := incoming[0];
        incoming := incoming[1..];
        var matches := Match(first, subs);
        if matches {
          return Some(first);
        }
        // the remaining parts of the message are popped
        ghost var rest := incoming;
        var flag := first.more;
        PoppedConcat(incoming, flag, []);
        while flag
          invariant Popped(incoming, flag) == Popped(rest, first.more) && |incoming| <= |rest| && Complete(incoming, flag)
          decreases |incoming|, flag
        {
          flag := incoming[0].more;
          incoming := incoming[1..];
        }
      }
      part := None;
    }

    method Recv(ghost subs: multiset<Prefix>) returns (part: Option<Part>)
      requires subscriptions.Valid() && subscriptions.Stores(subs) && Whole(View())
      modifies `incoming, `message, `more
      ensures (View(), part) == S.Recv(old(View()), subs) && Whole(View())
    {
      StepWhole(View(), subs, Receive);
      if message.Some? {
        part, message := message, None;
        more := part.value.more;
      } else if more {
        part := Some(incoming[0]);
        incoming := incoming[1..];
        more := part.value.more;
      } else {
        part := Fetch(subs);
        more := part.Some? && part.value.more;
      }
    }

    method HasIn(ghost subs: multiset<Prefix>) returns (found: bool)
      requires subscriptions.Valid() && subscriptions.Stores(subs) && Whole(View())
      modifies `incoming, `message
      ensures (View(), found) == S.HasIn(old(View()), subs) && Whole(View())
    {
      StepWhole(View(), subs, Poll);
      if more || message.Some? {
        return true;
      }
      message := Fetch(subs);
      found := message.Some?;
    }
  }
}
