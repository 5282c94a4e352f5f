/**
 Any number of objects that own each other, with the mailboxes between them:
 the shutdown protocol of own.cpp and object.cpp.

 A handler runs to its end before its object does anything else, so it is one
 step.  Launching is not: the new object is plugged in, then the sequence
 number of the owner is incremented, then `own` is sent, and everybody else may
 run in between.  The same holds for `attach` and `bind`, whose sequence number
 may be reserved long before the command is sent.
 */
module OwnTree {
  import opened Common
  import opened OwnHandlers

  /** A sequence number of an object that was incremented for a command that is not sent
      yet: `own` for a launched object, or anything else that somebody keeps track of. */
  datatype Token = ForObject(child: Id) | Other(n: nat)

  /** What the thread of an object still has to do to complete a launch. */
  datatype Busy = Idle | Announcing(to: Id, child: Id) | Sending(to: Id, child: Id)

  datatype Stage = Root | Launching(launcher: Id) | Announced

  datatype Obj = Obj(
    core: Core,
    mailbox: seq<Command>,
    busy: Busy,
    external: nat,        // acks awaited from pipes
    reserved: set<Token>, // history: sequence numbers whose command is not sent yet
    waiting: set<Id>,     // history: objects asked to terminate whose ack is not processed
    stage: Stage,         // history: whether `own` was sent
    termsSent: nat)       // history: how often `term` was sent to the object

  /** `fault` is set when an assertion of the code fails, and when a command is sent to
      a destroyed object or is lost because its destination is destroyed. */
  datatype State = State(objs: map<Id, Obj>, next: Id, fault: bool)

  datatype Action =
    | NewRoot
    | LaunchChild(id: Id)
    | LaunchSibling(id: Id)
    | ContinueLaunch(id: Id)
    | Reserve(id: Id, n: nat)
    | Deliver(id: Id, n: nat)
    | Process(id: Id)
    | Terminate(id: Id)
    | RegisterAck(id: Id)
    | UnregisterAck(id: Id)

  predicate Alive(s: State, x: Id) { x in s.objs && !s.objs[x].core.destroyed }

  /** The thread of x can start something new. */
  predicate Free(s: State, x: Id) { Alive(s, x) && s.objs[x].busy.Idle? }

  function Post(s: State, to: Id, cmd: Command): State {
    if !Alive(s, to) then s.(fault := true)
    else s.(objs := s.objs[to := s.objs[to].(mailbox := s.objs[to].mailbox + [cmd])])
  }

  function Asked(o: Obj): Obj { o.(mailbox := o.mailbox + [Term], termsSent := o.termsSent + 1) }

  function PostTerms(s: State, terms: set<Id>): State {
    State(map x | x in s.objs :: if x in terms then Asked(s.objs[x]) else s.objs[x],
          s.next,
          s.fault || exists x | x in terms :: !Alive(s, x))
  }

  /** The effect of a handler of x that found the object in state o and left `reply`. */
  function Finish(s: State, x: Id, o: Obj, reply: Reply): State {
    var s1 := PostTerms(s.(objs := s.objs[x := o.(core := reply.core, waiting := o.waiting + reply.terms)]), reply.terms);
    var s2 := if reply.ack && o.core.owner.Some? then Post(s1, o.core.owner.value, TermAck(x)) else s1;
    s2.(fault := s2.fault || reply.fault || (reply.core.destroyed && o.mailbox != []))
  }

  function NewObject(owner: Option<Id>, sent: nat, mailbox: seq<Command>, stage: Stage): Obj {
    Obj(Core(owner, false, sent, 0, {}, 0, false), mailbox, Idle, 0, {}, {}, stage, 0)
  }

  /** `set_owner` and `send_plug` of a launch. */
  function Launch(s: State, x: Id, owner: Id): State
    requires x in s.objs
  {
    State(s.objs[s.next := NewObject(Some(owner), 1, [Plug], Launching(x))]
                [x := s.objs[x].(busy := Announcing(owner, s.next))],
          s.next + 1, s.fault)
  }

  function Continue(s: State, x: Id): State
    requires x in s.objs
  {
    var o := s.objs[x];
    match o.busy
    case Idle => s
    case Announcing(to, child) =>
      // the first half of `send_own`
      if !Alive(s, to) then s.(fault := true)
      else
        var s1 := s.(objs := s.objs[x := o.(busy := Sending(to, child))]);
        s1.(objs := s1.objs[to := ReserveFor(s1.objs[to], ForObject(child))])
    case Sending(to, child) =>
      if !Alive(s, to) || child !in s.objs then s.(fault := true)
      else
        var s1 := s.(objs := s.objs[x := o.(busy := Idle)]);
        var s2 := s1.(objs := s1.objs[child := s1.objs[child].(stage := Announced)]);
        s2.(objs := s2.objs[to := DeliverFor(s2.objs[to], ForObject(child), Adopt(child))])
  }

  function ReserveFor(o: Obj, t: Token): Obj {
    if t in o.reserved then o
    else o.(core := o.core.(sentSeqnum := o.core.sentSeqnum + 1), reserved := o.reserved + {t})
  }

  function DeliverFor(o: Obj, t: Token, cmd: Command): Obj {
    o.(reserved := o.reserved - {t}, mailbox := o.mailbox + [cmd])
  }

  /** The object as a handler of the first command in its mailbox finds it. */
  function Popped(o: Obj): Obj
    requires o.mailbox != []
  {
    var rest := o.(mailbox := o.mailbox[1..]);
    if o.mailbox[0].TermAck? then rest.(waiting := o.waiting - {o.mailbox[0].from}) else rest
  }

  function Step(s: State, a: Action): State {
    match a
    case NewRoot =>
      State(s.objs[s.next := NewObject(None, 0, [], Root)], s.next + 1, s.fault)
    case LaunchChild(x) =>
      if Free(s, x) then Launch(s, x, x) else s
    case LaunchSibling(x) =>
      if Free(s, x) && s.objs[x].core.owner.Some? then Launch(s, x, s.objs[x].core.owner.value) else s
    case ContinueLaunch(x) =>
      if x in s.objs then Continue(s, x) else s
    case Reserve(x, n) =>
      // by x itself or on behalf of a living object that x owns or of an endpoint that
      // x withdraws when it begins to terminate; whoever does it, x is not destroyed
      if Alive(s, x) then s.(objs := s.objs[x := ReserveFor(s.objs[x], Other(n))]) else s
    case Deliver(x, n) =>
      if x in s.objs && Other(n) in s.objs[x].reserved
      then s.(objs := s.objs[x := DeliverFor(s.objs[x], Other(n), Sequenced)]) else s
    case Process(x) =>
      if Free(s, x) && s.objs[x].mailbox != []
      then Finish(s, x, Popped(s.objs[x]), ProcessCommand(s.objs[x].core, s.objs[x].mailbox[0])) else s
    case Terminate(x) =>
      if !Free(s, x) || s.objs[x].core.terminating then s
      else if s.objs[x].core.owner.Some? then Post(s, s.objs[x].core.owner.value, TermReq(x))
      else Finish(s, x, s.objs[x], ProcessTerm(s.objs[x].core))
    case RegisterAck(x) =>
      if Free(s, x)
      then s.(objs := s.objs[x := s.objs[x].(external := s.objs[x].external + 1,
                                             core := s.objs[x].core.(termAcks := s.objs[x].core.termAcks + 1))])
      else s
    case UnregisterAck(x) =>
      if Free(s, x) && s.objs[x].external > 0
      then Finish(s, x, s.objs[x].(external := s.objs[x].external - 1), UnregisterTermAck(s.objs[x].core)) else s
  }

  function Init(): State { State(map[], 0, false) }

  function Exec(s: State, run: seq<Action>): State
    decreases |run|
  {
    if run == [] then s else Exec(Step(s, run[0]), run[1..])
  }

  // Mailboxes

  predicate IsSequenced(cmd: Command) { cmd.Plug? || cmd.Sequenced? || cmd.Adopt? }

  function CountSequenced(m: seq<Command>): nat {
    if m == [] then 0 else (if IsSequenced(m[0]) then 1 else 0) + CountSequenced(m[1..])
  }

  function Count(m: seq<Command>, cmd: Command): nat {
    if m == [] then 0 else (if m[0] == cmd then 1 else 0) + Count(m[1..], cmd)
  }

  /** Every request of x to be terminated is followed by an ack of x. */
  predicate Answered(m: seq<Command>, x: Id) {
    m == [] || (Answered(m[1..], x) && (m[0] == TermReq(x) ==> Count(m[1..], TermAck(x)) > 0))
  }

  lemma {:induction false} CountAppend(m: seq<Command>, last: Command, cmd: Command)
    ensures Count(m + [last], cmd) == Count(m, cmd) + if last == cmd then 1 else 0
  {
    if m == [] {
      assert m + [last] == [last];
    } else {
      CountAppend(m[1..], last, cmd);
      assert (m + [last])[1..] == m[1..] + [last];
    }
  }

  lemma {:induction false} CountSequencedAppend(m: seq<Command>, last: Command)
    ensures CountSequenced(m + [last]) == CountSequenced(m) + if IsSequenced(last) then 1 else 0
  {
    if m == [] {
      assert m + [last] == [last];
    } else {
      CountSequencedAppend(m[1..], last);
      assert (m + [last])[1..] == m[1..] + [last];
    }
  }

  lemma {:induction false} AnsweredAppend(m: seq<Command>, last: Command, x: Id)
    ensures last == TermAck(x) || (Answered(m, x) && last != TermReq(x)) ==> Answered(m + [last], x)
  {
    if m == [] {
      assert m + [last] == [last];
    } else {
      AnsweredAppend(m[1..], last, x);
      CountAppend(m[1..], last, TermAck(x));
      assert (m + [last])[1..] == m[1..] + [last];
    }
  }

  /** Everything the invariant says about a mailbox with one more command. */
  lemma Appended(m: seq<Command>, last: Command)
    ensures CountSequenced(m + [last]) == CountSequenced(m) + if IsSequenced(last) then 1 else 0
    ensures forall cmd :: Count(m + [last], cmd) == Count(m, cmd) + if last == cmd then 1 else 0
    ensures forall x :: last == TermAck(x) || (Answered(m, x) && last != TermReq(x)) ==> Answered(m + [last], x)
  {
    CountSequencedAppend(m, last);
    forall cmd ensures Count(m + [last], cmd) == Count(m, cmd) + if last == cmd then 1 else 0 {
      CountAppend(m, last, cmd);
    }
    forall x ensures last == TermAck(x) || (Answered(m, x) && last != TermReq(x)) ==> Answered(m + [last], x) {
      AnsweredAppend(m, last, x);
    }
  }

  // The invariant

  predicate IsChild(s: State, q: Id, x: Id) { x in s.objs && s.objs[x].core.owner == Some(q) }

  /** `term` is sent at most once, and an object with an owner terminates on it only. */
  predicate TermOnce(o: Obj) {
    && o.termsSent <= (if o.stage.Root? then 0 else 1)
    && Count(o.mailbox, Term) + (if o.core.terminating && !o.stage.Root? then 1 else 0) == o.termsSent
  }

  predicate Local(o: Obj) {
    && o.core.sentSeqnum == o.core.processedSeqnum + CountSequenced(o.mailbox) + |o.reserved|
    && o.core.termAcks == |o.waiting| + o.external
    && (o.core.terminating ==> o.core.owned == {})
    && o.core.owned !! o.waiting
    && (o.core.owner.None? <==> o.stage.Root?)
    && TermOnce(o)
    && (o.core.destroyed ==>
          o.core.terminating && o.mailbox == [] && o.reserved == {} && o.waiting == {} && o.external == 0 && o.busy.Idle?)
  }

  predicate Mentions(o: Obj, x: Id) {
    x in o.core.owned || x in o.waiting || ForObject(x) in o.reserved ||
    Count(o.mailbox, Adopt(x)) > 0 || Count(o.mailbox, TermReq(x)) > 0 || Count(o.mailbox, TermAck(x)) > 0
  }

  ghost predicate MentionsChildren(s: State, q: Id)
    requires q in s.objs
  {
    forall x :: Mentions(s.objs[q], x) ==> IsChild(s, q, x)
  }

  /** What the owner q knows about the object o called x. */
  predicate Known(q: Obj, x: Id, o: Obj) {
    && Count(q.mailbox, Adopt(x)) + (if x in q.core.owned then 1 else 0) ==
         (if o.stage.Announced? && o.termsSent == 0 then 1 else 0)
    && (o.stage.Launching? ==> o.termsSent == 0)
    && (x in q.waiting ==> o.termsSent == 1)
    && (o.termsSent == 1 && !o.core.destroyed ==> x in q.waiting)
    && Count(q.mailbox, TermAck(x)) == (if o.core.destroyed && x in q.waiting then 1 else 0)
    && (o.core.destroyed ==> Answered(q.mailbox, x))
    && (q.core.destroyed ==> o.core.destroyed)
  }

  predicate OwnerKnows(s: State, x: Id)
    requires x in s.objs
  {
    s.objs[x].core.owner.Some? ==>
      var q := s.objs[x].core.owner.value;
      q in s.objs && q < x && Known(s.objs[q], x, s.objs[x])
  }

  /** The thread that launches x is still at it. */
  predicate HasLauncher(s: State, x: Id)
    requires x in s.objs
  {
    var o := s.objs[x];
    o.stage.Launching? ==>
      var l := o.stage.launcher;
      l in s.objs && o.core.owner.Some? &&
      (s.objs[l].busy == Announcing(o.core.owner.value, x) || s.objs[l].busy == Sending(o.core.owner.value, x))
  }

  /** Whoever launches an object is its owner or a sibling. */
  predicate Launches(s: State, x: Id)
    requires x in s.objs
  {
    var o := s.objs[x];
    !o.busy.Idle? ==>
      var (q, c) := (o.busy.to, o.busy.child);
      x < c && IsChild(s, q, c) && s.objs[c].stage == Launching(x) && (q == x || o.core.owner == Some(q)) &&
      q in s.objs && (o.busy.Sending? <==> ForObject(c) in s.objs[q].reserved)
  }

  predicate ReservedByLauncher(s: State, x: Id)
    requires x in s.objs
  {
    var o := s.objs[x];
    o.core.owner.Some? && o.core.owner.value in s.objs && ForObject(x) in s.objs[o.core.owner.value].reserved ==>
      o.stage.Launching?
  }

  predicate LauncherKnows(s: State, x: Id)
    requires x in s.objs
  {
    HasLauncher(s, x) && Launches(s, x) && ReservedByLauncher(s, x)
  }

  /** All but the last clause: that an object which has nothing to wait for is destroyed. */
  ghost predicate Consistent(s: State) {
    && !s.fault
    && (forall x :: x in s.objs ==> x < s.next)
    && (forall x {:trigger Local(s.objs[x])} :: x in s.objs ==> Local(s.objs[x]))
    && (forall x {:trigger MentionsChildren(s, x)} :: x in s.objs ==> MentionsChildren(s, x))
    && (forall x {:trigger OwnerKnows(s, x)} :: x in s.objs ==> OwnerKnows(s, x))
    && (forall x {:trigger LauncherKnows(s, x)} :: x in s.objs ==> LauncherKnows(s, x))
  }

  predicate Settled(o: Obj) { Finished(o.core) ==> o.core.destroyed }

  ghost predicate Inv(s: State) {
    Consistent(s) && forall x {:trigger Settled(s.objs[x])} :: x in s.objs ==> Settled(s.objs[x])
  }

  // Handlers: what they do before they check whether the object is done

  /** The reply of a handler, without the check at its end. */
  function Begun(o: Core, cmd: Command): Reply {
    match cmd
    case Plug => Quiet(o.(processedSeqnum := o.processedSeqnum + 1))
    case Sequenced => Quiet(o.(processedSeqnum := o.processedSeqnum + 1))
    case Adopt(child) =>
      var first := ProcessOwn(o, child);
      first.(core := first.core.(processedSeqnum := o.processedSeqnum + 1))
    case TermReq(child) => ProcessTermReq(o, child)
    case Term => Reply(BeginTerm(o), o.owned, false, false)
    case TermAck(_) => if o.termAcks == 0 then Quiet(o).(fault := true) else Quiet(o.(termAcks := o.termAcks - 1))
  }

  /** The object after the reply. */
  function Changed(o: Obj, reply: Reply): Obj {
    o.(core := reply.core, waiting := o.waiting + reply.terms)
  }

  ghost predicate SameLaunch(o: Obj, o': Obj) {
    && o'.stage == o.stage && o'.busy == o.busy && o'.core.owner == o.core.owner
    && forall y :: ForObject(y) in o'.reserved <==> ForObject(y) in o.reserved
  }

  /** The local conditions under which a handler of x keeps the whole system consistent. */
  ghost predicate Sound(s: State, x: Id, o: Obj, terms: set<Id>)
    requires x in s.objs
  {
    var before := s.objs[x];
    && Local(o) && !o.core.destroyed
    && SameLaunch(before, o) && o.termsSent == before.termsSent
    && (forall y :: Mentions(o, y) ==> IsChild(s, x, y))
    && (forall y :: y in terms ==> IsChild(s, x, y))
    && (forall y :: IsChild(s, x, y) ==> Known(o, y, if y in terms then Asked(s.objs[y]) else s.objs[y]))
    && (forall y :: IsChild(s, x, y) && y in terms ==> s.objs[y].termsSent == 0 && s.objs[y].stage.Announced?)
  }

  lemma AskedLocal(o: Obj)
    requires Local(o) && o.termsSent == 0 && o.stage.Announced?
    ensures Local(Asked(o)) && !o.core.destroyed
    ensures forall cmd :: Count(Asked(o).mailbox, cmd) == Count(o.mailbox, cmd) + if cmd.Term? then 1 else 0
  {
    Appended(o.mailbox, Term);
  }

  lemma AskedMentions(o: Obj)
    ensures forall y :: Mentions(Asked(o), y) ==> Mentions(o, y)
  {
    Appended(o.mailbox, Term);
  }

  /** What an owner knows about its child does not change when the owner is asked to terminate. */
  lemma AskedKnows(q: Obj, x: Id, o: Obj)
    requires Known(q, x, o) && Local(q) && q.termsSent == 0 && q.stage.Announced?
    ensures Known(Asked(q), x, o)
  {
    Appended(q.mailbox, Term);
  }

  function After(s: State, x: Id, o: Obj, terms: set<Id>): State {
    PostTerms(s.(objs := s.objs[x := o]), terms)
  }

  /** No launch begins, continues or ends. */
  ghost predicate SameLaunches(s: State, s': State) {
    s'.objs.Keys == s.objs.Keys && KeepsOwners(s, s') &&
    forall y :: y in s.objs ==> SameLaunch(s.objs[y], s'.objs[y])
  }

  lemma LauncherFrame(s: State, s': State, y: Id)
    requires SameLaunches(s, s') && y in s.objs && LauncherKnows(s, y)
    ensures LauncherKnows(s', y)
  {
    var o := s.objs[y];
    assert SameLaunch(o, s'.objs[y]);
    if o.stage.Launching? {
      assert SameLaunch(s.objs[o.stage.launcher], s'.objs[o.stage.launcher]);
    }
    if !o.busy.Idle? {
      assert SameLaunch(s.objs[o.busy.child], s'.objs[o.busy.child]);
      assert SameLaunch(s.objs[o.busy.to], s'.objs[o.busy.to]);
    }
    if o.core.owner.Some? && o.core.owner.value in s.objs {
      assert SameLaunch(s.objs[o.core.owner.value], s'.objs[o.core.owner.value]);
    }
  }

  ghost predicate KeepsOwners(s: State, s': State) {
    forall y :: y in s.objs ==> y in s'.objs && s'.objs[y].core.owner == s.objs[y].core.owner
  }

  lemma MentionsFrame(s: State, s': State, y: Id)
    requires KeepsOwners(s, s') && y in s.objs && MentionsChildren(s, y)
    requires forall z :: Mentions(s'.objs[y], z) ==> Mentions(s.objs[y], z) || IsChild(s, y, z)
    ensures MentionsChildren(s', y)
  {
    forall z | Mentions(s'.objs[y], z) ensures IsChild(s', y, z) {
      assert IsChild(s, y, z);
    }
  }

  lemma SoundLaunches(s: State, x: Id, o: Obj, terms: set<Id>)
    requires x in s.objs && SameLaunch(s.objs[x], o)
    ensures SameLaunches(s, After(s, x, o, terms))
  {
    var s' := After(s, x, o, terms);
    assert s'.objs.Keys == s.objs.Keys;
  }

  lemma SoundTerms(s: State, x: Id, o: Obj, terms: set<Id>, y: Id)
    requires Consistent(s) && Alive(s, x) && Sound(s, x, o, terms) && y in terms
    ensures IsChild(s, x, y) && y != x && Local(s.objs[y]) && Local(Asked(s.objs[y])) && !s.objs[y].core.destroyed
    ensures s.objs[y].termsSent == 0 && s.objs[y].stage.Announced?
  {
    assert OwnerKnows(s, y) && Local(s.objs[y]);
    AskedLocal(s.objs[y]);
  }

  lemma SoundLocal(s: State, x: Id, o: Obj, terms: set<Id>, y: Id)
    requires Consistent(s) && Alive(s, x) && Sound(s, x, o, terms) && y in s.objs
    ensures Local(After(s, x, o, terms).objs[y])
  {
    assert Local(s.objs[y]);
    if y in terms {
      SoundTerms(s, x, o, terms, y);
    }
  }

  lemma SoundMentions(s: State, x: Id, o: Obj, terms: set<Id>, y: Id)
    requires Consistent(s) && Alive(s, x) && Sound(s, x, o, terms) && y in s.objs
    ensures MentionsChildren(After(s, x, o, terms), y)
  {
    assert MentionsChildren(s, y);
    if y in terms {
      SoundTerms(s, x, o, terms, y);
      AskedMentions(s.objs[y]);
    }
    SoundLaunches(s, x, o, terms);
    MentionsFrame(s, After(s, x, o, terms), y);
  }

  lemma SoundOwner(s: State, x: Id, o: Obj, terms: set<Id>, y: Id)
    requires Consistent(s) && Alive(s, x) && Sound(s, x, o, terms) && y in s.objs
    ensures OwnerKnows(After(s, x, o, terms), y)
  {
    assert OwnerKnows(s, y);
    if x in terms {
      SoundTerms(s, x, o, terms, x);
    }
    if s.objs[y].core.owner.Some? {
      var q := s.objs[y].core.owner.value;
      if q == x {
        assert IsChild(s, x, y);
      } else {
        if y in terms {
          SoundTerms(s, x, o, terms, y);
        }
        if q in terms {
          SoundTerms(s, x, o, terms, q);
          AskedKnows(s.objs[q], y, s.objs[y]);
        }
      }
    }
  }

  lemma SoundKeeps(s: State, x: Id, o: Obj, terms: set<Id>)
    requires Consistent(s) && Alive(s, x) && Sound(s, x, o, terms)
    ensures Consistent(After(s, x, o, terms))
  {
    forall y | y in terms ensures Alive(s, y) {
      SoundTerms(s, x, o, terms, y);
    }
    forall y | y in s.objs
      ensures Local(After(s, x, o, terms).objs[y]) && MentionsChildren(After(s, x, o, terms), y)
    {
      SoundLocal(s, x, o, terms, y);
      SoundMentions(s, x, o, terms, y);
    }
    SoundLaunches(s, x, o, terms);
    forall y | y in s.objs
      ensures LauncherKnows(After(s, x, o, terms), y) && OwnerKnows(After(s, x, o, terms), y)
    {
      LauncherFrame(s, After(s, x, o, terms), y);
      SoundOwner(s, x, o, terms, y);
    }
  }

  /** The state in which a handler of x has done all but the check at its end. */
  function Handled(s: State, x: Id): State
    requires x in s.objs && s.objs[x].mailbox != []
  {
    var reply := Begun(s.objs[x].core, s.objs[x].mailbox[0]);
    After(s, x, Changed(Popped(s.objs[x]), reply), reply.terms)
  }

  /** The object after it handled the first command in its mailbox. */
  function Replied(o: Obj): Obj
    requires o.mailbox != []
  {
    Changed(Popped(o), Begun(o.core, o.mailbox[0]))
  }

  function Began(o: Obj): Obj { Changed(o, Reply(BeginTerm(o.core), o.core.owned, false, false)) }

  /** What x can rely on when it takes its first command. */
  predicate Ready(o: Obj) {
    && o.mailbox != [] && Local(o) && !o.core.destroyed
    && (o.mailbox[0].Term? ==> !o.core.terminating)
    && (o.mailbox[0].TermAck? ==> o.mailbox[0].from in o.waiting)
    && (o.mailbox[0].Adopt? ==> o.mailbox[0].child !in o.core.owned && o.mailbox[0].child !in o.waiting)
  }

  lemma BeganLocal(o: Obj)
    requires o.core.owned !! o.waiting && o.core.termAcks == |o.waiting| + o.external
    ensures Began(o).core.termAcks == |Began(o).waiting| + o.external
  {
    assert |o.waiting + o.core.owned| == |o.waiting| + |o.core.owned|;
  }

  lemma RootBegan(o: Obj)
    requires Local(o) && o.stage.Root? && !o.core.destroyed && !o.core.terminating
    ensures Local(Began(o)) && !Began(o).core.destroyed
    ensures forall y :: Mentions(Began(o), y) ==> Mentions(o, y)
    ensures forall y :: y in o.core.owned ==> Mentions(o, y)
  {
    BeganLocal(o);
  }

  lemma PoppedLocal(o: Obj)
    requires Ready(o)
    ensures o.core.sentSeqnum == o.core.processedSeqnum + (if IsSequenced(o.mailbox[0]) then 1 else 0) +
                                 CountSequenced(o.mailbox[1..]) + |o.reserved|
    ensures Count(o.mailbox[1..], Term) + (if o.mailbox[0].Term? then 1 else 0) == Count(o.mailbox, Term)
  {
  }

  lemma AdoptedLocal(o: Obj)
    requires Ready(o) && o.mailbox[0].Adopt?
    ensures Local(Replied(o)) && !Replied(o).core.destroyed
  {
    PoppedLocal(o);
    var child := o.mailbox[0].child;
    assert Replied(o).waiting == if o.core.terminating then o.waiting + {child} else o.waiting;
  }

  lemma RepliedLocal(o: Obj)
    requires Ready(o)
    ensures Local(Replied(o)) && !Replied(o).core.destroyed
  {
    PoppedLocal(o);
    match o.mailbox[0]
    case Term => BeganLocal(Popped(o));
    case TermAck(child) => assert |o.waiting - {child}| == |o.waiting| - 1;
    case Adopt(child) => AdoptedLocal(o);
    case TermReq(child) =>
    case _ =>
  }

  lemma PoppedMentions(o: Obj, y: Id)
    requires o.mailbox != []
    ensures Mentions(Popped(o), y) ==> Mentions(o, y)
    ensures o.mailbox[0] in {Adopt(y), TermReq(y), TermAck(y)} ==> Mentions(o, y)
  {
  }

  lemma RepliedMentions(o: Obj, y: Id)
    requires Ready(o)
    ensures Mentions(Replied(o), y) ==> Mentions(o, y)
    ensures y in Begun(o.core, o.mailbox[0]).terms ==> Mentions(o, y)
  {
    PoppedMentions(o, y);
  }

  lemma BeganKnown(o: Obj, y: Id, child: Obj)
    requires Known(o, y, child) && Local(child) && child.core.owner.Some?
    ensures Known(Began(o), y, if y in o.core.owned then Asked(child) else child)
    ensures y in o.core.owned ==> child.termsSent == 0 && child.stage.Announced?
  {
  }

  lemma PoppedKnown(o: Obj, y: Id, child: Obj)
    requires o.mailbox != [] && Known(o, y, child)
    requires o.mailbox[0] != Adopt(y) && o.mailbox[0] != TermAck(y)
    ensures Known(Popped(o), y, child)
  {
  }

  lemma TakenKnown(o: Obj, y: Id, child: Obj)
    requires Ready(o) && Known(o, y, child) && (o.mailbox[0] == Adopt(y) || o.mailbox[0] == TermAck(y))
    requires child.core.destroyed ==> child.termsSent == 1
    ensures var terms := Begun(o.core, o.mailbox[0]).terms;
            Known(Replied(o), y, if y in terms then Asked(child) else child) &&
            (y in terms ==> child.termsSent == 0 && child.stage.Announced?)
  {
  }

  lemma RequestedKnown(o: Obj, y: Id, child: Obj)
    requires Known(o, y, child) && (child.core.destroyed ==> child.termsSent == 1)
    requires !o.core.terminating && y in o.core.owned
    ensures var o' := Changed(o, ProcessTermReq(o.core, y));
            Known(o', y, Asked(child)) && child.termsSent == 0 && child.stage.Announced?
  {
  }

  lemma UnchangedKnown(o: Obj, o': Obj, y: Id, child: Obj)
    requires Known(o, y, child) && o'.mailbox == o.mailbox && o'.core.destroyed == o.core.destroyed
    requires (y in o'.core.owned <==> y in o.core.owned) && (y in o'.waiting <==> y in o.waiting)
    ensures Known(o', y, child)
  {
  }

  lemma RepliedKnown(o: Obj, y: Id, child: Obj)
    requires Ready(o) && Known(o, y, child) && Local(child) && child.core.owner.Some?
    ensures var terms := Begun(o.core, o.mailbox[0]).terms;
            Known(Replied(o), y, if y in terms then Asked(child) else child) &&
            (y in terms ==> child.termsSent == 0 && child.stage.Announced?)
  {
    if o.mailbox[0] == Adopt(y) || o.mailbox[0] == TermAck(y) {
      TakenKnown(o, y, child);
    } else {
      PoppedKnown(o, y, child);
      if o.mailbox[0].Term? {
        BeganKnown(Popped(o), y, child);
      } else if o.mailbox[0] == TermReq(y) && !o.core.terminating && y in o.core.owned {
        RequestedKnown(Popped(o), y, child);
      } else {
        UnchangedKnown(Popped(o), Replied(o), y, child);
      }
    }
  }

  lemma IsReady(s: State, x: Id)
    requires Consistent(s) && Alive(s, x) && s.objs[x].mailbox != []
    ensures Ready(s.objs[x])
  {
    var o := s.objs[x];
    assert Local(o);
    if o.mailbox[0].TermAck? {
      assert MentionsChildren(s, x) && Mentions(o, o.mailbox[0].from) && OwnerKnows(s, o.mailbox[0].from);
    }
    if o.mailbox[0].Adopt? {
      assert MentionsChildren(s, x) && Mentions(o, o.mailbox[0].child) && OwnerKnows(s, o.mailbox[0].child);
    }
  }

  lemma ChildKnown(s: State, x: Id, y: Id)
    requires Consistent(s) && IsChild(s, x, y)
    ensures x in s.objs && x < y && Known(s.objs[x], y, s.objs[y]) && Local(s.objs[y])
  {
    assert OwnerKnows(s, y) && Local(s.objs[y]);
  }

  lemma RepliedChildren(s: State, x: Id, y: Id)
    requires Consistent(s) && Alive(s, x) && Ready(s.objs[x])
    requires Mentions(Replied(s.objs[x]), y) || y in Begun(s.objs[x].core, s.objs[x].mailbox[0]).terms
    ensures IsChild(s, x, y)
  {
    RepliedMentions(s.objs[x], y);
    assert MentionsChildren(s, x);
  }

  lemma RepliedChildKnown(s: State, x: Id, y: Id)
    requires Consistent(s) && Alive(s, x) && Ready(s.objs[x]) && IsChild(s, x, y)
    ensures var o := s.objs[x];
            var terms := Begun(o.core, o.mailbox[0]).terms;
            Known(Replied(o), y, if y in terms then Asked(s.objs[y]) else s.objs[y]) &&
            (y in terms ==> s.objs[y].termsSent == 0 && s.objs[y].stage.Announced?)
  {
    ChildKnown(s, x, y);
    RepliedKnown(s.objs[x], y, s.objs[y]);
  }

  lemma RepliedSound(s: State, x: Id)
    requires Consistent(s) && Alive(s, x) && Ready(s.objs[x])
    ensures Sound(s, x, Replied(s.objs[x]), Begun(s.objs[x].core, s.objs[x].mailbox[0]).terms)
  {
    var o := s.objs[x];
    var terms := Begun(o.core, o.mailbox[0]).terms;
    RepliedLocal(o);
    forall y | Mentions(Replied(o), y) || y in terms ensures IsChild(s, x, y) {
      RepliedChildren(s, x, y);
    }
    forall y | IsChild(s, x, y)
      ensures Known(Replied(o), y, if y in terms then Asked(s.objs[y]) else s.objs[y])
      ensures y in terms ==> s.objs[y].termsSent == 0 && s.objs[y].stage.Announced?
    {
      RepliedChildKnown(s, x, y);
    }
  }

  lemma HandledKeeps(s: State, x: Id)
    requires Consistent(s) && Alive(s, x) && s.objs[x].mailbox != []
    ensures Consistent(Handled(s, x))
  {
    IsReady(s, x);
    RepliedSound(s, x);
    SoundKeeps(s, x, Replied(s.objs[x]), Begun(s.objs[x].core, s.objs[x].mailbox[0]).terms);
  }

  /** An object without owner begins to terminate on its own. */
  lemma BeganKeeps(s: State, x: Id)
    requires Consistent(s) && Alive(s, x) && !s.objs[x].core.terminating && s.objs[x].stage.Root?
    ensures Consistent(After(s, x, Began(s.objs[x]), s.objs[x].core.owned))
  {
    var o := s.objs[x];
    RootBegan(o);
    assert MentionsChildren(s, x);
    forall y | IsChild(s, x, y)
      ensures Known(Began(o), y, if y in o.core.owned then Asked(s.objs[y]) else s.objs[y])
      ensures y in o.core.owned ==> s.objs[y].termsSent == 0 && s.objs[y].stage.Announced?
    {
      assert OwnerKnows(s, y) && Local(s.objs[y]);
      BeganKnown(o, y, s.objs[y]);
    }
    SoundKeeps(s, x, Began(o), o.core.owned);
  }

  // Destruction

  lemma {:induction false} CountBounded(m: seq<Command>, cmd: Command)
    requires IsSequenced(cmd)
    ensures Count(m, cmd) <= CountSequenced(m)
  {
    if m != [] {
      CountBounded(m[1..], cmd);
    }
  }

  /** When x has nothing left to wait for, no child of x is alive, even one that is still
      being launched: whoever launches it is a child of x too, and an older one. */
  lemma {:induction false} NoChildLeft(s: State, x: Id, y: Id)
    requires Consistent(s) && Free(s, x) && Finished(s.objs[x].core) && IsChild(s, x, y)
    ensures s.objs[y].core.destroyed && Known(s.objs[x], y, s.objs[y])
    decreases y
  {
    var o := s.objs[x];
    assert Local(o) && Local(s.objs[y]) && OwnerKnows(s, y);
    if s.objs[y].stage.Launching? {
      var l := s.objs[y].stage.launcher;
      assert LauncherKnows(s, y);
      assert LauncherKnows(s, l);
      assert Local(s.objs[l]);
      if l != x {
        NoChildLeft(s, x, l);
      }
      assert false;
    }
    CountBounded(o.mailbox, Adopt(y));
  }

  lemma NothingLeft(s: State, x: Id)
    requires Consistent(s) && Free(s, x) && Finished(s.objs[x].core)
    ensures s.objs[x].mailbox == [] && s.objs[x].reserved == {} && s.objs[x].waiting == {} && s.objs[x].external == 0
    ensures s.objs[x].core.owned == {}
  {
    var o := s.objs[x];
    assert Local(o);
    if o.mailbox != [] {
      IsReady(s, x);
      if o.mailbox[0].TermReq? {
        var y := o.mailbox[0].child;
        assert MentionsChildren(s, x) && Mentions(o, y);
        NoChildLeft(s, x, y);
      }
    }
  }

  /** x is destroyed and tells its owner. */
  function Retired(s: State, x: Id): State
    requires x in s.objs
  {
    var s1 := s.(objs := s.objs[x := s.objs[x].(core := s.objs[x].core.(destroyed := true))]);
    if s.objs[x].core.owner.Some? then Post(s1, s.objs[x].core.owner.value, TermAck(x)) else s1
  }

  lemma RetiredOwner(s: State, x: Id)
    requires Consistent(s) && Free(s, x) && Finished(s.objs[x].core) && s.objs[x].core.owner.Some?
    ensures var q := s.objs[x].core.owner.value;
            q < x && Alive(s, q) && s.objs[x].termsSent == 1 &&
            x in s.objs[q].waiting && Known(s.objs[q], x, s.objs[x])
  {
    assert OwnerKnows(s, x) && Local(s.objs[x]);
  }

  lemma AckedKnows(q: Obj, x: Id, y: Id, o: Obj)
    requires Known(q, y, o) && y != x
    ensures Known(q.(mailbox := q.mailbox + [TermAck(x)]), y, o)
  {
    Appended(q.mailbox, TermAck(x));
  }

  lemma AckedLocal(q: Obj, x: Id)
    requires Local(q) && !q.core.destroyed
    ensures Local(q.(mailbox := q.mailbox + [TermAck(x)]))
    ensures forall y :: Mentions(q.(mailbox := q.mailbox + [TermAck(x)]), y) ==> y == x || Mentions(q, y)
  {
    Appended(q.mailbox, TermAck(x));
  }

  lemma RetiredLocal(s: State, x: Id, y: Id)
    requires Consistent(s) && Free(s, x) && Finished(s.objs[x].core) && y in s.objs
    ensures Retired(s, x).objs.Keys == s.objs.Keys && Local(Retired(s, x).objs[y])
  {
    NothingLeft(s, x);
    assert Local(s.objs[y]);
    if s.objs[x].core.owner.Some? {
      RetiredOwner(s, x);
      if y == s.objs[x].core.owner.value {
        AckedLocal(s.objs[y], x);
      }
    }
  }

  lemma RetiredMentions(s: State, x: Id, y: Id)
    requires Consistent(s) && Free(s, x) && Finished(s.objs[x].core) && y in s.objs
    requires SameLaunches(s, Retired(s, x))
    ensures MentionsChildren(Retired(s, x), y)
  {
    assert MentionsChildren(s, y);
    if s.objs[x].core.owner == Some(y) {
      RetiredOwner(s, x);
      assert Local(s.objs[y]);
      AckedLocal(s.objs[y], x);
      assert IsChild(s, y, x);
    }
    MentionsFrame(s, Retired(s, x), y);
  }

  lemma RetiredKnown(q: Obj, x: Id, o: Obj)
    requires Known(q, x, o) && x in q.waiting && !o.core.destroyed && !q.core.destroyed
    ensures Known(q.(mailbox := q.mailbox + [TermAck(x)]), x, o.(core := o.core.(destroyed := true)))
  {
    Appended(q.mailbox, TermAck(x));
  }

  lemma RetiredOwnerKnows(s: State, x: Id, y: Id)
    requires Consistent(s) && Free(s, x) && Finished(s.objs[x].core) && y in s.objs
    requires Retired(s, x).objs.Keys == s.objs.Keys
    ensures OwnerKnows(Retired(s, x), y)
  {
    assert OwnerKnows(s, y);
    if s.objs[y].core.owner.Some? {
      var q := s.objs[y].core.owner.value;
      if q == x {
        NoChildLeft(s, x, y);
      }
      if s.objs[x].core.owner.Some? {
        RetiredOwner(s, x);
        if q == s.objs[x].core.owner.value {
          if y == x {
            RetiredKnown(s.objs[q], x, s.objs[x]);
          } else {
            AckedKnows(s.objs[q], x, y, s.objs[y]);
          }
        }
      }
    }
  }

  lemma RetiredLaunches(s: State, x: Id)
    requires x in s.objs && (s.objs[x].core.owner.Some? ==> Alive(s, s.objs[x].core.owner.value) && s.objs[x].core.owner.value != x)
    ensures SameLaunches(s, Retired(s, x)) && Retired(s, x).fault == s.fault && Retired(s, x).next == s.next
  {
    assert Retired(s, x).objs.Keys == s.objs.Keys;
  }

  lemma RetiredKeeps(s: State, x: Id)
    requires Consistent(s) && Free(s, x) && Finished(s.objs[x].core)
    ensures Consistent(Retired(s, x))
  {
    if s.objs[x].core.owner.Some? {
      RetiredOwner(s, x);
    }
    RetiredLaunches(s, x);
    forall y | y in s.objs
      ensures Local(Retired(s, x).objs[y]) && MentionsChildren(Retired(s, x), y)
      ensures OwnerKnows(Retired(s, x), y) && LauncherKnows(Retired(s, x), y)
    {
      RetiredLocal(s, x, y);
      RetiredMentions(s, x, y);
      RetiredOwnerKnows(s, x, y);
      LauncherFrame(s, Retired(s, x), y);
    }
  }

  /** Other objects than x have been destroyed when they had nothing left to wait for. */
  ghost predicate OthersSettled(s: State, x: Id) { forall y :: y in s.objs && y != x ==> Settled(s.objs[y]) }

  /** The check at the end of a handler of x. */
  function Checked(s: State, x: Id): State
    requires x in s.objs
  {
    if Finished(s.objs[x].core) then Retired(s, x) else s
  }

  lemma CheckedKeeps(s: State, x: Id)
    requires Consistent(s) && Free(s, x) && OthersSettled(s, x)
    ensures Inv(Checked(s, x))
  {
    if Finished(s.objs[x].core) {
      RetiredKeeps(s, x);
      if s.objs[x].core.owner.Some? {
        RetiredOwner(s, x);
      }
      forall y | y in Retired(s, x).objs ensures Settled(Retired(s, x).objs[y]) {
        assert y != x ==> Settled(s.objs[y]);
      }
    }
  }

  /** A handler that ends with the check takes the system through both steps. */
  lemma FinishChecks(s: State, x: Id, o: Obj, core: Core, terms: set<Id>)
    requires x in s.objs && x !in terms && !core.destroyed
    requires core.owner == o.core.owner && (core.owner.Some? ==> core.owner.value != x)
    requires Finished(core) ==> terms == {} && core.owned == {} && o.mailbox == []
    ensures Finish(s, x, o, CheckTermAcks(core).(terms := terms)) ==
            Checked(After(s, x, Changed(o, Reply(core, terms, false, false)), terms), x)
  {
    if Finished(core) {
      var o1 := Changed(o, Reply(core, terms, false, false));
      var o2 := o1.(core := core.(destroyed := true));
      PostNobody(s.(objs := s.objs[x := o1]));
      PostNobody(s.(objs := s.objs[x := o2]));
      assert s.objs[x := o1][x := o2] == s.objs[x := o2];
    }
  }

  lemma PostNobody(s: State)
    ensures PostTerms(s, {}) == s
  {
    assert PostTerms(s, {}).objs == s.objs;
  }

  lemma AfterOthers(s: State, x: Id, o: Obj, terms: set<Id>)
    requires Inv(s) && x in s.objs
    ensures OthersSettled(After(s, x, o, terms), x)
  {
    forall y | y in s.objs && y != x ensures Settled(After(s, x, o, terms).objs[y]) {
      assert Settled(s.objs[y]);
    }
  }

  lemma HandledDone(s: State, x: Id)
    requires Inv(s) && Free(s, x) && s.objs[x].mailbox != []
    ensures var o := s.objs[x];
            var reply := Begun(o.core, o.mailbox[0]);
            !reply.fault && !reply.ack && x !in reply.terms && reply.core.owner == o.core.owner &&
            (Finished(reply.core) ==> reply.terms == {} && reply.core.owned == {} && o.mailbox[1..] == [])
  {
    var o := s.objs[x];
    IsReady(s, x);
    HandledKeeps(s, x);
    var reply := Begun(o.core, o.mailbox[0]);
    if x in reply.terms {
      RepliedMentions(o, x);
      assert MentionsChildren(s, x);
      ChildKnown(s, x, x);
    }
    if Finished(reply.core) {
      NothingLeft(Handled(s, x), x);
    }
  }

  lemma CommandChecks(o: Obj)
    requires Ready(o) && Settled(o) && !Begun(o.core, o.mailbox[0]).fault
    ensures var reply := Begun(o.core, o.mailbox[0]);
            ProcessCommand(o.core, o.mailbox[0]) == CheckTermAcks(reply.core).(terms := reply.terms)
  {
  }

  lemma ProcessIs(s: State, x: Id)
    requires Free(s, x) && s.objs[x].core.owner != Some(x) && Ready(s.objs[x]) && Settled(s.objs[x])
    requires var o := s.objs[x];
             var reply := Begun(o.core, o.mailbox[0]);
             !reply.fault && !reply.ack && x !in reply.terms && reply.core.owner == o.core.owner &&
             (Finished(reply.core) ==> reply.terms == {} && reply.core.owned == {} && o.mailbox[1..] == [])
    ensures Step(s, Process(x)) == Checked(Handled(s, x), x)
  {
    var o := s.objs[x];
    var reply := Begun(o.core, o.mailbox[0]);
    CommandChecks(o);
    FinishChecks(s, x, Popped(o), reply.core, reply.terms);
  }

  lemma NotOwnOwner(s: State, x: Id)
    requires Consistent(s) && x in s.objs
    ensures s.objs[x].core.owner != Some(x)
  {
    assert OwnerKnows(s, x);
  }

  lemma ProcessChecked(s: State, x: Id)
    requires Inv(s) && Free(s, x) && s.objs[x].mailbox != []
    ensures Step(s, Process(x)) == Checked(Handled(s, x), x)
  {
    IsReady(s, x);
    HandledDone(s, x);
    NotOwnOwner(s, x);
    ProcessIs(s, x);
  }

  lemma ProcessKeeps(s: State, x: Id)
    requires Inv(s) && Free(s, x) && s.objs[x].mailbox != []
    ensures Inv(Step(s, Process(x)))
  {
    ProcessChecked(s, x);
    IsReady(s, x);
    RepliedLocal(s.objs[x]);
    HandledKeeps(s, x);
    AfterOthers(s, x, Replied(s.objs[x]), Begun(s.objs[x].core, s.objs[x].mailbox[0]).terms);
    HandledFree(s, x);
    CheckedKeeps(Handled(s, x), x);
  }

  lemma HandledFree(s: State, x: Id)
    requires Inv(s) && Free(s, x) && s.objs[x].mailbox != []
    ensures Free(Handled(s, x), x)
  {
    HandledDone(s, x);
  }

  /** Changes of an object that neither its owner nor its children notice. */
  ghost predicate Private(o: Obj, o': Obj) {
    && Local(o') && !o'.core.destroyed
    && SameLaunch(o, o') && o'.termsSent == o.termsSent
    && (forall y :: Mentions(o', y) ==> Mentions(o, y))
    && (forall y, c :: Known(o, y, c) ==> Known(o', y, c))
  }

  lemma PrivateKeeps(s: State, x: Id, o: Obj)
    requires Consistent(s) && Alive(s, x) && Private(s.objs[x], o)
    ensures Consistent(s.(objs := s.objs[x := o]))
  {
    assert MentionsChildren(s, x);
    forall y | IsChild(s, x, y) ensures Known(o, y, s.objs[y]) {
      ChildKnown(s, x, y);
    }
    SoundKeeps(s, x, o, {});
    PostNobody(s.(objs := s.objs[x := o]));
  }

  lemma StaySettled(s: State, x: Id, o: Obj)
    requires Inv(s) && x in s.objs && Settled(o) && Consistent(s.(objs := s.objs[x := o]))
    ensures Inv(s.(objs := s.objs[x := o]))
  {
    forall y | y in s.objs && y != x ensures Settled(s.objs[y]) {}
  }

  lemma PrivateSettled(s: State, x: Id, o: Obj)
    requires Inv(s) && Alive(s, x) && Private(s.objs[x], o) && Settled(o)
    ensures Inv(s.(objs := s.objs[x := o]))
  {
    PrivateKeeps(s, x, o);
    StaySettled(s, x, o);
  }

  function Registered(o: Obj): Obj {
    o.(external := o.external + 1, core := o.core.(termAcks := o.core.termAcks + 1))
  }

  function Unregistered(o: Obj): Obj
    requires o.core.termAcks > 0 && o.external > 0
  {
    o.(external := o.external - 1, core := o.core.(termAcks := o.core.termAcks - 1))
  }

  lemma AcksPrivate(o: Obj)
    requires Local(o) && !o.core.destroyed
    ensures Private(o, Registered(o)) && Settled(Registered(o))
    ensures o.external > 0 ==> o.core.termAcks > 0 && Private(o, Unregistered(o))
  {
  }

  lemma ReservePrivate(o: Obj, n: nat)
    requires Local(o) && !o.core.destroyed && Settled(o) && Other(n) !in o.reserved
    ensures Private(o, ReserveFor(o, Other(n))) && Settled(ReserveFor(o, Other(n)))
  {
  }

  lemma DeliverPrivate(o: Obj, n: nat)
    requires Local(o) && Settled(o) && Other(n) in o.reserved
    ensures !o.core.destroyed
    ensures var o' := DeliverFor(o, Other(n), Sequenced); Private(o, o') && Settled(o')
  {
    Appended(o.mailbox, Sequenced);
  }

  lemma RegisteredKeeps(s: State, x: Id)
    requires Inv(s)
    ensures Inv(Step(s, RegisterAck(x)))
  {
    if Free(s, x) {
      assert Local(s.objs[x]);
      AcksPrivate(s.objs[x]);
      PrivateSettled(s, x, Registered(s.objs[x]));
    }
  }

  lemma ReservedKeeps(s: State, x: Id, n: nat)
    requires Inv(s)
    ensures Inv(Step(s, Reserve(x, n)))
  {
    if Alive(s, x) {
      assert Local(s.objs[x]) && Settled(s.objs[x]);
      if Other(n) in s.objs[x].reserved {
        assert s.objs[x := s.objs[x]] == s.objs;
      } else {
        ReservePrivate(s.objs[x], n);
        PrivateSettled(s, x, ReserveFor(s.objs[x], Other(n)));
      }
    }
  }

  lemma DeliveredKeeps(s: State, x: Id, n: nat)
    requires Inv(s)
    ensures Inv(Step(s, Deliver(x, n)))
  {
    if x in s.objs && Other(n) in s.objs[x].reserved {
      assert Local(s.objs[x]) && Settled(s.objs[x]);
      DeliverPrivate(s.objs[x], n);
      PrivateSettled(s, x, DeliverFor(s.objs[x], Other(n), Sequenced));
    }
  }

  lemma UnregisteredIs(s: State, x: Id)
    requires Free(s, x) && s.objs[x].external > 0 && s.objs[x].core.termAcks > 0 && s.objs[x].core.owner != Some(x)
    requires Finished(Unregistered(s.objs[x]).core) ==> s.objs[x].core.owned == {} && s.objs[x].mailbox == []
    ensures var s1 := s.(objs := s.objs[x := Unregistered(s.objs[x])]);
            Step(s, UnregisterAck(x)) == Checked(s1, x)
  {
    var o := s.objs[x].(external := s.objs[x].external - 1);
    var core := s.objs[x].core.(termAcks := s.objs[x].core.termAcks - 1);
    var s1 := s.(objs := s.objs[x := Unregistered(s.objs[x])]);
    FinishChecks(s, x, o, core, {});
    assert o.waiting + {} == o.waiting;
    PostNobody(s1);
  }

  lemma UnregisteredKeeps(s: State, x: Id)
    requires Inv(s)
    ensures Inv(Step(s, UnregisterAck(x)))
  {
    if Free(s, x) && s.objs[x].external > 0 {
      assert Local(s.objs[x]);
      AcksPrivate(s.objs[x]);
      var s1 := s.(objs := s.objs[x := Unregistered(s.objs[x])]);
      PrivateKeeps(s, x, Unregistered(s.objs[x]));
      if Finished(s1.objs[x].core) {
        NothingLeft(s1, x);
      }
      NotOwnOwner(s, x);
      UnregisteredIs(s, x);
      forall y | y in s1.objs && y != x ensures Settled(s1.objs[y]) {
        assert Settled(s.objs[y]);
      }
      CheckedKeeps(s1, x);
    }
  }

  lemma RootIs(s: State, x: Id)
    requires Free(s, x) && !s.objs[x].core.terminating && s.objs[x].core.owner.None? && x !in s.objs[x].core.owned
    requires Finished(BeginTerm(s.objs[x].core)) ==> s.objs[x].core.owned == {} && s.objs[x].mailbox == []
    ensures Step(s, Terminate(x)) == Checked(After(s, x, Began(s.objs[x]), s.objs[x].core.owned), x)
  {
    FinishChecks(s, x, s.objs[x], BeginTerm(s.objs[x].core), s.objs[x].core.owned);
  }

  lemma OwnedIsChild(s: State, x: Id, y: Id)
    requires Consistent(s) && x in s.objs && y in s.objs[x].core.owned
    ensures IsChild(s, x, y)
  {
    assert MentionsChildren(s, x) && Mentions(s.objs[x], y);
  }

  lemma NotOwned(s: State, x: Id)
    requires Consistent(s) && x in s.objs
    ensures x !in s.objs[x].core.owned && (s.objs[x].core.owner.None? <==> s.objs[x].stage.Root?)
  {
    assert Local(s.objs[x]);
    if x in s.objs[x].core.owned {
      OwnedIsChild(s, x, x);
      ChildKnown(s, x, x);
    }
  }

  lemma TerminateRoot(s: State, x: Id)
    requires Inv(s) && Free(s, x) && !s.objs[x].core.terminating && s.objs[x].core.owner.None?
    ensures Inv(Step(s, Terminate(x)))
  {
    var o := s.objs[x];
    var s1 := After(s, x, Began(o), o.core.owned);
    NotOwned(s, x);
    BeganKeeps(s, x);
    AfterOthers(s, x, Began(o), o.core.owned);
    if Finished(BeginTerm(o.core)) {
      NothingLeft(s1, x);
      assert |o.core.owned| == 0;
    }
    RootIs(s, x);
    CheckedKeeps(s1, x);
  }

  lemma RequestKnown(q: Obj, x: Id)
    requires Local(q) && !q.core.destroyed && Settled(q)
    ensures var q' := q.(mailbox := q.mailbox + [TermReq(x)]);
            Local(q') && Settled(q') && SameLaunch(q, q') &&
            (forall y :: Mentions(q', y) ==> y == x || Mentions(q, y)) &&
            (forall y, c :: Known(q, y, c) && !(y == x && c.core.destroyed) ==> Known(q', y, c))
  {
    Appended(q.mailbox, TermReq(x));
  }

  lemma RequestSound(s: State, q: Id, x: Id)
    requires Consistent(s) && Alive(s, q) && IsChild(s, q, x) && !s.objs[x].core.destroyed && Settled(s.objs[q])
    ensures var o := s.objs[q].(mailbox := s.objs[q].mailbox + [TermReq(x)]); Sound(s, q, o, {}) && Settled(o)
  {
    assert Local(s.objs[q]);
    RequestKnown(s.objs[q], x);
    var o := s.objs[q].(mailbox := s.objs[q].mailbox + [TermReq(x)]);
    forall y | Mentions(o, y) ensures IsChild(s, q, y) {
      assert MentionsChildren(s, q);
    }
    forall y | IsChild(s, q, y) ensures Known(o, y, s.objs[y]) {
      ChildKnown(s, q, y);
    }
  }

  /** `term_req` reaches a living owner. */
  lemma TerminateChild(s: State, x: Id)
    requires Inv(s) && Free(s, x) && s.objs[x].core.owner.Some?
    ensures Inv(Post(s, s.objs[x].core.owner.value, TermReq(x)))
  {
    var q := s.objs[x].core.owner.value;
    assert IsChild(s, q, x);
    ChildKnown(s, q, x);
    RequestSound(s, q, x);
    var o := s.objs[q].(mailbox := s.objs[q].mailbox + [TermReq(x)]);
    SoundKeeps(s, q, o, {});
    PostNobody(s.(objs := s.objs[q := o]));
    StaySettled(s, q, o);
  }

  // Creation

  lemma Unmentioned(s: State, y: Id)
    requires Consistent(s) && y in s.objs
    ensures !Mentions(s.objs[y], s.next) && s.next !in s.objs
  {
    assert MentionsChildren(s, y);
    assert Mentions(s.objs[y], s.next) ==> IsChild(s, y, s.next);
  }

  lemma NewRootKeeps(s: State)
    requires Inv(s)
    ensures Inv(Step(s, NewRoot))
  {
    var s' := Step(s, NewRoot);
    forall y | y in s.objs
      ensures MentionsChildren(s', y) && OwnerKnows(s', y) && LauncherKnows(s', y) && Local(s'.objs[y])
    {
      assert MentionsChildren(s, y) && OwnerKnows(s, y) && LauncherKnows(s, y) && Local(s.objs[y]);
      Unmentioned(s, y);
      MentionsFrame(s, s', y);
    }
    assert MentionsChildren(s', s.next);
    forall y | y in s'.objs ensures Settled(s'.objs[y]) {
      assert y != s.next ==> Settled(s.objs[y]);
    }
  }

  /** x can launch an object for q. */
  predicate CanLaunch(s: State, x: Id, q: Id) {
    Free(s, x) && Alive(s, q) && (q == x || s.objs[x].core.owner == Some(q))
  }

  lemma NewIsLocal(q: Id, x: Id)
    ensures var o := NewObject(Some(q), 1, [Plug], Launching(x));
            Local(o) && Settled(o) && forall y :: !Mentions(o, y)
  {
    var m := [Plug];
    assert m[1..] == [];
    assert CountSequenced(m) == 1;
    assert forall cmd :: Count(m, cmd) == if cmd == Plug then 1 else 0;
  }

  lemma LaunchedNew(s: State, x: Id, q: Id)
    requires Consistent(s) && CanLaunch(s, x, q)
    ensures OwnerKnows(Launch(s, x, q), s.next) && LauncherKnows(Launch(s, x, q), s.next)
  {
    Unmentioned(s, x);
    Unmentioned(s, q);
  }

  lemma LaunchedOld(s: State, x: Id, q: Id, y: Id)
    requires Consistent(s) && CanLaunch(s, x, q) && y in s.objs
    ensures var s' := Launch(s, x, q); Local(s'.objs[y]) && OwnerKnows(s', y)
  {
    assert OwnerKnows(s, y) && Local(s.objs[y]);
    Unmentioned(s, x);
  }

  lemma LaunchedMentions(s: State, x: Id, q: Id, y: Id)
    requires Consistent(s) && CanLaunch(s, x, q) && y in s.objs
    ensures MentionsChildren(Launch(s, x, q), y)
  {
    assert MentionsChildren(s, y);
    Unmentioned(s, x);
    MentionsFrame(s, Launch(s, x, q), y);
  }

  lemma LaunchedLaunches(s: State, x: Id, q: Id, y: Id)
    requires Consistent(s) && CanLaunch(s, x, q) && y in s.objs
    ensures LauncherKnows(Launch(s, x, q), y)
  {
    assert LauncherKnows(s, y);
    Unmentioned(s, x);
    Unmentioned(s, q);
  }

  lemma LaunchKeeps(s: State, x: Id, q: Id)
    requires Inv(s) && CanLaunch(s, x, q)
    ensures Inv(Launch(s, x, q))
  {
    var s' := Launch(s, x, q);
    LaunchedNew(s, x, q);
    NewIsLocal(q, x);
    forall y | y in s.objs
      ensures Local(s'.objs[y]) && MentionsChildren(s', y) && OwnerKnows(s', y) && LauncherKnows(s', y)
      ensures Settled(s'.objs[y])
    {
      LaunchedOld(s, x, q, y);
      LaunchedMentions(s, x, q, y);
      LaunchedLaunches(s, x, q, y);
      assert Settled(s.objs[y]);
    }
  }

  // Announcement

  /** The owner of a launched object is alive until it has received `own`. */
  lemma OwnerOfLaunched(s: State, x: Id)
    requires Consistent(s) && x in s.objs && !s.objs[x].busy.Idle?
    ensures var q := s.objs[x].busy.to;
            Alive(s, x) && Alive(s, q) && IsChild(s, q, s.objs[x].busy.child) && q <= x < s.objs[x].busy.child
  {
    assert LauncherKnows(s, x) && Local(s.objs[x]);
    var q := s.objs[x].busy.to;
    if q != x {
      ChildKnown(s, q, x);
    }
    ChildKnown(s, q, s.objs[x].busy.child);
  }

  lemma ReserveLocal(o: Obj, c: Id)
    requires Local(o) && !o.core.destroyed && ForObject(c) !in o.reserved
    ensures Local(ReserveFor(o, ForObject(c)))
    ensures forall y :: Mentions(ReserveFor(o, ForObject(c)), y) ==> y == c || Mentions(o, y)
    ensures forall y, z :: Known(o, y, z) ==> Known(ReserveFor(o, ForObject(c)), y, z)
    ensures Settled(o) ==> Settled(ReserveFor(o, ForObject(c)))
  {
  }

  /** The launcher x of c when its owner has been announced the command. */
  function Announcement(s: State, x: Id, q: Id, c: Id): State
    requires x in s.objs && q in s.objs
  {
    var s1 := s.(objs := s.objs[x := s.objs[x].(busy := Sending(q, c))]);
    s1.(objs := s1.objs[q := ReserveFor(s1.objs[q], ForObject(c))])
  }

  lemma AnnouncedObject(s: State, x: Id, q: Id, c: Id, y: Id)
    requires Inv(s) && x in s.objs && s.objs[x].busy == Announcing(q, c) && y in s.objs
    requires Alive(s, q) && ForObject(c) !in s.objs[q].reserved
    ensures Local(Announcement(s, x, q, c).objs[y]) && Settled(Announcement(s, x, q, c).objs[y])
  {
    assert Local(s.objs[y]) && Settled(s.objs[y]);
    if y == q {
      ReserveLocal(s.objs[q], c);
    }
  }

  lemma AnnouncedMentions(s: State, x: Id, q: Id, c: Id, y: Id)
    requires Inv(s) && x in s.objs && s.objs[x].busy == Announcing(q, c) && y in s.objs
    requires Alive(s, q) && IsChild(s, q, c) && ForObject(c) !in s.objs[q].reserved
    ensures MentionsChildren(Announcement(s, x, q, c), y)
  {
    assert MentionsChildren(s, y) && Local(s.objs[q]);
    if y == q {
      ReserveLocal(s.objs[q], c);
    }
    MentionsFrame(s, Announcement(s, x, q, c), y);
  }

  lemma AnnouncedKnown(s: State, x: Id, q: Id, c: Id, y: Id)
    requires x in s.objs && q in s.objs && y in s.objs && OwnerKnows(s, y)
    ensures OwnerKnows(Announcement(s, x, q, c), y)
  {
  }

  lemma AnnouncedLaunches(s: State, x: Id, q: Id, c: Id, y: Id)
    requires x in s.objs && s.objs[x].busy == Announcing(q, c) && y in s.objs
    requires Launches(s, x) && Launches(s, y)
    ensures Launches(Announcement(s, x, q, c), y)
  {
    var s' := Announcement(s, x, q, c);
    if y != x && !s.objs[y].busy.Idle? {
      var c' := s.objs[y].busy.child;
      assert c' != c;
      assert s'.objs[c'].stage == s.objs[c'].stage;
    }
  }

  lemma AnnouncedOthers(s: State, x: Id, q: Id, c: Id, y: Id)
    requires x in s.objs && s.objs[x].busy == Announcing(q, c) && y in s.objs
    requires Launches(s, x) && HasLauncher(s, y) && ReservedByLauncher(s, y)
    ensures HasLauncher(Announcement(s, x, q, c), y) && ReservedByLauncher(Announcement(s, x, q, c), y)
  {
  }

  lemma AnnounceKeeps(s: State, x: Id)
    requires Inv(s) && x in s.objs && s.objs[x].busy.Announcing?
    ensures Inv(Continue(s, x))
  {
    OwnerOfLaunched(s, x);
    var q := s.objs[x].busy.to;
    var c := s.objs[x].busy.child;
    assert LauncherKnows(s, x);
    var s' := Announcement(s, x, q, c);
    forall y | y in s.objs
      ensures Local(s'.objs[y]) && MentionsChildren(s', y) && OwnerKnows(s', y) && LauncherKnows(s', y)
      ensures Settled(s'.objs[y])
    {
      AnnouncedObject(s, x, q, c, y);
      AnnouncedMentions(s, x, q, c, y);
      assert OwnerKnows(s, y) && LauncherKnows(s, y);
      AnnouncedKnown(s, x, q, c, y);
      AnnouncedLaunches(s, x, q, c, y);
      AnnouncedOthers(s, x, q, c, y);
    }
  }

  /** Object y with one more command from a launch, in the mailbox where it is expected. */
  lemma AdoptLocal(o: Obj, c: Id)
    requires Local(o) && !o.core.destroyed && ForObject(c) in o.reserved
    ensures Local(DeliverFor(o, ForObject(c), Adopt(c)))
    ensures forall y :: Mentions(DeliverFor(o, ForObject(c), Adopt(c)), y) ==> y == c || Mentions(o, y)
    ensures Settled(o) ==> Settled(DeliverFor(o, ForObject(c), Adopt(c)))
  {
    Appended(o.mailbox, Adopt(c));
  }

  lemma AdoptKnown(q: Obj, c: Id, y: Id, o: Obj)
    requires Known(q, y, o) && !q.core.destroyed
    ensures y != c ==> Known(DeliverFor(q, ForObject(c), Adopt(c)), y, o)
    ensures y == c && o.stage.Launching? && !o.core.destroyed ==>
              Known(DeliverFor(q, ForObject(c), Adopt(c)), y, o.(stage := Announced))
  {
    Appended(q.mailbox, Adopt(c));
  }

  /** x has sent `own` for c to q. */
  function Handover(s: State, x: Id, q: Id, c: Id): State
    requires x in s.objs && q in s.objs && c in s.objs
  {
    var s1 := s.(objs := s.objs[x := s.objs[x].(busy := Idle)]);
    var s2 := s1.(objs := s1.objs[c := s1.objs[c].(stage := Announced)]);
    s2.(objs := s2.objs[q := DeliverFor(s2.objs[q], ForObject(c), Adopt(c))])
  }

  /** What is known when x is about to send `own`. */
  ghost predicate HandsOver(s: State, x: Id, q: Id, c: Id) {
    && Inv(s) && Alive(s, x) && Alive(s, q) && q <= x < c && s.objs[x].busy == Sending(q, c)
    && IsChild(s, q, c) && s.objs[c].stage == Launching(x) && ForObject(c) in s.objs[q].reserved
  }

  lemma HandoverObject(s: State, x: Id, q: Id, c: Id, y: Id)
    requires HandsOver(s, x, q, c) && y in s.objs
    ensures var s' := Handover(s, x, q, c); Local(s'.objs[y]) && Settled(s'.objs[y])
  {
    assert Local(s.objs[y]) && Settled(s.objs[y]) && OwnerKnows(s, c);
    if y == q {
      AdoptLocal(s.objs[q], c);
    }
  }

  lemma HandoverMentions(s: State, x: Id, q: Id, c: Id, y: Id)
    requires HandsOver(s, x, q, c) && y in s.objs
    ensures MentionsChildren(Handover(s, x, q, c), y)
  {
    assert MentionsChildren(s, y) && Local(s.objs[q]);
    if y == q {
      AdoptLocal(s.objs[q], c);
    }
    MentionsFrame(s, Handover(s, x, q, c), y);
  }

  lemma HandoverKnown(s: State, x: Id, q: Id, c: Id, y: Id)
    requires HandsOver(s, x, q, c) && y in s.objs
    ensures OwnerKnows(Handover(s, x, q, c), y)
  {
    assert OwnerKnows(s, y) && Local(s.objs[c]);
    if s.objs[y].core.owner == Some(q) {
      AdoptKnown(s.objs[q], c, y, s.objs[y]);
    }
  }

  lemma HandoverLaunches(s: State, x: Id, q: Id, c: Id, y: Id)
    requires HandsOver(s, x, q, c) && y in s.objs
    ensures Launches(Handover(s, x, q, c), y)
  {
    assert LauncherKnows(s, y) && LauncherKnows(s, x);
    var s' := Handover(s, x, q, c);
    if y != x && !s.objs[y].busy.Idle? {
      var c' := s.objs[y].busy.child;
      assert c' != c;
      assert s'.objs[c'].stage == s.objs[c'].stage;
    }
  }

  lemma HandoverOthers(s: State, x: Id, q: Id, c: Id, y: Id)
    requires HandsOver(s, x, q, c) && y in s.objs
    ensures HasLauncher(Handover(s, x, q, c), y) && ReservedByLauncher(Handover(s, x, q, c), y)
  {
    assert LauncherKnows(s, y);
  }

  lemma SendOwnKeeps(s: State, x: Id)
    requires Inv(s) && x in s.objs && s.objs[x].busy.Sending?
    ensures Inv(Continue(s, x))
  {
    OwnerOfLaunched(s, x);
    var q := s.objs[x].busy.to;
    var c := s.objs[x].busy.child;
    assert LauncherKnows(s, x);
    var s' := Handover(s, x, q, c);
    forall y | y in s.objs
      ensures Local(s'.objs[y]) && MentionsChildren(s', y) && OwnerKnows(s', y) && LauncherKnows(s', y)
      ensures Settled(s'.objs[y])
    {
      HandoverObject(s, x, q, c, y);
      HandoverMentions(s, x, q, c, y);
      HandoverKnown(s, x, q, c, y);
      HandoverLaunches(s, x, q, c, y);
      HandoverOthers(s, x, q, c, y);
    }
  }

  // Runs

  lemma StepKeepsInv(s: State, a: Action)
    requires Inv(s)
    ensures Inv(Step(s, a))
  {
    match a
    case NewRoot => NewRootKeeps(s);
    case LaunchChild(x) =>
      if Free(s, x) {
        LaunchKeeps(s, x, x);
      }
    case LaunchSibling(x) =>
      if Free(s, x) && s.objs[x].core.owner.Some? {
        ChildKnown(s, s.objs[x].core.owner.value, x);
        LaunchKeeps(s, x, s.objs[x].core.owner.value);
      }
    case ContinueLaunch(x) =>
      if x in s.objs && s.objs[x].busy.Announcing? {
        AnnounceKeeps(s, x);
      } else if x in s.objs && s.objs[x].busy.Sending? {
        SendOwnKeeps(s, x);
      }
    case Reserve(x, n) => ReservedKeeps(s, x, n);
    case Deliver(x, n) => DeliveredKeeps(s, x, n);
    case Process(x) =>
      if Free(s, x) && s.objs[x].mailbox != [] {
        ProcessKeeps(s, x);
      }
    case Terminate(x) =>
      if Free(s, x) && !s.objs[x].core.terminating {
        if s.objs[x].core.owner.Some? {
          TerminateChild(s, x);
        } else {
          TerminateRoot(s, x);
        }
      }
    case RegisterAck(x) => RegisteredKeeps(s, x);
    case UnregisterAck(x) => UnregisteredKeeps(s, x);
  }

  lemma {:induction false} RunKeepsInv(s: State, run: seq<Action>)
    requires Inv(s)
    ensures Inv(Exec(s, run))
    decreases |run|
  {
    if run != [] {
      StepKeepsInv(s, run[0]);
      RunKeepsInv(Step(s, run[0]), run[1..]);
    }
  }

  /** No assertion of own.cpp fails, no command is sent to a destroyed object and none is
      left in the mailbox of an object that is destroyed. */
  lemma NoFault(run: seq<Action>)
    ensures !Exec(Init(), run).fault
  {
    RunKeepsInv(Init(), run);
  }

  /** No object is sent `term` twice, and one without owner is not sent it at all. */
  lemma TermSentOnce(run: seq<Action>, x: Id)
    requires x in Exec(Init(), run).objs
    ensures var o := Exec(Init(), run).objs[x]; o.termsSent <= if o.core.owner.Some? then 1 else 0
  {
    RunKeepsInv(Init(), run);
    assert Local(Exec(Init(), run).objs[x]);
  }

  /** An object is destroyed with every sequenced command processed, every reserved one
      included, and with every ack received that it waited for. */
  lemma DestroyedAfterAll(run: seq<Action>, x: Id)
    requires x in Exec(Init(), run).objs && Exec(Init(), run).objs[x].core.destroyed
    ensures var o := Exec(Init(), run).objs[x];
            o.core.terminating && o.core.processedSeqnum == o.core.sentSeqnum && o.core.termAcks == 0 &&
            o.mailbox == [] && o.reserved == {} && o.waiting == {} && o.core.owned == {}
  {
    RunKeepsInv(Init(), run);
    assert Local(Exec(Init(), run).objs[x]);
  }

  /** y is x or is owned by x, directly or not. */
  predicate Below(s: State, x: Id, y: Id)
    decreases y
  {
    x == y || (y in s.objs && s.objs[y].core.owner.Some? && s.objs[y].core.owner.value < y &&
               Below(s, x, s.objs[y].core.owner.value))
  }

  /** Nothing that was ever launched below an object outlives it, whether its `own` arrived
      before or after the termination began. */
  lemma {:induction false} DestroyedBelow(s: State, x: Id, y: Id)
    requires Inv(s) && x in s.objs && s.objs[x].core.destroyed && Below(s, x, y)
    ensures y in s.objs && s.objs[y].core.destroyed
    decreases y
  {
    if x != y {
      DestroyedBelow(s, x, s.objs[y].core.owner.value);
      assert OwnerKnows(s, y);
    }
  }

  lemma DestroyedLast(run: seq<Action>, x: Id, y: Id)
    requires x in Exec(Init(), run).objs && Exec(Init(), run).objs[x].core.destroyed && Below(Exec(Init(), run), x, y)
    ensures y in Exec(Init(), run).objs && Exec(Init(), run).objs[y].core.destroyed
  {
    RunKeepsInv(Init(), run);
    DestroyedBelow(Exec(Init(), run), x, y);
  }

  /** Nobody has anything left to do: no command is waiting to be processed or sent and no
      ack of a pipe is awaited. */
  ghost predicate Quiescent(s: State) {
    forall x {:trigger s.objs[x]} :: x in s.objs ==>
      s.objs[x].mailbox == [] && s.objs[x].reserved == {} && s.objs[x].external == 0
  }

  /** Shutdown cannot get stuck: when nobody has anything left to do, everything that began to
      terminate is gone. */
  lemma {:induction false} QuiescentIsDone(s: State, x: Id)
    requires Inv(s) && Quiescent(s) && x in s.objs && s.objs[x].core.terminating
    ensures s.objs[x].core.destroyed
    decreases s.next - x
  {
    var o := s.objs[x];
    assert Local(o) && Settled(o);
    if !o.core.destroyed {
      assert o.waiting != {};
      var y :| y in o.waiting;
      assert MentionsChildren(s, x) && Mentions(o, y);
      ChildKnown(s, x, y);
      QuiescentIsDone(s, y);
    }
  }

  lemma ShutdownCompletes(run: seq<Action>, x: Id)
    requires x in Exec(Init(), run).objs && Exec(Init(), run).objs[x].core.terminating
    requires Quiescent(Exec(Init(), run))
    ensures Exec(Init(), run).objs[x].core.destroyed
  {
    RunKeepsInv(Init(), run);
    QuiescentIsDone(Exec(Init(), run), x);
  }

  /** A request to terminate a child is dropped when the owner terminates already, and also
      when it does not own the child - yet. */
  lemma RequestIgnored(s: State, q: Id, x: Id)
    requires Free(s, q) && s.objs[q].mailbox != [] && s.objs[q].mailbox[0] == TermReq(x)
    requires s.objs[q].core.terminating || x !in s.objs[q].core.owned
    ensures Step(s, Process(q)) == s.(objs := s.objs[q := s.objs[q].(mailbox := s.objs[q].mailbox[1..])])
  {
    var o := s.objs[q].(mailbox := s.objs[q].mailbox[1..]);
    assert o.waiting + {} == o.waiting;
    PostNobody(s.(objs := s.objs[q := o]));
  }

  /** An object that is told to terminate asks its living owner, or begins to terminate if it has none; one that
      terminates already does nothing. */
  lemma TerminateAsks(run: seq<Action>, x: Id)
    requires Free(Exec(Init(), run), x)
    ensures
      var s := Exec(Init(), run);
      var v := Step(s, Terminate(x));
      var o := s.objs[x];
      if o.core.terminating then v == s
      else if o.core.owner.Some? then
        var q := o.core.owner.value;
        Alive(s, q) && v == s.(objs := s.objs[q := s.objs[q].(mailbox := s.objs[q].mailbox + [TermReq(x)])])
      else x in v.objs && v.objs[x].core.terminating
  {
    RunKeepsInv(Init(), run);
    var s := Exec(Init(), run);
    assert OwnerKnows(s, x) && Local(s.objs[x]);
  }

  /** When the owner q has taken a request of x out of its mailbox, `term` was sent to x - now or
      before - if and only if the `own` for x was sent and is not in the mailbox any more; in all
      other cases the request is gone and x has not been sent anything. */
  lemma RequestHonoured(run: seq<Action>, q: Id, x: Id)
    requires var s := Exec(Init(), run);
             Free(s, q) && s.objs[q].mailbox != [] && s.objs[q].mailbox[0] == TermReq(x)
    ensures var s := Exec(Init(), run);
            var s' := Step(s, Process(q));
            && x in s.objs && x in s'.objs
            && (s'.objs[x].termsSent == 1 <==> s.objs[x].stage.Announced? && Count(s.objs[q].mailbox, Adopt(x)) == 0)
            && s.objs[x].termsSent <= s'.objs[x].termsSent <= 1
  {
    RunKeepsInv(Init(), run);
    var s := Exec(Init(), run);
    var o := s.objs[q];
    assert MentionsChildren(s, q) && Mentions(o, x);
    assert OwnerKnows(s, x) && Local(s.objs[x]) && Local(o);
    if o.core.terminating || x !in o.core.owned {
      RequestIgnored(s, q, x);
    } else {
      assert s.objs[x].termsSent == 0 && x != q;
    }
  }

  /** So an object that asks before its owner has received `own` asks in vain: the request is
      gone, nothing is terminated, and `own` is the only command left. */
  lemma EarlyRequestIsLost()
    ensures var s := Exec(Init(), [NewRoot, LaunchChild(0), Terminate(1), ContinueLaunch(0), ContinueLaunch(0), Process(0)]);
            s.objs.Keys == {0, 1} && s.objs[0].mailbox == [Adopt(1)] && s.objs[1].mailbox == [Plug] &&
            !s.objs[0].core.terminating && !s.objs[1].core.terminating
  {
    var s1 := Step(Init(), NewRoot);
    var s2 := Step(s1, LaunchChild(0));
    var s3 := Step(s2, Terminate(1));
    var s4 := Step(s3, ContinueLaunch(0));
    var s5 := Step(s4, ContinueLaunch(0));
    assert s5.objs[0].mailbox == [TermReq(1), Adopt(1)];
    RequestIgnored(s5, 0, 1);
  }
}
