/**
 Replies find their way back (rep.cpp on top of xrep.cpp): a REP socket copies
 the routing part of a request to the pipe of the peer that sent it, and the
 reply follows it there.

 Module RepSpec says what the operations do to the fields; module RepRuns puts
 the peers around them and proves what every run keeps; module Rep runs the
 operations in place.
 */
module RepSpec {
  import opened Common

  type Blob = seq<int>
  datatype Part = Part(body: Blob, more: bool)
  type Message = seq<Part>

  /** inpipe_t: the identity of the peer, whether the pipe may have something to read, the whole messages
      that the peer flushed, and how many parts of the first one were read. */
  datatype InPipe = InPipe(identity: Blob, active: bool, queue: seq<Message>, at: nat)

  /** An outbound pipe: the parts that were flushed, those of the open message, and what `check_write` says. */
  datatype OutPipe = OutPipe(flushed: seq<Part>, open: seq<Part>, room: bool)

  /** The fields of xrep_t. */
  datatype Xrep = Xrep(
    ins: seq<InPipe>,
    currentIn: nat,
    prefetched: Option<Part>,
    moreIn: bool,
    outs: map<Blob, OutPipe>,
    currentOut: Option<Blob>,
    moreOut: bool)

  /** `reader_t::read` on a pipe that holds whole messages. */
  function ReadPart(p: InPipe): (InPipe, Option<Part>) {
    if p.queue == [] || p.at >= |p.queue[0]| then (p, None)
    else
      (if p.at + 1 < |p.queue[0]| then p.(at := p.at + 1) else p.(queue := p.queue[1..], at := 0),
       Some(p.queue[0][p.at]))
  }

  function Next(x: Xrep): nat { if x.currentIn + 1 >= |x.ins| then 0 else x.currentIn + 1 }

  /** The loop of `xrecv`: looks for a pipe with a message, for `count` more pipes. */
  function Scan(x: Xrep, count: nat): (Xrep, Option<Part>)
    decreases count
  {
    if count == 0 || x.currentIn >= |x.ins| then (x, None)
    else
      var pipe := x.ins[x.currentIn];
      var (pipe1, part) := ReadPart(pipe);
      if pipe.active && part.Some? then
        (x.(ins := x.ins[x.currentIn := pipe1], prefetched := part), Some(Part(pipe.identity, true)))
      else
        Scan(x.(ins := x.ins[x.currentIn := pipe.(active := false)], currentIn := Next(x)), count - 1)
  }

  /** `xrep_t::xrecv` */
  function XRecv(x: Xrep): (Xrep, Option<Part>) {
    if x.prefetched.Some? then
      (x.(prefetched := None, moreIn := x.prefetched.value.more), x.prefetched)
    else if x.moreIn then
      if x.currentIn >= |x.ins| then (x, None)
      else
        var (pipe, part) := ReadPart(x.ins[x.currentIn]);
        if part.None? then (x, None)
        else
          var x1 := x.(ins := x.ins[x.currentIn := pipe], moreIn := part.value.more);
          (if part.value.more then x1 else x1.(currentIn := Next(x1)), part)
    else Scan(x, |x.ins|)
  }

  /** What `xrecv` takes for granted while it is within a message: there is a next part, in an active pipe. */
  predicate Ready(x: Xrep) {
    x.prefetched.None? && x.moreIn ==>
      && x.currentIn < |x.ins|
      && x.ins[x.currentIn].active
      && ReadPart(x.ins[x.currentIn]).1.Some?
  }

  /** `xrep_t::xsend`: the first part names the peer. */
  function XSend(x: Xrep, p: Part): Xrep {
    if !x.moreOut then
      if !p.more then x
      else if p.body !in x.outs then x.(moreOut := true)
      else if !x.outs[p.body].room then x
      else x.(moreOut := true, currentOut := Some(p.body))
    else if x.currentOut.None? || x.currentOut.value !in x.outs then x.(moreOut := p.more)
    else
      var id := x.currentOut.value;
      var pipe := x.outs[id];
      if p.more then x.(outs := x.outs[id := pipe.(open := pipe.open + [p])])
      else
        x.(moreOut := false, currentOut := None,
           outs := x.outs[id := OutPipe(pipe.flushed + pipe.open + [p], [], pipe.room)])
  }

  /** `xrep_t::rollback` */
  function Rollback(x: Xrep): Xrep {
    if x.currentOut.None? || x.currentOut.value !in x.outs then x
    else
      var id := x.currentOut.value;
      x.(outs := x.outs[id := x.outs[id].(open := [])], currentOut := None, moreOut := false)
  }

  // The loop ends: every part that is read leaves fewer to read

  function Lengths(queue: seq<Message>): nat { if queue == [] then 0 else |queue[0]| + Lengths(queue[1..]) }

  function Unread(p: InPipe): nat { if p.at <= Lengths(p.queue) then Lengths(p.queue) - p.at else 0 }

  function AllUnread(ins: seq<InPipe>): nat { if ins == [] then 0 else Unread(ins[0]) + AllUnread(ins[1..]) }

  function Work(x: Xrep): nat { 2 * AllUnread(x.ins) + (if x.prefetched.Some? then 1 else 0) }

  lemma {:induction false} AllUnreadUpdate(ins: seq<InPipe>, i: nat, p: InPipe)
    requires i < |ins|
    ensures AllUnread(ins[i := p]) == AllUnread(ins) - Unread(ins[i]) + Unread(p)
    decreases |ins|
  {
    if i == 0 {
      assert ins[0 := p][1..] == ins[1..];
    } else {
      assert ins[i := p][1..] == ins[1..][i - 1 := p];
      AllUnreadUpdate(ins[1..], i - 1, p);
    }
  }

  lemma ReadPartWork(p: InPipe)
    ensures ReadPart(p).1.Some? ==> Unread(ReadPart(p).0) == Unread(p) - 1
  {
  }

  lemma {:induction false} ScanWork(x: Xrep, count: nat)
    requires x.prefetched.None?
    ensures Scan(x, count).1.Some? ==> Work(Scan(x, count).0) < Work(x)
    decreases count
  {
    if count != 0 && x.currentIn < |x.ins| {
      var pipe := x.ins[x.currentIn];
      var (pipe1, part) := ReadPart(pipe);
      if pipe.active && part.Some? {
        ReadPartWork(pipe);
        AllUnreadUpdate(x.ins, x.currentIn, pipe1);
      } else {
        AllUnreadUpdate(x.ins, x.currentIn, pipe.(active := false));
        ScanWork(x.(ins := x.ins[x.currentIn := pipe.(active := false)], currentIn := Next(x)), count - 1);
      }
    }
  }

  lemma XRecvWork(x: Xrep)
    ensures XRecv(x).1.Some? ==> Work(XRecv(x).0) < Work(x)
  {
    if x.prefetched.None? {
      if !x.moreIn {
        ScanWork(x, |x.ins|);
      } else if x.currentIn < |x.ins| {
        ReadPartWork(x.ins[x.currentIn]);
        AllUnreadUpdate(x.ins, x.currentIn, ReadPart(x.ins[x.currentIn]).0);
      }
    }
  }

  /** The loop of `rep_t::xrecv` that copies the stack; the result is false if there is no request. */
  function CopyStack(x: Xrep): (Xrep, bool)
    decreases Work(x)
  {
    XRecvWork(x);
    var (x1, part) := XRecv(x);
    if part.None? then (x1, false)
    else if !part.value.more then CopyStack(Rollback(x1))
    else if part.value.body == [] then (XSend(x1, part.value), true)
    else CopyStack(XSend(x1, part.value))
  }

  /** rep_t */
  datatype State = State(xrep: Xrep, sendingReply: bool, requestBegins: bool)

  datatype Received = Got(part: Part) | NoRequest | WrongState

  function Recv(s: State): (State, Received) {
    if s.sendingReply then (s, WrongState)
    else
      var (x1, bottom) := if s.requestBegins then CopyStack(s.xrep) else (s.xrep, true);
      if !bottom then (s.(xrep := x1), NoRequest)
      else
        var (x2, part) := XRecv(x1);
        if part.None? then (State(x2, false, false), NoRequest)
        else (State(x2, !part.value.more, !part.value.more), Got(part.value))
  }

  /** The result is false in the wrong state. */
  function Send(s: State, p: Part): (State, bool) {
    if !s.sendingReply then (s, false)
    else (s.(xrep := XSend(s.xrep, p), sendingReply := p.more), true)
  }

  // Requests

  predicate IsMessage(m: Message) {
    m != [] && !m[|m| - 1].more && forall i {:trigger m[i]} :: 0 <= i < |m| - 1 ==> m[i].more
  }

  /** The length of the stack of a request: up to the first empty part, which must not be the last part. */
  function StackLength(m: Message): (n: Option<nat>)
    ensures n.Some? ==> 0 < n.value <= |m|
    decreases |m|
  {
    if m == [] || !m[0].more then None
    else if m[0].body == [] then Some(1)
    else match StackLength(m[1..]) case None => None case Some(n) => Some(n + 1)
  }

  /** The first `j` parts do not end the stack. */
  predicate NoBottom(m: Message, j: nat)
    requires j <= |m|
  {
    forall t {:trigger m[t]} :: 0 <= t < j ==> m[t].more && m[t].body != []
  }

  lemma {:induction false} StackLengthAt(m: Message, j: nat)
    requires j < |m| && NoBottom(m, j)
    requires !m[j].more || m[j].body == []
    ensures StackLength(m) == if m[j].more then Some(j + 1) else None
    decreases j
  {
    if j > 0 {
      assert forall t {:trigger m[1..][t]} :: 0 <= t < j - 1 ==> m[1..][t] == m[t + 1];
      StackLengthAt(m[1..], j - 1);
    }
  }

  /** The requests of a queue: the messages with a stack. */
  function Requests(queue: seq<Message>): seq<Message>
    decreases |queue|
  {
    if queue == [] then []
    else (if StackLength(queue[0]).Some? then [queue[0]] else []) + Requests(queue[1..])
  }

  lemma {:induction false} RequestsConcat(a: seq<Message>, b: seq<Message>)
    ensures Requests(a + b) == Requests(a) + Requests(b)
    decreases |a|
  {
    if a == [] {
      assert a + b == b;
    } else {
      assert (a + b)[1..] == a[1..] + b;
      RequestsConcat(a[1..], b);
    }
  }
}

module RepRuns {
  import opened Common
  import opened RepSpec

  // What the state looks like between two requests, in the stack of a request and after it

  /** A peer is attached in both directions, its outbound pipe has room, and only whole messages arrive. */
  predicate Attached(x: Xrep, i: nat)
    requires i < |x.ins|
  {
    && x.ins[i].identity != []
    && x.ins[i].identity in x.outs
    && x.outs[x.ins[i].identity].room
    && forall m <- x.ins[i].queue :: IsMessage(m)
  }

  predicate Sound(x: Xrep) {
    && (forall i {:trigger Attached(x, i)} :: 0 <= i < |x.ins| ==> Attached(x, i))
    && (forall i, j {:trigger x.ins[i], x.ins[j]} ::
          0 <= i < j < |x.ins| ==> x.ins[i].identity != x.ins[j].identity)
    && (x.currentIn < |x.ins| || x.currentIn == 0)
  }

  function OutOf(x: Xrep, i: nat): OutPipe
    requires i < |x.ins| && Attached(x, i)
  {
    x.outs[x.ins[i].identity]
  }

  /** No message of the peer is being read, none to the peer is being written. */
  predicate Quiet(x: Xrep, i: nat)
    requires i < |x.ins| && Attached(x, i)
  {
    x.ins[i].at == 0 && OutOf(x, i).open == []
  }

  predicate OthersQuiet(x: Xrep, c: int)
    requires Sound(x)
  {
    forall i {:trigger Attached(x, i)} {:trigger Quiet(x, i)} :: 0 <= i < |x.ins| && i != c ==> Attached(x, i) && Quiet(x, i)
  }

  predicate Clean(x: Xrep) {
    Sound(x) && OthersQuiet(x, -1) && x.prefetched.None? && !x.moreIn && x.currentOut.None? && !x.moreOut
  }

  /** The next part to be read from the pipe is part `k` of `m`. */
  predicate ReadingAt(p: InPipe, m: Message, k: nat) { p.active && p.queue != [] && p.queue[0] == m && p.at == k }

  /** What is written goes to the peer whose message is being read; `open` was written. */
  predicate Copying(x: Xrep, open: seq<Part>) {
    && Sound(x)
    && x.currentIn < |x.ins|
    && OthersQuiet(x, x.currentIn)
    && x.moreOut
    && Attached(x, x.currentIn)
    && x.currentOut == Some(x.ins[x.currentIn].identity)
    && OutOf(x, x.currentIn).open == open
  }

  /** `j` parts of the stack of `m` were copied. */
  predicate InStack(x: Xrep, m: Message, j: nat) {
    && IsMessage(m)
    && j < |m|
    && NoBottom(m, j)
    && Copying(x, m[..j])
    && if j == 0 then
         && x.prefetched == Some(m[0])
         && !x.moreIn
         && (if |m| == 1 then x.ins[x.currentIn].at == 0 else ReadingAt(x.ins[x.currentIn], m, 1))
       else
         x.prefetched.None? && x.moreIn && ReadingAt(x.ins[x.currentIn], m, j)
  }

  /** The stack of `m` was copied, and part `k` is the next one to be read. */
  predicate AfterStack(x: Xrep, m: Message, k: nat) {
    && IsMessage(m)
    && StackLength(m).Some?
    && StackLength(m).value <= k < |m|
    && Copying(x, m[..StackLength(m).value])
    && x.prefetched.None?
    && x.moreIn
    && ReadingAt(x.ins[x.currentIn], m, k)
  }

  /** The peers are the same, nothing went to them, their requests are still there, and a pipe that became
      passive has nothing to read. */
  predicate PipeKept(x: Xrep, y: Xrep, i: nat)
    requires i < |x.ins| && i < |y.ins| && Attached(x, i) && Attached(y, i)
  {
    && y.ins[i].identity == x.ins[i].identity
    && OutOf(y, i).flushed == OutOf(x, i).flushed
    && Requests(y.ins[i].queue) == Requests(x.ins[i].queue)
    && (x.ins[i].active && !y.ins[i].active ==> y.ins[i].queue == [])
    && |y.ins[i].queue| <= |x.ins[i].queue|
  }

  predicate Kept(x: Xrep, y: Xrep)
    requires Sound(x)
  {
    && Sound(y)
    && |y.ins| == |x.ins|
    && forall i {:trigger Attached(x, i)} {:trigger Attached(y, i)} {:trigger PipeKept(x, y, i)} ::
         0 <= i < |x.ins| ==> Attached(x, i) && Attached(y, i) && PipeKept(x, y, i)
  }

  lemma KeptChain(x: Xrep, y: Xrep, z: Xrep)
    requires Sound(x) && Sound(y) && Sound(z) && Kept(x, y) && Kept(y, z)
    ensures Kept(x, z)
  {
    forall i {:trigger Attached(x, i)} | 0 <= i < |x.ins| ensures Attached(x, i) && Attached(z, i) && PipeKept(x, z, i) {
      assert Attached(x, i) && Attached(y, i);
      assert PipeKept(x, y, i) && PipeKept(y, z, i);
    }
  }

  // The scan for the next request

  /** How many steps of the scan lead from the current pipe to pipe `i`. */
  function Distance(x: Xrep, i: nat): int { if i >= x.currentIn then i - x.currentIn else i - x.currentIn + |x.ins| }

  /** All pipes but the next `count` ones are passive. */
  predicate Visited(x: Xrep, count: nat) {
    forall i {:trigger x.ins[i]} :: 0 <= i < |x.ins| && Distance(x, i) >= count ==> !x.ins[i].active
  }

  predicate AllPassive(x: Xrep) { forall i {:trigger x.ins[i]} :: 0 <= i < |x.ins| ==> !x.ins[i].active }

  /** One pipe is passed over. */
  lemma PassOver(x: Xrep, y: Xrep, count: nat)
    requires Clean(x) && 0 < count && Visited(x, count) && x.currentIn < |x.ins|
    requires !(x.ins[x.currentIn].active && ReadPart(x.ins[x.currentIn]).1.Some?)
    requires y == x.(ins := x.ins[x.currentIn := x.ins[x.currentIn].(active := false)], currentIn := Next(x))
    ensures Clean(y) && Kept(x, y) && Visited(y, count - 1)
  {
    var c := x.currentIn;
    assert Attached(x, c) && Quiet(x, c);
    assert x.ins[c].active ==> x.ins[c].queue == [] by {
      if x.ins[c].queue != [] {
        assert x.ins[c].queue[0] in x.ins[c].queue;
      }
    }
    forall i {:trigger Attached(y, i)} | 0 <= i < |y.ins|
      ensures Attached(y, i) && Quiet(y, i) && Attached(x, i) && PipeKept(x, y, i)
    {
      assert Attached(x, i) && Quiet(x, i);
    }
  }

  /** The prefix names the peer whose message was found, and its outbound pipe is chosen. */
  lemma Found(x: Xrep)
    requires Clean(x) && x.currentIn < |x.ins|
    requires x.ins[x.currentIn].active && ReadPart(x.ins[x.currentIn]).1.Some?
    ensures
      var m := x.ins[x.currentIn].queue[0];
      var (pipe, part) := ReadPart(x.ins[x.currentIn]);
      var y := x.(ins := x.ins[x.currentIn := pipe], prefetched := part);
      var z := XSend(y, Part(pipe.identity, true));
      InStack(z, m, 0) && Kept(x, z)
  {
    var c := x.currentIn;
    assert Attached(x, c) && Quiet(x, c);
    var m := x.ins[c].queue[0];
    assert m in x.ins[c].queue;
    var (pipe, part) := ReadPart(x.ins[c]);
    var y := x.(ins := x.ins[c := pipe], prefetched := part);
    var z := XSend(y, Part(pipe.identity, true));
    if |m| == 1 {
      StackLengthAt(m, 0);
    }
    forall i {:trigger Attached(z, i)} | 0 <= i < |z.ins|
      ensures Attached(z, i) && (i != c ==> Quiet(z, i)) && Attached(x, i) && PipeKept(x, z, i)
    {
      assert Attached(x, i) && Quiet(x, i);
    }
    assert Attached(z, c) && OutOf(z, c).open == m[..0];
  }

  lemma {:induction false} ScanKeeps(x: Xrep, count: nat)
    requires Clean(x) && count <= |x.ins| && Visited(x, count)
    ensures
      var (y, part) := Scan(x, count);
      if part.None? then Clean(y) && Kept(x, y) && AllPassive(y)
      else
        && part.value.more
        && part.value.body != []
        && var z := XSend(y, part.value);
           exists m: Message :: InStack(z, m, 0) && Kept(x, z)
    decreases count
  {
    if count == 0 || x.currentIn >= |x.ins| {
    } else if x.ins[x.currentIn].active && ReadPart(x.ins[x.currentIn]).1.Some? {
      Found(x);
      assert Attached(x, x.currentIn);
    } else {
      var y := x.(ins := x.ins[x.currentIn := x.ins[x.currentIn].(active := false)], currentIn := Next(x));
      PassOver(x, y, count);
      ScanKeeps(y, count - 1);
      var (z, part) := Scan(y, count - 1);
      if part.None? {
        KeptChain(x, y, z);
      } else {
        KeptChain(x, y, XSend(z, part.value));
      }
    }
  }

  // Copying the stack

  /** The part that is read, and what the pipe is left with. */
  lemma StackRead(x: Xrep, m: Message, j: nat)
    requires InStack(x, m, j)
    ensures
      var (y, part) := XRecv(x);
      && part == Some(m[j])
      && y.prefetched.None?
      && y.moreIn == m[j].more
      && |y.ins| == |x.ins|
      && (y.currentIn < |y.ins|)
      && (m[j].more ==> y.currentIn == x.currentIn && ReadingAt(y.ins[y.currentIn], m, j + 1))
      && y == x.(ins := y.ins, currentIn := y.currentIn, prefetched := None, moreIn := y.moreIn)
      && (var p := y.ins[x.currentIn];
          && y.ins == x.ins[x.currentIn := p]
          && p == x.ins[x.currentIn].(queue := p.queue, at := p.at)
          && (!m[j].more ==> p.at == 0)
          && (p.queue == x.ins[x.currentIn].queue
              || (!m[j].more && x.ins[x.currentIn].queue == [m] + p.queue)))
  {
    var c := x.currentIn;
    assert Attached(x, c);
    if j > 0 && !m[j].more {
      assert x.ins[c].queue == [m] + x.ins[c].queue[1..];
    }
    assert x.ins[c := x.ins[c]] == x.ins;
  }

  /** A message without a stack ends: what was written is taken back. */
  lemma StackDiscarded(x: Xrep, m: Message, j: nat)
    requires InStack(x, m, j) && !m[j].more
    ensures Clean(Rollback(XRecv(x).0)) && Kept(x, Rollback(XRecv(x).0))
  {
    var c := x.currentIn;
    StackRead(x, m, j);
    StackLengthAt(m, j);
    var y := XRecv(x).0;
    assert Attached(x, c);
    var z := Rollback(y);
    assert Requests(y.ins[c].queue) == Requests(x.ins[c].queue);
    assert forall n <- y.ins[c].queue :: n in x.ins[c].queue;
    forall i {:trigger Attached(z, i)} | 0 <= i < |z.ins|
      ensures Attached(z, i) && Quiet(z, i) && Attached(x, i) && PipeKept(x, z, i)
    {
      assert Attached(x, i) && (i != c ==> Quiet(x, i));
    }
  }

  /** A part that is followed by more is copied. */
  lemma StackCopied(x: Xrep, m: Message, j: nat)
    requires InStack(x, m, j) && m[j].more
    ensures
      var y := XRecv(x).0;
      var z := XSend(y, m[j]);
      && j + 1 < |m|
      && Copying(z, m[..j + 1])
      && Kept(x, z)
      && z == y.(outs := z.outs)
  {
    var c := x.currentIn;
    StackRead(x, m, j);
    var y := XRecv(x).0;
    assert Attached(x, c);
    var z := XSend(y, m[j]);
    assert m[..j + 1] == m[..j] + [m[j]];
    forall i {:trigger Attached(z, i)} | 0 <= i < |z.ins|
      ensures Attached(z, i) && (i != c ==> Quiet(z, i)) && Attached(x, i) && PipeKept(x, z, i)
    {
      assert Attached(x, i) && (i != c ==> Quiet(x, i));
    }
    assert Attached(z, c);
  }

  /** The payload of a request is next: its stack is in the outbound pipe of the peer that sent it. */
  predicate AtPayload(y: Xrep) {
    && y.currentIn < |y.ins|
    && y.ins[y.currentIn].queue != []
    && var m := y.ins[y.currentIn].queue[0];
       StackLength(m).Some? && AfterStack(y, m, StackLength(m).value)
  }

  predicate Copied(x: Xrep, y: Xrep, bottom: bool)
    requires Sound(x)
  {
    && Sound(y)
    && Kept(x, y)
    && if bottom then AtPayload(y) else Clean(y) && AllPassive(y)
  }

  lemma CopiedChain(x: Xrep, y: Xrep, z: Xrep, bottom: bool)
    requires Sound(x) && Sound(y) && Kept(x, y) && Copied(y, z, bottom)
    ensures Copied(x, z, bottom)
  {
    KeptChain(x, y, z);
  }

  /** From between two requests: the next request with a stack is found, those without one are discarded. */
  lemma {:induction false} CopyStackCopies(x: Xrep)
    requires Clean(x)
    ensures Copied(x, CopyStack(x).0, CopyStack(x).1)
    decreases Work(x)
  {
    ScanKeeps(x, |x.ins|);
    var (y, part) := Scan(x, |x.ins|);
    if part.Some? {
      XRecvWork(x);
      var z := XSend(y, part.value);
      var m :| InStack(z, m, 0) && Kept(x, z);
      CopyRestCopies(z, m, 0);
      CopiedChain(x, z, CopyStack(z).0, CopyStack(z).1);
    }
  }

  lemma {:induction false} CopyRestCopies(x: Xrep, m: Message, j: nat)
    requires InStack(x, m, j)
    ensures Copied(x, CopyStack(x).0, CopyStack(x).1)
    decreases Work(x)
  {
    StackRead(x, m, j);
    XRecvWork(x);
    var x1 := XRecv(x).0;
    if !m[j].more {
      StackDiscarded(x, m, j);
      CopyStackCopies(Rollback(x1));
      CopiedChain(x, Rollback(x1), CopyStack(x).0, CopyStack(x).1);
    } else if m[j].body == [] {
      StackCopied(x, m, j);
      StackLengthAt(m, j);
    } else {
      StackCopied(x, m, j);
      CopyRestCopies(XSend(x1, m[j]), m, j + 1);
      CopiedChain(x, XSend(x1, m[j]), CopyStack(x).0, CopyStack(x).1);
    }
  }

  // Runs

  /** What the user of the socket sees. */
  datatype Event = Delivered(part: Part) | Accepted(part: Part)

  /** `arrived` are all messages that a peer has sent. */
  datatype World = World(state: State, arrived: seq<seq<Message>>, log: seq<Event>)

  /** A peer flushes a message, a pipe that was passive is activated, the user receives or replies. */
  datatype Action = Arrive(peer: nat, message: Message) | Activate(peer: nat) | Receive | Reply(part: Part)

  function Step(w: World, a: Action): World {
    var x := w.state.xrep;
    match a
    case Arrive(i, m) =>
      if i < |x.ins| && i < |w.arrived| && IsMessage(m) then
        w.(state := w.state.(xrep := x.(ins := x.ins[i := x.ins[i].(queue := x.ins[i].queue + [m])])),
           arrived := w.arrived[i := w.arrived[i] + [m]])
      else w
    case Activate(i) =>
      if i < |x.ins| then w.(state := w.state.(xrep := x.(ins := x.ins[i := x.ins[i].(active := true)]))) else w
    case Receive =>
      var (s, r) := Recv(w.state);
      w.(state := s, log := if r.Got? then w.log + [Delivered(r.part)] else w.log)
    case Reply(p) =>
      var (s, ok) := Send(w.state, p);
      w.(state := s, log := if ok then w.log + [Accepted(p)] else w.log)
  }

  function Exec(w: World, run: seq<Action>): World {
    if run == [] then w else Step(Exec(w, run[..|run| - 1]), run[|run| - 1])
  }

  /** The peers are attached, and nothing was sent yet. */
  predicate Initial(w: World) {
    && Clean(w.state.xrep)
    && !w.state.sendingReply
    && w.state.requestBegins
    && w.log == []
    && |w.arrived| == |w.state.xrep.ins|
    && forall i {:trigger Attached(w.state.xrep, i)} {:trigger w.arrived[i]} :: 0 <= i < |w.arrived| ==>
         && w.arrived[i] == []
         && w.state.xrep.ins[i].queue == []
         && Attached(w.state.xrep, i)
         && OutOf(w.state.xrep, i).flushed == []
  }

  // What a run amounts to: whole requests and whole replies, in turn

  datatype Exchange = Exchange(peer: nat, request: Message, reply: Message)

  /** Between two exchanges; within a request, `k` parts of which were read; within a reply. */
  datatype Phase = Idle | Reading(peer: nat, request: Message, k: nat) | Replying(peer: nat, request: Message, reply: seq<Part>)

  predicate IsRequest(m: Message) { IsMessage(m) && StackLength(m).Some? && StackLength(m).value < |m| }

  function Stack(m: Message): seq<Part> { if StackLength(m).Some? then m[..StackLength(m).value] else [] }

  /** The part of a request that the user gets. */
  function Payload(m: Message): seq<Part> { if StackLength(m).Some? then m[StackLength(m).value..] else [] }

  function AllDelivered(parts: seq<Part>): seq<Event> {
    if parts == [] then [] else AllDelivered(parts[..|parts| - 1]) + [Delivered(parts[|parts| - 1])]
  }

  function AllAccepted(parts: seq<Part>): seq<Event> {
    if parts == [] then [] else AllAccepted(parts[..|parts| - 1]) + [Accepted(parts[|parts| - 1])]
  }

  predicate IsExchange(e: Exchange, peers: nat) { e.peer < peers && IsRequest(e.request) && IsMessage(e.reply) }

  predicate AreExchanges(xs: seq<Exchange>, peers: nat) {
    forall i {:trigger xs[i]} :: 0 <= i < |xs| ==> IsExchange(xs[i], peers)
  }

  /** Each exchange delivers the payload of its request and then accepts its reply. */
  function LogOf(xs: seq<Exchange>): seq<Event> {
    if xs == [] then []
    else
      var e := xs[|xs| - 1];
      LogOf(xs[..|xs| - 1]) + AllDelivered(Payload(e.request)) + AllAccepted(e.reply)
  }

  /** What a peer gets: to each of its requests the reply, preceded by the stack of that request. */
  function RepliesTo(xs: seq<Exchange>, i: nat): seq<Part> {
    if xs == [] then []
    else
      var e := xs[|xs| - 1];
      RepliesTo(xs[..|xs| - 1], i) + (if e.peer == i then Stack(e.request) + e.reply else [])
  }

  function RequestsOf(xs: seq<Exchange>, i: nat): seq<Message> {
    if xs == [] then []
    else RequestsOf(xs[..|xs| - 1], i) + (if xs[|xs| - 1].peer == i then [xs[|xs| - 1].request] else [])
  }

  predicate PhaseSound(ph: Phase) { ph.Idle? || IsRequest(ph.request) }

  /** The parts of the payload before part `k`. */
  function ReadSoFar(m: Message, k: nat): seq<Part> {
    if StackLength(m).Some? && StackLength(m).value <= k <= |m| then m[StackLength(m).value..k] else []
  }

  function PhaseLog(ph: Phase): seq<Event> {
    match ph
    case Idle => []
    case Reading(_, m, k) => AllDelivered(ReadSoFar(m, k))
    case Replying(_, m, reply) => AllDelivered(Payload(m)) + AllAccepted(reply)
  }

  /** The requests of a peer that were taken from its pipe. */
  function Taken(xs: seq<Exchange>, ph: Phase, i: nat): seq<Message> {
    RequestsOf(xs, i) + (if ph.Replying? && ph.peer == i then [ph.request] else [])
  }

  predicate PeerExplained(pipe: InPipe, flushed: seq<Part>, arrived: seq<Message>, xs: seq<Exchange>, ph: Phase, i: nat) {
    flushed == RepliesTo(xs, i) && Requests(arrived) == Taken(xs, ph, i) + Requests(pipe.queue)
  }

  predicate Explained(w: World, xs: seq<Exchange>, ph: Phase, i: nat)
    requires i < |w.arrived| && i < |w.state.xrep.ins|
  {
    && Attached(w.state.xrep, i)
    && PeerExplained(w.state.xrep.ins[i], OutOf(w.state.xrep, i).flushed, w.arrived[i], xs, ph, i)
  }

  /** The request was read to its end; its stack and the reply so far are in the pipe of its peer. */
  predicate InReply(x: Xrep, peer: nat, open: seq<Part>) {
    && Sound(x)
    && peer < |x.ins|
    && OthersQuiet(x, peer)
    && Attached(x, peer)
    && x.ins[peer].at == 0
    && OutOf(x, peer).open == open
    && x.moreOut
    && x.currentOut == Some(x.ins[peer].identity)
    && x.prefetched.None?
    && !x.moreIn
  }

  predicate PhaseFits(s: State, ph: Phase)
    requires PhaseSound(ph)
  {
    match ph
    case Idle => Clean(s.xrep) && !s.sendingReply && s.requestBegins
    case Reading(peer, m, k) =>
      AfterStack(s.xrep, m, k) && s.xrep.currentIn == peer && !s.sendingReply && !s.requestBegins
    case Replying(peer, m, reply) =>
      && InReply(s.xrep, peer, Stack(m) + reply)
      && s.sendingReply
      && s.requestBegins
      && forall i {:trigger reply[i]} :: 0 <= i < |reply| ==> reply[i].more
  }

  predicate PeersExplained(w: World, xs: seq<Exchange>, ph: Phase) {
    && Sound(w.state.xrep)
    && |w.arrived| == |w.state.xrep.ins|
    && forall i {:trigger Explained(w, xs, ph, i)} :: 0 <= i < |w.arrived| ==> Explained(w, xs, ph, i)
  }

  /** The exchanges `xs` and what is going on now account for the log, for what every peer got, and for
      what became of its requests: none is lost, and they are taken in the order they arrived. */
  predicate Explains(w: World, xs: seq<Exchange>, ph: Phase) {
    && AreExchanges(xs, |w.arrived|)
    && PhaseSound(ph)
    && PhaseFits(w.state, ph)
    && w.log == LogOf(xs) + PhaseLog(ph)
    && PeersExplained(w, xs, ph)
  }

  // Steps of the peers

  /** A pipe got more to read, or was activated. */
  predicate PipeGrown(p: InPipe, q: InPipe) {
    && q == p.(active := q.active, queue := q.queue)
    && (p.active ==> q.active)
    && p.queue <= q.queue
    && forall m <- q.queue :: m in p.queue || IsMessage(m)
  }

  predicate Grown(x: Xrep, y: Xrep) {
    && y == x.(ins := y.ins)
    && |y.ins| == |x.ins|
    && forall k {:trigger x.ins[k]} {:trigger y.ins[k]} :: 0 <= k < |x.ins| ==> PipeGrown(x.ins[k], y.ins[k])
  }

  lemma GrownSound(x: Xrep, y: Xrep)
    requires Sound(x) && Grown(x, y)
    ensures Sound(y)
    ensures forall k {:trigger Attached(y, k)} :: 0 <= k < |y.ins| ==> Attached(x, k) && Attached(y, k) && (Quiet(x, k) ==> Quiet(y, k))
  {
    forall k {:trigger Attached(y, k)} | 0 <= k < |y.ins| ensures Attached(x, k) && Attached(y, k) && (Quiet(x, k) ==> Quiet(y, k)) {
      assert Attached(x, k) && PipeGrown(x.ins[k], y.ins[k]);
    }
  }

  lemma GrownQuiet(x: Xrep, y: Xrep, c: int)
    requires Sound(x) && Grown(x, y) && OthersQuiet(x, c)
    ensures Sound(y) && OthersQuiet(y, c)
  {
    GrownSound(x, y);
    forall k {:trigger Attached(y, k)} | 0 <= k < |y.ins| && k != c ensures Attached(y, k) && Quiet(y, k) {
      assert Attached(x, k) && Quiet(x, k);
    }
  }

  lemma GrownFits(s: State, y: Xrep, ph: Phase)
    requires PhaseSound(ph) && PhaseFits(s, ph) && Sound(s.xrep) && Grown(s.xrep, y)
    ensures PhaseFits(s.(xrep := y), ph)
  {
    var x := s.xrep;
    GrownSound(x, y);
    match ph
    case Idle => GrownQuiet(x, y, -1);
    case Reading(c, m, k) =>
      GrownQuiet(x, y, c);
      assert Attached(x, c) && Attached(y, c) && PipeGrown(x.ins[c], y.ins[c]);
    case Replying(c, _, _) =>
      GrownQuiet(x, y, c);
      assert Attached(x, c) && Attached(y, c) && PipeGrown(x.ins[c], y.ins[c]);
  }

  lemma ArrivePeer(p: InPipe, flushed: seq<Part>, arrived: seq<Message>, xs: seq<Exchange>, ph: Phase, i: nat, m: Message)
    requires PeerExplained(p, flushed, arrived, xs, ph, i)
    ensures PeerExplained(p.(queue := p.queue + [m]), flushed, arrived + [m], xs, ph, i)
  {
    RequestsConcat(p.queue, [m]);
    RequestsConcat(arrived, [m]);
    assert Taken(xs, ph, i) + Requests(p.queue) + Requests([m]) == Taken(xs, ph, i) + (Requests(p.queue) + Requests([m]));
  }

  lemma ArriveExplained(w: World, xs: seq<Exchange>, ph: Phase, i: nat, m: Message)
    requires Explains(w, xs, ph) && i < |w.arrived| && IsMessage(m)
    ensures Explains(Step(w, Arrive(i, m)), xs, ph)
  {
    var v := Step(w, Arrive(i, m));
    var x, y := w.state.xrep, v.state.xrep;
    assert Grown(x, y);
    GrownSound(x, y);
    GrownFits(w.state, y, ph);
    forall k {:trigger Explained(v, xs, ph, k)} | 0 <= k < |y.ins| ensures Explained(v, xs, ph, k) {
      assert Explained(w, xs, ph, k) && Attached(y, k);
      if k == i {
        ArrivePeer(x.ins[i], OutOf(x, i).flushed, w.arrived[i], xs, ph, i, m);
      }
    }
  }

  lemma ActivateExplained(w: World, xs: seq<Exchange>, ph: Phase, i: nat)
    requires Explains(w, xs, ph) && i < |w.arrived|
    ensures Explains(Step(w, Activate(i)), xs, ph)
  {
    var v := Step(w, Activate(i));
    var x, y := w.state.xrep, v.state.xrep;
    assert Grown(x, y) by {
      assert forall k {:trigger Attached(x, k)} :: 0 <= k < |x.ins| ==> Attached(x, k);
    }
    GrownSound(x, y);
    GrownFits(w.state, y, ph);
    forall k {:trigger Explained(v, xs, ph, k)} | 0 <= k < |y.ins| ensures Explained(v, xs, ph, k) {
      assert Explained(w, xs, ph, k) && Attached(y, k);
    }
  }

  // Steps of the user

  /** Reading another part of a message leaves everything but its pipe as it is. */
  lemma PayloadKeeps(x: Xrep, m: Message, k: nat, y: Xrep, i: nat)
    requires AfterStack(x, m, k) && y == XRecv(x).0 && i < |x.ins| && 0 < k
    ensures
      && |y.ins| == |x.ins|
      && Attached(x, i)
      && Attached(y, i)
      && y.ins[i].identity == x.ins[i].identity
      && OutOf(y, i) == OutOf(x, i)
      && (i != x.currentIn ==> Quiet(y, i))
      && Requests(x.ins[i].queue)
         == (if !m[k].more && i == x.currentIn then [m] else []) + Requests(y.ins[i].queue)
  {
    var c := x.currentIn;
    assert Attached(x, c) && Attached(x, i) && (i != c ==> Quiet(x, i));
    if i == c && !m[k].more {
      var q := x.ins[c].queue;
      assert y.ins[c].queue == q[1..];
      assert forall n <- q[1..] :: n in q;
    }
  }

  /** A part of the payload is read; with the last one the reply begins. */
  lemma PayloadRead(x: Xrep, m: Message, k: nat)
    requires AfterStack(x, m, k) && 0 < k
    ensures
      var (y, part) := XRecv(x);
      && part == Some(m[k])
      && Sound(y)
      && if m[k].more then AfterStack(y, m, k + 1) && y.currentIn == x.currentIn
         else k + 1 == |m| && InReply(y, x.currentIn, m[..StackLength(m).value])
  {
    var c := x.currentIn;
    assert Attached(x, c);
    var y := XRecv(x).0;
    forall i {:trigger Attached(y, i)} | 0 <= i < |y.ins|
      ensures Attached(y, i) && y.ins[i].identity == x.ins[i].identity && (i != c ==> Quiet(y, i))
    {
      PayloadKeeps(x, m, k, y, i);
    }
    PayloadKeeps(x, m, k, y, c);
  }

  function AfterPart(c: nat, m: Message, k: nat): Phase
    requires k < |m|
  {
    if m[k].more then Reading(c, m, k + 1) else Replying(c, m, [])
  }

  lemma DeliveredOneMore(parts: seq<Part>, p: Part)
    ensures AllDelivered(parts + [p]) == AllDelivered(parts) + [Delivered(p)]
  {
    assert (parts + [p])[..|parts|] == parts;
  }

  lemma SliceNext<T>(s: seq<T>, n: nat, k: nat)
    requires n <= k < |s|
    ensures s[n..k + 1] == s[n..k] + [s[k]]
    ensures k + 1 == |s| ==> s[n..k + 1] == s[n..]
  {
  }

  lemma ReadSoFarNext(m: Message, k: nat)
    requires StackLength(m).Some? && StackLength(m).value <= k < |m|
    ensures AllDelivered(ReadSoFar(m, k + 1)) == AllDelivered(ReadSoFar(m, k)) + [Delivered(m[k])]
    ensures k + 1 == |m| ==> ReadSoFar(m, k + 1) == Payload(m)
  {
    var n := StackLength(m).value;
    SliceNext(m, n, k);
    DeliveredOneMore(m[n..k], m[k]);
  }

  lemma Regroup<T>(a: seq<T>, b: seq<T>, c: seq<T>)
    ensures a + b + c == a + (b + c)
  {
  }

  lemma PayloadLog(c: nat, m: Message, k: nat)
    requires k < |m|
    requires AllDelivered(ReadSoFar(m, k + 1)) == AllDelivered(ReadSoFar(m, k)) + [Delivered(m[k])]
    requires !m[k].more ==> ReadSoFar(m, k + 1) == Payload(m)
    ensures PhaseLog(AfterPart(c, m, k)) == PhaseLog(Reading(c, m, k)) + [Delivered(m[k])]
  {
    assert AllAccepted([]) == [];
  }

  lemma ReadPeers(w: World, xs: seq<Exchange>, c: nat, m: Message, k: nat, v: World)
    requires PeersExplained(w, xs, Reading(c, m, k)) && AfterStack(w.state.xrep, m, k) && w.state.xrep.currentIn == c && 0 < k
    requires v.state.xrep == XRecv(w.state.xrep).0 && v.arrived == w.arrived
    ensures PeersExplained(v, xs, AfterPart(c, m, k))
  {
    var x := w.state.xrep;
    PayloadRead(x, m, k);
    var y := v.state.xrep;
    PayloadKeeps(x, m, k, y, c);
    forall i {:trigger Explained(v, xs, AfterPart(c, m, k), i)} | 0 <= i < |y.ins|
      ensures Explained(v, xs, AfterPart(c, m, k), i)
    {
      assert Explained(w, xs, Reading(c, m, k), i);
      PayloadKeeps(x, m, k, y, i);
      if !m[k].more && i == c {
        assert RequestsOf(xs, i) + [] + ([m] + Requests(y.ins[i].queue)) == RequestsOf(xs, i) + [m] + Requests(y.ins[i].queue);
      }
    }
  }

  lemma ReadExplained(w: World, xs: seq<Exchange>, c: nat, m: Message, k: nat)
    requires Explains(w, xs, Reading(c, m, k))
    ensures Recv(w.state).1 == Got(m[k]) && Explains(Step(w, Receive), xs, AfterPart(c, m, k))
  {
    PayloadRead(w.state.xrep, m, k);
    ReadSoFarNext(m, k);
    PayloadLog(c, m, k);
    ReadPeers(w, xs, c, m, k, Step(w, Receive));
    assert Stack(m) + [] == Stack(m);
    Regroup(LogOf(xs), PhaseLog(Reading(c, m, k)), [Delivered(m[k])]);
  }

  /** The stack was copied: the request is being read. */
  lemma CopyPeers(w: World, xs: seq<Exchange>, y: Xrep, bottom: bool, v: World, ph: Phase)
    requires PeersExplained(w, xs, Idle) && Copied(w.state.xrep, y, bottom)
    requires v.state.xrep == y && v.arrived == w.arrived && !ph.Replying?
    ensures PeersExplained(v, xs, ph)
  {
    forall i {:trigger Explained(v, xs, ph, i)} | 0 <= i < |y.ins| ensures Explained(v, xs, ph, i) {
      assert Explained(w, xs, Idle, i) && PipeKept(w.state.xrep, y, i);
    }
  }

  function AfterCopy(y: Xrep, bottom: bool): Phase
    requires bottom ==> AtPayload(y)
  {
    if bottom then
      var m := y.ins[y.currentIn].queue[0];
      Reading(y.currentIn, m, StackLength(m).value)
    else Idle
  }

  lemma CopyExplained(w: World, xs: seq<Exchange>)
    requires Explains(w, xs, Idle)
    ensures
      var (y, bottom) := CopyStack(w.state.xrep);
      && Copied(w.state.xrep, y, bottom)
      && Explains(w.(state := State(y, false, !bottom)), xs, AfterCopy(y, bottom))
  {
    CopyStackCopies(w.state.xrep);
    var (y, bottom) := CopyStack(w.state.xrep);
    CopyPeers(w, xs, y, bottom, w.(state := State(y, false, !bottom)), AfterCopy(y, bottom));
  }

  lemma IdleExplained(w: World, xs: seq<Exchange>) returns (ph1: Phase)
    requires Explains(w, xs, Idle)
    ensures Explains(Step(w, Receive), xs, ph1)
  {
    CopyExplained(w, xs);
    var (y, bottom) := CopyStack(w.state.xrep);
    var v := w.(state := State(y, false, !bottom));
    if bottom {
      var ph := AfterCopy(y, bottom);
      ReadExplained(v, xs, ph.peer, ph.request, ph.k);
      assert Step(w, Receive) == Step(v, Receive);
      ph1 := AfterPart(ph.peer, ph.request, ph.k);
    } else {
      assert Step(w, Receive) == v;
      ph1 := Idle;
    }
  }

  lemma ReceiveExplained(w: World, xs: seq<Exchange>, ph: Phase) returns (ph1: Phase)
    requires Explains(w, xs, ph)
    ensures Explains(Step(w, Receive), xs, ph1)
    ensures ph.Replying? ==> ph1 == ph
  {
    match ph
    case Replying(_, _, _) =>
      assert Step(w, Receive) == w;
      ph1 := ph;
    case Reading(c, m, k) =>
      ReadExplained(w, xs, c, m, k);
      ph1 := AfterPart(c, m, k);
    case Idle => ph1 := IdleExplained(w, xs);
  }

  /** What a part of the reply does to the pipe of the peer, and to no other. */
  lemma ReplyWritten(x: Xrep, c: nat, open: seq<Part>, p: Part)
    requires InReply(x, c, open)
    ensures
      var y := XSend(x, p);
      && Sound(y)
      && y.ins == x.ins
      && (if p.more then InReply(y, c, open + [p]) else Clean(y))
      && forall i {:trigger Attached(x, i)} {:trigger Attached(y, i)} :: 0 <= i < |x.ins| ==>
           && Attached(x, i)
           && Attached(y, i)
           && OutOf(y, i).flushed == OutOf(x, i).flushed + (if !p.more && i == c then open + [p] else [])
  {
    var y := XSend(x, p);
    assert OutOf(x, c).flushed + open + [p] == OutOf(x, c).flushed + (open + [p]);
    forall i {:trigger Attached(y, i)} | 0 <= i < |y.ins|
      ensures
        && Attached(x, i)
        && Attached(y, i)
        && (i != c || !p.more ==> Quiet(y, i))
        && OutOf(y, i).flushed == OutOf(x, i).flushed + (if !p.more && i == c then open + [p] else [])
    {
      assert Attached(x, i) && (i != c ==> Quiet(x, i));
    }
    assert Attached(y, c);
  }

  lemma AcceptedOneMore(parts: seq<Part>, p: Part)
    ensures AllAccepted(parts + [p]) == AllAccepted(parts) + [Accepted(p)]
  {
    assert (parts + [p])[..|parts|] == parts;
  }

  lemma LogWith(xs: seq<Exchange>, e: Exchange)
    ensures LogOf(xs + [e]) == LogOf(xs) + AllDelivered(Payload(e.request)) + AllAccepted(e.reply)
  {
    assert (xs + [e])[..|xs|] == xs;
  }

  lemma ReplyLog(xs: seq<Exchange>, ph: Phase, p: Part)
    requires ph.Replying?
    ensures
      var (xs1, ph1) := AfterReply(xs, ph, p);
      LogOf(xs1) + PhaseLog(ph1) == LogOf(xs) + PhaseLog(ph) + [Accepted(p)]
  {
    var e := Exchange(ph.peer, ph.request, ph.reply + [p]);
    var a, b, c := LogOf(xs), AllDelivered(Payload(ph.request)), AllAccepted(ph.reply);
    AcceptedOneMore(ph.reply, p);
    LogWith(xs, e);
    Regroup(b, c, [Accepted(p)]);
    Regroup(a, b + c, [Accepted(p)]);
    Regroup(a, b, c + [Accepted(p)]);
  }

  /** After a part of the reply: within the reply, or with one more exchange. */
  function AfterReply(xs: seq<Exchange>, ph: Phase, p: Part): (seq<Exchange>, Phase)
    requires ph.Replying?
  {
    if p.more then (xs, ph.(reply := ph.reply + [p]))
    else (xs + [Exchange(ph.peer, ph.request, ph.reply + [p])], Idle)
  }

  lemma ReplyPeer(pipe: InPipe, flushed: seq<Part>, arrived: seq<Message>, xs: seq<Exchange>, ph: Phase, p: Part, i: nat)
    requires ph.Replying? && PeerExplained(pipe, flushed, arrived, xs, ph, i)
    ensures
      var (xs1, ph1) := AfterReply(xs, ph, p);
      PeerExplained(pipe,
                    flushed + (if !p.more && i == ph.peer then Stack(ph.request) + ph.reply + [p] else []),
                    arrived, xs1, ph1, i)
  {
    assert (xs + [Exchange(ph.peer, ph.request, ph.reply + [p])])[..|xs|] == xs;
    assert Stack(ph.request) + ph.reply + [p] == Stack(ph.request) + (ph.reply + [p]);
    assert flushed + [] == flushed && RequestsOf(xs, i) + [] == RequestsOf(xs, i);
  }

  lemma ReplyExchanges(xs: seq<Exchange>, ph: Phase, p: Part, peers: nat)
    requires ph.Replying? && PhaseSound(ph) && ph.peer < peers && AreExchanges(xs, peers)
    requires forall i {:trigger ph.reply[i]} :: 0 <= i < |ph.reply| ==> ph.reply[i].more
    ensures AreExchanges(AfterReply(xs, ph, p).0, peers)
  {
    if !p.more {
      assert IsMessage(ph.reply + [p]);
    }
  }

  lemma ReplyPeers(w: World, xs: seq<Exchange>, ph: Phase, p: Part, v: World)
    requires PeersExplained(w, xs, ph) && ph.Replying? && InReply(w.state.xrep, ph.peer, Stack(ph.request) + ph.reply)
    requires v.state.xrep == XSend(w.state.xrep, p) && v.arrived == w.arrived
    ensures PeersExplained(v, AfterReply(xs, ph, p).0, AfterReply(xs, ph, p).1)
  {
    var (xs1, ph1) := AfterReply(xs, ph, p);
    ReplyWritten(w.state.xrep, ph.peer, Stack(ph.request) + ph.reply, p);
    forall i {:trigger Explained(v, xs1, ph1, i)} | 0 <= i < |v.arrived| ensures Explained(v, xs1, ph1, i) {
      assert Explained(w, xs, ph, i);
      ReplyPeer(w.state.xrep.ins[i], OutOf(w.state.xrep, i).flushed, w.arrived[i], xs, ph, p, i);
    }
  }

  lemma ReplyExplained(w: World, xs: seq<Exchange>, ph: Phase, p: Part)
    requires Explains(w, xs, ph) && ph.Replying?
    ensures Send(w.state, p).1 && Explains(Step(w, Reply(p)), AfterReply(xs, ph, p).0, AfterReply(xs, ph, p).1)
  {
    ReplyPeers(w, xs, ph, p, Step(w, Reply(p)));
    ReplyLog(xs, ph, p);
    ReplyExchanges(xs, ph, p, |w.arrived|);
    ReplyFits(w.state, ph, p);
  }

  lemma ReplyFits(s: State, ph: Phase, p: Part)
    requires ph.Replying? && PhaseSound(ph) && PhaseFits(s, ph)
    ensures Send(s, p).1
    ensures
      var ph1 := AfterReply([], ph, p).1;
      PhaseSound(ph1) && PhaseFits(Send(s, p).0, ph1)
  {
    ReplyWritten(s.xrep, ph.peer, Stack(ph.request) + ph.reply, p);
    assert Stack(ph.request) + (ph.reply + [p]) == Stack(ph.request) + ph.reply + [p];
  }

  // Every run

  /** Every step leaves a series of exchanges, at least as many of each peer as before. */
  lemma StepExplained(w: World, xs: seq<Exchange>, ph: Phase, a: Action) returns (xs1: seq<Exchange>, ph1: Phase)
    requires Explains(w, xs, ph)
    ensures Explains(Step(w, a), xs1, ph1) && |Step(w, a).arrived| == |w.arrived|
    ensures forall p: nat {:trigger Taken(xs1, ph1, p)} :: |Taken(xs, ph, p)| <= |Taken(xs1, ph1, p)|
  {
    xs1, ph1 := xs, ph;
    match a
    case Arrive(i, m) => if i < |w.arrived| && IsMessage(m) { ArriveExplained(w, xs, ph, i, m); }
    case Activate(i) => if i < |w.arrived| { ActivateExplained(w, xs, ph, i); }
    case Receive => ph1 := ReceiveExplained(w, xs, ph);
    case Reply(p) =>
      if ph.Replying? {
        ReplyExplained(w, xs, ph, p);
        xs1, ph1 := AfterReply(xs, ph, p).0, AfterReply(xs, ph, p).1;
        assert (xs + [Exchange(ph.peer, ph.request, ph.reply + [p])])[..|xs|] == xs;
      }
  }

  /** The main result: whatever the peers and the user do, the run is a series of whole exchanges, of which
      the last one may be under way. */
  lemma {:induction false} RunExplained(w: World, run: seq<Action>) returns (xs: seq<Exchange>, ph: Phase)
    requires Initial(w)
    ensures Explains(Exec(w, run), xs, ph)
    decreases |run|
  {
    if run == [] {
      xs, ph := [], Idle;
      forall i {:trigger Explained(w, xs, ph, i)} | 0 <= i < |w.arrived| ensures Explained(w, xs, ph, i) {
        assert Attached(w.state.xrep, i);
      }
    } else {
      xs, ph := RunExplained(w, run[..|run| - 1]);
      xs, ph := StepExplained(Exec(w, run[..|run| - 1]), xs, ph, run[|run| - 1]);
    }
  }

  /** The assertions of xrep.cpp hold whenever the user calls. */
  predicate AssertionsHold(x: Xrep) { Ready(x) && (!x.moreOut ==> x.currentOut.None?) }

  /** The user is told that there is no request only if no pipe that may have one has one. */
  lemma NoRequestMeansNone(w: World, run: seq<Action>)
    requires Initial(w)
    ensures
      var s := Exec(w, run).state;
      && AssertionsHold(s.xrep)
      && (Recv(s).1.NoRequest? ==>
            forall i {:trigger s.xrep.ins[i]} ::
              0 <= i < |s.xrep.ins| && s.xrep.ins[i].active ==> Requests(s.xrep.ins[i].queue) == [])
  {
    var xs, ph := RunExplained(w, run);
    var s := Exec(w, run).state;
    var x := s.xrep;
    match ph
    case Replying(_, _, _) =>
    case Reading(c, m, k) => PayloadRead(x, m, k);
    case Idle =>
      CopyStackCopies(x);
      var (y, bottom) := CopyStack(x);
      if bottom {
        var m := y.ins[y.currentIn].queue[0];
        PayloadRead(y, m, StackLength(m).value);
      } else {
        forall i {:trigger x.ins[i]} | 0 <= i < |x.ins| && x.ins[i].active ensures Requests(x.ins[i].queue) == [] {
          assert Attached(x, i) && PipeKept(x, y, i);
          assert !y.ins[i].active;
        }
      }
  }

  /** Not so if an outbound pipe is gone.  The first peer has one no longer and sends a message without a
      stack; nothing is taken back, and the reply to the next request, of the other peer, is dropped. */
  lemma ReplyIsLost()
    ensures
      var a, b := InPipe([1], true, [[Part([5], false)]], 0), InPipe([2], true, [[Part([], true), Part([7], false)]], 0);
      var x := Xrep([a, b], 0, None, false, map[[2] := OutPipe([], [], true)], None, false);
      var (s, r) := Recv(State(x, false, true));
      && r == Got(Part([7], false))
      && s.sendingReply
      && Send(s, Part([8], false)) == (State(s.xrep.(moreOut := false), false, true), true)
      && s.xrep.outs == x.outs
  {
    var a, b := InPipe([1], true, [[Part([5], false)]], 0), InPipe([2], true, [[Part([], true), Part([7], false)]], 0);
    var x := Xrep([a, b], 0, None, false, map[[2] := OutPipe([], [], true)], None, false);
    var a1 := a.(queue := []);
    var x1 := x.(ins := [a1, b], prefetched := Some(Part([5], false)));
    assert a.queue[1..] == [] && x.ins[0 := a1] == [a1, b];
    assert ReadPart(a) == (a1, Some(Part([5], false)));
    assert XRecv(x) == (x1, Some(Part([1], true)));
    var x2 := x1.(moreOut := true);
    assert CopyStack(x) == CopyStack(x2);
    var x3 := x2.(prefetched := None);
    assert XRecv(x2) == (x3, Some(Part([5], false)));
    assert CopyStack(x2) == CopyStack(x3);
    var x4 := x3.(ins := [a1.(active := false), b], currentIn := 1);
    assert x3.ins[0 := a1.(active := false)] == x4.ins;
    assert Scan(x3, 2) == Scan(x4, 1);
    var x5 := x4.(ins := [a1.(active := false), b.(at := 1)], prefetched := Some(Part([], true)));
    assert x4.ins[1 := b.(at := 1)] == x5.ins;
    assert Scan(x4, 1) == (x5, Some(Part([2], true)));
    assert CopyStack(x3) == CopyStack(x5);
    var x6 := x5.(prefetched := None, moreIn := true);
    assert XRecv(x5) == (x6, Some(Part([], true)));
    assert CopyStack(x5) == (x6, true);
  }
}

/**
 The same without the assumption that every outbound pipe is there and has
 room: what the socket keeps in any case, and when the stack of a request ends
 up in the pipe of the peer that sent it.
 */
module RepRouting {
  import opened Common
  import opened RepSpec

  // What is read is never out of step

  predicate WholeQueue(p: InPipe) { forall m <- p.queue :: IsMessage(m) }

  /** Where the socket is in the message that it reads from the current pipe. */
  predicate InStep(x: Xrep) {
    if x.prefetched.Some? then
      && !x.moreIn
      && x.currentIn < |x.ins|
      && var p := x.ins[x.currentIn];
         if x.prefetched.value.more then p.active && p.queue != [] && p.at == 1 && 1 < |p.queue[0]| else p.at == 0
    else if x.moreIn then
      && x.currentIn < |x.ins|
      && var p := x.ins[x.currentIn];
         p.active && p.queue != [] && 0 < p.at < |p.queue[0]|
    else x.currentIn < |x.ins| ==> x.ins[x.currentIn].at == 0
  }

  predicate Flow(x: Xrep) {
    && (x.currentIn < |x.ins| || x.currentIn == 0)
    && (forall i {:trigger x.ins[i]} :: 0 <= i < |x.ins| ==>
          WholeQueue(x.ins[i]) && (i != x.currentIn ==> x.ins[i].at == 0))
    && InStep(x)
  }

  /** The assertion of `xsend`; and a pipe that goes away is not the current one any more. */
  predicate OutOk(x: Xrep) {
    (!x.moreOut ==> x.currentOut.None?) && (x.currentOut.Some? ==> x.currentOut.value in x.outs)
  }

  /** A part of a message of a pipe. */
  lemma ReadPartWhole(p: InPipe)
    requires WholeQueue(p) && ReadPart(p).1.Some?
    ensures var (q, part) := ReadPart(p);
            && p.queue != [] && p.at < |p.queue[0]| && part.value == p.queue[0][p.at]
            && WholeQueue(q) && q.active == p.active && q.identity == p.identity
            && if part.value.more then q.queue == p.queue && q.at == p.at + 1 && q.at < |q.queue[0]|
               else q.at == 0 && p.queue == [p.queue[0]] + q.queue
  {
    assert IsMessage(p.queue[0]);
    assert p.queue[0] in p.queue;
    var q := ReadPart(p).0;
    assert forall m <- q.queue :: m in p.queue;
  }

  lemma {:induction false} ScanFlow(x: Xrep, count: nat)
    requires Flow(x) && x.prefetched.None? && !x.moreIn
    ensures Flow(Scan(x, count).0)
    decreases count
  {
    if count != 0 && x.currentIn < |x.ins| {
      var pipe := x.ins[x.currentIn];
      if pipe.active && ReadPart(pipe).1.Some? {
        ReadPartWhole(pipe);
      } else {
        ScanFlow(x.(ins := x.ins[x.currentIn := pipe.(active := false)], currentIn := Next(x)), count - 1);
      }
    }
  }

  /** Reading keeps in step, and finds the next part of a message when there must be one. */
  lemma XRecvFlow(x: Xrep)
    requires Flow(x)
    ensures Ready(x) && Flow(XRecv(x).0)
    ensures x.prefetched.Some? || x.moreIn ==> XRecv(x).1.Some?
  {
    if x.prefetched.None? {
      if x.moreIn {
        ReadPartWhole(x.ins[x.currentIn]);
      } else {
        ScanFlow(x, |x.ins|);
      }
    }
  }

  lemma SendFlow(x: Xrep, p: Part)
    requires Flow(x) && OutOk(x)
    ensures Flow(XSend(x, p)) && OutOk(XSend(x, p)) && Flow(Rollback(x)) && OutOk(Rollback(x))
  {
  }

  // Where the stack of a request goes

  /** Which outbound pipes are there, and which of them have room. */
  function Rooms(outs: map<Blob, OutPipe>): map<Blob, bool> { map id | id in outs :: outs[id].room }

  predicate Reachable(rooms: map<Blob, bool>, id: Blob) { id in rooms && rooms[id] }

  /** The parts that `xsend` takes for an identity, one after the other, as long as the pipes are full, do not
      lead it to a pipe that is gone. */
  predicate Harmless(rooms: map<Blob, bool>, addresses: seq<Blob>) {
    addresses == [] || (addresses[0] in rooms && (rooms[addresses[0]] || Harmless(rooms, addresses[1..])))
  }

  /** A message that was read, and the identity of its sender. */
  datatype Sent = Sent(identity: Blob, message: Message)

  /** The parts before the last one, from part `j` on. */
  function Bodies(m: Message, j: nat): seq<Blob>
    requires j < |m|
    decreases |m| - j
  {
    if j == |m| - 1 then [] else [m[j].body] + Bodies(m, j + 1)
  }

  /** What is written of a message without a stack. */
  function Addresses(r: Sent): seq<Blob> { [r.identity] + if r.message == [] then [] else Bodies(r.message, 0) }

  /** The messages that the loop reads; all but the last one have no stack. */
  function Reads(x: Xrep): seq<Sent>
    decreases Work(x)
  {
    XRecvWork(x);
    var (x1, part) := XRecv(x);
    var begun :=
      if x.prefetched.None? && !x.moreIn && part.Some? && x1.currentIn < |x.ins| && x.ins[x1.currentIn].queue != []
      then [Sent(part.value.body, x.ins[x1.currentIn].queue[0])] else [];
    if part.None? then []
    else if !part.value.more then begun + Reads(Rollback(x1))
    else if part.value.body == [] then begun
    else begun + Reads(XSend(x1, part.value))
  }

  /** The last message reaches the pipe of its sender: it is there and has room, and nothing that was
      discarded before has confused the socket. */
  predicate Lands(rooms: map<Blob, bool>, seen: seq<Sent>) {
    seen != [] &&
    if |seen| == 1 then Reachable(rooms, seen[0].identity)
    else Harmless(rooms, Addresses(seen[0])) && Lands(rooms, seen[1..])
  }

  predicate OpenOnly(x: Xrep) {
    forall id {:trigger x.outs[id]} :: id in x.outs && x.currentOut != Some(id) ==> x.outs[id].open == []
  }

  /** Between two messages; nothing is known about the outbound pipes. */
  predicate Between(x: Xrep) {
    && Flow(x)
    && x.prefetched.None?
    && !x.moreIn
    && x.currentOut.None?
    && OpenOnly(x)
    && forall i {:trigger x.ins[i]} :: 0 <= i < |x.ins| ==> x.ins[i].identity != []
  }

  /** Part `j` of the message m of `id` is the next one, and no part before it ends the stack. */
  predicate Within(x: Xrep, id: Blob, m: Message, j: nat) {
    && Flow(x)
    && OutOk(x)
    && OpenOnly(x)
    && (forall i {:trigger x.ins[i]} :: 0 <= i < |x.ins| ==> x.ins[i].identity != [])
    && IsMessage(m)
    && j < |m|
    && NoBottom(m, j)
    && (x.currentOut == Some(id) ==> x.outs[id].open == m[..j])
    && (!x.moreOut ==> !Reachable(Rooms(x.outs), id))
    && x.currentIn < |x.ins|
    && (j > 0 || m[0].more ==> x.ins[x.currentIn].identity == id)
    && if j == 0 then x.prefetched == Some(m[0]) && (m[0].more ==> x.ins[x.currentIn].queue[0] == m)
       else x.prefetched.None? && x.moreIn && x.ins[x.currentIn].queue[0] == m && x.ins[x.currentIn].at == j
  }

  /** The stack of the message is in the pipe of its sender. */
  predicate Landed(y: Xrep, r: Sent) {
    && y.currentOut == Some(r.identity)
    && r.identity in y.outs
    && StackLength(r.message).Some?
    && y.outs[r.identity].open == r.message[..StackLength(r.message).value]
  }

  /** The payload of the message is next in the pipe from its sender. */
  predicate AtPayloadOf(y: Xrep, r: Sent) {
    && StackLength(r.message).Some?
    && y.currentIn < |y.ins|
    && y.moreIn
    && y.ins[y.currentIn].identity == r.identity
    && y.ins[y.currentIn].queue != []
    && y.ins[y.currentIn].queue[0] == r.message
    && y.ins[y.currentIn].at == StackLength(r.message).value
  }

  lemma {:induction false} ScanBetween(x: Xrep, count: nat)
    requires Between(x)
    ensures
      var (y, part) := Scan(x, count);
      if part.None? then Between(y) && y.outs == x.outs && y.moreOut == x.moreOut
      else
        && y.currentIn < |x.ins|
        && x.ins[y.currentIn].queue != []
        && var m := x.ins[y.currentIn].queue[0];
           && part == Some(Part(x.ins[y.currentIn].identity, true))
           && part.value.body != []
           && |y.ins| == |x.ins|
           && (forall i {:trigger y.ins[i]} :: 0 <= i < |y.ins| ==> y.ins[i].identity == x.ins[i].identity)
           && y == x.(ins := y.ins, currentIn := y.currentIn, prefetched := y.prefetched)
           && IsMessage(m)
           && y.prefetched == Some(m[0])
           && (m[0].more ==> y.ins[y.currentIn].queue != [] && y.ins[y.currentIn].queue[0] == m)
    decreases count
  {
    if count != 0 && x.currentIn < |x.ins| {
      var pipe := x.ins[x.currentIn];
      if pipe.active && ReadPart(pipe).1.Some? {
        ReadPartWhole(pipe);
        assert IsMessage(pipe.queue[0]);
      } else {
        var x1 := x.(ins := x.ins[x.currentIn := pipe.(active := false)], currentIn := Next(x));
        ScanBetween(x1, count - 1);
        var c := Scan(x1, count - 1).0.currentIn;
        assert c < |x.ins| ==> x1.ins[c].queue == x.ins[c].queue && x1.ins[c].identity == x.ins[c].identity;
        assert forall i {:trigger x.ins[i]} :: 0 <= i < |x.ins| ==> x1.ins[i].identity == x.ins[i].identity;
      }
    }
  }

  /** A message begins: its sender is looked up. */
  lemma Begins(x: Xrep)
    requires Between(x) && XRecv(x).1.Some?
    ensures
      var (x1, part) := XRecv(x);
      && part.value.more && part.value.body != []
      && x1.currentIn < |x.ins| && x.ins[x1.currentIn].queue != []
      && var m := x.ins[x1.currentIn].queue[0];
         var id := part.value.body;
         var z := XSend(x1, part.value);
         && Within(z, id, m, 0)
         && Rooms(z.outs) == Rooms(x.outs)
         && (z.currentOut == Some(id) <==> !x.moreOut && Reachable(Rooms(x.outs), id))
         && (z.currentOut.Some? ==> z.currentOut == Some(id))
         && (!z.moreOut <==> !x.moreOut && id in x.outs && !x.outs[id].room)
  {
    XRecvFlow(x);
    ScanBetween(x, |x.ins|);
    var (x1, part) := XRecv(x);
    SendFlow(x1.(moreOut := true), part.value);
  }

  /** What is still to be written of a message without a stack leaves the socket as it should be. */
  predicate HarmlessFrom(x: Xrep, m: Message, j: nat)
    requires j < |m|
  {
    x.currentOut.Some? || (!x.moreOut && Harmless(Rooms(x.outs), Bodies(m, j)))
  }

  /** The part of the message that is read. */
  lemma NextPart(x: Xrep, id: Blob, m: Message, j: nat)
    requires Within(x, id, m, j)
    ensures
      var (y, part) := XRecv(x);
      && part == Some(m[j])
      && Flow(y)
      && |y.ins| == |x.ins|
      && (forall i {:trigger y.ins[i]} :: 0 <= i < |y.ins| ==> y.ins[i].identity == x.ins[i].identity)
      && y == x.(ins := y.ins, currentIn := y.currentIn, prefetched := None, moreIn := m[j].more)
      && (m[j].more ==>
            && j + 1 < |m|
            && y.currentIn == x.currentIn
            && y.ins[y.currentIn].queue != []
            && y.ins[y.currentIn].queue[0] == m
            && y.ins[y.currentIn].at == j + 1)
  {
    XRecvFlow(x);
    if j > 0 {
      ReadPartWhole(x.ins[x.currentIn]);
    }
  }

  lemma RoomsKept(x: Xrep, p: Part)
    ensures Rooms(XSend(x, p).outs) == Rooms(x.outs) && Rooms(Rollback(x).outs) == Rooms(x.outs)
  {
  }

  /** What a further part does to the pipe of `id`, which is full or not there unless it is the current one. */
  lemma Aimed(x: Xrep, id: Blob, p: Part, open: seq<Part>)
    requires OutOk(x) && OpenOnly(x) && p.more
    requires x.currentOut == Some(id) ==> x.outs[id].open == open
    requires !x.moreOut ==> !Reachable(Rooms(x.outs), id)
    ensures
      var z := XSend(x, p);
      && OpenOnly(z)
      && (z.currentOut == Some(id) <==> x.currentOut == Some(id))
      && (z.currentOut == Some(id) ==> id in z.outs && z.outs[id].open == open + [p])
      && (!z.moreOut ==> !Reachable(Rooms(z.outs), id))
  {
    RoomsKept(x, p);
  }

  lemma HarmlessKept(x: Xrep, m: Message, j: nat)
    requires OutOk(x) && j + 1 < |m| && m[j].more
    ensures HarmlessFrom(XSend(x, m[j]), m, j + 1) <==> HarmlessFrom(x, m, j)
  {
    RoomsKept(x, m[j]);
    assert Bodies(m, j) == [m[j].body] + Bodies(m, j + 1);
  }

  /** The stack ends: it is decided where it went. */
  lemma StackEnds(x: Xrep, id: Blob, m: Message, j: nat)
    requires Within(x, id, m, j) && m[j].more && m[j].body == []
    ensures
      var z := XSend(XRecv(x).0, m[j]);
      && StackLength(m) == Some(j + 1)
      && AtPayloadOf(z, Sent(id, m))
      && (Landed(z, Sent(id, m)) <==> x.currentOut == Some(id))
  {
    NextPart(x, id, m, j);
    StackLengthAt(m, j);
    Aimed(XRecv(x).0, id, m[j], m[..j]);
    assert m[..j + 1] == m[..j] + [m[j]];
  }

  /** A further part of the stack. */
  lemma Continues(x: Xrep, id: Blob, m: Message, j: nat)
    requires Within(x, id, m, j) && m[j].more && m[j].body != []
    ensures
      var z := XSend(XRecv(x).0, m[j]);
      && j + 1 < |m|
      && Rooms(z.outs) == Rooms(x.outs)
      && Within(z, id, m, j + 1)
      && (z.currentOut == Some(id) <==> x.currentOut == Some(id))
      && (HarmlessFrom(z, m, j + 1) <==> HarmlessFrom(x, m, j))
  {
    NextPart(x, id, m, j);
    var y := XRecv(x).0;
    SendFlow(y, m[j]);
    RoomsKept(y, m[j]);
    Aimed(y, id, m[j], m[..j]);
    HarmlessKept(y, m, j);
    assert m[..j + 1] == m[..j] + [m[j]];
    SentAlone(y, m[j]);
  }

  lemma SentAlone(x: Xrep, p: Part)
    ensures var z := XSend(x, p);
            z == x.(outs := z.outs, currentOut := z.currentOut, moreOut := z.moreOut)
  {
  }

  /** A message without a stack ends. */
  lemma Ends(x: Xrep, id: Blob, m: Message, j: nat)
    requires Within(x, id, m, j) && !m[j].more
    ensures
      var z := Rollback(XRecv(x).0);
      && StackLength(m).None?
      && Rooms(z.outs) == Rooms(x.outs)
      && Between(z)
      && z.moreOut == !HarmlessFrom(x, m, j)
  {
    NextPart(x, id, m, j);
    SendFlow(XRecv(x).0, m[j]);
    StackLengthAt(m, j);
    assert j == |m| - 1;
    assert Rooms(Rollback(XRecv(x).0).outs) == Rooms(x.outs);
  }

  /** What the loop has come to, if it was at message `r` or had read it already. */
  predicate Decided(copied: (Xrep, bool), seen: seq<Sent>, rooms: map<Blob, bool>, r: Sent, own: bool, clear: bool) {
    copied.1 ==>
      if seen == [] then AtPayloadOf(copied.0, r) && (Landed(copied.0, r) <==> own)
      else
        && AtPayloadOf(copied.0, seen[|seen| - 1])
        && (Landed(copied.0, seen[|seen| - 1]) <==> clear && Lands(rooms, seen))
  }

  predicate DecidedBetween(copied: (Xrep, bool), seen: seq<Sent>, rooms: map<Blob, bool>, clear: bool) {
    copied.1 ==>
      && seen != []
      && AtPayloadOf(copied.0, seen[|seen| - 1])
      && (Landed(copied.0, seen[|seen| - 1]) <==> clear && Lands(rooms, seen))
  }

  /** One turn of the loop within a message. */
  lemma OneTurn(x: Xrep, p: Part)
    requires (x.prefetched.Some? || x.moreIn) && XRecv(x).1 == Some(p)
    ensures
      var x1 := XRecv(x).0;
      if !p.more then CopyStack(x) == CopyStack(Rollback(x1)) && Reads(x) == Reads(Rollback(x1))
      else if p.body == [] then CopyStack(x) == (XSend(x1, p), true) && Reads(x) == []
      else CopyStack(x) == CopyStack(XSend(x1, p)) && Reads(x) == Reads(XSend(x1, p))
  {
  }

  lemma {:induction false} BetweenLands(x: Xrep)
    requires Between(x)
    ensures DecidedBetween(CopyStack(x), Reads(x), Rooms(x.outs), !x.moreOut)
    decreases Work(x)
  {
    var (x1, part) := XRecv(x);
    if part.Some? {
      Begins(x);
      XRecvWork(x);
      var m := x.ins[x1.currentIn].queue[0];
      var id := part.value.body;
      var z := XSend(x1, part.value);
      WithinLands(z, id, m, 0);
      var rest := Reads(z);
      assert Reads(x) == [Sent(id, m)] + rest;
      assert ([Sent(id, m)] + rest)[1..] == rest;
    }
  }

  lemma {:induction false} WithinLands(x: Xrep, id: Blob, m: Message, j: nat)
    requires Within(x, id, m, j)
    ensures Decided(CopyStack(x), Reads(x), Rooms(x.outs), Sent(id, m), x.currentOut == Some(id), HarmlessFrom(x, m, j))
    decreases Work(x)
  {
    NextPart(x, id, m, j);
    XRecvWork(x);
    OneTurn(x, m[j]);
    var x1 := XRecv(x).0;
    if !m[j].more {
      Ends(x, id, m, j);
      BetweenLands(Rollback(x1));
    } else if m[j].body == [] {
      StackEnds(x, id, m, j);
    } else {
      Continues(x, id, m, j);
      WithinLands(XSend(x1, m[j]), id, m, j + 1);
    }
  }

  /** For every socket between two messages, whatever its outbound pipes: the stack of the next request ends in
      the pipe of the peer that sent it if and only if that pipe is there and has room, and every message
      without a stack that is read before was harmless. */
  lemma StackReachesSender(x: Xrep)
    requires Between(x) && !x.moreOut && CopyStack(x).1
    ensures
      var y, seen := CopyStack(x).0, Reads(x);
      && seen != []
      && var request := seen[|seen| - 1];
         && AtPayloadOf(y, request)
         && (Landed(y, request) <==>
               && Reachable(Rooms(x.outs), request.identity)
               && forall i {:trigger seen[i]} :: 0 <= i < |seen| - 1 ==> Harmless(Rooms(x.outs), Addresses(seen[i])))
  {
    BetweenLands(x);
    LandsAll(Rooms(x.outs), Reads(x));
  }

  lemma {:induction false} LandsAll(rooms: map<Blob, bool>, seen: seq<Sent>)
    requires seen != []
    ensures Lands(rooms, seen) <==>
              && Reachable(rooms, seen[|seen| - 1].identity)
              && forall i {:trigger seen[i]} :: 0 <= i < |seen| - 1 ==> Harmless(rooms, Addresses(seen[i]))
    decreases |seen|
  {
    if |seen| > 1 {
      LandsAll(rooms, seen[1..]);
      assert forall i {:trigger seen[i]} :: 1 <= i < |seen| ==> seen[i] == seen[1..][i - 1];
      assert forall i {:trigger seen[1..][i]} :: 0 <= i < |seen| - 1 ==> seen[1..][i] == seen[i + 1];
    }
  }

  /** The other way to go wrong: the pipe of the sender is full, the next part of the stack is taken for an
      identity, and the reply goes to the peer of that name. */
  lemma ReplyGoesAstray()
    ensures
      var request := [Part([2], true), Part([], true), Part([7], false)];
      var a := InPipe([1], true, [request], 0);
      var x := Xrep([a], 0, None, false, map[[1] := OutPipe([], [], false), [2] := OutPipe([], [], true)], None, false);
      var (s, r) := Recv(State(x, false, true));
      && r == Got(Part([7], false))
      && Send(s, Part([8], false)).0.xrep.outs ==
           x.outs[[2] := OutPipe([Part([], true), Part([8], false)], [], true)]
  {
    var request := [Part([2], true), Part([], true), Part([7], false)];
    var a := InPipe([1], true, [request], 0);
    var x := Xrep([a], 0, None, false, map[[1] := OutPipe([], [], false), [2] := OutPipe([], [], true)], None, false);
    var x1 := x.(ins := [a.(at := 1)], prefetched := Some(request[0]));
    assert x.ins[0 := a.(at := 1)] == x1.ins;
    assert XRecv(x) == (x1, Some(Part([1], true)));
    assert CopyStack(x) == CopyStack(x1);
    var x2 := x1.(prefetched := None, moreIn := true);
    assert XRecv(x1) == (x2, Some(request[0]));
    var x3 := x2.(moreOut := true, currentOut := Some([2]));
    assert CopyStack(x1) == CopyStack(x3);
    var x4 := x3.(ins := [a.(at := 2)]);
    assert x3.ins[0 := a.(at := 2)] == x4.ins;
    assert XRecv(x3) == (x4, Some(request[1]));
    var x5 := x4.(outs := x4.outs[[2] := OutPipe([], [Part([], true)], true)]);
    assert [] + [request[1]] == [Part([], true)];
    assert XSend(x4, request[1]) == x5;
    assert CopyStack(x3) == (x5, true);
    var x6 := x5.(ins := [a.(queue := [], at := 0)], moreIn := false);
    assert a.queue[1..] == [] && x5.ins[0 := a.(queue := [], at := 0)] == x6.ins;
    assert XRecv(x5) == (x6, Some(request[2]));
    var got := OutPipe([Part([], true), Part([8], false)], [], true);
    assert [] + [Part([], true)] + [Part([8], false)] == got.flushed;
    assert x5.outs[[2] := got] == x.outs[[2] := got];
    assert XSend(x6, Part([8], false)).outs == x.outs[[2] := OutPipe([Part([], true), Part([8], false)], [], true)];
  }
}

/**
 Whose turn it is: the peers are served one after the other, and requests and
 replies take turns.
 */
module RepTurns {
  import opened Common
  import opened RepSpec
  import opened RepRuns
  import opened RepRouting

  // The loop that looks for a request, whatever the outbound pipes

  /** The next message of peer p is a request that nobody has begun to read. */
  predicate Waits(x: Xrep, p: nat) {
    && p < |x.ins|
    && x.ins[p].active
    && x.ins[p].queue != []
    && x.ins[p].at == 0
    && StackLength(x.ins[p].queue[0]).Some?
  }

  predicate Named(x: Xrep) { forall i {:trigger x.ins[i]} :: 0 <= i < |x.ins| ==> x.ins[i].identity != [] }

  predicate WithinMessage(x: Xrep) { x.prefetched.Some? || x.moreIn }

  /** The stack of the request of p is being copied; `j` of its parts were read. */
  predicate AtStackOf(x: Xrep, p: nat, j: nat) {
    && x.currentIn == p < |x.ins|
    && x.ins[p].queue != []
    && var m := x.ins[p].queue[0];
       && StackLength(m).Some?
       && j < |m|
       && NoBottom(m, j)
       && if j == 0 then x.prefetched == Some(m[0]) else x.prefetched.None? && x.moreIn && x.ins[p].at == j
  }

  /** No peer has come between p and its turn. */
  predicate Nearer(x: Xrep, y: Xrep, p: nat) { Waits(y, p) && Distance(y, p) <= Distance(x, p) }

  lemma RequestHasParts(m: Message)
    requires IsMessage(m) && StackLength(m).Some?
    ensures m[0].more && |m| > 1
  {
  }

  lemma {:induction false} ScanTurn(x: Xrep, count: nat, p: nat)
    requires Flow(x) && Named(x) && !WithinMessage(x) && Waits(x, p) && Distance(x, p) < count
    ensures
      var (y, part) := Scan(x, count);
      && part.Some? && part.value.more && part.value.body != []
      && Flow(y) && Named(y) && y.prefetched.Some? && |y.ins| == |x.ins|
      && (AtStackOf(y, p, 0) || (y.currentIn != p && Nearer(x, y, p)))
    decreases count
  {
    var pipe := x.ins[x.currentIn];
    ScanFlow(x, count);
    if x.currentIn == p {
      assert pipe.queue[0] in pipe.queue;
      RequestHasParts(pipe.queue[0]);
    }
    if pipe.active && ReadPart(pipe).1.Some? {
      ReadPartWhole(pipe);
    } else {
      var x1 := x.(ins := x.ins[x.currentIn := pipe.(active := false)], currentIn := Next(x));
      ScanTurn(x1, count - 1, p);
    }
  }

  /** A part of another message. */
  lemma OtherPart(x: Xrep, p: nat)
    requires Flow(x) && Named(x) && WithinMessage(x) && x.currentIn != p && Waits(x, p)
    ensures
      var (y, part) := XRecv(x);
      && part.Some?
      && Flow(y) && Named(y) && |y.ins| == |x.ins|
      && Nearer(x, y, p)
      && (part.value.more ==> y.moreIn && y.prefetched.None? && y.currentIn == x.currentIn)
      && (!part.value.more ==> !WithinMessage(y))
  {
    XRecvFlow(x);
    if x.prefetched.None? {
      ReadPartWhole(x.ins[x.currentIn]);
    }
  }

  /** The last part of another message that is read to its end. */
  lemma OtherEnds(x: Xrep, p: nat)
    requires Flow(x) && x.prefetched.None? && x.moreIn && x.currentIn != p && Waits(x, p)
    ensures XRecv(x).1.Some?
    ensures !XRecv(x).1.value.more ==> Distance(XRecv(x).0, p) == Distance(x, p) - 1
  {
    ReadPartWhole(x.ins[x.currentIn]);
  }

  /** A part of the stack of p. */
  lemma OwnPart(x: Xrep, p: nat, j: nat)
    requires Flow(x) && Named(x) && AtStackOf(x, p, j)
    ensures
      var (y, part) := XRecv(x);
      && part.Some? && part.value.more
      && Flow(y) && Named(y) && |y.ins| == |x.ins|
      && y.currentIn == p && y.moreIn && y.prefetched.None?
      && (part.value.body != [] ==> AtStackOf(y, p, j + 1))
  {
    var m := x.ins[p].queue[0];
    assert m in x.ins[p].queue;
    XRecvFlow(x);
    if !m[j].more {
      StackLengthAt(m, j);
      assert false;
    }
    if j > 0 {
      ReadPartWhole(x.ins[p]);
    }
  }

  /** While a request waits, the loop ends at it or at another one that is read before. */
  predicate Turned(x: Xrep, p: nat, copied: (Xrep, bool)) {
    var y := copied.0;
    && copied.1
    && |y.ins| == |x.ins|
    && y.moreIn && y.prefetched.None?
    && (y.currentIn == p || Nearer(x, y, p))
  }

  lemma TurnedChain(x: Xrep, z: Xrep, p: nat, copied: (Xrep, bool))
    requires Nearer(x, z, p) && |z.ins| == |x.ins| && Turned(z, p, copied)
    ensures Turned(x, p, copied)
  {
  }

  /** Writing does not change what is read. */
  lemma WritingApart(x: Xrep, part: Part)
    requires Flow(x) && Named(x)
    ensures
      var y, z := XSend(x, part), Rollback(x);
      && Flow(y) && Named(y) && y.ins == x.ins && y.currentIn == x.currentIn && y.moreIn == x.moreIn && y.prefetched == x.prefetched
      && Flow(z) && Named(z) && z.ins == x.ins && z.currentIn == x.currentIn && z.moreIn == x.moreIn && z.prefetched == x.prefetched
  {
    SentAlone(x, part);
  }

  lemma {:induction false} CopyTurn(x: Xrep, p: nat)
    requires Flow(x) && Named(x) && Waits(x, p) && !WithinMessage(x)
    ensures Turned(x, p, CopyStack(x))
    decreases Work(x), 1
  {
    XRecvWork(x);
    var (x1, part) := XRecv(x);
    ScanTurn(x, |x.ins|, p);
    WritingApart(x1, part.value);
    var z := XSend(x1, part.value);
    assert CopyStack(x) == CopyStack(z);
    if AtStackOf(x1, p, 0) {
      OwnTurn(z, p, 0);
    } else {
      OtherTurn(z, p);
      TurnedChain(x, z, p, CopyStack(z));
    }
  }

  lemma {:induction false} OtherTurn(x: Xrep, p: nat)
    requires Flow(x) && Named(x) && Waits(x, p) && WithinMessage(x) && x.currentIn != p
    ensures Turned(x, p, CopyStack(x))
    decreases Work(x), 0
  {
    XRecvWork(x);
    var (x1, part) := XRecv(x);
    OtherPart(x, p);
    WritingApart(x1, part.value);
    OneTurn(x, part.value);
    if !part.value.more {
      CopyTurn(Rollback(x1), p);
      TurnedChain(x, Rollback(x1), p, CopyStack(x));
    } else if part.value.body != [] {
      OtherTurn(XSend(x1, part.value), p);
      TurnedChain(x, XSend(x1, part.value), p, CopyStack(x));
    }
  }

  lemma {:induction false} OwnTurn(x: Xrep, p: nat, j: nat)
    requires Flow(x) && Named(x) && AtStackOf(x, p, j)
    ensures Turned(x, p, CopyStack(x)) && CopyStack(x).0.currentIn == p
    decreases Work(x)
  {
    XRecvWork(x);
    OwnPart(x, p, j);
    var (x1, part) := XRecv(x);
    if part.value.body != [] {
      OwnTurn(XSend(x1, part.value), p, j + 1);
    }
  }

  // Over runs

  /** How many requests of peer p were read to their end. */
  function Served(w: World, p: nat): int
    requires p < |w.arrived| && p < |w.state.xrep.ins|
  {
    |Requests(w.arrived[p])| - |Requests(w.state.xrep.ins[p].queue)|
  }

  /** How many requests were delivered to the user, counted in what the user sees. */
  function Completed(log: seq<Event>): nat {
    if log == [] then 0 else Completed(log[..|log| - 1]) + (if log[|log| - 1].Delivered? && !log[|log| - 1].part.more then 1 else 0)
  }

  lemma CompletedOneMore(log: seq<Event>, e: Event)
    ensures Completed(log + [e]) == Completed(log) + (if e.Delivered? && !e.part.more then 1 else 0)
  {
    assert (log + [e])[..|log|] == log;
  }

  predicate ReadingOf(ph: Phase, p: nat) { ph.Reading? && ph.peer == p }

  /** The request of p waits, or it is the one that is read. */
  predicate Queued(w: World, ph: Phase, p: nat) { ReadingOf(ph, p) || Waits(w.state.xrep, p) }

  /** How many peers can still be served before p. */
  function Chance(w: World, ph: Phase, p: nat): int {
    if ReadingOf(ph, p) then 0 else Distance(w.state.xrep, p)
  }

  /** A step serves p, or brings its turn nearer by every request that is completed. */
  predicate Approached(w: World, ph: Phase, v: World, ph1: Phase, p: nat)
    requires p < |w.arrived| && p < |w.state.xrep.ins| && p < |v.arrived| && p < |v.state.xrep.ins|
  {
    && Served(v, p) >= Served(w, p)
    && (Served(v, p) > Served(w, p)
        || (Queued(v, ph1, p) && Chance(v, ph1, p) + Completed(v.log) - Completed(w.log) <= Chance(w, ph, p)))
  }

  lemma PhaseFlow(s: State, ph: Phase)
    requires PhaseSound(ph) && PhaseFits(s, ph) && Sound(s.xrep)
    ensures Flow(s.xrep) && Named(s.xrep)
    ensures ph.Reading? ==> s.xrep.currentIn == ph.peer && s.xrep.moreIn && s.xrep.prefetched.None? && s.xrep.ins[ph.peer].at > 0
    ensures ph.Idle? ==> !WithinMessage(s.xrep)
  {
    var x := s.xrep;
    forall i {:trigger x.ins[i]} | 0 <= i < |x.ins|
      ensures WholeQueue(x.ins[i]) && x.ins[i].identity != [] && (i != x.currentIn || !ph.Reading? ==> x.ins[i].at == 0)
    {
      assert Attached(x, i);
      match ph
      case Idle => assert Quiet(x, i);
      case Reading(c, _, _) => assert i != c ==> Quiet(x, i);
      case Replying(c, _, _) => assert i != c ==> Quiet(x, i);
    }
  }

  /** The requests of p that were served are those that were taken. */
  lemma ServedIsTaken(w: World, xs: seq<Exchange>, ph: Phase, p: nat)
    requires PeersExplained(w, xs, ph) && p < |w.arrived|
    ensures Served(w, p) == |Taken(xs, ph, p)|
  {
    assert Explained(w, xs, ph, p);
  }

  /** A part of a payload is read. */
  lemma ReadTurn(w: World, xs: seq<Exchange>, c: nat, m: Message, k: nat, p: nat)
    requires Explains(w, xs, Reading(c, m, k)) && p < |w.arrived| && Queued(w, Reading(c, m, k), p)
    ensures var v := Step(w, Receive);
            && Explains(v, xs, AfterPart(c, m, k))
            && Approached(w, Reading(c, m, k), v, AfterPart(c, m, k), p)
  {
    var x := w.state.xrep;
    var v := Step(w, Receive);
    ReadExplained(w, xs, c, m, k);
    ServedIsTaken(w, xs, Reading(c, m, k), p);
    ServedIsTaken(v, xs, AfterPart(c, m, k), p);
    CompletedOneMore(w.log, Delivered(m[k]));
    PhaseFlow(w.state, Reading(c, m, k));
    if c != p {
      OtherPart(x, p);
      OtherEnds(x, p);
      assert Nearer(x, v.state.xrep, p);
    }
  }

  /** A request is looked for. */
  lemma IdleTurn(w: World, xs: seq<Exchange>, p: nat) returns (ph1: Phase)
    requires Explains(w, xs, Idle) && p < |w.arrived| && Queued(w, Idle, p)
    ensures Explains(Step(w, Receive), xs, ph1) && Approached(w, Idle, Step(w, Receive), ph1, p)
  {
    CopyExplained(w, xs);
    PhaseFlow(w.state, Idle);
    CopyTurn(w.state.xrep, p);
    var (y, bottom) := CopyStack(w.state.xrep);
    var v := w.(state := State(y, false, false));
    var ph := AfterCopy(y, true);
    ServedIsTaken(w, xs, Idle, p);
    ServedIsTaken(v, xs, ph, p);
    assert Step(w, Receive) == Step(v, Receive);
    ReadTurn(v, xs, ph.peer, ph.request, ph.k, p);
    ph1 := AfterPart(ph.peer, ph.request, ph.k);
  }

  /** A reply changes nothing about the requests. */
  lemma ReplyApart(w: World, ph: Phase, ph1: Phase, part: Part, p: nat)
    requires p < |w.arrived| && p < |w.state.xrep.ins| && Queued(w, ph, p) && !ph.Reading? && !ph1.Reading?
    ensures var v := Step(w, Reply(part));
            p < |v.state.xrep.ins| && Approached(w, ph, v, ph1, p)
  {
    CompletedOneMore(w.log, Accepted(part));
    SentAlone(w.state.xrep, part);
  }

  lemma ReplyTurn(w: World, xs: seq<Exchange>, ph: Phase, part: Part, p: nat) returns (xs1: seq<Exchange>, ph1: Phase)
    requires Explains(w, xs, ph) && p < |w.arrived| && Queued(w, ph, p)
    ensures Explains(Step(w, Reply(part)), xs1, ph1) && Approached(w, ph, Step(w, Reply(part)), ph1, p)
  {
    xs1, ph1 := xs, ph;
    if ph.Replying? {
      ReplyExplained(w, xs, ph, part);
      xs1, ph1 := AfterReply(xs, ph, part).0, AfterReply(xs, ph, part).1;
      ReplyApart(w, ph, ph1, part, p);
    } else {
      assert Step(w, Reply(part)) == w;
    }
  }

  lemma ArriveTurn(w: World, xs: seq<Exchange>, ph: Phase, i: nat, m: Message, p: nat)
    requires Explains(w, xs, ph) && p < |w.arrived| && Queued(w, ph, p)
    ensures Explains(Step(w, Arrive(i, m)), xs, ph) && Approached(w, ph, Step(w, Arrive(i, m)), ph, p)
  {
    if i < |w.arrived| && IsMessage(m) {
      ArriveExplained(w, xs, ph, i, m);
      ServedIsTaken(w, xs, ph, p);
      ServedIsTaken(Step(w, Arrive(i, m)), xs, ph, p);
    }
  }

  lemma StepTurn(w: World, xs: seq<Exchange>, ph: Phase, a: Action, p: nat) returns (xs1: seq<Exchange>, ph1: Phase)
    requires Explains(w, xs, ph) && p < |w.arrived| && Queued(w, ph, p)
    ensures Explains(Step(w, a), xs1, ph1) && |Step(w, a).arrived| == |w.arrived|
    ensures Approached(w, ph, Step(w, a), ph1, p)
  {
    xs1, ph1 := xs, ph;
    match a
    case Arrive(i, m) => ArriveTurn(w, xs, ph, i, m, p);
    case Activate(i) => if i < |w.arrived| { ActivateExplained(w, xs, ph, i); }
    case Reply(part) => xs1, ph1 := ReplyTurn(w, xs, ph, part, p);
    case Receive =>
      match ph
      case Replying(_, _, _) => assert Step(w, Receive) == w;
      case Reading(c, m, k) =>
        ReadTurn(w, xs, c, m, k, p);
        ph1 := AfterPart(c, m, k);
      case Idle => ph1 := IdleTurn(w, xs, p);
  }

  lemma {:induction false} RunTurn(w: World, xs: seq<Exchange>, ph: Phase, run: seq<Action>, p: nat)
    returns (xs1: seq<Exchange>, ph1: Phase)
    requires Explains(w, xs, ph) && p < |w.arrived| && Queued(w, ph, p)
    ensures var v := Exec(w, run);
            && Explains(v, xs1, ph1) && |v.arrived| == |w.arrived|
            && (Served(v, p) > Served(w, p) || Approached(w, ph, v, ph1, p))
    decreases |run|
  {
    if run == [] {
      xs1, ph1 := xs, ph;
    } else {
      var u := Exec(w, run[..|run| - 1]);
      var a := run[|run| - 1];
      var xs2, ph2 := RunTurn(w, xs, ph, run[..|run| - 1], p);
      if Served(u, p) > Served(w, p) {
        xs1, ph1 := StepExplained(u, xs2, ph2, a);
        ServedGrows(u, xs2, ph2, a, xs1, ph1, p);
      } else {
        xs1, ph1 := StepTurn(u, xs2, ph2, a, p);
      }
    }
  }

  /** What was served stays served. */
  lemma ServedGrows(w: World, xs: seq<Exchange>, ph: Phase, a: Action, xs1: seq<Exchange>, ph1: Phase, p: nat)
    requires Explains(w, xs, ph) && Explains(Step(w, a), xs1, ph1) && p < |w.arrived| && |Step(w, a).arrived| == |w.arrived|
    requires |Taken(xs, ph, p)| <= |Taken(xs1, ph1, p)|
    ensures Served(Step(w, a), p) >= Served(w, p)
  {
    ServedIsTaken(w, xs, ph, p);
    ServedIsTaken(Step(w, a), xs1, ph1, p);
  }

  /** Every peer whose request waits is served before as many other requests have been completed as there are
      peers, whatever all peers and the user do. */
  lemma FairlyServed(w: World, run: seq<Action>, later: seq<Action>, p: nat)
    requires Initial(w) && p < |w.arrived| && Waits(Exec(w, run).state.xrep, p)
    ensures
      var u := Exec(w, run);
      var v := Exec(u, later);
      && |v.arrived| == |u.arrived| == |w.arrived| == |v.state.xrep.ins| == |u.state.xrep.ins|
      && (Completed(v.log) - Completed(u.log) >= |w.arrived| ==> Served(v, p) > Served(u, p))
  {
    PeersStay(w, run);
    var xs, ph := RunExplained(w, run);
    var u := Exec(w, run);
    var xs1, ph1 := RunTurn(u, xs, ph, later, p);
  }

  lemma {:induction false} PeersStay(w: World, run: seq<Action>)
    ensures |Exec(w, run).arrived| == |w.arrived|
    decreases |run|
  {
    if run != [] {
      PeersStay(w, run[..|run| - 1]);
    }
  }

  // Requests and replies in turn

  /** A request was delivered to its end, and the reply was not completed yet. */
  predicate ReplyDue(log: seq<Event>) {
    log != [] && match log[|log| - 1] case Delivered(part) => !part.more case Accepted(part) => part.more
  }

  lemma {:induction false} LastDelivered(parts: seq<Part>)
    requires parts != []
    ensures var log := AllDelivered(parts); log != [] && log[|log| - 1] == Delivered(parts[|parts| - 1])
  {
  }

  lemma LastAccepted(parts: seq<Part>)
    requires parts != []
    ensures var log := AllAccepted(parts); log != [] && log[|log| - 1] == Accepted(parts[|parts| - 1])
  {
  }

  lemma ExchangesEnd(xs: seq<Exchange>, peers: nat)
    requires AreExchanges(xs, peers)
    ensures !ReplyDue(LogOf(xs))
  {
    if xs != [] {
      var e := xs[|xs| - 1];
      assert IsExchange(e, peers);
      LastAccepted(e.reply);
    }
  }

  lemma PhaseDue(s: State, ph: Phase)
    requires PhaseSound(ph) && PhaseFits(s, ph)
    ensures PhaseLog(ph) == [] ==> !ph.Replying?
    ensures PhaseLog(ph) != [] ==> (ReplyDue(PhaseLog(ph)) <==> ph.Replying?)
  {
    match ph
    case Idle =>
    case Reading(_, m, k) =>
      var parts := ReadSoFar(m, k);
      if parts != [] {
        LastDelivered(parts);
        assert parts[|parts| - 1] == m[k - 1];
      }
    case Replying(_, m, reply) =>
      LastDelivered(Payload(m));
      assert Payload(m)[|Payload(m)| - 1] == m[|m| - 1];
      if reply != [] {
        LastAccepted(reply);
      }
  }

  /** The user can receive exactly when no reply is due, and reply exactly when one is. */
  lemma TurnsExactly(w: World, run: seq<Action>, part: Part)
    requires Initial(w)
    ensures var v := Exec(w, run);
            && (Recv(v.state).1.WrongState? <==> ReplyDue(v.log))
            && (Send(v.state, part).1 <==> ReplyDue(v.log))
  {
    var xs, ph := RunExplained(w, run);
    var v := Exec(w, run);
    ExchangesEnd(xs, |v.arrived|);
    PhaseDue(v.state, ph);
    if PhaseLog(ph) == [] {
      assert LogOf(xs) + [] == LogOf(xs);
    }
    assert ReplyDue(v.log) <==> ph.Replying?;
  }
}

module Rep {
  import opened Common
  import opened RepSpec
  import opened RepRouting
  import S = RepSpec

  class Socket {
    var ins: seq<InPipe>
    var currentIn: nat
    var prefetched: Option<Part>
    var moreIn: bool
    var outs: map<Blob, OutPipe>
    var currentOut: Option<Blob>
    var moreOut: bool
    var sendingReply: bool
    var requestBegins: bool

    ghost function View(): Xrep
      reads this
    {
      Xrep(ins, currentIn, prefetched, moreIn, outs, currentOut, moreOut)
    }

    ghost function FullView(): State
      reads this
    {
      State(View(), sendingReply, requestBegins)
    }

    constructor ()
      ensures Valid() && FullView() == State(Xrep([], 0, None, false, map[], None, false), false, true)
    {
      ins, currentIn, prefetched, moreIn := [], 0, None, false;
      outs, currentOut, moreOut := map[], None, false;
      sendingReply, requestBegins := false, true;
    }

    method Advance()
      modifies `currentIn
      ensures currentIn == Next(old(View()))
    {
      currentIn := currentIn + 1;
      if currentIn >= |ins| {
        currentIn := 0;
      }
    }

    /** `reader_t::read` of the current pipe. */
    method ReadCurrent() returns (part: Option<Part>)
      requires currentIn < |ins|
      modifies `ins
      ensures ins == old(ins[currentIn := ReadPart(ins[currentIn]).0])
      ensures part == old(ReadPart(ins[currentIn]).1)
    {
      var pipe := ins[currentIn];
      if pipe.queue == [] || pipe.at >= |pipe.queue[0]| {
        part := None;
        assert ins == ins[currentIn := pipe];
      } else {
        part := Some(pipe.queue[0][pipe.at]);
        pipe := if pipe.at + 1 < |pipe.queue[0]| then pipe.(at := pipe.at + 1) else pipe.(queue := pipe.queue[1..], at := 0);
        ins := ins[currentIn := pipe];
      }
    }

    /** What holds between any two calls, whatever the peers do and whichever of them are there. */
    ghost predicate Valid()
      reads this
    {
      Flow(View()) && OutOk(View())
    }

    method XRecv() returns (part: Option<Part>)
      requires Valid()
      modifies `ins, `currentIn, `prefetched, `moreIn
      ensures Valid() && (View(), part) == S.XRecv(old(View()))
    {
      XRecvFlow(View());
      if prefetched.Some? {
        part := prefetched;
        moreIn := part.value.more;
        prefetched := None;
        return;
      }
      if moreIn {
        part := ReadCurrent();
        assert part.Some?;
        moreIn := part.value.more;
        if !moreIn {
          Advance();
        }
        return;
      }
      var count := |ins|;
      while count != 0
        invariant 0 <= count && prefetched.None? && !moreIn && |ins| == old(|ins|)
        invariant Scan(old(View()), |old(ins)|) == Scan(View(), count)
      {
        if currentIn >= |ins| {
          return None;
        }
        ghost var before := View();
        var pipe := ins[currentIn];
        if pipe.active {
          prefetched := ReadCurrent();
        }
        if prefetched.Some? {
          return Some(Part(pipe.identity, true));
        }
        ins := ins[currentIn := pipe.(active := false)];
        Advance();
        assert ins == before.ins[before.currentIn := pipe.(active := false)];
        count := count - 1;
      }
      part := None;
    }

    method XSend(p: Part)
      requires Valid()
      modifies `outs, `currentOut, `moreOut
      ensures Valid() && View() == S.XSend(old(View()), p)
    {
      SendFlow(View(), p);
      if !moreOut {
        if p.more {
          moreOut := true;
          if p.body in outs {
            currentOut := Some(p.body);
            if !outs[p.body].room {
              moreOut := false;
              currentOut := None;
            }
          }
        }
        return;
      }
      moreOut := p.more;
      if currentOut.Some? && currentOut.value in outs {
        var id := currentOut.value;
        var pipe := outs[id];
        pipe := pipe.(open := pipe.open + [p]);
        if !moreOut {
          pipe := pipe.(flushed := pipe.flushed + pipe.open, open := []);
          currentOut := None;
          assert outs[id].flushed + (outs[id].open + [p]) == outs[id].flushed + outs[id].open + [p];
        }
        outs := outs[id := pipe];
      }
    }

    method Rollback()
      requires Valid()
      modifies `outs, `currentOut, `moreOut
      ensures Valid() && View() == S.Rollback(old(View()))
    {
      if currentOut.Some? && currentOut.value in outs {
        outs := outs[currentOut.value := outs[currentOut.value].(open := [])];
        currentOut := None;
        moreOut := false;
      }
    }

    method Recv() returns (r: Received)
      requires Valid()
      modifies this
      ensures Valid() && (FullView(), r) == S.Recv(old(FullView()))
    {
      if sendingReply {
        return WrongState;
      }
      if requestBegins {
        var bottom := false;
        while !bottom
          invariant !sendingReply && requestBegins && Valid()
          invariant CopyStack(old(View())) == if bottom then (View(), true) else CopyStack(View())
          decreases !bottom, Work(View())
        {
          XRecvWork(View());
          var part := XRecv();
          if part.None? {
            return NoRequest;
          }
          if part.value.more {
            bottom := part.value.body == [];
            XSend(part.value);
          } else {
            Rollback();
          }
        }
        requestBegins := false;
      }
      var part := XRecv();
      if part.None? {
        return NoRequest;
      }
      if !part.value.more {
        sendingReply := true;
        requestBegins := true;
      }
      r := Got(part.value);
    }

    method Send(p: Part) returns (ok: bool)
      requires Valid()
      modifies `outs, `currentOut, `moreOut, `sendingReply
      ensures Valid() && (FullView(), ok) == S.Send(old(FullView()), p)
    {
      if !sendingReply {
        return false;
      }
      XSend(p);
      if !p.more {
        sendingReply := false;
      }
      ok := true;
    }
  }
}
