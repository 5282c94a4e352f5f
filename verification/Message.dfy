/**
 Messages that share their content (the zmq_msg_* functions of zmq.cpp, and
 `distribute` of dist.cpp): reference counts against the messages that are
 there.

 A distribution is not one step: what one pipe took may be read and closed by
 another thread before the next pipe is tried.  The references that were
 reserved for writes not yet tried are held by markers in the model.
 */
module MessageSpec {
  import opened Common

  type Thread = nat
  type ContentId = nat

  /** A message, or the reference reserved for a write that was not tried yet. */
  datatype MsgId = Msg(id: nat) | Untried(thread: Thread, write: nat)

  /** A message holds its data itself, or refers to a content; `shared` is the flag ZMQ_MSG_SHARED. */
  datatype Held = Inline | Ref(content: ContentId, shared: bool)

  /** A distribution of a message to several pipes, with the number of pipes still to be tried. */
  datatype Distribution = Distribution(message: MsgId, content: ContentId, left: nat)

  /** `msgs` are the messages that were initialised and not closed, `refcnt` the contents that were
      allocated and not freed.  `fault` is set when a content is used or freed that is not there. */
  datatype Memory = Memory(
    msgs: map<MsgId, Held>,
    refcnt: map<ContentId, nat>,
    next: ContentId,
    fault: bool,
    distributions: map<Thread, Distribution>)

  function InitInline(y: Memory, m: MsgId): Memory { y.(msgs := y.msgs[m := Inline]) }

  function InitData(y: Memory, m: MsgId): Memory {
    y.(msgs := y.msgs[m := Ref(y.next, false)], refcnt := y.refcnt[y.next := 0], next := y.next + 1)
  }

  /** One reference less; the content is freed with the last one. */
  function Drop(y: Memory, c: ContentId): Memory {
    if c !in y.refcnt || y.refcnt[c] == 0 then y.(fault := true)
    else if y.refcnt[c] == 1 then y.(refcnt := y.refcnt - {c})
    else y.(refcnt := y.refcnt[c := y.refcnt[c] - 1])
  }

  function Free(y: Memory, c: ContentId): Memory {
    if c !in y.refcnt then y.(fault := true) else y.(refcnt := y.refcnt - {c})
  }

  /** A message that is not initialised is left alone. */
  function Close(y: Memory, m: MsgId): Memory {
    if m !in y.msgs then y
    else
      var y1 := y.(msgs := y.msgs - {m});
      match y.msgs[m]
      case Inline => y1
      case Ref(c, shared) => if shared then Drop(y1, c) else Free(y1, c)
  }

  /** The close of `dest` leaves what is in `src` as it is, even if they are the same. */
  function Move(y: Memory, dest: MsgId, src: MsgId): Memory {
    var y1 := Close(y, dest);
    if src !in y.msgs then y1.(fault := true) else y1.(msgs := y1.msgs[dest := y.msgs[src]][src := Inline])
  }

  /** `refcnt.add` and `refcnt.set`. */
  function SetCount(y: Memory, c: ContentId, count: nat): Memory {
    if c !in y.refcnt then y.(fault := true) else y.(refcnt := y.refcnt[c := count])
  }

  function Count(y: Memory, c: ContentId): nat { if c in y.refcnt then y.refcnt[c] else 0 }

  /** The close clears the flags of `dest`; if that is `src` too, its content does not look shared any
      more, and the result is a message without the validity tag, which counts as not initialised. */
  function Copy(y: Memory, dest: MsgId, src: MsgId): Memory {
    if dest !in y.msgs || src !in y.msgs then y
    else
      var y1 := Close(y, dest);
      match y.msgs[src]
      case Inline => if dest == src then y1 else y1.(msgs := y1.msgs[dest := Inline])
      case Ref(c, shared) =>
        var y2 := SetCount(y1, c, if shared && dest != src then Count(y1, c) + 1 else 2);
        if dest == src then y2 else y2.(msgs := y2.msgs[src := Ref(c, true)][dest := Ref(c, true)])
  }

  // `distribute` of a message with content to two or more active pipes

  function Reserved(t: Thread, c: ContentId, n: nat): map<MsgId, Held> {
    map k: nat | 0 <= k < n :: Untried(t, k) := Ref(c, true)
  }

  /** The references are reserved. */
  function Reserve(y: Memory, t: Thread, m: MsgId, n: nat): Memory {
    if m !in y.msgs || y.msgs[m].Inline? || n == 0 then y.(fault := true)
    else
      var c := y.msgs[m].content;
      var y1 := SetCount(y, c, if y.msgs[m].shared then Count(y, c) + n - 1 else n);
      y1.(msgs := (y1.msgs - {m}) + Reserved(t, c, n), distributions := y1.distributions[t := Distribution(m, c, n)])
  }

  /** The next write: what a pipe takes is a new message; a refusal gives the reference back, and the
      result of `sub` is not looked at. */
  function TryWrite(y: Memory, t: Thread, ok: bool, pipe: MsgId): Memory {
    if t !in y.distributions || y.distributions[t].left == 0 then y.(fault := true)
    else
      var d := y.distributions[t];
      var y1 := y.(msgs := y.msgs - {Untried(t, d.left - 1)},
                   distributions := y.distributions[t := d.(left := d.left - 1)]);
      if ok then y1.(msgs := y1.msgs[pipe := Ref(d.content, true)])
      else SetCount(y1, d.content, if Count(y1, d.content) > 0 then Count(y1, d.content) - 1 else 0)
  }

  /** The original message is detached from the content. */
  function Detach(y: Memory, t: Thread): Memory {
    if t !in y.distributions then y.(fault := true)
    else y.(msgs := y.msgs[y.distributions[t].message := Inline], distributions := y.distributions - {t})
  }

  // Conservation

  function Holders(y: Memory, c: ContentId): set<MsgId> {
    set m | m in y.msgs && y.msgs[m].Ref? && y.msgs[m].content == c
  }

  /** The reference count of a shared content is the number of the messages that hold it and of the writes
      to be tried; a content with count 0 is held by one message, unshared, or lost. */
  ghost predicate Counted(y: Memory, c: ContentId) {
    && c in y.refcnt
    && (forall m :: m in Holders(y, c) ==> y.msgs[m].shared == (y.refcnt[c] > 0))
    && if y.refcnt[c] > 0 then |Holders(y, c)| == y.refcnt[c] else |Holders(y, c)| <= 1
  }

  /** No content is used after it was freed, and all counts are right. */
  ghost predicate MemoryOk(y: Memory) {
    && !y.fault
    && (forall c :: c in y.refcnt ==> c < y.next)
    && (forall c {:trigger Counted(y, c)} :: c in y.refcnt ==> Counted(y, c))
    && (forall m {:trigger y.msgs[m]} :: m in y.msgs && y.msgs[m].Ref? ==> y.msgs[m].content in y.refcnt)
  }

  /** The reserved references are those of the distributions that are going on. */
  ghost predicate DistributionsOk(y: Memory) {
    && (forall m {:trigger y.msgs[m]} {:trigger m in y.msgs} :: m in y.msgs && m.Untried? ==>
          && m.thread in y.distributions
          && m.write < y.distributions[m.thread].left
          && y.msgs[m] == Ref(y.distributions[m.thread].content, true))
    && (forall t, k: nat {:trigger Untried(t, k)} ::
          t in y.distributions && k < y.distributions[t].left ==> Untried(t, k) in y.msgs)
    && (forall t {:trigger Detached(y, t)} :: t in y.distributions ==> Detached(y, t))
  }

  /** The message that thread t distributes is its own. */
  predicate Detached(y: Memory, t: Thread)
    requires t in y.distributions
  {
    && y.distributions[t].message.Msg?
    && y.distributions[t].message !in y.msgs
    && forall u {:trigger y.distributions[u]} ::
         u in y.distributions && u != t ==> y.distributions[u].message != y.distributions[t].message
  }

  ghost predicate Inv(y: Memory) { MemoryOk(y) && DistributionsOk(y) }

  /** The contents that nobody can free any more. */
  function Leaked(y: Memory): set<ContentId> { set c | c in y.refcnt && Holders(y, c) == {} }

  lemma InitKeeps(y: Memory, m: MsgId)
    requires MemoryOk(y) && m !in y.msgs
    ensures MemoryOk(InitInline(y, m)) && Leaked(InitInline(y, m)) == Leaked(y)
    ensures MemoryOk(InitData(y, m)) && Leaked(InitData(y, m)) == Leaked(y)
  {
    var y1, y2 := InitInline(y, m), InitData(y, m);
    forall c {:trigger Holders(y1, c)} ensures Holders(y1, c) == Holders(y, c) {}
    forall c {:trigger Holders(y2, c)} | c != y.next ensures Holders(y2, c) == Holders(y, c) {}
    assert forall k :: k in y.msgs && y.msgs[k].Ref? ==> y.msgs[k].content in y.refcnt;
    assert Holders(y2, y.next) == {m};
    forall c | c in y.refcnt ensures Counted(y1, c) && Counted(y2, c) {
      assert Counted(y, c);
    }
    assert Counted(y2, y.next);
  }

  /** One message less that holds a content. */
  lemma CloseHolders(y: Memory, m: MsgId)
    requires MemoryOk(y) && m in y.msgs
    ensures Close(y, m).msgs == y.msgs - {m} && !Close(y, m).fault && Close(y, m).next == y.next
    ensures forall c :: Holders(Close(y, m), c) == Holders(y, c) - {m}
    ensures forall c :: c in y.refcnt && m !in Holders(y, c) ==> c in Close(y, m).refcnt && Close(y, m).refcnt[c] == y.refcnt[c]
    ensures Close(y, m).refcnt.Keys <= y.refcnt.Keys && Close(y, m).distributions == y.distributions
  {
    if y.msgs[m].Ref? {
      assert m in Holders(y, y.msgs[m].content);
      assert Counted(y, y.msgs[m].content);
    }
  }

  lemma CloseKeeps(y: Memory, m: MsgId)
    requires MemoryOk(y)
    ensures MemoryOk(Close(y, m)) && Leaked(Close(y, m)) == Leaked(y)
  {
    if m in y.msgs {
      CloseHolders(y, m);
      CloseCounts(y, m);
      var y' := Close(y, m);
      if y.msgs[m].Ref? {
        var c := y.msgs[m].content;
        assert m in Holders(y, c) && Counted(y, c);
        assert |Holders(y, c) - {m}| == |Holders(y, c)| - 1;
        assert c in y'.refcnt ==> Holders(y', c) != {};
      }
      forall c ensures c in Leaked(y') <==> c in Leaked(y) {
        assert Holders(y', c) == Holders(y, c) - {m};
      }
    }
  }

  lemma CloseCounts(y: Memory, m: MsgId)
    requires MemoryOk(y) && m in y.msgs
    ensures MemoryOk(Close(y, m))
  {
    CloseHolders(y, m);
    var y' := Close(y, m);
    if y.msgs[m].Ref? {
      var c := y.msgs[m].content;
      assert m in Holders(y, c) && Counted(y, c);
      assert |Holders(y, c) - {m}| == |Holders(y, c)| - 1;
    }
    forall d | d in y'.refcnt ensures d < y'.next && Counted(y', d) {
      assert Counted(y, d);
      forall k | k in Holders(y', d) ensures y'.msgs[k] == y.msgs[k] && k in Holders(y, d) {}
    }
    forall k | k in y'.msgs && y'.msgs[k].Ref? ensures y'.msgs[k].content in y'.refcnt {
      assert k in Holders(y', y'.msgs[k].content) && Counted(y, y.msgs[k].content);
      if y.msgs[m].Ref? && y.msgs[m].content == y.msgs[k].content {
        assert {k, m} <= Holders(y, y.msgs[m].content);
        SubsetSize({k, m}, Holders(y, y.msgs[m].content));
      }
    }
  }

  lemma SubsetSize<T>(a: set<T>, b: set<T>)
    requires a <= b
    ensures |a| <= |b|
  {
    assert b == a + (b - a);
  }

  /** The reference of src is now that of dest. */
  function Moved(y: Memory, dest: MsgId, src: MsgId): Memory
    requires src in y.msgs
  {
    y.(msgs := (y.msgs - {src})[dest := y.msgs[src]])
  }

  lemma MovedKeeps(y: Memory, dest: MsgId, src: MsgId)
    requires MemoryOk(y) && src in y.msgs && dest !in y.msgs
    ensures MemoryOk(Moved(y, dest, src)) && Leaked(Moved(y, dest, src)) == Leaked(y)
  {
    var y' := Moved(y, dest, src);
    forall c {:trigger Holders(y', c)} ensures |Holders(y', c)| == |Holders(y, c)| && (Holders(y', c) == {} <==> Holders(y, c) == {}) {
      MovedHolders(y, dest, src, c);
    }
    forall c | c in y'.refcnt ensures Counted(y', c) {
      assert Counted(y, c) && |Holders(y', c)| == |Holders(y, c)|;
      forall m | m in Holders(y', c) ensures y'.msgs[m].shared == (y'.refcnt[c] > 0) {
        assert (if m == dest then src else m) in Holders(y, c);
      }
    }
  }

  lemma MovedHolders(y: Memory, dest: MsgId, src: MsgId, c: ContentId)
    requires src in y.msgs && dest !in y.msgs
    ensures |Holders(Moved(y, dest, src), c)| == |Holders(y, c)|
  {
    var hs := Holders(y, c);
    if src in hs {
      assert Holders(Moved(y, dest, src), c) == hs - {src} + {dest};
      assert dest !in hs;
    } else {
      assert Holders(Moved(y, dest, src), c) == hs;
    }
  }

  lemma MoveKeeps(y: Memory, dest: MsgId, src: MsgId)
    requires MemoryOk(y) && src in y.msgs
    ensures MemoryOk(Move(y, dest, src)) && Leaked(Move(y, dest, src)) == Leaked(y)
  {
    CloseKeeps(y, dest);
    if dest in y.msgs {
      CloseHolders(y, dest);
    }
    var y1 := Close(y, dest);
    if dest == src {
      assert Move(y, dest, src) == InitInline(y1, dest);
      InitKeeps(y1, dest);
    } else {
      MovedKeeps(y1, dest, src);
      var y2 := Moved(y1, dest, src);
      assert y1.msgs[dest := y.msgs[src]][src := Inline] == y2.msgs[src := Inline];
      InitKeeps(y2, src);
    }
  }

  /** src holds c, and so does dest then. */
  lemma ShareKeeps(y: Memory, dest: MsgId, src: MsgId)
    requires MemoryOk(y) && dest !in y.msgs && src in y.msgs && y.msgs[src].Ref?
    ensures var c := y.msgs[src].content;
            var y2 := SetCount(y, c, if y.msgs[src].shared then Count(y, c) + 1 else 2);
            var y' := y2.(msgs := y2.msgs[src := Ref(c, true)][dest := Ref(c, true)]);
            MemoryOk(y') && Leaked(y') == Leaked(y)
  {
    var c := y.msgs[src].content;
    var y2 := SetCount(y, c, if y.msgs[src].shared then Count(y, c) + 1 else 2);
    var y' := y2.(msgs := y2.msgs[src := Ref(c, true)][dest := Ref(c, true)]);
    assert src in Holders(y, c) && Counted(y, c);
    assert Holders(y', c) == Holders(y, c) + {dest};
    if !y.msgs[src].shared {
      OnlyOne(Holders(y, c), src);
    }
    forall d {:trigger Holders(y', d)} ensures d != c ==> Holders(y', d) == Holders(y, d) {}
    forall d | d in y'.refcnt ensures Counted(y', d) {
      assert Counted(y, d);
      forall m | m in Holders(y', d) ensures y'.msgs[m].shared == (y'.refcnt[d] > 0) {
        assert m != dest ==> m in Holders(y, d);
      }
    }
  }

  lemma OnlyOne<T>(s: set<T>, x: T)
    requires |s| <= 1 && x in s
    ensures s == {x}
  {
    assert |s - {x}| == 0;
  }

  lemma CopyKeeps(y: Memory, dest: MsgId, src: MsgId)
    requires MemoryOk(y) && dest != src
    ensures MemoryOk(Copy(y, dest, src)) && Leaked(Copy(y, dest, src)) == Leaked(y)
  {
    if dest in y.msgs && src in y.msgs {
      CloseKeeps(y, dest);
      CloseHolders(y, dest);
      var y1 := Close(y, dest);
      if y.msgs[src].Inline? {
        InitKeeps(y1, dest);
      } else {
        ShareKeeps(y1, dest, src);
      }
    }
  }

  // What becomes of the messages

  /** A message with data holds a new content, alone; everything else is as it was. */
  lemma InitDataExactly(y: Memory, m: MsgId)
    requires MemoryOk(y) && m !in y.msgs
    ensures
      var y' := InitData(y, m);
      && m in y'.msgs && y'.msgs[m].Ref?
      && var c := y'.msgs[m].content;
         && c !in y.refcnt && Holders(y', c) == {m} && y'.refcnt.Keys == y.refcnt.Keys + {c}
         && y'.msgs.Keys == y.msgs.Keys + {m}
         && (forall k :: k in y.msgs ==> y'.msgs[k] == y.msgs[k])
  {
    assert forall k :: k in y.msgs && y.msgs[k].Ref? ==> y.msgs[k].content in y.refcnt;
  }

  /** Closing takes away this message and its reference, and frees the content if and only if it was the
      last one. */
  lemma CloseExactly(y: Memory, m: MsgId)
    requires MemoryOk(y)
    ensures
      var y' := Close(y, m);
      && y'.msgs == y.msgs - {m} && y'.next == y.next
      && forall c :: c in y.refcnt ==>
           if m !in Holders(y, c) then c in y'.refcnt && y'.refcnt[c] == y.refcnt[c]
           else if Holders(y, c) == {m} then c !in y'.refcnt
           else c in y'.refcnt && y'.refcnt[c] + 1 == y.refcnt[c]
  {
    if m in y.msgs {
      CloseHolders(y, m);
      if y.msgs[m].Ref? {
        var c := y.msgs[m].content;
        assert m in Holders(y, c) && Counted(y, c);
        if |Holders(y, c)| == 1 {
          OnlyOne(Holders(y, c), m);
        }
        assert Holders(y, c) == {m} ==> |Holders(y, c)| == 1;
      }
    } else {
      assert y.msgs - {m} == y.msgs;
    }
  }

  /** What src held is in dest afterwards, and src is empty; every other message is as it was, and so is every
      count but for the close of dest. */
  lemma MoveExactly(y: Memory, dest: MsgId, src: MsgId)
    requires MemoryOk(y) && src in y.msgs
    ensures
      var y' := Move(y, dest, src);
      && src in y'.msgs && y'.msgs[src] == Inline
      && dest in y'.msgs && (dest != src ==> y'.msgs[dest] == y.msgs[src])
      && y'.msgs.Keys == y.msgs.Keys + {dest}
      && (forall m :: m in y.msgs && m != dest && m != src ==> y'.msgs[m] == y.msgs[m])
      && y'.refcnt == Close(y, dest).refcnt
  {
    CloseExactly(y, dest);
  }

  /** Both messages hold what src held, marked as shared; every other message is as it was. */
  lemma CopyExactly(y: Memory, dest: MsgId, src: MsgId)
    requires MemoryOk(y) && dest != src && dest in y.msgs && src in y.msgs
    ensures
      var y' := Copy(y, dest, src);
      && y'.msgs.Keys == y.msgs.Keys
      && y'.msgs[dest] == y'.msgs[src] == (if y.msgs[src].Inline? then Inline else Ref(y.msgs[src].content, true))
      && (forall m :: m in y.msgs && m != dest && m != src ==> y'.msgs[m] == y.msgs[m])
      && (forall c :: c in y'.refcnt && y'.refcnt[c] > 0 ==> y'.refcnt[c] == |Holders(y', c)|)
  {
    CloseExactly(y, dest);
    CopyKeeps(y, dest, src);
    var y' := Copy(y, dest, src);
    assert y'.msgs.Keys == y.msgs.Keys;
    forall c | c in y'.refcnt && y'.refcnt[c] > 0 ensures y'.refcnt[c] == |Holders(y', c)| {
      assert Counted(y', c);
    }
  }

  /** Copying a message to itself never leaves an initialised message.  A content that has no other holder
      is used after it was freed; otherwise its count is set to 2, which is right only for three. */
  lemma CopyToItself(y: Memory, m: MsgId)
    requires MemoryOk(y) && m in y.msgs
    ensures m !in Copy(y, m, m).msgs
    ensures Copy(y, m, m).fault <==> y.msgs[m].Ref? && y.refcnt[y.msgs[m].content] <= 1
    ensures MemoryOk(Copy(y, m, m)) <==> y.msgs[m].Inline? || y.refcnt[y.msgs[m].content] == 3
  {
    CloseHolders(y, m);
    CloseKeeps(y, m);
    if y.msgs[m].Ref? {
      var c := y.msgs[m].content;
      var y1, y' := Close(y, m), Copy(y, m, m);
      assert m in Holders(y, c) && Counted(y, c);
      assert Holders(y1, c) == Holders(y, c) - {m};
      assert |Holders(y1, c)| == |Holders(y, c)| - 1;
      if y.refcnt[c] > 1 {
        assert forall d :: Holders(y', d) == Holders(y1, d);
        assert y'.refcnt[c] == 2 && c in y'.refcnt;
        if y.refcnt[c] == 3 {
          forall d | d in y'.refcnt ensures d < y'.next && Counted(y', d) {
            assert Counted(y1, d);
          }
        } else {
          assert !Counted(y', c);
        }
      }
    }
  }

  /** But for a content with three holders a copy to itself loses nothing either. */
  lemma CopyToItselfLeaks(y: Memory, m: MsgId)
    requires MemoryOk(y) && m in y.msgs && (y.msgs[m].Inline? || y.refcnt[y.msgs[m].content] == 3)
    ensures Leaked(Copy(y, m, m)) == Leaked(y)
  {
    CloseHolders(y, m);
    CloseKeeps(y, m);
    if y.msgs[m].Ref? {
      assert m in Holders(y, y.msgs[m].content) && Counted(y, y.msgs[m].content);
      assert forall d :: Holders(Copy(y, m, m), d) == Holders(Close(y, m), d);
    }
  }

  // Distributions

  function Markers(t: Thread, n: nat): set<MsgId> { set k: nat | 0 <= k < n :: Untried(t, k) }

  lemma {:induction false} MarkersSize(t: Thread, n: nat)
    ensures |Markers(t, n)| == n
  {
    if n > 0 {
      MarkersSize(t, n - 1);
      assert Markers(t, n) == Markers(t, n - 1) + {Untried(t, n - 1)};
    }
  }

  lemma ReserveHolders(y: Memory, t: Thread, m: MsgId, n: nat)
    requires MemoryOk(y) && m in y.msgs && y.msgs[m].Ref? && n > 0
    requires forall k: nat :: Untried(t, k) !in y.msgs
    ensures var c := y.msgs[m].content;
            var y' := Reserve(y, t, m, n);
            && m in Holders(y, c)
            && Holders(y', c) == Holders(y, c) - {m} + Markers(t, n)
            && |Holders(y', c)| == |Holders(y, c)| - 1 + n
            && (forall d {:trigger Holders(y', d)} :: d != c ==> Holders(y', d) == Holders(y, d))
  {
    var c := y.msgs[m].content;
    var y' := Reserve(y, t, m, n);
    assert m in Holders(y, c) && c in y.refcnt;
    assert Holders(y', c) == Holders(y, c) - {m} + Markers(t, n);
    assert (Holders(y, c) - {m}) * Markers(t, n) == {};
    MarkersSize(t, n);
  }

  lemma ReserveCounts(y: Memory, t: Thread, m: MsgId, n: nat, d: ContentId)
    requires MemoryOk(y) && m in y.msgs && y.msgs[m].Ref? && n > 0 && d in y.refcnt
    requires forall k: nat :: Untried(t, k) !in y.msgs
    ensures Counted(Reserve(y, t, m, n), d) && (Holders(Reserve(y, t, m, n), d) == {} <==> Holders(y, d) == {})
  {
    var c := y.msgs[m].content;
    var y' := Reserve(y, t, m, n);
    ReserveHolders(y, t, m, n);
    assert Counted(y, d) && Counted(y, c);
    if d == c {
      if !y.msgs[m].shared {
        OnlyOne(Holders(y, c), m);
      }
      assert Untried(t, 0) in Markers(t, n);
      forall k | k in Holders(y', d) ensures y'.msgs[k].shared {
        assert k in Holders(y, c) || k in Markers(t, n);
      }
    } else {
      forall k | k in Holders(y', d) ensures y'.msgs[k].shared == (y'.refcnt[d] > 0) {
        assert k in Holders(y, d);
      }
    }
  }

  lemma ReserveDistributions(y: Memory, t: Thread, m: MsgId, n: nat)
    requires MemoryOk(y) && DistributionsOk(y) && m.Msg? && m in y.msgs && y.msgs[m].Ref? && n > 0 && t !in y.distributions
    ensures DistributionsOk(Reserve(y, t, m, n))
  {
    var y' := Reserve(y, t, m, n);
    forall u | u in y.distributions ensures y.distributions[u].message != m {
      assert Detached(y, u);
    }
    forall u | u in y'.distributions ensures Detached(y', u) {
      if u != t {
        assert Detached(y, u);
      }
    }
  }

  lemma ReserveKeeps(y: Memory, t: Thread, m: MsgId, n: nat)
    requires Inv(y) && m.Msg? && m in y.msgs && y.msgs[m].Ref? && n > 0 && t !in y.distributions
    ensures Inv(Reserve(y, t, m, n)) && Leaked(Reserve(y, t, m, n)) == Leaked(y)
  {
    var y' := Reserve(y, t, m, n);
    assert y.msgs[m].content in y.refcnt;
    forall d | d in y'.refcnt ensures d < y'.next && Counted(y', d) && (Holders(y', d) == {} <==> Holders(y, d) == {}) {
      assert Counted(y, d);
      ReserveCounts(y, t, m, n, d);
    }
    ReserveDistributions(y, t, m, n);
  }

  /** The marker of the next write to be tried. */
  function Marker(y: Memory, t: Thread): MsgId
    requires t in y.distributions && y.distributions[t].left > 0
  {
    Untried(t, y.distributions[t].left - 1)
  }

  lemma TryDistributions(y: Memory, t: Thread, ok: bool, pipe: MsgId)
    requires MemoryOk(y) && DistributionsOk(y) && t in y.distributions && y.distributions[t].left > 0
    requires ok ==> Vacant(y, pipe)
    ensures DistributionsOk(TryWrite(y, t, ok, pipe))
  {
    var y' := TryWrite(y, t, ok, pipe);
    forall u | u in y'.distributions ensures Detached(y', u) {
      assert Detached(y, u);
    }
  }

  /** Everything but the distributions. */
  predicate SameMemory(y: Memory, y': Memory) { y' == y.(distributions := y'.distributions) }

  lemma SameMemoryKeeps(y: Memory, y': Memory)
    requires MemoryOk(y) && SameMemory(y, y')
    ensures MemoryOk(y') && Leaked(y') == Leaked(y)
  {
    forall c {:trigger Holders(y', c)} ensures Holders(y', c) == Holders(y, c) {}
    forall c | c in y'.refcnt ensures Counted(y', c) {
      assert Counted(y, c);
    }
  }

  lemma TryKeeps(y: Memory, t: Thread, ok: bool, pipe: MsgId)
    requires Inv(y) && t in y.distributions && y.distributions[t].left > 0 && (ok ==> Vacant(y, pipe))
    ensures Inv(TryWrite(y, t, ok, pipe))
    ensures var c := y.distributions[t].content;
            && c in y.refcnt && y.refcnt[c] > 0
            && Leaked(TryWrite(y, t, ok, pipe)) == Leaked(y) + (if !ok && y.refcnt[c] == 1 then {c} else {})
  {
    var c := y.distributions[t].content;
    var marker := Marker(y, t);
    assert marker in y.msgs && y.msgs[marker] == Ref(c, true);
    assert marker in Holders(y, c) && Counted(y, c);
    TryDistributions(y, t, ok, pipe);
    var y' := TryWrite(y, t, ok, pipe);
    if ok {
      MovedKeeps(y, pipe, marker);
      SameMemoryKeeps(Moved(y, pipe, marker), y');
    } else {
      DroppedKeeps(y, marker);
      SameMemoryKeeps(Dropped(y, marker), y');
    }
  }

  /** One reference less, whose holder goes too; the content is not freed. */
  function Dropped(y: Memory, m: MsgId): Memory
    requires m in y.msgs && y.msgs[m].Ref?
  {
    var c := y.msgs[m].content;
    SetCount(y.(msgs := y.msgs - {m}), c, if Count(y, c) > 0 then Count(y, c) - 1 else 0)
  }

  lemma DroppedKeeps(y: Memory, m: MsgId)
    requires MemoryOk(y) && m in y.msgs && y.msgs[m].Ref? && y.msgs[m].shared
    ensures MemoryOk(Dropped(y, m))
    ensures var c := y.msgs[m].content;
            c in y.refcnt && Leaked(Dropped(y, m)) == Leaked(y) + (if y.refcnt[c] == 1 then {c} else {})
  {
    var c := y.msgs[m].content;
    var y' := Dropped(y, m);
    assert m in Holders(y, c) && Counted(y, c);
    assert Holders(y', c) == Holders(y, c) - {m};
    assert |Holders(y', c)| == |Holders(y, c)| - 1;
    assert forall e {:trigger Holders(y', e)} :: e != c ==> Holders(y', e) == Holders(y, e);
    forall e | e in y'.refcnt ensures e < y'.next && Counted(y', e) {
      assert Counted(y, e);
      forall k | k in Holders(y', e) ensures y'.msgs[k].shared == (y'.refcnt[e] > 0) {
        assert k in Holders(y, e);
      }
    }
    assert Holders(y', c) == {} <==> |Holders(y', c)| == 0;
  }

  lemma DetachDistributions(y: Memory, t: Thread)
    requires DistributionsOk(y) && t in y.distributions && y.distributions[t].left == 0
    ensures DistributionsOk(Detach(y, t))
  {
    var y' := Detach(y, t);
    assert Detached(y, t);
    forall u | u in y'.distributions ensures Detached(y', u) {
      assert Detached(y, u);
    }
  }

  lemma DetachKeeps(y: Memory, t: Thread)
    requires Inv(y) && t in y.distributions && y.distributions[t].left == 0
    ensures Inv(Detach(y, t)) && Leaked(Detach(y, t)) == Leaked(y)
  {
    var m := y.distributions[t].message;
    assert Detached(y, t);
    InitKeeps(y, m);
    SameMemoryKeeps(InitInline(y, m), Detach(y, t));
    DetachDistributions(y, t);
  }

  // Runs

  datatype Op =
    | OpInit(m: MsgId)
    | OpInitData(m: MsgId)
    | OpClose(m: MsgId)
    | OpMove(dest: MsgId, src: MsgId)
    | OpCopy(dest: MsgId, src: MsgId)
    | OpReserve(t: Thread, m: MsgId, n: nat)
    | OpTry(t: Thread, ok: bool, pipe: MsgId)
    | OpDetach(t: Thread)

  function Step(y: Memory, op: Op): Memory {
    match op
    case OpInit(m) => InitInline(y, m)
    case OpInitData(m) => InitData(y, m)
    case OpClose(m) => Close(y, m)
    case OpMove(dest, src) => Move(y, dest, src)
    case OpCopy(dest, src) => Copy(y, dest, src)
    case OpReserve(t, m, n) => Reserve(y, t, m, n)
    case OpTry(t, ok, pipe) => TryWrite(y, t, ok, pipe)
    case OpDetach(t) => Detach(y, t)
  }

  /** A message that nobody distributes. */
  predicate Idle(y: Memory, m: MsgId) {
    m.Msg? && forall t :: t in y.distributions ==> y.distributions[t].message != m
  }

  predicate Vacant(y: Memory, m: MsgId) { Idle(y, m) && m !in y.msgs }

  /** What the library asks of its callers, and what the loop of `distribute` keeps to.  Any thread may do
      anything between two writes of a distribution. */
  predicate Allowed(y: Memory, op: Op) {
    match op
    case OpInit(m) => Vacant(y, m)
    case OpInitData(m) => Vacant(y, m)
    case OpClose(m) => m.Msg?
    case OpMove(dest, src) => Idle(y, dest) && src.Msg? && src in y.msgs
    case OpCopy(dest, src) =>
      && dest.Msg? && src.Msg?
      && (dest == src && src in y.msgs ==> y.msgs[src].Inline? || Count(y, y.msgs[src].content) == 3)
    case OpReserve(t, m, n) => t !in y.distributions && m.Msg? && m in y.msgs && y.msgs[m].Ref? && n >= 2
    case OpTry(t, ok, pipe) => t in y.distributions && y.distributions[t].left > 0 && (ok ==> Vacant(y, pipe))
    case OpDetach(t) => t in y.distributions && y.distributions[t].left == 0
  }

  predicate AllAllowed(y: Memory, run: seq<Op>)
    decreases |run|
  {
    run == [] || (Allowed(y, run[0]) && AllAllowed(Step(y, run[0]), run[1..]))
  }

  function Exec(y: Memory, run: seq<Op>): Memory
    decreases |run|
  {
    if run == [] then y else Exec(Step(y, run[0]), run[1..])
  }

  /** What a step loses: the content of a refused write whose `sub` takes away the last reference. */
  function LostIn(y: Memory, op: Op): set<ContentId> {
    if op.OpTry? && !op.ok && op.t in y.distributions && Count(y, y.distributions[op.t].content) == 1
    then {y.distributions[op.t].content} else {}
  }

  function Lost(y: Memory, run: seq<Op>): set<ContentId>
    decreases |run|
  {
    if run == [] then {} else LostIn(y, run[0]) + Lost(Step(y, run[0]), run[1..])
  }

  /** Operations on messages leave the distributions alone. */
  lemma SameDistributions(y: Memory, y': Memory)
    requires DistributionsOk(y) && y'.distributions == y.distributions
    requires forall m: MsgId :: m.Untried? ==> (m in y.msgs <==> m in y'.msgs) && (m in y.msgs ==> y'.msgs[m] == y.msgs[m])
    requires forall t :: t in y.distributions ==> y.distributions[t].message !in y'.msgs
    ensures DistributionsOk(y')
  {
    forall t | t in y'.distributions ensures Detached(y', t) {
      assert Detached(y, t);
    }
  }

  lemma MessageStepKeeps(y: Memory, op: Op)
    requires Inv(y) && Allowed(y, op) && !op.OpReserve? && !op.OpTry? && !op.OpDetach?
    ensures MemoryOk(Step(y, op)) && Leaked(Step(y, op)) == Leaked(y)
  {
    match op
    case OpInit(m) => InitKeeps(y, m);
    case OpInitData(m) => InitKeeps(y, m);
    case OpClose(m) => CloseKeeps(y, m);
    case OpMove(dest, src) => MoveKeeps(y, dest, src);
    case OpCopy(dest, src) =>
      if dest != src {
        CopyKeeps(y, dest, src);
      } else if src in y.msgs {
        CopyToItself(y, src);
        CopyToItselfLeaks(y, src);
      }
  }

  lemma MessageStepFrame(y: Memory, op: Op)
    requires Inv(y) && Allowed(y, op) && !op.OpReserve? && !op.OpTry? && !op.OpDetach?
    ensures DistributionsOk(Step(y, op))
  {
    if op.OpClose? && op.m in y.msgs {
      CloseHolders(y, op.m);
    }
    if (op.OpMove? || op.OpCopy?) && op.dest in y.msgs {
      CloseHolders(y, op.dest);
    }
    forall t | t in y.distributions ensures y.distributions[t].message !in Step(y, op).msgs {
      assert Detached(y, t);
    }
    SameDistributions(y, Step(y, op));
  }

  lemma StepKeeps(y: Memory, op: Op)
    requires Inv(y) && Allowed(y, op)
    ensures Inv(Step(y, op)) && Leaked(Step(y, op)) == Leaked(y) + LostIn(y, op)
  {
    match op
    case OpReserve(t, m, n) => ReserveKeeps(y, t, m, n);
    case OpTry(t, ok, pipe) => TryKeeps(y, t, ok, pipe);
    case OpDetach(t) => DetachKeeps(y, t);
    case _ =>
      MessageStepKeeps(y, op);
      MessageStepFrame(y, op);
  }

  lemma {:induction false} RunKeeps(y: Memory, run: seq<Op>)
    requires Inv(y) && AllAllowed(y, run)
    ensures Inv(Exec(y, run)) && Leaked(Exec(y, run)) == Leaked(y) + Lost(y, run)
    decreases |run|
  {
    if run != [] {
      StepKeeps(y, run[0]);
      RunKeeps(Step(y, run[0]), run[1..]);
    }
  }

  const EMPTY := Memory(map[], map[], 0, false, map[])

  /** The messages that hold a content, and the writes to be tried that will hand it on. */
  function MessagesOf(y: Memory, c: ContentId): set<MsgId> { set m | m in Holders(y, c) && m.Msg? }

  function WritesOf(y: Memory, c: ContentId): set<MsgId> { set m | m in Holders(y, c) && m.Untried? }

  /** In every run no content is freed twice or while a message holds it or a write is to be tried, and a
      count is the number of messages plus the number of writes that are still to be tried. */
  lemma CountsConserved(run: seq<Op>)
    requires AllAllowed(EMPTY, run)
    ensures var y := Exec(EMPTY, run);
            && !y.fault
            && (forall m :: m in y.msgs && y.msgs[m].Ref? ==> y.msgs[m].content in y.refcnt)
            && (forall c :: c in y.refcnt && y.refcnt[c] > 0 ==> y.refcnt[c] == |MessagesOf(y, c)| + |WritesOf(y, c)|)
            && (forall c :: c in y.refcnt && y.refcnt[c] == 0 ==> |MessagesOf(y, c)| <= 1 && WritesOf(y, c) == {})
  {
    RunKeeps(EMPTY, run);
    var y := Exec(EMPTY, run);
    forall c | c in y.refcnt
      ensures if y.refcnt[c] > 0 then y.refcnt[c] == |MessagesOf(y, c)| + |WritesOf(y, c)|
              else |MessagesOf(y, c)| <= 1 && WritesOf(y, c) == {}
    {
      assert Counted(y, c);
      assert Holders(y, c) == MessagesOf(y, c) + WritesOf(y, c);
      assert MessagesOf(y, c) * WritesOf(y, c) == {};
    }
  }

  /** And exactly those contents are lost - there, with nobody left to free them - whose last reference was
      taken away by a refused write of a distribution.  When all messages are closed no other is left. */
  lemma LostExactly(run: seq<Op>)
    requires AllAllowed(EMPTY, run)
    ensures var y := Exec(EMPTY, run);
            && Leaked(y) == Lost(EMPTY, run)
            && (y.msgs == map[] ==> y.refcnt.Keys == Lost(EMPTY, run))
  {
    RunKeeps(EMPTY, run);
    var y := Exec(EMPTY, run);
    assert Leaked(EMPTY) == {};
    if y.msgs == map[] {
      assert forall c :: Holders(y, c) == {};
      assert Leaked(y) == y.refcnt.Keys;
    }
  }

  // A distribution that nobody interferes with

  function TryAll(y: Memory, t: Thread, outcomes: seq<bool>, pipe: nat): Memory
    decreases |outcomes|
  {
    if outcomes == [] then y else TryAll(TryWrite(y, t, outcomes[0], Msg(pipe)), t, outcomes[1..], pipe + 1)
  }

  /** `distribute` of a message m with content to |outcomes| active pipes; the messages in the pipes are
      called pipe, pipe + 1 and so on. */
  function Distribute(y: Memory, t: Thread, m: MsgId, outcomes: seq<bool>, pipe: nat): Memory {
    if outcomes == [] then InitInline(Close(y, m), m)
    else if |outcomes| == 1 then
      if outcomes[0] then Move(y, Msg(pipe), m) else InitInline(Close(y, m), m)
    else Detach(TryAll(Reserve(y, t, m, |outcomes|), t, outcomes, pipe), t)
  }

  /** n messages that can be used for what the pipes take. */
  predicate Unused(y: Memory, pipe: nat, n: nat) { forall k: nat {:trigger Msg(k)} :: pipe <= k < pipe + n ==> Vacant(y, Msg(k)) }

  function Taken(outcomes: seq<bool>): nat {
    if outcomes == [] then 0 else (if outcomes[0] then 1 else 0) + Taken(outcomes[1..])
  }

  lemma UnusedAfterTry(y: Memory, t: Thread, ok: bool, pipe: nat, n: nat)
    requires t in y.distributions && y.distributions[t].left > 0 && n > 0 && Unused(y, pipe, n)
    ensures Vacant(y, Msg(pipe)) && Unused(TryWrite(y, t, ok, Msg(pipe)), pipe + 1, n - 1)
  {
    forall k: nat | pipe + 1 <= k < pipe + n ensures Vacant(TryWrite(y, t, ok, Msg(pipe)), Msg(k)) {
      assert Vacant(y, Msg(k));
    }
  }

  /** There are at least as many references as writes to be tried. */
  lemma MarkersAreHolders(y: Memory, t: Thread)
    requires Inv(y) && t in y.distributions && y.distributions[t].left > 0
    ensures var d := y.distributions[t]; d.content in y.refcnt && y.refcnt[d.content] >= d.left
  {
    var d := y.distributions[t];
    assert Untried(t, 0) in Holders(y, d.content) && Counted(y, d.content);
    forall m | m in Markers(t, d.left) ensures m in Holders(y, d.content) {
      var k: nat :| k < d.left && m == Untried(t, k);
      assert Untried(t, k) in y.msgs;
    }
    SubsetSize(Markers(t, d.left), Holders(y, d.content));
    MarkersSize(t, d.left);
  }

  /** One of n writes that are left. */
  lemma TryOne(y: Memory, t: Thread, ok: bool, pipe: nat, n: nat)
    requires Inv(y) && t in y.distributions && y.distributions[t].left == n > 0 && Unused(y, pipe, n)
    ensures var d := y.distributions[t];
            var y1 := TryWrite(y, t, ok, Msg(pipe));
            && Inv(y1)
            && y1.distributions == y.distributions[t := d.(left := n - 1)]
            && Unused(y1, pipe + 1, n - 1)
            && d.content in y.refcnt && d.content in y1.refcnt && y.refcnt[d.content] >= n
            && y1.refcnt[d.content] == y.refcnt[d.content] - (if ok then 0 else 1)
            && Leaked(y1) == Leaked(y) + (if !ok && y.refcnt[d.content] == 1 then {d.content} else {})
  {
    UnusedAfterTry(y, t, ok, pipe, n);
    TryKeeps(y, t, ok, Msg(pipe));
    MarkersAreHolders(y, t);
  }

  /** What the writes lose of the content c with `count` references: it, if all pipes refuse it and there is no
      other reference. */
  function LostToAll(outcomes: seq<bool>, count: nat, c: ContentId): set<ContentId> {
    if outcomes != [] && Taken(outcomes) == 0 && count == |outcomes| then {c} else {}
  }

  lemma LostToFirst(outcomes: seq<bool>, count: nat, c: ContentId)
    requires outcomes != [] && count >= |outcomes|
    ensures LostToAll(outcomes, count, c) ==
            (if !outcomes[0] && count == 1 then {c} else {}) +
            LostToAll(outcomes[1..], count - (if outcomes[0] then 0 else 1), c)
  {
    var rest := outcomes[1..];
    assert |outcomes| == 1 ==> rest == [];
    assert Taken(outcomes) == (if outcomes[0] then 1 else 0) + Taken(rest);
  }

  lemma {:induction false} TryAllKeeps(y: Memory, t: Thread, outcomes: seq<bool>, pipe: nat)
    requires Inv(y) && t in y.distributions && y.distributions[t].left == |outcomes| && Unused(y, pipe, |outcomes|)
    ensures var c := y.distributions[t].content;
            var y' := TryAll(y, t, outcomes, pipe);
            && Inv(y')
            && t in y'.distributions && y'.distributions[t].left == 0
            && Leaked(y') == Leaked(y) + LostToAll(outcomes, Count(y, c), c)
    decreases |outcomes|
  {
    if outcomes != [] {
      TryOne(y, t, outcomes[0], pipe, |outcomes|);
      LostToFirst(outcomes, Count(y, y.distributions[t].content), y.distributions[t].content);
      TryAllKeeps(TryWrite(y, t, outcomes[0], Msg(pipe)), t, outcomes[1..], pipe + 1);
    }
  }

  lemma DistributeManyLoses(y: Memory, t: Thread, m: MsgId, outcomes: seq<bool>, pipe: nat)
    requires Inv(y) && t !in y.distributions && m.Msg? && m in y.msgs && y.msgs[m].Ref? && Unused(y, pipe, |outcomes|)
    requires |outcomes| >= 2
    ensures var c := y.msgs[m].content;
            var y' := Distribute(y, t, m, outcomes, pipe);
            && Inv(y')
            && Leaked(y') == Leaked(y) + (if Taken(outcomes) == 0 && Holders(y, c) == {m} then {c} else {})
  {
    var c, n := y.msgs[m].content, |outcomes|;
    var y1 := Reserve(y, t, m, n);
    ReserveReady(y, t, m, n, pipe);
    TryAllKeeps(y1, t, outcomes, pipe);
    DetachKeeps(TryAll(y1, t, outcomes, pipe), t);
  }

  /** The writes begin: there are as many references as writes if and only if only m held the content. */
  lemma ReserveReady(y: Memory, t: Thread, m: MsgId, n: nat, pipe: nat)
    requires Inv(y) && t !in y.distributions && m.Msg? && m in y.msgs && y.msgs[m].Ref? && Unused(y, pipe, n) && n > 0
    ensures var c := y.msgs[m].content;
            var y1 := Reserve(y, t, m, n);
            && Inv(y1) && Leaked(y1) == Leaked(y) && Unused(y1, pipe, n)
            && t in y1.distributions && y1.distributions[t] == Distribution(m, c, n)
            && c in y1.refcnt && (y1.refcnt[c] == n <==> Holders(y, c) == {m})
  {
    var c := y.msgs[m].content;
    var y1 := Reserve(y, t, m, n);
    ReserveKeeps(y, t, m, n);
    ReserveHolders(y, t, m, n);
    forall k: nat | pipe <= k < pipe + n ensures Vacant(y1, Msg(k)) {
      assert Vacant(y, Msg(k));
    }
    assert c in y.refcnt && Counted(y, c) && Counted(y1, c);
    if |Holders(y, c)| == 1 {
      OnlyOne(Holders(y, c), m);
    }
    assert Untried(t, 0) in Holders(y1, c);
  }

  /** For every number of pipes: without interference the distribution loses the content if and only if
      two or more pipes all refuse it and only this message holds it. */
  lemma DistributeLoses(y: Memory, t: Thread, m: MsgId, outcomes: seq<bool>, pipe: nat)
    requires Inv(y) && t !in y.distributions && m.Msg? && m in y.msgs && y.msgs[m].Ref? && Unused(y, pipe, |outcomes|)
    ensures var c := y.msgs[m].content;
            var y' := Distribute(y, t, m, outcomes, pipe);
            && Inv(y')
            && Leaked(y') == Leaked(y) +
                 (if |outcomes| >= 2 && Taken(outcomes) == 0 && Holders(y, c) == {m} then {c} else {})
  {
    if |outcomes| >= 2 {
      DistributeManyLoses(y, t, m, outcomes, pipe);
    } else if outcomes == [true] {
      StepKeeps(y, OpMove(Msg(pipe), m));
    } else {
      StepKeeps(y, OpClose(m));
      CloseHolders(y, m);
      forall u | u in y.distributions ensures y.distributions[u].message != m {
        assert Detached(y, u);
      }
      StepKeeps(Close(y, m), OpInit(m));
    }
  }

  /** Message k, for the pipe at k - pipe, holds content c if that pipe took it, and is not there otherwise. */
  predicate Got(y: Memory, k: nat, c: ContentId, outcomes: seq<bool>, pipe: nat) {
    pipe <= k < pipe + |outcomes| ==>
      if outcomes[k - pipe] then Msg(k) in y.msgs && y.msgs[Msg(k)].Ref? && y.msgs[Msg(k)].content == c
      else Msg(k) !in y.msgs
  }

  predicate Same(y: Memory, y': Memory, k: nat) {
    (Msg(k) in y'.msgs <==> Msg(k) in y.msgs) && (Msg(k) in y.msgs ==> y'.msgs[Msg(k)] == y.msgs[Msg(k)])
  }

  lemma {:induction false} TryAllDelivers(y: Memory, t: Thread, outcomes: seq<bool>, pipe: nat, k: nat)
    requires t in y.distributions && y.distributions[t].left == |outcomes|
    requires pipe <= k < pipe + |outcomes| ==> Msg(k) !in y.msgs
    ensures
      var y' := TryAll(y, t, outcomes, pipe);
      && t in y'.distributions && y'.distributions[t].message == y.distributions[t].message
      && Got(y', k, y.distributions[t].content, outcomes, pipe)
      && (!(pipe <= k < pipe + |outcomes|) ==> Same(y, y', k))
    decreases |outcomes|
  {
    if outcomes != [] {
      var y1 := TryWrite(y, t, outcomes[0], Msg(pipe));
      TryAllDelivers(y1, t, outcomes[1..], pipe + 1, k);
    }
  }

  /** Exactly the pipes that take the message get one that holds its content, the message itself is empty
      afterwards, and all other messages are as they were. */
  lemma DistributeDelivers(y: Memory, t: Thread, m: MsgId, outcomes: seq<bool>, pipe: nat)
    requires MemoryOk(y) && m.Msg? && m in y.msgs && y.msgs[m].Ref?
    requires forall k: nat :: pipe <= k < pipe + |outcomes| ==> Msg(k) !in y.msgs
    ensures
      var y' := Distribute(y, t, m, outcomes, pipe);
      && m in y'.msgs && y'.msgs[m] == Inline
      && (forall k: nat {:trigger Got(y', k, y.msgs[m].content, outcomes, pipe)} :: Got(y', k, y.msgs[m].content, outcomes, pipe))
      && (forall k: nat {:trigger Same(y, y', k)} :: Msg(k) != m && !(pipe <= k < pipe + |outcomes|) ==> Same(y, y', k))
  {
    var y' := Distribute(y, t, m, outcomes, pipe);
    assert y.msgs[m].content in y.refcnt;
    forall k: nat ensures Got(y', k, y.msgs[m].content, outcomes, pipe) && m in y'.msgs && y'.msgs[m] == Inline
      ensures Msg(k) != m && !(pipe <= k < pipe + |outcomes|) ==> Same(y, y', k)
    {
      if |outcomes| >= 2 {
        TryAllDelivers(Reserve(y, t, m, |outcomes|), t, outcomes, pipe, k);
      } else {
        CloseExactly(y, m);
        MoveExactly(y, Msg(pipe), m);
      }
    }
  }

  /** With interference that is not enough: here one of the two pipes takes the message, but what it took is
      closed before the other one refuses it, and the content is lost. */
  lemma LostAlthoughTaken()
    ensures var run := [OpInitData(Msg(0)), OpReserve(0, Msg(0), 2), OpTry(0, true, Msg(1)), OpClose(Msg(1)),
                        OpTry(0, false, Msg(2)), OpDetach(0)];
            AllAllowed(EMPTY, run) && Lost(EMPTY, run) == {0}
  {
    var run := [OpInitData(Msg(0)), OpReserve(0, Msg(0), 2), OpTry(0, true, Msg(1)), OpClose(Msg(1)),
                OpTry(0, false, Msg(2)), OpDetach(0)];
    var y2 := TwoReserved();
    var y4 := OneLeft();
    assert Step(Step(EMPTY, run[0]), run[1]) == y2;
    TwoSteps(EMPTY, run);
    TakenAndClosed();
    TwoSteps(y2, run[2..]);
    LastRefused();
    TwoSteps(y4, run[4..]);
  }

  function TwoReserved(): Memory {
    Memory(map[Untried(0, 0) := Ref(0, true), Untried(0, 1) := Ref(0, true)], map[0 := 2], 1, false,
           map[0 := Distribution(Msg(0), 0, 2)])
  }

  function OneLeft(): Memory {
    Memory(map[Untried(0, 0) := Ref(0, true)], map[0 := 1], 1, false, map[0 := Distribution(Msg(0), 0, 1)])
  }

  lemma TakenAndClosed()
    ensures var y3 := Step(TwoReserved(), OpTry(0, true, Msg(1)));
            && Allowed(TwoReserved(), OpTry(0, true, Msg(1)))
            && Allowed(y3, OpClose(Msg(1))) && Step(y3, OpClose(Msg(1))) == OneLeft()
  {
    var y3 := Step(TwoReserved(), OpTry(0, true, Msg(1)));
    assert y3.msgs == map[Untried(0, 0) := Ref(0, true), Msg(1) := Ref(0, true)];
  }

  lemma LastRefused()
    ensures var y5 := Step(OneLeft(), OpTry(0, false, Msg(2)));
            Allowed(OneLeft(), OpTry(0, false, Msg(2))) && Allowed(y5, OpDetach(0))
    ensures LostIn(OneLeft(), OpTry(0, false, Msg(2))) == {0}
  {
  }

  lemma TwoSteps(y: Memory, run: seq<Op>)
    requires |run| >= 2
    ensures var y1 := Step(y, run[0]);
            && Lost(y, run) == LostIn(y, run[0]) + LostIn(y1, run[1]) + Lost(Step(y1, run[1]), run[2..])
            && (AllAllowed(y, run) <==>
                  Allowed(y, run[0]) && Allowed(y1, run[1]) && AllAllowed(Step(y1, run[1]), run[2..]))
  {
    assert run[1..][1..] == run[2..];
  }
}

module Message {
  import opened Common
  import opened MessageSpec
  import S = MessageSpec

  /** The messages and the contents in memory.  The preconditions say that no content is used that is not
      there; MessageSpec shows that they hold in every run. */
  class Store {
    var msgs: map<MsgId, Held>
    var refcnt: map<ContentId, nat>
    var next: ContentId
    ghost var markers: map<MsgId, Held>                 // the writes to be tried
    ghost var distributions: map<Thread, Distribution>

    ghost function View(): Memory
      reads this
    {
      Memory(msgs + markers, refcnt, next, false, distributions)
    }

    ghost predicate Valid()
      reads `msgs, `markers
    {
      (forall m :: m in msgs ==> m.Msg?) && (forall m :: m in markers ==> m.Untried?)
    }

    constructor ()
      ensures Valid() && View() == EMPTY
    {
      msgs, refcnt, next := map[], map[], 0;
      markers, distributions := map[], map[];
    }

    /** A message is stored. */
    method Put(m: MsgId, held: Held)
      requires Valid() && m.Msg?
      modifies `msgs
      ensures Valid() && msgs == old(msgs)[m := held] && View() == old(View()).(msgs := old(View().msgs)[m := held])
    {
      msgs := msgs[m := held];
      assert View().msgs == old(View().msgs)[m := held];
    }

    method Remove(m: MsgId)
      requires Valid() && m.Msg?
      modifies `msgs
      ensures Valid() && msgs == old(msgs) - {m} && View() == old(View()).(msgs := old(View().msgs) - {m})
    {
      msgs := msgs - {m};
      assert View().msgs == old(View().msgs) - {m};
    }

    method Init(m: MsgId)
      requires Valid() && m.Msg?
      modifies `msgs
      ensures Valid() && View() == InitInline(old(View()), m)
    {
      Put(m, Inline);
    }

    method InitData(m: MsgId)
      requires Valid() && m.Msg?
      modifies `msgs, `refcnt, `next
      ensures Valid() && View() == S.InitData(old(View()), m)
    {
      Put(m, Ref(next, false));
      refcnt := refcnt[next := 0];
      next := next + 1;
    }

    /** `refcnt.sub (1)`: false if no reference is left. */
    method Sub(c: ContentId) returns (left: bool)
      requires c in refcnt && refcnt[c] > 0
      modifies `refcnt
      ensures refcnt == old(refcnt)[c := old(refcnt)[c] - 1] && left == (old(refcnt)[c] > 1)
    {
      refcnt := refcnt[c := refcnt[c] - 1];
      left := refcnt[c] > 0;
    }

    method Close(m: MsgId)
      requires Valid() && m.Msg? && !S.Close(View(), m).fault
      modifies `msgs, `refcnt
      ensures Valid() && View() == S.Close(old(View()), m)
      ensures msgs == old(msgs) - {m}
    {
      if m !in msgs {
        assert msgs == msgs - {m};
        return;
      }
      var held := msgs[m];
      assert View().msgs[m] == held;
      if held.Ref? {
        var c := held.content;
        var left := false;
        if held.shared {
          left := Sub(c);
        }
        if !left {
          refcnt := refcnt - {c};
          assert refcnt == old(refcnt) - {c};
        }
      }
      Remove(m);
    }

    /** Also for dest == src: then the message is empty afterwards. */
    method Move(dest: MsgId, src: MsgId)
      requires Valid() && dest.Msg? && src.Msg? && !S.Move(View(), dest, src).fault
      modifies `msgs, `refcnt
      ensures Valid() && View() == S.Move(old(View()), dest, src)
    {
      assert src in msgs && View().msgs[src] == msgs[src];
      var held := msgs[src];       // what the close leaves in the memory of src
      Close(dest);
      Put(dest, held);
      Put(src, Inline);
    }

    /** Also for dest == src, unless the close frees the content: then the message is not initialised any
        more, and the count is set. */
    method Copy(dest: MsgId, src: MsgId)
      requires Valid() && dest.Msg? && src.Msg? && !S.Copy(View(), dest, src).fault && !S.Close(View(), dest).fault
      modifies `msgs, `refcnt
      ensures Valid() && View() == S.Copy(old(View()), dest, src)
    {
      if dest !in msgs || src !in msgs {
        return;
      }
      var held := msgs[src];
      assert View().msgs[src] == held;
      Close(dest);
      if held.Inline? {
        if dest != src {
          Put(dest, Inline);
        }
        return;
      }
      // the flags that were cleared by the close do not say that the content is shared
      AddReference(held.content, held.shared && dest != src);
      if dest != src {
        Put(src, Ref(held.content, true));
        Put(dest, Ref(held.content, true));
      }
    }

    method AddReference(c: ContentId, shared: bool)
      requires c in refcnt
      modifies `refcnt
      ensures refcnt == old(refcnt)[c := if shared then old(refcnt)[c] + 1 else 2]
    {
      refcnt := refcnt[c := if shared then refcnt[c] + 1 else 2];
    }

    /** The references for the writes are added. */
    method Reserve(ghost t: Thread, m: MsgId, n: nat)
      requires Valid() && m.Msg? && m in msgs && msgs[m].Ref? && msgs[m].content in refcnt && n > 0
      modifies this
      ensures Valid() && View() == S.Reserve(old(View()), t, m, n)
      ensures refcnt == old(refcnt)[old(msgs[m].content) :=
                          if old(msgs[m].shared) then old(refcnt)[old(msgs[m].content)] + n - 1 else n]
    {
      var c, shared := msgs[m].content, msgs[m].shared;
      assert View().msgs[m] == msgs[m];
      if shared {
        refcnt := refcnt[c := refcnt[c] + n - 1];
      } else {
        refcnt := refcnt[c := n];
      }
      Remove(m);
      AddMarkers(t, m, c, n);
    }

    ghost method AddMarkers(t: Thread, m: MsgId, c: ContentId, n: nat)
      requires Valid()
      modifies `markers, `distributions
      ensures Valid()
      ensures View() == old(View()).(msgs := old(View().msgs) + Reserved(t, c, n),
                                     distributions := old(distributions)[t := Distribution(m, c, n)])
    {
      markers := markers + Reserved(t, c, n);
      distributions := distributions[t := Distribution(m, c, n)];
      assert View().msgs == old(View().msgs) + Reserved(t, c, n);
    }

    ghost method RemoveMarker(t: Thread)
      requires Valid() && t in distributions && distributions[t].left > 0
      modifies `markers, `distributions
      ensures Valid()
      ensures var d := old(distributions)[t];
              View() == old(View()).(msgs := old(View().msgs) - {Untried(t, d.left - 1)},
                                     distributions := old(distributions)[t := d.(left := d.left - 1)])
    {
      var d := distributions[t];
      markers := markers - {Untried(t, d.left - 1)};
      distributions := distributions[t := d.(left := d.left - 1)];
      assert View().msgs == old(View().msgs) - {Untried(t, d.left - 1)};
    }

    /** One turn of the loop, for the next pipe. */
    method TryWrite(ghost t: Thread, c: ContentId, ok: bool, pipe: MsgId)
      requires Valid() && t in distributions && distributions[t].left > 0 && distributions[t].content == c
      requires c in refcnt && refcnt[c] > 0 && pipe.Msg?
      modifies this
      ensures Valid() && View() == S.TryWrite(old(View()), t, ok, pipe)
      ensures refcnt == if ok then old(refcnt) else old(refcnt)[c := old(refcnt)[c] - 1]
    {
      RemoveMarker(t);
      if ok {
        Put(pipe, Ref(c, true));
      } else {
        var _ := Sub(c);
      }
    }

    /** `distribute` of dist.cpp without interference; outcomes[k] says whether the k-th write succeeds. */
    method Distribute(ghost t: Thread, m: MsgId, outcomes: seq<bool>, pipe: nat)
      requires Valid() && m.Msg? && m in msgs && msgs[m].Ref?
      requires msgs[m].content in refcnt && (msgs[m].shared ==> refcnt[msgs[m].content] > 0)
      requires |outcomes| == 1 ==> !S.Close(View(), Msg(pipe)).fault
      modifies this
      ensures Valid() && View() == S.Distribute(old(View()), t, m, outcomes, pipe)
    {
      assert View().msgs[m] == msgs[m];
      if outcomes == [] || outcomes == [false] {
        Close(m);
        Init(m);
        return;
      }
      if |outcomes| == 1 {
        Move(Msg(pipe), m);
        return;
      }
      var c := msgs[m].content;
      Reserve(t, m, |outcomes|);
      WriteAll(t, m, c, outcomes, pipe);
      Put(m, Inline);
      distributions := distributions - {t};
    }

    /** The loop over the pipes. */
    method WriteAll(ghost t: Thread, ghost m: MsgId, c: ContentId, outcomes: seq<bool>, pipe: nat)
      requires Valid() && t in distributions && distributions[t] == Distribution(m, c, |outcomes|)
      requires c in refcnt && refcnt[c] >= |outcomes|
      modifies this
      ensures Valid() && View() == TryAll(old(View()), t, outcomes, pipe)
      ensures t in distributions && distributions[t] == Distribution(m, c, 0)
    {
      for i := 0 to |outcomes|
        invariant Valid() && t in distributions && distributions[t] == Distribution(m, c, |outcomes| - i)
        invariant c in refcnt && refcnt[c] >= |outcomes| - i
        invariant TryAll(View(), t, outcomes[i..], pipe + i) == TryAll(old(View()), t, outcomes, pipe)
      {
        assert outcomes[i..][1..] == outcomes[i + 1..];
        TryWrite(t, c, outcomes[i], Msg(pipe + i));
      }
      assert outcomes[|outcomes|..] == [];
    }
  }
}
