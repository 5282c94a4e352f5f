/**
 Objects of the ownership tree (own.cpp) and the commands they react to
 (object.cpp).

 Module OwnHandlers says what each handler does to the fields of an own_t and
 which commands it sends.  Module Own runs the same handlers in place.  Module
 OwnTree (in OwnTree.dfy) puts any number of objects together.
 */
module OwnHandlers {
  import opened Common

  type Id = nat

  /** The commands that own_t handles.  `Sequenced` stands for `attach` and `bind`,
      which are sequenced like `plug` and `own`.  The code sends `term_ack` without
      saying who it is from; the sender is recorded but no handler looks at it. */
  datatype Command =
    | Plug
    | Adopt(child: Id)      // `own`
    | Sequenced
    | TermReq(child: Id)
    | Term
    | TermAck(from: Id)

  /** The fields of own_t. */
  datatype Core = Core(
    owner: Option<Id>,
    terminating: bool,
    sentSeqnum: nat,
    processedSeqnum: nat,
    owned: set<Id>,
    termAcks: nat,
    destroyed: bool)

  /** What a handler leaves behind: the new fields, the objects that are sent `term`,
      whether `term_ack` is sent to the owner, and whether an assertion failed. */
  datatype Reply = Reply(core: Core, terms: set<Id>, ack: bool, fault: bool)

  function Quiet(o: Core): Reply { Reply(o, {}, false, false) }

  /** Nothing keeps the object from being destroyed. */
  predicate Finished(o: Core) {
    o.terminating && o.processedSeqnum == o.sentSeqnum && o.termAcks == 0
  }

  function CheckTermAcks(o: Core): Reply {
    if Finished(o) then Reply(o.(destroyed := true), {}, o.owner.Some?, o.owned != {}) else Quiet(o)
  }

  function ProcessSeqnum(o: Core): Reply {
    CheckTermAcks(o.(processedSeqnum := o.processedSeqnum + 1))
  }

  function ProcessTermReq(o: Core, child: Id): Reply {
    if o.terminating || child !in o.owned then Quiet(o)
    else Reply(o.(owned := o.owned - {child}, termAcks := o.termAcks + 1), {child}, false, false)
  }

  function ProcessOwn(o: Core, child: Id): Reply {
    if o.terminating then Reply(o.(termAcks := o.termAcks + 1), {child}, false, false)
    else Quiet(o.(owned := o.owned + {child}))
  }

  /** What `process_term` does before it checks whether it is done already. */
  function BeginTerm(o: Core): Core {
    o.(termAcks := o.termAcks + |o.owned|, owned := {}, terminating := true)
  }

  function ProcessTerm(o: Core): Reply {
    if o.terminating then Quiet(o).(fault := true)
    else CheckTermAcks(BeginTerm(o)).(terms := o.owned)
  }

  function UnregisterTermAck(o: Core): Reply {
    if o.termAcks == 0 then Quiet(o).(fault := true)
    else CheckTermAcks(o.(termAcks := o.termAcks - 1))
  }

  /** `process_command`: sequenced commands are counted after they were handled. */
  function ProcessCommand(o: Core, cmd: Command): Reply {
    match cmd
    case Plug => ProcessSeqnum(o)
    case Sequenced => ProcessSeqnum(o)
    case Adopt(child) =>
      var first := ProcessOwn(o, child);
      ProcessSeqnum(first.core).(terms := first.terms)
    case TermReq(child) => ProcessTermReq(o, child)
    case Term => ProcessTerm(o)
    case TermAck(_) => UnregisterTermAck(o)
  }
}

module Own {
  import opened Common
  import opened OwnHandlers
  import H = OwnHandlers

  /** The object in memory.  A handler appends the commands it sends to `outbox`. */
  class OwnObject {
    var owner: Option<Id>
    var terminating: bool
    var sentSeqnum: nat
    var processedSeqnum: nat
    var owned: set<Id>
    var termAcks: nat
    var destroyed: bool
    var outbox: seq<(Id, Command)>
    const self: Id

    ghost function View(): Core
      reads this
    {
      Core(owner, terminating, sentSeqnum, processedSeqnum, owned, termAcks, destroyed)
    }

    /** The commands sent since `before` are exactly those that the reply calls for. */
    ghost predicate Sent(before: seq<(Id, Command)>, reply: Reply)
      reads `owner, `outbox
    {
      before <= outbox &&
      forall c :: multiset(outbox[|before|..])[c] == Calls(owner, self, reply, c)
    }

    /** How often the reply calls for a command. */
    static ghost function Calls(owner: Option<Id>, self: Id, reply: Reply, c: (Id, Command)): nat {
      if c.1.Term? then if c.0 in reply.terms then 1 else 0
      else if reply.ack && owner == Some(c.0) && c.1 == TermAck(self) then 1
      else 0
    }

    constructor (identity: Id)
      ensures View() == Core(None, false, 0, 0, {}, 0, false) && outbox == [] && self == identity
    {
      self := identity;
      owner, terminating, sentSeqnum, processedSeqnum := None, false, 0, 0;
      owned, termAcks, destroyed, outbox := {}, 0, false, [];
    }

    method SetOwner(owner_: Id)
      requires owner.None?
      modifies `owner
      ensures View() == old(View()).(owner := Some(owner_))
    {
      owner := Some(owner_);
    }

    method IncSeqnum()
      modifies `sentSeqnum
      ensures View() == old(View()).(sentSeqnum := old(sentSeqnum) + 1)
    {
      sentSeqnum := sentSeqnum + 1;
    }

    method Send(to: Id, cmd: Command, ghost before: seq<(Id, Command)>)
      requires before <= outbox
      modifies `outbox
      ensures before <= outbox && outbox == old(outbox) + [(to, cmd)]
      ensures forall c :: multiset(outbox[|before|..])[c] ==
                multiset(old(outbox)[|before|..])[c] + if c == (to, cmd) then 1 else 0
    {
      outbox := outbox + [(to, cmd)];
      assert outbox[|before|..] == old(outbox)[|before|..] + [(to, cmd)];
    }

    /** Continues after the commands sent since `before`. */
    method CheckTermAcks(ghost before: seq<(Id, Command)>, ghost terms: set<Id>)
      requires Finished(View()) ==> owned == {}
      requires Sent(before, Reply(View(), terms, false, false))
      modifies `outbox, `destroyed
      ensures var reply := H.CheckTermAcks(old(View())).(terms := terms);
              View() == reply.core && !reply.fault && Sent(before, reply)
    {
      if terminating && processedSeqnum == sentSeqnum && termAcks == 0 {
        // Other nodes than the root confirm the termination to the owner.
        if owner.Some? {
          Send(owner.value, TermAck(self), before);
        }
        destroyed := true;
      }
    }

    method ProcessSeqnum(ghost before: seq<(Id, Command)>, ghost terms: set<Id>)
      requires Finished(View().(processedSeqnum := processedSeqnum + 1)) ==> owned == {}
      requires Sent(before, Reply(View(), terms, false, false))
      modifies `outbox, `destroyed, `processedSeqnum
      ensures var reply := H.ProcessSeqnum(old(View())).(terms := terms);
              View() == reply.core && !reply.fault && Sent(before, reply)
    {
      processedSeqnum := processedSeqnum + 1;
      CheckTermAcks(before, terms);
    }

    method ProcessTermReq(child: Id)
      modifies `outbox, `owned, `termAcks
      ensures var reply := H.ProcessTermReq(old(View()), child);
              View() == reply.core && Sent(old(outbox), reply)
    {
      if terminating {
        return;
      }
      if child !in owned {
        return;
      }
      owned := owned - {child};
      termAcks := termAcks + 1;
      Send(child, Term, outbox);
    }

    method ProcessOwn(child: Id)
      modifies `outbox, `owned, `termAcks
      ensures var reply := H.ProcessOwn(old(View()), child);
              View() == reply.core && Sent(old(outbox), reply)
    {
      if terminating {
        termAcks := termAcks + 1;
        Send(child, Term, outbox);
        return;
      }
      owned := owned + {child};
    }

    method ProcessTerm()
      requires !terminating
      modifies `outbox, `destroyed, `owned, `termAcks, `terminating
      ensures var reply := H.ProcessTerm(old(View()));
              View() == reply.core && !reply.fault && Sent(old(outbox), reply)
    {
      var rest := owned;
      while rest != {}
        invariant rest <= owned && View() == old(View()) && old(outbox) <= outbox
        invariant forall c :: multiset(outbox[|old(outbox)|..])[c] ==
                    if c.1.Term? && c.0 in owned - rest then 1 else 0
        decreases |rest|
      {
        var child :| child in rest;
        Send(child, Term, old(outbox));
        rest := rest - {child};
      }
      termAcks := termAcks + |owned|;
      owned := {};
      terminating := true;
      CheckTermAcks(old(outbox), old(owned));
    }

    method RegisterTermAcks(count: nat)
      modifies `termAcks
      ensures View() == old(View()).(termAcks := old(termAcks) + count)
    {
      termAcks := termAcks + count;
    }

    method UnregisterTermAck()
      requires termAcks > 0
      requires Finished(View().(termAcks := termAcks - 1)) ==> owned == {}
      modifies `outbox, `destroyed, `termAcks
      ensures var reply := H.UnregisterTermAck(old(View()));
              View() == reply.core && !reply.fault && Sent(old(outbox), reply)
    {
      termAcks := termAcks - 1;
      CheckTermAcks(outbox, {});
    }

    /** `terminate`: ask the owner, or start the termination if there is none. */
    method Terminate()
      modifies `outbox, `destroyed, `owned, `termAcks, `terminating
      ensures old(terminating) ==> View() == old(View()) && outbox == old(outbox)
      ensures !old(terminating) && owner.Some? ==>
                View() == old(View()) && outbox == old(outbox) + [(owner.value, TermReq(self))]
      ensures !old(terminating) && owner.None? ==>
                var reply := H.ProcessTerm(old(View()));
                View() == reply.core && !reply.fault && Sent(old(outbox), reply)
    {
      if terminating {
        return;
      }
      if owner.None? {
        ProcessTerm();
        return;
      }
      Send(owner.value, TermReq(self), outbox);
    }

    /** The dispatch of `process_command`.  The preconditions are the assertions in the
        handlers; OwnTree shows that they hold in every run. */
    method ProcessCommand(cmd: Command)
      requires !H.ProcessCommand(View(), cmd).fault
      modifies this
      ensures var reply := H.ProcessCommand(old(View()), cmd);
              View() == reply.core && Sent(old(outbox), reply)
    {
      match cmd
      case Plug => ProcessSeqnum(outbox, {});
      case Sequenced => ProcessSeqnum(outbox, {});
      case Adopt(child) =>
        ghost var terms := H.ProcessOwn(View(), child).terms;
        ProcessOwn(child);
        ProcessSeqnum(old(outbox), terms);
      case TermReq(child) => ProcessTermReq(child);
      case Term => ProcessTerm();
      case TermAck(_) => UnregisterTermAck();
    }
  }
}
