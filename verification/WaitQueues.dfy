/**
 Wait queues (src/sync/wait_queue.rs, src/sync/wait_condition.rs): any number of senders and receivers,
 with every lock-protected block one step, and signals at any moment.
 */
module WaitQueues {
  import opened Wrappers
  import opened Helpers
  import opened ReadBuffers

  datatype Pc =
    | Ready
    | SawEmpty       // a blocking read holds the queue's lock and found nothing
    | Marked         // wait has marked the context blocked
    | Listed         // and has put it on the condition's list
    | Parked         // and has dropped the queue's lock
    | Interrupted    // the read returned EINTR
    | Pushed         // send has pushed its value
    | Notifying      // notify holds the condition's lock

  /** `notified` says that a notify took the context off the list since it parked. */
  datatype Ctx = Ctx(blocked: bool, pc: Pc, notified: bool)

  /**
   `size` is the size of a value in bytes. The history: values pushed, values taken off the queue, bytes copied
   to readers, and the reads that copied them.
   */
  datatype State = State(
    size: nat, queue: seq<Value>, sent: seq<Value>, received: seq<Value>, delivered: seq<nat>, log: seq<Read>,
    waiters: seq<nat>, inner: Option<nat>, cond: Option<nat>, ctxs: map<nat, Ctx>)

  datatype Action =
    | Receive(len: nat, block: bool, fault: bool) | Wait(pending: bool) | Enlist | DropGuard | Resume | Again
    | Send(value: Value) | Lock | Pop | Unlock
    | Signal

  predicate Enabled(s: State, c: nat, act: Action) {
    && c in s.ctxs
    && var p := s.ctxs[c];
       match act
       case Receive(_, _, _) => p.pc.Ready? && s.inner.None? && s.size > 0
       case Wait(_) => p.pc.SawEmpty?
       case Enlist => p.pc.Marked? && s.cond.None?
       case DropGuard => p.pc.Listed?
       case Resume => p.pc.Parked? && !p.blocked && s.cond.None?
       case Again => p.pc.Interrupted?
       case Send(v) => p.pc.Ready? && s.inner.None? && |v| == s.size
       case Lock => p.pc.Pushed? && s.cond.None?
       case Pop => p.pc.Notifying? && s.waiters != [] && s.waiters[|s.waiters| - 1] in s.ctxs
       case Unlock => p.pc.Notifying? && s.waiters == []
       case Signal => true
  }

  /** The list without the first occurrence of `c`. */
  function Removed(list: seq<nat>, c: nat): seq<nat> {
    if list == [] then [] else if list[0] == c then list[1..] else [list[0]] + Removed(list[1..], c)
  }

  function Set(s: State, c: nat, p: Ctx): State {
    s.(ctxs := s.ctxs[c := p])
  }

  /** The copying half of `receive_into_user`. */
  function Taken(s: State, len: nat): State
    requires s.size > 0
  {
    // Never more values are drained than there are; the bound only makes the function total.
    var k := if Drained(s.queue, len, s.size) <= |s.queue| then Drained(s.queue, len, s.size) else |s.queue|;
    s.(queue := s.queue[k..], received := s.received + s.queue[..k],
       delivered := s.delivered + Bytes(s.queue)[..Copied(s.queue, len)], log := s.log + [Read(len, s.queue)])
  }

  function Apply(s: State, c: nat, act: Action): State
    requires Enabled(s, c, act)
  {
    var p := s.ctxs[c];
    match act
    case Receive(len, block, fault) =>
      // A non-blocking read of an empty queue, and one whose buffer faults, return an error.
      if s.queue == [] then (if block then Set(s.(inner := Some(c)), c, p.(pc := SawEmpty)) else s)
      else if fault then s
      else Taken(s, len)
    case Wait(pending) =>
      if pending then Set(s.(inner := None), c, p.(pc := Interrupted))
      else Set(s, c, p.(pc := Marked, blocked := true, notified := false))
    case Enlist => Set(s.(waiters := s.waiters + [c]), c, p.(pc := Listed))
    case DropGuard => Set(s.(inner := None), c, p.(pc := Parked))
    case Resume =>
      if c in s.waiters then Set(s.(waiters := Removed(s.waiters, c)), c, p.(pc := Interrupted))
      else Set(s, c, p.(pc := Ready))
    case Again => Set(s, c, p.(pc := Ready))
    case Send(v) => Set(s.(queue := s.queue + [v], sent := s.sent + [v]), c, p.(pc := Pushed))
    case Lock => Set(s.(cond := Some(c)), c, p.(pc := Notifying))
    case Pop =>
      var w := s.waiters[|s.waiters| - 1];
      var t := s.(waiters := s.waiters[..|s.waiters| - 1]);
      Set(t, w, t.ctxs[w].(blocked := false, notified := true))
    case Unlock => Set(s.(cond := None), c, p.(pc := Ready))
    case Signal => Set(s, c, p.(blocked := false))
  }

  // The invariant.

  predicate OnList(pc: Pc) { pc.Listed? || pc.Parked? }

  predicate HoldsInner(pc: Pc) { pc.SawEmpty? || pc.Marked? || pc.Listed? }

  /** A context is on the list exactly from joining it until a notify takes it off; off the list it can run. */
  predicate CtxOk(s: State, c: nat)
    requires c in s.ctxs
  {
    var p := s.ctxs[c];
    && (c in s.waiters <==> OnList(p.pc) && !p.notified)
    && (p.pc.Marked? ==> !p.notified)
    && (p.blocked ==> p.pc.Marked? || c in s.waiters)
    && (HoldsInner(p.pc) <==> s.inner == Some(c))
    && (p.pc.Notifying? <==> s.cond == Some(c))
  }

  /** A sender has pushed and has yet to take every waiter off the list. */
  predicate Owed(p: Ctx) { p.pc.Pushed? || p.pc.Notifying? }

  ghost predicate Inv(s: State) {
    && (forall c | c in s.ctxs :: CtxOk(s, c))
    && Distinct(s.waiters) && (forall c | c in s.waiters :: c in s.ctxs)
    && (s.inner.Some? ==> s.inner.value in s.ctxs && s.queue == []) && (s.cond.Some? ==> s.cond.value in s.ctxs)
    && (s.waiters != [] && s.queue != [] ==> exists c | c in s.ctxs :: Owed(s.ctxs[c]))
    && ValuesOk(s)
  }

  ghost predicate ValuesOk(s: State) {
    && s.size > 0 && Sized(s.queue, s.size) && s.sent == s.received + s.queue
    && Account(s.delivered, s.received, s.log, s.size) && forall r | r in s.log :: Sized(r.found, s.size)
  }

  lemma {:induction false} RemovedIs(list: seq<nat>, c: nat)
    requires Distinct(list)
    ensures Distinct(Removed(list, c)) && forall x :: x in Removed(list, c) <==> x in list && x != c
  {
    if list != [] {
      assert list == [list[0]] + list[1..];
      RemovedIs(list[1..], c);
      if list[0] != c {
        var r := Removed(list[1..], c);
        assert forall j | 0 <= j < |r| :: r[j] in r;
        assert list[0] !in list[1..];
      }
    }
  }

  lemma PlainStep(s: State, c: nat, act: Action, d: nat)
    requires Enabled(s, c, act) && !act.Resume? && !act.Pop? && !act.Enlist?
    requires d in s.ctxs && CtxOk(s, c) && CtxOk(s, d)
    ensures d in Apply(s, c, act).ctxs && CtxOk(Apply(s, c, act), d)
  {
  }

  lemma ListedStep(s: State, c: nat, d: nat)
    requires Enabled(s, c, Enlist) && d in s.ctxs && CtxOk(s, c) && CtxOk(s, d)
    ensures d in Apply(s, c, Enlist).ctxs && CtxOk(Apply(s, c, Enlist), d)
  {
  }

  lemma PoppedStep(s: State, c: nat, d: nat)
    requires Enabled(s, c, Pop) && Distinct(s.waiters) && d in s.ctxs && CtxOk(s, c) && CtxOk(s, d)
    requires CtxOk(s, s.waiters[|s.waiters| - 1])
    ensures d in Apply(s, c, Pop).ctxs && CtxOk(Apply(s, c, Pop), d)
  {
    PopIs(s.waiters);
    hide Distinct;
  }

  lemma ResumedStep(s: State, c: nat, d: nat)
    requires Enabled(s, c, Resume) && Distinct(s.waiters) && d in s.ctxs && CtxOk(s, c) && CtxOk(s, d)
    ensures d in Apply(s, c, Resume).ctxs && CtxOk(Apply(s, c, Resume), d)
  {
    RemovedIs(s.waiters, c);
    hide Distinct, Removed;
  }

  lemma CtxStep(s: State, c: nat, act: Action, d: nat)
    requires Inv(s) && Enabled(s, c, act) && d in s.ctxs
    ensures d in Apply(s, c, act).ctxs && CtxOk(Apply(s, c, act), d)
  {
    hide CtxOk, Apply;
    if act.Enlist? { ListedStep(s, c, d); }
    else if act.Pop? { PoppedStep(s, c, d); }
    else if act.Resume? { ResumedStep(s, c, d); }
    else { PlainStep(s, c, act, d); }
  }

  lemma ListStep(s: State, c: nat, act: Action)
    requires Inv(s) && Enabled(s, c, act)
    ensures var t := Apply(s, c, act);
            Distinct(t.waiters) && t.ctxs.Keys == s.ctxs.Keys && forall x | x in t.waiters :: x in t.ctxs
  {
    hide Distinct, Removed, ValuesOk, Apply;
    assert CtxOk(s, c);
    KeysKept(s, c, act);
    if act.Resume? {
      RemovedIs(s.waiters, c);
    } else if act.Pop? {
      PopIs(s.waiters);
    } else if act.Enlist? {
      NotListed(s, c);
      DistinctSnoc(s.waiters, c);
    }
    hide Enabled, CtxOk;
  }

  lemma KeysKept(s: State, c: nat, act: Action)
    requires Enabled(s, c, act)
    ensures Apply(s, c, act).ctxs.Keys == s.ctxs.Keys
    ensures Apply(s, c, act).waiters ==
            if act.Enlist? then s.waiters + [c]
            else if act.Pop? then s.waiters[..|s.waiters| - 1]
            else if act.Resume? && c in s.waiters then Removed(s.waiters, c)
            else s.waiters
  {
    hide Removed, Drained, Copied, Bytes;
  }

  lemma NotListed(s: State, c: nat)
    requires c in s.ctxs && CtxOk(s, c) && s.ctxs[c].pc.Marked?
    ensures c !in s.waiters
  {
  }

  lemma ValuesStep(s: State, c: nat, act: Action)
    requires ValuesOk(s) && Enabled(s, c, act)
    ensures ValuesOk(Apply(s, c, act))
  {
    hide Account, Bytes, Quotient, Copied, Drained;
    if act.Receive? {
      ReadStep(s.delivered, s.received, s.log, s.size, s.queue, act.len);
      var k := Drained(s.queue, act.len, s.size);
      assert s.queue == s.queue[..k] + s.queue[k..];
    }
  }

  lemma Step(s: State, c: nat, act: Action)
    requires Inv(s) && Enabled(s, c, act)
    ensures Inv(Apply(s, c, act))
  {
    var t := Apply(s, c, act);
    assert CtxOk(s, c);
    ValuesStep(s, c, act);
    assert (t.inner.Some? ==> t.inner.value in t.ctxs && t.queue == []) && (t.cond.Some? ==> t.cond.value in t.ctxs);
    if t.waiters != [] && t.queue != [] { StillOwed(s, c, act); }
    ListStep(s, c, act);
    hide Enabled, Distinct, Apply;
    forall d | d in t.ctxs ensures CtxOk(t, d) { CtxStep(s, c, act, d); }
  }

  lemma PopIs(list: seq<nat>)
    requires Distinct(list) && list != []
    ensures var w, r := list[|list| - 1], list[..|list| - 1];
            Distinct(r) && forall x :: x in list <==> x in r || x == w
    ensures list[|list| - 1] !in list[..|list| - 1]
  {
    assert list == list[..|list| - 1] + [list[|list| - 1]];
  }

  lemma StillOwed(s: State, c: nat, act: Action)
    requires Inv(s) && Enabled(s, c, act) && Apply(s, c, act).waiters != [] && Apply(s, c, act).queue != []
    ensures exists d | d in Apply(s, c, act).ctxs :: Owed(Apply(s, c, act).ctxs[d])
  {
    var t := Apply(s, c, act);
    assert CtxOk(s, c);
    if act.Send? {
      assert Owed(t.ctxs[c]);
    } else {
      var d :| d in s.ctxs && Owed(s.ctxs[d]);
      assert Owed(t.ctxs[d]);
    }
  }

  // Runs.

  datatype Move = Move(ctx: nat, act: Action)

  ghost predicate Initial(s: State) {
    && s.size > 0 && s.queue == [] && s.sent == [] && s.received == [] && s.delivered == [] && s.log == []
    && s.waiters == [] && s.inner == None && s.cond == None
    && forall c | c in s.ctxs :: s.ctxs[c] == Ctx(false, Ready, false)
  }

  ghost predicate Execution(states: seq<State>, moves: seq<Move>) {
    && |states| == |moves| + 1 && Initial(states[0])
    && forall i | 0 <= i < |moves| ::
         && Enabled(states[i], moves[i].ctx, moves[i].act)
         && states[i + 1] == Apply(states[i], moves[i].ctx, moves[i].act)
  }

  lemma {:induction false} RunKeeps(states: seq<State>, moves: seq<Move>, i: nat)
    requires Execution(states, moves) && i < |states|
    ensures Inv(states[i])
  {
    if i > 0 {
      RunKeeps(states, moves, i - 1);
      hide Inv, Initial;
      Step(states[i - 1], moves[i - 1].ctx, moves[i - 1].act);
    }
  }

  /**
   No lost wakeup: while a receiver sleeps on a queue with values in it, some sender has still to notify it
   and can take its next step. A receiver that wakes returns from `wait` with true exactly when a notify took
   it off the list.
   */
  lemma NoLostWakeup(states: seq<State>, moves: seq<Move>, i: nat, c: nat)
    requires Execution(states, moves) && i < |states| && c in states[i].ctxs
    ensures var s := states[i];
            s.ctxs[c].pc.Parked? && s.ctxs[c].blocked && s.queue != [] ==>
              && c in s.waiters
              && exists d, act :: d in s.ctxs && Owed(s.ctxs[d]) && (act == Lock || act == Pop || act == Unlock)
                                  && Enabled(s, d, act)
    ensures var s := states[i]; s.ctxs[c].pc.Parked? ==> (c !in s.waiters <==> s.ctxs[c].notified)
  {
    RunKeeps(states, moves, i);
    var s := states[i];
    hide Execution, ValuesOk;
    assert CtxOk(s, c);
    if s.ctxs[c].pc.Parked? && s.ctxs[c].blocked && s.queue != [] { var d, act := OwedMoves(s); }
  }

  /**
   What `wait` returns, in every run: a receiver that wakes goes on to read if a notify took it off the list, and
   is interrupted otherwise; one that finds a signal pending is interrupted without waiting.
   */
  lemma WaitReturns(states: seq<State>, moves: seq<Move>, i: nat, c: nat)
    requires Execution(states, moves) && i < |moves| && moves[i].ctx == c
    requires c in states[i].ctxs && c in states[i + 1].ctxs
    ensures moves[i].act == Resume ==>
              states[i + 1].ctxs[c].pc == if states[i].ctxs[c].notified then Ready else Interrupted
    ensures moves[i].act.Wait? ==> (states[i + 1].ctxs[c].pc == Interrupted <==> moves[i].act.pending)
  {
    RunKeeps(states, moves, i);
    hide Initial, ValuesOk;
    assert CtxOk(states[i], c);
  }

  /**
   Values leave the queue once each, in the order they were sent. Readers get exactly the bytes of those values
   if and only if every read copied whole values only: its buffer was a whole number of values long, or long
   enough for all that was queued.
   */
  lemma DeliveredOnce(states: seq<State>, moves: seq<Move>, i: nat)
    requires Execution(states, moves) && i < |states|
    ensures var s := states[i];
            && s.sent == s.received + s.queue && s.size > 0
            && (s.delivered == Bytes(s.received) <==>
                  forall r | r in s.log :: Remainder(r.len, s.size) == 0 || r.len >= |Bytes(r.found)|)
  {
    RunKeeps(states, moves, i);
    var s := states[i];
    hide Execution, CtxOk, Bytes, Quotient, Remainder, Copied;
    NoExtra(s.log, s.size);
    forall r | r in s.log ensures Torn(r, s.size) <==> !(Remainder(r.len, s.size) == 0 || r.len >= |Bytes(r.found)|) {
      CopiesWhole(r.found, s.size, r.len);
    }
  }

  lemma OwedMoves(s: State) returns (d: nat, act: Action)
    requires Inv(s) && s.waiters != [] && s.queue != []
    ensures d in s.ctxs && Owed(s.ctxs[d]) && (act == Lock || act == Pop || act == Unlock) && Enabled(s, d, act)
  {
    if s.cond.Some? {
      d, act := s.cond.value, Pop;
    } else {
      d :| d in s.ctxs && Owed(s.ctxs[d]);
      act := Lock;
    }
    assert CtxOk(s, d);
  }

  // Reads and sends, when nothing else comes between their steps.

  predicate Leads(s: State, c: nat, act: Action, t: State) { Enabled(s, c, act) && Apply(s, c, act) == t }

  /** A read that finds values copies them, unless its buffer faults: then it leaves everything as it is. */
  lemma ReadTakes(s: State, c: nat, len: nat, block: bool, fault: bool) returns (t: State)
    requires Inv(s) && c in s.ctxs && s.ctxs[c].pc.Ready? && s.inner.None? && s.queue != []
    ensures Leads(s, c, Receive(len, block, fault), t)
    ensures if fault then t == s else t.ctxs == s.ctxs && t.log == s.log + [Read(len, s.queue)]
  {
    t := Apply(s, c, Receive(len, block, fault));
    hide CtxOk, Drained, Copied, Bytes;
  }

  /** A read that finds nothing returns at once, or sleeps on the list if it may block. */
  lemma ReadSleeps(s: State, c: nat, len: nat, fault: bool)
    returns (t: State, t1: State, t2: State, t3: State, t4: State)
    requires Inv(s) && c in s.ctxs && s.ctxs[c].pc.Ready? && s.inner.None? && s.cond.None? && s.queue == []
    ensures Leads(s, c, Receive(len, false, fault), t) && t == s
    ensures Leads(s, c, Receive(len, true, fault), t1) && Leads(t1, c, Wait(false), t2)
    ensures Leads(t2, c, Enlist, t3) && Leads(t3, c, DropGuard, t4)
    ensures t4 == s.(waiters := s.waiters + [c], ctxs := s.ctxs[c := Ctx(true, Parked, false)])
  {
    assert s.size > 0;
    hide CtxOk, ValuesOk, Taken;
    t := Apply(s, c, Receive(len, false, fault));
    t1 := Apply(s, c, Receive(len, true, fault));
    t2 := Apply(t1, c, Wait(false));
    t3 := Apply(t2, c, Enlist);
    t4 := Apply(t3, c, DropGuard);
  }

  /** A signal takes a sleeper off the list; its read is interrupted, and it may read again. */
  lemma SignalInterrupts(s: State, c: nat) returns (t1: State, t2: State, t3: State)
    requires Inv(s) && c in s.ctxs && s.ctxs[c].pc.Parked? && c in s.waiters && s.cond.None?
    ensures Leads(s, c, Signal, t1) && Leads(t1, c, Resume, t2) && Leads(t2, c, Again, t3)
    ensures c in t2.ctxs && t2.ctxs[c].pc.Interrupted? && forall x :: x in t3.waiters <==> x in s.waiters && x != c
    ensures t3 == s.(waiters := t3.waiters, ctxs := s.ctxs[c := Ctx(false, Ready, s.ctxs[c].notified)])
  {
    RemovedIs(s.waiters, c);
    hide CtxOk, ValuesOk, Taken, Removed, Distinct;
    t1 := Apply(s, c, Signal);
    t2 := Apply(t1, c, Resume);
    t3 := Apply(t2, c, Again);
  }

  /** A send notifies the one sleeper. */
  lemma SendNotifies(s: State, d: nat, v: Value, c: nat) returns (t1: State, t2: State, t3: State, t4: State)
    requires d in s.ctxs && s.ctxs[d].pc.Ready? && s.inner.None? && s.cond.None? && |v| == s.size
    requires s.waiters == [c] && c in s.ctxs && c != d
    ensures Leads(s, d, Send(v), t1) && Leads(t1, d, Lock, t2) && Leads(t2, d, Pop, t3) && Leads(t3, d, Unlock, t4)
    ensures t4 == s.(queue := s.queue + [v], sent := s.sent + [v], waiters := [],
                     ctxs := s.ctxs[c := s.ctxs[c].(blocked := false, notified := true)])
  {
    hide Taken, Removed;
    t1 := Apply(s, d, Send(v));
    t2 := Apply(t1, d, Lock);
    t3 := Apply(t2, d, Pop);
    t4 := Apply(t3, d, Unlock);
    assert t4.ctxs == s.ctxs[c := s.ctxs[c].(blocked := false, notified := true)];
  }

  /** Which wakes it: it goes on to read, and finds the value. */
  lemma SendWakes(s: State, d: nat, v: Value, c: nat)
    returns (t1: State, t2: State, t3: State, t4: State, t5: State)
    requires d in s.ctxs && s.ctxs[d].pc.Ready? && s.inner.None? && s.cond.None? && |v| == s.size
    requires s.waiters == [c] && c in s.ctxs && s.ctxs[c].pc.Parked?
    ensures Leads(s, d, Send(v), t1) && Leads(t1, d, Lock, t2) && Leads(t2, d, Pop, t3)
    ensures Leads(t3, d, Unlock, t4) && Leads(t4, c, Resume, t5)
    ensures t5 == s.(queue := s.queue + [v], sent := s.sent + [v], waiters := [],
                     ctxs := s.ctxs[c := Ctx(false, Ready, true)])
  {
    t1, t2, t3, t4 := SendNotifies(s, d, v, c);
    hide Taken, Removed;
    t5 := Apply(t4, c, Resume);
  }
}
