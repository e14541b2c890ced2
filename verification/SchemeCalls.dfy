/**
 Requests to a user scheme (src/scheme/user.rs): any number of contexts make calls, are woken by
 responses, signals and kills in any order, and the scheme answers any tag at any time.
 */
module SchemeCalls {
  import opened Wrappers

  datatype Status = Runnable | Blocked
  datatype Code = Eintr | Ecanceled | Eio | Value(n: nat)
  datatype Response = Regular(code: Code) | Fds
  datatype Outcome = Answer(response: Response) | Killed | BadFd

  /**
   A slot of the scheme's table; `call` names the call it was made for. `handedOver` says that the
   callee must unmap the borrowed span.
   */
  datatype Slot =
    | Placeholder(call: nat)
    | Waiting(call: nat, canceling: bool, handedOver: bool)
    | Responded(call: nat, response: Response)

  /** Where a context stands in `call_extended_inner`. */
  datatype Pc =
    | Idle
    | GotTag(call: nat)        // next_id has put a placeholder
    | Blocking(call: nat)      // marked blocked, not yet waiting
    | Registered(call: nat)    // waiting, request not yet sent
    | Switched(call: nat)      // at or after context::switch
    | SendCancel(call: nat)    // woken early, holding the table's lock
    | Reblock(call: nat)
    | Returned(call: nat, outcome: Outcome)

  datatype Ctx = Ctx(status: Status, killed: bool, pc: Pc, holds: bool)

  /** A call and what has happened to it so far. */
  datatype Call = Call(owner: nat, tag: nat, requests: nat, cancels: nat, responses: nat, unmaps: nat)

  datatype State = State(ctxs: map<nat, Ctx>, slots: map<nat, Slot>, calls: map<nat, Call>, lock: Option<nat>)

  /** The steps of a call in progress. */
  datatype Step = Block | Register | Send | Wake | Cancel | BlockAgain | Release

  datatype Action =
    | NextId(c: nat, tag: nat, call: nat)
    | Own(c: nat, step: Step)
    | Signal(c: nat) | Kill(c: nat) | Exit(c: nat)
    | Respond(tag: nat, response: Response)

  predicate InCall(p: Ctx, n: nat) {
    !p.pc.Idle? && p.pc.call == n
  }

  function Unblocked(p: Ctx): Ctx { p.(status := Runnable) }

  predicate StepEnabled(s: State, c: nat, step: Step) {
    && c in s.ctxs && !s.ctxs[c].pc.Idle? && s.ctxs[c].pc.call in s.calls
    && var p := s.ctxs[c];
       match step
       case Block => p.pc.GotTag?
       case Register => p.pc.Blocking? && s.lock.None?
       case Send => p.pc.Registered?
       case Wake => p.pc.Switched? && p.status.Runnable? && s.lock.None?
       case Cancel => p.pc.SendCancel?
       case BlockAgain => p.pc.Reblock?
       case Release => p.pc.Returned?
  }

  predicate Enabled(s: State, act: Action) {
    match act
    case NextId(c, tag, n) =>
      c in s.ctxs && s.ctxs[c].pc.Idle? && s.ctxs[c].status.Runnable? && tag !in s.slots && n !in s.calls
    case Own(c, step) => StepEnabled(s, c, step)
    case Signal(c) => c in s.ctxs
    case Kill(c) => c in s.ctxs
    case Exit(c) => c in s.ctxs && s.ctxs[c].pc.Idle? && s.ctxs[c].killed
    case Respond(_, _) => s.lock.None?
  }

  /** What a woken caller does with its slot, holding the table's lock. */
  function WakeSlot(slot: Option<Slot>, killed: bool): Option<Slot> {
    match slot
    case Some(Waiting(n, _, over)) => Some(Waiting(n, true, over || killed))
    case Some(Responded(_, _)) => None
    case _ => slot
  }

  function WakePc(slot: Option<Slot>, killed: bool, n: nat): Pc {
    match slot
    case Some(Waiting(_, canceling, _)) =>
      if killed then Returned(n, Outcome.Killed) else if canceling then Reblock(n) else SendCancel(n)
    case Some(Responded(_, r)) => Returned(n, Answer(r))
    case _ => Returned(n, BadFd)
  }

  /** `respond` lets EINTR through only after a cancellation, and turns ECANCELED into it then. */
  function Translated(r: Response, canceling: bool): Response {
    if r == Regular(Ecanceled) && canceling then Regular(Eintr)
    else if r == Regular(Eintr) && !canceling then Regular(Eio)
    else r
  }

  function At<V>(m: map<nat, V>, k: nat): Option<V> {
    if k in m then Some(m[k]) else None
  }

  function Put<V>(m: map<nat, V>, k: nat, v: Option<V>): map<nat, V> {
    if v.Some? then m[k := v.value] else m - {k}
  }

  function NextCtx(p: Ctx, slot: Option<Slot>, step: Step): Ctx
    requires !p.pc.Idle?
  {
    var n := p.pc.call;
    match step
    case Block => p.(pc := Blocking(n), status := Blocked)
    case Register => p.(pc := Registered(n))
    case Send => p.(pc := Switched(n))
    case Wake =>
      var pc := WakePc(slot, p.killed, n);
      p.(pc := pc, holds := p.holds && pc != Returned(n, Outcome.Killed))
    case Cancel => p.(pc := Reblock(n))
    case BlockAgain => p.(pc := Switched(n), status := Blocked)
    case Release => p.(pc := Idle, holds := false)
  }

  function NextSlot(slot: Option<Slot>, p: Ctx, step: Step): Option<Slot>
    requires !p.pc.Idle?
  {
    match step
    case Register => Some(Waiting(p.pc.call, false, false))
    case Wake => WakeSlot(slot, p.killed)
    case _ => slot
  }

  function NextCall(h: Call, p: Ctx, step: Step): Call {
    match step
    case Send => h.(requests := h.requests + 1)
    case Cancel => h.(cancels := h.cancels + 1)
    case Release => h.(unmaps := h.unmaps + if p.holds then 1 else 0)
    case _ => h
  }

  function NextLock(lock: Option<nat>, c: nat, q: Ctx, step: Step): Option<nat> {
    match step
    case Wake => if q.pc.SendCancel? || q.pc.Reblock? then Some(c) else lock
    case BlockAgain => None
    case _ => lock
  }

  function Acting(s: State, c: nat, step: Step): State
    requires StepEnabled(s, c, step)
  {
    var p := s.ctxs[c];
    var n := p.pc.call;
    var h := s.calls[n];
    var slot := At(s.slots, h.tag);
    var q := NextCtx(p, slot, step);
    State(s.ctxs[c := q], Put(s.slots, h.tag, NextSlot(slot, p, step)), s.calls[n := NextCall(h, p, step)],
          NextLock(s.lock, c, q, step))
  }

  function Apply(s: State, act: Action): State
    requires Enabled(s, act)
  {
    match act
    case NextId(c, tag, n) =>
      State(s.ctxs[c := s.ctxs[c].(pc := GotTag(n), holds := true)], s.slots[tag := Placeholder(n)],
            s.calls[n := Call(c, tag, 0, 0, 0, 0)], s.lock)
    case Own(c, step) => Acting(s, c, step)
    case Signal(c) => s.(ctxs := s.ctxs[c := Unblocked(s.ctxs[c])])
    case Kill(c) => s.(ctxs := s.ctxs[c := Unblocked(s.ctxs[c]).(killed := true)])
    case Exit(c) => s.(ctxs := s.ctxs - {c})
    case Respond(tag, r) => Responding(s, tag, r)
  }

  /** `respond`: only a waiting slot takes the answer; its owner is woken if it still exists. */
  function Responding(s: State, tag: nat, r: Response): State {
    if tag in s.slots && s.slots[tag].Waiting? && s.slots[tag].call in s.calls then
      var x := s.slots[tag];
      var h := s.calls[x.call];
      State(if h.owner in s.ctxs then s.ctxs[h.owner := Unblocked(s.ctxs[h.owner])] else s.ctxs,
            if h.owner in s.ctxs then s.slots[tag := Responded(x.call, Translated(r, x.canceling))]
            else s.slots - {tag},
            s.calls[x.call := h.(responses := h.responses + 1, unmaps := h.unmaps + if x.handedOver then 1 else 0)],
            s.lock)
    else s
  }

  // The invariant: one call, its owner's context if that still exists, and the slot with its tag.

  predicate Active(n: nat, p: Option<Ctx>) {
    p.Some? && InCall(p.value, n)
  }

  predicate HasSlot(n: nat, x: Option<Slot>) {
    x.Some? && x.value.call == n
  }

  predicate CallerHolds(n: nat, p: Option<Ctx>) {
    Active(n, p) && p.value.holds
  }

  predicate CalleeHolds(n: nat, x: Option<Slot>) {
    HasSlot(n, x) && x.value.Waiting? && x.value.handedOver
  }

  /** Exactly one of caller, callee and the past has the borrowed span. */
  predicate SpanOk(n: nat, h: Call, p: Option<Ctx>, x: Option<Slot>) {
    || (h.unmaps == 0 && CallerHolds(n, p) && !CalleeHolds(n, x))
    || (h.unmaps == 0 && !CallerHolds(n, p) && CalleeHolds(n, x))
    || (h.unmaps == 1 && !CallerHolds(n, p) && !CalleeHolds(n, x))
  }

  predicate Answered(r: Response, cancels: nat) {
    r == Regular(Eintr) ==> cancels == 1
  }

  /** A slot its owner is going to look at. */
  predicate InSlot(x: Slot, h: Call, p: Ctx) {
    match x
    case Waiting(_, canceling, over) => !over && h.cancels == if canceling then 1 else 0
    case Responded(_, r) => p.status.Runnable? && Answered(r, h.cancels)
    case Placeholder(_) => false
  }

  /** The slot and the counters of a call in progress, by its caller's place. */
  predicate PhaseOk(n: nat, h: Call, p: Ctx, x: Option<Slot>, lock: Option<nat>) {
    && (p.holds <==> p.pc != Returned(n, Outcome.Killed)) && (p.pc.Returned? ==> p.status.Runnable?)
    && match p.pc
    case GotTag(_) => x == Some(Placeholder(n)) && h.requests == 0 && h.cancels == 0 && h.responses == 0
    case Blocking(_) => x == Some(Placeholder(n)) && h.requests == 0 && h.cancels == 0 && h.responses == 0
    case Registered(_) => HasSlot(n, x) && h.requests == 0 && h.cancels == 0 && InSlot(x.value, h, p)
    case Switched(_) => HasSlot(n, x) && h.requests == 1 && InSlot(x.value, h, p)
    case SendCancel(_) =>
      x == Some(Waiting(n, true, false)) && h.requests == 1 && h.cancels == 0 && lock == Some(h.owner)
    case Reblock(_) => x == Some(Waiting(n, true, false)) && h.requests == 1 && h.cancels == 1 && lock == Some(h.owner)
    case Returned(_, Answer(r)) => !HasSlot(n, x) && h.requests == 1 && h.responses == 1 && Answered(r, h.cancels)
    case Returned(_, Killed) => h.requests == 1
    case Returned(_, BadFd) => false
    case Idle => true
  }

  predicate CallOk(n: nat, h: Call, p: Option<Ctx>, x: Option<Slot>, lock: Option<nat>) {
    && h.requests <= 1 && h.cancels <= h.requests && h.responses <= 1
    && (HasSlot(n, x) ==> h.responses == if x.value.Responded? then 1 else 0)
    && SpanOk(n, h, p, x)
    && (Active(n, p) ==> PhaseOk(n, h, p.value, x, lock))
  }

  predicate CallIn(s: State, n: nat)
    requires n in s.calls
  {
    CallOk(n, s.calls[n], At(s.ctxs, s.calls[n].owner), At(s.slots, s.calls[n].tag), s.lock)
  }

  ghost predicate Linked(s: State) {
    && (forall c | c in s.ctxs && !s.ctxs[c].pc.Idle? ::
          s.ctxs[c].pc.call in s.calls && s.calls[s.ctxs[c].pc.call].owner == c)
    && (forall t | t in s.slots :: s.slots[t].call in s.calls && s.calls[s.slots[t].call].tag == t)
    && (s.lock.Some? ==>
          s.lock.value in s.ctxs && (s.ctxs[s.lock.value].pc.SendCancel? || s.ctxs[s.lock.value].pc.Reblock?))
  }

  ghost predicate Inv(s: State) {
    Linked(s) && forall n | n in s.calls :: CallIn(s, n)
  }

  // A caller's own steps.

  lemma OwnCall(n: nat, h: Call, p: Ctx, x: Option<Slot>, lock: Option<nat>, step: Step)
    requires CallOk(n, h, Some(p), x, lock) && InCall(p, n)
    requires match step
             case Block => p.pc.GotTag?
             case Register => p.pc.Blocking?
             case Send => p.pc.Registered?
             case Wake => p.pc.Switched? && p.status.Runnable?
             case Cancel => p.pc.SendCancel?
             case BlockAgain => p.pc.Reblock?
             case Release => p.pc.Returned?
    ensures var q := NextCtx(p, x, step);
            CallOk(n, NextCall(h, p, step), Some(q), NextSlot(x, p, step), NextLock(lock, h.owner, q, step))
  {
  }

  /** A call does not mind what happens to other slots and contexts. */
  lemma OtherCall(m: nat, h: Call, p: Option<Ctx>, q: Option<Ctx>, x: Option<Slot>, y: Option<Slot>,
                  lock: Option<nat>, next: Option<nat>)
    requires CallOk(m, h, p, x, lock)
    requires q == p || (!Active(m, p) && !Active(m, q))
    requires y == x || (!HasSlot(m, x) && !HasSlot(m, y))
    requires lock == Some(h.owner) && Active(m, p) ==> next == lock
    ensures CallOk(m, h, q, y, next)
  {
  }

  lemma ActingCalls(s: State, c: nat, step: Step, m: nat)
    requires Inv(s) && StepEnabled(s, c, step) && m in s.calls
    ensures CallIn(Acting(s, c, step), m)
  {
    var t := Acting(s, c, step);
    var p := s.ctxs[c];
    var n := p.pc.call;
    var h := s.calls[n];
    assert CallIn(s, n) && CallIn(s, m);
    var x := At(s.slots, h.tag);
    if m == n {
      OwnCall(n, h, p, x, s.lock, step);
    } else {
      var g := s.calls[m];
      ActingElsewhere(s, c, step, m);
      OtherCall(m, g, At(s.ctxs, g.owner), At(t.ctxs, g.owner), At(s.slots, g.tag), At(t.slots, g.tag), s.lock, t.lock);
    }
    hide CallOk, NextCtx, NextSlot, NextCall, NextLock, StepEnabled, Linked;
  }

  lemma ActingElsewhere(s: State, c: nat, step: Step, m: nat)
    requires Linked(s) && StepEnabled(s, c, step) && CallIn(s, s.ctxs[c].pc.call)
    requires m in s.calls && m != s.ctxs[c].pc.call
    ensures var t, g := Acting(s, c, step), s.calls[m];
            && t.calls[m] == g
            && (At(t.ctxs, g.owner) == At(s.ctxs, g.owner)
                || (!Active(m, At(s.ctxs, g.owner)) && !Active(m, At(t.ctxs, g.owner))))
            && (At(t.slots, g.tag) == At(s.slots, g.tag)
                || (!HasSlot(m, At(s.slots, g.tag)) && !HasSlot(m, At(t.slots, g.tag))))
            && (s.lock == Some(g.owner) ==> t.lock == s.lock || !Active(m, At(s.ctxs, g.owner)))
  {
  }

  lemma ActingLinked(s: State, c: nat, step: Step)
    requires Linked(s) && StepEnabled(s, c, step) && CallIn(s, s.ctxs[c].pc.call)
    ensures Linked(Acting(s, c, step))
  {
  }

  // The other steps.

  lemma NextIdStep(s: State, c: nat, tag: nat, n: nat)
    requires Inv(s) && Enabled(s, NextId(c, tag, n))
    ensures Inv(Apply(s, NextId(c, tag, n)))
  {
    var t := Apply(s, NextId(c, tag, n));
    NextIdLinked(s, c, tag, n);
    assert CallIn(t, n);
    assert t.calls.Keys == s.calls.Keys + {n};
    hide Linked, CallIn, Enabled;
    forall m | m in s.calls ensures CallIn(t, m) { NextIdOthers(s, c, tag, n, m); }
  }

  lemma NextIdLinked(s: State, c: nat, tag: nat, n: nat)
    requires Linked(s) && Enabled(s, NextId(c, tag, n))
    ensures Linked(Apply(s, NextId(c, tag, n)))
  {
  }

  lemma NextIdOthers(s: State, c: nat, tag: nat, n: nat, m: nat)
    requires Inv(s) && Enabled(s, NextId(c, tag, n)) && m in s.calls
    ensures m in Apply(s, NextId(c, tag, n)).calls && CallIn(Apply(s, NextId(c, tag, n)), m)
  {
    var t, g := Apply(s, NextId(c, tag, n)), s.calls[m];
    assert CallIn(s, m);
    hide CallOk, Linked;
    OtherCall(m, g, At(s.ctxs, g.owner), At(t.ctxs, g.owner), At(s.slots, g.tag), At(t.slots, g.tag), s.lock, t.lock);
  }

  /** Waking or killing a context changes nothing its calls rely on. */
  lemma WokenCall(n: nat, h: Call, p: Ctx, q: Ctx, x: Option<Slot>, lock: Option<nat>)
    requires CallOk(n, h, Some(p), x, lock) && q.pc == p.pc && q.holds == p.holds && q.status.Runnable?
    ensures CallOk(n, h, Some(q), x, lock)
  {
  }

  lemma OutsideStep(s: State, act: Action)
    requires Inv(s) && Enabled(s, act) && (act.Signal? || act.Kill? || act.Exit?)
    ensures Inv(Apply(s, act))
  {
    var t := Apply(s, act);
    forall m | m in t.calls ensures CallIn(t, m) {
      var g := s.calls[m];
      var x := At(s.slots, g.tag);
      assert CallIn(s, m);
      if g.owner != act.c || g.owner !in s.ctxs {
      } else if act.Exit? {
        OtherCall(m, g, At(s.ctxs, g.owner), None, x, x, s.lock, t.lock);
      } else {
        WokenCall(m, g, s.ctxs[g.owner], t.ctxs[g.owner], x, s.lock);
      }
    }
    assert Linked(t) by { hide CallIn; }
    hide *;
  }

  /** A response to a waiting call, whose owner may be gone. */
  lemma AnsweredCall(n: nat, h: Call, p: Option<Ctx>, x: Slot, r: Response)
    requires CallOk(n, h, p, Some(x), None) && x.Waiting? && x.call == n
    ensures CallOk(n, h.(responses := h.responses + 1, unmaps := h.unmaps + if x.handedOver then 1 else 0),
                   if p.Some? then Some(Unblocked(p.value)) else None,
                   if p.Some? then Some(Responded(n, Translated(r, x.canceling))) else None, None)
  {
  }

  lemma RespondStep(s: State, tag: nat, r: Response)
    requires Inv(s) && s.lock.None?
    ensures Inv(Responding(s, tag, r))
  {
    if tag in s.slots && s.slots[tag].Waiting? {
      RespondLinked(s, tag, r);
      var t := Responding(s, tag, r);
      hide Responding, CallIn, Linked;
      forall m | m in t.calls ensures CallIn(t, m) { RespondedCalls(s, tag, r, m); }
    }
  }

  lemma RespondLinked(s: State, tag: nat, r: Response)
    requires Linked(s) && s.lock.None?
    ensures Linked(Responding(s, tag, r)) && Responding(s, tag, r).calls.Keys == s.calls.Keys
  {
  }

  lemma RespondedCalls(s: State, tag: nat, r: Response, m: nat)
    requires Inv(s) && s.lock.None? && tag in s.slots && s.slots[tag].Waiting? && m in s.calls
    ensures m in Responding(s, tag, r).calls && CallIn(Responding(s, tag, r), m)
  {
    var g := s.calls[m];
    assert CallIn(s, m) && s.slots[tag].call in s.calls && s.calls[s.slots[tag].call].tag == tag;
    hide CallOk, Linked;
    if m == s.slots[tag].call {
      AnsweredCall(m, g, At(s.ctxs, g.owner), s.slots[tag], r);
    } else {
      OtherResponded(s, tag, r, m);
    }
  }

  lemma OtherResponded(s: State, tag: nat, r: Response, m: nat)
    requires s.lock.None? && tag in s.slots && s.slots[tag].Waiting? && m in s.calls && CallIn(s, m)
    requires s.slots[tag].call in s.calls && m != s.slots[tag].call
    ensures m in Responding(s, tag, r).calls && CallIn(Responding(s, tag, r), m)
  {
    hide CallOk;
    var t, g := Responding(s, tag, r), s.calls[m];
    var x, y := At(s.slots, g.tag), At(t.slots, g.tag);
    OtherCall(m, g, At(s.ctxs, g.owner), At(s.ctxs, g.owner), x, y, s.lock, t.lock);
    if g.owner in s.ctxs && g.owner == s.calls[s.slots[tag].call].owner {
      WokenCall(m, g, s.ctxs[g.owner], t.ctxs[g.owner], y, s.lock);
    }
  }

  lemma StepKeeps(s: State, act: Action)
    requires Inv(s) && Enabled(s, act)
    ensures Inv(Apply(s, act))
  {
    match act {
      case NextId(c, tag, n) => NextIdStep(s, c, tag, n);
      case Respond(tag, r) => RespondStep(s, tag, r);
      case Own(c, step) =>
        forall m | m in s.calls { ActingCalls(s, c, step, m); }
        ActingLinked(s, c, step);
        assert Acting(s, c, step).calls.Keys == s.calls.Keys;
      case _ => OutsideStep(s, act);
    }
    hide CallIn, Linked;
  }

  // Runs.

  ghost predicate Initial(s: State) {
    s.slots == map[] && s.calls == map[] && s.lock == None && forall c | c in s.ctxs :: s.ctxs[c].pc.Idle?
  }

  ghost predicate Execution(states: seq<State>, acts: seq<Action>) {
    && |states| == |acts| + 1 && Initial(states[0])
    && forall i | 0 <= i < |acts| :: Enabled(states[i], acts[i]) && states[i + 1] == Apply(states[i], acts[i])
  }

  lemma {:induction false} RunKeeps(states: seq<State>, acts: seq<Action>, i: nat)
    requires Execution(states, acts) && i < |states|
    ensures Inv(states[i])
  {
    if i > 0 {
      RunKeeps(states, acts, i - 1);
      StepKeeps(states[i - 1], acts[i - 1]);
      hide *;
    }
  }

  /**
   Every call of every run: at most one response takes effect, at most one cancellation is sent and only
   after the request, the borrowed span is with exactly one of caller and callee until its only unmapping,
   a response never lies in the slot of a blocked caller, whose slot is still waiting once it has switched, no
   caller finds its slot missing, and EINTR is answered only to a caller that sent a cancellation.
   */
  lemma CallsSound(states: seq<State>, acts: seq<Action>, i: nat, n: nat)
    requires Execution(states, acts) && i < |states| && n in states[i].calls
    ensures var s, h := states[i], states[i].calls[n];
            var p, x := At(s.ctxs, h.owner), At(s.slots, h.tag);
            && h.responses <= 1 && h.cancels <= h.requests <= 1 && SpanOk(n, h, p, x)
            && (Active(n, p) && p.value.status.Blocked? && HasSlot(n, x) ==> !x.value.Responded?)
            && (Active(n, p) && p.value.pc.Switched? && p.value.status.Blocked? ==> HasSlot(n, x) && x.value.Waiting?)
            && !(Active(n, p) && p.value.pc == Returned(n, BadFd))
            && (Active(n, p) && p.value.pc == Returned(n, Answer(Regular(Eintr))) ==>
                  h.cancels == 1 && h.responses == 1)
  {
    RunKeeps(states, acts, i);
    assert CallIn(states[i], n);
    hide Execution, Linked;
  }

  // The answer a caller gets is the one the scheme gave.

  /**
   Response `r`, given while the call was or was not being cancelled, is response `a` to the caller: ECANCELED
   confirms a cancellation, EINTR means nothing without one, and everything else is passed on.
   */
  predicate Means(r: Response, canceling: bool, a: Response) {
    && (r == Regular(Ecanceled) && canceling ==> a == Regular(Eintr))
    && (r == Regular(Eintr) && !canceling ==> a == Regular(Eio))
    && (!(r == Regular(Ecanceled) && canceling) && !(r == Regular(Eintr) && !canceling) ==> a == r)
  }

  /** The step is a response to call `n`, which waits, and means `a`. */
  predicate Answers(s: State, act: Action, n: nat, a: Response) {
    && act.Respond? && n in s.calls && s.calls[n].tag == act.tag && act.tag in s.slots
    && var x := s.slots[act.tag]; x.Waiting? && x.call == n && Means(act.response, x.canceling, a)
  }

  lemma SlotAnswer(s: State, act: Action, tag: nat, n: nat, a: Response)
    requires Inv(s) && Enabled(s, act) && At(Apply(s, act).slots, tag) == Some(Responded(n, a))
    ensures At(s.slots, tag) == Some(Responded(n, a)) || Answers(s, act, n, a)
  {
    hide CallIn;
  }

  lemma CallerAnswer(s: State, act: Action, c: nat, n: nat, a: Response)
    requires Inv(s) && Enabled(s, act) && c in Apply(s, act).ctxs && Apply(s, act).ctxs[c].pc == Returned(n, Answer(a))
    ensures c in s.ctxs && n in s.calls
    ensures s.ctxs[c].pc == Returned(n, Answer(a)) || At(s.slots, s.calls[n].tag) == Some(Responded(n, a))
  {
    if act == Own(c, Wake) {
      assert CallIn(s, s.ctxs[c].pc.call);
      WakeAnswer(s, c, n, a);
    } else {
      SamePc(s, act, c, n, a);
    }
    hide Apply, Enabled, CallIn;
  }

  lemma WakeAnswer(s: State, c: nat, n: nat, a: Response)
    requires Enabled(s, Own(c, Wake)) && CallIn(s, s.ctxs[c].pc.call) && s.calls[s.ctxs[c].pc.call].owner == c
    requires Apply(s, Own(c, Wake)).ctxs[c].pc == Returned(n, Answer(a))
    ensures n in s.calls && At(s.slots, s.calls[n].tag) == Some(Responded(n, a))
  {
  }

  lemma SamePc(s: State, act: Action, c: nat, n: nat, a: Response)
    requires Enabled(s, act) && act != Own(c, Wake)
    requires c in Apply(s, act).ctxs && Apply(s, act).ctxs[c].pc == Returned(n, Answer(a))
    ensures c in s.ctxs && s.ctxs[c].pc == Returned(n, Answer(a))
  {
  }

  lemma StepAt(states: seq<State>, acts: seq<Action>, i: nat)
    requires Execution(states, acts) && i < |acts|
    ensures Enabled(states[i], acts[i]) && states[i + 1] == Apply(states[i], acts[i])
  {
    hide Enabled, Apply, Initial;
  }

  lemma NoAnswerYet(states: seq<State>, acts: seq<Action>, c: nat, tag: nat, n: nat, a: Response)
    requires Execution(states, acts)
    ensures At(states[0].slots, tag) != Some(Responded(n, a))
    ensures c in states[0].ctxs ==> states[0].ctxs[c].pc != Returned(n, Answer(a))
  {
    hide Enabled, Apply;
  }

  /** A response to call `n` that means `a` was given before step `i`. */
  ghost predicate AnsweredBefore(states: seq<State>, acts: seq<Action>, i: nat, n: nat, a: Response)
    requires i <= |acts| && i <= |states|
  {
    exists k | 0 <= k < i :: Answers(states[k], acts[k], n, a)
  }

  lemma AnsweredNow(states: seq<State>, acts: seq<Action>, i: nat, n: nat, a: Response)
    requires i < |acts| && i < |states|
    requires AnsweredBefore(states, acts, i, n, a) || Answers(states[i], acts[i], n, a)
    ensures AnsweredBefore(states, acts, i + 1, n, a)
  {
    hide Answers;
  }

  lemma {:induction false} SlotAnswered(states: seq<State>, acts: seq<Action>, i: nat, tag: nat, n: nat, a: Response)
    requires Execution(states, acts) && i <= |acts| < |states| && At(states[i].slots, tag) == Some(Responded(n, a))
    ensures AnsweredBefore(states, acts, i, n, a)
  {
    hide *;
    if i == 0 {
      NoAnswerYet(states, acts, 0, tag, n, a);
    } else {
      RunKeeps(states, acts, i - 1);
      StepAt(states, acts, i - 1);
      SlotAnswer(states[i - 1], acts[i - 1], tag, n, a);
      if At(states[i - 1].slots, tag) == Some(Responded(n, a)) { SlotAnswered(states, acts, i - 1, tag, n, a); }
      AnsweredNow(states, acts, i - 1, n, a);
    }
  }

  /** In every run, an answer a caller returns with is what the scheme's response to that very call means. */
  lemma {:induction false} AnswerIsResponse(states: seq<State>, acts: seq<Action>, i: nat, c: nat, n: nat, a: Response)
    requires Execution(states, acts) && i <= |acts| < |states|
    requires c in states[i].ctxs && states[i].ctxs[c].pc == Returned(n, Answer(a))
    ensures AnsweredBefore(states, acts, i, n, a)
  {
    hide *;
    if i == 0 {
      NoAnswerYet(states, acts, c, 0, n, a);
    } else {
      RunKeeps(states, acts, i - 1);
      StepAt(states, acts, i - 1);
      CallerAnswer(states[i - 1], acts[i - 1], c, n, a);
      if states[i - 1].ctxs[c].pc == Returned(n, Answer(a)) {
        AnswerIsResponse(states, acts, i - 1, c, n, a);
      } else {
        SlotAnswered(states, acts, i - 1, states[i - 1].calls[n].tag, n, a);
      }
      AnsweredNow(states, acts, i - 1, n, a);
    }
  }

  // Whole calls, when nothing else comes between their steps.

  predicate Leads(s: State, act: Action, t: State) { Enabled(s, act) && Apply(s, act) == t }

  /** A caller gets a tag, marks itself blocked, registers and sends: it sleeps, and its slot waits. */
  lemma CallSends(s: State, c: nat, tag: nat, n: nat) returns (s1: State, s2: State, s3: State, s4: State)
    requires Inv(s) && s.lock.None? && c in s.ctxs && s.ctxs[c].pc.Idle? && s.ctxs[c].status.Runnable?
    requires tag !in s.slots && n !in s.calls
    ensures Leads(s, NextId(c, tag, n), s1) && Leads(s1, Own(c, Block), s2)
    ensures Leads(s2, Own(c, Register), s3) && Leads(s3, Own(c, Send), s4)
    ensures s4 == State(s.ctxs[c := Ctx(Blocked, s.ctxs[c].killed, Switched(n), true)],
                        s.slots[tag := Waiting(n, false, false)], s.calls[n := Call(c, tag, 1, 0, 0, 0)], None)
  {
    hide Inv;
    s1 := Apply(s, NextId(c, tag, n));
    s2 := Apply(s1, Own(c, Block));
    s3 := Apply(s2, Own(c, Register));
    s4 := Apply(s3, Own(c, Send));
  }

  /** A caller that sleeps on a call, or has been woken from it. */
  predicate Sleeps(s: State, c: nat, n: nat, canceling: bool) {
    && s.lock.None? && c in s.ctxs && s.ctxs[c].pc == Switched(n) && n in s.calls && s.calls[n].owner == c
    && At(s.slots, s.calls[n].tag) == Some(Waiting(n, canceling, false))
  }

  lemma SleeperFacts(s: State, c: nat, n: nat, canceling: bool)
    requires Inv(s) && Sleeps(s, c, n, canceling)
    ensures s.ctxs[c].holds && s.calls[n].unmaps == 0 && s.calls[n].cancels == if canceling then 1 else 0
  {
    assert CallIn(s, n);
    hide Linked;
  }

  lemma ResponseArrives(s: State, c: nat, n: nat, canceling: bool, r: Response, a: Response) returns (s1: State)
    requires Sleeps(s, c, n, canceling) && Means(r, canceling, a)
    ensures Leads(s, Respond(s.calls[n].tag, r), s1)
    ensures s1 == s.(ctxs := s.ctxs[c := Unblocked(s.ctxs[c])], slots := s.slots[s.calls[n].tag := Responded(n, a)],
                     calls := s.calls[n := s.calls[n].(responses := s.calls[n].responses + 1)])
  {
    s1 := Apply(s, Respond(s.calls[n].tag, r));
  }

  /** A response wakes the caller, who returns with it, takes the slot away and unmaps the span. */
  lemma CallReturns(s: State, c: nat, n: nat, canceling: bool, r: Response, a: Response)
    returns (s1: State, s2: State, s3: State)
    requires Inv(s) && Sleeps(s, c, n, canceling) && Means(r, canceling, a)
    ensures Leads(s, Respond(s.calls[n].tag, r), s1) && Leads(s1, Own(c, Wake), s2) && Leads(s2, Own(c, Release), s3)
    ensures c in s2.ctxs && s2.ctxs[c].pc == Returned(n, Answer(a))
    ensures c in s3.ctxs && s3.ctxs[c].pc == Idle && !s3.ctxs[c].holds
    ensures s3.slots == s.slots - {s.calls[n].tag} && n in s3.calls && s3.calls[n].unmaps == 1
  {
    SleeperFacts(s, c, n, canceling);
    s1 := ResponseArrives(s, c, n, canceling, r, a);
    hide Inv, Responding, Means;
    s2 := Apply(s1, Own(c, Wake));
    s3 := Apply(s2, Own(c, Release));
  }

  /** A caller that is woken early holds the table's lock until it sleeps again. */
  lemma SignalWakes(s: State, c: nat, n: nat, canceling: bool) returns (s1: State, s2: State)
    requires Inv(s) && Sleeps(s, c, n, canceling) && !s.ctxs[c].killed
    ensures Leads(s, Signal(c), s1) && Leads(s1, Own(c, Wake), s2)
    ensures s2 == s.(ctxs := s.ctxs[c := Ctx(Runnable, false, if canceling then Reblock(n) else SendCancel(n), true)],
                     slots := s.slots[s.calls[n].tag := Waiting(n, true, false)], lock := Some(c))
  {
    SleeperFacts(s, c, n, canceling);
    hide Inv;
    s1 := Apply(s, Signal(c));
    s2 := Apply(s1, Own(c, Wake));
    assert s2.calls == s.calls;
  }

  /** A signal makes the caller send a cancellation, unless it has sent one, and sleep again. */
  lemma SignalCancels(s: State, c: nat, n: nat, canceling: bool)
    returns (s1: State, s2: State, s3: State, s4: State)
    requires Inv(s) && Sleeps(s, c, n, canceling) && !s.ctxs[c].killed
    ensures Leads(s, Signal(c), s1) && Leads(s1, Own(c, Wake), s2)
    ensures if canceling then s3 == s2 else Leads(s2, Own(c, Cancel), s3)
    ensures Leads(s3, Own(c, BlockAgain), s4)
    ensures Sleeps(s4, c, n, true) && s4.ctxs[c].status.Blocked? && s4.calls[n].cancels == 1
  {
    SleeperFacts(s, c, n, canceling);
    s1, s2 := SignalWakes(s, c, n, canceling);
    hide Inv;
    s3 := if canceling then s2 else Apply(s2, Own(c, Cancel));
    s4 := Apply(s3, Own(c, BlockAgain));
  }

  /** A killed caller returns at once and may exit, leaving its span to the scheme. */
  lemma KillReturns(s: State, c: nat, n: nat, canceling: bool)
    returns (s1: State, s2: State, s3: State, s4: State)
    requires Inv(s) && Sleeps(s, c, n, canceling)
    ensures Leads(s, Kill(c), s1) && Leads(s1, Own(c, Wake), s2) && Leads(s2, Own(c, Release), s3)
    ensures Leads(s3, Exit(c), s4) && c in s2.ctxs && s2.ctxs[c].pc == Returned(n, Outcome.Killed)
    ensures s4 == s.(ctxs := s.ctxs - {c}, slots := s.slots[s.calls[n].tag := Waiting(n, true, true)])
  {
    SleeperFacts(s, c, n, canceling);
    hide Inv;
    s1 := Apply(s, Kill(c));
    s2 := Apply(s1, Own(c, Wake));
    s3 := Apply(s2, Own(c, Release));
    s4 := Apply(s3, Exit(c));
    assert s4.calls == s.calls && s4.ctxs == s.ctxs - {c};
  }

  /** The scheme's response to a call whose caller is gone unmaps the span and takes the slot away. */
  lemma ResponseUnmaps(s: State, n: nat, r: Response) returns (s1: State)
    requires Inv(s) && s.lock.None? && n in s.calls && s.calls[n].owner !in s.ctxs
    requires At(s.slots, s.calls[n].tag) == Some(Waiting(n, true, true))
    ensures Leads(s, Respond(s.calls[n].tag, r), s1)
    ensures s1.slots == s.slots - {s.calls[n].tag} && n in s1.calls && s1.calls[n].unmaps == 1 && s1.ctxs == s.ctxs
  {
    assert CallIn(s, n);
    hide Linked;
    s1 := Apply(s, Respond(s.calls[n].tag, r));
  }
}
