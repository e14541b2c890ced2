/**
 The TLB shootdown protocol (src/context/memory.rs, src/percpu.rs): any number of CPUs switch
 between address spaces, cache translations, and flush each other before frames are freed.
 */
module TlbShootdown {
  import opened Wrappers
  import opened Helpers

  /** A page table entry as a CPU caches it. */
  datatype Translation = Translation(page: nat, frame: nat, write: bool)

  /** Where a CPU stands in `maybe_handle_tlb_shootdown`. */
  datatype Handler = Idle | Swapped | Invalidated

  datatype Pc =
    | Run
    // Switching address spaces: the old space is left under its read lock, the new one entered under its own.
    | WantOld(next: Option<nat>)
    | HoldOld(next: Option<nat>)
    | Cleared(next: Option<nat>)
    | Detached(next: Option<nat>)
    | WantNew
    | HoldNew
    | BitSet
    | Loaded
    // Changing a space under its write lock, and flushing.
    | WantWrite(space: nat)
    | Writing(space: nat)
    | Flagging(space: nat, todo: set<nat>, sent: nat)
    | Waiting(space: nat, sent: nat)

  datatype Cpu = Cpu(
    cur: Option<nat>,          // current_addrsp
    wants: bool,               // wants_tlb_shootdown
    loaded: Option<nat>,       // the page table the MMU walks
    tlb: set<Translation>,
    handler: Handler,
    pc: Pc)

  datatype Space = Space(
    usedBy: set<nat>,
    ack: nat,                  // tlb_ack
    acked: set<nat>,           // who acked since the flush began (history)
    pt: set<Translation>,
    stale: set<Translation>)   // removed, and not flushed yet

  datatype State = State(cpus: map<nat, Cpu>, spaces: map<nat, Space>)

  datatype Action =
    | Fill(t: Translation) | Evict(t: Translation)
    | Swap | Invalidate | Ack
    | BeginSwitch(next: Option<nat>) | ReadOld | ClearBit | DropOld | SetCurrent
    | LoadEmpty | ReadNew | SetBit | LoadTable | DropNew
    | BeginWrite(space: nat) | AcquireWrite | Map(t: Translation) | Unmap(t: Translation)
    | BeginFlush | Flag(target: nat) | FlushLocal | Free | EndWrite

  /** The space whose lock a CPU holds for reading, or for writing. */
  function Reads(p: Cpu): Option<nat> {
    if p.pc.HoldOld? || p.pc.Cleared? || p.pc.HoldNew? || p.pc.BitSet? || p.pc.Loaded? then p.cur else None
  }

  function Writes(p: Cpu): Option<nat> {
    if p.pc.Writing? || p.pc.Flagging? || p.pc.Waiting? then Some(p.pc.space) else None
  }

  predicate NoWriter(s: State, a: nat) {
    forall c | c in s.cpus :: Writes(s.cpus[c]) != Some(a)
  }

  predicate NoReader(s: State, a: nat) {
    forall c | c in s.cpus :: Reads(s.cpus[c]) != Some(a)
  }

  /** The places where the code polls for shootdown requests, or runs with interrupts on. */
  predicate Polls(pc: Pc) {
    pc.Run? || pc.WantOld? || pc.WantNew? || pc.WantWrite? || pc.Waiting? || pc.Flagging?
  }

  predicate Enabled(s: State, c: nat, act: Action) {
    && c in s.cpus
    && var p := s.cpus[c];
       var curOk := p.cur.Some? && p.cur.value in s.spaces;
       if act.Fill? then p.loaded.Some? && p.loaded.value in s.spaces && act.t in s.spaces[p.loaded.value].pt
       else if act.Evict? then true
       else if act.Invalidate? then p.handler == Swapped
       else if act.Ack? then p.handler == Invalidated && (p.cur.Some? ==> curOk)
       else
         && p.handler == Idle
         && match act
            case Swap => Polls(p.pc) && p.wants
            case BeginSwitch(next) =>
              p.pc.Run? && next != p.cur && (next.Some? ==> next.value in s.spaces)
            case ReadOld => p.pc.WantOld? && curOk && NoWriter(s, p.cur.value)
            case ClearBit => p.pc.HoldOld? && curOk
            case DropOld => p.pc.Cleared?
            case SetCurrent => p.pc.Detached?
            case LoadEmpty => p.pc.WantNew? && p.cur.None?
            case ReadNew => p.pc.WantNew? && curOk && NoWriter(s, p.cur.value)
            case SetBit => p.pc.HoldNew? && curOk
            case LoadTable => p.pc.BitSet?
            case DropNew => p.pc.Loaded?
            case BeginWrite(a) => p.pc.Run? && a in s.spaces
            case AcquireWrite => p.pc.WantWrite? && NoWriter(s, p.pc.space) && NoReader(s, p.pc.space)
            case Map(t) => p.pc.Writing? && p.pc.space in s.spaces
            case Unmap(t) => p.pc.Writing? && p.pc.space in s.spaces && t in s.spaces[p.pc.space].pt
            case BeginFlush => p.pc.Writing? && p.pc.space in s.spaces
            case Flag(d) => p.pc.Flagging? && d in p.pc.todo && d in s.cpus
            case FlushLocal => p.pc.Flagging? && p.pc.todo == {} && p.pc.space in s.spaces
            case Free => p.pc.Waiting? && p.pc.space in s.spaces && s.spaces[p.pc.space].ack >= p.pc.sent
            case EndWrite => p.pc.Writing? && p.pc.space in s.spaces && s.spaces[p.pc.space].stale == {}
            case _ => false
  }

  /** The acting CPU's own record after the step. */
  function NextCpu(s: State, c: nat, act: Action): Cpu
    requires Enabled(s, c, act)
  {
    var p := s.cpus[c];
    match act
    case Fill(t) => p.(tlb := p.tlb + {t})
    case Evict(t) => p.(tlb := p.tlb - {t})
    case Swap => p.(wants := false, handler := Swapped)
    case Invalidate => p.(tlb := {}, handler := Invalidated)
    case Ack => p.(handler := Idle)
    case BeginSwitch(next) => p.(pc := if p.cur.Some? then WantOld(next) else Detached(next))
    case ReadOld => p.(pc := HoldOld(p.pc.next))
    case ClearBit => p.(pc := Cleared(p.pc.next))
    case DropOld => p.(pc := Detached(p.pc.next))
    case SetCurrent => p.(cur := p.pc.next, pc := WantNew)
    case LoadEmpty => p.(loaded := None, tlb := {}, pc := Run)
    case ReadNew => p.(pc := HoldNew)
    case SetBit => p.(pc := BitSet)
    case LoadTable => p.(loaded := p.cur, tlb := {}, pc := Loaded)
    case DropNew => p.(pc := Run)
    case BeginWrite(a) => p.(pc := WantWrite(a))
    case AcquireWrite => p.(pc := Writing(p.pc.space))
    case Map(_) => p
    case Unmap(_) => p
    case BeginFlush => p.(pc := Flagging(p.pc.space, s.spaces[p.pc.space].usedBy - {c}, 0))
    case Flag(d) => if s.cpus[d].wants then p else p.(pc := Flagging(p.pc.space, p.pc.todo - {d}, p.pc.sent + 1))
    case FlushLocal =>
      var q := p.(pc := Waiting(p.pc.space, p.pc.sent));
      if c in s.spaces[p.pc.space].usedBy then q.(tlb := {}) else q
    case Free => p.(pc := Writing(p.pc.space))
    case EndWrite => p.(pc := Run)
  }

  /** The space a step writes to: the CPU's current one, or the one it holds the write lock of. */
  function Touched(s: State, c: nat, act: Action): Option<nat>
    requires Enabled(s, c, act)
  {
    if act.Ack? || act.ClearBit? || act.SetBit? then s.cpus[c].cur
    else if act.Map? || act.Unmap? || act.BeginFlush? || act.Free? then Some(s.cpus[c].pc.space)
    else None
  }

  function NextSpace(x: Space, c: nat, act: Action): Space {
    match act
    case Ack => x.(ack := x.ack + 1, acked := x.acked + {c})
    case ClearBit => x.(usedBy := x.usedBy - {c})
    case SetBit => x.(usedBy := x.usedBy + {c})
    case Map(t) => x.(pt := x.pt + {t})
    case Unmap(t) => x.(pt := x.pt - {t}, stale := x.stale + {t})
    case BeginFlush => x.(ack := 0, acked := {})
    case Free => x.(stale := {})
    case _ => x
  }

  /** `swap(true)` on the target's flag; the initiator tries again when it was raised already. */
  function Raise(cpus: map<nat, Cpu>, act: Action): map<nat, Cpu> {
    if act.Flag? && act.target in cpus then cpus[act.target := cpus[act.target].(wants := true)] else cpus
  }

  function Apply(s: State, c: nat, act: Action): State
    requires Enabled(s, c, act)
  {
    var a := Touched(s, c, act);
    State(
      Raise(s.cpus[c := NextCpu(s, c, act)], act),
      if a.Some? && a.value in s.spaces then s.spaces[a.value := NextSpace(s.spaces[a.value], c, act)] else s.spaces)
  }

  // The invariant.

  predicate Attached(pc: Pc) {
    !(pc.Cleared? || pc.Detached? || pc.WantNew? || pc.HoldNew?)
  }

  predicate Known(s: State, x: Option<nat>) {
    x.Some? ==> x.value in s.spaces
  }

  predicate CpuClosed(s: State, p: Cpu) {
    && Known(s, p.cur) && Known(s, p.loaded)
    && (p.pc.WantOld? || p.pc.HoldOld? || p.pc.Cleared? || p.pc.Detached? ==> Known(s, p.pc.next))
    && (p.pc.WantWrite? || p.pc.Writing? || p.pc.Flagging? || p.pc.Waiting? ==> p.pc.space in s.spaces)
    && (p.pc.WantOld? || p.pc.HoldOld? || p.pc.Cleared? || p.pc.HoldNew? || p.pc.BitSet? || p.pc.Loaded? ==>
          p.cur.Some?)
  }

  /** Every space a CPU names exists. */
  ghost predicate Closed(s: State) {
    forall c | c in s.cpus :: CpuClosed(s, s.cpus[c])
  }

  predicate Uses(p: Cpu, a: nat) {
    p.cur == Some(a) && Attached(p.pc)
  }

  /** A `used_by` bit is set exactly while the space is that CPU's current one, except inside a switch. */
  ghost predicate BitsOk(s: State) {
    forall a, c | a in s.spaces ::
      c in s.spaces[a].usedBy <==> c in s.cpus && Uses(s.cpus[c], a)
  }

  /** Two CPUs never hold a lock in conflicting ways. */
  predicate Compatible(p: Cpu, q: Cpu) {
    Writes(p).Some? ==> Writes(q) != Writes(p) && Reads(q) != Writes(p)
  }

  ghost predicate LocksOk(s: State) {
    forall c, d | c in s.cpus && d in s.cpus && c != d :: Compatible(s.cpus[c], s.cpus[d])
  }

  /** What a CPU using a space may have cached. */
  predicate CacheOk(p: Cpu, x: Space) {
    Attached(p.pc) && !p.pc.BitSet? ==> p.loaded == p.cur && p.tlb <= x.pt + x.stale
  }

  ghost predicate CachesOk(s: State) {
    forall c | c in s.cpus && s.cpus[c].cur.Some? && s.cpus[c].cur.value in s.spaces ::
      CacheOk(s.cpus[c], s.spaces[s.cpus[c].cur.value])
  }

  predicate InHandler(p: Cpu) {
    p.wants || p.handler != Idle
  }

  predicate Flushing(p: Cpu) {
    p.pc.Flagging? || p.pc.Waiting?
  }

  /** The CPUs that `w`'s flush has flagged so far. */
  function Flagged(x: Space, w: nat, p: Cpu): set<nat> {
    x.usedBy - {w} - if p.pc.Flagging? then p.pc.todo else {}
  }

  /** A flagged CPU still has the request, or has acked; from its invalidation on it caches nothing stale. */
  predicate FlaggedOk(x: Space, d: nat, q: Cpu) {
    && (InHandler(q) <==> d !in x.acked)
    && (q.handler == Invalidated || d in x.acked ==> q.tlb <= x.pt)
  }

  predicate CountsOk(x: Space, w: nat, p: Cpu)
    requires Flushing(p)
  {
    && (p.pc.Flagging? ==> p.pc.todo <= x.usedBy - {w})
    && p.pc.sent == |Flagged(x, w, p)|
    && x.ack == |x.acked| && x.acked <= Flagged(x, w, p)
    && (p.pc.Waiting? && w in x.usedBy ==> p.tlb <= x.pt)
  }

  ghost predicate FlushOk(s: State, w: nat)
    requires w in s.cpus && Flushing(s.cpus[w]) && s.cpus[w].pc.space in s.spaces
  {
    var x := s.spaces[s.cpus[w].pc.space];
    && CountsOk(x, w, s.cpus[w])
    && forall d | d in Flagged(x, w, s.cpus[w]) && d in s.cpus :: FlaggedOk(x, d, s.cpus[d])
  }

  ghost predicate FlushesOk(s: State) {
    forall w | w in s.cpus && Flushing(s.cpus[w]) :: s.cpus[w].pc.space in s.spaces && FlushOk(s, w)
  }

  /** CPU `w` flushes the space `c` is using, and has flagged `c`. */
  predicate Requests(s: State, w: nat, c: nat)
    requires c in s.cpus
  {
    && w in s.cpus && Flushing(s.cpus[w]) && s.cpus[c].cur == Some(s.cpus[w].pc.space)
    && s.cpus[w].pc.space in s.spaces && c in Flagged(s.spaces[s.cpus[w].pc.space], w, s.cpus[w])
  }

  ghost predicate RequestsOk(s: State) {
    forall c | c in s.cpus && InHandler(s.cpus[c]) ::
      !(s.cpus[c].wants && s.cpus[c].handler != Idle) && exists w :: Requests(s, w, c)
  }

  ghost predicate Inv(s: State) {
    Closed(s) && BitsOk(s) && LocksOk(s) && CachesOk(s) && FlushesOk(s) && RequestsOk(s)
  }

  // The step, one record at a time.

  /** Everybody else keeps their record, but for a raised flag. */
  lemma OthersKept(s: State, c: nat, act: Action, d: nat)
    requires Enabled(s, c, act) && d in s.cpus && d != c
    ensures d in Apply(s, c, act).cpus
    ensures Apply(s, c, act).cpus[d] == if act == Flag(d) then s.cpus[d].(wants := true) else s.cpus[d]
  {
    hide Enabled, NextCpu, NextSpace, Touched;
  }

  lemma OwnStep(s: State, c: nat, act: Action)
    requires Enabled(s, c, act) && act != Flag(c)
    ensures c in s.cpus && c in Apply(s, c, act).cpus && Apply(s, c, act).cpus[c] == NextCpu(s, c, act)
    ensures Apply(s, c, act).cpus.Keys == s.cpus.Keys && Apply(s, c, act).spaces.Keys == s.spaces.Keys
  {
    hide NextCpu, NextSpace, Touched;
  }

  lemma SpaceStep(s: State, c: nat, act: Action, a: nat)
    requires Enabled(s, c, act) && a in s.spaces
    ensures a in Apply(s, c, act).spaces
    ensures Touched(s, c, act) == Some(a) ==> Apply(s, c, act).spaces[a] == NextSpace(s.spaces[a], c, act)
    ensures Touched(s, c, act) != Some(a) ==> Apply(s, c, act).spaces[a] == s.spaces[a]
  {
    hide Enabled, NextCpu, NextSpace, Touched;
  }

  /** The initiator never flags itself. */
  lemma NotSelf(s: State, c: nat, act: Action)
    requires Inv(s) && Enabled(s, c, act)
    ensures act != Flag(c)
  {
    if act.Flag? { assert FlushOk(s, c); }
  }

  // Closed.

  lemma OwnClosed(s: State, c: nat, act: Action)
    requires Enabled(s, c, act) && CpuClosed(s, s.cpus[c])
    ensures CpuClosed(s, NextCpu(s, c, act))
  {
  }

  lemma ClosedStep(s: State, c: nat, act: Action)
    requires Closed(s) && Enabled(s, c, act) && act != Flag(c)
    ensures Closed(Apply(s, c, act))
  {
    hide Enabled, NextCpu, NextSpace, Touched, Apply;
    OwnStep(s, c, act);
    OwnClosed(s, c, act);
    forall d | d in s.cpus && d != c { OthersKept(s, c, act, d); }
  }

  // BitsOk.

  lemma OwnBit(s: State, c: nat, act: Action, a: nat)
    requires Enabled(s, c, act) && a in s.spaces && CpuClosed(s, s.cpus[c])
    requires c in s.spaces[a].usedBy <==> Uses(s.cpus[c], a)
    ensures c in (if Touched(s, c, act) == Some(a) then NextSpace(s.spaces[a], c, act) else s.spaces[a]).usedBy
            <==> Uses(NextCpu(s, c, act), a)
  {
  }

  lemma OtherBits(x: Space, c: nat, act: Action, d: nat)
    requires d != c
    ensures d in NextSpace(x, c, act).usedBy <==> d in x.usedBy
  {
  }

  lemma BitsStep(s: State, c: nat, act: Action)
    requires Closed(s) && BitsOk(s) && Enabled(s, c, act) && act != Flag(c)
    ensures BitsOk(Apply(s, c, act))
  {
    hide Enabled, NextCpu, NextSpace, Touched, Apply, CpuClosed;
    OwnStep(s, c, act);
    var t := Apply(s, c, act);
    forall a, d | a in t.spaces ensures d in t.spaces[a].usedBy <==> d in t.cpus && Uses(t.cpus[d], a) {
      SpaceStep(s, c, act, a);
      if d == c {
        OwnBit(s, c, act, a);
      } else {
        OtherBits(s.spaces[a], c, act, d);
        if d in s.cpus { OthersKept(s, c, act, d); }
      }
    }
  }

  // LocksOk.

  lemma OwnLocks(s: State, c: nat, act: Action)
    requires Enabled(s, c, act) && CpuClosed(s, s.cpus[c])
    ensures var p := NextCpu(s, c, act);
            && (Writes(p).None? || Writes(p) == Writes(s.cpus[c])
                || (NoWriter(s, Writes(p).value) && NoReader(s, Writes(p).value)))
            && (Reads(p).None? || Reads(p) == Reads(s.cpus[c]) || NoWriter(s, Reads(p).value))
  {
  }

  lemma LocksStep(s: State, c: nat, act: Action)
    requires Closed(s) && LocksOk(s) && Enabled(s, c, act) && act != Flag(c)
    ensures LocksOk(Apply(s, c, act))
  {
    hide Enabled, NextCpu, NextSpace, Touched, Apply, CpuClosed, Reads, Writes;
    OwnStep(s, c, act);
    OwnLocks(s, c, act);
    var t := Apply(s, c, act);
    forall d | d in s.cpus && d != c
      ensures d in t.cpus && Reads(t.cpus[d]) == Reads(s.cpus[d]) && Writes(t.cpus[d]) == Writes(s.cpus[d])
    {
      OthersKept(s, c, act, d);
      FlagKeepsLocks(s.cpus[d]);
    }
  }

  lemma FlagKeepsLocks(p: Cpu)
    ensures Reads(p.(wants := true)) == Reads(p) && Writes(p.(wants := true)) == Writes(p)
  {
  }

  // CachesOk.

  /**
   When the initiator has seen enough acks, every CPU that uses the space has acked, has no request
   left, and caches only translations still in the page table: the queued frames may be freed.
   */
  lemma AllFlushed(s: State, w: nat, d: nat)
    requires Inv(s) && w in s.cpus && s.cpus[w].pc.Waiting? && s.cpus[w].pc.space in s.spaces
    requires s.spaces[s.cpus[w].pc.space].ack >= s.cpus[w].pc.sent
    requires d in s.spaces[s.cpus[w].pc.space].usedBy
    ensures d in s.cpus && s.cpus[d].tlb <= s.spaces[s.cpus[w].pc.space].pt
    ensures d != w ==> d in s.spaces[s.cpus[w].pc.space].acked && !InHandler(s.cpus[d])
  {
    var p := s.cpus[w];
    var x := s.spaces[p.pc.space];
    assert FlushOk(s, w);
    FullSubset(x.acked, Flagged(x, w, p));
    assert d in s.cpus && (d != w ==> FlaggedOk(x, d, s.cpus[d]));
  }

  lemma SpaceKeepsCaches(x: Space, c: nat, act: Action)
    requires !act.Free?
    ensures x.pt + x.stale <= NextSpace(x, c, act).pt + NextSpace(x, c, act).stale
  {
  }

  lemma OwnCache(s: State, c: nat, act: Action)
    requires Enabled(s, c, act) && s.cpus[c].cur.Some? && s.cpus[c].cur.value in s.spaces
    requires CacheOk(s.cpus[c], s.spaces[s.cpus[c].cur.value])
    ensures NextCpu(s, c, act).cur == s.cpus[c].cur || !Attached(NextCpu(s, c, act).pc)
    ensures CacheOk(NextCpu(s, c, act), s.spaces[s.cpus[c].cur.value])
  {
  }

  lemma NewCache(s: State, c: nat, act: Action)
    requires Enabled(s, c, act) && s.cpus[c].cur.None?
    ensures NextCpu(s, c, act).cur.Some? ==> !Attached(NextCpu(s, c, act).pc)
  {
  }

  /** The caches of a CPU using `a` agree with `a` after it changed. */
  lemma CacheAfter(s: State, c: nat, act: Action, d: nat, p: Cpu, a: nat)
    requires Inv(s) && Enabled(s, c, act) && act != Flag(c) && d in s.cpus && a in s.spaces
    requires s.cpus[d].cur == Some(a) && p.cur == Some(a) && CacheOk(p, s.spaces[a])
    requires act.Free? ==> p.tlb == s.cpus[d].tlb && (Attached(p.pc) ==> Attached(s.cpus[d].pc))
    ensures a in Apply(s, c, act).spaces && CacheOk(p, Apply(s, c, act).spaces[a])
  {
    SpaceStep(s, c, act, a);
    if Touched(s, c, act) == Some(a) {
      if act.Free? {
        if d in s.spaces[a].usedBy { AllFlushed(s, c, d); }
        hide FlushesOk, RequestsOk, CachesOk, LocksOk;
      } else {
        SpaceKeepsCaches(s.spaces[a], c, act);
        hide Inv, Enabled, NextSpace;
      }
    }
  }

  lemma CachesStep(s: State, c: nat, act: Action)
    requires Inv(s) && Enabled(s, c, act) && act != Flag(c)
    ensures CachesOk(Apply(s, c, act))
  {
    OwnStep(s, c, act);
    var t := Apply(s, c, act);
    forall d | d in t.cpus && t.cpus[d].cur.Some? && t.cpus[d].cur.value in t.spaces
      ensures CacheOk(t.cpus[d], t.spaces[t.cpus[d].cur.value])
    {
      CacheStep(s, c, act, d);
    }
  }

  lemma CacheStep(s: State, c: nat, act: Action, d: nat)
    requires Inv(s) && Enabled(s, c, act) && act != Flag(c) && d in s.cpus
    requires d in Apply(s, c, act).cpus
    ensures var t := Apply(s, c, act);
            t.cpus[d].cur.Some? && t.cpus[d].cur.value in t.spaces ==>
              CacheOk(t.cpus[d], t.spaces[t.cpus[d].cur.value])
  {
    OwnStep(s, c, act);
    if d != c {
      OthersKept(s, c, act, d);
      var q := Apply(s, c, act).cpus[d];
      if q.cur.Some? && q.cur.value in s.spaces {
        CacheAfter(s, c, act, d, q, q.cur.value);
      }
    } else if s.cpus[c].cur.None? {
      NewCache(s, c, act);
    } else {
      OwnCache(s, c, act);
      var q := NextCpu(s, c, act);
      if Attached(q.pc) {
        CacheAfter(s, c, act, d, q, q.cur.value);
      }
    }
    hide *;
  }

  // FlushesOk.

  /** While a CPU holds a space's write lock, others only ack to it. */
  lemma HeldSpace(s: State, c: nat, act: Action, w: nat)
    requires LocksOk(s) && Enabled(s, c, act) && w in s.cpus && w != c && Writes(s.cpus[w]).Some?
    ensures Touched(s, c, act) == Writes(s.cpus[w]) ==> act.Ack?
  {
    assert Compatible(s.cpus[w], s.cpus[c]);
  }

  /** A request to a CPU comes from the one flush of its space. */
  lemma RequestFrom(s: State, w: nat, c: nat)
    requires Inv(s) && w in s.cpus && c in s.cpus && Flushing(s.cpus[w])
    requires InHandler(s.cpus[c]) && s.cpus[c].cur == Some(s.cpus[w].pc.space)
    ensures w != c && Requests(s, w, c)
  {
    hide BitsOk, CachesOk, FlushesOk, Closed;
    var v :| Requests(s, v, c);
    if v != w { assert Compatible(s.cpus[v], s.cpus[w]); }
  }

  /** A CPU flagged by another's flush of `a` uses `a` and holds no lock on it. */
  lemma FlaggedUses(s: State, w: nat, d: nat)
    requires Inv(s) && w in s.cpus && Flushing(s.cpus[w]) && s.cpus[w].pc.space in s.spaces
    requires d in Flagged(s.spaces[s.cpus[w].pc.space], w, s.cpus[w])
    ensures d in s.cpus && d != w && Uses(s.cpus[d], s.cpus[w].pc.space)
    ensures Reads(s.cpus[d]) != Some(s.cpus[w].pc.space) && Writes(s.cpus[d]) != Some(s.cpus[w].pc.space)
    ensures s.cpus[d].loaded == s.cpus[d].cur
    ensures FlaggedOk(s.spaces[s.cpus[w].pc.space], d, s.cpus[d])
  {
    assert Uses(s.cpus[d], s.cpus[w].pc.space);
    assert Compatible(s.cpus[w], s.cpus[d]);
    assert FlushOk(s, w);
    assert CacheOk(s.cpus[d], s.spaces[s.cpus[w].pc.space]);
  }

  /** The acting CPU stays in order with the flush that flagged it. */
  lemma FlaggedActs(s: State, c: nat, act: Action, x: Space)
    requires Enabled(s, c, act) && FlaggedOk(x, c, s.cpus[c])
    requires s.cpus[c].cur.Some? && s.cpus[c].cur.value in s.spaces && x == s.spaces[s.cpus[c].cur.value]
    requires Attached(s.cpus[c].pc) && s.cpus[c].loaded == s.cpus[c].cur
    requires s.cpus[c].wants ==> s.cpus[c].handler == Idle
    ensures FlaggedOk(if act.Ack? then NextSpace(x, c, act) else x, c, NextCpu(s, c, act))
  {
  }

  lemma OthersFlagged(x: Space, c: nat, act: Action, d: nat, q: Cpu)
    requires act.Ack? && d != c && FlaggedOk(x, d, q)
    ensures FlaggedOk(NextSpace(x, c, act), d, q)
  {
  }

  lemma AckCounts(x: Space, c: nat, act: Action, w: nat, p: Cpu)
    requires Flushing(p) && CountsOk(x, w, p) && act.Ack? && c in Flagged(x, w, p) && c !in x.acked
    ensures CountsOk(NextSpace(x, c, act), w, p)
  {
  }

  /** Only a flush's own initiator raises flags for it. */
  lemma FlagElsewhere(s: State, c: nat, act: Action, w: nat, d: nat)
    requires Inv(s) && Enabled(s, c, act) && w in s.cpus && w != c && Flushing(s.cpus[w])
    requires s.cpus[w].pc.space in s.spaces && d in Flagged(s.spaces[s.cpus[w].pc.space], w, s.cpus[w])
    ensures act != Flag(d)
  {
    assert Uses(s.cpus[d], s.cpus[w].pc.space);
    if act.Flag? {
      assert FlushOk(s, c) && Compatible(s.cpus[w], s.cpus[c]);
      assert Uses(s.cpus[act.target], s.cpus[c].pc.space);
    }
  }

  lemma FlushOtherStep(s: State, c: nat, act: Action, w: nat)
    requires Inv(s) && Enabled(s, c, act) && act != Flag(c) && w in s.cpus && w != c && Flushing(s.cpus[w])
    ensures var t := Apply(s, c, act);
            w in t.cpus && Flushing(t.cpus[w]) && t.cpus[w].pc.space in t.spaces && FlushOk(t, w)
  {
    var a := s.cpus[w].pc.space;
    var x := s.spaces[a];
    var p := s.cpus[w];
    var t := Apply(s, c, act);
    assert FlushOk(s, w) && c in s.cpus && (s.cpus[c].wants ==> s.cpus[c].handler == Idle);
    HeldSpace(s, c, act, w);
    SpaceStep(s, c, act, a);
    OthersKept(s, c, act, w);
    OwnStep(s, c, act);
    var acking := act.Ack? && s.cpus[c].cur == Some(a);
    assert Touched(s, c, act) == Some(a) <==> acking;
    assert acking ==> s.cpus[c].handler == Invalidated;
    var y := if acking then NextSpace(x, c, act) else x;
    if acking {
      RequestFrom(s, w, c);
      FlaggedUses(s, w, c);
      AckCounts(x, c, act, w, p);
    }
    assert y.usedBy == x.usedBy;
    forall d | d in Flagged(x, w, p) && d in s.cpus ensures d in t.cpus && FlaggedOk(y, d, t.cpus[d]) {
      FlaggedUses(s, w, d);
      if d == c {
        FlaggedActs(s, c, act, x);
      } else {
        FlagElsewhere(s, c, act, w, d);
        OthersKept(s, c, act, d);
        if acking { OthersFlagged(x, c, act, d, s.cpus[d]); }
      }
    }
    hide *;
    FlaggedSame(x, y, w, p, t.cpus[w]);
  }

  lemma FlaggedSame(x: Space, y: Space, w: nat, p: Cpu, q: Cpu)
    requires x.usedBy == y.usedBy && Flushing(p) && (q == p || q == p.(wants := true))
    ensures Flagged(x, w, p) == Flagged(y, w, q) && (CountsOk(y, w, p) ==> CountsOk(y, w, q))
  {
  }

  /** The flag of a CPU still to be flagged is down. */
  lemma FlagIsDown(s: State, c: nat, d: nat)
    requires Inv(s) && Enabled(s, c, Flag(d))
    ensures !InHandler(s.cpus[d])
  {
    assert FlushOk(s, c);
    assert Uses(s.cpus[d], s.cpus[c].pc.space);
    assert d !in Flagged(s.spaces[s.cpus[c].pc.space], c, s.cpus[c]);
    if InHandler(s.cpus[d]) { RequestFrom(s, c, d); }
  }

  lemma FlagCounts(x: Space, w: nat, p: Cpu, d: nat)
    requires p.pc.Flagging? && CountsOk(x, w, p) && d in p.pc.todo
    ensures var q := p.(pc := Flagging(p.pc.space, p.pc.todo - {d}, p.pc.sent + 1));
            CountsOk(x, w, q) && Flagged(x, w, q) == Flagged(x, w, p) + {d} && d !in x.acked
  {
    var q := p.(pc := Flagging(p.pc.space, p.pc.todo - {d}, p.pc.sent + 1));
    assert Flagged(x, w, q) == Flagged(x, w, p) + {d};
  }

  lemma CountsMove(x: Space, w: nat, p: Cpu, q: Cpu)
    requires Flushing(p) && Flushing(q) && CountsOk(x, w, p)
    requires q.pc == p.pc || (p.pc.Flagging? && p.pc.todo == {} && q.pc == Waiting(p.pc.space, p.pc.sent))
    requires q.pc.Waiting? && w in x.usedBy ==> q.tlb <= x.pt
    ensures CountsOk(x, w, q) && Flagged(x, w, q) == Flagged(x, w, p)
  {
    assert Flagged(x, w, q) == Flagged(x, w, p);
  }

  /** The initiator's own steps during a flush, other than flagging. */
  lemma OwnFlush(s: State, c: nat, act: Action)
    requires Enabled(s, c, act) && !act.Flag? && !act.Free? && Flushing(s.cpus[c])
    ensures var p, q := s.cpus[c], NextCpu(s, c, act);
            q.pc == p.pc || (act.FlushLocal? && p.pc.todo == {} && q.pc == Waiting(p.pc.space, p.pc.sent))
    ensures Touched(s, c, act).Some? ==>
              act.Ack? && s.cpus[c].handler == Invalidated && Touched(s, c, act) == s.cpus[c].cur
  {
  }

  lemma OwnTlb(s: State, c: nat, act: Action, x: Space)
    requires Enabled(s, c, act) && Flushing(s.cpus[c]) && NextCpu(s, c, act).pc.Waiting?
    requires s.cpus[c].pc.space in s.spaces && x == s.spaces[s.cpus[c].pc.space] && c in x.usedBy
    requires s.cpus[c].loaded == Some(s.cpus[c].pc.space) && CountsOk(x, c, s.cpus[c])
    ensures NextCpu(s, c, act).tlb <= x.pt
  {
    hide Flagged, NextSpace;
  }

  /** The initiator keeps its flush, and never loses a flagged CPU. */
  lemma FlushContinues(s: State, c: nat, act: Action, x: Space)
    requires Inv(s) && Enabled(s, c, act) && !act.Free? && Flushing(s.cpus[c])
    requires s.cpus[c].pc.space in s.spaces && x == s.spaces[s.cpus[c].pc.space]
    ensures var q := NextCpu(s, c, act);
            && Flushing(q) && q.pc.space == s.cpus[c].pc.space && CountsOk(x, c, q)
            && Flagged(x, c, q) == Flagged(x, c, s.cpus[c]) + if act.Flag? then {act.target} else {}
    ensures Touched(s, c, act) != Some(s.cpus[c].pc.space)
  {
    assert FlushOk(s, c);
    if act.Flag? {
      FlagIsDown(s, c, act.target);
      FlagCounts(x, c, s.cpus[c], act.target);
    } else {
      OwnFlush(s, c, act);
      if InHandler(s.cpus[c]) && s.cpus[c].cur == Some(s.cpus[c].pc.space) { RequestFrom(s, c, c); }
      if NextCpu(s, c, act).pc.Waiting? && c in x.usedBy {
        OwnLoaded(s, c, s.cpus[c].pc.space);
        OwnTlb(s, c, act, x);
      }
      hide Inv, Enabled, NextCpu;
      CountsMove(x, c, s.cpus[c], NextCpu(s, c, act));
    }
  }

  lemma FlushBegins(s: State, c: nat)
    requires Enabled(s, c, BeginFlush)
    ensures var q, y := NextCpu(s, c, BeginFlush), NextSpace(s.spaces[s.cpus[c].pc.space], c, BeginFlush);
            Flushing(q) && q.pc.space == s.cpus[c].pc.space && CountsOk(y, c, q) && Flagged(y, c, q) == {}
    ensures Touched(s, c, BeginFlush) == Some(s.cpus[c].pc.space)
  {
  }

  lemma FlushOwnStep(s: State, c: nat, act: Action)
    requires Inv(s) && Enabled(s, c, act) && act != Flag(c) && Flushing(NextCpu(s, c, act))
    ensures var t := Apply(s, c, act);
            c in t.cpus && Flushing(t.cpus[c]) && t.cpus[c].pc.space in t.spaces && FlushOk(t, c)
  {
    OwnStep(s, c, act);
    assert CpuClosed(s, s.cpus[c]);
    FlushWas(s, c, act);
    var p, q, t := s.cpus[c], NextCpu(s, c, act), Apply(s, c, act);
    var a := p.pc.space;
    var x := s.spaces[a];
    SpaceStep(s, c, act, a);
    if act.BeginFlush? {
      FlushBegins(s, c);
    } else {
      FlushContinues(s, c, act, x);
      assert FlushOk(s, c);
      if act.Flag? { FlagIsDown(s, c, act.target); }
      FlaggedAfter(s, c, act, x, q);
    }
    hide *;
  }

  lemma FlaggedAfter(s: State, c: nat, act: Action, x: Space, q: Cpu)
    requires Enabled(s, c, act) && Flushing(s.cpus[c]) && s.cpus[c].pc.space in s.spaces && FlushOk(s, c)
    requires x == s.spaces[s.cpus[c].pc.space] && c !in Flagged(x, c, q) && x.acked <= Flagged(x, c, s.cpus[c])
    requires Flagged(x, c, q) == Flagged(x, c, s.cpus[c]) + if act.Flag? then {act.target} else {}
    requires act.Flag? ==> !InHandler(s.cpus[act.target]) && act.target !in Flagged(x, c, s.cpus[c])
    ensures forall d | d in Flagged(x, c, q) && d in Apply(s, c, act).cpus :: FlaggedOk(x, d, Apply(s, c, act).cpus[d])
  {
    hide NextCpu, NextSpace;
  }

  lemma FlushWas(s: State, c: nat, act: Action)
    requires Enabled(s, c, act) && Flushing(NextCpu(s, c, act))
    ensures !act.Free? && if act.BeginFlush? then s.cpus[c].pc.Writing? else Flushing(s.cpus[c])
  {
  }

  lemma OwnLoaded(s: State, c: nat, a: nat)
    requires Inv(s) && c in s.cpus && a in s.spaces && Writes(s.cpus[c]) == Some(a) && c in s.spaces[a].usedBy
    ensures s.cpus[c].loaded == Some(a)
  {
    assert Uses(s.cpus[c], a);
    assert CacheOk(s.cpus[c], s.spaces[a]);
  }

  lemma FlushesStep(s: State, c: nat, act: Action)
    requires Inv(s) && Enabled(s, c, act) && act != Flag(c)
    ensures FlushesOk(Apply(s, c, act))
  {
    OwnStep(s, c, act);
    var t := Apply(s, c, act);
    forall w | w in t.cpus && Flushing(t.cpus[w]) ensures t.cpus[w].pc.space in t.spaces && FlushOk(t, w) {
      if w == c {
        FlushOwnStep(s, c, act);
      } else {
        OthersKept(s, c, act, w);
        FlushOtherStep(s, c, act, w);
      }
    }
    hide *;
  }

  // RequestsOk.

  lemma OwnCur(s: State, c: nat, act: Action)
    requires Enabled(s, c, act) && Attached(s.cpus[c].pc)
    ensures NextCpu(s, c, act).cur == s.cpus[c].cur
  {
  }

  lemma CurKept(s: State, c: nat, act: Action, d: nat)
    requires Enabled(s, c, act) && act != Flag(c) && d in s.cpus && Attached(s.cpus[d].pc)
    ensures d in Apply(s, c, act).cpus && Apply(s, c, act).cpus[d].cur == s.cpus[d].cur
  {
    OwnStep(s, c, act);
    if d == c { OwnCur(s, c, act); } else { OthersKept(s, c, act, d); }
    hide *;
  }

  /** A request outlives every step but its own ack. */
  lemma RequestKept(s: State, c: nat, act: Action, w: nat, d: nat)
    requires Inv(s) && Enabled(s, c, act) && act != Flag(c)
    requires w in s.cpus && d in s.cpus && InHandler(s.cpus[d]) && Requests(s, w, d)
    ensures var t := Apply(s, c, act); d in t.cpus && Requests(t, w, d)
  {
    var a := s.cpus[w].pc.space;
    var x := s.spaces[a];
    FlaggedUses(s, w, d);
    CurKept(s, c, act, d);
    SpaceStep(s, c, act, a);
    OwnStep(s, c, act);
    if w == c {
      if act.Free? { AllFlushed(s, c, d); }
      FlushContinues(s, c, act, x);
    } else {
      OthersKept(s, c, act, w);
      HeldSpace(s, c, act, w);
      AckKeepsUsers(x, c, act);
      FlaggedSame(x, Apply(s, c, act).spaces[a], w, s.cpus[w], Apply(s, c, act).cpus[w]);
    }
    hide *;
  }

  lemma AckKeepsUsers(x: Space, c: nat, act: Action)
    ensures act.Ack? ==> NextSpace(x, c, act).usedBy == x.usedBy
  {
  }

  lemma RequestsStep(s: State, c: nat, act: Action)
    requires Inv(s) && Enabled(s, c, act) && act != Flag(c)
    ensures RequestsOk(Apply(s, c, act))
  {
    OwnStep(s, c, act);
    var t := Apply(s, c, act);
    forall d | d in t.cpus && InHandler(t.cpus[d])
      ensures !(t.cpus[d].wants && t.cpus[d].handler != Idle) && exists w :: Requests(t, w, d)
    {
      RequestStep(s, c, act, d);
    }
  }

  lemma RequestStep(s: State, c: nat, act: Action, d: nat)
    requires Inv(s) && Enabled(s, c, act) && act != Flag(c) && d in s.cpus
    requires d in Apply(s, c, act).cpus && InHandler(Apply(s, c, act).cpus[d])
    ensures var t := Apply(s, c, act); !(t.cpus[d].wants && t.cpus[d].handler != Idle) && exists w :: Requests(t, w, d)
  {
    OwnStep(s, c, act);
    if act == Flag(d) {
      FlagIsDown(s, c, d);
      Raised(s, c, d);
    } else {
      HandlerStep(s, c, act, d);
      var w :| Requests(s, w, d);
      RequestKept(s, c, act, w, d);
    }
    hide *;
  }

  lemma HandlerStep(s: State, c: nat, act: Action, d: nat)
    requires Enabled(s, c, act) && d in s.cpus && act != Flag(d) && act != Flag(c)
    requires InHandler(s.cpus[d]) ==> !(s.cpus[d].wants && s.cpus[d].handler != Idle)
    ensures d in Apply(s, c, act).cpus
    ensures InHandler(Apply(s, c, act).cpus[d]) ==>
              InHandler(s.cpus[d]) && !(Apply(s, c, act).cpus[d].wants && Apply(s, c, act).cpus[d].handler != Idle)
  {
    OwnStep(s, c, act);
    if d != c { OthersKept(s, c, act, d); } else { OwnHandler(s, c, act); }
    hide *;
    hide InHandler;
  }

  lemma OwnHandler(s: State, c: nat, act: Action)
    requires Enabled(s, c, act) && (InHandler(s.cpus[c]) ==> !(s.cpus[c].wants && s.cpus[c].handler != Idle))
    ensures var q := NextCpu(s, c, act); InHandler(q) ==> InHandler(s.cpus[c]) && !(q.wants && q.handler != Idle)
  {
  }

  lemma Raised(s: State, c: nat, d: nat)
    requires Inv(s) && Enabled(s, c, Flag(d)) && d != c && !InHandler(s.cpus[d])
    ensures var t := Apply(s, c, Flag(d));
            d in t.cpus && t.cpus[d].handler == Idle && Requests(t, c, d)
  {
    assert CpuClosed(s, s.cpus[c]);
    FlushContinues(s, c, Flag(d), s.spaces[s.cpus[c].pc.space]);
    OthersKept(s, c, Flag(d), d);
    OwnStep(s, c, Flag(d));
    SpaceStep(s, c, Flag(d), s.cpus[c].pc.space);
    assert FlushOk(s, c) && Uses(s.cpus[d], s.cpus[c].pc.space);
    hide *;
    hide Enabled;
  }

  // Runs.

  /** Every step keeps the invariant. */
  lemma Step(s: State, c: nat, act: Action)
    requires Inv(s) && Enabled(s, c, act)
    ensures Inv(Apply(s, c, act))
  {
    NotSelf(s, c, act);
    ClosedStep(s, c, act);
    BitsStep(s, c, act);
    LocksStep(s, c, act);
    CachesStep(s, c, act);
    FlushesStep(s, c, act);
    RequestsStep(s, c, act);
    hide Apply, Enabled, Closed, BitsOk, LocksOk, CachesOk, FlushesOk, RequestsOk;
  }

  /** Boot: no CPU has entered an address space yet. */
  ghost predicate Initial(s: State) {
    && (forall c | c in s.cpus :: s.cpus[c] == Cpu(None, false, None, {}, Idle, Run))
    && (forall a | a in s.spaces :: s.spaces[a].usedBy == {} && s.spaces[a].stale == {})
  }

  datatype Move = Move(cpu: nat, act: Action)

  /** A run: any CPU takes any enabled step, in any order. */
  ghost predicate Execution(states: seq<State>, moves: seq<Move>) {
    && |states| == |moves| + 1 && Initial(states[0])
    && forall i | 0 <= i < |moves| ::
         && Enabled(states[i], moves[i].cpu, moves[i].act)
         && states[i + 1] == Apply(states[i], moves[i].cpu, moves[i].act)
  }

  lemma {:induction false} RunKeeps(states: seq<State>, moves: seq<Move>, i: nat)
    requires Execution(states, moves) && i < |states|
    ensures Inv(states[i])
  {
    if i > 0 {
      RunKeeps(states, moves, i - 1);
      hide Inv, Initial;
      Step(states[i - 1], moves[i - 1].cpu, moves[i - 1].act);
    }
  }

  /**
   Safety over whole runs: when frames are freed, every CPU using the space has acked exactly once and
   caches only translations still in the page table; and a CPU in user mode always runs on its current
   space's table, with nothing cached but translations in force or still waiting for their flush.
   */
  lemma NoStaleTranslation(states: seq<State>, moves: seq<Move>, i: nat, c: nat, d: nat)
    requires Execution(states, moves) && i < |states| && c in states[i].cpus && d in states[i].cpus
    ensures var s := states[i];
            Enabled(s, c, Free) && d in s.spaces[s.cpus[c].pc.space].usedBy ==>
              && s.cpus[d].tlb <= s.spaces[s.cpus[c].pc.space].pt
              && (d != c ==> d in s.spaces[s.cpus[c].pc.space].acked && !InHandler(s.cpus[d]))
    ensures var p := states[i].cpus[c];
            p.pc.Run? && p.cur.Some? ==>
              && p.cur.value in states[i].spaces && c in states[i].spaces[p.cur.value].usedBy && p.loaded == p.cur
              && p.tlb <= states[i].spaces[p.cur.value].pt + states[i].spaces[p.cur.value].stale
  {
    RunKeeps(states, moves, i);
    hide Execution, Inv, Enabled;
    if Enabled(states[i], c, Free) { FreeIsSafe(states[i], c, d); }
    UserCaches(states[i], c);
  }

  lemma FreeIsSafe(s: State, c: nat, d: nat)
    requires Inv(s) && c in s.cpus && Enabled(s, c, Free)
    ensures s.cpus[c].pc.Waiting? && s.cpus[c].pc.space in s.spaces
    ensures d in s.spaces[s.cpus[c].pc.space].usedBy ==>
              && d in s.cpus && s.cpus[d].tlb <= s.spaces[s.cpus[c].pc.space].pt
              && (d != c ==> d in s.spaces[s.cpus[c].pc.space].acked && !InHandler(s.cpus[d]))
  {
    hide Inv;
    if d in s.spaces[s.cpus[c].pc.space].usedBy { AllFlushed(s, c, d); }
  }

  lemma UserCaches(s: State, c: nat)
    requires Inv(s) && c in s.cpus
    ensures var p := s.cpus[c];
            p.pc.Run? && p.cur.Some? ==>
              && p.cur.value in s.spaces && c in s.spaces[p.cur.value].usedBy && p.loaded == p.cur
              && p.tlb <= s.spaces[p.cur.value].pt + s.spaces[p.cur.value].stale
  {
    var p := s.cpus[c];
    hide FlushesOk, RequestsOk, LocksOk;
    assert CpuClosed(s, p);
    if p.pc.Run? && p.cur.Some? { assert Uses(p, p.cur.value) && CacheOk(p, s.spaces[p.cur.value]); }
  }

  // An address space switch ends where it was meant to.

  /** A CPU on its way to space `next`. */
  predicate Heading(p: Cpu, next: Option<nat>) {
    match p.pc
    case WantOld(n) => n == next
    case HoldOld(n) => n == next
    case Cleared(n) => n == next
    case Detached(n) => n == next
    case WantNew => p.cur == next
    case HoldNew => p.cur == next
    case BitSet => p.cur == next
    case Loaded => p.cur == next && p.loaded == next
    case _ => false
  }

  predicate Arrived(p: Cpu, next: Option<nat>) { p.pc.Run? && p.cur == next && p.loaded == next }

  lemma OwnHeading(s: State, c: nat, act: Action, next: Option<nat>)
    requires Enabled(s, c, act) && Heading(s.cpus[c], next)
    ensures Heading(NextCpu(s, c, act), next) || Arrived(NextCpu(s, c, act), next)
  {
  }

  /** Its own steps bring it nearer, and nobody else's turn it aside. */
  lemma HeadingStep(s: State, c: nat, act: Action, d: nat, next: Option<nat>)
    requires Inv(s) && Enabled(s, c, act) && d in s.cpus && Heading(s.cpus[d], next)
    ensures var t := Apply(s, c, act); d in t.cpus && (Heading(t.cpus[d], next) || Arrived(t.cpus[d], next))
  {
    NotSelf(s, c, act);
    if c == d {
      OwnHeading(s, c, act, next);
      OwnStep(s, c, act);
    } else {
      OthersKept(s, c, act, d);
    }
    hide Inv, Enabled, Apply, NextCpu;
  }

  lemma {:induction false} HeadsThere(states: seq<State>, moves: seq<Move>, i: nat, j: nat, c: nat, next: Option<nat>)
    requires Execution(states, moves) && i < j < |states| && moves[i] == Move(c, BeginSwitch(next))
    requires forall k | i < k < j :: c in states[k].cpus && !states[k].cpus[c].pc.Run?
    ensures c in states[j].cpus && (Heading(states[j].cpus[c], next) || Arrived(states[j].cpus[c], next))
  {
    RunKeeps(states, moves, j - 1);
    var s, act := states[j - 1], moves[j - 1].act;
    hide Inv, Initial, Apply;
    if j == i + 1 {
      NotSelf(s, c, act);
      OwnStep(s, c, act);
    } else {
      HeadsThere(states, moves, i, j - 1, c, next);
      HeadingStep(s, moves[j - 1].cpu, act, c, next);
    }
  }

  /**
   In every run, a CPU that set out for another address space, or for none, is in it when it next runs: the space is
   its current one, the MMU walks its table, and its `used_by` bit is set.
   */
  lemma SwitchArrives(states: seq<State>, moves: seq<Move>, i: nat, j: nat, c: nat, next: Option<nat>)
    requires Execution(states, moves) && i < j < |states| && moves[i] == Move(c, BeginSwitch(next))
    requires forall k | i < k < j :: c in states[k].cpus && !states[k].cpus[c].pc.Run?
    requires c in states[j].cpus && states[j].cpus[c].pc.Run?
    ensures states[j].cpus[c].cur == next && states[j].cpus[c].loaded == next
    ensures next.Some? ==> next.value in states[j].spaces && c in states[j].spaces[next.value].usedBy
  {
    HeadsThere(states, moves, i, j, c, next);
    RunKeeps(states, moves, j);
    hide Execution, Inv;
    UserCaches(states[j], c);
  }

  /** A `used_by` bit changes only while nobody holds the space's write lock. */
  lemma BitsKept(s: State, c: nat, act: Action, a: nat, w: nat)
    requires Inv(s) && Enabled(s, c, act) && a in s.spaces && w in s.cpus && Writes(s.cpus[w]) == Some(a)
    ensures a in Apply(s, c, act).spaces && Apply(s, c, act).spaces[a].usedBy == s.spaces[a].usedBy
  {
    SpaceStep(s, c, act, a);
    if w != c { HeldSpace(s, c, act, w); }
    if Touched(s, c, act) == Some(a) { UsersChange(s, c, act, a); }
    hide *;
  }

  lemma UsersChange(s: State, c: nat, act: Action, a: nat)
    requires Enabled(s, c, act) && a in s.spaces && Touched(s, c, act) == Some(a)
    ensures NextSpace(s.spaces[a], c, act).usedBy == s.spaces[a].usedBy || (!act.Ack? && Writes(s.cpus[c]).None?)
  {
  }

  /** A waiting flush is never stuck: some CPU it waits for can take a step. */
  lemma FlushMoves(s: State, w: nat)
    requires Inv(s) && w in s.cpus && s.cpus[w].pc.Waiting? && s.cpus[w].pc.space in s.spaces
    requires s.spaces[s.cpus[w].pc.space].ack < s.cpus[w].pc.sent
    ensures exists d: nat, act: Action ::
        d in s.spaces[s.cpus[w].pc.space].usedBy - {w} - s.spaces[s.cpus[w].pc.space].acked
              && !act.Fill? && !act.Evict? && Enabled(s, d, act)
  {
    var x := s.spaces[s.cpus[w].pc.space];
    var flagged := Flagged(x, w, s.cpus[w]);
    assert FlushOk(s, w);
    hide Inv, Enabled;
    assert flagged == x.acked + (flagged - x.acked);
    var d :| d in flagged - x.acked;
    FlaggedUses(s, w, d);
    var act := PendingMoves(s, d);
  }

  /** A CPU with a request either handles it next, or is busy with a write lock it can let go of. */
  lemma PendingMoves(s: State, d: nat) returns (act: Action)
    requires Inv(s) && d in s.cpus && InHandler(s.cpus[d]) && Attached(s.cpus[d].pc)
    requires s.cpus[d].cur.Some? && Reads(s.cpus[d]) != s.cpus[d].cur
    ensures !act.Fill? && !act.Evict? && Enabled(s, d, act)
  {
    hide BitsOk, LocksOk, CachesOk, FlushesOk;
    var p := s.cpus[d];
    assert CpuClosed(s, p);
    act :=
      if p.handler == Swapped then Invalidate
      else if p.handler == Invalidated then Ack
      else if Polls(p.pc) then Swap
      else if s.spaces[p.pc.space].stale == {} then EndWrite else BeginFlush;
  }

  // The protocol's promises, over whole runs.

  /** `swap(true)` never has to be retried. */
  lemma NeverRetries(states: seq<State>, moves: seq<Move>, i: nat, c: nat, d: nat)
    requires Execution(states, moves) && i < |states| && Enabled(states[i], c, Flag(d))
    ensures !states[i].cpus[d].wants && states[i].cpus[d].handler == Idle
  {
    RunKeeps(states, moves, i);
    hide Execution;
    FlagIsDown(states[i], c, d);
  }

  /** While one CPU keeps a space's write lock, the space's `used_by` bits stay as they are. */
  lemma {:induction false} BitsFrozen(states: seq<State>, moves: seq<Move>, i: nat, j: nat, a: nat, w: nat)
    requires Execution(states, moves) && |states| == |moves| + 1 && i <= j < |states|
    requires forall k | i <= k <= j :: HoldsWrite(states[k], w, a)
    ensures UsersOf(states[j], a) == UsersOf(states[i], a)
  {
    hide *;
    if i < j {
      BitsFrozen(states, moves, i, j - 1, a, w);
      RunKeeps(states, moves, j - 1);
      StepAt(states, moves, j - 1);
      assert HoldsWrite(states[j - 1], w, a);
      BitsKeptAt(states[j - 1], moves[j - 1].cpu, moves[j - 1].act, a, w);
    }
  }

  predicate HoldsWrite(s: State, w: nat, a: nat) {
    w in s.cpus && Writes(s.cpus[w]) == Some(a) && a in s.spaces
  }

  lemma BitsKeptAt(s: State, c: nat, act: Action, a: nat, w: nat)
    requires Inv(s) && Enabled(s, c, act) && HoldsWrite(s, w, a)
    ensures UsersOf(Apply(s, c, act), a) == UsersOf(s, a)
  {
    BitsKept(s, c, act, a, w);
    hide Inv, Enabled, Apply;
  }

  /** How often `d` acks to space `a` in the moves `[i, j)`. */
  ghost function Acks(states: seq<State>, moves: seq<Move>, i: nat, j: nat, d: nat, a: nat): nat
    requires |states| == |moves| + 1 && i <= j <= |moves|
  {
    if i == j then 0
    else Acks(states, moves, i, j - 1, d, a) + if AcksTo(states[j - 1], moves[j - 1], d, a) then 1 else 0
  }

  predicate AcksTo(s: State, m: Move, d: nat, a: nat) {
    m == Move(d, Ack) && d in s.cpus && s.cpus[d].cur == Some(a)
  }

  predicate FlushesSpace(s: State, w: nat, a: nat) {
    w in s.cpus && Flushing(s.cpus[w]) && s.cpus[w].pc.space == a && a in s.spaces
  }

  function AckedIn(s: State, a: nat): set<nat> { if a in s.spaces then s.spaces[a].acked else {} }

  function UsersOf(s: State, a: nat): set<nat> { if a in s.spaces then s.spaces[a].usedBy else {} }

  lemma StepAt(states: seq<State>, moves: seq<Move>, i: nat)
    requires Execution(states, moves) && i < |moves|
    ensures |states| == |moves| + 1 && Enabled(states[i], moves[i].cpu, moves[i].act)
    ensures states[i + 1] == Apply(states[i], moves[i].cpu, moves[i].act)
  {
  }

  /** During a flush the acks are recorded one by one, never twice for a CPU. */
  lemma AckedStep(s: State, c: nat, act: Action, w: nat, a: nat, d: nat)
    requires Inv(s) && Enabled(s, c, act) && FlushesSpace(s, w, a) && FlushesSpace(Apply(s, c, act), w, a)
    ensures AcksTo(s, Move(c, act), d, a) ==> d !in AckedIn(s, a)
    ensures d in AckedIn(Apply(s, c, act), a) <==> d in AckedIn(s, a) || AcksTo(s, Move(c, act), d, a)
  {
    NotSelf(s, c, act);
    SpaceStep(s, c, act, a);
    OwnStep(s, c, act);
    TouchIs(s, c, act);
    AckIsOwed(s, c, act, w, a);
    FreeEnds(s, c, act);
    hide Inv, Enabled, Apply, NextCpu, Touched;
    if c == w {
      FlushContinues(s, c, act, s.spaces[a]);
    } else {
      assert LocksOk(s) by { InvLocks(s); }
      HeldSpace(s, c, act, w);
    }
  }

  lemma InvLocks(s: State)
    requires Inv(s)
    ensures LocksOk(s)
  {
  }

  lemma AckIsOwed(s: State, c: nat, act: Action, w: nat, a: nat)
    requires Inv(s) && Enabled(s, c, act) && FlushesSpace(s, w, a)
    ensures act.Ack? && s.cpus[c].cur == Some(a) ==> c !in AckedIn(s, a)
  {
    if act.Ack? && s.cpus[c].cur == Some(a) {
      assert InHandler(s.cpus[c]);
      hide Inv;
      RequestFrom(s, w, c);
      FlaggedUses(s, w, c);
    }
  }

  lemma FreeEnds(s: State, c: nat, act: Action)
    requires Enabled(s, c, act)
    ensures act.Free? ==> !Flushing(NextCpu(s, c, act))
  {
  }

  lemma TouchIs(s: State, c: nat, act: Action)
    requires Enabled(s, c, act)
    ensures act.Ack? ==> Touched(s, c, act) == s.cpus[c].cur
  {
  }

  ghost predicate FlushBetween(states: seq<State>, moves: seq<Move>, i: nat, j: nat, w: nat, a: nat) {
    && |states| == |moves| + 1 && i < j < |states| && moves[i] == Move(w, BeginFlush)
    && forall k | i < k <= j :: FlushesSpace(states[k], w, a)
  }

  lemma {:induction false} AcksCounted(states: seq<State>, moves: seq<Move>, i: nat, j: nat, w: nat, a: nat, d: nat)
    requires Execution(states, moves) && FlushBetween(states, moves, i, j, w, a)
    ensures Acks(states, moves, i + 1, j, d, a) == if d in AckedIn(states[j], a) then 1 else 0
  {
    hide Execution, Inv, Enabled, Apply, AckedIn, AcksTo, FlushesSpace;
    StepAt(states, moves, j - 1);
    if j == i + 1 {
      FlushStartsClean(states[i], w, a);
    } else {
      AcksCounted(states, moves, i, j - 1, w, a, d);
      RunKeeps(states, moves, j - 1);
      AckedStep(states[j - 1], moves[j - 1].cpu, moves[j - 1].act, w, a, d);
    }
  }

  lemma FlushStartsClean(s: State, w: nat, a: nat)
    requires Enabled(s, w, BeginFlush) && FlushesSpace(Apply(s, w, BeginFlush), w, a)
    ensures AckedIn(Apply(s, w, BeginFlush), a) == {}
  {
  }

  /**
   In every flush of every run, from its start to the moment it may free, each CPU that uses the space acks
   exactly once, except the initiator; and no other CPU acks to the space.
   */
  lemma AcksExactlyOnce(states: seq<State>, moves: seq<Move>, i: nat, j: nat, w: nat, a: nat, d: nat)
    requires Execution(states, moves) && FlushBetween(states, moves, i, j, w, a) && Enabled(states[j], w, Free)
    ensures Acks(states, moves, i + 1, j, d, a) == if d in UsersOf(states[j], a) && d != w then 1 else 0
  {
    AcksCounted(states, moves, i, j, w, a, d);
    RunKeeps(states, moves, j);
    hide Execution, Acks;
    WhoAcked(states[j], w, a, d);
  }

  lemma WhoAcked(s: State, w: nat, a: nat, d: nat)
    requires Inv(s) && FlushesSpace(s, w, a) && Enabled(s, w, Free)
    ensures d in AckedIn(s, a) <==> d in UsersOf(s, a) && d != w
  {
    assert FlushOk(s, w);
    if d in s.spaces[a].usedBy {
      hide Inv;
      AllFlushed(s, w, d);
    }
  }

  /** A waiting flush is never stuck: some CPU it waits for can take a step. */
  lemma WaitingMoves(states: seq<State>, moves: seq<Move>, i: nat, w: nat)
    requires Execution(states, moves) && i < |states|
    requires var s := states[i];
             && w in s.cpus && s.cpus[w].pc.Waiting? && s.cpus[w].pc.space in s.spaces
             && s.spaces[s.cpus[w].pc.space].ack < s.cpus[w].pc.sent
    ensures var s := states[i];
            exists d: nat, act: Action ::
              && d in s.spaces[s.cpus[w].pc.space].usedBy - {w} - s.spaces[s.cpus[w].pc.space].acked
              && !act.Fill? && !act.Evict? && Enabled(s, d, act)
  {
    RunKeeps(states, moves, i);
    hide Execution, Inv;
    FlushMoves(states[i], w);
  }
}
