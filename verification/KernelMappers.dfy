/**
 The re-entrant lock on the kernel's page tables (src/memory/kernel_mapper.rs): any number of CPUs, each
 nesting guards to any depth and dropping them in any order.
 */
module KernelMappers {
  import opened Wrappers

  datatype Guard = Guard(cpu: nat, readOnly: bool)

  /** Where a CPU stands: the atomic operations of `lock` and `drop` are single steps. */
  datatype Pc = Run | Owning | Freeing

  /** LOCK_OWNER, LOCK_COUNT and the live guards. */
  datatype State = State(owner: Option<nat>, count: nat, guards: map<nat, Guard>, cpus: map<nat, Pc>)

  datatype Action = TryOwn | FetchAdd(id: nat) | FetchSub(id: nat) | StoreFree

  predicate Enabled(s: State, c: nat, act: Action) {
    && c in s.cpus
    && match act
       case TryOwn => s.cpus[c].Run?
       case FetchAdd(id) => s.cpus[c].Owning? && id !in s.guards
       case FetchSub(id) => s.cpus[c].Run? && id in s.guards && s.guards[id].cpu == c && s.count > 0
       case StoreFree => s.cpus[c].Freeing?
  }

  function Apply(s: State, c: nat, act: Action): State
    requires Enabled(s, c, act)
  {
    match act
    case TryOwn =>
      // compare_exchange, which also succeeds when this CPU owns the lock; otherwise it spins.
      if s.owner.None? || s.owner == Some(c) then s.(owner := Some(c), cpus := s.cpus[c := Owning]) else s
    case FetchAdd(id) =>
      s.(count := s.count + 1, guards := s.guards[id := Guard(c, s.count > 0)], cpus := s.cpus[c := Run])
    case FetchSub(id) =>
      s.(count := s.count - 1, guards := s.guards - {id}, cpus := s.cpus[c := if s.count == 1 then Freeing else Run])
    case StoreFree => s.(owner := None, cpus := s.cpus[c := Run])
  }

  ghost predicate Inv(s: State) {
    && s.count == |s.guards|
    && (forall g | g in s.guards :: s.owner == Some(s.guards[g].cpu))
    && (forall g, h | g in s.guards && h in s.guards && !s.guards[g].readOnly && !s.guards[h].readOnly :: g == h)
    && (forall c | c in s.cpus && !s.cpus[c].Run? :: s.owner == Some(c) && (s.cpus[c].Freeing? ==> s.guards == map[]))
    && (s.owner.Some? && s.guards == map[] ==> s.owner.value in s.cpus && !s.cpus[s.owner.value].Run?)
  }

  lemma Step(s: State, c: nat, act: Action)
    requires Inv(s) && Enabled(s, c, act)
    ensures Inv(Apply(s, c, act))
  {
    if act.FetchSub? {
      var t := Apply(s, c, act);
      assert s.guards.Keys == t.guards.Keys + {act.id};
      assert |t.guards| == |t.guards.Keys| && |s.guards| == |s.guards.Keys|;
    } else if act.FetchAdd? {
      var t := Apply(s, c, act);
      assert t.guards.Keys == s.guards.Keys + {act.id};
      assert |t.guards| == |t.guards.Keys| && |s.guards| == |s.guards.Keys|;
    }
  }

  datatype Move = Move(cpu: nat, act: Action)

  ghost predicate Execution(states: seq<State>, moves: seq<Move>) {
    && |states| == |moves| + 1
    && states[0].owner == None && states[0].count == 0 && states[0].guards == map[]
    && (forall c | c in states[0].cpus :: states[0].cpus[c].Run?)
    && forall i | 0 <= i < |moves| ::
         Enabled(states[i], moves[i].cpu, moves[i].act) && states[i + 1] == Apply(states[i], moves[i].cpu, moves[i].act)
  }

  lemma {:induction false} RunKeeps(states: seq<State>, moves: seq<Move>, i: nat)
    requires Execution(states, moves) && i < |states|
    ensures Inv(states[i])
  {
    if i > 0 {
      RunKeeps(states, moves, i - 1);
      hide Inv;
      Step(states[i - 1], moves[i - 1].cpu, moves[i - 1].act);
    }
  }

  /** The lock is free again once every guard is gone and no CPU is inside `lock` or `drop`. */
  lemma NeverLeaked(states: seq<State>, moves: seq<Move>, i: nat)
    requires Execution(states, moves) && i < |states|
    requires states[i].guards == map[] && forall c | c in states[i].cpus :: states[i].cpus[c].Run?
    ensures states[i].owner == None && states[i].count == 0
  {
    RunKeeps(states, moves, i);
    hide Execution;
  }

  /**
   At most one guard may write, and all live guards belong to one CPU, the lock's owner. The guard that may write is
   the first: a new guard may write exactly when no other lives.
   */
  lemma OneWriter(states: seq<State>, moves: seq<Move>, i: nat, g: nat, h: nat)
    requires Execution(states, moves) && i < |states| && g in states[i].guards && h in states[i].guards
    ensures states[i].guards[g].cpu == states[i].guards[h].cpu && states[i].owner == Some(states[i].guards[g].cpu)
    ensures !states[i].guards[g].readOnly && !states[i].guards[h].readOnly ==> g == h
    ensures i > 0 && g !in states[i - 1].guards ==> (!states[i].guards[g].readOnly <==> states[i - 1].guards == map[])
  {
    RunKeeps(states, moves, i);
    if i > 0 { RunKeeps(states, moves, i - 1); }
  }

  // What the two operations do when nobody comes between their steps.

  /** `lock` adds a guard, which may write if it is the first, unless another CPU has the lock: then it spins. */
  lemma LockTakes(s: State, c: nat, id: nat)
    requires Inv(s) && c in s.cpus && s.cpus[c].Run? && id !in s.guards
    ensures Enabled(s, c, TryOwn)
    ensures s.owner.Some? && s.owner.value != c ==> Apply(s, c, TryOwn) == s
    ensures s.owner.None? || s.owner.value == c ==>
              && Enabled(Apply(s, c, TryOwn), c, FetchAdd(id))
              && Apply(Apply(s, c, TryOwn), c, FetchAdd(id)) ==
                 s.(owner := Some(c), count := s.count + 1, guards := s.guards[id := Guard(c, s.guards != map[])])
  {
    assert s.cpus[c := Owning][c := Run] == s.cpus;
  }

  /** Dropping a guard takes it away, and frees the lock if it was the last. */
  lemma DropGives(s: State, c: nat, id: nat)
    requires Inv(s) && c in s.cpus && s.cpus[c].Run? && id in s.guards && s.guards[id].cpu == c
    ensures Enabled(s, c, FetchSub(id))
    ensures var t := Apply(s, c, FetchSub(id));
            if s.guards.Keys == {id} then
              Enabled(t, c, StoreFree) && Apply(t, c, StoreFree) == State(None, 0, map[], s.cpus)
            else
              t == s.(count := s.count - 1, guards := s.guards - {id})
  {
    var t := Apply(s, c, FetchSub(id));
    assert s.guards.Keys == t.guards.Keys + {id};
    assert |s.guards| == |s.guards.Keys| && |t.guards| == |t.guards.Keys|;
    assert s.cpus[c := Freeing][c := Run] == s.cpus && s.cpus[c := Run] == s.cpus;
    if s.guards.Keys == {id} { assert t.guards == map[]; }
  }
}
