/**
 The operations of the TLB shootdown protocol as wholes (src/context/memory.rs, src/percpu.rs): what each comes to
 when nothing else comes between its steps.
 */
module TlbOperations {
  import opened Wrappers
  import opened TlbShootdown

  predicate Leads(s: State, c: nat, act: Action, t: State) { Enabled(s, c, act) && Apply(s, c, act) == t }

  /** The state with other records of CPU `c` and space `a`. */
  function With(s: State, c: nat, p: Cpu, a: nat, x: Space): State {
    State(s.cpus[c := p], s.spaces[a := x])
  }

  lemma WithStep(s: State, c: nat, p: Cpu, a: nat, x: Space, act: Action, q: Cpu, y: Space)
    requires Enabled(With(s, c, p, a, x), c, act) && !act.Flag? && q == NextCpu(With(s, c, p, a, x), c, act)
    requires if Touched(With(s, c, p, a, x), c, act).None? then y == x
             else Touched(With(s, c, p, a, x), c, act) == Some(a) && y == NextSpace(x, c, act)
    ensures Leads(With(s, c, p, a, x), c, act, With(s, c, q, a, y))
  {
    hide Enabled, NextCpu, NextSpace, Touched;
    assert s.cpus[c := p][c := q] == s.cpus[c := q] && s.spaces[a := x][a := y] == s.spaces[a := y];
  }

  lemma Same(s: State, c: nat, a: nat)
    requires c in s.cpus && a in s.spaces
    ensures With(s, c, s.cpus[c], a, s.spaces[a]) == s
  {
    assert s.cpus[c := s.cpus[c]] == s.cpus && s.spaces[a := s.spaces[a]] == s.spaces;
  }

  /** Changing one's own record, without locking, keeps the space free for readers and for writers. */
  lemma StillFree(s: State, c: nat, p: Cpu, a: nat, x: Space)
    requires c in s.cpus
    ensures NoWriter(s, a) && Writes(p).None? ==> NoWriter(With(s, c, p, a, x), a)
    ensures NoReader(s, a) && Reads(p) != Some(a) ==> NoReader(With(s, c, p, a, x), a)
  {
  }

  /** A CPU leaves its space: its bit is cleared, under the space's lock. */
  lemma SpaceLeft(s: State, c: nat, a: nat, next: Option<nat>)
    returns (s1: State, s2: State, s3: State, s4: State)
    requires c in s.cpus && a in s.spaces && s.cpus[c].pc.Run? && s.cpus[c].handler.Idle? && s.cpus[c].cur == Some(a)
    requires next != Some(a) && (next.Some? ==> next.value in s.spaces) && NoWriter(s, a)
    ensures Leads(s, c, BeginSwitch(next), s1) && Leads(s1, c, ReadOld, s2)
    ensures Leads(s2, c, ClearBit, s3) && Leads(s3, c, DropOld, s4)
    ensures s4 == With(s, c, s.cpus[c].(pc := Detached(next)), a, s.spaces[a].(usedBy := s.spaces[a].usedBy - {c}))
  {
    hide Leads, Apply;
    var p, x := s.cpus[c], s.spaces[a];
    var y := x.(usedBy := x.usedBy - {c});
    Same(s, c, a);
    s1 := With(s, c, p.(pc := WantOld(next)), a, x);
    s2 := With(s, c, p.(pc := HoldOld(next)), a, x);
    s3 := With(s, c, p.(pc := Cleared(next)), a, y);
    s4 := With(s, c, p.(pc := Detached(next)), a, y);
    StillFree(s, c, p.(pc := WantOld(next)), a, x);
    WithStep(s, c, p, a, x, BeginSwitch(next), p.(pc := WantOld(next)), x);
    WithStep(s, c, p.(pc := WantOld(next)), a, x, ReadOld, p.(pc := HoldOld(next)), x);
    WithStep(s, c, p.(pc := HoldOld(next)), a, x, ClearBit, p.(pc := Cleared(next)), y);
    WithStep(s, c, p.(pc := Cleared(next)), a, y, DropOld, p.(pc := Detached(next)), y);
  }

  /** It sets its bit in the next space, under that space's lock. */
  lemma BitPut(s: State, c: nat, a: nat) returns (s1: State, s2: State, s3: State)
    requires c in s.cpus && a in s.spaces && s.cpus[c].pc == Detached(Some(a)) && s.cpus[c].handler.Idle?
    requires NoWriter(s, a)
    ensures Leads(s, c, SetCurrent, s1) && Leads(s1, c, ReadNew, s2) && Leads(s2, c, SetBit, s3)
    ensures s3 == With(s, c, s.cpus[c].(cur := Some(a), pc := BitSet),
                       a, s.spaces[a].(usedBy := s.spaces[a].usedBy + {c}))
  {
    hide Leads, Apply;
    var p, x := s.cpus[c].(cur := Some(a)), s.spaces[a];
    Same(s, c, a);
    s1 := With(s, c, p.(pc := WantNew), a, x);
    s2 := With(s, c, p.(pc := HoldNew), a, x);
    s3 := With(s, c, p.(pc := BitSet), a, x.(usedBy := x.usedBy + {c}));
    StillFree(s, c, p.(pc := WantNew), a, x);
    WithStep(s, c, s.cpus[c], a, x, SetCurrent, p.(pc := WantNew), x);
    WithStep(s, c, p.(pc := WantNew), a, x, ReadNew, p.(pc := HoldNew), x);
    WithStep(s, c, p.(pc := HoldNew), a, x, SetBit, p.(pc := BitSet), x.(usedBy := x.usedBy + {c}));
  }

  /** And then loads that space's table. */
  lemma SpaceEntered(s: State, c: nat, a: nat)
    returns (s1: State, s2: State, s3: State, s4: State, s5: State)
    requires c in s.cpus && a in s.spaces && s.cpus[c].pc == Detached(Some(a)) && s.cpus[c].handler.Idle?
    requires NoWriter(s, a)
    ensures Leads(s, c, SetCurrent, s1) && Leads(s1, c, ReadNew, s2) && Leads(s2, c, SetBit, s3)
    ensures Leads(s3, c, LoadTable, s4) && Leads(s4, c, DropNew, s5)
    ensures s5 == With(s, c, Cpu(Some(a), s.cpus[c].wants, Some(a), {}, Idle, Run),
                       a, s.spaces[a].(usedBy := s.spaces[a].usedBy + {c}))
  {
    hide Leads, Apply, NoWriter;
    s1, s2, s3 := BitPut(s, c, a);
    var p, y := s.cpus[c].(cur := Some(a), pc := BitSet), s.spaces[a].(usedBy := s.spaces[a].usedBy + {c});
    var q := Cpu(Some(a), p.wants, Some(a), {}, Idle, Run);
    s4 := With(s, c, q.(pc := Loaded), a, y);
    s5 := With(s, c, q, a, y);
    WithStep(s, c, p, a, y, LoadTable, q.(pc := Loaded), y);
    WithStep(s, c, q.(pc := Loaded), a, y, DropNew, q, y);
  }

  /** A CPU that is to use no space loads the empty table. */
  lemma NoSpaceEntered(s: State, c: nat) returns (s1: State, s2: State)
    requires c in s.cpus && s.cpus[c].pc == Detached(None) && s.cpus[c].handler.Idle?
    ensures Leads(s, c, SetCurrent, s1) && Leads(s1, c, LoadEmpty, s2)
    ensures s2 == s.(cpus := s.cpus[c := Cpu(None, s.cpus[c].wants, None, {}, Idle, Run)])
  {
    s1 := Apply(s, c, SetCurrent);
    s2 := Apply(s1, c, LoadEmpty);
    assert s2.cpus == s.cpus[c := Cpu(None, s.cpus[c].wants, None, {}, Idle, Run)];
  }

  /** A CPU that finds its flag raised drops its cache and acks to its current space. */
  lemma RequestHandled(s: State, c: nat, a: nat) returns (s1: State, s2: State, s3: State)
    requires c in s.cpus && a in s.spaces && s.cpus[c].cur == Some(a) && s.cpus[c].wants && Polls(s.cpus[c].pc)
    requires s.cpus[c].handler.Idle?
    ensures Leads(s, c, Swap, s1) && Leads(s1, c, Invalidate, s2) && Leads(s2, c, Ack, s3)
    ensures s3 == With(s, c, s.cpus[c].(wants := false, tlb := {}),
                       a, s.spaces[a].(ack := s.spaces[a].ack + 1, acked := s.spaces[a].acked + {c}))
  {
    hide Leads, Apply;
    var p, x := s.cpus[c].(wants := false), s.spaces[a];
    var y := x.(ack := x.ack + 1, acked := x.acked + {c});
    Same(s, c, a);
    s1 := With(s, c, p.(handler := Swapped), a, x);
    s2 := With(s, c, p.(tlb := {}, handler := Invalidated), a, x);
    s3 := With(s, c, p.(tlb := {}), a, y);
    WithStep(s, c, s.cpus[c], a, x, Swap, p.(handler := Swapped), x);
    WithStep(s, c, p.(handler := Swapped), a, x, Invalidate, p.(tlb := {}, handler := Invalidated), x);
    WithStep(s, c, p.(tlb := {}, handler := Invalidated), a, x, Ack, p.(tlb := {}), y);
  }

  /** A CPU takes a space's write lock when nobody holds the lock. */
  lemma SpaceLocked(s: State, c: nat, a: nat) returns (s1: State, s2: State)
    requires c in s.cpus && a in s.spaces && s.cpus[c].pc.Run? && s.cpus[c].handler.Idle?
    requires NoWriter(s, a) && NoReader(s, a)
    ensures Leads(s, c, BeginWrite(a), s1) && Leads(s1, c, AcquireWrite, s2)
    ensures s2 == s.(cpus := s.cpus[c := s.cpus[c].(pc := Writing(a))])
  {
    hide Leads, Apply;
    var p, x := s.cpus[c], s.spaces[a];
    Same(s, c, a);
    s1 := With(s, c, p.(pc := WantWrite(a)), a, x);
    s2 := With(s, c, p.(pc := Writing(a)), a, x);
    StillFree(s, c, p.(pc := WantWrite(a)), a, x);
    WithStep(s, c, p, a, x, BeginWrite(a), p.(pc := WantWrite(a)), x);
    WithStep(s, c, p.(pc := WantWrite(a)), a, x, AcquireWrite, p.(pc := Writing(a)), x);
    assert s.spaces[a := x] == s.spaces;
  }

  /** Flagging asks every other user of the space, one after the other, and resets the acks. */
  lemma FlushStarted(s: State, c: nat, a: nat, t: Translation) returns (s1: State, s2: State)
    requires c in s.cpus && a in s.spaces && s.cpus[c].pc == Writing(a) && s.cpus[c].handler.Idle?
    requires t in s.spaces[a].pt
    ensures Leads(s, c, Unmap(t), s1) && Leads(s1, c, BeginFlush, s2)
    ensures s2 == With(s, c, s.cpus[c].(pc := Flagging(a, s.spaces[a].usedBy - {c}, 0)), a,
                       s.spaces[a].(pt := s.spaces[a].pt - {t}, stale := s.spaces[a].stale + {t},
                                    ack := 0, acked := {}))
  {
    hide Leads, Apply;
    var p, x := s.cpus[c], s.spaces[a];
    var y := x.(pt := x.pt - {t}, stale := x.stale + {t});
    Same(s, c, a);
    s1 := With(s, c, p, a, y);
    s2 := With(s, c, p.(pc := Flagging(a, x.usedBy - {c}, 0)), a, y.(ack := 0, acked := {}));
    WithStep(s, c, p, a, x, Unmap(t), p, y);
    WithStep(s, c, p, a, y, BeginFlush, p.(pc := Flagging(a, x.usedBy - {c}, 0)), y.(ack := 0, acked := {}));
  }

  lemma UserFlagged(s: State, c: nat, a: nat, d: nat) returns (s1: State)
    requires c in s.cpus && s.cpus[c].pc.Flagging? && s.cpus[c].pc.space == a && s.cpus[c].handler.Idle?
    requires d in s.cpus && d in s.cpus[c].pc.todo && d != c && !s.cpus[d].wants
    ensures Leads(s, c, Flag(d), s1)
    ensures s1 == s.(cpus := s.cpus[d := s.cpus[d].(wants := true)]
                              [c := s.cpus[c].(pc := Flagging(a, s.cpus[c].pc.todo - {d}, s.cpus[c].pc.sent + 1))])
  {
    s1 := Apply(s, c, Flag(d));
  }

  /** With everybody asked and enough acks the flush frees, and nothing is stale. */
  lemma FlushFrees(s: State, c: nat, a: nat, sent: nat) returns (s1: State, s2: State)
    requires c in s.cpus && a in s.spaces && s.cpus[c].pc == Flagging(a, {}, sent) && s.cpus[c].handler.Idle?
    requires s.spaces[a].ack >= sent
    ensures Leads(s, c, FlushLocal, s1) && Leads(s1, c, Free, s2)
    ensures s2 == With(s, c, s.cpus[c].(tlb := if c in s.spaces[a].usedBy then {} else s.cpus[c].tlb, pc := Writing(a)),
                       a, s.spaces[a].(stale := {}))
  {
    hide Leads, Apply;
    var x := s.spaces[a];
    var p, y := s.cpus[c].(tlb := if c in x.usedBy then {} else s.cpus[c].tlb), x.(stale := {});
    Same(s, c, a);
    s1 := With(s, c, p.(pc := Waiting(a, sent)), a, x);
    s2 := With(s, c, p.(pc := Writing(a)), a, y);
    WithStep(s, c, s.cpus[c], a, x, FlushLocal, p.(pc := Waiting(a, sent)), x);
    WithStep(s, c, p.(pc := Waiting(a, sent)), a, x, Free, p.(pc := Writing(a)), y);
  }

  /** With nothing stale the lock is let go. */
  lemma SpaceUnlocked(s: State, c: nat, a: nat) returns (s1: State)
    requires c in s.cpus && a in s.spaces && s.cpus[c].pc == Writing(a) && s.cpus[c].handler.Idle?
    requires s.spaces[a].stale == {}
    ensures Leads(s, c, EndWrite, s1) && s1 == s.(cpus := s.cpus[c := s.cpus[c].(pc := Run)])
  {
    s1 := Apply(s, c, EndWrite);
  }

  /** A CPU that is still being asked by another flush is asked again: nothing changes. */
  lemma AskedAlready(s: State, c: nat, d: nat)
    requires c in s.cpus && s.cpus[c].pc.Flagging? && s.cpus[c].handler.Idle?
    requires d in s.cpus && d in s.cpus[c].pc.todo && d != c && s.cpus[d].wants
    ensures Leads(s, c, Flag(d), s)
  {
    assert s.cpus[c := s.cpus[c]][d := s.cpus[d].(wants := true)] == s.cpus;
  }

  /** Any CPU may drop any translation at any time. */
  lemma Evicted(s: State, c: nat, t: Translation) returns (s1: State)
    requires c in s.cpus
    ensures Leads(s, c, Evict(t), s1) && s1 == s.(cpus := s.cpus[c := s.cpus[c].(tlb := s.cpus[c].tlb - {t})])
  {
    s1 := Apply(s, c, Evict(t));
  }
}
