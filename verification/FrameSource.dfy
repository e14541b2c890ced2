/**
 User memory fed from the buddy allocator (src/memory/mod.rs, `allocate_frame`, `deallocate_frame` and
 `init_frame`; src/context/memory.rs, `handle_free_action`): the set of available frames that user memory is
 specified with is at all times the set of frames on the free lists.
 */
module FrameSource {
  import opened Wrappers
  import opened RefCounts
  import opened CopyOnWrite
  import opened Dyadic
  import B = BuddySpec
  import L = FreeLists
  import M = UserMemory

  /** The frames on the free lists. */
  ghost function Held(managed: set<nat>, free: B.Lists): set<nat> {
    set f | f in managed && B.FreeFrame(free, f)
  }

  ghost function Avail(l: L.FreeList): set<nat>
    reads l
  {
    Held(l.info.Keys, l.free)
  }

  lemma ListInv(l: L.FreeList)
    requires l.Valid()
    ensures B.Inv(l.free, l.blocks, l.used, l.info.Keys)
  {
  }

  ghost predicate Unheld(blocks: B.Blocks, f: nat) { forall g :: !B.Holds(blocks, g, f) }

  /** A frame is on a free list exactly when no block in use holds it. */
  lemma HeldIs(managed: set<nat>, free: B.Lists, blocks: B.Blocks, used: B.Blocks, f: nat)
    requires B.Inv(free, blocks, used, managed)
    ensures f in Held(managed, free) <==> f in managed && Unheld(used, f)
  {
    hide B.Inv, B.FreeFrame, B.Holds;
    B.FreeIsNotUsed(free, blocks, used, managed, f);
  }

  /** Only the block itself holds a frame of a block of one. */
  lemma HeldByOne(blocks: B.Blocks, g: nat, f: nat)
    requires g in blocks && blocks[g] == 0
    ensures B.Holds(blocks, g, f) <==> f == g
  {
  }

  /** Handing out frame `f` alone. */
  lemma Taken(was: B.Blocks, now: B.Blocks, f: nat, x: nat)
    requires f !in was && now == was[f := 0]
    ensures Unheld(now, x) <==> x != f && Unheld(was, x)
  {
    HeldByOne(now, f, x);
    forall g | g != f ensures B.Holds(now, g, x) <==> B.Holds(was, g, x) { SameBlock(was, now, g, x); }
    hide B.Holds;
    assert forall g :: B.Holds(now, g, x) <==> (g == f && x == f) || (g != f && B.Holds(was, g, x));
    assert !B.Holds(was, f, x) by { NoBlock(was, f, x); }
  }

  lemma SameBlock(was: B.Blocks, now: B.Blocks, g: nat, x: nat)
    requires (g in was <==> g in now) && (g in was ==> now[g] == was[g])
    ensures B.Holds(now, g, x) <==> B.Holds(was, g, x)
  {
  }

  lemma NoBlock(blocks: B.Blocks, g: nat, x: nat)
    requires g !in blocks
    ensures !B.Holds(blocks, g, x)
  {
  }

  /** A block in use is managed, and its first frame is held by nobody else. */
  lemma UsedAlone(managed: set<nat>, free: B.Lists, blocks: B.Blocks, used: B.Blocks, f: nat, g: nat)
    requires B.Inv(free, blocks, used, managed) && f in used
    ensures f in managed && (B.Holds(used, g, f) ==> g == f)
  {
    assert B.Holds(blocks, f, f);
    if B.Holds(used, g, f) { B.UniqueOwner(blocks, g, f, f); }
  }

  /** Taking frame `f` back. */
  lemma Given(managed: set<nat>, free: B.Lists, blocks: B.Blocks, was: B.Blocks, now: B.Blocks, f: nat, x: nat)
    requires B.Inv(free, blocks, was, managed) && f in was && was[f] == 0 && now == was - {f}
    ensures f in managed && (Unheld(now, x) <==> x == f || Unheld(was, x))
  {
    hide B.Inv, B.Holds;
    HeldByOne(was, f, x);
    NoBlock(now, f, x);
    forall g | g != f ensures B.Holds(now, g, x) <==> B.Holds(was, g, x) { SameBlock(was, now, g, x); }
    UsedAlone(managed, free, blocks, was, f, f);
    forall g ensures B.Holds(was, g, f) ==> g == f { UsedAlone(managed, free, blocks, was, f, g); }
  }

  /** A run of one frame is a free frame. */
  lemma OneFrame(managed: set<nat>, free: B.Lists, blocks: B.Blocks, used: B.Blocks, f: nat)
    requires B.Inv(free, blocks, used, managed)
    ensures B.FreeRun(free, f, 0) <==> f in Held(managed, free)
  {
    hide B.Inv, B.FreeFrame;
    B.FreeIsNotUsed(free, blocks, used, managed, f);
    assert Pow2(0) == 1;
  }

  lemma AfterTake(managed: set<nat>, free: B.Lists, blocks: B.Blocks, used: B.Blocks,
                  free': B.Lists, blocks': B.Blocks, used': B.Blocks, f: nat)
    requires B.Inv(free, blocks, used, managed) && B.Inv(free', blocks', used', managed)
    requires f !in used && used' == used[f := 0]
    ensures Held(managed, free') == Held(managed, free) - {f}
  {
    hide *;
    forall x: nat ensures x in Held(managed, free') <==> x in Held(managed, free) - {f} {
      HeldIs(managed, free, blocks, used, x);
      HeldIs(managed, free', blocks', used', x);
      Taken(used, used', f, x);
    }
  }

  lemma AfterGive(managed: set<nat>, free: B.Lists, blocks: B.Blocks, used: B.Blocks,
                  free': B.Lists, blocks': B.Blocks, used': B.Blocks, f: nat)
    requires B.Inv(free, blocks, used, managed) && B.Inv(free', blocks', used', managed)
    requires f in used && used[f] == 0 && used' == used - {f}
    ensures Held(managed, free') == Held(managed, free) + {f}
  {
    hide *;
    forall x: nat ensures x in Held(managed, free') <==> x in Held(managed, free) + {f} {
      HeldIs(managed, free, blocks, used, x);
      HeldIs(managed, free', blocks', used', x);
      Given(managed, free, blocks, used, used', f, x);
    }
  }

  /** `allocate_frame`: any frame of the set, unless there is none. */
  method Take(l: L.FreeList) returns (f: Option<nat>)
    requires l.Valid()
    modifies l, l.heads
    ensures l.Valid()
    ensures f.None? <==> old(Avail(l)) == {}
    ensures f.None? ==> l.Out() == old(l.Out()) && Avail(l) == old(Avail(l))
    ensures f.Some? ==>
              && f.value in old(Avail(l)) && Avail(l) == old(Avail(l)) - {f.value}
              && f.value !in old(l.Out()) && l.Out() == old(l.Out())[f.value := 0]
  {
    hide L.Wf, B.Inv, B.FreeRun, Held, B.FramesIn, B.FreeTotal;
    ListInv(l);
    ghost var managed, free, blocks, used := l.info.Keys, l.free, l.blocks, l.used;
    forall h: nat { OneFrame(managed, free, blocks, used, h); }
    f := l.Allocate(0);
    ListInv(l);
    if f.Some? { AfterTake(managed, free, blocks, used, l.free, l.blocks, l.used, f.value); }
  }

  /** `deallocate_frame`: the frame joins the set, unless the merge would have to probe frame 0. */
  method Give(l: L.FreeList, f: nat) returns (ok: bool)
    requires l.Valid() && f in l.Out() && l.Out()[f] == 0
    modifies l, l.heads
    ensures !ok <==> B.MergesDownToNull(old(l.free), f, 0)
    ensures ok ==> l.Valid() && l.Out() == old(l.Out()) - {f} && Avail(l) == old(Avail(l)) + {f}
    ensures l.info.Keys == old(l.info.Keys)
  {
    hide L.Wf, B.Inv, Held, B.FramesIn, B.FreeTotal, B.MergesDownToNull;
    ListInv(l);
    ghost var managed, free, blocks, used := l.info.Keys, l.free, l.blocks, l.used;
    ok := l.Deallocate(f, 0);
    if ok {
      ListInv(l);
      AfterGive(managed, free, blocks, used, l.free, l.blocks, l.used, f);
    }
  }

  // User memory over the free lists.

  /** The available frames are the free lists' frames; a referenced frame was handed out on its own. */
  ghost predicate Backed(m: M.UserMemory, l: L.FreeList)
    reads m, l, l.heads
  {
    && m.Valid() && l.Valid() && m.avail == Avail(l)
    && forall f | f in m.rc && f != m.zero :: f in l.Out() && l.Out()[f] == 0
  }

  /** `init_frame` and the mapping of the frame at a page that had none. */
  method MapFresh(m: M.UserMemory, l: L.FreeList, k: Va, write: bool, bytes: Contents) returns (f: Option<nat>)
    requires Backed(m, l) && k !in m.pt && k in m.grants && (write ==> m.grants[k].write)
    modifies m`pt, m`rc, m`mem, m`avail, l, l.heads
    ensures Backed(m, l)
    ensures f.None? <==> old(m.avail) == {}
    ensures f.None? ==> m.pt == old(m.pt) && m.rc == old(m.rc) && m.mem == old(m.mem) && m.avail == old(m.avail)
    ensures f.Some? ==>
              && f.value in old(m.avail) && m.avail == old(m.avail) - {f.value}
              && m.pt == old(m.pt)[k := Pte(f.value, write)]
              && m.rc == old(m.rc)[f.value := One] && m.mem == old(m.mem)[f.value := bytes]
  {
    hide Inv, L.FreeList.Valid, Avail;
    f := Take(l);
    if f.None? { return; }
    MapFreshStep(m.pt, m.grants, m.rc, m.mem, m.avail, m.queue, m.zero, k, write, f.value, bytes);
    InMemory(m.pt, m.grants, m.rc, m.mem, m.avail, m.queue, m.zero, f.value);
    m.pt, m.rc, m.mem, m.avail :=
      m.pt[k := Pte(f.value, write)], m.rc[f.value := One], m.mem[f.value := bytes], m.avail - {f.value};
  }

  lemma InMemory(pt: PageTables, grants: Grants, rc: Counts, mem: Memory, avail: set<nat>, queue: seq<nat>,
                 zero: nat, f: nat)
    requires Inv(pt, grants, rc, mem, avail, queue, zero) && f in avail
    ensures f in mem && f !in rc
  {
  }

  /** `handle_free_action` on the first queued frame; it panics exactly when `deallocate_frame` does. */
  method ReleaseFirst(m: M.UserMemory, l: L.FreeList) returns (ok: bool)
    requires Backed(m, l) && m.queue != []
    modifies m`rc, m`avail, m`queue, l, l.heads
    ensures !ok <==> Refs(m.pt, old(m.queue), m.zero, old(m.queue)[0]) == 1
                     && B.MergesDownToNull(old(l.free), old(m.queue)[0], 0)
    ensures ok ==> Backed(m, l) && m.queue == old(m.queue)[1..]
    ensures ok ==> m.avail == old(m.avail) + (old(m.rc).Keys - m.rc.Keys) && m.rc.Keys <= old(m.rc).Keys
    ensures ok ==> forall f | f in old(m.rc) ::
                     f in m.rc <==> f != old(m.queue)[0] || Refs(m.pt, m.queue, m.zero, f) > 0
    ensures !ok ==> m.rc == old(m.rc) && m.avail == old(m.avail) && m.queue == old(m.queue)
    ensures l.info.Keys == old(l.info.Keys)
  {
    hide Inv, Refs, L.FreeList.Valid, Avail, B.MergesDownToNull;
    var f := m.queue[0];
    ReleaseStep(m.pt, m.grants, m.rc, m.mem, m.avail, m.queue, m.zero);
    RefsAfterRelease(m.pt, m.queue, m.zero, f);
    NotZero(m.pt, m.queue, m.zero);
    var left := RemoveRef(m.rc[f]);
    if left.None? {
      ok := Give(l, f);
      if !ok { return; }
      m.rc, m.avail, m.queue := m.rc - {f}, m.avail + {f}, m.queue[1..];
    } else {
      ok := true;
      m.rc, m.queue := m.rc[f := left.value], m.queue[1..];
    }
  }

  /**
   The whole queue: exactly the frames that lost their last reference went to the free lists. It stops with a panic
   only at a frame whose block would be merged with the one at frame 0, `found` being the free lists at that point.
   */
  method Release(m: M.UserMemory, l: L.FreeList) returns (ok: bool, ghost found: B.Lists)
    requires Backed(m, l)
    modifies m`rc, m`avail, m`queue, l, l.heads
    ensures ok ==> Backed(m, l) && m.queue == []
    ensures ok ==> Avail(l) == old(Avail(l)) + (old(m.rc).Keys - m.rc.Keys) && m.rc.Keys <= old(m.rc).Keys
    ensures ok ==> forall f | f in old(m.rc) :: f in m.rc <==> Refs(m.pt, [], m.zero, f) > 0
    ensures !ok ==> m.queue != [] && B.MergesDownToNull(found, m.queue[0], 0)
    ensures !ok ==> Held(old(l.info.Keys), found) == m.avail && Refs(m.pt, m.queue, m.zero, m.queue[0]) == 1
  {
    hide Inv, Refs, L.FreeList.Valid, Held, B.MergesDownToNull;
    ok, found := true, l.free;
    while m.queue != []
      invariant Backed(m, l) && l.info.Keys == old(l.info.Keys)
      invariant m.avail == old(m.avail) + (old(m.rc).Keys - m.rc.Keys) && m.rc.Keys <= old(m.rc).Keys
      invariant forall f | f in old(m.rc) && f !in m.rc :: Refs(m.pt, m.queue, m.zero, f) == 0
      decreases |m.queue|
    {
      forall f { RefsAfterRelease(m.pt, m.queue, m.zero, f); }
      found := l.free;
      ok := ReleaseFirst(m, l);
      if !ok { return; }
    }
    M.StillReferenced(m.pt, m.grants, m.rc, m.mem, m.avail, m.queue, m.zero);
  }

  lemma NotZero(pt: PageTables, queue: seq<nat>, zero: nat)
    requires queue != []
    ensures Refs(pt, queue, zero, queue[0]) == 1 ==> queue[0] != zero
  {
    ReleaseFacts(pt, queue, zero);
  }
}
