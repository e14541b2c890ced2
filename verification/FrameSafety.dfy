/**
 Copy-on-write memory and the TLB shootdown together: many CPUs change many address spaces, each under its
 write lock, and frames go back to the allocator only after a flush (src/context/memory.rs, src/percpu.rs).
 The shootdown machine's tables hold what a CPU may cache: a page that may be written may be cached for
 reading only, as it is after its rights were raised, but not the other way round.
 */
module FrameSafety {
  import opened Wrappers
  import opened Helpers
  import opened RefCounts
  import opened CopyOnWrite
  import T = TlbShootdown
  import U = UserMemory

  /** A frame whose release waits for the flush of a space. */
  datatype Pending = Pending(space: nat, frame: nat)

  datatype State = State(
    tlb: T.State, pt: PageTables, grants: Grants, rc: Counts, mem: Memory, avail: set<nat>,
    queue: seq<Pending>, zero: nat)

  datatype Action =
    | Cpu(act: T.Action)
    | MapFresh(k: Va, write: bool, frame: nat, bytes: Contents)
    | Share(k: Va, frame: nat)
    | SetFlags(k: Va, write: bool)
    | Unmap(k: Va)
    | Free
    | AddGrant(k: Va, flags: Flags)
    | DropGrant(k: Va)

  /** The translations of an entry that a CPU may cache. */
  function Views(pt: PageTables, k: Va): set<T.Translation> {
    if k !in pt then {}
    else
      {T.Translation(k.page, pt[k].frame, false)}
      + if pt[k].write then {T.Translation(k.page, pt[k].frame, true)} else {}
  }

  /** Space `a` with some translations removed, to be flushed, and others added. */
  function Edited(tlb: T.State, a: nat, gone: set<T.Translation>, added: set<T.Translation>): T.State {
    if a in tlb.spaces then
      var x := tlb.spaces[a];
      tlb.(spaces := tlb.spaces[a := x.(pt := x.pt - gone + added, stale := x.stale + gone)])
    else tlb
  }

  /** The change of entry `k` as the shootdown machine sees it. */
  function Changed(tlb: T.State, k: Va, pt: PageTables, next: PageTables): T.State {
    Edited(tlb, k.space, Views(pt, k) - Views(next, k), Views(next, k) - Views(pt, k))
  }

  predicate WritesSpace(tlb: T.State, c: nat, a: nat) {
    c in tlb.cpus && tlb.cpus[c].pc == T.Writing(a) && tlb.cpus[c].handler == T.Idle && a in tlb.spaces
  }

  ghost predicate Enabled(s: State, c: nat, act: Action) {
    match act
    case Cpu(a) => !a.Map? && !a.Unmap? && !a.Free? && T.Enabled(s.tlb, c, a)
    case MapFresh(k, write, f, _) =>
      && WritesSpace(s.tlb, c, k.space)
      && k !in s.pt && k in s.grants && (write ==> s.grants[k].write) && f in s.avail
    case Share(k, f) =>
      && WritesSpace(s.tlb, c, k.space)
      && k !in s.pt && k in s.grants && f in s.rc && s.rc[f].Count() < RC_MAX
      && forall j | j in s.pt && s.pt[j].frame == f :: !s.pt[j].write
    case SetFlags(k, write) =>
      && WritesSpace(s.tlb, c, k.space) && k in s.pt && k in s.grants && s.pt[k].frame in s.rc
      && (write ==> s.grants[k].write && s.rc[s.pt[k].frame] == One)
    case Unmap(k) => WritesSpace(s.tlb, c, k.space) && k in s.pt
    case Free => T.Enabled(s.tlb, c, T.Free)
    case AddGrant(k, _) => WritesSpace(s.tlb, c, k.space) && k !in s.grants
    case DropGrant(k) => WritesSpace(s.tlb, c, k.space) && k !in s.pt
  }

  // Releasing the frames of one space.

  function Frames(queue: seq<Pending>): seq<nat> {
    if queue == [] then [] else [queue[0].frame] + Frames(queue[1..])
  }

  function Mine(queue: seq<Pending>, a: nat): seq<nat> {
    if queue == [] then [] else (if queue[0].space == a then [queue[0].frame] else []) + Mine(queue[1..], a)
  }

  function Others(queue: seq<Pending>, a: nat): seq<Pending> {
    if queue == [] then [] else (if queue[0].space == a then [] else [queue[0]]) + Others(queue[1..], a)
  }

  /** `handle_free_action` on each frame. */
  function Released(rc: Counts, frames: seq<nat>): Counts {
    if frames == [] then rc
    else if frames[0] !in rc then Released(rc, frames[1..])
    else
      var left := RemoveRef(rc[frames[0]]);
      Released(if left.None? then rc - {frames[0]} else rc[frames[0] := left.value], frames[1..])
  }

  function Apply(s: State, c: nat, act: Action): State
    requires Enabled(s, c, act)
  {
    match act
    case Cpu(a) => s.(tlb := T.Apply(s.tlb, c, a))
    case MapFresh(k, write, f, bytes) =>
      var pt := s.pt[k := Pte(f, write)];
      s.(tlb := Changed(s.tlb, k, s.pt, pt), pt := pt, rc := s.rc[f := One], mem := s.mem[f := bytes],
         avail := s.avail - {f})
    case Share(k, f) =>
      var pt := s.pt[k := Pte(f, false)];
      var added := AddRef(s.rc[f], CowRef);
      s.(tlb := Changed(s.tlb, k, s.pt, pt), pt := pt, rc := if added.Added? then s.rc[f := added.rc] else s.rc)
    case SetFlags(k, write) =>
      var pt := s.pt[k := Pte(s.pt[k].frame, write)];
      s.(tlb := Changed(s.tlb, k, s.pt, pt), pt := pt)
    case Unmap(k) =>
      s.(tlb := Changed(s.tlb, k, s.pt, s.pt - {k}), pt := s.pt - {k},
         queue := s.queue + [Pending(k.space, s.pt[k].frame)])
    case Free =>
      var a := s.tlb.cpus[c].pc.space;
      var rc := Released(s.rc, Mine(s.queue, a));
      s.(tlb := T.Apply(s.tlb, c, T.Free), rc := rc, avail := s.avail + (s.rc.Keys - rc.Keys),
         queue := Others(s.queue, a))
    case AddGrant(k, flags) => s.(grants := s.grants[k := flags])
    case DropGrant(k) => s.(grants := s.grants - {k})
  }

  // The invariant.

  /** The shootdown machine's tables are the views of the real entries. */
  ghost predicate Coupled(tlb: T.State, pt: PageTables) {
    && (forall k | k in pt :: k.space in tlb.spaces)
    && (forall a, t: T.Translation | a in tlb.spaces :: t in tlb.spaces[a].pt <==> t in Views(pt, Va(a, t.page)))
  }

  predicate StillMapped(pt: PageTables, a: nat, t: T.Translation) {
    Va(a, t.page) in pt && pt[Va(a, t.page)].frame == t.frame
  }

  /** What was removed and not flushed is still mapped with fewer rights, or has its frame in the queue. */
  ghost predicate StaleOk(tlb: T.State, pt: PageTables, queue: seq<Pending>) {
    forall a, t | a in tlb.spaces && t in tlb.spaces[a].stale :: StillMapped(pt, a, t) || Pending(a, t.frame) in queue
  }

  /** A CPU without an address space caches nothing. */
  ghost predicate NoSpaceNoCache(tlb: T.State) {
    forall c | c in tlb.cpus && tlb.cpus[c].cur.None? && T.Attached(tlb.cpus[c].pc) ::
      tlb.cpus[c].loaded.None? && tlb.cpus[c].tlb == {}
  }

  ghost predicate Good(s: State) {
    && T.Inv(s.tlb) && NoSpaceNoCache(s.tlb) && Coupled(s.tlb, s.pt) && StaleOk(s.tlb, s.pt, s.queue)
    && Inv(s.pt, s.grants, s.rc, s.mem, s.avail, Frames(s.queue), s.zero)
  }

  /** The releases only depend on which frames are queued, and how often. */
  lemma InvOfQueue(pt: PageTables, grants: Grants, rc: Counts, mem: Memory, avail: set<nat>,
                   q: seq<nat>, r: seq<nat>, zero: nat)
    requires Inv(pt, grants, rc, mem, avail, q, zero) && multiset(q) == multiset(r)
    ensures Inv(pt, grants, rc, mem, avail, r, zero)
  {
    forall f | f in r ensures f in q { assert f in multiset(r); assert f in multiset(q); }
  }

  lemma BagCons(x: nat, s: seq<nat>)
    ensures multiset([x] + s) == multiset{x} + multiset(s)
  {
  }

  lemma {:induction false} QueueSplits(queue: seq<Pending>, a: nat)
    ensures multiset(Frames(queue)) == multiset(Mine(queue, a)) + multiset(Frames(Others(queue, a)))
  {
    if queue != [] {
      var h, tail := queue[0], queue[1..];
      QueueSplits(tail, a);
      var m, o := Mine(tail, a), Others(tail, a);
      SplitStep(queue, a, m, o);
      hide Mine, Others, Frames;
      BagCons(h.frame, Frames(tail));
      BagCons(h.frame, m);
      BagCons(h.frame, Frames(o));
    }
  }

  lemma SplitStep(queue: seq<Pending>, a: nat, m: seq<nat>, o: seq<Pending>)
    requires queue != [] && m == Mine(queue[1..], a) && o == Others(queue[1..], a)
    ensures Frames(queue) == [queue[0].frame] + Frames(queue[1..])
    ensures queue[0].space == a ==> Mine(queue, a) == [queue[0].frame] + m && Others(queue, a) == o
    ensures queue[0].space != a ==> Mine(queue, a) == m && Frames(Others(queue, a)) == [queue[0].frame] + Frames(o)
  {
    assert ([queue[0]] + o)[1..] == o;
  }

  lemma {:induction false} FramesSnoc(queue: seq<Pending>, p: Pending)
    ensures Frames(queue + [p]) == Frames(queue) + [p.frame]
  {
    if queue != [] {
      assert (queue + [p])[1..] == queue[1..] + [p];
      FramesSnoc(queue[1..], p);
    }
  }

  lemma {:induction false} InQueue(queue: seq<Pending>, p: Pending, a: nat)
    requires p in queue
    ensures p.frame in Frames(queue) && (p.space != a ==> p in Others(queue, a))
  {
    if queue[0] != p { InQueue(queue[1..], p, a); }
  }

  /** Releasing a run of queued frames: each goes back exactly when its last reference went. */
  lemma {:induction false} ReleasedKeeps(pt: PageTables, grants: Grants, rc: Counts, mem: Memory, avail: set<nat>,
                                         mine: seq<nat>, rest: seq<nat>, zero: nat)
    requires Inv(pt, grants, rc, mem, avail, mine + rest, zero)
    ensures var r := Released(rc, mine);
            r.Keys <= rc.Keys && Inv(pt, grants, r, mem, avail + (rc.Keys - r.Keys), rest, zero)
    decreases |mine|
  {
    hide Inv, Refs;
    if mine == [] {
      assert mine + rest == rest && avail + (rc.Keys - rc.Keys) == avail;
    } else {
      var f := mine[0];
      assert (mine + rest)[0] == f && (mine + rest)[1..] == mine[1..] + rest;
      ReleaseStep(pt, grants, rc, mem, avail, mine + rest, zero);
      var left := RemoveRef(rc[f]);
      var next := if left.None? then rc - {f} else rc[f := left.value];
      var spare := if left.None? then avail + {f} else avail;
      ReleasedKeeps(pt, grants, next, mem, spare, mine[1..], rest, zero);
      var r := Released(next, mine[1..]);
      assert spare + (next.Keys - r.Keys) == avail + (rc.Keys - r.Keys);
    }
  }

  // What the shootdown machine's steps do to the tables.

  lemma TablesKept(tlb: T.State, c: nat, act: T.Action, a: nat)
    requires T.Enabled(tlb, c, act) && !act.Map? && !act.Unmap? && a in tlb.spaces
    ensures a in T.Apply(tlb, c, act).spaces && T.Apply(tlb, c, act).spaces[a].pt == tlb.spaces[a].pt
    ensures T.Apply(tlb, c, act).spaces.Keys == tlb.spaces.Keys
    ensures !act.Free? || tlb.cpus[c].pc.space != a ==> T.Apply(tlb, c, act).spaces[a].stale == tlb.spaces[a].stale
    ensures act.Free? && tlb.cpus[c].pc.space == a ==> T.Apply(tlb, c, act).spaces[a].stale == {}
  {
    hide T.NextCpu, T.Raise;
  }

  lemma OwnNoSpace(tlb: T.State, c: nat, act: T.Action)
    requires T.Enabled(tlb, c, act)
    requires tlb.cpus[c].cur.None? && T.Attached(tlb.cpus[c].pc) ==> tlb.cpus[c].loaded.None? && tlb.cpus[c].tlb == {}
    ensures var q := T.NextCpu(tlb, c, act); q.cur.None? && T.Attached(q.pc) ==> q.loaded.None? && q.tlb == {}
  {
    hide T.NoWriter, T.NoReader;
  }

  lemma NoSpaceStep(tlb: T.State, c: nat, act: T.Action)
    requires T.Inv(tlb) && T.Enabled(tlb, c, act) && NoSpaceNoCache(tlb)
    ensures NoSpaceNoCache(T.Apply(tlb, c, act))
  {
    T.NotSelf(tlb, c, act);
    hide T.Inv, T.Enabled, T.Apply, T.NextCpu;
    T.OwnStep(tlb, c, act);
    OwnNoSpace(tlb, c, act);
    var u := T.Apply(tlb, c, act);
    forall d | d in u.cpus && u.cpus[d].cur.None? && T.Attached(u.cpus[d].pc)
      ensures u.cpus[d].loaded.None? && u.cpus[d].tlb == {}
    {
      if d != c { T.OthersKept(tlb, c, act, d); }
    }
  }

  // Editing a table is a series of the shootdown machine's steps.

  lemma MapIs(tlb: T.State, c: nat, a: nat, t: T.Translation)
    requires WritesSpace(tlb, c, a)
    ensures T.Enabled(tlb, c, T.Map(t)) && T.Apply(tlb, c, T.Map(t)) == Edited(tlb, a, {}, {t})
  {
    assert tlb.cpus[c := tlb.cpus[c]] == tlb.cpus;
    assert tlb.spaces[a].pt - {} + {t} == tlb.spaces[a].pt + {t} && tlb.spaces[a].stale + {} == tlb.spaces[a].stale;
  }

  lemma UnmapIs(tlb: T.State, c: nat, a: nat, t: T.Translation)
    requires WritesSpace(tlb, c, a) && t in tlb.spaces[a].pt
    ensures T.Enabled(tlb, c, T.Unmap(t)) && T.Apply(tlb, c, T.Unmap(t)) == Edited(tlb, a, {t}, {})
  {
    assert tlb.cpus[c := tlb.cpus[c]] == tlb.cpus;
    assert tlb.spaces[a].pt - {t} + {} == tlb.spaces[a].pt - {t};
  }

  lemma {:induction false} EditKeeps(tlb: T.State, c: nat, a: nat, gone: set<T.Translation>, added: set<T.Translation>)
    requires T.Inv(tlb) && NoSpaceNoCache(tlb) && WritesSpace(tlb, c, a) && gone <= tlb.spaces[a].pt
    ensures T.Inv(Edited(tlb, a, gone, added)) && NoSpaceNoCache(Edited(tlb, a, gone, added))
    decreases |gone| + |added|
  {
    hide T.Inv, NoSpaceNoCache, Edited;
    if gone != {} {
      var t :| t in gone;
      UnmapOne(tlb, c, a, t, gone);
      EditKeeps(Edited(tlb, a, {t}, {}), c, a, gone - {t}, added);
      EditTwice(tlb, a, {t}, {}, gone - {t}, added);
      assert {t} + (gone - {t}) == gone && {} + added == added;
    } else if added != {} {
      var t :| t in added;
      MapOne(tlb, c, a, t);
      EditKeeps(Edited(tlb, a, {}, {t}), c, a, {}, added - {t});
      EditTwice(tlb, a, {}, {t}, {}, added - {t});
      assert {t} + (added - {t}) == added && {} + {} == gone;
    } else {
      EditNothing(tlb, a);
    }
  }

  lemma UnmapOne(tlb: T.State, c: nat, a: nat, t: T.Translation, gone: set<T.Translation>)
    requires T.Inv(tlb) && NoSpaceNoCache(tlb) && WritesSpace(tlb, c, a) && t in gone && gone <= tlb.spaces[a].pt
    ensures var u := Edited(tlb, a, {t}, {});
            T.Inv(u) && NoSpaceNoCache(u) && WritesSpace(u, c, a) && gone - {t} <= u.spaces[a].pt
  {
    hide T.Inv, T.Enabled, T.Apply, NoSpaceNoCache;
    UnmapIs(tlb, c, a, t);
    T.Step(tlb, c, T.Unmap(t));
    NoSpaceStep(tlb, c, T.Unmap(t));
  }

  lemma MapOne(tlb: T.State, c: nat, a: nat, t: T.Translation)
    requires T.Inv(tlb) && NoSpaceNoCache(tlb) && WritesSpace(tlb, c, a)
    ensures var u := Edited(tlb, a, {}, {t}); T.Inv(u) && NoSpaceNoCache(u) && WritesSpace(u, c, a)
  {
    hide T.Inv, T.Enabled, T.Apply, NoSpaceNoCache;
    MapIs(tlb, c, a, t);
    T.Step(tlb, c, T.Map(t));
    NoSpaceStep(tlb, c, T.Map(t));
  }

  lemma EditNothing(tlb: T.State, a: nat)
    requires a in tlb.spaces
    ensures Edited(tlb, a, {}, {}) == tlb
  {
    assert tlb.spaces[a].pt - {} + {} == tlb.spaces[a].pt && tlb.spaces[a].stale + {} == tlb.spaces[a].stale;
    assert tlb.spaces[a := tlb.spaces[a]] == tlb.spaces;
  }

  lemma EditTwice(tlb: T.State, a: nat, g1: set<T.Translation>, a1: set<T.Translation>,
                  g2: set<T.Translation>, a2: set<T.Translation>)
    requires a in tlb.spaces && g2 !! a1
    ensures Edited(Edited(tlb, a, g1, a1), a, g2, a2) == Edited(tlb, a, g1 + g2, a1 + a2)
  {
    var x := tlb.spaces[a];
    assert x.pt - g1 + a1 - g2 + a2 == x.pt - (g1 + g2) + (a1 + a2);
    assert x.stale + g1 + g2 == x.stale + (g1 + g2);
  }

  /** The two tables differ at most at `k`. */
  ghost predicate OnlyAt(pt: PageTables, next: PageTables, k: Va) {
    forall j | j != k :: (j in pt <==> j in next) && (j in pt ==> next[j] == pt[j])
  }

  lemma ChangeKeeps(tlb: T.State, c: nat, k: Va, pt: PageTables, next: PageTables)
    requires T.Inv(tlb) && NoSpaceNoCache(tlb) && WritesSpace(tlb, c, k.space)
    requires Coupled(tlb, pt) && OnlyAt(pt, next, k)
    ensures var u := Changed(tlb, k, pt, next); T.Inv(u) && NoSpaceNoCache(u) && Coupled(u, next)
  {
    assert Views(pt, k) <= tlb.spaces[k.space].pt;
    EditKeeps(tlb, c, k.space, Views(pt, k) - Views(next, k), Views(next, k) - Views(pt, k));
    hide T.Inv, NoSpaceNoCache;
    CoupledChange(tlb, k, pt, next);
  }

  lemma CoupledChange(tlb: T.State, k: Va, pt: PageTables, next: PageTables)
    requires k.space in tlb.spaces && Coupled(tlb, pt) && OnlyAt(pt, next, k)
    ensures Coupled(Changed(tlb, k, pt, next), next)
  {
    var u := Changed(tlb, k, pt, next);
    forall a, t: T.Translation | a in u.spaces ensures t in u.spaces[a].pt <==> t in Views(next, Va(a, t.page)) {
      hide OnlyAt, Views;
      assert t in tlb.spaces[a].pt <==> t in Views(pt, Va(a, t.page));
      if Va(a, t.page) != k {
        ViewsElsewhere(pt, next, k, Va(a, t.page));
        ViewsPage(pt, k, t);
        ViewsPage(next, k, t);
      }
    }
  }

  lemma ViewsElsewhere(pt: PageTables, next: PageTables, k: Va, j: Va)
    requires OnlyAt(pt, next, k) && j != k
    ensures Views(next, j) == Views(pt, j)
  {
  }

  lemma ViewsPage(pt: PageTables, k: Va, t: T.Translation)
    ensures t in Views(pt, k) ==> t.page == k.page && t.frame == pt[k].frame
  {
  }

  lemma StaleChange(tlb: T.State, k: Va, pt: PageTables, next: PageTables, queue: seq<Pending>, longer: seq<Pending>)
    requires k.space in tlb.spaces && StaleOk(tlb, pt, queue) && OnlyAt(pt, next, k)
    requires forall p | p in queue :: p in longer
    requires k in pt ==> (k in next && next[k].frame == pt[k].frame) || Pending(k.space, pt[k].frame) in longer
    ensures StaleOk(Changed(tlb, k, pt, next), next, longer)
  {
    var u := Changed(tlb, k, pt, next);
    forall a, t | a in u.spaces && t in u.spaces[a].stale
      ensures StillMapped(next, a, t) || Pending(a, t.frame) in longer
    {
      ViewsPage(pt, k, t);
      if t in tlb.spaces[a].stale { assert StillMapped(pt, a, t) || Pending(a, t.frame) in queue; }
    }
  }

  lemma CoupledSame(tlb: T.State, pt: PageTables, u: T.State)
    requires Coupled(tlb, pt) && u.spaces.Keys == tlb.spaces.Keys
    requires forall a | a in tlb.spaces :: u.spaces[a].pt == tlb.spaces[a].pt
    ensures Coupled(u, pt)
  {
  }

  // Every step keeps the invariant.

  lemma CpuStep(s: State, c: nat, act: T.Action)
    requires Good(s) && Enabled(s, c, Cpu(act))
    ensures Good(Apply(s, c, Cpu(act)))
  {
    hide T.Inv, T.Enabled, T.Apply, Inv, Coupled, StaleOk;
    T.Step(s.tlb, c, act);
    NoSpaceStep(s.tlb, c, act);
    TablesSame(s.tlb, c, act, s.pt, s.queue);
  }

  lemma TablesSame(tlb: T.State, c: nat, act: T.Action, pt: PageTables, queue: seq<Pending>)
    requires T.Inv(tlb) && T.Enabled(tlb, c, act) && !act.Map? && !act.Unmap? && !act.Free?
    requires Coupled(tlb, pt) && StaleOk(tlb, pt, queue)
    ensures Coupled(T.Apply(tlb, c, act), pt) && StaleOk(T.Apply(tlb, c, act), pt, queue)
  {
    T.NotSelf(tlb, c, act);
    T.OwnStep(tlb, c, act);
    hide T.Inv, T.Enabled, T.Apply, Coupled, StillMapped;
    var u := T.Apply(tlb, c, act);
    forall a | a in tlb.spaces ensures u.spaces[a].pt == tlb.spaces[a].pt && u.spaces[a].stale == tlb.spaces[a].stale {
      TablesKept(tlb, c, act, a);
    }
    CoupledSame(tlb, pt, u);
  }

  lemma FreshStep(s: State, c: nat, k: Va, write: bool, f: nat, bytes: Contents)
    requires Good(s) && Enabled(s, c, MapFresh(k, write, f, bytes))
    ensures Good(Apply(s, c, MapFresh(k, write, f, bytes)))
  {
    hide T.Inv, Inv, Coupled, StaleOk, NoSpaceNoCache, Changed;
    var pt := s.pt[k := Pte(f, write)];
    ChangeKeeps(s.tlb, c, k, s.pt, pt);
    StaleChange(s.tlb, k, s.pt, pt, s.queue, s.queue);
    MapFreshStep(s.pt, s.grants, s.rc, s.mem, s.avail, Frames(s.queue), s.zero, k, write, f, bytes);
  }

  lemma SharedStep(s: State, c: nat, k: Va, f: nat)
    requires Good(s) && Enabled(s, c, Share(k, f))
    ensures Good(Apply(s, c, Share(k, f)))
  {
    hide T.Inv, Inv, Coupled, StaleOk, NoSpaceNoCache, Changed;
    var pt := s.pt[k := Pte(f, false)];
    ChangeKeeps(s.tlb, c, k, s.pt, pt);
    StaleChange(s.tlb, k, s.pt, pt, s.queue, s.queue);
    ShareStep(s.pt, s.grants, s.rc, s.mem, s.avail, Frames(s.queue), s.zero, k, f);
  }

  lemma UnmappedStep(s: State, c: nat, k: Va)
    requires Good(s) && Enabled(s, c, Unmap(k))
    ensures Good(Apply(s, c, Unmap(k)))
  {
    hide T.Inv, Inv, Coupled, StaleOk, NoSpaceNoCache, Changed, Frames;
    var p := Pending(k.space, s.pt[k].frame);
    ChangeKeeps(s.tlb, c, k, s.pt, s.pt - {k});
    StaleChange(s.tlb, k, s.pt, s.pt - {k}, s.queue, s.queue + [p]);
    UnmapStep(s.pt, s.grants, s.rc, s.mem, s.avail, Frames(s.queue), s.zero, k);
    FramesSnoc(s.queue, p);
  }

  lemma FreedStep(s: State, c: nat)
    requires Good(s) && Enabled(s, c, Free)
    ensures Good(Apply(s, c, Free))
  {
    var a := s.tlb.cpus[c].pc.space;
    hide T.Inv, T.Enabled, T.Apply, Inv, Coupled, NoSpaceNoCache, StaleOk, Frames, Mine, Others, Released;
    T.Step(s.tlb, c, T.Free);
    NoSpaceStep(s.tlb, c, T.Free);
    FreedTables(s.tlb, c, s.pt, s.queue);
    QueueSplits(s.queue, a);
    var mine, rest := Mine(s.queue, a), Frames(Others(s.queue, a));
    assert multiset(mine + rest) == multiset(mine) + multiset(rest);
    InvOfQueue(s.pt, s.grants, s.rc, s.mem, s.avail, Frames(s.queue), mine + rest, s.zero);
    ReleasedKeeps(s.pt, s.grants, s.rc, s.mem, s.avail, mine, rest, s.zero);
  }

  lemma FreedTables(tlb: T.State, c: nat, pt: PageTables, queue: seq<Pending>)
    requires T.Inv(tlb) && T.Enabled(tlb, c, T.Free) && Coupled(tlb, pt) && StaleOk(tlb, pt, queue)
    ensures var u, a := T.Apply(tlb, c, T.Free), tlb.cpus[c].pc.space;
            Coupled(u, pt) && StaleOk(u, pt, Others(queue, a))
  {
    T.OwnStep(tlb, c, T.Free);
    var u, a := T.Apply(tlb, c, T.Free), tlb.cpus[c].pc.space;
    hide T.Inv, T.Enabled, T.Apply, Coupled, StaleOk, Others;
    forall b | b in tlb.spaces
      ensures u.spaces[b].pt == tlb.spaces[b].pt && u.spaces[b].stale == if a == b then {} else tlb.spaces[b].stale
    {
      TablesKept(tlb, c, T.Free, b);
    }
    CoupledSame(tlb, pt, u);
    StaleFreed(tlb, u, a, pt, queue);
  }

  lemma StaleFreed(tlb: T.State, u: T.State, a: nat, pt: PageTables, queue: seq<Pending>)
    requires StaleOk(tlb, pt, queue) && u.spaces.Keys == tlb.spaces.Keys
    requires forall b | b in tlb.spaces :: u.spaces[b].stale == if a == b then {} else tlb.spaces[b].stale
    ensures StaleOk(u, pt, Others(queue, a))
  {
    hide StillMapped, Others;
    forall b, t | b in u.spaces && t in u.spaces[b].stale
      ensures StillMapped(pt, b, t) || Pending(b, t.frame) in Others(queue, a)
    {
      if Pending(b, t.frame) in queue { InQueue(queue, Pending(b, t.frame), a); }
    }
  }

  lemma Step(s: State, c: nat, act: Action)
    requires Good(s) && Enabled(s, c, act)
    ensures Good(Apply(s, c, act))
  {
    match act {
      case Cpu(a) => CpuStep(s, c, a);
      case MapFresh(k, write, f, bytes) => FreshStep(s, c, k, write, f, bytes);
      case Share(k, f) => SharedStep(s, c, k, f);
      case SetFlags(k, write) => FlaggedStep(s, c, k, write);
      case Unmap(k) => UnmappedStep(s, c, k);
      case Free => FreedStep(s, c);
      case _ => GrantStep(s, c, act);
    }
    hide *;
  }

  lemma FlaggedStep(s: State, c: nat, k: Va, write: bool)
    requires Good(s) && Enabled(s, c, SetFlags(k, write))
    ensures Good(Apply(s, c, SetFlags(k, write)))
  {
    hide T.Inv, Inv, Coupled, NoSpaceNoCache, StaleOk, Frames, Changed;
    var pt := s.pt[k := Pte(s.pt[k].frame, write)];
    ChangeKeeps(s.tlb, c, k, s.pt, pt);
    StaleChange(s.tlb, k, s.pt, pt, s.queue, s.queue);
    FlagsStep(s.pt, s.grants, s.rc, s.mem, s.avail, Frames(s.queue), s.zero, k, write);
  }

  lemma GrantStep(s: State, c: nat, act: Action)
    requires Good(s) && Enabled(s, c, act) && (act.AddGrant? || act.DropGrant?)
    ensures Good(Apply(s, c, act))
  {
    hide T.Inv, Inv, Coupled, NoSpaceNoCache, StaleOk, Frames;
    if act.AddGrant? {
      U.AddGrant(s.pt, s.grants, s.rc, s.mem, s.avail, Frames(s.queue), s.zero, act.k, act.flags);
    } else {
      U.DropGrant(s.pt, s.grants, s.rc, s.mem, s.avail, Frames(s.queue), s.zero, act.k);
    }
  }

  // Runs.

  datatype Move = Move(cpu: nat, act: Action)

  /** Boot: no mappings; every frame but the zero frame is free. */
  ghost predicate Initial(s: State) {
    && T.Initial(s.tlb) && (forall a | a in s.tlb.spaces :: s.tlb.spaces[a].pt == {})
    && s.pt == map[] && s.grants == map[] && s.queue == [] && s.rc == map[s.zero := One]
    && s.zero in s.mem && s.mem[s.zero] == ZEROES && s.avail == s.mem.Keys - {s.zero}
  }

  ghost predicate Execution(states: seq<State>, moves: seq<Move>) {
    && |states| == |moves| + 1 && Initial(states[0])
    && forall i | 0 <= i < |moves| ::
         Enabled(states[i], moves[i].cpu, moves[i].act) && states[i + 1] == Apply(states[i], moves[i].cpu, moves[i].act)
  }

  lemma StartsGood(s: State)
    requires Initial(s)
    ensures Good(s)
  {
    assert Mappers(s.pt, s.zero) == {};
    assert T.Inv(s.tlb);
  }

  lemma {:induction false} RunKeeps(states: seq<State>, moves: seq<Move>, i: nat)
    requires Execution(states, moves) && i < |states|
    ensures Good(states[i])
  {
    hide Good, Initial, Enabled, Apply;
    if i == 0 {
      StartsGood(states[0]);
    } else {
      RunKeeps(states, moves, i - 1);
      Step(states[i - 1], moves[i - 1].cpu, moves[i - 1].act);
    }
  }

  /** A CPU that uses its current space, and is not about to enter another. */
  predicate Settled(p: T.Cpu) { T.Attached(p.pc) && !p.pc.BitSet? }

  /**
   In every run, what a CPU outside an address space switch can reach through its cache belongs to the space it
   uses: the space's page table maps the frame at that page, or the frame is queued for release after the space's
   flush. Either way it is referenced: it is not with the allocator.
   */
  lemma CachedIsOwned(states: seq<State>, moves: seq<Move>, i: nat, c: nat, t: T.Translation)
    requires Execution(states, moves) && i < |states| && c in states[i].tlb.cpus && t in states[i].tlb.cpus[c].tlb
    requires Settled(states[i].tlb.cpus[c])
    ensures var s, p := states[i], states[i].tlb.cpus[c];
            && p.cur.Some? && t.frame in s.rc && t.frame !in s.avail
            && (StillMapped(s.pt, p.cur.value, t) || Pending(p.cur.value, t.frame) in s.queue)
  {
    RunKeeps(states, moves, i);
    hide Execution;
    OwnedAt(states[i], c, t);
  }

  lemma OwnedAt(s: State, c: nat, t: T.Translation)
    requires Good(s) && c in s.tlb.cpus && t in s.tlb.cpus[c].tlb && Settled(s.tlb.cpus[c])
    ensures var p := s.tlb.cpus[c];
            && p.cur.Some? && t.frame in s.rc && t.frame !in s.avail
            && (StillMapped(s.pt, p.cur.value, t) || Pending(p.cur.value, t.frame) in s.queue)
  {
    hide T.Inv, NoSpaceNoCache, Coupled, StaleOk, Inv, Frames, Settled, StillMapped;
    CacheSplit(s.tlb, c, t);
    var a := s.tlb.cpus[c].cur.value;
    EitherOwned(s.tlb, s.pt, s.queue, a, t);
    if Pending(a, t.frame) in s.queue { InQueue(s.queue, Pending(a, t.frame), a); }
    OwnedCounted(s, a, t);
  }

  lemma EitherOwned(tlb: T.State, pt: PageTables, queue: seq<Pending>, a: nat, t: T.Translation)
    requires Coupled(tlb, pt) && StaleOk(tlb, pt, queue)
    requires a in tlb.spaces && t in tlb.spaces[a].pt + tlb.spaces[a].stale
    ensures StillMapped(pt, a, t) || Pending(a, t.frame) in queue
  {
    if t in tlb.spaces[a].pt { assert t in Views(pt, Va(a, t.page)); }
  }

  lemma OwnedCounted(s: State, a: nat, t: T.Translation)
    requires Inv(s.pt, s.grants, s.rc, s.mem, s.avail, Frames(s.queue), s.zero)
    requires StillMapped(s.pt, a, t) || t.frame in Frames(s.queue)
    ensures t.frame in s.rc && t.frame !in s.avail
  {
    hide Refs, Frames;
  }

  lemma CacheSplit(tlb: T.State, c: nat, t: T.Translation)
    requires T.Inv(tlb) && NoSpaceNoCache(tlb) && c in tlb.cpus && t in tlb.cpus[c].tlb && Settled(tlb.cpus[c])
    ensures var p := tlb.cpus[c];
            p.cur.Some? && p.cur.value in tlb.spaces && t in tlb.spaces[p.cur.value].pt + tlb.spaces[p.cur.value].stale
  {
    hide T.BitsOk, T.LocksOk, T.FlushesOk, T.RequestsOk;
    assert T.CpuClosed(tlb, tlb.cpus[c]);
    assert tlb.cpus[c].cur.Some?;
    assert T.CacheOk(tlb.cpus[c], tlb.spaces[tlb.cpus[c].cur.value]);
  }

  /** A page whose grant was dropped can be granted again, with other rights. */
  lemma GrantedAgain(s: State, c: nat, k: Va, flags: Flags) returns (u: State)
    requires Enabled(s, c, DropGrant(k))
    ensures Enabled(Apply(s, c, DropGrant(k)), c, AddGrant(k, flags))
    ensures u == Apply(Apply(s, c, DropGrant(k)), c, AddGrant(k, flags)) && k in u.grants && u.grants[k] == flags
  {
    u := Apply(Apply(s, c, DropGrant(k)), c, AddGrant(k, flags));
  }

  /** What a CPU may come to cache: any page its space maps, for writing exactly if the entry allows that. */
  lemma MayCache(s: State, c: nat, k: Va)
    requires Good(s) && c in s.tlb.cpus && s.tlb.cpus[c].loaded == Some(k.space) && k in s.pt
    ensures Enabled(s, c, Cpu(T.Fill(T.Translation(k.page, s.pt[k].frame, false))))
    ensures Enabled(s, c, Cpu(T.Fill(T.Translation(k.page, s.pt[k].frame, true)))) <==> s.pt[k].write
  {
    var t, w := T.Translation(k.page, s.pt[k].frame, false), T.Translation(k.page, s.pt[k].frame, true);
    assert k.space in s.tlb.spaces;
    assert t in s.tlb.spaces[k.space].pt <==> t in Views(s.pt, Va(k.space, t.page));
    assert w in s.tlb.spaces[k.space].pt <==> w in Views(s.pt, Va(k.space, w.page));
    hide T.Inv, Inv, StaleOk;
  }

  /**
   Copy-on-write under caching: in every run, a CPU outside a switch that has cached a frame for writing, other than
   by a translation still awaiting its flush, uses the one space and page that maps the frame, and the frame has no
   other reference.
   */
  lemma WritableIsPrivate(states: seq<State>, moves: seq<Move>, i: nat, c: nat, t: T.Translation)
    requires Execution(states, moves) && i < |states| && c in states[i].tlb.cpus && t in states[i].tlb.cpus[c].tlb
    requires Settled(states[i].tlb.cpus[c]) && t.write
    ensures var s, p := states[i], states[i].tlb.cpus[c];
            && p.cur.Some? && p.cur.value in s.tlb.spaces && t.frame in s.rc
            && (t !in s.tlb.spaces[p.cur.value].stale ==>
                  && s.rc[t.frame] == One && StillMapped(s.pt, p.cur.value, t) && s.pt[Va(p.cur.value, t.page)].write
                  && forall j | j in s.pt && s.pt[j].frame == t.frame :: j == Va(p.cur.value, t.page))
  {
    RunKeeps(states, moves, i);
    hide Execution;
    OwnedAt(states[i], c, t);
    PrivateAt(states[i], c, t);
  }

  lemma PrivateAt(s: State, c: nat, t: T.Translation)
    requires Good(s) && c in s.tlb.cpus && t in s.tlb.cpus[c].tlb && Settled(s.tlb.cpus[c]) && t.write
    ensures var p := s.tlb.cpus[c];
            && p.cur.Some? && p.cur.value in s.tlb.spaces
            && (t !in s.tlb.spaces[p.cur.value].stale ==>
                  && t.frame in s.rc && s.rc[t.frame] == One
                  && StillMapped(s.pt, p.cur.value, t) && s.pt[Va(p.cur.value, t.page)].write
                  && forall j | j in s.pt && s.pt[j].frame == t.frame :: j == Va(p.cur.value, t.page))
  {
    CacheSplit(s.tlb, c, t);
    var a := s.tlb.cpus[c].cur.value;
    if t !in s.tlb.spaces[a].stale {
      assert t in Views(s.pt, Va(a, t.page));
      WritableIsExclusive(s.pt, s.grants, s.rc, s.mem, s.avail, Frames(s.queue), s.zero, Va(a, t.page));
    }
    hide T.Inv, Refs;
  }

  /** A frame that is with the allocator is in no CPU's cache, except on the way out of an address space. */
  lemma FreedUncached(states: seq<State>, moves: seq<Move>, i: nat, c: nat, f: nat)
    requires Execution(states, moves) && i < |states| && c in states[i].tlb.cpus && f in states[i].avail
    requires Settled(states[i].tlb.cpus[c])
    ensures forall t | t in states[i].tlb.cpus[c].tlb :: t.frame != f
  {
    forall t | t in states[i].tlb.cpus[c].tlb ensures t.frame != f { CachedIsOwned(states, moves, i, c, t); }
  }

  // The guard of `FreedUncached` is needed: a run in which a frame is freed while a CPU on its way out caches it.

  /** A run leads to `s`. */
  ghost predicate Reached(s: State) {
    exists states: seq<State>, moves: seq<Move> {:trigger Execution(states, moves)} ::
      Execution(states, moves) && states[|moves|] == s
  }

  lemma Then(s: State, c: nat, act: Action)
    requires Reached(s) && Enabled(s, c, act)
    ensures Reached(Apply(s, c, act))
  {
    hide Initial, Enabled, Apply;
    var states, moves :| Execution(states, moves) && states[|moves|] == s;
    assert Execution(states + [Apply(s, c, act)], moves + [Move(c, act)]);
  }

  /** Two CPUs and one space. */
  function Two(p: T.Cpu, q: T.Cpu, x: T.Space): T.State { T.State(map[0 := p, 1 := q], map[0 := x]) }

  /** A run leads to memory `m` with these records of the CPUs and the space. */
  ghost predicate At(m: State, p: T.Cpu, q: T.Cpu, x: T.Space) { Reached(m.(tlb := Two(p, q, x))) }

  /** One CPU's step, on the records. */
  lemma Next(m: State, p: T.Cpu, q: T.Cpu, x: T.Space, c: nat, act: T.Action)
    requires At(m, p, q, x) && c < 2 && T.Enabled(Two(p, q, x), c, act)
    requires !act.Flag? && !act.Map? && !act.Unmap? && !act.Free?
    ensures var me := T.NextCpu(Two(p, q, x), c, act);
            var y := if T.Touched(Two(p, q, x), c, act) == Some(0) then T.NextSpace(x, c, act) else x;
            At(m, if c == 0 then me else p, if c == 1 then me else q, y)
  {
    hide Reached, T.Enabled, T.Apply, T.NextCpu, T.NextSpace, T.Touched;
    Then(m.(tlb := Two(p, q, x)), c, Cpu(act));
    ApplyTwo(p, q, x, c, act);
  }

  lemma ApplyTwo(p: T.Cpu, q: T.Cpu, x: T.Space, c: nat, act: T.Action)
    requires c < 2 && T.Enabled(Two(p, q, x), c, act) && !act.Flag?
    ensures var me := T.NextCpu(Two(p, q, x), c, act);
            var y := if T.Touched(Two(p, q, x), c, act) == Some(0) then T.NextSpace(x, c, act) else x;
            T.Apply(Two(p, q, x), c, act) == Two(if c == 0 then me else p, if c == 1 then me else q, y)
  {
    hide T.Enabled, T.NextCpu, T.NextSpace, T.Touched;
    var me := T.NextCpu(Two(p, q, x), c, act);
    assert map[0 := p, 1 := q][c := me] == if c == 0 then map[0 := me, 1 := q] else map[0 := p, 1 := me];
    var y := T.NextSpace(x, c, act);
    assert map[0 := x][0 := y] == map[0 := y];
  }

  const IDLE := T.Cpu(None, false, None, {}, T.Idle, T.Run)
  const PAGE := Va(0, 0)
  const CACHED := T.Translation(0, 1, false)

  /** A CPU in the space, and the space, at some point of the run. */
  function Inside(tlb: set<T.Translation>, pc: T.Pc): T.Cpu { T.Cpu(Some(0), false, Some(0), tlb, T.Idle, pc) }
  function SpaceOf(usedBy: set<nat>, pt: set<T.Translation>, stale: set<T.Translation>): T.Space {
    T.Space(usedBy, 0, {}, pt, stale)
  }

  /** Memory before the page is mapped to frame 1, while it is, and while frame 1 waits for the flush. */
  const BARE := State(T.State(map[], map[]), map[], map[], map[0 := One], map[0 := ZEROES, 1 := ZEROES], {1}, [], 0)
  const MAPPED := BARE.(pt := map[PAGE := Pte(1, false)], grants := map[PAGE := Flags(false, false)],
                        rc := map[0 := One, 1 := One], avail := {})
  const DROPPED := MAPPED.(pt := map[], queue := [Pending(0, 1)])

  lemma Boots()
    ensures At(BARE, IDLE, IDLE, SpaceOf({}, {}, {}))
  {
    var s := BARE.(tlb := Two(IDLE, IDLE, SpaceOf({}, {}, {})));
    assert map[0 := ZEROES, 1 := ZEROES].Keys - {0} == {1};
    assert Execution([s], []);
  }

  /** CPU 1 takes the write lock of a space nobody has locked. */
  lemma Locks(m: State, p: T.Cpu, x: T.Space)
    requires At(m, p, IDLE, x) && T.Writes(p).None? && T.Reads(p).None?
    ensures At(m, p, IDLE.(pc := T.Writing(0)), x)
  {
    hide At;
    Next(m, p, IDLE, x, 1, T.BeginWrite(0));
    Next(m, p, IDLE.(pc := T.WantWrite(0)), x, 1, T.AcquireWrite);
  }

  lemma GrantsPage(q: T.Cpu, x: T.Space)
    requires At(BARE, IDLE, q, x) && q.pc == T.Writing(0) && q.handler == T.Idle
    ensures At(BARE.(grants := map[PAGE := Flags(false, false)]), IDLE, q, x)
  {
    hide Reached;
    Then(BARE.(tlb := Two(IDLE, q, x)), 1, AddGrant(PAGE, Flags(false, false)));
  }

  lemma MapsPage(q: T.Cpu)
    requires At(BARE, IDLE, q, SpaceOf({}, {}, {})) && q.pc == T.Writing(0) && q.handler == T.Idle
    ensures At(MAPPED, IDLE, q, SpaceOf({}, {CACHED}, {}))
  {
    hide Reached, Changed;
    GrantsPage(q, SpaceOf({}, {}, {}));
    var s := BARE.(grants := map[PAGE := Flags(false, false)], tlb := Two(IDLE, q, SpaceOf({}, {}, {})));
    Then(s, 1, MapFresh(PAGE, false, 1, ZEROES));
    MapsOne(q);
    assert {1} - {1} == {};
    assert s.mem[1 := ZEROES] == s.mem;
    assert s.rc[1 := One] == map[0 := One, 1 := One];
  }

  lemma MapsOne(q: T.Cpu)
    ensures Changed(Two(IDLE, q, SpaceOf({}, {}, {})), PAGE, map[], map[PAGE := Pte(1, false)]) ==
            Two(IDLE, q, SpaceOf({}, {CACHED}, {}))
  {
    var was, now := Views(map[], PAGE), Views(map[PAGE := Pte(1, false)], PAGE);
    assert was - now == {} && now - was == {CACHED};
    assert {} - (was - now) + (now - was) == {CACHED} && {} + (was - now) == {};
    var y := SpaceOf({}, {CACHED}, {});
    assert map[0 := SpaceOf({}, {}, {})][0 := y] == map[0 := y];
  }

  lemma Enters(m: State, x: T.Space)
    requires At(m, IDLE, IDLE, x)
    ensures At(m, IDLE.(cur := Some(0), pc := T.WantNew), IDLE, x)
  {
    hide At;
    Next(m, IDLE, IDLE, x, 0, T.BeginSwitch(Some(0)));
    Next(m, IDLE.(pc := T.Detached(Some(0))), IDLE, x, 0, T.SetCurrent);
  }

  lemma Attaches(m: State, x: T.Space)
    requires At(m, IDLE.(cur := Some(0), pc := T.WantNew), IDLE, x)
    ensures At(m, IDLE.(cur := Some(0), pc := T.BitSet), IDLE, x.(usedBy := x.usedBy + {0}))
  {
    hide At;
    Next(m, IDLE.(cur := Some(0), pc := T.WantNew), IDLE, x, 0, T.ReadNew);
    Next(m, IDLE.(cur := Some(0), pc := T.HoldNew), IDLE, x, 0, T.SetBit);
  }

  lemma Caches(m: State, x: T.Space, t: T.Translation)
    requires At(m, IDLE.(cur := Some(0), pc := T.BitSet), IDLE, x) && t in x.pt
    ensures At(m, Inside({t}, T.Run), IDLE, x)
  {
    hide At;
    Next(m, IDLE.(cur := Some(0), pc := T.BitSet), IDLE, x, 0, T.LoadTable);
    Next(m, Inside({}, T.Loaded), IDLE, x, 0, T.DropNew);
    Next(m, Inside({}, T.Run), IDLE, x, 0, T.Fill(t));
    assert {} + {t} == {t};
  }

  lemma Parts(m: State, tlb: set<T.Translation>, x: T.Space)
    requires At(m, Inside(tlb, T.Run), IDLE, x)
    ensures At(m, Inside(tlb, T.HoldOld(None)), IDLE, x)
  {
    hide At;
    Next(m, Inside(tlb, T.Run), IDLE, x, 0, T.BeginSwitch(None));
    Next(m, Inside(tlb, T.WantOld(None)), IDLE, x, 0, T.ReadOld);
  }

  /** CPU 0 clears its bit and lets go of the lock; its cache is dropped only when it loads another table. */
  lemma Leaves(m: State, tlb: set<T.Translation>, x: T.Space)
    requires At(m, Inside(tlb, T.HoldOld(None)), IDLE, x)
    ensures At(m, Inside(tlb, T.Detached(None)), IDLE, x.(usedBy := x.usedBy - {0}))
  {
    hide At;
    Next(m, Inside(tlb, T.HoldOld(None)), IDLE, x, 0, T.ClearBit);
    Next(m, Inside(tlb, T.Cleared(None)), IDLE, x.(usedBy := x.usedBy - {0}), 0, T.DropOld);
  }

  /** The page is mapped; CPU 0 has cached it and is on its way out, its bit already cleared. */
  lemma OnTheWayOut()
    ensures At(MAPPED, Inside({CACHED}, T.Detached(None)), IDLE, SpaceOf({}, {CACHED}, {}))
  {
    hide At;
    Boots();
    Locks(BARE, IDLE, SpaceOf({}, {}, {}));
    MapsPage(IDLE.(pc := T.Writing(0)));
    var x := SpaceOf({}, {CACHED}, {});
    Next(MAPPED, IDLE, IDLE.(pc := T.Writing(0)), x, 1, T.EndWrite);
    Enters(MAPPED, x);
    Attaches(MAPPED, x);
    var y := x.(usedBy := x.usedBy + {0});
    Caches(MAPPED, y, CACHED);
    Parts(MAPPED, {CACHED}, y);
    Leaves(MAPPED, {CACHED}, y);
    assert {} + {0} - {0} == {};
  }

  lemma Drops(p: T.Cpu, q: T.Cpu)
    requires At(MAPPED, p, q, SpaceOf({}, {CACHED}, {})) && q.pc == T.Writing(0) && q.handler == T.Idle
    ensures At(DROPPED, p, q, SpaceOf({}, {}, {CACHED}))
  {
    hide Reached, Changed;
    var s := MAPPED.(tlb := Two(p, q, SpaceOf({}, {CACHED}, {})));
    Then(s, 1, Unmap(PAGE));
    assert s.pt - {PAGE} == map[] && [] + [Pending(0, 1)] == [Pending(0, 1)];
    UnmapsOne(p, q);
  }

  lemma UnmapsOne(p: T.Cpu, q: T.Cpu)
    ensures Changed(Two(p, q, SpaceOf({}, {CACHED}, {})), PAGE, map[PAGE := Pte(1, false)], map[]) ==
            Two(p, q, SpaceOf({}, {}, {CACHED}))
  {
    var was, now := Views(map[PAGE := Pte(1, false)], PAGE), Views(map[], PAGE);
    assert was - now == {CACHED} && now - was == {};
    assert {CACHED} - (was - now) + (now - was) == {} && {} + (was - now) == {CACHED};
    var y := SpaceOf({}, {}, {CACHED});
    assert map[0 := SpaceOf({}, {CACHED}, {})][0 := y] == map[0 := y];
  }

  lemma Flushes(m: State, p: T.Cpu, x: T.Space)
    requires At(m, p, IDLE.(pc := T.Writing(0)), x) && x.usedBy == {}
    ensures At(m, p, IDLE.(pc := T.Waiting(0, 0)), x.(ack := 0, acked := {}))
  {
    hide At;
    Next(m, p, IDLE.(pc := T.Writing(0)), x, 1, T.BeginFlush);
    assert {} - {1} == {};
    Next(m, p, IDLE.(pc := T.Flagging(0, {}, 0)), x.(ack := 0, acked := {}), 1, T.FlushLocal);
  }

  lemma Frees(p: T.Cpu, x: T.Space)
    requires At(DROPPED, p, IDLE.(pc := T.Waiting(0, 0)), x)
    ensures exists s :: Reached(s) && 1 in s.avail && 0 in s.tlb.cpus && s.tlb.cpus[0] == p
  {
    hide Reached;
    var s := DROPPED.(tlb := Two(p, IDLE.(pc := T.Waiting(0, 0)), x));
    Then(s, 1, Free);
    assert Mine(s.queue, 0) == [1];
    assert Released(s.rc, [1]) == s.rc - {1};
    assert 1 in Apply(s, 1, Free).avail;
  }

  /**
   A frame may be with the allocator while a CPU that is leaving an address space still caches it: the flush asks
   only the CPUs whose `used_by` bit is set, and the leaving CPU clears its bit before it loads another table.
   */
  lemma LingersAfterFree()
    ensures exists s, t: T.Translation :: Reached(s) && t.frame in s.avail && 0 in s.tlb.cpus && t in s.tlb.cpus[0].tlb
  {
    hide At, Reached;
    var p := Inside({CACHED}, T.Detached(None));
    OnTheWayOut();
    Locks(MAPPED, p, SpaceOf({}, {CACHED}, {}));
    Drops(p, IDLE.(pc := T.Writing(0)));
    Flushes(DROPPED, p, SpaceOf({}, {}, {CACHED}));
    Frees(p, SpaceOf({}, {}, {CACHED}));
    var s :| Reached(s) && 1 in s.avail && 0 in s.tlb.cpus && s.tlb.cpus[0] == p;
    assert CACHED.frame in s.avail && CACHED in s.tlb.cpus[0].tlb;
  }
}
