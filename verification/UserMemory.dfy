/**
 The operations on address spaces: mapping, page faults, user reads and writes, fork and unmap.
 Every operation is proved against the private page maps of `CopyOnWrite.View`.
 */
module UserMemory {
  import opened Wrappers
  import opened Helpers
  import opened RefCounts
  import opened CopyOnWrite

  datatype Access = ReadAccess | WriteAccess | InstrFetch
  datatype FaultResult = Fixed | Segv | Oom

  /** More pages than this are never granted; page tables for them could not exist. */
  const MAX_PAGES: nat := 0x1000_0000_0000_0000

  /** The pages `[base, base + count)` of a space. */
  ghost function Span(space: nat, base: nat, count: nat): set<Va> {
    if count == 0 then {} else Span(space, base, count - 1) + {Va(space, base + count - 1)}
  }

  lemma {:induction false} InSpan(space: nat, base: nat, count: nat, k: Va)
    ensures k in Span(space, base, count) <==> k.space == space && base <= k.page < base + count
  {
    if count > 0 { InSpan(space, base, count - 1, k); }
  }

  // How the single steps change what programs see.

  lemma SeesFresh(pt: PageTables, grants: Grants, mem: Memory, k: Va, p: Pte, c: Contents)
    requires k in grants && forall j | j in pt && j != k :: pt[j].frame != p.frame
    ensures Sees(pt[k := p], grants, mem[p.frame := c]) == Sees(pt, grants, mem)[k := PageView(grants[k], c)]
  {
  }

  lemma SeesShared(pt: PageTables, grants: Grants, mem: Memory, k: Va, p: Pte)
    requires k in grants && p.frame in mem
    ensures Sees(pt[k := p], grants, mem) == Sees(pt, grants, mem)[k := PageView(grants[k], mem[p.frame])]
  {
  }

  lemma SeesGrant(pt: PageTables, grants: Grants, mem: Memory, k: Va, flags: Flags)
    requires k !in pt
    ensures Sees(pt, grants[k := flags], mem) == Sees(pt, grants, mem)[k := PageView(flags, ZEROES)]
  {
  }

  lemma SeesDrop(pt: PageTables, grants: Grants, mem: Memory, k: Va)
    ensures Sees(pt - {k}, grants - {k}, mem) == Sees(pt, grants, mem) - {k}
  {
  }

  // What the operations mean on the private page maps.

  ghost function FreshPages(space: nat, base: nat, count: nat, flags: Flags): View {
    map k | k in Span(space, base, count) :: PageView(flags, ZEROES)
  }

  predicate Clear(grants: Grants, space: nat, lo: nat, hi: nat) {
    forall k | k in grants && k.space == space :: !(lo <= k.page < hi)
  }

  /** The view after a store of byte `b` at offset `off` of page `k`. */
  ghost function Stored(v: View, k: Va, off: nat, b: Byte): View
    requires k in v && off < PAGE_SIZE
  {
    v[k := PageView(v[k].flags, v[k].bytes[off := b])]
  }

  ghost function PagesOf(keys: set<Va>, space: nat): set<Va> {
    set k | k in keys && k.space == space
  }

  /** The pages `pages` of `src`, as they would appear in `dst`. */
  ghost function Copied(v: View, src: nat, dst: nat, pages: set<Va>): View {
    map k | k in Renamed(pages, dst) && Va(src, k.page) in v :: v[Va(src, k.page)]
  }

  ghost function Renamed(pages: set<Va>, dst: nat): set<Va> {
    set k | k in pages :: Va(dst, k.page)
  }

  lemma NoFreshPages(v: View, space: nat, base: nat, flags: Flags)
    ensures v == v + FreshPages(space, base, 0, flags)
  {
  }

  lemma ClearStep(grants: Grants, space: nat, lo: nat, hi: nat, flags: Flags)
    requires Clear(grants, space, lo, hi) && lo < hi
    ensures Va(space, lo) !in grants && Clear(grants[Va(space, lo) := flags], space, lo + 1, hi)
  {
  }

  /** The entries of the first pages of a fresh span, which share the zero frame. */
  ghost function ZeroEntries(space: nat, base: nat, count: nat, zero: nat): PageTables {
    var eager := if count < MAX_EAGER_PAGES then count else MAX_EAGER_PAGES;
    map k | k in Span(space, base, eager) :: Pte(zero, false)
  }

  lemma NoZeroEntries(pt: PageTables, space: nat, base: nat, zero: nat)
    ensures pt + ZeroEntries(space, base, 0, zero) == pt
  {
  }

  lemma ZeroEntriesStep(pt: PageTables, space: nat, base: nat, count: nat, zero: nat)
    ensures var was, now := pt + ZeroEntries(space, base, count, zero), pt + ZeroEntries(space, base, count + 1, zero);
            now == if count < MAX_EAGER_PAGES then was[Va(space, base + count) := Pte(zero, false)] else was
  {
    if count < MAX_EAGER_PAGES {
      assert Span(space, base, count + 1) == Span(space, base, count) + {Va(space, base + count)};
    }
  }

  lemma FreshPagesStep(v: View, space: nat, base: nat, count: nat, flags: Flags)
    ensures v + FreshPages(space, base, count + 1, flags) ==
            (v + FreshPages(space, base, count, flags))[Va(space, base + count) := PageView(flags, ZEROES)]
  {
  }

  lemma NothingCopied(v: View, src: nat, dst: nat)
    ensures v == v + Copied(v, src, dst, {})
  {
  }

  /** The pages still to be copied are there, and their copies are not. */
  ghost predicate ToCopy(grants: Grants, v: View, src: nat, dst: nat, todo: set<Va>) {
    forall k | k in todo :: k in grants && k in v && k.space == src && Va(dst, k.page) !in grants
  }

  lemma ReadyToCopy(pt: PageTables, grants: Grants, mem: Memory, src: nat, dst: nat, todo: set<Va>)
    requires forall k | k in grants :: k.space != dst
    requires todo == set k | k in grants && k.space == src
    ensures todo == PagesOf(grants.Keys, src) && ToCopy(grants, Sees(pt, grants, mem), src, dst, todo)
  {
    SeesKeys(pt, grants, mem);
    hide Sees;
  }

  lemma ToCopyStep(grants: Grants, v: View, src: nat, dst: nat, todo: set<Va>, k: Va)
    requires ToCopy(grants, v, src, dst, todo) && k in todo && src != dst
    ensures k in grants && k in v && k.space == src && Va(dst, k.page) !in grants
    ensures ToCopy(grants[Va(dst, k.page) := grants[k]], v, src, dst, todo - {k})
  {
  }

  lemma CopiedStep(v: View, src: nat, dst: nat, pages: set<Va>, k: Va)
    requires src != dst && k in v && k.space == src && k !in pages
    ensures k in v + Copied(v, src, dst, pages) && (v + Copied(v, src, dst, pages))[k] == v[k]
    ensures v + Copied(v, src, dst, pages + {k}) ==
            (v + Copied(v, src, dst, pages))[Va(dst, k.page) := v[k]]
  {
    assert Renamed(pages + {k}, dst) == Renamed(pages, dst) + {Va(dst, k.page)};
    assert k == Va(src, k.page);
    hide Renamed;
  }

  // Programs, and what they may observe.

  datatype Op =
    | Map(space: nat, base: nat, count: nat, flags: Flags)
    | Read(k: Va)
    | Write(k: Va, off: nat, b: Byte)
    | Clone(src: nat, dst: nat)
    | Drop(space: nat, base: nat, count: nat)

  datatype Reply = Done | Data(bytes: Contents) | Failed(why: FaultResult) | Refused

  ghost predicate Admissible(v: View, op: Op) {
    match op
    case Map(space, base, count, _) =>
      (forall k | k in v && k.space == space :: !(base <= k.page < base + count)) && |v.Keys| + count <= MAX_PAGES
    case Clone(src, dst) => src != dst && (forall k | k in v :: k.space != dst) && 2 * |v.Keys| <= MAX_PAGES
    case Write(_, off, _) => off < PAGE_SIZE
    case _ => true
  }

  /**
   The meaning of one operation on private pages: the reply it may give and the view it leaves. Memory may
   run out only when as many pages are granted as there are frames besides the zero frame.
   */
  ghost predicate Allowed(frames: nat, v: View, op: Op, reply: Reply, w: View) {
    && (reply.Refused? <==> !Admissible(v, op))
    && reply != Failed(Fixed) && (reply == Failed(Oom) ==> |v.Keys| + 1 >= frames)
    && (reply.Refused? || reply.Failed? ==> w == v)
    && match op
       case Map(space, base, count, flags) =>
         !reply.Refused? ==> reply == Done && w == v + FreshPages(space, base, count, flags)
       case Read(k) =>
         && !reply.Done? && w == v && (reply == Failed(Segv) <==> k !in v)
         && (reply.Data? ==> k in v && reply.bytes == v[k].bytes)
       case Write(k, off, b) =>
         && !reply.Data?
         && (!reply.Refused? ==> (reply == Failed(Segv) <==> !(k in v && v[k].flags.write)))
         && (reply.Done? ==> k in v && off < PAGE_SIZE && w == Stored(v, k, off, b))
       case Clone(src, dst) =>
         !reply.Refused? ==> reply == Done && w == v + Copied(v, src, dst, PagesOf(v.Keys, src))
       case Drop(space, base, count) =>
         reply == Done && w == v - Span(space, base, count)
  }

  ghost predicate Behaves(frames: nat, views: seq<View>, ops: seq<Op>, replies: seq<Reply>) {
    && |replies| == |ops| && |views| == |ops| + 1
    && forall i | 0 <= i < |ops| :: Allowed(frames, views[i], ops[i], replies[i], views[i + 1])
  }

  lemma Begins(frames: nat, v: View)
    ensures Behaves(frames, [v], [], [])
  {
  }

  lemma Continues(frames: nat, views: seq<View>, ops: seq<Op>, replies: seq<Reply>, op: Op, reply: Reply, w: View)
    requires Behaves(frames, views, ops, replies) && Allowed(frames, views[|ops|], op, reply, w)
    ensures Behaves(frames, views + [w], ops + [op], replies + [reply])
  {
    hide Allowed;
  }

  /** The operations that may change page `k`: those that name its page or create its space. */
  predicate Touches(op: Op, k: Va) {
    match op
    case Map(space, base, count, _) => k.space == space && base <= k.page < base + count
    case Read(_) => false
    case Write(j, _, _) => j == k
    case Clone(_, dst) => k.space == dst
    case Drop(space, base, count) => k.space == space && base <= k.page < base + count
  }

  lemma UntouchedStep(frames: nat, v: View, op: Op, reply: Reply, w: View, k: Va)
    requires Allowed(frames, v, op, reply, w) && !Touches(op, k)
    ensures (k in w <==> k in v) && (k in v ==> w[k] == v[k])
  {
    if op.Map? || op.Drop? { InSpan(op.space, op.base, op.count, k); }
    hide Span, PagesOf, Admissible;
  }

  /** No more pages count as touched than must: a mapping or unmapping that succeeds changes just those. */
  lemma TouchedStep(frames: nat, v: View, op: Op, reply: Reply, w: View, k: Va)
    requires Allowed(frames, v, op, reply, w)
    ensures op.Read? ==> !Touches(op, k)
    ensures op.Map? && reply.Done? ==> (Touches(op, k) <==> k in w && k !in v)
    ensures op.Drop? && k in v ==> (Touches(op, k) <==> k !in w)
  {
    if op.Map? || op.Drop? { InSpan(op.space, op.base, op.count, k); }
    hide Span, PagesOf;
  }

  /** In every run a page keeps its contents and rights until an operation on that very page. */
  lemma {:induction false} Isolation(frames: nat, views: seq<View>, ops: seq<Op>, replies: seq<Reply>, k: Va)
    requires Behaves(frames, views, ops, replies) && forall op | op in ops :: !Touches(op, k)
    ensures k in views[0] <==> k in views[|ops|]
    ensures k in views[0] ==> views[|ops|][k] == views[0][k]
  {
    if |ops| > 0 {
      var n := |ops| - 1;
      UntouchedStep(frames, views[n], ops[n], replies[n], views[n + 1], k);
      hide Allowed, Touches;
      Isolation(frames, views[..n + 1], ops[..n], replies[..n], k);
    }
  }

  class UserMemory {
    /** The frame that every fresh page is first mapped to. */
    const zero: nat
    /** The frames of the machine. */
    ghost const frames: set<nat>
    var pt: PageTables
    var grants: Grants
    var rc: Counts
    var mem: Memory
    /** Frames owned by the allocator. */
    var avail: set<nat>
    /** The flusher's queue: frames whose release waits for the TLB shootdown. */
    var queue: seq<nat>

    ghost predicate Valid()
      reads this
    {
      Inv(pt, grants, rc, mem, avail, queue, zero) && mem.Keys == frames
    }

    /** Between operations nothing waits for release. */
    ghost predicate Quiet()
      reads this
    {
      Valid() && queue == []
    }

    ghost function Seen(): View
      reads this
    {
      Sees(pt, grants, mem)
    }

    lemma SeenIsSees()
      ensures Seen() == Sees(pt, grants, mem) && Seen().Keys == grants.Keys
    {
      SeesKeys(pt, grants, mem);
    }

    /** Without free frames there are as many granted pages as frames, but for the zero frame. */
    lemma OomMeans()
      requires Quiet()
      ensures avail == {} ==> |Seen().Keys| + 1 >= |frames|
    {
      SeenIsSees();
      if avail == {} { FullMemory(pt, grants, rc, mem, avail, zero); }
    }

    constructor (initial: Memory, z: nat)
      requires z in initial
      ensures Quiet() && Seen() == map[] && zero == z && frames == initial.Keys
    {
      zero, frames := z, initial.Keys;
      pt, grants, queue := map[], map[], [];
      rc := map[z := One];
      mem := initial[z := ZEROES];
      avail := initial.Keys - {z};
      new;
      assert Mappers(pt, z) == {};
    }

    /** `handle_free_action` on the first `n` queued frames. */
    method Release(n: nat)
      requires Valid() && n <= |queue|
      modifies this`rc, this`avail, this`queue
      ensures Valid() && queue == old(queue)[n..]
      ensures avail == old(avail) + (old(rc).Keys - rc.Keys) && rc.Keys <= old(rc).Keys
      ensures forall f | f in old(rc) :: f in rc <==> Refs(pt, queue, zero, f) > 0
    {
      hide Inv, Refs;
      var i := 0;
      while i < n
        invariant 0 <= i <= n && queue == old(queue)[i..] && Valid()
        invariant avail == old(avail) + (old(rc).Keys - rc.Keys) && rc.Keys <= old(rc).Keys
        invariant forall f | f in old(rc) && f !in rc :: Refs(pt, queue, zero, f) == 0
      {
        ReleaseStep(pt, grants, rc, mem, avail, queue, zero);
        forall f { RefsAfterRelease(pt, queue, zero, f); }
        var f := queue[0];
        var left := RemoveRef(rc[f]);
        if left.None? {
          rc := rc - {f};
          avail := avail + {f};
        } else {
          rc := rc[f := left.value];
        }
        queue := queue[1..];
        i := i + 1;
      }
      StillReferenced(pt, grants, rc, mem, avail, queue, zero);
    }

    /** `Flusher::flush` after the shootdown: nothing stays queued. */
    method Flush()
      requires Valid()
      modifies this`rc, this`avail, this`queue
      ensures Quiet()
      ensures avail == old(avail) + (old(rc).Keys - rc.Keys) && rc.Keys <= old(rc).Keys
      ensures forall f | f in old(rc) :: f in rc <==> Refs(pt, [], zero, f) > 0
    {
      Release(|queue|);
      assert queue == [];
    }

    /**
     One page of `Grant::unmap`: the entry goes and its frame is queued; a full queue is flushed
     to make room, as `Flusher::queue` does.
     */
    method UnmapPage(k: Va)
      requires Valid() && |queue| <= QUEUE_CAPACITY
      modifies this
      ensures Valid() && |queue| <= QUEUE_CAPACITY && mem == old(mem) && k !in grants
      ensures Seen() == old(Seen()) - {k}
    {
      hide Inv, Sees, Refs;
      if k in pt {
        var frame := pt[k].frame;
        UnmapStep(pt, grants, rc, mem, avail, queue, zero, k);
        var full := |queue| == QUEUE_CAPACITY;
        SeesDrop(pt, grants, mem, k);
        pt := pt - {k};
        queue := queue + [frame];
        if full { Release(QUEUE_CAPACITY); }
      } else {
        SeesDrop(pt, grants, mem, k);
        assert pt - {k} == pt;
      }
      DropGrant(pt, grants, rc, mem, avail, queue, zero, k);
      grants := grants - {k};
    }

    /** `munmap`: the pages of the span go, everything else is seen as before. */
    method Unmap(space: nat, base: nat, count: nat)
      requires Quiet()
      modifies this
      ensures Quiet() && Seen() == old(Seen()) - Span(space, base, count)
    {
      hide Inv, Sees;
      var i := 0;
      assert Span(space, base, 0) == {};
      while i < count
        invariant 0 <= i <= count && Valid() && |queue| <= QUEUE_CAPACITY
        invariant Seen() == old(Seen()) - Span(space, base, i)
      {
        assert Span(space, base, i + 1) == Span(space, base, i) + {Va(space, base + i)};
        UnmapPage(Va(space, base + i));
        i := i + 1;
      }
      Flush();
    }

    /** `Grant::zeroed`: the pages appear, reading as zero; the first ones share the zero frame at once. */
    method MapZeroed(space: nat, base: nat, count: nat, flags: Flags)
      requires Quiet() && Clear(grants, space, base, base + count) && |grants| + count <= MAX_PAGES
      modifies this
      ensures Quiet() && Seen() == old(Seen()) + FreshPages(space, base, count, flags)
      ensures pt == old(pt) + ZeroEntries(space, base, count, zero)
    {
      hide *;
      var i := 0;
      NoZeroEntries(pt, space, base, zero);
      NoFreshPages(Seen(), space, base, flags);
      while i < count
        invariant 0 <= i <= count && Quiet() && |grants| + (count - i) <= MAX_PAGES
        invariant Seen() == old(Seen()) + FreshPages(space, base, i, flags)
        invariant Clear(grants, space, base + i, base + count)
        invariant pt == old(pt) + ZeroEntries(space, base, i, zero)
      {
        ZeroEntriesStep(old(pt), space, base, i, zero);
        FreshPagesStep(old(Seen()), space, base, i, flags);
        ClearStep(grants, space, base + i, base + count, flags);
        MapZeroedPage(Va(space, base + i), flags, i < MAX_EAGER_PAGES);
        i := i + 1;
      }
    }

    method MapZeroedPage(k: Va, flags: Flags, eager: bool)
      requires Quiet() && k !in grants && |grants| < MAX_PAGES
      modifies this
      ensures Quiet() && grants == old(grants)[k := flags] && |grants| == old(|grants|) + 1
      ensures Seen() == old(Seen())[k := PageView(flags, ZEROES)]
      ensures pt == if eager then old(pt)[k := Pte(zero, false)] else old(pt)
    {
      hide Inv, Sees;
      AddGrant(pt, grants, rc, mem, avail, queue, zero, k, flags);
      SeesGrant(pt, grants, mem, k, flags);
      grants := grants[k := flags];
      if eager {
        ZeroFrame(pt, grants, rc, mem, avail, zero);
        CountBound(pt, grants, rc, mem, avail, zero, zero);
        ShareStep(pt, grants, rc, mem, avail, queue, zero, k, zero);
        SeesShared(pt, grants, mem, k, Pte(zero, false));
        rc := rc[zero := AddRef(rc[zero], CowRef).rc];
        pt := pt[k := Pte(zero, false)];
      }
    }

    /** `init_frame`: a frame from the allocator, zeroed; the caller maps it and sets its count. */
    method AllocateFrame() returns (f: Option<nat>)
      ensures f.None? <==> avail == {}
      ensures f.Some? ==> f.value in avail
    {
      if avail == {} { return None; }
      var g :| g in avail;
      f := Some(g);
    }

    ghost predicate Permitted(k: Va, access: Access)
      reads this
    {
      && k in grants
      && (access == WriteAccess ==> grants[k].write)
      && (access == InstrFetch ==> grants[k].exec)
    }

    /**
     `correct_inner` on owned memory: a permitted access is made possible without any program
     seeing a difference; the only failure is running out of frames, which changes nothing.
     */
    method Fault(k: Va, access: Access) returns (r: FaultResult)
      requires Quiet()
      modifies this
      ensures Quiet() && Seen() == old(Seen()) && grants == old(grants)
      ensures r == Segv <==> !old(Permitted(k, access))
      ensures r == Oom ==> old(avail) == {} && pt == old(pt) && rc == old(rc) && mem == old(mem) && avail == old(avail)
      ensures r == Fixed ==> k in pt && (access == WriteAccess ==> pt[k].write)
    {
      if k !in grants { return Segv; }
      if access == WriteAccess && !grants[k].write { return Segv; }
      if access == InstrFetch && !grants[k].exec { return Segv; }
      hide Inv, Sees;
      if k !in pt {
        r := MapNew(k);
        return;
      }
      EntryFacts(pt, grants, rc, mem, avail, queue, zero, k);
      if access == WriteAccess && !rc[pt[k].frame].AllowsWritable() {
        r := Cow(k);
      } else {
        SetWritable(k);
        r := Fixed;
      }
    }

    /** A present page gets the write bit its grant allows, unless the frame is shared. */
    method SetWritable(k: Va)
      requires Quiet() && k in pt && k in grants && pt[k].frame in rc
      modifies this`pt
      ensures Quiet() && Seen() == old(Seen())
      ensures k in pt && pt[k].write == (grants[k].write && rc[old(pt)[k].frame].AllowsWritable())
    {
      hide Inv, Sees;
      EntryFacts(pt, grants, rc, mem, avail, queue, zero, k);
      var write := grants[k].write && rc[pt[k].frame].AllowsWritable();
      FlagsStep(pt, grants, rc, mem, avail, queue, zero, k, write);
      SeesEntry(pt, grants, mem, k, write);
      pt := pt[k := Pte(pt[k].frame, write)];
    }

    /** `map_zeroed`: a fresh zeroed frame for a page that has none. */
    method MapNew(k: Va) returns (r: FaultResult)
      requires Quiet() && k in grants && k !in pt
      modifies this`pt, this`rc, this`mem, this`avail
      ensures Quiet() && Seen() == old(Seen()) && r != Segv
      ensures r == Oom ==> old(avail) == {} && pt == old(pt) && rc == old(rc) && mem == old(mem) && avail == old(avail)
      ensures r == Fixed ==> k in pt && pt[k].write == grants[k].write
    {
      hide Inv, Sees;
      var f := AllocateFrame();
      if f.None? { return Oom; }
      var p := Pte(f.value, grants[k].write);
      MapFreshStep(pt, grants, rc, mem, avail, queue, zero, k, p.write, p.frame, ZEROES);
      AvailUnmapped(pt, grants, rc, mem, avail, queue, zero, p.frame);
      SeesFresh(pt, grants, mem, k, p, ZEROES);
      SeenAt(pt, grants, mem, k);
      pt, rc, mem, avail := pt[k := p], rc[p.frame := One], mem[p.frame := ZEROES], avail - {p.frame};
      r := Fixed;
    }

    /** `cow`: the page gets a private copy of the frame it shared. */
    method Cow(k: Va) returns (r: FaultResult)
      requires Quiet() && k in pt && k in grants && grants[k].write
      modifies this
      ensures Quiet() && Seen() == old(Seen()) && grants == old(grants) && r != Segv
      ensures r == Oom ==> old(avail) == {} && pt == old(pt) && rc == old(rc) && mem == old(mem) && avail == old(avail)
      ensures r == Fixed ==> k in pt && pt[k].write
    {
      hide Inv, Sees;
      var f := AllocateFrame();
      if f.None? { return Oom; }
      var shared := pt[k].frame;
      EntryFacts(pt, grants, rc, mem, avail, queue, zero, k);
      var copy := if shared != zero then mem[shared] else ZEROES;
      UnmapStep(pt, grants, rc, mem, avail, queue, zero, k);
      assert queue + [shared] == [shared];
      MapFreshStep(pt - {k}, grants, rc, mem, avail, [shared], zero, k, true, f.value, copy);
      AvailUnmapped(pt, grants, rc, mem, avail, queue, zero, f.value);
      SeesFresh(pt, grants, mem, k, Pte(f.value, true), copy);
      SeenAt(pt, grants, mem, k);
      assert (pt - {k})[k := Pte(f.value, true)] == pt[k := Pte(f.value, true)];
      queue := [shared];
      pt, rc, mem, avail := pt[k := Pte(f.value, true)], rc[f.value := One], mem[f.value := copy], avail - {f.value};
      Flush();
      r := Fixed;
    }

    /** A user load: what it returns is the page's private contents. */
    method Load(k: Va) returns (r: FaultResult, bytes: Contents)
      requires Quiet()
      modifies this
      ensures Quiet() && Seen() == old(Seen()) && grants == old(grants)
      ensures r == Segv <==> k !in Seen()
      ensures r == Oom ==> |old(Seen()).Keys| + 1 >= |frames|
      ensures r == Fixed ==> k in Seen() && bytes == Seen()[k].bytes
    {
      r, bytes := Fixed, ZEROES;
      OomMeans();
      if k !in pt { r := Fault(k, ReadAccess); }
      if r == Fixed {
        hide Inv;
        EntryFacts(pt, grants, rc, mem, avail, queue, zero, k);
        bytes := mem[pt[k].frame];
      }
    }

    /** A user store: one byte of one page of one space changes, for every observer. */
    method Store(k: Va, off: nat, b: Byte) returns (r: FaultResult)
      requires Quiet() && off < PAGE_SIZE
      modifies this
      ensures Quiet()
      ensures r == Segv <==> !(k in old(Seen()) && old(Seen())[k].flags.write)
      ensures r == Oom ==> |old(Seen()).Keys| + 1 >= |frames|
      ensures r != Fixed ==> Seen() == old(Seen())
      ensures r == Fixed ==> Seen() == Stored(old(Seen()), k, off, b)
    {
      hide Inv, Sees;
      r := Fixed;
      OomMeans();
      SeenIsSees();
      if k in grants { SeenAt(pt, grants, mem, k); } else { NoStrayEntry(pt, grants, rc, mem, avail, queue, zero, k); }
      if k in pt { EntryFacts(pt, grants, rc, mem, avail, queue, zero, k); }
      if k !in pt || !pt[k].write { r := Fault(k, WriteAccess); }
      if r == Fixed {
        var f := pt[k].frame;
        EntryFacts(pt, grants, rc, mem, avail, queue, zero, k);
        WriteStep(pt, grants, rc, mem, avail, queue, zero, k, mem[f][off := b]);
        SeenAt(pt, grants, mem, k);
        mem := mem[f := mem[f][off := b]];
      }
    }

    /** `try_clone`: the new space starts with a private copy of every page of the old one. */
    method Fork(src: nat, dst: nat)
      requires Quiet() && src != dst && 2 * |grants| <= MAX_PAGES
      requires forall k | k in grants :: k.space != dst
      modifies this
      ensures Quiet() && Seen() == old(Seen()) + Copied(old(Seen()), src, dst, PagesOf(old(grants.Keys), src))
    {
      hide *;
      var todo := set k | k in grants && k.space == src;
      ghost var done: set<Va> := {};
      NothingCopied(Seen(), src, dst);
      SubsetSize(todo, grants.Keys);
      SeenIsSees();
      ReadyToCopy(pt, grants, mem, src, dst, todo);
      while todo != {}
        invariant Quiet() && done !! todo && done + todo == PagesOf(old(grants.Keys), src)
        invariant Seen() == old(Seen()) + Copied(old(Seen()), src, dst, done)
        invariant ToCopy(grants, old(Seen()), src, dst, todo)
        invariant |grants| + |todo| <= MAX_PAGES
        decreases |todo|
      {
        var k :| k in todo;
        ToCopyStep(grants, old(Seen()), src, dst, todo, k);
        CopiedStep(old(Seen()), src, dst, done, k);
        ForkPage(k, Va(dst, k.page));
        todo, done := todo - {k}, done + {k};
      }
      assert done == done + todo;
    }

    /** One page of `try_clone`: the original loses its write bit and both entries share the frame. */
    method ForkPage(k: Va, j: Va)
      requires Quiet() && k in grants && j !in grants && |grants| < MAX_PAGES
      modifies this
      ensures Quiet() && grants == old(grants)[j := old(grants)[k]] && |grants| == old(|grants|) + 1
      ensures k in old(Seen())
      ensures Seen() == old(Seen())[j := old(Seen())[k]]
    {
      hide Inv, Sees;
      SeenAt(pt, grants, mem, k);
      NoStrayEntry(pt, grants, rc, mem, avail, queue, zero, j);
      AddGrant(pt, grants, rc, mem, avail, queue, zero, j, grants[k]);
      SeesGrant(pt, grants, mem, j, grants[k]);
      grants := grants[j := grants[k]];
      if k in pt {
        var f := pt[k].frame;
        EntryFacts(pt, grants, rc, mem, avail, queue, zero, k);
        FlagsStep(pt, grants, rc, mem, avail, queue, zero, k, false);
        SeesEntry(pt, grants, mem, k, false);
        pt := pt[k := Pte(f, false)];
        CountBound(pt, grants, rc, mem, avail, zero, f);
        ShareStep(pt, grants, rc, mem, avail, queue, zero, j, f);
        SeesShared(pt, grants, mem, j, Pte(f, false));
        rc := rc[f := AddRef(rc[f], CowRef).rc];
        pt := pt[j := Pte(f, false)];
      }
    }

    /** Any program on any number of spaces behaves as if every space had its own private pages. */
    method Run(ops: seq<Op>) returns (replies: seq<Reply>, ghost views: seq<View>)
      requires Quiet()
      modifies this
      ensures Quiet() && Behaves(|frames|, views, ops, replies)
      ensures views[0] == old(Seen()) && views[|ops|] == Seen()
    {
      hide *;
      replies, views := [], [Seen()];
      Begins(|frames|, Seen());
      var i := 0;
      assert ops[..0] == [];
      while i < |ops|
        invariant 0 <= i <= |ops| && Quiet() && Behaves(|frames|, views, ops[..i], replies)
        invariant |views| == i + 1 && views[0] == old(Seen()) && views[i] == Seen()
      {
        var reply := Perform(ops[i]);
        Continues(|frames|, views, ops[..i], replies, ops[i], reply, Seen());
        replies, views := replies + [reply], views + [Seen()];
        assert ops[..i + 1] == ops[..i] + [ops[i]];
        i := i + 1;
      }
      assert ops[..i] == ops;
    }

    method TryMap(space: nat, base: nat, count: nat, flags: Flags) returns (reply: Reply)
      requires Quiet()
      modifies this
      ensures Quiet() && Allowed(|frames|, old(Seen()), Map(space, base, count, flags), reply, Seen())
    {
      hide Inv, Sees, FreshPages, ZeroEntries;
      SeenIsSees();
      if !Clear(grants, space, base, base + count) || |grants| + count > MAX_PAGES { return Refused; }
      MapZeroed(space, base, count, flags);
      reply := Done;
    }

    method TryFork(src: nat, dst: nat) returns (reply: Reply)
      requires Quiet()
      modifies this
      ensures Quiet() && Allowed(|frames|, old(Seen()), Clone(src, dst), reply, Seen())
    {
      hide Inv, Sees, Copied, PagesOf;
      SeenIsSees();
      if src == dst || (exists k | k in grants :: k.space == dst) || 2 * |grants| > MAX_PAGES { return Refused; }
      Fork(src, dst);
      reply := Done;
    }

    method TryRead(k: Va) returns (reply: Reply)
      requires Quiet()
      modifies this
      ensures Quiet() && Allowed(|frames|, old(Seen()), Read(k), reply, Seen())
    {
      hide Inv, Sees;
      var r, bytes := Load(k);
      reply := if r == Fixed then Data(bytes) else Failed(r);
    }

    method TryWrite(k: Va, off: nat, b: Byte) returns (reply: Reply)
      requires Quiet()
      modifies this
      ensures Quiet() && Allowed(|frames|, old(Seen()), Write(k, off, b), reply, Seen())
    {
      hide Inv, Sees, Stored;
      if off >= PAGE_SIZE { return Refused; }
      var r := Store(k, off, b);
      reply := if r == Fixed then Done else Failed(r);
    }

    method TryDrop(space: nat, base: nat, count: nat) returns (reply: Reply)
      requires Quiet()
      modifies this
      ensures Quiet() && Allowed(|frames|, old(Seen()), Drop(space, base, count), reply, Seen())
    {
      hide Inv, Sees, Span;
      Unmap(space, base, count);
      reply := Done;
    }

    /** One operation, refused when the mapping or the new space is in use. */
    method Perform(op: Op) returns (reply: Reply)
      requires Quiet()
      modifies this
      ensures Quiet() && Allowed(|frames|, old(Seen()), op, reply, Seen())
    {
      hide *;
      match op {
        case Map(space, base, count, flags) => reply := TryMap(space, base, count, flags);
        case Read(k) => reply := TryRead(k);
        case Write(k, off, b) => reply := TryWrite(k, off, b);
        case Clone(src, dst) => reply := TryFork(src, dst);
        case Drop(space, base, count) => reply := TryDrop(space, base, count);
      }
    }
  }

  lemma StillReferenced(pt: PageTables, grants: Grants, rc: Counts, mem: Memory, avail: set<nat>,
                        queue: seq<nat>, zero: nat)
    requires Inv(pt, grants, rc, mem, avail, queue, zero)
    ensures forall f | f in rc :: Refs(pt, queue, zero, f) > 0
  {
    assert forall f | f in rc :: Counted(rc[f], Refs(pt, queue, zero, f));
  }

  lemma DropGrant(pt: PageTables, grants: Grants, rc: Counts, mem: Memory, avail: set<nat>,
                  queue: seq<nat>, zero: nat, k: Va)
    requires Inv(pt, grants, rc, mem, avail, queue, zero) && k !in pt
    ensures Inv(pt, grants - {k}, rc, mem, avail, queue, zero)
  {
    hide CountsOk, FramesOk;
  }

  lemma AddGrant(pt: PageTables, grants: Grants, rc: Counts, mem: Memory, avail: set<nat>,
                 queue: seq<nat>, zero: nat, k: Va, flags: Flags)
    requires Inv(pt, grants, rc, mem, avail, queue, zero) && k !in grants
    ensures Inv(pt, grants[k := flags], rc, mem, avail, queue, zero) && k !in pt
  {
    hide CountsOk, FramesOk;
  }

  lemma NoStrayEntry(pt: PageTables, grants: Grants, rc: Counts, mem: Memory, avail: set<nat>,
                     queue: seq<nat>, zero: nat, k: Va)
    requires Inv(pt, grants, rc, mem, avail, queue, zero) && k !in grants
    ensures k !in pt
  {
    hide CountsOk, FramesOk;
  }

  /** A mapped page's frame is live, and nobody writes through a second entry to it. */
  lemma EntryFacts(pt: PageTables, grants: Grants, rc: Counts, mem: Memory, avail: set<nat>,
                   queue: seq<nat>, zero: nat, k: Va)
    requires Inv(pt, grants, rc, mem, avail, queue, zero) && k in pt
    ensures k in grants && pt[k].frame in rc && pt[k].frame in mem && mem[zero] == ZEROES
    ensures pt[k].write ==> grants[k].write
    ensures rc[pt[k].frame].AllowsWritable() ==> rc[pt[k].frame] == One
    ensures forall j | j in pt && j != k && pt[j].frame == pt[k].frame :: !pt[j].write
  {
    assert Counted(rc[pt[k].frame], Refs(pt, queue, zero, pt[k].frame));
    forall j | j in pt && j != k && pt[j].frame == pt[k].frame ensures !pt[j].write {
      if pt[j].write { WritableIsExclusive(pt, grants, rc, mem, avail, queue, zero, j); }
    }
  }

  lemma AvailUnmapped(pt: PageTables, grants: Grants, rc: Counts, mem: Memory, avail: set<nat>,
                      queue: seq<nat>, zero: nat, f: nat)
    requires Inv(pt, grants, rc, mem, avail, queue, zero) && f in avail
    ensures f != zero && f in mem && forall j | j in pt :: pt[j].frame != f
  {
  }

  lemma SeenAt(pt: PageTables, grants: Grants, mem: Memory, k: Va)
    requires k in grants
    ensures k in Sees(pt, grants, mem)
    ensures Sees(pt, grants, mem)[k] == PageView(grants[k], Look(pt, mem, k))
    ensures Sees(pt, grants, mem)[k := PageView(grants[k], Look(pt, mem, k))] == Sees(pt, grants, mem)
  {
  }

  lemma SeesKeys(pt: PageTables, grants: Grants, mem: Memory)
    ensures Sees(pt, grants, mem).Keys == grants.Keys
  {
  }

  lemma SeesEntry(pt: PageTables, grants: Grants, mem: Memory, k: Va, write: bool)
    requires k in pt
    ensures Sees(pt[k := Pte(pt[k].frame, write)], grants, mem) == Sees(pt, grants, mem)
  {
  }

  /** With fewer than `MAX_PAGES` grants no count can reach the overflow bound. */
  lemma CountBound(pt: PageTables, grants: Grants, rc: Counts, mem: Memory, avail: set<nat>, zero: nat, f: nat)
    requires Inv(pt, grants, rc, mem, avail, [], zero) && |grants| <= MAX_PAGES && f in rc
    ensures rc[f].Count() < RC_MAX
  {
    assert Counted(rc[f], Refs(pt, [], zero, f));
    SubsetSize(Mappers(pt, f), grants.Keys);
  }

  lemma ZeroFrame(pt: PageTables, grants: Grants, rc: Counts, mem: Memory, avail: set<nat>, zero: nat)
    requires Inv(pt, grants, rc, mem, avail, [], zero)
    ensures zero in rc && zero in mem && mem[zero] == ZEROES
    ensures forall j | j in pt && pt[j].frame == zero :: !pt[j].write
  {
    forall j | j in pt && pt[j].frame == zero ensures !pt[j].write {
      if pt[j].write { WritableIsExclusive(pt, grants, rc, mem, avail, [], zero, j); }
    }
  }

  /** A store through a writable entry changes the one page that maps the frame. */
  lemma WriteStep(pt: PageTables, grants: Grants, rc: Counts, mem: Memory, avail: set<nat>,
                  queue: seq<nat>, zero: nat, k: Va, c: Contents)
    requires Inv(pt, grants, rc, mem, avail, queue, zero) && k in pt && pt[k].write
    ensures Inv(pt, grants, rc, mem[pt[k].frame := c], avail, queue, zero)
    ensures k in grants
    ensures Sees(pt, grants, mem[pt[k].frame := c]) == Sees(pt, grants, mem)[k := PageView(grants[k], c)]
  {
    WritableIsExclusive(pt, grants, rc, mem, avail, queue, zero, k);
    hide Refs;
  }

  /** Nothing leaks: once no page is granted, every frame but the zero frame is back with the allocator. */
  lemma NoLeak(pt: PageTables, rc: Counts, mem: Memory, avail: set<nat>, zero: nat)
    requires Inv(pt, map[], rc, mem, avail, [], zero)
    ensures avail == mem.Keys - {zero} && rc == map[zero := One]
  {
    forall f | f in rc ensures f == zero && rc[f] == One {
      assert Counted(rc[f], Refs(pt, [], zero, f));
      assert Mappers(pt, f) == {};
    }
  }

  ghost function Mapped(pt: PageTables, keys: set<Va>): set<nat> {
    set k | k in keys && k in pt :: pt[k].frame
  }

  lemma {:induction false} MappedSize(pt: PageTables, keys: set<Va>)
    requires keys <= pt.Keys
    ensures |Mapped(pt, keys)| <= |keys|
    decreases |keys|
  {
    if keys != {} {
      var k :| k in keys;
      MappedSize(pt, keys - {k});
      assert Mapped(pt, keys) == Mapped(pt, keys - {k}) + {pt[k].frame};
    }
  }

  lemma FullMemory(pt: PageTables, grants: Grants, rc: Counts, mem: Memory, avail: set<nat>, zero: nat)
    requires Inv(pt, grants, rc, mem, avail, [], zero) && avail == {}
    ensures |mem.Keys| <= |grants.Keys| + 1
  {
    forall f | f in mem.Keys && f != zero ensures f in Mapped(pt, pt.Keys) {
      assert Counted(rc[f], Refs(pt, [], zero, f));
      assert Mappers(pt, f) != {};
      var k :| k in Mappers(pt, f);
    }
    MappedSize(pt, pt.Keys);
    SubsetSize(mem.Keys, Mapped(pt, pt.Keys) + {zero});
    SubsetSize(pt.Keys, grants.Keys);
  }
}
