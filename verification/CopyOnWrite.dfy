/**
 Copy-on-write address spaces (src/context/memory.rs): page tables, reference counts and frame
 contents of owned anonymous memory, and the private page maps they must look like.
 */
module CopyOnWrite {
  import opened Wrappers
  import opened Helpers
  import opened RefCounts

  /** Pages of a fresh mapping that are mapped to the zero frame straight away. */
  const MAX_EAGER_PAGES: nat := 16
  /** Capacity of the flusher's queue of frames waiting to be released. */
  const QUEUE_CAPACITY: nat := 32

  newtype Byte = x: int | 0 <= x < 256

  function ZeroBytes(n: nat): (s: seq<Byte>)
    ensures |s| == n && forall i | 0 <= i < n :: s[i] == 0
  {
    if n == 0 then [] else [0] + ZeroBytes(n - 1)
  }

  type Contents = c: seq<Byte> | |c| == PAGE_SIZE witness ZeroBytes(PAGE_SIZE)

  const ZEROES: Contents := ZeroBytes(PAGE_SIZE)

  /** A page of one address space. */
  datatype Va = Va(space: nat, page: nat)
  datatype Flags = Flags(write: bool, exec: bool)
  datatype Pte = Pte(frame: nat, write: bool)

  type PageTables = map<Va, Pte>
  type Grants = map<Va, Flags>
  type Counts = map<nat, RefCount>
  type Memory = map<nat, Contents>

  /** What a program sees: the rights to and private contents of every granted page. */
  datatype PageView = PageView(flags: Flags, bytes: Contents)
  type View = map<Va, PageView>

  function Look(pt: PageTables, mem: Memory, k: Va): Contents {
    if k in pt && pt[k].frame in mem then mem[pt[k].frame] else ZEROES
  }

  ghost function Sees(pt: PageTables, grants: Grants, mem: Memory): View {
    map k | k in grants :: PageView(grants[k], Look(pt, mem, k))
  }

  // Counting references.

  ghost function Mappers(pt: PageTables, f: nat): set<Va> {
    set k | k in pt && pt[k].frame == f
  }

  /** References to a frame: page table entries, releases still queued, and the static zero frame's own. */
  ghost function Refs(pt: PageTables, queue: seq<nat>, zero: nat, f: nat): nat {
    |Mappers(pt, f)| + multiset(queue)[f] + if f == zero then 1 else 0
  }

  lemma RefsAfterUnmap(pt: PageTables, queue: seq<nat>, zero: nat, k: Va, f: nat)
    requires k in pt
    ensures Refs(pt - {k}, queue + [pt[k].frame], zero, f) == Refs(pt, queue, zero, f)
  {
    assert Mappers(pt - {k}, f) == Mappers(pt, f) - (if pt[k].frame == f then {k} else {});
    assert multiset(queue + [pt[k].frame]) == multiset(queue) + multiset{pt[k].frame};
  }

  lemma RefsAfterMap(pt: PageTables, queue: seq<nat>, zero: nat, k: Va, p: Pte, f: nat)
    requires k !in pt
    ensures Refs(pt[k := p], queue, zero, f) == Refs(pt, queue, zero, f) + if f == p.frame then 1 else 0
  {
    assert Mappers(pt[k := p], f) == Mappers(pt, f) + (if p.frame == f then {k} else {});
  }

  lemma RefsAfterFlags(pt: PageTables, queue: seq<nat>, zero: nat, k: Va, write: bool, f: nat)
    requires k in pt
    ensures Refs(pt[k := Pte(pt[k].frame, write)], queue, zero, f) == Refs(pt, queue, zero, f)
  {
    assert Mappers(pt[k := Pte(pt[k].frame, write)], f) == Mappers(pt, f);
  }

  lemma RefsAfterRelease(pt: PageTables, queue: seq<nat>, zero: nat, f: nat)
    requires queue != []
    ensures Refs(pt, queue, zero, f) == Refs(pt, queue[1..], zero, f) + if f == queue[0] then 1 else 0
  {
    assert queue == [queue[0]] + queue[1..];
    assert multiset(queue) == multiset{queue[0]} + multiset(queue[1..]);
  }

  // The invariant.

  ghost predicate TablesOk(pt: PageTables, grants: Grants, rc: Counts) {
    forall k | k in pt ::
      && k in grants && pt[k].frame in rc
      && (pt[k].write ==> grants[k].write && rc[pt[k].frame] == One)
  }

  /** The stored counts are the reference counts, in canonical form. */
  ghost predicate CountsOk(pt: PageTables, rc: Counts, queue: seq<nat>, zero: nat) {
    && zero in rc
    && (forall f | f in queue :: f in rc)
    && (forall f | f in rc :: Counted(rc[f], Refs(pt, queue, zero, f)))
  }

  predicate Counted(r: RefCount, n: nat) {
    if n == 1 then r == One else n >= 2 && r == Cow(n)
  }

  ghost predicate FramesOk(rc: Counts, mem: Memory, avail: set<nat>, zero: nat) {
    && avail !! rc.Keys && mem.Keys == avail + rc.Keys
    && zero in mem && mem[zero] == ZEROES
  }

  ghost predicate Inv(pt: PageTables, grants: Grants, rc: Counts, mem: Memory, avail: set<nat>,
                      queue: seq<nat>, zero: nat)
  {
    TablesOk(pt, grants, rc) && CountsOk(pt, rc, queue, zero) && FramesOk(rc, mem, avail, zero)
  }

  /** A frame with a writable entry has that entry as its only reference. */
  lemma WritableIsExclusive(pt: PageTables, grants: Grants, rc: Counts, mem: Memory, avail: set<nat>,
                            queue: seq<nat>, zero: nat, k: Va)
    requires Inv(pt, grants, rc, mem, avail, queue, zero) && k in pt && pt[k].write
    ensures pt[k].frame != zero && pt[k].frame !in queue
    ensures forall j | j in pt && pt[j].frame == pt[k].frame :: j == k
  {
    var f := pt[k].frame;
    assert Counted(rc[f], Refs(pt, queue, zero, f));
    assert k in Mappers(pt, f);
    forall j | j in pt && pt[j].frame == f ensures j == k {
      if j != k { assert {j, k} <= Mappers(pt, f); SubsetSize({j, k}, Mappers(pt, f)); }
    }
    SubsetSize({k}, Mappers(pt, f));
  }

  // The steps the kernel takes.

  /** An entry is removed and its frame queued for release. */
  lemma UnmapStep(pt: PageTables, grants: Grants, rc: Counts, mem: Memory, avail: set<nat>,
                  queue: seq<nat>, zero: nat, k: Va)
    requires Inv(pt, grants, rc, mem, avail, queue, zero) && k in pt
    ensures Inv(pt - {k}, grants, rc, mem, avail, queue + [pt[k].frame], zero)
  {
    forall f { RefsAfterUnmap(pt, queue, zero, k, f); }
    hide Refs, FramesOk, Counted;
  }

  /** The first queued release: the count drops, and the frame is freed when it was the last reference. */
  lemma ReleaseStep(pt: PageTables, grants: Grants, rc: Counts, mem: Memory, avail: set<nat>,
                    queue: seq<nat>, zero: nat)
    requires Inv(pt, grants, rc, mem, avail, queue, zero) && queue != []
    ensures queue[0] in rc && mem.Keys == avail + rc.Keys
    ensures RemoveRef(rc[queue[0]]).None? <==> Refs(pt, queue, zero, queue[0]) == 1
    ensures RemoveRef(rc[queue[0]]).None? ==>
              Inv(pt, grants, rc - {queue[0]}, mem, avail + {queue[0]}, queue[1..], zero)
    ensures RemoveRef(rc[queue[0]]).Some? ==>
              Inv(pt, grants, rc[queue[0] := RemoveRef(rc[queue[0]]).value], mem, avail, queue[1..], zero)
  {
    hide Refs;
    var q := queue[0];
    assert Counted(rc[q], Refs(pt, queue, zero, q));
    forall f { RefsAfterRelease(pt, queue, zero, f); }
    ReleaseFacts(pt, queue, zero);
  }

  lemma ReleaseFacts(pt: PageTables, queue: seq<nat>, zero: nat)
    requires queue != []
    ensures forall k | k in pt && pt[k].frame == queue[0] :: Refs(pt, queue, zero, queue[0]) >= 2
    ensures Refs(pt, queue, zero, queue[0]) == 1 ==> queue[0] !in queue[1..] && queue[0] != zero
  {
    var q := queue[0];
    RefsAfterRelease(pt, queue, zero, q);
    forall k | k in pt && pt[k].frame == q ensures Refs(pt, queue, zero, q) >= 2 {
      assert k in Mappers(pt, q);
      SubsetSize({k}, Mappers(pt, q));
    }
    assert Refs(pt, queue, zero, q) == 1 ==> q !in multiset(queue[1..]);
  }

  /** A fresh frame is mapped at an unmapped page. */
  lemma MapFreshStep(pt: PageTables, grants: Grants, rc: Counts, mem: Memory, avail: set<nat>,
                     queue: seq<nat>, zero: nat, k: Va, write: bool, f: nat, c: Contents)
    requires Inv(pt, grants, rc, mem, avail, queue, zero)
    requires k !in pt && k in grants && (write ==> grants[k].write) && f in avail
    ensures Inv(pt[k := Pte(f, write)], grants, rc[f := One], mem[f := c], avail - {f}, queue, zero)
  {
    forall g { RefsAfterMap(pt, queue, zero, k, Pte(f, write), g); }
    assert Mappers(pt, f) == {};
    assert f !in queue && multiset(queue)[f] == 0;
    assert Refs(pt, queue, zero, f) == 0;
    hide Refs;
  }

  /** A frame nobody may write gets one more read-only entry. */
  lemma ShareStep(pt: PageTables, grants: Grants, rc: Counts, mem: Memory, avail: set<nat>,
                  queue: seq<nat>, zero: nat, k: Va, f: nat)
    requires Inv(pt, grants, rc, mem, avail, queue, zero)
    requires k !in pt && k in grants && f in rc && rc[f].Count() < RC_MAX
    requires forall j | j in pt && pt[j].frame == f :: !pt[j].write
    ensures AddRef(rc[f], CowRef).Added?
    ensures Inv(pt[k := Pte(f, false)], grants, rc[f := AddRef(rc[f], CowRef).rc], mem, avail, queue, zero)
  {
    hide Refs;
    forall g { RefsAfterMap(pt, queue, zero, k, Pte(f, false), g); }
    assert Counted(rc[f], Refs(pt, queue, zero, f));
  }

  /** The write bit of an entry is cleared, or set on a frame with a single reference. */
  lemma FlagsStep(pt: PageTables, grants: Grants, rc: Counts, mem: Memory, avail: set<nat>,
                  queue: seq<nat>, zero: nat, k: Va, write: bool)
    requires Inv(pt, grants, rc, mem, avail, queue, zero) && k in pt
    requires write ==> grants[k].write && rc[pt[k].frame] == One
    ensures Inv(pt[k := Pte(pt[k].frame, write)], grants, rc, mem, avail, queue, zero)
  {
    forall f { RefsAfterFlags(pt, queue, zero, k, write, f); }
    hide Refs, Counted;
  }
}
