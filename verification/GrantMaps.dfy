/** Grants of an address space as values (src/context/memory.rs): which page belongs to whom, and what backs it. */
module GrantMaps {
  import opened Wrappers
  import opened Helpers
  import opened Intervals

  /** The pages of the lower half, where user mappings live. */
  const USER_PAGES: nat := 0x8_0000_0000
  const USER_END: nat := 0x8000_0000_0000

  datatype FileRef = FileRef(description: nat, offset: nat)

  datatype Provider =
    | Allocated(file: Option<FileRef>, physContiguous: bool)
    | AllocatedShared(pinned: bool)
    | PhysBorrowed(base: nat)
    | External(space: nat, srcBase: nat, pinned: bool)
    | FmapBorrowed(fileRef: FileRef, pins: nat)

  datatype GrantInfo = GrantInfo(count: nat, flags: nat, provider: Provider) {
    predicate IsPinned() {
      match provider
      case External(_, _, pinned) => pinned
      case AllocatedShared(pinned) => pinned
      case FmapBorrowed(_, pins) => pins > 0
      case _ => false
    }

    predicate CanExtract(unpin: bool) {
      !IsPinned() || unpin || (provider.Allocated? && provider.physContiguous)
    }

    function Unpin(): GrantInfo {
      match provider
      case External(space, srcBase, _) => this.(provider := External(space, srcBase, false))
      case AllocatedShared(_) => this.(provider := AllocatedShared(false))
      case _ => this
    }

    predicate CanMerge(with: GrantInfo) {
      && flags == with.flags
      && provider == Allocated(None, false) && with.provider == Allocated(None, false)
    }
  }

  type GrantMap = map<nat, GrantInfo>

  predicate Covers(g: GrantMap, b: nat, p: nat) {
    b in g && b <= p < b + g[b].count
  }

  ghost predicate Granted(g: GrantMap, p: nat) {
    exists b :: Covers(g, b, p)
  }

  ghost predicate GrantsOk(g: GrantMap) {
    && (forall b | b in g :: g[b].count > 0 && b + g[b].count <= USER_PAGES)
    && (forall b, c | b in g && c in g && b < c :: b + g[b].count <= c)
  }

  // What a page is, whatever grant holds it.

  datatype Backing =
    | Anonymous
    | PrivateFile(description: nat, offset: nat)
    | SharedMemory
    | Physical(frame: nat)
    | Foreign(space: nat)
    | SharedFile(description: nat, offset: nat)

  datatype PageView = PageView(flags: nat, backing: Backing)

  /** Page `i` of a grant. */
  function PageOf(info: GrantInfo, i: nat): PageView {
    PageView(info.flags,
      match info.provider
      case Allocated(None, _) => Anonymous
      case Allocated(Some(f), _) => PrivateFile(f.description, f.offset + i * PAGE_SIZE)
      case AllocatedShared(_) => SharedMemory
      case PhysBorrowed(base) => Physical(base + i)
      case External(space, _, _) => Foreign(space)
      case FmapBorrowed(f, _) => SharedFile(f.description, f.offset + i * PAGE_SIZE))
  }

  ghost function Look(g: GrantMap, p: nat): Option<PageView> {
    if Granted(g, p) then
      var b :| Covers(g, b, p);
      Some(PageOf(g[b], p - b))
    else None
  }

  lemma LookIs(g: GrantMap, b: nat, p: nat)
    requires GrantsOk(g) && Covers(g, b, p)
    ensures Granted(g, p) && Look(g, p) == Some(PageOf(g[b], p - b))
  {
  }

  lemma LookSame(g: GrantMap, h: GrantMap, p: nat)
    requires GrantsOk(g) && GrantsOk(h)
    requires forall b | Covers(g, b, p) :: Covers(h, b, p) && h[b] == g[b]
    requires forall b | Covers(h, b, p) :: Covers(g, b, p)
    ensures Look(h, p) == Look(g, p)
  {
  }

  // Removing a grant.

  lemma RemovedIs(g: GrantMap, base: nat, p: nat)
    requires GrantsOk(g) && base in g
    ensures GrantsOk(g - {base})
    ensures Look(g - {base}, p) == if Covers(g, base, p) then None else Look(g, p)
  {
    if !Covers(g, base, p) { LookSame(g, g - {base}, p); }
  }

  // Inserting a grant, merging it with equal neighbours.

  ghost predicate Vacant(g: GrantMap, base: nat, count: nat) {
    forall p | base <= p < base + count :: !Granted(g, p)
  }

  predicate Before(g: GrantMap, b: Option<nat>, base: nat, info: GrantInfo) {
    b.Some? ==> b.value in g && b.value < base && b.value + g[b.value].count == base && g[b.value].CanMerge(info)
  }

  predicate After(g: GrantMap, a: Option<nat>, base: nat, info: GrantInfo) {
    a.Some? ==> a.value in g && a.value == base + info.count && g[a.value].CanMerge(info)
  }

  function Keys(o: Option<nat>): set<nat> {
    if o.Some? then {o.value} else {}
  }

  /** The map with the grant, joined with the neighbours `before` and `after`. */
  function Merged(g: GrantMap, before: Option<nat>, after: Option<nat>, base: nat, info: GrantInfo): GrantMap
    requires Before(g, before, base, info) && After(g, after, base, info)
  {
    var lo := if before.Some? then before.value else base;
    var front := if before.Some? then g[before.value].count else 0;
    var back := if after.Some? then g[after.value].count else 0;
    (g - Keys(before) - Keys(after))[lo := info.(count := front + info.count + back)]
  }

  lemma Clear(g: GrantMap, base: nat, count: nat, c: nat)
    requires GrantsOk(g) && count > 0 && Vacant(g, base, count) && c in g
    ensures c + g[c].count <= base || c >= base + count
  {
    var p := if c < base then base else c;
    if p < base + count { assert !Granted(g, p) && !Covers(g, c, p); }
  }

  /** `h` is `g` with grant `lo`, reaching up to `hi`, in the place of those it swallowed. */
  ghost predicate Swallowed(g: GrantMap, h: GrantMap, before: Option<nat>, after: Option<nat>, lo: nat) {
    && lo in h
    && (forall c :: c in h <==> c == lo || (c in g && before != Some(c) && after != Some(c)))
    && (forall c | c in h && c != lo :: h[c] == g[c])
  }

  lemma MergedShape(g: GrantMap, before: Option<nat>, after: Option<nat>, base: nat, info: GrantInfo)
    requires Before(g, before, base, info) && After(g, after, base, info)
    ensures var h := Merged(g, before, after, base, info);
            var lo := if before.Some? then before.value else base;
            && Swallowed(g, h, before, after, lo)
            && h[lo].flags == info.flags && h[lo].provider == info.provider
            && lo + h[lo].count == base + info.count + if after.Some? then g[after.value].count else 0
  {
  }

  lemma MergedOk(g: GrantMap, h: GrantMap, before: Option<nat>, after: Option<nat>, base: nat, info: GrantInfo, lo: nat)
    requires GrantsOk(g) && info.count > 0 && base + info.count <= USER_PAGES && Vacant(g, base, info.count)
    requires Before(g, before, base, info) && After(g, after, base, info) && Swallowed(g, h, before, after, lo)
    requires lo == if before.Some? then before.value else base
    requires lo + h[lo].count == base + info.count + if after.Some? then g[after.value].count else 0
    ensures GrantsOk(h)
  {
    forall c | c in h && c != lo ensures c + g[c].count <= lo || c >= lo + h[lo].count {
      Clear(g, base, info.count, c);
    }
    assert h[lo].count > 0 && lo + h[lo].count <= USER_PAGES;
    hide Granted, Vacant;
  }

  /** Neighbours that can be one grant are one. */
  ghost predicate Fused(g: GrantMap) {
    forall b, c | b in g && c in g && c == b + g[b].count :: !g[b].CanMerge(g[c])
  }

  /** The neighbours to join with were not overlooked. */
  ghost predicate Thorough(g: GrantMap, before: Option<nat>, after: Option<nat>, base: nat, info: GrantInfo) {
    && (before.None? ==> forall b | b in g && b + g[b].count == base :: !g[b].CanMerge(info))
    && (after.None? ==> base + info.count !in g || !g[base + info.count].CanMerge(info))
  }

  lemma MergedFused(g: GrantMap, before: Option<nat>, after: Option<nat>, base: nat, info: GrantInfo)
    requires Fused(g) && Before(g, before, base, info) && After(g, after, base, info)
    requires Thorough(g, before, after, base, info) && info.count > 0
    ensures Fused(Merged(g, before, after, base, info))
  {
    var h := Merged(g, before, after, base, info);
    var lo := if before.Some? then before.value else base;
    MergedShape(g, before, after, base, info);
    hide Merged;
    forall b, c | b in h && c in h && c == b + h[b].count ensures !h[b].CanMerge(h[c]) {
      if b != lo && c != lo {
        assert !g[b].CanMerge(g[c]);
      } else if b == lo {
        var last := if after.Some? then g[after.value] else info;
        assert c in g && h[c] == g[c] && !last.CanMerge(g[c]);
      } else {
        var first := if before.Some? then g[before.value] else info;
        assert b in g && h[b] == g[b] && !g[b].CanMerge(first);
      }
    }
  }

  /** A merge shows every page as its part did. */
  lemma MergedPage(x: GrantInfo, y: GrantInfo, i: nat, j: nat)
    requires x.CanMerge(y)
    ensures PageOf(x, i) == PageOf(y, j)
  {
  }

  /** The merged map covers the new pages as the grant says, and shows every other page as before. */
  lemma MergedIs(g: GrantMap, before: Option<nat>, after: Option<nat>, base: nat, info: GrantInfo, p: nat)
    requires GrantsOk(g) && info.count > 0 && base + info.count <= USER_PAGES && Vacant(g, base, info.count)
    requires Before(g, before, base, info) && After(g, after, base, info)
    ensures GrantsOk(Merged(g, before, after, base, info))
    ensures Look(Merged(g, before, after, base, info), p)
            == if base <= p < base + info.count then Some(PageOf(info, p - base)) else Look(g, p)
  {
    var h := Merged(g, before, after, base, info);
    var lo := if before.Some? then before.value else base;
    MergedShape(g, before, after, base, info);
    MergedOk(g, h, before, after, base, info, lo);
    if Covers(h, lo, p) {
      MergedInside(g, h, before, after, base, info, lo, p);
    } else {
      MergedOutside(g, h, before, after, base, info, lo, p);
    }
    hide *;
  }

  lemma MergedInside(g: GrantMap, h: GrantMap, before: Option<nat>, after: Option<nat>, base: nat, info: GrantInfo,
                     lo: nat, p: nat)
    requires GrantsOk(g) && GrantsOk(h) && info.count > 0
    requires Before(g, before, base, info) && After(g, after, base, info) && Covers(h, lo, p)
    requires lo == if before.Some? then before.value else base
    requires lo + h[lo].count == base + info.count + if after.Some? then g[after.value].count else 0
    requires h[lo].flags == info.flags && h[lo].provider == info.provider
    ensures Look(h, p) == if base <= p < base + info.count then Some(PageOf(info, p - base)) else Look(g, p)
  {
    LookIs(h, lo, p);
    if p < base {
      LookIs(g, before.value, p);
      MergedPage(g[before.value], h[lo], p - before.value, p - lo);
    } else if p >= base + info.count {
      LookIs(g, after.value, p);
      MergedPage(g[after.value], h[lo], p - after.value, p - lo);
    } else if lo < base {
      MergedPage(info, h[lo], p - base, p - lo);
    }
    hide Look, GrantsOk;
  }

  lemma MergedOutside(g: GrantMap, h: GrantMap, before: Option<nat>, after: Option<nat>, base: nat, info: GrantInfo,
                      lo: nat, p: nat)
    requires GrantsOk(g) && GrantsOk(h) && info.count > 0 && Vacant(g, base, info.count)
    requires Before(g, before, base, info) && After(g, after, base, info) && Swallowed(g, h, before, after, lo)
    requires lo == if before.Some? then before.value else base
    requires lo + h[lo].count == base + info.count + if after.Some? then g[after.value].count else 0
    requires !Covers(h, lo, p)
    ensures !(base <= p < base + info.count) && Look(h, p) == Look(g, p)
  {
    assert !Granted(g, base) && !Covers(g, base, base);
    LookSame(g, h, p);
  }

  // Splitting a grant.

  /** The provider of the pages from page `off` of a grant on. */
  function Shifted(pr: Provider, off: nat): Provider {
    match pr
    case PhysBorrowed(base) => PhysBorrowed(base + off)
    case FmapBorrowed(f, pins) => FmapBorrowed(FileRef(f.description, f.offset + off * PAGE_SIZE), pins)
    case Allocated(Some(f), c) => Allocated(Some(FileRef(f.description, f.offset + off * PAGE_SIZE)), c)
    case _ => pr
  }

  /** What a split-off neighbour keeps: it is neither pinned nor one contiguous block. */
  function Plain(pr: Provider): Provider {
    match pr
    case Allocated(f, _) => Allocated(f, false)
    case AllocatedShared(_) => AllocatedShared(false)
    case PhysBorrowed(_) => pr
    case External(space, srcBase, _) => External(space, srcBase, false)
    case FmapBorrowed(f, _) => FmapBorrowed(f, 0)
  }

  /** The three parts of `extract`: `off` pages before, `n` in the middle, the rest after. */
  function FrontPart(info: GrantInfo, off: nat): GrantInfo {
    GrantInfo(off, info.flags, Plain(info.provider))
  }

  function MiddlePart(info: GrantInfo, off: nat, n: nat): GrantInfo {
    GrantInfo(n, info.flags, Shifted(info.provider, off))
  }

  function BackPart(info: GrantInfo, off: nat, n: nat): GrantInfo
    requires off + n <= info.count
  {
    GrantInfo(info.count - off - n, info.flags, Plain(Shifted(Shifted(info.provider, off), n)))
  }

  /** The neighbours of what is cut out may be cut in turn: they are not pinned, and merge like any other grant. */
  lemma NeighboursPlain(info: GrantInfo, off: nat, n: nat)
    requires off + n <= info.count
    ensures !FrontPart(info, off).IsPinned() && !BackPart(info, off, n).IsPinned()
    ensures info.provider.Allocated? ==> !FrontPart(info, off).provider.physContiguous
    ensures info.provider.Allocated? ==> !BackPart(info, off, n).provider.physContiguous
  {
  }

  /** What a page shows tells where it comes from. */
  lemma PageTells(x: GrantInfo, i: nat, y: GrantInfo, j: nat)
    requires PageOf(x, i) == PageOf(y, j)
    ensures x.flags == y.flags
    ensures match x.provider
            case Allocated(None, _) => y.provider.Allocated? && y.provider.file.None?
            case Allocated(Some(f), _) =>
              && y.provider.Allocated? && y.provider.file.Some?
              && y.provider.file.value.description == f.description
              && y.provider.file.value.offset + j * PAGE_SIZE == f.offset + i * PAGE_SIZE
            case AllocatedShared(_) => y.provider.AllocatedShared?
            case PhysBorrowed(base) => y.provider.PhysBorrowed? && y.provider.base + j == base + i
            case External(space, _, _) => y.provider.External? && y.provider.space == space
            case FmapBorrowed(f, _) =>
              && y.provider.FmapBorrowed? && y.provider.fileRef.description == f.description
              && y.provider.fileRef.offset + j * PAGE_SIZE == f.offset + i * PAGE_SIZE
  {
  }

  /** Splitting and unpinning change no page. */
  lemma SplitPages(info: GrantInfo, off: nat, n: nat, i: nat)
    requires off + n <= info.count
    ensures PageOf(FrontPart(info, off), i) == PageOf(info, i)
    ensures PageOf(MiddlePart(info, off, n), i) == PageOf(info, off + i)
    ensures PageOf(BackPart(info, off, n), i) == PageOf(info, off + n + i)
    ensures PageOf(info.Unpin(), i) == PageOf(info, i)
  {
  }
}
