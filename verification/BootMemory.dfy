/**
 The memory map at boot (src/startup/memory.rs): regions are registered page-aligned, every
 reservation is cut out of the free regions, and the rest is kept as coalesced areas.
 */
module BootMemory {
  import opened Wrappers
  import opened Helpers

  const WORD_MAX: nat := 0xffff_ffff_ffff_ffff
  /** Room for entries, and for areas. */
  const CAPACITY: nat := 512

  type Word = x: nat | x <= WORD_MAX

  /** Every kind but `Free` is a reservation. */
  datatype Kind = Null | Free | Reclaim | Reserved | Kernel | Device | IdentityMap
  datatype Region = Region(base: Word, size: Word, kind: Kind)
  datatype Entry = Entry(start: nat, end: nat, kind: Kind)
  datatype Area = Area(base: nat, size: nat)

  predicate Within(e: Entry, x: nat) { e.start <= x < e.end }

  predicate InArea(a: Area, x: nat) { a.base <= x < a.base + a.size }

  ghost predicate InAny(s: seq<Entry>, x: nat) {
    exists i :: 0 <= i < |s| && Within(s[i], x)
  }

  ghost predicate InFree(s: seq<Entry>, x: nat) {
    exists i :: 0 <= i < |s| && s[i].kind == Free && Within(s[i], x)
  }

  ghost predicate InReserved(s: seq<Entry>, x: nat) {
    exists i :: 0 <= i < |s| && s[i].kind != Free && Within(s[i], x)
  }

  ghost predicate Has(s: seq<Area>, x: nat) {
    exists i :: 0 <= i < |s| && InArea(s[i], x)
  }

  // Registering regions.

  function SaturatingAdd(x: Word, y: nat): Word { if x + y <= WORD_MAX then x + y else WORD_MAX }
  function AlignUp(x: Word): Word { SaturatingAdd(x, PAGE_SIZE - 1) / PAGE_SIZE * PAGE_SIZE }
  function AlignDown(x: Word): Word { x / PAGE_SIZE * PAGE_SIZE }

  /** The entry a region is registered as; empty ones are dropped. */
  function EntryOf(r: Region): Entry {
    var end := SaturatingAdd(r.base, r.size);
    if r.kind == Free then Entry(AlignUp(r.base), AlignDown(end), Free)
    else Entry(AlignDown(r.base), AlignUp(end), r.kind)
  }

  predicate InRegion(r: Region, x: nat) { r.base <= x < r.base + r.size }

  /** The topmost page is in no free entry, since its end does not fit a word. */
  const TOP_PAGE: nat := WORD_MAX / PAGE_SIZE * PAGE_SIZE

  lemma AlignDownIs(x: Word)
    ensures AlignDown(x) <= x < AlignDown(x) + PAGE_SIZE && AlignDown(x) % PAGE_SIZE == 0 && AlignDown(x) <= TOP_PAGE
  {
  }

  lemma AlignUpIs(x: Word)
    ensures AlignUp(x) % PAGE_SIZE == 0 && AlignUp(x) <= TOP_PAGE
    ensures x <= TOP_PAGE ==> x <= AlignUp(x) < x + PAGE_SIZE
    ensures x > TOP_PAGE ==> AlignUp(x) == TOP_PAGE
  {
  }

  /** A page-aligned bound does not split a page. */
  lemma PageSide(p: nat, q: nat)
    requires p % PAGE_SIZE == 0 && q % PAGE_SIZE == 0
    ensures p < q ==> p + PAGE_SIZE <= q
  {
  }

  ghost predicate WholePageIn(r: Region, p: nat) {
    forall y | p <= y < p + PAGE_SIZE :: InRegion(r, y)
  }

  /** Free regions are rounded inwards to whole pages, reservations outwards, but for the topmost page. */
  lemma EntryIs(r: Region, x: nat)
    ensures EntryOf(r).start % PAGE_SIZE == 0 && EntryOf(r).end % PAGE_SIZE == 0 && EntryOf(r).end <= TOP_PAGE
    ensures r.kind == Free && Within(EntryOf(r), x) ==> InRegion(r, x)
    ensures r.kind != Free && InRegion(r, x) && x < TOP_PAGE ==> Within(EntryOf(r), x)
  {
    AlignDownIs(r.base);
    AlignUpIs(r.base);
    AlignDownIs(SaturatingAdd(r.base, r.size));
    AlignUpIs(SaturatingAdd(r.base, r.size));
    hide AlignUp, AlignDown;
  }

  /** No whole free page below the topmost is lost. */
  lemma WholePagesKept(r: Region, p: nat)
    requires r.kind == Free && p % PAGE_SIZE == 0 && p < TOP_PAGE && WholePageIn(r, p)
    ensures EntryOf(r).start <= p && p + PAGE_SIZE <= EntryOf(r).end
  {
    assert InRegion(r, p) && InRegion(r, p + PAGE_SIZE - 1);
    var end := SaturatingAdd(r.base, r.size);
    AlignUpIs(r.base);
    AlignDownIs(end);
    PageSide(p, AlignUp(r.base));
    PageSide(AlignDown(end), p + PAGE_SIZE);
    PageSide(p, TOP_PAGE);
    hide AlignUp, AlignDown;
  }

  // What the memory map means, page by page.

  function Page(x: nat): nat { x / PAGE_SIZE * PAGE_SIZE }

  lemma PageIs(x: nat)
    ensures Page(x) % PAGE_SIZE == 0 && Page(x) <= x < Page(x) + PAGE_SIZE
  {
  }

  predicate WithinLimits(low: Option<Word>, high: Option<Word>, p: nat) {
    (low.Some? ==> low.value <= p) && (high.Some? ==> p + PAGE_SIZE <= high.value)
  }

  /** Some byte of the page is in the region. */
  predicate MeetsPage(r: Region, p: nat) { r.size > 0 && r.base < p + PAGE_SIZE && p < r.base + r.size }

  /** The page is wholly within one free region and the limits, and meets no region of another kind. */
  ghost predicate Usable(rs: seq<Region>, low: Option<Word>, high: Option<Word>, p: nat) {
    && p < TOP_PAGE && WithinLimits(low, high, p)
    && (exists r :: r in rs && r.kind == Free && WholePageIn(r, p))
    && !(exists r :: r in rs && r.kind != Free && r.kind != Null && MeetsPage(r, p))
  }

  /** A registered free region covers exactly the pages it contains, another region exactly those it meets. */
  lemma EntryPages(r: Region, x: nat)
    requires x < TOP_PAGE
    ensures r.kind == Free ==> (Kept(r) && Within(EntryOf(r), x) <==> WholePageIn(r, Page(x)))
    ensures r.kind != Free && r.kind != Null ==> (Kept(r) && Within(EntryOf(r), x) <==> MeetsPage(r, Page(x)))
  {
    PageIs(x);
    var p, end := Page(x), SaturatingAdd(r.base, r.size);
    AlignUpIs(r.base);
    AlignDownIs(r.base);
    AlignUpIs(end);
    AlignDownIs(end);
    PageSide(p, TOP_PAGE);
    if r.kind == Free {
      FreePages(r, x);
    } else {
      PageSide(p, AlignUp(end));
      PageSide(AlignUp(end), p);
      PageSide(AlignDown(r.base), p + PAGE_SIZE);
      PageSide(p, AlignDown(r.base));
      hide AlignUp, AlignDown, Page;
    }
  }

  lemma FreePages(r: Region, x: nat)
    requires x < TOP_PAGE && r.kind == Free
    ensures Kept(r) && Within(EntryOf(r), x) <==> WholePageIn(r, Page(x))
  {
    PageIs(x);
    var p, end := Page(x), SaturatingAdd(r.base, r.size);
    if WholePageIn(r, p) {
      WholePagesKept(r, p);
      assert InRegion(r, p);
    } else if Within(EntryOf(r), x) {
      AlignUpIs(r.base);
      AlignDownIs(end);
      PageSide(p, AlignUp(r.base));
      PageSide(p, AlignDown(end));
    }
    hide AlignUp, AlignDown, Page;
  }

  // Areas.

  predicate Touch(a: Area, b: Area) {
    a.base <= b.base + b.size && a.base + a.size >= b.base
  }

  /** The areas are not empty and never touch. */
  ghost predicate Apart(s: seq<Area>) {
    && (forall i | 0 <= i < |s| :: s[i].size > 0)
    && (forall i, j | 0 <= i < |s| && 0 <= j < |s| && i != j :: !Touch(s[i], s[j]))
  }

  predicate PageAligned(a: Area) { Whole(a.base) && Whole(a.size) }

  ghost predicate AllAligned(s: seq<Area>) {
    forall i | 0 <= i < |s| :: PageAligned(s[i])
  }

  ghost predicate AreasOk(s: seq<Area>) {
    Apart(s) && AllAligned(s)
  }

  function Combined(a: Area, b: Area): Area {
    var lo := if a.base < b.base then a.base else b.base;
    var hi := if a.base + a.size < b.base + b.size then b.base + b.size else a.base + a.size;
    Area(lo, hi - lo)
  }

  /** Two touching areas combine to exactly their union, and touch nothing new. */
  lemma CombinedIs(a: Area, b: Area)
    requires Touch(a, b)
    ensures forall x: nat :: InArea(Combined(a, b), x) <==> InArea(a, x) || InArea(b, x)
    ensures forall c :: Touch(Combined(a, b), c) <==> Touch(a, c) || Touch(b, c)
  {
  }

  lemma CombinedAligned(a: Area, b: Area)
    requires PageAligned(a) && PageAligned(b)
    ensures PageAligned(Combined(a, b))
  {
    hide Whole;
    WholeSum(a.base, a.size);
    WholeSum(b.base, b.size);
    var lo := Combined(a, b).base;
    WholeSum(a.base + a.size, lo);
    WholeSum(b.base + b.size, lo);
  }

  /** The list without element `i`, whose place the last one takes. */
  function Without(s: seq<Area>, i: nat): seq<Area>
    requires i < |s|
  {
    s[i := s[|s| - 1]][..|s| - 1]
  }

  lemma WithoutIs(s: seq<Area>, i: nat)
    requires i < |s| && AreasOk(s)
    ensures AreasOk(Without(s, i)) && forall x: nat :: Has(s, x) <==> Has(Without(s, i), x) || InArea(s[i], x)
  {
    var t := Without(s, i);
    forall x: nat ensures Has(s, x) <==> Has(t, x) || InArea(s[i], x) {
      if Has(s, x) && !InArea(s[i], x) {
        var k :| 0 <= k < |s| && InArea(s[k], x);
        var j := if k == |s| - 1 then i else k;
        assert t[j] == s[k];
      }
      if Has(t, x) {
        var k :| 0 <= k < |t| && InArea(t[k], x);
        assert t[k] == s[if k == i then |s| - 1 else k];
      }
    }
  }

  lemma AddedIs(s: seq<Area>, a: Area)
    requires AreasOk(s) && a.size > 0 && PageAligned(a)
    requires forall i | 0 <= i < |s| :: !Touch(a, s[i])
    ensures AreasOk(s + [a]) && forall x: nat :: Has(s + [a], x) <==> Has(s, x) || InArea(a, x)
  {
    forall x: nat ensures Has(s + [a], x) <==> Has(s, x) || InArea(a, x) {
      if InArea(a, x) { assert (s + [a])[|s|] == a; }
      if Has(s, x) {
        var k :| 0 <= k < |s| && InArea(s[k], x);
        assert (s + [a])[k] == s[k];
      }
    }
  }

  /** Every area begins at one of the given addresses. */
  ghost predicate BasesIn(s: seq<Area>, starts: set<nat>) {
    forall i | 0 <= i < |s| :: s[i].base in starts
  }

  /** Separate areas begin at different addresses, so there are no more of them than places to begin. */
  lemma {:induction false} AtMost(s: seq<Area>, starts: set<nat>)
    requires Apart(s) && BasesIn(s, starts)
    ensures |s| <= |starts|
  {
    if s != [] {
      var n := |s| - 1;
      assert s[n].base in starts;
      forall i | 0 <= i < n ensures s[i].base in starts - {s[n].base} { assert !Touch(s[i], s[n]); }
      AtMost(s[..n], starts - {s[n].base});
    }
  }

  /** A coalescing pass over the list so far: afterwards the area touches none of it, in a single pass. */
  method Coalesce(areas: array<Area>, count: nat, area: Area, ghost starts: set<nat>) returns (n: nat, grown: Area)
    requires count <= areas.Length && AreasOk(areas[..count]) && BasesIn(areas[..count], starts)
    requires area.size > 0 && PageAligned(area) && area.base in starts
    modifies areas
    ensures n <= count && AreasOk(areas[..n]) && BasesIn(areas[..n], starts)
    ensures grown.size > 0 && PageAligned(grown) && grown.base in starts
    ensures forall i | 0 <= i < n :: !Touch(grown, areas[i])
    ensures forall x: nat :: Has(areas[..n], x) || InArea(grown, x) <==> old(Has(areas[..count], x)) || InArea(area, x)
  {
    hide Has, AreasOk, Whole;
    n, grown := count, area;
    var other := 0;
    while other < n
      invariant 0 <= other <= n <= count && AreasOk(areas[..n]) && BasesIn(areas[..n], starts)
      invariant grown.size > 0 && PageAligned(grown) && grown.base in starts
      invariant forall i | 0 <= i < other :: !Touch(grown, areas[i])
      invariant forall x: nat :: Has(areas[..n], x) || InArea(grown, x) <==>
          old(Has(areas[..count], x)) || InArea(area, x)
      decreases n - other
    {
      if Touch(grown, areas[other]) {
        PairFacts(areas[..n], other);
        CombinedIs(grown, areas[other]);
        CombinedAligned(grown, areas[other]);
        WithoutIs(areas[..n], other);
        grown := Combined(grown, areas[other]);
        n := n - 1;
        ghost var before := areas[..n + 1];
        areas[other] := areas[n];
        assert areas[..n] == Without(before, other);
      } else {
        other := other + 1;
      }
    }
  }

  lemma PairFacts(s: seq<Area>, i: nat)
    requires AreasOk(s) && i < |s|
    ensures s[i].size > 0 && PageAligned(s[i])
    ensures forall j | 0 <= j < |s| && j != i :: !Touch(s[i], s[j])
  {
  }

  // Cutting the reservations out.

  predicate Reservations(res: seq<Entry>) {
    forall i | 0 <= i < |res| :: res[i].start < res[i].end && Whole(res[i].start) && Whole(res[i].end)
  }

  /**
   `add_memory`: exactly what the reservations leave of the area joins the list. Areas begin where the area
   or a reservation's successor does, so a list with room for that many beginnings never overflows.
   */
  method AddMemory(areas: array<Area>, count: nat, res: seq<Entry>, entry: Entry, ghost starts: set<nat>)
    returns (n: nat)
    requires count <= areas.Length && AreasOk(areas[..count]) && Reservations(res)
    requires entry.start < entry.end && Whole(entry.start) && Whole(entry.end)
    requires BasesIn(areas[..count], starts) && entry.start in starts && EndsIn(res, starts) && |starts| <= areas.Length
    modifies areas
    ensures n <= areas.Length && AreasOk(areas[..n]) && BasesIn(areas[..n], starts)
    ensures forall x: nat :: Has(areas[..n], x) <==> old(Has(areas[..count], x)) || (Within(entry, x) && !InAny(res, x))
    decreases entry.end - entry.start
  {
    hide Has, AreasOk, Whole, InAny, BasesIn;
    n := count;
    var area := entry;
    var i := 0;
    while i < |res|
      invariant 0 <= i <= |res| && n <= areas.Length && AreasOk(areas[..n]) && BasesIn(areas[..n], starts)
      invariant entry.start <= area.start && area.end <= entry.end && Whole(area.start) && Whole(area.end)
      invariant area.start in starts
      invariant forall x: nat :: Has(areas[..n], x) || (Within(area, x) && !InAny(res, x))
                            <==> old(Has(areas[..count], x)) || (Within(entry, x) && !InAny(res, x))
      invariant forall j | 0 <= j < i :: area.end <= res[j].start || res[j].end <= area.start
      invariant area.start < area.end
    {
      var r := res[i];
      forall x: nat | Within(r, x) ensures InAny(res, x) { InAnyAt(res, i, x); }
      if r.start < area.end <= r.end { area := area.(end := r.start); }
      if area.start >= area.end { return; }
      if r.start <= area.start < r.end { area := area.(start := r.end); }
      if area.start >= area.end { return; }
      if area.start <= r.start < area.end {
        assert area.start < r.start && r.end < area.end;
        n := AddMemory(areas, n, res, area.(end := r.start), starts);
        area := area.(start := r.end);
      }
      i := i + 1;
    }
    WholeSum(area.end, area.start);
    forall x: nat | Within(area, x) ensures !InAny(res, x) { ClearOfAll(res, area, x); }
    n := Append(areas, n, Area(area.start, area.end - area.start), starts);
  }

  ghost predicate EndsIn(res: seq<Entry>, starts: set<nat>) {
    forall i | 0 <= i < |res| :: res[i].end in starts
  }

  /** The end of `add_memory`: the area joins the list, with every area it touches; there is room for it. */
  method Append(areas: array<Area>, count: nat, area: Area, ghost starts: set<nat>) returns (n: nat)
    requires count <= areas.Length && AreasOk(areas[..count]) && area.size > 0 && PageAligned(area)
    requires BasesIn(areas[..count], starts) && area.base in starts && |starts| <= areas.Length
    modifies areas
    ensures n <= areas.Length && AreasOk(areas[..n]) && BasesIn(areas[..n], starts)
    ensures forall x: nat :: Has(areas[..n], x) <==> old(Has(areas[..count], x)) || InArea(area, x)
  {
    hide Has, Apart, AllAligned, Whole;
    var grown;
    n, grown := Coalesce(areas, count, area, starts);
    AddedIs(areas[..n], grown);
    AtMost(areas[..n] + [grown], starts);
    assert areas[..n] + [grown] == areas[..][n := grown][..n + 1];
    areas[n] := grown;
    n := n + 1;
  }

  lemma ClearOfAll(res: seq<Entry>, area: Entry, x: nat)
    requires Within(area, x) && forall j | 0 <= j < |res| :: area.end <= res[j].start || res[j].end <= area.start
    ensures !InAny(res, x)
  {
  }

  lemma InAnyAt(res: seq<Entry>, i: nat, x: nat)
    requires i < |res| && Within(res[i], x)
    ensures InAny(res, x)
  {
  }

  // The registered map, and the whole boot.

  /** The page-aligned entries worth keeping. */
  ghost predicate EntriesOk(s: seq<Entry>) {
    forall i | 0 <= i < |s| :: s[i].start < s[i].end && Whole(s[i].start) && Whole(s[i].end)
  }

  function Kept(r: Region): bool {
    r.kind != Null && r.size != 0 && EntryOf(r).start < EntryOf(r).end
  }

  function Registered(rs: seq<Region>): seq<Entry> {
    if rs == [] then []
    else Registered(rs[..|rs| - 1]) + if Kept(rs[|rs| - 1]) then [EntryOf(rs[|rs| - 1])] else []
  }

  class MemoryMap {
    const entries: array<Entry>
    var size: nat
    ghost var regions: seq<Region>

    ghost predicate Valid()
      reads this, entries
    {
      size <= entries.Length == CAPACITY && EntriesOk(entries[..size]) && entries[..size] == Registered(regions)
    }

    constructor ()
      ensures Valid() && regions == [] && fresh(entries)
    {
      entries := new Entry[CAPACITY](_ => Entry(0, 0, Null));
      size, regions := 0, [];
    }

    /** `register_memory_region`: false where the kernel panics because the table is full. */
    method Register(r: Region) returns (ok: bool)
      requires Valid()
      modifies this, entries
      ensures ok <==> r.kind == Null || r.size == 0 || old(size) < CAPACITY
      ensures ok ==> Valid() && regions == old(regions) + [r]
      ensures !ok ==> Valid() && regions == old(regions)
    {
      ghost var before := entries[..size];
      assert (regions + [r])[..|regions|] == regions;
      if r.kind != Null && r.size != 0 {
        if size >= entries.Length { return false; }
        var e := EntryOf(r);
        EntryIs(r, 0);
        if e.start < e.end {
          entries[size] := e;
          size := size + 1;
          assert entries[..size] == before + [e];
        }
      }
      regions := regions + [r];
      hide EntryOf;
      ok := true;
    }

    method NonFree(ghost limit: Entry) returns (res: seq<Entry>)
      requires Valid()
      ensures EndsIn(res, Starts(entries[..size], limit))
      ensures Reservations(res) && forall x: nat :: InAny(res, x) <==> InReserved(entries[..size], x)
    {
      res := [];
      var i := 0;
      while i < size
        invariant 0 <= i <= size && Reservations(res)
        invariant forall x: nat :: InAny(res, x) <==> InReserved(entries[..i], x)
        invariant EndsIn(res, Starts(entries[..size], limit))
      {
        var e := entries[i];
        assert Start(entries[..size][i], limit) in Starts(entries[..size], limit);
        ReservedMore(entries[..i], res, e);
        assert entries[..i + 1] == entries[..i] + [e];
        if e.kind != Free { res := res + [e]; }
        i := i + 1;
      }
    }

    /**
     The area loop of `init`: the areas are exactly the usable pages of the regions registered, as aligned,
     separate, maximal runs. The array always has room for them.
     */
    method FreeAreas(low: Option<Word>, high: Option<Word>) returns (areas: array<Area>, n: nat)
      requires Valid()
      ensures fresh(areas) && n <= areas.Length == CAPACITY && AreasOk(areas[..n])
      ensures forall x: nat :: Has(areas[..n], x) <==> Usable(regions, low, high, Page(x))
    {
      var limit := Limit(low, high);
      ghost var starts := Starts(entries[..size], limit);
      StartsSize(entries[..size], limit);
      var res := NonFree(limit);
      areas := new Area[CAPACITY](_ => Area(0, 0));
      n := 0;
      var i := 0;
      NothingYet(starts);
      assert areas[..0] == [] && entries[..0] == [];
      LimitAligned(low, high);
      forall x: nat
        ensures Within(limit, x) && InFree(entries[..size], x) && !InReserved(entries[..size], x) <==>
                Usable(regions, low, high, Page(x))
      {
        UsableIs(regions, low, high, x);
      }
      hide Has, InFree, InAny, InReserved, AreasOk, BasesIn, EndsIn, Whole, Limit, Registered, Reservations;
      while i < size
        invariant 0 <= i <= size && n <= areas.Length && AreasOk(areas[..n]) && BasesIn(areas[..n], starts)
        invariant forall x: nat :: Has(areas[..n], x) <==> Within(limit, x) && InFree(entries[..i], x) && !InAny(res, x)
      {
        var e := entries[i];
        FreeMore(entries[..i], e);
        assert entries[..i + 1] == entries[..i] + [e];
        if e.kind == Free {
          var part := Intersected(e, limit);
          if part.start < part.end {
            assert Start(entries[..size][i], limit) in starts;
            n := AddMemory(areas, n, res, part, starts);
          }
        }
        i := i + 1;
      }
    }
  }

  lemma NothingYet(starts: set<nat>)
    ensures AreasOk([]) && BasesIn([], starts) && forall x: nat :: !Has([], x) && !InFree([], x)
  {
  }

  lemma LimitAligned(low: Option<Word>, high: Option<Word>)
    ensures Whole(Limit(low, high).start) && Whole(Limit(low, high).end)
  {
  }

  /** The limits cut at whole pages: those that begin at or above the low one and end at or below the high one. */
  lemma LimitIs(low: Option<Word>, high: Option<Word>, x: nat)
    requires x < TOP_PAGE
    ensures Within(Limit(low, high), x) <==> WithinLimits(low, high, Page(x))
  {
    PageIs(x);
    var l, h := if low.Some? then low.value else 0, if high.Some? then high.value else WORD_MAX;
    AlignUpIs(l);
    AlignDownIs(h);
    PageSide(Page(x), AlignUp(l));
    PageSide(AlignDown(h), Page(x) + PAGE_SIZE);
    PageSide(Page(x), AlignDown(h));
    PageSide(Page(x), TOP_PAGE);
    hide AlignUp, AlignDown, Page;
  }

  /** Where an area may begin on account of an entry. */
  function Start(e: Entry, limit: Entry): nat {
    if e.kind == Free then Intersected(e, limit).start else e.end
  }

  ghost function Starts(s: seq<Entry>, limit: Entry): set<nat> {
    set i | 0 <= i < |s| :: Start(s[i], limit)
  }

  lemma {:induction false} StartsSize(s: seq<Entry>, limit: Entry)
    ensures |Starts(s, limit)| <= |s|
  {
    if s != [] {
      var n := |s| - 1;
      StartsSize(s[..n], limit);
      assert Starts(s, limit) == Starts(s[..n], limit) + {Start(s[n], limit)} by {
        assert forall i | 0 <= i < n :: s[..n][i] == s[i];
      }
    }
  }

  function Limit(low: Option<Word>, high: Option<Word>): Entry {
    Entry(AlignUp(if low.Some? then low.value else 0), AlignDown(if high.Some? then high.value else WORD_MAX), Free)
  }

  function Intersected(a: Entry, b: Entry): Entry {
    Entry(if a.start < b.start then b.start else a.start, if a.end < b.end then a.end else b.end, a.kind)
  }

  lemma ReservedMore(s: seq<Entry>, res: seq<Entry>, e: Entry)
    ensures forall x: nat :: InReserved(s + [e], x) <==> InReserved(s, x) || (e.kind != Free && Within(e, x))
    ensures forall x: nat :: InAny(res + [e], x) <==> InAny(res, x) || Within(e, x)
  {
    forall x: nat ensures InReserved(s + [e], x) <==> InReserved(s, x) || (e.kind != Free && Within(e, x)) {
      assert (s + [e])[|s|] == e && forall i | 0 <= i < |s| :: (s + [e])[i] == s[i];
    }
    forall x: nat ensures InAny(res + [e], x) <==> InAny(res, x) || Within(e, x) {
      assert (res + [e])[|res|] == e && forall i | 0 <= i < |res| :: (res + [e])[i] == res[i];
    }
  }

  lemma FreeMore(s: seq<Entry>, e: Entry)
    ensures forall x: nat :: InFree(s + [e], x) <==> InFree(s, x) || (e.kind == Free && Within(e, x))
  {
    forall x: nat ensures InFree(s + [e], x) <==> InFree(s, x) || (e.kind == Free && Within(e, x)) {
      assert (s + [e])[|s|] == e && forall i | 0 <= i < |s| :: (s + [e])[i] == s[i];
    }
  }

  /** What the bootloader reported, page by page: a free entry is a free region's, a reservation another region's. */
  lemma {:induction false} RegisteredIs(rs: seq<Region>, x: nat)
    ensures InFree(Registered(rs), x) ==> x < TOP_PAGE
    ensures x < TOP_PAGE ==>
              (InFree(Registered(rs), x) <==> exists r :: r in rs && r.kind == Free && WholePageIn(r, Page(x)))
    ensures x < TOP_PAGE ==>
              (InReserved(Registered(rs), x) <==>
                 exists r :: r in rs && r.kind != Free && r.kind != Null && MeetsPage(r, Page(x)))
  {
    if rs != [] {
      var s, r := rs[..|rs| - 1], rs[|rs| - 1];
      assert rs == s + [r];
      RegisteredIs(s, x);
      EntryIs(r, x);
      if x < TOP_PAGE { EntryPages(r, x); }
      FreeMore(Registered(s), EntryOf(r));
      ReservedMore(Registered(s), [], EntryOf(r));
      assert r in rs && forall q :: q in rs <==> q in s || q == r;
      hide EntryOf, InFree, InReserved, WholePageIn, MeetsPage, Page;
      assert Registered(rs) == if Kept(r) then Registered(s) + [EntryOf(r)] else Registered(s);
    }
  }

  lemma UsableIs(rs: seq<Region>, low: Option<Word>, high: Option<Word>, x: nat)
    ensures Within(Limit(low, high), x) && InFree(Registered(rs), x) && !InReserved(Registered(rs), x) <==>
            Usable(rs, low, high, Page(x))
  {
    RegisteredIs(rs, x);
    PageIs(x);
    PageSide(Page(x), TOP_PAGE);
    if x < TOP_PAGE { LimitIs(low, high, x); }
    hide Registered, InFree, InReserved, WholePageIn, MeetsPage, Page, Limit, WithinLimits;
  }

  /** No byte handed to the allocator was reported as anything but free. */
  lemma OnlyFreeMemory(rs: seq<Region>, low: Option<Word>, high: Option<Word>, x: nat)
    requires Usable(rs, low, high, Page(x))
    ensures exists r :: r in rs && r.kind == Free && InRegion(r, x)
    ensures forall r | r in rs && InRegion(r, x) :: r.kind == Free || r.kind == Null
  {
    PageIs(x);
    var r :| r in rs && r.kind == Free && WholePageIn(r, Page(x));
    assert InRegion(r, x);
    forall q | q in rs && InRegion(q, x) ensures q.kind == Free || q.kind == Null { assert MeetsPage(q, Page(x)); }
  }
}
