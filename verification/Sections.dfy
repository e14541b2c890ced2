/**
 Boot-time set-up of the allocator's sections (src/memory/mod.rs, `init_sections`): cutting the free
 areas into sections and each section into aligned power-of-two blocks.
 */
module Sections {
  import opened Dyadic
  import opened BuddySpec

  /** `MAX_SECTION_SIZE` in frames, and its order. */
  const SECTION_FRAMES: nat := 32768
  const SECTION_ORDER: nat := 15

  /** A run of frames: a free area or a section. */
  datatype Span = Span(base: nat, count: nat) {
    function End(): nat { base + count }
    predicate Has(f: nat) { base <= f < base + count }
  }

  ghost predicate InSome(spans: seq<Span>, f: nat) {
    exists i :: 0 <= i < |spans| && spans[i].Has(f)
  }

  ghost predicate Ascending(spans: seq<Span>) {
    forall i, j | 0 <= i < j < |spans| :: spans[i].End() <= spans[j].base
  }

  /** The number of section-sized cells an area reaches into. */
  function CellsTouched(a: Span): nat {
    (a.End() + (SECTION_FRAMES - 1)) / SECTION_FRAMES - a.base / SECTION_FRAMES
  }

  /** `max_section_count`, the length of the preallocated section array. */
  function SectionBudget(areas: seq<Span>): nat {
    if areas == [] then 0 else SectionBudget(areas[..|areas| - 1]) + CellsTouched(areas[|areas| - 1])
  }

  /** A section fits its cell and ends early only where the area does. */
  ghost predicate CutOf(s: Span, area: Span) {
    && 0 < s.count && s.base / SECTION_FRAMES == (s.End() - 1) / SECTION_FRAMES
    && area.base <= s.base && s.End() <= area.End()
    && (s.base == area.base || s.base % SECTION_FRAMES == 0)
    && (s.End() == area.End() || s.End() % SECTION_FRAMES == 0)
  }

  lemma CutStep(area: Span, base: nat, left: nat, count: nat)
    requires base + left == area.End() && area.base <= base && 0 < left
    requires base == area.base || base % SECTION_FRAMES == 0
    requires count == SECTION_FRAMES - base % SECTION_FRAMES || count == left < SECTION_FRAMES - base % SECTION_FRAMES
    requires count <= left
    ensures 0 < count && CutOf(Span(base, count), area)
    ensures count < left ==> (base + count) % SECTION_FRAMES == 0
    ensures 1 + (if count == left then 0 else CellsTouched(Span(base + count, left - count)))
            <= CellsTouched(Span(base, left))
  {
  }

  method SplitArea(area: Span) returns (cuts: seq<Span>)
    ensures |cuts| <= CellsTouched(area)
    ensures Ascending(cuts) && forall i | 0 <= i < |cuts| :: CutOf(cuts[i], area)
    ensures forall f: nat :: InSome(cuts, f) <==> area.Has(f)
  {
    hide CellsTouched, CutOf;
    cuts := [];
    var base: nat, left: nat := area.base, area.count;
    while left > 0
      invariant base + left == area.End() && area.base <= base
      invariant base == area.base || left == 0 || base % SECTION_FRAMES == 0
      invariant |cuts| + (if left == 0 then 0 else CellsTouched(Span(base, left))) <= CellsTouched(area)
      invariant Ascending(cuts) && forall i | 0 <= i < |cuts| :: CutOf(cuts[i], area) && cuts[i].End() <= base
      invariant forall f: nat :: InSome(cuts, f) <==> area.base <= f < base
    {
      var most := if left < SECTION_FRAMES then left else SECTION_FRAMES;
      var toNext := SECTION_FRAMES - base % SECTION_FRAMES;
      var count := if most < toNext then most else toNext;
      var cut := Span(base, count);
      CutStep(area, base, left, count);
      AppendHas(cuts, cut);
      cuts := cuts + [cut];
      left := left - count;
      base := base + count;
    }
  }

  lemma AppendHas(spans: seq<Span>, s: Span)
    ensures forall f: nat :: InSome(spans + [s], f) <==> InSome(spans, f) || s.Has(f)
  {
    forall f: nat ensures InSome(spans + [s], f) <==> InSome(spans, f) || s.Has(f) {
      var all := spans + [s];
      if InSome(spans, f) {
        var i :| 0 <= i < |spans| && spans[i].Has(f);
        assert all[i].Has(f);
      }
      if s.Has(f) { assert all[|spans|].Has(f); }
      if InSome(all, f) {
        var i :| 0 <= i < |all| && all[i].Has(f);
        if i < |spans| { assert spans[i].Has(f); }
      }
    }
  }

  /** Every end of a section that is not on a cell boundary borders a frame that is in no area. */
  ghost predicate Isolated(s: Span, areas: seq<Span>) {
    && 0 < s.count && s.base / SECTION_FRAMES == (s.End() - 1) / SECTION_FRAMES
    && (s.base % SECTION_FRAMES != 0 ==> !InSome(areas, s.base - 1))
    && (s.End() % SECTION_FRAMES != 0 ==> !InSome(areas, s.End()))
  }

  lemma EmptyHas()
    ensures forall f: nat :: !InSome([], f)
  {
  }

  lemma ConcatHas(a: seq<Span>, b: seq<Span>)
    ensures forall f: nat :: InSome(a + b, f) <==> InSome(a, f) || InSome(b, f)
  {
    forall f: nat ensures InSome(a + b, f) <==> InSome(a, f) || InSome(b, f) {
      var all := a + b;
      if i :| 0 <= i < |a| && a[i].Has(f) { assert all[i].Has(f); }
      if i :| 0 <= i < |b| && b[i].Has(f) { assert all[|a| + i].Has(f); }
      if i :| 0 <= i < |all| && all[i].Has(f) {
        if i < |a| { assert a[i].Has(f); } else { assert b[i - |a|].Has(f); }
      }
    }
  }

  /** The cuts of the merged run `areas[start..j]`, added behind the sections so far. */
  lemma AddCuts(sections: seq<Span>, cuts: seq<Span>, area: Span, areas: seq<Span>, start: nat, j: nat, lim: nat)
    requires Ascending(areas) && start < j <= |areas|
    requires Ascending(sections) && Ascending(cuts)
    requires forall i | 0 <= i < |sections| :: sections[i].End() <= lim && Isolated(sections[i], areas)
    requires sections != [] ==> lim < area.base
    requires forall i | 0 <= i < start && 0 < areas[i].count :: areas[i].End() < area.base
    requires 0 < area.count && area.base == areas[start].base && area.End() == areas[j - 1].End()
    requires j < |areas| ==> areas[j].base != area.End()
    requires forall i | 0 <= i < |cuts| :: CutOf(cuts[i], area)
    ensures Ascending(sections + cuts)
    ensures forall i | 0 <= i < |sections + cuts| ::
              (sections + cuts)[i].End() <= area.End() && Isolated((sections + cuts)[i], areas)
    ensures forall i | j <= i < |areas| :: area.End() < areas[i].base
  {
    assert forall i | j <= i < |areas| :: area.End() < areas[i].base;
    assert !InSome(areas, area.End());
    assert area.base > 0 ==> !InSome(areas, area.base - 1);
  }

  lemma PrefixStep(areas: seq<Span>, j: nat)
    requires j < |areas|
    ensures SectionBudget(areas[..j + 1]) == SectionBudget(areas[..j]) + CellsTouched(areas[j])
    ensures forall f: nat :: InSome(areas[..j + 1], f) <==> InSome(areas[..j], f) || areas[j].Has(f)
  {
    assert areas[..j + 1] == areas[..j] + [areas[j]];
    AppendHas(areas[..j], areas[j]);
  }

  /** The maximal run of adjoining areas from `start` on, as one area. */
  method MergeRun(areas: seq<Span>, start: nat) returns (area: Span, j: nat)
    requires start < |areas| && 0 < areas[start].count
    ensures start < j <= |areas| && 0 < area.count
    ensures area.base == areas[start].base && area.End() == areas[j - 1].End()
    ensures j < |areas| ==> areas[j].base != area.End()
    ensures SectionBudget(areas[..start]) + CellsTouched(area) <= SectionBudget(areas[..j])
    ensures forall f: nat :: InSome(areas[..j], f) <==> InSome(areas[..start], f) || area.Has(f)
  {
    hide SectionBudget, InSome;
    area, j := areas[start], start + 1;
    PrefixStep(areas, start);
    while j < |areas| && areas[j].base == area.End()
      invariant start < j <= |areas| && 0 < area.count
      invariant area.base == areas[start].base && area.End() == areas[j - 1].End()
      invariant SectionBudget(areas[..start]) + CellsTouched(area) <= SectionBudget(areas[..j])
      invariant forall f: nat :: InSome(areas[..j], f) <==> InSome(areas[..start], f) || area.Has(f)
    {
      PrefixStep(areas, j);
      var wider := Span(area.base, area.count + areas[j].count);
      assert forall f: nat :: wider.Has(f) <==> area.Has(f) || areas[j].Has(f);
      area := wider;
      j := j + 1;
    }
  }

  /**
   The areas cut into sections: every frame of every area lies in exactly one section, no section
   crosses a cell boundary, and the preallocated array is long enough.
   */
  method BuildSections(areas: seq<Span>) returns (sections: seq<Span>)
    requires Ascending(areas)
    ensures |sections| <= SectionBudget(areas)
    ensures Ascending(sections)
    ensures forall f: nat :: InSome(sections, f) <==> InSome(areas, f)
    ensures forall i | 0 <= i < |sections| :: Isolated(sections[i], areas)
  {
    hide Isolated, CutOf, InSome, SectionBudget, CellsTouched;
    sections := [];
    EmptyHas();
    assert areas[..0] == [];
    var j: nat, lim: nat := 0, 0;
    while j < |areas|
      invariant 0 <= j <= |areas|
      invariant |sections| <= SectionBudget(areas[..j])
      invariant Ascending(sections)
      invariant forall i | 0 <= i < |sections| :: sections[i].End() <= lim && Isolated(sections[i], areas)
      invariant forall f: nat :: InSome(sections, f) <==> InSome(areas[..j], f)
      invariant forall i | 0 <= i < j && 0 < areas[i].count :: areas[i].End() <= lim
      invariant forall i | j <= i < |areas| :: lim < areas[i].base || (sections == [] && lim == 0)
    {
      PrefixStep(areas, j);
      if areas[j].count == 0 {
        j := j + 1;
        continue;
      }
      ghost var start := j;
      var area;
      area, j := MergeRun(areas, j);
      var cuts := SplitArea(area);
      AddCuts(sections, cuts, area, areas, start, j, lim);
      ConcatHas(sections, cuts);
      sections := sections + cuts;
      lim := area.End();
    }
    assert areas[..j] == areas;
  }

  // Peeling a section into blocks.

  datatype Tile = Tile(head: nat, order: nat) {
    predicate Has(f: nat) { head <= f < head + Pow2(order) }
  }

  ghost predicate InTiles(tiles: seq<Tile>, f: nat) {
    exists i :: 0 <= i < |tiles| && tiles[i].Has(f)
  }

  ghost predicate TilesDisjoint(tiles: seq<Tile>) {
    forall i, j, f: nat | 0 <= i < j < |tiles| && tiles[i].Has(f) :: !tiles[j].Has(f)
  }

  /** The buddy of the tile reaches over an end of the section that is not on a cell boundary. */
  ghost predicate Fenced(t: Tile, sec: Span) {
    && Aligned(t.head, t.order) && t.order <= MAX_ORDER && Buddy(t.head, t.order) >= 0
    && (t.order < MAX_ORDER ==>
          || (!Aligned(sec.base, SECTION_ORDER) && 0 < sec.base
              && Cell(sec.base - 1, t.order) == Cell(Buddy(t.head, t.order), t.order))
          || (!Aligned(sec.End(), SECTION_ORDER)
              && Cell(sec.End(), t.order) == Cell(Buddy(t.head, t.order), t.order)))
  }

  lemma AlignedGap(a: nat, b: nat, o: nat)
    requires Aligned(a, o) && Aligned(b, o) && a < b
    ensures a + Pow2(o) <= b
  {
    InBlock(a, o, b);
    if Cell(a, o) == Cell(b, o) { AlignedSame(a, b, o); }
  }

  /** The block peeled off the low end. */
  lemma PeelFirst(sec: Span, b: nat, o: nat)
    requires Aligned(b, o) && !Aligned(b, o + 1) && o < MAX_ORDER
    requires sec.base <= b < sec.base + Pow2(o)
    requires b == sec.base || !Aligned(sec.base, SECTION_ORDER)
    ensures Aligned(b + Pow2(o), o + 1)
    ensures !Aligned(sec.base, SECTION_ORDER) && Fenced(Tile(b, o), sec)
  {
    NextCell(b, o);
    BuddyFacts(b, o);
    if Aligned(sec.base, SECTION_ORDER) { AlignedFiner(sec.base, o + 1, SECTION_ORDER); }
    if sec.base == 0 { ZeroCell(SECTION_ORDER); }
    InBlock(b - Pow2(o), o, sec.base - 1);
  }

  /** The block peeled off the high end. */
  lemma PeelLast(sec: Span, e: nat, o: nat)
    requires Aligned(e, o) && !Aligned(e, o + 1) && o < MAX_ORDER
    requires e <= sec.End() < e + Pow2(o)
    requires e == sec.End() || !Aligned(sec.End(), SECTION_ORDER)
    ensures e >= Pow2(o) && Aligned(e - Pow2(o), o + 1)
    ensures !Aligned(sec.End(), SECTION_ORDER) && Fenced(Tile(e - Pow2(o), o), sec)
  {
    PrevCell(e, o);
    BuddyFacts(e - Pow2(o), o);
    if Aligned(sec.End(), SECTION_ORDER) { AlignedFiner(sec.End(), o + 1, SECTION_ORDER); }
    InBlock(e, o, sec.End());
  }

  /** The tiles so far hold exactly what lies in the section outside `[b, e)`. */
  ghost predicate Peeled(tiles: seq<Tile>, sec: Span, b: nat, e: nat) {
    && sec.base <= b <= e <= sec.End()
    && TilesDisjoint(tiles)
    && (forall i | 0 <= i < |tiles| :: Fenced(tiles[i], sec))
    && (forall f: nat :: InTiles(tiles, f) <==> sec.Has(f) && !(b <= f < e))
  }

  lemma AddTile(tiles: seq<Tile>, sec: Span, b: nat, e: nat, t: Tile, b': nat, e': nat)
    requires Peeled(tiles, sec, b, e) && Fenced(t, sec)
    requires b <= b' <= e' <= e
    requires forall f: nat :: t.Has(f) <==> b <= f < e && !(b' <= f < e')
    ensures Peeled(tiles + [t], sec, b', e')
  {
    var all := tiles + [t];
    forall f: nat ensures InTiles(all, f) <==> InTiles(tiles, f) || t.Has(f) {
      if i :| 0 <= i < |tiles| && tiles[i].Has(f) { assert all[i].Has(f); }
      if t.Has(f) { assert all[|tiles|].Has(f); }
    }
    forall i, j, f: nat | 0 <= i < j < |all| && all[i].Has(f) ensures !all[j].Has(f) {
      if j == |tiles| { assert InTiles(tiles, f); }
    }
    hide Fenced;
  }

  /**
   The order-by-order peeling: the blocks tile the section exactly, are pairwise disjoint and
   aligned, and below the top order none has its buddy inside the section.
   */
  method TileSection(sec: Span) returns (tiles: seq<Tile>)
    ensures forall f: nat :: InTiles(tiles, f) <==> sec.Has(f)
    ensures TilesDisjoint(tiles)
    ensures forall i | 0 <= i < |tiles| :: Fenced(tiles[i], sec)
  {
    hide Fenced, TilesDisjoint, InTiles, Aligned, Pow2;
    tiles := [];
    var b: nat, e: nat, o := sec.base, sec.End(), 0;
    PeelStart(sec);
    while o < MAX_ORDER && b < e
      invariant 0 <= o <= MAX_ORDER && Peeled(tiles, sec, b, e)
      invariant b < e ==> Aligned(b, o) && Aligned(e, o)
      invariant b < e ==> b < sec.base + Pow2(o) && sec.End() < e + Pow2(o)
      invariant b == sec.base || !Aligned(sec.base, SECTION_ORDER)
      invariant e == sec.End() || !Aligned(sec.End(), SECTION_ORDER)
    {
      AlignedGap(b, e, o);
      if !Aligned(b, o + 1) {
        PeelFirst(sec, b, o);
        AddTile(tiles, sec, b, e, Tile(b, o), b + Pow2(o), e);
        tiles := tiles + [Tile(b, o)];
        b := b + Pow2(o);
      }
      if b < e && !Aligned(e, o + 1) {
        PeelLast(sec, e, o);
        AlignedStep(b, o);
        AlignedGap(b, e, o);
        AddTile(tiles, sec, b, e, Tile(e - Pow2(o), o), b, e - Pow2(o));
        tiles := tiles + [Tile(e - Pow2(o), o)];
        e := e - Pow2(o);
      }
      AlignedStep(e, o);
      o := o + 1;
    }
    while b < e
      invariant Peeled(tiles, sec, b, e)
      invariant b < e ==> Aligned(b, MAX_ORDER) && Aligned(e, MAX_ORDER)
      decreases e - b
    {
      AlignedGap(b, e, MAX_ORDER);
      NextCell(b, MAX_ORDER);
      TopFenced(sec, b);
      AddTile(tiles, sec, b, e, Tile(b, MAX_ORDER), b + Pow2(MAX_ORDER), e);
      tiles := tiles + [Tile(b, MAX_ORDER)];
      b := b + Pow2(MAX_ORDER);
    }
  }

  lemma PeelStart(sec: Span)
    ensures Peeled([], sec, sec.base, sec.End())
    ensures Aligned(sec.base, 0) && Aligned(sec.End(), 0) && Pow2(0) == 1
  {
  }

  lemma AlignedStep(h: nat, o: nat)
    ensures Aligned(h, o + 1) ==> Aligned(h, o)
    ensures Pow2(o + 1) == Pow2(o) + Pow2(o)
  {
  }

  lemma TopFenced(sec: Span, h: nat)
    requires Aligned(h, MAX_ORDER)
    ensures Fenced(Tile(h, MAX_ORDER), sec)
  {
    BuddyFacts(h, MAX_ORDER);
  }

  /** Below the top order, the tile's buddy reaches outside the areas. */
  ghost predicate FencedOff(t: Tile, areas: seq<Span>) {
    && Aligned(t.head, t.order) && t.order <= MAX_ORDER && Buddy(t.head, t.order) >= 0
    && (t.order < MAX_ORDER ==>
          exists g: nat :: !InSome(areas, g) && Cell(g, t.order) == Cell(Buddy(t.head, t.order), t.order))
  }

  lemma SectionAligned(x: nat)
    ensures Aligned(x, SECTION_ORDER) <==> x % SECTION_FRAMES == 0
  {
    AlignedIsMultiple(x, SECTION_ORDER);
    assert Pow2(5) == 32;
    assert Pow2(10) == 1024;
    assert Pow2(SECTION_ORDER) == SECTION_FRAMES;
    if x % SECTION_FRAMES == 0 {
      MultipleAligned(x / SECTION_FRAMES, SECTION_ORDER);
    }
  }

  lemma {:induction false} MultipleAligned(c: nat, o: nat)
    ensures Aligned(c * Pow2(o), o) && Cell(c * Pow2(o), o) == c
    decreases c
  {
    if c == 0 {
      ZeroCell(o);
    } else {
      MultipleAligned(c - 1, o);
      NextCell((c - 1) * Pow2(o), o);
      assert (c - 1) * Pow2(o) + Pow2(o) == c * Pow2(o);
    }
  }

  lemma FenceOff(t: Tile, sec: Span, areas: seq<Span>)
    requires Fenced(t, sec) && Isolated(sec, areas)
    ensures FencedOff(t, areas)
  {
    SectionAligned(sec.base);
    SectionAligned(sec.End());
  }

  /** All sections tiled: the blocks partition the areas' frames. */
  method TileAll(sections: seq<Span>, ghost areas: seq<Span>) returns (tiles: seq<Tile>)
    requires Ascending(sections)
    requires forall i | 0 <= i < |sections| :: Isolated(sections[i], areas)
    ensures forall f: nat :: InTiles(tiles, f) <==> InSome(sections, f)
    ensures TilesDisjoint(tiles)
    ensures forall i | 0 <= i < |tiles| :: FencedOff(tiles[i], areas)
  {
    hide Isolated, Fenced, FencedOff, InSome, InTiles, TilesDisjoint;
    tiles := [];
    NoTiles();
    EmptyHas();
    var k := 0;
    while k < |sections|
      invariant 0 <= k <= |sections|
      invariant forall f: nat :: InTiles(tiles, f) <==> InSome(sections[..k], f)
      invariant TilesDisjoint(tiles)
      invariant forall i | 0 <= i < |tiles| :: FencedOff(tiles[i], areas)
    {
      var more := TileSection(sections[k]);
      forall i | 0 <= i < |more| ensures FencedOff(more[i], areas) {
        FenceOff(more[i], sections[k], areas);
      }
      assert sections[..k + 1] == sections[..k] + [sections[k]];
      AppendHas(sections[..k], sections[k]);
      BelowNext(sections, k);
      ConcatTiles(tiles, more);
      tiles := tiles + more;
      k := k + 1;
    }
    assert sections[..k] == sections;
  }

  lemma NoTiles()
    ensures TilesDisjoint([]) && forall f: nat :: !InTiles([], f)
  {
  }

  lemma BelowNext(sections: seq<Span>, k: nat)
    requires Ascending(sections) && k < |sections|
    ensures forall f: nat | InSome(sections[..k], f) :: !sections[k].Has(f)
  {
  }

  lemma ConcatTiles(a: seq<Tile>, b: seq<Tile>)
    requires TilesDisjoint(a) && TilesDisjoint(b)
    requires forall f: nat | InTiles(a, f) :: !InTiles(b, f)
    ensures TilesDisjoint(a + b)
    ensures forall f: nat :: InTiles(a + b, f) <==> InTiles(a, f) || InTiles(b, f)
  {
    var all := a + b;
    forall f: nat ensures InTiles(all, f) <==> InTiles(a, f) || InTiles(b, f) {
      if i :| 0 <= i < |a| && a[i].Has(f) { assert all[i].Has(f); }
      if i :| 0 <= i < |b| && b[i].Has(f) { assert all[|a| + i].Has(f); }
      if i :| 0 <= i < |all| && all[i].Has(f) {
        if i < |a| { assert a[i].Has(f); } else { assert b[i - |a|].Has(f); }
      }
    }
    forall i, j, f: nat | 0 <= i < j < |all| && all[i].Has(f) ensures !all[j].Has(f) {
      if i < |a| && j >= |a| {
        assert InTiles(a, f);
        assert all[j] == b[j - |a|];
      }
    }
  }
}
