/**
 From the boot memory map to the frame allocator (src/startup/memory.rs, `init`; src/memory/mod.rs,
 `init_sections`).
 */
module Boot {
  import opened Wrappers
  import opened Helpers
  import opened BootMemory
  import Sections
  import FreeLists

  // The areas in address order, as `sort_unstable_by_key` leaves them.

  ghost predicate InOrder(s: seq<Area>) {
    forall i, j | 0 <= i < j < |s| :: s[i].base + s[i].size < s[j].base
  }

  function Inserted(s: seq<Area>, a: Area): seq<Area> {
    if s == [] || a.base < s[0].base then [a] + s else [s[0]] + Inserted(s[1..], a)
  }

  lemma {:induction false} InsertedIs(s: seq<Area>, a: Area)
    requires InOrder(s) && a.size > 0 && forall i | 0 <= i < |s| :: s[i].size > 0 && !Touch(a, s[i])
    ensures InOrder(Inserted(s, a)) && forall x :: x in Inserted(s, a) <==> x in s || x == a
  {
    if s == [] || a.base < s[0].base {
    } else {
      assert s == [s[0]] + s[1..];
      InsertedIs(s[1..], a);
      var r := Inserted(s[1..], a);
      forall j | 0 <= j < |r| ensures s[0].base + s[0].size < r[j].base {
        assert r[j] in r;
        if r[j] != a { var k :| 0 <= k < |s[1..]| && s[1..][k] == r[j]; }
      }
    }
  }

  method SortAreas(areas: array<Area>, n: nat) returns (s: seq<Area>)
    requires n <= areas.Length && AreasOk(areas[..n])
    ensures InOrder(s) && forall x :: x in s <==> x in areas[..n]
  {
    s := [];
    var i := 0;
    while i < n
      invariant 0 <= i <= n && InOrder(s) && forall x :: x in s <==> x in areas[..i]
    {
      forall k | 0 <= k < |s| ensures s[k].size > 0 && !Touch(areas[i], s[k]) {
        assert s[k] in areas[..i];
        var j :| 0 <= j < i && areas[..i][j] == s[k];
        assert areas[..n][j] == s[k] && areas[..n][i] == areas[i];
      }
      assert areas[..n][i].size > 0;
      InsertedIs(s, areas[i]);
      assert areas[..i + 1] == areas[..i] + [areas[i]];
      s := Inserted(s, areas[i]);
      i := i + 1;
    }
  }

  function Frames(a: Area): Sections.Span {
    Sections.Span(a.base / PAGE_SIZE, a.size / PAGE_SIZE)
  }

  function Spans(s: seq<Area>): (r: seq<Sections.Span>)
    ensures |r| == |s| && forall i | 0 <= i < |r| :: r[i] == Frames(s[i])
  {
    seq(|s|, i requires 0 <= i < |s| => Frames(s[i]))
  }

  lemma FramesAre(a: Area, f: nat)
    requires PageAligned(a)
    ensures Frames(a).Has(f) <==> InArea(a, f * PAGE_SIZE)
    ensures Frames(a).base * PAGE_SIZE == a.base && Frames(a).End() * PAGE_SIZE == a.base + a.size
  {
  }

  lemma SpansAre(s: seq<Area>, f: nat)
    requires forall i | 0 <= i < |s| :: PageAligned(s[i])
    ensures Sections.InSome(Spans(s), f) <==> Has(s, f * PAGE_SIZE)
  {
    if Has(s, f * PAGE_SIZE) {
      var i :| 0 <= i < |s| && InArea(s[i], f * PAGE_SIZE);
      FramesAre(s[i], f);
      assert Spans(s)[i].Has(f);
    }
    if Sections.InSome(Spans(s), f) {
      var i :| 0 <= i < |s| && Spans(s)[i].Has(f);
      FramesAre(s[i], f);
    }
  }

  lemma SpansAscend(s: seq<Area>)
    requires InOrder(s) && forall i | 0 <= i < |s| :: PageAligned(s[i])
    ensures Sections.Ascending(Spans(s))
  {
    forall i, j | 0 <= i < j < |s| ensures Spans(s)[i].End() <= Spans(s)[j].base {
      FramesAre(s[i], 0);
      FramesAre(s[j], 0);
    }
  }

  lemma SameHas(s: seq<Area>, t: seq<Area>, x: nat)
    requires forall a :: a in s <==> a in t
    ensures Has(s, x) <==> Has(t, x)
  {
    if Has(s, x) {
      var i :| 0 <= i < |s| && InArea(s[i], x);
      assert s[i] in t;
    }
    if Has(t, x) {
      var i :| 0 <= i < |t| && InArea(t[i], x);
      assert t[i] in s;
    }
  }

  // What the bump allocator has left.

  /** `free_areas`: the memory from frame `start` on. */
  function Rest(spans: seq<Sections.Span>, start: nat): seq<Sections.Span> {
    if spans == [] then []
    else if spans[0].End() <= start then Rest(spans[1..], start)
    else if spans[0].base < start then [Sections.Span(start, spans[0].End() - start)] + spans[1..]
    else spans
  }

  lemma {:induction false} RestHas(spans: seq<Sections.Span>, start: nat, f: nat)
    requires Sections.Ascending(spans)
    ensures Sections.InSome(Rest(spans, start), f) <==> Sections.InSome(spans, f) && f >= start
  {
    if spans != [] {
      var tail := spans[1..];
      assert spans == [spans[0]] + tail;
      ConsHas(spans[0], tail, f);
      if spans[0].End() <= start {
        RestHas(tail, start, f);
      } else if spans[0].base < start {
        ConsHas(Sections.Span(start, spans[0].End() - start), tail, f);
        TailAbove(spans, f);
      } else {
        TailAbove(spans, f);
      }
      hide Rest, Sections.InSome;
    }
  }

  lemma ConsHas(s: Sections.Span, tail: seq<Sections.Span>, f: nat)
    ensures Sections.InSome([s] + tail, f) <==> s.Has(f) || Sections.InSome(tail, f)
  {
    assert ([s] + tail)[0] == s && forall i | 0 <= i < |tail| :: ([s] + tail)[i + 1] == tail[i];
    if i :| 0 <= i < |tail| && tail[i].Has(f) { assert ([s] + tail)[i + 1].Has(f); }
  }

  lemma TailAbove(spans: seq<Sections.Span>, f: nat)
    requires Sections.Ascending(spans) && spans != []
    ensures Sections.InSome(spans[1..], f) ==> f >= spans[0].End()
  {
  }

  lemma {:induction false} RestAscends(spans: seq<Sections.Span>, start: nat)
    requires Sections.Ascending(spans)
    ensures Sections.Ascending(Rest(spans, start))
  {
    if spans != [] && spans[0].End() <= start { RestAscends(spans[1..], start); }
  }

  /**
   Boot as a whole. The bump allocator has handed out the usable frames below `start`, among them the first one;
   the frame allocator manages exactly the usable frames from there on, every one of them in one block, and
   withholds the blocks below `absOff`, which the bump allocator handed out while the sections were set up. So a
   frame at address zero, which cannot be represented, never reaches the allocator.
   */
  method InitMemory(regions: MemoryMap, low: Option<Word>, high: Option<Word>, start: nat, absOff: nat)
    returns (r: FreeLists.FreeList)
    requires regions.Valid() && start > 0
    ensures r.Valid() && r.Out() == map[] && r.usedFrames == 0
    ensures forall f: nat :: f in r.info <==>
              f >= start && Usable(regions.regions, low, high, f * PAGE_SIZE)
    ensures forall h :: h in r.withheld <==> h in r.blocks && h < absOff
  {
    var areas, n := regions.FreeAreas(low, high);
    var sorted := SortAreas(areas, n);
    var spans := Spans(sorted);
    SortedFacts(areas[..n], sorted);
    SpansAscend(sorted);
    RestAscends(spans, start);
    forall f: nat
      ensures Sections.InSome(Rest(spans, start), f) <==>
              f >= start && Usable(regions.regions, low, high, f * PAGE_SIZE)
    {
      SpansAre(sorted, f);
      SameHas(sorted, areas[..n], f * PAGE_SIZE);
      RestHas(spans, start, f);
      PageIs(f * PAGE_SIZE);
      PageSide(Page(f * PAGE_SIZE), f * PAGE_SIZE);
    }
    hide *;
    r := new FreeLists.FreeList(Rest(spans, start), absOff);
  }

  lemma SortedFacts(s: seq<Area>, sorted: seq<Area>)
    requires AreasOk(s) && forall x :: x in sorted <==> x in s
    ensures forall i | 0 <= i < |sorted| :: PageAligned(sorted[i])
  {
    forall i | 0 <= i < |sorted| ensures PageAligned(sorted[i]) {
      assert sorted[i] in s;
    }
  }
}
