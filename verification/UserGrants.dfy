/**
 The grants of one address space and the holes between them (src/context/memory.rs, `UserGrants`),
 with the search for free room and unmapping.
 */
module UserGrants {
  import opened Wrappers
  import opened Helpers
  import opened OrderedMap
  import opened Intervals
  import opened GrantMaps

  /** The holes are exactly the user addresses outside every grant. */
  ghost predicate Exact(g: GrantMap, holes: Spans) {
    forall a: nat :: Has(holes, a) <==> a < USER_END && !Granted(g, a / PAGE_SIZE)
  }

  predicate Aligned(holes: Spans) {
    forall h | h in holes :: Whole(h) && Whole(holes[h])
  }

  ghost predicate Wf(g: GrantMap, holes: Spans) {
    GrantsOk(g) && Maximal(holes) && Aligned(holes) && Exact(g, holes)
  }

  lemma PageOfByte(a: nat, base: nat, count: nat)
    ensures base <= a / PAGE_SIZE < base + count <==> base * PAGE_SIZE <= a < base * PAGE_SIZE + count * PAGE_SIZE
  {
  }

  /** Vacant pages are all in the holes. */
  lemma VacantIsHoles(g: GrantMap, holes: Spans, base: nat, count: nat)
    requires Exact(g, holes) && base + count <= USER_PAGES
    ensures Vacant(g, base, count) <==>
            forall a | base * PAGE_SIZE <= a < base * PAGE_SIZE + count * PAGE_SIZE :: Has(holes, a)
  {
    if Vacant(g, base, count) {
      forall a | base * PAGE_SIZE <= a < base * PAGE_SIZE + count * PAGE_SIZE ensures Has(holes, a) {
        PageOfByte(a, base, count);
      }
    } else {
      var p :| base <= p < base + count && Granted(g, p);
      assert p * PAGE_SIZE / PAGE_SIZE == p;
      assert !Has(holes, p * PAGE_SIZE);
    }
  }

  lemma ReservedAligned(holes: Spans, prev: Option<nat>, start: nat, size: nat)
    requires Aligned(holes) && Whole(start) && Whole(size)
    ensures Aligned(Reserved(holes, prev, start, size))
  {
    hide Whole;
    WholeSum(start, size);
    if start in holes { WholeSum(holes[start], size); }
    if prev.Some? && prev.value in holes {
      WholeSum(prev.value, holes[prev.value]);
      WholeSum(start, prev.value);
      WholeSum(prev.value + holes[prev.value], start + size);
    }
  }

  lemma UnreservedAligned(holes: Spans, prev: Option<nat>, start: nat, size: nat)
    requires Aligned(holes) && Whole(start) && Whole(size)
    ensures Aligned(Unreserved(holes, prev, start, size))
  {
    hide Whole;
    WholeSum(start, size);
    if start + size in holes {
      WholeSum(size, holes[start + size]);
      WholeSum(start + size, holes[start + size]);
    }
    if prev.Some? && prev.value in holes {
      WholeSum(start + size, prev.value);
      if start + size in holes { WholeSum(start + size - prev.value, holes[start + size]); }
    }
  }

  lemma ExactShrinks(g: GrantMap, h: GrantMap, holes: Spans, rest: Spans, base: nat, count: nat)
    requires Exact(g, holes)
    requires forall p: nat :: Granted(h, p) <==> Granted(g, p) || base <= p < base + count
    requires forall a: nat :: Has(rest, a) <==>
        Has(holes, a) && !(base * PAGE_SIZE <= a < base * PAGE_SIZE + count * PAGE_SIZE)
    ensures Exact(h, rest)
  {
    hide Has, Granted;
    forall a: nat { PageOfByte(a, base, count); }
  }

  lemma ExactGrows(g: GrantMap, h: GrantMap, holes: Spans, more: Spans, base: nat, count: nat)
    requires Exact(g, holes) && base + count <= USER_PAGES
    requires forall p: nat :: Granted(h, p) <==> Granted(g, p) && !(base <= p < base + count)
    requires forall a: nat :: Has(more, a) <==>
        Has(holes, a) || base * PAGE_SIZE <= a < base * PAGE_SIZE + count * PAGE_SIZE
    ensures Exact(h, more)
  {
    hide Has, Granted;
    forall a: nat { PageOfByte(a, base, count); }
  }

  lemma HolesShrink(g: GrantMap, holes: Spans, prev: Option<nat>, h: GrantMap, base: nat, count: nat)
    requires Wf(g, holes) && IsPrev(holes, prev, base * PAGE_SIZE)
    requires count > 0 && base + count <= USER_PAGES && Vacant(g, base, count) && GrantsOk(h)
    requires forall p: nat :: Granted(h, p) <==> Granted(g, p) || base <= p < base + count
    ensures Wf(h, Reserved(holes, prev, base * PAGE_SIZE, count * PAGE_SIZE))
  {
    hide Reserved, Has, Maximal, IsPrev, Granted, Aligned, Exact, Vacant;
    VacantIsHoles(g, holes, base, count);
    ReservedIs(holes, prev, base * PAGE_SIZE, count * PAGE_SIZE);
    ReservedAligned(holes, prev, base * PAGE_SIZE, count * PAGE_SIZE);
    ExactShrinks(g, h, holes, Reserved(holes, prev, base * PAGE_SIZE, count * PAGE_SIZE), base, count);
  }

  lemma HolesGrow(g: GrantMap, holes: Spans, prev: Option<nat>, h: GrantMap, base: nat, count: nat)
    requires Wf(g, holes) && IsPrev(holes - {base * PAGE_SIZE + count * PAGE_SIZE}, prev, base * PAGE_SIZE)
    requires count > 0 && base + count <= USER_PAGES && GrantsOk(h)
    requires forall p | base <= p < base + count :: Granted(g, p)
    requires forall p: nat :: Granted(h, p) <==> Granted(g, p) && !(base <= p < base + count)
    ensures Wf(h, Unreserved(holes, prev, base * PAGE_SIZE, count * PAGE_SIZE))
  {
    hide Unreserved, Has, Maximal, IsPrev, Granted, Aligned, Exact;
    GrantedIsNoHole(g, holes, base, count);
    UnreservedIs(holes, prev, base * PAGE_SIZE, count * PAGE_SIZE);
    UnreservedAligned(holes, prev, base * PAGE_SIZE, count * PAGE_SIZE);
    ExactGrows(g, h, holes, Unreserved(holes, prev, base * PAGE_SIZE, count * PAGE_SIZE), base, count);
  }

  lemma GrantedIsNoHole(g: GrantMap, holes: Spans, base: nat, count: nat)
    requires Exact(g, holes) && forall p | base <= p < base + count :: Granted(g, p)
    ensures forall a | base * PAGE_SIZE <= a < base * PAGE_SIZE + count * PAGE_SIZE :: !Has(holes, a)
  {
    hide Has, Granted;
    forall a: nat { PageOfByte(a, base, count); }
  }

  /** Grants that do not reach `[lo, hi]` are the same in both maps. */
  ghost predicate Elsewhere(g: GrantMap, h: GrantMap, lo: nat, hi: nat) {
    && (forall c | c in g && (c + g[c].count < lo || c > hi) :: c in h && h[c] == g[c])
    && (forall c | c in h && (c + h[c].count < lo || c > hi) :: c in g && h[c] == g[c])
  }

  lemma MergedElsewhere(g: GrantMap, before: Option<nat>, after: Option<nat>, base: nat, info: GrantInfo)
    requires GrantsOk(g) && Before(g, before, base, info) && After(g, after, base, info)
    ensures Elsewhere(g, Merged(g, before, after, base, info), base, base + info.count)
  {
  }

  lemma MergedAlone(g: GrantMap, before: Option<nat>, after: Option<nat>, base: nat, info: GrantInfo)
    requires Before(g, before, base, info) && After(g, after, base, info)
    ensures var h := Merged(g, before, after, base, info);
            info.provider != Allocated(None, false) ==> base in h && h[base] == info
  {
  }

  /** Every pinned grant of `g` is in `h` as it was. */
  ghost predicate PinsKept(g: GrantMap, h: GrantMap) {
    forall c | c in g && g[c].IsPinned() :: c in h && h[c] == g[c]
  }

  lemma MergedPins(g: GrantMap, before: Option<nat>, after: Option<nat>, base: nat, info: GrantInfo)
    requires Before(g, before, base, info) && After(g, after, base, info)
    requires GrantsOk(g) && info.count > 0 && Vacant(g, base, info.count)
    ensures PinsKept(g, Merged(g, before, after, base, info))
  {
    if base in g { assert Covers(g, base, base) && Granted(g, base); }
  }

  lemma AllKept(g: GrantMap)
    ensures PinsKept(g, g)
  {
  }

  lemma PinsKeptOn(g: GrantMap, h: GrantMap, k: GrantMap)
    requires PinsKept(g, h) && PinsKept(h, k)
    ensures PinsKept(g, k)
  {
  }

  predicate Meets(g: GrantMap, b: nat, lo: nat, hi: nat)
    requires b in g
  {
    var from := if b < lo then lo else b;
    var to := if b + g[b].count < hi then b + g[b].count else hi;
    from < to
  }

  /** From the grant on the first page, or the page itself, the conflicts are the grants below the end. */
  lemma MeetsFrom(g: GrantMap, start: Option<nat>, base: nat, count: nat)
    requires GrantsOk(g) && (start.None? <==> !Granted(g, base)) && (start.Some? ==> Covers(g, start.value, base))
    ensures var first := if start.Some? then start.value else base;
            forall b | b in g :: Meets(g, b, base, base + count) <==> first <= b < base + count && count > 0
  {
    var first := if start.Some? then start.value else base;
    forall b | b in g ensures Meets(g, b, base, base + count) <==> first <= b < base + count && count > 0 {
      if start.None? { assert !Covers(g, b, base); }
    }
  }

  // Searching for room.

  /** `count` free user pages from page `p` on. */
  ghost predicate FreeRun(g: GrantMap, p: nat, count: nat) {
    p + count <= USER_PAGES && Vacant(g, p, count)
  }

  /** A hole has room for `size` bytes at or above `min`. */
  predicate Fits(holes: Spans, h: nat, min: nat, size: nat)
    requires h in holes
  {
    (if h < min then min else h) + size <= h + holes[h]
  }

  /** The test the search applies to the holes that do not end at or below `min`. */
  predicate Roomy(holes: Spans, h: nat, min: nat, size: nat)
    requires h in holes
  {
    var avail := if h <= min <= h + holes[h] then holes[h] - (min - h) else holes[h];
    size <= avail
  }

  /** A request for nothing is met by any hole with a byte to spare. */
  function Need(count: nat): nat { if count == 0 then 1 else count * PAGE_SIZE }

  lemma RoomyFits(holes: Spans, h: nat, min: nat, count: nat)
    requires Maximal(holes) && h in holes
    ensures h + holes[h] > min && Roomy(holes, h, min, count * PAGE_SIZE) <==> Fits(holes, h, min, Need(count))
  {
  }

  /** Every free run at or above `min` lies in a hole that fits. */
  lemma RunFits(g: GrantMap, holes: Spans, min: nat, count: nat, p: nat) returns (h: nat)
    requires Wf(g, holes) && count > 0 && FreeRun(g, p, count) && p * PAGE_SIZE >= min
    ensures h in holes && Fits(holes, h, min, count * PAGE_SIZE)
    ensures h <= p * PAGE_SIZE && p * PAGE_SIZE + count * PAGE_SIZE <= h + holes[h]
  {
    VacantIsHoles(g, holes, p, count);
    h := RunInOne(holes, p * PAGE_SIZE, p * PAGE_SIZE + count * PAGE_SIZE);
    hide Exact, Maximal, Aligned;
  }

  /** Whole pages inside a hole are a free run. */
  lemma HoleIsFree(g: GrantMap, holes: Spans, h: nat, p: nat, count: nat)
    requires Wf(g, holes) && h in holes && count > 0
    requires h <= p * PAGE_SIZE && p * PAGE_SIZE + count * PAGE_SIZE <= h + holes[h]
    ensures FreeRun(g, p, count)
  {
    forall a | p * PAGE_SIZE <= a < p * PAGE_SIZE + count * PAGE_SIZE ensures Has(holes, a) {
      assert In(holes, h, a);
    }
    var last := p * PAGE_SIZE + count * PAGE_SIZE - 1;
    assert Has(holes, last);
    VacantIsHoles(g, holes, p, count);
  }

  /** Where in a fitting hole the search places the run: the page holding the first usable byte. */
  function Place(h: nat, min: nat): nat {
    (if h < min then min else h) / PAGE_SIZE
  }

  lemma PlaceIs(holes: Spans, h: nat, min: nat, count: nat)
    requires Aligned(holes) && h in holes && Fits(holes, h, min, count * PAGE_SIZE)
    ensures var p := Place(h, min);
            && h <= p * PAGE_SIZE && p * PAGE_SIZE + count * PAGE_SIZE <= h + holes[h]
            && (p * PAGE_SIZE < min <==> h < min && min % PAGE_SIZE != 0)
            && (p * PAGE_SIZE < min ==> p == min / PAGE_SIZE && (p + 1) * PAGE_SIZE + count * PAGE_SIZE <= h + holes[h])
            && forall q: nat | q * PAGE_SIZE >= min && q * PAGE_SIZE >= h :: p <= q
  {
    assert Whole(h) && Whole(holes[h]);
  }

  /** The first fitting hole gives the lowest run. */
  lemma FoundIs(g: GrantMap, holes: Spans, h: nat, min: nat, count: nat, p: nat)
    requires Wf(g, holes) && count > 0 && h in holes && Fits(holes, h, min, count * PAGE_SIZE)
    requires forall k | k in holes && k < h :: !Fits(holes, k, min, count * PAGE_SIZE)
    ensures FreeRun(g, Place(h, min), count)
    ensures p * PAGE_SIZE >= min && FreeRun(g, p, count) ==> Place(h, min) <= p
    ensures exists q: nat :: q * PAGE_SIZE >= min && FreeRun(g, q, count)
    ensures Place(h, min) * PAGE_SIZE < min <==> min % PAGE_SIZE != 0 && FreeRun(g, min / PAGE_SIZE, count + 1)
  {
    var q := Place(h, min);
    PlaceIs(holes, h, min, count);
    HoleIsFree(g, holes, h, q, count);
    if p * PAGE_SIZE >= min && FreeRun(g, p, count) {
      var k := RunFits(g, holes, min, count, p);
    }
    if q * PAGE_SIZE < min {
      HoleIsFree(g, holes, h, q, count + 1);
      HoleIsFree(g, holes, h, q + 1, count);
    } else if min % PAGE_SIZE != 0 && FreeRun(g, min / PAGE_SIZE, count + 1) {
      LowPage(g, holes, h, min, count);
    }
    hide Wf, FreeRun, Place;
  }

  lemma NoneFits(g: GrantMap, holes: Spans, min: nat, count: nat)
    requires Wf(g, holes) && forall h | h in holes :: !Fits(holes, h, min, Need(count))
    ensures count == 0 ==> forall a: nat | a >= min :: !Has(holes, a)
    ensures count > 0 ==> forall p: nat | p * PAGE_SIZE >= min :: !FreeRun(g, p, count)
  {
    if count > 0 {
      forall p: nat | p * PAGE_SIZE >= min ensures !FreeRun(g, p, count) {
        if FreeRun(g, p, count) { var h := RunFits(g, holes, min, count, p); }
      }
    } else {
      forall a: nat | a >= min ensures !Has(holes, a) {
        forall h ensures !In(holes, h, a) { assert h in holes ==> !Fits(holes, h, min, 1); }
      }
    }
  }

  lemma FitsIs(g: GrantMap, holes: Spans, h: nat, min: nat, count: nat)
    requires Wf(g, holes) && h in holes && Fits(holes, h, min, Need(count))
    requires forall k | k in holes && k < h :: !Fits(holes, k, min, Need(count))
    ensures FreeRun(g, Place(h, min), count)
    ensures count == 0 ==> FreeRun(g, Place(h, min), 1) && exists a: nat :: a >= min && Has(holes, a)
    ensures count > 0 ==> exists q: nat :: q * PAGE_SIZE >= min && FreeRun(g, q, count)
    ensures count > 0 ==> forall p: nat | p * PAGE_SIZE >= min && FreeRun(g, p, count) :: Place(h, min) <= p
    ensures count > 0 ==> (Place(h, min) * PAGE_SIZE < min <==>
                           min % PAGE_SIZE != 0 && FreeRun(g, min / PAGE_SIZE, count + 1))
  {
    if count > 0 {
      forall p: nat { FoundIs(g, holes, h, min, count, p); }
      FoundIs(g, holes, h, min, count, 0);
      hide *;
    } else {
      SpareByte(g, holes, h, min);
      hide Wf;
    }
  }

  /** The page of the first usable byte of a hole is free. */
  lemma SpareByte(g: GrantMap, holes: Spans, h: nat, min: nat)
    requires Wf(g, holes) && h in holes && Fits(holes, h, min, 1)
    ensures FreeRun(g, Place(h, min), 1) && exists a: nat :: a >= min && Has(holes, a)
  {
    var a := if h < min then min else h;
    assert In(holes, h, a);
    assert Has(holes, a);
    var p := Place(h, min);
    hide Aligned, Maximal, GrantsOk, Has;
    assert a < USER_END && !Granted(g, a / PAGE_SIZE);
    assert p == a / PAGE_SIZE && p < USER_PAGES;
  }

  lemma LowPage(g: GrantMap, holes: Spans, h: nat, min: nat, count: nat)
    requires Wf(g, holes) && count > 0 && h in holes && min % PAGE_SIZE != 0
    requires forall k | k in holes && k < h :: !Fits(holes, k, min, count * PAGE_SIZE)
    requires FreeRun(g, min / PAGE_SIZE, count + 1)
    ensures h < min
  {
    var m := min / PAGE_SIZE;
    var k := RunFits(g, holes, m * PAGE_SIZE, count + 1, m);
    hide Wf, FreeRun;
    assert Fits(holes, k, min, count * PAGE_SIZE);
  }

  // Unmapping.

  datatype Outcome = Unmapped | Busy | Invalid | Panicked

  /** `h` shows nothing at the pages `[lo, hi)` and the rest like `g`. */
  ghost predicate CutOut(g: GrantMap, h: GrantMap, lo: nat, hi: nat) {
    forall p: nat :: Look(h, p) == if lo <= p < hi then None else Look(g, p)
  }

  /** The two maps have the same grants from page `x` on. */
  ghost predicate SameFrom(g: GrantMap, h: GrantMap, x: nat) {
    forall c | c >= x :: (c in g <==> c in h) && (c in g ==> g[c] == h[c])
  }

  /** A grant in the span that the kernel does not unmap: pinned, or still pinned after unpinning. */
  predicate Obstacle(g: GrantMap, b: nat, lo: nat, hi: nat, unpin: bool) {
    b in g && Meets(g, b, lo, hi) && (if unpin then g[b].Unpin() else g[b]).IsPinned()
  }

  ghost predicate Obstructed(g: GrantMap, lo: nat, hi: nat, unpin: bool) {
    exists b :: Obstacle(g, b, lo, hi, unpin)
  }

  /** The grants meeting `[lo, hi)` are the same in both maps. */
  ghost predicate SameMeeting(g: GrantMap, h: GrantMap, lo: nat, hi: nat) {
    && (forall c | c in g && Meets(g, c, lo, hi) :: c in h && h[c] == g[c])
    && (forall c | c in h && Meets(h, c, lo, hi) :: c in g && h[c] == g[c])
  }

  /** How far an unmapping of `[base, end)` has come when everything below `cut` is done. */
  ghost predicate Progress(g: GrantMap, h: GrantMap, base: nat, end: nat, cut: nat, unpin: bool) {
    && base <= cut <= end && CutOut(g, h, base, cut) && SameMeeting(g, h, cut, end)
    && (forall c | c in g && Meets(g, c, base, end) && !Meets(g, c, cut, end) :: !Obstacle(g, c, base, end, unpin))
    && (cut > base ==> forall c | c in g && Meets(g, c, cut, end) :: c >= cut)
  }

  lemma NothingCut(g: GrantMap, base: nat, end: nat, unpin: bool)
    requires base <= end
    ensures Progress(g, g, base, end, base, unpin)
  {
    hide Look;
  }

  /** Nothing lies between the part that is done and the first grant met. */
  lemma GapIsVacant(h: GrantMap, cut: nat, end: nat, b: nat, p: nat)
    requires GrantsOk(h) && (forall c | c in h && Meets(h, c, cut, end) :: c >= b) && cut <= p < end && p < b
    ensures Look(h, p) == None
  {
    if Granted(h, p) {
      var c: nat :| Covers(h, c, p);
      assert Meets(h, c, cut, end);
    }
  }

  /** One round of the loop. */
  lemma ProgressStep(g: GrantMap, h: GrantMap, k: GrantMap, base: nat, end: nat, cut: nat, unpin: bool,
                     b: nat, lo: nat, hi: nat)
    requires GrantsOk(g) && GrantsOk(h) && GrantsOk(k) && Progress(g, h, base, end, cut, unpin)
    requires b in h && Meets(h, b, cut, end) && forall c | c in h && Meets(h, c, cut, end) :: c >= b
    requires !Obstacle(g, b, base, end, unpin)
    requires lo == (if b < cut then cut else b) && hi == if b + h[b].count < end then b + h[b].count else end
    requires CutOut(h, k, lo, hi) && (hi == b + h[b].count ==> SameFrom(h, k, hi))
    ensures cut < hi && Progress(g, k, base, end, hi, unpin)
  {
    hide CutOut, Look, GrantsOk, SameFrom, SameMeeting;
    assert cut <= lo < hi <= end;
    CutFurther(g, h, k, base, end, cut, b, lo, hi);
    CutGone(h, k, lo, hi);
    MeetingAfter(h, k, b, hi, end);
    SameMeetingTrans(g, h, k, cut, hi, end);
    ObstaclesPassed(g, h, base, end, cut, unpin, b, hi);
    assert forall c | c in g && Meets(g, c, hi, end) :: c >= hi;
    hide Obstacle, Meets;
  }

  lemma CutGone(h: GrantMap, k: GrantMap, lo: nat, hi: nat)
    requires CutOut(h, k, lo, hi) && lo < hi
    ensures !Granted(k, hi - 1)
  {
    GrantedIsSeen(k, hi - 1);
    hide Look;
  }

  lemma CutFurther(g: GrantMap, h: GrantMap, k: GrantMap, base: nat, end: nat, cut: nat, b: nat, lo: nat, hi: nat)
    requires GrantsOk(h) && CutOut(g, h, base, cut) && CutOut(h, k, lo, hi) && base <= cut <= lo <= hi <= end
    requires lo == (if b < cut then cut else b) && forall c | c in h && Meets(h, c, cut, end) :: c >= b
    ensures CutOut(g, k, base, hi)
  {
    forall p: nat ensures Look(k, p) == if base <= p < hi then None else Look(g, p) {
      if cut <= p < lo { GapIsVacant(h, cut, end, b, p); }
    }
    hide Look, GrantsOk;
  }

  lemma SameMeetingTrans(g: GrantMap, h: GrantMap, k: GrantMap, cut: nat, hi: nat, end: nat)
    requires SameMeeting(g, h, cut, end) && SameMeeting(h, k, hi, end) && cut <= hi
    ensures SameMeeting(g, k, hi, end)
    ensures forall c | c in g && Meets(g, c, hi, end) :: c in h && h[c] == g[c]
  {
    assert forall c | c in g && Meets(g, c, hi, end) :: Meets(g, c, cut, end);
    assert forall c | c in h && Meets(h, c, hi, end) :: Meets(h, c, cut, end);
  }

  lemma ObstaclesPassed(g: GrantMap, h: GrantMap, base: nat, end: nat, cut: nat, unpin: bool, b: nat, hi: nat)
    requires GrantsOk(h) && SameMeeting(g, h, cut, end) && base <= cut < hi <= end && b in h
    requires forall c | c in h && Meets(h, c, cut, end) :: c >= b
    requires hi == if b + h[b].count < end then b + h[b].count else end
    requires !Obstacle(g, b, base, end, unpin)
    requires forall c | c in g && Meets(g, c, base, end) && !Meets(g, c, cut, end) :: !Obstacle(g, c, base, end, unpin)
    ensures forall c | c in g && Meets(g, c, base, end) && !Meets(g, c, hi, end) :: !Obstacle(g, c, base, end, unpin)
  {
    forall c | c in g && Meets(g, c, base, end) && !Meets(g, c, hi, end) ensures !Obstacle(g, c, base, end, unpin) {
      if Meets(g, c, cut, end) { assert c in h && h[c] == g[c] && Meets(h, c, cut, end); }
    }
    hide Obstacle;
  }

  /** Above the grant that was cut, nothing has changed. */
  lemma MeetingAfter(h: GrantMap, k: GrantMap, b: nat, hi: nat, end: nat)
    requires GrantsOk(h) && GrantsOk(k) && b in h && b < hi
    requires hi == (if b + h[b].count < end then b + h[b].count else end)
    requires hi == b + h[b].count ==> SameFrom(h, k, hi)
    requires !Granted(k, hi - 1)
    ensures SameMeeting(h, k, hi, end)
    ensures forall c | c in h && Meets(h, c, hi, end) :: c >= hi
  {
    forall c | c in k && Meets(k, c, hi, end) ensures c >= hi { assert !Covers(k, c, hi - 1); }
  }

  /** `gone` holds what `g` had at the pages `[base, cut)`. */
  ghost predicate Holds(g: GrantMap, gone: GrantMap, base: nat, cut: nat) {
    GrantsOk(gone) && forall p: nat :: Look(gone, p) == if base <= p < cut then Look(g, p) else None
  }

  lemma NothingGone(g: GrantMap, base: nat)
    ensures Holds(g, map[], base, base)
  {
  }

  /** A part cut out of grant `b` joins the parts that are gone. */
  lemma PartGone(g: GrantMap, h: GrantMap, gone: GrantMap, base: nat, end: nat, cut: nat,
                 b: nat, info: GrantInfo, lo: nat, hi: nat)
    requires GrantsOk(h) && Holds(g, gone, base, cut) && CutOut(g, h, base, cut) && base <= cut <= lo < hi <= end
    requires b in h && b <= lo && hi <= b + h[b].count && info.count == h[b].count
    requires lo == (if b < cut then cut else b) && forall c | c in h && Meets(h, c, cut, end) :: c >= b
    requires forall i: nat :: PageOf(info, i) == PageOf(h[b], i)
    ensures Holds(g, gone[lo := MiddlePart(info, lo - b, hi - lo)], base, hi)
  {
    var mid := MiddlePart(info, lo - b, hi - lo);
    assert Merged(gone, None, None, lo, mid) == gone[lo := mid];
    assert Vacant(gone, lo, mid.count) by {
      forall p | lo <= p < hi ensures !Granted(gone, p) { GrantedIsSeen(gone, p); }
    }
    assert hi <= USER_PAGES;
    hide Granted, Vacant, Merged, Look, GrantsOk, CutOut;
    MergedIs(gone, None, None, lo, mid, 0);
    var next := gone[lo := mid];
    assert GrantsOk(next);
    forall p: nat ensures Look(next, p) == if base <= p < hi then Look(g, p) else None {
      MergedIs(gone, None, None, lo, mid, p);
      if cut <= p < hi { PartPage(g, h, base, end, cut, b, info, lo, hi, p); }
    }
  }

  lemma PartPage(g: GrantMap, h: GrantMap, base: nat, end: nat, cut: nat, b: nat, info: GrantInfo,
                 lo: nat, hi: nat, p: nat)
    requires GrantsOk(h) && CutOut(g, h, base, cut) && base <= cut <= lo < hi <= end && cut <= p < hi
    requires b in h && b <= lo && hi <= b + h[b].count && info.count == h[b].count
    requires lo == (if b < cut then cut else b) && forall c | c in h && Meets(h, c, cut, end) :: c >= b
    requires forall i: nat :: PageOf(info, i) == PageOf(h[b], i)
    ensures Look(g, p) == if p < lo then None else Some(PageOf(MiddlePart(info, lo - b, hi - lo), p - lo))
  {
    if p < lo {
      GapIsVacant(h, cut, end, b, p);
    } else {
      LookIs(h, b, p);
      SplitPages(info, lo - b, hi - lo, p - lo);
    }
    hide Look, GrantsOk, PageOf;
  }

  lemma ProgressIs(g: GrantMap, h: GrantMap, base: nat, end: nat, cut: nat, unpin: bool)
    requires Progress(g, h, base, end, cut, unpin)
    ensures CutOut(g, h, base, cut) && base <= cut <= end
  {
  }

  /** The parts gone so far are all there was up to the next grant, or the end. */
  lemma HoldsTo(g: GrantMap, h: GrantMap, gone: GrantMap, base: nat, end: nat, cut: nat, unpin: bool, stop: nat)
    requires GrantsOk(h) && Progress(g, h, base, end, cut, unpin) && Holds(g, gone, base, cut) && stop <= end
    requires cut < end ==> forall c | c in h && Meets(h, c, cut, end) :: c >= stop
    requires stop < end ==> stop in h && Meets(h, stop, cut, end)
    ensures Holds(g, gone, base, stop)
  {
    HoldsMore(g, h, gone, base, end, cut, stop);
    hide CutOut, Look;
  }

  lemma HoldsMore(g: GrantMap, h: GrantMap, gone: GrantMap, base: nat, end: nat, cut: nat, stop: nat)
    requires GrantsOk(h) && Holds(g, gone, base, cut) && CutOut(g, h, base, cut) && base <= cut
    requires stop <= end && forall c | c in h && Meets(h, c, cut, end) :: c >= stop
    ensures cut <= stop ==> Holds(g, gone, base, stop)
  {
    if cut <= stop {
      forall p: nat | cut <= p < stop ensures Look(g, p) == None { GapIsVacant(h, cut, end, stop, p); }
      hide Look, GrantsOk;
    }
  }

  /** What is left of a removed grant is vacant. */
  lemma CutVacant(g: GrantMap, h: GrantMap, b: nat, lo: nat, hi: nat)
    requires GrantsOk(g) && b in g && b <= lo && hi <= b + g[b].count && lo < hi
    requires forall p: nat | lo <= p < hi :: Look(h, p) == None
    ensures Vacant(h, lo, hi - lo) && hi <= USER_PAGES
  {
    forall p | lo <= p < hi ensures !Granted(h, p) { GrantedIsSeen(h, p); }
    hide Granted;
  }

  class UserGrants {
    var inner: GrantMap
    var holes: Spans

    ghost predicate Valid()
      reads this
    {
      Wf(inner, holes) && Fused(inner)
    }

    constructor ()
      ensures Valid() && inner == map[]
    {
      inner, holes := map[], map[0 := USER_END];
      new;
      forall a: nat ensures Has(holes, a) <==> a < USER_END {
        if a < USER_END { assert In(holes, 0, a); }
      }
    }

    /** The grant that occupies a page, if any. */
    method Contains(page: nat) returns (r: Option<nat>)
      requires Valid()
      ensures r.None? <==> !Granted(inner, page)
      ensures r.Some? ==> Covers(inner, r.value, page)
    {
      var last := LastBelow(inner, page + 1);
      r := if last.Some? && page < last.value + inner[last.value].count then last else None;
      hide Exact, Maximal, Aligned;
      if Granted(inner, page) {
        var b: nat :| Covers(inner, b, page);
        assert last.Some? && b <= last.value;
      }
      if r.Some? { CoveredIsGranted(inner, r.value, page); }
    }

    /** The grants that meet a span, in address order. */
    method Conflicts(base: nat, count: nat) returns (r: seq<nat>)
      requires Valid()
      ensures Increasing(r)
      ensures forall b :: b in r <==> b in inner && Meets(inner, b, base, base + count)
    {
      hide Exact, Maximal, Aligned;
      var start := Contains(base);
      var first := if start.Some? then start.value else base;
      MeetsFrom(inner, start, base, count);
      var cursor := first;
      r := [];
      var k := FirstFrom(inner, cursor);
      while k.Some? && Meets(inner, k.value, base, base + count)
        invariant k.None? ==> forall b | b in inner :: b < cursor
        invariant k.Some? ==>
                    k.value in inner && k.value >= cursor && forall b | b in inner && b >= cursor :: k.value <= b
        invariant Increasing(r) && first <= cursor && forall b | b in r :: b < cursor
        invariant forall b :: b in r <==> b in inner && first <= b < cursor
        invariant forall b | b in inner && first <= b < cursor :: Meets(inner, b, base, base + count)
        decreases USER_PAGES - cursor
      {
        IncreasingMore(r, k.value);
        r := r + [k.value];
        cursor := k.value + 1;
        k := FirstFrom(inner, cursor);
      }
    }

    /**
     `find_free_near`: the lowest free run at or above `min`, if there is one. When `min` is not on a
     page boundary the run may start below it: then exactly when the page holding `min` is free itself.
     */
    method FindFreeNear(min: nat, count: nat) returns (r: Option<nat>)
      requires Valid()
      ensures count == 0 ==> (r.None? <==> forall a: nat | a >= min :: !Has(holes, a))
      ensures count == 0 && r.Some? ==> FreeRun(inner, r.value, 1)
      ensures count > 0 ==> (r.None? <==> forall p: nat | p * PAGE_SIZE >= min :: !FreeRun(inner, p, count))
      ensures r.Some? ==> FreeRun(inner, r.value, count)
      ensures count > 0 && r.Some? ==> forall p: nat | p * PAGE_SIZE >= min && FreeRun(inner, p, count) :: r.value <= p
      ensures count > 0 && r.Some? ==> (r.value * PAGE_SIZE < min <==>
                           min % PAGE_SIZE != 0 && FreeRun(inner, min / PAGE_SIZE, count + 1))
    {
      assert Wf(inner, holes) && Maximal(holes);
      hide *;
      var k := FirstFit(min, count);
      if k.None? {
        NoneFits(inner, holes, min, count);
        r := None;
      } else {
        FitsIs(inner, holes, k.value, min, count);
        r := Some(Place(k.value, min));
      }
    }

    /** The holes in address order, up to the first with room enough at or above `min`. */
    method FirstFit(min: nat, count: nat) returns (k: Option<nat>)
      requires Maximal(holes)
      ensures k.None? ==> forall h | h in holes :: !Fits(holes, h, min, Need(count))
      ensures k.Some? ==> k.value in holes && Fits(holes, k.value, min, Need(count))
      ensures k.Some? ==> forall h | h in holes && h < k.value :: !Fits(holes, h, min, Need(count))
    {
      hide *;
      k := FirstFrom(holes, 0);
      ghost var cursor: nat := 0;
      ghost var todo := holes.Keys;
      while k.Some?
        invariant k.None? ==> forall h | h in holes :: h < cursor
        invariant k.Some? ==>
                    k.value in holes && k.value >= cursor && forall h | h in holes && h >= cursor :: k.value <= h
        invariant forall h | h in holes && h < cursor :: !Fits(holes, h, min, Need(count))
        invariant todo == set h | h in holes && h >= cursor
        decreases |todo|
      {
        RoomyFits(holes, k.value, min, count);
        if k.value + holes[k.value] > min && Roomy(holes, k.value, min, count * PAGE_SIZE) { return; }
        todo := todo - {k.value};
        cursor := k.value + 1;
        k := FirstFrom(holes, k.value + 1);
      }
    }

    method HoleBelow(a: nat) returns (prev: Option<nat>)
      ensures IsPrev(holes, prev, a)
    {
      prev := LastBelow(holes, a);
    }

    /** The grants on both sides to join a new one with. */
    method Neighbours(base: nat, info: GrantInfo) returns (before: Option<nat>, after: Option<nat>)
      requires GrantsOk(inner)
      ensures Before(inner, before, base, info) && After(inner, after, base, info)
      ensures Thorough(inner, before, after, base, info)
    {
      var last := LastBelow(inner, base);
      var first := FirstFrom(inner, base + info.count);
      NoneOverlooked(inner, last, first, base, info);
      hide Thorough, GrantsOk;
      before := if last.Some? && last.value + inner[last.value].count == base && inner[last.value].CanMerge(info)
      then last else None;
      after := if first.Some? && first.value == base + info.count && inner[first.value].CanMerge(info)
      then first else None;
    }

    /** `reserve` and the joining half of `insert`. */
    method Insert(base: nat, info: GrantInfo)
      requires Valid() && info.count > 0 && base + info.count <= USER_PAGES && Vacant(inner, base, info.count)
      modifies this
      ensures Valid()
      ensures forall p: nat :: Look(inner, p) ==
                if base <= p < base + info.count then Some(PageOf(info, p - base)) else old(Look(inner, p))
      ensures Elsewhere(old(inner), inner, base, base + info.count) && PinsKept(old(inner), inner)
      ensures info.provider != Allocated(None, false) ==> base in inner && inner[base] == info
    {
      hide *;
      ValidIs(this);
      var before, after := Neighbours(base, info);
      var prev := HoleBelow(base * PAGE_SIZE);
      MergedFused(inner, before, after, base, info);
      InsertKeeps(inner, holes, prev, before, after, base, info);
      MergedElsewhere(inner, before, after, base, info);
      MergedPins(inner, before, after, base, info);
      MergedAlone(inner, before, after, base, info);
      inner, holes := Merged(inner, before, after, base, info),
                      Reserved(holes, prev, base * PAGE_SIZE, info.count * PAGE_SIZE);
      IsValid(this);
    }

    method Remove(base: nat) returns (r: Option<GrantInfo>)
      requires Valid()
      modifies this
      ensures Valid()
      ensures r.None? <==> base !in old(inner)
      ensures r.None? ==> inner == old(inner)
      ensures r.Some? ==> r.value == old(inner)[base] && inner == old(inner) - {base}
      ensures forall p: nat :: Look(inner, p) == if Covers(old(inner), base, p) then None else old(Look(inner, p))
    {
      if base !in inner { return None; }
      var info := inner[base];
      var prev := LastBelow(holes - {base * PAGE_SIZE + info.count * PAGE_SIZE}, base * PAGE_SIZE);
      assert IsPrev(holes - {base * PAGE_SIZE + info.count * PAGE_SIZE}, prev, base * PAGE_SIZE);
      r := Some(info);
      assert Fused(inner - {base});
      hide *;
      RemoveKeeps(inner, holes, prev, base);
      inner, holes := inner - {base}, Unreserved(holes, prev, base * PAGE_SIZE, info.count * PAGE_SIZE);
    }

    /** The grant at `b` loses the pages `[lo, hi)`; what is left of it goes back in. */
    method CutGrant(b: nat, info: GrantInfo, lo: nat, hi: nat)
      requires Valid() && b in inner && inner[b].count == info.count && b <= lo < hi <= b + info.count
      requires forall i: nat :: PageOf(info, i) == PageOf(inner[b], i)
      modifies this
      ensures Valid() && CutOut(old(inner), inner, lo, hi)
      ensures hi == b + info.count ==> SameFrom(old(inner), inner, hi)
      ensures !old(inner)[b].IsPinned() ==> PinsKept(old(inner), inner)
    {
      ghost var g := inner;
      var removed := Remove(b);
      assert !g[b].IsPinned() ==> PinsKept(g, inner);
      hide *;
      ghost var g1 := inner;
      if b < lo {
        CutVacant(g, g1, b, b, lo);
        Insert(b, FrontPart(info, lo - b));
        if !g[b].IsPinned() { PinsKeptOn(g, g1, inner); }
      }
      ghost var g2 := inner;
      if hi < b + info.count {
        CutVacant(g, g2, b, hi, b + info.count);
        Insert(hi, BackPart(info, lo - b, hi - lo));
        if !g[b].IsPinned() { PinsKeptOn(g, g2, inner); }
      }
      CutIs(g, g1, g2, inner, b, info, lo, hi);
    }

    /**
     `munmap_inner`: on success exactly the requested pages are gone; a pinned grant stops it, leaving
     that grant and everything above as it was; the parts removed, `gone`, together hold exactly what was
     there; and a request to override pins fails an assertion
     exactly when it meets a pinned file mapping. The error EINVAL of the code never happens. Unless pins are
     overridden, every pinned grant survives.
     */
    method Munmap(base: nat, count: nat, unpin: bool) returns (r: Outcome, gone: GrantMap, ghost stop: nat)
      requires Valid()
      modifies this
      ensures r != Panicked ==> Valid() && CutOut(old(inner), inner, base, if r == Busy then stop else base + count)
      ensures r != Panicked ==> Holds(old(inner), gone, base, if r == Busy then stop else base + count)
      ensures r == Busy ==> stop in inner && stop in old(inner) && inner[stop] == old(inner)[stop]
                            && Meets(inner, stop, base, base + count) && inner[stop].IsPinned()
      ensures r != Invalid
      ensures r == Busy <==> !unpin && Obstructed(old(inner), base, base + count, false)
      ensures r == Panicked <==> unpin && Obstructed(old(inner), base, base + count, true)
      ensures !unpin ==> PinsKept(old(inner), inner)
    {
      AllKept(inner);
      hide *;
      var from: nat, left: nat, cut: nat := base, count, base;
      ghost var g, end := inner, base + count;
      gone := map[];
      NothingCut(g, base, end, unpin);
      NothingGone(g, base);
      ValidIs(this);
      while true
        invariant Valid() && GrantsOk(g) && GrantsOk(inner) && Progress(g, inner, base, end, cut, unpin)
        invariant base <= cut <= end && left == end - cut && (left > 0 ==> from == cut)
        invariant Holds(g, gone, base, cut) && (!unpin ==> PinsKept(g, inner))
        decreases end - cut
      {
        var conflicts := Conflicts(from, left);
        if conflicts == [] {
          NoneMet(inner, conflicts, from, left);
          Finished(g, inner, base, end, cut, unpin);
          HoldsTo(g, inner, gone, base, end, cut, unpin, end);
          return Unmapped, gone, base + count;
        }
        var b := conflicts[0];
        FirstMet(inner, conflicts, from, left);
        Judged(g, inner, base, end, cut, unpin, b);
        HoldsTo(g, inner, gone, base, end, cut, unpin, b);
        var info := inner[b];
        stop := b;
        if info.IsPinned() && !unpin {
          r := Busy;
          return;
        }
        if !info.CanExtract(unpin) {
          r := Invalid;
          return;
        }
        info := if unpin then info.Unpin() else info;
        if !info.CanExtract(false) {
          r := Panicked;
          return;
        }
        var lo := if b < from then from else b;
        var hi := if b + info.count < from + left then b + info.count else from + left;
        if b + info.count < from + left {
          from, left := b + info.count, from + left - (b + info.count);
        } else {
          from, left := 0, 0;
        }
        ghost var h := inner;
        ProgressIs(g, h, base, end, cut, unpin);
        PartGone(g, h, gone, base, end, cut, b, info, lo, hi);
        gone := gone[lo := MiddlePart(info, lo - b, hi - lo)];
        CutGrant(b, info, lo, hi);
        ValidIs(this);
        if !unpin { PinsKeptOn(g, h, inner); }
        ProgressStep(g, h, inner, base, end, cut, unpin, b, lo, hi);
        cut := hi;
      }
    }
  }

  /** The nearest grants on both sides are the only ones that can be joined with. */
  lemma NoneOverlooked(g: GrantMap, last: Option<nat>, first: Option<nat>, base: nat, info: GrantInfo)
    requires GrantsOk(g) && (last.None? ==> forall b | b in g :: b >= base)
    requires last.Some? ==> last.value in g && last.value < base && forall b | b in g && b < base :: b <= last.value
    requires first.None? ==> forall b | b in g :: b < base + info.count
    requires first.Some? ==> first.value in g && first.value >= base + info.count
    requires first.Some? ==> forall b | b in g && b >= base + info.count :: first.value <= b
    ensures Thorough(g, if last.Some? && last.value + g[last.value].count == base && g[last.value].CanMerge(info)
                        then last else None,
                     if first.Some? && first.value == base + info.count && g[first.value].CanMerge(info)
                     then first else None, base, info)
  {
  }

  lemma GrantedIsSeen(g: GrantMap, p: nat)
    ensures Granted(g, p) <==> Look(g, p).Some?
  {
  }

  lemma InsertKeeps(g: GrantMap, holes: Spans, prev: Option<nat>, before: Option<nat>, after: Option<nat>,
                    base: nat, info: GrantInfo)
    requires Wf(g, holes) && info.count > 0 && base + info.count <= USER_PAGES && Vacant(g, base, info.count)
    requires IsPrev(holes, prev, base * PAGE_SIZE)
    requires Before(g, before, base, info) && After(g, after, base, info)
    ensures var h := Merged(g, before, after, base, info);
            && Wf(h, Reserved(holes, prev, base * PAGE_SIZE, info.count * PAGE_SIZE))
            && forall p: nat :: Look(h, p) ==
                 if base <= p < base + info.count then Some(PageOf(info, p - base)) else Look(g, p)
  {
    hide Exact, Maximal, Aligned, IsPrev, Reserved, Before, After, Merged, Look, GrantsOk, Vacant, Granted, PageOf;
    var h := Merged(g, before, after, base, info);
    forall p: nat
      ensures Look(h, p) == if base <= p < base + info.count then Some(PageOf(info, p - base)) else Look(g, p)
      ensures Granted(h, p) <==> Granted(g, p) || base <= p < base + info.count
    {
      MergedIs(g, before, after, base, info, p);
      GrantedIsSeen(g, p);
      GrantedIsSeen(h, p);
    }
    MergedIs(g, before, after, base, info, 0);
    HolesShrink(g, holes, prev, h, base, info.count);
  }

  lemma RemoveKeeps(g: GrantMap, holes: Spans, prev: Option<nat>, base: nat)
    requires Wf(g, holes) && base in g
    requires IsPrev(holes - {base * PAGE_SIZE + g[base].count * PAGE_SIZE}, prev, base * PAGE_SIZE)
    ensures Wf(g - {base}, Unreserved(holes, prev, base * PAGE_SIZE, g[base].count * PAGE_SIZE))
    ensures forall p: nat :: Look(g - {base}, p) == if Covers(g, base, p) then None else Look(g, p)
  {
    assert g[base].count > 0 && base + g[base].count <= USER_PAGES;
    hide Exact, Maximal, Aligned, IsPrev, Unreserved, Look, GrantsOk, Granted, PageOf;
    forall p: nat
      ensures Look(g - {base}, p) == if Covers(g, base, p) then None else Look(g, p)
      ensures Granted(g - {base}, p) <==> Granted(g, p) && !(base <= p < base + g[base].count)
    {
      RemovedIs(g, base, p);
      GrantedIsSeen(g, p);
      GrantedIsSeen(g - {base}, p);
    }
    RemovedIs(g, base, 0);
    forall p | base <= p < base + g[base].count ensures Granted(g, p) { CoveredIsGranted(g, base, p); }
    HolesGrow(g, holes, prev, g - {base}, base, g[base].count);
  }

  lemma CoveredIsGranted(g: GrantMap, b: nat, p: nat)
    requires Covers(g, b, p)
    ensures Granted(g, p)
  {
  }

  /** Removing grant `b` and putting its two ends back cuts out the middle. */
  lemma CutIs(g: GrantMap, g1: GrantMap, g2: GrantMap, h: GrantMap, b: nat, info: GrantInfo, lo: nat, hi: nat)
    requires GrantsOk(g) && b in g && g[b].count == info.count && b <= lo < hi <= b + info.count
    requires forall i: nat :: PageOf(info, i) == PageOf(g[b], i)
    requires forall p: nat :: Look(g1, p) == if Covers(g, b, p) then None else Look(g, p)
    requires if b < lo
             then forall p: nat :: Look(g2, p) ==
                    if b <= p < lo then Some(PageOf(FrontPart(info, lo - b), p - b)) else Look(g1, p)
             else g2 == g1
    requires if hi < b + info.count
             then forall p: nat :: Look(h, p) ==
                    if hi <= p < b + info.count then Some(PageOf(BackPart(info, lo - b, hi - lo), p - hi))
                    else Look(g2, p)
             else h == g2
    ensures CutOut(g, h, lo, hi)
  {
    forall p: nat ensures Look(h, p) == if lo <= p < hi then None else Look(g, p) {
      if Covers(g, b, p) {
        LookIs(g, b, p);
        SplitPages(info, lo - b, hi - lo, p - b);
        if p >= hi { SplitPages(info, lo - b, hi - lo, p - hi); }
      }
    }
    hide Look, GrantsOk;
  }

  lemma ValidIs(u: UserGrants)
    requires u.Valid()
    ensures Wf(u.inner, u.holes) && GrantsOk(u.inner) && Fused(u.inner)
  {
  }

  lemma IsValid(u: UserGrants)
    requires Wf(u.inner, u.holes) && Fused(u.inner)
    ensures u.Valid()
  {
  }

  lemma NoneMet(h: GrantMap, conflicts: seq<nat>, from: nat, left: nat)
    requires conflicts == [] && forall b :: b in conflicts <==> b in h && Meets(h, b, from, from + left)
    ensures forall c | c in h :: !Meets(h, c, from, from + left)
  {
    forall c | c in h ensures !Meets(h, c, from, from + left) { assert c !in conflicts; }
  }

  lemma FirstMet(h: GrantMap, conflicts: seq<nat>, from: nat, left: nat)
    requires conflicts != [] && Increasing(conflicts)
    requires forall b :: b in conflicts <==> b in h && Meets(h, b, from, from + left)
    ensures conflicts[0] in h && Meets(h, conflicts[0], from, from + left) && left > 0
    ensures forall c | c in h && Meets(h, c, from, from + left) :: c >= conflicts[0]
  {
    assert conflicts[0] in conflicts;
    forall c | c in h && Meets(h, c, from, from + left) ensures c >= conflicts[0] { assert c in conflicts; }
  }

  lemma Finished(g: GrantMap, h: GrantMap, base: nat, end: nat, cut: nat, unpin: bool)
    requires GrantsOk(h) && Progress(g, h, base, end, cut, unpin)
    requires cut < end ==> forall c | c in h :: !Meets(h, c, cut, end)
    ensures CutOut(g, h, base, end) && !Obstructed(g, base, end, unpin)
  {
    forall p: nat | cut <= p < end ensures Look(h, p) == None { GapIsVacant(h, cut, end, end, p); }
    hide Look, GrantsOk;
    assert CutOut(g, h, base, end);
    hide CutOut;
  }

  /** What the pin checks decide about the first grant met. */
  lemma Judged(g: GrantMap, h: GrantMap, base: nat, end: nat, cut: nat, unpin: bool, b: nat)
    requires GrantsOk(h) && Progress(g, h, base, end, cut, unpin) && b in h && Meets(h, b, cut, end)
    requires forall c | c in h && Meets(h, c, cut, end) :: c >= b
    ensures b in g && g[b] == h[b] && Meets(h, b, base, end) && h[b].count == h[b].Unpin().count
    ensures CutOut(g, h, base, b)
    ensures h[b].IsPinned() && !unpin ==> Obstructed(g, base, end, unpin)
    ensures !(h[b].IsPinned() && !unpin) ==> h[b].CanExtract(unpin)
    ensures unpin && !h[b].Unpin().CanExtract(false) ==> Obstructed(g, base, end, unpin)
    ensures !(h[b].IsPinned() && !unpin) && (if unpin then h[b].Unpin() else h[b]).CanExtract(false) ==>
        !Obstacle(g, b, base, end, unpin)
    ensures !unpin && !h[b].IsPinned() ==> h[b].CanExtract(false)
    ensures forall i: nat :: PageOf(h[b].Unpin(), i) == PageOf(h[b], i)
  {
    forall p: nat | cut <= p < b ensures Look(h, p) == None { GapIsVacant(h, cut, end, b, p); }
    assert CutOut(g, h, base, b) by { hide Look, GrantsOk; }
    hide CutOut;
    assert Obstacle(g, b, base, end, unpin) ==> Obstructed(g, base, end, unpin);
  }

  /** With a `min` inside a page, the search may start a run below it: an empty space and `min` of one. */
  lemma UnalignedMinGoesBelow()
    ensures Wf(map[], map[0 := USER_END]) && Fits(map[0 := USER_END], 0, 1, PAGE_SIZE)
    ensures Place(0, 1) * PAGE_SIZE < 1 && FreeRun(map[], 1, 1)
  {
    var holes: Spans := map[0 := USER_END];
    forall a: nat ensures Has(holes, a) <==> a < USER_END {
      if a < USER_END { assert In(holes, 0, a); }
    }
  }

  /**
   Runs that map one page of a file and unmap it: with a pin it is refused, and panics when pins are overridden;
   without one it succeeds either way.
   */
  method FileUnmapped(page: nat, pins: nat, unpin: bool) returns (r: Outcome)
    requires page < USER_PAGES
    ensures r == if pins == 0 then Unmapped else if unpin then Panicked else Busy
  {
    hide *;
    var grants := new UserGrants();
    NoGrants(grants.inner, page);
    grants.Insert(page, GrantInfo(1, 0, FmapBorrowed(FileRef(0, 0), pins)));
    ValidIs(grants);
    FilePins(grants.inner, page, pins, unpin);
    var gone;
    ghost var stop;
    r, gone, stop := grants.Munmap(page, 1, unpin);
  }

  lemma NoGrants(g: GrantMap, page: nat)
    requires g == map[]
    ensures Vacant(g, page, 1)
  {
  }

  lemma FilePins(g: GrantMap, page: nat, pins: nat, unpin: bool)
    requires GrantsOk(g) && page in g && g[page] == GrantInfo(1, 0, FmapBorrowed(FileRef(0, 0), pins))
    ensures Obstructed(g, page, page + 1, unpin) <==> pins > 0
  {
    if Obstructed(g, page, page + 1, unpin) {
      var b :| Obstacle(g, b, page, page + 1, unpin);
      assert b == page;
    }
    if pins > 0 { assert Obstacle(g, page, page, page + 1, unpin); }
  }
}
