/**
 Lending a caller's buffer to a scheme (src/scheme/user.rs, `capture_inner` and `release_inner`): the whole pages
 of the buffer are borrowed into the scheme's address space, its ragged ends are copied to pages of their own,
 and everything is unmapped when the scheme has answered.
 */
module Captures {
  import opened Wrappers
  import opened Helpers
  import opened GrantMaps
  import opened UserGrants

  // Cutting the buffer into parts.

  /** `page_range_containing`: the pages a buffer touches. */
  function Pages(addr: nat, len: nat): nat { (len + addr % PAGE_SIZE + PAGE_SIZE - 1) / PAGE_SIZE }

  function HeadSize(addr: nat, len: nat): (r: nat)
    ensures r <= len
  {
    var offset := addr % PAGE_SIZE;
    if offset == 0 then 0 else if PAGE_SIZE - offset < len then PAGE_SIZE - offset else len
  }

  function HeadPages(addr: nat, len: nat): nat { if HeadSize(addr, len) == 0 then 0 else 1 }
  function MiddlePages(addr: nat, len: nat): nat {
    (len - HeadSize(addr, len)) / PAGE_SIZE
  }
  function TailPages(addr: nat, len: nat): nat {
    if (len - HeadSize(addr, len)) % PAGE_SIZE == 0 then 0 else 1
  }

  /** The three parts fill the pages the buffer touches, and so does the buffer at its new address. */
  lemma PartsFill(addr: nat, len: nat, base: nat)
    requires len > 0
    ensures HeadPages(addr, len) + MiddlePages(addr, len) + TailPages(addr, len) == Pages(addr, len) > 0
    ensures var moved := base * PAGE_SIZE + addr % PAGE_SIZE;
            moved / PAGE_SIZE == base && Pages(moved, len) == Pages(addr, len)
  {
  }

  /** Page `i` of the lent buffer: a page of the kernel's at a ragged end, the caller's own in between. */
  function LentPage(addr: nat, len: nat, src: nat, flags: nat, i: nat): PageView {
    var head := HeadPages(addr, len);
    PageView(flags, if head <= i < head + MiddlePages(addr, len) then Foreign(src) else SharedMemory)
  }

  /** The caller's own pages are lent exactly where they lie wholly inside the buffer. */
  lemma LentPageIs(addr: nat, len: nat, src: nat, flags: nat, i: nat)
    requires i < Pages(addr, len)
    ensures var page := (addr / PAGE_SIZE + i) * PAGE_SIZE;
            LentPage(addr, len, src, flags, i) ==
            PageView(flags, if addr <= page && page + PAGE_SIZE <= addr + len then Foreign(src) else SharedMemory)
  {
  }

  // The lent span.

  /** A pinned grant of the two kinds that are lent covers the page. */
  predicate LendsPage(g: GrantMap, b: nat, p: nat) {
    Covers(g, b, p) && g[b].IsPinned() && (g[b].provider.External? || g[b].provider.AllocatedShared?)
  }

  ghost predicate Lent(g: GrantMap, p: nat) { exists b: nat :: LendsPage(g, b, p) }

  ghost predicate Lends(g: GrantMap, lo: nat, hi: nat) {
    forall p | lo <= p < hi :: Lent(g, p)
  }

  /** A lent span can be unmapped by overriding pins. */
  lemma LentUnmaps(g: GrantMap, lo: nat, hi: nat)
    requires GrantsOk(g) && Lends(g, lo, hi)
    ensures !Obstructed(g, lo, hi, true)
  {
    forall b: nat ensures !Obstacle(g, b, lo, hi, true) {
      if b in g && Meets(g, b, lo, hi) {
        var p := if b < lo then lo else b;
        assert Lent(g, p);
        var c: nat :| LendsPage(g, c, p);
        assert Covers(g, b, p) && b == c;
      }
    }
  }

  /** It stays lent while pinned grants stay. */
  lemma LentStays(g: GrantMap, h: GrantMap, lo: nat, hi: nat)
    requires Lends(g, lo, hi) && PinsKept(g, h)
    ensures Lends(h, lo, hi)
  {
    forall p | lo <= p < hi ensures Lent(h, p) {
      assert Lent(g, p);
      var b: nat :| LendsPage(g, b, p);
      assert LendsPage(h, b, p);
    }
  }

  /** Pages `[base, base + done)` of `h` are lent and the rest is like `g`. */
  ghost predicate Filled(g: GrantMap, h: GrantMap, base: nat, done: nat, addr: nat, len: nat, src: nat, flags: nat) {
    && Lends(h, base, base + done)
    && forall p: nat ::
         Look(h, p) == if base <= p < base + done then Some(LentPage(addr, len, src, flags, p - base)) else Look(g, p)
  }

  lemma NothingFilled(g: GrantMap, base: nat, addr: nat, len: nat, src: nat, flags: nat)
    ensures Filled(g, g, base, 0, addr, len, src, flags)
  {
  }

  /** Room is left for the next part. */
  lemma RestVacant(g: GrantMap, h: GrantMap, base: nat, done: nat, n: nat, addr: nat, len: nat, src: nat, flags: nat)
    requires Filled(g, h, base, done, addr, len, src, flags)
    requires FreeRun(g, base, Pages(addr, len)) && done + n <= Pages(addr, len)
    ensures Vacant(h, base + done, n) && base + done + n <= USER_PAGES
  {
    forall p | base + done <= p < base + done + n ensures !Granted(h, p) {
      GrantedIsSeen(g, p);
      GrantedIsSeen(h, p);
      assert Look(h, p) == Look(g, p);
    }
  }

  /** The next part goes in. */
  lemma FilledMore(g: GrantMap, h: GrantMap, k: GrantMap, base: nat, done: nat, info: GrantInfo,
                   addr: nat, len: nat, src: nat, flags: nat)
    requires Filled(g, h, base, done, addr, len, src, flags) && PinsKept(h, k)
    requires info.IsPinned() && (info.provider.External? || info.provider.AllocatedShared?)
    requires base + done in k && k[base + done] == info
    requires forall p: nat :: Look(k, p) ==
               if base + done <= p < base + done + info.count then Some(PageOf(info, p - base - done)) else Look(h, p)
    requires forall i: nat | i < info.count :: PageOf(info, i) == LentPage(addr, len, src, flags, done + i)
    ensures Filled(g, k, base, done + info.count, addr, len, src, flags)
  {
    hide Look, PageOf, LentPage;
    LentStays(h, k, base, base + done);
    forall p | base <= p < base + done + info.count ensures Lent(k, p) {
      if p >= base + done { assert LendsPage(k, base + done, p); }
    }
  }

  /** Every page of the middle part borrows the page of `src` that the buffer has there. */
  ghost predicate Borrows(g: GrantMap, base: nat, addr: nat, len: nat, src: nat) {
    forall i | HeadPages(addr, len) <= i < HeadPages(addr, len) + MiddlePages(addr, len) ::
      BorrowsPage(g, base, i, src, addr / PAGE_SIZE)
  }

  /** Page `i` of the span at `base` is page `i` of the span at `from` in `src`. */
  ghost predicate BorrowsPage(g: GrantMap, base: nat, i: nat, src: nat, from: nat) {
    exists b :: BorrowedBy(g, b, base, i, src, from)
  }

  predicate BorrowedBy(g: GrantMap, b: nat, base: nat, i: nat, src: nat, from: nat) {
    && Covers(g, b, base + i) && g[b].IsPinned() && g[b].provider.External?
    && g[b].provider.space == src && g[b].provider.srcBase + (base + i - b) == from + i
  }

  lemma MiddleBorrows(g: GrantMap, base: nat, addr: nat, len: nat, src: nat, info: GrantInfo)
    requires base + HeadPages(addr, len) in g && g[base + HeadPages(addr, len)] == info
    requires info.count == MiddlePages(addr, len)
    requires info.provider == External(src, addr / PAGE_SIZE + HeadPages(addr, len), true)
    ensures Borrows(g, base, addr, len, src)
  {
    hide HeadPages, MiddlePages;
    var head := HeadPages(addr, len);
    forall i | head <= i < head + info.count ensures BorrowsPage(g, base, i, src, addr / PAGE_SIZE) {
      assert BorrowedBy(g, base + head, base, i, src, addr / PAGE_SIZE);
    }
  }

  lemma BorrowStays(g: GrantMap, h: GrantMap, base: nat, addr: nat, len: nat, src: nat)
    requires Borrows(g, base, addr, len, src) && PinsKept(g, h)
    ensures Borrows(h, base, addr, len, src)
  {
    hide HeadPages, MiddlePages;
    var head, middle := HeadPages(addr, len), MiddlePages(addr, len);
    forall i | head <= i < head + middle ensures BorrowsPage(h, base, i, src, addr / PAGE_SIZE) {
      assert BorrowsPage(g, base, i, src, addr / PAGE_SIZE);
      var b :| BorrowedBy(g, b, base, i, src, addr / PAGE_SIZE);
      assert BorrowedBy(h, b, base, i, src, addr / PAGE_SIZE);
    }
  }

  lemma NothingBorrowed(g: GrantMap, base: nat, addr: nat, len: nat, src: nat)
    requires MiddlePages(addr, len) == 0
    ensures Borrows(g, base, addr, len, src)
  {
  }

  datatype Part = Head | Middle | Tail

  /** `Mapped` tells how many pages are mapped; they are all of them unless a part failed. */
  datatype Capture = NoRoom | Mapped(base: nat, done: nat, ok: bool)

  /** The pages mapped before the first failing part. */
  function Done(addr: nat, len: nat, fails: set<Part>): nat {
    var head, middle, tail := HeadPages(addr, len), MiddlePages(addr, len), TailPages(addr, len);
    if head > 0 && Head in fails then 0
    else if middle > 0 && Middle in fails then head
    else if tail > 0 && Tail in fails then head + middle
    else head + middle + tail
  }

  /** `capture_inner`, of a buffer that is not empty, into another space; `fails` are the parts that cannot be made. */
  method CaptureInner(u: UserGrants, min: nat, addr: nat, len: nat, src: nat, flags: nat, fails: set<Part>)
    returns (r: Capture)
    requires u.Valid() && len > 0
    modifies u
    ensures u.Valid()
    ensures r.NoRoom? <==> forall p: nat | p * PAGE_SIZE >= min :: !FreeRun(old(u.inner), p, Pages(addr, len))
    ensures r.NoRoom? ==> u.inner == old(u.inner)
    ensures r.Mapped? ==>
              && FreeRun(old(u.inner), r.base, Pages(addr, len))
              && Filled(old(u.inner), u.inner, r.base, r.done, addr, len, src, flags)
              && r.done == Done(addr, len, fails) && (r.ok <==> r.done == Pages(addr, len))
              && (r.ok ==> Borrows(u.inner, r.base, addr, len, src))
    ensures PinsKept(old(u.inner), u.inner)
  {
    PartsFill(addr, len, 0);
    AllKept(u.inner);
    hide PinsKept, Filled, FreeRun, UserGrants.Valid, Borrows, LentPage, PageOf;
    hide Pages, HeadPages, MiddlePages, TailPages;
    var found := u.FindFreeNear(min, Pages(addr, len));
    if found.None? { return NoRoom; }
    var base := found.value;
    NothingFilled(u.inner, base, addr, len, src, flags);
    var head, middle, tail := HeadPages(addr, len), MiddlePages(addr, len), TailPages(addr, len);
    OneEach(addr, len);
    var done := 0;
    ghost var g := u.inner;
    var copied := GrantInfo(1, flags, AllocatedShared(true));
    if head > 0 {
      if Head in fails { return Mapped(base, 0, false); }
      EndShows(addr, len, src, copied, 0);
      MapPart(u, base, 0, copied, addr, len, src, flags, g);
      done := 1;
    }
    if middle > 0 {
      if Middle in fails { return Mapped(base, done, false); }
      var info := GrantInfo(middle, flags, External(src, addr / PAGE_SIZE + done, true));
      MiddleShows(addr, len, info);
      MapPart(u, base, done, info, addr, len, src, flags, g);
      MiddleBorrows(u.inner, base, addr, len, src, info);
      done := done + middle;
    } else {
      NothingBorrowed(u.inner, base, addr, len, src);
    }
    if tail > 0 {
      if Tail in fails { return Mapped(base, done, false); }
      ghost var h := u.inner;
      EndShows(addr, len, src, copied, head + middle);
      MapPart(u, base, done, copied, addr, len, src, flags, g);
      BorrowStays(h, u.inner, base, addr, len, src);
      done := done + 1;
    }
    r := Mapped(base, done, true);
  }

  lemma OneEach(addr: nat, len: nat)
    ensures HeadPages(addr, len) <= 1 && TailPages(addr, len) <= 1
  {
  }

  /** A copied end, and the borrowed middle, show the pages of the lent buffer. */
  lemma EndShows(addr: nat, len: nat, src: nat, info: GrantInfo, done: nat)
    requires info.count == 1 && info.provider.AllocatedShared?
    requires done < HeadPages(addr, len) || done == HeadPages(addr, len) + MiddlePages(addr, len)
    ensures forall i: nat | i < info.count :: PageOf(info, i) == LentPage(addr, len, src, info.flags, done + i)
  {
  }

  lemma MiddleShows(addr: nat, len: nat, info: GrantInfo)
    requires info.count == MiddlePages(addr, len) && info.provider.External?
    ensures forall i: nat | i < info.count ::
              PageOf(info, i) == LentPage(addr, len, info.provider.space, info.flags, HeadPages(addr, len) + i)
  {
  }

  /** One `mmap` with `MAP_FIXED_NOREPLACE`, at the next pages of the span found free. */
  method MapPart(u: UserGrants, base: nat, done: nat, info: GrantInfo, addr: nat, len: nat, src: nat, flags: nat,
                 ghost g: GrantMap)
    requires u.Valid() && FreeRun(g, base, Pages(addr, len))
    requires Filled(g, u.inner, base, done, addr, len, src, flags) && PinsKept(g, u.inner)
    requires 0 < info.count <= Pages(addr, len) - done && info.IsPinned()
    requires info.provider.External? || info.provider.AllocatedShared?
    requires forall i: nat | i < info.count :: PageOf(info, i) == LentPage(addr, len, src, flags, done + i)
    modifies u
    ensures u.Valid() && Filled(g, u.inner, base, done + info.count, addr, len, src, flags) && PinsKept(g, u.inner)
    ensures base + done in u.inner && u.inner[base + done] == info && PinsKept(old(u.inner), u.inner)
  {
    hide *;
    ghost var h := u.inner;
    RestVacant(g, h, base, done, info.count, addr, len, src, flags);
    u.Insert(base + done, info);
    FilledMore(g, h, u.inner, base, done, info, addr, len, src, flags);
    PinsKeptOn(g, h, u.inner);
  }

  // What the scheme may do to its space meanwhile.

  datatype Request = Unmap(base: nat, count: nat) | Mmap(base: nat, info: GrantInfo)

  /** Page `p` once the grant `info` was added at `base`. */
  ghost function Shown(g: GrantMap, base: nat, info: GrantInfo, p: nat): Option<PageView> {
    if base <= p < base + info.count then Some(PageOf(info, p - base)) else Look(g, p)
  }

  /** `munmap`, and `mmap` at a fixed address that replaces nothing. */
  method Serve(u: UserGrants, q: Request) returns (done: bool)
    requires u.Valid() && (q.Mmap? ==> q.info.count > 0 && q.base + q.info.count <= USER_PAGES)
    modifies u
    ensures u.Valid() && PinsKept(old(u.inner), u.inner)
    ensures match q
            case Unmap(base, count) =>
              && (done <==> !Obstructed(old(u.inner), base, base + count, false))
              && (done ==> CutOut(old(u.inner), u.inner, base, base + count))
            case Mmap(base, info) =>
              && (done <==> Vacant(old(u.inner), base, info.count))
              && (!done ==> u.inner == old(u.inner))
              && (done ==> forall p: nat :: Look(u.inner, p) == Shown(old(u.inner), base, info, p))
  {
    hide *;
    match q
    case Unmap(base, count) =>
      var r, gone;
      ghost var stop;
      r, gone, stop := u.Munmap(base, count, false);
      return r == Unmapped;
    case Mmap(base, info) =>
      AllKept(u.inner);
      var conflicts := u.Conflicts(base, info.count);
      if conflicts != [] {
        SomeMet(u.inner, conflicts, base, info.count);
        return false;
      }
      NoneMet(u.inner, conflicts, base, info.count);
      NotMetVacant(u.inner, base, info.count);
      ghost var g := u.inner;
      u.Insert(base, info);
      forall p: nat ensures Look(u.inner, p) == Shown(g, base, info, p) { ShownIs(g, base, info, p); }
      return true;
  }

  lemma ShownIs(g: GrantMap, base: nat, info: GrantInfo, p: nat)
    ensures Shown(g, base, info, p) ==
            if base <= p < base + info.count then Some(PageOf(info, p - base)) else Look(g, p)
  {
  }

  lemma SomeMet(g: GrantMap, conflicts: seq<nat>, base: nat, count: nat)
    requires conflicts != [] && forall b :: b in conflicts <==> b in g && Meets(g, b, base, base + count)
    ensures !Vacant(g, base, count)
  {
    var b := conflicts[0];
    assert b in conflicts;
    var p := if b < base then base else b;
    assert Covers(g, b, p);
    assert Granted(g, p);
  }

  lemma NotMetVacant(g: GrantMap, base: nat, count: nat)
    requires forall c | c in g :: !Meets(g, c, base, base + count)
    ensures Vacant(g, base, count)
  {
  }

  /**
   A request's life: the buffer is lent, the scheme maps and unmaps what it likes, the reply unmaps the span with
   pins overridden. The span is whole until then, and its unmapping succeeds and removes just the span.
   */
  method LendAndRelease(u: UserGrants, min: nat, addr: nat, len: nat, src: nat, flags: nat, requests: seq<Request>)
    returns (r: Capture, outcome: Outcome, ghost before: GrantMap)
    requires u.Valid() && len > 0
    requires forall q | q in requests && q.Mmap? :: q.info.count > 0 && q.base + q.info.count <= USER_PAGES
    modifies u
    ensures u.Valid() && (r.NoRoom? || r.ok)
    ensures r.NoRoom? <==> forall p: nat | p * PAGE_SIZE >= min :: !FreeRun(old(u.inner), p, Pages(addr, len))
    ensures r.Mapped? ==> FreeRun(old(u.inner), r.base, Pages(addr, len)) && Borrows(before, r.base, addr, len, src)
    ensures r.Mapped? ==> outcome == Unmapped && Lends(before, r.base, r.base + Pages(addr, len))
    ensures r.Mapped? ==> CutOut(before, u.inner, r.base, r.base + Pages(addr, len))
    ensures r.Mapped? && requests == [] ==> forall p: nat :: Look(u.inner, p) == old(Look(u.inner, p))
  {
    hide *;
    outcome, before := Unmapped, u.inner;
    ghost var g := u.inner;
    r := CaptureInner(u, min, addr, len, src, flags, {});
    if r.NoRoom? { return; }
    ghost var lo, hi := r.base, r.base + Pages(addr, len);
    FilledIs(g, u.inner, lo, r.done, addr, len, src, flags);
    WholeDone(addr, len);
    before := u.inner;
    for i := 0 to |requests|
      invariant u.Valid() && u.inner == before && Lends(before, lo, hi) && Borrows(before, lo, addr, len, src)
      invariant i == 0 ==> Filled(g, before, lo, hi - lo, addr, len, src, flags)
    {
      var done := Serve(u, requests[i]);
      LentStays(before, u.inner, lo, hi);
      BorrowStays(before, u.inner, lo, addr, len, src);
      before := u.inner;
    }
    ValidIs(u);
    LentUnmaps(before, lo, hi);
    var gone;
    ghost var stop;
    outcome, gone, stop := u.Munmap(r.base, Pages(addr, len), true);
    if requests == [] { BackAgain(g, before, u.inner, lo, addr, len, src, flags); }
  }

  lemma FilledIs(g: GrantMap, h: GrantMap, base: nat, done: nat, addr: nat, len: nat, src: nat, flags: nat)
    requires Filled(g, h, base, done, addr, len, src, flags)
    ensures Lends(h, base, base + done)
  {
  }

  lemma WholeDone(addr: nat, len: nat)
    requires len > 0
    ensures Done(addr, len, {}) == Pages(addr, len)
  {
    PartsFill(addr, len, 0);
  }

  /** Lending a free span and unmapping it leaves every page as it was. */
  lemma BackAgain(g: GrantMap, h: GrantMap, k: GrantMap, base: nat, addr: nat, len: nat, src: nat, flags: nat)
    requires FreeRun(g, base, Pages(addr, len)) && Filled(g, h, base, Pages(addr, len), addr, len, src, flags)
    requires CutOut(h, k, base, base + Pages(addr, len))
    ensures forall p: nat :: Look(k, p) == Look(g, p)
  {
    forall p: nat ensures Look(k, p) == Look(g, p) {
      GrantedIsSeen(g, p);
      hide Look, LentPage;
    }
  }

  /**
   A capture that fails after a part was mapped leaves that part in the scheme's space, pinned: the space looks as
   before exactly when the first part to be made is the one that failed.
   */
  lemma FailureLeaves(g: GrantMap, h: GrantMap, base: nat, addr: nat, len: nat, src: nat, flags: nat, fails: set<Part>)
    requires len > 0 && FreeRun(g, base, Pages(addr, len))
    requires Filled(g, h, base, Done(addr, len, fails), addr, len, src, flags)
    ensures (forall p: nat :: Look(h, p) == Look(g, p)) <==> First(addr, len) in fails
  {
    PartsFill(addr, len, 0);
    GrantedIsSeen(g, base);
    hide LentPage, Look, Granted;
    if Done(addr, len, fails) > 0 { assert Look(h, base) != Look(g, base); }
  }

  /** The part a capture makes first. */
  function First(addr: nat, len: nat): Part {
    if HeadPages(addr, len) > 0 then Head else if MiddlePages(addr, len) > 0 then Middle else Tail
  }
}
