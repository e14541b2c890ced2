/**
 The frame allocator's blocks, independently of how the free lists are stored.

 `blocks` maps every block head to its order, free and used blocks alike; `free[o]` lists the
 heads of the free blocks of order `o`.  The lemmas say that taking, splitting, merging and
 returning a block keep the blocks an exact tiling of the managed frames, and that a tiling
 without two free buddies never hides a large free run behind small blocks.
 */
module BuddySpec {
  import opened Dyadic

  const ORDER_COUNT: nat := 11
  const MAX_ORDER: nat := 10

  type Blocks = map<nat, nat>
  type Lists = seq<seq<nat>>

  ghost predicate BlocksAligned(blocks: Blocks) {
    forall h | h in blocks :: blocks[h] <= MAX_ORDER && Aligned(h, blocks[h])
  }

  /** No two blocks share a frame. */
  ghost predicate Separate(blocks: Blocks) {
    forall g, h | g in blocks && h in blocks && g != h && blocks[g] <= blocks[h] ::
      Cell(g, blocks[h]) != Cell(h, blocks[h])
  }

  ghost predicate Holds(blocks: Blocks, h: nat, f: nat) {
    h in blocks && Cell(f, blocks[h]) == Cell(h, blocks[h])
  }

  ghost predicate Tiles(blocks: Blocks, managed: set<nat>) {
    && (forall f | f in managed :: exists h :: Holds(blocks, h, f))
    && (forall h, f | Holds(blocks, h, f) :: f in managed)
  }

  ghost predicate Geometry(blocks: Blocks, managed: set<nat>) {
    BlocksAligned(blocks) && Separate(blocks) && Tiles(blocks, managed)
  }

  ghost predicate ListsOk(free: Lists, blocks: Blocks) {
    && |free| == ORDER_COUNT
    && (forall o, i | 0 <= o < ORDER_COUNT && 0 <= i < |free[o]| ::
          free[o][i] in blocks && blocks[free[o][i]] == o)
    && (forall o, i, j | 0 <= o < ORDER_COUNT && 0 <= i < j < |free[o]| :: free[o][i] != free[o][j])
  }

  /** Every block is either used, with its own order, or on the free list of its order. */
  ghost predicate Partition(free: Lists, blocks: Blocks, used: Blocks) {
    && |free| == ORDER_COUNT
    && (forall h | h in used :: h in blocks && used[h] == blocks[h])
    && (forall h | h in blocks :: blocks[h] < ORDER_COUNT && (h in used <==> h !in free[blocks[h]]))
  }

  ghost predicate NoFreeBuddies(free: Lists) {
    && |free| == ORDER_COUNT
    && (forall o, g, h | 0 <= o < MAX_ORDER && g in free[o] && h in free[o] && g != h ::
          Cell(g, o + 1) != Cell(h, o + 1))
  }

  ghost predicate Inv(free: Lists, blocks: Blocks, used: Blocks, managed: set<nat>) {
    && Geometry(blocks, managed)
    && ListsOk(free, blocks)
    && Partition(free, blocks, used)
    && NoFreeBuddies(free)
  }

  /** Frame `f` is covered by a block on a free list. */
  ghost predicate FreeFrame(free: Lists, f: nat) {
    exists o, h :: FreeBlockHolds(free, o, h, f)
  }

  ghost predicate FreeBlockHolds(free: Lists, o: nat, h: nat, f: nat) {
    o < |free| && h in free[o] && Cell(f, o) == Cell(h, o)
  }

  /** The naturally aligned run of `2^k` frames starting at `h` is wholly free. */
  ghost predicate FreeRun(free: Lists, h: nat, k: nat) {
    Aligned(h, k) && forall f | h <= f < h + Pow2(k) :: FreeFrame(free, f)
  }

  function Times(n: nat, o: nat): nat {
    if n == 0 then 0 else Times(n - 1, o) + Pow2(o)
  }

  function FreeTotalBelow(free: Lists, n: nat): nat
    requires n <= |free|
  {
    if n == 0 then 0 else FreeTotalBelow(free, n - 1) + Times(|free[n - 1]|, n - 1)
  }

  /** The number of frames on the free lists. */
  function FreeTotal(free: Lists): nat {
    FreeTotalBelow(free, |free|)
  }

  lemma {:induction false} TotalAfter(free: Lists, o: nat, list: seq<nat>, n: nat)
    requires o < |free| && n <= |free|
    ensures FreeTotalBelow(free[o := list], n) + (if o < n then Times(|free[o]|, o) else 0)
         == FreeTotalBelow(free, n) + (if o < n then Times(|list|, o) else 0)
  {
    if n > 0 { TotalAfter(free, o, list, n - 1); }
  }

  /** The number of frames in a set of blocks. */
  ghost function FramesIn(blocks: Blocks): nat {
    if blocks == map[] then 0 else var h :| h in blocks; Pow2(blocks[h]) + FramesIn(blocks - {h})
  }

  lemma {:induction false} FramesInWithout(blocks: Blocks, h: nat)
    requires h in blocks
    ensures FramesIn(blocks) == FramesIn(blocks - {h}) + Pow2(blocks[h])
    decreases |blocks|
  {
    var g :| g in blocks && FramesIn(blocks) == Pow2(blocks[g]) + FramesIn(blocks - {g});
    if g != h {
      FramesInWithout(blocks - {g}, h);
      FramesInWithout(blocks - {h}, g);
      assert (blocks - {g}) - {h} == (blocks - {h}) - {g};
    }
  }

  lemma FramesInWith(blocks: Blocks, h: nat, k: nat)
    requires h !in blocks
    ensures FramesIn(blocks[h := k]) == FramesIn(blocks) + Pow2(k)
  {
    FramesInWithout(blocks[h := k], h);
    assert blocks[h := k] - {h} == blocks;
  }

  // Merging and splitting keep the tiling.

  ghost function Coalesced(blocks: Blocks, cur: nat, k: nat): Blocks
    requires Aligned(cur, k)
  {
    BuddyFacts(cur, k);
    (blocks - {cur, Buddy(cur, k)})[ClearBit(cur, k) := k + 1]
  }

  lemma CoalesceAligned(blocks: Blocks, managed: set<nat>, cur: nat, k: nat)
    requires Geometry(blocks, managed)
    requires cur in blocks && blocks[cur] == k < MAX_ORDER
    ensures BlocksAligned(Coalesced(blocks, cur, k))
  {
    BuddyFacts(cur, k);
  }

  lemma CoalesceSeparate(blocks: Blocks, cur: nat, k: nat)
    requires BlocksAligned(blocks) && Separate(blocks)
    requires cur in blocks && blocks[cur] == k < MAX_ORDER
    requires Buddy(cur, k) in blocks && blocks[Buddy(cur, k)] == k
    ensures Separate(Coalesced(blocks, cur, k))
  {
    BuddyFacts(cur, k);
    var sib, par := Buddy(cur, k), ClearBit(cur, k);
    var after := Coalesced(blocks, cur, k);
    forall g, h | g in after && h in after && g != h && after[g] <= after[h]
      ensures Cell(g, after[h]) != Cell(h, after[h])
    {
      if h == par {
        if Cell(g, k + 1) == Cell(par, k + 1) {
          if blocks[g] <= k { CellIsHalf(cur, k, g); }
        }
      }
    }
  }

  lemma CoalesceTiles(blocks: Blocks, managed: set<nat>, cur: nat, k: nat)
    requires Geometry(blocks, managed)
    requires cur in blocks && blocks[cur] == k < MAX_ORDER
    requires Buddy(cur, k) in blocks && blocks[Buddy(cur, k)] == k
    ensures Tiles(Coalesced(blocks, cur, k), managed)
  {
    BuddyFacts(cur, k);
    var sib, par := Buddy(cur, k), ClearBit(cur, k);
    var after := Coalesced(blocks, cur, k);
    forall f | f in managed ensures exists h :: Holds(after, h, f) {
      var h :| Holds(blocks, h, f);
      if h == cur || h == sib { assert Holds(after, par, f); } else { assert Holds(after, h, f); }
    }
    forall h, f | Holds(after, h, f) ensures f in managed {
      if h == par {
        CellIsHalf(cur, k, f);
        assert Holds(blocks, cur, f) || Holds(blocks, sib, f);
      } else {
        assert Holds(blocks, h, f);
      }
    }
  }

  /** Block `h` of order `k + 1` cut into two of order `k`. */
  ghost function Halved(blocks: Blocks, h: nat, k: nat): Blocks {
    blocks[h := k][h + Pow2(k) := k]
  }

  /** The upper half of a block: its head, and why it is not the head of any other block. */
  lemma HalfFacts(blocks: Blocks, h: nat, k: nat)
    requires BlocksAligned(blocks) && Separate(blocks)
    requires h in blocks && blocks[h] == k + 1
    ensures Aligned(h, k) && Aligned(h + Pow2(k), k)
    ensures Buddy(h, k) == h + Pow2(k)
    ensures Cell(h + Pow2(k), k) != Cell(h, k)
    ensures Cell(h + Pow2(k), k + 1) == Cell(h, k + 1)
    ensures h + Pow2(k) !in blocks
  {
    AlignedFiner(h, k, k + 1);
    BuddyFacts(h, k);
    var hi := h + Pow2(k);
    if hi in blocks && blocks[hi] > k + 1 { CellCoarser(h, hi, k + 1, blocks[hi]); }
  }

  lemma HalvedSeparate(blocks: Blocks, h: nat, k: nat)
    requires BlocksAligned(blocks) && Separate(blocks)
    requires h in blocks && blocks[h] == k + 1
    ensures BlocksAligned(Halved(blocks, h, k)) && Separate(Halved(blocks, h, k))
  {
    HalfFacts(blocks, h, k);
    var after := Halved(blocks, h, k);
    forall a, b | a in after && b in after && a != b && after[a] <= after[b]
      ensures Cell(a, after[b]) != Cell(b, after[b])
    {
      if a in blocks && b in blocks && a != h && b != h {
      } else if a == h || a == h + Pow2(k) {
        if b != h && b != h + Pow2(k) { HalfApart(blocks, h, k, a, b); }
      } else {
        OtherApart(blocks, h, k, a, b);
      }
    }
  }

  lemma HalfApart(blocks: Blocks, h: nat, k: nat, a: nat, b: nat)
    requires Separate(blocks) && h in blocks && blocks[h] == k + 1
    requires b in blocks && b != h && blocks[b] >= k
    requires Cell(a, k + 1) == Cell(h, k + 1)
    ensures Cell(a, blocks[b]) != Cell(b, blocks[b])
  {
    if blocks[b] > k { CellCoarser(a, h, k + 1, blocks[b]); }
  }

  lemma OtherApart(blocks: Blocks, h: nat, k: nat, a: nat, b: nat)
    requires Separate(blocks) && h in blocks && blocks[h] == k + 1
    requires a in blocks && a != h && blocks[a] <= k
    requires Cell(b, k + 1) == Cell(h, k + 1)
    ensures Cell(a, k) != Cell(b, k)
  {
    assert Cell(a, k + 1) != Cell(h, k + 1);
  }

  lemma HalvedTiles(blocks: Blocks, managed: set<nat>, h: nat, k: nat)
    requires Geometry(blocks, managed)
    requires h in blocks && blocks[h] == k + 1
    ensures Tiles(Halved(blocks, h, k), managed)
  {
    HalfFacts(blocks, h, k);
    var hi := h + Pow2(k);
    var after := Halved(blocks, h, k);
    forall f | f in managed ensures exists g :: Holds(after, g, f) {
      var g :| Holds(blocks, g, f);
      if g == h {
        CellIsHalf(h, k, f);
        assert Holds(after, h, f) || Holds(after, hi, f);
      } else {
        assert Holds(after, g, f);
      }
    }
    forall g, f | Holds(after, g, f) ensures f in managed {
      if g == h || g == hi {
        CellCoarser(f, g, k, k + 1);
        assert Holds(blocks, h, f);
      } else {
        assert Holds(blocks, g, f);
      }
    }
  }

  /**
   The frame probed by a merge is always the head of a block, and of one no larger than the block
   being freed: the word the code reads there is never a stale interior word.
   */
  lemma SiblingIsHead(blocks: Blocks, managed: set<nat>, cur: nat)
    requires Geometry(blocks, managed)
    requires cur in blocks && blocks[cur] < MAX_ORDER
    requires Buddy(cur, blocks[cur]) in managed
    ensures Buddy(cur, blocks[cur]) in blocks
    ensures blocks[Buddy(cur, blocks[cur])] <= blocks[cur]
  {
    var k := blocks[cur];
    BuddyFacts(cur, k);
    var sib := Buddy(cur, k);
    var h :| Holds(blocks, h, sib);
    var o := blocks[h];
    if o > k {
      CellCoarser(sib, cur, k + 1, o);
    } else {
      AlignedFiner(sib, o, k);
      AlignedSame(sib, h, o);
    }
  }

  // The four transitions of the allocator, on lists and blocks together.

  ghost function Without(s: seq<nat>, i: nat): seq<nat>
    requires i < |s|
  {
    s[..i] + s[i + 1..]
  }

  lemma WithoutContents(s: seq<nat>, i: nat)
    requires i < |s|
    requires forall a, b | 0 <= a < b < |s| :: s[a] != s[b]
    ensures forall x :: x in Without(s, i) <==> x in s && x != s[i]
  {
    forall x | x in s && x != s[i] ensures x in Without(s, i) {
      var j :| 0 <= j < |s| && s[j] == x;
      assert Without(s, i)[if j < i then j else j - 1] == x;
    }
  }

  /** Taking the block at position `i` of list `o` off its list makes it used. */
  lemma TakeKeepsInv(free: Lists, blocks: Blocks, used: Blocks, managed: set<nat>, o: nat, i: nat)
    requires Inv(free, blocks, used, managed)
    requires o < ORDER_COUNT && i < |free[o]|
    ensures Inv(free[o := Without(free[o], i)], blocks, used[free[o][i] := o], managed)
  {
    WithoutContents(free[o], i);
  }

  /** A used block with no free buddy may be pushed on the free list of its order. */
  lemma PushKeepsInv(free: Lists, blocks: Blocks, used: Blocks, managed: set<nat>, cur: nat)
    requires Inv(free, blocks, used, managed)
    requires cur in used
    requires blocks[cur] < MAX_ORDER ==> Buddy(cur, blocks[cur]) !in free[blocks[cur]]
    ensures Inv(free[blocks[cur] := [cur] + free[blocks[cur]]], blocks, used - {cur}, managed)
  {
    var k := blocks[cur];
    var after := free[k := [cur] + free[k]];
    assert ListsOk(after, blocks);
    forall o, g, h | 0 <= o < MAX_ORDER && g in after[o] && h in after[o] && g != h
      ensures Cell(g, o + 1) != Cell(h, o + 1)
    {
      if o == k && (g == cur || h == cur) && Cell(g, o + 1) == Cell(h, o + 1) {
        var other := if g == cur then h else g;
        BuddyFacts(cur, k);
        CellIsHalf(cur, k, other);
        AlignedSame(other, Buddy(cur, k), k);
      }
    }
  }

  /** Adding a block of frames that no block holds yet. */
  lemma GrowGeometry(blocks: Blocks, managed: set<nat>, h: nat, o: nat, frames: set<nat>)
    requires Geometry(blocks, managed) && Aligned(h, o) && o <= MAX_ORDER
    requires forall f: nat :: f in frames <==> Cell(f, o) == Cell(h, o)
    requires managed !! frames
    ensures h !in blocks && Geometry(blocks[h := o], managed + frames)
  {
    GrowSeparate(blocks, managed, h, o, frames);
    hide Separate;
    var after := blocks[h := o];
    forall f | f in managed + frames ensures exists g :: Holds(after, g, f) {
      if f in frames {
        assert Holds(after, h, f);
      } else {
        var g :| Holds(blocks, g, f);
        assert Holds(after, g, f);
      }
    }
    forall g, f | Holds(after, g, f) ensures f in managed + frames {
      if g != h { assert Holds(blocks, g, f); }
    }
  }

  lemma GrowSeparate(blocks: Blocks, managed: set<nat>, h: nat, o: nat, frames: set<nat>)
    requires Geometry(blocks, managed)
    requires forall f: nat :: f in frames <==> Cell(f, o) == Cell(h, o)
    requires managed !! frames
    ensures h !in blocks && Separate(blocks[h := o])
  {
    assert !Holds(blocks, h, h);
    forall g | g in blocks
      ensures blocks[g] <= o ==> Cell(g, o) != Cell(h, o)
      ensures o <= blocks[g] ==> Cell(h, blocks[g]) != Cell(g, blocks[g])
    {
      assert Holds(blocks, g, g);
      assert !Holds(blocks, g, h);
    }
    hide Tiles, BlocksAligned, Cell;
  }

  /** A new block at the end of the free list of its order, its buddy reaching outside. */
  lemma GrowFree(free: Lists, blocks: Blocks, used: Blocks, managed: set<nat>, h: nat, o: nat, frames: set<nat>)
    requires Inv(free, blocks, used, managed) && |free| == ORDER_COUNT && Aligned(h, o) && o <= MAX_ORDER
    requires forall f: nat :: f in frames <==> Cell(f, o) == Cell(h, o)
    requires managed !! frames
    requires Buddy(h, o) >= 0
    requires o < MAX_ORDER ==> exists g: nat :: g !in managed && Cell(g, o) == Cell(Buddy(h, o), o)
    ensures Inv(free[o := free[o] + [h]], blocks[h := o], used, managed + frames)
  {
    hide Geometry, ListsOk, Partition, NoFreeBuddies, Cell, Aligned;
    GrowGeometry(blocks, managed, h, o, frames);
    NewOnList(free, blocks, used, h, o);
    forall b | b in free[o] && o < MAX_ORDER ensures Cell(b, o + 1) != Cell(h, o + 1) {
      InList(free, blocks, o, b);
      BuddyOutside(blocks, managed, h, o, b);
    }
    AppendNoBuddies(free, h, o);
  }

  lemma AppendNoBuddies(free: Lists, h: nat, o: nat)
    requires NoFreeBuddies(free) && o < ORDER_COUNT
    requires o < MAX_ORDER ==> forall b | b in free[o] :: Cell(b, o + 1) != Cell(h, o + 1)
    ensures NoFreeBuddies(free[o := free[o] + [h]])
  {
    hide Cell;
  }

  lemma InList(free: Lists, blocks: Blocks, o: nat, b: nat)
    requires ListsOk(free, blocks) && o < ORDER_COUNT && b in free[o]
    ensures b in blocks && blocks[b] == o
  {
  }

  lemma NewOnList(free: Lists, blocks: Blocks, used: Blocks, h: nat, o: nat)
    requires ListsOk(free, blocks) && Partition(free, blocks, used) && h !in blocks && o < ORDER_COUNT
    ensures ListsOk(free[o := free[o] + [h]], blocks[h := o]) && h !in free[o]
    ensures Partition(free[o := free[o] + [h]], blocks[h := o], used)
    ensures ListsOk(free, blocks[h := o])
    ensures Partition(free, blocks[h := o], used[h := o])
  {
    assert h !in free[o] by { if h in free[o] { InList(free, blocks, o, h); } }
  }

  lemma BuddyOutside(blocks: Blocks, managed: set<nat>, h: nat, o: nat, b: nat)
    requires Geometry(blocks, managed) && Aligned(h, o)
    requires b in blocks && blocks[b] == o && b != h && Buddy(h, o) >= 0
    requires exists g: nat :: g !in managed && Cell(g, o) == Cell(Buddy(h, o), o)
    ensures Cell(b, o + 1) != Cell(h, o + 1)
  {
    var g: nat :| g !in managed && Cell(g, o) == Cell(Buddy(h, o), o);
    assert !Holds(blocks, b, g);
    BuddyFacts(h, o);
    if Cell(b, o + 1) == Cell(h, o + 1) {
      CellIsHalf(h, o, b);
      AlignedSame(b, h, o);
    }
  }

  /** A new block that is withheld. */
  lemma GrowUsed(free: Lists, blocks: Blocks, used: Blocks, managed: set<nat>, h: nat, o: nat, frames: set<nat>)
    requires Inv(free, blocks, used, managed) && Aligned(h, o) && o <= MAX_ORDER
    requires forall f: nat :: f in frames <==> Cell(f, o) == Cell(h, o)
    requires managed !! frames
    ensures Inv(free, blocks[h := o], used[h := o], managed + frames)
  {
    GrowGeometry(blocks, managed, h, o, frames);
    NewOnList(free, blocks, used, h, o);
    hide Geometry, ListsOk, Partition;
  }

  /** Splitting a used block leaves its upper half free and its lower half used. */
  lemma SplitKeepsInv(free: Lists, blocks: Blocks, used: Blocks, managed: set<nat>, h: nat, k: nat)
    requires Inv(free, blocks, used, managed)
    requires h in used && blocks[h] == k + 1 && k < MAX_ORDER
    requires free[k] == []
    ensures Inv(free[k := [h + Pow2(k)]], Halved(blocks, h, k), used[h := k], managed)
  {
    hide BlocksAligned, Separate, Tiles;
    HalfFacts(blocks, h, k);
    HalvedSeparate(blocks, h, k);
    HalvedTiles(blocks, managed, h, k);
    hide Pow2, Cell;
  }

  /** Two used buddies merge into one used block. */
  lemma MergeKeepsInv(free: Lists, blocks: Blocks, used: Blocks, managed: set<nat>, cur: nat, k: nat)
    requires Inv(free, blocks, used, managed)
    requires cur in used && blocks[cur] == k < MAX_ORDER
    requires Buddy(cur, k) in used && blocks[Buddy(cur, k)] == k
    ensures Aligned(cur, k)
    ensures Inv(free, Coalesced(blocks, cur, k), Coalesced(used, cur, k), managed)
  {
    BuddyFacts(cur, k);
    CoalesceAligned(blocks, managed, cur, k);
    CoalesceSeparate(blocks, cur, k);
    CoalesceTiles(blocks, managed, cur, k);
  }

  // Completeness.

  /** A wholly free aligned run lies inside a single free block. */
  lemma {:induction false} FreeRunInOneBlock(free: Lists, blocks: Blocks, used: Blocks, managed: set<nat>,
                                             h: nat, k: nat) returns (o: nat, b: nat)
    requires Inv(free, blocks, used, managed)
    requires k <= MAX_ORDER && FreeRun(free, h, k)
    ensures k <= o < ORDER_COUNT && b in free[o] && Cell(h, o) == Cell(b, o)
    decreases k
  {
    if k == 0 {
      assert FreeFrame(free, h);
      o, b :| FreeBlockHolds(free, o, b, h);
    } else {
      var p := Pow2(k - 1);
      NextCell(h, k - 1);
      var o1, b1 := FreeRunInOneBlock(free, blocks, used, managed, h, k - 1);
      var o2, b2 := FreeRunInOneBlock(free, blocks, used, managed, h + p, k - 1);
      if o1 >= k {
        o, b := o1, b1;
      } else if o2 >= k {
        CellCoarser(h, h + p, k, o2);
        o, b := o2, b2;
      } else {
        assert false;
      }
    }
  }

  /** No frame belongs to two blocks. */
  lemma UniqueOwner(blocks: Blocks, g: nat, h: nat, f: nat)
    requires Separate(blocks) && Holds(blocks, g, f) && Holds(blocks, h, f)
    ensures g == h
  {
    if blocks[g] <= blocks[h] {
      CellCoarser(f, g, blocks[g], blocks[h]);
    } else {
      CellCoarser(f, h, blocks[h], blocks[g]);
    }
  }

  /** Conservation: a managed frame is free exactly when no used block holds it. */
  lemma FreeIsNotUsed(free: Lists, blocks: Blocks, used: Blocks, managed: set<nat>, f: nat)
    requires Inv(free, blocks, used, managed)
    ensures FreeFrame(free, f) <==> f in managed && forall g :: !Holds(used, g, f)
  {
    if FreeFrame(free, f) {
      var o, h :| FreeBlockHolds(free, o, h, f);
      assert Holds(blocks, h, f);
      forall g ensures !Holds(used, g, f) {
        if Holds(used, g, f) {
          assert Holds(blocks, g, f);
          UniqueOwner(blocks, g, h, f);
        }
      }
    }
    if f in managed && forall g :: !Holds(used, g, f) {
      var h :| Holds(blocks, h, f);
      assert !Holds(used, h, f);
      assert FreeBlockHolds(free, blocks[h], h, f);
    }
  }

  /** A block taken from `used` to `used'` consists of frames that were free before. */
  lemma NewBlockWasFree(free: Lists, blocks: Blocks, used: Blocks,
                        free': Lists, blocks': Blocks, used': Blocks, managed: set<nat>, h: nat, k: nat)
    requires Inv(free, blocks, used, managed) && Inv(free', blocks', used', managed)
    requires h !in used && used' == used[h := k]
    ensures FreeRun(free, h, k)
  {
    assert h in used' && h in blocks';
    forall f | h <= f < h + Pow2(k) ensures FreeFrame(free, f) {
      InBlock(h, k, f);
      assert Holds(blocks', h, f);
      forall g ensures !Holds(used, g, f) {
        if Holds(used, g, f) {
          assert Holds(blocks', g, f);
          UniqueOwner(blocks', g, h, f);
        }
      }
      FreeIsNotUsed(free, blocks, used, managed, f);
    }
  }

  // The one way a free can fail: probing frame 0.

  /** The frames whose leading bit is bit `m`. */
  lemma LeadingBit(g: nat, m: nat)
    ensures Pow2(m) <= g < Pow2(m + 1) <==> Cell(g, m) == 1
    ensures Aligned(Pow2(m), m) && Cell(Pow2(m), m) == 1
  {
    ZeroCell(m);
    NextCell(0, m);
    InBlock(Pow2(m), m, g);
  }

  /**
   Freeing the block `(f, order)` would merge it up to the block `[2^m, 2^(m+1))`, whose buddy is
   the block at frame 0: all the rest of that block is already free.
   */
  ghost predicate MergesDownToNull(free: Lists, f: nat, order: nat) {
    exists m :: NullMergeAt(free, f, order, m)
  }

  ghost predicate NullMergeAt(free: Lists, f: nat, order: nat, m: nat) {
    && order <= m < MAX_ORDER
    && Pow2(m) <= f < Pow2(m + 1)
    && forall g | Pow2(m) <= g < Pow2(m + 1) && !(f <= g < f + Pow2(order)) :: FreeFrame(free, g)
  }

  /**
   The state of a free in progress: the floating block `(cur, k)` holds the freed block, and the
   frames free now are those free at the start outside the floating block.
   */
  ghost predicate Floating(free0: Lists, f: nat, order: nat, free: Lists, cur: nat, k: nat) {
    && order <= k <= MAX_ORDER && Cell(f, k) == Cell(cur, k)
    && (forall g :: FreeFrame(free, g) <==> FreeFrame(free0, g) && Cell(g, k) != Cell(cur, k))
    && (forall g | Cell(g, k) == Cell(cur, k) && Cell(g, order) != Cell(f, order) :: FreeFrame(free0, g))
  }

  lemma FloatingAtNull(free0: Lists, f: nat, order: nat, free: Lists, cur: nat, k: nat)
    requires Aligned(f, order) && Aligned(cur, k)
    requires Floating(free0, f, order, free, cur, k) && k < MAX_ORDER && Buddy(cur, k) == 0
    ensures MergesDownToNull(free0, f, order)
  {
    BuddyFacts(cur, k);
    LeadingBit(f, k);
    AlignedSame(cur, Pow2(k), k);
    forall g | Pow2(k) <= g < Pow2(k + 1) && !(f <= g < f + Pow2(order)) ensures FreeFrame(free0, g) {
      LeadingBit(g, k);
      InBlock(f, order, g);
    }
    assert NullMergeAt(free0, f, order, k);
  }

  /** What is free while `(cur, k)` floats, in terms of the used blocks before and now. */
  lemma FloatingFromUsed(free0: Lists, blocks0: Blocks, used0: Blocks,
                         free: Lists, blocks: Blocks, used: Blocks, managed: set<nat>,
                         f: nat, order: nat, cur: nat, k: nat)
    requires Inv(free0, blocks0, used0, managed) && Inv(free, blocks, used, managed)
    requires f in used0 && used0[f] == order <= k
    requires cur in used && used[cur] == k && used == (used0 - {f})[cur := k]
    requires cur == f || cur !in used0
    requires Cell(f, k) == Cell(cur, k)
    ensures Floating(free0, f, order, free, cur, k)
  {
    forall g ensures FreeFrame(free, g) <==> FreeFrame(free0, g) && Cell(g, k) != Cell(cur, k) {
      FreeIsNotUsed(free0, blocks0, used0, managed, g);
      FreeIsNotUsed(free, blocks, used, managed, g);
      UsedBeforeAndNow(blocks, used0, used, f, order, cur, k, g);
    }
    forall g | Cell(g, k) == Cell(cur, k) && Cell(g, order) != Cell(f, order) ensures FreeFrame(free0, g) {
      assert Holds(blocks, cur, g);
      FreeIsNotUsed(free0, blocks0, used0, managed, g);
      UsedBeforeAndNow(blocks, used0, used, f, order, cur, k, g);
    }
  }

  lemma UsedBeforeAndNow(blocks: Blocks, used0: Blocks, used: Blocks,
                         f: nat, order: nat, cur: nat, k: nat, g: nat)
    requires Separate(blocks)
    requires forall h | h in used :: h in blocks && used[h] == blocks[h]
    requires f in used0 && used0[f] == order <= k
    requires used == (used0 - {f})[cur := k]
    requires cur == f || cur !in used0
    requires Cell(f, k) == Cell(cur, k)
    ensures (exists h :: Holds(used, h, g)) <==> (exists h :: Holds(used0, h, g)) || Cell(g, k) == Cell(cur, k)
    ensures Cell(g, k) == Cell(cur, k) ==> forall h :: Holds(used0, h, g) ==> h == f
  {
    if h :| Holds(used0, h, g) {
      if h == f {
        CellCoarser(g, f, order, k);
        assert Holds(used, cur, g);
      } else {
        assert Holds(used, h, g);
      }
    }
    if Cell(g, k) == Cell(cur, k) {
      assert Holds(used, cur, g) && Holds(blocks, cur, g);
      forall h | Holds(used0, h, g) ensures h == f {
        if h != f {
          assert Holds(blocks, h, g);
          UniqueOwner(blocks, h, cur, g);
        }
      }
    }
    if h :| Holds(used, h, g) {
      if h != cur { assert Holds(used0, h, g); }
    }
  }

  /** A free that stops merging short of frame 0 was never going to reach it. */
  lemma FloatingStuck(free0: Lists, f: nat, order: nat,
                      free: Lists, blocks: Blocks, used: Blocks, managed: set<nat>, cur: nat, k: nat)
    requires Inv(free, blocks, used, managed) && 0 !in managed
    requires cur in used && used[cur] == k
    requires Floating(free0, f, order, free, cur, k) && Aligned(f, order)
    requires k < MAX_ORDER ==> Buddy(cur, k) != 0 && Buddy(cur, k) !in free[k]
    ensures !MergesDownToNull(free0, f, order)
  {
    NullNotManaged(blocks, managed, cur);
    if m: nat :| NullMergeAt(free0, f, order, m) {
      LeadingBit(f, m);
      if m < k {
        SmallCell(f, m, k);
      } else if m == k {
        BuddyOfOne(cur, k);
      } else {
        StuckBelow(free0, f, order, free, blocks, used, managed, cur, k, m);
      }
    }
  }

  lemma BuddyOfOne(h: nat, k: nat)
    requires Aligned(h, k) && Cell(h, k) == 1
    ensures Buddy(h, k) == 0
  {
    LeadingBit(h, k);
    AlignedSame(h, Pow2(k), k);
  }

  lemma SmallCell(f: nat, m: nat, k: nat)
    requires m < k && Cell(f, m) == 1
    ensures Cell(f, k) == 0
  {
    ZeroCell(m + 1);
    ZeroCell(k);
    CellCoarser(f, 0, m + 1, k);
  }

  lemma NullNotManaged(blocks: Blocks, managed: set<nat>, cur: nat)
    requires Geometry(blocks, managed) && 0 !in managed && cur in blocks
    ensures Cell(cur, blocks[cur]) != 0
  {
    ZeroCell(blocks[cur]);
    assert !Holds(blocks, cur, 0);
  }

  lemma StuckBelow(free0: Lists, f: nat, order: nat,
                   free: Lists, blocks: Blocks, used: Blocks, managed: set<nat>, cur: nat, k: nat, m: nat)
    requires Inv(free, blocks, used, managed)
    requires cur in used && used[cur] == k < MAX_ORDER
    requires Floating(free0, f, order, free, cur, k) && Aligned(f, order)
    requires NullMergeAt(free0, f, order, m) && k < m
    ensures Buddy(cur, k) in free[k]
  {
    BuddyFacts(cur, k);
    var sib := Buddy(cur, k);
    forall g | sib <= g < sib + Pow2(k) ensures FreeFrame(free, g) {
      InBlock(sib, k, g);
      CellCoarser(g, sib, k, k + 1);
      SiblingFrameFree(free0, f, order, free, cur, k, m, g);
    }
    var o, b := FreeRunInOneBlock(free, blocks, used, managed, sib, k);
    if o == k {
      AlignedSame(sib, b, k);
    } else {
      CellCoarser(sib, cur, k + 1, o);
    }
  }

  lemma SiblingFrameFree(free0: Lists, f: nat, order: nat, free: Lists, cur: nat, k: nat, m: nat, g: nat)
    requires Floating(free0, f, order, free, cur, k) && Aligned(f, order)
    requires NullMergeAt(free0, f, order, m) && k < m
    requires Cell(g, k + 1) == Cell(cur, k + 1) && Cell(g, k) != Cell(cur, k)
    ensures FreeFrame(free, g)
  {
    CellCoarser(g, cur, k + 1, m);
    CellCoarser(f, cur, k, m);
    LeadingBit(f, m);
    LeadingBit(g, m);
    InBlock(f, order, g);
    if Cell(g, order) == Cell(f, order) { CellCoarser(g, f, order, k); }
  }
}
