/**
 The frame allocator (src/memory/mod.rs): eleven doubly linked free lists threaded through the
 `PageInfo` words of the free blocks' first frames.
 */
module FreeLists {
  import opened Wrappers
  import opened Helpers
  import opened Dyadic
  import opened BuddySpec
  import opened Sections

  /** An optional frame packed with an order into one word. */
  datatype P2Frame = P2Frame(frame: Option<nat>, order: nat)

  /** The `refcount` word: a reference count while the frame is used, the `prev` link while free. */
  datatype RcWord = InUse(shared: bool, count: nat) | Prev(link: P2Frame)

  datatype PageInfo = PageInfo(refcount: RcWord, next: P2Frame)

  type Infos = map<nat, PageInfo>

  function Head(list: seq<nat>): Option<nat> {
    if list == [] then None else Some(list[0])
  }

  /** The words of the `i`-th node of the free list of order `o`. */
  function Node(list: seq<nat>, o: nat, i: nat): PageInfo
    requires i < |list|
  {
    PageInfo(Prev(P2Frame(if i == 0 then None else Some(list[i - 1]), o)),
             P2Frame(if i + 1 == |list| then None else Some(list[i + 1]), o))
  }

  /** A well-formed doubly linked list whose nodes all carry its order. */
  ghost predicate Linked(info: Infos, head: Option<nat>, list: seq<nat>, o: nat) {
    && head == Head(list)
    && (forall i | 0 <= i < |list| :: list[i] in info)
    && (forall i {:trigger Node(list, o, i)} {:trigger info[list[i]]} | 0 <= i < |list| ::
          info[list[i]] == Node(list, o, i))
  }

  ghost predicate AllLinked(info: Infos, heads: seq<Option<nat>>, free: Lists) {
    && |heads| == |free| == ORDER_COUNT
    && (forall o | 0 <= o < ORDER_COUNT :: Linked(info, heads[o], free[o], o))
  }

  ghost predicate MarkedUsed(info: Infos, used: Blocks, except: set<nat>) {
    forall h | h in used && h !in except :: h in info && info[h].refcount.InUse?
  }

  /** Changing the words of frames that are on no other list disturbs no other list. */
  lemma AllLinkedAfter(info: Infos, heads: seq<Option<nat>>, free: Lists, blocks: Blocks,
                       info': Infos, head: Option<nat>, list: seq<nat>, o: nat)
    requires AllLinked(info, heads, free) && ListsOk(free, blocks) && o < ORDER_COUNT
    requires Linked(info', head, list, o)
    requires forall h | h in info && h in blocks && blocks[h] != o :: h in info' && info'[h] == info[h]
    ensures AllLinked(info', heads[o := head], free[o := list])
  {
  }

  function SetNext(info: Infos, f: nat, w: P2Frame): Infos {
    if f in info then info[f := info[f].(next := w)] else info
  }

  function SetPrev(info: Infos, f: nat, w: RcWord): Infos {
    if f in info then info[f := info[f].(refcount := w)] else info
  }

  /** The words after the node at position `i` has been bypassed by its neighbours. */
  ghost function Bypassed(info: Infos, list: seq<nat>, i: nat, o: nat): Infos
    requires i < |list|
  {
    var node := Node(list, o, i);
    var a := if i > 0 then SetNext(info, list[i - 1], node.next) else info;
    if i + 1 < |list| then SetPrev(a, list[i + 1], node.refcount) else a
  }

  lemma BypassedNode(info: Infos, head: Option<nat>, list: seq<nat>, o: nat, i: nat, j: nat)
    requires Linked(info, head, list, o) && i < |list| && Distinct(list)
    requires j < |list| - 1
    ensures |Without(list, i)| == |list| - 1
    ensures Without(list, i)[j] == list[if j < i then j else j + 1]
    ensures Without(list, i)[j] in Bypassed(info, list, i, o)
    ensures Bypassed(info, list, i, o)[Without(list, i)[j]] == Node(Without(list, i), o, j)
  {
    var k := if j < i then j else j + 1;
    assert info[list[k]] == Node(list, o, k) && info[list[i]] == Node(list, o, i);
    assert i > 0 && k != i - 1 ==> list[k] != list[i - 1];
    assert i + 1 < |list| && k != i + 1 ==> list[k] != list[i + 1];
    hide Linked, Distinct;
    WithoutNode(list, o, i, j);
    hide Without;
  }

  lemma WithoutNode(list: seq<nat>, o: nat, i: nat, j: nat)
    requires i < |list| && j < |list| - 1
    ensures |Without(list, i)| == |list| - 1
    ensures Without(list, i)[j] == list[if j < i then j else j + 1]
    ensures Node(Without(list, i), o, j) ==
              var k := if j < i then j else j + 1;
              PageInfo(if j == i then Node(list, o, i).refcount else Node(list, o, k).refcount,
                       if j + 1 == i then Node(list, o, i).next else Node(list, o, k).next)
  {
  }

  lemma BypassedLinked(info: Infos, head: Option<nat>, list: seq<nat>, o: nat, i: nat)
    requires Linked(info, head, list, o) && i < |list| && Distinct(list)
    ensures Linked(Bypassed(info, list, i, o), Head(Without(list, i)), Without(list, i), o)
    ensures Bypassed(info, list, i, o).Keys == info.Keys
    ensures forall h | h in info && h !in list :: Bypassed(info, list, i, o)[h] == info[h]
  {
    forall j | 0 <= j < |list| - 1
      ensures Without(list, i)[j] in Bypassed(info, list, i, o)
      ensures Bypassed(info, list, i, o)[Without(list, i)[j]] == Node(Without(list, i), o, j)
    {
      BypassedNode(info, head, list, o, i, j);
    }
    hide Node;
  }

  /**
   The lists, the words and the blocks agree; `floating` holds the block, if any, that is being
   split or merged and whose words are in flux.
   */
  ghost predicate Wf(heads: seq<Option<nat>>, info: Infos, free: Lists, blocks: Blocks, used: Blocks,
                     floating: set<nat>)
  {
    && 0 !in info
    && Inv(free, blocks, used, info.Keys)
    && AllLinked(info, heads, free)
    && MarkedUsed(info, used, floating)
  }

  lemma ListFacts(heads: seq<Option<nat>>, info: Infos, free: Lists, blocks: Blocks, used: Blocks,
                  floating: set<nat>, o: nat)
    requires Wf(heads, info, free, blocks, used, floating) && o < ORDER_COUNT
    ensures |heads| == |free| == ORDER_COUNT
    ensures Linked(info, heads[o], free[o], o) && Distinct(free[o])
    ensures forall h | h in free[o] :: h in blocks && blocks[h] == o && h !in used
  {
  }

  /** Unlinking the node at position `i` of list `o`. */
  lemma UnlinkWf(heads: seq<Option<nat>>, info: Infos, free: Lists, blocks: Blocks, used: Blocks,
                 floating: set<nat>, o: nat, i: nat)
    requires Wf(heads, info, free, blocks, used, floating)
    requires o < ORDER_COUNT && i < |free[o]|
    ensures Linked(info, heads[o], free[o], o)
    ensures free[o][i] !in used
    ensures Wf(heads[o := Head(Without(free[o], i))], Bypassed(info, free[o], i, o),
               free[o := Without(free[o], i)], blocks, used[free[o][i] := o], floating + {free[o][i]})
  {
    hide Linked, Distinct, AllLinked, Bypassed, Without, Tiles, Separate, BlocksAligned, NoFreeBuddies, Partition,
         ListsOk, MarkedUsed;
    ListFacts(heads, info, free, blocks, used, floating, o);
    var list := free[o];
    assert list[i] in list;
    BypassedLinked(info, heads[o], list, o, i);
    var info' := Bypassed(info, list, i, o);
    AllLinkedAfter(info, heads, free, blocks, info', Head(Without(list, i)), Without(list, i), o);
    TakeKeepsInv(free, blocks, used, info.Keys, o, i);
    MarkedAfter(info, info', used, list, floating, list[i], o);
  }

  lemma MarkedAfter(info: Infos, info': Infos, used: Blocks, list: seq<nat>, floating: set<nat>, h: nat, o: nat)
    requires MarkedUsed(info, used, floating)
    requires info'.Keys == info.Keys && forall x | x in info && x !in list :: info'[x] == info[x]
    requires forall x | x in list :: x !in used
    ensures MarkedUsed(info', used[h := o], floating + {h})
  {
  }

  /** Splitting the floating block `h` of order `k + 1`. */
  lemma SplitWf(heads: seq<Option<nat>>, info: Infos, free: Lists, blocks: Blocks, used: Blocks, h: nat, k: nat)
    requires Wf(heads, info, free, blocks, used, {h})
    requires h in used && used[h] == k + 1 && k < MAX_ORDER && free[k] == []
    ensures |heads| == ORDER_COUNT && heads[k] == None
    ensures h + Pow2(k) in info
    ensures Wf(heads[k := Some(h + Pow2(k))],
               info[h + Pow2(k) := PageInfo(Prev(P2Frame(None, k)), P2Frame(None, k))],
               free[k := [h + Pow2(k)]], Halved(blocks, h, k), used[h := k], {h})
  {
    hide Linked, Distinct, AllLinked, Halved, Tiles, Separate, BlocksAligned, NoFreeBuddies, Partition, ListsOk,
         MarkedUsed, Pow2;
    var hi := h + Pow2(k);
    ListFacts(heads, info, free, blocks, used, {h}, k);
    EmptyHead(info, heads[k], k);
    UpperHalf(free, blocks, used, info.Keys, h, k);
    var info' := info[hi := PageInfo(Prev(P2Frame(None, k)), P2Frame(None, k))];
    SingletonLinked(info', hi, k);
    AllLinkedAfter(info, heads, free, blocks, info', Some(hi), [hi], k);
    SplitKeepsInv(free, blocks, used, info.Keys, h, k);
    assert info'.Keys == info.Keys;
    MarkedAfter(info, info', used, [hi], {h}, h, k);
    assert {h} + {h} == {h};
  }

  lemma SingletonLinked(info: Infos, h: nat, o: nat)
    requires h in info && info[h] == PageInfo(Prev(P2Frame(None, o)), P2Frame(None, o))
    ensures Linked(info, Some(h), [h], o)
  {
  }

  lemma EmptyHead(info: Infos, head: Option<nat>, o: nat)
    requires Linked(info, head, [], o)
    ensures head == None
  {
  }

  lemma UpperHalf(free: Lists, blocks: Blocks, used: Blocks, managed: set<nat>, h: nat, k: nat)
    requires Inv(free, blocks, used, managed) && h in used && used[h] == k + 1
    ensures h in blocks && blocks[h] == k + 1
    ensures h + Pow2(k) in managed && h + Pow2(k) !in blocks && h + Pow2(k) !in used
  {
    HalfFacts(blocks, h, k);
    assert Holds(blocks, h, h + Pow2(k));
  }

  /** Setting the words of the floating block. */
  lemma SettleWf(heads: seq<Option<nat>>, info: Infos, free: Lists, blocks: Blocks, used: Blocks,
                 h: nat, word: PageInfo)
    requires Wf(heads, info, free, blocks, used, {h})
    requires h in used
    ensures h in info
    ensures Wf(heads, info[h := word], free, blocks, used, if word.refcount.InUse? then {} else {h})
  {
    assert Holds(blocks, h, h);
    var info' := info[h := word];
    assert info'.Keys == info.Keys;
    forall o | 0 <= o < ORDER_COUNT ensures Linked(info', heads[o], free[o], o) {
      ListFacts(heads, info, free, blocks, used, {h}, o);
      KeepLinked(info, info', heads[o], free[o], o);
    }
  }

  lemma KeepLinked(info: Infos, info': Infos, head: Option<nat>, list: seq<nat>, o: nat)
    requires Linked(info, head, list, o)
    requires forall h | h in list :: h in info' && info'[h] == info[h]
    ensures Linked(info', head, list, o)
  {
    forall i | 0 <= i < |list| ensures list[i] in info' && info'[list[i]] == info[list[i]] {
      assert list[i] in list;
    }
  }

  class FreeList {
    /** `for_orders`: the first block of every free list. */
    const heads: array<Option<nat>>
    var usedFrames: nat
    /** The `PageInfo` of every frame in a section. */
    var info: Infos

    ghost var free: Lists
    ghost var blocks: Blocks
    /** The blocks on no free list: those handed out and those withheld at boot. */
    ghost var used: Blocks
    ghost var withheld: set<nat>
    /** The number of frames that were free at boot. */
    ghost var capacity: nat

    /** The blocks handed out, with the order they were handed out at. */
    ghost function Out(): Blocks
      reads this
    {
      used - withheld
    }

    ghost predicate Valid()
      reads this, heads
    {
      && heads.Length == ORDER_COUNT
      && Wf(heads[..], info, free, blocks, used, {})
      && |free| == ORDER_COUNT && withheld <= used.Keys
      && usedFrames == FramesIn(Out())
      && usedFrames + FreeTotal(free) == capacity
    }

    /**
     `init_sections`: after boot every frame of every free area lies in exactly one block, the
     blocks starting below the bump allocator's offset are withheld and all others are free.
     */
    constructor (areas: seq<Span>, absOff: nat)
      requires Ascending(areas) && !InSome(areas, 0)
      ensures Valid() && fresh(heads)
      ensures forall f: nat :: f in info <==> InSome(areas, f)
      ensures Out() == map[] && usedFrames == 0 && capacity == FreeTotal(free)
      ensures forall h :: h in withheld <==> h in blocks && h < absOff
    {
      heads := new Option<nat>[ORDER_COUNT](_ => None);
      usedFrames := 0;
      info := map[];
      free := seq(ORDER_COUNT, _ => []);
      blocks, used, withheld, capacity := map[], map[], {}, 0;
      new;
      Boot(areas, absOff);
    }

    method Boot(areas: seq<Span>, absOff: nat)
      requires Ascending(areas) && !InSome(areas, 0)
      requires heads.Length == |free| == ORDER_COUNT && blocks == used == map[] && usedFrames == 0
      requires forall o | 0 <= o < ORDER_COUNT :: heads[o] == None && free[o] == []
      modifies this, heads
      ensures Valid()
      ensures forall f: nat :: f in info <==> InSome(areas, f)
      ensures Out() == map[] && usedFrames == 0 && capacity == FreeTotal(free)
      ensures forall h :: h in withheld <==> h in blocks && h < absOff
    {
      hide Wf, BootWf, TilesDisjoint, InTiles, InSome, FencedOff, Isolated, Ascending, FreeTotal, FramesIn;
      var sections := BuildSections(areas);
      info := FrameWords(sections, absOff);
      var tiles := TileAll(sections, areas);
      BootStart(heads[..], free, info, absOff);
      AppendAll(tiles, areas, absOff);
      withheld := used.Keys;
      capacity := FreeTotal(free);
      assert Out() == map[];
      NoFrames();
    }

    /** Append every block of the tiling. */
    method AppendAll(tiles: seq<Tile>, ghost areas: seq<Span>, absOff: nat)
      requires heads.Length == |free| == ORDER_COUNT
      requires BootWf(heads[..], NO_FRAMES, info, free, blocks, used, {}, absOff)
      requires forall f: nat :: f in info <==> InSome(areas, f)
      requires forall f: nat :: InTiles(tiles, f) <==> InSome(areas, f)
      requires TilesDisjoint(tiles) && forall i | 0 <= i < |tiles| :: FencedOff(tiles[i], areas)
      modifies this, heads
      ensures |free| == ORDER_COUNT && usedFrames == old(usedFrames) && info.Keys == old(info.Keys)
      ensures Wf(heads[..], info, free, blocks, used, {})
      ensures forall h :: h in used.Keys <==> h in blocks && h < absOff
    {
      hide Wf, BootWf, NewBlock, TilesDisjoint, InTiles, InSome, FencedOff;
      var last := NO_FRAMES;
      ghost var managed: set<nat> := {};
      NoTiles();
      var k := 0;
      assert tiles[..k] == [];
      while k < |tiles|
        invariant 0 <= k <= |tiles| && |last| == |free| == ORDER_COUNT
        invariant info.Keys == old(info.Keys) && usedFrames == old(usedFrames)
        invariant forall f: nat :: f in managed <==> InTiles(tiles[..k], f)
        invariant BootWf(heads[..], last, info, free, blocks, used, managed, absOff)
      {
        var h, o := tiles[k].head, tiles[k].order;
        NextTile(tiles, k, areas, managed, info.Keys);
        ghost var frames := TileFrames(h, o);
        last := AppendPage(h, o, absOff, last, managed, frames);
        managed := managed + frames;
        k := k + 1;
      }
      assert tiles[..k] == tiles;
      assert managed == info.Keys;
      BootEnd(heads[..], last, info, free, blocks, used, managed, absOff);
    }

    /** `append_page`: a block found at boot goes to the end of its list, unless it is withheld. */
    method AppendPage(h: nat, o: nat, absOff: nat, last: seq<Option<nat>>,
                      ghost managed: set<nat>, ghost frames: set<nat>) returns (last': seq<Option<nat>>)
      requires heads.Length == |free| == |last| == ORDER_COUNT && o < ORDER_COUNT
      requires BootWf(heads[..], last, info, free, blocks, used, managed, absOff)
      requires NewBlock(managed, info.Keys, h, o, frames)
      modifies this, heads
      ensures |free| == |last'| == ORDER_COUNT && usedFrames == old(usedFrames)
      ensures info.Keys == old(info.Keys)
      ensures BootWf(heads[..], last', info, free, blocks, used, managed + frames, absOff)
    {
      hide BootWf, NewBlock, Appended, Tail;
      NewBlockFacts(managed, info.Keys, h, o, frames);
      ghost var heads0, info0 := heads[..], info;
      if h < absOff {
        AppendUsedWf(heads0, last, info, free, blocks, used, managed, absOff, h, o, frames);
        info := info[h := info[h].(next := P2Frame(None, o))];
        used := used[h := o];
        last' := last;
      } else {
        AppendFreeWf(heads0, last, info, free, blocks, used, managed, absOff, h, o, frames);
        info := info[h := info[h].(next := P2Frame(None, o))];
        if last[o].Some? {
          var l := last[o].value;
          info := info[l := info[l].(next := P2Frame(Some(h), o))];
        } else {
          heads[o] := Some(h);
        }
        info := info[h := PageInfo(Prev(P2Frame(last[o], o)), P2Frame(None, o))];
        AppendedWords(info0, info, h, o, last[o]);
        last' := last[o := Some(h)];
        free := free[o := free[o] + [h]];
        assert heads[..] == if last[o].Some? then heads0 else heads0[o := Some(h)];
      }
      blocks := blocks[h := o];
    }

    /**
     `allocate_p2frame`: fails exactly when no naturally aligned run of `2^min` frames is wholly
     free; otherwise hands out such a run and takes nothing else.
     */
    method Allocate(min: nat) returns (r: Option<nat>)
      requires Valid()
      modifies this, heads
      ensures Valid()
      ensures info.Keys == old(info.Keys) && capacity == old(capacity) && withheld == old(withheld)
      ensures min <= MAX_ORDER ==> (r.None? <==> forall h: nat :: !FreeRun(old(free), h, min))
      ensures min > MAX_ORDER ==> r.None?
      ensures r.None? ==> Out() == old(Out()) && free == old(free) && usedFrames == old(usedFrames)
      ensures r.Some? ==>
                && FreeRun(old(free), r.value, min)
                && r.value !in old(used) && used == old(used)[r.value := min]
                && r.value !in old(Out()) && Out() == old(Out())[r.value := min]
                && usedFrames == old(usedFrames) + Pow2(min)
    {
      hide Wf, FramesIn, FreeRun, FreeTotal, Pow2;
      var order := min;
      while order < ORDER_COUNT && heads[order].None?
        invariant min <= order && Valid() && unchanged(this) && unchanged(heads)
        invariant forall k | min <= k < order && k < ORDER_COUNT :: free[k] == []
      {
        ListHead(heads[..], info, free, blocks, used, order);
        order := order + 1;
      }
      if order >= ORDER_COUNT {
        NoRun(heads[..], info, free, blocks, used, min);
        return None;
      }
      ListHead(heads[..], info, free, blocks, used, order);
      var frame := heads[order].value;
      Pop(order);
      Split(frame, order, min);
      r := Some(frame);
      FramesInWith(old(Out()), frame, min);
      assert Out() == old(Out())[frame := min];
      WasFree(old(heads[..]), old(info), old(free), old(blocks), old(used),
              heads[..], info, free, blocks, used, frame, min);
    }

    /** Take the first block of list `order`; it floats while it is being split. */
    method Pop(order: nat)
      requires Valid() && order < ORDER_COUNT && heads[order].Some?
      modifies this, heads
      ensures info.Keys == old(info.Keys) && capacity == old(capacity) && withheld == old(withheld)
      ensures blocks == old(blocks) && usedFrames == old(usedFrames)
      ensures old(free)[order] != []
      ensures free == old(free)[order := old(free)[order][1..]]
      ensures used == old(used)[old(free)[order][0] := order]
      ensures old(free)[order][0] !in old(used) && old(heads[order]) == Some(old(free)[order][0])
      ensures Wf(heads[..], info, free, blocks, used, {old(free)[order][0]})
      ensures usedFrames + FreeTotal(free) + Pow2(order) == capacity
    {
      hide Wf, Inv, Linked, Without, FreeTotal, Pow2;
      ghost var list, info0, heads0 := free[order], info, heads[..];
      ListHead(heads0, info, free, blocks, used, order);
      UnlinkWf(heads0, info, free, blocks, used, {}, order, 0);
      FirstNode(info, heads[order], list, order);
      TotalPop(free, order);
      var frame := heads[order].value;
      var next := info[frame].next;
      if next.frame.Some? {
        info := info[next.frame.value := info[next.frame.value].(refcount := Prev(P2Frame(None, order)))];
      }
      heads[order] := next.frame;
      assert heads[..] == heads0[order := next.frame];
      free := free[order := list[1..]];
      used := used[frame := order];
      assert {} + {frame} == {frame};
    }

    /** Halve the popped block down to order `min`, freeing the upper halves. */
    method Split(frame: nat, order: nat, min: nat)
      requires heads.Length == ORDER_COUNT == |free|
      requires min <= order < ORDER_COUNT && frame in used && used[frame] == order
      requires Wf(heads[..], info, free, blocks, used, {frame})
      requires forall k | min <= k < order :: free[k] == []
      requires usedFrames + FreeTotal(free) + Pow2(order) == capacity
      modifies this, heads
      ensures Wf(heads[..], info, free, blocks, used, {}) && |free| == ORDER_COUNT
      ensures usedFrames + FreeTotal(free) == capacity
      ensures info.Keys == old(info.Keys) && capacity == old(capacity) && withheld == old(withheld)
      ensures used == old(used)[frame := min] && usedFrames == old(usedFrames) + Pow2(min)
    {
      hide Wf, FreeTotal, Pow2;
      var k := order;
      while k > min
        invariant min <= k <= order && |free| == ORDER_COUNT
        invariant info.Keys == old(info.Keys) && capacity == old(capacity) && withheld == old(withheld)
        invariant used == old(used)[frame := k] && usedFrames == old(usedFrames)
        invariant Wf(heads[..], info, free, blocks, used, {frame})
        invariant forall j | min <= j < k :: free[j] == []
        invariant usedFrames + FreeTotal(free) + Pow2(k) == capacity
      {
        k := k - 1;
        var hi := frame + Pow2(k);
        ghost var heads0 := heads[..];
        SplitWf(heads0, info, free, blocks, used, frame, k);
        assert heads[k] == None;  // the list head about to be overwritten is empty
        TotalSplit(free, k, hi);
        info := info[hi := PageInfo(Prev(P2Frame(None, k)), P2Frame(None, k))];
        heads[k] := Some(hi);
        assert heads[..] == heads0[k := Some(hi)];
        free := free[k := [hi]];
        blocks := Halved(blocks, frame, k);
        used := used[frame := k];
      }
      usedFrames := usedFrames + Pow2(min);
      var word := PageInfo(InUse(false, 0), P2Frame(None, 0));
      SettleWf(heads[..], info, free, blocks, used, frame, word);
      info := info[frame := word];
    }

    /**
     `deallocate_p2frame`: returns the block, merging it with every free buddy.  The frame at address
     zero cannot be named, so the kernel panics (`ok` is false) exactly when the merging would have
     to probe it; in every other case the block becomes free and nothing else changes.
     */
    method Deallocate(f: nat, order: nat) returns (ok: bool)
      requires Valid() && f in Out() && Out()[f] == order
      modifies this, heads
      ensures !ok <==> MergesDownToNull(old(free), f, order)
      ensures ok ==> Valid() && Out() == old(Out()) - {f} && usedFrames == old(usedFrames) - Pow2(order)
      ensures ok ==> used == old(used) - {f}
      ensures info.Keys == old(info.Keys) && capacity == old(capacity) && withheld == old(withheld)
    {
      hide Wf, FreeTotal, FramesIn, Pow2, MergesDownToNull, Cell, Aligned;
      FramesInWithout(Out(), f);
      UsedFacts(heads[..], info, free, blocks, used, {}, f);
      Unsettle(heads[..], info, free, blocks, used, f, info[f].(refcount := Prev(P2Frame(None, 0))));
      info := info[f := info[f].(refcount := Prev(P2Frame(None, 0)))];
      var cur: nat, k: nat, probe := f, order, Merged;
      while k < MAX_ORDER && probe == Merged
        invariant order <= k <= MAX_ORDER && |free| == ORDER_COUNT
        invariant info.Keys == old(info.Keys) && capacity == old(capacity) && withheld == old(withheld)
        invariant usedFrames == old(usedFrames)
        invariant Wf(heads[..], info, free, blocks, used, {cur})
        invariant used == (old(used) - {f})[cur := k] && (cur == f || cur !in old(used))
        invariant Cell(f, k) == Cell(cur, k)
        invariant usedFrames + FreeTotal(free) + Pow2(k) == capacity + Pow2(order)
        invariant probe == Merged || (k < MAX_ORDER && Refused(free, cur, k, probe))
        decreases MAX_ORDER - k, probe == Merged
      {
        ghost var used1, free1 := used, free;
        UsedFacts(heads[..], info, free, blocks, used, {cur}, cur);
        probe := TryMerge(cur, k);
        if probe == Merged {
          MergedOwner(old(used), f, cur, k, used1);
          cur := ClearBit(cur, k);
          k := k + 1;
        }
      }
      ok := probe != NullProbe;
      StopFacts(old(heads[..]), old(info), old(free), old(blocks), old(used),
                heads[..], info, free, blocks, used, f, order, cur, k, probe);
      if ok {
        Push(cur, k);
        usedFrames := usedFrames - Pow2(order);
        assert Out() == old(Out()) - {f};
      }
    }

    /** One round of the merge loop: probe the buddy of the floating block and absorb it if free. */
    method TryMerge(cur: nat, k: nat) returns (probe: Probe)
      requires heads.Length == ORDER_COUNT == |free| && k < MAX_ORDER
      requires Wf(heads[..], info, free, blocks, used, {cur})
      requires cur in used && used[cur] == k && Aligned(cur, k)
      modifies this, heads
      ensures info.Keys == old(info.Keys) && capacity == old(capacity) && withheld == old(withheld)
      ensures usedFrames == old(usedFrames)
      ensures |free| == ORDER_COUNT
      ensures probe != Merged ==> used == old(used) && free == old(free) && Refused(free, cur, k, probe)
      ensures probe != Merged ==> Wf(heads[..], info, free, blocks, used, {cur})
      ensures probe == Merged ==>
                && ClearBit(cur, k) >= 0 && Buddy(cur, k) !in old(used)
                && Wf(heads[..], info, free, blocks, used, {ClearBit(cur, k)})
                && used == (old(used) - {cur})[ClearBit(cur, k) := k + 1]
                && FreeTotal(free) + Pow2(k) == old(FreeTotal(free))
                && Pow2(k + 1) == Pow2(k) + Pow2(k)
    {
      hide Wf, FreeTotal, Pow2, Cell, Aligned, Buddy, ClearBit;
      BuddyFacts(cur, k);
      var sib := Buddy(cur, k);
      if sib == 0 { return NullProbe; }
      ProbeFacts(heads[..], info, free, blocks, used, cur, k);
      if sib !in info { return Stuck; }
      if info[sib].refcount.InUse? { return Stuck; }
      if info[sib].next.order < k { return Stuck; }
      probe := Merged;
      assert Pow2(k + 1) == Pow2(k) + Pow2(k) by { Doubling(k); }
      Unlink(k, sib, {cur});
      MergeWf(heads[..], info, free, blocks, used, cur, k);
      blocks := Coalesced(blocks, cur, k);
      used := Coalesced(used, cur, k);
    }

    /** Take the free block `s` out of the middle of list `o`. */
    method Unlink(o: nat, s: nat, ghost floating: set<nat>)
      requires heads.Length == ORDER_COUNT == |free| && o < ORDER_COUNT
      requires Wf(heads[..], info, free, blocks, used, floating)
      requires s in free[o]
      modifies this, heads
      ensures info.Keys == old(info.Keys) && capacity == old(capacity) && withheld == old(withheld)
      ensures usedFrames == old(usedFrames)
      ensures blocks == old(blocks) && used == old(used)[s := o] && s !in old(used)
      ensures |free| == ORDER_COUNT
      ensures Wf(heads[..], info, free, blocks, used, floating + {s})
      ensures FreeTotal(free) + Pow2(o) == old(FreeTotal(free))
    {
      hide Wf, Linked, FreeTotal, Pow2, Without, Bypassed, Node;
      ghost var list, heads0 := free[o], heads[..];
      ghost var i :| 0 <= i < |list| && list[i] == s;
      UnlinkWf(heads0, info, free, blocks, used, floating, o, i);
      ListFacts(heads0, info, free, blocks, used, floating, o);
      NodeFacts(info, heads[o], list, o, i);
      TotalWithout(free, o, i);
      var prev, next := info[s].refcount.link, info[s].next;
      if prev.frame.Some? {
        info := info[prev.frame.value := info[prev.frame.value].(next := next)];
      } else {
        heads[o] := next.frame;
      }
      if next.frame.Some? {
        info := info[next.frame.value := info[next.frame.value].(refcount := Prev(prev))];
      }
      assert heads[..] == heads0[o := Head(Without(list, i))];
      free := free[o := Without(list, i)];
      used := used[s := o];
    }

    /** Put the floating block at the front of the free list of its order. */
    method Push(cur: nat, k: nat)
      requires heads.Length == ORDER_COUNT == |free| && k < ORDER_COUNT
      requires Wf(heads[..], info, free, blocks, used, {cur})
      requires cur in used && used[cur] == k
      requires k < MAX_ORDER ==> Buddy(cur, k) !in free[k]
      modifies this, heads
      ensures info.Keys == old(info.Keys) && capacity == old(capacity) && withheld == old(withheld)
      ensures usedFrames == old(usedFrames)
      ensures used == old(used) - {cur} && |free| == ORDER_COUNT
      ensures Wf(heads[..], info, free, blocks, used, {})
      ensures FreeTotal(free) == old(FreeTotal(free)) + Pow2(k)
    {
      hide Wf, FreeTotal, Pow2, Buddy;
      ghost var list, heads0, info0 := free[k], heads[..], info;
      PushWf(heads0, info, free, blocks, used, cur, k);
      ghost var info1 := Pushed(info, cur, k, list);
      TotalPush(free, k, cur);
      info := info[cur := PageInfo(Prev(P2Frame(None, k)), P2Frame(None, k))];
      var oldHead := heads[k];
      heads[k] := Some(cur);
      if oldHead.Some? {
        info := info[cur := PageInfo(Prev(P2Frame(None, k)), P2Frame(oldHead, k))];
        info := info[oldHead.value := info[oldHead.value].(refcount := Prev(P2Frame(Some(cur), k)))];
      }
      assert heads[..] == heads0[k := Some(cur)];
      assert info == info1;
      free := free[k := [cur] + list];
      used := used - {cur};
    }
  }

  /** How one merge attempt ends. */
  datatype Probe = Merged | Stuck | NullProbe

  ghost predicate Refused(free: Lists, cur: nat, k: nat, probe: Probe) {
    && k < |free|
    && (probe == NullProbe <==> Buddy(cur, k) == 0)
    && (probe == Stuck ==> Buddy(cur, k) !in free[k])
  }

  lemma UsedFacts(heads: seq<Option<nat>>, info: Infos, free: Lists, blocks: Blocks, used: Blocks,
                  floating: set<nat>, h: nat)
    requires Wf(heads, info, free, blocks, used, floating) && h in used
    ensures h in info && h in blocks && used[h] == blocks[h] <= MAX_ORDER && Aligned(h, used[h])
  {
    assert Holds(blocks, h, h);
  }

  /** Clearing the words of a used block makes it float. */
  lemma Unsettle(heads: seq<Option<nat>>, info: Infos, free: Lists, blocks: Blocks, used: Blocks,
                 h: nat, word: PageInfo)
    requires Wf(heads, info, free, blocks, used, {}) && h in used && word.refcount.Prev?
    ensures Wf(heads, info[h := word], free, blocks, used, {h})
  {
    assert Wf(heads, info, free, blocks, used, {h});
    SettleWf(heads, info, free, blocks, used, h, word);
  }

  lemma MergedOwner(used0: Blocks, f: nat, cur: nat, k: nat, used: Blocks)
    requires Aligned(cur, k) && Cell(f, k) == Cell(cur, k)
    requires used == (used0 - {f})[cur := k] && (cur == f || cur !in used0)
    requires Buddy(cur, k) !in used
    ensures ClearBit(cur, k) >= 0
    ensures (used - {cur})[ClearBit(cur, k) := k + 1] == (used0 - {f})[ClearBit(cur, k) := k + 1]
    ensures ClearBit(cur, k) == f || ClearBit(cur, k) !in used0
    ensures Cell(f, k + 1) == Cell(ClearBit(cur, k), k + 1)
  {
    BuddyFacts(cur, k);
  }

  /** What the probed word says about the probed frame. */
  lemma ProbeFacts(heads: seq<Option<nat>>, info: Infos, free: Lists, blocks: Blocks, used: Blocks,
                   cur: nat, k: nat)
    requires Wf(heads, info, free, blocks, used, {cur}) && cur in used && used[cur] == k < MAX_ORDER
    ensures |free| == ORDER_COUNT && Buddy(cur, k) >= 0
    ensures Buddy(cur, k) !in info ==> Buddy(cur, k) !in free[k]
    ensures Buddy(cur, k) in info ==>
              var word := info[Buddy(cur, k)];
              (Buddy(cur, k) in free[k] <==> word.refcount.Prev? && word.next.order >= k)
  {
    hide AllLinked, Tiles, Separate, BlocksAligned, NoFreeBuddies, ListsOk, Partition, MarkedUsed, Linked;
    UsedFacts(heads, info, free, blocks, used, {cur}, cur);
    BuddyFacts(cur, k);
    ListFacts(heads, info, free, blocks, used, {cur}, k);
    var sib := Buddy(cur, k);
    if sib in info {
      SiblingIsHead(blocks, info.Keys, cur);
      BlockWord(heads, info, free, blocks, used, {cur}, sib);
    } else if sib in free[k] {
      BlockManaged(blocks, info.Keys, sib);
    }
  }

  lemma BlockManaged(blocks: Blocks, managed: set<nat>, h: nat)
    requires Geometry(blocks, managed) && h in blocks
    ensures h in managed && blocks[h] <= MAX_ORDER
  {
    assert Holds(blocks, h, h);
  }

  ghost predicate WordTells(free: Lists, o: nat, h: nat, word: PageInfo) {
    && o < |free|
    && (word.refcount.Prev? <==> h in free[o])
    && (h in free[o] ==> word.next.order == o)
  }

  /** The words of a block head tell used from free and, when free, give the order. */
  lemma BlockWord(heads: seq<Option<nat>>, info: Infos, free: Lists, blocks: Blocks, used: Blocks,
                  floating: set<nat>, h: nat)
    requires Wf(heads, info, free, blocks, used, floating) && h in blocks && h !in floating
    ensures h in info && WordTells(free, blocks[h], h, info[h])
  {
    hide AllLinked, Tiles, Separate, BlocksAligned, NoFreeBuddies, ListsOk, Linked, Node;
    BlockManaged(blocks, info.Keys, h);
    var o := blocks[h];
    ListFacts(heads, info, free, blocks, used, floating, o);
    if h in free[o] {
      var i :| 0 <= i < |free[o]| && free[o][i] == h;
      NodeFacts(info, heads[o], free[o], o, i);
    }
  }

  /** Two floating buddies become one floating block. */
  lemma MergeWf(heads: seq<Option<nat>>, info: Infos, free: Lists, blocks: Blocks, used: Blocks, cur: nat, k: nat)
    requires cur in used && used[cur] == k < MAX_ORDER && Aligned(cur, k)
    requires Buddy(cur, k) in used && used[Buddy(cur, k)] == k
    requires Wf(heads, info, free, blocks, used, {cur} + {Buddy(cur, k)})
    ensures ClearBit(cur, k) >= 0
    ensures Wf(heads, info, free, Coalesced(blocks, cur, k), Coalesced(used, cur, k), {ClearBit(cur, k)})
  {
    BuddyFacts(cur, k);
    MergeKeepsInv(free, blocks, used, info.Keys, cur, k);
  }

  lemma Doubling(k: nat)
    ensures Pow2(k + 1) == Pow2(k) + Pow2(k)
  {
  }

  lemma NodeFacts(info: Infos, head: Option<nat>, list: seq<nat>, o: nat, i: nat)
    requires Linked(info, head, list, o) && Distinct(list) && i < |list|
    ensures list[i] in info && info[list[i]] == Node(list, o, i)
    ensures Node(list, o, i) == PageInfo(Prev(P2Frame(if i == 0 then None else Some(list[i - 1]), o)),
                                         P2Frame(if i + 1 == |list| then None else Some(list[i + 1]), o))
    ensures Bypassed(info, list, i, o) ==
              var a := if i > 0 then info[list[i - 1] := info[list[i - 1]].(next := info[list[i]].next)] else info;
              if i + 1 < |list| then a[list[i + 1] := a[list[i + 1]].(refcount := info[list[i]].refcount)] else a
    ensures i > 0 ==> list[i - 1] in info
    ensures i + 1 < |list| ==> list[i + 1] in info && (i > 0 ==> list[i + 1] != list[i - 1])
    ensures head == Some(list[0])
    ensures Head(Without(list, i)) == if i > 0 then head else Node(list, o, i).next.frame
  {
  }

  lemma TotalWithout(free: Lists, o: nat, i: nat)
    requires o < |free| && i < |free[o]|
    ensures FreeTotal(free) == FreeTotal(free[o := Without(free[o], i)]) + Pow2(o)
  {
    TotalAfter(free, o, Without(free[o], i), |free|);
  }

  lemma TotalPush(free: Lists, o: nat, h: nat)
    requires o < |free|
    ensures FreeTotal(free[o := [h] + free[o]]) == FreeTotal(free) + Pow2(o)
  {
    TotalAfter(free, o, [h] + free[o], |free|);
  }

  ghost function Pushed(info: Infos, cur: nat, k: nat, list: seq<nat>): Infos {
    var a := info[cur := PageInfo(Prev(P2Frame(None, k)), P2Frame(Head(list), k))];
    if list == [] then a else SetPrev(a, list[0], Prev(P2Frame(Some(cur), k)))
  }

  lemma PushedLinked(info: Infos, head: Option<nat>, list: seq<nat>, cur: nat, o: nat)
    requires Linked(info, head, list, o) && Distinct(list) && cur !in list
    ensures Linked(Pushed(info, cur, o, list), Some(cur), [cur] + list, o)
    ensures forall h | h in info && h != cur && h !in list ::
              h in Pushed(info, cur, o, list) && Pushed(info, cur, o, list)[h] == info[h]
  {
    var after, all := Pushed(info, cur, o, list), [cur] + list;
    forall i | 0 <= i < |all| ensures all[i] in after && after[all[i]] == Node(all, o, i) {
      if i > 0 {
        assert info[list[i - 1]] == Node(list, o, i - 1);
        assert all[i] == list[i - 1];
      }
    }
    hide Node;
  }

  lemma PushWf(heads: seq<Option<nat>>, info: Infos, free: Lists, blocks: Blocks, used: Blocks, cur: nat, k: nat)
    requires Wf(heads, info, free, blocks, used, {cur}) && cur in used && used[cur] == k < ORDER_COUNT
    requires |free| == ORDER_COUNT && (k < MAX_ORDER ==> Buddy(cur, k) !in free[k])
    ensures |heads| == ORDER_COUNT && heads[k] == Head(free[k]) && cur in info && cur !in free[k]
    ensures free[k] != [] ==> free[k][0] in info
    ensures Wf(heads[k := Some(cur)], Pushed(info, cur, k, free[k]), free[k := [cur] + free[k]], blocks,
               used - {cur}, {})
    ensures Pushed(info, cur, k, free[k]).Keys == info.Keys
  {
    hide AllLinked, Distinct, Tiles, Separate, BlocksAligned, NoFreeBuddies, Partition, ListsOk, MarkedUsed, Node;
    UsedFacts(heads, info, free, blocks, used, {cur}, cur);
    var list := free[k];
    ListFacts(heads, info, free, blocks, used, {cur}, k);
    PushedLinked(info, heads[k], list, cur, k);
    var info' := Pushed(info, cur, k, list);
    assert info'.Keys == info.Keys;
    AllLinkedAfter(info, heads, free, blocks, info', Some(cur), [cur] + list, k);
    PushKeepsInv(free, blocks, used, info.Keys, cur);
    MarkedBut(info, info', used, list, cur);
  }

  lemma MarkedBut(info: Infos, info': Infos, used: Blocks, list: seq<nat>, cur: nat)
    requires MarkedUsed(info, used, {cur})
    requires forall x | x in info && x != cur && x !in list :: x in info' && info'[x] == info[x]
    requires forall x | x in list :: x !in used
    ensures MarkedUsed(info', used - {cur}, {})
  {
  }

  /** When the merging stops, it stopped at frame 0 or it was never going to get there. */
  lemma StopFacts(heads0: seq<Option<nat>>, info0: Infos, free0: Lists, blocks0: Blocks, used0: Blocks,
                  heads: seq<Option<nat>>, info: Infos, free: Lists, blocks: Blocks, used: Blocks,
                  f: nat, order: nat, cur: nat, k: nat, probe: Probe)
    requires Wf(heads0, info0, free0, blocks0, used0, {}) && Wf(heads, info, free, blocks, used, {cur})
    requires info.Keys == info0.Keys && f in used0 && used0[f] == order <= k <= MAX_ORDER
    requires used == (used0 - {f})[cur := k] && (cur == f || cur !in used0)
    requires Cell(f, k) == Cell(cur, k)
    requires if probe == Merged then k == MAX_ORDER else k < MAX_ORDER && Refused(free, cur, k, probe)
    ensures probe == NullProbe <==> MergesDownToNull(free0, f, order)
  {
    hide Floating, MergesDownToNull, AllLinked, Tiles, Separate, NoFreeBuddies, ListsOk, MarkedUsed, Cell, Aligned;
    UsedFacts(heads0, info0, free0, blocks0, used0, {}, f);
    UsedFacts(heads, info, free, blocks, used, {cur}, cur);
    FloatingFromUsed(free0, blocks0, used0, free, blocks, used, info.Keys, f, order, cur, k);
    if probe == NullProbe {
      FloatingAtNull(free0, f, order, free, cur, k);
    } else {
      FloatingStuck(free0, f, order, free, blocks, used, info.Keys, cur, k);
    }
  }

  lemma ListHead(heads: seq<Option<nat>>, info: Infos, free: Lists, blocks: Blocks, used: Blocks, o: nat)
    requires Wf(heads, info, free, blocks, used, {}) && o < ORDER_COUNT
    ensures |heads| == |free| == ORDER_COUNT
    ensures heads[o] == Head(free[o])
    ensures free[o] != [] ==> free[o][0] in info && free[o][0] !in used
  {
    ListFacts(heads, info, free, blocks, used, {}, o);
    if free[o] != [] { assert free[o][0] in free[o]; }
  }

  lemma FirstNode(info: Infos, head: Option<nat>, list: seq<nat>, o: nat)
    requires Linked(info, head, list, o) && list != []
    ensures head == Some(list[0]) && list[0] in info && Without(list, 0) == list[1..]
    ensures info[list[0]].next.frame == Head(list[1..])
    ensures |list| > 1 ==> list[1] in info
    ensures Bypassed(info, list, 0, o) ==
              if |list| > 1 then info[list[1] := info[list[1]].(refcount := Prev(P2Frame(None, o)))] else info
    ensures Bypassed(info, list, 0, o).Keys == info.Keys
  {
    assert info[list[0]] == Node(list, o, 0);
  }

  lemma TotalPop(free: Lists, o: nat)
    requires o < |free| && free[o] != []
    ensures FreeTotal(free) == FreeTotal(free[o := free[o][1..]]) + Pow2(o)
  {
    TotalAfter(free, o, free[o][1..], |free|);
  }

  lemma TotalSplit(free: Lists, o: nat, hi: nat)
    requires o < |free| && free[o] == []
    ensures FreeTotal(free[o := [hi]]) == FreeTotal(free) + Pow2(o)
    ensures Pow2(o + 1) == Pow2(o) + Pow2(o)
  {
    TotalAfter(free, o, [hi], |free|);
    assert Times(1, o) == Times(0, o) + Pow2(o);
  }

  /** With every list from order `min` up empty, no aligned run of `2^min` frames is free. */
  lemma NoRun(heads: seq<Option<nat>>, info: Infos, free: Lists, blocks: Blocks, used: Blocks, min: nat)
    requires Wf(heads, info, free, blocks, used, {})
    requires forall k | min <= k < ORDER_COUNT :: free[k] == []
    ensures min <= MAX_ORDER ==> forall h: nat :: !FreeRun(free, h, min)
  {
    if min <= MAX_ORDER {
      forall h: nat ensures !FreeRun(free, h, min) {
        if FreeRun(free, h, min) {
          var o, b := FreeRunInOneBlock(free, blocks, used, info.Keys, h, min);
        }
      }
    }
  }

  lemma WasFree(heads: seq<Option<nat>>, info: Infos, free: Lists, blocks: Blocks, used: Blocks,
                heads': seq<Option<nat>>, info': Infos, free': Lists, blocks': Blocks, used': Blocks,
                h: nat, k: nat)
    requires Wf(heads, info, free, blocks, used, {}) && Wf(heads', info', free', blocks', used', {})
    requires info'.Keys == info.Keys && h !in used && used' == used[h := k]
    ensures FreeRun(free, h, k)
  {
    NewBlockWasFree(free, blocks, used, free', blocks', used', info.Keys, h, k);
  }

  // Boot.

  lemma NoFrames()
    ensures FramesIn(map[]) == 0
  {
  }

  /** The zeroed words of every frame, marked used below the bump allocator's offset. */
  method FrameWords(sections: seq<Span>, absOff: nat) returns (info: Infos)
    ensures forall f: nat :: f in info <==> InSome(sections, f)
    ensures forall f | f in info :: info[f].refcount.InUse? <==> f < absOff
  {
    info := map[];
    for k := 0 to |sections|
      invariant forall f: nat :: f in info <==> InSome(sections[..k], f)
      invariant forall f | f in info :: info[f].refcount.InUse? <==> f < absOff
    {
      var s := sections[k];
      info := info + map f: nat | s.base <= f < s.End() && s.Has(f) ::
                PageInfo(if f < absOff then InUse(false, 0) else Prev(P2Frame(None, 0)), P2Frame(None, 0));
      assert sections[..k + 1] == sections[..k] + [s];
      AppendHas(sections[..k], s);
    }
    assert sections[..|sections|] == sections;
  }

  ghost function TileFrames(h: nat, o: nat): set<nat> {
    set f: nat | h <= f < h + Pow2(o) && Tile(h, o).Has(f)
  }

  function Tail(list: seq<nat>): Option<nat> {
    if list == [] then None else Some(list[|list| - 1])
  }

  /** The lists under construction: `managed` holds the frames of the blocks appended so far. */
  ghost predicate BootWf(heads: seq<Option<nat>>, last: seq<Option<nat>>, info: Infos, free: Lists, blocks: Blocks,
                         used: Blocks, managed: set<nat>, absOff: nat)
  {
    && 0 !in info
    && Inv(free, blocks, used, managed)
    && AllLinked(info, heads, free)
    && BootMarks(last, info, free, blocks, used, managed, absOff)
  }

  ghost predicate BootMarks(last: seq<Option<nat>>, info: Infos, free: Lists, blocks: Blocks,
                            used: Blocks, managed: set<nat>, absOff: nat)
  {
    && managed <= info.Keys
    && |last| == |free| == ORDER_COUNT && (forall o | 0 <= o < ORDER_COUNT :: last[o] == Tail(free[o]))
    && (forall h :: h in used <==> h in blocks && h < absOff)
    && (forall f | f in info && f < absOff :: info[f].refcount.InUse?)
    && (forall h | h in blocks :: h in info)
  }

  const NO_FRAMES: seq<Option<nat>> := [None, None, None, None, None, None, None, None, None, None, None]

  lemma BootStart(heads: seq<Option<nat>>, free: Lists, info: Infos, absOff: nat)
    requires |heads| == |free| == ORDER_COUNT && 0 !in info
    requires forall o | 0 <= o < ORDER_COUNT :: heads[o] == None && free[o] == []
    requires forall f | f in info :: info[f].refcount.InUse? <==> f < absOff
    ensures BootWf(heads, NO_FRAMES, info, free, map[], map[], {}, absOff)
  {
  }

  lemma BootEnd(heads: seq<Option<nat>>, last: seq<Option<nat>>, info: Infos, free: Lists, blocks: Blocks,
                used: Blocks, managed: set<nat>, absOff: nat)
    requires BootWf(heads, last, info, free, blocks, used, managed, absOff) && managed == info.Keys
    ensures Wf(heads, info, free, blocks, used, {})
    ensures forall h :: h in used.Keys <==> h in blocks && h < absOff
  {
    hide Inv, AllLinked;
  }

  ghost function Appended(info: Infos, h: nat, o: nat, l: Option<nat>): Infos {
    var a := if l.Some? then SetNext(info, l.value, P2Frame(Some(h), o)) else info;
    a[h := PageInfo(Prev(P2Frame(l, o)), P2Frame(None, o))]
  }

  lemma AppendedWords(info: Infos, info': Infos, h: nat, o: nat, l: Option<nat>)
    requires h in info && (l.Some? ==> l.value in info && l.value != h)
    requires info' == var a := if l.Some? then info[l.value := info[l.value].(next := P2Frame(Some(h), o))] else info;
                      a[h := PageInfo(Prev(P2Frame(l, o)), P2Frame(None, o))]
    ensures info' == Appended(info, h, o, l) && info'.Keys == info.Keys
  {
  }

  lemma AppendedLinked(info: Infos, head: Option<nat>, list: seq<nat>, h: nat, o: nat)
    requires Linked(info, head, list, o) && Distinct(list) && h !in list
    ensures Linked(Appended(info, h, o, Tail(list)), if list == [] then Some(h) else head, list + [h], o)
    ensures forall x | x in info && x != h && x !in list ::
              x in Appended(info, h, o, Tail(list)) && Appended(info, h, o, Tail(list))[x] == info[x]
    ensures forall x | x in info && x != h ::
              x in Appended(info, h, o, Tail(list)) && Appended(info, h, o, Tail(list))[x].refcount == info[x].refcount
    ensures list != [] ==> Tail(list).value in info && Tail(list).value != h
    ensures h in info ==> Appended(info, h, o, Tail(list)).Keys == info.Keys
  {
    var after, all := Appended(info, h, o, Tail(list)), list + [h];
    forall i | 0 <= i < |all| ensures all[i] in after && after[all[i]] == Node(all, o, i) {
      if i < |list| {
        assert info[list[i]] == Node(list, o, i);
        assert all[i] == list[i];
      }
    }
    hide Node;
  }

  /** A new free block appended to its list. */
  lemma AppendFreeWf(heads: seq<Option<nat>>, last: seq<Option<nat>>, info: Infos, free: Lists, blocks: Blocks,
                     used: Blocks, managed: set<nat>, absOff: nat, h: nat, o: nat, frames: set<nat>)
    requires BootWf(heads, last, info, free, blocks, used, managed, absOff)
    requires NewBlock(managed, info.Keys, h, o, frames) && h >= absOff
    ensures |heads| == |last| == |free| == ORDER_COUNT && last[o] == Tail(free[o])
    ensures heads[o].None? <==> last[o].None?
    ensures last[o].Some? ==> last[o].value in info && last[o].value != h
    ensures BootWf(if last[o].Some? then heads else heads[o := Some(h)], last[o := Some(h)],
                   Appended(info, h, o, last[o]), free[o := free[o] + [h]], blocks[h := o], used,
                   managed + frames, absOff)
  {
    hide Inv, Distinct, Linked, Appended, AllLinked, BootMarks, NewBlock, ListsOk;
    NewBlockFacts(managed, info.Keys, h, o, frames);
    BootList(heads, last, info, free, blocks, used, managed, absOff, o);
    var list := free[o];
    GrowFree(free, blocks, used, managed, h, o, frames);
    NotListed(free, blocks, used, managed, h, o, frames);
    AppendedLinked(info, heads[o], list, h, o);
    var info' := Appended(info, h, o, last[o]);
    AllLinkedAfter(info, heads, free, blocks, info', if list == [] then Some(h) else heads[o], list + [h], o);
    assert last[o].Some? ==> heads[o := heads[o]] == heads;
    AppendMarks(last, info, info', free, blocks, used, managed, absOff, h, o, frames);
  }

  lemma AppendMarks(last: seq<Option<nat>>, info: Infos, info': Infos, free: Lists, blocks: Blocks,
                    used: Blocks, managed: set<nat>, absOff: nat, h: nat, o: nat, frames: set<nat>)
    requires BootMarks(last, info, free, blocks, used, managed, absOff)
    requires o < ORDER_COUNT && h >= absOff && frames <= info.Keys == info'.Keys && h in info && h !in blocks
    requires forall x | x in info && x != h :: info'[x].refcount == info[x].refcount
    ensures BootMarks(last[o := Some(h)], info', free[o := free[o] + [h]], blocks[h := o], used,
                      managed + frames, absOff)
  {
  }

  /** A new block withheld. */
  lemma AppendUsedWf(heads: seq<Option<nat>>, last: seq<Option<nat>>, info: Infos, free: Lists, blocks: Blocks,
                     used: Blocks, managed: set<nat>, absOff: nat, h: nat, o: nat, frames: set<nat>)
    requires BootWf(heads, last, info, free, blocks, used, managed, absOff)
    requires NewBlock(managed, info.Keys, h, o, frames) && h < absOff
    ensures h in info
    ensures BootWf(heads, last, info[h := info[h].(next := P2Frame(None, o))], free, blocks[h := o], used[h := o],
                   managed + frames, absOff)
  {
    hide Inv, Linked, NoFreeBuddies;
    GrowUsed(free, blocks, used, managed, h, o, frames);
    var info' := info[h := info[h].(next := P2Frame(None, o))];
    forall p | 0 <= p < ORDER_COUNT ensures Linked(info', heads[p], free[p], p) {
      NotListed(free, blocks, used, managed, h, p, frames);
      BootList(heads, last, info, free, blocks, used, managed, absOff, p);
      KeepLinked(info, info', heads[p], free[p], p);
    }
  }

  /** A block of managed-to-be frames, none of them managed yet, whose buddy reaches outside. */
  ghost predicate NewBlock(managed: set<nat>, all: set<nat>, h: nat, o: nat, frames: set<nat>) {
    && o <= MAX_ORDER && Aligned(h, o) && h in frames && frames <= all && managed !! frames
    && (forall f: nat :: f in frames <==> Cell(f, o) == Cell(h, o))
    && Buddy(h, o) >= 0
    && (o < MAX_ORDER ==> exists g: nat :: g !in managed && Cell(g, o) == Cell(Buddy(h, o), o))
  }

  lemma NewBlockFacts(managed: set<nat>, all: set<nat>, h: nat, o: nat, frames: set<nat>)
    requires NewBlock(managed, all, h, o, frames)
    ensures o <= MAX_ORDER && Aligned(h, o) && h in frames && frames <= all && managed !! frames
    ensures forall f: nat :: f in frames <==> Cell(f, o) == Cell(h, o)
    ensures Buddy(h, o) >= 0
    ensures o < MAX_ORDER ==> exists g: nat :: g !in managed && Cell(g, o) == Cell(Buddy(h, o), o)
  {
  }

  lemma BootList(heads: seq<Option<nat>>, last: seq<Option<nat>>, info: Infos, free: Lists, blocks: Blocks,
                 used: Blocks, managed: set<nat>, absOff: nat, o: nat)
    requires BootWf(heads, last, info, free, blocks, used, managed, absOff) && o < ORDER_COUNT
    ensures |heads| == |last| == |free| == ORDER_COUNT && last[o] == Tail(free[o])
    ensures Linked(info, heads[o], free[o], o) && Distinct(free[o]) && heads[o] == Head(free[o])
    ensures forall x | x in free[o] :: x in info && x in blocks && blocks[x] == o
    ensures ListsOk(free, blocks)
  {
  }

  lemma NotListed(free: Lists, blocks: Blocks, used: Blocks, managed: set<nat>, h: nat, o: nat, frames: set<nat>)
    requires Inv(free, blocks, used, managed) && h in frames && managed !! frames && o < ORDER_COUNT
    ensures |free| == ORDER_COUNT && h !in free[o] && h !in blocks
  {
    assert !Holds(blocks, h, h);
    if h in free[o] { InList(free, blocks, o, h); }
  }

  lemma NextTile(tiles: seq<Tile>, k: nat, areas: seq<Span>, managed: set<nat>, all: set<nat>)
    requires k < |tiles| && TilesDisjoint(tiles) && FencedOff(tiles[k], areas)
    requires forall f: nat :: f in managed <==> InTiles(tiles[..k], f)
    requires forall f: nat :: f in all <==> InSome(areas, f)
    requires forall f: nat :: InTiles(tiles, f) <==> InSome(areas, f)
    ensures tiles[k].order < ORDER_COUNT
    ensures NewBlock(managed, all, tiles[k].head, tiles[k].order, TileFrames(tiles[k].head, tiles[k].order))
    ensures forall f: nat :: InTiles(tiles[..k + 1], f) <==>
                             f in managed || f in TileFrames(tiles[k].head, tiles[k].order)
  {
    var h, o := tiles[k].head, tiles[k].order;
    var frames := TileFrames(h, o);
    hide Aligned, Cell, Buddy, Pow2;
    forall f: nat ensures f in frames <==> Cell(f, o) == Cell(h, o) { InBlock(h, o, f); }
    assert frames <= all;
    assert managed <= all;
    assert managed !! frames;
    assert tiles[..k + 1] == tiles[..k] + [tiles[k]];
    forall f: nat ensures InTiles(tiles[..k + 1], f) <==> f in managed || f in frames {
      if i :| 0 <= i < k && tiles[..k][i].Has(f) { assert tiles[..k + 1][i].Has(f); }
      if tiles[k].Has(f) { assert tiles[..k + 1][k].Has(f); }
    }
    assert o < MAX_ORDER ==> exists g: nat :: g !in managed && Cell(g, o) == Cell(Buddy(h, o), o);
  }

  // The panic, reached.

  /** With nothing in use every managed frame is free. */
  lemma AllFree(heads: seq<Option<nat>>, info: Infos, free: Lists, blocks: Blocks, f: nat)
    requires Wf(heads, info, free, blocks, map[], {})
    ensures FreeFrame(free, f) <==> f in info
  {
    FreeIsNotUsed(free, blocks, map[], info.Keys, f);
    assert forall g :: !Holds(map[], g, f);
    hide AllLinked, MarkedUsed, FreeFrame;
  }

  /** The only free run of order `m` in `[2^m, 2^(m+1))` is all of it. */
  lemma LowestRun(heads: seq<Option<nat>>, info: Infos, free: Lists, blocks: Blocks, m: nat)
    requires Wf(heads, info, free, blocks, map[], {})
    requires forall f: nat :: f in info <==> Pow2(m) <= f < Pow2(m) + Pow2(m)
    ensures FreeRun(free, Pow2(m), m) && forall h: nat :: FreeRun(free, h, m) ==> h == Pow2(m)
  {
    hide Wf, FreeFrame, Cell, Aligned, Pow2;
    LeadingBit(0, m);
    forall f: nat { AllFree(heads, info, free, blocks, f); }
    forall h: nat | FreeRun(free, h, m) ensures h == Pow2(m) {
      Positive(m);
      assert FreeFrame(free, h) && FreeFrame(free, h + Pow2(m) - 1);
    }
  }

  lemma Positive(m: nat)
    ensures Pow2(m) > 0 && Pow2(m + 1) == Pow2(m) + Pow2(m)
  {
  }

  /**
   A run that panics: the only free memory is `[2^m, 2^(m+1))`; it is allocated whole and freed. On x86, where
   memory is used from frame 256 on and the bump allocator takes the first frames, the least case is `m == 9`.
   */
  method LowestBlockPanics(m: nat) returns (ok: bool)
    requires m < MAX_ORDER
    ensures !ok
  {
    hide Wf, FreeRun, FreeTotal, FramesIn, MergesDownToNull, Pow2, InSome;
    Positive(m);
    var areas := [Span(Pow2(m), Pow2(m))];
    forall f: nat ensures InSome(areas, f) <==> Pow2(m) <= f < Pow2(m) + Pow2(m) { OneSpan(areas[0], f); }
    var frames := new FreeList(areas, 0);
    assert frames.withheld == {} && frames.used - {} == frames.used;
    LowestRun(frames.heads[..], frames.info, frames.free, frames.blocks, m);
    var r := frames.Allocate(m);
    assert r == Some(Pow2(m));
    NullMerge(frames.free, m);
    ok := frames.Deallocate(Pow2(m), m);
  }

  lemma OneSpan(s: Span, f: nat)
    ensures InSome([s], f) <==> s.Has(f)
  {
    if s.Has(f) { assert [s][0].Has(f); }
  }

  lemma NullMerge(free: Lists, m: nat)
    requires m < MAX_ORDER
    ensures MergesDownToNull(free, Pow2(m), m)
  {
    Positive(m);
    assert NullMergeAt(free, Pow2(m), m, m);
  }
}
