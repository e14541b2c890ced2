/**
 Power-of-two blocks of frames.

 A block of order `o` is a run of `2^o` frames whose first frame is a multiple of `2^o`.
 `Cell(f, o)` is the index of the order-`o` block that frame `f` lies in, obtained by halving;
 two blocks overlap exactly when their cells at the larger order agree.
 */
module Dyadic {

  function Pow2(o: nat): (r: nat)
    ensures r >= 1
  {
    if o == 0 then 1 else 2 * Pow2(o - 1)
  }

  /** The frame number shifted right by `o` bits. */
  function Cell(f: nat, o: nat): nat {
    if o == 0 then f else Cell(f, o - 1) / 2
  }

  /** The low `o` bits of the frame number are zero. */
  predicate Aligned(h: nat, o: nat) {
    o == 0 || (Aligned(h, o - 1) && Cell(h, o - 1) % 2 == 0)
  }

  /** The frame number with bit `o` flipped (the code's XOR). */
  function Buddy(h: nat, o: nat): int {
    if Cell(h, o) % 2 == 0 then h + Pow2(o) else h - Pow2(o)
  }

  /** The frame number with bit `o` cleared. */
  function ClearBit(h: nat, o: nat): int {
    if Cell(h, o) % 2 == 0 then h else h - Pow2(o)
  }

  /** Alignment is divisibility by the power of two. */
  lemma {:induction false} AlignedIsMultiple(h: nat, o: nat)
    ensures Aligned(h, o) <==> h == Cell(h, o) * Pow2(o)
    ensures Cell(h, o) * Pow2(o) <= h
  {
    if o > 0 {
      AlignedIsMultiple(h, o - 1);
      var c := Cell(h, o - 1);
      MulDouble(c / 2, Pow2(o - 1));
      assert c == if c % 2 == 0 then 2 * (c / 2) else 2 * (c / 2) + 1;
    }
  }

  lemma MulDouble(d: nat, p: nat)
    ensures d * (2 * p) == 2 * (d * p)
    ensures (2 * d) * p == 2 * (d * p) && (2 * d + 1) * p == 2 * (d * p) + p
  {
  }

  lemma {:induction false} NextCell(h: nat, o: nat)
    requires Aligned(h, o)
    ensures Aligned(h + Pow2(o), o) && Cell(h + Pow2(o), o) == Cell(h, o) + 1
    decreases o
  {
    if o > 0 {
      NextCell(h, o - 1);
      NextCell(h + Pow2(o - 1), o - 1);
    }
  }

  lemma {:induction false} PrevCell(h: nat, o: nat)
    requires Aligned(h, o) && Cell(h, o) >= 1
    ensures h >= Pow2(o) && Aligned(h - Pow2(o), o) && Cell(h - Pow2(o), o) == Cell(h, o) - 1
    decreases o
  {
    if o > 0 {
      PrevCell(h, o - 1);
      PrevCell(h - Pow2(o - 1), o - 1);
    }
  }

  /** A frame lies in an aligned block exactly when the cells agree. */
  lemma {:induction false} InBlock(h: nat, o: nat, f: nat)
    requires Aligned(h, o)
    ensures h <= f < h + Pow2(o) <==> Cell(f, o) == Cell(h, o)
    decreases o
  {
    if o > 0 {
      NextCell(h, o - 1);
      InBlock(h, o - 1, f);
      InBlock(h + Pow2(o - 1), o - 1, f);
    }
  }

  /** Cells at a larger order are determined by cells at a smaller one. */
  lemma {:induction false} CellCoarser(f: nat, g: nat, o: nat, k: nat)
    requires o <= k && Cell(f, o) == Cell(g, o)
    ensures Cell(f, k) == Cell(g, k)
  {
    if o < k { CellCoarser(f, g, o, k - 1); }
  }

  /** A block head is aligned to every smaller order. */
  lemma {:induction false} AlignedFiner(h: nat, o: nat, k: nat)
    requires o <= k && Aligned(h, k)
    ensures Aligned(h, o)
  {
    if o < k { AlignedFiner(h, o, k - 1); }
  }

  /** Two heads aligned to the same order with the same cell are the same frame. */
  lemma {:induction false} AlignedSame(g: nat, h: nat, o: nat)
    requires Aligned(g, o) && Aligned(h, o) && Cell(g, o) == Cell(h, o)
    ensures g == h
  {
    if o > 0 { AlignedSame(g, h, o - 1); }
  }

  /** Frame 0 heads cell 0. */
  lemma {:induction false} ZeroCell(o: nat)
    ensures Aligned(0, o) && Cell(0, o) == 0
  {
    if o > 0 { ZeroCell(o - 1); }
  }

  /** The buddy is an aligned block of the same order, sharing the parent and nothing else. */
  lemma BuddyFacts(h: nat, o: nat)
    requires Aligned(h, o)
    ensures Buddy(h, o) >= 0 && ClearBit(h, o) >= 0
    ensures Aligned(Buddy(h, o), o)
    ensures Cell(Buddy(h, o), o) != Cell(h, o)
    ensures Cell(Buddy(h, o), o + 1) == Cell(h, o + 1) == Cell(ClearBit(h, o), o + 1)
    ensures Aligned(ClearBit(h, o), o + 1)
    ensures Buddy(Buddy(h, o), o) == h
    ensures ClearBit(h, o) == if h < Buddy(h, o) then h else Buddy(h, o)
  {
    if Cell(h, o) % 2 == 0 { NextCell(h, o); } else { PrevCell(h, o); }
  }

  /** The parent block is the block and its buddy, nothing more. */
  lemma CellIsHalf(h: nat, o: nat, f: nat)
    requires Aligned(h, o) && Cell(f, o + 1) == Cell(h, o + 1)
    ensures Buddy(h, o) >= 0
    ensures Cell(f, o) == Cell(h, o) || Cell(f, o) == Cell(Buddy(h, o), o)
  {
    BuddyFacts(h, o);
  }
}
