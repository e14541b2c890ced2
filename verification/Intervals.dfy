/** Sets of numbers kept as maximal intervals, each start mapped to its length (src/context/memory.rs, `holes`). */
module Intervals {
  import opened Wrappers

  type Spans = map<nat, nat>

  predicate In(m: Spans, b: nat, a: nat) {
    b in m && b <= a < b + m[b]
  }

  ghost predicate Has(m: Spans, a: nat) {
    exists b :: In(m, b, a)
  }

  /** The intervals are not empty and never touch, so each is as long as it can be. */
  ghost predicate Maximal(m: Spans) {
    && (forall b | b in m :: m[b] > 0)
    && (forall b, c | b in m && c in m && b < c :: b + m[b] < c)
  }

  lemma EndIsOut(m: Spans, b: nat)
    requires Maximal(m) && b in m
    ensures !Has(m, b + m[b])
  {
  }

  /** A run that is wholly in the set lies in one interval. */
  lemma RunInOne(m: Spans, lo: nat, hi: nat) returns (b: nat)
    requires Maximal(m) && lo < hi && forall a | lo <= a < hi :: Has(m, a)
    ensures b in m && b <= lo && hi <= b + m[b]
  {
    assert Has(m, lo);
    b :| In(m, b, lo);
    EndIsOut(m, b);
  }

  // Taking a run out of the set, and putting one back.

  /** `reserve`: `prev` is the last interval starting below `start`. */
  function Reserved(m: Spans, prev: Option<nat>, start: nat, size: nat): Spans {
    var m1 :=
      if prev.Some? && prev.value in m && prev.value < start then
        var end := prev.value + m[prev.value];
        var shrunk := if end > start then m[prev.value := start - prev.value] else m;
        if end > start + size then shrunk[start + size := end - (start + size)] else shrunk
      else m;
    if start in m1 && m1[start] >= size then
      var rest := m1[start] - size;
      if rest > 0 then (m1 - {start})[start + size := rest] else m1 - {start}
    else m1
  }

  /** `unreserve`: `prev` is the last interval starting below `start`. */
  function Unreserved(m: Spans, prev: Option<nat>, start: nat, size: nat): Spans {
    var after := if start + size in m then m[start + size] else 0;
    var m1 := m - {start + size};
    if prev.Some? && prev.value in m1 && prev.value < start && prev.value + m1[prev.value] == start then
      m1[prev.value := start + size - prev.value + after]
    else m1[start := size + after]
  }

  ghost predicate IsPrev(m: Spans, prev: Option<nat>, start: nat) {
    && (prev.None? ==> forall k | k in m :: k >= start)
    && (prev.Some? ==> prev.value in m && prev.value < start && forall k | k in m && k < start :: k <= prev.value)
  }

  /** Exactly the run leaves the set, which stays in maximal form. */
  lemma ReservedIs(m: Spans, prev: Option<nat>, start: nat, size: nat)
    requires Maximal(m) && IsPrev(m, prev, start) && size > 0
    requires forall a | start <= a < start + size :: Has(m, a)
    ensures Maximal(Reserved(m, prev, start, size))
    ensures forall a: nat :: Has(Reserved(m, prev, start, size), a) <==> Has(m, a) && !(start <= a < start + size)
  {
    var b := RunInOne(m, start, start + size);
    var r := Reserved(m, prev, start, size);
    var end := b + m[b];
    if b == start {
      assert prev.Some? ==> prev.value + m[prev.value] < start;
      assert r == if end > start + size then (m - {start})[start + size := end - (start + size)] else m - {start};
    } else {
      assert prev == Some(b);
      assert start !in m;
      assert r == if end > start + size then m[b := start - b][start + size := end - (start + size)]
                  else m[b := start - b];
    }
    assert forall c | c in r :: c == b || c == start + size || (c in m && r[c] == m[c] && (c < b || c > end));
    hide Reserved;
    ReplacedBy(m, r, b, start, start + size);
  }

  /** `r` is `m` with interval `b` cut down to what lies outside `[lo, hi)`. */
  lemma ReplacedBy(m: Spans, r: Spans, b: nat, lo: nat, hi: nat)
    requires Maximal(m) && b in m && b <= lo < hi <= b + m[b]
    requires forall c :: c in r <==> (c in m && c != b) || (c == b && b < lo) || (c == hi && hi < b + m[b])
    requires forall c | c in r && c != b && c != hi :: r[c] == m[c]
    requires b < lo ==> r[b] == lo - b
    requires hi < b + m[b] ==> r[hi] == b + m[b] - hi
    ensures Maximal(r)
    ensures forall a: nat :: Has(r, a) <==> Has(m, a) && !(lo <= a < hi)
  {
    forall a: nat ensures Has(r, a) <==> Has(m, a) && !(lo <= a < hi) {
      if Has(r, a) {
        var c :| In(r, c, a);
        if c == b || c == hi { assert In(m, b, a); } else { assert In(m, c, a); }
      }
      if Has(m, a) && !(lo <= a < hi) {
        var c :| In(m, c, a);
        if c != b { assert In(r, c, a); } else if a < lo { assert In(r, b, a); } else { assert In(r, hi, a); }
      }
    }
  }

  lemma Outside(m: Spans, c: nat, start: nat, end: nat)
    requires Maximal(m) && c in m && start < end && forall a | start <= a < end :: !Has(m, a)
    ensures c + m[c] <= start || c >= end
  {
    var a := if c < start then start else c;
    if a < end { assert !Has(m, a) && !In(m, c, a); }
  }

  /** Exactly the run joins the set, which stays in maximal form. */
  lemma UnreservedIs(m: Spans, prev: Option<nat>, start: nat, size: nat)
    requires Maximal(m) && IsPrev(m - {start + size}, prev, start) && size > 0
    requires forall a | start <= a < start + size :: !Has(m, a)
    ensures Maximal(Unreserved(m, prev, start, size))
    ensures forall a: nat :: Has(Unreserved(m, prev, start, size), a) <==> Has(m, a) || start <= a < start + size
  {
    var r := Unreserved(m, prev, start, size);
    var end := start + size;
    forall c | c in m ensures c + m[c] <= start || c >= end { Outside(m, c, start, end); }
    var lo := JoinStart(m, prev, start);
    var hi := end + if end in m then m[end] else 0;
    UnreservedShape(m, prev, start, size);
    hide Has, Unreserved;
    assert forall c | c in m && c != lo && c != end :: c + m[c] < lo || c > hi;
    JoinedBy(m, r, lo, start, end, hi);
  }

  function JoinStart(m: Spans, prev: Option<nat>, start: nat): nat {
    if prev.Some? && prev.value in m && prev.value + m[prev.value] == start then prev.value else start
  }

  lemma UnreservedShape(m: Spans, prev: Option<nat>, start: nat, size: nat)
    requires IsPrev(m - {start + size}, prev, start)
    ensures var r, lo, end := Unreserved(m, prev, start, size), JoinStart(m, prev, start), start + size;
            && lo in r && r[lo] == end + (if end in m then m[end] else 0) - lo
            && (forall c :: c in r <==> c == lo || (c in m && c != end))
            && (forall c | c in r && c != lo :: r[c] == m[c])
  {
  }

  lemma JoinedBy(m: Spans, r: Spans, lo: nat, start: nat, end: nat, hi: nat)
    requires Maximal(m) && lo <= start < end <= hi
    requires lo < start ==> lo in m && lo + m[lo] == start
    requires lo == start ==> start !in m
    requires hi == end + if end in m then m[end] else 0
    requires lo in r && r[lo] == hi - lo
    requires forall c :: c in r <==> c == lo || (c in m && c != end)
    requires forall c | c in r && c != lo :: r[c] == m[c]
    requires forall c | c in m && c != lo && c != end :: c + m[c] < lo || c > hi
    ensures Maximal(r)
    ensures forall a: nat :: Has(r, a) <==> Has(m, a) || start <= a < end
  {
    forall a: nat ensures Has(r, a) <==> Has(m, a) || start <= a < end {
      if Has(r, a) {
        var c :| In(r, c, a);
        if c != lo { assert In(m, c, a); }
        else if a < start { assert In(m, lo, a); }
        else if a >= end { assert In(m, end, a); }
      }
      if Has(m, a) {
        var c :| In(m, c, a);
        if c == end || c == lo { assert In(r, lo, a); } else { assert In(r, c, a); }
      }
      if start <= a < end { assert In(r, lo, a); }
    }
  }
}
