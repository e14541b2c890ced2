/** The range queries of an ordered map that the kernel uses. */
module OrderedMap {
  import opened Wrappers

  /** `range(..x).next_back()`: the greatest key below `x`. */
  method LastBelow<V>(m: map<nat, V>, x: nat) returns (r: Option<nat>)
    ensures r.None? ==> forall k | k in m :: k >= x
    ensures r.Some? ==> r.value in m && r.value < x && forall k | k in m && k < x :: k <= r.value
  {
    r := None;
    var todo := m.Keys;
    while todo != {}
      invariant todo <= m.Keys
      invariant r.None? ==> forall k | k in m && k !in todo :: k >= x
      invariant r.Some? ==> r.value in m && r.value < x && forall k | k in m && k !in todo && k < x :: k <= r.value
      decreases |todo|
    {
      var k :| k in todo;
      if k < x && (r.None? || r.value < k) { r := Some(k); }
      todo := todo - {k};
    }
  }

  /** `range(x..).next()`: the least key from `x` on. */
  method FirstFrom<V>(m: map<nat, V>, x: nat) returns (r: Option<nat>)
    ensures r.None? ==> forall k | k in m :: k < x
    ensures r.Some? ==> r.value in m && r.value >= x && forall k | k in m && k >= x :: r.value <= k
  {
    r := None;
    var todo := m.Keys;
    while todo != {}
      invariant todo <= m.Keys
      invariant r.None? ==> forall k | k in m && k !in todo :: k < x
      invariant r.Some? ==> r.value in m && r.value >= x && forall k | k in m && k !in todo && k >= x :: r.value <= k
      decreases |todo|
    {
      var k :| k in todo;
      if k >= x && (r.None? || k < r.value) { r := Some(k); }
      todo := todo - {k};
    }
  }
}
