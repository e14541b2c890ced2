/** File descriptor tables (src/context/context.rs, `FdTbl`): a POSIX table and an upper one, and bulk operations. */
module FileTables {
  import opened Wrappers
  import opened Helpers

  const CONTEXT_MAX_FILES: nat := 65536

  /** A handle: the tag bit says which table, the rest is the slot. */
  datatype Handle = Handle(upper: bool, index: nat)

  type File = nat
  type Table = seq<Option<File>>

  datatype Error = EMFILE | EBADF | EINVAL | EEXIST
  datatype Result<+T> = Ok(value: T) | Err(error: Error)

  /** A slot of the table, which is empty beyond its end. */
  function Lookup(t: Table, i: nat): Option<File> {
    if i < |t| then t[i] else None
  }

  function Occupied(t: Table): nat {
    if t == [] then 0 else Occupied(t[..|t| - 1]) + if t[|t| - 1].Some? then 1 else 0
  }

  lemma {:induction false} OccupiedUpdate(t: Table, i: nat, v: Option<File>)
    requires i < |t|
    ensures Occupied(t[i := v]) + (if t[i].Some? then 1 else 0) == Occupied(t) + if v.Some? then 1 else 0
  {
    var n := |t| - 1;
    if i < n {
      OccupiedUpdate(t[..n], i, v);
      assert t[i := v][..n] == t[..n][i := v];
    } else {
      assert t[i := v][..n] == t[..n];
    }
  }

  function Resized(t: Table, n: nat): (r: Table)
    ensures |r| == if n > |t| then n else |t|
    ensures forall i :: Lookup(r, i) == Lookup(t, i)
    decreases n - |t|
  {
    if n <= |t| then t else Resized(t + [None], n)
  }

  lemma {:induction false} OccupiedResized(t: Table, n: nat)
    ensures Occupied(Resized(t, n)) == Occupied(t)
    decreases n - |t|
  {
    if n > |t| {
      OccupiedResized(t + [None], n);
      assert (t + [None])[..|t|] == t;
    }
  }

  // Writing several slots, one after the other.

  predicate Within(slots: seq<nat>, n: nat) {
    forall k | 0 <= k < |slots| :: slots[k] < n
  }

  function WriteAll(t: Table, slots: seq<nat>, files: seq<File>): (r: Table)
    requires |slots| == |files| && Within(slots, |t|)
    ensures |r| == |t|
  {
    if slots == [] then t
    else
      var n := |slots| - 1;
      WriteAll(t, slots[..n], files[..n])[slots[n] := Some(files[n])]
  }

  ghost predicate AllFree(t: Table, slots: seq<nat>) {
    forall k | 0 <= k < |slots| :: Lookup(t, slots[k]).None?
  }

  /** Each distinct slot holds its file, and the other slots what they held. */
  lemma {:induction false} WrittenIs(t: Table, slots: seq<nat>, files: seq<File>)
    requires |slots| == |files| && Within(slots, |t|) && Distinct(slots)
    ensures forall k | 0 <= k < |slots| :: Lookup(WriteAll(t, slots, files), slots[k]) == Some(files[k])
    ensures forall i | i !in slots :: Lookup(WriteAll(t, slots, files), i) == Lookup(t, i)
  {
    if slots != [] {
      var n := |slots| - 1;
      assert slots == slots[..n] + [slots[n]];
      WrittenIs(t, slots[..n], files[..n]);
      assert forall k | 0 <= k < n :: slots[..n][k] == slots[k] && files[..n][k] == files[k];
    }
  }

  lemma {:induction false} UntouchedSlot(t: Table, slots: seq<nat>, files: seq<File>, i: nat)
    requires |slots| == |files| && Within(slots, |t|)
    ensures i !in slots ==> Lookup(WriteAll(t, slots, files), i) == Lookup(t, i)
    ensures i in slots ==> Lookup(WriteAll(t, slots, files), i).Some?
  {
    if slots != [] {
      var n := |slots| - 1;
      assert slots == slots[..n] + [slots[n]];
      UntouchedSlot(t, slots[..n], files[..n], i);
    }
  }

  /** The number of occupied slots grows by the number of files exactly when the slots are distinct and free. */
  lemma {:induction false} OccupiedWritten(t: Table, slots: seq<nat>, files: seq<File>)
    requires |slots| == |files| && Within(slots, |t|)
    ensures Occupied(WriteAll(t, slots, files)) <= Occupied(t) + |slots|
    ensures Occupied(WriteAll(t, slots, files)) == Occupied(t) + |slots| <==> Distinct(slots) && AllFree(t, slots)
  {
    if slots != [] {
      var n := |slots| - 1;
      var init := slots[..n];
      assert slots == init + [slots[n]];
      OccupiedWritten(t, init, files[..n]);
      UntouchedSlot(t, init, files[..n], slots[n]);
      var before := WriteAll(t, init, files[..n]);
      OccupiedUpdate(before, slots[n], Some(files[n]));
      assert Distinct(slots) <==> Distinct(init) && slots[n] !in init by { DistinctSnoc(init, slots[n]); }
      assert AllFree(t, slots) <==> AllFree(t, init) && Lookup(t, slots[n]).None?;
      hide Distinct, AllFree;
    }
  }
}
