/** The operations of a file descriptor table (src/context/context.rs, `FdTbl`). */
module FdTables {
  import opened Wrappers
  import opened Helpers
  import opened FileTables

  function Indices(handles: seq<Handle>): (r: seq<nat>)
    ensures |r| == |handles| && forall k | 0 <= k < |r| :: r[k] == handles[k].index
  {
    seq(|handles|, k requires 0 <= k < |handles| => handles[k].index)
  }

  ghost predicate InLimits(handles: seq<Handle>) {
    forall k | 0 <= k < |handles| :: handles[k].index < CONTEXT_MAX_FILES
  }

  ghost predicate RunFree(t: Table, start: nat, len: nat) {
    forall j | start <= j < start + len :: Lookup(t, j).None?
  }

  /** The slots are in order, and no free slot below the last of them is passed over. */
  ghost predicate Lowest(t: Table, slots: seq<nat>) {
    && Increasing(slots)
    && (slots != [] ==> forall i: nat | Lookup(t, i).None? && i < slots[|slots| - 1] :: i in slots)
  }

  /** The slots found so far are the free ones below `n`, in order. */
  ghost predicate FreeBelow(t: Table, slots: seq<nat>, n: nat) {
    && Increasing(slots) && AllFree(t, slots) && Within(slots, n)
    && forall j: nat | j < n && Lookup(t, j).None? :: j in slots
  }

  lemma FreeBelowMore(t: Table, slots: seq<nat>, n: nat)
    requires FreeBelow(t, slots, n)
    ensures FreeBelow(t, if Lookup(t, n).None? then slots + [n] else slots, n + 1)
  {
    if Lookup(t, n).None? {
      IncreasingMore(slots, n);
      assert n in slots + [n] && forall j | j in slots :: j in slots + [n];
    }
    hide Lookup;
  }

  lemma FreeBelowLowest(t: Table, slots: seq<nat>, n: nat)
    requires FreeBelow(t, slots, n)
    ensures Increasing(slots) && AllFree(t, slots) && Lowest(t, slots)
  {
  }

  class FdTbl {
    var posix: Table
    var upper: Table
    var active: nat

    /** The count of files is right, and within the limit. */
    ghost predicate Valid()
      reads this
    {
      active == Occupied(posix) + Occupied(upper) && active <= CONTEXT_MAX_FILES
    }

    function Tab(isUpper: bool): Table
      reads this
    {
      if isUpper then upper else posix
    }

    function Get(h: Handle): Option<File>
      reads this
    {
      Lookup(Tab(h.upper), h.index)
    }

    constructor ()
      ensures Valid() && active == 0 && forall h :: Get(h).None?
    {
      posix, upper, active := [], [], 0;
    }

    /** A slot of a table is filled or emptied, and the count follows. */
    method Put(h: Handle, v: Option<File>)
      requires Valid() && h.index < |Tab(h.upper)| && (v.Some? ==> Get(h).None? && active < CONTEXT_MAX_FILES)
      requires v.None? ==> Get(h).Some?
      modifies this
      ensures Valid() && active == if v.Some? then old(active) + 1 else old(active) - 1
      ensures |posix| == old(|posix|) && |upper| == old(|upper|)
      ensures forall k :: Get(k) == if k == h then v else old(Get(k))
    {
      OccupiedUpdate(Tab(h.upper), h.index, v);
      if h.upper { upper := upper[h.index := v]; } else { posix := posix[h.index := v]; }
      active := if v.Some? then active + 1 else active - 1;
    }

    method Resize(isUpper: bool, n: nat)
      requires Valid()
      modifies this`posix, this`upper
      ensures Valid() && |Tab(isUpper)| == (if n > old(|Tab(isUpper)|) then n else old(|Tab(isUpper)|))
      ensures forall k :: Get(k) == old(Get(k))
      ensures |Tab(!isUpper)| == old(|Tab(!isUpper)|)
    {
      OccupiedResized(Tab(isUpper), n);
      if isUpper { upper := Resized(upper, n); } else { posix := Resized(posix, n); }
    }

    /** `insert_file`: into exactly the given slot. */
    method InsertFile(h: Handle, file: File) returns (r: Option<Handle>)
      requires Valid()
      modifies this
      ensures Valid()
      ensures r.None? <==> old(active) >= CONTEXT_MAX_FILES || h.index >= CONTEXT_MAX_FILES || old(Get(h)).Some?
      ensures r.Some? ==> r.value == h && active == old(active) + 1
      ensures r.None? ==> active == old(active)
      ensures forall k :: Get(k) == if r == Some(k) then Some(file) else old(Get(k))
    {
      if active >= CONTEXT_MAX_FILES { return None; }
      if h.index >= CONTEXT_MAX_FILES { return None; }
      Resize(h.upper, h.index + 1);
      if Get(h).Some? { return None; }
      Put(h, Some(file));
      r := Some(h);
    }

    /** `add_file_min`: the lowest free slot at or above `min`, in the table `min` names. */
    method AddFileMin(file: File, min: Handle) returns (r: Option<Handle>)
      requires Valid()
      modifies this
      ensures Valid()
      ensures r.None? <==> old(active) >= CONTEXT_MAX_FILES
                           || (min.index > old(|Tab(min.upper)|) && min.index >= CONTEXT_MAX_FILES)
      ensures r.Some? ==> r.value.upper == min.upper && r.value.index >= min.index && old(Get(r.value)).None?
      ensures r.Some? ==> forall j | min.index <= j < r.value.index :: old(Get(Handle(min.upper, j))).Some?
      ensures active == old(active) + if r.Some? then 1 else 0
      ensures forall k :: Get(k) == if r == Some(k) then Some(file) else old(Get(k))
    {
      if active >= CONTEXT_MAX_FILES { return None; }
      var t := Tab(min.upper);
      var i := min.index;
      while i < |t| && t[i].Some?
        invariant (i == min.index || i <= |t|) && min.index <= i
        invariant forall j | min.index <= j < i :: j < |t| && Get(Handle(min.upper, j)).Some?
      {
        i := i + 1;
      }
      if |t| >= min.index {
        var h := Handle(min.upper, i);
        if i >= |t| { Resize(min.upper, |t| + 1); }
        Put(h, Some(file));
        r := Some(h);
      } else {
        r := InsertFile(min, file);
      }
    }

    method RemoveFile(h: Handle) returns (r: Option<File>)
      requires Valid()
      modifies this
      ensures Valid() && r == old(Get(h)) && active == old(active) - if r.Some? then 1 else 0
      ensures forall k :: Get(k) == if k == h then None else old(Get(k))
    {
      r := Get(h);
      if r.Some? { Put(h, None); }
    }

    /** Handle `k` passes the checks: within the limits, not named before, and open or free as asked. */
    predicate Passes(handles: seq<Handle>, k: nat, open: bool)
      requires k < |handles|
      reads this
    {
      handles[k].index < CONTEXT_MAX_FILES && handles[k] !in handles[..k] && Get(handles[k]).Some? == open
    }

    /** The error that the first handle at fault, `k`, is refused with. */
    ghost predicate Refused(handles: seq<Handle>, k: nat, open: bool, e: Error)
      reads this
    {
      && k < |handles| && !Passes(handles, k, open) && (forall j | 0 <= j < k :: Passes(handles, j, open))
      && e == if handles[k].index >= CONTEXT_MAX_FILES then EMFILE
              else if open then EBADF
              else if handles[k] in handles[..k] then EINVAL
              else EEXIST
    }

    /** `validate_handles`: within the limits, without duplicates, all open. */
    method ValidateHandles(handles: seq<Handle>) returns (r: Option<Error>)
      ensures r.None? <==>
                InLimits(handles) && Distinct(handles) && forall k | 0 <= k < |handles| :: Get(handles[k]).Some?
      ensures r.Some? ==> exists k :: Refused(handles, k, true, r.value)
    {
      var i := 0;
      while i < |handles|
        invariant 0 <= i <= |handles| && InLimits(handles[..i]) && Distinct(handles[..i])
        invariant forall k | 0 <= k < i :: Get(handles[k]).Some? && Passes(handles, k, true)
      {
        r := if handles[i].index >= CONTEXT_MAX_FILES then Some(EMFILE)
             else if handles[i] in handles[..i] then Some(EBADF)
             else if Get(handles[i]).None? then Some(EBADF)
             else None;
        if r.Some? {
          assert Refused(handles, i, true, r.value);
          return;
        }
        i := i + 1;
      }
      assert handles[..i] == handles;
      r := None;
    }

    /** `validate_free_slots`: within the limits, without duplicates, all free. */
    method ValidateFreeSlots(handles: seq<Handle>) returns (r: Option<Error>)
      ensures r.None? <==>
                InLimits(handles) && Distinct(handles) && forall k | 0 <= k < |handles| :: Get(handles[k]).None?
      ensures r.Some? ==> exists k :: Refused(handles, k, false, r.value)
    {
      var i := 0;
      while i < |handles|
        invariant 0 <= i <= |handles| && InLimits(handles[..i]) && Distinct(handles[..i])
        invariant forall k | 0 <= k < i :: Get(handles[k]).None? && Passes(handles, k, false)
      {
        r := if handles[i].index >= CONTEXT_MAX_FILES then Some(EMFILE)
             else if handles[i] in handles[..i] then Some(EINVAL)
             else if Get(handles[i]).Some? then Some(EEXIST)
             else None;
        if r.Some? {
          assert Refused(handles, i, false, r.value);
          return;
        }
        i := i + 1;
      }
      assert handles[..i] == handles;
      r := None;
    }

    method BulkGet(handles: seq<Handle>) returns (r: Result<seq<File>>)
      ensures r.Ok? <==>
                InLimits(handles) && Distinct(handles) && forall k | 0 <= k < |handles| :: Get(handles[k]).Some?
      ensures r.Ok? ==> |r.value| == |handles| && forall k | 0 <= k < |handles| :: Get(handles[k]) == Some(r.value[k])
      ensures r.Err? ==> exists k :: Refused(handles, k, true, r.error)
    {
      var e := ValidateHandles(handles);
      if e.Some? { return Err(e.value); }
      r := Ok(seq(|handles|,
                  k requires 0 <= k < |handles| && Get(handles[k]).Some? reads this => Get(handles[k]).value));
    }

    /** All the handles are closed, or none. */
    method BulkRemove(handles: seq<Handle>) returns (r: Result<seq<File>>)
      requires Valid()
      modifies this
      ensures Valid()
      ensures r.Ok? <==>
                InLimits(handles) && Distinct(handles) && forall k | 0 <= k < |handles| :: old(Get(handles[k])).Some?
      ensures r.Err? ==> active == old(active) && forall h :: Get(h) == old(Get(h))
      ensures r.Err? ==> exists k :: Refused(handles, k, true, r.error)
      ensures r.Ok? ==> |r.value| == |handles| && active == old(active) - |handles|
      ensures r.Ok? ==> forall k | 0 <= k < |handles| :: old(Get(handles[k])) == Some(r.value[k])
      ensures r.Ok? ==> forall h :: Get(h) == if h in handles then None else old(Get(h))
    {
      var e := ValidateHandles(handles);
      if e.Some? { return Err(e.value); }
      hide Occupied, Lookup, InLimits;
      var files: seq<File> := [];
      var i := 0;
      while i < |handles|
        invariant 0 <= i <= |handles| && Valid() && |files| == i && active == old(active) - i
        invariant forall k | 0 <= k < i :: old(Get(handles[k])) == Some(files[k])
        invariant forall h :: Get(h) == if h in handles[..i] then None else old(Get(h))
      {
        assert handles[i] !in handles[..i];
        assert handles[..i + 1] == handles[..i] + [handles[i]];
        var f := RemoveFile(handles[i]);
        files := files + [f.value];
        i := i + 1;
      }
      assert handles[..i] == handles;
      r := Ok(files);
    }

    /** `find_free_posix_slots`: the lowest free slots, in order. */
    method FindFreePosixSlots(count: nat) returns (r: seq<nat>)
      ensures |r| == count && Increasing(r) && AllFree(posix, r) && Lowest(posix, r)
    {
      assert FreeBelow(posix, [], 0);
      hide FreeBelow, AllFree, Lowest;
      r := [];
      var i := 0;
      while i < |posix| && |r| < count
        invariant 0 <= i <= |posix| && |r| <= count && FreeBelow(posix, r, i)
      {
        FreeBelowMore(posix, r, i);
        if posix[i].None? { r := r + [i]; }
        i := i + 1;
      }
      FreeBelowLowest(posix, r, i);
      if |r| == count { return; }
      var len := |posix|;
      while |r| < count
        invariant |posix| <= len && |r| <= count && FreeBelow(posix, r, len)
      {
        FreeBelowMore(posix, r, len);
        r := r + [len];
        len := len + 1;
      }
      FreeBelowLowest(posix, r, len);
    }

    /** `bulk_add_files_posix`: every file gets a free slot of its own, the lowest ones. */
    method BulkAddPosix(files: seq<File>) returns (r: Option<seq<Handle>>)
      requires Valid()
      modifies this
      ensures Valid()
      ensures r.None? <==> files != [] && old(active) + |files| > CONTEXT_MAX_FILES
      ensures r.None? ==> active == old(active) && forall h :: Get(h) == old(Get(h))
      ensures r.Some? ==> Placed(old(posix), posix, Indices(r.value), files) && upper == old(upper)
      ensures r.Some? ==> active == old(active) + |files| && forall k | 0 <= k < |r.value| :: !r.value[k].upper
      ensures r.Some? ==> Lowest(old(posix), Indices(r.value))
    {
      if files == [] {
        PlacedNone(posix, Indices([]));
        return Some([]);
      }
      if active + |files| > CONTEXT_MAX_FILES { return None; }
      hide Lowest, AllFree, Occupied, Placed;
      var slots := FindFreePosixSlots(|files|);
      ghost var before := posix;
      var top := slots[|slots| - 1];
      PlaceAll(posix, slots, files, top + 1);
      posix := WriteAll(Resized(posix, top + 1), slots, files);
      active := active + |files|;
      r := Some(seq(|slots|, k requires 0 <= k < |slots| => Handle(false, slots[k])));
      assert Indices(r.value) == slots;
    }

    /** `find_free_upper_block`: the lowest run of free slots, the table being long enough to hold it. */
    method FindFreeUpperBlock(len: nat) returns (start: nat)
      requires Valid() && len > 0
      modifies this`upper
      ensures Valid() && start + len <= |upper| && RunFree(old(upper), start, len)
      ensures forall s: nat | s < start :: !RunFree(old(upper), s, len)
      ensures forall i :: Lookup(upper, i) == Lookup(old(upper), i)
    {
      start := 0;
      var count, i := 0, 0;
      while i < |upper| && count < len
        invariant 0 <= i <= |upper| && count <= len && (count > 0 ==> start + count == i)
        invariant forall j | start <= j < start + count :: upper[j].None?
        invariant forall s: nat | s < (if count == 0 then i else start) :: !RunFree(upper, s, len)
      {
        if upper[i].None? {
          if count == 0 { start := i; }
          count := count + 1;
        } else {
          assert Lookup(upper, i).Some?;
          count := 0;
        }
        i := i + 1;
      }
      if count < len {
        if count == 0 { start := |upper|; }
        OccupiedResized(upper, |upper| + (len - count));
        upper := Resized(upper, |upper| + (len - count));
      }
    }

    /** `bulk_insert_files_upper`: consecutive slots of the upper table. */
    method BulkInsertUpper(files: seq<File>) returns (r: Option<seq<Handle>>)
      requires Valid()
      modifies this
      ensures Valid()
      ensures r.None? <==> files != [] && old(active) + |files| > CONTEXT_MAX_FILES
      ensures r.None? ==> active == old(active) && forall h :: Get(h) == old(Get(h))
      ensures r.Some? ==> Placed(old(upper), upper, Indices(r.value), files) && posix == old(posix)
      ensures r.Some? ==> active == old(active) + |files| && forall k | 0 <= k < |r.value| :: r.value[k].upper
      ensures r.Some? ==> forall k | 0 < k < |r.value| :: r.value[k].index == r.value[k - 1].index + 1
      ensures r.Some? && r.value != [] ==> forall s: nat | s < r.value[0].index :: !RunFree(old(upper), s, |files|)
    {
      if files == [] {
        PlacedNone(upper, Indices([]));
        return Some([]);
      }
      if active + |files| > CONTEXT_MAX_FILES { return None; }
      var start := FindFreeUpperBlock(|files|);
      var slots := seq(|files|, k => start + k);
      PlaceAll(upper, slots, files, |upper|);
      upper := WriteAll(upper, slots, files);
      active := active + |files|;
      r := Some(seq(|slots|, k requires 0 <= k < |slots| => Handle(true, slots[k])));
      assert Indices(r.value) == slots;
    }

    /**
     `bulk_insert_files_upper_manual`: the handles are checked in the tables they name, but all the files go
     into the upper one. The table stays right exactly when the slots are distinct and free there, which is
     so when every handle carries the upper table's tag.
     */
    method BulkInsertUpperManual(files: seq<File>, handles: seq<Handle>) returns (r: Result<()>)
      requires Valid()
      modifies this
      ensures r.Ok? <==> |handles| == |files| && (files == [] || (old(active) + |files| <= CONTEXT_MAX_FILES
                         && InLimits(handles) && Distinct(handles)
                         && forall k | 0 <= k < |handles| :: old(Get(handles[k])).None?))
      ensures r.Err? ==> Valid() && active == old(active) && forall h :: Get(h) == old(Get(h))
      ensures r.Err? ==> if |handles| != |files| then r.error == EINVAL
                         else if old(active) + |files| > CONTEXT_MAX_FILES then r.error == EMFILE
                         else exists k :: Refused(handles, k, false, r.error)
      ensures r.Ok? ==> posix == old(posix) && active == old(active) + |files|
      ensures r.Ok? ==> (Valid() <==> Distinct(Indices(handles)) && AllFree(old(upper), Indices(handles)))
      ensures r.Ok? && (forall k | 0 <= k < |handles| :: handles[k].upper) ==>
                Valid() && Placed(old(upper), upper, Indices(handles), files)
    {
      if |handles| != |files| { return Err(EINVAL); }
      if files == [] {
        PlacedNone(upper, Indices(handles));
        return Ok(());
      }
      if active + |files| > CONTEXT_MAX_FILES { return Err(EMFILE); }
      var e := ValidateFreeSlots(handles);
      if e.Some? { return Err(e.value); }
      TaggedDistinct(handles);
      assert (forall k | 0 <= k < |handles| :: handles[k].upper) ==> AllFree(upper, Indices(handles));
      hide Distinct, AllFree, Lookup, Occupied, Placed, Indices, InLimits;
      WriteUpper(files, handles);
      r := Ok(());
    }

    /** The writing half of `bulk_insert_files_upper_manual`. */
    method WriteUpper(files: seq<File>, handles: seq<Handle>)
      requires Valid() && |handles| == |files| && Distinct(handles) && active + |files| <= CONTEXT_MAX_FILES
      modifies this`upper, this`active
      ensures active == old(active) + |files|
      ensures Valid() <==> Distinct(Indices(handles)) && AllFree(old(upper), Indices(handles))
      ensures Distinct(Indices(handles)) && AllFree(old(upper), Indices(handles)) ==>
          Placed(old(upper), upper, Indices(handles), files)
    {
      var slots := Indices(handles);
      var top := Greatest(slots);
      ManualPlaces(upper, handles, files, top + 1);
      hide Distinct, AllFree, Lookup, Occupied, Placed, Indices;
      upper := WriteAll(Resized(upper, top + 1), slots, files);
      active := active + |files|;
    }

    method ForceCloseAll()
      modifies this
      ensures Valid() && active == 0 && forall h :: Get(h).None?
    {
      posix, upper, active := Emptied(|posix|), Emptied(|upper|), 0;
    }
  }

  function Emptied(n: nat): (t: Table)
    ensures |t| == n && Occupied(t) == 0 && forall i | 0 <= i < n :: t[i].None?
  {
    if n == 0 then []
    else
      var t := Emptied(n - 1) + [None];
      assert t[..n - 1] == Emptied(n - 1);
      t
  }

  /** Every file is in a slot of its own that was free, and the other slots are as before. */
  ghost predicate Placed(t: Table, u: Table, slots: seq<nat>, files: seq<File>) {
    && |slots| == |files| && Distinct(slots) && AllFree(t, slots)
    && (forall k | 0 <= k < |slots| :: Lookup(u, slots[k]) == Some(files[k]))
    && (forall i | i !in slots :: Lookup(u, i) == Lookup(t, i))
  }

  lemma PlacedNone(t: Table, slots: seq<nat>)
    requires slots == []
    ensures Placed(t, t, slots, [])
  {
  }

  lemma PlaceAll(t: Table, slots: seq<nat>, files: seq<File>, n: nat)
    requires |slots| == |files| && Increasing(slots) && AllFree(t, slots) && Within(slots, n)
    ensures Within(slots, |Resized(t, n)|)
    ensures var u := WriteAll(Resized(t, n), slots, files);
            Placed(t, u, slots, files) && Occupied(u) == Occupied(t) + |files|
  {
    var v := Resized(t, n);
    WrittenIs(v, slots, files);
    OccupiedWritten(v, slots, files);
    OccupiedResized(t, n);
  }

  function Greatest(s: seq<nat>): (m: nat)
    ensures Within(s, m + 1)
  {
    if s == [] then 0
    else
      var m := Greatest(s[..|s| - 1]);
      assert Within(s[..|s| - 1], m + 1);
      assert forall k | 0 <= k < |s| - 1 :: s[k] == s[..|s| - 1][k];
      if s[|s| - 1] > m then s[|s| - 1] else m
  }

  lemma TaggedDistinct(handles: seq<Handle>)
    requires Distinct(handles)
    ensures (forall k | 0 <= k < |handles| :: handles[k].upper) ==> Distinct(Indices(handles))
  {
  }

  lemma ManualPlaces(t: Table, handles: seq<Handle>, files: seq<File>, n: nat)
    requires |handles| == |files| && Distinct(handles) && Within(Indices(handles), n)
    ensures Within(Indices(handles), |Resized(t, n)|)
    ensures var u := WriteAll(Resized(t, n), Indices(handles), files);
            && Occupied(u) <= Occupied(t) + |files|
            && (Occupied(u) == Occupied(t) + |files| <==> Distinct(Indices(handles)) && AllFree(t, Indices(handles)))
            && (Distinct(Indices(handles)) && AllFree(t, Indices(handles)) ==> Placed(t, u, Indices(handles), files))
  {
    var v := Resized(t, n);
    var slots := Indices(handles);
    OccupiedWritten(v, slots, files);
    OccupiedResized(t, n);
    if Distinct(slots) { WrittenIs(v, slots, files); }
  }

  /** Handles without the tag, or equal but for it, spoil the table: each of these passes the checks. */
  lemma ManualCounterexamples()
    ensures var handles := [Handle(false, 0)];
            InLimits(handles) && Distinct(handles) && Lookup([], 0).None? && !AllFree([Some(7)], Indices(handles))
    ensures var handles := [Handle(false, 0), Handle(true, 0)];
            InLimits(handles) && Distinct(handles) && !Distinct(Indices(handles))
  {
    assert Lookup([Some(7)], Indices([Handle(false, 0)])[0]).Some?;
    var slots := Indices([Handle(false, 0), Handle(true, 0)]);
    assert slots[0] == slots[1];
  }
}
