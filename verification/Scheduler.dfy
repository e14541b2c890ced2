/** Picking the next context (src/context/switch.rs): a round-robin search on each CPU over all contexts. */
module Scheduler {
  import opened Wrappers
  import opened Helpers
  import opened OrderedMap

  datatype Status = Runnable | Blocked | HardBlocked

  datatype Context = Context(
    running: bool, cpu: Option<nat>, status: Status, wake: Option<nat>, affinity: set<nat>, preemptable: bool)

  datatype SwitchResult = Switched | AllContextsIdle

  type Contexts = map<nat, Context>

  /** `update_runnable`: a context whose wake-up time has come is made runnable on the way. */
  function Updated(x: Context, cpu: nat, now: nat): Context {
    if !x.running && cpu in x.affinity && x.status == Blocked && x.wake.Some? && now >= x.wake.value
    then x.(wake := None, status := Runnable) else x
  }

  predicate Eligible(x: Context, cpu: nat, now: nat) {
    && !x.running && cpu in x.affinity
    && (x.status == Runnable || (x.status == Blocked && x.wake.Some? && now >= x.wake.value))
  }

  /** The check that `update_runnable` ends with: the context is eligible exactly when it is runnable by then. */
  lemma UpdateDecides(x: Context, cpu: nat, now: nat)
    ensures Eligible(x, cpu, now) <==> !x.running && cpu in x.affinity && Updated(x, cpu, now).status == Runnable
    ensures !Eligible(x, cpu, now) ==> Updated(x, cpu, now) == x
  {
  }

  /** `y` comes before `x` in the cyclic order of identifiers that starts after `prev`. */
  predicate Between(prev: nat, y: nat, x: nat) {
    if prev < x then prev < y < x else prev < y || y < x
  }

  /** The contexts a switch away from `prev` may choose before falling back to the idle one. */
  predicate Candidate(ctxs: Contexts, idle: nat, prev: nat, cpu: nat, now: nat, y: nat) {
    y in ctxs && y != prev && y != idle && Eligible(ctxs[y], cpu, now)
  }

  /** What the search must return: the first candidate, else the idle context, unless that is `prev` itself. */
  ghost predicate Chosen(ctxs: Contexts, idle: nat, prev: nat, cpu: nat, now: nat, next: Option<nat>) {
    if next.None? then
      && (forall y :: !Candidate(ctxs, idle, prev, cpu, now, y))
      && (idle == prev || (idle in ctxs && !Eligible(ctxs[idle], cpu, now)))
    else if next == Some(idle) then
      && idle in ctxs && idle != prev && Eligible(ctxs[idle], cpu, now)
      && (forall y :: !Candidate(ctxs, idle, prev, cpu, now, y))
    else
      && Candidate(ctxs, idle, prev, cpu, now, next.value)
      && forall y | Candidate(ctxs, idle, prev, cpu, now, y) :: !Between(prev, y, next.value)
  }

  /** A context is marked running exactly while it is the current one of the one CPU it names. */
  ghost predicate Wf(ctxs: Contexts, current: map<nat, nat>, idle: map<nat, nat>) {
    && current.Keys == idle.Keys
    && (forall c | c in current ::
          current[c] in ctxs && idle[c] in ctxs && ctxs[current[c]].running && ctxs[current[c]].cpu == Some(c))
    && (forall x | x in ctxs && ctxs[x].running ::
          ctxs[x].cpu.Some? && ctxs[x].cpu.value in current && current[ctxs[x].cpu.value] == x)
  }

  /** No context is current on two CPUs. */
  lemma CurrentOnce(ctxs: Contexts, current: map<nat, nat>, idle: map<nat, nat>, c: nat, d: nat)
    requires Wf(ctxs, current, idle) && c in current && d in current && current[c] == current[d]
    ensures c == d
  {
  }

  /** Context `x` has been given CPU `cpu`: only its wake-up time is cleared, and only if it has been waited for. */
  predicate GivenCpu(x: Context, y: Context, cpu: nat, now: nat) {
    && y.running && y.cpu == Some(cpu) && y.status == Runnable
    && y.affinity == x.affinity && y.preemptable == x.preemptable
    && y.wake == if x.status == Blocked && x.wake.Some? && now >= x.wake.value then None else x.wake
  }

  /** The previous context stops running, the next one starts, and the others stay as they were. */
  ghost predicate SwitchedOver(before: Contexts, after: Contexts, cpu: nat, now: nat, prev: nat, next: nat) {
    && before.Keys == after.Keys && prev in before && next in before && prev != next
    && after[prev] == before[prev].(running := false) && GivenCpu(before[next], after[next], cpu, now)
    && forall x | x in before && x != prev && x != next :: after[x] == before[x]
  }

  function Handed(ctxs: Contexts, cpu: nat, now: nat, prev: nat, next: nat): Contexts
    requires prev in ctxs && next in ctxs
  {
    var x := Updated(ctxs[next], cpu, now);
    ctxs[prev := ctxs[prev].(running := false)][next := x.(running := true, cpu := Some(cpu))]
  }

  lemma HandedOver(ctxs: Contexts, current: map<nat, nat>, idle: map<nat, nat>, cpu: nat, now: nat, next: nat)
    requires Wf(ctxs, current, idle) && cpu in current && next in ctxs && Eligible(ctxs[next], cpu, now)
    ensures Wf(Handed(ctxs, cpu, now, current[cpu], next), current[cpu := next], idle)
  {
    forall c | c in current && c != cpu ensures current[c] != current[cpu] {
      if current[c] == current[cpu] { CurrentOnce(ctxs, current, idle, c, cpu); }
    }
    hide Updated;
  }

  lemma HandedIs(ctxs: Contexts, cpu: nat, now: nat, prev: nat, next: nat)
    requires prev in ctxs && next in ctxs && prev != next && Eligible(ctxs[next], cpu, now)
    ensures Handed(ctxs, cpu, now, prev, next).Keys == ctxs.Keys
    ensures SwitchedOver(ctxs, Handed(ctxs, cpu, now, prev, next), cpu, now, prev, next)
  {
  }

  class Scheduler {
    var ctxs: Contexts
    /** The context each CPU is running, and its idle context. */
    var current: map<nat, nat>
    const idle: map<nat, nat>

    ghost predicate Valid()
      reads this
    {
      Wf(ctxs, current, idle)
    }

    /** Boot: every CPU runs its own idle context. */
    constructor (contexts: Contexts, idles: map<nat, nat>)
      requires Wf(contexts, idles, idles)
      ensures Valid() && current == idle == idles && ctxs == contexts
    {
      ctxs, current, idle := contexts, idles, idles;
    }

    /**
     The part of the search over identifiers in `[lo, hi)`, locking one context after the other. The idle
     context is passed over when it first shows up.
     */
    method Scan(cpu: nat, now: nat, lo: nat, hi: Option<nat>, rest: nat, skip: bool)
      returns (next: Option<nat>, skipIdle: bool, ghost locked: seq<nat>)
      requires (skip || !InRange(lo, hi, rest)) && (hi.Some? ==> lo <= hi.value)
      ensures forall y | y in locked :: InRange(lo, hi, y)
      ensures next.Some? ==> next.value in locked && next.value in ctxs && next.value != rest
                             && Eligible(ctxs[next.value], cpu, now)
      ensures next.Some? ==>
                forall y | y in ctxs && y != rest && InRange(lo, hi, y) && Eligible(ctxs[y], cpu, now) ::
                  next.value <= y
      ensures next.None? ==> forall y | y in ctxs && y != rest && InRange(lo, hi, y) :: !Eligible(ctxs[y], cpu, now)
      ensures next.None? && rest in ctxs ==> (skipIdle <==> skip && !InRange(lo, hi, rest))
    {
      hide Eligible, Updated;
      skipIdle, locked := skip, [];
      var k := FirstFrom(ctxs, lo);
      ghost var cursor: nat := lo;
      ghost var left := set y | y in ctxs && y >= cursor;
      while k.Some? && (hi.None? || k.value < hi.value)
        invariant k.None? ==> forall y | y in ctxs :: y < cursor
        invariant k.Some? ==>
                    k.value in ctxs && cursor <= k.value && forall y | y in ctxs && y >= cursor :: k.value <= y
        invariant lo <= cursor && (hi.Some? ==> cursor <= hi.value)
        invariant forall y | y in ctxs && y != rest && lo <= y < cursor :: !Eligible(ctxs[y], cpu, now)
        invariant rest in ctxs ==> (skipIdle <==> skip && !(lo <= rest < cursor))
        invariant forall y | y in locked :: InRange(lo, hi, y)
        invariant left == set y | y in ctxs && y >= cursor
        decreases |left|
      {
        if k.value == rest && skipIdle {
          skipIdle := false;
        } else {
          locked := locked + [k.value];
          if Eligible(ctxs[k.value], cpu, now) { return Some(k.value), skipIdle, locked; }
        }
        left := left - {k.value};
        cursor := k.value + 1;
        k := FirstFrom(ctxs, k.value + 1);
      }
      next := None;
    }

    /** The search of `switch`. `locked` lists the contexts it locks: never `prev`, which is locked already. */
    method Search(cpu: nat, now: nat) returns (next: Option<nat>, ghost locked: seq<nat>)
      requires Valid() && cpu in current
      ensures Chosen(ctxs, idle[cpu], current[cpu], cpu, now, next)
      ensures current[cpu] !in locked && (next.Some? ==> next.value in locked)
    {
      hide Eligible, Updated;
      var prev, rest := current[cpu], idle[cpu];
      var skipIdle;
      ghost var more;
      next, skipIdle, locked := Scan(cpu, now, prev + 1, None, rest, true);
      if next.Some? { return; }
      next, skipIdle, more := Scan(cpu, now, 0, Some(prev), rest, skipIdle);
      locked := locked + more;
      if next.Some? { return; }
      if !skipIdle {
        locked := locked + [rest];
        if Eligible(ctxs[rest], cpu, now) { next := Some(rest); }
      }
    }

    /** `switch` on one CPU, under the global switch lock. */
    method Switch(cpu: nat, now: nat) returns (r: SwitchResult)
      requires Valid() && cpu in current
      modifies this`ctxs, this`current
      ensures Valid() && ctxs.Keys == old(ctxs.Keys)
      ensures forall c | c in current && c != cpu :: current[c] == old(current)[c]
      ensures r == AllContextsIdle ==> ctxs == old(ctxs) && current == old(current)
      ensures !old(ctxs)[old(current)[cpu]].preemptable ==> r == AllContextsIdle
      ensures old(ctxs)[old(current)[cpu]].preemptable ==>
                (r == AllContextsIdle <==> Chosen(old(ctxs), idle[cpu], old(current)[cpu], cpu, now, None))
      ensures r == Switched ==>
                cpu in current && Chosen(old(ctxs), idle[cpu], old(current)[cpu], cpu, now, Some(current[cpu]))
      ensures r == Switched ==> SwitchedOver(old(ctxs), ctxs, cpu, now, old(current)[cpu], current[cpu])
    {
      var prev := current[cpu];
      if !ctxs[prev].preemptable { return AllContextsIdle; }
      var next, _ := Search(cpu, now);
      if next.None? { return AllContextsIdle; }
      hide Chosen, Eligible, Updated, Handed, SwitchedOver;
      ChosenIs(ctxs, idle[cpu], prev, cpu, now, next.value);
      HandedOver(ctxs, current, idle, cpu, now, next.value);
      HandedIs(ctxs, cpu, now, prev, next.value);
      hide Wf;
      ctxs := Handed(ctxs, cpu, now, prev, next.value);
      current := current[cpu := next.value];
      r := Switched;
    }
  }

  predicate InRange(lo: nat, hi: Option<nat>, y: nat) {
    lo <= y && (hi.Some? ==> y < hi.value)
  }

  lemma ChosenIs(ctxs: Contexts, idle: nat, prev: nat, cpu: nat, now: nat, next: nat)
    requires Chosen(ctxs, idle, prev, cpu, now, Some(next))
    ensures next in ctxs && next != prev && Eligible(ctxs[next], cpu, now) && !Chosen(ctxs, idle, prev, cpu, now, None)
  {
  }

  // Fairness.

  /** How many contexts come before `x` after `prev`. */
  ghost function Distance(ids: set<nat>, prev: nat, x: nat): nat {
    |set y | y in ids && Between(prev, y, x)|
  }

  /** Switching to a context that comes first brings every other candidate nearer. */
  lemma Nearer(ids: set<nat>, prev: nat, next: nat, x: nat)
    requires next in ids && next != x && next != prev && x != prev && !Between(prev, x, next)
    ensures Distance(ids, next, x) < Distance(ids, prev, x)
  {
    var after := set y | y in ids && Between(next, y, x);
    var before := set y | y in ids && Between(prev, y, x);
    assert next in before;
    SubsetSize(after + {next}, before);
  }

  /** A run of successful switches on one CPU: what it ran, and the contexts as each switch found them. */
  ghost predicate Switches(ids: set<nat>, idle: nat, cpu: nat, ran: seq<nat>, found: seq<Contexts>, times: seq<nat>) {
    && |ran| == |found| + 1 && |times| == |found|
    && forall i | 0 <= i < |found| ::
         found[i].Keys == ids && Chosen(found[i], idle, ran[i], cpu, times[i], Some(ran[i + 1]))
  }

  /** A context that stays a candidate without being run is nearer after every switch. */
  lemma {:induction false} Approaches(ids: set<nat>, idle: nat, cpu: nat, ran: seq<nat>, found: seq<Contexts>,
                                      times: seq<nat>, x: nat, n: nat)
    requires Switches(ids, idle, cpu, ran, found, times) && n < |ran|
    requires forall i | 0 <= i < n :: Candidate(found[i], idle, ran[i], cpu, times[i], x)
    requires forall i | 0 < i <= n :: ran[i] != x
    ensures Distance(ids, ran[n], x) + n <= Distance(ids, ran[0], x)
  {
    if n > 0 {
      Approaches(ids, idle, cpu, ran, found, times, x, n - 1);
      assert Chosen(found[n - 1], idle, ran[n - 1], cpu, times[n - 1], Some(ran[n]));
      assert Candidate(found[n - 1], idle, ran[n - 1], cpu, times[n - 1], x);
      hide Distance, Between, Eligible;
      Nearer(ids, ran[n - 1], ran[n], x);
    }
  }

  /** `x` has not been run up to and including position `i`. */
  ghost predicate NotYet(ran: seq<nat>, x: nat, i: nat)
    requires i < |ran|
  {
    forall j | 0 <= j <= i :: ran[j] != x
  }

  /**
   Fairness: a context that is eligible on a CPU, and stays so until it is run there, is run within fewer
   successful switches than there are contexts.
   */
  lemma RunsInTime(ids: set<nat>, idle: nat, cpu: nat, ran: seq<nat>, found: seq<Contexts>, times: seq<nat>, x: nat)
    requires Switches(ids, idle, cpu, ran, found, times) && |ids| > 1 && |found| >= |ids| - 1
    requires ran[0] in ids && ran[0] != x
    requires forall i | 0 <= i < |found| && NotYet(ran, x, i) :: Candidate(found[i], idle, ran[i], cpu, times[i], x)
    ensures exists i :: 0 < i < |ids| && ran[i] == x
  {
    if forall i | 0 < i < |ids| :: ran[i] != x {
      assert forall i | 0 <= i < |ids| - 1 :: NotYet(ran, x, i);
      Approaches(ids, idle, cpu, ran, found, times, x, |ids| - 1);
      assert x in ids by { assert Candidate(found[0], idle, ran[0], cpu, times[0], x); }
      var before := set y | y in ids && Between(ran[0], y, x);
      SubsetSize(before + {x, ran[0]}, ids);
    }
  }

  /** The hypotheses of `RunsInTime` are those of ordinary runs: two contexts that take turns beside the idle one. */
  lemma TakingTurns()
    ensures var on := Context(true, Some(0), Runnable, None, {0}, true);
            var off := Context(false, None, Runnable, None, {0}, true);
            var found := [map[0 := off, 1 := on, 2 := off], map[0 := off, 1 := off, 2 := on]];
            && Switches({0, 1, 2}, 0, 0, [1, 2, 1], found, [0, 0])
            && forall i | 0 <= i < |found| && NotYet([1, 2, 1], 2, i) :: Candidate(found[i], 0, [1, 2, 1][i], 0, 0, 2)
  {
    var on, off := Context(true, Some(0), Runnable, None, {0}, true), Context(false, None, Runnable, None, {0}, true);
    var found := [map[0 := off, 1 := on, 2 := off], map[0 := off, 1 := off, 2 := on]];
    assert Chosen(found[0], 0, 1, 0, 0, Some(2)) && Chosen(found[1], 0, 2, 0, 0, Some(1));
    assert !NotYet([1, 2, 1], 2, 1) by { assert [1, 2, 1][1] == 2; }
  }
}
