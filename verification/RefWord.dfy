/**
 The reference count word under concurrency (src/memory/mod.rs, `PageInfo::add_ref` and `remove_ref`):
 every owner of a reference may be between the load and the read-modify-write of an operation.
 */
module RefWord {
  import opened Wrappers
  import opened Helpers
  import opened RefCounts

  /** Where the owner of a reference stands. */
  datatype Pc =
    | Steady
    | Adding(kind: RefKind, seen: RefCount)   // add_ref has loaded the word
    | Undoing                                 // its fetch_add went over RC_MAX
    | Removing(seen: RefCount)                // remove_ref has loaded the word

  type Refs = map<nat, Pc>

  /** `told` counts the owners that remove_ref told to free the frame. */
  datatype State = State(raw: nat, refs: Refs, told: nat)

  datatype Action =
    | LoadAdd(kind: RefKind) | AddStep(newcomer: nat) | Undo
    | LoadRemove | RemoveStep

  /** More owners than this would have to be inside an operation for transient adds to leave the count field. */
  const MAX_IN_FLIGHT: nat := RC_SHARED - RC_MAX - 1

  ghost function InFlight(refs: Refs): set<nat> {
    set r | r in refs && !refs[r].Steady?
  }

  ghost function Over(refs: Refs): set<nat> {
    set r | r in refs && refs[r].Undoing?
  }

  ghost predicate Enabled(s: State, r: nat, act: Action) {
    && r in s.refs
    && match act
       case LoadAdd(_) => s.refs[r].Steady? && |InFlight(s.refs)| < MAX_IN_FLIGHT
       case AddStep(newcomer) => s.refs[r].Adding? && newcomer !in s.refs
       case Undo => s.refs[r].Undoing?
       case LoadRemove => s.refs[r].Steady? && |InFlight(s.refs)| < MAX_IN_FLIGHT
       case RemoveStep => s.refs[r].Removing?
  }

  /** The store or fetch_add of `add_ref`, by what the load saw. */
  function AddWord(raw: nat, kind: RefKind, seen: RefCount): nat {
    match (seen, kind)
    case (One, CowRef) => RC_USED + 2
    case (One, SharedRef) => RC_USED + RC_SHARED + 2
    case (Cow(_), CowRef) => raw + 1
    case (Shared(_), SharedRef) => raw + 1
    case _ => raw
  }

  predicate Mismatch(kind: RefKind, seen: RefCount) {
    (seen.Cow? && kind.SharedRef?) || (seen.Shared? && kind.CowRef?)
  }

  /** The store or fetch_sub of `remove_ref`. */
  function RemoveWord(raw: nat, seen: RefCount): nat {
    if seen.One? || raw == 0 then RC_USED else raw - 1
  }

  predicate ToldToFree(raw: nat, seen: RefCount) {
    seen.One? || FromRaw(RemoveWord(raw, seen)).None?
  }

  function Apply(s: State, r: nat, act: Action): State
    requires r in s.refs && match act
                            case LoadAdd(_) => FromRaw(s.raw).Some?
                            case LoadRemove => FromRaw(s.raw).Some?
                            case AddStep(_) => s.refs[r].Adding?
                            case RemoveStep => s.refs[r].Removing?
                            case Undo => s.raw > 0
  {
    match act
    case LoadAdd(kind) => s.(refs := s.refs[r := Adding(kind, FromRaw(s.raw).value)])
    case AddStep(newcomer) =>
      var p := s.refs[r];
      if Mismatch(p.kind, p.seen) then s.(refs := s.refs[r := Steady])
      else
        var raw := AddWord(s.raw, p.kind, p.seen);
        if !p.seen.One? && RawCount(s.raw) >= RC_MAX then s.(raw := raw, refs := s.refs[r := Undoing])
        else s.(raw := raw, refs := s.refs[r := Steady][newcomer := Steady])
    case Undo => s.(raw := s.raw - 1, refs := s.refs[r := Steady])
    case LoadRemove => s.(refs := s.refs[r := Removing(FromRaw(s.raw).value)])
    case RemoveStep =>
      var p := s.refs[r];
      State(RemoveWord(s.raw, p.seen), s.refs - {r}, s.told + if ToldToFree(s.raw, p.seen) then 1 else 0)
  }

  // The invariant.

  predicate WordIs(raw: nat, n: nat) {
    raw == RC_USED + n || raw == RC_USED + RC_SHARED + n
  }

  /** An owner that saw a count of one is alone; one that saw more still sees the right sharing bit. */
  predicate SeenOk(raw: nat, refs: Refs, r: nat, seen: RefCount) {
    match seen
    case One => refs.Keys == {r}
    case Cow(_) => !SharedBit(raw)
    case Shared(_) => SharedBit(raw)
  }

  ghost predicate SeensOk(raw: nat, refs: Refs) {
    forall r | r in refs && (refs[r].Adding? || refs[r].Removing?) :: SeenOk(raw, refs, r, refs[r].seen)
  }

  ghost predicate Inv(s: State) {
    && WordIs(s.raw, |s.refs| + |Over(s.refs)|)
    && |s.refs| <= RC_MAX && |InFlight(s.refs)| <= MAX_IN_FLIGHT
    && SeensOk(s.raw, s.refs)
    && s.told == (if s.refs == map[] then 1 else 0)
  }

  /** Reading a word back. */
  lemma WordFacts(raw: nat, n: nat)
    requires WordIs(raw, n) && n < RC_SHARED
    ensures UsedBit(raw) && RawCount(raw) == n && (SharedBit(raw) <==> raw == RC_USED + RC_SHARED + n)
    ensures FromRaw(raw) == if n == 0 then None else if n == 1 then Some(One)
                            else if SharedBit(raw) then Some(Shared(n)) else Some(Cow(n))
  {
  }

  /** What an owner's load, or a thread about to write, can rely on. */
  lemma Facts(s: State, r: nat)
    requires Inv(s) && r in s.refs
    ensures |Over(s.refs)| <= |InFlight(s.refs)| && |s.refs| >= 1 && s.told == 0
    ensures FromRaw(s.raw).Some? && FromRaw(s.raw).value.Count() == |s.refs| + |Over(s.refs)|
    ensures UsedBit(s.raw) && RawCount(s.raw) == |s.refs| + |Over(s.refs)| < RC_SHARED
    ensures s.raw > 0
  {
    SubsetSize(Over(s.refs), InFlight(s.refs));
    SubsetSize({r}, s.refs.Keys);
    WordFacts(s.raw, |s.refs| + |Over(s.refs)|);
    hide WordIs, SeensOk, FromRaw, RawCount, UsedBit, SharedBit;
  }

  /** No step of an owner can panic: the loads find a used word, and nothing underflows. */
  lemma Defined(s: State, r: nat, act: Action)
    requires Inv(s) && Enabled(s, r, act)
    ensures Apply.requires(s, r, act)
  {
    Facts(s, r);
  }

  lemma InFlightAfter(refs: Refs, r: nat, p: Pc)
    requires r in refs
    ensures InFlight(refs[r := p]) == (if p.Steady? then InFlight(refs) - {r} else InFlight(refs) + {r})
    ensures Over(refs[r := p]) == (if p.Undoing? then Over(refs) + {r} else Over(refs) - {r})
    ensures |refs[r := p]| == |refs|
  {
    assert refs[r := p].Keys == refs.Keys;
  }

  lemma LoadStep(s: State, r: nat, p: Pc)
    requires Inv(s) && r in s.refs && s.refs[r].Steady? && |InFlight(s.refs)| < MAX_IN_FLIGHT
    requires (p.Adding? || p.Removing?) && FromRaw(s.raw) == Some(p.seen)
    ensures Inv(s.(refs := s.refs[r := p]))
  {
    Facts(s, r);
    WordFacts(s.raw, |s.refs| + |Over(s.refs)|);
    InFlightAfter(s.refs, r, p);
    if p.seen.One? { Alone(s.refs, r); }
    hide Over, InFlight, WordIs, RawCount, UsedBit, SharedBit;
  }

  lemma Alone(refs: Refs, r: nat)
    requires r in refs && |refs| == 1
    ensures refs.Keys == {r}
  {
    assert refs.Keys == {r} + (refs.Keys - {r});
  }

  /** Loads stay good when owner `r` has written, others did not move, and the sharing bit is the same. */
  lemma SeensKept(raw: nat, refs: Refs, r: nat, word: nat, next: Refs)
    requires SeensOk(raw, refs) && r in refs && SharedBit(word) == SharedBit(raw)
    requires forall q | q in next && (next[q].Adding? || next[q].Removing?) :: q != r && q in refs && next[q] == refs[q]
    ensures SeensOk(word, next)
  {
    hide SharedBit;
  }

  /** Adding to or subtracting from the count leaves the two flag bits alone. */
  lemma CountMoves(raw: nat, n: nat)
    requires WordIs(raw, n) && n < RC_SHARED
    ensures n + 1 < RC_SHARED ==> WordIs(raw + 1, n + 1) && SharedBit(raw + 1) == SharedBit(raw)
    ensures n > 0 ==> raw > 0 && WordIs(raw - 1, n - 1) && SharedBit(raw - 1) == SharedBit(raw)
  {
    WordFacts(raw, n);
    if n + 1 < RC_SHARED { WordFacts(raw + 1, n + 1); }
    if n > 0 { WordFacts(raw - 1, n - 1); }
    hide SharedBit, RawCount, UsedBit, FromRaw;
  }

  lemma OverBound(refs: Refs, r: nat)
    requires r in refs && |refs| <= RC_MAX && |InFlight(refs)| <= MAX_IN_FLIGHT && !refs[r].Steady? && !refs[r].Undoing?
    ensures |refs| + |Over(refs)| + 1 < RC_SHARED
  {
    assert Over(refs) + {r} <= InFlight(refs);
    SubsetSize(Over(refs) + {r}, InFlight(refs));
  }

  lemma MismatchStep(s: State, r: nat)
    requires Inv(s) && r in s.refs && s.refs[r].Adding?
    ensures Inv(s.(refs := s.refs[r := Steady]))
  {
    Facts(s, r);
    InFlightAfter(s.refs, r, Steady);
    SubsetSize(InFlight(s.refs) - {r}, InFlight(s.refs));
    assert Over(s.refs) - {r} == Over(s.refs);
    SeensSettle(s.raw, s.refs, r);
    hide Over, InFlight, WordIs, SeensOk;
  }

  lemma SeensSettle(raw: nat, refs: Refs, r: nat)
    requires SeensOk(raw, refs) && r in refs
    ensures SeensOk(raw, refs[r := Steady])
  {
    assert refs[r := Steady].Keys == refs.Keys;
    hide SharedBit;
  }

  /** The plain store of the only owner: there are two references now. */
  lemma FirstShareStep(s: State, r: nat, newcomer: nat, raw: nat)
    requires Inv(s) && r in s.refs && s.refs[r].Adding? && s.refs[r].seen.One? && newcomer !in s.refs
    requires raw == RC_USED + 2 || raw == RC_USED + RC_SHARED + 2
    ensures Inv(s.(raw := raw, refs := s.refs[r := Steady][newcomer := Steady]))
  {
    Facts(s, r);
    assert s.refs.Keys == {r};
    var next := s.refs[r := Steady][newcomer := Steady];
    assert next == map[r := Steady, newcomer := Steady] && next.Keys == {r, newcomer};
    assert Over(next) == {} && InFlight(next) == {};
  }

  lemma OverflowStep(s: State, r: nat)
    requires Inv(s) && r in s.refs && s.refs[r].Adding? && !s.refs[r].seen.One?
    ensures Inv(s.(raw := s.raw + 1, refs := s.refs[r := Undoing]))
  {
    Facts(s, r);
    OverBound(s.refs, r);
    CountMoves(s.raw, |s.refs| + |Over(s.refs)|);
    InFlightAfter(s.refs, r, Undoing);
    assert r !in Over(s.refs) && InFlight(s.refs) + {r} == InFlight(s.refs);
    SeensKept(s.raw, s.refs, r, s.raw + 1, s.refs[r := Undoing]);
    hide Over, InFlight, WordIs, SeensOk, SharedBit;
  }

  lemma JoinStep(s: State, r: nat, newcomer: nat)
    requires Inv(s) && r in s.refs && s.refs[r].Adding? && !s.refs[r].seen.One? && newcomer !in s.refs
    requires RawCount(s.raw) < RC_MAX
    ensures Inv(s.(raw := s.raw + 1, refs := s.refs[r := Steady][newcomer := Steady]))
  {
    Facts(s, r);
    OverBound(s.refs, r);
    CountMoves(s.raw, |s.refs| + |Over(s.refs)|);
    var next := s.refs[r := Steady][newcomer := Steady];
    assert Over(next) == Over(s.refs) && InFlight(next) == InFlight(s.refs) - {r};
    assert next.Keys == s.refs.Keys + {newcomer};
    SubsetSize(InFlight(s.refs) - {r}, InFlight(s.refs));
    SeensKept(s.raw, s.refs, r, s.raw + 1, next);
    hide Over, InFlight, WordIs, SeensOk, SharedBit, RawCount;
  }

  lemma UndoStep(s: State, r: nat)
    requires Inv(s) && r in s.refs && s.refs[r].Undoing?
    ensures s.raw > 0 && Inv(s.(raw := s.raw - 1, refs := s.refs[r := Steady]))
  {
    Facts(s, r);
    CountMoves(s.raw, |s.refs| + |Over(s.refs)|);
    InFlightAfter(s.refs, r, Steady);
    assert r in Over(s.refs);
    SubsetSize(InFlight(s.refs) - {r}, InFlight(s.refs));
    SeensKept(s.raw, s.refs, r, s.raw - 1, s.refs[r := Steady]);
    hide Over, InFlight, WordIs, SeensOk, SharedBit;
  }

  /** Whatever it saw, an owner is told to free exactly when its reference is the last. */
  lemma ToldIsLast(s: State, r: nat)
    requires Inv(s) && r in s.refs && s.refs[r].Removing?
    ensures ToldToFree(s.raw, s.refs[r].seen) <==> s.refs.Keys == {r}
  {
    Facts(s, r);
    var n := |s.refs| + |Over(s.refs)|;
    CountMoves(s.raw, n);
    WordFacts(s.raw - 1, n - 1);
    if n == 1 { Alone(s.refs, r); }
    if s.refs.Keys == {r} { assert |s.refs.Keys| == 1; assert Over(s.refs) == {}; }
    assert s.refs[r].seen.One? ==> s.refs.Keys == {r};
    hide Over, InFlight, WordIs, SeensOk, SharedBit, RawCount, UsedBit;
  }

  lemma RemoveStepKeeps(s: State, r: nat)
    requires Inv(s) && r in s.refs && s.refs[r].Removing?
    ensures Inv(Apply(s, r, RemoveStep))
  {
    Facts(s, r);
    ToldIsLast(s, r);
    var n := |s.refs| + |Over(s.refs)|;
    var next := s.refs - {r};
    assert next.Keys == s.refs.Keys - {r};
    assert |next| == |next.Keys| == |s.refs| - 1;
    assert Over(next) == Over(s.refs) && InFlight(next) == InFlight(s.refs) - {r};
    SubsetSize(InFlight(s.refs) - {r}, InFlight(s.refs));
    assert s.refs.Keys == next.Keys + {r};
    if s.refs.Keys == {r} { assert next == map[] && Over(next) == {}; }
    if s.refs[r].seen.One? {
    } else {
      CountMoves(s.raw, n);
      SeensKept(s.raw, s.refs, r, s.raw - 1, next);
    }
    hide Over, InFlight, ToldToFree, SharedBit, FromRaw;
  }

  lemma Step(s: State, r: nat, act: Action)
    requires Inv(s) && Enabled(s, r, act)
    ensures Apply.requires(s, r, act) && Inv(Apply(s, r, act))
  {
    Defined(s, r, act);
    match act {
      case LoadAdd(kind) => LoadStep(s, r, Adding(kind, FromRaw(s.raw).value));
      case LoadRemove => LoadStep(s, r, Removing(FromRaw(s.raw).value));
      case Undo => UndoStep(s, r);
      case RemoveStep => RemoveStepKeeps(s, r);
      case AddStep(newcomer) => AddStepKeeps(s, r, newcomer);
    }
    hide *;
  }

  lemma AddStepKeeps(s: State, r: nat, newcomer: nat)
    requires Inv(s) && r in s.refs && s.refs[r].Adding? && newcomer !in s.refs
    ensures Inv(Apply(s, r, AddStep(newcomer)))
  {
    hide Inv, RawCount;
    var p := s.refs[r];
    if Mismatch(p.kind, p.seen) {
      MismatchStep(s, r);
    } else if p.seen.One? {
      FirstShareStep(s, r, newcomer, AddWord(s.raw, p.kind, p.seen));
    } else if RawCount(s.raw) >= RC_MAX {
      OverflowStep(s, r);
    } else {
      JoinStep(s, r, newcomer);
    }
  }

  // Runs.

  datatype Move = Move(ref: nat, act: Action)

  /** Any owner takes its next step at any time, from a frame with one reference. */
  ghost predicate Execution(states: seq<State>, moves: seq<Move>) {
    && |states| == |moves| + 1
    && (exists r :: states[0] == State(RC_USED + 1, map[r := Steady], 0))
    && forall i | 0 <= i < |moves| ::
         && Enabled(states[i], moves[i].ref, moves[i].act) && Apply.requires(states[i], moves[i].ref, moves[i].act)
         && states[i + 1] == Apply(states[i], moves[i].ref, moves[i].act)
  }

  lemma {:induction false} RunKeeps(states: seq<State>, moves: seq<Move>, i: nat)
    requires Execution(states, moves) && i < |states|
    ensures Inv(states[i])
  {
    if i == 0 {
      var r :| states[0] == State(RC_USED + 1, map[r := Steady], 0);
      Starts(r);
    } else {
      RunKeeps(states, moves, i - 1);
      Step(states[i - 1], moves[i - 1].ref, moves[i - 1].act);
      hide *;
    }
  }

  lemma Starts(r: nat)
    ensures Inv(State(RC_USED + 1, map[r := Steady], 0))
  {
    var refs: Refs := map[r := Steady];
    assert Over(refs) == {} && InFlight(refs) == {};
    assert refs.Keys == {r};
    assert refs != map[];
  }

  /**
   In every interleaving the used bit stays set, the count is the number of references plus the adds
   that are being undone, no next step of any owner panics, and exactly one owner is told to free:
   the last.
   */
  lemma CountedRight(states: seq<State>, moves: seq<Move>, i: nat, r: nat, act: Action)
    requires Execution(states, moves) && i < |states|
    ensures var s := states[i];
            && UsedBit(s.raw) && RawCount(s.raw) == |s.refs| + |Over(s.refs)|
            && s.told == (if s.refs == map[] then 1 else 0)
            && (Enabled(s, r, act) ==> Apply.requires(s, r, act))
  {
    var s := states[i];
    RunKeeps(states, moves, i);
    hide Execution;
    SubsetSize(Over(s.refs), InFlight(s.refs));
    WordFacts(s.raw, |s.refs| + |Over(s.refs)|);
    if Enabled(s, r, act) { Defined(s, r, act); }
    hide Enabled, WordIs, SeensOk, UsedBit, RawCount, Over, InFlight, Apply;
  }

  /** A successful add: the word now says its kind. */
  lemma AddedKind(s: State, r: nat, newcomer: nat)
    requires Inv(s) && Enabled(s, r, AddStep(newcomer)) && newcomer in Apply(s, r, AddStep(newcomer)).refs
    ensures SharedBit(Apply(s, r, AddStep(newcomer)).raw) <==> s.refs[r].kind.SharedRef?
  {
    Facts(s, r);
    CountMoves(s.raw, |s.refs| + |Over(s.refs)|);
    WordFacts(RC_USED + 2, 2);
    WordFacts(RC_USED + RC_SHARED + 2, 2);
    hide WordIs, Over, InFlight, RawCount, UsedBit, SharedBit, FromRaw;
  }

  /** While two references are left, no step changes the sharing bit. */
  lemma KindKept(s: State, r: nat, act: Action)
    requires Inv(s) && Enabled(s, r, act) && |s.refs| >= 2
    ensures Apply.requires(s, r, act) && SharedBit(Apply(s, r, act).raw) == SharedBit(s.raw)
  {
    Facts(s, r);
    CountMoves(s.raw, |s.refs| + |Over(s.refs)|);
    assert s.refs.Keys != {r};
    if act.AddStep? { OverBound(s.refs, r); }
    if act.AddStep? || act.RemoveStep? { assert SeenOk(s.raw, s.refs, r, s.refs[r].seen); }
    hide WordIs, Over, InFlight, RawCount, UsedBit, SharedBit, FromRaw;
  }

  /**
   In every run, from a successful add on and for as long as two references are left, the word says what kind of
   reference was added. So all references that exist together are of one kind.
   */
  lemma {:induction false} KindIs(states: seq<State>, moves: seq<Move>, i: nat, j: nat)
    requires Execution(states, moves) && i < j < |states| && moves[i].act.AddStep?
    requires moves[i].act.newcomer in states[i + 1].refs && forall k | i < k <= j :: |states[k].refs| >= 2
    ensures moves[i].ref in states[i].refs && states[i].refs[moves[i].ref].Adding?
    ensures FromRaw(states[j].raw).Some?
    ensures var kind := states[i].refs[moves[i].ref].kind;
            if kind.SharedRef? then FromRaw(states[j].raw).value.Shared? else FromRaw(states[j].raw).value.Cow?
  {
    KindBit(states, moves, i, j);
    RunKeeps(states, moves, j);
    var s := states[j];
    SubsetSize(Over(s.refs), InFlight(s.refs));
    WordFacts(s.raw, |s.refs| + |Over(s.refs)|);
    hide Execution, WordIs, Over, InFlight, RawCount, UsedBit, SharedBit, FromRaw, SeensOk;
  }

  lemma {:induction false} KindBit(states: seq<State>, moves: seq<Move>, i: nat, j: nat)
    requires Execution(states, moves) && i < j < |states| && moves[i].act.AddStep?
    requires moves[i].act.newcomer in states[i + 1].refs && forall k | i < k <= j :: |states[k].refs| >= 2
    ensures moves[i].ref in states[i].refs && states[i].refs[moves[i].ref].Adding?
    ensures SharedBit(states[j].raw) <==> states[i].refs[moves[i].ref].kind.SharedRef?
  {
    hide Inv, Apply, SharedBit;
    RunKeeps(states, moves, j - 1);
    if j == i + 1 {
      AddedKind(states[i], moves[i].ref, moves[i].act.newcomer);
    } else {
      KindBit(states, moves, i, j - 1);
      KindKept(states[j - 1], moves[j - 1].ref, moves[j - 1].act);
    }
  }

  /** A reference's kind cannot change between an owner's load and its write. */
  lemma KindStable(s: State, r: nat, q: nat, act: Action)
    requires Inv(s) && Enabled(s, q, act) && q != r && r in s.refs
    requires s.refs[r].Adding? || s.refs[r].Removing?
    ensures Apply.requires(s, q, act) && r in Apply(s, q, act).refs && Apply(s, q, act).refs[r] == s.refs[r]
    ensures SeenOk(Apply(s, q, act).raw, Apply(s, q, act).refs, r, s.refs[r].seen)
  {
    Step(s, q, act);
    Others(s, r, q, act);
    hide SeenOk, Apply;
  }

  lemma Others(s: State, r: nat, q: nat, act: Action)
    requires Enabled(s, q, act) && Apply.requires(s, q, act) && q != r && r in s.refs
    ensures r in Apply(s, q, act).refs && Apply(s, q, act).refs[r] == s.refs[r]
  {
  }

  /** With no other operation in between, the load and the write together are the plain `add_ref`. */
  lemma AddAlone(s: State, r: nat, kind: RefKind, newcomer: nat)
    requires Inv(s) && Enabled(s, r, LoadAdd(kind)) && newcomer !in s.refs && FromRaw(s.raw).Some?
    ensures var t := Apply(Apply(s, r, LoadAdd(kind)), r, AddStep(newcomer));
            match AddRef(FromRaw(s.raw).value, kind)
            case Added(rc) => FromRaw(t.raw) == Some(rc) && t.refs == s.refs[newcomer := Steady]
            case RcOverflow => t.raw == s.raw + 1 && t.refs == s.refs[r := Undoing]
            case CowToShared => t == s && FromRaw(s.raw).value.Cow? && kind.SharedRef?
            case SharedToCow => t == s && FromRaw(s.raw).value.Shared? && kind.CowRef?
  {
    Facts(s, r);
    var n := |s.refs| + |Over(s.refs)|;
    WordFacts(s.raw, n);
    CountMoves(s.raw, n);
    if n + 1 < RC_SHARED { WordFacts(s.raw + 1, n + 1); }
    WordFacts(RC_USED + 2, 2);
    WordFacts(RC_USED + RC_SHARED + 2, 2);
    assert s.refs[r := Steady] == s.refs;
    hide Inv, WordIs, UsedBit, RawCount, SharedBit, Over;
  }

  lemma RemoveAlone(s: State, r: nat)
    requires Inv(s) && Enabled(s, r, LoadRemove) && FromRaw(s.raw).Some?
    ensures var t := Apply(Apply(s, r, LoadRemove), r, RemoveStep);
            && FromRaw(t.raw) == RemoveRef(FromRaw(s.raw).value)
            && (t.told > s.told <==> RemoveRef(FromRaw(s.raw).value).None?)
            && t.refs == s.refs - {r}
  {
    Facts(s, r);
    var n := |s.refs| + |Over(s.refs)|;
    WordFacts(s.raw, n);
    CountMoves(s.raw, n);
    WordFacts(s.raw - 1, n - 1);
    WordFacts(RC_USED, 0);
    hide Inv, WordIs, UsedBit, RawCount, SharedBit, Over;
  }
}
