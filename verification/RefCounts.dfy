/** The reference count of a used frame (src/memory/mod.rs, `RefCount` and `PageInfo::add_ref`/`remove_ref`). */
module RefCounts {
  import opened Wrappers

  const RC_USED: nat := 0x8000_0000_0000_0000
  const RC_SHARED: nat := 0x4000_0000_0000_0000
  const RC_MAX: nat := 0x2000_0000_0000_0000
  const WORD: nat := 0x1_0000_0000_0000_0000

  datatype RefKind = CowRef | SharedRef

  datatype RefCount = One | Shared(n: nat) | Cow(n: nat) {
    function Count(): nat {
      match this
      case One => 1
      case Shared(n) => n
      case Cow(n) => n
    }

    predicate AllowsWritable() { !Cow? }
  }

  datatype AddRefResult = Added(rc: RefCount) | CowToShared | SharedToCow | RcOverflow

  predicate UsedBit(raw: nat) { raw / RC_USED % 2 == 1 }
  predicate SharedBit(raw: nat) { raw / RC_SHARED % 2 == 1 }
  function RawCount(raw: nat): nat { raw % RC_SHARED }

  function FromRaw(raw: nat): Option<RefCount> {
    if !UsedBit(raw) || RawCount(raw) == 0 then None
    else if RawCount(raw) == 1 then Some(One)
    else if SharedBit(raw) then Some(Shared(RawCount(raw)))
    else Some(Cow(RawCount(raw)))
  }

  function ToRaw(rc: RefCount): nat {
    match rc
    case One => RC_USED + 1
    case Shared(n) => RC_USED + RC_SHARED + n
    case Cow(n) => RC_USED + n
  }

  /** A count that fits the word comes back as stored. */
  lemma RawRoundTrip(rc: RefCount)
    requires rc.One? || 2 <= rc.n < RC_SHARED
    ensures FromRaw(ToRaw(rc)) == Some(rc) && ToRaw(rc) < WORD && UsedBit(ToRaw(rc))
  {
  }

  /** Every used word with a count is, up to the meaningless sharing bit of a count of one, a stored count. */
  lemma RawCanonical(raw: nat)
    requires raw < WORD && FromRaw(raw).Some?
    ensures ToRaw(FromRaw(raw).value) == raw || (RawCount(raw) == 1 && raw == RC_USED + RC_SHARED + 1)
  {
  }

  /** `add_ref` by the only operation under way. */
  function AddRef(rc: RefCount, kind: RefKind): AddRefResult {
    match (rc, kind)
    case (One, CowRef) => Added(Cow(2))
    case (One, SharedRef) => Added(Shared(2))
    case (Cow(n), CowRef) => if n >= RC_MAX then RcOverflow else Added(Cow(n + 1))
    case (Shared(n), SharedRef) => if n >= RC_MAX then RcOverflow else Added(Shared(n + 1))
    case (Cow(_), SharedRef) => CowToShared
    case (Shared(_), CowRef) => SharedToCow
  }

  /** `remove_ref`: `None` tells the caller to free the frame. */
  function RemoveRef(rc: RefCount): Option<RefCount> {
    match rc
    case One => None
    case Cow(n) => if n <= 1 then None else if n == 2 then Some(One) else Some(Cow(n - 1))
    case Shared(n) => if n <= 1 then None else if n == 2 then Some(One) else Some(Shared(n - 1))
  }
}
