/** Identifiers and users (src/mccglobalid.cpp, src/mccuser.cpp). */
module GlobalIds {

  /** A matrix number and a number local to it, ordered lexicographically. */
  datatype GlobalId = GlobalId(mid: int, lid: int) {
    predicate Gt(other: GlobalId) {
      mid > other.mid || (mid == other.mid && lid > other.lid)
    }

    predicate Lt(other: GlobalId) {
      mid < other.mid || (mid == other.mid && lid < other.lid)
    }

    predicate Le(other: GlobalId) { !Gt(other) }
  }

  const NullID := GlobalId(-1, -1)

  /** Seconds a user keeps what it was given. */
  const DEFAULT_EXPIRE := 20

  /** `MCCUser::isExpired`, for a given reading of the clock. */
  predicate Expired(deadline: int, now: int) {
    now > deadline
  }

  /** The matrix number decides first and the local number among equals; the four comparisons are
      those of one total order, in which the null id is below every id of non-negative numbers. */
  lemma IdsAreOrdered(a: GlobalId, b: GlobalId)
    ensures a.mid < b.mid ==> a.Lt(b) && a.Le(b) && b.Gt(a) && !b.Le(a)
    ensures a.mid == b.mid ==> (a.Lt(b) <==> a.lid < b.lid) && (a.Le(b) <==> a.lid <= b.lid) && (a.Gt(b) <==> a.lid > b.lid)
    ensures a.Lt(b) <==> a.Le(b) && a != b
    ensures a.Gt(b) <==> b.Lt(a)
    ensures b.mid >= 0 ==> NullID.Lt(b) && NullID.mid == -1 && NullID.lid == -1
  {}
}
