/**
 * `CRange`: a pair of bounds, used both as a unit predicate and as a repetition count range.
 */
module Ranges {

  /** `usize::MAX`. */
  const USIZE_MAX: int := 0xFFFF_FFFF_FFFF_FFFF

  datatype Bound = Included(v: nat) | Excluded(v: nat) | Unbounded

  datatype CRange = CRange(start: Bound, end: Bound)

  /**
   * `RangeBounds::contains`: the value lies within both bounds, so that no value below the
   * start's lowest one is admitted (`ContainsInterval` states the rest).
   */
  predicate Contains(r: CRange, x: int)
    ensures 0 <= x && Contains(r, x) ==> Lowest(r.start) <= x
  {
    (match r.start
     case Included(s) => s <= x
     case Excluded(s) => s < x
     case Unbounded => true)
    &&
    (match r.end
     case Included(e) => x <= e
     case Excluded(e) => x < e
     case Unbounded => true)
  }

  /** `Default`: both ends open. */
  function Default(): (r: CRange)
    ensures forall x :: Contains(r, x)
  {
    CRange(Unbounded, Unbounded)
  }

  /** `From<a..b>`. */
  function FromRange(a: nat, b: nat): (r: CRange)
    ensures forall x :: Contains(r, x) <==> a <= x < b
  {
    CRange(Included(a), Excluded(b))
  }

  /** `From<a..>`. */
  function FromRangeFrom(a: nat): (r: CRange)
    ensures forall x :: Contains(r, x) <==> a <= x
  {
    CRange(Included(a), Unbounded)
  }

  /** `From<..>`. */
  function FromRangeFull(): (r: CRange)
    ensures forall x :: Contains(r, x)
  {
    CRange(Unbounded, Unbounded)
  }

  /** `From<a..=b>`. */
  function FromRangeInclusive(a: nat, b: nat): (r: CRange)
    ensures forall x :: Contains(r, x) <==> a <= x <= b
  {
    CRange(Included(a), Included(b))
  }

  /** `From<..b>`. */
  function FromRangeTo(b: nat): (r: CRange)
    ensures forall x :: Contains(r, x) <==> x < b
  {
    CRange(Unbounded, Excluded(b))
  }

  /** `From<..=b>`. */
  function FromRangeToInclusive(b: nat): (r: CRange)
    ensures forall x :: Contains(r, x) <==> x <= b
  {
    CRange(Unbounded, Included(b))
  }

  /**
   * `From<integer>` for `CRange<usize>`: the value is cast with `as usize` (negative values
   * wrap to the top of the range) and becomes the single-value range v..=v.
   */
  function FromInt(v: int): (r: CRange)
    ensures forall x :: Contains(r, x) <==> x == v % (USIZE_MAX + 1)
  {
    var u := v % (USIZE_MAX + 1);
    FromRangeInclusive(u, u)
  }

  /** A bound fits in `usize`. */
  predicate UsizeBound(b: Bound)
  {
    b.Unbounded? || b.v <= USIZE_MAX
  }

  /** Some `usize` value lies within the range. */
  ghost predicate HasUsize(r: CRange)
  {
    exists x :: 0 <= x <= USIZE_MAX && Contains(r, x)
  }

  /**
   * `CRange<usize>::is_empty`, corrected: true exactly when no `usize` lies within the
   * bounds (see IsEmptyCorrect).
   */
  predicate IsEmpty(r: CRange)
    requires UsizeBound(r.start) && UsizeBound(r.end)
    ensures IsEmpty(r) <==> Lowest(r.start) > USIZE_MAX || !Contains(r, Lowest(r.start))
  {
    match r.start
    case Included(s) =>
      (match r.end
       case Included(e) => e < s
       case Excluded(e) => e <= s
       case Unbounded => false)
    case Excluded(s) =>
      (match r.end
       case Included(e) => e <= s
       case Excluded(e) => e <= s + 1
       case Unbounded => s == USIZE_MAX)
    case Unbounded =>
      (match r.end
       case Included(_) => false
       case Excluded(e) => e == 0
       case Unbounded => false)
  }

  /** The smallest `usize` a start bound admits, when it admits one. */
  function Lowest(b: Bound): nat
  {
    match b
    case Included(s) => s
    case Excluded(s) => s + 1
    case Unbounded => 0
  }

  /**
   * The values a range admits form an interval: every value from the start's lowest one
   * up to an admitted value is admitted too.
   */
  lemma ContainsInterval(r: CRange, x: int, y: int)
    requires 0 <= Lowest(r.start) <= y <= x && Contains(r, x)
    ensures Contains(r, y)
  {
  }

  lemma IsEmptyCorrect(r: CRange)
    requires UsizeBound(r.start) && UsizeBound(r.end)
    ensures IsEmpty(r) <==> !HasUsize(r)
  {
    var lo := Lowest(r.start);
    if !IsEmpty(r) {
      assert 0 <= lo <= USIZE_MAX && Contains(r, lo);
    }
  }

  /**
   * `is_empty` as written, in release arithmetic (`start + 1` wraps). It differs from
   * IsEmpty at Included(usize::MAX).., Excluded(usize::MAX).. and
   * (Excluded(usize::MAX), Excluded(_)).
   */
  function IsEmptyAsWritten(r: CRange): (b: bool)
    requires UsizeBound(r.start) && UsizeBound(r.end)
    ensures (r.start.Included? && r.end.Unbounded? && r.start.v == USIZE_MAX) ||
            (r.start.Excluded? && r.start.v == USIZE_MAX) || b == IsEmpty(r)
  {
    match r.start
    case Included(s) =>
      (match r.end
       case Included(e) => e < s
       case Excluded(e) => e <= s
       case Unbounded => s == USIZE_MAX)
    case Excluded(s) =>
      (match r.end
       case Included(e) => e <= s
       case Excluded(e) => e <= (s + 1) % (USIZE_MAX + 1)
       case Unbounded => false)
    case Unbounded =>
      (match r.end
       case Included(_) => false
       case Excluded(e) => e == 0
       case Unbounded => false)
  }

  /** The as-written `is_empty` calls non-empty ranges empty and the reverse. */
  lemma IsEmptyAsWrittenWitness()
    ensures IsEmptyAsWritten(CRange(Included(USIZE_MAX), Unbounded))
    ensures Contains(CRange(Included(USIZE_MAX), Unbounded), USIZE_MAX)
    ensures !IsEmptyAsWritten(CRange(Excluded(USIZE_MAX), Unbounded))
    ensures !HasUsize(CRange(Excluded(USIZE_MAX), Unbounded))
    ensures !IsEmptyAsWritten(CRange(Excluded(USIZE_MAX), Excluded(USIZE_MAX)))
    ensures IsEmpty(CRange(Excluded(USIZE_MAX), Excluded(USIZE_MAX)))
  {
    IsEmptyCorrect(CRange(Excluded(USIZE_MAX), Unbounded));
  }

  /** `clone_from` as written: both bounds are copied from the start bound. */
  function CloneFromAsWritten(start: Bound, end: Bound): (r: CRange)
    ensures r.start == start && r.end == r.start
  {
    CRange(start, start)
  }

  /** `clone_from`, corrected: the bounds of the given range, each from its own side. */
  function CloneFrom(start: Bound, end: Bound): (r: CRange)
    ensures forall x :: Contains(r, x) <==> Contains(CRange(start, end), x)
  {
    CRange(start, end)
  }

  /** Cloning `1..5` as written yields a range holding only 1. */
  lemma CloneFromWitness()
    ensures Contains(FromRange(1, 5), 2)
    ensures !Contains(CloneFromAsWritten(Included(1), Excluded(5)), 2)
    ensures Contains(CloneFrom(Included(1), Excluded(5)), 2)
  {
  }
}
