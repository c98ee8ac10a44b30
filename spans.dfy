/** Spans: a beginning offset and a length, both in bytes. */
module Spans {
  import opened Errors

  /** 2^64: the modulus of `usize` arithmetic. */
  const USIZE_MOD: int := 0x1_0000_0000_0000_0000

  datatype Span = Span(beg: nat, len: nat)
  {
    const End: nat := beg + len

    /** `is_empty`: the span ends where it begins. */
    predicate IsEmpty()
      ensures IsEmpty() <==> End == beg
    {
      len == 0
    }
  }

  /** `Span::new` together with `is_empty`: a fresh span is empty exactly when its length is 0. */
  function NewSpan(beg: nat, len: nat): (s: Span)
    ensures s.beg == beg && s.End == beg + len
    ensures s.IsEmpty() <==> len == 0
  {
    Span(beg, len)
  }

  /**
   * `add_assign`, corrected: the span keeps its beginning and is extended to the end of
   * `other`. The caller must supply a span that starts no earlier than this one.
   */
  function AddAssign(s: Span, other: Span): (r: Span)
    requires other.beg >= s.beg
    ensures r.beg == s.beg && r.End == other.End
    ensures other.End >= s.End ==> r.beg <= s.beg && s.End <= r.End
  {
    Span(s.beg, other.End - s.beg)
  }

  /**
   * `add_assign` as written, with checked `usize` arithmetic: the intermediate
   * `other.len + other.beg - (self.beg + self.len)` is computed first, so the result is
   * None (a panic in a debug build) as soon as `other` ends before `self` does.
   */
  function AddAssignChecked(s: Span, other: Span): (r: Option<Span>)
    requires other.beg >= s.beg
    ensures r.Some? <==> other.End >= s.End
    ensures r.Some? ==> r.value == AddAssign(s, other)
  {
    var step := other.len + other.beg - (s.beg + s.len);
    if step < 0 then None else Some(Span(s.beg, s.len + step))
  }

  /** Merging is absorbing: merging `b` and then `c` equals merging `c` directly. */
  lemma AddAssignAbsorb(a: Span, b: Span, c: Span)
    requires b.beg >= a.beg && c.beg >= a.beg
    ensures AddAssign(AddAssign(a, b), c) == AddAssign(a, c)
  {
  }

  /** The as-written merge underflows on a span that ends before the receiver. */
  lemma AddAssignUnderflowWitness()
    ensures AddAssignChecked(Span(0, 5), Span(1, 1)).None?
    ensures AddAssign(Span(0, 5), Span(1, 1)) == Span(0, 2)
  {
  }
}
