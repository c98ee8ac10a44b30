/**
 * Capture stores: tables of spans indexed by group id. `VecStorer` keeps a growable list
 * of spans per group; `ArrayStorer` keeps a fixed M x N grid of optional spans.
 * `try_cap` runs a matcher on the cursor and records the span it returns.
 */
module Storers {
  import opened Errors
  import opened Spans
  import opened Text
  import opened Cursor
  import opened Regexes
  import opened Engine
  import opened Iters

  /** `vec![vec![]; capacity]`: `capacity` groups, none holding a span. */
  function EmptyGroups(capacity: nat): (g: seq<seq<Span>>)
    ensures |g| == capacity
    ensures forall id :: 0 <= id < capacity ==> g[id] == []
  {
    seq(capacity, _ => [])
  }

  class VecStorer {
    var spans: seq<seq<Span>>

    /** `new(capacity)`: exactly `capacity` empty groups. */
    constructor (capacity: nat)
      ensures spans == EmptyGroups(capacity)
    {
      spans := EmptyGroups(capacity);
    }

    /** `new_with`: the groups given. */
    constructor NewWith(spans: seq<seq<Span>>)
      ensures this.spans == spans
    {
      this.spans := spans;
    }

    /** `with_capacity`: discards every span and starts over with `capacity` empty groups. */
    method WithCapacity(capacity: nat)
      modifies this
      ensures spans == EmptyGroups(capacity)
    {
      spans := EmptyGroups(capacity);
    }

    /** `len`: the number of groups; every group that holds a span has an id below it. */
    function Len(): (n: nat)
      reads this
      ensures forall id: nat :: Contain(id) ==> id < n
      ensures forall id: nat, index: nat :: SpanAt(id, index).Some? ==> id < n
    {
      |spans|
    }

    /** `is_empty`: no groups at all, so that no group holds a span. */
    predicate IsEmpty()
      reads this
      ensures IsEmpty() <==> Len() == 0
      ensures IsEmpty() ==> forall id: nat, index: nat :: SpanAt(id, index).None?
    {
      Len() == 0
    }

    /** `reset`: empties each group in turn; the number of groups stays. */
    method Reset()
      modifies this
      ensures spans == EmptyGroups(|old(spans)|)
    {
      var i := 0;
      while i < |spans|
        invariant i <= |spans| == |old(spans)|
        invariant forall k :: 0 <= k < i ==> spans[k] == []
        invariant forall k :: i <= k < |spans| ==> spans[k] == old(spans)[k]
      {
        spans := spans[i := []];
        i := i + 1;
      }
    }

    /** `contain`: the group exists and holds a span. */
    predicate Contain(id: nat)
      reads this
      ensures Contain(id) <==> id < |spans| && |spans[id]| > 0
    {
      id < |spans| && spans[id] != []
    }

    /** `add_span`: appends to group `id`, which must exist (the source panics otherwise). */
    method AddSpan(id: nat, span: Span)
      requires id < |spans|
      modifies this
      ensures spans == old(spans)[id := old(spans)[id] + [span]]
      ensures Contain(id)
    {
      spans := spans[id := spans[id] + [span]];
    }

    /** `clr_span`: empties group `id`; an id out of range changes nothing. */
    method ClrSpan(id: nat)
      modifies this
      ensures spans == if id < |old(spans)| then old(spans)[id := []] else old(spans)
      ensures !Contain(id)
    {
      if id < |spans| {
        spans := spans[id := []];
      }
    }

    /** `span(id, index)`: the index-th span of group `id`, or None when either is out of range. */
    function SpanAt(id: nat, index: nat): (r: Option<Span>)
      reads this
      ensures r.Some? <==> id < |spans| && index < |spans[id]|
      ensures r.Some? ==> r.value == spans[id][index]
    {
      if id < |spans| && index < |spans[id]| then Some(spans[id][index]) else None
    }

    /** `spans(id)`: the spans of group `id`, or None for a missing or empty group. */
    function Spans(id: nat): (r: Option<seq<Span>>)
      reads this
      ensures r.Some? <==> Contain(id)
      ensures r.Some? ==> r.value == spans[id] && |r.value| > 0
    {
      if id < |spans| && spans[id] != [] then Some(spans[id]) else None
    }

    /** `spans_iter`: a `SpanIterator` over the spans of group `id`, when it holds any. */
    method SpansIter(id: nat) returns (it: Option<SpanIterator>)
      ensures it.Some? <==> Contain(id)
      ensures it.Some? ==> fresh(it.value) && it.value.spans == spans[id] && it.value.offset == 0
    {
      match Spans(id)
      case None =>
        it := None;
      case Some(v) =>
        var i := new SpanIterator(v);
        it := Some(i);
    }

    /** `slice`: the data covered by the index-th span of group `id`. */
    function Slice(m: Mode, value: seq<int>, id: nat, index: nat): (r: Option<seq<int>>)
      reads this
      ensures r.Some? <==> SpanAt(id, index).Some? && GetBySpan(m, value, spans[id][index]).Some?
      ensures r.Some? ==> ByteLen(m, r.value) == spans[id][index].len
    {
      match SpanAt(id, index)
      case None => None
      case Some(s) => GetBySpan(m, value, s)
    }

    /** `slice_iter`: an `IteratorBySpan` over the data covered by group `id`, when it holds any span. */
    method SliceIter(m: Mode, value: seq<int>, id: nat) returns (it: Option<IteratorBySpan>)
      ensures it.Some? <==> Contain(id)
      ensures it.Some? ==> fresh(it.value) && it.value.spans == spans[id] && it.value.cur == 0
      ensures it.Some? ==> it.value.mode == m && it.value.value == value
    {
      match Spans(id)
      case None =>
        it := None;
      case Some(v) =>
        var i := new IteratorBySpan(m, value, v);
        it := Some(i);
    }

    /**
     * `try_cap`: runs `pat` at the cursor; on success the span is appended to group `id`
     * and returned, on failure no group changes. Group `id` must exist: the source panics
     * otherwise, after the match has run.
     */
    method TryCap(id: nat, ctx: RegexCtx, pat: Regex) returns (r: Result<Span>)
      requires id < |spans| && ctx.Valid() && Match(pat, ctx.Source(), ctx.offset).Done?
      modifies this, ctx
      ensures ctx.Valid() && ctx.dat == old(ctx.dat)
      ensures Match(pat, old(ctx.Source()), old(ctx.offset)) == Done(r, ctx.offset)
      ensures spans == if r.Ok? then old(spans)[id := old(spans)[id] + [r.value]] else old(spans)
      ensures r.Ok? ==> Contain(id)
    {
      r := TryMat(pat, ctx);
      if r.Ok? {
        AddSpan(id, r.value);
      }
    }
  }

  /**
   * `ArrayStorer<M, N>`: M groups of N slots, each holding a span or None. Slots are
   * written by index rather than appended.
   */
  class ArrayStorer {
    const spans: array2<Option<Span>>

    /** `new`: every slot empty. */
    constructor (m: nat, n: nat)
      ensures fresh(spans) && spans.Length0 == m && spans.Length1 == n
      ensures forall i, j :: 0 <= i < m && 0 <= j < n ==> spans[i, j].None?
    {
      spans := new Option<Span>[m, n]((i, j) => None);
    }

    /** `len`: the number of groups, M; every group that holds a span has an id below it. */
    function Len(): (n: nat)
      reads this, spans
      ensures forall id: nat :: Contain(id) ==> id < n
      ensures forall id: nat, index: nat :: SpanAt(id, index).Some? ==> id < n
    {
      spans.Length0
    }

    /** `reset`: every slot of every group back to None. */
    method Reset()
      modifies spans
      ensures forall i, j :: 0 <= i < spans.Length0 && 0 <= j < spans.Length1 ==> spans[i, j].None?
    {
      for i := 0 to spans.Length0
        invariant forall a, b :: 0 <= a < i && 0 <= b < spans.Length1 ==> spans[a, b].None?
      {
        for j := 0 to spans.Length1
          invariant forall a, b :: 0 <= a < i && 0 <= b < spans.Length1 ==> spans[a, b].None?
          invariant forall b :: 0 <= b < j ==> spans[i, b].None?
        {
          spans[i, j] := None;
        }
      }
    }

    /** `contain`: group `id` exists and some slot of it holds a span. */
    predicate Contain(id: nat)
      reads this, spans
      ensures Contain(id) ==> id < spans.Length0
      ensures forall index: nat :: SpanAt(id, index).Some? ==> Contain(id)
    {
      id < spans.Length0 && exists j :: 0 <= j < spans.Length1 && spans[id, j].Some?
    }

    /** A group holds a span exactly when one of its slots does. */
    lemma ContainSomeSlot(id: nat)
      ensures Contain(id) <==> exists index: nat :: index < spans.Length1 && SpanAt(id, index).Some?
    {
      if Contain(id) {
        var j :| 0 <= j < spans.Length1 && spans[id, j].Some?;
        assert SpanAt(id, j).Some?;
      }
    }

    /** `set_span`: writes slot [id][index] and no other; both must be in range (the source panics otherwise). */
    method SetSpan(id: nat, index: nat, span: Span)
      requires id < spans.Length0 && index < spans.Length1
      modifies spans
      ensures spans[id, index] == Some(span)
      ensures Contain(id)
      ensures forall i, j :: 0 <= i < spans.Length0 && 0 <= j < spans.Length1 && (i != id || j != index) ==>
        spans[i, j] == old(spans[i, j])
    {
      spans[id, index] := Some(span);
    }

    /** `clr_span`: empties group `id`; an id out of range changes nothing. */
    method ClrSpan(id: nat)
      modifies spans
      ensures forall i, j :: 0 <= i < spans.Length0 && 0 <= j < spans.Length1 ==>
        spans[i, j] == if i == id then None else old(spans[i, j])
      ensures !Contain(id)
    {
      if id < spans.Length0 {
        for j := 0 to spans.Length1
          invariant forall i, b :: 0 <= i < spans.Length0 && 0 <= b < spans.Length1 ==>
            spans[i, b] == if i == id && b < j then None else old(spans[i, b])
        {
          spans[id, j] := None;
        }
      }
    }

    /** `span(id, index)`: the span in slot [id][index], or None when out of range or empty. */
    function SpanAt(id: nat, index: nat): (r: Option<Span>)
      reads this, spans
      ensures r.Some? <==> id < spans.Length0 && index < spans.Length1 && spans[id, index].Some?
      ensures r.Some? ==> r == spans[id, index]
    {
      if id < spans.Length0 && index < spans.Length1 then spans[id, index] else None
    }

    /**
     * `spans(id)`: the slots of group `id`. As written it is None only when the group is
     * missing or N is 0, so a group whose slots are all None still gives Some.
     */
    function Spans(id: nat): (r: Option<seq<Option<Span>>>)
      reads this, spans
      ensures r.Some? <==> id < spans.Length0 && spans.Length1 > 0
      ensures r.Some? ==>
        (|r.value| == spans.Length1 && forall j :: 0 <= j < spans.Length1 ==> r.value[j] == spans[id, j])
    {
      if id < spans.Length0 && spans.Length1 > 0 then Some(seq(spans.Length1, j requires 0 <= j < spans.Length1 reads spans => spans[id, j])) else None
    }

    /** `slice`: the data covered by the span in slot [id][index]. */
    function Slice(m: Mode, value: seq<int>, id: nat, index: nat): (r: Option<seq<int>>)
      reads this, spans
      ensures r.Some? <==> SpanAt(id, index).Some? && GetBySpan(m, value, SpanAt(id, index).value).Some?
      ensures r.Some? ==> ByteLen(m, r.value) == SpanAt(id, index).value.len
    {
      match SpanAt(id, index)
      case None => None
      case Some(s) => GetBySpan(m, value, s)
    }

    /**
     * `try_cap`: runs `pat` at the cursor; on success the span goes into slot [id][index]
     * and nowhere else, on failure no slot changes. Both indices must be in range.
     */
    method TryCap(id: nat, index: nat, ctx: RegexCtx, pat: Regex) returns (r: Result<Span>)
      requires id < spans.Length0 && index < spans.Length1
      requires ctx.Valid() && Match(pat, ctx.Source(), ctx.offset).Done?
      modifies spans, ctx
      ensures ctx.Valid() && ctx.dat == old(ctx.dat)
      ensures Match(pat, old(ctx.Source()), old(ctx.offset)) == Done(r, ctx.offset)
      ensures forall i, j :: 0 <= i < spans.Length0 && 0 <= j < spans.Length1 ==>
        spans[i, j] == if r.Ok? && i == id && j == index then Some(r.value) else old(spans[i, j])
      ensures r.Ok? ==> Contain(id)
    {
      r := TryMat(pat, ctx);
      if r.Ok? {
        SetSpan(id, index, r.value);
      }
    }
  }
}
