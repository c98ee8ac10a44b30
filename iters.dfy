/**
 * Reading data back by span (`IndexBySpan::get_by_span`) and the two span iterators:
 * `IteratorBySpan`, which turns a list of spans into the slices they cover, and
 * `SpanIterator`, which hands out the spans themselves.
 */
module Iters {
  import opened Errors
  import opened Spans
  import opened Text

  /**
   * `get_by_span` on `str`, `[u8]` and `Vec<u8>` (and references to them): the units
   * between byte offsets `beg` and `beg + len`, or None when that end lies past the data
   * or, on text, when either end falls inside a code point.
   */
  function GetBySpan(m: Mode, s: seq<int>, span: Span): (r: Option<seq<int>>)
    ensures r.Some? <==> IndexAt(m, s, span.beg).Some? && IndexAt(m, s, span.End).Some?
    ensures span.End > ByteLen(m, s) ==> r.None?
    ensures r.Some? ==> ByteLen(m, r.value) == span.len
    ensures r.Some? ==>
      (IndexAt(m, s, span.beg).value <= IndexAt(m, s, span.End).value &&
       r.value == s[IndexAt(m, s, span.beg).value..IndexAt(m, s, span.End).value])
  {
    if IndexAt(m, s, span.beg).Some? && IndexAt(m, s, span.End).Some? then
      IndexAtMono(m, s, span.beg, span.End);
      Sub(m, s, span.beg, span.End)
    else
      None
  }

  /** On bytes, `get_by_span` is plain slicing of [beg, beg + len). */
  lemma GetBySpanBytes(s: seq<int>, span: Span)
    ensures GetBySpan(Bytes, s, span) == if span.End <= |s| then Some(s[span.beg..span.End]) else None
  {
    SubBytes(s, span.beg, span.End);
  }

  /** Reading back the span of a whole prefix gives that prefix. */
  lemma GetBySpanPrefix(m: Mode, s: seq<int>, k: nat)
    requires k <= |s|
    ensures GetBySpan(m, s, Span(0, ByteLen(m, s[..k]))) == Some(s[..k])
  {
    assert s[..0] == [];
    IndexAtUnique(m, s, 0, 0);
    IndexAtUnique(m, s, ByteLen(m, s[..k]), k);
  }

  /**
   * `IteratorBySpan`: walks the spans in order and yields the slice each one covers.
   * `cur` counts the calls to `next`, including those past the end.
   */
  class IteratorBySpan {
    const mode: Mode
    const value: seq<int>
    const spans: seq<Span>
    var cur: nat

    constructor (mode: Mode, value: seq<int>, spans: seq<Span>)
      ensures this.mode == mode && this.value == value && this.spans == spans && cur == 0
    {
      this.mode := mode;
      this.value := value;
      this.spans := spans;
      cur := 0;
    }

    /** `next`: the slice of span `cur` (None past the last span or for an unreadable span); `cur` moves on by one either way. */
    method Next() returns (r: Option<seq<int>>)
      modifies this
      ensures cur == old(cur) + 1
      ensures r == if old(cur) < |spans| then GetBySpan(mode, value, spans[old(cur)]) else None
    {
      var i := cur;
      cur := cur + 1;
      if i < |spans| {
        r := GetBySpan(mode, value, spans[i]);
      } else {
        r := None;
      }
    }

    /** `size_hint` as written: the number of spans, however many have been taken. */
    function SizeHint(): (h: (nat, Option<nat>))
      reads this
      ensures h == SizeHintAsWritten(spans, cur)
    {
      (|spans|, Some(|spans|))
    }
  }

  /** The `size_hint` of `IteratorBySpan`, as written: it ignores how far the iterator has gone. */
  function SizeHintAsWritten(spans: seq<Span>, cur: nat): (h: (nat, Option<nat>))
    ensures h.0 == |spans| && h.1 == Some(|spans|)
  {
    (|spans|, Some(|spans|))
  }

  /**
   * The `size_hint` an `ExactSizeIterator` must report: the number of spans not yet
   * visited. It is zero exactly when `next` has nothing more to give, and each call
   * to `next` takes one off it.
   */
  function SizeHintRemaining(spans: seq<Span>, cur: nat): (h: (nat, Option<nat>))
    ensures h.1 == Some(h.0)
    ensures h.0 == 0 <==> cur >= |spans|
    ensures cur < |spans| ==> h.0 == |spans[cur..]|
  {
    var n := if cur < |spans| then |spans| - cur else 0;
    (n, Some(n))
  }

  /**
   * After the only span has been read, the as-written hint still promises one item,
   * though `next` now returns None; the remaining count says zero.
   */
  lemma SizeHintStaleWitness(s: Span)
    ensures SizeHintAsWritten([s], 1) == (1, Some(1))
    ensures !(1 < |[s]|)
    ensures SizeHintRemaining([s], 1) == (0, Some(0))
  {
  }

  /** `SpanIterator`: hands out each span once, in order, and then None for ever. */
  class SpanIterator {
    const spans: seq<Span>
    var offset: nat

    ghost predicate Valid()
      reads this
    {
      offset <= |spans|
    }

    constructor (spans: seq<Span>)
      ensures this.spans == spans && offset == 0 && Valid()
    {
      this.spans := spans;
      offset := 0;
    }

    /** `next`: the span at `offset`, moving past it, or None at the end without moving. */
    method Next() returns (r: Option<Span>)
      requires Valid()
      modifies this
      ensures Valid()
      ensures old(offset) < |spans| ==> r == Some(spans[old(offset)]) && offset == old(offset) + 1
      ensures old(offset) == |spans| ==> r == None && offset == old(offset)
    {
      var o := offset;
      if o < |spans| {
        offset := offset + 1;
        r := Some(spans[o]);
      } else {
        r := None;
      }
    }

    /** Draining the iterator yields the spans not yet handed out, in order, and leaves it at the end. */
    method Drain() returns (out: seq<Span>)
      requires Valid()
      modifies this
      ensures Valid() && offset == |spans|
      ensures out == spans[old(offset)..]
    {
      out := [];
      ghost var start := offset;
      while true
        invariant Valid() && start <= offset
        invariant out == spans[start..offset]
        decreases |spans| - offset
      {
        var r := Next();
        if r.None? {
          return;
        }
        out := out + [r.value];
      }
    }
  }
}
