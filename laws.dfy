/**
 * Properties of the matcher combinators, proved about the specification `Match`: when a
 * matcher is sure to return, what ordered and longest choice pick, that repetitions and
 * choices put the cursor back when they fail, how the combinators relate to each other.
 */
module Laws {
  import opened Errors
  import opened Spans
  import opened Text
  import opened Cursor
  import opened Ranges
  import opened Units
  import opened Regexes

  /** The outcome is a success. */
  predicate Succeeded(o: Outcome)
  {
    o.Done? && o.res.Ok?
  }

  /** The outcome is a failure (an error returned, not a loop that never ends). */
  predicate Failed(o: Outcome)
  {
    o.Done? && o.res.Err?
  }

  // ---------------------------------------------------------------------------------------
  // Termination

  /**
   * A matcher with no open-ended repetition: every loop in it has an upper bound on its
   * count, so running it always returns.
   */
  predicate Bounded(re: Regex)
  {
    match re
    case Unit(_, _, _) => true
    case Lit(_, _) => true
    case Consume(_) => true
    case ConsumeAll => true
    case AnchorStart => true
    case AnchorEnd => true
    case Empty => true
    case Fail => true
    case Assert(p, _) => Bounded(p)
    case Then(l, r) => Bounded(l) && Bounded(r)
    case IfThen(l, t, r) => Bounded(l) && Bounded(t) && Bounded(r)
    case Or(l, r) => Bounded(l) && Bounded(r)
    case Longest(l, r) => Bounded(l) && Bounded(r)
    case Suffix(p, s) => Bounded(p) && Bounded(s)
    case Prefix(p, m) => Bounded(p) && Bounded(m)
    case Enclose(o, p, c) => Bounded(o) && Bounded(p) && Bounded(c)
    case OptionPat(p) => Bounded(p)
    case Branch(_, p, o) => Bounded(p) && Bounded(o)
    case Repeat(p, rg) => RepeatLimit(rg).Some? && Bounded(p)
    case Repeat2(p, _, _) => Bounded(p)
    case Collect(_, _) => false
    case SepOnce(l, s, r) => Bounded(l) && Bounded(s) && Bounded(r)
    case Separate(_, _, _, _, _) => false
    case Separate2(p, s, _, _, _) => Bounded(p) && Bounded(s)
    case Choice(_, alts) => forall k :: 0 <= k < |alts| ==> Bounded(alts[k])
    case PairSlice(alts) => forall k :: 0 <= k < |alts| ==> Bounded(alts[k])
  }

  /** A matcher without open-ended repetition always returns. */
  lemma {:induction false} BoundedReturns(re: Regex, src: Src, off: nat)
    requires Bounded(re) && off <= src.Len()
    ensures Match(re, src, off).Done?
    decreases re, 1, 0, 0
  {
    match re
    case Unit(_, _, _) =>
    case Lit(_, _) =>
    case Consume(_) =>
    case ConsumeAll =>
    case AnchorStart =>
    case AnchorEnd =>
    case Empty =>
    case Fail =>
    case Assert(_, _) => BoundedNodeReturns(re, src, off);
    case Then(_, _) => BoundedNodeReturns(re, src, off);
    case Suffix(_, _) => BoundedNodeReturns(re, src, off);
    case Prefix(_, _) => BoundedNodeReturns(re, src, off);
    case IfThen(_, _, _) => BoundedNodeReturns(re, src, off);
    case Enclose(_, _, _) => BoundedNodeReturns(re, src, off);
    case SepOnce(_, _, _) => BoundedNodeReturns(re, src, off);
    case Or(_, _) => BoundedNodeReturns(re, src, off);
    case Longest(_, _) => BoundedNodeReturns(re, src, off);
    case OptionPat(_) => BoundedNodeReturns(re, src, off);
    case Branch(_, _, _) => BoundedNodeReturns(re, src, off);
    case Repeat(p, rg) => RepLoopReturns(re, p, RepeatLimit(rg), src, off, off, 0, Span(off, 0));
    case Repeat2(p, _, n) => RepLoopReturns(re, p, Some(n), src, off, off, 0, Span(off, 0));
    case Separate2(p, s, skip, _, n) => SepLoopReturns(re, p, s, skip, n, src, off, off, 0, Span(off, 0));
    case Choice(kind, alts) => ChoiceLoopReturns(re, alts, ChoiceError(kind), src, off, 0);
    case PairSlice(alts) => ChoiceLoopReturns(re, alts, Error.PairSlice, src, off, 0);
  }

  /** The combinators without a loop of their own return when their parts do. */
  lemma {:induction false} BoundedNodeReturns(re: Regex, src: Src, off: nat)
    requires Bounded(re) && off <= src.Len()
    requires re.Assert? || re.Then? || re.Suffix? || re.Prefix? || re.IfThen? || re.Enclose? ||
             re.SepOnce? || re.Or? || re.Longest? || re.OptionPat? || re.Branch?
    ensures Match(re, src, off).Done?
    decreases re, 0, 0, 1
  {
    match re
    case Assert(p, _) => BoundedReturns(p, src, off);
    case Then(l, r) => SeqReturns(re, l, r, src, off);
    case Suffix(l, r) => SeqReturns(re, l, r, src, off);
    case Prefix(l, r) => SeqReturns(re, l, r, src, off);
    case IfThen(l, t, r) =>
      BoundedReturns(l, src, off);
      var o1 := Match(l, src, off);
      if o1.res.Ok? {
        SeqReturns(re, t, r, src, o1.off);
      }
    case Enclose(a, b, c) =>
      BoundedReturns(a, src, off);
      var o1 := Match(a, src, off);
      if o1.res.Ok? {
        SeqReturns(re, b, c, src, o1.off);
      }
    case SepOnce(a, b, c) =>
      BoundedReturns(a, src, off);
      var o1 := Match(a, src, off);
      if o1.res.Ok? {
        SeqReturns(re, b, c, src, o1.off);
      }
    case Or(l, r) =>
      BoundedReturns(l, src, off);
      BoundedReturns(r, src, off);
    case Longest(l, r) =>
      BoundedReturns(l, src, off);
      BoundedReturns(r, src, off);
    case OptionPat(p) => BoundedReturns(p, src, off);
    case Branch(test, p, other) =>
      BoundedReturns(p, src, off);
      BoundedReturns(other, src, off);
  }

  /** Two bounded matchers in a row return. */
  lemma {:induction false} SeqReturns(re: Regex, l: Regex, r: Regex, src: Src, off: nat)
    requires l < re && r < re && Bounded(l) && Bounded(r) && off <= src.Len()
    ensures Match(l, src, off).Done?
    ensures Match(l, src, off).res.Ok? ==> Match(r, src, Match(l, src, off).off).Done?
    decreases re, 0, 0, 0
  {
    BoundedReturns(l, src, off);
    var o1 := Match(l, src, off);
    if o1.res.Ok? {
      BoundedReturns(r, src, o1.off);
    }
  }

  lemma {:induction false} RepLoopReturns(re: Regex, p: Regex, limit: Option<nat>, src: Src, off0: nat, off: nat, cnt: nat, total: Span)
    requires p < re && Bounded(p) && limit.Some?
    requires off0 <= off <= src.Len() && total.beg == off0 && total.End <= off
    ensures RepLoop(re, p, limit, src, off0, off, cnt, total).Stopped?
    decreases re, 0, src.Len() - off, Room(limit, cnt)
  {
    if cnt < limit.value {
      BoundedReturns(p, src, off);
      var m := Match(p, src, off);
      if m.res.Ok? {
        RepLoopGoesOn(re, p, limit, src, off0, off, cnt, total);
        RepLoopReturns(re, p, limit, src, off0, m.off, cnt + 1, AddAssign(total, m.res.value));
      } else {
        RepLoopStops(re, p, limit, src, off0, off, cnt, total);
      }
    } else {
      RepLoopStops(re, p, limit, src, off0, off, cnt, total);
    }
  }

  lemma {:induction false} SepLoopReturns(re: Regex, p: Regex, sep: Regex, skip: bool, n: nat, src: Src, off0: nat, off: nat, cnt: nat, total: Span)
    requires p < re && sep < re && Bounded(p) && Bounded(sep)
    requires off0 <= off <= src.Len() && total.beg == off0 && total.End <= off
    ensures SepLoop(re, p, sep, skip, Some(n), src, off0, off, cnt, total).Stopped?
    decreases re, 0, src.Len() - off, Room(Some(n), cnt)
  {
    if cnt < n {
      BoundedReturns(p, src, off);
      var m := Match(p, src, off);
      if m.res.Err? {
        SepItemFails(re, p, sep, skip, Some(n), src, off0, off, cnt, total);
      } else {
        BoundedReturns(sep, src, m.off);
        var ms := Match(sep, src, m.off);
        if ms.res.Err? {
          SepSeparatorFails(re, p, sep, skip, Some(n), src, off0, off, cnt, total);
        } else {
          SepSeparatorMatches(re, p, sep, skip, Some(n), src, off0, off, cnt, total);
          SepLoopReturns(re, p, sep, skip, n, src, off0, ms.off, cnt + 1, AddAssign(AddAssign(total, m.res.value), ms.res.value));
        }
      }
    }
  }

  lemma {:induction false} ChoiceLoopReturns(re: Regex, alts: seq<Regex>, err: Error, src: Src, off: nat, i: nat)
    requires i <= |alts| && off <= src.Len()
    requires forall k :: 0 <= k < |alts| ==> alts[k] < re && Bounded(alts[k])
    ensures ChoiceLoop(re, alts, err, src, off, i).Done?
    decreases re, 0, |alts| - i, 0
  {
    if i < |alts| {
      BoundedReturns(alts[i], src, off);
      if Match(alts[i], src, off).res.Err? {
        ChoiceLoopReturns(re, alts, err, src, off, i + 1);
      }
    }
  }

  /**
   * An open-ended repetition returns when its item, wherever it starts from here on,
   * returns and consumes something whenever it succeeds.
   */
  predicate Consumes(p: Regex, src: Src, from: nat)
  {
    forall o :: from <= o <= src.Len() ==>
      Match(p, src, o).Done? && (Match(p, src, o).res.Ok? ==> Match(p, src, o).off > o)
  }

  /** `Collect` over an item that always consumes returns. */
  lemma {:induction false} CollectReturns(p: Regex, min: nat, src: Src, off: nat)
    requires off <= src.Len() && Consumes(p, src, off)
    ensures Match(Regex.Collect(p, min), src, off).Done?
  {
    var re := Regex.Collect(p, min);
    RepeatUnfolds(re, src, off);
    RepLoopProgress(re, p, src, off, off, 0, Span(off, 0));
  }

  lemma {:induction false} RepLoopProgress(re: Regex, p: Regex, src: Src, off0: nat, off: nat, cnt: nat, total: Span)
    requires p < re && off0 <= off <= src.Len() && total.beg == off0 && total.End <= off
    requires Consumes(p, src, off0)
    ensures RepLoop(re, p, None, src, off0, off, cnt, total).Stopped?
    decreases src.Len() - off
  {
    var m := Match(p, src, off);
    assert m.Done? && (m.res.Ok? ==> m.off > off);
    if m.res.Ok? {
      RepLoopGoesOn(re, p, None, src, off0, off, cnt, total);
      RepLoopProgress(re, p, src, off0, m.off, cnt + 1, AddAssign(total, m.res.value));
    } else {
      RepLoopStops(re, p, None, src, off0, off, cnt, total);
    }
  }

  /** A repetition whose item succeeds in place diverges exactly as an open loop would. */
  lemma {:induction false} CollectSpins(p: Regex, min: nat, src: Src, off: nat)
    requires off <= src.Len() && Match(p, src, off) == Done(Ok(Span(off, 0)), off)
    ensures Match(Regex.Collect(p, min), src, off) == Diverge
  {
  }

  // ---------------------------------------------------------------------------------------
  // Ordered choice

  /**
   * An ordered choice returns the outcome of the first alternative that does not fail,
   * when every alternative before it fails.
   */
  lemma {:induction false} ChoiceFirstSuccess(kind: ChoiceKind, alts: seq<Regex>, src: Src, off: nat, k: nat)
    requires off <= src.Len() && k < |alts|
    requires forall j :: 0 <= j < k ==> Failed(Match(alts[j], src, off))
    requires !Failed(Match(alts[k], src, off))
    ensures Match(Choice(kind, alts), src, off) == Match(alts[k], src, off)
  {
    assert AllFail(alts, src, off, 0, k);
    ChoiceLoopFirst(Choice(kind, alts), alts, ChoiceError(kind), src, off, 0, k);
  }

  lemma {:induction false} ChoiceLoopFirst(re: Regex, alts: seq<Regex>, err: Error, src: Src, off: nat, i: nat, k: nat)
    requires i <= k < |alts| && off <= src.Len()
    requires forall j :: 0 <= j < |alts| ==> alts[j] < re
    requires AllFail(alts, src, off, i, k)
    requires !Failed(Match(alts[k], src, off))
    ensures ChoiceLoop(re, alts, err, src, off, i) == Match(alts[k], src, off)
    decreases k - i
  {
    if i < k {
      AllFailShrink(alts, src, off, i, k);
      ChoiceLoopSkip(re, alts, err, src, off, i);
      ChoiceLoopFirst(re, alts, err, src, off, i + 1, k);
    } else {
      ChoiceLoopTake(re, alts, err, src, off, k);
    }
  }

  /** When every alternative fails, the choice fails with its own error at the entry offset. */
  lemma {:induction false} ChoiceAllFail(kind: ChoiceKind, alts: seq<Regex>, src: Src, off: nat)
    requires off <= src.Len()
    requires forall j :: 0 <= j < |alts| ==> Failed(Match(alts[j], src, off))
    ensures Match(Choice(kind, alts), src, off) == Done(Err(ChoiceError(kind)), off)
  {
    assert AllFail(alts, src, off, 0, |alts|);
    ChoiceLoopAllFail(Choice(kind, alts), alts, ChoiceError(kind), src, off, 0);
  }

  lemma {:induction false} ChoiceLoopAllFail(re: Regex, alts: seq<Regex>, err: Error, src: Src, off: nat, i: nat)
    requires i <= |alts| && off <= src.Len()
    requires forall j :: 0 <= j < |alts| ==> alts[j] < re
    requires AllFail(alts, src, off, i, |alts|)
    ensures ChoiceLoop(re, alts, err, src, off, i) == Done(Err(err), off)
    decreases |alts| - i
  {
    if i < |alts| {
      AllFailShrink(alts, src, off, i, |alts|);
      ChoiceLoopSkip(re, alts, err, src, off, i);
      ChoiceLoopAllFail(re, alts, err, src, off, i + 1);
    } else {
      ChoiceLoopEnd(re, alts, err, src, off);
    }
  }

  /** The first alternative of a failing run fails, and so does the rest of the run. */
  lemma {:induction false} AllFailShrink(alts: seq<Regex>, src: Src, off: nat, i: nat, k: nat)
    requires i < k <= |alts| && off <= src.Len()
    requires AllFail(alts, src, off, i, k)
    ensures Failed(Match(alts[i], src, off)) && AllFail(alts, src, off, i + 1, k)
  {
  }

  /**
   * The converse: a successful choice is the success of some alternative, and every
   * alternative before that one failed.
   */
  lemma {:induction false} ChoiceSuccessWitness(kind: ChoiceKind, alts: seq<Regex>, src: Src, off: nat) returns (k: nat)
    requires off <= src.Len()
    requires Succeeded(Match(Choice(kind, alts), src, off))
    ensures k < |alts| && Match(alts[k], src, off) == Match(Choice(kind, alts), src, off)
    ensures forall j :: 0 <= j < k ==> Failed(Match(alts[j], src, off))
  {
    k := ChoiceLoopWitness(Choice(kind, alts), alts, ChoiceError(kind), src, off, 0);
    assert AllFail(alts, src, off, 0, k);
  }

  /** Every alternative from `i` up to (not including) `k` fails. */
  predicate AllFail(alts: seq<Regex>, src: Src, off: nat, i: nat, k: nat)
    requires i <= k <= |alts| && off <= src.Len()
  {
    forall j :: i <= j < k ==> Failed(Match(alts[j], src, off))
  }

  lemma {:induction false} ChoiceLoopWitness(re: Regex, alts: seq<Regex>, err: Error, src: Src, off: nat, i: nat) returns (k: nat)
    requires i <= |alts| && off <= src.Len()
    requires forall j :: 0 <= j < |alts| ==> alts[j] < re
    requires Succeeded(ChoiceLoop(re, alts, err, src, off, i))
    ensures i <= k < |alts| && Match(alts[k], src, off) == ChoiceLoop(re, alts, err, src, off, i)
    ensures AllFail(alts, src, off, i, k)
    decreases |alts| - i
  {
    ChoiceLoopSucceedsEarly(re, alts, err, src, off, i);
    if Failed(Match(alts[i], src, off)) {
      ChoiceLoopSkip(re, alts, err, src, off, i);
      k := ChoiceLoopWitness(re, alts, err, src, off, i + 1);
      AllFailExtend(alts, src, off, i, k);
    } else {
      ChoiceLoopTake(re, alts, err, src, off, i);
      k := i;
    }
  }

  /** A choice loop that succeeds still has an alternative left to try. */
  lemma {:induction false} ChoiceLoopSucceedsEarly(re: Regex, alts: seq<Regex>, err: Error, src: Src, off: nat, i: nat)
    requires i <= |alts| && off <= src.Len()
    requires forall j :: 0 <= j < |alts| ==> alts[j] < re
    requires Succeeded(ChoiceLoop(re, alts, err, src, off, i))
    ensures i < |alts|
  {
    if i == |alts| {
      ChoiceLoopEnd(re, alts, err, src, off);
    }
  }

  lemma {:induction false} AllFailExtend(alts: seq<Regex>, src: Src, off: nat, i: nat, k: nat)
    requires i < k <= |alts| && off <= src.Len()
    requires Failed(Match(alts[i], src, off)) && AllFail(alts, src, off, i + 1, k)
    ensures AllFail(alts, src, off, i, k)
  {
  }

  /** A failed choice leaves the cursor at the entry offset. */
  lemma {:induction false} ChoiceLoopFailRewinds(re: Regex, alts: seq<Regex>, err: Error, src: Src, off: nat, i: nat)
    requires i <= |alts| && off <= src.Len()
    requires forall j :: 0 <= j < |alts| ==> alts[j] < re
    requires ChoiceLoop(re, alts, err, src, off, i).Done? && ChoiceLoop(re, alts, err, src, off, i).res.Err?
    ensures ChoiceLoop(re, alts, err, src, off, i) == Done(Err(err), off)
    decreases |alts| - i
  {
    if i < |alts| {
      ChoiceLoopFailRewinds(re, alts, err, src, off, i + 1);
    }
  }

  /** `Or` is the two-element ordered choice, but reports the right alternative's error. */
  lemma {:induction false} OrIsChoice(l: Regex, r: Regex, kind: ChoiceKind, src: Src, off: nat)
    requires off <= src.Len()
    ensures Match(Or(l, r), src, off).Diverge? <==> Match(Choice(kind, [l, r]), src, off).Diverge?
    ensures Succeeded(Match(Or(l, r), src, off)) ==> Match(Or(l, r), src, off) == Match(Choice(kind, [l, r]), src, off)
    ensures Failed(Match(Or(l, r), src, off)) ==>
      Match(Choice(kind, [l, r]), src, off) == Done(Err(ChoiceError(kind)), off) &&
      Failed(Match(r, src, off)) && Match(Or(l, r), src, off) == Done(Err(Match(r, src, off).res.error), off)
  {
    if !Failed(Match(l, src, off)) {
      PairChoiceLeft(l, r, kind, src, off);
    } else if !Failed(Match(r, src, off)) {
      PairChoiceRight(l, r, kind, src, off);
    } else {
      PairChoiceNone(l, r, kind, src, off);
    }
  }

  /** The choice over two alternatives runs `ChoiceLoop` from the first. */
  lemma {:induction false} PairUnfolds(l: Regex, r: Regex, kind: ChoiceKind, src: Src, off: nat)
    requires off <= src.Len()
    ensures l < Choice(kind, [l, r]) && r < Choice(kind, [l, r])
    ensures Match(Choice(kind, [l, r]), src, off) == ChoiceLoop(Choice(kind, [l, r]), [l, r], ChoiceError(kind), src, off, 0)
  {
    PairBelow(l, r, kind);
  }

  /** Both alternatives of a two-way choice are below it. */
  lemma {:induction false} PairBelow(l: Regex, r: Regex, kind: ChoiceKind)
    ensures l < Choice(kind, [l, r]) && r < Choice(kind, [l, r])
    ensures forall k :: 0 <= k < |[l, r]| ==> [l, r][k] < Choice(kind, [l, r])
  {
    var alts := [l, r];
    assert alts[0] == l && alts[1] == r;
  }

  /** `Or` over two alternatives runs `OrMatch`. */
  lemma {:induction false} OrUnfolds(l: Regex, r: Regex, src: Src, off: nat)
    requires off <= src.Len()
    ensures Match(Or(l, r), src, off) == OrMatch(Or(l, r), l, r, src, off)
  {
  }

  /**
   * A two-alternative choice, and `Or` over the same alternatives, whose left alternative
   * does not fail: both are that alternative's outcome.
   */
  lemma {:induction false} PairChoiceLeft(l: Regex, r: Regex, kind: ChoiceKind, src: Src, off: nat)
    requires off <= src.Len() && !Failed(Match(l, src, off))
    ensures Match(Choice(kind, [l, r]), src, off) == Match(l, src, off)
    ensures Match(Or(l, r), src, off) == Match(l, src, off)
  {
    var alts, re := [l, r], Choice(kind, [l, r]);
    PairUnfolds(l, r, kind, src, off);
    OrUnfolds(l, r, src, off);
    assert alts[0] == l;
    ChoiceLoopTake(re, alts, ChoiceError(kind), src, off, 0);
  }

  /** After a failing left alternative, a right alternative that does not fail decides both. */
  lemma {:induction false} PairChoiceRight(l: Regex, r: Regex, kind: ChoiceKind, src: Src, off: nat)
    requires off <= src.Len()
    requires Failed(Match(l, src, off)) && !Failed(Match(r, src, off))
    ensures Match(Choice(kind, [l, r]), src, off) == Match(r, src, off)
    ensures Match(Or(l, r), src, off) == Match(r, src, off)
  {
    var alts, re := [l, r], Choice(kind, [l, r]);
    PairUnfolds(l, r, kind, src, off);
    OrUnfolds(l, r, src, off);
    assert alts[0] == l && alts[1] == r;
    ChoiceLoopSkip(re, alts, ChoiceError(kind), src, off, 0);
    ChoiceLoopTake(re, alts, ChoiceError(kind), src, off, 1);
  }

  /**
   * Two failing alternatives: the choice fails with its own error and `Or` with the right
   * alternative's, both at the entry offset.
   */
  lemma {:induction false} PairChoiceNone(l: Regex, r: Regex, kind: ChoiceKind, src: Src, off: nat)
    requires off <= src.Len()
    requires Failed(Match(l, src, off)) && Failed(Match(r, src, off))
    ensures Match(Choice(kind, [l, r]), src, off) == Done(Err(ChoiceError(kind)), off)
    ensures Match(Or(l, r), src, off) == Done(Err(Match(r, src, off).res.error), off)
  {
    var alts, re := [l, r], Choice(kind, [l, r]);
    PairUnfolds(l, r, kind, src, off);
    OrUnfolds(l, r, src, off);
    assert alts[0] == l && alts[1] == r && |alts| == 2;
    ChoiceLoopSkip(re, alts, ChoiceError(kind), src, off, 0);
    ChoiceLoopSkip(re, alts, ChoiceError(kind), src, off, 1);
    ChoiceLoopEnd(re, alts, ChoiceError(kind), src, off);
    assert ChoiceLoop(re, alts, ChoiceError(kind), src, off, 1) == Done(Err(ChoiceError(kind)), off);
  }

  /** `Or` succeeds iff one of its alternatives does; a failed `Or` leaves the cursor in place. */
  lemma {:induction false} OrSucceeds(l: Regex, r: Regex, src: Src, off: nat)
    requires off <= src.Len() && Match(l, src, off).Done? && Match(r, src, off).Done?
    ensures Match(Or(l, r), src, off).Done?
    ensures Match(Or(l, r), src, off).res.Ok? <==> Match(l, src, off).res.Ok? || Match(r, src, off).res.Ok?
    ensures Match(Or(l, r), src, off).res.Err? ==> Match(Or(l, r), src, off).off == off
  {
  }

  // ---------------------------------------------------------------------------------------
  // Longest choice

  /**
   * `LongestTokenMatch` succeeds iff one alternative does, and then it ends at least as far
   * as every successful alternative, taking the left one on a tie.
   */
  lemma {:induction false} LongestIsLongest(l: Regex, r: Regex, src: Src, off: nat)
    requires off <= src.Len() && Match(l, src, off).Done? && Match(r, src, off).Done?
    ensures Match(Longest(l, r), src, off).Done?
    ensures Match(Longest(l, r), src, off).res.Ok? <==> Match(l, src, off).res.Ok? || Match(r, src, off).res.Ok?
    ensures Match(l, src, off).res.Ok? ==> Match(Longest(l, r), src, off).off >= Match(l, src, off).off
    ensures Match(r, src, off).res.Ok? ==> Match(Longest(l, r), src, off).off >= Match(r, src, off).off
    ensures Match(l, src, off).res.Ok? && (Match(r, src, off).res.Err? || Match(l, src, off).off >= Match(r, src, off).off) ==>
      Match(Longest(l, r), src, off) == Match(l, src, off)
    ensures Match(Longest(l, r), src, off).res.Err? ==> Match(Longest(l, r), src, off).off == off
  {
  }

  // ---------------------------------------------------------------------------------------
  // Zero-width and never-failing matchers

  /** `Assert` never moves the cursor, and succeeds iff the inner outcome is the expected one. */
  lemma {:induction false} AssertZeroWidth(p: Regex, value: bool, src: Src, off: nat)
    requires off <= src.Len() && Match(p, src, off).Done?
    ensures Match(Regex.Assert(p, value), src, off).Done? && Match(Regex.Assert(p, value), src, off).off == off
    ensures Match(Regex.Assert(p, value), src, off).res.Ok? <==> (Match(p, src, off).res.Ok? == value)
    ensures Match(Regex.Assert(p, value), src, off).res.Ok? ==> Match(Regex.Assert(p, value), src, off).res.value == Span(off, 0)
  {
  }

  /** `OptionPat` never fails; when the inner matcher fails it matches nothing. */
  lemma {:induction false} OptionNeverFails(p: Regex, src: Src, off: nat)
    requires off <= src.Len() && Match(p, src, off).Done?
    ensures Match(OptionPat(p), src, off).Done? && Match(OptionPat(p), src, off).res.Ok?
    ensures Match(p, src, off).res.Err? ==> Match(OptionPat(p), src, off) == Done(Ok(Span(off, 0)), off)
    ensures Match(p, src, off).res.Ok? ==> Match(OptionPat(p), src, off) == Match(p, src, off)
  {
  }

  // ---------------------------------------------------------------------------------------
  // Conditional sequencing

  /** `IfThen` whose left matcher does not succeed ends as the left matcher ended. */
  lemma {:induction false} IfThenLeftStops(l: Regex, t: Regex, r: Regex, src: Src, off: nat)
    requires off <= src.Len() && !Succeeded(Match(l, src, off))
    ensures Match(IfThen(l, t, r), src, off) == Match(l, src, off)
  {
    assert Match(IfThen(l, t, r), src, off) == IfThenMatch(IfThen(l, t, r), l, t, r, src, off);
    var ml := Match(l, src, off);
    if ml.Done? {
      assert ml == Done(Err(ml.res.error), ml.off);
    }
  }

  /**
   * A failing test is no error: `IfThen` returns the left span, the right matcher does not
   * run, and the cursor stays where the test left it.
   */
  lemma {:induction false} IfThenTestFails(l: Regex, t: Regex, r: Regex, src: Src, off: nat)
    requires off <= src.Len() && Succeeded(Match(l, src, off))
    requires Failed(Match(t, src, Match(l, src, off).off))
    ensures Match(IfThen(l, t, r), src, off) ==
      Done(Match(l, src, off).res, Match(t, src, Match(l, src, off).off).off)
  {
    assert Match(IfThen(l, t, r), src, off) == IfThenMatch(IfThen(l, t, r), l, t, r, src, off);
    var ml := Match(l, src, off);
    var mt := Match(t, src, ml.off);
    assert ml == Done(Ok(ml.res.value), ml.off);
    assert mt == Done(Err(mt.res.error), mt.off);
  }

  /** A passing test makes the right matcher required: when it does not succeed, `IfThen` ends as it ended. */
  lemma {:induction false} IfThenRightStops(l: Regex, t: Regex, r: Regex, src: Src, off: nat)
    requires off <= src.Len() && Succeeded(Match(l, src, off))
    requires Succeeded(Match(t, src, Match(l, src, off).off))
    requires !Succeeded(Match(r, src, Match(t, src, Match(l, src, off).off).off))
    ensures Match(IfThen(l, t, r), src, off) == Match(r, src, Match(t, src, Match(l, src, off).off).off)
  {
    assert Match(IfThen(l, t, r), src, off) == IfThenMatch(IfThen(l, t, r), l, t, r, src, off);
    var ml := Match(l, src, off);
    var mt := Match(t, src, ml.off);
    var mr := Match(r, src, mt.off);
    assert ml == Done(Ok(ml.res.value), ml.off);
    assert mt == Done(Ok(mt.res.value), mt.off);
    if mr.Done? {
      assert mr == Done(Err(mr.res.error), mr.off);
    }
  }

  /** A passing test and a succeeding right matcher: the span runs from the entry offset to the right end. */
  lemma {:induction false} IfThenAll(l: Regex, t: Regex, r: Regex, src: Src, off: nat)
    requires off <= src.Len() && Succeeded(Match(l, src, off))
    requires Succeeded(Match(t, src, Match(l, src, off).off))
    requires Succeeded(Match(r, src, Match(t, src, Match(l, src, off).off).off))
    ensures var ml := Match(l, src, off);
      var mt := Match(t, src, ml.off);
      var mr := Match(r, src, mt.off);
      Match(IfThen(l, t, r), src, off) == Done(Ok(AddAssign(AddAssign(ml.res.value, mt.res.value), mr.res.value)), mr.off) &&
      Match(IfThen(l, t, r), src, off).res.value == Span(off, mr.res.value.End - off)
  {
    assert Match(IfThen(l, t, r), src, off) == IfThenMatch(IfThen(l, t, r), l, t, r, src, off);
  }

  // ---------------------------------------------------------------------------------------
  // Branch

  /** An error from the test of `Branch` is returned at once, with the cursor unmoved. */
  lemma {:induction false} BranchTestError(test: BranchTest, p: Regex, other: Regex, src: Src, off: nat)
    requires off <= src.Len() && test(src, off).Err?
    ensures Match(Branch(test, p, other), src, off) == Done(Err(test(src, off).error), off)
  {
    assert Match(Branch(test, p, other), src, off) == BranchMatch(Branch(test, p, other), test, p, other, src, off);
  }

  /**
   * `Branch` runs only the alternative its test selects (`pat` on true, `other` on false):
   * a success is that alternative's outcome, a failure its error with the cursor back at
   * the entry offset, and a loop that never ends stays one.
   */
  lemma {:induction false} BranchSelects(test: BranchTest, p: Regex, other: Regex, src: Src, off: nat)
    requires off <= src.Len() && test(src, off).Ok?
    ensures var chosen := Match(if test(src, off).value then p else other, src, off);
      var m := Match(Branch(test, p, other), src, off);
      (chosen.Diverge? <==> m.Diverge?) &&
      (Succeeded(chosen) ==> m == chosen) &&
      (Failed(chosen) ==> m == Done(chosen.res, off))
  {
    assert Match(Branch(test, p, other), src, off) == BranchMatch(Branch(test, p, other), test, p, other, src, off);
    var chosen := Match(if test(src, off).value then p else other, src, off);
    if chosen.Done? {
      if chosen.res.Ok? {
        assert chosen == Done(Ok(chosen.res.value), chosen.off);
      } else {
        assert chosen == Done(Err(chosen.res.error), chosen.off);
      }
    }
  }

  /** The alternative the test does not select has no effect on `Branch`. */
  lemma {:induction false} BranchIgnoresOther(test: BranchTest, p: Regex, other1: Regex, other2: Regex, p2: Regex, src: Src, off: nat)
    requires off <= src.Len() && test(src, off).Ok?
    ensures test(src, off).value ==> Match(Branch(test, p, other1), src, off) == Match(Branch(test, p, other2), src, off)
    ensures !test(src, off).value ==> Match(Branch(test, p, other1), src, off) == Match(Branch(test, p2, other1), src, off)
  {
    BranchSelects(test, p, other1, src, off);
    BranchSelects(test, p, other2, src, off);
    BranchSelects(test, p2, other1, src, off);
  }

  /** A failing `Branch` leaves the cursor at the entry offset, whatever failed. */
  lemma {:induction false} BranchFailRewinds(test: BranchTest, p: Regex, other: Regex, src: Src, off: nat)
    requires off <= src.Len() && Failed(Match(Branch(test, p, other), src, off))
    ensures Match(Branch(test, p, other), src, off).off == off
  {
    if test(src, off).Err? {
      BranchTestError(test, p, other, src, off);
    } else {
      BranchSelects(test, p, other, src, off);
    }
  }

  // ---------------------------------------------------------------------------------------
  // Sequencing

  /**
   * A sequence whose first step does not succeed ends as that step ended, except that a
   * failure leaves the cursor at the entry.
   */
  lemma {:induction false} ThenLeftStops(l: Regex, r: Regex, src: Src, off: nat)
    requires off <= src.Len() && !Succeeded(Match(l, src, off))
    ensures Match(Then(l, r), src, off) == RewindOnError(Match(l, src, off), off)
  {
    assert Match(Then(l, r), src, off) == ThenMatch(Then(l, r), l, r, src, off);
  }

  /**
   * A sequence whose first step succeeds and whose second does not ends as the second
   * ended, except that a failure puts the cursor back at the entry of the first.
   */
  lemma {:induction false} ThenRightStops(l: Regex, r: Regex, src: Src, off: nat)
    requires off <= src.Len() && Succeeded(Match(l, src, off))
    requires !Succeeded(Match(r, src, Match(l, src, off).off))
    ensures Match(Then(l, r), src, off) == RewindOnError(Match(r, src, Match(l, src, off).off), off)
  {
    var ml := Match(l, src, off);
    var mr := Match(r, src, ml.off);
    assert ml == Done(Ok(ml.res.value), ml.off);
    assert Match(Then(l, r), src, off) == ThenMatch(Then(l, r), l, r, src, off);
    if mr.Diverge? {
      assert ThenMatch(Then(l, r), l, r, src, off) == Diverge;
    } else {
      assert mr == Done(Err(mr.res.error), mr.off);
      assert ThenMatch(Then(l, r), l, r, src, off) == Done(mr.res, off);
    }
  }

  /** A sequence whose two steps succeed joins their spans and ends where the second ended. */
  lemma {:induction false} ThenBoth(l: Regex, r: Regex, src: Src, off: nat)
    requires off <= src.Len() && Succeeded(Match(l, src, off))
    requires Succeeded(Match(r, src, Match(l, src, off).off))
    ensures Match(Then(l, r), src, off) ==
      Done(Ok(AddAssign(Match(l, src, off).res.value, Match(r, src, Match(l, src, off).off).res.value)),
           Match(r, src, Match(l, src, off).off).off)
  {
    assert Match(Then(l, r), src, off) == ThenMatch(Then(l, r), l, r, src, off);
  }

  /** Rewinding twice is rewinding to the last offset, and rewinding keeps success as it was. */
  lemma RewindTwice(o: Outcome, x: nat, y: nat)
    ensures RewindOnError(RewindOnError(o, x), y) == RewindOnError(o, y)
    ensures Succeeded(RewindOnError(o, x)) == Succeeded(o)
  {
  }

  /** Sequencing is associative: outcome, span and cursor alike. */
  lemma {:induction false} ThenAssoc(a: Regex, b: Regex, c: Regex, src: Src, off: nat)
    requires off <= src.Len()
    ensures Match(Then(Then(a, b), c), src, off) == Match(Then(a, Then(b, c)), src, off)
  {
    var ma := Match(a, src, off);
    if !Succeeded(ma) {
      ThenAssocFirstStops(a, b, c, src, off);
    } else if !Succeeded(Match(b, src, ma.off)) {
      ThenAssocSecondStops(a, b, c, src, off);
    } else {
      ThenAssocBothRan(a, b, c, src, off);
    }
  }

  /** `ThenAssoc` when the first step does not succeed. */
  lemma {:induction false} ThenAssocFirstStops(a: Regex, b: Regex, c: Regex, src: Src, off: nat)
    requires off <= src.Len() && !Succeeded(Match(a, src, off))
    ensures Match(Then(Then(a, b), c), src, off) == Match(Then(a, Then(b, c)), src, off)
  {
    ThenLeftStops(a, b, src, off);
    RewindTwice(Match(a, src, off), off, off);
    ThenLeftStops(Then(a, b), c, src, off);
    ThenLeftStops(a, Then(b, c), src, off);
  }

  /** `ThenAssoc` when the first step succeeds and the second does not. */
  lemma {:induction false} ThenAssocSecondStops(a: Regex, b: Regex, c: Regex, src: Src, off: nat)
    requires off <= src.Len() && Succeeded(Match(a, src, off))
    requires !Succeeded(Match(b, src, Match(a, src, off).off))
    ensures Match(Then(Then(a, b), c), src, off) == Match(Then(a, Then(b, c)), src, off)
  {
    var ma := Match(a, src, off);
    var mb := Match(b, src, ma.off);
    ThenRightStops(a, b, src, off);
    RewindTwice(mb, off, off);
    ThenLeftStops(Then(a, b), c, src, off);
    ThenLeftStops(b, c, src, ma.off);
    RewindTwice(mb, ma.off, off);
    ThenRightStops(a, Then(b, c), src, off);
  }

  /** `ThenAssoc` when the first two steps succeed. */
  lemma {:induction false} ThenAssocBothRan(a: Regex, b: Regex, c: Regex, src: Src, off: nat)
    requires off <= src.Len() && Succeeded(Match(a, src, off))
    requires Succeeded(Match(b, src, Match(a, src, off).off))
    ensures Match(Then(Then(a, b), c), src, off) == Match(Then(a, Then(b, c)), src, off)
  {
    var ab, bc := Then(a, b), Then(b, c);
    var ma := Match(a, src, off);
    var mb := Match(b, src, ma.off);
    ThenBoth(a, b, src, off);
    var mc := Match(c, src, mb.off);
    if !Succeeded(mc) {
      ThenRightStops(ab, c, src, off);
      ThenRightStops(b, c, src, ma.off);
      RewindTwice(mc, ma.off, off);
      ThenRightStops(a, bc, src, off);
    } else {
      ThenBoth(ab, c, src, off);
      ThenBoth(b, c, src, ma.off);
      ThenBoth(a, bc, src, off);
      AddAssignAbsorb(ma.res.value, mb.res.value, mc.res.value);
    }
  }

  /** `Enclose` is `open`, then `pat`, then `close`. */
  lemma {:induction false} EncloseIsThen(o: Regex, p: Regex, c: Regex, src: Src, off: nat)
    requires off <= src.Len()
    ensures Match(Enclose(o, p, c), src, off) == Match(Then(Then(o, p), c), src, off)
  {
    var op := Then(o, p);
    var mo := Match(o, src, off);
    if !Succeeded(mo) {
      Then3First(o, p, c, src, off);
      ThenLeftStops(o, p, src, off);
      ThenLeftStops(op, c, src, off);
    } else {
      var mp := Match(p, src, mo.off);
      if !Succeeded(mp) {
        Then3Second(o, p, c, src, off);
        ThenRightStops(o, p, src, off);
        ThenLeftStops(op, c, src, off);
      } else {
        ThenBoth(o, p, src, off);
        var mc := Match(c, src, mp.off);
        if !Succeeded(mc) {
          Then3Third(o, p, c, src, off);
          ThenRightStops(op, c, src, off);
        } else {
          Then3All(o, p, c, src, off);
          ThenBoth(op, c, src, off);
        }
      }
    }
  }

  /** Three steps in a row whose first step does not succeed end as that step ended, back at the entry. */
  lemma {:induction false} Then3First(a: Regex, b: Regex, c: Regex, src: Src, off: nat)
    requires off <= src.Len()
    requires !Succeeded(Match(a, src, off))
    ensures Match(Enclose(a, b, c), src, off) == RewindOnError(Match(a, src, off), off)
  {
    assert Match(Enclose(a, b, c), src, off) == Then3Match(Enclose(a, b, c), a, b, c, src, off);
    var ma := Match(a, src, off);
    if ma.Done? {
      assert ma == Done(Err(ma.res.error), ma.off);
    }
  }

  /** Three steps in a row whose second step is the first not to succeed end as it ended, back at the entry. */
  lemma {:induction false} Then3Second(a: Regex, b: Regex, c: Regex, src: Src, off: nat)
    requires off <= src.Len()
    requires Succeeded(Match(a, src, off)) && !Succeeded(Match(b, src, Match(a, src, off).off))
    ensures Match(Enclose(a, b, c), src, off) == RewindOnError(Match(b, src, Match(a, src, off).off), off)
  {
    assert Match(Enclose(a, b, c), src, off) == Then3Match(Enclose(a, b, c), a, b, c, src, off);
    var ma := Match(a, src, off);
    var mb := Match(b, src, ma.off);
    assert ma == Done(Ok(ma.res.value), ma.off);
    if mb.Done? {
      assert mb == Done(Err(mb.res.error), mb.off);
    }
  }

  /** Three steps in a row whose first two succeed and whose third does not end as the third ended, back at the entry. */
  lemma {:induction false} Then3Third(a: Regex, b: Regex, c: Regex, src: Src, off: nat)
    requires off <= src.Len()
    requires Succeeded(Match(a, src, off)) && Succeeded(Match(b, src, Match(a, src, off).off))
    requires !Succeeded(Match(c, src, Match(b, src, Match(a, src, off).off).off))
    ensures Match(Enclose(a, b, c), src, off) == RewindOnError(Match(c, src, Match(b, src, Match(a, src, off).off).off), off)
  {
    assert Match(Enclose(a, b, c), src, off) == Then3Match(Enclose(a, b, c), a, b, c, src, off);
    var ma := Match(a, src, off);
    var mb := Match(b, src, ma.off);
    var mc := Match(c, src, mb.off);
    assert ma == Done(Ok(ma.res.value), ma.off);
    assert mb == Done(Ok(mb.res.value), mb.off);
    if mc.Done? {
      assert mc == Done(Err(mc.res.error), mc.off);
    }
  }

  /** Three steps in a row that all succeed join their spans and end where the third ended. */
  lemma {:induction false} Then3All(a: Regex, b: Regex, c: Regex, src: Src, off: nat)
    requires off <= src.Len()
    requires Succeeded(Match(a, src, off)) && Succeeded(Match(b, src, Match(a, src, off).off))
    requires Succeeded(Match(c, src, Match(b, src, Match(a, src, off).off).off))
    ensures var ma := Match(a, src, off);
      var mb := Match(b, src, ma.off);
      var mc := Match(c, src, mb.off);
      Match(Enclose(a, b, c), src, off) == Done(Ok(AddAssign(AddAssign(ma.res.value, mb.res.value), mc.res.value)), mc.off)
  {
    assert Match(Enclose(a, b, c), src, off) == Then3Match(Enclose(a, b, c), a, b, c, src, off);
  }

  /** A successful sequence spans from the entry offset to where its last step ended. */
  lemma {:induction false} ThenSpan(l: Regex, r: Regex, src: Src, off: nat)
    requires off <= src.Len() && Match(Then(l, r), src, off).Done? && Match(Then(l, r), src, off).res.Ok?
    ensures Match(l, src, off).Done? && Match(l, src, off).res.Ok?
    ensures Match(r, src, Match(l, src, off).off).Done? && Match(r, src, Match(l, src, off).off).res.Ok?
    ensures Match(Then(l, r), src, off).off == Match(r, src, Match(l, src, off).off).off
    ensures Match(Then(l, r), src, off).res.value ==
      Span(off, Match(r, src, Match(l, src, off).off).res.value.End - off)
  {
  }

  /**
   * A failed sequence (`Then`, `Suffix`, `Prefix`, `Enclose`, `SepOnce`) leaves the cursor
   * where it found it, whichever step failed.
   */
  lemma {:induction false} SequenceFailRewinds(re: Regex, src: Src, off: nat)
    requires off <= src.Len()
    requires re.Then? || re.Suffix? || re.Prefix? || re.Enclose? || re.SepOnce?
    requires Match(re, src, off).Done? && Match(re, src, off).res.Err?
    ensures Match(re, src, off).off == off
  {
    match re
    case Then(l, r) => assert Match(re, src, off) == ThenMatch(re, l, r, src, off);
    case Suffix(p, s) => assert Match(re, src, off) == ThenMatch(re, p, s, src, off);
    case Prefix(p, m) => assert Match(re, src, off) == ThenMatch(re, p, m, src, off);
    case Enclose(o, p, c) => assert Match(re, src, off) == Then3Match(re, o, p, c, src, off);
    case SepOnce(l, s, r) => assert Match(re, src, off) == Then3Match(re, l, s, r, src, off);
  }

  // ---------------------------------------------------------------------------------------
  // Repetition

  /** The repetition loop does not depend on which node runs it. */
  lemma {:induction false} RepLoopOwner(re1: Regex, re2: Regex, p: Regex, limit: Option<nat>, src: Src, off0: nat, off: nat, cnt: nat, total: Span)
    requires p < re1 && p < re2
    requires off0 <= off <= src.Len() && total.beg == off0 && total.End <= off
    ensures RepLoop(re1, p, limit, src, off0, off, cnt, total) == RepLoop(re2, p, limit, src, off0, off, cnt, total)
    decreases src.Len() - off, Room(limit, cnt)
  {
    var m := Match(p, src, off);
    if RepGoesOn(limit, m, off, cnt) {
      RepLoopGoesOn(re1, p, limit, src, off0, off, cnt, total);
      RepLoopGoesOn(re2, p, limit, src, off0, off, cnt, total);
      RepLoopOwner(re1, re2, p, limit, src, off0, m.off, cnt + 1, AddAssign(total, m.res.value));
    } else {
      RepLoopStops(re1, p, limit, src, off0, off, cnt, total);
      RepLoopStops(re2, p, limit, src, off0, off, cnt, total);
    }
  }

  /** `Match` of a `Repeat` or `Repeat2` node is its loop, finished. */
  lemma {:induction false} RepeatUnfolds(re: Regex, src: Src, off: nat)
    requires off <= src.Len() && (re.Repeat? || re.Repeat2? || re.Collect?)
    ensures Match(re, src, off) ==
      RepFinish(re, RepLoop(re, re.pat, if re.Repeat? then RepeatLimit(re.range) else if re.Repeat2? then Some(re.n) else None,
        src, off, off, 0, Span(off, 0)), off)
  {
  }

  /**
   * `Repeat2::<M, N>` is `Repeat` over the range `M..=N`: the same successes at the same
   * cursor, and both fail together with the cursor at the entry offset.
   */
  lemma {:induction false} Repeat2IsRepeat(p: Regex, m: nat, n: nat, src: Src, off: nat)
    requires off <= src.Len()
    ensures Match(Regex.Repeat2(p, m, n), src, off).Done? <==> Match(Regex.Repeat(p, FromRangeInclusive(m, n)), src, off).Done?
    ensures Match(Regex.Repeat2(p, m, n), src, off).Done? ==>
      (Match(Regex.Repeat2(p, m, n), src, off).res.Ok? <==> Match(Regex.Repeat(p, FromRangeInclusive(m, n)), src, off).res.Ok?)
    ensures Match(Regex.Repeat2(p, m, n), src, off).Done? && Match(Regex.Repeat2(p, m, n), src, off).res.Ok? ==>
      Match(Regex.Repeat2(p, m, n), src, off) == Match(Regex.Repeat(p, FromRangeInclusive(m, n)), src, off)
    ensures Match(Regex.Repeat2(p, m, n), src, off).Done? && Match(Regex.Repeat2(p, m, n), src, off).res.Err? ==>
      Match(Regex.Repeat2(p, m, n), src, off) == Done(Err(Error.Repeat2), off) &&
      Match(Regex.Repeat(p, FromRangeInclusive(m, n)), src, off) == Done(Err(Error.Repeat), off)
  {
    var rg := FromRangeInclusive(m, n);
    var r2, r1 := Regex.Repeat2(p, m, n), Regex.Repeat(p, rg);
    assert RepeatLimit(rg) == Some(n);
    var lo := RepLoop(r2, p, Some(n), src, off, off, 0, Span(off, 0));
    RepLoopOwner(r2, r1, p, Some(n), src, off, off, 0, Span(off, 0));
    RepeatUnfolds(r2, src, off);
    RepeatUnfolds(r1, src, off);
    assert lo.Stopped? ==> (Accepts(r2, lo.cnt) <==> Accepts(r1, lo.cnt));
    assert RepError(r2) == Error.Repeat2 && RepError(r1) == Error.Repeat;
    FinishAgree(r2, r1, lo, off);
  }

  /** `Collect` with minimum `min` is `Repeat` over the range `min..`. */
  lemma {:induction false} CollectIsRepeat(p: Regex, min: nat, src: Src, off: nat)
    requires off <= src.Len()
    ensures Match(Regex.Collect(p, min), src, off).Done? <==> Match(Regex.Repeat(p, FromRangeFrom(min)), src, off).Done?
    ensures Match(Regex.Collect(p, min), src, off).Done? ==>
      (Match(Regex.Collect(p, min), src, off).res.Ok? <==> Match(Regex.Repeat(p, FromRangeFrom(min)), src, off).res.Ok?)
    ensures Match(Regex.Collect(p, min), src, off).Done? && Match(Regex.Collect(p, min), src, off).res.Ok? ==>
      Match(Regex.Collect(p, min), src, off) == Match(Regex.Repeat(p, FromRangeFrom(min)), src, off)
    ensures Match(Regex.Collect(p, min), src, off).Done? && Match(Regex.Collect(p, min), src, off).res.Err? ==>
      Match(Regex.Collect(p, min), src, off) == Done(Err(Error.Collect), off) &&
      Match(Regex.Repeat(p, FromRangeFrom(min)), src, off) == Done(Err(Error.Repeat), off)
  {
    var rg := FromRangeFrom(min);
    var rc, r1 := Regex.Collect(p, min), Regex.Repeat(p, rg);
    assert RepeatLimit(rg) == None;
    var lo := RepLoop(rc, p, None, src, off, off, 0, Span(off, 0));
    RepLoopOwner(rc, r1, p, None, src, off, off, 0, Span(off, 0));
    RepeatUnfolds(rc, src, off);
    RepeatUnfolds(r1, src, off);
    assert lo.Stopped? ==> (Accepts(rc, lo.cnt) <==> Accepts(r1, lo.cnt));
    assert RepError(rc) == Error.Collect && RepError(r1) == Error.Repeat;
    FinishAgree(rc, r1, lo, off);
  }

  /** Two repetitions that accept the same count finish the same loop alike, each failure with its own error. */
  lemma {:induction false} FinishAgree(ra: Regex, rb: Regex, lo: LoopOut, off0: nat)
    requires lo.Stopped? ==> (Accepts(ra, lo.cnt) <==> Accepts(rb, lo.cnt))
    ensures RepFinish(ra, lo, off0).Done? <==> RepFinish(rb, lo, off0).Done?
    ensures RepFinish(ra, lo, off0).Done? ==> (RepFinish(ra, lo, off0).res.Ok? <==> RepFinish(rb, lo, off0).res.Ok?)
    ensures RepFinish(ra, lo, off0).Done? && RepFinish(ra, lo, off0).res.Ok? ==> RepFinish(ra, lo, off0) == RepFinish(rb, lo, off0)
    ensures RepFinish(ra, lo, off0).Done? && RepFinish(ra, lo, off0).res.Err? ==>
      RepFinish(ra, lo, off0) == Done(Err(RepError(ra)), off0) && RepFinish(rb, lo, off0) == Done(Err(RepError(rb)), off0)
  {
  }

  /** A repetition that does not accept its count fails with the cursor back at the entry offset. */
  lemma {:induction false} RepetitionFailRewinds(re: Regex, src: Src, off: nat)
    requires off <= src.Len()
    requires re.Repeat? || re.Repeat2? || re.Collect? || re.Separate? || re.Separate2?
    requires Match(re, src, off).Done? && Match(re, src, off).res.Err?
    ensures Match(re, src, off) == Done(Err(RepError(re)), off)
  {
  }

  /** With no minimum, an open-ended repetition that returns always succeeds. */
  lemma {:induction false} CollectZeroNeverFails(p: Regex, src: Src, off: nat)
    requires off <= src.Len() && Match(Regex.Collect(p, 0), src, off).Done?
    ensures Match(Regex.Collect(p, 0), src, off).res.Ok?
  {
  }

  // ---------------------------------------------------------------------------------------
  // Clean matchers

  /**
   * A matcher is clean from `from` on when, wherever it starts, a success leaves the cursor
   * at the end of its span and a failure leaves the cursor where it started.
   */
  predicate Clean(p: Regex, src: Src, from: nat)
  {
    forall o :: from <= o <= src.Len() ==> CleanAt(p, src, o)
  }

  /** `p` started at `o` leaves the cursor at the end of its span, or where it started when it fails. */
  predicate CleanAt(p: Regex, src: Src, o: nat)
    requires o <= src.Len()
  {
    Match(p, src, o).Done? ==>
      (Match(p, src, o).res.Ok? ==> Match(p, src, o).res.value.End == Match(p, src, o).off) &&
      (Match(p, src, o).res.Err? ==> Match(p, src, o).off == o)
  }

  /** A literal is clean. */
  lemma {:induction false} LitClean(val: seq<int>, str: bool, src: Src)
    ensures Clean(Lit(val, str), src, 0)
  {
  }

  /** Separated repetition of clean items with a clean separator is clean. */
  lemma {:induction false} SeparateClean(p: Regex, sep: Regex, skip: bool, min: nat, collect: bool, src: Src, off: nat)
    requires off <= src.Len() && Clean(p, src, off) && Clean(sep, src, off)
    ensures Clean(Regex.Separate(p, sep, skip, min, collect), src, off)
  {
    var re := Regex.Separate(p, sep, skip, min, collect);
    forall o | off <= o <= src.Len()
      ensures CleanAt(re, src, o)
    {
      SepLoopClean(p, sep, skip, min, collect, None, src, off, o, o, 0, Span(o, 0));
    }
  }

  /** A loop that stops leaves its span ending at the cursor. */
  predicate StopsClean(lo: LoopOut)
  {
    lo.Stopped? ==> lo.total.End == lo.cur
  }

  lemma {:induction false} SepLoopClean(p: Regex, sep: Regex, skip: bool, min: nat, collect: bool, limit: Option<nat>, src: Src, from: nat, off0: nat, off: nat, cnt: nat, total: Span)
    requires from <= off0 <= off <= src.Len() && total.beg == off0 && total.End == off
    requires Clean(p, src, from) && Clean(sep, src, from)
    ensures StopsClean(SepLoop(Regex.Separate(p, sep, skip, min, collect), p, sep, skip, limit, src, off0, off, cnt, total))
    decreases src.Len() - off, Room(limit, cnt)
  {
    var go, next, cnt', total' := SepCleanRound(Regex.Separate(p, sep, skip, min, collect), p, sep, skip, limit, src, from, off0, off, cnt, total);
    if go {
      SepLoopClean(p, sep, skip, min, collect, limit, src, from, off0, next, cnt', total');
    }
  }

  /** One round of `SepLoopClean`: either the loop stops with its span ending at the cursor, or it goes on from `next`. */
  lemma {:induction false} SepCleanRound(re: Regex, p: Regex, sep: Regex, skip: bool, limit: Option<nat>, src: Src, from: nat, off0: nat, off: nat, cnt: nat, total: Span)
    returns (go: bool, next: nat, cnt': nat, total': Span)
    requires p < re && sep < re && from <= off0 <= off <= src.Len() && total.beg == off0 && total.End == off
    requires Clean(p, src, from) && Clean(sep, src, from)
    ensures !go ==> StopsClean(SepLoop(re, p, sep, skip, limit, src, off0, off, cnt, total))
    ensures go ==> off <= next <= src.Len() && total'.beg == off0 && total'.End == next
    ensures go ==> (off < next || (limit.Some? && cnt < limit.value && cnt' == cnt + 1))
    ensures go ==>
      SepLoop(re, p, sep, skip, limit, src, off0, off, cnt, total) ==
      SepLoop(re, p, sep, skip, limit, src, off0, next, cnt', total')
  {
    go, next, cnt', total' := false, off, cnt, total;
    if limit.Some? && cnt >= limit.value {
      return;
    }
    assert CleanAt(p, src, off);
    var m := Match(p, src, off);
    if m.Diverge? {
      return;
    } else if m.res.Err? {
      SepItemFails(re, p, sep, skip, limit, src, off0, off, cnt, total);
      assert m.off == off;
      return;
    }
    assert from <= m.off <= src.Len();
    assert CleanAt(sep, src, m.off);
    go, next, cnt', total' := SepCleanTail(re, p, sep, skip, limit, src, off0, off, cnt, total);
  }

  /** The rest of a `SepCleanRound` whose item matched cleanly, given a clean separator after it. */
  lemma {:induction false} SepCleanTail(re: Regex, p: Regex, sep: Regex, skip: bool, limit: Option<nat>, src: Src, off0: nat, off: nat, cnt: nat, total: Span)
    returns (go: bool, next: nat, cnt': nat, total': Span)
    requires p < re && sep < re && off0 <= off <= src.Len() && total.beg == off0 && total.End == off
    requires !(limit.Some? && cnt >= limit.value)
    requires Succeeded(Match(p, src, off)) && Match(p, src, off).res.value.End == Match(p, src, off).off
    requires CleanAt(sep, src, Match(p, src, off).off)
    ensures !go ==> StopsClean(SepLoop(re, p, sep, skip, limit, src, off0, off, cnt, total))
    ensures go ==> off <= next <= src.Len() && total'.beg == off0 && total'.End == next
    ensures go ==> (off < next || (limit.Some? && cnt < limit.value && cnt' == cnt + 1))
    ensures go ==>
      SepLoop(re, p, sep, skip, limit, src, off0, off, cnt, total) ==
      SepLoop(re, p, sep, skip, limit, src, off0, next, cnt', total')
  {
    go, next, cnt', total' := false, off, cnt, total;
    var m := Match(p, src, off);
    var ms := Match(sep, src, m.off);
    if ms.Diverge? {
      return;
    } else if ms.res.Err? {
      SepSeparatorFails(re, p, sep, skip, limit, src, off0, off, cnt, total);
      assert m.off == ms.off;
      return;
    } else if ms.off == off && limit.None? {
      return;
    }
    SepSeparatorMatches(re, p, sep, skip, limit, src, off0, off, cnt, total);
    assert ms.res.value.End == ms.off;
    go, next, cnt', total' := true, ms.off, cnt + 1, AddAssign(AddAssign(total, m.res.value), ms.res.value);
  }


  // ---------------------------------------------------------------------------------------
  // Literals on bytes

  /** On bytes a literal matches exactly when the data from the cursor starts with it. */
  lemma {:induction false} LitBytes(val: seq<int>, s: seq<int>, off: nat)
    requires off <= Src(Bytes, s).Len()
    ensures Match(Lit(val, false), Src(Bytes, s), off) ==
      if off + |val| <= |s| && s[off..off + |val|] == val then Done(Ok(Span(off, |val|)), off + |val|)
      else Done(Err(Error.LitSlice), off)
  {
    ByteLenBytes(s);
    ByteLenBytes(val);
    IndexAtBytes(s, off);
    if off + |val| <= |s| {
      assert s[off..][..|val|] == s[off..off + |val|];
    }
  }
}
