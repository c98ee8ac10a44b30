/**
 * The loops of `Repeat2`, `Separate`, `Separate2`, `PairSlice` and `LongestTokenMatch`
 * exactly as the source writes them, beside the corrected ones that `Match` and the
 * interpreter use, with inputs on which the two differ.
 */
module AsWritten {
  import opened Errors
  import opened Spans
  import opened Text
  import opened Regexes
  import opened Laws

  /** Three bytes "a", "," and "b", as unit values. */
  const A := 97
  const B := 98
  const Comma := 44

  /**
   * On bytes, the one-byte literal of the byte at the cursor matches it, whether written as
   * a byte slice or as a string (`str`).
   */
  lemma {:induction false} LitByte(s: seq<int>, off: nat, str: bool)
    requires off < |s|
    ensures off <= Src(Bytes, s).Len()
    ensures Match(Lit([s[off]], str), Src(Bytes, s), off) == Done(Ok(Span(off, 1)), off + 1)
  {
    ByteLenBytes(s);
    LitBytes([s[off]], s, off);
  }

  /**
   * On bytes, a one-byte literal fails at the end or on a different byte, without moving,
   * with the error of its kind.
   */
  lemma {:induction false} LitByteMiss(x: int, s: seq<int>, off: nat, str: bool)
    requires off <= |s| && (off == |s| || s[off] != x)
    ensures off <= Src(Bytes, s).Len()
    ensures Match(Lit([x], str), Src(Bytes, s), off) == Done(Err(if str then Error.LitString else Error.LitSlice), off)
  {
    ByteLenBytes(s);
    LitBytes([x], s, off);
    if off < |s| {
      assert s[off..off + 1][0] == s[off];
    }
  }

  // ---------------------------------------------------------------------------------------
  // Repeat2

  /**
   * `Repeat2::try_parse` as written: the loop runs while `cnt <= N`, so it may take N + 1
   * items, and then `(M..=N).contains(cnt)` refuses that count.
   */
  function Repeat2AsWritten(p: Regex, m: nat, n: nat, src: Src, off: nat): (o: Outcome)
    requires off <= src.Len()
    ensures o.Done? ==> off <= o.off <= src.Len()
  {
    var re := Regex.Repeat2(p, m, n);
    RepFinish(re, RepLoop(re, p, Some(n + 1), src, off, off, 0, Span(off, 0)), off)
  }

  /**
   * Whenever the item matches twice in a row, `Repeat2<0, 1>` as written fails, though its
   * first match alone is a count in 0..=1; bounded by N, that first match is the result.
   */
  lemma {:induction false} Repeat2AsWrittenWitness(p: Regex, src: Src, off: nat)
    requires off <= src.Len()
    requires Match(p, src, off) == Done(Ok(Span(off, 1)), off + 1)
    requires Match(p, src, off + 1) == Done(Ok(Span(off + 1, 1)), off + 2)
    ensures Repeat2AsWritten(p, 0, 1, src, off) == Done(Err(Error.Repeat2), off)
    ensures Match(Regex.Repeat2(p, 0, 1), src, off) == Done(Ok(Span(off, 1)), off + 1)
  {
    var re := Regex.Repeat2(p, 0, 1);
    RepLoopTwice(re, p, src, off);
    MatchRepeat2(p, 0, 1, src, off);
    RepLoopGoesOn(re, p, Some(1), src, off, off, 0, Span(off, 0));
  }

  /** `Match` of a `Repeat2` node is its loop bounded by N, then the count check. */
  lemma {:induction false} MatchRepeat2(p: Regex, m: nat, n: nat, src: Src, off: nat)
    requires off <= src.Len()
    ensures Match(Regex.Repeat2(p, m, n), src, off) ==
      RepFinish(Regex.Repeat2(p, m, n), RepLoop(Regex.Repeat2(p, m, n), p, Some(n), src, off, off, 0, Span(off, 0)), off)
  {
  }

  /** The loop bounded by 2 over an item that matches twice in a row takes both. */
  lemma {:induction false} RepLoopTwice(re: Regex, p: Regex, src: Src, off: nat)
    requires p < re && off <= src.Len()
    requires Match(p, src, off) == Done(Ok(Span(off, 1)), off + 1)
    requires Match(p, src, off + 1) == Done(Ok(Span(off + 1, 1)), off + 2)
    ensures RepLoop(re, p, Some(2), src, off, off, 0, Span(off, 0)) == Stopped(2, off + 2, Span(off, 2))
  {
    RepLoopGoesOn(re, p, Some(2), src, off, off, 0, Span(off, 0));
    RepLoopGoesOn(re, p, Some(2), src, off, off + 1, 1, Span(off, 1));
  }

  /** The literal "a" on "aa" is such an item. */
  lemma {:induction false} Repeat2AsWrittenOnAa()
    ensures Repeat2AsWritten(Lit([A], false), 0, 1, Src(Bytes, [A, A]), 0) == Done(Err(Error.Repeat2), 0)
    ensures Match(Regex.Repeat2(Lit([A], false), 0, 1), Src(Bytes, [A, A]), 0) == Done(Ok(Span(0, 1)), 1)
  {
    LitByte([A, A], 0, false);
    LitByte([A, A], 1, false);
    Repeat2AsWrittenWitness(Lit([A], false), Src(Bytes, [A, A]), 0);
  }

  // ---------------------------------------------------------------------------------------
  // Separate, SepCollect and Separate2

  /**
   * The separated loop as written: when the separator after an item fails and `skip` is
   * off, the item is neither counted nor covered by the span, but the cursor stays after it.
   */
  function SepLoopAsWritten(re: Regex, p: Regex, sep: Regex, skip: bool, limit: Option<nat>, src: Src, off0: nat, off: nat, cnt: nat, total: Span): (lo: LoopOut)
    requires p < re && sep < re && off0 <= off <= src.Len() && total.beg == off0 && total.End <= off
    ensures LoopSound(src, off0, off, cnt, limit, lo)
    decreases src.Len() - off, Room(limit, cnt)
  {
    if limit.Some? && cnt >= limit.value then Stopped(cnt, off, total)
    else match Match(p, src, off)
      case Diverge => Spin
      case Done(Err(_), o) => Stopped(cnt, o, total)
      case Done(Ok(s), o) =>
        match Match(sep, src, o)
        case Diverge => Spin
        case Done(Err(_), o2) =>
          if skip then Stopped(cnt + 1, o2, AddAssign(total, s)) else Stopped(cnt, o2, total)
        case Done(Ok(ss), o2) =>
          if o2 == off && limit.None? then Spin
          else SepLoopAsWritten(re, p, sep, skip, limit, src, off0, o2, cnt + 1, AddAssign(AddAssign(total, s), ss))
  }

  /** `Separate::try_parse` / `SepCollect::try_parse` as written. */
  function SeparateAsWritten(p: Regex, sep: Regex, skip: bool, min: nat, collect: bool, src: Src, off: nat): (o: Outcome)
    requires off <= src.Len()
    ensures o.Done? ==> off <= o.off <= src.Len()
  {
    var re := Regex.Separate(p, sep, skip, min, collect);
    RepFinish(re, SepLoopAsWritten(re, p, sep, skip, None, src, off, off, 0, Span(off, 0)), off)
  }

  /**
   * `Separate2::try_parse` as written: the loop runs while `cnt <= N`, and only `cnt >= M`
   * is checked afterwards, so N + 1 items can be accepted.
   */
  function Separate2AsWritten(p: Regex, sep: Regex, skip: bool, m: nat, n: nat, src: Src, off: nat): (o: Outcome)
    requires off <= src.Len()
    ensures o.Done? ==> off <= o.off <= src.Len()
  {
    var re := Regex.Separate2(p, sep, skip, m, n);
    RepFinish(re, SepLoopAsWritten(re, p, sep, skip, Some(n + 1), src, off, off, 0, Span(off, 0)), off)
  }

  /**
   * `Separate` with `skip` off: when the item matches and the separator after it fails,
   * no item counts and the span is empty, yet as written the cursor is left after the
   * item. Corrected, the cursor stays at the end of the span.
   */
  lemma {:induction false} SeparateNoSkipWitness(p: Regex, sep: Regex, src: Src, off: nat, e: Error)
    requires off <= src.Len()
    requires Match(p, src, off) == Done(Ok(Span(off, 1)), off + 1)
    requires Match(sep, src, off + 1) == Done(Err(e), off + 1)
    ensures SeparateAsWritten(p, sep, false, 0, false, src, off) == Done(Ok(Span(off, 0)), off + 1)
    ensures Match(Regex.Separate(p, sep, false, 0, false), src, off) == Done(Ok(Span(off, 0)), off)
  {
    var re := Regex.Separate(p, sep, false, 0, false);
    SepSeparatorFails(re, p, sep, false, None, src, off, off, 0, Span(off, 0));
  }

  /** The item "a" and the separator "," on "a" meet the conditions of `SeparateNoSkipWitness`. */
  lemma {:induction false} SeparateNoSkipOnA()
    ensures Match(Lit([A], false), Src(Bytes, [A]), 0) == Done(Ok(Span(0, 1)), 1)
    ensures Match(Lit([Comma], false), Src(Bytes, [A]), 1) == Done(Err(Error.LitSlice), 1)
  {
    LitByte([A], 0, false);
    LitByteMiss(Comma, [A], 1, false);
  }

  /**
   * `Separate2<0, 1>` over item, separator, item, with the separator failing after the
   * second item: as written the loop takes both items and its span covers them; bounded
   * by N it stops after the first item and its separator.
   */
  lemma {:induction false} Separate2AsWrittenWitness(p: Regex, sep: Regex, src: Src, off: nat, e: Error)
    requires off <= src.Len()
    requires Match(p, src, off) == Done(Ok(Span(off, 1)), off + 1)
    requires Match(sep, src, off + 1) == Done(Ok(Span(off + 1, 1)), off + 2)
    requires Match(p, src, off + 2) == Done(Ok(Span(off + 2, 1)), off + 3)
    requires Match(sep, src, off + 3) == Done(Err(e), off + 3)
    ensures Separate2AsWritten(p, sep, true, 0, 1, src, off) == Done(Ok(Span(off, 3)), off + 3)
    ensures Match(Regex.Separate2(p, sep, true, 0, 1), src, off) == Done(Ok(Span(off, 2)), off + 2)
  {
    Separate2AsWrittenTakesBoth(p, sep, src, off, e);
    Separate2BoundedTakesOne(p, sep, src, off);
  }

  /** The as-written half of `Separate2AsWrittenWitness`. */
  lemma {:induction false} Separate2AsWrittenTakesBoth(p: Regex, sep: Regex, src: Src, off: nat, e: Error)
    requires off <= src.Len()
    requires Match(p, src, off) == Done(Ok(Span(off, 1)), off + 1)
    requires Match(sep, src, off + 1) == Done(Ok(Span(off + 1, 1)), off + 2)
    requires Match(p, src, off + 2) == Done(Ok(Span(off + 2, 1)), off + 3)
    requires Match(sep, src, off + 3) == Done(Err(e), off + 3)
    ensures Separate2AsWritten(p, sep, true, 0, 1, src, off) == Done(Ok(Span(off, 3)), off + 3)
  {
    var re := Regex.Separate2(p, sep, true, 0, 1);
    Separate2AsWrittenSecondItem(re, p, sep, src, off, e);
    Separate2AsWrittenFirstItem(re, p, sep, src, off);
    Separate2AsWrittenFinish(p, sep, src, off);
  }

  /** The loop of `Separate2AsWrittenTakesBoth`, once it is known, gives the outcome. */
  lemma {:induction false} Separate2AsWrittenFinish(p: Regex, sep: Regex, src: Src, off: nat)
    requires off + 3 <= src.Len()
    requires SepLoopAsWritten(Regex.Separate2(p, sep, true, 0, 1), p, sep, true, Some(2), src, off, off, 0, Span(off, 0))
      == Stopped(2, off + 3, Span(off, 3))
    ensures Separate2AsWritten(p, sep, true, 0, 1, src, off) == Done(Ok(Span(off, 3)), off + 3)
  {
  }

  /** The first round of `Separate2AsWrittenTakesBoth`: the item and its separator are taken. */
  lemma {:induction false} Separate2AsWrittenFirstItem(re: Regex, p: Regex, sep: Regex, src: Src, off: nat)
    requires p < re && sep < re && off <= src.Len()
    requires Match(p, src, off) == Done(Ok(Span(off, 1)), off + 1)
    requires Match(sep, src, off + 1) == Done(Ok(Span(off + 1, 1)), off + 2)
    ensures SepLoopAsWritten(re, p, sep, true, Some(2), src, off, off, 0, Span(off, 0)) ==
      SepLoopAsWritten(re, p, sep, true, Some(2), src, off, off + 2, 1, Span(off, 2))
  {
  }

  /** The second round of `Separate2AsWrittenTakesBoth`: the item is taken and the separator skipped. */
  lemma {:induction false} Separate2AsWrittenSecondItem(re: Regex, p: Regex, sep: Regex, src: Src, off: nat, e: Error)
    requires p < re && sep < re && off + 2 <= src.Len()
    requires Match(p, src, off + 2) == Done(Ok(Span(off + 2, 1)), off + 3)
    requires Match(sep, src, off + 3) == Done(Err(e), off + 3)
    ensures SepLoopAsWritten(re, p, sep, true, Some(2), src, off, off + 2, 1, Span(off, 2)) == Stopped(2, off + 3, Span(off, 3))
  {
  }

  /** The corrected half of `Separate2AsWrittenWitness`: bounded by N, one item and its separator. */
  lemma {:induction false} Separate2BoundedTakesOne(p: Regex, sep: Regex, src: Src, off: nat)
    requires off <= src.Len()
    requires Match(p, src, off) == Done(Ok(Span(off, 1)), off + 1)
    requires Match(sep, src, off + 1) == Done(Ok(Span(off + 1, 1)), off + 2)
    ensures Match(Regex.Separate2(p, sep, true, 0, 1), src, off) == Done(Ok(Span(off, 2)), off + 2)
  {
    SepSeparatorMatches(Regex.Separate2(p, sep, true, 0, 1), p, sep, true, Some(1), src, off, off, 0, Span(off, 0));
  }

  /** The item "a" and the separator "," on "a,a" meet the conditions of `Separate2AsWrittenWitness`. */
  lemma {:induction false} Separate2AsWrittenOnACommaA()
    ensures Match(Lit([A], false), Src(Bytes, [A, Comma, A]), 0) == Done(Ok(Span(0, 1)), 1)
    ensures Match(Lit([Comma], false), Src(Bytes, [A, Comma, A]), 1) == Done(Ok(Span(1, 1)), 2)
    ensures Match(Lit([A], false), Src(Bytes, [A, Comma, A]), 2) == Done(Ok(Span(2, 1)), 3)
    ensures Match(Lit([Comma], false), Src(Bytes, [A, Comma, A]), 3) == Done(Err(Error.LitSlice), 3)
  {
    LitByte([A, Comma, A], 0, false);
    LitByte([A, Comma, A], 1, false);
    LitByte([A, Comma, A], 2, false);
    LitByteMiss(Comma, [A, Comma, A], 3, false);
  }

  // ---------------------------------------------------------------------------------------
  // PairSlice

  /**
   * `PairSlice::try_parse` as written: with no `break`, every alternative runs; one that
   * succeeds replaces the result and leaves the cursor where it ended, so the next one
   * starts there; one that fails resets the cursor to the entry offset but keeps the result.
   */
  function PairSliceLoopAsWritten(alts: seq<Regex>, src: Src, off: nat, cur: nat, i: nat, ret: Result<Span>): (o: Outcome)
    requires i <= |alts| && off <= cur <= src.Len()
    ensures o.Done? ==> off <= o.off <= src.Len()
    decreases |alts| - i
  {
    if i == |alts| then Done(ret, cur)
    else match Match(alts[i], src, cur)
      case Diverge => Diverge
      case Done(Ok(s), o) => PairSliceLoopAsWritten(alts, src, off, o, i + 1, Ok(s))
      case Done(Err(_), _) => PairSliceLoopAsWritten(alts, src, off, off, i + 1, ret)
  }

  function PairSliceAsWritten(alts: seq<Regex>, src: Src, off: nat): (o: Outcome)
    requires off <= src.Len()
    ensures o.Done? ==> off <= o.off <= src.Len()
  {
    PairSliceLoopAsWritten(alts, src, off, off, 0, Err(Error.PairSlice))
  }

  /**
   * Two alternatives where the first matches one unit and the second matches right after
   * it: as written both run and the result is the second span, which does not start at
   * the entry offset; when the second fails there instead, the result is the first span
   * with the cursor back at the entry offset. The corrected choice takes the first.
   */
  lemma {:induction false} PairSliceAsWrittenWitness(l: Regex, r: Regex, src: Src, off: nat, o: Outcome)
    requires off <= src.Len()
    requires Match(l, src, off) == Done(Ok(Span(off, 1)), off + 1)
    requires Match(r, src, off + 1) == o
    requires o == Done(Ok(Span(off + 1, 1)), off + 2) || (o.Done? && o.res.Err?)
    ensures o.Done? && o.res.Ok? ==> PairSliceAsWritten([l, r], src, off) == Done(Ok(Span(off + 1, 1)), off + 2)
    ensures o.Done? && o.res.Err? ==> PairSliceAsWritten([l, r], src, off) == Done(Ok(Span(off, 1)), off)
    ensures Match(Regex.PairSlice([l, r]), src, off) == Done(Ok(Span(off, 1)), off + 1)
  {
    var alts := [l, r];
    assert alts[0] == l && alts[1] == r && |alts| == 2;
    assert PairSliceAsWritten(alts, src, off) == PairSliceLoopAsWritten(alts, src, off, off + 1, 1, Ok(Span(off, 1)));
    if o.Done? && o.res.Ok? {
      assert PairSliceLoopAsWritten(alts, src, off, off + 1, 1, Ok(Span(off, 1))) ==
        PairSliceLoopAsWritten(alts, src, off, off + 2, 2, Ok(Span(off + 1, 1)));
    } else if o.Done? {
      assert PairSliceLoopAsWritten(alts, src, off, off + 1, 1, Ok(Span(off, 1))) ==
        PairSliceLoopAsWritten(alts, src, off, off, 2, Ok(Span(off, 1)));
    }
    ChoiceLoopTake(Regex.PairSlice(alts), alts, Error.PairSlice, src, off, 0);
  }

  /**
   * The alternatives "a" and "b" meet the conditions of `PairSliceAsWrittenWitness` on
   * "ab" (the second matches after the first) and on "a" (it fails there).
   */
  lemma {:induction false} PairSliceAsWrittenOnAbAndA()
    ensures Match(Lit([A], false), Src(Bytes, [A, B]), 0) == Done(Ok(Span(0, 1)), 1)
    ensures Match(Lit([B], false), Src(Bytes, [A, B]), 1) == Done(Ok(Span(1, 1)), 2)
    ensures Match(Lit([A], false), Src(Bytes, [A]), 0) == Done(Ok(Span(0, 1)), 1)
    ensures Match(Lit([B], false), Src(Bytes, [A]), 1) == Done(Err(Error.LitSlice), 1)
  {
    LitByte([A, B], 0, false);
    LitByte([A, B], 1, false);
    LitByte([A], 0, false);
    LitByteMiss(B, [A], 1, false);
  }

  /**
   * The corrected `PairSlice` is an ordered choice: the outcome of the first alternative
   * that does not fail, when all before it fail; when all fail, Err(PairSlice) at the
   * entry offset.
   */
  lemma {:induction false} PairSliceFirstSuccess(alts: seq<Regex>, src: Src, off: nat, k: nat)
    requires off <= src.Len() && k < |alts|
    requires forall j :: 0 <= j < k ==> Failed(Match(alts[j], src, off))
    requires !Failed(Match(alts[k], src, off))
    ensures Match(Regex.PairSlice(alts), src, off) == Match(alts[k], src, off)
  {
    assert AllFail(alts, src, off, 0, k);
    ChoiceLoopFirst(Regex.PairSlice(alts), alts, Error.PairSlice, src, off, 0, k);
  }

  lemma {:induction false} PairSliceAllFail(alts: seq<Regex>, src: Src, off: nat)
    requires off <= src.Len()
    requires forall j :: 0 <= j < |alts| ==> Failed(Match(alts[j], src, off))
    ensures Match(Regex.PairSlice(alts), src, off) == Done(Err(Error.PairSlice), off)
  {
    assert AllFail(alts, src, off, 0, |alts|);
    ChoiceLoopAllFail(Regex.PairSlice(alts), alts, Error.PairSlice, src, off, 0);
  }

  // ---------------------------------------------------------------------------------------
  // LongestTokenMatch

  /** `LongestTokenMatch::try_parse` as written: the end offset alone decides, left on ties. */
  function LongestAsWritten(l: Regex, r: Regex, src: Src, off: nat): (o: Outcome)
    requires off <= src.Len()
    ensures o.Done? ==> off <= o.off <= src.Len()
  {
    match Match(l, src, off)
    case Diverge => Diverge
    case Done(rl, ol) =>
      match Match(r, src, off)
      case Diverge => Diverge
      case Done(rr, or) =>
        if PreferLeftAsWritten(rl.Ok?, ol, rr.Ok?, or) then Settle(rl, ol, off) else Settle(rr, or, off)
  }

  /**
   * A failing left alternative and an empty right one end at the same offset, so as
   * written the left failure wins; corrected, the empty success is the result.
   */
  lemma {:induction false} LongestAsWrittenWitness(src: Src, off: nat)
    requires off <= src.Len()
    ensures LongestAsWritten(Regex.Fail, Empty, src, off) == Done(Err(Error.Fail), off)
    ensures Match(Longest(Regex.Fail, Empty), src, off) == Done(Ok(Span(off, 0)), off)
  {
    var re := Longest(Regex.Fail, Empty);
    assert Match(Regex.Fail, src, off) == Done(Err(Error.Fail), off);
    assert Match(Empty, src, off) == Done(Ok(Span(off, 0)), off);
    assert PreferLeftAsWritten(false, off, true, off);
    assert !PreferLeft(false, off, true, off);
    assert Match(re, src, off) == LongestMatch(re, Regex.Fail, Empty, src, off);
  }

  // ---------------------------------------------------------------------------------------
  // Then, Suffix, Prefix, Enclose and SepOnce

  /**
   * `Then::try_parse` in regex mode as written (and `Suffix` and `Prefix`, which do the
   * same): each step goes through the guard's `try_mat` and `?`, and `try_mat` never marks
   * the guard on an error, so a failure leaves the cursor where the failing step left it.
   */
  function ThenAsWritten(l: Regex, r: Regex, src: Src, off: nat): (o: Outcome)
    requires off <= src.Len()
    ensures o.Done? ==> off <= o.off <= src.Len()
  {
    match Match(l, src, off)
    case Diverge => Diverge
    case Done(Err(e), o1) => Done(Err(e), o1)
    case Done(Ok(s1), o1) =>
      match Match(r, src, o1)
      case Diverge => Diverge
      case Done(Err(e), o2) => Done(Err(e), o2)
      case Done(Ok(s2), o2) => Done(Ok(AddAssign(s1, s2)), o2)
  }

  /** `Enclose::try_parse` and `SepOnce::try_parse` in regex mode as written: three such steps. */
  function Then3AsWritten(a: Regex, b: Regex, c: Regex, src: Src, off: nat): (o: Outcome)
    requires off <= src.Len()
    ensures o.Done? ==> off <= o.off <= src.Len()
  {
    match ThenAsWritten(a, b, src, off)
    case Diverge => Diverge
    case Done(Err(e), o2) => Done(Err(e), o2)
    case Done(Ok(s2), o2) =>
      match Match(c, src, o2)
      case Diverge => Diverge
      case Done(Err(e), o3) => Done(Err(e), o3)
      case Done(Ok(s3), o3) => Done(Ok(AddAssign(s2, s3)), o3)
  }

  /**
   * The corrected sequences differ from the code as written only in where a failure leaves
   * the cursor: same successes, same divergence, same error, but back at the entry.
   */
  lemma {:induction false} ThenAsWrittenAgrees(l: Regex, r: Regex, src: Src, off: nat)
    requires off <= src.Len()
    ensures Match(Then(l, r), src, off) == RewindOnError(ThenAsWritten(l, r, src, off), off)
    ensures Match(Suffix(l, r), src, off) == RewindOnError(ThenAsWritten(l, r, src, off), off)
    ensures Match(Prefix(l, r), src, off) == RewindOnError(ThenAsWritten(l, r, src, off), off)
  {
    ThenMatchAsWritten(Then(l, r), l, r, src, off);
    ThenMatchAsWritten(Suffix(l, r), l, r, src, off);
    ThenMatchAsWritten(Prefix(l, r), l, r, src, off);
  }

  /** `ThenAsWrittenAgrees` for one of the nodes whose match is a two-step sequence. */
  lemma {:induction false} ThenMatchAsWritten(re: Regex, l: Regex, r: Regex, src: Src, off: nat)
    requires re == Then(l, r) || re == Suffix(l, r) || re == Prefix(l, r)
    requires off <= src.Len()
    ensures Match(re, src, off) == RewindOnError(ThenAsWritten(l, r, src, off), off)
  {
    assert Match(re, src, off) == ThenMatch(re, l, r, src, off);
  }

  /** The same for the three-step sequences `Enclose` and `SepOnce`. */
  lemma {:induction false} Then3AsWrittenAgrees(a: Regex, b: Regex, c: Regex, src: Src, off: nat)
    requires off <= src.Len()
    ensures Match(Enclose(a, b, c), src, off) == RewindOnError(Then3AsWritten(a, b, c, src, off), off)
    ensures Match(SepOnce(a, b, c), src, off) == RewindOnError(Then3AsWritten(a, b, c, src, off), off)
  {
    Then3MatchAsWritten(Enclose(a, b, c), a, b, c, src, off);
    Then3MatchAsWritten(SepOnce(a, b, c), a, b, c, src, off);
  }

  /** `Then3AsWrittenAgrees` for one of the nodes whose match is a three-step sequence. */
  lemma {:induction false} Then3MatchAsWritten(re: Regex, a: Regex, b: Regex, c: Regex, src: Src, off: nat)
    requires re == Enclose(a, b, c) || re == SepOnce(a, b, c)
    requires off <= src.Len()
    ensures Match(re, src, off) == RewindOnError(Then3AsWritten(a, b, c, src, off), off)
  {
    assert Match(re, src, off) == Then3Match(re, a, b, c, src, off);
  }

  /**
   * `"a".then("b")` on "ac": as written the failure leaves the cursor after the "a";
   * corrected, as the documentation of `Then` promises, it is back at 0.
   */
  lemma {:induction false} ThenAsWrittenOnAc()
    ensures ThenAsWritten(Lit([A], true), Lit([B], true), Src(Bytes, [A, 99]), 0) == Done(Err(Error.LitString), 1)
    ensures Match(Then(Lit([A], true), Lit([B], true)), Src(Bytes, [A, 99]), 0) == Done(Err(Error.LitString), 0)
  {
    var s := [A, 99];
    LitByte(s, 0, true);
    LitByteMiss(B, s, 1, true);
    ThenAsWrittenAgrees(Lit([A], true), Lit([B], true), Src(Bytes, s), 0);
  }

  /**
   * `"a".sep_once(",", "b")` on "a,c": as written the failure leaves the cursor after the
   * separator; corrected, as the documentation of `SepOnce` promises, it is back at 0.
   */
  lemma {:induction false} SepOnceAsWrittenOnACommaC()
    ensures Then3AsWritten(Lit([A], true), Lit([Comma], true), Lit([B], true), Src(Bytes, [A, Comma, 99]), 0)
      == Done(Err(Error.LitString), 2)
    ensures Match(SepOnce(Lit([A], true), Lit([Comma], true), Lit([B], true)), Src(Bytes, [A, Comma, 99]), 0)
      == Done(Err(Error.LitString), 0)
  {
    var s := [A, Comma, 99];
    LitByte(s, 0, true);
    LitByte(s, 1, true);
    LitByteMiss(B, s, 2, true);
    Then3AsWrittenAgrees(Lit([A], true), Lit([Comma], true), Lit([B], true), Src(Bytes, s), 0);
  }
}
