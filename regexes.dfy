/**
 * The regex side of the matcher combinators (`Regex::try_parse`), as a specification over
 * values: `Match(re, src, off)` is what running `re` on data `src` with the cursor at
 * `off` returns and where it leaves the cursor.
 *
 * Loops that repeat an inner matcher with no upper bound (`Repeat` with an open end,
 * `Collect`, `Separate`, `SepCollect`) never end when the inner matcher succeeds without
 * moving the cursor; the outcome is then `Diverge`.
 */
module Regexes {
  import opened Errors
  import opened Spans
  import opened Text
  import opened Cursor
  import opened Ranges
  import opened Neus
  import opened Units

  /** Which ordered choice a `Choice` node is; only the error it reports differs. */
  datatype ChoiceKind = ArrayChoice | PairArrayChoice | SliceChoice | VectorChoice | PairVectorChoice

  /** The user test of `Branch`: sees the data and the cursor offset. */
  type BranchTest = (Src, nat) -> Result<bool>

  datatype Regex =
    /** A unit predicate under a quantifier (`neu.once()`, `.many1()`, `.between::<M, N>()`, ...). */
    | Unit(q: Quantifier, neu: Neu, cond: Cond)
    /** `LitSlice` (`str` false) or `LitString` (`str` true). */
    | Lit(val: seq<int>, str: bool)
    | Consume(n: nat)
    | ConsumeAll
    | AnchorStart
    | AnchorEnd
    /** `EmptyRegex`, and the `()` matcher. */
    | Empty
    | Fail
    | Assert(pat: Regex, value: bool)
    | Then(left: Regex, right: Regex)
    | IfThen(left: Regex, test: Regex, right: Regex)
    | Or(left: Regex, right: Regex)
    | Longest(left: Regex, right: Regex)
    | Suffix(pat: Regex, suffix: Regex)
    | Prefix(prefix: Regex, pat: Regex)
    | Enclose(open: Regex, pat: Regex, close: Regex)
    | OptionPat(pat: Regex)
    | Branch(branch: BranchTest, pat: Regex, other: Regex)
    | Repeat(pat: Regex, range: CRange)
    | Repeat2(pat: Regex, m: nat, n: nat)
    | Collect(pat: Regex, min: nat)
    | SepOnce(left: Regex, sep: Regex, right: Regex)
    /** `Separate` (`collect` false) and `SepCollect` (`collect` true). */
    | Separate(pat: Regex, sep: Regex, skip: bool, min: nat, collect: bool)
    | Separate2(pat: Regex, sep: Regex, skip: bool, m: nat, n: nat)
    | Choice(kind: ChoiceKind, alts: seq<Regex>)
    | PairSlice(alts: seq<Regex>)

  /** What a matcher returns and where it leaves the cursor, or that it never returns. */
  datatype Outcome = Done(res: Result<Span>, off: nat) | Diverge

  /**
   * What every matcher guarantees: the cursor never moves backwards past the entry offset
   * nor beyond the end, and a successful span starts at the entry offset and ends no
   * later than the cursor.
   */
  predicate Sound(src: Src, off: nat, o: Outcome)
  {
    o.Done? ==>
      off <= o.off <= src.Len() &&
      (o.res.Ok? ==> o.res.value.beg == off && o.res.value.End <= o.off)
  }

  /** Where a repetition loop stopped: count, cursor and accumulated span, or that it spins. */
  datatype LoopOut = Stopped(cnt: nat, cur: nat, total: Span) | Spin

  predicate LoopSound(src: Src, off0: nat, off: nat, cnt: nat, limit: Option<nat>, lo: LoopOut)
  {
    lo.Stopped? ==>
      off <= lo.cur <= src.Len() && lo.total.beg == off0 && lo.total.End <= lo.cur &&
      cnt <= lo.cnt && (limit.Some? && cnt <= limit.value ==> lo.cnt <= limit.value)
  }

  /** `starts_with`. */
  predicate StartsWith(s: seq<int>, p: seq<int>)
  {
    |p| <= |s| && s[..|p|] == p
  }

  /** The error an ordered choice reports when every alternative fails. */
  function ChoiceError(k: ChoiceKind): Error
  {
    match k
    case ArrayChoice => Error.Array
    case PairArrayChoice => Error.PairArray
    case SliceChoice => Error.Slice
    case VectorChoice => Error.Vector
    case PairVectorChoice => Error.PairVector
  }

  /** `Repeat::is_contain`: the loop may try one more item exactly when the end bound admits it. */
  function IsContain(rg: CRange, cnt: nat): (b: bool)
    ensures b <==> match rg.end
      case Included(e) => cnt + 1 <= e
      case Excluded(e) => cnt + 1 < e
      case Unbounded => true
  {
    match rg.end
    case Included(max) => cnt < max
    case Excluded(max) => cnt < (if max == 0 then 0 else max - 1)
    case Unbounded => true
  }

  /** `Repeat::guess_capacity`: the start bound (or `val` when open), and at least `val`. */
  function GuessCapacity(rg: CRange, val: nat): (c: nat)
    ensures c >= val
    ensures rg.start.Unbounded? ==> c == val
    ensures !rg.start.Unbounded? ==> c >= rg.start.v && (c == val || c == rg.start.v)
  {
    var start := match rg.start
      case Included(v) => v
      case Excluded(v) => v
      case Unbounded => val;
    if start >= val then start else val
  }

  /** The repetition limit `Repeat` derives from its range: the loop runs while `IsContain`. */
  function RepeatLimit(rg: CRange): (l: Option<nat>)
    ensures forall cnt: nat :: IsContain(rg, cnt) <==> (l.None? || cnt < l.value)
  {
    TimesLimit(rg)
  }

  // ---------------------------------------------------------------------------------------
  // The interpreter

  /** `Regex::try_parse` of `re` at offset `off`. */
  function Match(re: Regex, src: Src, off: nat): (r: Outcome)
    requires off <= src.Len()
    ensures Sound(src, off, r)
    decreases re, 2, 0, 0
  {
    match re
    case Unit(q, u, c) =>
      var o := UnitMatch(q, u, c, src, off);
      Done(o.res, o.off)
    case Lit(val, str) => LitMatch(val, str, src, off)
    case Consume(n) =>
      if src.Len() - off >= n then Done(Ok(Span(off, n)), off + n) else Done(Err(Error.Consume), off)
    case ConsumeAll => Done(Ok(Span(off, src.Len() - off)), src.Len())
    case AnchorStart => if off == 0 then Done(Ok(Span(off, 0)), off) else Done(Err(Error.AnchorStart), off)
    case AnchorEnd => if off == src.Len() then Done(Ok(Span(off, 0)), off) else Done(Err(Error.AnchorEnd), off)
    case Empty => Done(Ok(Span(off, 0)), off)
    case Fail => Done(Err(Error.Fail), off)
    case Assert(pat, value) => AssertMatch(re, pat, value, src, off)
    case Then(l, r) => ThenMatch(re, l, r, src, off)
    case IfThen(l, t, r) => IfThenMatch(re, l, t, r, src, off)
    case Or(l, r) => OrMatch(re, l, r, src, off)
    case Longest(l, r) => LongestMatch(re, l, r, src, off)
    case Suffix(p, s) => ThenMatch(re, p, s, src, off)
    case Prefix(p, m) => ThenMatch(re, p, m, src, off)
    case Enclose(o, p, c) => Then3Match(re, o, p, c, src, off)
    case OptionPat(p) => OptionMatch(re, p, src, off)
    case Branch(test, p, other) => BranchMatch(re, test, p, other, src, off)
    case Repeat(p, rg) => RepFinish(re, RepLoop(re, p, RepeatLimit(rg), src, off, off, 0, Span(off, 0)), off)
    case Repeat2(p, _, n) => RepFinish(re, RepLoop(re, p, Some(n), src, off, off, 0, Span(off, 0)), off)
    case Collect(p, _) => RepFinish(re, RepLoop(re, p, None, src, off, off, 0, Span(off, 0)), off)
    case SepOnce(l, s, r) => Then3Match(re, l, s, r, src, off)
    case Separate(p, s, skip, _, _) => RepFinish(re, SepLoop(re, p, s, skip, None, src, off, off, 0, Span(off, 0)), off)
    case Separate2(p, s, skip, _, n) => RepFinish(re, SepLoop(re, p, s, skip, Some(n), src, off, off, 0, Span(off, 0)), off)
    case Choice(kind, alts) => ChoiceLoop(re, alts, ChoiceError(kind), src, off, 0)
    case PairSlice(alts) => ChoiceLoop(re, alts, Error.PairSlice, src, off, 0)
  }

  /**
   * `LitSlice::try_parse` / `LitString::try_parse`: too little data left is a mismatch;
   * otherwise the data from the cursor is read (which fails off a code-point boundary)
   * and must start with the literal.
   */
  function LitMatch(val: seq<int>, str: bool, src: Src, off: nat): (r: Outcome)
    requires off <= src.Len()
    ensures Sound(src, off, r)
    ensures r.Done? && (r.res.Ok? ==> r.res.value.len == ByteLen(src.mode, val))
  {
    var len := ByteLen(src.mode, val);
    var miss := if str then Error.LitString else Error.LitSlice;
    if src.Len() - off < len then Done(Err(miss), off)
    else match Orig(src, off)
      case Err(e) => Done(Err(e), off)
      case Ok(suf) => if StartsWith(suf, val) then Done(Ok(Span(off, len)), off + len) else Done(Err(miss), off)
  }

  /** `Assert::try_parse`: succeeds, without consuming, iff the inner outcome is `value`. */
  function AssertMatch(re: Regex, pat: Regex, value: bool, src: Src, off: nat): (r: Outcome)
    requires pat < re && off <= src.Len()
    ensures Sound(src, off, r)
    decreases re, 1, 0, 0
  {
    match Match(pat, src, off)
    case Diverge => Diverge
    case Done(res, _) =>
      if res.Ok? == value then Done(Ok(Span(off, 0)), off) else Done(Err(Error.Assert), off)
  }

  /** An outcome whose failure is moved back to the entry offset; success and divergence are kept. */
  function RewindOnError(o: Outcome, off: nat): Outcome
  {
    if o.Done? && o.res.Err? then Done(o.res, off) else o
  }

  /**
   * `Then`, `Suffix` and `Prefix`: the left matcher, then the right one from where the
   * left stopped; the span runs from the left start to the right end. A failure returns
   * the first error with the cursor back at the entry, as the constructor mode does
   * through `process_ret` (the regex mode as written does not: `AsWritten.ThenAsWritten`).
   */
  function ThenMatch(re: Regex, l: Regex, r: Regex, src: Src, off: nat): (o: Outcome)
    requires l < re && r < re && off <= src.Len()
    ensures Sound(src, off, o)
    ensures o.Done? && o.res.Err? ==> o.off == off
    decreases re, 1, 0, 0
  {
    match Match(l, src, off)
    case Diverge => Diverge
    case Done(Err(e), _) => Done(Err(e), off)
    case Done(Ok(s1), o1) =>
      match Match(r, src, o1)
      case Diverge => Diverge
      case Done(Err(e), _) => Done(Err(e), off)
      case Done(Ok(s2), o2) => Done(Ok(AddAssign(s1, s2)), o2)
  }

  /**
   * `Enclose` (open, pat, close) and `SepOnce` (left, sep, right): three steps in a row; a
   * failure returns the first error with the cursor back at the entry.
   */
  function Then3Match(re: Regex, a: Regex, b: Regex, c: Regex, src: Src, off: nat): (o: Outcome)
    requires a < re && b < re && c < re && off <= src.Len()
    ensures Sound(src, off, o)
    ensures o.Done? && o.res.Err? ==> o.off == off
    decreases re, 1, 0, 0
  {
    match Match(a, src, off)
    case Diverge => Diverge
    case Done(Err(e), _) => Done(Err(e), off)
    case Done(Ok(s1), o1) =>
      match Match(b, src, o1)
      case Diverge => Diverge
      case Done(Err(e), _) => Done(Err(e), off)
      case Done(Ok(s2), o2) =>
        match Match(c, src, o2)
        case Diverge => Diverge
        case Done(Err(e), _) => Done(Err(e), off)
        case Done(Ok(s3), o3) => Done(Ok(AddAssign(AddAssign(s1, s2), s3)), o3)
  }

  /**
   * `IfThen::try_parse`: the left matcher is required; when the test then matches, the
   * right matcher is required too. A failing test is no error and the result is the
   * left span, with the cursor where the test left it.
   */
  function IfThenMatch(re: Regex, l: Regex, t: Regex, r: Regex, src: Src, off: nat): (o: Outcome)
    requires l < re && t < re && r < re && off <= src.Len()
    ensures Sound(src, off, o)
    decreases re, 1, 0, 0
  {
    match Match(l, src, off)
    case Diverge => Diverge
    case Done(Err(e), o1) => Done(Err(e), o1)
    case Done(Ok(s1), o1) =>
      match Match(t, src, o1)
      case Diverge => Diverge
      case Done(Err(_), o2) => Done(Ok(s1), o2)
      case Done(Ok(st), o2) =>
        match Match(r, src, o2)
        case Diverge => Diverge
        case Done(Err(e), o3) => Done(Err(e), o3)
        case Done(Ok(s3), o3) => Done(Ok(AddAssign(AddAssign(s1, st), s3)), o3)
  }

  /**
   * `Or::try_parse`: the left result when it succeeds; otherwise the right one from the
   * entry offset, and on a second failure the cursor goes back to the entry offset.
   */
  function OrMatch(re: Regex, l: Regex, r: Regex, src: Src, off: nat): (o: Outcome)
    requires l < re && r < re && off <= src.Len()
    ensures Sound(src, off, o)
    decreases re, 1, 0, 0
  {
    match Match(l, src, off)
    case Diverge => Diverge
    case Done(Ok(s), o1) => Done(Ok(s), o1)
    case Done(Err(_), _) =>
      match Match(r, src, off)
      case Diverge => Diverge
      case Done(Ok(s), o2) => Done(Ok(s), o2)
      case Done(Err(e), _) => Done(Err(e), off)
  }

  /**
   * `LongestTokenMatch` (corrected): both alternatives run from the entry offset; a
   * success beats a failure, then the larger end offset wins, and the left one wins ties.
   * A failing choice puts the cursor back at the entry offset.
   */
  function LongestMatch(re: Regex, l: Regex, r: Regex, src: Src, off: nat): (o: Outcome)
    requires l < re && r < re && off <= src.Len()
    ensures Sound(src, off, o)
    decreases re, 1, 0, 0
  {
    match Match(l, src, off)
    case Diverge => Diverge
    case Done(rl, ol) =>
      match Match(r, src, off)
      case Diverge => Diverge
      case Done(rr, or) =>
        if PreferLeft(rl.Ok?, ol, rr.Ok?, or) then Settle(rl, ol, off) else Settle(rr, or, off)
  }

  /** The corrected choice of `LongestTokenMatch`: success first, then the end offset, then left. */
  predicate PreferLeft(okL: bool, ol: nat, okR: bool, or: nat)
  {
    (okL && !okR) || (okL == okR && ol >= or)
  }

  /** `LongestTokenMatch` as written: the end offset alone decides, left on ties. */
  predicate PreferLeftAsWritten(okL: bool, ol: nat, okR: bool, or: nat)
  {
    ol >= or
  }

  /** The cursor moves to the chosen end; a chosen failure is rewound by the guard. */
  function Settle(res: Result<Span>, end: nat, off: nat): Outcome
  {
    if res.Ok? then Done(res, end) else Done(res, off)
  }

  /** `OptionPat::try_parse`: never fails; a failing inner matcher becomes an empty span at the entry offset. */
  function OptionMatch(re: Regex, p: Regex, src: Src, off: nat): (o: Outcome)
    requires p < re && off <= src.Len()
    ensures Sound(src, off, o)
    decreases re, 1, 0, 0
  {
    match Match(p, src, off)
    case Diverge => Diverge
    case Done(Ok(s), o1) => Done(Ok(s), o1)
    case Done(Err(_), _) => Done(Ok(Span(off, 0)), off)
  }

  /**
   * `Branch::try_parse`: the test runs once; its error is returned at once, otherwise it
   * selects the alternative, and a failing alternative puts the cursor back.
   */
  function BranchMatch(re: Regex, test: BranchTest, p: Regex, other: Regex, src: Src, off: nat): (o: Outcome)
    requires p < re && other < re && off <= src.Len()
    ensures Sound(src, off, o)
    decreases re, 1, 0, 0
  {
    match test(src, off)
    case Err(e) => Done(Err(e), off)
    case Ok(b) =>
      match Match(if b then p else other, src, off)
      case Diverge => Diverge
      case Done(Ok(s), o1) => Done(Ok(s), o1)
      case Done(Err(e), _) => Done(Err(e), off)
  }

  /**
   * The loop shared by `Repeat`, `Repeat2` and `Collect`: while the limit allows, run the
   * inner matcher; each success is counted and merged into the total, the first failure
   * ends the loop with the cursor where that failure left it. With no limit, a success
   * that does not move the cursor repeats for ever.
   */
  function RepLoop(re: Regex, p: Regex, limit: Option<nat>, src: Src, off0: nat, off: nat, cnt: nat, total: Span): (lo: LoopOut)
    requires p < re && off0 <= off <= src.Len() && total.beg == off0 && total.End <= off
    ensures LoopSound(src, off0, off, cnt, limit, lo)
    decreases re, 0, src.Len() - off, Room(limit, cnt)
  {
    if limit.Some? && cnt >= limit.value then Stopped(cnt, off, total)
    else match Match(p, src, off)
      case Diverge => Spin
      case Done(Err(_), o) => Stopped(cnt, o, total)
      case Done(Ok(s), o) =>
        if o == off && limit.None? then Spin
        else RepLoop(re, p, limit, src, off0, o, cnt + 1, AddAssign(total, s))
  }

  /** Where the repetition loop stops when it does not go on, stated without the node that runs it. */
  function RepStop(limit: Option<nat>, m: Outcome, off: nat, cnt: nat, total: Span): LoopOut
  {
    if limit.Some? && cnt >= limit.value then Stopped(cnt, off, total)
    else match m
      case Diverge => Spin
      case Done(Err(_), o) => Stopped(cnt, o, total)
      case Done(Ok(_), _) => Spin
  }

  /** The loop goes on after the item succeeded, within the limit and not stuck in place. */
  predicate RepGoesOn(limit: Option<nat>, m: Outcome, off: nat, cnt: nat)
  {
    !(limit.Some? && cnt >= limit.value) && m.Done? && m.res.Ok? && !(m.off == off && limit.None?)
  }

  lemma {:induction false} RepLoopStops(re: Regex, p: Regex, limit: Option<nat>, src: Src, off0: nat, off: nat, cnt: nat, total: Span)
    requires p < re && off0 <= off <= src.Len() && total.beg == off0 && total.End <= off
    requires !RepGoesOn(limit, Match(p, src, off), off, cnt)
    ensures RepLoop(re, p, limit, src, off0, off, cnt, total) == RepStop(limit, Match(p, src, off), off, cnt, total)
  {
  }

  lemma {:induction false} RepLoopGoesOn(re: Regex, p: Regex, limit: Option<nat>, src: Src, off0: nat, off: nat, cnt: nat, total: Span)
    requires p < re && off0 <= off <= src.Len() && total.beg == off0 && total.End <= off
    requires RepGoesOn(limit, Match(p, src, off), off, cnt)
    ensures RepLoop(re, p, limit, src, off0, off, cnt, total) ==
      RepLoop(re, p, limit, src, off0, Match(p, src, off).off, cnt + 1, AddAssign(total, Match(p, src, off).res.value))
  {
  }

  /** How many more rounds a limit allows. */
  function Room(limit: Option<nat>, cnt: nat): nat
  {
    if limit.Some? && cnt < limit.value then limit.value - cnt else 0
  }

  /**
   * The loop shared by `Separate`, `SepCollect` and `Separate2`: an item, then a separator.
   * An item is counted (and merged, with its separator) when the separator matched or
   * `skip` is set; the first separator failure ends the loop. Corrected: an item that is
   * not counted is not consumed either, so the cursor goes back to before it.
   */
  function SepLoop(re: Regex, p: Regex, sep: Regex, skip: bool, limit: Option<nat>, src: Src, off0: nat, off: nat, cnt: nat, total: Span): (lo: LoopOut)
    requires p < re && sep < re && off0 <= off <= src.Len() && total.beg == off0 && total.End <= off
    ensures LoopSound(src, off0, off, cnt, limit, lo)
    decreases re, 0, src.Len() - off, Room(limit, cnt)
  {
    if limit.Some? && cnt >= limit.value then Stopped(cnt, off, total)
    else match Match(p, src, off)
      case Diverge => Spin
      case Done(Err(_), o) => Stopped(cnt, o, total)
      case Done(Ok(s), o) =>
        match Match(sep, src, o)
        case Diverge => Spin
        case Done(Err(_), o2) =>
          if skip then Stopped(cnt + 1, o2, AddAssign(total, s)) else Stopped(cnt, off, total)
        case Done(Ok(ss), o2) =>
          if o2 == off && limit.None? then Spin
          else SepLoop(re, p, sep, skip, limit, src, off0, o2, cnt + 1, AddAssign(AddAssign(total, s), ss))
  }

  /** One round of `SepLoop` whose item fails. */
  lemma {:induction false} SepItemFails(re: Regex, p: Regex, sep: Regex, skip: bool, limit: Option<nat>, src: Src, off0: nat, off: nat, cnt: nat, total: Span)
    requires p < re && sep < re && off0 <= off <= src.Len() && total.beg == off0 && total.End <= off
    requires !(limit.Some? && cnt >= limit.value)
    requires Match(p, src, off).Done? && Match(p, src, off).res.Err?
    ensures SepLoop(re, p, sep, skip, limit, src, off0, off, cnt, total) == Stopped(cnt, Match(p, src, off).off, total)
  {
  }

  /** One round of `SepLoop` whose item matches and whose separator fails. */
  lemma {:induction false} SepSeparatorFails(re: Regex, p: Regex, sep: Regex, skip: bool, limit: Option<nat>, src: Src, off0: nat, off: nat, cnt: nat, total: Span)
    requires p < re && sep < re && off0 <= off <= src.Len() && total.beg == off0 && total.End <= off
    requires !(limit.Some? && cnt >= limit.value)
    requires Match(p, src, off).Done? && Match(p, src, off).res.Ok?
    requires Match(sep, src, Match(p, src, off).off).Done? && Match(sep, src, Match(p, src, off).off).res.Err?
    ensures SepLoop(re, p, sep, skip, limit, src, off0, off, cnt, total) ==
      if skip then Stopped(cnt + 1, Match(sep, src, Match(p, src, off).off).off, AddAssign(total, Match(p, src, off).res.value))
      else Stopped(cnt, off, total)
  {
  }

  /** One round of `SepLoop` whose item and separator both match. */
  lemma {:induction false} SepSeparatorMatches(re: Regex, p: Regex, sep: Regex, skip: bool, limit: Option<nat>, src: Src, off0: nat, off: nat, cnt: nat, total: Span)
    requires p < re && sep < re && off0 <= off <= src.Len() && total.beg == off0 && total.End <= off
    requires !(limit.Some? && cnt >= limit.value)
    requires Match(p, src, off).Done? && Match(p, src, off).res.Ok?
    requires Match(sep, src, Match(p, src, off).off).Done? && Match(sep, src, Match(p, src, off).off).res.Ok?
    requires !(Match(sep, src, Match(p, src, off).off).off == off && limit.None?)
    ensures SepLoop(re, p, sep, skip, limit, src, off0, off, cnt, total) ==
      SepLoop(re, p, sep, skip, limit, src, off0, Match(sep, src, Match(p, src, off).off).off, cnt + 1,
        AddAssign(AddAssign(total, Match(p, src, off).res.value), Match(sep, src, Match(p, src, off).off).res.value))
  {
  }

  /** The count each repetition accepts in the end. */
  predicate Accepts(re: Regex, cnt: nat)
  {
    match re
    case Repeat(_, rg) => Contains(rg, cnt)
    case Repeat2(_, m, n) => m <= cnt <= n
    case Collect(_, min) => cnt >= min
    case Separate(_, _, _, min, _) => cnt >= min
    case Separate2(_, _, _, m, _) => cnt >= m
    case _ => false
  }

  /** The error each repetition reports when its count is refused. */
  function RepError(re: Regex): Error
  {
    match re
    case Repeat2(_, _, _) => Error.Repeat2
    case Collect(_, _) => Error.Collect
    case Separate(_, _, _, _, collect) => if collect then Error.SepCollect else Error.Separate
    case Separate2(_, _, _, _, _) => Error.Separate2
    case _ => Error.Repeat
  }

  /** The end of a repetition: success when the count is accepted, otherwise rewind to the entry offset. */
  function RepFinish(re: Regex, lo: LoopOut, off0: nat): Outcome
  {
    match lo
    case Spin => Diverge
    case Stopped(cnt, cur, total) => if Accepts(re, cnt) then Done(Ok(total), cur) else Done(Err(RepError(re)), off0)
  }

  /**
   * Ordered choice (`Array`, `Slice`, `Vector` and their `Pair` forms): the alternatives in
   * order, each from the entry offset; the first success is the result; when all fail the
   * cursor is back at the entry offset.
   */
  function ChoiceLoop(re: Regex, alts: seq<Regex>, err: Error, src: Src, off: nat, i: nat): (o: Outcome)
    requires i <= |alts| && off <= src.Len()
    requires forall k :: 0 <= k < |alts| ==> alts[k] < re
    ensures Sound(src, off, o)
    decreases re, 0, |alts| - i, 0
  {
    if i == |alts| then Done(Err(err), off)
    else match Match(alts[i], src, off)
      case Diverge => Diverge
      case Done(Ok(s), o) => Done(Ok(s), o)
      case Done(Err(_), _) => ChoiceLoop(re, alts, err, src, off, i + 1)
  }

  /** `ChoiceLoop` with no alternative left. */
  lemma {:induction false} ChoiceLoopEnd(re: Regex, alts: seq<Regex>, err: Error, src: Src, off: nat)
    requires off <= src.Len() && forall k :: 0 <= k < |alts| ==> alts[k] < re
    ensures ChoiceLoop(re, alts, err, src, off, |alts|) == Done(Err(err), off)
  {
  }

  /** `ChoiceLoop` past an alternative that fails. */
  lemma {:induction false} ChoiceLoopSkip(re: Regex, alts: seq<Regex>, err: Error, src: Src, off: nat, i: nat)
    requires i < |alts| && off <= src.Len() && forall k :: 0 <= k < |alts| ==> alts[k] < re
    requires Match(alts[i], src, off).Done? && Match(alts[i], src, off).res.Err?
    ensures ChoiceLoop(re, alts, err, src, off, i) == ChoiceLoop(re, alts, err, src, off, i + 1)
  {
  }

  /** `ChoiceLoop` at an alternative that does not fail. */
  lemma {:induction false} ChoiceLoopTake(re: Regex, alts: seq<Regex>, err: Error, src: Src, off: nat, i: nat)
    requires i < |alts| && off <= src.Len() && forall k :: 0 <= k < |alts| ==> alts[k] < re
    requires !(Match(alts[i], src, off).Done? && Match(alts[i], src, off).res.Err?)
    ensures ChoiceLoop(re, alts, err, src, off, i) == Match(alts[i], src, off)
  {
  }

  /** `Regex::parse`: whether `try_parse` succeeds. */
  function Parse(re: Regex, src: Src, off: nat): (b: bool)
    requires off <= src.Len()
    ensures b <==> Match(re, src, off).Done? && Match(re, src, off).res.Ok?
  {
    match Match(re, src, off)
    case Done(Ok(_), _) => true
    case _ => false
  }

  /**
   * `try_mat_policy`: `before`, then the pattern, then `after`, each from where the last
   * stopped; the first failure is returned, and the result is the pattern's span.
   */
  function PolicyMatch(pat: Regex, before: Regex, after: Regex, src: Src, off: nat): (o: Outcome)
    requires off <= src.Len()
    ensures o.Done? ==> off <= o.off <= src.Len()
  {
    var m1 := Match(before, src, off);
    if m1.Diverge? || m1.res.Err? then m1
    else PolicyTail(pat, after, src, m1.off)
  }

  /** The part of `try_mat_policy` after `before` has matched: the pattern, then `after`. */
  function PolicyTail(pat: Regex, after: Regex, src: Src, off: nat): (o: Outcome)
    requires off <= src.Len()
    ensures o.Done? ==> off <= o.off <= src.Len()
    ensures o.Done? && o.res.Ok? ==> Match(pat, src, off).Done? && o.res == Match(pat, src, off).res
  {
    var m2 := Match(pat, src, off);
    if m2.Diverge? || m2.res.Err? then m2
    else
      var m3 := Match(after, src, m2.off);
      if m3.Diverge? || m3.res.Err? then m3
      else Done(m2.res, m3.off)
  }
}
