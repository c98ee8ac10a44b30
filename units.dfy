/**
 * Unit quantifiers: `Once`, `Many1`, `Opt`, `Many0`, `Between` and `Times`. Each walks the
 * units after the cursor greedily, in one pass: a unit is taken when the predicate accepts
 * it and then the caller's condition accepts it, and the first refusal ends the walk.
 */
module Units {
  import opened Errors
  import opened Spans
  import opened Text
  import opened Cursor
  import opened Guard
  import opened Ranges
  import opened Neus

  /**
   * `NeuCond::check(ctx, &(offset, item))`: sees the data, the cursor offset at entry and
   * the unit with its relative byte offset. An error aborts the quantifier.
   */
  type Cond = (Src, nat, (nat, int)) -> Result<bool>

  /** The condition that accepts everything. */
  function NullCond(): Cond
  {
    (s: Src, o: nat, p: (nat, int)) => Ok(true)
  }

  datatype Quantifier =
    | Once | Many1 | Opt | Many0
    | Between(m: nat, n: nat)
    | Times(range: CRange)

  /** Where the walk stopped: the condition's error if any, the count taken, the predicate state. */
  datatype RunOut = RunOut(err: Option<Error>, cnt: nat, unit: Neu)

  /**
   * The greedy walk from unit `i` on, taking at most `limit` units in total. The units taken
   * are always a prefix of `ps`, so the count is also the index where the walk stopped.
   */
  function Run(u: Neu, c: Cond, src: Src, off: nat, ps: seq<(nat, int)>, i: nat, limit: Option<nat>): (r: RunOut)
    requires i <= |ps|
    ensures i <= r.cnt <= |ps|
    ensures limit.Some? && i <= limit.value ==> r.cnt <= limit.value
    decreases |ps| - i
  {
    if (limit.Some? && i >= limit.value) || i == |ps| then RunOut(None, i, u)
    else
      var (b, u') := Step(u, ps[i].1);
      if !b then RunOut(None, i, u')
      else
        match c(src, off, ps[i])
        case Err(e) => RunOut(Some(e), i, u')
        case Ok(ok) =>
          if !ok then RunOut(None, i, u')
          else Run(u', c, src, off, ps, i + 1, limit)
  }

  /** The unit is taken: the predicate and then the condition accept it. */
  predicate Taken(u: Neu, c: Cond, src: Src, off: nat, p: (nat, int))
  {
    Matches(u, p.1) && c(src, off, p) == Ok(true)
  }

  /**
   * For a stateless predicate the walk takes exactly the longest accepted prefix: every
   * unit before the stop is taken, and without an error the walk stops at the limit, at
   * the end, or at a refused unit.
   */
  lemma {:induction false} RunMaximal(u: Neu, c: Cond, src: Src, off: nat, ps: seq<(nat, int)>, i: nat, limit: Option<nat>)
    requires Stateless(u) && i <= |ps|
    ensures var r := Run(u, c, src, off, ps, i, limit);
      (forall j :: i <= j < r.cnt ==> Taken(u, c, src, off, ps[j])) &&
      (r.err.None? ==> r.cnt == |ps| || (limit.Some? && r.cnt >= limit.value) || !Taken(u, c, src, off, ps[r.cnt])) &&
      (r.err.Some? ==> (r.cnt < |ps| && (limit.None? || r.cnt < limit.value) &&
        Matches(u, ps[r.cnt].1) && c(src, off, ps[r.cnt]) == Err(r.err.value)))
    decreases |ps| - i
  {
    if !((limit.Some? && i >= limit.value) || i == |ps|) {
      StatelessStep(u, ps[i].1);
      if Taken(u, c, src, off, ps[i]) {
        RunMaximal(u, c, src, off, ps, i + 1, limit);
      }
    }
  }

  /** `length_of`: from `start` to the next unit's offset, or to the end when there is none. */
  function LengthOf(start: nat, remaining: nat, next: Option<nat>): int
  {
    (if next.Some? then next.value else remaining) - start
  }

  /** The span length after taking `cnt` units, computed the engine's way (`calc_length`). */
  function CalcLength(ps: seq<(nat, int)>, cnt: nat, remaining: nat): int
    requires cnt <= |ps|
  {
    if cnt == 0 then 0
    else LengthOf(ps[0].0, remaining, if cnt < |ps| then Some(ps[cnt].0) else None)
  }

  /** That arithmetic is the byte length of the units taken. */
  lemma {:induction false} CalcLengthIsByteLen(m: Mode, suf: seq<int>, cnt: nat)
    requires cnt <= |suf|
    ensures CalcLength(Indices(m, suf), cnt, ByteLen(m, suf)) == ByteLen(m, suf[..cnt])
    ensures ByteLen(m, suf[..cnt]) <= ByteLen(m, suf)
  {
    ByteLenPrefixAtMost(m, suf, cnt);
    if cnt > 0 {
      assert suf[..0] == [];
      assert cnt == |suf| ==> suf[..cnt] == suf;
    }
  }

  /** The result of a quantifier: outcome, cursor offset afterwards, predicate state afterwards. */
  datatype UnitOut = UnitOut(res: Result<Span>, off: nat, unit: Neu)

  /**
   * The most units a `Times` range lets the loop take (`bound_checker`): no limit for an
   * open end, and otherwise the largest count the end bound admits, or 0 when it admits none.
   */
  function TimesLimit(r: CRange): (o: Option<nat>)
    ensures o.None? <==> r.end.Unbounded?
    ensures o.Some? ==> !Contains(CRange(Unbounded, r.end), o.value + 1)
    ensures o.Some? && o.value > 0 ==> Contains(CRange(Unbounded, r.end), o.value)
  {
    match r.end
    case Included(max) => Some(max)
    case Excluded(max) => Some(if max == 0 then 0 else max - 1)
    case Unbounded => None
  }

  /**
   * The byte length `Times` demands up front: no more than the least count the range
   * admits, and nothing for a predicate whose minimal length is 0, so never more than the
   * units of an admitted count take at least.
   */
  function TimesMinLength(r: CRange, u: Neu): (n: nat)
    ensures n <= Lowest(r.start)
    ensures MinLength(u) == 0 ==> n == 0
  {
    match r.start
    case Included(m) => m * MinLength(u)
    case Excluded(m) => (if m == 0 then 0 else m - 1) * MinLength(u)
    case Unbounded => 0
  }

  /** The walk's limit for each quantifier. */
  function Limit(q: Quantifier): Option<nat>
  {
    match q
    case Once => Some(1)
    case Opt => Some(1)
    case Many1 => None
    case Many0 => None
    case Between(_, n) => Some(n)
    case Times(r) => TimesLimit(r)
  }

  /** The count a successful walk must reach. */
  predicate Enough(q: Quantifier, cnt: nat)
  {
    match q
    case Once => cnt == 1
    case Many1 => cnt >= 1
    case Opt => true
    case Many0 => true
    case Between(m, _) => cnt >= m
    case Times(r) => Contains(r, cnt)
  }

  /** The error each quantifier reports when the walk falls short. */
  function ShortError(q: Quantifier): Error
  {
    match q
    case Once => Error.Once
    case Many1 => Error.Many1
    case Opt => Error.Once
    case Many0 => Error.Many1
    case Between(_, _) => Error.Between
    case Times(_) => Error.Times
  }

  /** `Between` and `Times` refuse up front when fewer bytes remain than the minimum count needs. */
  predicate TooShort(q: Quantifier, u: Neu, remaining: nat)
  {
    match q
    case Between(m, _) => remaining < m * MinLength(u)
    case Times(r) => remaining < TimesMinLength(r, u)
    case _ => false
  }

  /**
   * `try_parse` of a quantifier over predicate `u` and condition `c` at offset `off`.
   * `Opt` and `Many0` treat unreadable data as an empty match; the others fail with it.
   */
  function UnitMatch(q: Quantifier, u: Neu, c: Cond, src: Src, off: nat): (r: UnitOut)
    requires off <= src.Len()
    ensures off <= r.off <= src.Len()
    ensures r.res.Ok? ==> r.res.value.beg == off && r.res.value.End == r.off
    ensures r.res.Err? ==> r.off == off
  {
    match Peek(src, off)
    case Err(e) =>
      if q.Opt? || q.Many0? then UnitOut(Ok(Span(off, 0)), off, u) else UnitOut(Err(e), off, u)
    case Ok(ps) =>
      if TooShort(q, u, src.Len() - off) then UnitOut(Err(ShortError(q)), off, u)
      else Finish(q, src, off, ps, Run(u, c, src, off, ps, 0, Limit(q)))
  }

  /** The outcome once the walk is over: an error, too few units, or the span over the units taken. */
  function Finish(q: Quantifier, src: Src, off: nat, ps: seq<(nat, int)>, run: RunOut): (r: UnitOut)
    requires off <= src.Len() && Peek(src, off) == Ok(ps) && run.cnt <= |ps|
    ensures off <= r.off <= src.Len()
    ensures r.res.Ok? ==> r.res.value.beg == off && r.res.value.End == r.off
    ensures r.res.Err? ==> r.off == off
  {
    if run.err.Some? then UnitOut(Err(run.err.value), off, run.unit)
    else if !Enough(q, run.cnt) then UnitOut(Err(ShortError(q)), off, run.unit)
    else
      CalcLengthIsByteLen(src.mode, Orig(src, off).value, run.cnt);
      var len := CalcLength(ps, run.cnt, src.Len() - off);
      UnitOut(Ok(Span(off, len)), off + len, run.unit)
  }

  /** The walk limited to one unit looks at the first unit only. */
  lemma {:induction false} RunFirst(u: Neu, c: Cond, src: Src, off: nat, ps: seq<(nat, int)>)
    requires |ps| > 0
    ensures var (b, u1) := Step(u, ps[0].1);
      Run(u, c, src, off, ps, 0, Some(1)) ==
        if !b then RunOut(None, 0, u1)
        else match c(src, off, ps[0])
          case Err(e) => RunOut(Some(e), 0, u1)
          case Ok(ok) => RunOut(None, if ok then 1 else 0, u1)
  {
    var (b, u1) := Step(u, ps[0].1);
    if b && c(src, off, ps[0]) == Ok(true) {
      assert Run(u1, c, src, off, ps, 1, Some(1)) == RunOut(None, 1, u1);
    }
  }

  /** On success the span covers exactly the units taken. */
  lemma {:induction false} UnitMatchCovers(q: Quantifier, u: Neu, c: Cond, src: Src, off: nat)
    requires off <= src.Len()
    requires UnitMatch(q, u, c, src, off).res.Ok?
    requires Peek(src, off).Ok?
    ensures var suf := Orig(src, off).value;
      var run := Run(u, c, src, off, Peek(src, off).value, 0, Limit(q));
      UnitMatch(q, u, c, src, off).res.value.len == ByteLen(src.mode, suf[..run.cnt])
  {
    var suf := Orig(src, off).value;
    var run := Run(u, c, src, off, Peek(src, off).value, 0, Limit(q));
    CalcLengthIsByteLen(src.mode, suf, run.cnt);
  }

  /** `Opt` and `Many0` fail only when the condition raises an error. */
  lemma {:induction false} OptionalNeverFail(q: Quantifier, u: Neu, c: Cond, src: Src, off: nat)
    requires q.Opt? || q.Many0?
    requires off <= src.Len()
    requires forall s, o, p :: c(s, o, p).Ok?
    ensures UnitMatch(q, u, c, src, off).res.Ok?
  {
    if Peek(src, off).Ok? {
      RunNoError(u, c, src, off, Peek(src, off).value, 0, Limit(q));
    }
  }

  lemma {:induction false} RunNoError(u: Neu, c: Cond, src: Src, off: nat, ps: seq<(nat, int)>, i: nat, limit: Option<nat>)
    requires i <= |ps|
    requires forall s, o, p :: c(s, o, p).Ok?
    ensures Run(u, c, src, off, ps, i, limit).err.None?
    decreases |ps| - i
  {
    if !((limit.Some? && i >= limit.value) || i == |ps|) {
      var (b, u') := Step(u, ps[i].1);
      if b && c(src, off, ps[i]).value {
        RunNoError(u', c, src, off, ps, i + 1, limit);
      }
    }
  }

  /**
   * `Once` (and `Opt`) takes exactly the first unit when the predicate and then the
   * condition accept it; the span is that unit's width.
   */
  lemma {:induction false} OnceFirstUnit(q: Quantifier, u: Neu, c: Cond, src: Src, off: nat)
    requires q.Once? || q.Opt?
    requires off <= src.Len() && Peek(src, off).Ok?
    ensures var ps := Peek(src, off).value; var r := UnitMatch(q, u, c, src, off);
      (r.res.Ok? && r.off > off) <==> (|ps| > 0 && Matches(u, ps[0].1) && c(src, off, ps[0]) == Ok(true))
    ensures var ps := Peek(src, off).value; var r := UnitMatch(q, u, c, src, off);
      r.res.Ok? && r.off > off ==> r.res.value.len == Width(src.mode, ps[0].1)
  {
    var ps := Peek(src, off).value;
    var suf := Orig(src, off).value;
    var run := Run(u, c, src, off, ps, 0, Some(1));
    assert Limit(q) == Some(1);
    if |ps| > 0 {
      RunFirst(u, c, src, off, ps);
    }
    if run.cnt == 1 {
      CalcLengthIsByteLen(src.mode, suf, 1);
      ByteLenStep(src.mode, suf, 0);
      assert suf[..0] == [];
    }
  }

  /**
   * The length pre-check of `Between` and `Times` never refuses an input the walk would
   * accept: whenever it fires, the walk could not have reached the required count.
   */
  lemma {:induction false} PrecheckSound(q: Quantifier, u: Neu, c: Cond, src: Src, off: nat)
    requires q.Between? || q.Times?
    requires off <= src.Len() && Peek(src, off).Ok?
    requires TooShort(q, u, src.Len() - off)
    ensures !Enough(q, Run(u, c, src, off, Peek(src, off).value, 0, Limit(q)).cnt)
  {
    var ps := Peek(src, off).value;
    var suf := Orig(src, off).value;
    var cnt := Run(u, c, src, off, ps, 0, Limit(q)).cnt;
    var remaining := src.Len() - off;
    ByteLenBounds(src.mode, suf);
    assert cnt <= remaining;
    var ml := MinLength(u);
    match q
    case Between(m, _) =>
      if ml != 0 { assert m * ml == m; }
    case Times(r) =>
      match r.start
      case Included(m) =>
        if ml != 0 { assert m * ml == m; }
      case Excluded(m) =>
        var k := if m == 0 then 0 else m - 1;
        if ml != 0 { assert k * ml == k; }
      case Unbounded =>
  }

  /**
   * The walk as the quantifiers run it: take units while the limit allows, stop at the
   * first unit the predicate or the condition refuses, and remember the unit after the
   * last one taken (`end`), which fixes the span length.
   */
  method Walk(u: Neu, c: Cond, src: Src, off: nat, ps: seq<(nat, int)>, limit: Option<nat>)
    returns (err: Option<Error>, cnt: nat, u': Neu, end: Option<(nat, int)>)
    ensures Run(u, c, src, off, ps, 0, limit) == RunOut(err, cnt, u')
    ensures end == (if cnt < |ps| then Some(ps[cnt]) else None)
  {
    cnt, u', end, err := 0, u, None, None;
    while limit.None? || cnt < limit.value
      invariant cnt <= |ps|
      invariant Run(u', c, src, off, ps, cnt, limit) == Run(u, c, src, off, ps, 0, limit)
      invariant end.None?
      decreases |ps| - cnt
    {
      if cnt == |ps| {
        break;
      }
      var pair := ps[cnt];
      var (b, u1) := Step(u', pair.1);
      u' := u1;
      if b {
        var chk := c(src, off, pair);
        if chk.Err? {
          err := Some(chk.error);
          end := Some(pair);
          return;
        }
        if chk.value {
          cnt := cnt + 1;
          continue;
        }
      }
      end := Some(pair);
      break;
    }
    if end.None? && cnt < |ps| {
      end := Some(ps[cnt]);
    }
  }

  /** The span length the quantifiers compute once the walk is over. */
  method SpanLength(src: Src, off: nat, ps: seq<(nat, int)>, cnt: nat, end: Option<(nat, int)>) returns (len: nat)
    requires off <= src.Len() && Peek(src, off) == Ok(ps) && cnt <= |ps|
    requires end == (if cnt < |ps| then Some(ps[cnt]) else None)
    ensures len == CalcLength(ps, cnt, src.Len() - off)
    ensures off + len <= src.Len()
  {
    CalcLengthIsByteLen(src.mode, Orig(src, off).value, cnt);
    if cnt == 0 {
      len := 0;
    } else {
      var l := LengthOf(ps[0].0, src.Len() - off, if end.Some? then Some(end.value.0) else None);
      len := l;
    }
  }

  /**
   * The value side of `Once::try_parse` and `Opt::try_parse`: at most one unit is
   * looked at, and unreadable data is an error for `Once` and an empty match for `Opt`.
   */
  method MatchFirst(q: Quantifier, u: Neu, c: Cond, src: Src, off: nat) returns (out: UnitOut)
    requires q.Once? || q.Opt?
    requires off <= src.Len()
    ensures out == UnitMatch(q, u, c, src, off)
  {
    var peek := Peek(src, off);
    if peek.Err? {
      out := if q.Opt? then UnitOut(Ok(Span(off, 0)), off, u) else UnitOut(Err(peek.error), off, u);
      return;
    }
    var ps := peek.value;
    ghost var run := Run(u, c, src, off, ps, 0, Some(1));
    assert UnitMatch(q, u, c, src, off) == Finish(q, src, off, ps, run);
    out := if q.Opt? then UnitOut(Ok(Span(off, 0)), off, u) else UnitOut(Err(Error.Once), off, u);
    if |ps| > 0 {
      RunFirst(u, c, src, off, ps);
      var (b, u1) := Step(u, ps[0].1);
      out := out.(unit := u1);
      if b {
        var chk := c(src, off, ps[0]);
        if chk.Err? {
          out := UnitOut(Err(chk.error), off, u1);
        } else if chk.value {
          var len := SpanLength(src, off, ps, 1, if |ps| > 1 then Some(ps[1]) else None);
          out := UnitOut(Ok(Span(off, len)), off + len, u1);
        }
      }
    }
  }

  /**
   * The value side of `Many0::try_parse` (`zero`) and `Many1::try_parse`: the unbounded
   * walk, then the span over everything taken.
   */
  method MatchMany(zero: bool, u: Neu, c: Cond, src: Src, off: nat) returns (out: UnitOut)
    requires off <= src.Len()
    ensures out == UnitMatch(if zero then Quantifier.Many0 else Quantifier.Many1, u, c, src, off)
  {
    ghost var q := if zero then Quantifier.Many0 else Quantifier.Many1;
    var peek := Peek(src, off);
    if peek.Err? {
      out := if zero then UnitOut(Ok(Span(off, 0)), off, u) else UnitOut(Err(peek.error), off, u);
      return;
    }
    var ps := peek.value;
    var err, cnt, u1, end := Walk(u, c, src, off, ps, None);
    assert UnitMatch(q, u, c, src, off) == Finish(q, src, off, ps, RunOut(err, cnt, u1));
    if err.Some? {
      out := UnitOut(Err(err.value), off, u1);
    } else if cnt > 0 {
      var len := SpanLength(src, off, ps, cnt, end);
      out := UnitOut(Ok(Span(off, len)), off + len, u1);
    } else {
      out := if zero then UnitOut(Ok(Span(off, 0)), off, u1) else UnitOut(Err(Error.Many1), off, u1);
    }
  }

  /**
   * The value side of `Between::try_parse` and `Times::try_parse`: the length pre-check,
   * the walk bounded by the upper limit, then the lower limit.
   */
  method MatchCounted(q: Quantifier, u: Neu, c: Cond, src: Src, off: nat) returns (out: UnitOut)
    requires q.Between? || q.Times?
    requires off <= src.Len()
    ensures out == UnitMatch(q, u, c, src, off)
  {
    var peek := Peek(src, off);
    if peek.Err? {
      out := UnitOut(Err(peek.error), off, u);
      return;
    }
    var ps := peek.value;
    if TooShort(q, u, src.Len() - off) {
      out := UnitOut(Err(ShortError(q)), off, u);
      return;
    }
    out := CountedWalk(q, u, c, src, off, ps);
  }

  /** The bounded walk of `Between` and `Times`, then the check of the lower limit. */
  method CountedWalk(q: Quantifier, u: Neu, c: Cond, src: Src, off: nat, ps: seq<(nat, int)>) returns (out: UnitOut)
    requires off <= src.Len() && Peek(src, off) == Ok(ps)
    ensures out == Finish(q, src, off, ps, Run(u, c, src, off, ps, 0, Limit(q)))
  {
    var err, cnt, u1, end := Walk(u, c, src, off, ps, Limit(q));
    if err.Some? {
      out := UnitOut(Err(err.value), off, u1);
    } else if Enough(q, cnt) {
      var len := SpanLength(src, off, ps, cnt, end);
      out := UnitOut(Ok(Span(off, len)), off + len, u1);
    } else {
      out := UnitOut(Err(ShortError(q)), off, u1);
    }
  }

  /**
   * The cursor side of a guarded quantifier: on success the guard advances the cursor over
   * the span; on failure the guard is marked and its drop puts the cursor back.
   */
  method Guarded(out: UnitOut, ctx: RegexCtx) returns (r: Result<Span>)
    requires ctx.Valid() && out.off <= ctx.Len()
    requires out.res.Ok? ==> out.res.value.beg == ctx.offset && out.res.value.End == out.off
    requires out.res.Err? ==> out.off == ctx.offset
    modifies ctx
    ensures ctx.Valid() && ctx.dat == old(ctx.dat)
    ensures r == out.res && ctx.offset == out.off
  {
    var g := new CtxGuard(ctx);
    var ret := out.res;
    if ret.Ok? {
      var s := g.Inc(ret.value.len);
      ret := Ok(s);
    }
    r := g.ProcessRet(ret);
    g.Drop();
  }

  /** `Once::try_parse`. */
  method ParseOnce(u: Neu, c: Cond, ctx: RegexCtx) returns (r: Result<Span>, u': Neu)
    requires ctx.Valid()
    modifies ctx
    ensures ctx.Valid() && ctx.dat == old(ctx.dat)
    ensures UnitMatch(Quantifier.Once, u, c, old(ctx.Source()), old(ctx.offset)) == UnitOut(r, ctx.offset, u')
  {
    var out := MatchFirst(Quantifier.Once, u, c, ctx.Source(), ctx.offset);
    r := Guarded(out, ctx);
    u' := out.unit;
  }

  /** `Opt::try_parse`. */
  method ParseOpt(u: Neu, c: Cond, ctx: RegexCtx) returns (r: Result<Span>, u': Neu)
    requires ctx.Valid()
    modifies ctx
    ensures ctx.Valid() && ctx.dat == old(ctx.dat)
    ensures UnitMatch(Quantifier.Opt, u, c, old(ctx.Source()), old(ctx.offset)) == UnitOut(r, ctx.offset, u')
  {
    var out := MatchFirst(Quantifier.Opt, u, c, ctx.Source(), ctx.offset);
    r := Guarded(out, ctx);
    u' := out.unit;
  }

  /** `Many0::try_parse` when `zero` holds, `Many1::try_parse` otherwise. */
  method ParseMany(zero: bool, u: Neu, c: Cond, ctx: RegexCtx) returns (r: Result<Span>, u': Neu)
    requires ctx.Valid()
    modifies ctx
    ensures ctx.Valid() && ctx.dat == old(ctx.dat)
    ensures UnitMatch(if zero then Quantifier.Many0 else Quantifier.Many1, u, c, old(ctx.Source()), old(ctx.offset)) == UnitOut(r, ctx.offset, u')
  {
    var out := MatchMany(zero, u, c, ctx.Source(), ctx.offset);
    r := Guarded(out, ctx);
    u' := out.unit;
  }

  /** `Between::try_parse` (`q` is Between) and `Times::try_parse` (`q` is Times): no guard, the cursor only moves on success. */
  method ParseCounted(q: Quantifier, u: Neu, c: Cond, ctx: RegexCtx) returns (r: Result<Span>, u': Neu)
    requires q.Between? || q.Times?
    requires ctx.Valid()
    modifies ctx
    ensures ctx.Valid() && ctx.dat == old(ctx.dat)
    ensures UnitMatch(q, u, c, old(ctx.Source()), old(ctx.offset)) == UnitOut(r, ctx.offset, u')
  {
    var out := MatchCounted(q, u, c, ctx.Source(), ctx.offset);
    r := out.res;
    u' := out.unit;
    if r.Ok? {
      ctx.Inc(r.value.len);
    }
  }

  /** Runs quantifier `q`. */
  method ParseUnit(q: Quantifier, u: Neu, c: Cond, ctx: RegexCtx) returns (r: Result<Span>, u': Neu)
    requires ctx.Valid()
    modifies ctx
    ensures ctx.Valid() && ctx.dat == old(ctx.dat)
    ensures UnitMatch(q, u, c, old(ctx.Source()), old(ctx.offset)) == UnitOut(r, ctx.offset, u')
  {
    match q
    case Once => r, u' := ParseOnce(u, c, ctx);
    case Opt => r, u' := ParseOpt(u, c, ctx);
    case Many1 => r, u' := ParseMany(false, u, c, ctx);
    case Many0 => r, u' := ParseMany(true, u, c, ctx);
    case Between(_, _) => r, u' := ParseCounted(q, u, c, ctx);
    case Times(_) => r, u' := ParseCounted(q, u, c, ctx);
  }
}
