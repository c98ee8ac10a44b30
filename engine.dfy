/**
 * The matchers run on a cursor: one method per combinator, each proved to return what the
 * specification in `Regexes` says and to leave the cursor where it says. A matcher whose
 * specification diverges is not run (the source loops for ever there).
 */
module Engine {
  import opened Errors
  import opened Spans
  import opened Text
  import opened Cursor
  import opened Guard
  import opened Ranges
  import opened Units
  import opened Regexes

  /** `RegexCtx::try_mat`: runs `re` at the cursor. */
  method TryMat(re: Regex, ctx: RegexCtx) returns (r: Result<Span>)
    requires ctx.Valid() && Match(re, ctx.Source(), ctx.offset).Done?
    modifies ctx
    ensures ctx.Valid() && ctx.dat == old(ctx.dat)
    ensures Match(re, old(ctx.Source()), old(ctx.offset)) == Done(r, ctx.offset)
    decreases re, 2, 0, 0
  {
    match re
    case Unit(_, _, _) =>
      r := TryLeaf(re, ctx);
    case Lit(_, _) =>
      r := TryLeaf(re, ctx);
    case Consume(_) =>
      r := TryLeaf(re, ctx);
    case ConsumeAll =>
      r := TryLeaf(re, ctx);
    case AnchorStart =>
      r := TryLeaf(re, ctx);
    case AnchorEnd =>
      r := TryLeaf(re, ctx);
    case Empty =>
      r := TryLeaf(re, ctx);
    case Fail =>
      r := TryLeaf(re, ctx);
    case Assert(pat, value) =>
      r := TryAssert(re, pat, value, ctx);
    case Then(left, right) =>
      r := TryThen(re, left, right, ctx);
    case IfThen(left, test, right) =>
      r := TryIfThen(re, left, test, right, ctx);
    case Or(left, right) =>
      r := TryOr(re, left, right, ctx);
    case Longest(left, right) =>
      r := TryLongest(re, left, right, ctx);
    case Suffix(pat, suffix) =>
      r := TryThen(re, pat, suffix, ctx);
    case Prefix(prefix, pat) =>
      r := TryThen(re, prefix, pat, ctx);
    case Enclose(open, pat, close) =>
      r := TryThen3(re, open, pat, close, ctx);
    case OptionPat(pat) =>
      r := TryOption(re, pat, ctx);
    case Branch(test, pat, other) =>
      r := TryBranch(re, test, pat, other, ctx);
    case Repeat(_, _) =>
      r := TryRepeat(re, ctx);
    case Repeat2(_, _, _) =>
      r := TryRepeat2(re, ctx);
    case Collect(_, _) =>
      r := TryCollect(re, ctx);
    case SepOnce(left, sep, right) =>
      r := TryThen3(re, left, sep, right, ctx);
    case Separate(_, _, _, _, _) =>
      r := TrySeparate(re, ctx);
    case Separate2(_, _, _, _, _) =>
      r := TrySeparate2(re, ctx);
    case Choice(kind, alts) =>
      if kind.SliceChoice? {
        r := TrySlice(re, alts, Error.Slice, ctx);
      } else {
        r := TryChoice(re, alts, ChoiceError(kind), ctx);
      }
    case PairSlice(alts) =>
      r := TrySlice(re, alts, Error.PairSlice, ctx);
  }

  /** `try_mat` on a matcher that runs no other matcher. */
  method TryLeaf(re: Regex, ctx: RegexCtx) returns (r: Result<Span>)
    requires re.Unit? || re.Lit? || re.Consume? || re.ConsumeAll? || re.AnchorStart? || re.AnchorEnd? || re.Empty? || re.Fail?
    requires ctx.Valid()
    modifies ctx
    ensures ctx.Valid() && ctx.dat == old(ctx.dat)
    ensures Match(re, old(ctx.Source()), old(ctx.offset)) == Done(r, ctx.offset)
  {
    match re
    case Unit(q, u, c) =>
      var u';
      r, u' := ParseUnit(q, u, c, ctx);
    case Lit(val, str) =>
      r := TryLit(val, str, ctx);
    case Consume(n) =>
      r := TryConsume(n, ctx);
    case ConsumeAll =>
      r := TryConsumeAll(ctx);
    case AnchorStart =>
      r := TryAnchorStart(ctx);
    case AnchorEnd =>
      r := TryAnchorEnd(ctx);
    case Empty =>
      r := Ok(Span(ctx.offset, 0));
    case Fail =>
      r := Err(Error.Fail);
  }

  /** `LitSlice::try_parse` and `LitString::try_parse`. */
  method TryLit(val: seq<int>, str: bool, ctx: RegexCtx) returns (r: Result<Span>)
    requires ctx.Valid()
    modifies ctx
    ensures ctx.Valid() && ctx.dat == old(ctx.dat)
    ensures LitMatch(val, str, old(ctx.Source()), old(ctx.offset)) == Done(r, ctx.offset)
  {
    ghost var src := ctx.Source();
    ghost var off := ctx.offset;
    var g := new CtxGuard(ctx);
    var len := ByteLen(ctx.mode, val);
    r := Err(if str then Error.LitString else Error.LitSlice);
    if g.RemainingLen() >= len {
      var orig := ctx.OrigAt(ctx.offset);
      assert orig == Orig(src, off);
      if orig.Err? {
        r := Err(orig.error);
        g.Drop();
        return;
      }
      if StartsWith(orig.value, val) {
        assert LitMatch(val, str, src, off) == Done(Ok(Span(off, len)), off + len);
        var s := g.Inc(len);
        r := Ok(s);
      }
    }
    g.Drop();
  }

  /** `Consume::try_parse`: exactly `n` bytes when that many remain. */
  method TryConsume(n: nat, ctx: RegexCtx) returns (r: Result<Span>)
    requires ctx.Valid()
    modifies ctx
    ensures ctx.Valid() && ctx.dat == old(ctx.dat)
    ensures r.Ok? <==> old(ctx.Len()) - old(ctx.offset) >= n
    ensures r.Ok? ==> r.value == Span(old(ctx.offset), n) && ctx.offset == old(ctx.offset) + n
    ensures r.Err? ==> r.error == Error.Consume && ctx.offset == old(ctx.offset)
  {
    var g := new CtxGuard(ctx);
    if g.RemainingLen() >= n {
      var s := g.Inc(n);
      r := Ok(s);
    } else {
      r := Err(Error.Consume);
    }
    g.Drop();
  }

  /** `ConsumeAll::try_parse`: everything that remains. */
  method TryConsumeAll(ctx: RegexCtx) returns (r: Result<Span>)
    requires ctx.Valid()
    modifies ctx
    ensures ctx.Valid() && ctx.dat == old(ctx.dat)
    ensures r == Ok(Span(old(ctx.offset), ctx.Len() - old(ctx.offset))) && ctx.offset == ctx.Len()
  {
    var g := new CtxGuard(ctx);
    var len := ctx.Len() - g.Beg();
    var s := g.Inc(len);
    r := Ok(s);
    g.Drop();
  }

  /** `AnchorStart::try_parse`: a zero-width match exactly at offset 0. */
  method TryAnchorStart(ctx: RegexCtx) returns (r: Result<Span>)
    requires ctx.Valid()
    modifies ctx
    ensures ctx.Valid() && ctx.dat == old(ctx.dat) && ctx.offset == old(ctx.offset)
    ensures r == if old(ctx.offset) == 0 then Ok(Span(0, 0)) else Err(Error.AnchorStart)
  {
    var g := new CtxGuard(ctx);
    if g.Beg() == 0 {
      var s := g.Inc(0);
      r := Ok(s);
    } else {
      r := Err(Error.AnchorStart);
    }
    g.Drop();
  }

  /** `AnchorEnd::try_parse`: a zero-width match exactly at the end of the data. */
  method TryAnchorEnd(ctx: RegexCtx) returns (r: Result<Span>)
    requires ctx.Valid()
    modifies ctx
    ensures ctx.Valid() && ctx.dat == old(ctx.dat) && ctx.offset == old(ctx.offset)
    ensures r == if old(ctx.offset) == ctx.Len() then Ok(Span(ctx.Len(), 0)) else Err(Error.AnchorEnd)
  {
    var g := new CtxGuard(ctx);
    if g.Beg() == ctx.Len() {
      var s := g.Inc(0);
      r := Ok(s);
    } else {
      r := Err(Error.AnchorEnd);
    }
    g.Drop();
  }

  /** `Assert::try_parse`: the inner matcher decides, then the guard always rewinds. */
  method TryAssert(ghost re: Regex, pat: Regex, value: bool, ctx: RegexCtx) returns (r: Result<Span>)
    requires pat < re && ctx.Valid() && AssertMatch(re, pat, value, ctx.Source(), ctx.offset).Done?
    modifies ctx
    ensures ctx.Valid() && ctx.dat == old(ctx.dat)
    ensures AssertMatch(re, pat, value, old(ctx.Source()), old(ctx.offset)) == Done(r, ctx.offset)
    decreases re, 1, 0, 0
  {
    var g := new CtxGuard(ctx);
    var m := TryMat(pat, ctx);
    g.NoteMatch(m);
    if m.Ok? == value {
      r := Ok(Span(g.Beg(), 0));
    } else {
      r := Err(Error.Assert);
    }
    g.Reset();
    g.Drop();
  }

  /**
   * `Then::try_parse`, and `Suffix` and `Prefix`, which do the same in regex mode, with the
   * documented rewind: an error is marked through the guard's `process_ret`, as the
   * constructor mode does, so that dropping the guard restores the entry offset.
   */
  method TryThen(ghost re: Regex, left: Regex, right: Regex, ctx: RegexCtx) returns (r: Result<Span>)
    requires left < re && right < re
    requires ctx.Valid() && ThenMatch(re, left, right, ctx.Source(), ctx.offset).Done?
    modifies ctx
    ensures ctx.Valid() && ctx.dat == old(ctx.dat)
    ensures ThenMatch(re, left, right, old(ctx.Source()), old(ctx.offset)) == Done(r, ctx.offset)
    decreases re, 1, 0, 0
  {
    ghost var src, off := ctx.Source(), ctx.offset;
    var g := new CtxGuard(ctx);
    var r1 := TryMat(left, ctx);
    ThenLeftRan(re, left, right, src, off, r1, ctx.offset);
    g.NoteMatch(r1);
    if r1.Err? {
      r := g.ProcessRet(r1);
      g.Drop();
      return;
    }
    var r2 := TryMat(right, ctx);
    g.NoteMatch(r2);
    if r2.Err? {
      r := g.ProcessRet(r2);
      g.Drop();
      return;
    }
    r := Ok(AddAssign(r1.value, r2.value));
    g.Drop();
  }

  /**
   * A sequence once its left step has run: a failure is the outcome, back at the entry
   * offset, and a success leaves the outcome to the right step.
   */
  lemma {:induction false} ThenLeftRan(re: Regex, l: Regex, r: Regex, src: Src, off: nat, r1: Result<Span>, o1: nat)
    requires l < re && r < re && off <= src.Len()
    requires Match(l, src, off) == Done(r1, o1)
    ensures r1.Err? ==> ThenMatch(re, l, r, src, off) == Done(r1, off)
    ensures r1.Ok? ==> (o1 <= src.Len() && ThenMatch(re, l, r, src, off) ==
      (match Match(r, src, o1)
       case Diverge => Diverge
       case Done(Err(e), _) => Done(Err(e), off)
       case Done(Ok(s2), o2) => Done(Ok(AddAssign(r1.value, s2)), o2)))
  {
  }

  /**
   * `Enclose::try_parse` and `SepOnce::try_parse`: three matchers in a row under one guard,
   * an error marked through `process_ret` so that it rewinds.
   */
  method TryThen3(ghost re: Regex, a: Regex, b: Regex, c: Regex, ctx: RegexCtx) returns (r: Result<Span>)
    requires a < re && b < re && c < re
    requires ctx.Valid() && Then3Match(re, a, b, c, ctx.Source(), ctx.offset).Done?
    modifies ctx
    ensures ctx.Valid() && ctx.dat == old(ctx.dat)
    ensures Then3Match(re, a, b, c, old(ctx.Source()), old(ctx.offset)) == Done(r, ctx.offset)
    decreases re, 1, 0, 0
  {
    ghost var src, off := ctx.Source(), ctx.offset;
    var g := new CtxGuard(ctx);
    var r1 := TryMat(a, ctx);
    g.NoteMatch(r1);
    if r1.Err? {
      Then3FirstFails(re, a, b, c, src, off, r1.error, ctx.offset);
      r := g.ProcessRet(r1);
      g.Drop();
      return;
    }
    r := TryThen3Rest(re, a, b, c, r1.value, g, ctx);
  }

  /** The second and third steps of `TryThen3`, under the guard the first one ran under. */
  method TryThen3Rest(ghost re: Regex, a: Regex, b: Regex, c: Regex, s1: Span, g: CtxGuard, ctx: RegexCtx)
    returns (r: Result<Span>)
    requires a < re && b < re && c < re
    requires g.ctx == ctx && g.Valid()
    requires Match(a, ctx.Source(), g.offset) == Done(Ok(s1), ctx.offset)
    requires Then3Match(re, a, b, c, ctx.Source(), g.offset).Done?
    modifies ctx, g
    ensures ctx.Valid() && ctx.dat == old(ctx.dat)
    ensures Then3Match(re, a, b, c, old(ctx.Source()), g.offset) == Done(r, ctx.offset)
    decreases re, 0, 0, 0
  {
    ghost var src, off, o1 := ctx.Source(), g.offset, ctx.offset;
    var r2 := TryMat(b, ctx);
    ghost var o2 := ctx.offset;
    Then3SecondRan(re, a, b, c, src, off, s1, o1, r2, o2);
    g.NoteMatch(r2);
    if r2.Err? {
      r := g.ProcessRet(r2);
      g.Drop();
      return;
    }
    var r3 := TryMat(c, ctx);
    Then3ThirdRan(re, a, b, c, src, off, s1, o1, r2.value, o2, r3, ctx.offset);
    g.NoteMatch(r3);
    if r3.Err? {
      r := g.ProcessRet(r3);
      g.Drop();
      return;
    }
    r := Ok(AddAssign(AddAssign(s1, r2.value), r3.value));
    g.Drop();
  }

  /** Three steps in a row whose first fails end with its error, back at the entry offset. */
  lemma {:induction false} Then3FirstFails(re: Regex, a: Regex, b: Regex, c: Regex, src: Src, off: nat, e: Error, o1: nat)
    requires a < re && b < re && c < re && off <= src.Len()
    requires Match(a, src, off) == Done(Err(e), o1)
    ensures Then3Match(re, a, b, c, src, off) == Done(Err(e), off)
  {
  }

  /**
   * Three steps in a row once the first has succeeded and the second has run: a failure of
   * the second is the outcome, back at the entry offset, and a success leaves the outcome
   * to the third step.
   */
  lemma {:induction false} Then3SecondRan(re: Regex, a: Regex, b: Regex, c: Regex, src: Src, off: nat,
                                          s1: Span, o1: nat, r2: Result<Span>, o2: nat)
    requires a < re && b < re && c < re && off <= src.Len()
    requires Match(a, src, off) == Done(Ok(s1), o1) && Match(b, src, o1) == Done(r2, o2)
    ensures r2.Err? ==> Then3Match(re, a, b, c, src, off) == Done(r2, off)
    ensures r2.Ok? ==> (o2 <= src.Len() && Then3Match(re, a, b, c, src, off) ==
      (match Match(c, src, o2)
       case Diverge => Diverge
       case Done(Err(e), _) => Done(Err(e), off)
       case Done(Ok(s3), o3) => Done(Ok(AddAssign(AddAssign(s1, r2.value), s3)), o3)))
  {
  }

  /** Three steps in a row whose first two succeed end as the third ends, an error back at the entry offset. */
  lemma {:induction false} Then3ThirdRan(re: Regex, a: Regex, b: Regex, c: Regex, src: Src, off: nat,
                                         s1: Span, o1: nat, s2: Span, o2: nat, r3: Result<Span>, o3: nat)
    requires a < re && b < re && c < re && off <= src.Len()
    requires Match(a, src, off) == Done(Ok(s1), o1) && Match(b, src, o1) == Done(Ok(s2), o2)
    requires Match(c, src, o2) == Done(r3, o3)
    ensures r3.Err? ==> Then3Match(re, a, b, c, src, off) == Done(r3, off)
    ensures r3.Ok? ==> Then3Match(re, a, b, c, src, off) == Done(Ok(AddAssign(AddAssign(s1, s2), r3.value)), o3)
  {
  }

  /** `IfThen::try_parse`. */
  method TryIfThen(ghost re: Regex, left: Regex, test: Regex, right: Regex, ctx: RegexCtx) returns (r: Result<Span>)
    requires left < re && test < re && right < re
    requires ctx.Valid() && IfThenMatch(re, left, test, right, ctx.Source(), ctx.offset).Done?
    modifies ctx
    ensures ctx.Valid() && ctx.dat == old(ctx.dat)
    ensures IfThenMatch(re, left, test, right, old(ctx.Source()), old(ctx.offset)) == Done(r, ctx.offset)
    decreases re, 1, 0, 0
  {
    ghost var src, off := ctx.Source(), ctx.offset;
    var g := new CtxGuard(ctx);
    var r1 := TryMat(left, ctx);
    g.NoteMatch(r1);
    ghost var o1 := ctx.offset;
    if r1.Err? {
      r := r1;
      g.Drop();
      IfThenLeftFails(re, left, test, right, src, off, r1.error, o1);
      return;
    }
    r := TryIfThenRest(re, left, test, right, r1.value, g, ctx);
  }

  /** The test and the right matcher of `TryIfThen`, under the guard the left one ran under. */
  method TryIfThenRest(ghost re: Regex, left: Regex, test: Regex, right: Regex, s1: Span, g: CtxGuard, ctx: RegexCtx)
    returns (r: Result<Span>)
    requires left < re && test < re && right < re
    requires g.ctx == ctx && g.Valid()
    requires Match(left, ctx.Source(), g.offset) == Done(Ok(s1), ctx.offset) && !g.reset
    requires IfThenMatch(re, left, test, right, ctx.Source(), g.offset).Done?
    modifies ctx, g
    ensures ctx.Valid() && ctx.dat == old(ctx.dat)
    ensures IfThenMatch(re, left, test, right, old(ctx.Source()), g.offset) == Done(r, ctx.offset)
    decreases re, 0, 0, 0
  {
    ghost var src, off, o1 := ctx.Source(), g.offset, ctx.offset;
    var ret := s1;
    var rt := TryMat(test, ctx);
    g.NoteMatch(rt);
    ghost var o2 := ctx.offset;
    IfThenTested(re, left, test, right, src, off, s1, o1, rt, o2);
    if rt.Ok? {
      ret := AddAssign(ret, rt.value);
      var r3 := TryMat(right, ctx);
      IfThenRightRan(re, left, test, right, src, off, s1, o1, rt.value, o2, r3, ctx.offset);
      g.NoteMatch(r3);
      if r3.Err? {
        r := r3;
        g.Drop();
        return;
      }
      ret := AddAssign(ret, r3.value);
    }
    r := Ok(ret);
    g.Drop();
  }

  /** `IfThen` whose left matcher fails ends as the left matcher ended. */
  lemma {:induction false} IfThenLeftFails(re: Regex, l: Regex, t: Regex, r: Regex, src: Src, off: nat, e: Error, o1: nat)
    requires l < re && t < re && r < re && off <= src.Len()
    requires Match(l, src, off) == Done(Err(e), o1)
    ensures IfThenMatch(re, l, t, r, src, off) == Done(Err(e), o1)
  {
  }

  /**
   * `IfThen` whose left matcher succeeds, once the test has run: a failing test gives the
   * left span where the test stopped, and a passing one leaves the outcome to the right
   * matcher.
   */
  lemma {:induction false} IfThenTested(re: Regex, l: Regex, t: Regex, r: Regex, src: Src, off: nat,
                                        s1: Span, o1: nat, rt: Result<Span>, o2: nat)
    requires l < re && t < re && r < re && off <= src.Len()
    requires Match(l, src, off) == Done(Ok(s1), o1) && Match(t, src, o1) == Done(rt, o2)
    ensures rt.Err? ==> IfThenMatch(re, l, t, r, src, off) == Done(Ok(s1), o2)
    ensures rt.Ok? ==> (o2 <= src.Len() && IfThenMatch(re, l, t, r, src, off) ==
      (match Match(r, src, o2)
       case Diverge => Diverge
       case Done(Err(e), o3) => Done(Err(e), o3)
       case Done(Ok(s3), o3) => Done(Ok(AddAssign(AddAssign(s1, rt.value), s3)), o3)))
  {
  }

  /** `IfThen` whose left matcher and test succeed ends as its right matcher ends. */
  lemma {:induction false} IfThenRightRan(re: Regex, l: Regex, t: Regex, r: Regex, src: Src, off: nat,
                                          s1: Span, o1: nat, st: Span, o2: nat, r3: Result<Span>, o3: nat)
    requires l < re && t < re && r < re && off <= src.Len()
    requires Match(l, src, off) == Done(Ok(s1), o1) && Match(t, src, o1) == Done(Ok(st), o2)
    requires Match(r, src, o2) == Done(r3, o3)
    ensures r3.Err? ==> IfThenMatch(re, l, t, r, src, off) == Done(r3, o3)
    ensures r3.Ok? ==> IfThenMatch(re, l, t, r, src, off) == Done(Ok(AddAssign(AddAssign(s1, st), r3.value)), o3)
  {
  }

  /** `Or::try_parse`. */
  method TryOr(ghost re: Regex, left: Regex, right: Regex, ctx: RegexCtx) returns (r: Result<Span>)
    requires left < re && right < re
    requires ctx.Valid() && OrMatch(re, left, right, ctx.Source(), ctx.offset).Done?
    modifies ctx
    ensures ctx.Valid() && ctx.dat == old(ctx.dat)
    ensures OrMatch(re, left, right, old(ctx.Source()), old(ctx.offset)) == Done(r, ctx.offset)
    decreases re, 1, 0, 0
  {
    ghost var src := ctx.Source();
    var offset := ctx.offset;
    r := TryMat(left, ctx);
    OrLeftRan(re, left, right, src, offset, r, ctx.offset);
    if r.Err? {
      ctx.SetOffset(offset);
      r := TryMat(right, ctx);
      if r.Err? {
        ctx.SetOffset(offset);
      }
    }
  }

  /**
   * `Or` once its left alternative has run: a success is the outcome, and a failure leaves
   * it to the right alternative from the entry offset, back there if that one fails too.
   */
  lemma {:induction false} OrLeftRan(re: Regex, l: Regex, r: Regex, src: Src, off: nat, rl: Result<Span>, ol: nat)
    requires l < re && r < re && off <= src.Len()
    requires Match(l, src, off) == Done(rl, ol)
    ensures rl.Ok? ==> OrMatch(re, l, r, src, off) == Done(rl, ol)
    ensures rl.Err? ==> (OrMatch(re, l, r, src, off) ==
      (match Match(r, src, off)
       case Diverge => Diverge
       case Done(Ok(s), o2) => Done(Ok(s), o2)
       case Done(Err(e), _) => Done(Err(e), off)))
  {
  }

  /** `LongestTokenMatch::try_parse`, with the corrected choice. */
  method TryLongest(ghost re: Regex, left: Regex, right: Regex, ctx: RegexCtx) returns (r: Result<Span>)
    requires left < re && right < re
    requires ctx.Valid() && LongestMatch(re, left, right, ctx.Source(), ctx.offset).Done?
    modifies ctx
    ensures ctx.Valid() && ctx.dat == old(ctx.dat)
    ensures LongestMatch(re, left, right, old(ctx.Source()), old(ctx.offset)) == Done(r, ctx.offset)
    decreases re, 1, 0, 0
  {
    ghost var src, off := ctx.Source(), ctx.offset;
    var g := new CtxGuard(ctx);
    var rl := TryMat(left, ctx);
    g.NoteMatch(rl);
    var offsetL := g.End();
    LongestLeftRan(re, left, right, src, off, rl, offsetL);
    g.Reset();
    var rr := TryMat(right, ctx);
    g.NoteMatch(rr);
    var offsetR := g.End();
    LongestBothRan(re, left, right, src, off, rl, offsetL, rr, offsetR);
    var offset, ret;
    if PreferLeft(rl.Ok?, offsetL, rr.Ok?, offsetR) {
      offset, ret := offsetL, rl;
    } else {
      offset, ret := offsetR, rr;
    }
    ctx.SetOffset(offset);
    r := g.ProcessRet(ret);
    g.Drop();
  }

  /** A longest match whose left alternative has returned leaves the outcome to the right one. */
  lemma {:induction false} LongestLeftRan(re: Regex, l: Regex, r: Regex, src: Src, off: nat, rl: Result<Span>, ol: nat)
    requires l < re && r < re && off <= src.Len()
    requires Match(l, src, off) == Done(rl, ol)
    ensures LongestMatch(re, l, r, src, off).Done? ==> Match(r, src, off).Done?
  {
  }

  /** A longest match whose alternatives have both returned settles on the preferred one. */
  lemma {:induction false} LongestBothRan(re: Regex, l: Regex, r: Regex, src: Src, off: nat,
                                          rl: Result<Span>, ol: nat, rr: Result<Span>, or: nat)
    requires l < re && r < re && off <= src.Len()
    requires Match(l, src, off) == Done(rl, ol) && Match(r, src, off) == Done(rr, or)
    ensures LongestMatch(re, l, r, src, off) ==
      if PreferLeft(rl.Ok?, ol, rr.Ok?, or) then Settle(rl, ol, off) else Settle(rr, or, off)
  {
  }

  /** `OptionPat::try_parse`. */
  method TryOption(ghost re: Regex, pat: Regex, ctx: RegexCtx) returns (r: Result<Span>)
    requires pat < re
    requires ctx.Valid() && OptionMatch(re, pat, ctx.Source(), ctx.offset).Done?
    modifies ctx
    ensures ctx.Valid() && ctx.dat == old(ctx.dat)
    ensures OptionMatch(re, pat, old(ctx.Source()), old(ctx.offset)) == Done(r, ctx.offset)
    decreases re, 1, 0, 0
  {
    var offset := ctx.offset;
    r := TryMat(pat, ctx);
    if r.Err? {
      ctx.SetOffset(offset);
      r := Ok(Span(offset, 0));
    }
  }

  /** `Branch::try_parse`. */
  method TryBranch(ghost re: Regex, test: BranchTest, pat: Regex, other: Regex, ctx: RegexCtx) returns (r: Result<Span>)
    requires pat < re && other < re
    requires ctx.Valid() && BranchMatch(re, test, pat, other, ctx.Source(), ctx.offset).Done?
    modifies ctx
    ensures ctx.Valid() && ctx.dat == old(ctx.dat)
    ensures BranchMatch(re, test, pat, other, old(ctx.Source()), old(ctx.offset)) == Done(r, ctx.offset)
    decreases re, 1, 0, 0
  {
    var offset := ctx.offset;
    var t := test(ctx.Source(), offset);
    if t.Err? {
      r := Err(t.error);
      return;
    }
    if t.value {
      r := TryMat(pat, ctx);
    } else {
      r := TryMat(other, ctx);
    }
    if r.Err? {
      ctx.SetOffset(offset);
    }
  }

  /**
   * The loop of `Repeat`, `Repeat2` and `Collect`: while the limit allows, run the inner
   * matcher; count and merge each success, and stop at the first failure, leaving the
   * cursor where that failure left it.
   */
  method Repetition(ghost re: Regex, pat: Regex, limit: Option<nat>, ctx: RegexCtx) returns (cnt: nat, total: Span)
    requires pat < re && ctx.Valid()
    requires RepLoop(re, pat, limit, ctx.Source(), ctx.offset, ctx.offset, 0, Span(ctx.offset, 0)).Stopped?
    modifies ctx
    ensures ctx.Valid() && ctx.dat == old(ctx.dat)
    ensures RepLoop(re, pat, limit, old(ctx.Source()), old(ctx.offset), old(ctx.offset), 0, Span(old(ctx.offset), 0))
      == Stopped(cnt, ctx.offset, total)
    decreases re, 0, 0, 0
  {
    ghost var src := ctx.Source();
    var offset := ctx.offset;
    ghost var want := RepLoop(re, pat, limit, src, offset, offset, 0, Span(offset, 0));
    cnt, total := 0, Span(offset, 0);
    while limit.None? || cnt < limit.value
      invariant ctx.Valid() && ctx.Source() == src
      invariant offset <= ctx.offset <= src.Len() && total.beg == offset && total.End <= ctx.offset
      invariant RepLoop(re, pat, limit, src, offset, ctx.offset, cnt, total) == want
      decreases src.Len() - ctx.offset, Room(limit, cnt)
    {
      var m := TryMat(pat, ctx);
      if m.Err? {
        return;
      }
      total := AddAssign(total, m.value);
      cnt := cnt + 1;
    }
  }

  /** `Repeat::try_parse`: the loop runs while `is_contain`, and the range must contain the count. */
  method TryRepeat(re: Regex, ctx: RegexCtx) returns (r: Result<Span>)
    requires re.Repeat? && ctx.Valid() && Match(re, ctx.Source(), ctx.offset).Done?
    modifies ctx
    ensures ctx.Valid() && ctx.dat == old(ctx.dat)
    ensures Match(re, old(ctx.Source()), old(ctx.offset)) == Done(r, ctx.offset)
    decreases re, 1, 0, 0
  {
    var offset := ctx.offset;
    var cnt, total := Repetition(re, re.pat, RepeatLimit(re.range), ctx);
    if Contains(re.range, cnt) {
      r := Ok(total);
    } else {
      r := Err(Error.Repeat);
      ctx.SetOffset(offset);
    }
  }

  /** `Repeat2::try_parse`, corrected: at most N rounds, and M <= count <= N. */
  method TryRepeat2(re: Regex, ctx: RegexCtx) returns (r: Result<Span>)
    requires re.Repeat2? && ctx.Valid() && Match(re, ctx.Source(), ctx.offset).Done?
    modifies ctx
    ensures ctx.Valid() && ctx.dat == old(ctx.dat)
    ensures Match(re, old(ctx.Source()), old(ctx.offset)) == Done(r, ctx.offset)
    decreases re, 1, 0, 0
  {
    var offset := ctx.offset;
    var cnt, total := Repetition(re, re.pat, Some(re.n), ctx);
    if re.m <= cnt <= re.n {
      r := Ok(total);
    } else {
      r := Err(Error.Repeat2);
      ctx.SetOffset(offset);
    }
  }

  /** `Collect::try_parse`: repeat until the inner matcher fails; at least `min` rounds. */
  method TryCollect(re: Regex, ctx: RegexCtx) returns (r: Result<Span>)
    requires re.Collect? && ctx.Valid() && Match(re, ctx.Source(), ctx.offset).Done?
    modifies ctx
    ensures ctx.Valid() && ctx.dat == old(ctx.dat)
    ensures Match(re, old(ctx.Source()), old(ctx.offset)) == Done(r, ctx.offset)
    decreases re, 1, 0, 0
  {
    var offset := ctx.offset;
    var cnt, total := Repetition(re, re.pat, None, ctx);
    if cnt >= re.min {
      r := Ok(total);
    } else {
      r := Err(Error.Collect);
      ctx.SetOffset(offset);
    }
  }

  /**
   * The loop of `Separate`, `SepCollect` and `Separate2`: an item, then a separator. The item
   * counts when the separator matched or `skip` is set; the first separator failure ends the
   * loop, giving an uncounted item back (corrected).
   */
  method Separation(ghost re: Regex, pat: Regex, sep: Regex, skip: bool, limit: Option<nat>, ctx: RegexCtx)
    returns (cnt: nat, total: Span)
    requires pat < re && sep < re && ctx.Valid()
    requires SepLoop(re, pat, sep, skip, limit, ctx.Source(), ctx.offset, ctx.offset, 0, Span(ctx.offset, 0)).Stopped?
    modifies ctx
    ensures ctx.Valid() && ctx.dat == old(ctx.dat)
    ensures SepLoop(re, pat, sep, skip, limit, old(ctx.Source()), old(ctx.offset), old(ctx.offset), 0, Span(old(ctx.offset), 0))
      == Stopped(cnt, ctx.offset, total)
    decreases re, 0, 1, 0
  {
    ghost var src := ctx.Source();
    var offset := ctx.offset;
    ghost var want := SepLoop(re, pat, sep, skip, limit, src, offset, offset, 0, Span(offset, 0));
    cnt, total := 0, Span(offset, 0);
    while limit.None? || cnt < limit.value
      invariant ctx.Valid() && ctx.Source() == src
      invariant offset <= ctx.offset <= src.Len() && total.beg == offset && total.End <= ctx.offset
      invariant SepLoop(re, pat, sep, skip, limit, src, offset, ctx.offset, cnt, total) == want
      decreases src.Len() - ctx.offset, Room(limit, cnt)
    {
      var stop;
      stop, cnt, total := SepRound(re, pat, sep, skip, limit, src, offset, ctx, cnt, total);
      if stop {
        return;
      }
    }
  }

  /**
   * One round of `Separation`: an item, then a separator. Either the loop stops here, or
   * it goes on from the new cursor with one more item counted.
   */
  method SepRound(ghost re: Regex, pat: Regex, sep: Regex, skip: bool, ghost limit: Option<nat>, ghost src: Src, ghost off0: nat,
                  ctx: RegexCtx, cnt: nat, total: Span) returns (stop: bool, cnt': nat, total': Span)
    requires pat < re && sep < re && ctx.Valid() && ctx.Source() == src
    requires off0 <= ctx.offset && total.beg == off0 && total.End <= ctx.offset
    requires !(limit.Some? && cnt >= limit.value)
    requires SepLoop(re, pat, sep, skip, limit, src, off0, ctx.offset, cnt, total).Stopped?
    modifies ctx
    ensures ctx.Valid() && ctx.Source() == src
    ensures off0 <= ctx.offset && total'.beg == off0 && total'.End <= ctx.offset
    ensures !stop ==> cnt' == cnt + 1 && old(ctx.offset) <= ctx.offset && (old(ctx.offset) < ctx.offset || limit.Some?)
    ensures SepLoop(re, pat, sep, skip, limit, src, off0, old(ctx.offset), cnt, total) ==
      if stop then Stopped(cnt', ctx.offset, total') else SepLoop(re, pat, sep, skip, limit, src, off0, ctx.offset, cnt', total')
    decreases re, 0, 0, 1
  {
    var before := ctx.offset;
    var p := TryMat(pat, ctx);
    if p.Err? {
      SepItemFails(re, pat, sep, skip, limit, src, off0, before, cnt, total);
      return true, cnt, total;
    }
    stop, cnt', total' := SepAfterItem(re, pat, sep, skip, limit, src, off0, before, ctx, cnt, total, p.value);
  }

  /** The rest of a round of `SepRound` once the item has matched with span `item`: the separator. */
  method SepAfterItem(ghost re: Regex, pat: Regex, sep: Regex, skip: bool, ghost limit: Option<nat>, ghost src: Src, ghost off0: nat,
                      before: nat, ctx: RegexCtx, cnt: nat, total: Span, item: Span) returns (stop: bool, cnt': nat, total': Span)
    requires pat < re && sep < re && ctx.Valid() && ctx.Source() == src
    requires off0 <= before <= src.Len() && total.beg == off0 && total.End <= before
    requires !(limit.Some? && cnt >= limit.value)
    requires Match(pat, src, before) == Done(Ok(item), ctx.offset)
    requires SepLoop(re, pat, sep, skip, limit, src, off0, before, cnt, total).Stopped?
    modifies ctx
    ensures ctx.Valid() && ctx.Source() == src
    ensures off0 <= ctx.offset && total'.beg == off0 && total'.End <= ctx.offset
    ensures !stop ==> cnt' == cnt + 1 && before <= ctx.offset && (before < ctx.offset || limit.Some?)
    ensures SepLoop(re, pat, sep, skip, limit, src, off0, before, cnt, total) ==
      if stop then Stopped(cnt', ctx.offset, total') else SepLoop(re, pat, sep, skip, limit, src, off0, ctx.offset, cnt', total')
    decreases re, 0, 0, 0
  {
    var s := TryMat(sep, ctx);
    if s.Err? {
      SepSeparatorFails(re, pat, sep, skip, limit, src, off0, before, cnt, total);
      if skip {
        return true, cnt + 1, AddAssign(total, item);
      }
      ctx.SetOffset(before);
      return true, cnt, total;
    }
    SepSeparatorMatches(re, pat, sep, skip, limit, src, off0, before, cnt, total);
    return false, cnt + 1, AddAssign(AddAssign(total, item), s.value);
  }

  /** `Separate::try_parse` and `SepCollect::try_parse`: at least `min` items. */
  method TrySeparate(re: Regex, ctx: RegexCtx) returns (r: Result<Span>)
    requires re.Separate? && ctx.Valid() && Match(re, ctx.Source(), ctx.offset).Done?
    modifies ctx
    ensures ctx.Valid() && ctx.dat == old(ctx.dat)
    ensures Match(re, old(ctx.Source()), old(ctx.offset)) == Done(r, ctx.offset)
    decreases re, 1, 0, 0
  {
    var offset := ctx.offset;
    var cnt, total := Separation(re, re.pat, re.sep, re.skip, None, ctx);
    if cnt >= re.min {
      r := Ok(total);
    } else {
      r := Err(if re.collect then Error.SepCollect else Error.Separate);
      ctx.SetOffset(offset);
    }
  }

  /** `Separate2::try_parse`, corrected: at most N items, at least M. */
  method TrySeparate2(re: Regex, ctx: RegexCtx) returns (r: Result<Span>)
    requires re.Separate2? && ctx.Valid() && Match(re, ctx.Source(), ctx.offset).Done?
    modifies ctx
    ensures ctx.Valid() && ctx.dat == old(ctx.dat)
    ensures Match(re, old(ctx.Source()), old(ctx.offset)) == Done(r, ctx.offset)
    decreases re, 1, 0, 0
  {
    var offset := ctx.offset;
    var cnt, total := Separation(re, re.pat, re.sep, re.skip, Some(re.n), ctx);
    if cnt >= re.m {
      r := Ok(total);
    } else {
      r := Err(Error.Separate2);
      ctx.SetOffset(offset);
    }
  }

  /**
   * `Array::try_parse` and `Vector::try_parse` (and their `Pair` forms): the alternatives in
   * order, the cursor set back after each failure, the first success returned.
   */
  method TryChoice(ghost re: Regex, alts: seq<Regex>, err: Error, ctx: RegexCtx) returns (r: Result<Span>)
    requires forall k :: 0 <= k < |alts| ==> alts[k] < re
    requires ctx.Valid() && ChoiceLoop(re, alts, err, ctx.Source(), ctx.offset, 0).Done?
    modifies ctx
    ensures ctx.Valid() && ctx.dat == old(ctx.dat)
    ensures ChoiceLoop(re, alts, err, old(ctx.Source()), old(ctx.offset), 0) == Done(r, ctx.offset)
    decreases re, 1, 0, 0
  {
    ghost var src := ctx.Source();
    var offset := ctx.offset;
    ghost var want := ChoiceLoop(re, alts, err, src, offset, 0);
    r := Err(err);
    for i := 0 to |alts|
      invariant ctx.Valid() && ctx.Source() == src && ctx.offset == offset
      invariant ChoiceLoop(re, alts, err, src, offset, i) == want
    {
      var m := TryMat(alts[i], ctx);
      if m.Ok? {
        r := m;
        return;
      }
      ctx.SetOffset(offset);
    }
  }

  /** `Slice::try_parse` (and `PairSlice`, corrected): as `TryChoice`, rewinding through a guard. */
  method TrySlice(ghost re: Regex, alts: seq<Regex>, err: Error, ctx: RegexCtx) returns (r: Result<Span>)
    requires forall k :: 0 <= k < |alts| ==> alts[k] < re
    requires ctx.Valid() && ChoiceLoop(re, alts, err, ctx.Source(), ctx.offset, 0).Done?
    modifies ctx
    ensures ctx.Valid() && ctx.dat == old(ctx.dat)
    ensures ChoiceLoop(re, alts, err, old(ctx.Source()), old(ctx.offset), 0) == Done(r, ctx.offset)
    decreases re, 1, 0, 0
  {
    ghost var src := ctx.Source();
    ghost var want := ChoiceLoop(re, alts, err, src, ctx.offset, 0);
    var g := new CtxGuard(ctx);
    r := Err(err);
    for i := 0 to |alts|
      invariant g.Valid() && g.ctx == ctx && !g.reset
      invariant ctx.Source() == src && ctx.offset == g.offset
      invariant ChoiceLoop(re, alts, err, src, g.offset, i) == want
    {
      var m := TryMat(alts[i], ctx);
      g.NoteMatch(m);
      if m.Ok? {
        r := m;
        g.Drop();
        return;
      }
      g.Reset();
    }
    g.Drop();
  }

  /** `Regex::parse`: whether the matcher succeeds. */
  method IsMatch(re: Regex, ctx: RegexCtx) returns (b: bool)
    requires ctx.Valid() && Match(re, ctx.Source(), ctx.offset).Done?
    modifies ctx
    ensures ctx.Valid() && ctx.dat == old(ctx.dat)
    ensures b == Parse(re, old(ctx.Source()), old(ctx.offset))
  {
    var r := TryMat(re, ctx);
    b := r.Ok?;
  }

  /** `try_mat_policy`: `before`, the pattern, `after`; the first error aborts. */
  method TryMatPolicy(pat: Regex, before: Regex, after: Regex, ctx: RegexCtx) returns (r: Result<Span>)
    requires ctx.Valid() && PolicyMatch(pat, before, after, ctx.Source(), ctx.offset).Done?
    modifies ctx
    ensures ctx.Valid() && ctx.dat == old(ctx.dat)
    ensures PolicyMatch(pat, before, after, old(ctx.Source()), old(ctx.offset)) == Done(r, ctx.offset)
  {
    var b := TryMat(before, ctx);
    if b.Err? {
      r := b;
      return;
    }
    r := TryPolicyTail(pat, after, ctx);
  }

  /** The pattern, then `after`, as `try_mat_policy` runs them once `before` has matched. */
  method TryPolicyTail(pat: Regex, after: Regex, ctx: RegexCtx) returns (r: Result<Span>)
    requires ctx.Valid() && PolicyTail(pat, after, ctx.Source(), ctx.offset).Done?
    modifies ctx
    ensures ctx.Valid() && ctx.dat == old(ctx.dat)
    ensures PolicyTail(pat, after, old(ctx.Source()), old(ctx.offset)) == Done(r, ctx.offset)
  {
    r := TryMat(pat, ctx);
    if r.Err? {
      return;
    }
    var a := TryMat(after, ctx);
    if a.Err? {
      r := a;
    }
  }
}
