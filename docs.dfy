/**
 * The documented examples of the unit quantifiers and leaf matchers, on byte input.
 * Every example input is ASCII, where each character is one unit of width 1 in either
 * mode, so the byte view gives the same spans as the text view the examples use.
 */
module DocExamples {
  import opened Errors
  import opened Spans
  import opened Text
  import opened Cursor
  import opened Ranges
  import opened Neus
  import opened Units
  import opened Regexes
  import opened Laws

  /** ASCII text as byte units. */
  function AsciiBytes(s: string): (r: seq<int>)
    ensures |r| == |s|
    ensures forall i :: 0 <= i < |s| ==> r[i] == s[i] as int
  {
    seq(|s|, i requires 0 <= i < |s| => s[i] as int)
  }

  /** `orig_at` on byte input is the plain suffix. */
  lemma OrigBytes(s: seq<int>, off: nat)
    requires off <= |s|
    ensures Orig(Src(Bytes, s), off) == Ok(s[off..])
  {
    IndexAtBytes(s, off);
    ByteLenBytes(s);
    var v := Orig(Src(Bytes, s), off).value;
    ByteLenBytes(v);
  }

  /** On byte input the unit at index `j` of the suffix from `off` sits at relative offset `j`. */
  lemma PeekBytes(s: seq<int>, off: nat)
    requires off <= |s|
    ensures Peek(Src(Bytes, s), off) == Ok(Indices(Bytes, s[off..]))
    ensures forall j :: 0 <= j < |s| - off ==> Indices(Bytes, s[off..])[j] == (j, s[off + j])
  {
    OrigBytes(s, off);
    var suf := s[off..];
    forall j | 0 <= j < |suf|
      ensures Indices(Bytes, suf)[j] == (j, s[off + j])
    {
      ByteLenBytes(suf[..j]);
    }
  }

  /**
   * A walk over stateless units stops exactly at `k` without error when the first `k`
   * units are taken and the walk cannot go past the k-th: the units end, the limit is
   * reached, the predicate refuses it, or the condition answers false for it.
   */
  lemma RunStopsAt(u: Neu, c: Cond, src: Src, off: nat, ps: seq<(nat, int)>, limit: Option<nat>, k: nat)
    requires Stateless(u) && k <= |ps|
    requires forall j :: 0 <= j < k ==> Taken(u, c, src, off, ps[j])
    requires k == |ps| || (limit.Some? && k == limit.value) || !Matches(u, ps[k].1) || c(src, off, ps[k]) == Ok(false)
    requires limit.None? || k <= limit.value
    ensures Run(u, c, src, off, ps, 0, limit).cnt == k
    ensures Run(u, c, src, off, ps, 0, limit).err.None?
  {
    RunMaximal(u, c, src, off, ps, 0, limit);
  }

  /** The walk of a quantifier on byte input, stated on the data rather than on the peeked units. */
  lemma GreedyRun(u: Neu, c: Cond, s: seq<int>, off: nat, limit: Option<nat>, k: nat)
    requires Stateless(u) && off + k <= |s|
    requires forall j :: off <= j < off + k ==> Matches(u, s[j]) && c(Src(Bytes, s), off, (j - off, s[j])) == Ok(true)
    requires off + k == |s| || (limit.Some? && k == limit.value) || !Matches(u, s[off + k]) ||
      c(Src(Bytes, s), off, (k, s[off + k])) == Ok(false)
    requires limit.None? || k <= limit.value
    ensures Peek(Src(Bytes, s), off) == Ok(Indices(Bytes, s[off..]))
    ensures var run := Run(u, c, Src(Bytes, s), off, Indices(Bytes, s[off..]), 0, limit);
      run.cnt == k && run.err.None?
  {
    PeekBytes(s, off);
    var ps := Indices(Bytes, s[off..]);
    forall j | 0 <= j < k
      ensures Taken(u, c, Src(Bytes, s), off, ps[j])
    {
      assert ps[j] == (j, s[off + j]);
      assert off <= off + j < off + k;
    }
    RunStopsAt(u, c, Src(Bytes, s), off, ps, limit, k);
  }

  /**
   * The greedy walk on byte input: when the predicate and the condition accept the `k`
   * units after `off` and the walk cannot take the next one (the input ends, the limit is
   * reached, the predicate refuses it or the condition answers false), the quantifier's
   * span covers exactly those `k` units if `k` is an acceptable count, and fails in place
   * otherwise.
   */
  lemma Greedy(q: Quantifier, u: Neu, c: Cond, s: seq<int>, off: nat, k: nat)
    requires Stateless(u) && off + k <= |s|
    requires WalkTakes(u, c, s, off, k) && WalkStops(q, u, c, s, off, k)
    requires Limit(q).None? || k <= Limit(q).value
    requires !TooShort(q, u, |s| - off)
    ensures Src(Bytes, s).Len() == |s|
    ensures var r := UnitMatch(q, u, c, Src(Bytes, s), off);
      r.res == (if Enough(q, k) then Ok(Span(off, k)) else Err(ShortError(q))) &&
      r.off == if Enough(q, k) then off + k else off
  {
    var src, suf := Src(Bytes, s), s[off..];
    ByteLenBytes(s);
    GreedyRun(u, c, s, off, Limit(q), k);
    var run := Run(u, c, src, off, Indices(Bytes, suf), 0, Limit(q));
    FinishBytes(q, s, off, run);
    assert UnitMatch(q, u, c, src, off) == Finish(q, src, off, Indices(Bytes, suf), run);
  }

  /**
   * The end of a walk on byte input that stopped without an error: the span covers the
   * units taken when their count is acceptable, and the quantifier fails in place otherwise.
   */
  lemma FinishBytes(q: Quantifier, s: seq<int>, off: nat, run: RunOut)
    requires off + run.cnt <= |s| && run.err.None?
    requires Peek(Src(Bytes, s), off) == Ok(Indices(Bytes, s[off..]))
    ensures Src(Bytes, s).Len() == |s|
    ensures var r := Finish(q, Src(Bytes, s), off, Indices(Bytes, s[off..]), run);
      r.res == (if Enough(q, run.cnt) then Ok(Span(off, run.cnt)) else Err(ShortError(q))) &&
      r.off == if Enough(q, run.cnt) then off + run.cnt else off
  {
    var suf := s[off..];
    ByteLenBytes(s);
    if Enough(q, run.cnt) {
      CalcLengthIsByteLen(Bytes, suf, run.cnt);
      ByteLenBytes(suf[..run.cnt]);
    }
  }

  /** The predicate and the condition accept each of the `k` units after `off`. */
  predicate WalkTakes(u: Neu, c: Cond, s: seq<int>, off: nat, k: nat)
    requires off + k <= |s|
  {
    forall j :: off <= j < off + k ==> Matches(u, s[j]) && c(Src(Bytes, s), off, (j - off, s[j])) == Ok(true)
  }

  /**
   * The walk cannot take the unit after those `k`: the input ends, the limit is reached,
   * the predicate refuses it or the condition answers false.
   */
  predicate WalkStops(q: Quantifier, u: Neu, c: Cond, s: seq<int>, off: nat, k: nat)
    requires off + k <= |s|
  {
    off + k == |s| || (Limit(q).Some? && k == Limit(q).value) || !Matches(u, s[off + k]) ||
      c(Src(Bytes, s), off, (k, s[off + k])) == Ok(false)
  }

  /** `Greedy` for a quantifier without a condition: the predicate alone decides the walk. */
  lemma GreedyNull(q: Quantifier, u: Neu, s: seq<int>, off: nat, k: nat)
    requires Stateless(u) && off + k <= |s|
    requires forall j :: off <= j < off + k ==> Matches(u, s[j])
    requires off + k == |s| || (Limit(q).Some? && k == Limit(q).value) || !Matches(u, s[off + k])
    requires Limit(q).None? || k <= Limit(q).value
    requires !TooShort(q, u, |s| - off)
    ensures Src(Bytes, s).Len() == |s|
    ensures var r := UnitMatch(q, u, NullCond(), Src(Bytes, s), off);
      r.res == (if Enough(q, k) then Ok(Span(off, k)) else Err(ShortError(q))) &&
      r.off == if Enough(q, k) then off + k else off
  {
    assert WalkTakes(u, NullCond(), s, off, k) && WalkStops(q, u, NullCond(), s, off, k);
    Greedy(q, u, NullCond(), s, off, k);
  }

  /** `'a'..'g'`: the letters a to f. */
  const AtoF: Neu := InRange(FromRange('a' as nat, 'g' as nat))

  /** `'0'..='9'`. */
  const Digits: Neu := InRange(FromRangeInclusive('0' as nat, '9' as nat))

  /** `('a'..'g').once()` on "aabbccgg" takes the first letter. */
  lemma OnceOnLetters()
    ensures UnitMatch(Quantifier.Once, AtoF, NullCond(), Src(Bytes, AsciiBytes("aabbccgg")), 0).res == Ok(Span(0, 1))
  {
    var s := AsciiBytes("aabbccgg");
    assert Matches(AtoF, s[0]);
    ByteLenBytes(s);
    GreedyNull(Quantifier.Once, AtoF, s, 0, 1);
  }

  /** `range('a'..='f').count::<3>()` on "adfwgh" takes the first three letters. */
  lemma CountThreeOnAdfwgh()
    ensures UnitMatch(Quantifier.Between(3, 3), InRange(FromRangeInclusive('a' as nat, 'f' as nat)), NullCond(),
      Src(Bytes, AsciiBytes("adfwgh")), 0).res == Ok(Span(0, 3))
  {
    var s := AsciiBytes("adfwgh");
    assert s[3] == 'w' as int;
    assert Matches(InRange(FromRangeInclusive('a' as nat, 'f' as nat)), s[0]);
    assert Matches(InRange(FromRangeInclusive('a' as nat, 'f' as nat)), s[1]);
    assert Matches(InRange(FromRangeInclusive('a' as nat, 'f' as nat)), s[2]);
    ByteLenBytes(s);
    GreedyNull(Quantifier.Between(3, 3), InRange(FromRangeInclusive('a' as nat, 'f' as nat)), s, 0, 3);
  }

  /** ... and, run again from offset 3, it fails at the 'w'. */
  lemma CountThreeOnWgh()
    ensures UnitMatch(Quantifier.Between(3, 3), InRange(FromRangeInclusive('a' as nat, 'f' as nat)), NullCond(),
      Src(Bytes, AsciiBytes("adfwgh")), 3).res == Err(Error.Between)
  {
    var s := AsciiBytes("adfwgh");
    assert s[3] == 'w' as int;
    ByteLenBytes(s);
    GreedyNull(Quantifier.Between(3, 3), InRange(FromRangeInclusive('a' as nat, 'f' as nat)), s, 3, 0);
  }

  /** `digit(10).and(|c| c > '7')`. */
  const BigDigit: Neu := And(Radix(10), Func(x => x > '7' as int))

  /** `and(|a| a > b'a' - 1, |a| a < b'z' + 1)`. */
  const Lower: Neu := And(Func(x => x > 'a' as int - 1), Func(x => x < 'z' as int + 1))

  /** "    w\u{A0}abcd" in UTF-8: four spaces, 'w', the two bytes of U+00A0, then "abcd". */
  const SpacesThenW: seq<int> := AsciiBytes("    w") + [0xC2, 0xA0] + AsciiBytes("abcd")

  /** `('a'..'g').opt()` on "aabbccgg" takes the first letter. */
  lemma OptOnLetters()
    ensures UnitMatch(Quantifier.Opt, AtoF, NullCond(), Src(Bytes, AsciiBytes("aabbccgg")), 0).res == Ok(Span(0, 1))
  {
    var s := AsciiBytes("aabbccgg");
    assert Matches(AtoF, s[0]);
    ByteLenBytes(s);
    GreedyNull(Quantifier.Opt, AtoF, s, 0, 1);
  }

  /** `('a'..'g').many1()` on "aabbccgg" takes the six letters before the first 'g'. */
  lemma Many1OnLetters()
    ensures UnitMatch(Quantifier.Many1, AtoF, NullCond(), Src(Bytes, AsciiBytes("aabbccgg")), 0).res == Ok(Span(0, 6))
  {
    var s := AsciiBytes("aabbccgg");
    assert s[6] == 'g' as int;
    assert Matches(AtoF, s[0]);
    assert Matches(AtoF, s[1]);
    assert Matches(AtoF, s[2]);
    assert Matches(AtoF, s[3]);
    assert Matches(AtoF, s[4]);
    assert Matches(AtoF, s[5]);
    ByteLenBytes(s);
    GreedyNull(Quantifier.Many1, AtoF, s, 0, 6);
  }

  /** `('a'..'g').many0()` on "aabbccgg" takes the six letters before the first 'g'. */
  lemma Many0OnLetters()
    ensures UnitMatch(Quantifier.Many0, AtoF, NullCond(), Src(Bytes, AsciiBytes("aabbccgg")), 0).res == Ok(Span(0, 6))
  {
    var s := AsciiBytes("aabbccgg");
    assert s[6] == 'g' as int;
    assert Matches(AtoF, s[0]);
    assert Matches(AtoF, s[1]);
    assert Matches(AtoF, s[2]);
    assert Matches(AtoF, s[3]);
    assert Matches(AtoF, s[4]);
    assert Matches(AtoF, s[5]);
    ByteLenBytes(s);
    GreedyNull(Quantifier.Many0, AtoF, s, 0, 6);
  }

  /** `('a'..'g').between::<1, 6>()` on "aabbccgg" takes six letters. */
  lemma BetweenOnLetters()
    ensures UnitMatch(Quantifier.Between(1, 6), AtoF, NullCond(), Src(Bytes, AsciiBytes("aabbccgg")), 0).res == Ok(Span(0, 6))
  {
    var s := AsciiBytes("aabbccgg");
    assert s[6] == 'g' as int;
    assert Matches(AtoF, s[0]);
    assert Matches(AtoF, s[1]);
    assert Matches(AtoF, s[2]);
    assert Matches(AtoF, s[3]);
    assert Matches(AtoF, s[4]);
    assert Matches(AtoF, s[5]);
    ByteLenBytes(s);
    GreedyNull(Quantifier.Between(1, 6), AtoF, s, 0, 6);
  }

  /** `('a'..'g').times(1..7)` on "aabbccgg" takes six letters: `..7` allows at most six. */
  lemma TimesOnLetters()
    ensures UnitMatch(Quantifier.Times(FromRange(1, 7)), AtoF, NullCond(), Src(Bytes, AsciiBytes("aabbccgg")), 0).res == Ok(Span(0, 6))
  {
    var s := AsciiBytes("aabbccgg");
    assert s[6] == 'g' as int;
    assert Matches(AtoF, s[0]);
    assert Matches(AtoF, s[1]);
    assert Matches(AtoF, s[2]);
    assert Matches(AtoF, s[3]);
    assert Matches(AtoF, s[4]);
    assert Matches(AtoF, s[5]);
    ByteLenBytes(s);
    GreedyNull(Quantifier.Times(FromRange(1, 7)), AtoF, s, 0, 6);
  }

  /** `always().count::<6>()` on "abc%$#&" takes six units. */
  lemma AlwaysCountSix()
    ensures UnitMatch(Quantifier.Between(6, 6), Always, NullCond(), Src(Bytes, AsciiBytes("abc%$#&")), 0).res == Ok(Span(0, 6))
  {
    var s := AsciiBytes("abc%$#&");
    assert Matches(Always, s[0]);
    assert Matches(Always, s[1]);
    assert Matches(Always, s[2]);
    assert Matches(Always, s[3]);
    assert Matches(Always, s[4]);
    assert Matches(Always, s[5]);
    ByteLenBytes(s);
    GreedyNull(Quantifier.Between(6, 6), Always, s, 0, 6);
  }

  /** `never().count::<6>()` on "abc%$#&" fails. */
  lemma NeverCountSix()
    ensures UnitMatch(Quantifier.Between(6, 6), Never, NullCond(), Src(Bytes, AsciiBytes("abc%$#&")), 0).res == Err(Error.Between)
  {
    var s, q := AsciiBytes("abc%$#&"), Quantifier.Between(6, 6);
    assert |s| == 7 && !Matches(Never, s[0]);
    assert Limit(q) == Some(6) && !TooShort(q, Never, |s|) && !Enough(q, 0);
    ByteLenBytes(s);
    GreedyNull(q, Never, s, 0, 0);
  }

  /** `digit(10).not().between::<1, 3>()` on "cc9" stops at the digit. */
  lemma NotDigitOnCc9()
    ensures UnitMatch(Quantifier.Between(1, 3), Not(Radix(10)), NullCond(), Src(Bytes, AsciiBytes("cc9")), 0).res == Ok(Span(0, 2))
  {
    var s := AsciiBytes("cc9");
    assert s[2] == '9' as int;
    assert Matches(Not(Radix(10)), s[0]);
    assert Matches(Not(Radix(10)), s[1]);
    assert Step(Radix(10), s[2]).0;
    ByteLenBytes(s);
    GreedyNull(Quantifier.Between(1, 3), Not(Radix(10)), s, 0, 2);
  }

  /** ... and on "c99" takes only the 'c'. */
  lemma NotDigitOnC99()
    ensures UnitMatch(Quantifier.Between(1, 3), Not(Radix(10)), NullCond(), Src(Bytes, AsciiBytes("c99")), 0).res == Ok(Span(0, 1))
  {
    var s := AsciiBytes("c99");
    assert s[1] == '9' as int;
    assert Matches(Not(Radix(10)), s[0]);
    assert Step(Radix(10), s[1]).0;
    ByteLenBytes(s);
    GreedyNull(Quantifier.Between(1, 3), Not(Radix(10)), s, 0, 1);
  }

  /** `digit(10).and(|c| c > '7').between::<1, 3>()` on "899" takes all three. */
  lemma BigDigitOn899()
    ensures UnitMatch(Quantifier.Between(1, 3), BigDigit, NullCond(), Src(Bytes, AsciiBytes("899")), 0).res == Ok(Span(0, 3))
  {
    var s := AsciiBytes("899");
    assert s[0] == '8' as int && s[1] == '9' as int && s[2] == '9' as int;
    assert Matches(BigDigit, s[0]);
    assert Matches(BigDigit, s[1]);
    assert Matches(BigDigit, s[2]);
    ByteLenBytes(s);
    GreedyNull(Quantifier.Between(1, 3), BigDigit, s, 0, 3);
  }

  /** ... and on "99c" stops at the letter. */
  lemma BigDigitOn99c()
    ensures UnitMatch(Quantifier.Between(1, 3), BigDigit, NullCond(), Src(Bytes, AsciiBytes("99c")), 0).res == Ok(Span(0, 2))
  {
    var s := AsciiBytes("99c");
    assert s[0] == '9' as int && s[1] == '9' as int && s[2] == 'c' as int;
    assert Matches(BigDigit, s[0]);
    assert Matches(BigDigit, s[1]);
    assert Step(BigDigit.left, s[2]) == (false, BigDigit.left);
    ByteLenBytes(s);
    GreedyNull(Quantifier.Between(1, 3), BigDigit, s, 0, 2);
  }

  /** `and(|a| a > b'a' - 1, |a| a < b'z' + 1).times(6..)` on "abcedfgABCEE" takes the seven lower-case letters. */
  lemma LowerTimesSix()
    ensures UnitMatch(Quantifier.Times(FromRangeFrom(6)), Lower, NullCond(), Src(Bytes, AsciiBytes("abcedfgABCEE")), 0).res == Ok(Span(0, 7))
  {
    var s := AsciiBytes("abcedfgABCEE");
    assert s[7] == 'A' as int;
    assert Matches(Lower, s[0]);
    assert Matches(Lower, s[1]);
    assert Matches(Lower, s[2]);
    assert Matches(Lower, s[3]);
    assert Matches(Lower, s[4]);
    assert Matches(Lower, s[5]);
    assert Matches(Lower, s[6]);
    assert Step(Lower.left, s[7]) == (false, Lower.left);
    ByteLenBytes(s);
    GreedyNull(Quantifier.Times(FromRangeFrom(6)), Lower, s, 0, 7);
  }

  /** `not(u8::is_ascii_uppercase).times(6..)` on "abcedfgABCEE" takes the seven lower-case letters. */
  lemma NotUpperTimesSix()
    ensures UnitMatch(Quantifier.Times(FromRangeFrom(6)), Not(Ascii(Uppercase)), NullCond(), Src(Bytes, AsciiBytes("abcedfgABCEE")), 0).res == Ok(Span(0, 7))
  {
    var s := AsciiBytes("abcedfgABCEE");
    assert s[7] == 'A' as int;
    assert Matches(Not(Ascii(Uppercase)), s[0]);
    assert Matches(Not(Ascii(Uppercase)), s[1]);
    assert Matches(Not(Ascii(Uppercase)), s[2]);
    assert Matches(Not(Ascii(Uppercase)), s[3]);
    assert Matches(Not(Ascii(Uppercase)), s[4]);
    assert Matches(Not(Ascii(Uppercase)), s[5]);
    assert Matches(Not(Ascii(Uppercase)), s[6]);
    assert Step(Ascii(Uppercase), s[7]).0;
    ByteLenBytes(s);
    GreedyNull(Quantifier.Times(FromRangeFrom(6)), Not(Ascii(Uppercase)), s, 0, 7);
  }

  /** `'a'.or('b').between::<1, 2>()` on "abc" takes "ab". */
  lemma AOrBOnAbc()
    ensures UnitMatch(Quantifier.Between(1, 2), Neu.Or(Equal('a' as int), Equal('b' as int)), NullCond(), Src(Bytes, AsciiBytes("abc")), 0).res == Ok(Span(0, 2))
  {
    var s := AsciiBytes("abc");
    assert Matches(Neu.Or(Equal('a' as int), Equal('b' as int)), s[0]);
    assert Matches(Neu.Or(Equal('a' as int), Equal('b' as int)), s[1]);
    ByteLenBytes(s);
    GreedyNull(Quantifier.Between(1, 2), Neu.Or(Equal('a' as int), Equal('b' as int)), s, 0, 2);
  }

  /** `word().many1()` on "TheLolipop_1\r\n" takes the twelve word characters. */
  lemma WordMany1()
    ensures UnitMatch(Quantifier.Many1, Word, NullCond(), Src(Bytes, AsciiBytes("TheLolipop_1\r\n")), 0).res == Ok(Span(0, 12))
  {
    var s := AsciiBytes("TheLolipop_1\r\n");
    assert s[12] == '\r' as int;
    assert Matches(Word, s[0]);
    assert Matches(Word, s[1]);
    assert Matches(Word, s[2]);
    assert Matches(Word, s[3]);
    assert Matches(Word, s[4]);
    assert Matches(Word, s[5]);
    assert Matches(Word, s[6]);
    assert Matches(Word, s[7]);
    assert Matches(Word, s[8]);
    assert Matches(Word, s[9]);
    assert Matches(Word, s[10]);
    assert Matches(Word, s[11]);
    ByteLenBytes(s);
    GreedyNull(Quantifier.Many1, Word, s, 0, 12);
  }

  /** ... and, run again at the carriage return, fails. */
  lemma WordMany1Again()
    ensures UnitMatch(Quantifier.Many1, Word, NullCond(), Src(Bytes, AsciiBytes("TheLolipop_1\r\n")), 12).res == Err(Error.Many1)
  {
    var s := AsciiBytes("TheLolipop_1\r\n");
    assert s[12] == '\r' as int;
    ByteLenBytes(s);
    GreedyNull(Quantifier.Many1, Word, s, 12, 0);
  }

  /** `wild().count::<2>()` on "aa\r\n" takes "aa". */
  lemma WildCountTwo()
    ensures UnitMatch(Quantifier.Between(2, 2), Wild, NullCond(), Src(Bytes, AsciiBytes("aa\r\n")), 0).res == Ok(Span(0, 2))
  {
    var s := AsciiBytes("aa\r\n");
    assert Matches(Wild, s[0]);
    assert Matches(Wild, s[1]);
    ByteLenBytes(s);
    GreedyNull(Quantifier.Between(2, 2), Wild, s, 0, 2);
  }

  /** ... and, run again at the carriage return, fails: `wild` refuses the newline after it. */
  lemma WildCountTwoAgain()
    ensures UnitMatch(Quantifier.Between(2, 2), Wild, NullCond(), Src(Bytes, AsciiBytes("aa\r\n")), 2).res == Err(Error.Between)
  {
    var s := AsciiBytes("aa\r\n");
    assert s[2] == '\r' as int && s[3] == '\n' as int;
    assert Matches(Wild, s[2]);
    ByteLenBytes(s);
    GreedyNull(Quantifier.Between(2, 2), Wild, s, 2, 1);
  }

  /** `ascii_whitespace().count::<1>()` on "    w\u{A0}abcd" takes one space. */
  lemma SpaceCountOne()
    ensures UnitMatch(Quantifier.Between(1, 1), Ascii(WhiteSpace), NullCond(), Src(Bytes, SpacesThenW), 0).res == Ok(Span(0, 1))
  {
    var s := SpacesThenW;
    assert s[0] == ' ' as int;
    assert Matches(Ascii(WhiteSpace), s[0]);
    ByteLenBytes(s);
    GreedyNull(Quantifier.Between(1, 1), Ascii(WhiteSpace), s, 0, 1);
  }

  /** ... `count::<3>()` from offset 1 takes the other three. */
  lemma SpaceCountThree()
    ensures UnitMatch(Quantifier.Between(3, 3), Ascii(WhiteSpace), NullCond(), Src(Bytes, SpacesThenW), 1).res == Ok(Span(1, 3))
  {
    var s := SpacesThenW;
    assert Matches(Ascii(WhiteSpace), s[1]);
    assert Matches(Ascii(WhiteSpace), s[2]);
    assert Matches(Ascii(WhiteSpace), s[3]);
    ByteLenBytes(s);
    GreedyNull(Quantifier.Between(3, 3), Ascii(WhiteSpace), s, 1, 3);
  }

  /** ... and `count::<1>()` at the 'w' fails. */
  lemma SpaceCountOneAtW()
    ensures Src(Bytes, SpacesThenW).Len() == 11 &&
      UnitMatch(Quantifier.Between(1, 1), Ascii(WhiteSpace), NullCond(), Src(Bytes, SpacesThenW), 4).res == Err(Error.Between)
  {
    var s := SpacesThenW;
    assert s[4] == 'w' as int;
    ByteLenBytes(s);
    GreedyNull(Quantifier.Between(1, 1), Ascii(WhiteSpace), s, 4, 0);
  }

  /** `once('+')` on "+2077" takes the sign. */
  lemma OncePlus()
    ensures UnitMatch(Quantifier.Once, Equal('+' as int), NullCond(), Src(Bytes, AsciiBytes("+2077")), 0).res == Ok(Span(0, 1))
  {
    var s := AsciiBytes("+2077");
    assert Matches(Equal('+' as int), s[0]);
    ByteLenBytes(s);
    GreedyNull(Quantifier.Once, Equal('+' as int), s, 0, 1);
  }

  /** ... and `many1('0'..='9')` then takes the four digits. */
  lemma Many1DigitsAfterPlus()
    ensures UnitMatch(Quantifier.Many1, Digits, NullCond(), Src(Bytes, AsciiBytes("+2077")), 1).res == Ok(Span(1, 4))
  {
    var s := AsciiBytes("+2077");
    assert Matches(Digits, s[1]);
    assert Matches(Digits, s[2]);
    assert Matches(Digits, s[3]);
    assert Matches(Digits, s[4]);
    ByteLenBytes(s);
    GreedyNull(Quantifier.Many1, Digits, s, 1, 4);
  }

  /** `once('+')` on "2077" fails. */
  lemma OncePlusMissing()
    ensures UnitMatch(Quantifier.Once, Equal('+' as int), NullCond(), Src(Bytes, AsciiBytes("2077")), 0).res == Err(Error.Once)
  {
    var s := AsciiBytes("2077");
    assert s[0] == '2' as int;
    ByteLenBytes(s);
    GreedyNull(Quantifier.Once, Equal('+' as int), s, 0, 0);
  }

  /** `opt('+')` on "2077" gives an empty span. */
  lemma OptPlusMissing()
    ensures UnitMatch(Quantifier.Opt, Equal('+' as int), NullCond(), Src(Bytes, AsciiBytes("2077")), 0).res == Ok(Span(0, 0))
  {
    var s := AsciiBytes("2077");
    assert s[0] == '2' as int;
    ByteLenBytes(s);
    GreedyNull(Quantifier.Opt, Equal('+' as int), s, 0, 0);
  }

  /** ... and `many1('0'..='9')` then takes the four digits. */
  lemma Many1DigitsNoSign()
    ensures UnitMatch(Quantifier.Many1, Digits, NullCond(), Src(Bytes, AsciiBytes("2077")), 0).res == Ok(Span(0, 4))
  {
    var s := AsciiBytes("2077");
    assert Matches(Digits, s[0]);
    assert Matches(Digits, s[1]);
    assert Matches(Digits, s[2]);
    assert Matches(Digits, s[3]);
    ByteLenBytes(s);
    GreedyNull(Quantifier.Many1, Digits, s, 0, 4);
  }

  /** `many0('0'..='9')` on "2048mb" takes the four digits. */
  lemma Many0DigitsOn2048mb()
    ensures UnitMatch(Quantifier.Many0, Digits, NullCond(), Src(Bytes, AsciiBytes("2048mb")), 0).res == Ok(Span(0, 4))
  {
    var s := AsciiBytes("2048mb");
    assert s[4] == 'm' as int;
    assert Matches(Digits, s[0]);
    assert Matches(Digits, s[1]);
    assert Matches(Digits, s[2]);
    assert Matches(Digits, s[3]);
    ByteLenBytes(s);
    GreedyNull(Quantifier.Many0, Digits, s, 0, 4);
  }

  /** `many0('0'..='9')` on "rust2021" gives an empty span. */
  lemma Many0DigitsOnRust()
    ensures UnitMatch(Quantifier.Many0, Digits, NullCond(), Src(Bytes, AsciiBytes("rust2021")), 0).res == Ok(Span(0, 0))
  {
    var s := AsciiBytes("rust2021");
    assert s[0] == 'r' as int;
    ByteLenBytes(s);
    GreedyNull(Quantifier.Many0, Digits, s, 0, 0);
  }

  /** `many1('0'..='9')` on "rust2021" fails. */
  lemma Many1DigitsOnRust()
    ensures UnitMatch(Quantifier.Many1, Digits, NullCond(), Src(Bytes, AsciiBytes("rust2021")), 0).res == Err(Error.Many1)
  {
    var s := AsciiBytes("rust2021");
    assert s[0] == 'r' as int;
    ByteLenBytes(s);
    GreedyNull(Quantifier.Many1, Digits, s, 0, 0);
  }

  /** `count::<0, { usize::MAX }>('a'..'{')` on "example.com" stops at the dot. */
  lemma CountLettersOnWebsite()
    ensures UnitMatch(Quantifier.Between(0, USIZE_MAX), InRange(FromRange('a' as nat, '{' as nat)), NullCond(), Src(Bytes, AsciiBytes("example.com")), 0).res == Ok(Span(0, 7))
  {
    var s := AsciiBytes("example.com");
    assert s[7] == '.' as int;
    assert Matches(InRange(FromRange('a' as nat, '{' as nat)), s[0]);
    assert Matches(InRange(FromRange('a' as nat, '{' as nat)), s[1]);
    assert Matches(InRange(FromRange('a' as nat, '{' as nat)), s[2]);
    assert Matches(InRange(FromRange('a' as nat, '{' as nat)), s[3]);
    assert Matches(InRange(FromRange('a' as nat, '{' as nat)), s[4]);
    assert Matches(InRange(FromRange('a' as nat, '{' as nat)), s[5]);
    assert Matches(InRange(FromRange('a' as nat, '{' as nat)), s[6]);
    ByteLenBytes(s);
    GreedyNull(Quantifier.Between(0, USIZE_MAX), InRange(FromRange('a' as nat, '{' as nat)), s, 0, 7);
  }

  /** `['a', 'c', 'f', 'e'].repeat(2..6)` on "aaffeeeaccc" takes five units, the most `..6` allows. */
  lemma SetTimesOnAaffeeeaccc()
    ensures UnitMatch(Quantifier.Times(FromRange(2, 6)), Among(AsciiBytes("acfe")), NullCond(), Src(Bytes, AsciiBytes("aaffeeeaccc")), 0).res == Ok(Span(0, 5))
  {
    var s := AsciiBytes("aaffeeeaccc");
    var q, u := Quantifier.Times(FromRange(2, 6)), Among(AsciiBytes("acfe"));
    AcfeLeadsAaffeeeaccc();
    assert Limit(q) == Some(5);
    assert !TooShort(q, u, |s|);
    GreedyNull(q, u, s, 0, 5);
  }

  /** The first five units of "aaffeeeaccc" are among "acfe". */
  lemma AcfeLeadsAaffeeeaccc()
    ensures forall j :: 0 <= j < 5 ==> Matches(Among(AsciiBytes("acfe")), AsciiBytes("aaffeeeaccc")[j])
  {
    var s := AsciiBytes("aaffeeeaccc");
    assert AsciiBytes("acfe") == ['a' as int, 'c' as int, 'f' as int, 'e' as int];
    assert Matches(Among(AsciiBytes("acfe")), s[0]);
    assert Matches(Among(AsciiBytes("acfe")), s[1]);
    assert Matches(Among(AsciiBytes("acfe")), s[2]);
    assert Matches(Among(AsciiBytes("acfe")), s[3]);
    assert Matches(Among(AsciiBytes("acfe")), s[4]);
  }

  /** ... and on "acdde" stops at the 'd'. */
  lemma SetTimesOnAcdde()
    ensures UnitMatch(Quantifier.Times(FromRange(2, 6)), Among(AsciiBytes("acfe")), NullCond(), Src(Bytes, AsciiBytes("acdde")), 0).res == Ok(Span(0, 2))
  {
    var s := AsciiBytes("acdde");
    assert AsciiBytes("acfe") == ['a' as int, 'c' as int, 'f' as int, 'e' as int];
    assert s[2] == 'd' as int;
    assert Matches(Among(AsciiBytes("acfe")), s[0]);
    assert Matches(Among(AsciiBytes("acfe")), s[1]);
    ByteLenBytes(s);
    GreedyNull(Quantifier.Times(FromRange(2, 6)), Among(AsciiBytes("acfe")), s, 0, 2);
  }

  /**
   * The condition of the `count_if` example: a unit other than '.' passes, and a '.'
   * passes only when another '.' follows it somewhere in the remaining data.
   */
  function DotCond(): Cond
  {
    (src: Src, o: nat, p: (nat, int)) =>
      match Orig(src, o)
      case Err(e) => Err(e)
      case Ok(v) => Ok(p.1 != '.' as int || (p.0 + 1 <= |v| && '.' as int in v[p.0 + 1..]))
  }

  /** `('a'..'{').or('.')`. */
  const HostChar: Neu := Neu.Or(InRange(FromRange('a' as nat, '{' as nat)), Equal('.' as int))

  /** On byte input at offset 0 the condition looks for a later dot in the data itself. */
  lemma DotCondBytes(s: seq<int>, j: nat)
    requires j < |s|
    ensures DotCond()(Src(Bytes, s), 0, (j, s[j])) == Ok(s[j] != '.' as int || '.' as int in s[j + 1..])
  {
    OrigBytes(s, 0);
    assert s[0..] == s;
  }

  /**
   * The `count_if` walk over host characters stops just before the last dot: when the
   * first `k` units are letters or dots, unit `k` is a dot and no dot follows it, the
   * span is the `k` units before it. Every earlier dot passes, since the one at `k` follows it.
   */
  lemma CountIfLastDot(s: seq<int>, k: nat)
    requires k < |s| && k <= USIZE_MAX && s[k] == '.' as int && '.' as int !in s[k + 1..]
    requires forall j :: 0 <= j < k ==> 'a' as int <= s[j] <= 'z' as int || s[j] == '.' as int
    ensures UnitMatch(Quantifier.Between(0, USIZE_MAX), HostChar, DotCond(), Src(Bytes, s), 0).res == Ok(Span(0, k))
  {
    var q := Quantifier.Between(0, USIZE_MAX);
    assert Limit(q) == Some(USIZE_MAX) && !TooShort(q, HostChar, |s|) && Enough(q, k);
    HostCharsBeforeLastDot(s, k);
    LastDotRefused(s, k);
    Greedy(q, HostChar, DotCond(), s, 0, k);
  }

  /** The condition refuses a dot with no later dot, so the walk stops there. */
  lemma LastDotRefused(s: seq<int>, k: nat)
    requires k < |s| && s[k] == '.' as int && '.' as int !in s[k + 1..]
    ensures WalkStops(Quantifier.Between(0, USIZE_MAX), HostChar, DotCond(), s, 0, k)
  {
    DotCondBytes(s, k);
  }

  /** Every letter or dot before the last dot is taken: a later dot exists for each such dot. */
  lemma HostCharsBeforeLastDot(s: seq<int>, k: nat)
    requires k < |s| && s[k] == '.' as int
    requires forall j :: 0 <= j < k ==> 'a' as int <= s[j] <= 'z' as int || s[j] == '.' as int
    ensures WalkTakes(HostChar, DotCond(), s, 0, k)
  {
    forall j | 0 <= j < k
      ensures Matches(HostChar, s[j]) && DotCond()(Src(Bytes, s), 0, (j - 0, s[j])) == Ok(true)
    {
      HostCharTaken(s, k, j);
    }
  }

  /** One letter or dot before a later dot is taken. */
  lemma HostCharTaken(s: seq<int>, k: nat, j: nat)
    requires j < k < |s| && s[k] == '.' as int
    requires 'a' as int <= s[j] <= 'z' as int || s[j] == '.' as int
    ensures Matches(HostChar, s[j]) && DotCond()(Src(Bytes, s), 0, (j, s[j])) == Ok(true)
  {
    assert Contains(FromRange('a' as nat, '{' as nat), s[j]) || s[j] == '.' as int;
    DotCondBytes(s, j);
    assert s[j + 1..][k - j - 1] == '.' as int;
  }

  /**
   * `count_if::<0, { usize::MAX }>(('a'..'{').or('.'), ...)` on "domain.example.com":
   * the condition refuses the last dot, so the walk stops before it without backtracking.
   */
  lemma CountIfOnDomain()
    ensures UnitMatch(Quantifier.Between(0, USIZE_MAX), HostChar, DotCond(), Src(Bytes, AsciiBytes("domain.example.com")), 0).res
      == Ok(Span(0, 14))
  {
    var s := AsciiBytes("domain.example.com");
    assert s[15..] == AsciiBytes("com");
    CountIfLastDot(s, 14);
  }

  /** `consume(8)` on "rust2023" takes all eight bytes. */
  lemma ConsumeEight()
    ensures Match(Regex.Consume(8), Src(Bytes, AsciiBytes("rust2023")), 0) == Done(Ok(Span(0, 8)), 8)
  {
    ByteLenBytes(AsciiBytes("rust2023"));
  }

  /** `consume_all()` on "rust is so awesome!" takes all nineteen bytes. */
  lemma ConsumeAllNineteen()
    ensures Match(ConsumeAll, Src(Bytes, AsciiBytes("rust is so awesome!")), 0) == Done(Ok(Span(0, 19)), 19)
  {
    ByteLenBytes(AsciiBytes("rust is so awesome!"));
  }

  /** `lit_slice(b"magic")` on "magic 0xff" spans the five bytes of the literal. */
  lemma LitMagic()
    ensures Match(Lit(AsciiBytes("magic"), false), Src(Bytes, AsciiBytes("magic 0xff")), 0) == Done(Ok(Span(0, 5)), 5)
  {
    var s := AsciiBytes("magic 0xff");
    ByteLenBytes(s);
    LitBytes(AsciiBytes("magic"), s, 0);
    assert s[0..5] == AsciiBytes("magic");
  }

  /** Every verdict is true. */
  predicate AllTrue(bs: seq<bool>)
  {
    forall j :: 0 <= j < |bs| ==> bs[j]
  }

  /**
   * The walk with a stateful predicate and the always-true condition, stated through
   * `Feed`: when the verdicts on units `i` to `k` are all true and the state they leave
   * refuses unit `k` (or the units end there), an unlimited walk from `i` stops at `k`.
   */
  lemma {:induction false} RunByFeed(u: Neu, src: Src, off: nat, ps: seq<(nat, int)>, xs: seq<int>, i: nat, k: nat)
    requires |ps| == |xs| && i <= k <= |xs|
    requires forall j :: 0 <= j < |xs| ==> ps[j].1 == xs[j]
    requires AllTrue(Feed(u, xs[i..k]).0)
    requires k == |xs| || !Step(Feed(u, xs[i..k]).1, xs[k]).0
    ensures Run(u, NullCond(), src, off, ps, i, None).cnt == k
    ensures Run(u, NullCond(), src, off, ps, i, None).err.None?
    decreases k - i
  {
    if i < k {
      var (b, u') := Step(u, xs[i]);
      assert xs[i..k][0] == xs[i] && xs[i..k][1..] == xs[i + 1..k];
      assert b == Feed(u, xs[i..k]).0[0];
      var bs := Feed(u, xs[i..k]).0;
      assert Feed(u', xs[i + 1..k]).0 == bs[1..];
      RunByFeed(u', src, off, ps, xs, i + 1, k);
    } else {
      assert xs[i..k] == [];
    }
  }

  /** The walk of a stateful predicate on byte input, stated on the data through `Feed`. */
  lemma GreedyFeedRun(u: Neu, s: seq<int>, off: nat, k: nat)
    requires off + k <= |s|
    requires AllTrue(Feed(u, s[off..off + k]).0)
    requires off + k == |s| || !Step(Feed(u, s[off..off + k]).1, s[off + k]).0
    ensures Peek(Src(Bytes, s), off) == Ok(Indices(Bytes, s[off..]))
    ensures var run := Run(u, NullCond(), Src(Bytes, s), off, Indices(Bytes, s[off..]), 0, None);
      run.cnt == k && run.err.None?
  {
    var suf := s[off..];
    PeekBytes(s, off);
    assert suf[0..k] == s[off..off + k];
    RunByFeed(u, Src(Bytes, s), off, Indices(Bytes, suf), suf, 0, k);
  }

  /** `many1` and `many0` on byte input with a stateful predicate, stated through `Feed`. */
  lemma GreedyFeed(q: Quantifier, u: Neu, s: seq<int>, off: nat, k: nat)
    requires q.Many1? || q.Many0?
    requires off + k <= |s|
    requires AllTrue(Feed(u, s[off..off + k]).0)
    requires off + k == |s| || !Step(Feed(u, s[off..off + k]).1, s[off + k]).0
    ensures Src(Bytes, s).Len() == |s|
    ensures UnitMatch(q, u, NullCond(), Src(Bytes, s), off).res ==
      if Enough(q, k) then Ok(Span(off, k)) else Err(ShortError(q))
  {
    var src, suf := Src(Bytes, s), s[off..];
    ByteLenBytes(s);
    GreedyFeedRun(u, s, off, k);
    var run := Run(u, NullCond(), src, off, Indices(Bytes, suf), 0, Limit(q));
    FinishBytes(q, s, off, run);
    assert UnitMatch(q, u, NullCond(), src, off) == Finish(q, src, off, Indices(Bytes, suf), run);
  }

  /** `prefix('0', prefix('o', digit(8)).or(prefix('x', digit(16))).or(prefix('b', digit(2))))`, fresh. */
  const Number: Neu := NewPrefix(Equal('0' as int),
    Neu.Or(Neu.Or(NewPrefix(Equal('o' as int), Radix(8)), NewPrefix(Equal('x' as int), Radix(16))),
      NewPrefix(Equal('b' as int), Radix(2))))

  /** Feeding units one at a time: the first verdict, then the rest from the next state. */
  lemma FeedCons(n: Neu, xs: seq<int>)
    requires xs != []
    ensures Feed(n, xs).0 == [Step(n, xs[0]).0] + Feed(Step(n, xs[0]).1, xs[1..]).0
    ensures Feed(n, xs).1 == Feed(Step(n, xs[0]).1, xs[1..]).1
  {
  }

  /** A state that accepts every unit and stays as it is accepts the whole sequence. */
  lemma {:induction false} FeedFixed(n: Neu, xs: seq<int>)
    requires forall j :: 0 <= j < |xs| ==> Step(n, xs[j]) == (true, n)
    ensures AllTrue(Feed(n, xs).0) && Feed(n, xs).1 == n
    decreases |xs|
  {
    if xs != [] {
      FeedFixed(n, xs[1..]);
    }
  }

  /** The three radix prefixes of `Number`, fresh. */
  const Oct: Neu := NewPrefix(Equal('o' as int), Radix(8))
  const Hex: Neu := NewPrefix(Equal('x' as int), Radix(16))
  const Bin: Neu := NewPrefix(Equal('b' as int), Radix(2))

  /** `prefix(p, u)` once its prefix unit matched: `u` decides from now on. */
  function Past(p: Neu, u: Neu): Neu
  {
    Neu.Prefix(p, 0, true, u)
  }

  /** `prefix(p, u)` once its prefix unit was refused: it refuses everything from now on. */
  function Dead(p: Neu, u: Neu): Neu
  {
    Neu.Prefix(p, 0, false, u)
  }

  /** `Number` after "0x": the octal prefix is dead, the hexadecimal one has matched. */
  const AfterHex: Neu := Past(Equal('0' as int), Neu.Or(Neu.Or(Dead(Equal('o' as int), Radix(8)), Past(Equal('x' as int), Radix(16))), Bin))

  /** `Number` after "0": its own prefix has matched, the radix prefixes are fresh. */
  const AfterZero: Neu := Past(Equal('0' as int), Neu.Or(Neu.Or(Oct, Hex), Bin))

  lemma ZeroStep()
    ensures Step(Number, '0' as int) == (true, AfterZero)
  {
    var inner := Neu.Or(Neu.Or(Oct, Hex), Bin);
    assert Number == Neu.Prefix(Equal('0' as int), 1, true, inner);
    assert AfterZero == Neu.Prefix(Equal('0' as int), 0, true, inner);
    assert Step(Equal('0' as int), '0' as int) == (true, Equal('0' as int));
  }

  lemma HexStep()
    ensures Step(AfterZero, 'x' as int) == (true, AfterHex)
  {
    var inner := Neu.Or(Neu.Or(Oct, Hex), Bin);
    var dead, hex := Dead(Equal('o' as int), Radix(8)), Past(Equal('x' as int), Radix(16));
    assert AfterZero == Neu.Prefix(Equal('0' as int), 0, true, inner);
    assert Oct == Neu.Prefix(Equal('o' as int), 1, true, Radix(8));
    assert Hex == Neu.Prefix(Equal('x' as int), 1, true, Radix(16));
    assert Step(Oct, 'x' as int) == (false, dead);
    assert Step(Hex, 'x' as int) == (true, hex);
    assert Step(Neu.Or(Oct, Hex), 'x' as int) == (true, Neu.Or(dead, hex));
    assert Step(inner, 'x' as int) == (true, Neu.Or(Neu.Or(dead, hex), Bin));
    assert AfterHex == Neu.Prefix(Equal('0' as int), 0, true, Neu.Or(Neu.Or(dead, hex), Bin));
  }

  /** After "0x" every hexadecimal digit is accepted and the state stays put. */
  lemma HexDigitStep(x: int)
    requires DigitValue(x) < 16
    ensures Step(AfterHex, x) == (true, AfterHex)
  {
    var dead, hex := Dead(Equal('o' as int), Radix(8)), Past(Equal('x' as int), Radix(16));
    assert Step(dead, x) == (false, dead);
    assert Step(hex, x) == (true, hex);
    assert Step(Neu.Or(dead, hex), x) == (true, Neu.Or(dead, hex));
  }

  /**
   * "0x99EF": after '0' and 'x' the octal prefix is dead and the hexadecimal one has
   * matched; the state then accepts each hexadecimal digit and stays put.
   */
  lemma NumberOnHex()
    ensures UnitMatch(Quantifier.Many1, Number, NullCond(), Src(Bytes, AsciiBytes("0x99EF")), 0).res == Ok(Span(0, 6))
  {
    var s := AsciiBytes("0x99EF");
    ZeroStep();
    HexStep();
    var t := s[2..];
    assert t == AsciiBytes("99EF");
    HexDigitStep(t[0]);
    HexDigitStep(t[1]);
    HexDigitStep(t[2]);
    HexDigitStep(t[3]);
    FeedFixed(AfterHex, t);
    FeedCons(AfterZero, s[1..]);
    assert s[1..][1..] == t;
    FeedCons(Number, s);
    assert s[0..6] == s;
    ByteLenBytes(s);
    GreedyFeed(Quantifier.Many1, Number, s, 0, 6);
  }

  /** `Number` after "0o": the octal prefix has matched; the others are still fresh. */
  const AfterOct: Neu := Past(Equal('0' as int), Neu.Or(Neu.Or(Past(Equal('o' as int), Radix(8)), Hex), Bin))

  /** `Number` after "0b": the octal and hexadecimal prefixes are dead, the binary one has matched. */
  const AfterBin: Neu := Past(Equal('0' as int),
    Neu.Or(Neu.Or(Dead(Equal('o' as int), Radix(8)), Dead(Equal('x' as int), Radix(16))), Past(Equal('b' as int), Radix(2))))

  lemma OctStep()
    ensures Step(AfterZero, 'o' as int) == (true, AfterOct)
  {
    var inner := Neu.Or(Neu.Or(Oct, Hex), Bin);
    var oct := Past(Equal('o' as int), Radix(8));
    assert AfterZero == Neu.Prefix(Equal('0' as int), 0, true, inner);
    assert Oct == Neu.Prefix(Equal('o' as int), 1, true, Radix(8));
    assert Step(Oct, 'o' as int) == (true, oct);
    assert Step(Neu.Or(Oct, Hex), 'o' as int) == (true, Neu.Or(oct, Hex));
    assert Step(inner, 'o' as int) == (true, Neu.Or(Neu.Or(oct, Hex), Bin));
    assert AfterOct == Neu.Prefix(Equal('0' as int), 0, true, Neu.Or(Neu.Or(oct, Hex), Bin));
  }

  /** After "0o" every octal digit is accepted and the state stays put. */
  lemma OctDigitStep(x: int)
    requires DigitValue(x) < 8
    ensures Step(AfterOct, x) == (true, AfterOct)
  {
    var oct := Past(Equal('o' as int), Radix(8));
    assert Step(oct, x) == (true, oct);
    assert Step(Neu.Or(oct, Hex), x) == (true, Neu.Or(oct, Hex));
  }

  /** After "0o" the digit '8' is refused by all three radix prefixes. */
  lemma OctStopsAtEight()
    ensures !Step(AfterOct, '8' as int).0
  {
    var oct := Past(Equal('o' as int), Radix(8));
    var inner := Neu.Or(Neu.Or(oct, Hex), Bin);
    assert AfterOct == Neu.Prefix(Equal('0' as int), 0, true, inner);
    assert Hex == Neu.Prefix(Equal('x' as int), 1, true, Radix(16));
    assert Bin == Neu.Prefix(Equal('b' as int), 1, true, Radix(2));
    assert Step(oct, '8' as int) == (false, oct);
    assert !Step(Hex, '8' as int).0;
    assert !Step(Neu.Or(oct, Hex), '8' as int).0;
    assert !Step(Bin, '8' as int).0;
    assert !Step(inner, '8' as int).0;
  }

  lemma BinStep()
    ensures Step(AfterZero, 'b' as int) == (true, AfterBin)
  {
    var inner := Neu.Or(Neu.Or(Oct, Hex), Bin);
    var deado, deadx := Dead(Equal('o' as int), Radix(8)), Dead(Equal('x' as int), Radix(16));
    var bin := Past(Equal('b' as int), Radix(2));
    assert AfterZero == Neu.Prefix(Equal('0' as int), 0, true, inner);
    assert Oct == Neu.Prefix(Equal('o' as int), 1, true, Radix(8));
    assert Hex == Neu.Prefix(Equal('x' as int), 1, true, Radix(16));
    assert Bin == Neu.Prefix(Equal('b' as int), 1, true, Radix(2));
    assert Step(Oct, 'b' as int) == (false, deado);
    assert Step(Hex, 'b' as int) == (false, deadx);
    assert Step(Bin, 'b' as int) == (true, bin);
    assert Step(Neu.Or(Oct, Hex), 'b' as int) == (false, Neu.Or(deado, deadx));
    assert Step(inner, 'b' as int) == (true, Neu.Or(Neu.Or(deado, deadx), bin));
    assert AfterBin == Neu.Prefix(Equal('0' as int), 0, true, Neu.Or(Neu.Or(deado, deadx), bin));
  }

  /** After "0b" every binary digit is accepted and the state stays put. */
  lemma BinDigitStep(x: int)
    requires DigitValue(x) < 2
    ensures Step(AfterBin, x) == (true, AfterBin)
  {
    var dead := Neu.Or(Dead(Equal('o' as int), Radix(8)), Dead(Equal('x' as int), Radix(16)));
    var bin := Past(Equal('b' as int), Radix(2));
    assert Step(dead, x) == (false, dead);
    assert Step(bin, x) == (true, bin);
  }

  /** After "0b" the digit '2' is refused. */
  lemma BinStopsAtTwo()
    ensures !Step(AfterBin, '2' as int).0
  {
    var dead := Neu.Or(Dead(Equal('o' as int), Radix(8)), Dead(Equal('x' as int), Radix(16)));
    var bin := Past(Equal('b' as int), Radix(2));
    assert Step(dead, '2' as int) == (false, dead);
    assert Step(bin, '2' as int) == (false, bin);
  }

  /** A fresh `Number` refuses a first unit other than '0'. */
  lemma NumberNeedsZero(x: int)
    requires x != '0' as int
    ensures !Step(Number, x).0
  {
    assert Number == Neu.Prefix(Equal('0' as int), 1, true, Neu.Or(Neu.Or(Oct, Hex), Bin));
  }

  /** "0o7389EF": the octal number "0o73", up to the '8'. */
  lemma NumberOnOct()
    ensures UnitMatch(Quantifier.Many1, Number, NullCond(), Src(Bytes, AsciiBytes("0o7389EF")), 0).res == Ok(Span(0, 4))
  {
    var s := AsciiBytes("0o7389EF");
    var t := s[2..4];
    assert t == AsciiBytes("73");
    ZeroStep();
    OctStep();
    OctDigitStep(t[0]);
    OctDigitStep(t[1]);
    FeedFixed(AfterOct, t);
    FeedCons(AfterZero, s[1..4]);
    assert s[1..4][1..] == t;
    FeedCons(Number, s[0..4]);
    assert s[0..4][1..] == s[1..4];
    OctStopsAtEight();
    ByteLenBytes(s);
    GreedyFeed(Quantifier.Many1, Number, s, 0, 4);
  }

  /** "0b01102": the binary number "0b0110", up to the '2'. */
  lemma NumberOnBin()
    ensures UnitMatch(Quantifier.Many1, Number, NullCond(), Src(Bytes, AsciiBytes("0b01102")), 0).res == Ok(Span(0, 6))
  {
    var s := AsciiBytes("0b01102");
    var t := s[2..6];
    assert t == AsciiBytes("0110");
    ZeroStep();
    BinStep();
    BinDigitStep(t[0]);
    BinDigitStep(t[1]);
    BinDigitStep(t[2]);
    BinDigitStep(t[3]);
    FeedFixed(AfterBin, t);
    FeedCons(AfterZero, s[1..6]);
    assert s[1..6][1..] == t;
    FeedCons(Number, s[0..6]);
    assert s[0..6][1..] == s[1..6];
    BinStopsAtTwo();
    ByteLenBytes(s);
    GreedyFeed(Quantifier.Many1, Number, s, 0, 6);
  }

  /** On data that does not start with '0', `Number.many1()` fails at once. */
  lemma NumberFailsWithoutZero(s: seq<int>)
    requires |s| > 0 && s[0] != '0' as int
    ensures UnitMatch(Quantifier.Many1, Number, NullCond(), Src(Bytes, s), 0).res == Err(Error.Many1)
  {
    NumberNeedsZero(s[0]);
    assert s[0..0] == [];
    ByteLenBytes(s);
    GreedyFeed(Quantifier.Many1, Number, s, 0, 0);
  }

  /** `Number.many1().or(digit(10).many1())`. */
  const NumberRe: Regex :=
    Regex.Or(Unit(Quantifier.Many1, Number, NullCond()), Unit(Quantifier.Many1, Radix(10), NullCond()))

  /** The ordered `or` of two quantifiers: the left one's outcome unless it fails, then the right one's. */
  lemma UnitOr(q1: Quantifier, u1: Neu, q2: Quantifier, u2: Neu, src: Src, off: nat)
    requires off <= src.Len()
    ensures var a, b := UnitMatch(q1, u1, NullCond(), src, off), UnitMatch(q2, u2, NullCond(), src, off);
      Match(Regex.Or(Unit(q1, u1, NullCond()), Unit(q2, u2, NullCond())), src, off) ==
        if a.res.Ok? then Done(a.res, a.off) else Done(b.res, b.off)
  {
    var l, r := Unit(q1, u1, NullCond()), Unit(q2, u2, NullCond());
    var a, b := UnitMatch(q1, u1, NullCond(), src, off), UnitMatch(q2, u2, NullCond(), src, off);
    assert Match(l, src, off) == Done(a.res, a.off);
    assert Match(r, src, off) == Done(b.res, b.off);
    assert Match(Regex.Or(l, r), src, off) == OrMatch(Regex.Or(l, r), l, r, src, off);
  }

  /** "0x99EF" gives Span(0, 6). */
  lemma NumberReOnHex()
    ensures Match(NumberRe, Src(Bytes, AsciiBytes("0x99EF")), 0) == Done(Ok(Span(0, 6)), 6)
  {
    NumberOnHex();
    UnitOr(Quantifier.Many1, Number, Quantifier.Many1, Radix(10), Src(Bytes, AsciiBytes("0x99EF")), 0);
  }

  /** "0o7389EF" gives Span(0, 4). */
  lemma NumberReOnOct()
    ensures Match(NumberRe, Src(Bytes, AsciiBytes("0o7389EF")), 0) == Done(Ok(Span(0, 4)), 4)
  {
    NumberOnOct();
    UnitOr(Quantifier.Many1, Number, Quantifier.Many1, Radix(10), Src(Bytes, AsciiBytes("0o7389EF")), 0);
  }

  /** "0b01102" gives Span(0, 6). */
  lemma NumberReOnBin()
    ensures Match(NumberRe, Src(Bytes, AsciiBytes("0b01102")), 0) == Done(Ok(Span(0, 6)), 6)
  {
    NumberOnBin();
    UnitOr(Quantifier.Many1, Number, Quantifier.Many1, Radix(10), Src(Bytes, AsciiBytes("0b01102")), 0);
  }

  /** `digit(10).many1()` on "99EF" takes "99". */
  lemma DecimalOn99EF()
    ensures UnitMatch(Quantifier.Many1, Radix(10), NullCond(), Src(Bytes, AsciiBytes("99EF")), 0).res == Ok(Span(0, 2))
  {
    var s := AsciiBytes("99EF");
    assert Matches(Radix(10), s[0]) && Matches(Radix(10), s[1]) && !Matches(Radix(10), s[2]);
    ByteLenBytes(s);
    GreedyNull(Quantifier.Many1, Radix(10), s, 0, 2);
  }

  /** `digit(10).many1()` on "9899" takes all four digits. */
  lemma DecimalOn9899()
    ensures UnitMatch(Quantifier.Many1, Radix(10), NullCond(), Src(Bytes, AsciiBytes("9899")), 0).res == Ok(Span(0, 4))
  {
    var s := AsciiBytes("9899");
    assert Matches(Radix(10), s[0]) && Matches(Radix(10), s[1]) && Matches(Radix(10), s[2]) && Matches(Radix(10), s[3]);
    ByteLenBytes(s);
    GreedyNull(Quantifier.Many1, Radix(10), s, 0, 4);
  }

  /** `digit(10).many1()` on "x99EF" fails. */
  lemma DecimalOnX99EF()
    ensures UnitMatch(Quantifier.Many1, Radix(10), NullCond(), Src(Bytes, AsciiBytes("x99EF")), 0).res == Err(Error.Many1)
  {
    var s := AsciiBytes("x99EF");
    assert !Matches(Radix(10), s[0]);
    ByteLenBytes(s);
    GreedyNull(Quantifier.Many1, Radix(10), s, 0, 0);
  }

  /** "99EF": the prefixed number fails, and the decimal alternative takes "99". */
  lemma NumberReOnDec()
    ensures Match(NumberRe, Src(Bytes, AsciiBytes("99EF")), 0) == Done(Ok(Span(0, 2)), 2)
  {
    NumberFailsWithoutZero(AsciiBytes("99EF"));
    DecimalOn99EF();
    UnitOr(Quantifier.Many1, Number, Quantifier.Many1, Radix(10), Src(Bytes, AsciiBytes("99EF")), 0);
  }

  /** "9899": the decimal alternative takes all four digits. */
  lemma NumberReOnDecimal()
    ensures Match(NumberRe, Src(Bytes, AsciiBytes("9899")), 0) == Done(Ok(Span(0, 4)), 4)
  {
    NumberFailsWithoutZero(AsciiBytes("9899"));
    DecimalOn9899();
    UnitOr(Quantifier.Many1, Number, Quantifier.Many1, Radix(10), Src(Bytes, AsciiBytes("9899")), 0);
  }

  /** "x99EF": both alternatives fail. */
  lemma NumberReOnX()
    ensures Match(NumberRe, Src(Bytes, AsciiBytes("x99EF")), 0) == Done(Err(Error.Many1), 0)
  {
    NumberFailsWithoutZero(AsciiBytes("x99EF"));
    DecimalOnX99EF();
    UnitOr(Quantifier.Many1, Number, Quantifier.Many1, Radix(10), Src(Bytes, AsciiBytes("x99EF")), 0);
  }
}
