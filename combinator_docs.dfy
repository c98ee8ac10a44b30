/**
 * The documented examples of the combinators and of the leaf matchers built from literals,
 * on byte input. As in `DocExamples`, every input is ASCII, so each character is one unit
 * of width 1 and the byte offsets equal the text offsets the examples use.
 *
 * The Unicode classes `alphabetic()` and `whitespace()` are caller-visible only through
 * their answers on the example's characters; they are parameters here, constrained on
 * ASCII to what the standard library's `char::is_alphabetic` and `char::is_whitespace`
 * answer there.
 */
module CombinatorDocs {
  import opened Errors
  import opened Spans
  import opened Text
  import opened Cursor
  import opened Ranges
  import opened Neus
  import opened Units
  import opened Regexes
  import opened Laws
  import opened DocExamples
  import AsWritten

  // ---------------------------------------------------------------------------------------
  // Leaves on byte input

  /** A literal on byte input that the data from the cursor starts with matches it. */
  lemma {:induction false} LitHit(val: seq<int>, str: bool, s: seq<int>, off: nat)
    requires off + |val| <= |s| && s[off..off + |val|] == val
    ensures Src(Bytes, s).Len() == |s|
    ensures Match(Lit(val, str), Src(Bytes, s), off) == Done(Ok(Span(off, |val|)), off + |val|)
  {
    LitAt(val, str, s, off);
  }

  /** A literal on byte input fails in place when some unit of it differs from the data or lies past its end. */
  lemma {:induction false} LitMiss(val: seq<int>, str: bool, s: seq<int>, off: nat, j: nat)
    requires off <= |s| && j < |val|
    requires off + j >= |s| || s[off + j] != val[j]
    ensures Src(Bytes, s).Len() == |s|
    ensures Match(Lit(val, str), Src(Bytes, s), off) == Done(Err(if str then Error.LitString else Error.LitSlice), off)
  {
    LitAt(val, str, s, off);
    if off + |val| <= |s| {
      assert s[off..off + |val|][j] == s[off + j];
    }
  }

  /** A literal on byte input matches iff the data from the cursor starts with it. */
  lemma {:induction false} LitAt(val: seq<int>, str: bool, s: seq<int>, off: nat)
    requires off <= |s|
    ensures Src(Bytes, s).Len() == |s|
    ensures Match(Lit(val, str), Src(Bytes, s), off) ==
      if off + |val| <= |s| && s[off..off + |val|] == val then Done(Ok(Span(off, |val|)), off + |val|)
      else Done(Err(if str then Error.LitString else Error.LitSlice), off)
  {
    ByteLenBytes(s);
    ByteLenBytes(val);
    IndexAtBytes(s, off);
    if off + |val| <= |s| {
      assert s[off..][..|val|] == s[off..off + |val|];
    }
  }

  /** A quantified unit without a condition that takes `k` units and accepts that count. */
  lemma {:induction false} UnitTakes(q: Quantifier, u: Neu, s: seq<int>, off: nat, k: nat)
    requires Stateless(u) && off + k <= |s|
    requires forall j :: off <= j < off + k ==> Matches(u, s[j])
    requires off + k == |s| || (Limit(q).Some? && k == Limit(q).value) || !Matches(u, s[off + k])
    requires Limit(q).None? || k <= Limit(q).value
    requires !TooShort(q, u, |s| - off) && Enough(q, k)
    ensures Src(Bytes, s).Len() == |s|
    ensures Match(Unit(q, u, NullCond()), Src(Bytes, s), off) == Done(Ok(Span(off, k)), off + k)
  {
    GreedyNull(q, u, s, off, k);
  }

  /** A quantified unit without a condition whose walk stops short of an acceptable count fails in place. */
  lemma {:induction false} UnitShort(q: Quantifier, u: Neu, s: seq<int>, off: nat, k: nat)
    requires Stateless(u) && off + k <= |s|
    requires forall j :: off <= j < off + k ==> Matches(u, s[j])
    requires off + k == |s| || (Limit(q).Some? && k == Limit(q).value) || !Matches(u, s[off + k])
    requires Limit(q).None? || k <= Limit(q).value
    requires !TooShort(q, u, |s| - off) && !Enough(q, k)
    ensures Src(Bytes, s).Len() == |s|
    ensures Match(Unit(q, u, NullCond()), Src(Bytes, s), off) == Done(Err(ShortError(q)), off)
  {
    GreedyNull(q, u, s, off, k);
  }

  /** `regex::empty()` on "aabbccgg" matches nothing at the start. */
  lemma {:induction false} EmptyOnLetters()
    ensures Match(Regex.Empty, Src(Bytes, AsciiBytes("aabbccgg")), 0) == Done(Ok(Span(0, 0)), 0)
  {
  }

  /** `regex::empty()` on "rust is so awesome!" matches nothing at the start too. */
  lemma {:induction false} EmptyOnRust()
    ensures Match(Regex.Empty, Src(Bytes, AsciiBytes("rust is so awesome!")), 0) == Done(Ok(Span(0, 0)), 0)
  {
  }

  /** `regex::fail()` on "aabbccgg" fails in place. */
  lemma {:induction false} FailOnLetters()
    ensures Match(Regex.Fail, Src(Bytes, AsciiBytes("aabbccgg")), 0) == Done(Err(Error.Fail), 0)
  {
  }

  /** `lit_slice(&[0xff, 0xff])` on the bytes 0xff 0xff 0x12 gives Span(0, 2). */
  lemma {:induction false} LitSliceOnBytes()
    ensures Match(Lit([0xff, 0xff], false), Src(Bytes, [0xff, 0xff, 0x12]), 0) == Done(Ok(Span(0, 2)), 2)
  {
    var s: seq<int> := [0xff, 0xff, 0x12];
    assert s[0..2] == [0xff, 0xff];
    LitHit([0xff, 0xff], false, s, 0);
  }

  /** `regex::string("rust")` on "rust2023" gives Span(0, 4). */
  lemma {:induction false} LitStringOnRust2023(s: seq<int>)
    requires s == AsciiBytes("rust2023")
    ensures |s| == 8
    ensures Match(Lit(AsciiBytes("rust"), true), Src(Bytes, s), 0) == Done(Ok(Span(0, 4)), 4)
  {
    assert s[0..4] == AsciiBytes("rust");
    LitHit(AsciiBytes("rust"), true, s, 0);
  }

  /** `regex::string("hello")` on "hello world" gives Span(0, 5). */
  lemma {:induction false} LitStringOnHelloWorld()
    ensures Match(Lit(AsciiBytes("hello"), true), Src(Bytes, AsciiBytes("hello world")), 0) == Done(Ok(Span(0, 5)), 5)
  {
    var s := AsciiBytes("hello world");
    assert s[0..5] == AsciiBytes("hello");
    LitHit(AsciiBytes("hello"), true, s, 0);
  }

  /** `regex::consume(6)` on "aabbccgg" takes six of the eight bytes. */
  lemma {:induction false} ConsumeSixOnLetters()
    ensures Match(Regex.Consume(6), Src(Bytes, AsciiBytes("aabbccgg")), 0) == Done(Ok(Span(0, 6)), 6)
  {
    ByteLenBytes(AsciiBytes("aabbccgg"));
  }

  /** `regex::consume_all()` on "aabbccgg" takes all eight. */
  lemma {:induction false} ConsumeAllOnLetters()
    ensures Match(ConsumeAll, Src(Bytes, AsciiBytes("aabbccgg")), 0) == Done(Ok(Span(0, 8)), 8)
  {
    ByteLenBytes(AsciiBytes("aabbccgg"));
  }

  // ---------------------------------------------------------------------------------------
  // Longest

  const Http: Regex := Lit(AsciiBytes("http"), true)
  const Https: Regex := Lit(AsciiBytes("https"), true)

  lemma {:induction false} LongestUnfolds(l: Regex, r: Regex, src: Src, off: nat)
    requires off <= src.Len()
    ensures Match(Longest(l, r), src, off) == LongestMatch(Longest(l, r), l, r, src, off)
  {
  }

  /**
   * On any data that starts with "https", `"http".longest("https")` takes the five bytes:
   * both alternatives match and the longer one wins.
   */
  lemma {:induction false} LongestHttpsPrefix(s: seq<int>)
    requires 5 <= |s| && s[..5] == AsciiBytes("https")
    ensures Match(Longest(Http, Https), Src(Bytes, s), 0) == Done(Ok(Span(0, 5)), 5)
  {
    assert s[0..4] == AsciiBytes("http");
    assert s[0..5] == AsciiBytes("https");
    LitHit(AsciiBytes("http"), true, s, 0);
    LitHit(AsciiBytes("https"), true, s, 0);
    LongestUnfolds(Http, Https, Src(Bytes, s), 0);
  }

  /** On data that starts with "http" and goes on with something other than 's', it takes four. */
  lemma {:induction false} LongestHttpPrefix(s: seq<int>)
    requires 4 <= |s| && s[..4] == AsciiBytes("http") && (|s| == 4 || s[4] != 's' as int)
    ensures Match(Longest(Http, Https), Src(Bytes, s), 0) == Done(Ok(Span(0, 4)), 4)
  {
    assert s[0..4] == AsciiBytes("http");
    LitHit(AsciiBytes("http"), true, s, 0);
    LitMiss(AsciiBytes("https"), true, s, 0, 4);
    LongestUnfolds(Http, Https, Src(Bytes, s), 0);
  }

  /** `"http".longest("https")` on "https://docs.rs" gives Span(0, 5) ... */
  lemma {:induction false} LongestOnHttps()
    ensures Match(Longest(Http, Https), Src(Bytes, AsciiBytes("https://docs.rs")), 0) == Done(Ok(Span(0, 5)), 5)
  {
    var s := AsciiBytes("https://docs.rs");
    assert s[..5] == AsciiBytes("https");
    LongestHttpsPrefix(s);
  }

  /** ... and on "http://docs.rs" Span(0, 4). */
  lemma {:induction false} LongestOnHttp()
    ensures Match(Longest(Http, Https), Src(Bytes, AsciiBytes("http://docs.rs")), 0) == Done(Ok(Span(0, 4)), 4)
  {
    var s := AsciiBytes("http://docs.rs");
    assert s[..4] == AsciiBytes("http") && s[4] == ':' as int;
    LongestHttpPrefix(s);
  }

  // ---------------------------------------------------------------------------------------
  // Runs of units

  /** The units of `s` from `i` up to `k` all satisfy `u`, and the one at `k`, if any, does not. */
  predicate RunOf(u: Neu, s: seq<int>, i: nat, k: nat)
  {
    i <= k <= |s| && (forall j {:trigger Matches(u, s[j])} :: i <= j < k ==> Matches(u, s[j])) && (k == |s| || !Matches(u, s[k]))
  }

  /** `many1` over a run: the whole run when it is not empty, otherwise a failure in place. */
  lemma {:induction false} Many1Run(u: Neu, s: seq<int>, i: nat, k: nat)
    requires Stateless(u) && RunOf(u, s, i, k)
    ensures Src(Bytes, s).Len() == |s|
    ensures Match(Unit(Quantifier.Many1, u, NullCond()), Src(Bytes, s), i) ==
      if i < k then Done(Ok(Span(i, k - i)), k) else Done(Err(Error.Many1), i)
  {
    GreedyNull(Quantifier.Many1, u, s, i, k - i);
  }

  /** `many0` over a run: the whole run, possibly empty. */
  lemma {:induction false} Many0Run(u: Neu, s: seq<int>, i: nat, k: nat)
    requires Stateless(u) && RunOf(u, s, i, k)
    ensures Src(Bytes, s).Len() == |s|
    ensures Match(Unit(Quantifier.Many0, u, NullCond()), Src(Bytes, s), i) == Done(Ok(Span(i, k - i)), k)
  {
    GreedyNull(Quantifier.Many0, u, s, i, k - i);
  }

  // ---------------------------------------------------------------------------------------
  // Collect

  const Plus: Regex := Lit(['+' as int], false)

  lemma {:induction false} CollectUnfolds(p: Regex, min: nat, src: Src, off: nat)
    requires off <= src.Len()
    ensures Match(Regex.Collect(p, min), src, off) ==
      RepFinish(Regex.Collect(p, min), RepLoop(Regex.Collect(p, min), p, None, src, off, off, 0, Span(off, 0)), off)
  {
  }

  /**
   * An unbounded repetition loop over an item that takes one unit at each of the offsets
   * `i` to `k - 1` and fails in place at `k` counts `k - i` more items and stops at `k`.
   */
  lemma {:induction false} LoopOverUnits(re: Regex, p: Regex, src: Src, i: nat, k: nat)
    requires p < re && i <= k <= src.Len()
    requires forall j :: i <= j < k ==> Match(p, src, j) == Done(Ok(Span(j, 1)), j + 1)
    requires Match(p, src, k) == Done(Err(Error.LitSlice), k)
    ensures RepLoop(re, p, None, src, 0, i, i, Span(0, i)) == Stopped(k, k, Span(0, k))
  {
    RepLoopStops(re, p, None, src, 0, k, k, Span(0, k));
    var n := k;
    while n > i
      invariant i <= n <= k
      invariant RepLoop(re, p, None, src, 0, n, n, Span(0, n)) == Stopped(k, k, Span(0, k))
    {
      n := n - 1;
      assert Match(p, src, n) == Done(Ok(Span(n, 1)), n + 1);
      UnitRound(re, p, src, n);
    }
  }

  /** One round of that loop: the item takes the unit at `i` and the loop goes on at `i + 1`. */
  lemma {:induction false} UnitRound(re: Regex, p: Regex, src: Src, i: nat)
    requires p < re && i < src.Len()
    requires Match(p, src, i) == Done(Ok(Span(i, 1)), i + 1)
    ensures RepLoop(re, p, None, src, 0, i, i, Span(0, i)) == RepLoop(re, p, None, src, 0, i + 1, i + 1, Span(0, i + 1))
  {
    RepLoopGoesOn(re, p, None, src, 0, i, i, Span(0, i));
    assert AddAssign(Span(0, i), Span(i, 1)) == Span(0, i + 1);
  }

  /** The loop of `b"+".collect()` from a '+' run's offset `i` counts the run's '+' and stops where it ends. */
  lemma {:induction false} PlusLoop(re: Regex, s: seq<int>, i: nat, k: nat)
    requires Plus < re && RunOf(Equal('+' as int), s, i, k)
    ensures Src(Bytes, s).Len() == |s|
    ensures RepLoop(re, Plus, None, Src(Bytes, s), 0, i, i, Span(0, i)) == Stopped(k, k, Span(0, k))
  {
    ByteLenBytes(s);
    forall j | i <= j < k
      ensures Match(Plus, Src(Bytes, s), j) == Done(Ok(Span(j, 1)), j + 1)
    {
      assert Matches(Equal('+' as int), s[j]);
      assert s[j..j + 1] == ['+' as int];
      LitHit(['+' as int], false, s, j);
    }
    LitMiss(['+' as int], false, s, k, 0);
    LoopOverUnits(re, Plus, Src(Bytes, s), i, k);
  }

  /**
   * `b"+".collect().at_least(min)` on data that starts with `k` '+': all of them when
   * `k` reaches `min`, otherwise a `Collect` failure with the cursor back at the start.
   */
  lemma {:induction false} CollectPlus(min: nat, s: seq<int>, k: nat)
    requires RunOf(Equal('+' as int), s, 0, k)
    ensures Match(Regex.Collect(Plus, min), Src(Bytes, s), 0) ==
      if k >= min then Done(Ok(Span(0, k)), k) else Done(Err(Error.Collect), 0)
  {
    PlusLoop(Regex.Collect(Plus, min), s, 0, k);
    CollectUnfolds(Plus, min, Src(Bytes, s), 0);
  }

  /** `b"+".collect()` on "---A" fails: not one '+' where at least one is required ... */
  lemma {:induction false} CollectOnMinus()
    ensures Match(Regex.Collect(Plus, 1), Src(Bytes, AsciiBytes("---A")), 0) == Done(Err(Error.Collect), 0)
  {
    var s := AsciiBytes("---A");
    assert s[0] == '-' as int;
    CollectPlus(1, s, 0);
  }

  /** ... on "+++A" it takes the three '+' ... */
  lemma {:induction false} CollectOnPlus()
    ensures Match(Regex.Collect(Plus, 1), Src(Bytes, AsciiBytes("+++A")), 0) == Done(Ok(Span(0, 3)), 3)
  {
    var s := AsciiBytes("+++A");
    assert s[0] == s[1] == s[2] == '+' as int && s[3] == 'A' as int;
    CollectPlus(1, s, 3);
  }

  /** ... and with `.at_least(3)` on "++-A" it fails: two '+' are too few. */
  lemma {:induction false} CollectAtLeastThree()
    ensures Match(Regex.Collect(Plus, 3), Src(Bytes, AsciiBytes("++-A")), 0) == Done(Err(Error.Collect), 0)
  {
    var s := AsciiBytes("++-A");
    assert s[0] == s[1] == '+' as int && s[2] == '-' as int;
    CollectPlus(3, s, 2);
  }

  // ---------------------------------------------------------------------------------------
  // Enclose

  /** A one-byte string literal. */
  function Char(c: char): Regex
  {
    Lit([c as int], true)
  }

  /** A one-byte string literal at `off` matches exactly when the byte there is that character. */
  lemma {:induction false} CharAt(c: char, s: seq<int>, off: nat)
    requires off <= |s|
    ensures Src(Bytes, s).Len() == |s|
    ensures Match(Char(c), Src(Bytes, s), off) ==
      if off < |s| && s[off] == c as int then Done(Ok(Span(off, 1)), off + 1) else Done(Err(Error.LitString), off)
  {
    if off < |s| && s[off] == c as int {
      assert s[off..off + 1] == [c as int];
      LitHit([c as int], true, s, off);
    } else {
      LitMiss([c as int], true, s, off, 0);
    }
  }

  /** `neu::digit(10).many0().enclose("(", ")")`. */
  const ParenDigits: Regex := Enclose(Char('('), Unit(Quantifier.Many0, Radix(10), NullCond()), Char(')'))

  /** A one-byte string literal that the byte at `off` equals. */
  lemma {:induction false} CharHit(c: char, s: seq<int>, off: nat)
    requires off < |s| && s[off] == c as int
    ensures Src(Bytes, s).Len() == |s|
    ensures Match(Char(c), Src(Bytes, s), off) == Done(Ok(Span(off, 1)), off + 1)
  {
    CharAt(c, s, off);
  }

  /** The '(' and the digits after it. */
  lemma {:induction false} OpenDigits(s: seq<int>, k: nat)
    requires 0 < |s| && s[0] == '(' as int && RunOf(Radix(10), s, 1, k)
    ensures Src(Bytes, s).Len() == |s|
    ensures Match(Then(Char('('), Unit(Quantifier.Many0, Radix(10), NullCond())), Src(Bytes, s), 0) == Done(Ok(Span(0, k)), k)
  {
    CharHit('(', s, 0);
    Many0Run(Radix(10), s, 1, k);
    ThenBoth(Char('('), Unit(Quantifier.Many0, Radix(10), NullCond()), Src(Bytes, s), 0);
  }

  /** On '(', a run of digits ending at `k`, then ')': the whole of it, up to and with the ')'. */
  lemma {:induction false} ParenDigitsRun(s: seq<int>, k: nat)
    requires 0 < |s| && s[0] == '(' as int && RunOf(Radix(10), s, 1, k) && k < |s| && s[k] == ')' as int
    ensures Match(ParenDigits, Src(Bytes, s), 0) == Done(Ok(Span(0, k + 1)), k + 1)
  {
    var src := Src(Bytes, s);
    OpenDigits(s, k);
    CharHit(')', s, k);
    ThenBoth(Then(Char('('), Unit(Quantifier.Many0, Radix(10), NullCond())), Char(')'), src, 0);
    EncloseIsThen(Char('('), Unit(Quantifier.Many0, Radix(10), NullCond()), Char(')'), src, 0);
  }

  /** `digit.enclose("(", ")")` on "(42686)" gives Span(0, 7). */
  lemma {:induction false} EncloseOnDigits()
    ensures Match(ParenDigits, Src(Bytes, AsciiBytes("(42686)")), 0) == Done(Ok(Span(0, 7)), 7)
  {
    var s := AsciiBytes("(42686)");
    assert s[0] == '(' as int && s[6] == ')' as int;
    assert s[1] == '4' as int && s[2] == '2' as int && s[3] == '6' as int && s[4] == '8' as int && s[5] == '6' as int;
    ParenDigitsRun(s, 6);
  }

  // ---------------------------------------------------------------------------------------
  // OptionPat

  /** `regex!((neu::digit(16))+).opt()`. */
  const OptHex: Regex := OptionPat(Unit(Quantifier.Many1, Radix(16), NullCond()))

  /** On data that starts with `k` hexadecimal digits: those `k`, and an empty span when `k` is 0. */
  lemma {:induction false} OptHexRun(s: seq<int>, k: nat)
    requires RunOf(Radix(16), s, 0, k)
    ensures Match(OptHex, Src(Bytes, s), 0) == Done(Ok(Span(0, k)), k)
  {
    Many1Run(Radix(16), s, 0, k);
    OptionNeverFails(Unit(Quantifier.Many1, Radix(16), NullCond()), Src(Bytes, s), 0);
  }

  /** `.opt()` on "f1" gives Span(0, 2) ... */
  lemma {:induction false} OptionOnF1()
    ensures Match(OptHex, Src(Bytes, AsciiBytes("f1")), 0) == Done(Ok(Span(0, 2)), 2)
  {
    var s := AsciiBytes("f1");
    assert s[0] == 'f' as int && s[1] == '1' as int;
    OptHexRun(s, 2);
  }

  /** ... and on "p8" the default span. */
  lemma {:induction false} OptionOnP8()
    ensures Match(OptHex, Src(Bytes, AsciiBytes("p8")), 0) == Done(Ok(Span(0, 0)), 0)
  {
    var s := AsciiBytes("p8");
    assert s[0] == 'p' as int;
    OptHexRun(s, 0);
  }

  // ---------------------------------------------------------------------------------------
  // Branch

  /** `|ctx| Ok(ctx.len() - ctx.offset() >= 3)`: at least three bytes left. */
  const ThreeLeft: BranchTest := (src: Src, off: nat) => Ok(src.Len() - off >= 3)

  /** `branch(ThreeLeft, ascii_digit().count::<3>(), ascii_digit().many0())`. */
  const DigitBranch: Regex :=
    Branch(ThreeLeft, Unit(Quantifier.Between(3, 3), Ascii(Digit), NullCond()), Unit(Quantifier.Many0, Ascii(Digit), NullCond()))

  /** With three bytes or more left the test picks `count::<3>()`: three digits, or a failure in place. */
  lemma {:induction false} DigitBranchLong(s: seq<int>, k: nat)
    requires 3 <= |s| && RunOf(Ascii(Digit), s, 0, k)
    ensures Match(DigitBranch, Src(Bytes, s), 0) ==
      if k >= 3 then Done(Ok(Span(0, 3)), 3) else Done(Err(Error.Between), 0)
  {
    var src := Src(Bytes, s);
    var three := Unit(Quantifier.Between(3, 3), Ascii(Digit), NullCond());
    ByteLenBytes(s);
    assert ThreeLeft(src, 0) == Ok(true);
    if k >= 3 {
      UnitTakes(Quantifier.Between(3, 3), Ascii(Digit), s, 0, 3);
    } else {
      UnitShort(Quantifier.Between(3, 3), Ascii(Digit), s, 0, k);
    }
    BranchSelects(ThreeLeft, three, Unit(Quantifier.Many0, Ascii(Digit), NullCond()), src, 0);
  }

  /** With fewer than three bytes left it picks `many0()`: the digits there are. */
  lemma {:induction false} DigitBranchShort(s: seq<int>, k: nat)
    requires |s| < 3 && RunOf(Ascii(Digit), s, 0, k)
    ensures Match(DigitBranch, Src(Bytes, s), 0) == Done(Ok(Span(0, k)), k)
  {
    var src := Src(Bytes, s);
    var rest := Unit(Quantifier.Many0, Ascii(Digit), NullCond());
    Many0Run(Ascii(Digit), s, 0, k);
    assert ThreeLeft(src, 0) == Ok(false);
    BranchSelects(ThreeLeft, Unit(Quantifier.Between(3, 3), Ascii(Digit), NullCond()), rest, src, 0);
  }

  /** The branch on "21345" takes three digits ... */
  lemma {:induction false} BranchOn21345()
    ensures Match(DigitBranch, Src(Bytes, AsciiBytes("21345")), 0) == Done(Ok(Span(0, 3)), 3)
  {
    var s := AsciiBytes("21345");
    assert s[0] == '2' as int && s[1] == '1' as int && s[2] == '3' as int && s[3] == '4' as int;
    DigitBranchLong(s, 5);
  }

  /** ... and on "42" both. */
  lemma {:induction false} BranchOn42()
    ensures Match(DigitBranch, Src(Bytes, AsciiBytes("42")), 0) == Done(Ok(Span(0, 2)), 2)
  {
    var s := AsciiBytes("42");
    assert s[0] == '4' as int && s[1] == '2' as int;
    DigitBranchShort(s, 2);
  }

  // ---------------------------------------------------------------------------------------
  // Or

  /** `('a'..='z').or('A'..='Z')`. */
  const Letters: Neu := Neu.Or(InRange(FromRangeInclusive('a' as nat, 'z' as nat)), InRange(FromRangeInclusive('A' as nat, 'Z' as nat)))

  /** `Letters` accepts exactly the ASCII letters. */
  lemma {:induction false} LettersAreAlpha(x: int)
    ensures Matches(Letters, x) <==> IsAlpha(x)
  {
    var lower, upper := InRange(FromRangeInclusive('a' as nat, 'z' as nat)), InRange(FromRangeInclusive('A' as nat, 'Z' as nat));
    Connectives(lower, upper, x);
    Classes(x, 0, [], FromRangeInclusive('a' as nat, 'z' as nat));
    Classes(x, 0, [], FromRangeInclusive('A' as nat, 'Z' as nat));
  }

  /** `neu::digit(16).many1().or(Letters.many1())`. */
  const HexOrLetters: Regex := Regex.Or(Unit(Quantifier.Many1, Radix(16), NullCond()), Unit(Quantifier.Many1, Letters, NullCond()))

  /**
   * On data that starts with `kh` hexadecimal digits and with `kl` letters: the digits when
   * there are any, otherwise the letters, and a failure in place when there are neither.
   */
  lemma {:induction false} HexOrLettersRuns(s: seq<int>, kh: nat, kl: nat)
    requires RunOf(Radix(16), s, 0, kh) && RunOf(Letters, s, 0, kl)
    ensures Match(HexOrLetters, Src(Bytes, s), 0) ==
      if kh > 0 then Done(Ok(Span(0, kh)), kh)
      else if kl > 0 then Done(Ok(Span(0, kl)), kl)
      else Done(Err(Error.Many1), 0)
  {
    Many1Run(Radix(16), s, 0, kh);
    Many1Run(Letters, s, 0, kl);
    OrUnfolds(Unit(Quantifier.Many1, Radix(16), NullCond()), Unit(Quantifier.Many1, Letters, NullCond()), Src(Bytes, s), 0);
  }

  /** `digits.or(strs)` on "8848" takes the digits ... */
  lemma {:induction false} OrOn8848()
    ensures Match(HexOrLetters, Src(Bytes, AsciiBytes("8848")), 0) == Done(Ok(Span(0, 4)), 4)
  {
    var s := AsciiBytes("8848");
    assert s[0] == '8' as int && s[1] == '8' as int && s[2] == '4' as int && s[3] == '8' as int;
    LettersAreAlpha(s[0]);
    HexOrLettersRuns(s, 4, 0);
  }

  /** ... and on "hello world" the first word: 'h' is no hexadecimal digit. */
  lemma {:induction false} OrOnHelloWorld()
    ensures Match(HexOrLetters, Src(Bytes, AsciiBytes("hello world")), 0) == Done(Ok(Span(0, 5)), 5)
  {
    var s := AsciiBytes("hello world");
    assert s[0] == 'h' as int && s[1] == 'e' as int && s[2] == 'l' as int && s[3] == 'l' as int && s[4] == 'o' as int;
    assert s[5] == ' ' as int;
    LettersAreAlpha(s[0]);
    LettersAreAlpha(s[1]);
    LettersAreAlpha(s[2]);
    LettersAreAlpha(s[3]);
    LettersAreAlpha(s[4]);
    LettersAreAlpha(s[5]);
    HexOrLettersRuns(s, 0, 5);
  }

  // ---------------------------------------------------------------------------------------
  // Separate and Separate2

  /** What `char::is_whitespace` answers on ASCII: tab, line feed, vertical tab, form feed, carriage return, space. */
  predicate WhitespaceOnAscii(ws: int -> bool)
  {
    forall x :: 0 <= x < 0x80 ==> (ws(x) <==> (0x09 <= x <= 0x0D || x == 0x20))
  }

  /** `neu::digit(10).many1()`. */
  const Num: Regex := Unit(Quantifier.Many1, Radix(10), NullCond())

  /** `",".suffix(neu::whitespace().many0())`. */
  function CommaWs(ws: int -> bool): Regex
  {
    Suffix(Char(','), Unit(Quantifier.Many0, Func(ws), NullCond()))
  }

  /** `num.sep(",".suffix(ws))`: skipping a trailing separator, at least one item. */
  function NumList(ws: int -> bool): Regex
  {
    Regex.Separate(Num, CommaWs(ws), true, 1, false)
  }

  /** `num.sep2::<_, 0, 8>(",".suffix(ws))`: skipping a trailing separator, at most 8 items. */
  function NumList8(ws: int -> bool): Regex
  {
    Regex.Separate2(Num, CommaWs(ws), true, 0, 8)
  }

  /** A suffixed pattern matches as the sequence of the pattern and its suffix. */
  lemma {:induction false} SuffixIsThen(p: Regex, q: Regex, src: Src, off: nat)
    requires off <= src.Len()
    ensures Match(Suffix(p, q), src, off) == Match(Then(p, q), src, off)
  {
    assert Match(Suffix(p, q), src, off) == ThenMatch(Suffix(p, q), p, q, src, off);
    assert Match(Then(p, q), src, off) == ThenMatch(Then(p, q), p, q, src, off);
  }

  /** On ',' and `w` whitespace characters the separator takes all of them. */
  lemma {:induction false} CommaWsHit(ws: int -> bool, s: seq<int>, o: nat, w: nat)
    requires o < |s| && s[o] == ',' as int && RunOf(Func(ws), s, o + 1, o + 1 + w)
    ensures Src(Bytes, s).Len() == |s|
    ensures Match(CommaWs(ws), Src(Bytes, s), o) == Done(Ok(Span(o, 1 + w)), o + 1 + w)
  {
    CharHit(',', s, o);
    Many0Run(Func(ws), s, o + 1, o + 1 + w);
    CommaWsJoins(ws, Src(Bytes, s), o, w);
  }

  /** The ',' at `o` and a whitespace run of `w` after it make the separator's span. */
  lemma {:induction false} CommaWsJoins(ws: int -> bool, src: Src, o: nat, w: nat)
    requires o + 1 + w <= src.Len()
    requires Match(Char(','), src, o) == Done(Ok(Span(o, 1)), o + 1)
    requires Match(Unit(Quantifier.Many0, Func(ws), NullCond()), src, o + 1) == Done(Ok(Span(o + 1, w)), o + 1 + w)
    ensures Match(CommaWs(ws), src, o) == Done(Ok(Span(o, 1 + w)), o + 1 + w)
  {
    SuffixJoins(Char(','), Unit(Quantifier.Many0, Func(ws), NullCond()), src, o, 1, w);
  }

  /** A suffix matched right after its pattern extends the pattern's span to its own end. */
  lemma {:induction false} SuffixJoins(p: Regex, q: Regex, src: Src, o: nat, n: nat, w: nat)
    requires o + n + w <= src.Len()
    requires Match(p, src, o) == Done(Ok(Span(o, n)), o + n)
    requires Match(q, src, o + n) == Done(Ok(Span(o + n, w)), o + n + w)
    ensures Match(Suffix(p, q), src, o) == Done(Ok(Span(o, n + w)), o + n + w)
  {
    ThenBoth(p, q, src, o);
    SuffixIsThen(p, q, src, o);
  }

  /** Where there is no ',' the separator fails there, as the literal does. */
  lemma {:induction false} CommaWsMiss(ws: int -> bool, s: seq<int>, o: nat)
    requires o <= |s| && (o == |s| || s[o] != ',' as int)
    ensures Src(Bytes, s).Len() == |s|
    ensures Match(CommaWs(ws), Src(Bytes, s), o) == Done(Err(Error.LitString), o)
  {
    var wsp := Unit(Quantifier.Many0, Func(ws), NullCond());
    CharAt(',', s, o);
    ThenLeftStops(Char(','), wsp, Src(Bytes, s), o);
    SuffixIsThen(Char(','), wsp, Src(Bytes, s), o);
  }

  /** A round of a separated list whose item ends at `j` and whose separator ends at `k`. */
  lemma {:induction false} SepRound(re: Regex, p: Regex, sep: Regex, limit: Option<nat>, src: Src, off0: nat, i: nat, j: nat, k: nat, cnt: nat)
    requires p < re && sep < re && !(limit.Some? && cnt >= limit.value)
    requires off0 <= i <= j <= k <= src.Len() && i < k
    requires Match(p, src, i) == Done(Ok(Span(i, j - i)), j) && Match(sep, src, j) == Done(Ok(Span(j, k - j)), k)
    ensures SepLoop(re, p, sep, true, limit, src, off0, i, cnt, Span(off0, i - off0)) ==
      SepLoop(re, p, sep, true, limit, src, off0, k, cnt + 1, Span(off0, k - off0))
  {
    SepSeparatorMatches(re, p, sep, true, limit, src, off0, i, cnt, Span(off0, i - off0));
    assert AddAssign(AddAssign(Span(off0, i - off0), Span(i, j - i)), Span(j, k - j)) == Span(off0, k - off0);
  }

  /** `d` digits, ',' and `w` whitespace characters: an item and a separator. */
  lemma {:induction false} NumAndComma(ws: int -> bool, s: seq<int>, i: nat, d: nat, w: nat)
    requires 0 < d && RunOf(Radix(10), s, i, i + d)
    requires i + d < |s| && s[i + d] == ',' as int && RunOf(Func(ws), s, i + d + 1, i + d + 1 + w)
    ensures Src(Bytes, s).Len() == |s|
    ensures Match(Num, Src(Bytes, s), i) == Done(Ok(Span(i, d)), i + d)
    ensures Match(CommaWs(ws), Src(Bytes, s), i + d) == Done(Ok(Span(i + d, 1 + w)), i + d + 1 + w)
  {
    Many1Run(Radix(10), s, i, i + d);
    CommaWsHit(ws, s, i + d, w);
  }

  /** `d` digits and no ',' after them: the last item, and a separator that fails. */
  lemma {:induction false} NumNoComma(ws: int -> bool, s: seq<int>, i: nat, d: nat)
    requires 0 < d && RunOf(Radix(10), s, i, i + d)
    requires i + d == |s| || s[i + d] != ',' as int
    ensures Src(Bytes, s).Len() == |s|
    ensures Match(Num, Src(Bytes, s), i) == Done(Ok(Span(i, d)), i + d)
    ensures Match(CommaWs(ws), Src(Bytes, s), i + d) == Done(Err(Error.LitString), i + d)
  {
    Many1Run(Radix(10), s, i, i + d);
    CommaWsMiss(ws, s, i + d);
  }

  /**
   * Items and separators where "{11, 42, 8, 99}" has them between the braces: items at
   * 1..3, 5..7, 9..10 and 12..14, separators at 3..5, 7..9 and 10..12, and at 14 a
   * separator that fails without moving.
   */
  predicate FourItemsAt(p: Regex, sep: Regex, src: Src)
  {
    15 <= src.Len() &&
    Match(p, src, 1) == Done(Ok(Span(1, 2)), 3) && Match(sep, src, 3) == Done(Ok(Span(3, 2)), 5) &&
    Match(p, src, 5) == Done(Ok(Span(5, 2)), 7) && Match(sep, src, 7) == Done(Ok(Span(7, 2)), 9) &&
    Match(p, src, 9) == Done(Ok(Span(9, 1)), 10) && Match(sep, src, 10) == Done(Ok(Span(10, 2)), 12) &&
    Match(p, src, 12) == Done(Ok(Span(12, 2)), 14) && Match(sep, src, 14) == Done(Err(Error.LitString), 14)
  }

  /** The first two rounds: two items, each with its separator. */
  lemma {:induction false} FirstTwoItems(re: Regex, p: Regex, sep: Regex, limit: Option<nat>, src: Src)
    requires p < re && sep < re && !(limit.Some? && limit.value < 4) && 9 <= src.Len()
    requires Match(p, src, 1) == Done(Ok(Span(1, 2)), 3) && Match(sep, src, 3) == Done(Ok(Span(3, 2)), 5)
    requires Match(p, src, 5) == Done(Ok(Span(5, 2)), 7) && Match(sep, src, 7) == Done(Ok(Span(7, 2)), 9)
    ensures SepLoop(re, p, sep, true, limit, src, 1, 1, 0, Span(1, 0)) == SepLoop(re, p, sep, true, limit, src, 1, 9, 2, Span(1, 8))
  {
    SepRound(re, p, sep, limit, src, 1, 1, 3, 5, 0);
    SepRound(re, p, sep, limit, src, 1, 5, 7, 9, 1);
  }

  /** The last two rounds: an item with its separator, then an item without one. */
  lemma {:induction false} LastTwoItems(re: Regex, p: Regex, sep: Regex, limit: Option<nat>, src: Src)
    requires p < re && sep < re && !(limit.Some? && limit.value < 4)
    requires FourItemsAt(p, sep, src)
    ensures SepLoop(re, p, sep, true, limit, src, 1, 9, 2, Span(1, 8)) == Stopped(4, 14, Span(1, 13))
  {
    SepRound(re, p, sep, limit, src, 1, 9, 10, 12, 2);
    SepSeparatorFails(re, p, sep, true, limit, src, 1, 12, 3, Span(1, 11));
  }

  /** The character shape of "{11, 42, 8, 99}". */
  predicate BracedNumbers(s: seq<int>)
  {
    |s| == 15 && s[0] == '{' as int && s[14] == '}' as int &&
    s[1] == '1' as int && s[2] == '1' as int && s[3] == ',' as int && s[4] == ' ' as int &&
    s[5] == '4' as int && s[6] == '2' as int && s[7] == ',' as int && s[8] == ' ' as int &&
    s[9] == '8' as int && s[10] == ',' as int && s[11] == ' ' as int &&
    s[12] == '9' as int && s[13] == '9' as int
  }

  /** In "{11, 42, 8, 99}" the digit runs and the whitespace runs are where they are read. */
  lemma {:induction false} BracedNumbersRuns(ws: int -> bool, s: seq<int>)
    requires WhitespaceOnAscii(ws) && BracedNumbers(s)
    ensures RunOf(Radix(10), s, 1, 3) && RunOf(Func(ws), s, 4, 5) && RunOf(Radix(10), s, 5, 7) && RunOf(Func(ws), s, 8, 9)
    ensures RunOf(Radix(10), s, 9, 10) && RunOf(Func(ws), s, 11, 12) && RunOf(Radix(10), s, 12, 14)
  {
  }

  /** On data that reads like "{11, 42, 8, 99}", the items and separators are those. */
  lemma {:induction false} ElevenToNinetyNineOn(ws: int -> bool, s: seq<int>)
    requires WhitespaceOnAscii(ws) && BracedNumbers(s)
    ensures Src(Bytes, s).Len() == |s|
    ensures FourItemsAt(Num, CommaWs(ws), Src(Bytes, s))
  {
    BracedNumbersRuns(ws, s);
    NumAndComma(ws, s, 1, 2, 1);
    NumAndComma(ws, s, 5, 2, 1);
    NumAndComma(ws, s, 9, 1, 1);
    NumNoComma(ws, s, 12, 2);
  }

  /** `Separate` is its separated loop from the entry offset, with no upper bound. */
  lemma {:induction false} SeparateUnfolds(p: Regex, sep: Regex, skip: bool, min: nat, collect: bool, src: Src, off: nat)
    requires off <= src.Len()
    ensures var re := Regex.Separate(p, sep, skip, min, collect);
      Match(re, src, off) == RepFinish(re, SepLoop(re, p, sep, skip, None, src, off, off, 0, Span(off, 0)), off)
  {
  }

  /** `Separate2` is its separated loop from the entry offset, bounded by its maximum. */
  lemma {:induction false} Separate2Unfolds(p: Regex, sep: Regex, skip: bool, m: nat, n: nat, src: Src, off: nat)
    requires off <= src.Len()
    ensures var re := Regex.Separate2(p, sep, skip, m, n);
      Match(re, src, off) == RepFinish(re, SepLoop(re, p, sep, skip, Some(n), src, off, off, 0, Span(off, 0)), off)
  {
  }

  /** `sep` with a minimum of at most four takes the four items and the separators between them. */
  lemma {:induction false} SeparateTakesFour(p: Regex, sep: Regex, min: nat, collect: bool, src: Src)
    requires FourItemsAt(p, sep, src) && min <= 4
    ensures Match(Regex.Separate(p, sep, true, min, collect), src, 1) == Done(Ok(Span(1, 13)), 14)
  {
    var re := Regex.Separate(p, sep, true, min, collect);
    SeparateUnfolds(p, sep, true, min, collect, src, 1);
    FirstTwoItems(re, p, sep, None, src);
    LastTwoItems(re, p, sep, None, src);
    assert Accepts(re, 4);
  }

  /** `sep2` takes them too when four is within its bounds. */
  lemma {:induction false} Separate2TakesFour(p: Regex, sep: Regex, m: nat, n: nat, src: Src)
    requires FourItemsAt(p, sep, src) && m <= 4 <= n
    ensures Match(Regex.Separate2(p, sep, true, m, n), src, 1) == Done(Ok(Span(1, 13)), 14)
  {
    var re := Regex.Separate2(p, sep, true, m, n);
    Separate2Unfolds(p, sep, true, m, n, src, 1);
    FirstTwoItems(re, p, sep, Some(n), src);
    LastTwoItems(re, p, sep, Some(n), src);
    assert Accepts(re, 4);
  }

  /** On "{11, 42, 8, 99}" the list of `sep` from 1 ends before the '}'. */
  lemma {:induction false} NumListOnBraced(ws: int -> bool, s: seq<int>)
    requires WhitespaceOnAscii(ws) && BracedNumbers(s)
    ensures Src(Bytes, s).Len() == |s|
    ensures Match(NumList(ws), Src(Bytes, s), 1) == Done(Ok(Span(1, 13)), 14)
  {
    ElevenToNinetyNineOn(ws, s);
    SeparateTakesFour(Num, CommaWs(ws), 1, false, Src(Bytes, s));
  }

  /** ... and so does the list of `sep2::<_, 0, 8>`. */
  lemma {:induction false} NumList8OnBraced(ws: int -> bool, s: seq<int>)
    requires WhitespaceOnAscii(ws) && BracedNumbers(s)
    ensures Src(Bytes, s).Len() == |s|
    ensures Match(NumList8(ws), Src(Bytes, s), 1) == Done(Ok(Span(1, 13)), 14)
  {
    ElevenToNinetyNineOn(ws, s);
    Separate2TakesFour(Num, CommaWs(ws), 0, 8, Src(Bytes, s));
  }

  /** A list from 1 to 14 between '{' at 0 and '}' at 14 is the whole of the 15 characters. */
  lemma {:induction false} BracedList(list: Regex, src: Src)
    requires 15 <= src.Len() && Match(list, src, 1) == Done(Ok(Span(1, 13)), 14)
    requires Match(Char('{'), src, 0) == Done(Ok(Span(0, 1)), 1) && Match(Char('}'), src, 14) == Done(Ok(Span(14, 1)), 15)
    ensures Match(Enclose(Char('{'), list, Char('}')), src, 0) == Done(Ok(Span(0, 15)), 15)
  {
    Then3All(Char('{'), list, Char('}'), src, 0);
  }

  /** `num.sep(",".suffix(ws)).enclose("{", "}")` on "{11, 42, 8, 99}" gives Span(0, 15). */
  lemma {:induction false} SeparateOnBraces(ws: int -> bool)
    requires WhitespaceOnAscii(ws)
    ensures Match(Enclose(Char('{'), NumList(ws), Char('}')), Src(Bytes, AsciiBytes("{11, 42, 8, 99}")), 0) == Done(Ok(Span(0, 15)), 15)
  {
    var s := AsciiBytes("{11, 42, 8, 99}");
    assert BracedNumbers(s);
    NumListOnBraced(ws, s);
    CharHit('{', s, 0);
    CharHit('}', s, 14);
    BracedList(NumList(ws), Src(Bytes, s));
  }

  /** `num.sep2::<_, 0, 8>(",".suffix(ws)).enclose("{", "}")` on "{11, 42, 8, 99}" gives Span(0, 15). */
  lemma {:induction false} Separate2OnBraces(ws: int -> bool)
    requires WhitespaceOnAscii(ws)
    ensures Match(Enclose(Char('{'), NumList8(ws), Char('}')), Src(Bytes, AsciiBytes("{11, 42, 8, 99}")), 0) == Done(Ok(Span(0, 15)), 15)
  {
    var s := AsciiBytes("{11, 42, 8, 99}");
    assert BracedNumbers(s);
    NumList8OnBraced(ws, s);
    CharHit('{', s, 0);
    CharHit('}', s, 14);
    BracedList(NumList8(ws), Src(Bytes, s));
  }

  // ---------------------------------------------------------------------------------------
  // Then, Prefix and SepOnce

  /** A prefix and a pattern that both succeed: a prefixed pattern takes both, as `Then` does. */
  lemma {:induction false} PrefixBoth(p: Regex, q: Regex, src: Src, off: nat)
    requires off <= src.Len() && Succeeded(Match(p, src, off))
    requires Succeeded(Match(q, src, Match(p, src, off).off))
    ensures Match(Regex.Prefix(p, q), src, off) ==
      Done(Ok(AddAssign(Match(p, src, off).res.value, Match(q, src, Match(p, src, off).off).res.value)),
           Match(q, src, Match(p, src, off).off).off)
  {
    assert Match(Regex.Prefix(p, q), src, off) == ThenMatch(Regex.Prefix(p, q), p, q, src, off);
  }

  /** `sep_once` matches as the three matchers in a row, as `enclose` does. */
  lemma {:induction false} SepOnceIsEnclose(a: Regex, b: Regex, c: Regex, src: Src, off: nat)
    requires off <= src.Len()
    ensures Match(SepOnce(a, b, c), src, off) == Match(Enclose(a, b, c), src, off)
  {
    assert Match(SepOnce(a, b, c), src, off) == Then3Match(SepOnce(a, b, c), a, b, c, src, off);
    assert Match(Enclose(a, b, c), src, off) == Then3Match(Enclose(a, b, c), a, b, c, src, off);
  }

  /** `neu::ascii_alphabetic().many1().enclose("\"", "\"")`. */
  const QuotedWord: Regex := Enclose(Char('"'), Unit(Quantifier.Many1, Ascii(Alphabetic), NullCond()), Char('"'))

  /** `neu::digit(10).many1().prefix(" ")`. */
  const SpacedNum: Regex := Regex.Prefix(Char(' '), Num)

  /** A quote at 0, then letters up to `k`. */
  lemma {:induction false} OpenQuote(s: seq<int>, k: nat)
    requires 0 < |s| && s[0] == '"' as int && 1 < k && RunOf(Ascii(Alphabetic), s, 1, k)
    ensures Src(Bytes, s).Len() == |s|
    ensures Match(Then(Char('"'), Unit(Quantifier.Many1, Ascii(Alphabetic), NullCond())), Src(Bytes, s), 0) == Done(Ok(Span(0, k)), k)
  {
    CharHit('"', s, 0);
    Many1Run(Ascii(Alphabetic), s, 1, k);
    ThenBoth(Char('"'), Unit(Quantifier.Many1, Ascii(Alphabetic), NullCond()), Src(Bytes, s), 0);
  }

  /** A word of letters from 1 up to `k`, between quotes at 0 and at `k`. */
  lemma {:induction false} QuotedWordRun(s: seq<int>, k: nat)
    requires 0 < |s| && s[0] == '"' as int && 1 < k < |s| && RunOf(Ascii(Alphabetic), s, 1, k) && s[k] == '"' as int
    ensures Src(Bytes, s).Len() == |s|
    ensures Match(QuotedWord, Src(Bytes, s), 0) == Done(Ok(Span(0, k + 1)), k + 1)
  {
    var word := Unit(Quantifier.Many1, Ascii(Alphabetic), NullCond());
    OpenQuote(s, k);
    CharHit('"', s, k);
    ThenBoth(Then(Char('"'), word), Char('"'), Src(Bytes, s), 0);
    EncloseIsThen(Char('"'), word, Char('"'), Src(Bytes, s), 0);
  }

  /** A space at `i`, then digits up to `k`. */
  lemma {:induction false} SpacedNumRun(s: seq<int>, i: nat, k: nat)
    requires i < |s| && s[i] == ' ' as int && i + 1 < k && RunOf(Radix(10), s, i + 1, k)
    ensures Src(Bytes, s).Len() == |s|
    ensures Match(SpacedNum, Src(Bytes, s), i) == Done(Ok(Span(i, k - i)), k)
  {
    CharHit(' ', s, i);
    Many1Run(Radix(10), s, i + 1, k);
    PrefixBoth(Char(' '), Num, Src(Bytes, s), i);
  }

  /** In `"Galaxy" 42` the letters and the digits are where they are read. */
  lemma {:induction false} GalaxyRuns(s: seq<int>)
    requires |s| == 11 && s[0] == '"' as int && s[7] == '"' as int && s[8] == ' ' as int
    requires s[1] == 'G' as int && s[2] == 'a' as int && s[3] == 'l' as int && s[4] == 'a' as int && s[5] == 'x' as int && s[6] == 'y' as int
    requires s[9] == '4' as int && s[10] == '2' as int
    ensures RunOf(Ascii(Alphabetic), s, 1, 7) && RunOf(Radix(10), s, 9, 11)
  {
  }

  /** `str.then(int.prefix(" "))` on `"Galaxy" 42` gives Span(0, 11). */
  lemma {:induction false} ThenOnGalaxy()
    ensures Match(Then(QuotedWord, SpacedNum), Src(Bytes, AsciiBytes("\"Galaxy\" 42")), 0) == Done(Ok(Span(0, 11)), 11)
  {
    var s := AsciiBytes("\"Galaxy\" 42");
    assert |s| == 11 && s[0] == '"' as int && s[7] == '"' as int && s[8] == ' ' as int;
    assert s[1] == 'G' as int && s[2] == 'a' as int && s[3] == 'l' as int && s[4] == 'a' as int && s[5] == 'x' as int && s[6] == 'y' as int;
    assert s[9] == '4' as int && s[10] == '2' as int;
    GalaxyRuns(s);
    QuotedWordRun(s, 7);
    SpacedNumRun(s, 8, 11);
    ThenBoth(QuotedWord, SpacedNum, Src(Bytes, s), 0);
  }

  /** `'='.not().many1()`. */
  const NotEq: Regex := Unit(Quantifier.Many1, Neu.Not(Equal('=' as int)), NullCond())

  /** Something other than '=' up to `k`, then '='. */
  lemma {:induction false} KeyThenEq(s: seq<int>, k: nat)
    requires 0 < k < |s| && RunOf(Neu.Not(Equal('=' as int)), s, 0, k) && s[k] == '=' as int
    ensures Src(Bytes, s).Len() == |s|
    ensures Match(Then(NotEq, Char('=')), Src(Bytes, s), 0) == Done(Ok(Span(0, k + 1)), k + 1)
  {
    Many1Run(Neu.Not(Equal('=' as int)), s, 0, k);
    CharHit('=', s, k);
    ThenBoth(NotEq, Char('='), Src(Bytes, s), 0);
  }

  /** Something other than '=' up to `k`, '=' at `k`, then something other than '=' to the end: all of it. */
  lemma {:induction false} KeyValueThen(s: seq<int>, k: nat)
    requires 0 < k && k + 1 < |s| && RunOf(Neu.Not(Equal('=' as int)), s, 0, k) && s[k] == '=' as int
    requires RunOf(Neu.Not(Equal('=' as int)), s, k + 1, |s|)
    ensures Src(Bytes, s).Len() == |s|
    ensures Match(Then(Then(NotEq, Char('=')), NotEq), Src(Bytes, s), 0) == Done(Ok(Span(0, |s|)), |s|)
  {
    KeyThenEq(s, k);
    Many1Run(Neu.Not(Equal('=' as int)), s, k + 1, |s|);
    ThenBoth(Then(NotEq, Char('=')), NotEq, Src(Bytes, s), 0);
  }

  /** ... and `sep_once` takes the same. */
  lemma {:induction false} KeyValueRun(s: seq<int>, k: nat)
    requires 0 < k && k + 1 < |s| && RunOf(Neu.Not(Equal('=' as int)), s, 0, k) && s[k] == '=' as int
    requires RunOf(Neu.Not(Equal('=' as int)), s, k + 1, |s|)
    ensures Src(Bytes, s).Len() == |s|
    ensures Match(SepOnce(NotEq, Char('='), NotEq), Src(Bytes, s), 0) == Done(Ok(Span(0, |s|)), |s|)
  {
    KeyValueThen(s, k);
    EncloseIsThen(NotEq, Char('='), NotEq, Src(Bytes, s), 0);
    SepOnceIsEnclose(NotEq, Char('='), NotEq, Src(Bytes, s), 0);
  }

  /** In "lang=rust" no unit but the fifth is '='. */
  lemma {:induction false} LangRustRuns(s: seq<int>)
    requires |s| == 9 && s[4] == '=' as int
    requires s[0] == 'l' as int && s[1] == 'a' as int && s[2] == 'n' as int && s[3] == 'g' as int
    requires s[5] == 'r' as int && s[6] == 'u' as int && s[7] == 's' as int && s[8] == 't' as int
    ensures RunOf(Neu.Not(Equal('=' as int)), s, 0, 4) && RunOf(Neu.Not(Equal('=' as int)), s, 5, 9)
  {
    forall j | 0 <= j < |s| ensures Matches(Neu.Not(Equal('=' as int)), s[j]) <==> s[j] != '=' as int {
      Connectives(Equal('=' as int), Equal('=' as int), s[j]);
    }
  }

  /** `key.sep_once("=", val)` on "lang=rust" gives Span(0, 9). */
  lemma {:induction false} SepOnceOnLangRust()
    ensures Match(SepOnce(NotEq, Char('='), NotEq), Src(Bytes, AsciiBytes("lang=rust")), 0) == Done(Ok(Span(0, 9)), 9)
  {
    var s := AsciiBytes("lang=rust");
    assert |s| == 9 && s[4] == '=' as int;
    assert s[0] == 'l' as int && s[1] == 'a' as int && s[2] == 'n' as int && s[3] == 'g' as int;
    assert s[5] == 'r' as int && s[6] == 'u' as int && s[7] == 's' as int && s[8] == 't' as int;
    LangRustRuns(s);
    KeyValueRun(s, 4);
  }

  // ---------------------------------------------------------------------------------------
  // Array, Slice and Vector

  /** `["a", "b", "c"]` as the alternatives of `regex::array`, `regex::slice` or `regex::vector`. */
  const Abc: seq<Regex> := [Char('a'), Char('b'), Char('c')]

  /** On 'a' the first alternative wins at once: one unit. */
  lemma {:induction false} AbcOnA(kind: ChoiceKind, s: seq<int>)
    requires 0 < |s| && s[0] == 'a' as int
    ensures Src(Bytes, s).Len() == |s|
    ensures Match(Choice(kind, Abc), Src(Bytes, s), 0) == Done(Ok(Span(0, 1)), 1)
  {
    CharHit('a', s, 0);
    ChoiceFirstSuccess(kind, Abc, Src(Bytes, s), 0, 0);
  }

  /** On anything else all three fail, and so does the choice, with its own error and the cursor back at 0. */
  lemma {:induction false} AbcOnOther(kind: ChoiceKind, s: seq<int>)
    requires |s| == 0 || (s[0] != 'a' as int && s[0] != 'b' as int && s[0] != 'c' as int)
    ensures Src(Bytes, s).Len() == |s|
    ensures Match(Choice(kind, Abc), Src(Bytes, s), 0) == Done(Err(ChoiceError(kind)), 0)
  {
    CharAt('a', s, 0);
    CharAt('b', s, 0);
    CharAt('c', s, 0);
    assert forall j :: 0 <= j < |Abc| ==> Failed(Match(Abc[j], Src(Bytes, s), 0));
    ChoiceAllFail(kind, Abc, Src(Bytes, s), 0);
  }

  /** `regex::array(["a", "b", "c"])` on "abc" succeeds and leaves the cursor at 1 ... */
  lemma {:induction false} ArrayOnAbc()
    ensures Match(Choice(ArrayChoice, Abc), Src(Bytes, AsciiBytes("abc")), 0) == Done(Ok(Span(0, 1)), 1)
  {
    var s := AsciiBytes("abc");
    assert s[0] == 'a' as int;
    AbcOnA(ArrayChoice, s);
  }

  /** ... and on "xyz" fails with the cursor at 0. */
  lemma {:induction false} ArrayOnXyz()
    ensures Match(Choice(ArrayChoice, Abc), Src(Bytes, AsciiBytes("xyz")), 0) == Done(Err(Error.Array), 0)
  {
    var s := AsciiBytes("xyz");
    assert s[0] == 'x' as int;
    AbcOnOther(ArrayChoice, s);
  }

  /** `regex::slice(&["a", "b", "c"])` on "abc" gives Span(0, 1). */
  lemma {:induction false} SliceOnAbc()
    ensures Match(Choice(SliceChoice, Abc), Src(Bytes, AsciiBytes("abc")), 0) == Done(Ok(Span(0, 1)), 1)
  {
    var s := AsciiBytes("abc");
    assert s[0] == 'a' as int;
    AbcOnA(SliceChoice, s);
  }

  /** The alternatives of the `pair_slice` example: `digit(10).many1()`, `word().many1()`, `consume_all()`. */
  const NumWordOther: seq<Regex> := [Num, Name, ConsumeAll]

  /** On "&ptr" the first two fail, '&' being neither a digit nor a word character, and the last takes all. */
  lemma {:induction false} NumWordOtherOnPtr(s: seq<int>)
    requires s == AsciiBytes("&ptr")
    ensures Src(Bytes, s).Len() == |s| == 4
    ensures Failed(Match(NumWordOther[0], Src(Bytes, s), 0)) && Failed(Match(NumWordOther[1], Src(Bytes, s), 0))
    ensures Match(NumWordOther[2], Src(Bytes, s), 0) == Done(Ok(Span(0, 4)), 4)
  {
    assert s[0] == '&' as int;
    Many1Run(Radix(10), s, 0, 0);
    Many1Run(Word, s, 0, 0);
  }

  /** Three alternatives of which only the last succeeds: `PairSlice` gives its outcome ... */
  lemma {:induction false} PairSliceLast(a: Regex, b: Regex, c: Regex, src: Src, off: nat)
    requires off <= src.Len() && Failed(Match(a, src, off)) && Failed(Match(b, src, off)) && !Failed(Match(c, src, off))
    ensures Match(Regex.PairSlice([a, b, c]), src, off) == Match(c, src, off)
  {
    var alts := [a, b, c];
    assert alts[0] == a && alts[1] == b && alts[2] == c;
    assert AllFail(alts, src, off, 0, 2);
    ChoiceLoopFirst(Regex.PairSlice(alts), alts, Error.PairSlice, src, off, 0, 2);
  }

  /** ... and so does the loop as written, whose missing `break` matters only after a success. */
  lemma {:induction false} PairSliceLastAsWritten(a: Regex, b: Regex, c: Regex, src: Src, off: nat, sp: Span, o: nat)
    requires off <= src.Len() && Failed(Match(a, src, off)) && Failed(Match(b, src, off)) && Match(c, src, off) == Done(Ok(sp), o)
    ensures AsWritten.PairSliceAsWritten([a, b, c], src, off) == Done(Ok(sp), o)
  {
    var alts := [a, b, c];
    assert alts[0] == a && alts[1] == b && alts[2] == c;
    assert AsWritten.PairSliceLoopAsWritten(alts, src, off, off, 0, Err(Error.PairSlice))
        == AsWritten.PairSliceLoopAsWritten(alts, src, off, off, 1, Err(Error.PairSlice));
    assert AsWritten.PairSliceLoopAsWritten(alts, src, off, off, 1, Err(Error.PairSlice))
        == AsWritten.PairSliceLoopAsWritten(alts, src, off, off, 2, Err(Error.PairSlice));
    assert AsWritten.PairSliceLoopAsWritten(alts, src, off, off, 2, Err(Error.PairSlice))
        == AsWritten.PairSliceLoopAsWritten(alts, src, off, o, 3, Ok(sp));
  }

  /** `regex::pair_slice(&pairs)` on "&ptr" gives Span(0, 4): the first success is the last alternative. */
  lemma {:induction false} PairSliceOnPtr()
    ensures Match(Regex.PairSlice(NumWordOther), Src(Bytes, AsciiBytes("&ptr")), 0) == Done(Ok(Span(0, 4)), 4)
  {
    NumWordOtherOnPtr(AsciiBytes("&ptr"));
    PairSliceLast(Num, Name, ConsumeAll, Src(Bytes, AsciiBytes("&ptr")), 0);
  }

  /** Since only that one succeeds, the loop as written agrees there. */
  lemma {:induction false} PairSliceAsWrittenOnPtr()
    ensures AsWritten.PairSliceAsWritten(NumWordOther, Src(Bytes, AsciiBytes("&ptr")), 0) == Done(Ok(Span(0, 4)), 4)
  {
    NumWordOtherOnPtr(AsciiBytes("&ptr"));
    PairSliceLastAsWritten(Num, Name, ConsumeAll, Src(Bytes, AsciiBytes("&ptr")), 0, Span(0, 4), 4);
  }

  /** `regex::vector(["for", "while", "repeat"])`. */
  const Keywords: seq<Regex> := [Lit(AsciiBytes("for"), true), Lit(AsciiBytes("while"), true), Lit(AsciiBytes("repeat"), true)]

  /** On data that starts with "while" the first keyword fails at its first byte and the second takes five. */
  lemma {:induction false} KeywordsOnWhile(s: seq<int>)
    requires 5 <= |s| && s[..5] == AsciiBytes("while")
    ensures Src(Bytes, s).Len() == |s|
    ensures Failed(Match(Keywords[0], Src(Bytes, s), 0)) && Match(Keywords[1], Src(Bytes, s), 0) == Done(Ok(Span(0, 5)), 5)
  {
    assert s[0] == 'w' as int && AsciiBytes("for")[0] == 'f' as int;
    assert s[0..5] == AsciiBytes("while");
    LitMiss(AsciiBytes("for"), true, s, 0, 0);
    LitHit(AsciiBytes("while"), true, s, 0);
  }

  /** On data that starts with neither 'f' nor 'w' the first two keywords fail at once. */
  lemma {:induction false} KeywordsNotForWhile(s: seq<int>)
    requires 0 < |s| && s[0] != 'f' as int && s[0] != 'w' as int
    ensures Src(Bytes, s).Len() == |s|
    ensures Failed(Match(Keywords[0], Src(Bytes, s), 0)) && Failed(Match(Keywords[1], Src(Bytes, s), 0))
  {
    assert AsciiBytes("for")[0] == 'f' as int && AsciiBytes("while")[0] == 'w' as int;
    LitMiss(AsciiBytes("for"), true, s, 0, 0);
    LitMiss(AsciiBytes("while"), true, s, 0, 0);
  }

  /** On data that starts with "repeat" the first two fail at their first byte and the third takes six. */
  lemma {:induction false} KeywordsOnRepeat(s: seq<int>)
    requires 6 <= |s| && s[..6] == AsciiBytes("repeat")
    ensures Src(Bytes, s).Len() == |s|
    ensures Failed(Match(Keywords[0], Src(Bytes, s), 0)) && Failed(Match(Keywords[1], Src(Bytes, s), 0))
    ensures Match(Keywords[2], Src(Bytes, s), 0) == Done(Ok(Span(0, 6)), 6)
  {
    assert s[0] == 'r' as int;
    KeywordsNotForWhile(s);
    assert s[0..6] == AsciiBytes("repeat");
    LitHit(AsciiBytes("repeat"), true, s, 0);
  }

  /** `keywords` on "while" gives Span(0, 5), built with `vector` or with `pair_vector` ... */
  lemma {:induction false} VectorOnWhile(kind: ChoiceKind)
    ensures Match(Choice(kind, Keywords), Src(Bytes, AsciiBytes("while")), 0) == Done(Ok(Span(0, 5)), 5)
  {
    var s := AsciiBytes("while");
    assert s[..5] == AsciiBytes("while");
    KeywordsOnWhile(s);
    ChoiceFirstSuccess(kind, Keywords, Src(Bytes, s), 0, 1);
  }

  /** ... and on "repeat" Span(0, 6). */
  lemma {:induction false} VectorOnRepeat(kind: ChoiceKind)
    ensures Match(Choice(kind, Keywords), Src(Bytes, AsciiBytes("repeat")), 0) == Done(Ok(Span(0, 6)), 6)
  {
    var s := AsciiBytes("repeat");
    assert s[..6] == AsciiBytes("repeat");
    KeywordsOnRepeat(s);
    ChoiceFirstSuccess(kind, Keywords, Src(Bytes, s), 0, 2);
  }

  // ---------------------------------------------------------------------------------------
  // IfThen

  /** Two items a..b and c..d with a separator b..c between them, and a separator that fails in place at d. */
  predicate TwoItemsAt(p: Regex, sep: Regex, src: Src, a: nat, b: nat, c: nat, d: nat)
  {
    a <= b <= c <= d <= src.Len() && a < c &&
    Match(p, src, a) == Done(Ok(Span(a, b - a)), b) && Match(sep, src, b) == Done(Ok(Span(b, c - b)), c) &&
    Match(p, src, c) == Done(Ok(Span(c, d - c)), d) && Failed(Match(sep, src, d)) && Match(sep, src, d).off == d
  }

  /** Over two such items a skipping separated loop counts two more and ends at d. */
  lemma {:induction false} TwoItems(re: Regex, p: Regex, sep: Regex, limit: Option<nat>, src: Src, off0: nat, a: nat, b: nat, c: nat, d: nat, cnt: nat)
    requires p < re && sep < re && !(limit.Some? && limit.value < cnt + 2)
    requires off0 <= a <= b <= c <= d <= src.Len() && a < c
    requires Match(p, src, a) == Done(Ok(Span(a, b - a)), b) && Match(sep, src, b) == Done(Ok(Span(b, c - b)), c)
    requires Match(p, src, c) == Done(Ok(Span(c, d - c)), d) && Failed(Match(sep, src, d)) && Match(sep, src, d).off == d
    ensures SepLoop(re, p, sep, true, limit, src, off0, a, cnt, Span(off0, a - off0)) == Stopped(cnt + 2, d, Span(off0, d - off0))
  {
    SepRound(re, p, sep, limit, src, off0, a, b, c, cnt);
    SepSeparatorFails(re, p, sep, true, limit, src, off0, c, cnt + 1, Span(off0, c - off0));
  }

  /** `sep` with a minimum of at most two takes both items. */
  lemma {:induction false} SeparateTakesTwo(p: Regex, sep: Regex, min: nat, collect: bool, src: Src, a: nat, b: nat, c: nat, d: nat)
    requires TwoItemsAt(p, sep, src, a, b, c, d) && min <= 2
    ensures Match(Regex.Separate(p, sep, true, min, collect), src, a) == Done(Ok(Span(a, d - a)), d)
  {
    var re := Regex.Separate(p, sep, true, min, collect);
    SeparateUnfolds(p, sep, true, min, collect, src, a);
    TwoItems(re, p, sep, None, src, a, a, b, c, d, 0);
    assert Accepts(re, 2);
  }

  /** ... and with a minimum of at most three, an item a..b and a separator b..c in front of them. */
  lemma {:induction false} SeparateTakesThree(p: Regex, sep: Regex, min: nat, collect: bool, src: Src, a: nat, b: nat, c: nat, d: nat, e: nat, f: nat)
    requires a <= b <= c <= src.Len() && a < c && Match(p, src, a) == Done(Ok(Span(a, b - a)), b) && Match(sep, src, b) == Done(Ok(Span(b, c - b)), c)
    requires TwoItemsAt(p, sep, src, c, d, e, f) && min <= 3
    ensures Match(Regex.Separate(p, sep, true, min, collect), src, a) == Done(Ok(Span(a, f - a)), f)
  {
    var re := Regex.Separate(p, sep, true, min, collect);
    SeparateUnfolds(p, sep, true, min, collect, src, a);
    SepRound(re, p, sep, None, src, a, a, b, c, 0);
    TwoItems(re, p, sep, None, src, a, c, d, e, f, 1);
    assert Accepts(re, 3);
  }

  /** `neu::word().many1()`. */
  const Name: Regex := Unit(Quantifier.Many1, Word, NullCond())

  /** `name.sep(", ")`. */
  const Names: Regex := Regex.Separate(Name, Lit(AsciiBytes(", "), true), true, 1, false)

  /** `name.sep(", ").enclose("<", ">")`. */
  const Params: Regex := Enclose(Char('<'), Names, Char('>'))

  /** `name.if_then(regex::assert("<", true), paras)`. */
  const Generic: Regex := IfThen(Name, Regex.Assert(Char('<'), true), Params)

  /** On "Vec" the name takes all three units and the test finds no '<': the name alone. */
  lemma {:induction false} IfThenOnVec()
    ensures Match(Generic, Src(Bytes, AsciiBytes("Vec")), 0) == Done(Ok(Span(0, 3)), 3)
  {
    var s := AsciiBytes("Vec");
    var src := Src(Bytes, s);
    assert |s| == 3 && s[0] == 'V' as int && s[1] == 'e' as int && s[2] == 'c' as int;
    Many1Run(Word, s, 0, 3);
    CharAt('<', s, 3);
    AssertZeroWidth(Char('<'), true, src, 3);
    IfThenTestFails(Name, Regex.Assert(Char('<'), true), Params, src, 0);
  }

  /** The character shape of "Vec<A, B>". */
  predicate VecOfAB(s: seq<int>)
  {
    |s| == 9 && s[0] == 'V' as int && s[1] == 'e' as int && s[2] == 'c' as int && s[3] == '<' as int &&
    s[4] == 'A' as int && s[5] == ',' as int && s[6] == ' ' as int && s[7] == 'B' as int && s[8] == '>' as int
  }

  /** In "Vec<A, B>" the names are "Vec", "A" and "B". */
  lemma {:induction false} VecOfABRuns(s: seq<int>)
    requires VecOfAB(s)
    ensures RunOf(Word, s, 0, 3) && RunOf(Word, s, 4, 5) && RunOf(Word, s, 7, 8)
  {
  }

  /** In "Vec<A, B>" the first parameter name and the separator after it. */
  lemma {:induction false} VecOfABFirst(s: seq<int>)
    requires VecOfAB(s)
    ensures Src(Bytes, s).Len() == |s|
    ensures Match(Name, Src(Bytes, s), 4) == Done(Ok(Span(4, 1)), 5)
    ensures Match(Lit(AsciiBytes(", "), true), Src(Bytes, s), 5) == Done(Ok(Span(5, 2)), 7)
  {
    Many1Run(Word, s, 4, 5);
    assert s[5..7] == AsciiBytes(", ");
    LitHit(AsciiBytes(", "), true, s, 5);
  }

  /** In "Vec<A, B>" the second parameter name, and no separator after it. */
  lemma {:induction false} VecOfABSecond(s: seq<int>)
    requires VecOfAB(s)
    ensures Src(Bytes, s).Len() == |s|
    ensures Match(Name, Src(Bytes, s), 7) == Done(Ok(Span(7, 1)), 8)
    ensures Match(Lit(AsciiBytes(", "), true), Src(Bytes, s), 8) == Done(Err(Error.LitString), 8)
  {
    Many1Run(Word, s, 7, 8);
    assert AsciiBytes(", ")[0] == ',' as int;
    LitMiss(AsciiBytes(", "), true, s, 8, 0);
  }

  /** In "Vec<A, B>" the parameter names and the separator between them. */
  lemma {:induction false} VecOfABItems(s: seq<int>)
    requires VecOfAB(s)
    ensures Src(Bytes, s).Len() == |s|
    ensures TwoItemsAt(Name, Lit(AsciiBytes(", "), true), Src(Bytes, s), 4, 5, 7, 8)
  {
    VecOfABFirst(s);
    VecOfABSecond(s);
  }

  /** In "Vec<A, B>" the names from 4 are "A" and "B", up to the '>'. */
  lemma {:induction false} VecOfABNames(s: seq<int>)
    requires VecOfAB(s)
    ensures Src(Bytes, s).Len() == |s|
    ensures Match(Names, Src(Bytes, s), 4) == Done(Ok(Span(4, 4)), 8)
  {
    VecOfABItems(s);
    SeparateTakesTwo(Name, Lit(AsciiBytes(", "), true), 1, false, Src(Bytes, s), 4, 5, 7, 8);
  }

  /** In "Vec<A, B>" the parameters from 3 are "<A, B>". */
  lemma {:induction false} VecOfABParams(s: seq<int>)
    requires VecOfAB(s)
    ensures Src(Bytes, s).Len() == |s|
    ensures Match(Params, Src(Bytes, s), 3) == Done(Ok(Span(3, 6)), 9)
  {
    var src := Src(Bytes, s);
    VecOfABNames(s);
    CharHit('<', s, 3);
    CharHit('>', s, 8);
    Then3All(Char('<'), Names, Char('>'), src, 3);
  }

  /** On "Vec<A, B>" the test finds '<' and the parameters follow: all nine units. */
  lemma {:induction false} IfThenOnVecOfAB()
    ensures Match(Generic, Src(Bytes, AsciiBytes("Vec<A, B>")), 0) == Done(Ok(Span(0, 9)), 9)
  {
    var s := AsciiBytes("Vec<A, B>");
    var src := Src(Bytes, s);
    assert VecOfAB(s);
    VecOfABRuns(s);
    Many1Run(Word, s, 0, 3);
    CharHit('<', s, 3);
    AssertZeroWidth(Char('<'), true, src, 3);
    VecOfABParams(s);
    IfThenAll(Name, Regex.Assert(Char('<'), true), Params, src, 0);
  }

  // ---------------------------------------------------------------------------------------
  // Suffix and an at-least-two list

  /** What `char::is_alphabetic` answers on ASCII: the letters. */
  predicate AlphabeticOnAscii(alpha: int -> bool)
  {
    forall x :: 0 <= x < 0x80 ==> (alpha(x) <==> IsAlpha(x))
  }

  /** `"https".or("http".or("ftp"))`. */
  const Protocol: Regex := Regex.Or(Lit(AsciiBytes("https"), true), Regex.Or(Lit(AsciiBytes("http"), true), Lit(AsciiBytes("ftp"), true)))

  /** `protocol.suffix("://")`. */
  const ProtocolSep: Regex := Suffix(Protocol, Lit(AsciiBytes("://"), true))

  /** `neu::alphabetic().many1()`. */
  function Label(alpha: int -> bool): Regex
  {
    Unit(Quantifier.Many1, Func(alpha), NullCond())
  }

  /** `domain.sep(".").at_least(2)`. */
  function Domain(alpha: int -> bool): Regex
  {
    Regex.Separate(Label(alpha), Char('.'), true, 2, false)
  }

  /** On data that starts with "ftp" the inner choice: "http" fails at its first byte, "ftp" takes three. */
  lemma {:induction false} HttpOrFtpOnFtp(s: seq<int>)
    requires 3 <= |s| && s[..3] == AsciiBytes("ftp")
    ensures Src(Bytes, s).Len() == |s|
    ensures Match(Regex.Or(Lit(AsciiBytes("http"), true), Lit(AsciiBytes("ftp"), true)), Src(Bytes, s), 0) == Done(Ok(Span(0, 3)), 3)
  {
    assert s[0] == 'f' as int && AsciiBytes("http")[0] == 'h' as int;
    assert s[0..3] == AsciiBytes("ftp");
    LitMiss(AsciiBytes("http"), true, s, 0, 0);
    LitHit(AsciiBytes("ftp"), true, s, 0);
    OrUnfolds(Lit(AsciiBytes("http"), true), Lit(AsciiBytes("ftp"), true), Src(Bytes, s), 0);
  }

  /** ... and the whole protocol choice: "https" fails at its first byte too. */
  lemma {:induction false} ProtocolOnFtp(s: seq<int>)
    requires 3 <= |s| && s[..3] == AsciiBytes("ftp")
    ensures Src(Bytes, s).Len() == |s|
    ensures Match(Protocol, Src(Bytes, s), 0) == Done(Ok(Span(0, 3)), 3)
  {
    assert s[0] == 'f' as int && AsciiBytes("https")[0] == 'h' as int;
    LitMiss(AsciiBytes("https"), true, s, 0, 0);
    HttpOrFtpOnFtp(s);
    OrUnfolds(Lit(AsciiBytes("https"), true), Regex.Or(Lit(AsciiBytes("http"), true), Lit(AsciiBytes("ftp"), true)), Src(Bytes, s), 0);
  }

  /** On data that starts with "ftp://" the protocol and its suffix take six. */
  lemma {:induction false} ProtocolSepOnFtp(s: seq<int>)
    requires 6 <= |s| && s[..6] == AsciiBytes("ftp://")
    ensures Src(Bytes, s).Len() == |s|
    ensures Match(ProtocolSep, Src(Bytes, s), 0) == Done(Ok(Span(0, 6)), 6)
  {
    assert s[..3] == AsciiBytes("ftp");
    assert s[3..6] == AsciiBytes("://");
    ProtocolOnFtp(s);
    LitHit(AsciiBytes("://"), true, s, 3);
    ThenBoth(Protocol, Lit(AsciiBytes("://"), true), Src(Bytes, s), 0);
    SuffixIsThen(Protocol, Lit(AsciiBytes("://"), true), Src(Bytes, s), 0);
  }

  /** The character shape of "ftp://ftp.kernel.org" after the protocol. */
  predicate KernelOrg(s: seq<int>)
  {
    |s| == 20 &&
    s[6] == 'f' as int && s[7] == 't' as int && s[8] == 'p' as int && s[9] == '.' as int &&
    s[10] == 'k' as int && s[11] == 'e' as int && s[12] == 'r' as int && s[13] == 'n' as int && s[14] == 'e' as int && s[15] == 'l' as int &&
    s[16] == '.' as int && s[17] == 'o' as int && s[18] == 'r' as int && s[19] == 'g' as int
  }

  /** In "ftp://ftp.kernel.org" the labels are "ftp", "kernel" and "org". */
  lemma {:induction false} KernelOrgRuns(alpha: int -> bool, s: seq<int>)
    requires AlphabeticOnAscii(alpha) && KernelOrg(s)
    ensures RunOf(Func(alpha), s, 6, 9) && RunOf(Func(alpha), s, 10, 16) && RunOf(Func(alpha), s, 17, 20)
  {
  }

  /** A label a..b and the '.' after it. */
  lemma {:induction false} LabelAndDot(alpha: int -> bool, s: seq<int>, a: nat, b: nat)
    requires a < b < |s| && RunOf(Func(alpha), s, a, b) && s[b] == '.' as int
    ensures Src(Bytes, s).Len() == |s|
    ensures Match(Label(alpha), Src(Bytes, s), a) == Done(Ok(Span(a, b - a)), b)
    ensures Match(Char('.'), Src(Bytes, s), b) == Done(Ok(Span(b, 1)), b + 1)
  {
    Many1Run(Func(alpha), s, a, b);
    CharHit('.', s, b);
  }

  /** A label a..b that ends the data: no '.' after it. */
  lemma {:induction false} LabelAtEnd(alpha: int -> bool, s: seq<int>, a: nat)
    requires a < |s| && RunOf(Func(alpha), s, a, |s|)
    ensures Src(Bytes, s).Len() == |s|
    ensures Match(Label(alpha), Src(Bytes, s), a) == Done(Ok(Span(a, |s| - a)), |s|)
    ensures Match(Char('.'), Src(Bytes, s), |s|) == Done(Err(Error.LitString), |s|)
  {
    Many1Run(Func(alpha), s, a, |s|);
    CharAt('.', s, |s|);
  }

  /** In "ftp://ftp.kernel.org" the last two labels and the '.' between them. */
  lemma {:induction false} KernelOrgLastTwo(alpha: int -> bool, s: seq<int>)
    requires AlphabeticOnAscii(alpha) && KernelOrg(s)
    ensures Src(Bytes, s).Len() == |s|
    ensures TwoItemsAt(Label(alpha), Char('.'), Src(Bytes, s), 10, 16, 17, 20)
  {
    KernelOrgRuns(alpha, s);
    LabelAndDot(alpha, s, 10, 16);
    LabelAtEnd(alpha, s, 17);
  }

  /** In "ftp://ftp.kernel.org" the first label and the '.' after it. */
  lemma {:induction false} KernelOrgFirst(alpha: int -> bool, s: seq<int>)
    requires AlphabeticOnAscii(alpha) && KernelOrg(s)
    ensures Src(Bytes, s).Len() == |s| == 20
    ensures Match(Label(alpha), Src(Bytes, s), 6) == Done(Ok(Span(6, 3)), 9)
    ensures Match(Char('.'), Src(Bytes, s), 9) == Done(Ok(Span(9, 1)), 10)
  {
    KernelOrgRuns(alpha, s);
    LabelAndDot(alpha, s, 6, 9);
  }

  /** The domain from 6 takes the three labels and the dots between them, to the end. */
  lemma {:induction false} DomainOnKernelOrg(alpha: int -> bool, s: seq<int>)
    requires AlphabeticOnAscii(alpha) && KernelOrg(s)
    ensures Src(Bytes, s).Len() == |s|
    ensures Match(Domain(alpha), Src(Bytes, s), 6) == Done(Ok(Span(6, 14)), 20)
  {
    KernelOrgFirst(alpha, s);
    KernelOrgLastTwo(alpha, s);
    SeparateTakesThree(Label(alpha), Char('.'), 2, false, Src(Bytes, s), 6, 9, 10, 16, 17, 20);
  }

  /** `protocol.then(domain)` on "ftp://ftp.kernel.org" takes all of it. */
  lemma {:induction false} AffixOnKernelOrg(alpha: int -> bool)
    requires AlphabeticOnAscii(alpha)
    ensures Match(Then(ProtocolSep, Domain(alpha)), Src(Bytes, AsciiBytes("ftp://ftp.kernel.org")), 0) == Done(Ok(Span(0, 20)), 20)
  {
    var s := AsciiBytes("ftp://ftp.kernel.org");
    assert s[..6] == AsciiBytes("ftp://");
    assert KernelOrg(s);
    ProtocolSepOnFtp(s);
    DomainOnKernelOrg(alpha, s);
    ThenBoth(ProtocolSep, Domain(alpha), Src(Bytes, s), 0);
  }
}
