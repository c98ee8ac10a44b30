/**
 * Unit predicates (`Neu`): tests on one unit (a byte or a code point). Only `Prefix`
 * carries state, so evaluating a predicate returns its next state along with the verdict.
 */
module Neus {
  import opened Ranges

  /** The ASCII classes, each matching what the same-named `is_ascii_*` test accepts. */
  datatype AsciiClass =
    | AsciiAny | Alphabetic | Alphanumeric | Control | Digit | Graphic | HexDigit
    | Lowercase | Punctuation | Uppercase | WhiteSpace

  datatype Neu =
    | Equal(v: int)                 // a char or u8 literal
    | Among(vs: seq<int>)           // an array, slice or Vec used as a set
    | InRange(r: CRange)            // every Range* form and CRange
    | And(left: Neu, right: Neu)
    | Or(left: Neu, right: Neu)
    | Not(unit: Neu)
    | Always
    | Never
    | Wild
    | Word
    | Radix(radix: nat)             // `Digit(radix)`
    | Ascii(cls: AsciiClass)
      /** A closure, or one of the classes decided by Unicode tables. */
    | Func(test: int -> bool)
      /** `Prefix`: `count` more units must match `prefix`; after that `unit` decides. */
    | Prefix(prefix: Neu, count: nat, value: bool, unit: Neu)

  predicate IsAlpha(x: int)
  {
    'A' as int <= x <= 'Z' as int || 'a' as int <= x <= 'z' as int
  }

  predicate IsDigit(x: int)
  {
    '0' as int <= x <= '9' as int
  }

  function AsciiMatch(c: AsciiClass, x: int): bool
  {
    match c
    case AsciiAny => 0 <= x < 0x80
    case Alphabetic => IsAlpha(x)
    case Alphanumeric => IsAlpha(x) || IsDigit(x)
    case Control => 0 <= x <= 0x1F || x == 0x7F
    case Digit => IsDigit(x)
    case Graphic => 0x21 <= x <= 0x7E
    case HexDigit => IsDigit(x) || 'a' as int <= x <= 'f' as int || 'A' as int <= x <= 'F' as int
    case Lowercase => 'a' as int <= x <= 'z' as int
    case Punctuation => 0x21 <= x <= 0x7E && !IsAlpha(x) && !IsDigit(x)
    case Uppercase => 'A' as int <= x <= 'Z' as int
    case WhiteSpace => x == 0x20 || x == 0x09 || x == 0x0A || x == 0x0C || x == 0x0D
  }

  /** The value of a digit character in bases up to 36 (letters of either case count from 10). */
  function DigitValue(x: int): int
  {
    if '0' as int <= x <= '9' as int then x - '0' as int
    else if 'a' as int <= x <= 'z' as int then x - 'a' as int + 10
    else if 'A' as int <= x <= 'Z' as int then x - 'A' as int + 10
    else 36
  }

  /** `Word`: a-z, A-Z, 0-9 and '_', for chars and bytes alike. */
  predicate IsWord(x: int)
  {
    'a' as int <= x <= 'z' as int || 'A' as int <= x <= 'Z' as int
    || '0' as int <= x <= '9' as int || x == '_' as int
  }

  /** The newline, the only unit `Wild` refuses. */
  const NEWLINE: int := 0x0A

  /**
   * `is_match` on one unit: the verdict and the predicate's next state. And and Or
   * short-circuit, so the right side is consulted (and its state moves) only when needed.
   */
  function Step(n: Neu, x: int): (r: (bool, Neu))
    ensures r.1.Prefix? <==> n.Prefix?
    ensures n.Prefix? ==> r.1.prefix.Prefix? == n.prefix.Prefix? && r.1.unit.Prefix? == n.unit.Prefix?
  {
    match n
    case Equal(v) => (x == v, n)
    case Among(vs) => (x in vs, n)
    case InRange(r) => (Contains(r, x), n)
    case And(l, r) =>
      var (a, l') := Step(l, x);
      if !a then (false, And(l', r))
      else var (b, r') := Step(r, x); (b, And(l', r'))
    case Or(l, r) =>
      var (a, l') := Step(l, x);
      if a then (true, Or(l', r))
      else var (b, r') := Step(r, x); (b, Or(l', r'))
    case Not(u) =>
      var (a, u') := Step(u, x);
      (!a, Not(u'))
    case Always => (true, n)
    case Never => (false, n)
    case Wild => (x != NEWLINE, n)
    case Word => (IsWord(x), n)
    case Radix(radix) => (DigitValue(x) < radix, n)
    case Ascii(c) => (AsciiMatch(c, x), n)
    case Func(test) => (test(x), n)
    case Prefix(p, count, value, u) =>
      if !value then (false, n)
      else if count == 0 then
        var (b, u') := Step(u, x);
        (b, Prefix(p, 0, true, u'))
      else
        var (b, p') := Step(p, x);
        (b, Prefix(p', count - 1, b, u))
  }

  /** The verdict of `is_match` alone. */
  function Matches(n: Neu, x: int): bool
  {
    Step(n, x).0
  }

  /**
   * `min_length`: And takes the larger, Or the smaller, Not its operand's, Always and
   * Never 0. Every other predicate is given one unit: the `Neu` trait itself declares no
   * `min_length`, so that default is an assumption of this model.
   */
  function MinLength(n: Neu): (l: nat)
    ensures l <= 1
    ensures n.Always? || n.Never? ==> l == 0
  {
    match n
    case And(l, r) => if MinLength(l) >= MinLength(r) then MinLength(l) else MinLength(r)
    case Or(l, r) => if MinLength(l) <= MinLength(r) then MinLength(l) else MinLength(r)
    case Not(u) => MinLength(u)
    case Always => 0
    case Never => 0
    case _ => 1
  }

  /**
   * `And` accepts iff both sides do, and `Or` iff either does, each side judged in its
   * current state; the right side is consulted, and its state moves, only when the left
   * side leaves the verdict open. `Not` accepts iff its operand refuses.
   */
  lemma Connectives(l: Neu, r: Neu, x: int)
    ensures Matches(And(l, r), x) <==> Matches(l, x) && Matches(r, x)
    ensures !Matches(l, x) ==> Step(And(l, r), x).1.right == r
    ensures Matches(Or(l, r), x) <==> Matches(l, x) || Matches(r, x)
    ensures Matches(l, x) ==> Step(Or(l, r), x).1.right == r
    ensures Matches(Not(l), x) <==> !Matches(l, x)
  {
  }

  /** The connectives obey De Morgan's laws and double negation, stateful operands included. */
  lemma DeMorgan(l: Neu, r: Neu, x: int)
    ensures Matches(Not(And(l, r)), x) == Matches(Or(Not(l), Not(r)), x)
    ensures Matches(Not(Or(l, r)), x) == Matches(And(Not(l), Not(r)), x)
    ensures Matches(Not(Not(l)), x) == Matches(l, x)
  {
    Connectives(l, r, x);
    Connectives(Not(l), Not(r), x);
    Connectives(And(l, r), r, x);
    Connectives(Or(l, r), r, x);
    Connectives(Not(l), r, x);
  }

  /**
   * The fixed classes: `Always` accepts and `Never` refuses every unit, `Wild` refuses
   * only the newline, `Word` accepts letters, digits and '_', `Digit(10)` the decimal
   * digits; a literal accepts only itself, a set its members, a range what it contains.
   */
  lemma Classes(x: int, v: int, vs: seq<int>, rg: CRange)
    ensures Matches(Always, x) && !Matches(Never, x)
    ensures Matches(Wild, x) <==> x != '\n' as int
    ensures Matches(Word, x) <==> IsAlpha(x) || IsDigit(x) || x == '_' as int
    ensures Matches(Radix(10), x) <==> IsDigit(x)
    ensures Matches(Equal(v), x) <==> x == v
    ensures Matches(Among(vs), x) <==> exists k :: 0 <= k < |vs| && vs[k] == x
    ensures Matches(InRange(rg), x) <==> Contains(rg, x)
  {
  }

  /** The radices `char::is_digit` accepts; it panics outside 2 to 36. */
  predicate RadixInRange(radix: nat)
  {
    2 <= radix <= 36
  }

  /**
   * Within those radices a digit predicate accepts only ASCII letters and digits: the first
   * `radix` of 0-9 then a-z (either case).
   */
  lemma RadixDigits(radix: nat, x: int)
    requires RadixInRange(radix)
    ensures Matches(Radix(radix), x) ==> AsciiMatch(Alphanumeric, x)
    ensures Matches(Radix(radix), x) <==> AsciiMatch(Alphanumeric, x) && DigitValue(x) < radix
    ensures IsDigit(x) ==> (Matches(Radix(radix), x) <==> x - '0' as int < radix)
    ensures Matches(Radix(16), x) <==> AsciiMatch(HexDigit, x)
    ensures Matches(Radix(36), x) <==> AsciiMatch(Alphanumeric, x)
  {
  }

  /** `min_length`: And the larger of its sides, Or the smaller, Not its operand's. */
  lemma MinLengthLaws(l: Neu, r: Neu)
    ensures MinLength(And(l, r)) == if MinLength(l) >= MinLength(r) then MinLength(l) else MinLength(r)
    ensures MinLength(Or(l, r)) == if MinLength(l) <= MinLength(r) then MinLength(l) else MinLength(r)
    ensures MinLength(Not(l)) == MinLength(l)
    ensures MinLength(Always) == 0 && MinLength(Never) == 0 && MinLength(Word) == 1
  {
  }

  /** The predicate holds no `Prefix`, so nothing about it changes while matching. */
  predicate Stateless(n: Neu)
  {
    match n
    case And(l, r) => Stateless(l) && Stateless(r)
    case Or(l, r) => Stateless(l) && Stateless(r)
    case Not(u) => Stateless(u)
    case Prefix(_, _, _, _) => false
    case _ => true
  }

  /** A stateless predicate keeps its state under every step. */
  lemma {:induction false} StatelessStep(n: Neu, x: int)
    requires Stateless(n)
    ensures Step(n, x).1 == n
  {
    match n
    case And(l, r) => StatelessStep(l, x); StatelessStep(r, x);
    case Or(l, r) => StatelessStep(l, x); StatelessStep(r, x);
    case Not(u) => StatelessStep(u, x);
    case _ =>
  }

  /** The verdicts and the final state after feeding the units of `xs` in order. */
  function Feed(n: Neu, xs: seq<int>): (r: (seq<bool>, Neu))
    ensures |r.0| == |xs|
    decreases |xs|
  {
    if xs == [] then ([], n)
    else
      var (b, n') := Step(n, xs[0]);
      var (bs, n'') := Feed(n', xs[1..]);
      ([b] + bs, n'')
  }

  /** A `Prefix` whose value went false refuses every later unit and stays as it is. */
  lemma {:induction false} PrefixStaysFalse(p: Neu, c: nat, u: Neu, xs: seq<int>)
    ensures Feed(Prefix(p, c, false, u), xs).1 == Prefix(p, c, false, u)
    ensures forall i :: 0 <= i < |xs| ==> !Feed(Prefix(p, c, false, u), xs).0[i]
    decreases |xs|
  {
    if xs != [] {
      PrefixStaysFalse(p, c, u, xs[1..]);
    }
  }

  /** Every one of the units satisfies the stateless predicate. */
  predicate AllMatch(n: Neu, xs: seq<int>)
    requires Stateless(n)
  {
    forall j :: 0 <= j < |xs| ==> Matches(n, xs[j])
  }

  /** All of the first `m` units match iff the first does and the next `m - 1` do. */
  lemma AllMatchCons(p: Neu, xs: seq<int>, m: nat)
    requires Stateless(p) && 1 <= m <= |xs|
    ensures AllMatch(p, xs[..m]) == (Matches(p, xs[0]) && AllMatch(p, xs[1..][..m - 1]))
  {
    var a, b := xs[..m], xs[1..][..m - 1];
    assert forall j :: 0 <= j < |b| ==> b[j] == a[j + 1];
    if Matches(p, xs[0]) && AllMatch(p, b) {
      forall j | 0 <= j < |a|
        ensures Matches(p, a[j])
      {
        if j > 0 {
          assert a[j] == b[j - 1];
        }
      }
    }
  }

  /**
   * A `prefix_cnt(p, k, u)` over stateless p and u accepts unit i < k iff units 0..i all
   * match p, and unit i >= k iff the first k units match p and unit i matches u.
   */
  lemma {:induction false} PrefixVerdicts(p: Neu, k: nat, u: Neu, xs: seq<int>, i: nat)
    requires Stateless(p) && Stateless(u) && i < |xs|
    ensures Feed(Prefix(p, k, true, u), xs).0[i] ==
            if i < k then AllMatch(p, xs[..i + 1])
            else AllMatch(p, xs[..k]) && Matches(u, xs[i])
    decreases |xs|
  {
    var n := Prefix(p, k, true, u);
    var (b, n') := Step(n, xs[0]);
    assert Feed(n, xs).0[i] == if i == 0 then b else Feed(n', xs[1..]).0[i - 1];
    if k == 0 {
      StatelessStep(u, xs[0]);
      assert n' == n && xs[..0] == [];
      if i > 0 {
        PrefixVerdicts(p, 0, u, xs[1..], i - 1);
        assert xs[1..][i - 1] == xs[i];
      }
    } else {
      StatelessStep(p, xs[0]);
      assert b == Matches(p, xs[0]) && n' == Prefix(p, k - 1, b, u);
      AllMatchCons(p, xs, if i < k then i + 1 else k);
      if i == 0 {
        assert xs[1..][..0] == [];
      } else if !b {
        PrefixStaysFalse(p, k - 1, u, xs[1..]);
      } else {
        PrefixVerdicts(p, k - 1, u, xs[1..], i - 1);
        assert xs[1..][i - 1] == xs[i];
      }
    }
  }

  /** `Prefix::new`: value true, `count` prefix units still to go. */
  function PrefixCnt(p: Neu, count: nat, u: Neu): (n: Neu)
    ensures n.Prefix? && n.value && n.count == count && n.prefix == p && n.unit == u
  {
    Prefix(p, count, true, u)
  }

  /** `prefix(p, u)`: a single prefix unit. */
  function NewPrefix(p: Neu, u: Neu): (n: Neu)
    ensures n == PrefixCnt(p, 1, u)
  {
    PrefixCnt(p, 1, u)
  }

  /**
   * The `Prefix` predicate object: its counter and flag live in cells that `is_match`
   * reads and writes.
   */
  class PrefixCell {
    var prefix: Neu
    var unit: Neu
    var count: nat
    var value: bool

    function State(): Neu
      reads this
    {
      Prefix(prefix, count, value, unit)
    }

    constructor (p: Neu, count: nat, u: Neu)
      ensures State() == PrefixCnt(p, count, u)
    {
      prefix := p;
      unit := u;
      this.count := count;
      value := true;
    }

    method IsMatch(x: int) returns (b: bool)
      modifies this
      ensures (b, State()) == Step(old(State()), x)
      ensures count == old(count) || count == old(count) - 1
      ensures !old(value) ==> !b && State() == old(State())
    {
      var v := value;
      if v {
        var c := count;
        if c == 0 {
          var (m, u') := Step(unit, x);
          v := m && v;
          unit := u';
        } else {
          var (m, p') := Step(prefix, x);
          v := m && v;
          prefix := p';
          value := v;
          count := c - 1;
        }
      }
      b := v;
    }
  }
}
