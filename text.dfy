/**
 * The buffer a cursor walks over: a sequence of units, each occupying one or more bytes.
 * A byte buffer has units of width 1; a text buffer holds code points whose width is
 * their UTF-8 length. Offsets are always byte offsets, as in the engine.
 */
module Text {
  import opened Errors

  datatype Mode = Bytes | Chars

  /** Number of bytes one unit occupies. */
  function Width(m: Mode, x: int): (w: nat)
    ensures 1 <= w <= 4
    ensures m.Bytes? ==> w == 1
  {
    if m.Bytes? || x < 0x80 then 1
    else if x < 0x800 then 2
    else if x < 0x1_0000 then 3
    else 4
  }

  /** Byte length of a run of units. */
  function ByteLen(m: Mode, s: seq<int>): nat
  {
    if s == [] then 0 else Width(m, s[0]) + ByteLen(m, s[1..])
  }

  /** The data a cursor was created over. */
  datatype Src = Src(mode: Mode, dat: seq<int>)
  {
    function Len(): nat { ByteLen(mode, dat) }
  }

  lemma {:induction false} ByteLenAppend(m: Mode, a: seq<int>, b: seq<int>)
    ensures ByteLen(m, a + b) == ByteLen(m, a) + ByteLen(m, b)
    decreases |a|
  {
    if a == [] {
      assert a + b == b;
    } else {
      assert (a + b)[1..] == a[1..] + b;
      ByteLenAppend(m, a[1..], b);
    }
  }

  /** Bytes are counted one per unit. */
  lemma {:induction false} ByteLenBytes(s: seq<int>)
    ensures ByteLen(Bytes, s) == |s|
    decreases |s|
  {
    if s != [] {
      ByteLenBytes(s[1..]);
    }
  }

  /** Every unit takes between one and four bytes. */
  lemma {:induction false} ByteLenBounds(m: Mode, s: seq<int>)
    ensures |s| <= ByteLen(m, s) <= 4 * |s|
    decreases |s|
  {
    if s != [] {
      ByteLenBounds(m, s[1..]);
    }
  }

  /** Extending a prefix by one unit adds that unit's width. */
  lemma ByteLenStep(m: Mode, s: seq<int>, k: nat)
    requires k < |s|
    ensures ByteLen(m, s[..k + 1]) == ByteLen(m, s[..k]) + Width(m, s[k])
  {
    assert s[..k + 1] == s[..k] + [s[k]];
    ByteLenAppend(m, s[..k], [s[k]]);
  }

  /** Byte offsets of prefixes grow strictly with the prefix. */
  lemma ByteLenPrefixLess(m: Mode, s: seq<int>, i: nat, j: nat)
    requires i < j <= |s|
    ensures ByteLen(m, s[..i]) < ByteLen(m, s[..j])
  {
    assert s[..j] == s[..i] + s[i..j];
    ByteLenAppend(m, s[..i], s[i..j]);
    ByteLenBounds(m, s[i..j]);
  }

  lemma ByteLenPrefixAtMost(m: Mode, s: seq<int>, k: nat)
    requires k <= |s|
    ensures ByteLen(m, s[..k]) <= ByteLen(m, s)
  {
    if k < |s| {
      ByteLenPrefixLess(m, s, k, |s|);
    }
    assert s[..|s|] == s;
  }

  /** Byte offset `o` falls between two units (or at either end) of `s`. */
  ghost predicate Boundary(m: Mode, s: seq<int>, o: nat)
  {
    exists k :: 0 <= k <= |s| && ByteLen(m, s[..k]) == o
  }

  /**
   * The unit index at which byte offset `o` falls, when `o` is a unit boundary
   * (for text: a code-point boundary) within the data.
   */
  function IndexAt(m: Mode, s: seq<int>, o: nat): (r: Option<nat>)
    ensures r.Some? ==> r.value <= |s| && ByteLen(m, s[..r.value]) == o
    ensures r.Some? <==> Boundary(m, s, o)
    decreases |s|
  {
    if o == 0 then
      assert s[..0] == [];
      Some(0)
    else if s == [] then None
    else if o < Width(m, s[0]) then
      assert forall k :: 1 <= k <= |s| ==> s[..k] == [s[0]] + s[1..][..k - 1];
      assert forall k :: 1 <= k <= |s| ==> ByteLen(m, s[..k]) == Width(m, s[0]) + ByteLen(m, s[1..][..k - 1]);
      None
    else
      assert forall k :: 1 <= k <= |s| ==> s[..k] == [s[0]] + s[1..][..k - 1];
      assert forall k :: 1 <= k <= |s| ==> ByteLen(m, s[..k]) == Width(m, s[0]) + ByteLen(m, s[1..][..k - 1]);
      match IndexAt(m, s[1..], o - Width(m, s[0]))
      case None => None
      case Some(k) => Some(k + 1)
  }

  /** A boundary has exactly one unit index. */
  lemma IndexAtUnique(m: Mode, s: seq<int>, o: nat, k: nat)
    requires k <= |s| && ByteLen(m, s[..k]) == o
    ensures IndexAt(m, s, o) == Some(k)
  {
    var r := IndexAt(m, s, o);
    if r.value < k {
      ByteLenPrefixLess(m, s, r.value, k);
    } else if r.value > k {
      ByteLenPrefixLess(m, s, k, r.value);
    }
  }

  /** Unit indices grow with byte offsets. */
  lemma IndexAtMono(m: Mode, s: seq<int>, a: nat, b: nat)
    requires a <= b && IndexAt(m, s, a).Some? && IndexAt(m, s, b).Some?
    ensures IndexAt(m, s, a).value <= IndexAt(m, s, b).value
  {
    var i, j := IndexAt(m, s, a).value, IndexAt(m, s, b).value;
    if j < i {
      ByteLenPrefixLess(m, s, j, i);
    }
  }

  /** On bytes every offset up to the length is a boundary. */
  lemma IndexAtBytes(s: seq<int>, o: nat)
    ensures IndexAt(Bytes, s, o) == if o <= |s| then Some(o) else None
  {
    if o <= |s| {
      ByteLenBytes(s[..o]);
      IndexAtUnique(Bytes, s, o, o);
    } else {
      var r := IndexAt(Bytes, s, o);
      if r.Some? {
        ByteLenBytes(s[..r.value]);
      }
    }
  }

  /**
   * The units between byte offsets `a` and `b`, or None when `a > b` or either offset
   * is not a boundary within the data (the behaviour of `get(a..b)` on slices and str).
   */
  function Sub(m: Mode, s: seq<int>, a: nat, b: nat): (r: Option<seq<int>>)
    ensures r.Some? ==> a <= b <= ByteLen(m, s) && ByteLen(m, r.value) == b - a
    ensures r.Some? <==> a <= b && IndexAt(m, s, a).Some? && IndexAt(m, s, b).Some?
  {
    match (IndexAt(m, s, a), IndexAt(m, s, b))
    case (Some(i), Some(j)) =>
      if a <= b then
        IndexAtMono(m, s, a, b);
        ByteLenPrefixAtMost(m, s, j);
        assert s[..j] == s[..i] + s[i..j];
        ByteLenAppend(m, s[..i], s[i..j]);
        Some(s[i..j])
      else None
    case _ => None
  }

  /** On bytes, `Sub` is plain slicing. */
  lemma SubBytes(s: seq<int>, a: nat, b: nat)
    ensures Sub(Bytes, s, a, b) == if a <= b <= |s| then Some(s[a..b]) else None
  {
    IndexAtBytes(s, a);
    IndexAtBytes(s, b);
  }

  /** The units from byte offset `o` to the end. */
  function Suffix(m: Mode, s: seq<int>, o: nat): (r: Option<seq<int>>)
    ensures r.Some? <==> IndexAt(m, s, o).Some?
    ensures r.Some? ==> r.value == s[IndexAt(m, s, o).value..]
    ensures r.Some? ==> ByteLen(m, r.value) == ByteLen(m, s) - o
  {
    match IndexAt(m, s, o)
    case None => None
    case Some(i) =>
      assert s == s[..i] + s[i..];
      ByteLenAppend(m, s[..i], s[i..]);
      Some(s[i..])
  }
}
