/**
 * `RegexCtx`: the cursor every matcher moves. It holds the data and a byte offset into it.
 */
module Cursor {
  import opened Errors
  import opened Spans
  import opened Text

  /** `char_indices` / byte indices: every unit paired with its byte offset from the start. */
  function Indices(m: Mode, s: seq<int>): (r: seq<(nat, int)>)
    ensures |r| == |s|
  {
    seq(|s|, i requires 0 <= i < |s| => (ByteLen(m, s[..i]), s[i]))
  }

  /**
   * `orig_at` on given data: the units from byte offset `o` on. It fails with OutOfBound
   * past the end and, for text, at an offset inside a code point.
   */
  function Orig(src: Src, o: nat): (r: Result<seq<int>>)
    ensures r.Ok? <==> IndexAt(src.mode, src.dat, o).Some?
    ensures o > src.Len() ==> r == Err(Error.OutOfBound)
    ensures r.Ok? ==> IndexAt(src.mode, src.dat, o).value <= |src.dat| && r.value == src.dat[IndexAt(src.mode, src.dat, o).value..]
    ensures r.Ok? ==> ByteLen(src.mode, r.value) == src.Len() - o
    ensures r.Err? ==> r.error == Error.OutOfBound
  {
    match Suffix(src.mode, src.dat, o)
    case None => Err(Error.OutOfBound)
    case Some(s) =>
      Ok(s)
  }

  /** `peek_at` on given data: the units from `o`, each with its byte offset relative to `o`. */
  function Peek(src: Src, o: nat): (r: Result<seq<(nat, int)>>)
    ensures r.Ok? <==> Orig(src, o).Ok?
    ensures r.Ok? ==> r.value == Indices(src.mode, Orig(src, o).value)
    ensures r.Err? ==> r.error == Error.OutOfBound
  {
    match Orig(src, o)
    case Err(e) => Err(e)
    case Ok(s) => Ok(Indices(src.mode, s))
  }

  class RegexCtx {
    const mode: Mode
    var dat: seq<int>
    var offset: nat

    /** The offset never passes the end of the data. */
    ghost predicate Valid()
      reads this
    {
      offset <= ByteLen(mode, dat)
    }

    /** The data with its unit kind, as the matchers' specifications see it. */
    function Source(): Src
      reads this
    {
      Src(mode, dat)
    }

    /** `new`: a cursor at offset 0. */
    constructor (mode: Mode, dat: seq<int>)
      ensures this.mode == mode && this.dat == dat && offset == 0
      ensures Valid()
    {
      this.mode := mode;
      this.dat := dat;
      offset := 0;
    }

    /** `len`: the byte length of the data. */
    function Len(): nat
      reads this
    {
      ByteLen(mode, dat)
    }

    /** `reset`: back to the start of the same data. */
    method Reset()
      modifies this
      ensures dat == old(dat) && offset == 0
      ensures Valid()
    {
      offset := 0;
    }

    /** `reset_with`: new data, offset 0. */
    method ResetWith(d: seq<int>)
      modifies this
      ensures dat == d && offset == 0
      ensures Valid()
    {
      dat := d;
      offset := 0;
    }

    method SetOffset(o: nat)
      requires o <= Len()
      modifies this
      ensures offset == o && dat == old(dat)
      ensures Valid()
    {
      offset := o;
    }

    method Inc(n: nat)
      requires Valid() && offset + n <= Len()
      modifies this
      ensures offset == old(offset) + n && dat == old(dat)
      ensures Valid()
    {
      offset := offset + n;
    }

    method Dec(n: nat)
      requires Valid() && n <= offset
      modifies this
      ensures offset == old(offset) - n && dat == old(dat)
      ensures Valid()
    {
      offset := offset - n;
    }

    /** `orig_at`. */
    function OrigAt(o: nat): (r: Result<seq<int>>)
      reads this
      ensures r == Orig(Source(), o)
      ensures o > Len() ==> r == Err(Error.OutOfBound)
    {
      Orig(Source(), o)
    }

    /** `peek_at`. */
    function PeekAt(o: nat): (r: Result<seq<(nat, int)>>)
      reads this
      ensures r == Peek(Source(), o)
    {
      Peek(Source(), o)
    }

    /** `orig_sub`: exactly the bytes [o, o + l), or OutOfBound. */
    function OrigSub(o: nat, l: nat): (r: Result<seq<int>>)
      reads this
      ensures o + l > Len() ==> r == Err(Error.OutOfBound)
      ensures r.Ok? ==> ByteLen(mode, r.value) == l
      ensures r.Ok? <==> IndexAt(mode, dat, o).Some? && IndexAt(mode, dat, o + l).Some?
      ensures r.Ok? ==> IndexAt(mode, dat, o).value <= IndexAt(mode, dat, o + l).value
      ensures r.Ok? ==> r.value == dat[IndexAt(mode, dat, o).value..IndexAt(mode, dat, o + l).value]
      ensures r.Err? ==> r.error == Error.OutOfBound
    {
      match Sub(mode, dat, o, o + l)
      case None => Err(Error.OutOfBound)
      case Some(s) =>
        IndexAtMono(mode, dat, o, o + l);
        Ok(s)
    }

    /** `clone_at`: a fresh cursor over the data from `o`, at offset 0. */
    method CloneAt(o: nat) returns (r: Result<RegexCtx>)
      ensures r.Ok? <==> OrigAt(o).Ok?
      ensures r.Ok? ==> fresh(r.value) && r.value.mode == mode && r.value.dat == OrigAt(o).value
      ensures r.Ok? ==> r.value.offset == 0 && r.value.Valid()
      ensures r.Err? ==> r.error == Error.OutOfBound
    {
      match OrigAt(o)
      case Err(e) =>
        r := Err(e);
      case Ok(s) =>
        var c := new RegexCtx(mode, s);
        r := Ok(c);
    }
  }

  /** `len` counts bytes: one per unit on bytes, one to four per code point on text; the offset plays no part. */
  lemma LenIsDataLength(c: RegexCtx)
    ensures c.mode.Bytes? ==> c.Len() == |c.dat|
    ensures |c.dat| <= c.Len() <= 4 * |c.dat|
    ensures c.Len() == c.Source().Len()
  {
    ByteLenBounds(c.mode, c.dat);
    if c.mode.Bytes? {
      ByteLenBytes(c.dat);
    }
  }

  /** On bytes every offset up to the length is readable and the suffix is plain slicing. */
  lemma OrigAtBytes(c: RegexCtx, o: nat)
    requires c.mode.Bytes?
    ensures c.OrigAt(o) == if o <= |c.dat| then Ok(c.dat[o..]) else Err(Error.OutOfBound)
  {
    IndexAtBytes(c.dat, o);
  }

  /** On bytes, `orig_sub` is plain slicing of [o, o + l). */
  lemma OrigSubBytes(c: RegexCtx, o: nat, l: nat)
    requires c.mode.Bytes?
    ensures c.OrigSub(o, l) == if o + l <= |c.dat| then Ok(c.dat[o..o + l]) else Err(Error.OutOfBound)
  {
    SubBytes(c.dat, o, o + l);
  }
}
