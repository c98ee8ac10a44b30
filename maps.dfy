/**
 * The value mappers (`FallibleMap::try_map`, a function to `Result`): projections and checks on pairs, a range check, a
 * fallback value, and decoding integers from their little-, big- or native-endian bytes.
 * A caller-supplied function is a Dafny function value; its failure is an `Err`.
 */
module Maps {
  import opened Errors

  /** `FuncMapper`: an infallible function used as a mapper. */
  function FuncMapper<I(!new), O>(f: I -> O): (m: I -> Result<O>)
    ensures forall v :: m(v) == Ok(f(v))
  {
    v => Ok(f(v))
  }

  /** `Select0`: the first component. */
  function Select0<A, B>(v: (A, B)): (r: Result<A>)
    ensures r.Ok?
  {
    Ok(v.0)
  }

  /** `Select1`: the second component. */
  function Select1<A, B>(v: (A, B)): (r: Result<B>)
    ensures r.Ok?
  {
    Ok(v.1)
  }

  /** The two projections together give back the pair. */
  lemma SelectRecompose<A, B>(v: (A, B))
    ensures (Select0(v).value, Select1(v).value) == v
  {
  }

  /** `SelectEq`: the pair itself when its components are equal, otherwise Err(SelectEq). */
  function SelectEq<T(==)>(v: (T, T)): (r: Result<(T, T)>)
    ensures r.Ok? <==> v.0 == v.1
    ensures r.Ok? ==> r.value == v
    ensures r.Err? ==> r.error == Error.SelectEq
  {
    if v.0 == v.1 then Ok(v) else Err(Error.SelectEq)
  }

  /** `SelectNeq`: the pair itself when its components differ, otherwise Err(SelectNeq). */
  function SelectNeq<T(==)>(v: (T, T)): (r: Result<(T, T)>)
    ensures r.Ok? <==> v.0 != v.1
    ensures r.Ok? ==> r.value == v
    ensures r.Err? ==> r.error == Error.SelectNeq
  {
    if v.0 != v.1 then Ok(v) else Err(Error.SelectNeq)
  }

  /** Of `SelectEq` and `SelectNeq`, exactly one accepts any pair, and it returns the pair unchanged. */
  lemma SelectEqNeqPartition<T>(v: (T, T))
    ensures SelectEq(v).Ok? != SelectNeq(v).Ok?
    ensures SelectEq(v).Ok? ==> SelectEq(v) == Ok(v)
    ensures SelectNeq(v).Ok? ==> SelectNeq(v) == Ok(v)
  {
  }

  /**
   * `Bounded(min, max)`: the value itself when `min <= v < max`; anything else fails
   * with Err(SelectEq), the error the source reports.
   */
  function Bounded(min: int, max: int, v: int): (r: Result<int>)
    ensures r.Ok? <==> min <= v < max
    ensures r.Ok? ==> r.value == v
    ensures r.Err? ==> r.error == Error.SelectEq
  {
    if min <= v && v < max then Ok(v) else Err(Error.SelectEq)
  }

  /** A range with `max <= min` accepts nothing. */
  lemma BoundedEmpty(min: int, max: int, v: int)
    requires max <= min
    ensures Bounded(min, max, v).Err?
  {
  }

  /** `WithDefault`: the mapper's success, or the default when the mapper fails. */
  function WithDefault<T>(m: T -> Result<T>, default: () -> T, v: T): (r: Result<T>)
    ensures r.Ok?
    ensures r.value == if m(v).Ok? then m(v).value else default()
  {
    match m(v)
    case Ok(w) => Ok(w)
    case Err(_) => Ok(default())
  }

  /** A bounded value with a fallback is always within the bounds or the fallback itself. */
  lemma WithDefaultBounded(min: int, max: int, d: int, v: int)
    ensures WithDefault(v => Bounded(min, max, v), () => d, v).value == if min <= v < max then v else d
  {
  }

  // ---------------------------------------------------------------------------------------
  // Integers from bytes

  type Byte = x: int | 0 <= x < 256

  /** The integer types `impl_from_bytes!` covers; `isize` and `usize` are 8 bytes wide. */
  datatype IntKind = I8 | U8 | I16 | U16 | I32 | U32 | I64 | U64 | I128 | U128 | Isize | Usize

  /** `size_of::<T>()`. */
  function Size(k: IntKind): (n: nat)
    ensures n in {1, 2, 4, 8, 16}
  {
    match k
    case I8 => 1
    case U8 => 1
    case I16 => 2
    case U16 => 2
    case I32 => 4
    case U32 => 4
    case I64 => 8
    case U64 => 8
    case I128 => 16
    case U128 => 16
    case Isize => 8
    case Usize => 8
  }

  predicate Signed(k: IntKind)
  {
    k.I8? || k.I16? || k.I32? || k.I64? || k.I128? || k.Isize?
  }

  /** 256 to the power `n`. */
  function Pow256(n: nat): (p: nat)
    ensures p >= 1
  {
    if n == 0 then 1 else 256 * Pow256(n - 1)
  }

  /** The values of a type: [0, 256^size) unsigned, [-256^size / 2, 256^size / 2) signed. */
  predicate InRange(k: IntKind, v: int)
  {
    if Signed(k) then -(Pow256(Size(k)) / 2) <= v < Pow256(Size(k)) / 2
    else 0 <= v < Pow256(Size(k))
  }

  /** The unsigned value of bytes read least significant first. */
  function LeValue(bs: seq<Byte>): (u: nat)
    ensures u < Pow256(|bs|)
  {
    if bs == [] then 0 else bs[0] + 256 * LeValue(bs[1..])
  }

  /** The unsigned value of bytes read most significant first. */
  function BeValue(bs: seq<Byte>): (u: nat)
    ensures u < Pow256(|bs|)
  {
    if bs == [] then 0
    else
      var p := Pow256(|bs| - 1);
      MulMono(bs[0], 255, p);
      bs[0] * p + BeValue(bs[1..])
  }

  lemma MulMono(a: nat, b: nat, c: nat)
    requires a <= b
    ensures a * c <= b * c
  {
  }

  /** Two's complement: an unsigned bit pattern of the type's width read as a value of the type. */
  function FromBits(k: IntKind, u: nat): (v: int)
    requires u < Pow256(Size(k))
    ensures InRange(k, v)
    ensures v == u || v == u - Pow256(Size(k))
  {
    Pow256Even(Size(k));
    if Signed(k) && u >= Pow256(Size(k)) / 2 then u - Pow256(Size(k)) else u
  }

  /** A positive power of 256 is even, so its two halves are equal. */
  lemma Pow256Even(n: nat)
    requires n >= 1
    ensures Pow256(n) == 2 * (Pow256(n) / 2)
  {
    assert Pow256(n) == 2 * (128 * Pow256(n - 1));
  }

  /** The bit pattern of a value of the type; the inverse of `FromBits`. */
  function ToBits(k: IntKind, v: int): (u: nat)
    requires InRange(k, v)
    ensures u < Pow256(Size(k))
    ensures FromBits(k, u) == v
  {
    if v < 0 then v + Pow256(Size(k)) else v
  }

  /**
   * `FromLeBytes::<T>::try_map`: the first `size_of::<T>()` bytes, least significant
   * first; fewer bytes than that is Err(FromLeBytes). Bytes beyond the first chunk are ignored.
   */
  function FromLeBytes(k: IntKind, val: seq<Byte>): (r: Result<int>)
    ensures r.Ok? <==> |val| >= Size(k)
    ensures r.Err? ==> r.error == Error.FromLeBytes
    ensures r.Ok? ==> InRange(k, r.value)
  {
    if |val| < Size(k) then Err(Error.FromLeBytes) else Ok(FromBits(k, LeValue(val[..Size(k)])))
  }

  /** `FromBeBytes::<T>::try_map`: as `FromLeBytes`, most significant byte first. */
  function FromBeBytes(k: IntKind, val: seq<Byte>): (r: Result<int>)
    ensures r.Ok? <==> |val| >= Size(k)
    ensures r.Err? ==> r.error == Error.FromBeBytes
    ensures r.Ok? ==> InRange(k, r.value)
  {
    if |val| < Size(k) then Err(Error.FromBeBytes) else Ok(FromBits(k, BeValue(val[..Size(k)])))
  }

  datatype Endian = Little | Big

  /** `FromNeBytes::<T>::try_map`: the platform's byte order, given here as `native`. */
  function FromNeBytes(k: IntKind, native: Endian, val: seq<Byte>): (r: Result<int>)
    ensures r.Ok? <==> |val| >= Size(k)
    ensures r.Err? ==> r.error == Error.FromNeBytes
    ensures r.Ok? ==> r == (if native.Little? then FromLeBytes(k, val) else FromBeBytes(k, val))
  {
    if |val| < Size(k) then Err(Error.FromNeBytes)
    else if native.Little? then FromLeBytes(k, val) else FromBeBytes(k, val)
  }

  /** The `n` bytes of `u`, least significant first (`to_le_bytes` on the bit pattern). */
  function LeBytes(u: nat, n: nat): (bs: seq<Byte>)
    requires u < Pow256(n)
    ensures |bs| == n && LeValue(bs) == u
  {
    if n == 0 then [] else [u % 256] + LeBytes(u / 256, n - 1)
  }

  /** `to_le_bytes` of a value of the type. */
  function ToLeBytes(k: IntKind, v: int): (bs: seq<Byte>)
    requires InRange(k, v)
    ensures |bs| == Size(k)
  {
    LeBytes(ToBits(k, v), Size(k))
  }

  /** Bytes are determined by their value: encoding the value of `bs` gives `bs` back. */
  lemma {:induction false} LeBytesOfValue(bs: seq<Byte>)
    ensures LeBytes(LeValue(bs), |bs|) == bs
  {
    if bs != [] {
      LeBytesOfValue(bs[1..]);
      assert LeValue(bs) % 256 == bs[0];
      assert LeValue(bs) / 256 == LeValue(bs[1..]);
    }
  }

  /** Decoding what `to_le_bytes` wrote, whatever follows it, gives the value back. */
  lemma LeRoundTrip(k: IntKind, v: int, rest: seq<Byte>)
    requires InRange(k, v)
    ensures FromLeBytes(k, ToLeBytes(k, v) + rest) == Ok(v)
  {
    var bs := ToLeBytes(k, v);
    assert (bs + rest)[..Size(k)] == bs;
  }

  /** Encoding what `FromLeBytes` decoded gives the bytes it read. */
  lemma LeRoundTripBytes(k: IntKind, val: seq<Byte>)
    requires |val| >= Size(k)
    ensures FromLeBytes(k, val).Ok? && ToLeBytes(k, FromLeBytes(k, val).value) == val[..Size(k)]
  {
    var bs := val[..Size(k)];
    LeBytesOfValue(bs);
    BitsRoundTrip(k, LeValue(bs));
  }

  /** `ToBits` undoes `FromBits`: the bit pattern comes back. */
  lemma BitsRoundTrip(k: IntKind, u: nat)
    requires u < Pow256(Size(k))
    ensures ToBits(k, FromBits(k, u)) == u
  {
  }

  /** Appending a most significant byte. */
  lemma {:induction false} LeValueSnoc(bs: seq<Byte>, x: Byte)
    ensures LeValue(bs + [x]) == LeValue(bs) + x * Pow256(|bs|)
  {
    if bs != [] {
      assert (bs + [x])[1..] == bs[1..] + [x];
      LeValueSnoc(bs[1..], x);
      assert LeValue(bs + [x]) == bs[0] + 256 * LeValue(bs[1..] + [x]);
      ShiftDistributes(bs[0], LeValue(bs[1..]), x, Pow256(|bs| - 1));
    }
  }

  /** Shifting by one byte distributes over a value with a high byte added. */
  lemma ShiftDistributes(b: int, rest: int, x: int, p: int)
    ensures b + 256 * (rest + x * p) == (b + 256 * rest) + x * (256 * p)
  {
  }

  function Reverse(bs: seq<Byte>): (r: seq<Byte>)
    ensures |r| == |bs|
    ensures forall i :: 0 <= i < |bs| ==> r[i] == bs[|bs| - 1 - i]
  {
    if bs == [] then [] else Reverse(bs[1..]) + [bs[0]]
  }

  /** Reading most significant byte first is reading the reversed bytes least significant first. */
  lemma {:induction false} BeIsLeReversed(bs: seq<Byte>)
    ensures BeValue(bs) == LeValue(Reverse(bs))
  {
    if bs != [] {
      BeIsLeReversed(bs[1..]);
      LeValueSnoc(Reverse(bs[1..]), bs[0]);
    }
  }

  /** So big-endian decoding is little-endian decoding of the reversed first chunk. */
  lemma FromBeIsFromLeReversed(k: IntKind, val: seq<Byte>)
    requires |val| >= Size(k)
    ensures FromBeBytes(k, val) == FromLeBytes(k, Reverse(val[..Size(k)]))
  {
    BeIsLeReversed(val[..Size(k)]);
    assert Reverse(val[..Size(k)])[..Size(k)] == Reverse(val[..Size(k)]);
  }

  /** The documented examples: [1, 2, 3, 4] as an `i32` is 0x04030201 little-endian and 0x01020304 big-endian. */
  lemma FromBytesDocExamples()
    ensures FromLeBytes(I32, [1, 2, 3, 4]) == Ok(0x04030201)
    ensures FromBeBytes(I32, [1, 2, 3, 4]) == Ok(0x01020304)
    ensures FromLeBytes(I32, [1, 2, 3]) == Err(Error.FromLeBytes)
  {
    assert [1, 2, 3, 4][..4] == [1, 2, 3, 4];
  }

  /** A signed byte with its top bit set is negative: 0xff is -1 as an `i8` and 255 as a `u8`. */
  lemma FromBytesSign()
    ensures FromLeBytes(I8, [0xff]) == Ok(-1)
    ensures FromLeBytes(U8, [0xff]) == Ok(255)
  {
    assert [0xff][..1] == [0xff];
  }
}
