/** Binary serialization: the encoding, the size computed in advance, and the decoding of nested values,
    three separate traversals of the same type structure. */
module Serialization {
  import opened Arithmetic
  import opened ByteBuffers

  // The C++ types the serializer knows. Scalar: integers, enumerations, pointers; Vector: a resizable container
  // (std::string is one of single bytes); FixedArray: std::array; Struct: a type with a visit function.
  datatype Ty =
    | Scalar(width: nat)
    | Floating(width: nat)
    | PairOf(first: Ty, second: Ty)
    | TupleOf(elems: seq<Ty>)
    | Struct(fields: seq<Ty>)
    | Vector(elem: Ty)
    | FixedArray(elem: Ty, size: nat)

  // Scalars and floating-point numbers are bit patterns.
  datatype Value = Num(bits: nat) | Group(parts: seq<Value>)

  const SIZE_WIDTH: nat := 8

  // -- Little-endian numbers --------------------------------------------------

  function Pow256(n: nat): (p: nat)
    ensures p > 0
  {
    if n == 0 then 1 else 256 * Pow256(n - 1)
  }

  function LittleEndian(x: nat, width: nat): (b: Bytes)
    ensures |b| == width
  {
    if width == 0 then [] else [x % 256] + LittleEndian(x / 256, width - 1)
  }

  function FromLittleEndian(b: Bytes): nat {
    if b == [] then 0 else b[0] + 256 * FromLittleEndian(b[1..])
  }

  lemma {:induction false} NumberRoundTrip(x: nat, width: nat)
    requires x < Pow256(width)
    ensures FromLittleEndian(LittleEndian(x, width)) == x
  {
    if width > 0 {
      NumberRoundTrip(x / 256, width - 1);
      assert LittleEndian(x, width)[1..] == LittleEndian(x / 256, width - 1);
    }
  }

  /** Byte i is the digit of the i-th power of 256. */
  lemma {:induction false} LittleEndianDigits(x: nat, width: nat, i: nat)
    requires i < width
    ensures LittleEndian(x, width)[i] == x / Pow256(i) % 256
    decreases width
  {
    if i > 0 {
      LittleEndianDigits(x / 256, width - 1, i - 1);
      DivideTwice(x, 256, Pow256(i - 1));
    }
  }

  lemma SizeFits()
    ensures Pow256(SIZE_WIDTH) == SIZE_T
  {
    assert Pow256(4) == 0x1_0000_0000;
    assert Pow256(8) == 256 * 256 * 256 * 256 * Pow256(4);
  }

  // -- Well-typed values ------------------------------------------------------

  predicate HasType(v: Value, t: Ty)
    decreases t, 0, 0
  {
    match t
    case Scalar(w) => v.Num? && v.bits < Pow256(w)
    case Floating(w) => v.Num? && v.bits < Pow256(w)
    case PairOf(a, b) => v.Group? && |v.parts| == 2 && HasType(v.parts[0], a) && HasType(v.parts[1], b)
    case TupleOf(ts) => v.Group? && HaveTypes(v.parts, ts)
    case Struct(ts) => v.Group? && HaveTypes(v.parts, ts)
    case Vector(e) => v.Group? && |v.parts| < SIZE_T && AllHaveType(v.parts, e)
    case FixedArray(e, n) => v.Group? && |v.parts| == n < SIZE_T && AllHaveType(v.parts, e)
  }

  predicate HaveTypes(vs: seq<Value>, ts: seq<Ty>)
    decreases ts, 1, |vs|
  {
    |vs| == |ts| && (ts != [] ==> HasType(vs[0], ts[0]) && HaveTypes(vs[1..], ts[1..]))
  }

  predicate AllHaveType(vs: seq<Value>, t: Ty)
    decreases t, 1, |vs|
  {
    vs != [] ==> HasType(vs[0], t) && AllHaveType(vs[1..], t)
  }

  // -- Encoding ---------------------------------------------------------------

  function Encode(v: Value, t: Ty): Bytes
    requires HasType(v, t)
    decreases t, 0, 0
  {
    match t
    case Scalar(w) => LittleEndian(v.bits, w)
    case Floating(w) => LittleEndian(v.bits, w)
    case PairOf(a, b) => Encode(v.parts[0], a) + Encode(v.parts[1], b)
    case TupleOf(ts) => EncodeAll(v.parts, ts)
    case Struct(ts) => EncodeAll(v.parts, ts)
    case Vector(e) => LittleEndian(|v.parts|, SIZE_WIDTH) + EncodeMany(v.parts, e)
    case FixedArray(e, _) => LittleEndian(|v.parts|, SIZE_WIDTH) + EncodeMany(v.parts, e)
  }

  function EncodeAll(vs: seq<Value>, ts: seq<Ty>): Bytes
    requires HaveTypes(vs, ts)
    decreases ts, 1, |vs|
  {
    if ts == [] then [] else Encode(vs[0], ts[0]) + EncodeAll(vs[1..], ts[1..])
  }

  function EncodeMany(vs: seq<Value>, t: Ty): Bytes
    requires AllHaveType(vs, t)
    decreases t, 1, |vs|
  {
    if vs == [] then [] else Encode(vs[0], t) + EncodeMany(vs[1..], t)
  }

  // -- The layout -------------------------------------------------------------

  /** Elements are written one after the other. */
  lemma {:induction false} ElementsInOrder(vs: seq<Value>, ws: seq<Value>, t: Ty)
    requires AllHaveType(vs, t) && AllHaveType(ws, t)
    ensures AllHaveType(vs + ws, t)
    ensures EncodeMany(vs + ws, t) == EncodeMany(vs, t) + EncodeMany(ws, t)
    decreases |vs|
  {
    if vs == [] {
      assert vs + ws == ws;
    } else {
      assert (vs + ws)[1..] == vs[1..] + ws;
      ElementsInOrder(vs[1..], ws, t);
    }
  }

  /** So are the components of tuples and visited objects. */
  lemma {:induction false} ComponentsInOrder(vs: seq<Value>, ws: seq<Value>, ts: seq<Ty>, us: seq<Ty>)
    requires HaveTypes(vs, ts) && HaveTypes(ws, us)
    ensures HaveTypes(vs + ws, ts + us)
    ensures EncodeAll(vs + ws, ts + us) == EncodeAll(vs, ts) + EncodeAll(ws, us)
    decreases |vs|
  {
    if vs == [] {
      assert vs + ws == ws && ts + us == us;
    } else {
      assert (vs + ws)[1..] == vs[1..] + ws && (ts + us)[1..] == ts[1..] + us;
      ComponentsInOrder(vs[1..], ws, ts[1..], us);
    }
  }

  /** Ranges have their number of elements in front, in eight bytes, least significant first; a pair is written like a
      tuple of two. */
  lemma RangeLayout(v: Value, e: Ty, size: nat)
    requires HasType(v, Vector(e))
    ensures var b := Encode(v, Vector(e));
            && |b| >= SIZE_WIDTH
            && FromLittleEndian(b[..SIZE_WIDTH]) == |v.parts|
            && b[SIZE_WIDTH..] == EncodeMany(v.parts, e)
            && (|v.parts| == size ==> HasType(v, FixedArray(e, size)) && Encode(v, FixedArray(e, size)) == b)
  {
    var count := LittleEndian(|v.parts|, SIZE_WIDTH);
    SizeFits();
    NumberRoundTrip(|v.parts|, SIZE_WIDTH);
    assert Encode(v, Vector(e)) == count + EncodeMany(v.parts, e);
    assert (count + EncodeMany(v.parts, e))[..SIZE_WIDTH] == count;
  }

  lemma PairLayout(v: Value, a: Ty, b: Ty)
    requires HasType(v, PairOf(a, b))
    ensures HasType(v, TupleOf([a, b])) && Encode(v, PairOf(a, b)) == Encode(v, TupleOf([a, b]))
  {
    var ts := [a, b];
    assert ts[1..] == [b] && ts[1..][1..] == [];
    assert v.parts[1..][1..] == [];
    assert HaveTypes(v.parts[1..], ts[1..]);
    assert EncodeAll(v.parts[1..], ts[1..]) == Encode(v.parts[1], b) + [];
  }

  // -- The size calculator ----------------------------------------------------

  // meta::flat_type counts floating-point types in; meta::trivially_serializable does not.
  predicate IsFlat(t: Ty) {
    t.Scalar? || t.Floating?
  }

  predicate IsTrivial(t: Ty) {
    t.Scalar?
  }

  function Size(v: Value, t: Ty): nat
    requires HasType(v, t)
    decreases t, 0, 0
  {
    match t
    case Scalar(w) => w
    case Floating(w) => w
    case PairOf(a, b) => Size(v.parts[0], a) + Size(v.parts[1], b)
    case TupleOf(ts) => SizeAll(v.parts, ts)
    case Struct(ts) => SizeAll(v.parts, ts)
    case Vector(e) => if IsFlat(e) then SIZE_WIDTH + |v.parts| * e.width else SIZE_WIDTH + SizeMany(v.parts, e)
    case FixedArray(e, _) => if IsFlat(e) then SIZE_WIDTH + |v.parts| * e.width else SIZE_WIDTH + SizeMany(v.parts, e)
  }

  function SizeAll(vs: seq<Value>, ts: seq<Ty>): nat
    requires HaveTypes(vs, ts)
    decreases ts, 1, |vs|
  {
    if ts == [] then 0 else Size(vs[0], ts[0]) + SizeAll(vs[1..], ts[1..])
  }

  function SizeMany(vs: seq<Value>, t: Ty): nat
    requires AllHaveType(vs, t)
    decreases t, 1, |vs|
  {
    if vs == [] then 0 else Size(vs[0], t) + SizeMany(vs[1..], t)
  }

  /** The size computed in advance is exactly the number of bytes of the encoding. */
  lemma {:induction false} SizeExactness(v: Value, t: Ty)
    requires HasType(v, t)
    ensures |Encode(v, t)| == Size(v, t)
    decreases t, 0, 0
  {
    match t {
      case Scalar(_) =>
      case Floating(_) =>
      case PairOf(a, b) => SizeExactness(v.parts[0], a); SizeExactness(v.parts[1], b);
      case TupleOf(ts) => SizeAllExactness(v.parts, ts);
      case Struct(ts) => SizeAllExactness(v.parts, ts);
      case Vector(e) => SizeManyExactness(v.parts, e); FlatSize(v.parts, e);
      case FixedArray(e, _) => SizeManyExactness(v.parts, e); FlatSize(v.parts, e);
    }
  }

  lemma {:induction false} SizeAllExactness(vs: seq<Value>, ts: seq<Ty>)
    requires HaveTypes(vs, ts)
    ensures |EncodeAll(vs, ts)| == SizeAll(vs, ts)
    decreases ts, 1, |vs|
  {
    if ts != [] {
      SizeExactness(vs[0], ts[0]);
      SizeAllExactness(vs[1..], ts[1..]);
    }
  }

  lemma {:induction false} SizeManyExactness(vs: seq<Value>, t: Ty)
    requires AllHaveType(vs, t)
    ensures |EncodeMany(vs, t)| == SizeMany(vs, t)
    decreases t, 1, |vs|
  {
    if vs != [] {
      SizeExactness(vs[0], t);
      SizeManyExactness(vs[1..], t);
    }
  }

  lemma {:induction false} FlatSize(vs: seq<Value>, t: Ty)
    requires AllHaveType(vs, t)
    ensures IsFlat(t) ==> SizeMany(vs, t) == |vs| * t.width
    decreases |vs|
  {
    if vs != [] {
      FlatSize(vs[1..], t);
      assert IsFlat(t) ==> (|vs| - 1) * t.width + t.width == |vs| * t.width;
    }
  }

  // -- Decoding ---------------------------------------------------------------

  datatype Decoded<+T> = Read(value: T, rest: Bytes) | NotEnough

  // What a decoded object held before, component by component.
  function Part(before: Value, i: nat): Value {
    if before.Group? && i < |before.parts| then before.parts[i] else Num(0)
  }

  function Tail(vs: seq<Value>): seq<Value> {
    if vs == [] then [] else vs[1..]
  }

  function DecodeNumber(w: nat, b: Bytes): Decoded<Value> {
    if |b| < w then NotEnough else Read(Num(FromLittleEndian(b[..w])), b[w..])
  }

  // Decodes into an object that held `before`. A std::array that is longer than the encoded range
  // keeps its remaining elements.
  function Decode(t: Ty, b: Bytes, before: Value): Decoded<Value>
    decreases t, 0, 0
  {
    match t
    case Scalar(w) => DecodeNumber(w, b)
    case Floating(w) => DecodeNumber(w, b)
    case PairOf(x, y) =>
      (match Decode(x, b, Part(before, 0))
       case NotEnough => NotEnough
       case Read(v, rest) =>
         match Decode(y, rest, Part(before, 1))
         case NotEnough => NotEnough
         case Read(u, rest') => Read(Group([v, u]), rest'))
    case TupleOf(ts) => Grouped(DecodeAll(ts, b, Parts(before)))
    case Struct(ts) => Grouped(DecodeAll(ts, b, Parts(before)))
    case Vector(e) =>
      (match DecodeNumber(SIZE_WIDTH, b)
       case NotEnough => NotEnough
       case Read(n, rest) => Grouped(DecodeRange(e, n.bits, rest, Parts(before))))
    case FixedArray(e, size) =>
      match DecodeNumber(SIZE_WIDTH, b)
      case NotEnough => NotEnough
      case Read(n, rest) =>
        if size < n.bits then NotEnough
        else
          match DecodeRange(e, n.bits, rest, Parts(before))
          case NotEnough => NotEnough
          case Read(vs, rest') => Read(Group(vs + Kept(before, n.bits, size)), rest')
  }

  function Parts(v: Value): seq<Value> {
    if v.Group? then v.parts else []
  }

  // The elements from index n on of an array of the given size.
  function Kept(before: Value, n: nat, size: nat): seq<Value>
    requires n <= size
  {
    seq(size - n, i requires 0 <= i < size - n => Part(before, n + i))
  }

  function Grouped(d: Decoded<seq<Value>>): Decoded<Value> {
    match d
    case NotEnough => NotEnough
    case Read(vs, rest) => Read(Group(vs), rest)
  }

  function DecodeAll(ts: seq<Ty>, b: Bytes, before: seq<Value>): Decoded<seq<Value>>
    decreases ts, 1, 0
  {
    if ts == [] then Read([], b)
    else
      match Decode(ts[0], b, if before == [] then Num(0) else before[0])
      case NotEnough => NotEnough
      case Read(v, rest) =>
        match DecodeAll(ts[1..], rest, Tail(before))
        case NotEnough => NotEnough
        case Read(vs, rest') => Read([v] + vs, rest')
  }

  // A range of trivial elements is checked for its total length before anything is copied.
  function DecodeRange(t: Ty, n: nat, b: Bytes, before: seq<Value>): Decoded<seq<Value>>
    decreases t, 2, n
  {
    if IsTrivial(t) && |b| < n * t.width then NotEnough else DecodeMany(t, n, b, before)
  }

  function DecodeMany(t: Ty, n: nat, b: Bytes, before: seq<Value>): Decoded<seq<Value>>
    decreases t, 1, n
  {
    if n == 0 then Read([], b)
    else
      match Decode(t, b, if before == [] then Num(0) else before[0])
      case NotEnough => NotEnough
      case Read(v, rest) =>
        match DecodeMany(t, n - 1, rest, Tail(before))
        case NotEnough => NotEnough
        case Read(vs, rest') => Read([v] + vs, rest')
  }

  /** The check of a trivial range for its total length rejects exactly what decoding its elements would. */
  lemma {:induction false} BulkCheckExactness(t: Ty, n: nat, b: Bytes, before: seq<Value>)
    ensures DecodeRange(t, n, b, before) == DecodeMany(t, n, b, before)
    decreases n
  {
    if t.Scalar? && |b| < n * t.width && n > 0 && |b| >= t.width {
      var rest := b[t.width..];
      assert (n - 1) * t.width == n * t.width - t.width;
      BulkCheckExactness(t, n - 1, rest, Tail(before));
    }
  }

  // -- Round trip -------------------------------------------------------------

  lemma NumberDecodes(x: nat, w: nat, rest: Bytes)
    requires x < Pow256(w)
    ensures DecodeNumber(w, LittleEndian(x, w) + rest) == Read(Num(x), rest)
  {
    var b := LittleEndian(x, w) + rest;
    assert b[..w] == LittleEndian(x, w) && b[w..] == rest;
    NumberRoundTrip(x, w);
  }

  /** A range read into an array keeps the array's elements behind it, and is rejected exactly if it does not fit. */
  lemma ArrayExactness(v: Value, e: Ty, size: nat, rest: Bytes, before: Value)
    requires HasType(v, Vector(e))
    ensures var d := Decode(FixedArray(e, size), Encode(v, Vector(e)) + rest, before);
            if |v.parts| > size then d == NotEnough
            else
              && d.Read? && d.rest == rest && d.value.Group? && |d.value.parts| == size
              && d.value.parts[..|v.parts|] == v.parts
              && forall i :: |v.parts| <= i < size ==> d.value.parts[i] == Part(before, i)
  {
    hide EncodeMany, LittleEndian, DecodeRange, DecodeNumber, HasType, AllHaveType, Kept;
    var b := Encode(v, Vector(e)) + rest;
    VectorParts(v, e);
    RoundTripRange(v.parts, e, rest, Parts(before));
    assert b == LittleEndian(|v.parts|, SIZE_WIDTH) + EncodeMany(v.parts, e) + rest;
    ArrayDecodes(e, size, b, before, |v.parts|, EncodeMany(v.parts, e) + rest, v.parts, rest);
  }

  lemma VectorParts(v: Value, e: Ty)
    requires HasType(v, Vector(e))
    ensures v.Group? && AllHaveType(v.parts, e) && |v.parts| < SIZE_T
  {
  }

  lemma ArrayDecodes(
    e: Ty, size: nat, b: Bytes, before: Value, n: nat, behind: Bytes, vs: seq<Value>, rest: Bytes)
    requires DecodeNumber(SIZE_WIDTH, b) == Read(Num(n), behind) && |vs| == n
    requires DecodeRange(e, n, behind, Parts(before)) == Read(vs, rest)
    ensures var d := Decode(FixedArray(e, size), b, before);
            if n > size then d == NotEnough
            else
              && d.Read? && d.rest == rest && d.value.Group? && |d.value.parts| == size
              && d.value.parts[..n] == vs
              && forall i :: n <= i < size ==> d.value.parts[i] == Part(before, i)
  {
    hide DecodeNumber, DecodeRange;
    if n <= size {
      var all := vs + Kept(before, n, size);
      assert all[..n] == vs;
    }
  }

  /** Decoding an encoding followed by anything yields the value and leaves exactly what followed. */
  lemma {:induction false} RoundTrip(v: Value, t: Ty, rest: Bytes, before: Value)
    requires HasType(v, t)
    ensures Decode(t, Encode(v, t) + rest, before) == Read(v, rest)
    decreases t, 0, 0
  {
    match t {
      case Scalar(w) => NumberDecodes(v.bits, w, rest);
      case Floating(w) => NumberDecodes(v.bits, w, rest);
      case PairOf(a, b) =>
        var e0, e1 := Encode(v.parts[0], a), Encode(v.parts[1], b);
        assert e0 + e1 + rest == e0 + (e1 + rest);
        RoundTrip(v.parts[0], a, e1 + rest, Part(before, 0));
        RoundTrip(v.parts[1], b, rest, Part(before, 1));
        assert v.parts == [v.parts[0], v.parts[1]];
      case TupleOf(ts) => RoundTripAll(v.parts, ts, rest, Parts(before));
      case Struct(ts) => RoundTripAll(v.parts, ts, rest, Parts(before));
      case Vector(e) => RoundTripRange(v.parts, e, rest, Parts(before));
      case FixedArray(e, n) =>
        RoundTripRange(v.parts, e, rest, Parts(before));
        assert v.parts + Kept(before, n, n) == v.parts;
    }
  }

  lemma {:induction false} RoundTripAll(vs: seq<Value>, ts: seq<Ty>, rest: Bytes, before: seq<Value>)
    requires HaveTypes(vs, ts)
    ensures DecodeAll(ts, EncodeAll(vs, ts) + rest, before) == Read(vs, rest)
    decreases ts, 1, 0
  {
    if ts == [] {
      assert EncodeAll(vs, ts) + rest == rest;
    } else {
      var e0, e1 := Encode(vs[0], ts[0]), EncodeAll(vs[1..], ts[1..]);
      assert e0 + e1 + rest == e0 + (e1 + rest);
      RoundTrip(vs[0], ts[0], e1 + rest, if before == [] then Num(0) else before[0]);
      RoundTripAll(vs[1..], ts[1..], rest, Tail(before));
      assert [vs[0]] + vs[1..] == vs;
    }
  }

  lemma {:induction false} RoundTripMany(vs: seq<Value>, t: Ty, rest: Bytes, before: seq<Value>)
    requires AllHaveType(vs, t)
    ensures DecodeMany(t, |vs|, EncodeMany(vs, t) + rest, before) == Read(vs, rest)
    decreases t, 1, |vs|
  {
    if vs == [] {
      assert EncodeMany(vs, t) + rest == rest;
    } else {
      var e0, e1 := Encode(vs[0], t), EncodeMany(vs[1..], t);
      assert e0 + e1 + rest == e0 + (e1 + rest);
      RoundTrip(vs[0], t, e1 + rest, if before == [] then Num(0) else before[0]);
      RoundTripMany(vs[1..], t, rest, Tail(before));
      assert [vs[0]] + vs[1..] == vs;
    }
  }

  // The length prefix and the elements.
  lemma RoundTripRange(vs: seq<Value>, t: Ty, rest: Bytes, before: seq<Value>)
    requires AllHaveType(vs, t) && |vs| < SIZE_T
    ensures var b := LittleEndian(|vs|, SIZE_WIDTH) + EncodeMany(vs, t) + rest;
            && DecodeNumber(SIZE_WIDTH, b) == Read(Num(|vs|), EncodeMany(vs, t) + rest)
            && DecodeRange(t, |vs|, EncodeMany(vs, t) + rest, before) == Read(vs, rest)
    decreases t, 2, |vs|
  {
    var head, body := LittleEndian(|vs|, SIZE_WIDTH), EncodeMany(vs, t);
    assert head + body + rest == head + (body + rest);
    SizeFits();
    NumberDecodes(|vs|, SIZE_WIDTH, body + rest);
    RoundTripMany(vs, t, rest, before);
    SizeManyExactness(vs, t);
    FlatSize(vs, t);
  }

  // -- Short input ------------------------------------------------------------

  /** Every strict prefix of an encoding is rejected. */
  lemma {:induction false} PrefixRejected(v: Value, t: Ty, k: nat, before: Value)
    requires HasType(v, t) && k < |Encode(v, t)|
    ensures Decode(t, Encode(v, t)[..k], before) == NotEnough
    decreases t, 0, 0
  {
    match t {
      case Scalar(_) =>
      case Floating(_) =>
      case PairOf(a, b) =>
        var e0, e1 := Encode(v.parts[0], a), Encode(v.parts[1], b);
        if k < |e0| {
          assert (e0 + e1)[..k] == e0[..k];
          PrefixRejected(v.parts[0], a, k, Part(before, 0));
        } else {
          assert (e0 + e1)[..k] == e0 + e1[..k - |e0|];
          RoundTrip(v.parts[0], a, e1[..k - |e0|], Part(before, 0));
          PrefixRejected(v.parts[1], b, k - |e0|, Part(before, 1));
        }
      case TupleOf(ts) => PrefixRejectedAll(v.parts, ts, k, Parts(before));
      case Struct(ts) => PrefixRejectedAll(v.parts, ts, k, Parts(before));
      case Vector(e) => PrefixRejectedRange(v.parts, e, k, Parts(before));
      case FixedArray(e, _) => PrefixRejectedRange(v.parts, e, k, Parts(before));
    }
  }

  lemma {:induction false} PrefixRejectedAll(vs: seq<Value>, ts: seq<Ty>, k: nat, before: seq<Value>)
    requires HaveTypes(vs, ts) && k < |EncodeAll(vs, ts)|
    ensures DecodeAll(ts, EncodeAll(vs, ts)[..k], before) == NotEnough
    decreases ts, 1, 0
  {
    var e0, e1 := Encode(vs[0], ts[0]), EncodeAll(vs[1..], ts[1..]);
    var old0 := if before == [] then Num(0) else before[0];
    if k < |e0| {
      assert (e0 + e1)[..k] == e0[..k];
      PrefixRejected(vs[0], ts[0], k, old0);
    } else {
      assert (e0 + e1)[..k] == e0 + e1[..k - |e0|];
      RoundTrip(vs[0], ts[0], e1[..k - |e0|], old0);
      PrefixRejectedAll(vs[1..], ts[1..], k - |e0|, Tail(before));
    }
  }

  lemma {:induction false} PrefixRejectedMany(vs: seq<Value>, t: Ty, k: nat, before: seq<Value>)
    requires AllHaveType(vs, t) && k < |EncodeMany(vs, t)|
    ensures DecodeMany(t, |vs|, EncodeMany(vs, t)[..k], before) == NotEnough
    decreases t, 1, |vs|
  {
    var e0, e1 := Encode(vs[0], t), EncodeMany(vs[1..], t);
    var old0 := if before == [] then Num(0) else before[0];
    if k < |e0| {
      assert (e0 + e1)[..k] == e0[..k];
      PrefixRejected(vs[0], t, k, old0);
    } else {
      assert (e0 + e1)[..k] == e0 + e1[..k - |e0|];
      RoundTrip(vs[0], t, e1[..k - |e0|], old0);
      PrefixRejectedMany(vs[1..], t, k - |e0|, Tail(before));
    }
  }

  lemma PrefixRejectedRange(vs: seq<Value>, t: Ty, k: nat, before: seq<Value>)
    requires AllHaveType(vs, t) && |vs| < SIZE_T
    requires k < SIZE_WIDTH + |EncodeMany(vs, t)|
    ensures var b := (LittleEndian(|vs|, SIZE_WIDTH) + EncodeMany(vs, t))[..k];
            DecodeNumber(SIZE_WIDTH, b) == NotEnough
            || (&& k >= SIZE_WIDTH
                && DecodeNumber(SIZE_WIDTH, b) == Read(Num(|vs|), EncodeMany(vs, t)[..k - SIZE_WIDTH])
                && DecodeRange(t, |vs|, EncodeMany(vs, t)[..k - SIZE_WIDTH], before) == NotEnough)
    decreases t, 2, |vs|
  {
    var head, body := LittleEndian(|vs|, SIZE_WIDTH), EncodeMany(vs, t);
    if k >= SIZE_WIDTH {
      assert (head + body)[..k] == head + body[..k - SIZE_WIDTH];
      SizeFits();
      NumberDecodes(|vs|, SIZE_WIDTH, body[..k - SIZE_WIDTH]);
      PrefixRejectedMany(vs, t, k - SIZE_WIDTH, before);
    }
  }

  // -- The serializer ---------------------------------------------------------

  // What a buffer looks like after `e` has been written at position `at`, growing it where it is too short.
  function Overwritten(buf: Bytes, at: nat, e: Bytes): Bytes
    requires at <= |buf|
  {
    buf[..at] + e + (if at + |e| <= |buf| then buf[at + |e|..] else [])
  }

  lemma OverwrittenTwice(buf: Bytes, at: nat, e: Bytes, f: Bytes)
    ensures at <= |buf| ==>
              Overwritten(Overwritten(buf, at, e), at + |e|, f) == Overwritten(buf, at, e + f)
  {
  }

  // Successive calls of operator() on one serializer.
  function WriteAll(buf: Bytes, at: nat, es: seq<Bytes>): Bytes
    requires at <= |buf|
    decreases |es|
  {
    if es == [] then buf else WriteAll(Overwritten(buf, at, es[0]), at + |es[0]|, es[1..])
  }

  /** Successive calls append: together they write the concatenated encodings over the start of the buffer. */
  lemma {:induction false} CallsAppend(buf: Bytes, at: nat, es: seq<Bytes>)
    requires at <= |buf|
    ensures WriteAll(buf, at, es) == Overwritten(buf, at, Flat(es))
    decreases |es|
  {
    if es == [] {
      assert Overwritten(buf, at, []) == buf;
    } else {
      CallsAppend(Overwritten(buf, at, es[0]), at + |es[0]|, es[1..]);
      OverwrittenTwice(buf, at, es[0], Flat(es[1..]));
    }
  }

  // The raw memory of an array of trivial elements.
  function Memory(vs: seq<Value>, width: nat): Bytes
    requires forall i :: 0 <= i < |vs| ==> vs[i].Num?
  {
    if vs == [] then [] else LittleEndian(vs[0].bits, width) + Memory(vs[1..], width)
  }

  lemma {:induction false} MemoryIsEncoding(vs: seq<Value>, t: Ty)
    requires AllHaveType(vs, t) && IsTrivial(t)
    ensures forall i :: 0 <= i < |vs| ==> vs[i].Num?
    ensures Memory(vs, t.width) == EncodeMany(vs, t)
    decreases |vs|
  {
    if vs != [] {
      MemoryIsEncoding(vs[1..], t);
      forall i | 0 <= i < |vs| ensures vs[i].Num? {
        assert i > 0 ==> vs[i] == vs[1..][i - 1];
      }
    }
  }

  lemma {:induction false} TypesAt(vs: seq<Value>, ts: seq<Ty>, i: nat)
    requires HaveTypes(vs, ts) && i < |ts|
    ensures HasType(vs[i], ts[i])
    ensures HaveTypes(vs[i..], ts[i..])
    ensures HaveTypes(vs[i + 1..], ts[i + 1..])
    ensures EncodeAll(vs[i..], ts[i..]) == Encode(vs[i], ts[i]) + EncodeAll(vs[i + 1..], ts[i + 1..])
    decreases i
  {
    if i == 0 {
      assert vs[0..] == vs && ts[0..] == ts;
    } else {
      TypesAt(vs[1..], ts[1..], i - 1);
      assert vs[1..][i - 1..] == vs[i..] && ts[1..][i - 1..] == ts[i..];
      assert vs[1..][i..] == vs[i + 1..] && ts[1..][i..] == ts[i + 1..];
    }
  }

  lemma {:induction false} ElementAt(vs: seq<Value>, t: Ty, i: nat)
    requires AllHaveType(vs, t) && i < |vs|
    ensures HasType(vs[i], t)
    ensures AllHaveType(vs[i..], t)
    ensures AllHaveType(vs[i + 1..], t)
    ensures EncodeMany(vs[i..], t) == Encode(vs[i], t) + EncodeMany(vs[i + 1..], t)
    decreases i
  {
    if i == 0 {
      assert vs[0..] == vs;
    } else {
      ElementAt(vs[1..], t, i - 1);
      assert vs[1..][i - 1..] == vs[i..] && vs[1..][i..] == vs[i + 1..];
    }
  }

  // The space an object needs, part by part, in terms of the encodings of its parts.
  lemma ExpectedSpace(v: Value, t: Ty)
    requires HasType(v, t)
    ensures t.PairOf? ==> Size(v, t) == Size(v.parts[0], t.first) + Size(v.parts[1], t.second)
    ensures t.TupleOf? ==> Size(v, t) == SizeAll(v.parts, t.elems)
    ensures t.Struct? ==> Size(v, t) == SizeAll(v.parts, t.fields)
    ensures t.Vector? || t.FixedArray? ==> Size(v, t) == SIZE_WIDTH + SizeMany(v.parts, t.elem)
  {
    if t.Vector? || t.FixedArray? {
      FlatSize(v.parts, t.elem);
    }
  }

  lemma EncodeEnds(vs: seq<Value>, ts: seq<Ty>, t: Ty)
    ensures HaveTypes(vs, ts) ==> |vs| == |ts| && (ts == [] ==> EncodeAll(vs, ts) == [])
    ensures AllHaveType(vs, t) && vs == [] ==> EncodeMany(vs, t) == []
  {
  }

  lemma OverwrittenLaws(buf: Bytes, at: nat, e: Bytes)
    requires at <= |buf|
    ensures at + |e| <= |buf| ==> |Overwritten(buf, at, e)| == |buf|
    ensures Overwritten(buf, at, []) == buf
  {
  }

  class Serializer {
    var buf: Bytes
    // free_space_: where the window starts and how long it is.
    var freeStart: nat
    var freeSize: nat

    // The window is a suffix of the buffer.
    ghost predicate Valid()
      reads this
    {
      freeStart + freeSize == |buf|
    }

    constructor (buf: Bytes)
      ensures Valid() && this.buf == buf && freeStart == 0
    {
      this.buf, freeStart, freeSize := buf, 0, |buf|;
    }

    method Realloc(required: nat)
      requires Valid()
      modifies this
      ensures Valid()
      ensures freeStart == old(freeStart)
      ensures freeSize >= required
      ensures old(buf) <= buf
      ensures required <= old(freeSize) ==> buf == old(buf)
      ensures required >= old(freeSize) ==> freeSize == required
    {
      if freeSize < required {
        var missing := required - freeSize;
        buf := buf + seq(missing, _ => 0);
        freeStart := |buf| - required;
        freeSize := required;
      }
    }

    // memcpy into the window, which then moves on.
    method Put(bytes: Bytes)
      requires Valid() && |bytes| <= freeSize
      modifies this
      ensures Valid()
      ensures |buf| == |old(buf)|
      ensures freeStart == old(freeStart) + |bytes|
      ensures buf == Overwritten(old(buf), old(freeStart), bytes)
    {
      buf := buf[..freeStart] + bytes + buf[freeStart + |bytes|..];
      freeStart := freeStart + |bytes|;
      freeSize := freeSize - |bytes|;
    }

    // The serialize overloads: never reallocates, because the space was reserved by the outermost call.
    method SerializeValue(v: Value, t: Ty)
      requires Valid() && HasType(v, t) && Size(v, t) <= freeSize
      modifies this
      ensures Valid()
      ensures |buf| == |old(buf)|
      ensures freeStart == old(freeStart) + Size(v, t)
      ensures buf == Overwritten(old(buf), old(freeStart), Encode(v, t))
      decreases t, 0
    {
      hide Overwritten, HaveTypes, AllHaveType, EncodeAll, EncodeMany, LittleEndian, Pow256;
      SizeExactness(v, t);
      ExpectedSpace(v, t);
      match t {
        case Scalar(w) => Put(LittleEndian(v.bits, w));
        case Floating(w) => Put(LittleEndian(v.bits, w));
        case PairOf(a, b) =>
          SizeExactness(v.parts[0], a);
          SerializeValue(v.parts[0], a);
          SerializeValue(v.parts[1], b);
          OverwrittenTwice(old(buf), old(freeStart), Encode(v.parts[0], a), Encode(v.parts[1], b));
        case TupleOf(ts) => SerializeEach(v.parts, ts);
        case Struct(ts) => Call(v.parts, ts);
        case Vector(e) => SerializeRange(v.parts, e);
        case FixedArray(e, _) => SerializeRange(v.parts, e);
      }
    }

    method SerializeEach(vs: seq<Value>, ts: seq<Ty>)
      requires Valid() && HaveTypes(vs, ts) && SizeAll(vs, ts) <= freeSize
      modifies this
      ensures Valid()
      ensures |buf| == |old(buf)|
      ensures freeStart == old(freeStart) + SizeAll(vs, ts)
      ensures buf == Overwritten(old(buf), old(freeStart), EncodeAll(vs, ts))
      decreases ts, 0
    {
      hide Overwritten, EncodeAll, Encode, SizeAll, Size, HaveTypes, HasType;
      SizeAllExactness(vs, ts);
      OverwrittenLaws(buf, freeStart, []);
      EncodeEnds(vs, ts, Scalar(1));
      ghost var written: Bytes := [];
      assert vs[0..] == vs && ts[0..] == ts;
      for i := 0 to |ts|
        invariant Valid() && |buf| == |old(buf)| && freeStart == old(freeStart) + |written|
        invariant HaveTypes(vs[i..], ts[i..]) && written + EncodeAll(vs[i..], ts[i..]) == EncodeAll(vs, ts)
        invariant buf == Overwritten(old(buf), old(freeStart), written)
      {
        TypesAt(vs, ts, i);
        SizeExactness(vs[i], ts[i]);
        SerializeValue(vs[i], ts[i]);
        OverwrittenTwice(old(buf), old(freeStart), written, Encode(vs[i], ts[i]));
        written := written + Encode(vs[i], ts[i]);
      }
      EncodeEnds(vs[|ts|..], ts[|ts|..], Scalar(1));
      assert written + [] == written;
    }

    // operator(): reserves space for all arguments, then serializes them; visit() comes back here.
    method Call(vs: seq<Value>, ts: seq<Ty>)
      requires Valid() && HaveTypes(vs, ts)
      modifies this
      ensures Valid() && freeStart == old(freeStart) + SizeAll(vs, ts)
      ensures SizeAll(vs, ts) <= old(freeSize) ==> |buf| == |old(buf)|
      ensures buf == Overwritten(old(buf), old(freeStart), EncodeAll(vs, ts))
      decreases ts, 1
    {
      SizeAllExactness(vs, ts);
      Realloc(SizeAll(vs, ts));
      ghost var grown := buf;
      SerializeEach(vs, ts);
      assert Overwritten(grown, old(freeStart), EncodeAll(vs, ts))
          == Overwritten(old(buf), old(freeStart), EncodeAll(vs, ts));
    }

    method SerializeRange(vs: seq<Value>, t: Ty)
      requires Valid() && AllHaveType(vs, t) && SIZE_WIDTH + SizeMany(vs, t) <= freeSize
      modifies this
      ensures Valid()
      ensures |buf| == |old(buf)|
      ensures freeStart == old(freeStart) + SIZE_WIDTH + SizeMany(vs, t)
      ensures buf == Overwritten(old(buf), old(freeStart), LittleEndian(|vs|, SIZE_WIDTH) + EncodeMany(vs, t))
      decreases t, 1
    {
      hide Overwritten, EncodeMany, Encode, SizeMany, Size, AllHaveType, HasType, LittleEndian;
      SizeManyExactness(vs, t);
      var head := LittleEndian(|vs|, SIZE_WIDTH);
      Put(head);
      if IsTrivial(t) {
        MemoryIsEncoding(vs, t);
        Put(Memory(vs, t.width));
        OverwrittenTwice(old(buf), old(freeStart), head, EncodeMany(vs, t));
      } else {
        ghost var written: Bytes := head;
        assert vs[0..] == vs;
        for i := 0 to |vs|
          invariant Valid() && |buf| == |old(buf)| && freeStart == old(freeStart) + |written|
          invariant AllHaveType(vs[i..], t) && written + EncodeMany(vs[i..], t) == head + EncodeMany(vs, t)
          invariant buf == Overwritten(old(buf), old(freeStart), written)
        {
          ElementAt(vs, t, i);
          SizeExactness(vs[i], t);
          SerializeValue(vs[i], t);
          OverwrittenTwice(old(buf), old(freeStart), written, Encode(vs[i], t));
          written := written + Encode(vs[i], t);
        }
        EncodeEnds(vs[|vs|..], [], t);
        assert written + [] == written;
      }
    }
  }

  // -- The deserializer -------------------------------------------------------

  class Deserializer {
    var bytes: Bytes

    constructor (bytes: Bytes)
      ensures this.bytes == bytes
    {
      this.bytes := bytes;
    }

    // Fills an object that held `before`; false stands for the exception.
    method Deserialize(t: Ty, before: Value) returns (ok: bool, v: Value)
      modifies this
      ensures ok <==> Decode(t, old(bytes), before).Read?
      ensures ok ==> Decode(t, old(bytes), before) == Read(v, bytes)
      decreases t, 0
    {
      v := before;
      match t {
        case Scalar(w) => ok, v := TakeNumber(w);
        case Floating(w) => ok, v := TakeNumber(w);
        case PairOf(a, b) =>
          var x, y;
          ok, x := Deserialize(a, Part(before, 0));
          if !ok {
            return;
          }
          ok, y := Deserialize(b, Part(before, 1));
          v := Group([x, y]);
        case TupleOf(ts) =>
          var vs;
          ok, vs := DeserializeEach(ts, Parts(before));
          v := Group(vs);
        case Struct(ts) =>
          var vs;
          ok, vs := DeserializeEach(ts, Parts(before));
          v := Group(vs);
        case Vector(e) =>
          var n, vs;
          ok, n := TakeNumber(SIZE_WIDTH);
          if !ok {
            return;
          }
          ok, vs := DeserializeRange(e, n.bits, Parts(before));
          v := Group(vs);
        case FixedArray(e, size) =>
          var n, vs;
          ok, n := TakeNumber(SIZE_WIDTH);
          if !ok {
            return;
          }
          if size < n.bits {
            return false, before;
          }
          ok, vs := DeserializeRange(e, n.bits, Parts(before));
          v := Group(vs + Kept(before, n.bits, size));
      }
    }

    method TakeNumber(width: nat) returns (ok: bool, v: Value)
      modifies this
      ensures v.Num?
      ensures ok <==> DecodeNumber(width, old(bytes)).Read?
      ensures ok ==> DecodeNumber(width, old(bytes)) == Read(v, bytes)
    {
      if |bytes| < width {
        return false, Num(0);
      }
      v := Num(FromLittleEndian(bytes[..width]));
      bytes := bytes[width..];
      ok := true;
    }

    method DeserializeEach(ts: seq<Ty>, before: seq<Value>) returns (ok: bool, vs: seq<Value>)
      modifies this
      ensures ok <==> DecodeAll(ts, old(bytes), before).Read?
      ensures ok ==> DecodeAll(ts, old(bytes), before) == Read(vs, bytes)
      decreases ts, 1
    {
      vs := [];
      if ts == [] {
        return true, [];
      }
      var v, rest;
      ok, v := Deserialize(ts[0], if before == [] then Num(0) else before[0]);
      if ok {
        ok, rest := DeserializeEach(ts[1..], Tail(before));
        vs := [v] + rest;
      }
    }

    method DeserializeRange(t: Ty, n: nat, before: seq<Value>) returns (ok: bool, vs: seq<Value>)
      modifies this
      ensures ok <==> DecodeRange(t, n, old(bytes), before).Read?
      ensures ok ==> DecodeRange(t, n, old(bytes), before) == Read(vs, bytes)
      decreases t, 2
    {
      if IsTrivial(t) && |bytes| < n * t.width {
        return false, [];
      }
      vs := [];
      ghost var b := bytes;
      var olds := before;
      PrependedNone(DecodeMany(t, n, b, before));
      var i: nat := 0;
      while i < n
        invariant i <= n
        invariant Prepended(vs, DecodeMany(t, n - i, bytes, olds)) == DecodeMany(t, n, b, before)
      {
        var v;
        ok, v := Deserialize(t, if olds == [] then Num(0) else olds[0]);
        if !ok {
          return;
        }
        PrependedOne(vs, v, DecodeMany(t, n - i - 1, bytes, Tail(olds)));
        vs := vs + [v];
        olds := Tail(olds);
        i := i + 1;
      }
      assert Prepended(vs, DecodeMany(t, 0, bytes, olds)) == Read(vs + [], bytes);
      assert vs + [] == vs;
      ok := true;
    }
  }

  // The elements decoded already, in front of the outcome for the rest.
  function Prepended(vs: seq<Value>, d: Decoded<seq<Value>>): Decoded<seq<Value>> {
    match d
    case NotEnough => NotEnough
    case Read(us, rest) => Read(vs + us, rest)
  }

  lemma PrependedNone(d: Decoded<seq<Value>>)
    ensures Prepended([], d) == d
  {
    if d.Read? {
      assert [] + d.value == d.value;
    }
  }

  lemma PrependedOne(vs: seq<Value>, v: Value, d: Decoded<seq<Value>>)
    ensures Prepended(vs, Prepended([v], d)) == Prepended(vs + [v], d)
  {
    if d.Read? {
      assert vs + ([v] + d.value) == vs + [v] + d.value;
    }
  }
}
