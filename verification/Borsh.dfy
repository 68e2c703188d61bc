/** Borsh, directed by a schema: little-endian integers, u32 length prefixes, one-byte option tags,
fields in declaration order (Borsh specification). */
module Borsh {
  import opened Hashing
  import opened Halving
  import opened Outcomes

  datatype Schema =
    | U8
    | U64
    | Fixed32
    | Vec(elem: Schema)
    | Opt(elem: Schema)
    | Pair(first: Schema, second: Schema)

  datatype Value =
    | Num(n: nat)
    | Raw(bytes: Digest)
    | List(items: seq<Value>)
    | Absent
    | Present(value: Value)
    | Both(first: Value, second: Value)

  const U32_LIMIT: nat := 0x1_0000_0000

  /** Values the encoder accepts: integers in range and vectors whose length fits the prefix. */
  ghost predicate HasType(s: Schema, v: Value)
    decreases s
  {
    match s
    case U8 => v.Num? && v.n < 256
    case U64 => v.Num? && v.n < U64_LIMIT
    case Fixed32 => v.Raw?
    case Vec(e) => v.List? && |v.items| < U32_LIMIT && forall x | x in v.items :: HasType(e, x)
    case Opt(e) => v.Absent? || (v.Present? && HasType(e, v.value))
    case Pair(a, b) => v.Both? && HasType(a, v.first) && HasType(b, v.second)
  }

  // ---------------------------------------------------------------- integers

  function Bound(k: nat): (b: nat)
    ensures b >= 1
  {
    if k == 0 then 1 else 256 * Bound(k - 1)
  }

  function LeBytes(n: nat, k: nat): (bytes: Bytes)
    ensures |bytes| == k
    decreases k
  {
    if k == 0 then [] else [n % 256] + LeBytes(n / 256, k - 1)
  }

  lemma {:induction false} LeNatOfLeBytes(n: nat, k: nat)
    requires n < Bound(k)
    ensures LeNat(LeBytes(n, k)) == n
    decreases k
  {
    if k > 0 {
      LeNatOfLeBytes(n / 256, k - 1);
      assert LeBytes(n, k)[1..] == LeBytes(n / 256, k - 1);
    }
  }

  lemma {:induction false} LeBytesOfLeNat(bytes: Bytes)
    ensures LeNat(bytes) < Bound(|bytes|) && LeBytes(LeNat(bytes), |bytes|) == bytes
    decreases |bytes|
  {
    if bytes != [] {
      LeBytesOfLeNat(bytes[1..]);
      LowByte(bytes[0], LeNat(bytes[1..]));
      assert bytes == [bytes[0]] + bytes[1..];
    }
  }

  lemma {:induction false} LowByte(b: Byte, m: nat)
    ensures (b + 256 * m) % 256 == b && (b + 256 * m) / 256 == m
  {
  }

  lemma {:induction false} Bounds()
    ensures Bound(4) == U32_LIMIT && Bound(8) == U64_LIMIT
  {
    assert Bound(1) == 256 && Bound(2) == 0x1_0000 && Bound(3) == 0x100_0000 && Bound(4) == U32_LIMIT;
    assert Bound(5) == 0x100_0000_0000 && Bound(6) == 0x1_0000_0000_0000 && Bound(7) == 0x100_0000_0000_0000;
  }

  // ---------------------------------------------------------------- encoding

  function Encode(s: Schema, v: Value): Bytes
    requires HasType(s, v)
    decreases s, 0
  {
    match s
    case U8 => [v.n]
    case U64 => LeBytes(v.n, 8)
    case Fixed32 => v.bytes
    case Vec(e) => LeBytes(|v.items|, 4) + EncodeItems(e, v.items)
    case Opt(e) => if v.Absent? then [0] else [1] + Encode(e, v.value)
    case Pair(a, b) => Encode(a, v.first) + Encode(b, v.second)
  }

  function EncodeItems(e: Schema, items: seq<Value>): Bytes
    requires forall x | x in items :: HasType(e, x)
    decreases e, 1, |items|
  {
    if items == [] then [] else Encode(e, items[0]) + EncodeItems(e, items[1..])
  }

  // ---------------------------------------------------------------- decoding

  /** A decoded value and the bytes left over. */
  type Decoded = Option<(Value, Bytes)>

  function Decode(s: Schema, b: Bytes): Decoded
    decreases s, 0
  {
    match s
    case U8 => if |b| < 1 then None else Some((Num(b[0]), b[1..]))
    case U64 => if |b| < 8 then None else Some((Num(LeNat(b[..8])), b[8..]))
    case Fixed32 => if |b| < 32 then None else Some((Raw(b[..32]), b[32..]))
    case Vec(e) =>
      if |b| < 4 then None
      else
        (match DecodeItems(e, LeNat(b[..4]), b[4..])
         case None => None
         case Some((items, rest)) => Some((List(items), rest)))
    case Opt(e) =>
      if |b| < 1 || b[0] > 1 then None
      else if b[0] == 0 then Some((Absent, b[1..]))
      else
        (match Decode(e, b[1..])
         case None => None
         case Some((v, rest)) => Some((Present(v), rest)))
    case Pair(x, y) =>
      match Decode(x, b)
      case None => None
      case Some((v, rest)) =>
        match Decode(y, rest)
        case None => None
        case Some((w, rest')) => Some((Both(v, w), rest'))
  }

  function DecodeItems(e: Schema, n: nat, b: Bytes): Option<(seq<Value>, Bytes)>
    decreases e, 1, n
  {
    if n == 0 then Some(([], b))
    else
      match Decode(e, b)
      case None => None
      case Some((v, rest)) =>
        match DecodeItems(e, n - 1, rest)
        case None => None
        case Some((items, rest')) => Some(([v] + items, rest'))
  }

  // ---------------------------------------------------------------- decoding undoes encoding

  lemma {:induction false} Assoc(a: Bytes, b: Bytes, c: Bytes)
    ensures a + b + c == a + (b + c)
  {
  }

  lemma {:induction false} DecodeEncodeScalar(s: Schema, v: Value, rest: Bytes)
    requires HasType(s, v) && (s.U8? || s.U64? || s.Fixed32?)
    ensures Decode(s, Encode(s, v) + rest) == Some((v, rest))
  {
    var b := Encode(s, v) + rest;
    if s.U64? {
      Bounds();
      LeNatOfLeBytes(v.n, 8);
      assert b[..8] == LeBytes(v.n, 8) && b[8..] == rest;
    } else if s.Fixed32? {
      assert b[..32] == v.bytes && b[32..] == rest;
    }
  }

  lemma {:induction false} DecodeEncode(s: Schema, v: Value, rest: Bytes)
    requires HasType(s, v)
    ensures Decode(s, Encode(s, v) + rest) == Some((v, rest))
    decreases s, 1
  {
    match s
    case U8 => DecodeEncodeScalar(s, v, rest);
    case U64 => DecodeEncodeScalar(s, v, rest);
    case Fixed32 => DecodeEncodeScalar(s, v, rest);
    case Vec(e) => DecodeEncodeVec(e, v.items, rest);
    case Opt(e) => DecodeEncodeOpt(e, v, rest);
    case Pair(x, y) => DecodeEncodePair(x, y, v.first, v.second, rest);
  }

  lemma {:induction false} DecodeEncodeOpt(e: Schema, v: Value, rest: Bytes)
    requires HasType(Opt(e), v)
    ensures Decode(Opt(e), Encode(Opt(e), v) + rest) == Some((v, rest))
    decreases Opt(e), 0
  {
    var b := Encode(Opt(e), v) + rest;
    if v.Present? {
      var body := Encode(e, v.value) + rest;
      Assoc([1], Encode(e, v.value), rest);
      assert b == [1] + body;
      assert b[0] == 1 && b[1..] == body;
      DecodeEncode(e, v.value, rest);
    } else {
      assert b == [0] + rest;
      assert b[0] == 0 && b[1..] == rest;
    }
  }

  lemma {:induction false} DecodeEncodePair(x: Schema, y: Schema, v: Value, w: Value, rest: Bytes)
    requires HasType(x, v) && HasType(y, w)
    ensures Decode(Pair(x, y), Encode(Pair(x, y), Both(v, w)) + rest) == Some((Both(v, w), rest))
    decreases Pair(x, y), 0
  {
    Assoc(Encode(x, v), Encode(y, w), rest);
    DecodeEncode(x, v, Encode(y, w) + rest);
    DecodeEncode(y, w, rest);
  }

  lemma {:induction false} DecodeEncodeVec(e: Schema, items: seq<Value>, rest: Bytes)
    requires HasType(Vec(e), List(items))
    ensures Decode(Vec(e), Encode(Vec(e), List(items)) + rest) == Some((List(items), rest))
    decreases Vec(e), 0
  {
    var len, body := LeBytes(|items|, 4), EncodeItems(e, items);
    var b := Encode(Vec(e), List(items)) + rest;
    Bounds();
    LeNatOfLeBytes(|items|, 4);
    Assoc(len, body, rest);
    assert b == len + (body + rest) && b[..4] == len && b[4..] == body + rest;
    DecodeEncodeItems(e, items, rest);
  }

  lemma {:induction false} DecodeEncodeItems(e: Schema, items: seq<Value>, rest: Bytes)
    requires forall x | x in items :: HasType(e, x)
    ensures DecodeItems(e, |items|, EncodeItems(e, items) + rest) == Some((items, rest))
    decreases e, 2, |items|
  {
    if items == [] {
      assert EncodeItems(e, items) + rest == rest;
    } else {
      var head, tail := Encode(e, items[0]), EncodeItems(e, items[1..]);
      Assoc(head, tail, rest);
      assert EncodeItems(e, items) + rest == head + (tail + rest);
      DecodeEncode(e, items[0], tail + rest);
      DecodeEncodeItems(e, items[1..], rest);
      assert items == [items[0]] + items[1..];
    }
  }

  // ---------------------------------------------------------------- encoding undoes decoding

  lemma {:induction false} EncodeDecode(s: Schema, b: Bytes)
    requires Decode(s, b).Some?
    ensures var (v, rest) := Decode(s, b).value; HasType(s, v) && b == Encode(s, v) + rest
    decreases s, 2
  {
    match s
    case U8 =>
    case U64 => EncodeDecodeU64(b);
    case Fixed32 =>
    case Vec(e) => EncodeDecodeVec(e, b);
    case Opt(e) => EncodeDecodeOpt(e, b);
    case Pair(x, y) => EncodeDecodePair(x, y, b);
  }

  lemma {:induction false} EncodeDecodeOpt(e: Schema, b: Bytes)
    requires Decode(Opt(e), b).Some?
    ensures var (v, rest) := Decode(Opt(e), b).value; HasType(Opt(e), v) && b == Encode(Opt(e), v) + rest
    decreases Opt(e), 0
  {
    assert b == [b[0]] + b[1..];
    if b[0] == 1 {
      EncodeDecode(e, b[1..]);
      var (v, rest) := Decode(e, b[1..]).value;
      Assoc([1], Encode(e, v), rest);
    }
  }

  lemma {:induction false} EncodeDecodePair(x: Schema, y: Schema, b: Bytes)
    requires Decode(Pair(x, y), b).Some?
    ensures var (v, rest) := Decode(Pair(x, y), b).value; HasType(Pair(x, y), v) && b == Encode(Pair(x, y), v) + rest
    decreases Pair(x, y), 0
  {
    EncodeDecode(x, b);
    var (v, rest) := Decode(x, b).value;
    EncodeDecode(y, rest);
    var (w, rest') := Decode(y, rest).value;
    Assoc(Encode(x, v), Encode(y, w), rest');
  }

  lemma {:induction false} EncodeDecodeU64(b: Bytes)
    requires Decode(U64, b).Some?
    ensures var (v, rest) := Decode(U64, b).value; HasType(U64, v) && b == Encode(U64, v) + rest
  {
    Bounds();
    LeBytesOfLeNat(b[..8]);
    assert b == b[..8] + b[8..];
  }

  lemma {:induction false} EncodeDecodeVec(e: Schema, b: Bytes)
    requires Decode(Vec(e), b).Some?
    ensures var (v, rest) := Decode(Vec(e), b).value; HasType(Vec(e), v) && b == Encode(Vec(e), v) + rest
    decreases Vec(e), 0
  {
    Bounds();
    var len, body := b[..4], b[4..];
    assert b == len + body;
    LeBytesOfLeNat(len);
    EncodeDecodeItems(e, LeNat(len), body);
    var (items, rest) := DecodeItems(e, LeNat(len), body).value;
    Assoc(len, EncodeItems(e, items), rest);
  }

  lemma {:induction false} EncodeDecodeItems(e: Schema, n: nat, b: Bytes)
    requires DecodeItems(e, n, b).Some?
    ensures var (items, rest) := DecodeItems(e, n, b).value;
      |items| == n && (forall x | x in items :: HasType(e, x)) && b == EncodeItems(e, items) + rest
    decreases e, 3, n
  {
    if n > 0 {
      EncodeDecode(e, b);
      var (v, rest) := Decode(e, b).value;
      EncodeDecodeItems(e, n - 1, rest);
      var (tail, rest') := DecodeItems(e, n - 1, rest).value;
      ItemsCons(e, v, tail, rest');
    }
  }

  lemma {:induction false} ItemsCons(e: Schema, v: Value, tail: seq<Value>, rest: Bytes)
    requires HasType(e, v) && forall x | x in tail :: HasType(e, x)
    ensures forall x | x in [v] + tail :: HasType(e, x)
    ensures EncodeItems(e, [v] + tail) + rest == Encode(e, v) + (EncodeItems(e, tail) + rest)
  {
    assert ([v] + tail)[1..] == tail;
    Assoc(Encode(e, v), EncodeItems(e, tail), rest);
  }

  // ---------------------------------------------------------------- records

  type Fields = seq<Value>

  ghost predicate FieldsHaveType(layout: seq<Schema>, vs: Fields) {
    |vs| == |layout| && forall i | 0 <= i < |vs| :: HasType(layout[i], vs[i])
  }

  function EncodeFields(layout: seq<Schema>, vs: Fields): Bytes
    requires FieldsHaveType(layout, vs)
    decreases |vs|
  {
    if vs == [] then [] else Encode(layout[0], vs[0]) + EncodeFields(layout[1..], vs[1..])
  }

  function DecodeFields(layout: seq<Schema>, b: Bytes): Option<(Fields, Bytes)>
    decreases |layout|
  {
    if layout == [] then Some(([], b))
    else
      match Decode(layout[0], b)
      case None => None
      case Some((v, rest)) =>
        match DecodeFields(layout[1..], rest)
        case None => None
        case Some((vs, rest')) => Some(([v] + vs, rest'))
  }

  /** Decode a whole input; bytes left over are an error. */
  function FromSlice(layout: seq<Schema>, b: Bytes): Option<Fields> {
    match DecodeFields(layout, b)
    case Some((vs, rest)) => if rest == [] then Some(vs) else None
    case None => None
  }

  lemma {:induction false} DecodeEncodeFields(layout: seq<Schema>, vs: Fields, rest: Bytes)
    requires FieldsHaveType(layout, vs)
    ensures DecodeFields(layout, EncodeFields(layout, vs) + rest) == Some((vs, rest))
    decreases |vs|
  {
    var b := EncodeFields(layout, vs) + rest;
    if vs == [] {
      assert b == rest;
    } else {
      assert b == Encode(layout[0], vs[0]) + (EncodeFields(layout[1..], vs[1..]) + rest);
      DecodeEncode(layout[0], vs[0], EncodeFields(layout[1..], vs[1..]) + rest);
      DecodeEncodeFields(layout[1..], vs[1..], rest);
      assert vs == [vs[0]] + vs[1..];
    }
  }

  lemma {:induction false} EncodeDecodeFields(layout: seq<Schema>, b: Bytes)
    requires DecodeFields(layout, b).Some?
    ensures var (vs, rest) := DecodeFields(layout, b).value;
      FieldsHaveType(layout, vs) && b == EncodeFields(layout, vs) + rest
    decreases |layout|
  {
    if layout != [] {
      EncodeDecode(layout[0], b);
      var (v, rest) := Decode(layout[0], b).value;
      EncodeDecodeFields(layout[1..], rest);
      var (vs, rest') := DecodeFields(layout, b).value;
      assert vs[0] == v && vs[1..] == DecodeFields(layout[1..], rest).value.0;
    }
  }

  lemma {:induction false} DecodeFieldsSplit(a: seq<Schema>, c: seq<Schema>, b: Bytes)
    ensures DecodeFields(a + c, b) ==
      match DecodeFields(a, b)
      case None => None
      case Some((vs, rest)) =>
        match DecodeFields(c, rest)
        case None => None
        case Some((ws, rest')) => Some((vs + ws, rest'))
    decreases |a|
  {
    if a == [] {
      assert a + c == c;
      match DecodeFields(c, b)
      case None =>
      case Some((ws, rest')) => assert [] + ws == ws;
    } else {
      assert (a + c)[1..] == a[1..] + c;
      match Decode(a[0], b)
      case None =>
      case Some((v, rest)) =>
        DecodeFieldsSplit(a[1..], c, rest);
        match DecodeFields(a[1..], rest)
        case None =>
        case Some((vs, r)) =>
          match DecodeFields(c, r)
          case None =>
          case Some((ws, r')) => assert [v] + (vs + ws) == [v] + vs + ws;
    }
  }

  /** The bytes of a record never decode as the same record with optional fields appended: the next
  tag byte is missing. */
  lemma {:induction false} ShorterLayoutFails(layout: seq<Schema>, more: seq<Schema>, vs: Fields)
    requires FieldsHaveType(layout, vs)
    requires more != [] && more[0].Opt?
    ensures FromSlice(layout + more, EncodeFields(layout, vs)) == None
  {
    var b := EncodeFields(layout, vs);
    assert b + [] == b;
    DecodeEncodeFields(layout, vs, []);
    DecodeFieldsSplit(layout, more, b);
  }
}
