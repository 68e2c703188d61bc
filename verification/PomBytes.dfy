/** The bytes of a proof on the wire, field by field as the structs declare them (src/pom.rs:56-96,
228-285, src/pom_v3.rs:36-57, src/pom_v4.rs:25-36). Nothing here goes through a schema: the encoder and
the decoder could agree on any order of the fields, this is the one the node reads. */
module PomBytes {
  import opened Hashing
  import opened Halving
  import opened Borsh
  import opened PossessionWalk
  import opened PomWire
  import opened Outcomes

  /** Little-endian u32 and u64. */
  function Le4(n: nat): Bytes {
    [n % 256, n / 0x100 % 256, n / 0x1_0000 % 256, n / 0x100_0000 % 256]
  }

  function Le8(n: nat): Bytes {
    Le4(n) + Le4(n / 0x1_0000_0000)
  }

  function Concat<T>(g: T -> Bytes, xs: seq<T>): Bytes {
    if xs == [] then [] else g(xs[0]) + Concat(g, xs[1..])
  }

  function Same(bs: Bytes): Bytes { bs }
  function Joined(parts: seq<Bytes>): Bytes { Concat(Same, parts) }

  /** A vector: its length, then its elements. */
  function Counted<T>(g: T -> Bytes, xs: seq<T>): Bytes {
    Le4(|xs|) + Concat(g, xs)
  }

  function Hash(d: Digest): Bytes { d }
  function Hashes(ds: seq<Digest>): Bytes { Counted(Hash, ds) }
  function Text(bs: Bytes): Bytes { Le4(|bs|) + bs }

  function OpeningBytes(o: PomOpening): Bytes {
    Le8(o.stateBefore) + (o.chunk
      + (Hashes(o.weightPath) + (Hashes(o.tracePathBefore) + Hashes(o.tracePathAfter))))
  }

  function StepBytes(s: PomStep): Bytes {
    s.chunk + Hashes(s.weightPath)
  }

  function StepsBytes(ss: seq<PomStep>): Bytes { Counted(StepBytes, ss) }

  function V3OpeningBytes(o: PomV3Opening): Bytes {
    Text(o.rowBefore) + (Hashes(o.pathBefore) + (Text(o.rowAfter) + (Hashes(o.pathAfter)
      + (Text(o.tileCol) + (Hashes(o.colPath) + Hashes(o.snippetPath))))))
  }

  function V3Bytes(p: PomProofV3): Bytes {
    [p.tier] + (Hashes(p.roots) + (Hashes(p.snippets) + Counted(V3OpeningBytes, p.checks)))
  }

  function V4Bytes(p: WalkProof): Bytes
    requires p.tier < 256
  {
    [p.tier] + (Counted(Text, p.tiles) + Counted(Hashes, p.merkle))
  }

  /** An optional field: a tag, then the value if there is one. */
  function Tagged(present: bool, body: Bytes): Bytes {
    if present then [1] + body else [0]
  }

  function StepsTagged(p: PomProof): Bytes {
    if p.stepsV2.Some? then Tagged(true, StepsBytes(p.stepsV2.value)) else Tagged(false, [])
  }

  function V3Tagged(p: PomProof): Bytes {
    if p.v3.Some? then Tagged(true, V3Bytes(p.v3.value)) else Tagged(false, [])
  }

  function V4Tagged(p: PomProof): Bytes
    requires p.v4.Some? ==> p.v4.value.tier < 256
  {
    if p.v4.Some? then Tagged(true, V4Bytes(p.v4.value)) else Tagged(false, [])
  }

  function TaskTagged(p: PomProof): Bytes {
    if p.task.Some? then Tagged(true, Text(p.task.value)) else Tagged(false, [])
  }

  /** The eleven fields in struct order. */
  function Parts(p: PomProof): (parts: seq<Bytes>)
    requires p.tier < 256 && (p.v4.Some? ==> p.v4.value.tier < 256)
    ensures |parts| == 11
  {
    [[p.tier], p.traceRoot, p.powValue, Le8(p.finalState), Hashes(p.initialTracePath), Hashes(p.finalTracePath),
      Counted(OpeningBytes, p.openings), StepsTagged(p), V3Tagged(p), V4Tagged(p), TaskTagged(p)]
  }

  /** Fields up to the last extension present; the first seven are always there. */
  function LastPart(p: PomProof): (n: nat)
    ensures n <= 11
  {
    if p.task.Some? then 11 else if p.v4.Some? then 10 else if p.v3.Some? then 9 else if p.stepsV2.Some? then 8 else 7
  }

  // ---------------------------------------------------------------- integers and vectors

  lemma {:induction false} FourBytes(n: nat)
    ensures LeBytes(n, 4) == Le4(n)
  {
    assert LeBytes(n, 4) == [n % 256]
      + ([n / 256 % 256] + ([n / 256 / 256 % 256] + ([n / 256 / 256 / 256 % 256] + [])));
  }

  lemma {:induction false} EightBytes(n: nat)
    ensures LeBytes(n, 8) == Le8(n)
  {
    var high := n / 256 / 256 / 256 / 256;
    assert LeBytes(n, 8) == [n % 256] + ([n / 256 % 256] + ([n / 256 / 256 % 256] + ([n / 256 / 256 / 256 % 256]
      + LeBytes(high, 4))));
    FourBytes(high);
    assert high == n / 0x1_0000_0000;
  }

  lemma {:induction false} ConcatBytes<T>(e: Schema, f: T -> Value, g: T -> Bytes, xs: seq<T>)
    requires forall x | x in xs :: HasType(e, f(x)) && Encode(e, f(x)) == g(x)
    ensures (forall v | v in Items(f, xs).items :: HasType(e, v))
    ensures EncodeItems(e, Items(f, xs).items) == Concat(g, xs)
    decreases |xs|
  {
    var vs := Items(f, xs).items;
    forall v | v in vs ensures HasType(e, v) {
      var i :| 0 <= i < |vs| && vs[i] == v;
      assert xs[i] in xs;
    }
    if xs != [] {
      assert xs[0] in xs;
      ConcatBytes(e, f, g, xs[1..]);
      assert vs[1..] == Items(f, xs[1..]).items;
    }
  }

  lemma {:induction false} VectorBytes<T>(e: Schema, f: T -> Value, g: T -> Bytes, xs: seq<T>)
    requires |xs| < U32_LIMIT && forall x | x in xs :: HasType(e, f(x)) && Encode(e, f(x)) == g(x)
    ensures HasType(Vec(e), Items(f, xs)) && Encode(Vec(e), Items(f, xs)) == Counted(g, xs)
  {
    ConcatBytes(e, f, g, xs);
    FourBytes(|xs|);
  }

  /** The elements of a vector that has its type have theirs. */
  lemma {:induction false} ElementTyped<T>(e: Schema, f: T -> Value, xs: seq<T>, x: T)
    requires HasType(Vec(e), Items(f, xs)) && x in xs
    ensures |xs| < U32_LIMIT && HasType(e, f(x))
  {
    var i :| 0 <= i < |xs| && xs[i] == x;
    assert Items(f, xs).items[i] == f(x);
  }

  lemma {:induction false} HashesEncoded(ds: seq<Digest>)
    requires HasType(DIGESTS, DigestsValue(ds))
    ensures Encode(DIGESTS, DigestsValue(ds)) == Hashes(ds)
  {
    VectorBytes(Fixed32, DigestValue, Hash, ds);
  }

  function One(b: Byte): Bytes { [b] }

  lemma {:induction false} OnesAreAll(bs: Bytes)
    ensures Concat(One, bs) == bs
    decreases |bs|
  {
    if bs != [] {
      OnesAreAll(bs[1..]);
    }
  }

  lemma {:induction false} TextEncoded(bs: Bytes)
    requires HasType(BYTES, BytesValue(bs))
    ensures Encode(BYTES, BytesValue(bs)) == Text(bs)
  {
    VectorBytes(U8, ByteValue, One, bs);
    OnesAreAll(bs);
  }

  // ---------------------------------------------------------------- records

  lemma {:induction false} PairEncoded(a: Schema, b: Schema, x: Value, y: Value)
    requires HasType(Pair(a, b), Both(x, y))
    ensures HasType(a, x) && HasType(b, y) && Encode(Pair(a, b), Both(x, y)) == Encode(a, x) + Encode(b, y)
  {
  }

  const PATHS := Pair(DIGESTS, Pair(DIGESTS, DIGESTS))

  lemma {:induction false} OpeningEncoded(o: PomOpening)
    requires HasType(OPENING, OpeningValue(o))
    ensures Encode(OPENING, OpeningValue(o)) == OpeningBytes(o)
  {
    var w, x, y := DigestsValue(o.weightPath), DigestsValue(o.tracePathBefore), DigestsValue(o.tracePathAfter);
    PairEncoded(U64, Pair(Fixed32, PATHS), Num(o.stateBefore), Both(Raw(o.chunk), Both(w, Both(x, y))));
    PairEncoded(Fixed32, PATHS, Raw(o.chunk), Both(w, Both(x, y)));
    PairEncoded(DIGESTS, Pair(DIGESTS, DIGESTS), w, Both(x, y));
    PairEncoded(DIGESTS, DIGESTS, x, y);
    EightBytes(o.stateBefore);
    HashesEncoded(o.weightPath);
    HashesEncoded(o.tracePathBefore);
    HashesEncoded(o.tracePathAfter);
  }

  lemma {:induction false} StepsEncoded(ss: seq<PomStep>)
    requires HasType(Vec(STEP), StepsValue(ss))
    ensures Encode(Vec(STEP), StepsValue(ss)) == StepsBytes(ss)
  {
    forall s | s in ss ensures HasType(STEP, StepValue(s)) && Encode(STEP, StepValue(s)) == StepBytes(s) {
      ElementTyped(STEP, StepValue, ss, s);
      HashesEncoded(s.weightPath);
    }
    VectorBytes(STEP, StepValue, StepBytes, ss);
  }

  const V3_AFTER := Pair(BYTES, Pair(DIGESTS, Pair(BYTES, Pair(DIGESTS, DIGESTS))))
  const V3_TILE := Pair(BYTES, Pair(DIGESTS, DIGESTS))

  lemma {:induction false} V3OpeningEncoded(o: PomV3Opening)
    requires HasType(V3_OPENING, V3OpeningValue(o))
    ensures Encode(V3_OPENING, V3OpeningValue(o)) == V3OpeningBytes(o)
  {
    var c, s := DigestsValue(o.colPath), DigestsValue(o.snippetPath);
    var tile := Both(BytesValue(o.tileCol), Both(c, s));
    var after := Both(BytesValue(o.rowAfter), Both(DigestsValue(o.pathAfter), tile));
    PairEncoded(BYTES, Pair(DIGESTS, V3_AFTER), BytesValue(o.rowBefore), Both(DigestsValue(o.pathBefore), after));
    PairEncoded(DIGESTS, V3_AFTER, DigestsValue(o.pathBefore), after);
    PairEncoded(BYTES, Pair(DIGESTS, V3_TILE), BytesValue(o.rowAfter), Both(DigestsValue(o.pathAfter), tile));
    PairEncoded(DIGESTS, V3_TILE, DigestsValue(o.pathAfter), tile);
    PairEncoded(BYTES, Pair(DIGESTS, DIGESTS), BytesValue(o.tileCol), Both(c, s));
    PairEncoded(DIGESTS, DIGESTS, c, s);
    TextEncoded(o.rowBefore);
    TextEncoded(o.rowAfter);
    TextEncoded(o.tileCol);
    HashesEncoded(o.pathBefore);
    HashesEncoded(o.pathAfter);
    HashesEncoded(o.colPath);
    HashesEncoded(o.snippetPath);
  }

  lemma {:induction false} V3Encoded(p: PomProofV3)
    requires HasType(PROOF_V3, V3Value(p))
    ensures Encode(PROOF_V3, V3Value(p)) == V3Bytes(p)
  {
    var r, s, c := DigestsValue(p.roots), DigestsValue(p.snippets), Items(V3OpeningValue, p.checks);
    PairEncoded(U8, Pair(DIGESTS, Pair(DIGESTS, Vec(V3_OPENING))), Num(p.tier), Both(r, Both(s, c)));
    PairEncoded(DIGESTS, Pair(DIGESTS, Vec(V3_OPENING)), r, Both(s, c));
    PairEncoded(DIGESTS, Vec(V3_OPENING), s, c);
    HashesEncoded(p.roots);
    HashesEncoded(p.snippets);
    forall o | o in p.checks
      ensures |p.checks| < U32_LIMIT && HasType(V3_OPENING, V3OpeningValue(o))
      ensures Encode(V3_OPENING, V3OpeningValue(o)) == V3OpeningBytes(o)
    {
      ElementTyped(V3_OPENING, V3OpeningValue, p.checks, o);
      V3OpeningEncoded(o);
    }
    VectorBytes(V3_OPENING, V3OpeningValue, V3OpeningBytes, p.checks);
  }

  lemma {:induction false} V4Encoded(p: WalkProof)
    requires HasType(PROOF_V4, V4Value(p))
    ensures p.tier < 256 && Encode(PROOF_V4, V4Value(p)) == V4Bytes(p)
  {
    var t, m := Items(BytesValue, p.tiles), Items(DigestsValue, p.merkle);
    PairEncoded(U8, Pair(Vec(BYTES), Vec(DIGESTS)), Num(p.tier), Both(t, m));
    PairEncoded(Vec(BYTES), Vec(DIGESTS), t, m);
    forall x | x in p.tiles ensures HasType(BYTES, BytesValue(x)) && Encode(BYTES, BytesValue(x)) == Text(x) {
      ElementTyped(BYTES, BytesValue, p.tiles, x);
      TextEncoded(x);
    }
    VectorBytes(BYTES, BytesValue, Text, p.tiles);
    forall x | x in p.merkle
      ensures HasType(DIGESTS, DigestsValue(x)) && Encode(DIGESTS, DigestsValue(x)) == Hashes(x) {
      ElementTyped(DIGESTS, DigestsValue, p.merkle, x);
      HashesEncoded(x);
    }
    VectorBytes(DIGESTS, DigestsValue, Hashes, p.merkle);
  }

  // ---------------------------------------------------------------- the whole proof

  /** What the encoder needs of a proof, field by field. */
  lemma {:induction false} FieldTypes(p: PomProof)
    requires Encodable(p)
    ensures p.tier < 256 && p.finalState < U64_LIMIT && HasType(DIGESTS, DigestsValue(p.initialTracePath))
    ensures HasType(DIGESTS, DigestsValue(p.finalTracePath)) && HasType(Vec(OPENING), Items(OpeningValue, p.openings))
    ensures p.stepsV2.Some? ==> HasType(Vec(STEP), StepsValue(p.stepsV2.value))
    ensures p.v3.Some? ==> HasType(PROOF_V3, V3Value(p.v3.value))
    ensures p.v4.Some? ==> HasType(PROOF_V4, V4Value(p.v4.value))
    ensures p.task.Some? ==> HasType(BYTES, BytesValue(p.task.value))
  {
    var vs := ToFields(p);
    assert HasType(LAYOUT[0], vs[0]) && HasType(LAYOUT[3], vs[3]) && HasType(LAYOUT[4], vs[4]);
    assert HasType(LAYOUT[5], vs[5]) && HasType(LAYOUT[6], vs[6]);
    assert HasType(LAYOUT[7], vs[7]) && HasType(LAYOUT[8], vs[8]) && HasType(LAYOUT[9], vs[9]);
    assert HasType(LAYOUT[10], vs[10]);
  }

  lemma {:induction false} OpeningsEncoded(os: seq<PomOpening>)
    requires HasType(Vec(OPENING), Items(OpeningValue, os))
    ensures Encode(Vec(OPENING), Items(OpeningValue, os)) == Counted(OpeningBytes, os)
  {
    forall o | o in os
      ensures HasType(OPENING, OpeningValue(o)) && Encode(OPENING, OpeningValue(o)) == OpeningBytes(o) {
      ElementTyped(OPENING, OpeningValue, os, o);
      OpeningEncoded(o);
    }
    VectorBytes(OPENING, OpeningValue, OpeningBytes, os);
  }

  lemma {:induction false} FieldsEncoded(layout: seq<Schema>, vs: Fields, parts: seq<Bytes>)
    requires FieldsHaveType(layout, vs) && |parts| == |vs|
    requires forall i | 0 <= i < |vs| :: Encode(layout[i], vs[i]) == parts[i]
    ensures EncodeFields(layout, vs) == Joined(parts)
    decreases |vs|
  {
    if vs != [] {
      FieldsEncoded(layout[1..], vs[1..], parts[1..]);
    }
  }

  /** Field `i` is encoded to its part. */
  ghost predicate PartOk(p: PomProof, i: nat)
    requires i < FULL && p.tier < 256 && (p.v4.Some? ==> p.v4.value.tier < 256)
  {
    HasType(LAYOUT[i], ToFields(p)[i]) && Encode(LAYOUT[i], ToFields(p)[i]) == Parts(p)[i]
  }

  lemma {:induction false} Tiers(p: PomProof)
    requires Encodable(p)
    ensures p.tier < 256 && (p.v4.Some? ==> p.v4.value.tier < 256)
  {
    FieldTypes(p);
    if p.v4.Some? {
      V4Encoded(p.v4.value);
    }
  }

  lemma {:induction false} ScalarParts(p: PomProof, i: nat)
    requires Encodable(p) && i < 4 && p.tier < 256 && (p.v4.Some? ==> p.v4.value.tier < 256)
    ensures PartOk(p, i)
  {
    assert HasType(LAYOUT[i], ToFields(p)[i]);
    EightBytes(p.finalState);
  }

  lemma {:induction false} PathParts(p: PomProof, i: nat)
    requires Encodable(p) && 4 <= i < 6 && p.tier < 256 && (p.v4.Some? ==> p.v4.value.tier < 256)
    ensures PartOk(p, i)
  {
    var path := if i == 4 then p.initialTracePath else p.finalTracePath;
    assert HasType(LAYOUT[i], ToFields(p)[i]);
    HashesEncoded(path);
  }

  lemma {:induction false} OpeningsPart(p: PomProof)
    requires Encodable(p) && p.tier < 256 && (p.v4.Some? ==> p.v4.value.tier < 256)
    ensures PartOk(p, 6)
  {
    assert HasType(LAYOUT[6], ToFields(p)[6]);
    OpeningsEncoded(p.openings);
  }

  lemma {:induction false} StepsPart(p: PomProof)
    requires Encodable(p) && p.tier < 256 && (p.v4.Some? ==> p.v4.value.tier < 256)
    ensures PartOk(p, 7)
  {
    assert HasType(LAYOUT[7], ToFields(p)[7]);
    if p.stepsV2.Some? {
      StepsEncoded(p.stepsV2.value);
    }
  }

  lemma {:induction false} V3Part(p: PomProof)
    requires Encodable(p) && p.tier < 256 && (p.v4.Some? ==> p.v4.value.tier < 256)
    ensures PartOk(p, 8)
  {
    assert HasType(LAYOUT[8], ToFields(p)[8]);
    if p.v3.Some? {
      V3Encoded(p.v3.value);
    }
  }

  lemma {:induction false} NewParts(p: PomProof, i: nat)
    requires Encodable(p) && 9 <= i < FULL && p.tier < 256 && (p.v4.Some? ==> p.v4.value.tier < 256)
    ensures PartOk(p, i)
  {
    assert HasType(LAYOUT[i], ToFields(p)[i]);
    if i == 9 && p.v4.Some? {
      V4Encoded(p.v4.value);
    } else if i == 10 && p.task.Some? {
      TextEncoded(p.task.value);
    }
  }

  /** The wire form of every proof, byte for byte: the base fields in struct order, then the extensions in
  the order of the eras up to the last one present. */
  lemma {:induction false} WireIsLaidOut(p: PomProof)
    requires Encodable(p)
    ensures p.tier < 256 && (p.v4.Some? ==> p.v4.value.tier < 256)
    ensures ToWireBytes(p) == Joined(Parts(p)[..LastPart(p)])
  {
    Tiers(p);
    forall i: nat | i < FULL ensures PartOk(p, i) {
      if i < 4 {
        ScalarParts(p, i);
      } else if i < 6 {
        PathParts(p, i);
      } else if i == 6 {
        OpeningsPart(p);
      } else if i == 7 {
        StepsPart(p);
      } else if i == 8 {
        V3Part(p);
      } else {
        NewParts(p, i);
      }
    }
    PartsJoin(p, LastPart(p));
    NeededParts(p);
  }

  lemma {:induction false} NeededParts(p: PomProof)
    ensures Needed(ToFields(p)) == LastPart(p)
  {
  }

  lemma {:induction false} PartsJoin(p: PomProof, n: nat)
    requires p.tier < 256 && (p.v4.Some? ==> p.v4.value.tier < 256) && n <= FULL
    requires forall i: nat | i < FULL :: PartOk(p, i)
    ensures FieldsHaveType(LAYOUT[..n], ToFields(p)[..n])
    ensures EncodeFields(LAYOUT[..n], ToFields(p)[..n]) == Joined(Parts(p)[..n])
  {
    var layout, vs, parts := LAYOUT[..n], ToFields(p)[..n], Parts(p)[..n];
    forall i: nat | i < n ensures HasType(layout[i], vs[i]) && Encode(layout[i], vs[i]) == parts[i] {
      assert PartOk(p, i);
    }
    FieldsEncoded(layout, vs, parts);
  }

  lemma {:induction false} JoinedFirst(parts: seq<Bytes>)
    requires parts != []
    ensures Joined(parts) == parts[0] + Joined(parts[1..])
  {
  }

  lemma {:induction false} JoinedHead(parts: seq<Bytes>)
    requires |parts| >= 4 && |parts[0]| == 1 && |parts[1]| == 32 && |parts[2]| == 32 && |parts[3]| == 8
    ensures var b := Joined(parts);
      |b| >= 73 && [b[0]] == parts[0] && b[1..33] == parts[1] && b[33..65] == parts[2] && b[65..73] == parts[3]
  {
    JoinedFirst(parts);
    JoinedFirst(parts[1..]);
    JoinedFirst(parts[2..]);
    JoinedFirst(parts[3..]);
    assert parts[1..][1..] == parts[2..] && parts[2..][1..] == parts[3..];
    assert Joined(parts) == parts[0] + (parts[1] + (parts[2] + (parts[3] + Joined(parts[3..][1..]))));
  }

  /** Where the node finds the fixed-size fields. */
  lemma {:induction false} WireHeader(p: PomProof)
    requires Encodable(p)
    ensures var b := ToWireBytes(p);
      && |b| >= 73 && b[0] == p.tier && b[1..33] == p.traceRoot && b[33..65] == p.powValue
      && LeNat(b[65..73]) == p.finalState
  {
    WireIsLaidOut(p);
    FieldTypes(p);
    var parts := Parts(p)[..LastPart(p)];
    assert parts[0] == [p.tier] && parts[1] == p.traceRoot && parts[2] == p.powValue && parts[3] == Le8(p.finalState);
    JoinedHead(parts);
    EightBytes(p.finalState);
    Bounds();
    LeNatOfLeBytes(p.finalState, 8);
  }
}
