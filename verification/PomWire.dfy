/** The era-exact wire form of a proof (src/pom.rs:56-296, src/pom_v3.rs:36-57, src/pom_v4.rs:25-36).

A proof is written in the shortest of five nested layouts that holds its last present extension;
reading tries the longest layout first. */
module PomWire {
  import opened Hashing
  import opened Borsh
  import opened Outcomes
  import opened PossessionWalk

  // ---------------------------------------------------------------- five nested layouts

  /** Fields before the first extension, and all fields. */
  const BASE: nat := 7
  const FULL: nat := 11

  /** Every field from the seventh on is optional. */
  ghost predicate WireLayout(layout: seq<Schema>) {
    |layout| == FULL && forall i | BASE <= i < FULL :: layout[i].Opt?
  }

  function Absents(n: nat): (vs: Fields)
    ensures |vs| == n && forall v | v in vs :: v == Absent
  {
    seq(n, _ => Absent)
  }

  /** Length of the layout a record is written in: up to its last present extension. */
  function Needed(vs: Fields): (n: nat)
    requires |vs| == FULL
    ensures BASE <= n <= FULL
    ensures forall i | n <= i < FULL :: vs[i] == Absent
    ensures n > BASE ==> vs[n - 1] != Absent
  {
    if vs[10] != Absent then 11
    else if vs[9] != Absent then 10
    else if vs[8] != Absent then 9
    else if vs[7] != Absent then 8
    else 7
  }

  function ToWire(layout: seq<Schema>, vs: Fields): Bytes
    requires WireLayout(layout) && FieldsHaveType(layout, vs)
  {
    EncodeFields(layout[..Needed(vs)], vs[..Needed(vs)])
  }

  /** The longest layout, of at most `n` fields, whose decoding accepts the whole input. */
  function LayoutRead(layout: seq<Schema>, b: Bytes, n: nat): Option<nat>
    requires |layout| == FULL && n <= FULL
  {
    if n < BASE then None
    else if FromSlice(layout[..n], b).Some? then Some(n)
    else LayoutRead(layout, b, n - 1)
  }

  function FromWire(layout: seq<Schema>, b: Bytes): Option<Fields>
    requires |layout| == FULL
  {
    match LayoutRead(layout, b, FULL)
    case None => None
    case Some(n) =>
      if n > FULL then None
      else
        match FromSlice(layout[..n], b)
        case None => None
        case Some(vs) => Some(vs + Absents(FULL - n))
  }

  /** Bytes written in a layout of `k` fields are read in that layout: no longer one accepts them. */
  lemma {:induction false} WrittenLayoutIsRead(layout: seq<Schema>, vs: Fields, k: nat, n: nat)
    requires WireLayout(layout) && FieldsHaveType(layout, vs) && BASE <= k <= n <= FULL
    ensures LayoutRead(layout, EncodeFields(layout[..k], vs[..k]), n) == Some(k)
    decreases n
  {
    var b := EncodeFields(layout[..k], vs[..k]);
    if n == k {
      DecodeEncodeFields(layout[..k], vs[..k], []);
      assert b + [] == b;
    } else {
      assert layout[..k] + layout[k..n] == layout[..n];
      ShorterLayoutFails(layout[..k], layout[k..n], vs[..k]);
      WrittenLayoutIsRead(layout, vs, k, n - 1);
    }
  }

  /** Reading what a layout of `k` fields was written with gives its fields, the rest absent. */
  lemma {:induction false} WrittenFieldsAreRead(layout: seq<Schema>, vs: Fields, k: nat)
    requires WireLayout(layout) && FieldsHaveType(layout, vs) && Needed(vs) <= k <= FULL
    ensures FromWire(layout, EncodeFields(layout[..k], vs[..k])) == Some(vs)
  {
    var b := EncodeFields(layout[..k], vs[..k]);
    WrittenLayoutIsRead(layout, vs, k, FULL);
    assert FromSlice(layout[..k], b) == Some(vs[..k]) by {
      DecodeEncodeFields(layout[..k], vs[..k], []);
      assert b + [] == b;
    }
    assert vs[..k] + Absents(FULL - k) == vs;
  }

  /** Round trip across all five layouts. */
  lemma {:induction false} FieldsRoundTrip(layout: seq<Schema>, vs: Fields)
    requires WireLayout(layout) && FieldsHaveType(layout, vs)
    ensures FromWire(layout, ToWire(layout, vs)) == Some(vs)
  {
    WrittenFieldsAreRead(layout, vs, Needed(vs));
  }

  lemma {:induction false} LayoutReadAccepts(layout: seq<Schema>, b: Bytes, n: nat)
    requires |layout| == FULL && n <= FULL && LayoutRead(layout, b, n).Some?
    ensures var k := LayoutRead(layout, b, n).value; BASE <= k <= n && FromSlice(layout[..k], b).Some?
    decreases n
  {
    if FromSlice(layout[..n], b).None? {
      LayoutReadAccepts(layout, b, n - 1);
    }
  }

  function Zeros(j: nat): (z: Bytes)
    ensures |z| == j
  {
    seq(j, _ => 0)
  }

  lemma {:induction false} EncodeFieldsSnoc(layout: seq<Schema>, vs: Fields, s: Schema, v: Value)
    requires FieldsHaveType(layout, vs) && HasType(s, v)
    ensures FieldsHaveType(layout + [s], vs + [v])
    ensures EncodeFields(layout + [s], vs + [v]) == EncodeFields(layout, vs) + Encode(s, v)
    decreases |vs|
  {
    if vs == [] {
      assert [s][1..] == [] && [v][1..] == [];
      assert layout + [s] == [s] && vs + [v] == [v];
    } else {
      EncodeFieldsSnoc(layout[1..], vs[1..], s, v);
      assert (layout + [s])[1..] == layout[1..] + [s] && (vs + [v])[1..] == vs[1..] + [v];
    }
  }

  /** A longer layout than needed adds one empty tag per field. */
  lemma {:induction false} LongerLayoutPads(layout: seq<Schema>, vs: Fields, j: nat)
    requires WireLayout(layout) && FieldsHaveType(layout, vs) && Needed(vs) + j <= FULL
    ensures var k := Needed(vs) + j; EncodeFields(layout[..k], vs[..k]) == ToWire(layout, vs) + Zeros(j)
    decreases j
  {
    var k := Needed(vs) + j;
    if j == 0 {
      assert ToWire(layout, vs) + Zeros(0) == ToWire(layout, vs);
    } else {
      LongerLayoutPads(layout, vs, j - 1);
      AbsentPads(layout, vs, k - 1);
      assert Zeros(j - 1) + [0] == Zeros(j);
      Assoc(ToWire(layout, vs), Zeros(j - 1), [0]);
    }
  }

  /** One more optional field that is absent is one zero byte. */
  lemma {:induction false} AbsentPads(layout: seq<Schema>, vs: Fields, k: nat)
    requires WireLayout(layout) && FieldsHaveType(layout, vs) && BASE <= k < FULL && vs[k] == Absent
    ensures EncodeFields(layout[..k + 1], vs[..k + 1]) == EncodeFields(layout[..k], vs[..k]) + [0]
  {
    EncodeFieldsSnoc(layout[..k], vs[..k], layout[k], vs[k]);
    assert layout[..k] + [layout[k]] == layout[..k + 1] && vs[..k] + [vs[k]] == vs[..k + 1];
  }

  /** What is accepted was written in some layout at least as long as needed. */
  lemma {:induction false} AcceptedWasWritten(layout: seq<Schema>, b: Bytes) returns (k: nat)
    requires WireLayout(layout) && FromWire(layout, b).Some?
    ensures var vs := FromWire(layout, b).value;
      FieldsHaveType(layout, vs) && Needed(vs) <= k <= FULL && b == EncodeFields(layout[..k], vs[..k])
  {
    LayoutReadAccepts(layout, b, FULL);
    k := LayoutRead(layout, b, FULL).value;
    var got, vs := FromSlice(layout[..k], b).value, FromWire(layout, b).value;
    EncodeDecodeFields(layout[..k], b);
    assert vs == got + Absents(FULL - k) && vs[..k] == got;
    assert EncodeFields(layout[..k], got) + [] == EncodeFields(layout[..k], got);
    assert FieldsHaveType(layout, vs) by {
      forall i | 0 <= i < FULL ensures HasType(layout[i], vs[i]) {
        assert i < k ==> HasType(layout[..k][i], got[i]);
      }
    }
    assert forall i | k <= i < FULL :: vs[i] == Absent;
  }

  /** The exact preimage of a record: its wire form followed by at most one zero byte for each layout
  longer than the one it is written in. The encoding is unique exactly for records that use the last
  extension. */
  lemma {:induction false} FieldsPreimage(layout: seq<Schema>, b: Bytes, vs: Fields)
    requires WireLayout(layout) && FieldsHaveType(layout, vs)
    ensures FromWire(layout, b) == Some(vs) <==>
      exists j: nat :: j <= FULL - Needed(vs) && b == ToWire(layout, vs) + Zeros(j)
  {
    if FromWire(layout, b) == Some(vs) {
      var k := AcceptedWasWritten(layout, b);
      LongerLayoutPads(layout, vs, k - Needed(vs));
      assert b == ToWire(layout, vs) + Zeros(k - Needed(vs));
    }
    if j: nat :| j <= FULL - Needed(vs) && b == ToWire(layout, vs) + Zeros(j) {
      PaddedIsRead(layout, vs, j);
    }
  }

  lemma {:induction false} PaddedIsRead(layout: seq<Schema>, vs: Fields, j: nat)
    requires WireLayout(layout) && FieldsHaveType(layout, vs) && Needed(vs) + j <= FULL
    ensures FromWire(layout, ToWire(layout, vs) + Zeros(j)) == Some(vs)
  {
    LongerLayoutPads(layout, vs, j);
    WrittenFieldsAreRead(layout, vs, Needed(vs) + j);
  }

  // ---------------------------------------------------------------- the proof itself

  datatype PomOpening = PomOpening(
    stateBefore: nat, chunk: Digest, weightPath: seq<Digest>, tracePathBefore: seq<Digest>, tracePathAfter: seq<Digest>)

  datatype PomStep = PomStep(chunk: Digest, weightPath: seq<Digest>)

  datatype PomV3Opening = PomV3Opening(
    rowBefore: Bytes, pathBefore: seq<Digest>, rowAfter: Bytes, pathAfter: seq<Digest>,
    tileCol: Bytes, colPath: seq<Digest>, snippetPath: seq<Digest>)

  datatype PomProofV3 = PomProofV3(tier: Byte, roots: seq<Digest>, snippets: seq<Digest>, checks: seq<PomV3Opening>)

  datatype PomProof = PomProof(
    tier: nat,
    traceRoot: Digest,
    powValue: Digest,
    finalState: nat,
    initialTracePath: seq<Digest>,
    finalTracePath: seq<Digest>,
    openings: seq<PomOpening>,
    stepsV2: Option<seq<PomStep>>,
    v3: Option<PomProofV3>,
    v4: Option<WalkProof>,
    task: Option<Bytes>)

  const DIGESTS := Vec(Fixed32)
  const BYTES := Vec(U8)
  const OPENING := Pair(U64, Pair(Fixed32, Pair(DIGESTS, Pair(DIGESTS, DIGESTS))))
  const STEP := Pair(Fixed32, DIGESTS)
  const V3_OPENING := Pair(BYTES, Pair(DIGESTS, Pair(BYTES, Pair(DIGESTS, Pair(BYTES, Pair(DIGESTS, DIGESTS))))))
  const PROOF_V3 := Pair(U8, Pair(DIGESTS, Pair(DIGESTS, Vec(V3_OPENING))))
  const PROOF_V4 := Pair(U8, Pair(Vec(BYTES), Vec(DIGESTS)))
  const LAYOUT: seq<Schema> := [
    U8, Fixed32, Fixed32, U64, DIGESTS, DIGESTS, Vec(OPENING),
    Opt(Vec(STEP)), Opt(PROOF_V3), Opt(PROOF_V4), Opt(BYTES)]

  function Items<T>(f: T -> Value, xs: seq<T>): Value {
    List(seq(|xs|, i requires 0 <= i < |xs| => f(xs[i])))
  }

  function FromItems<T>(g: Value -> T, v: Value): seq<T> {
    if v.List? then seq(|v.items|, i requires 0 <= i < |v.items| => g(v.items[i])) else []
  }

  function Maybe<T>(f: T -> Value, o: Option<T>): Value {
    match o
    case None => Absent
    case Some(x) => Present(f(x))
  }

  function FromMaybe<T>(g: Value -> T, v: Value): Option<T> {
    if v.Present? then Some(g(v.value)) else None
  }

  function First(v: Value): Value { if v.Both? then v.first else v }
  function Second(v: Value): Value { if v.Both? then v.second else v }

  function DigestValue(d: Digest): Value { Raw(d) }
  function ToDigest(v: Value): Digest { if v.Raw? then v.bytes else seq(32, _ => 0) }
  function ByteValue(b: Byte): Value { Num(b) }
  function ToByte(v: Value): Byte { if v.Num? && v.n < 256 then v.n else 0 }
  function ToNat(v: Value): nat { if v.Num? then v.n else 0 }

  function DigestsValue(ds: seq<Digest>): Value { Items(DigestValue, ds) }
  function ToDigests(v: Value): seq<Digest> { FromItems(ToDigest, v) }
  function BytesValue(bs: Bytes): Value { Items(ByteValue, bs) }
  function ToBytes(v: Value): Bytes { FromItems(ToByte, v) }

  function OpeningValue(o: PomOpening): Value {
    Both(Num(o.stateBefore), Both(Raw(o.chunk),
      Both(DigestsValue(o.weightPath), Both(DigestsValue(o.tracePathBefore), DigestsValue(o.tracePathAfter)))))
  }

  function ToOpening(v: Value): PomOpening {
    var w := Second(Second(v));
    PomOpening(ToNat(First(v)), ToDigest(First(Second(v))), ToDigests(First(w)), ToDigests(First(Second(w))),
      ToDigests(Second(Second(w))))
  }

  function StepValue(s: PomStep): Value { Both(Raw(s.chunk), DigestsValue(s.weightPath)) }
  function ToStep(v: Value): PomStep { PomStep(ToDigest(First(v)), ToDigests(Second(v))) }

  function V3OpeningValue(o: PomV3Opening): Value {
    Both(BytesValue(o.rowBefore), Both(DigestsValue(o.pathBefore),
      Both(BytesValue(o.rowAfter), Both(DigestsValue(o.pathAfter),
      Both(BytesValue(o.tileCol), Both(DigestsValue(o.colPath), DigestsValue(o.snippetPath)))))))
  }

  function ToV3Opening(v: Value): PomV3Opening {
    var w := Second(Second(v));
    var x := Second(Second(w));
    PomV3Opening(ToBytes(First(v)), ToDigests(First(Second(v))), ToBytes(First(w)), ToDigests(First(Second(w))),
      ToBytes(First(x)), ToDigests(First(Second(x))), ToDigests(Second(Second(x))))
  }

  function StepsValue(ss: seq<PomStep>): Value { Items(StepValue, ss) }
  function ToSteps(v: Value): seq<PomStep> { FromItems(ToStep, v) }

  function V3Value(p: PomProofV3): Value {
    Both(Num(p.tier), Both(DigestsValue(p.roots), Both(DigestsValue(p.snippets), Items(V3OpeningValue, p.checks))))
  }

  function ToV3(v: Value): PomProofV3 {
    var w := Second(Second(v));
    PomProofV3(ToByte(First(v)), ToDigests(First(Second(v))), ToDigests(First(w)), FromItems(ToV3Opening, Second(w)))
  }

  function V4Value(p: WalkProof): Value {
    Both(Num(p.tier), Both(Items(BytesValue, p.tiles), Items(DigestsValue, p.merkle)))
  }

  function ToV4(v: Value): WalkProof {
    WalkProof(ToNat(First(v)), FromItems(ToBytes, First(Second(v))), FromItems(ToDigests, Second(Second(v))))
  }

  function ToFields(p: PomProof): Fields {
    [Num(p.tier), Raw(p.traceRoot), Raw(p.powValue), Num(p.finalState),
     DigestsValue(p.initialTracePath), DigestsValue(p.finalTracePath), Items(OpeningValue, p.openings),
     Maybe(StepsValue, p.stepsV2), Maybe(V3Value, p.v3), Maybe(V4Value, p.v4), Maybe(BytesValue, p.task)]
  }

  function FromFields(vs: Fields): PomProof
    requires |vs| == FULL
  {
    PomProof(ToNat(vs[0]), ToDigest(vs[1]), ToDigest(vs[2]), ToNat(vs[3]),
      ToDigests(vs[4]), ToDigests(vs[5]), FromItems(ToOpening, vs[6]),
      FromMaybe(ToSteps, vs[7]), FromMaybe(ToV3, vs[8]), FromMaybe(ToV4, vs[9]), FromMaybe(ToBytes, vs[10]))
  }

  lemma {:induction false} ItemsInverse<T>(f: T -> Value, g: Value -> T, xs: seq<T>)
    requires forall x | x in xs :: g(f(x)) == x
    ensures FromItems(g, Items(f, xs)) == xs
  {
    forall i | 0 <= i < |xs| ensures FromItems(g, Items(f, xs))[i] == xs[i] {
      assert xs[i] in xs;
    }
  }

  lemma {:induction false} DigestsInverse(ds: seq<Digest>)
    ensures ToDigests(DigestsValue(ds)) == ds
  {
    ItemsInverse(DigestValue, ToDigest, ds);
  }

  lemma {:induction false} BytesInverse(bs: Bytes)
    ensures ToBytes(BytesValue(bs)) == bs
  {
    ItemsInverse(ByteValue, ToByte, bs);
  }

  lemma {:induction false} OpeningInverse(o: PomOpening)
    ensures ToOpening(OpeningValue(o)) == o
  {
    DigestsInverse(o.weightPath);
    DigestsInverse(o.tracePathBefore);
    DigestsInverse(o.tracePathAfter);
  }

  lemma {:induction false} StepsInverse(ss: seq<PomStep>)
    ensures ToSteps(StepsValue(ss)) == ss
  {
    forall s | s in ss ensures ToStep(StepValue(s)) == s {
      DigestsInverse(s.weightPath);
    }
    ItemsInverse(StepValue, ToStep, ss);
  }

  lemma {:induction false} V3OpeningInverse(o: PomV3Opening)
    ensures ToV3Opening(V3OpeningValue(o)) == o
  {
    BytesInverse(o.rowBefore);
    BytesInverse(o.rowAfter);
    BytesInverse(o.tileCol);
    DigestsInverse(o.pathBefore);
    DigestsInverse(o.pathAfter);
    DigestsInverse(o.colPath);
    DigestsInverse(o.snippetPath);
  }

  lemma {:induction false} V3Inverse(p: PomProofV3)
    ensures ToV3(V3Value(p)) == p
  {
    DigestsInverse(p.roots);
    DigestsInverse(p.snippets);
    forall o | o in p.checks ensures ToV3Opening(V3OpeningValue(o)) == o { V3OpeningInverse(o); }
    ItemsInverse(V3OpeningValue, ToV3Opening, p.checks);
  }

  lemma {:induction false} V4Inverse(p: WalkProof)
    ensures ToV4(V4Value(p)) == p
  {
    forall t | t in p.tiles ensures ToBytes(BytesValue(t)) == t { BytesInverse(t); }
    ItemsInverse(BytesValue, ToBytes, p.tiles);
    forall m | m in p.merkle ensures ToDigests(DigestsValue(m)) == m { DigestsInverse(m); }
    ItemsInverse(DigestsValue, ToDigests, p.merkle);
  }

  lemma {:induction false} FieldsInverse(p: PomProof)
    ensures FromFields(ToFields(p)) == p
  {
    DigestsInverse(p.initialTracePath);
    DigestsInverse(p.finalTracePath);
    forall o | o in p.openings ensures ToOpening(OpeningValue(o)) == o { OpeningInverse(o); }
    ItemsInverse(OpeningValue, ToOpening, p.openings);
    if p.stepsV2.Some? { StepsInverse(p.stepsV2.value); }
    if p.v3.Some? { V3Inverse(p.v3.value); }
    if p.v4.Some? { V4Inverse(p.v4.value); }
    if p.task.Some? { BytesInverse(p.task.value); }
  }

  /** Proofs the encoder can write: bytes and u64 in range, every vector within a u32 length. */
  ghost predicate Encodable(p: PomProof) {
    FieldsHaveType(LAYOUT, ToFields(p))
  }

  function ToWireBytes(p: PomProof): Bytes
    requires Encodable(p)
  {
    ToWire(LAYOUT, ToFields(p))
  }

  function FromWireBytes(b: Bytes): Option<PomProof> {
    match FromWire(LAYOUT, b)
    case None => None
    case Some(vs) => if |vs| == FULL then Some(FromFields(vs)) else None
  }

  /** Every proof survives the wire, whichever extensions it carries. */
  lemma {:induction false} WireRoundTrip(p: PomProof)
    requires Encodable(p)
    ensures FromWireBytes(ToWireBytes(p)) == Some(p)
  {
    FieldsRoundTrip(LAYOUT, ToFields(p));
    FieldsInverse(p);
  }

  // ---------------------------------------------------------------- exactly which bytes are a proof's

  lemma {:induction false} ItemsBack<T>(f: T -> Value, g: Value -> T, v: Value)
    requires v.List? && forall x | x in v.items :: f(g(x)) == x
    ensures Items(f, FromItems(g, v)) == v
  {
    assert Items(f, FromItems(g, v)).items == v.items;
  }

  lemma {:induction false} DigestsBack(v: Value)
    requires HasType(DIGESTS, v)
    ensures DigestsValue(ToDigests(v)) == v
  {
    ItemsBack(DigestValue, ToDigest, v);
  }

  lemma {:induction false} BytesBack(v: Value)
    requires HasType(BYTES, v)
    ensures BytesValue(ToBytes(v)) == v
  {
    ItemsBack(ByteValue, ToByte, v);
  }

  lemma {:induction false} OpeningBack(v: Value)
    requires HasType(OPENING, v)
    ensures OpeningValue(ToOpening(v)) == v
  {
    var w := v.second.second;
    DigestsBack(w.first);
    DigestsBack(w.second.first);
    DigestsBack(w.second.second);
  }

  lemma {:induction false} StepsBack(v: Value)
    requires HasType(Vec(STEP), v)
    ensures StepsValue(ToSteps(v)) == v
  {
    forall x | x in v.items ensures StepValue(ToStep(x)) == x {
      DigestsBack(x.second);
    }
    ItemsBack(StepValue, ToStep, v);
  }

  lemma {:induction false} V3OpeningBack(v: Value)
    requires HasType(V3_OPENING, v)
    ensures V3OpeningValue(ToV3Opening(v)) == v
  {
    var w := v.second.second;
    var x := w.second.second;
    BytesBack(v.first);
    DigestsBack(v.second.first);
    BytesBack(w.first);
    DigestsBack(w.second.first);
    BytesBack(x.first);
    DigestsBack(x.second.first);
    DigestsBack(x.second.second);
  }

  lemma {:induction false} V3Back(v: Value)
    requires HasType(PROOF_V3, v)
    ensures V3Value(ToV3(v)) == v
  {
    var w := v.second.second;
    DigestsBack(v.second.first);
    DigestsBack(w.first);
    forall x | x in w.second.items ensures V3OpeningValue(ToV3Opening(x)) == x {
      V3OpeningBack(x);
    }
    ItemsBack(V3OpeningValue, ToV3Opening, w.second);
  }

  lemma {:induction false} V4Back(v: Value)
    requires HasType(PROOF_V4, v)
    ensures V4Value(ToV4(v)) == v
  {
    forall x | x in v.second.first.items ensures BytesValue(ToBytes(x)) == x {
      BytesBack(x);
    }
    forall x | x in v.second.second.items ensures DigestsValue(ToDigests(x)) == x {
      DigestsBack(x);
    }
    ItemsBack(BytesValue, ToBytes, v.second.first);
    ItemsBack(DigestsValue, ToDigests, v.second.second);
  }

  /** Typed fields are the fields of the proof they decode to. */
  lemma {:induction false} FieldsBack(vs: Fields)
    requires FieldsHaveType(LAYOUT, vs)
    ensures ToFields(FromFields(vs)) == vs
  {
    assert HasType(LAYOUT[0], vs[0]) && HasType(LAYOUT[1], vs[1]) && HasType(LAYOUT[2], vs[2])
      && HasType(LAYOUT[3], vs[3]);
    assert HasType(LAYOUT[4], vs[4]) && HasType(LAYOUT[5], vs[5]) && HasType(LAYOUT[6], vs[6])
      && HasType(LAYOUT[7], vs[7]);
    assert HasType(LAYOUT[8], vs[8]) && HasType(LAYOUT[9], vs[9]) && HasType(LAYOUT[10], vs[10]);
    DigestsBack(vs[4]);
    DigestsBack(vs[5]);
    OpeningsBack(vs[6]);
    ExtensionsBack(vs[7], vs[8], vs[9], vs[10]);
  }

  lemma {:induction false} ExtensionsBack(steps: Value, v3: Value, v4: Value, task: Value)
    requires HasType(Opt(Vec(STEP)), steps) && HasType(Opt(PROOF_V3), v3)
    requires HasType(Opt(PROOF_V4), v4) && HasType(Opt(BYTES), task)
    ensures Maybe(StepsValue, FromMaybe(ToSteps, steps)) == steps && Maybe(V3Value, FromMaybe(ToV3, v3)) == v3
    ensures Maybe(V4Value, FromMaybe(ToV4, v4)) == v4 && Maybe(BytesValue, FromMaybe(ToBytes, task)) == task
  {
    if steps.Present? { StepsBack(steps.value); }
    if v3.Present? { V3Back(v3.value); }
    if v4.Present? { V4Back(v4.value); }
    if task.Present? { BytesBack(task.value); }
  }

  lemma {:induction false} OpeningsBack(v: Value)
    requires HasType(Vec(OPENING), v)
    ensures Items(OpeningValue, FromItems(ToOpening, v)) == v
  {
    forall x | x in v.items ensures OpeningValue(ToOpening(x)) == x {
      OpeningBack(x);
    }
    ItemsBack(OpeningValue, ToOpening, v);
  }

  /** Zero bytes a reader tolerates after a proof: one for each extension past its last present one. */
  function Slack(p: PomProof): nat {
    FULL - Needed(ToFields(p))
  }

  /** The exact bytes that are read as a proof: its own, followed by at most `Slack(p)` zero bytes. */
  lemma {:induction false} WirePreimage(p: PomProof, b: Bytes)
    requires Encodable(p)
    ensures FromWireBytes(b) == Some(p) <==> exists j: nat :: j <= Slack(p) && b == ToWireBytes(p) + Zeros(j)
  {
    FieldsPreimage(LAYOUT, b, ToFields(p));
    FieldsInverse(p);
    if FromWireBytes(b) == Some(p) {
      var k := AcceptedWasWritten(LAYOUT, b);
      FieldsBack(FromWire(LAYOUT, b).value);
    }
  }

  /** Whatever is accepted is an encodable proof, and at most its slack longer than its own bytes. */
  lemma {:induction false} AcceptedIsEncodable(b: Bytes)
    requires FromWireBytes(b).Some?
    ensures Encodable(FromWireBytes(b).value)
    ensures |b| - |ToWireBytes(FromWireBytes(b).value)| <= Slack(FromWireBytes(b).value)
  {
    var k := AcceptedWasWritten(LAYOUT, b);
    FieldsBack(FromWire(LAYOUT, b).value);
    var p := FromWireBytes(b).value;
    WirePreimage(p, b);
  }
}
