/** The binary checkpoint: the exporter of a trained model and the loader of the inference runtime. */
module Checkpoint {
  import opened PyData
  import opened Utf8
  import opened Bytes

  /** Linear weights have shape (out, in), as in the training framework. */
  datatype TorchLayer = TorchLayer(rmsAttn: Vector, wq: Tensor, wk: Tensor, wv: Tensor, wo: Tensor,
                                   rmsFfn: Vector, w1: Tensor, w2: Tensor, w3: Tensor)

  datatype Dims = Dims(dim: nat, hidden: nat, layers: nat, context: nat, vocab: nat)

  datatype TorchModel = TorchModel(dims: Dims, tok: Tensor, pos: Tensor, layers: seq<TorchLayer>,
                                   norm: Vector, output: Tensor)

  /** The runtime's weights: matrices have shape (in, out). */
  datatype LayerWeights = LayerWeights(norm1: Vector, q: Tensor, k: Tensor, v: Tensor, o: Tensor,
                                       norm2: Vector, gate: Tensor, up: Tensor, down: Tensor)

  datatype Weights = Weights(dims: Dims, embedding: Tensor, position: Tensor, layers: seq<LayerWeights>,
                             norm: Vector, output: Tensor)

  ghost predicate LayerShaped(l: TorchLayer, d: Dims) {
    && |l.rmsAttn| == |l.rmsFfn| == d.dim
    && Shape(l.wq, d.dim, d.dim) && Shape(l.wk, d.dim, d.dim) && Shape(l.wv, d.dim, d.dim) && Shape(l.wo, d.dim, d.dim)
    && Shape(l.w1, d.hidden, d.dim) && Shape(l.w2, d.hidden, d.dim) && Shape(l.w3, d.dim, d.hidden)
  }

  ghost predicate Shaped(m: TorchModel) {
    var d := m.dims;
    && Shape(m.tok, d.vocab, d.dim) && Shape(m.pos, d.context, d.dim) && |m.layers| == d.layers
    && (forall i :: 0 <= i < |m.layers| ==> LayerShaped(m.layers[i], d))
    && |m.norm| == d.dim && Shape(m.output, d.vocab, d.dim)
  }

  ghost predicate WeightsLayerShaped(l: LayerWeights, d: Dims) {
    && |l.norm1| == |l.norm2| == d.dim
    && Shape(l.q, d.dim, d.dim) && Shape(l.k, d.dim, d.dim) && Shape(l.v, d.dim, d.dim) && Shape(l.o, d.dim, d.dim)
    && Shape(l.gate, d.dim, d.hidden) && Shape(l.up, d.dim, d.hidden) && Shape(l.down, d.hidden, d.dim)
  }

  ghost predicate WeightsLayersShaped(ls: seq<LayerWeights>, d: Dims) {
    forall i :: 0 <= i < |ls| ==> WeightsLayerShaped(ls[i], d)
  }

  ghost predicate WeightsShaped(w: Weights) {
    var d := w.dims;
    && Shape(w.embedding, d.vocab, d.dim) && Shape(w.position, d.context, d.dim) && |w.layers| == d.layers
    && WeightsLayersShaped(w.layers, d)
    && |w.norm| == d.dim && Shape(w.output, d.dim, d.vocab)
  }

  // ----- `torch_model` -----

  function TorchLayerOf(l: LayerWeights, d: Dims): (t: TorchLayer)
    requires WeightsLayerShaped(l, d)
    ensures LayerShaped(t, d)
  {
    TorchLayer(l.norm1, Transpose(l.q, d.dim, d.dim), Transpose(l.k, d.dim, d.dim), Transpose(l.v, d.dim, d.dim),
               Transpose(l.o, d.dim, d.dim), l.norm2, Transpose(l.gate, d.dim, d.hidden),
               Transpose(l.up, d.dim, d.hidden), Transpose(l.down, d.hidden, d.dim))
  }

  /** The training-side model with the given weights copied in. */
  function TorchModelOf(w: Weights): (m: TorchModel)
    requires WeightsShaped(w)
    ensures Shaped(m)
  {
    TorchModel(w.dims, w.embedding, w.position,
               seq(|w.layers|, i requires 0 <= i < |w.layers| => TorchLayerOf(w.layers[i], w.dims)),
               w.norm, Transpose(w.output, w.dims.dim, w.dims.vocab))
  }

  /** The weights whose copy is `l`. */
  function LayerWeightsOf(l: TorchLayer, d: Dims): (w: LayerWeights)
    requires LayerShaped(l, d)
    ensures WeightsLayerShaped(w, d)
  {
    LayerWeights(l.rmsAttn, Transpose(l.wq, d.dim, d.dim), Transpose(l.wk, d.dim, d.dim), Transpose(l.wv, d.dim, d.dim),
                 Transpose(l.wo, d.dim, d.dim), l.rmsFfn, Transpose(l.w1, d.hidden, d.dim),
                 Transpose(l.w2, d.hidden, d.dim), Transpose(l.w3, d.dim, d.hidden))
  }

  function WeightsOf(m: TorchModel): (w: Weights)
    requires Shaped(m)
    ensures WeightsShaped(w)
  {
    Weights(m.dims, m.tok, m.pos,
            seq(|m.layers|, i requires 0 <= i < |m.layers| => LayerWeightsOf(m.layers[i], m.dims)),
            m.norm, Transpose(m.output, m.dims.vocab, m.dims.dim))
  }

  lemma LayerTransposesCancel(l: TorchLayer, d: Dims)
    requires LayerShaped(l, d)
    ensures TorchLayerOf(LayerWeightsOf(l, d), d) == l
  {
    TransposeTwice(l.wq, d.dim, d.dim);
    TransposeTwice(l.wk, d.dim, d.dim);
    TransposeTwice(l.wv, d.dim, d.dim);
    TransposeTwice(l.wo, d.dim, d.dim);
    TransposeTwice(l.w1, d.hidden, d.dim);
    TransposeTwice(l.w2, d.hidden, d.dim);
    TransposeTwice(l.w3, d.dim, d.hidden);
  }

  lemma WeightsTransposesCancel(l: LayerWeights, d: Dims)
    requires WeightsLayerShaped(l, d)
    ensures LayerWeightsOf(TorchLayerOf(l, d), d) == l
  {
    TransposeTwice(l.q, d.dim, d.dim);
    TransposeTwice(l.k, d.dim, d.dim);
    TransposeTwice(l.v, d.dim, d.dim);
    TransposeTwice(l.o, d.dim, d.dim);
    TransposeTwice(l.gate, d.dim, d.hidden);
    TransposeTwice(l.up, d.dim, d.hidden);
    TransposeTwice(l.down, d.hidden, d.dim);
  }

  // ----- The payload -----

  /** The floats of a layer in file order, followed by `rest`. */
  function PutLayer(l: LayerWeights, rest: Vector): Vector {
    l.norm1 + (Flatten(l.q) + (Flatten(l.k) + (Flatten(l.v) + (Flatten(l.o) +
    (l.norm2 + (Flatten(l.gate) + (Flatten(l.up) + (Flatten(l.down) + rest))))))))
  }

  /** Every item written in turn, followed by `rest`. */
  function PutMany<T>(items: seq<T>, put: (T, Vector) -> Vector, rest: Vector): Vector {
    if items == [] then rest else put(items[0], PutMany(items[1..], put, rest))
  }

  function PutLayers(ls: seq<LayerWeights>, rest: Vector): Vector {
    PutMany(ls, PutLayer, rest)
  }

  /** All floats of the payload. */
  function PutWeights(w: Weights): Vector {
    Flatten(w.embedding) + (Flatten(w.position) + PutLayers(w.layers, w.norm + Flatten(w.output)))
  }

  /** A tensor read from the front of the data, or the failure of a reshape. */
  datatype Parsed<+T> = Short | Got(value: T, rest: Vector) {
    predicate IsFailure() {
      Short?
    }

    function PropagateFailure<U>(): Parsed<U>
      requires Short?
    {
      Short
    }

    function Extract(): (T, Vector)
      requires Got?
    {
      (value, rest)
    }
  }

  function TakeVector(data: Vector, n: nat): Parsed<Vector> {
    if |data| < n then Short else Got(data[..n], data[n..])
  }

  function TakeTensor(data: Vector, rows: nat, columns: nat): (r: Parsed<Tensor>)
    ensures r.Got? ==> Shape(r.value, rows, columns)
  {
    if |data| < rows * columns then Short
    else Got(Reshape(data[..rows * columns], rows, columns), data[rows * columns..])
  }

  function TakeLayer(data: Vector, d: Dims): (r: Parsed<LayerWeights>)
    ensures r.Got? ==> WeightsLayerShaped(r.value, d)
  {
    var (norm1, d1) :- TakeVector(data, d.dim);
    var (q, d2) :- TakeTensor(d1, d.dim, d.dim);
    var (k, d3) :- TakeTensor(d2, d.dim, d.dim);
    var (v, d4) :- TakeTensor(d3, d.dim, d.dim);
    var (o, d5) :- TakeTensor(d4, d.dim, d.dim);
    var (norm2, d6) :- TakeVector(d5, d.dim);
    var (gate, d7) :- TakeTensor(d6, d.dim, d.hidden);
    var (up, d8) :- TakeTensor(d7, d.dim, d.hidden);
    var (down, d9) :- TakeTensor(d8, d.hidden, d.dim);
    Got(LayerWeights(norm1, q, k, v, o, norm2, gate, up, down), d9)
  }

  /** `n` items read one after the other. */
  function TakeMany<T>(data: Vector, n: nat, take: Vector -> Parsed<T>): Parsed<seq<T>>
    decreases n
  {
    if n == 0 then Got([], data) else
      var (item, d1) :- take(data);
      var (items, d2) :- TakeMany(d1, n - 1, take);
      Got([item] + items, d2)
  }

  lemma {:induction false} TakeManyAll<T>(data: Vector, n: nat, take: Vector -> Parsed<T>, good: T -> bool)
    requires forall d :: take(d).Got? ==> good(take(d).value)
    requires TakeMany(data, n, take).Got?
    ensures var items := TakeMany(data, n, take).value;
            |items| == n && forall i :: 0 <= i < n ==> good(items[i])
    decreases n
  {
    if n > 0 {
      TakeManyAll(take(data).rest, n - 1, take, good);
    }
  }

  /** Reading many undoes writing many, once it does for each. */
  lemma {:induction false} TakeManyPut<T>(items: seq<T>, take: Vector -> Parsed<T>, put: (T, Vector) -> Vector, rest: Vector)
    requires forall i, r :: 0 <= i < |items| ==> take(put(items[i], r)) == Got(items[i], r)
    ensures TakeMany(PutMany(items, put, rest), |items|, take) == Got(items, rest)
  {
    if items != [] {
      assert take(put(items[0], PutMany(items[1..], put, rest))).Got?;
      forall i, r | 0 <= i < |items[1..]|
        ensures take(put(items[1..][i], r)) == Got(items[1..][i], r)
      {
        assert items[1..][i] == items[i + 1];
      }
      TakeManyPut(items[1..], take, put, rest);
      assert items == [items[0]] + items[1..];
    }
  }

  /** Writing many undoes reading many, once it does for each. */
  lemma {:induction false} PutManyTake<T>(data: Vector, n: nat, take: Vector -> Parsed<T>, put: (T, Vector) -> Vector)
    requires forall d :: take(d).Got? ==> put(take(d).value, take(d).rest) == d
    requires TakeMany(data, n, take).Got?
    ensures var r := TakeMany(data, n, take); PutMany(r.value, put, r.rest) == data
    decreases n
  {
    if n > 0 {
      var first := take(data);
      var others := TakeMany(first.rest, n - 1, take);
      PutManyTake(first.rest, n - 1, take, put);
      assert ([first.value] + others.value)[1..] == others.value;
    }
  }

  function LayerTaker(d: Dims): Vector -> Parsed<LayerWeights> {
    (data: Vector) => TakeLayer(data, d)
  }

  function TakeLayers(data: Vector, n: nat, d: Dims): (r: Parsed<seq<LayerWeights>>)
    ensures r.Got? ==> |r.value| == n && WeightsLayersShaped(r.value, d)
  {
    var take := LayerTaker(d);
    var r := TakeMany(data, n, take);
    assert r.Got? ==> |r.value| == n && WeightsLayersShaped(r.value, d) by {
      if r.Got? {
        TakeManyAll(data, n, take, (l: LayerWeights) => WeightsLayerShaped(l, d));
      }
    }
    r
  }

  function TakeWeights(data: Vector, d: Dims): (r: Parsed<Weights>)
    ensures r.Got? ==> WeightsShaped(r.value) && r.value.dims == d
  {
    var (embedding, d1) :- TakeTensor(data, d.vocab, d.dim);
    var (position, d2) :- TakeTensor(d1, d.context, d.dim);
    var (layers, d3) :- TakeLayers(d2, d.layers, d);
    var (norm, d4) :- TakeVector(d3, d.dim);
    var (output, d5) :- TakeTensor(d4, d.dim, d.vocab);
    Got(Weights(d, embedding, position, layers, norm, output), d5)
  }

  lemma TakeVectorPut(v: Vector, rest: Vector)
    ensures TakeVector(v + rest, |v|) == Got(v, rest)
  {
  }

  lemma TakeTensorPut(t: Tensor, rows: nat, columns: nat, rest: Vector)
    requires Shape(t, rows, columns)
    ensures TakeTensor(Flatten(t) + rest, rows, columns) == Got(t, rest)
  {
    ReshapeUndoesFlatten(t, rows, columns);
    assert (Flatten(t) + rest)[..rows * columns] == Flatten(t);
    assert (Flatten(t) + rest)[rows * columns..] == rest;
  }

  lemma PutTensorTake(data: Vector, rows: nat, columns: nat)
    requires TakeTensor(data, rows, columns).Got?
    ensures var r := TakeTensor(data, rows, columns); Flatten(r.value) + r.rest == data
  {
    FlattenUndoesReshape(data[..rows * columns], rows, columns);
  }

  lemma PutVectorTake(data: Vector, n: nat)
    requires TakeVector(data, n).Got?
    ensures var r := TakeVector(data, n); r.value + r.rest == data
  {
  }

  /** Reading a layer undoes writing it. */
  lemma TakeLayerPut(l: LayerWeights, d: Dims, rest: Vector)
    requires WeightsLayerShaped(l, d)
    ensures TakeLayer(PutLayer(l, rest), d) == Got(l, rest)
  {
    var r8 := Flatten(l.down) + rest;
    var r7 := Flatten(l.up) + r8;
    var r6 := Flatten(l.gate) + r7;
    var r5 := l.norm2 + r6;
    var r4 := Flatten(l.o) + r5;
    var r3 := Flatten(l.v) + r4;
    var r2 := Flatten(l.k) + r3;
    var r1 := Flatten(l.q) + r2;
    TakeVectorPut(l.norm1, r1);
    TakeTensorPut(l.q, d.dim, d.dim, r2);
    TakeTensorPut(l.k, d.dim, d.dim, r3);
    TakeTensorPut(l.v, d.dim, d.dim, r4);
    TakeTensorPut(l.o, d.dim, d.dim, r5);
    TakeVectorPut(l.norm2, r6);
    TakeTensorPut(l.gate, d.dim, d.hidden, r7);
    TakeTensorPut(l.up, d.dim, d.hidden, r8);
    TakeTensorPut(l.down, d.hidden, d.dim, rest);
  }

  /** Writing a layer undoes reading it. */
  lemma PutLayerTake(data: Vector, d: Dims)
    requires TakeLayer(data, d).Got?
    ensures var r := TakeLayer(data, d); PutLayer(r.value, r.rest) == data
  {
    var r1 := TakeVector(data, d.dim);
    var r2 := TakeTensor(r1.rest, d.dim, d.dim);
    var r3 := TakeTensor(r2.rest, d.dim, d.dim);
    var r4 := TakeTensor(r3.rest, d.dim, d.dim);
    var r5 := TakeTensor(r4.rest, d.dim, d.dim);
    var r6 := TakeVector(r5.rest, d.dim);
    var r7 := TakeTensor(r6.rest, d.dim, d.hidden);
    var r8 := TakeTensor(r7.rest, d.dim, d.hidden);
    PutVectorTake(data, d.dim);
    PutTensorTake(r1.rest, d.dim, d.dim);
    PutTensorTake(r2.rest, d.dim, d.dim);
    PutTensorTake(r3.rest, d.dim, d.dim);
    PutTensorTake(r4.rest, d.dim, d.dim);
    PutVectorTake(r5.rest, d.dim);
    PutTensorTake(r6.rest, d.dim, d.hidden);
    PutTensorTake(r7.rest, d.dim, d.hidden);
    PutTensorTake(r8.rest, d.hidden, d.dim);
  }

  lemma TakeLayersPut(ls: seq<LayerWeights>, d: Dims, rest: Vector)
    requires WeightsLayersShaped(ls, d)
    ensures TakeLayers(PutLayers(ls, rest), |ls|, d) == Got(ls, rest)
  {
    var take := LayerTaker(d);
    forall i, r | 0 <= i < |ls|
      ensures take(PutLayer(ls[i], r)) == Got(ls[i], r)
    {
      TakeLayerPut(ls[i], d, r);
    }
    TakeManyPut(ls, take, PutLayer, rest);
  }

  lemma PutLayersTake(data: Vector, n: nat, d: Dims)
    requires TakeLayers(data, n, d).Got?
    ensures var r := TakeLayers(data, n, d); PutLayers(r.value, r.rest) == data
  {
    var take := LayerTaker(d);
    forall data | take(data).Got?
      ensures PutLayer(take(data).value, take(data).rest) == data
    {
      PutLayerTake(data, d);
    }
    PutManyTake(data, n, take, PutLayer);
  }

  /** Reading the payload undoes writing it and ends exactly at its end. */
  lemma TakeWeightsPut(w: Weights)
    requires WeightsShaped(w)
    ensures TakeWeights(PutWeights(w), w.dims) == Got(w, [])
  {
    var d := w.dims;
    var r3 := w.norm + Flatten(w.output);
    var r2 := PutLayers(w.layers, r3);
    var r1 := Flatten(w.position) + r2;
    TakeTensorPut(w.embedding, d.vocab, d.dim, r1);
    TakeTensorPut(w.position, d.context, d.dim, r2);
    TakeLayersPut(w.layers, d, r3);
    TakeVectorPut(w.norm, Flatten(w.output));
    TakeTensorPut(w.output, d.dim, d.vocab, []);
    assert Flatten(w.output) + [] == Flatten(w.output);
  }

  /** Writing undoes reading, when reading ends at the end of the data. */
  lemma PutWeightsTake(data: Vector, d: Dims)
    requires TakeWeights(data, d).Got? && TakeWeights(data, d).rest == []
    ensures PutWeights(TakeWeights(data, d).value) == data
  {
    var e := TakeTensor(data, d.vocab, d.dim);
    var p := TakeTensor(e.rest, d.context, d.dim);
    var ls := TakeLayers(p.rest, d.layers, d);
    var n := TakeVector(ls.rest, d.dim);
    PutTensorTake(data, d.vocab, d.dim);
    PutTensorTake(e.rest, d.context, d.dim);
    PutLayersTake(p.rest, d.layers, d);
    PutVectorTake(ls.rest, d.dim);
    PutTensorTake(n.rest, d.dim, d.vocab);
    var o := TakeTensor(n.rest, d.dim, d.vocab);
    assert Flatten(o.value) + o.rest == Flatten(o.value);
  }

  // ----- The file -----

  /** `hashlib.sha256(...).digest()`, of which only the length is known. */
  type Digest = f: seq<Byte> -> seq<Byte> | forall bs :: |f(bs)| == 32 witness (bs: seq<Byte>) => seq(32, _ => 0)

  /** `b"NPPAI\0\0\0"` */
  const MAGIC: seq<Byte> := [78, 80, 80, 65, 73, 0, 0, 0]

  predicate FitsHeader(d: Dims) {
    && d.dim < 0x8000_0000 && d.hidden < 0x8000_0000 && d.layers < 0x8000_0000
    && d.context < 0x8000_0000 && d.vocab < 0x8000_0000
  }

  /** The 40 bytes before the digest. */
  function Header(d: Dims, size: nat): (h: seq<Byte>)
    ensures |h| == 40
  {
    MAGIC + Little(2, 4) + Little(d.dim, 4) + Little(d.hidden, 4) + Little(d.layers, 4) + Little(d.context, 4)
    + Little(d.vocab, 4) + Little(size, 8)
  }

  /** A file around the given payload; `None` stands for the error of a number that does not fit its header field. */
  function Framed(d: Dims, payload: seq<Byte>, sha: Digest): Option<seq<Byte>> {
    if !FitsHeader(d) || |payload| >= Pow256(8) then None
    else Some(Header(d, |payload|) + (sha(payload) + payload))
  }

  /** The exported file. */
  function Exported(m: TorchModel, sha: Digest): Option<seq<Byte>>
    requires Shaped(m)
  {
    Framed(m.dims, ToBytes(PutWeights(WeightsOf(m))), sha)
  }

  /** A four-byte signed header field. */
  function Signed(bs: seq<Byte>): int
    requires |bs| == 4
  {
    if FromLittle(bs) < 0x8000_0000 then FromLittle(bs) else FromLittle(bs) - 0x1_0000_0000
  }

  /** The dimensions and the payload size of a header; `None` when the loader refuses them. */
  function ReadHeader(h: seq<Byte>): (r: Option<(Dims, nat)>)
    requires |h| == 40
  {
    var dim, hidden, layers := Signed(h[12..16]), Signed(h[16..20]), Signed(h[20..24]);
    var context, vocab := Signed(h[24..28]), Signed(h[28..32]);
    if h[..8] != MAGIC || FromLittle(h[8..12]) != 2 then None
    else if vocab != 256 || dim <= 0 || hidden <= 0 || layers <= 0 || context <= 0 then None
    else Some((Dims(dim, hidden, layers, context, vocab), FromLittle(h[32..40])))
  }

  /** The payload of a file whose header is in order; `None` stands for the first three ValueErrors. */
  function Unframed(raw: seq<Byte>, sha: Digest): (r: Option<(Dims, seq<Byte>)>) {
    if |raw| < 72 then None else
      match ReadHeader(raw[..40])
      case None => None
      case Some((d, size)) =>
        if size != |raw| - 72 || sha(raw[72..]) != raw[40..72] then None else Some((d, raw[72..]))
  }

  /** What `take` reads when it consumes the whole payload. */
  function Whole<T>(payload: seq<Byte>, take: Vector -> Parsed<T>): Option<T> {
    if |payload| % 4 != 0 then None else
      var r := take(FromBytes(payload));
      if r.Short? || r.rest != [] then None else Some(r.value)
  }

  /** The weights in a payload; `None` when its length is not the one the dimensions call for. */
  function Weighed(payload: seq<Byte>, d: Dims): (w: Option<Weights>)
    ensures w.Some? ==> WeightsShaped(w.value) && w.value.dims == d
  {
    Whole(payload, (data: Vector) => TakeWeights(data, d))
  }

  /** What `load_weights` returns; `None` stands for its ValueErrors. */
  function Loaded(raw: seq<Byte>, sha: Digest): (w: Option<Weights>)
    ensures w.Some? ==> WeightsShaped(w.value)
  {
    match Unframed(raw, sha)
    case None => None
    case Some((d, payload)) => Weighed(payload, d)
  }

  // ----- Printing and parsing undo each other -----

  /** Dimensions the runtime accepts. */
  predicate Usable(d: Dims) {
    d.vocab == 256 && d.dim > 0 && d.hidden > 0 && d.layers > 0 && d.context > 0
  }

  lemma LastField(raw: seq<Byte>, before: seq<Byte>, field: seq<Byte>)
    requires before + field <= raw
    ensures before <= raw && raw[|before|..|before| + |field|] == field
  {
    assert before <= before + field;
  }

  lemma Fields(h: seq<Byte>, magic: seq<Byte>, version: seq<Byte>, f: seq<seq<Byte>>, size: seq<Byte>)
    requires |magic| == 8 && |version| == 4 && |f| == 5 && |size| == 8
    requires forall i :: 0 <= i < 5 ==> |f[i]| == 4
    requires h == magic + version + f[0] + f[1] + f[2] + f[3] + f[4] + size
    ensures h[..8] == magic && h[8..12] == version && h[12..16] == f[0] && h[16..20] == f[1] && h[20..24] == f[2]
    ensures h[24..28] == f[3] && h[28..32] == f[4] && h[32..40] == size
  {
    var p2 := magic + version;
    var p3 := p2 + f[0];
    var p4 := p3 + f[1];
    var p5 := p4 + f[2];
    var p6 := p5 + f[3];
    var p7 := p6 + f[4];
    LastField(h, p7, size);
    LastField(h, p6, f[4]);
    LastField(h, p5, f[3]);
    LastField(h, p4, f[2]);
    LastField(h, p3, f[1]);
    LastField(h, p2, f[0]);
    LastField(h, magic, version);
  }

  /** Where the header's fields are. */
  lemma HeaderFields(d: Dims, size: nat)
    ensures var h := Header(d, size);
            && h[..8] == MAGIC && h[8..12] == Little(2, 4)
            && h[12..16] == Little(d.dim, 4) && h[16..20] == Little(d.hidden, 4) && h[20..24] == Little(d.layers, 4)
            && h[24..28] == Little(d.context, 4) && h[28..32] == Little(d.vocab, 4) && h[32..40] == Little(size, 8)
  {
    Fields(Header(d, size), MAGIC, Little(2, 4),
           [Little(d.dim, 4), Little(d.hidden, 4), Little(d.layers, 4), Little(d.context, 4), Little(d.vocab, 4)], Little(size, 8));
  }

  lemma VersionBytes()
    ensures Little(2, 4) == [2, 0, 0, 0]
  {
    assert Little(0, 1) == [0];
    assert Little(0, 2) == [0, 0];
    assert Little(0, 3) == [0, 0, 0];
  }

  lemma MagicText()
    ensures Ascii("NPPAI\0\0\0") == MAGIC
  {
  }

  /** A file starts with the format's name and version 2. */
  lemma HeaderStarts(d: Dims, size: nat)
    ensures Header(d, size)[..8] == Ascii("NPPAI\0\0\0") && Header(d, size)[8..12] == [2, 0, 0, 0]
  {
    HeaderFields(d, size);
    MagicText();
    VersionBytes();
  }

  /** A field of the header that fits reads back. */
  lemma SignedUndoes(n: nat)
    requires n < 0x8000_0000
    ensures Signed(Little(n, 4)) == n
  {
    Pow256Of4();
    FromLittleUndoes(n, 4);
  }

  lemma SignedField(bs: seq<Byte>)
    requires |bs| == 4 && Signed(bs) >= 0
    ensures Signed(bs) < 0x8000_0000 && Little(Signed(bs), 4) == bs
  {
    Pow256Of4();
    LittleUndoes(bs);
  }

  /** Reading a header undoes writing it. */
  lemma ReadUndoesHeader(d: Dims, size: nat)
    requires FitsHeader(d) && Usable(d) && size < Pow256(8)
    ensures ReadHeader(Header(d, size)) == Some((d, size))
  {
    HeaderFields(d, size);
    SignedUndoes(d.dim);
    SignedUndoes(d.hidden);
    SignedUndoes(d.layers);
    SignedUndoes(d.context);
    SignedUndoes(d.vocab);
    FromLittleUndoes(size, 8);
    Pow256Of4();
    FromLittleUndoes(2, 4);
  }

  /** A header that is accepted is the header of what was read from it. */
  lemma HeaderUndoesRead(h: seq<Byte>)
    requires |h| == 40 && ReadHeader(h).Some?
    ensures var (d, size) := ReadHeader(h).value;
            FitsHeader(d) && Usable(d) && size < Pow256(8) && Header(d, size) == h
  {
    SignedField(h[12..16]);
    SignedField(h[16..20]);
    SignedField(h[20..24]);
    SignedField(h[24..28]);
    SignedField(h[28..32]);
    LittleUndoes(h[8..12]);
    LittleUndoes(h[32..40]);
    assert h == h[..8] + h[8..12] + h[12..16] + h[16..20] + h[20..24] + h[24..28] + h[28..32] + h[32..40];
  }

  lemma WeightsUndoTorchModel(w: Weights)
    requires WeightsShaped(w)
    ensures WeightsOf(TorchModelOf(w)) == w
  {
    var back := WeightsOf(TorchModelOf(w));
    forall i | 0 <= i < |w.layers|
      ensures back.layers[i] == w.layers[i]
    {
      WeightsTransposesCancel(w.layers[i], w.dims);
    }
    TransposeTwice(w.output, w.dims.dim, w.dims.vocab);
    assert back.layers == w.layers;
  }

  lemma TorchModelUndoesWeights(m: TorchModel)
    requires Shaped(m)
    ensures TorchModelOf(WeightsOf(m)) == m
  {
    var back := TorchModelOf(WeightsOf(m));
    forall i | 0 <= i < |m.layers|
      ensures back.layers[i] == m.layers[i]
    {
      LayerTransposesCancel(m.layers[i], m.dims);
    }
    TransposeTwice(m.output, m.dims.vocab, m.dims.dim);
    assert back.layers == m.layers;
  }

  lemma Splits(h: seq<Byte>, payload: seq<Byte>, sha: Digest)
    requires |h| == 40
    ensures var raw := h + (sha(payload) + payload);
            raw[..40] == h && raw[40..72] == sha(payload) && raw[72..] == payload
  {
    var tail := sha(payload) + payload;
    assert tail[..32] == sha(payload) && tail[32..] == payload;
  }

  lemma Rejoins(raw: seq<Byte>, sha: Digest)
    requires |raw| >= 72 && sha(raw[72..]) == raw[40..72]
    ensures raw == raw[..40] + (sha(raw[72..]) + raw[72..])
  {
  }

  lemma UnframedParts(raw: seq<Byte>, d: Dims, sha: Digest)
    requires |raw| >= 72 && ReadHeader(raw[..40]) == Some((d, |raw| - 72)) && sha(raw[72..]) == raw[40..72]
    ensures Unframed(raw, sha) == Some((d, raw[72..]))
  {
  }

  lemma UnframedUndoes(d: Dims, payload: seq<Byte>, sha: Digest)
    requires Usable(d) && Framed(d, payload, sha).Some?
    ensures Unframed(Framed(d, payload, sha).value, sha) == Some((d, payload))
  {
    ReadUndoesHeader(d, |payload|);
    Splits(Header(d, |payload|), payload, sha);
    UnframedParts(Header(d, |payload|) + (sha(payload) + payload), d, sha);
  }

  lemma FramedUndoes(raw: seq<Byte>, sha: Digest)
    requires Unframed(raw, sha).Some?
    ensures var (d, payload) := Unframed(raw, sha).value;
            Usable(d) && Framed(d, payload, sha) == Some(raw)
  {
    HeaderUndoesRead(raw[..40]);
    Rejoins(raw, sha);
  }

  lemma WholeUndoes<T>(floats: Vector, take: Vector -> Parsed<T>, value: T)
    requires take(floats) == Got(value, [])
    ensures Whole(ToBytes(floats), take) == Some(value)
  {
    FromBytesUndoes(floats);
  }

  lemma WeighedUndoes(w: Weights)
    requires WeightsShaped(w)
    ensures Weighed(ToBytes(PutWeights(w)), w.dims) == Some(w)
  {
    TakeWeightsPut(w);
    WholeUndoes(PutWeights(w), (data: Vector) => TakeWeights(data, w.dims), w);
  }

  lemma WrittenUndoes(payload: seq<Byte>, d: Dims)
    requires Weighed(payload, d).Some?
    ensures ToBytes(PutWeights(Weighed(payload, d).value)) == payload
  {
    PutWeightsTake(FromBytes(payload), d);
    ToBytesUndoes(payload);
  }

  /** Loading an exported model and copying it into the training framework restores every tensor. */
  lemma LoadUndoesExport(m: TorchModel, sha: Digest)
    requires Shaped(m) && Usable(m.dims) && Exported(m, sha).Some?
    ensures Loaded(Exported(m, sha).value, sha) == Some(WeightsOf(m))
    ensures TorchModelOf(Loaded(Exported(m, sha).value, sha).value) == m
  {
    var payload := ToBytes(PutWeights(WeightsOf(m)));
    UnframedUndoes(m.dims, payload, sha);
    WeighedUndoes(WeightsOf(m));
    TorchModelUndoesWeights(m);
  }

  /** A file the loader accepts is, byte for byte, the export of the model it loads. */
  lemma ExportUndoesLoad(raw: seq<Byte>, sha: Digest)
    requires Loaded(raw, sha).Some?
    ensures var m := TorchModelOf(Loaded(raw, sha).value);
            Usable(m.dims) && Exported(m, sha) == Some(raw)
  {
    var (d, payload) := Unframed(raw, sha).value;
    FramedUndoes(raw, sha);
    WrittenUndoes(payload, d);
    WeightsUndoTorchModel(Loaded(raw, sha).value);
  }

  /** A model that loads reads bytes, and none of its dimensions is empty. */
  lemma LoadedReadsBytes(raw: seq<Byte>, sha: Digest)
    requires Loaded(raw, sha).Some?
    ensures var w := Loaded(raw, sha).value;
            && |w.embedding| == 256 && |w.position| > 0 && |w.norm| > 0 && |w.layers| > 0
            && forall i :: 0 <= i < |w.layers| ==> |w.layers[i].down| > 0
  {
    ExportUndoesLoad(raw, sha);
    var w := Loaded(raw, sha).value;
    assert forall i :: 0 <= i < |w.layers| ==> WeightsLayerShaped(w.layers[i], w.dims);
  }

  /** The loader accepts exactly the exports of models it can run. */
  lemma AcceptedIffExported(raw: seq<Byte>, sha: Digest)
    ensures Loaded(raw, sha).Some? <==>
            exists m :: Shaped(m) && Usable(m.dims) && Exported(m, sha) == Some(raw)
  {
    if Loaded(raw, sha).Some? {
      ExportUndoesLoad(raw, sha);
    }
    if m :| Shaped(m) && Usable(m.dims) && Exported(m, sha) == Some(raw) {
      LoadUndoesExport(m, sha);
    }
  }

  // ----- The size of the payload -----

  lemma LayerSize(l: LayerWeights, d: Dims, rest: Vector)
    requires WeightsLayerShaped(l, d)
    ensures |PutLayer(l, rest)| == 2 * d.dim + 4 * (d.dim * d.dim) + 3 * (d.dim * d.hidden) + |rest|
  {
    FlattenSize(l.q, d.dim, d.dim);
    FlattenSize(l.k, d.dim, d.dim);
    FlattenSize(l.v, d.dim, d.dim);
    FlattenSize(l.o, d.dim, d.dim);
    FlattenSize(l.gate, d.dim, d.hidden);
    FlattenSize(l.up, d.dim, d.hidden);
    FlattenSize(l.down, d.hidden, d.dim);
  }

  lemma {:induction false} PutManySize<T>(items: seq<T>, put: (T, Vector) -> Vector, size: nat, rest: Vector)
    requires forall i, r :: 0 <= i < |items| ==> |put(items[i], r)| == size + |r|
    ensures |PutMany(items, put, rest)| == |items| * size + |rest|
  {
    if items != [] {
      forall i, r | 0 <= i < |items[1..]|
        ensures |put(items[1..][i], r)| == size + |r|
      {
        assert items[1..][i] == items[i + 1];
      }
      PutManySize(items[1..], put, size, rest);
      assert |put(items[0], PutMany(items[1..], put, rest))| == size + |PutMany(items[1..], put, rest)|;
      assert |items| * size == |items[1..]| * size + size;
    }
  }

  /** The number of floats in an export, from its dimensions alone. */
  lemma PayloadSize(w: Weights)
    requires WeightsShaped(w)
    ensures var d := w.dims;
            |PutWeights(w)| == d.vocab * d.dim + d.context * d.dim
                             + d.layers * (2 * d.dim + 4 * (d.dim * d.dim) + 3 * (d.dim * d.hidden)) + d.dim + d.dim * d.vocab
  {
    var d := w.dims;
    FlattenSize(w.embedding, d.vocab, d.dim);
    FlattenSize(w.position, d.context, d.dim);
    var size := 2 * d.dim + 4 * (d.dim * d.dim) + 3 * (d.dim * d.hidden);
    forall i, r | 0 <= i < |w.layers|
      ensures |PutLayer(w.layers[i], r)| == size + |r|
    {
      LayerSize(w.layers[i], d, r);
    }
    PutManySize(w.layers, PutLayer, size, w.norm + Flatten(w.output));
    FlattenSize(w.output, d.dim, d.vocab);
  }

  // ----- The order of the payload -----

  /** One list after another. */
  function Joined(parts: seq<Vector>): Vector {
    if parts == [] then [] else parts[0] + Joined(parts[1..])
  }

  /** The nine tensors of a layer in file order. */
  function LayerTensors(l: LayerWeights): seq<Vector> {
    [l.norm1, Flatten(l.q), Flatten(l.k), Flatten(l.v), Flatten(l.o), l.norm2, Flatten(l.gate), Flatten(l.up), Flatten(l.down)]
  }

  function LayersTensors(ls: seq<LayerWeights>): seq<Vector> {
    if ls == [] then [] else LayerTensors(ls[0]) + LayersTensors(ls[1..])
  }

  lemma {:induction false} JoinedConcat(a: seq<Vector>, b: seq<Vector>)
    ensures Joined(a + b) == Joined(a) + Joined(b)
  {
    if a == [] {
      assert a + b == b;
    } else {
      assert (a + b)[1..] == a[1..] + b;
      JoinedConcat(a[1..], b);
      Regroup(a[0], Joined(a[1..]), Joined(b));
    }
  }

  lemma JoinedHead(part: Vector, parts: seq<Vector>)
    ensures Joined([part] + parts) == part + Joined(parts)
  {
    assert ([part] + parts)[1..] == parts;
  }

  lemma {:induction false} PutIsJoined(parts: seq<Vector>, put: seq<Vector>, rest: Vector)
    requires |put| == |parts| + 1 && put[|parts|] == rest
    requires forall k :: 0 <= k < |parts| ==> put[k] == parts[k] + put[k + 1]
    ensures put[0] == Joined(parts) + rest
  {
    if parts == [] {
      assert Joined(parts) + rest == rest;
    } else {
      PutIsJoined(parts[1..], put[1..], rest);
      Regroup(parts[0], Joined(parts[1..]), rest);
    }
  }

  lemma LayerIsTensors(l: LayerWeights, rest: Vector)
    ensures PutLayer(l, rest) == Joined(LayerTensors(l)) + rest
  {
    var r8 := Flatten(l.down) + rest;
    var r7 := Flatten(l.up) + r8;
    var r6 := Flatten(l.gate) + r7;
    var r5 := l.norm2 + r6;
    var r4 := Flatten(l.o) + r5;
    var r3 := Flatten(l.v) + r4;
    var r2 := Flatten(l.k) + r3;
    var r1 := Flatten(l.q) + r2;
    PutIsJoined(LayerTensors(l), [PutLayer(l, rest), r1, r2, r3, r4, r5, r6, r7, r8, rest], rest);
  }

  lemma {:induction false} LayersAreTensors(ls: seq<LayerWeights>, rest: Vector)
    ensures PutLayers(ls, rest) == Joined(LayersTensors(ls)) + rest
  {
    if ls == [] {
      assert Joined([]) + rest == rest;
    } else {
      var tail := PutLayers(ls[1..], rest);
      LayersAreTensors(ls[1..], rest);
      LayerIsTensors(ls[0], tail);
      JoinedConcat(LayerTensors(ls[0]), LayersTensors(ls[1..]));
      Regroup(Joined(LayerTensors(ls[0])), Joined(LayersTensors(ls[1..])), rest);
    }
  }

  /** The payload is the tensors in this order: embeddings, positions, nine for each layer, the last norm, the output. */
  lemma PayloadIsTensors(w: Weights)
    ensures PutWeights(w) ==
            Joined([Flatten(w.embedding)] + ([Flatten(w.position)] + (LayersTensors(w.layers) + ([w.norm] + ([Flatten(w.output)] + [])))))
  {
    var end := [w.norm] + ([Flatten(w.output)] + []);
    var layers := LayersTensors(w.layers);
    LayersAreTensors(w.layers, w.norm + Flatten(w.output));
    JoinedHead(Flatten(w.embedding), [Flatten(w.position)] + (layers + end));
    JoinedHead(Flatten(w.position), layers + end);
    JoinedConcat(layers, end);
    JoinedHead(w.norm, [Flatten(w.output)] + []);
    JoinedHead(Flatten(w.output), []);
    assert Flatten(w.output) + [] == Flatten(w.output);
  }

  /** A trained layer's tensors in file order, the linear ones transposed. */
  function TorchTensors(l: TorchLayer, d: Dims): seq<Vector>
    requires LayerShaped(l, d)
  {
    [l.rmsAttn, Flatten(Transpose(l.wq, d.dim, d.dim)), Flatten(Transpose(l.wk, d.dim, d.dim)),
     Flatten(Transpose(l.wv, d.dim, d.dim)), Flatten(Transpose(l.wo, d.dim, d.dim)),
     l.rmsFfn, Flatten(Transpose(l.w1, d.hidden, d.dim)), Flatten(Transpose(l.w2, d.hidden, d.dim)),
     Flatten(Transpose(l.w3, d.dim, d.hidden))]
  }

  function TorchLayersTensors(ls: seq<TorchLayer>, d: Dims): seq<Vector>
    requires forall i :: 0 <= i < |ls| ==> LayerShaped(ls[i], d)
  {
    if ls == [] then [] else TorchTensors(ls[0], d) + TorchLayersTensors(ls[1..], d)
  }

  lemma {:induction false} SameLayersTensors(ls: seq<TorchLayer>, ws: seq<LayerWeights>, d: Dims)
    requires |ls| == |ws| && forall i :: 0 <= i < |ls| ==> LayerShaped(ls[i], d)
    requires forall i :: 0 <= i < |ls| ==> ws[i] == LayerWeightsOf(ls[i], d)
    ensures LayersTensors(ws) == TorchLayersTensors(ls, d)
  {
    if ls != [] {
      assert LayerTensors(ws[0]) == TorchTensors(ls[0], d);
      SameLayersTensors(ls[1..], ws[1..], d);
    }
  }

  /** The payload of an export, tensor by tensor. */
  lemma ExportIsTensors(m: TorchModel)
    requires Shaped(m)
    ensures PutWeights(WeightsOf(m)) ==
            Joined([Flatten(m.tok)] + ([Flatten(m.pos)] + (TorchLayersTensors(m.layers, m.dims) + ([m.norm]
                   + ([Flatten(Transpose(m.output, m.dims.vocab, m.dims.dim))] + [])))))
  {
    var w := WeightsOf(m);
    SameLayersTensors(m.layers, w.layers, m.dims);
    PayloadIsTensors(w);
  }
}
