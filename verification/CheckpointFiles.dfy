/** Writing and reading checkpoints step by step, against the functions of `Checkpoint`. */
module CheckpointFiles {
  import opened PyData
  import opened Utf8
  import opened Bytes
  import opened Checkpoint

  /** The payload buffer of the exporter. */
  class Payload {
    var data: seq<Byte>

    constructor ()
      ensures data == []
    {
      data := [];
    }

    method WriteVector(v: Vector)
      modifies this
      ensures data == old(data) + ToBytes(v)
    {
      data := data + ToBytes(v);
    }

    method WriteTensor(t: Tensor)
      modifies this
      ensures data == old(data) + ToBytes(Flatten(t))
    {
      data := data + ToBytes(Flatten(t));
    }

    method WriteLinear(t: Tensor, rows: nat, columns: nat)
      requires Shape(t, rows, columns)
      modifies this
      ensures data == old(data) + ToBytes(Flatten(Transpose(t, rows, columns)))
    {
      data := data + ToBytes(Flatten(Transpose(t, rows, columns)));
    }

    /** The layer is written just before whatever follows it. */
    method WriteLayer(l: TorchLayer, d: Dims, ghost rest: Vector)
      requires LayerShaped(l, d)
      modifies this
      ensures data + ToBytes(rest) == old(data) + ToBytes(PutLayer(LayerWeightsOf(l, d), rest))
    {
      ghost var w := LayerWeightsOf(l, d);
      ghost var r8 := Flatten(w.down) + rest;
      ghost var r7 := Flatten(w.up) + r8;
      ghost var r6 := Flatten(w.gate) + r7;
      ghost var r5 := w.norm2 + r6;
      ghost var r4 := Flatten(w.o) + r5;
      ghost var r3 := Flatten(w.v) + r4;
      ghost var r2 := Flatten(w.k) + r3;
      ghost var r1 := Flatten(w.q) + r2;
      Then(data, w.norm1, r1);
      WriteVector(l.rmsAttn);
      Then(data, Flatten(w.q), r2);
      WriteLinear(l.wq, d.dim, d.dim);
      Then(data, Flatten(w.k), r3);
      WriteLinear(l.wk, d.dim, d.dim);
      Then(data, Flatten(w.v), r4);
      WriteLinear(l.wv, d.dim, d.dim);
      Then(data, Flatten(w.o), r5);
      WriteLinear(l.wo, d.dim, d.dim);
      Then(data, w.norm2, r6);
      WriteVector(l.rmsFfn);
      Then(data, Flatten(w.gate), r7);
      WriteLinear(l.w1, d.hidden, d.dim);
      Then(data, Flatten(w.up), r8);
      WriteLinear(l.w2, d.hidden, d.dim);
      Then(data, Flatten(w.down), rest);
      WriteLinear(l.w3, d.dim, d.hidden);
    }
  }

  lemma Then(data: seq<Byte>, v: Vector, rest: Vector)
    ensures data + ToBytes(v + rest) == (data + ToBytes(v)) + ToBytes(rest)
  {
    ToBytesConcat(v, rest);
  }

  method WriteLayers(payload: Payload, m: TorchModel, ghost rest: Vector)
    requires Shaped(m)
    modifies payload
    ensures payload.data + ToBytes(rest) == old(payload.data) + ToBytes(PutLayers(WeightsOf(m).layers, rest))
  {
    ghost var ls := WeightsOf(m).layers;
    assert ls[0..] == ls;
    for i := 0 to |m.layers|
      invariant payload.data + ToBytes(PutLayers(ls[i..], rest)) == old(payload.data) + ToBytes(PutLayers(ls, rest))
    {
      assert ls[i..][1..] == ls[i + 1..];
      payload.WriteLayer(m.layers[i], m.dims, PutLayers(ls[i + 1..], rest));
    }
  }

  /** The exporter writes the tensors of the model in the order, orientation and framing of `Exported`. */
  method ExportToBin(m: TorchModel, sha: Digest) returns (raw: Option<seq<Byte>>)
    requires Shaped(m)
    ensures raw == Exported(m, sha)
  {
    ghost var w := WeightsOf(m);
    var payload := new Payload();
    ghost var r3 := w.norm + Flatten(w.output);
    ghost var r2 := PutLayers(w.layers, r3);
    ghost var r1 := Flatten(w.position) + r2;
    Then([], Flatten(w.embedding), r1);
    payload.WriteTensor(m.tok);
    Then(payload.data, Flatten(w.position), r2);
    payload.WriteTensor(m.pos);
    WriteLayers(payload, m, r3);
    Then(payload.data, w.norm, Flatten(w.output));
    payload.WriteVector(m.norm);
    payload.WriteLinear(m.output, m.dims.vocab, m.dims.dim);
    assert payload.data == ToBytes(PutWeights(w));
    raw := Framed(m.dims, payload.data, sha);
  }

  // ----- Loading -----

  /** `r` is the outcome of a parse, and `left` the data it left. */
  predicate Reads<T(==)>(r: Option<T>, left: Vector, p: Parsed<T>) {
    match p
    case Short => r == None
    case Got(value, rest) => r == Some(value) && left == rest
  }

  /** Reading `n` more items at `left` completes what reading `whole` reads. */
  predicate Continues<T(==)>(read: seq<T>, left: Vector, n: nat, take: Vector -> Parsed<T>, whole: Parsed<seq<T>>) {
    match TakeMany(left, n, take)
    case Short => whole == Short
    case Got(items, rest) => whole == Got(read + items, rest)
  }

  lemma ContinuesStep<T>(read: seq<T>, left: Vector, n: nat, take: Vector -> Parsed<T>, whole: Parsed<seq<T>>)
    requires n > 0 && Continues(read, left, n, take, whole)
    ensures match take(left)
            case Short => whole == Short
            case Got(item, rest) => Continues(read + [item], rest, n - 1, take, whole)
  {
    if take(left).Got? {
      var item, rest := take(left).value, take(left).rest;
      var others := TakeMany(rest, n - 1, take);
      if others.Got? {
        assert read + ([item] + others.value) == (read + [item]) + others.value;
      }
    }
  }

  predicate LayersLeft(read: seq<LayerWeights>, left: Vector, n: nat, d: Dims, whole: Parsed<seq<LayerWeights>>) {
    Continues(read, left, n, LayerTaker(d), whole)
  }

  /** Holds always; an instance of it asks for the meaning of `left` below. */
  ghost predicate Asked(read: seq<LayerWeights>, l: Vector, k: nat) {
    true
  }

  ghost predicate NamesLayersLeft(left: (seq<LayerWeights>, Vector, nat) -> bool, d: Dims, whole: Parsed<seq<LayerWeights>>) {
    forall read, l, k {:trigger Asked(read, l, k)} :: Asked(read, l, k) ==> left(read, l, k) == LayersLeft(read, l, k, d, whole)
  }

  lemma LayersLeftFirst(left: Vector, n: nat, d: Dims)
    ensures LayersLeft([], left, n, d, TakeLayers(left, n, d))
  {
    var r := TakeMany(left, n, LayerTaker(d));
    if r.Got? {
      assert [] + r.value == r.value;
    }
  }

  lemma LayersLeftLast(read: seq<LayerWeights>, left: Vector, d: Dims, whole: Parsed<seq<LayerWeights>>)
    requires LayersLeft(read, left, 0, d, whole)
    ensures whole == Got(read, left)
  {
    assert read + [] == read;
  }

  /** The loader's data and its `offset`. */
  class Reader {
    const data: Vector
    var offset: nat

    ghost predicate Valid()
      reads this
    {
      offset <= |data|
    }

    ghost function Left(): Vector
      reads this
      requires Valid()
    {
      data[offset..]
    }

    constructor (data: Vector)
      ensures Valid() && this.data == data && offset == 0
    {
      this.data := data;
      offset := 0;
    }

    method ReadVector(n: nat) returns (r: Option<Vector>)
      requires Valid()
      modifies this
      ensures Valid() && Reads(r, Left(), TakeVector(old(Left()), n))
    {
      if offset + n > |data| {
        return None;
      }
      assert data[offset..][..n] == data[offset..offset + n];
      r := Some(data[offset..offset + n]);
      offset := offset + n;
    }

    method ReadTensor(rows: nat, columns: nat) returns (r: Option<Tensor>)
      requires Valid()
      modifies this
      ensures Valid() && Reads(r, Left(), TakeTensor(old(Left()), rows, columns))
    {
      if offset + rows * columns > |data| {
        return None;
      }
      var count := rows * columns;
      assert data[offset..][..count] == data[offset..offset + count];
      r := Some(Reshape(data[offset..offset + count], rows, columns));
      offset := offset + count;
    }

    method ReadLayer(d: Dims) returns (r: Option<LayerWeights>)
      requires Valid()
      modifies this
      ensures Valid() && Reads(r, Left(), TakeLayer(old(Left()), d))
    {
      var norm1 := ReadVector(d.dim);
      if norm1.None? { return None; }
      var q := ReadTensor(d.dim, d.dim);
      if q.None? { return None; }
      var k := ReadTensor(d.dim, d.dim);
      if k.None? { return None; }
      var v := ReadTensor(d.dim, d.dim);
      if v.None? { return None; }
      var o := ReadTensor(d.dim, d.dim);
      if o.None? { return None; }
      var norm2 := ReadVector(d.dim);
      if norm2.None? { return None; }
      var gate := ReadTensor(d.dim, d.hidden);
      if gate.None? { return None; }
      var up := ReadTensor(d.dim, d.hidden);
      if up.None? { return None; }
      var down := ReadTensor(d.hidden, d.dim);
      if down.None? { return None; }
      r := Some(LayerWeights(norm1.value, q.value, k.value, v.value, o.value, norm2.value, gate.value, up.value, down.value));
    }

    /** The next of `n` layers that are still to be read. */
    method ReadNextLayer(d: Dims, ghost read: seq<LayerWeights>, ghost n: nat, ghost whole: Parsed<seq<LayerWeights>>,
                         ghost left: (seq<LayerWeights>, Vector, nat) -> bool)
      returns (r: Option<LayerWeights>)
      requires Valid() && n > 0 && NamesLayersLeft(left, d, whole) && left(read, Left(), n)
      modifies this
      ensures Valid()
      ensures match r
              case None => whole == Short
              case Some(layer) => left(read + [layer], Left(), n - 1)
    {
      assert Asked(read, Left(), n);
      ContinuesStep(read, Left(), n, LayerTaker(d), whole);
      r := ReadLayer(d);
      assert r.Some? ==> Asked(read + [r.value], Left(), n - 1);
    }

    method ReadLayersLoop(n: nat, d: Dims, ghost whole: Parsed<seq<LayerWeights>>,
                          ghost left: (seq<LayerWeights>, Vector, nat) -> bool)
      returns (r: Option<seq<LayerWeights>>)
      requires Valid() && NamesLayersLeft(left, d, whole) && left([], Left(), n)
      modifies this
      ensures Valid()
      ensures match r
              case None => whole == Short
              case Some(layers) => left(layers, Left(), 0)
    {
      var layers: seq<LayerWeights> := [];
      for i := 0 to n
        invariant Valid() && left(layers, Left(), n - i)
      {
        var layer := ReadNextLayer(d, layers, n - i, whole, left);
        if layer.None? {
          return None;
        }
        layers := layers + [layer.value];
      }
      r := Some(layers);
    }

    method ReadLayers(n: nat, d: Dims) returns (r: Option<seq<LayerWeights>>)
      requires Valid()
      modifies this
      ensures Valid() && Reads(r, Left(), TakeLayers(old(Left()), n, d))
    {
      ghost var whole := TakeLayers(Left(), n, d);
      LayersLeftFirst(Left(), n, d);
      ghost var left := (read: seq<LayerWeights>, l: Vector, k: nat) => LayersLeft(read, l, k, d, whole);
      r := ReadLayersLoop(n, d, whole, left);
      if r.Some? {
        LayersLeftLast(r.value, Left(), d, whole);
      }
    }

    method ReadWeights(d: Dims) returns (r: Option<Weights>)
      requires Valid()
      modifies this
      ensures Valid() && Reads(r, Left(), TakeWeights(old(Left()), d))
    {
      var embedding := ReadTensor(d.vocab, d.dim);
      if embedding.None? { return None; }
      var position := ReadTensor(d.context, d.dim);
      if position.None? { return None; }
      var layers := ReadLayers(d.layers, d);
      if layers.None? { return None; }
      var norm := ReadVector(d.dim);
      if norm.None? { return None; }
      var output := ReadTensor(d.dim, d.vocab);
      if output.None? { return None; }
      r := Some(Weights(d, embedding.value, position.value, layers.value, norm.value, output.value));
    }
  }

  /** The loader reads exactly the weights that `Loaded` finds, and refuses every other file. */
  method LoadWeights(raw: seq<Byte>, sha: Digest) returns (w: Option<Weights>)
    ensures w == Loaded(raw, sha)
  {
    var framed := Unframed(raw, sha);
    if framed.None? || |framed.value.1| % 4 != 0 {
      return None;
    }
    var (d, payload) := framed.value;
    var reader := new Reader(FromBytes(payload));
    assert reader.Left() == FromBytes(payload);
    w := reader.ReadWeights(d);
    if reader.offset != |reader.data| {
      w := None;
    }
  }

  /** Every parameter of the training-side model is assigned the weights' value or its transpose. */
  method TorchModelFrom(w: Weights) returns (m: TorchModel)
    requires WeightsShaped(w)
    ensures m == TorchModelOf(w) && WeightsOf(m) == w
  {
    var layers: seq<TorchLayer> := [];
    for i := 0 to |w.layers|
      invariant |layers| == i && forall j :: 0 <= j < i ==> layers[j] == TorchLayerOf(w.layers[j], w.dims)
    {
      layers := layers + [TorchLayerOf(w.layers[i], w.dims)];
    }
    m := TorchModel(w.dims, w.embedding, w.position, layers, w.norm, Transpose(w.output, w.dims.dim, w.dims.vocab));
    WeightsUndoTorchModel(w);
    assert m.layers == TorchModelOf(w).layers;
  }
}
