/** Incremental logits: key and value rows kept per token list and reused one token later. */
module CachedDecoding {
  import opened PyData
  import opened Utf8
  import opened Transformer

  /** The key and value rows of each layer. */
  type Cache = seq<(Matrix, Matrix)>

  /** What a full causal pass over `tokens` leaves at layer `index`. */
  function LayerCache(w: Net, tokens: seq<Byte>, index: nat): (Matrix, Matrix)
    requires Usable(w) && |tokens| <= w.context && index < |w.layers|
  {
    var xs := RowsAt(w, tokens, index);
    (Keys(w.layers[index], xs), Values(w.layers[index], xs))
  }

  function CacheOf(w: Net, tokens: seq<Byte>): (c: Cache)
    requires Usable(w) && |tokens| <= w.context
  {
    seq(|w.layers|, index requires 0 <= index < |w.layers| => LayerCache(w, tokens, index))
  }

  /** One layer on the rows `xs`, which are all rows, or only the newest one when there are cached keys. */
  function CachedRows(w: Net, l: Layer, xs: Matrix, ks: Matrix, vs: Matrix): (r: Matrix)
    requires |ks| == |vs| && (xs != [] ==> ks != [])
    ensures |r| == |xs|
  {
    seq(|xs|, i requires 0 <= i < |xs| =>
      l.finish(xs[i], Attend(w, ScoreRow(l, xs[i], ks, if |xs| > 1 then i else |ks| - 1), vs)))
  }

  lemma RowsSplit(l: Layer, xs: Matrix, n: nat)
    requires |xs| == n + 1
    ensures Keys(l, xs) == Keys(l, xs[..n]) + Keys(l, [xs[n]])
    ensures Values(l, xs) == Values(l, xs[..n]) + Values(l, [xs[n]])
  {
  }

  /** The cached rows of all but the last token, extended by the last token's own, are all rows' keys and values. */
  lemma CacheGrows(w: Net, tokens: seq<Byte>, index: nat)
    requires Usable(w) && 0 < |tokens| <= w.context && index < |w.layers|
    ensures var n := |tokens| - 1;
      var (ks, vs) := LayerCache(w, tokens[..n], index);
      var last := [RowsAt(w, tokens, index)[n]];
      LayerCache(w, tokens, index) == (ks + Keys(w.layers[index], last), vs + Values(w.layers[index], last))
  {
    var n := |tokens| - 1;
    var xs := RowsAt(w, tokens, index);
    RowsAreCausal(w, tokens, index, n);
    RowsSplit(w.layers[index], xs, n);
  }

  lemma CachedRowsOfAll(w: Net, l: Layer, xs: Matrix)
    ensures CachedRows(w, l, xs, Keys(l, xs), Values(l, xs)) == LayerRows(w, l, xs)
  {
  }

  /** Recomputing a layer on all rows, as a call does when it has nothing to reuse. */
  lemma FullLayer(w: Net, tokens: seq<Byte>, index: nat)
    requires Usable(w) && |tokens| <= w.context && index < |w.layers|
    ensures var (ks, vs) := LayerCache(w, tokens, index);
      CachedRows(w, w.layers[index], RowsAt(w, tokens, index), ks, vs) == RowsAt(w, tokens, index + 1)
  {
    CachedRowsOfAll(w, w.layers[index], RowsAt(w, tokens, index));
  }

  lemma NewestRow(w: Net, l: Layer, xs: Matrix, n: nat)
    requires |xs| == n + 1
    ensures CachedRows(w, l, [xs[n]], Keys(l, xs), Values(l, xs)) == [LayerRows(w, l, xs)[n]]
  {
    LayerRowIsStep(w, l, xs, n);
    assert xs[..n + 1] == xs;
  }

  /** The newest row attends, without a mask, to all keys: that is its row of the full pass. */
  lemma ReusedLayer(w: Net, tokens: seq<Byte>, index: nat)
    requires Usable(w) && 0 < |tokens| <= w.context && index < |w.layers|
    ensures var n := |tokens| - 1;
      var (ks, vs) := LayerCache(w, tokens, index);
      CachedRows(w, w.layers[index], [RowsAt(w, tokens, index)[n]], ks, vs) == [RowsAt(w, tokens, index + 1)[n]]
  {
    NewestRow(w, w.layers[index], RowsAt(w, tokens, index), |tokens| - 1);
  }

  /** The rows a call works on at each layer: all of the window's, or only the newest. */
  function WorkRows(w: Net, window: seq<Byte>, reuse: bool, index: nat): (xs: Matrix)
    requires Usable(w) && 0 < |window| <= w.context && index <= |w.layers|
    ensures xs != []
  {
    var xs := RowsAt(w, window, index);
    if reuse then [xs[|window| - 1]] else xs
  }

  /** The keys and values of the rows `x`, after those of the parent when it is reused. */
  function KeysValues(l: Layer, x: Matrix, parent: Option<(Matrix, Matrix)>): (Matrix, Matrix) {
    if parent.None? then (Keys(l, x), Values(l, x))
    else (parent.value.0 + Keys(l, x), parent.value.1 + Values(l, x))
  }

  /** One layer of a call, with or without a parent: exact keys and values, and exact rows for the next layer. */
  lemma LayerStep(w: Net, window: seq<Byte>, reuse: bool, index: nat)
    requires Usable(w) && 0 < |window| <= w.context && index < |w.layers|
    ensures var l, x := w.layers[index], WorkRows(w, window, reuse, index);
      var parent := if reuse then Some(LayerCache(w, window[..|window| - 1], index)) else None;
      var (k, v) := KeysValues(l, x, parent);
      && (k, v) == LayerCache(w, window, index)
      && CachedRows(w, l, x, k, v) == WorkRows(w, window, reuse, index + 1)
  {
    if reuse {
      CacheGrows(w, window, index);
      ReusedLayer(w, window, index);
    } else {
      FullLayer(w, window, index);
    }
  }

  /** One turn of the loop over the layers. */
  method LayerTurn(w: Net, ghost window: seq<Byte>, ghost reuse: bool, index: nat, x: Matrix, parent: Option<(Matrix, Matrix)>)
    returns (k: Matrix, v: Matrix, x': Matrix)
    requires Usable(w) && 0 < |window| <= w.context && index < |w.layers| && x == WorkRows(w, window, reuse, index)
    requires parent == if reuse then Some(LayerCache(w, window[..|window| - 1], index)) else None
    ensures (k, v) == LayerCache(w, window, index) && x' == WorkRows(w, window, reuse, index + 1)
  {
    LayerStep(w, window, reuse, index);
    var (ks, vs) := KeysValues(w.layers[index], x, parent);
    k, v := ks, vs;
    x' := CachedRows(w, w.layers[index], x, k, v);
  }

  /** The rows a call starts from. */
  lemma WorkStarts(w: Net, tokens: seq<Byte>, reuse: bool)
    requires Usable(w) && tokens != [] && (reuse ==> |tokens| <= w.context)
    ensures WorkRows(w, Window(w, tokens), reuse, 0)
         == if reuse then [EmbedAt(w, tokens[|tokens| - 1], |tokens| - 1)] else Embedded(w, Window(w, tokens))
  {
  }

  /** The body of a call: logits and cache entry for `tokens`, given the entry of all but the last token, if any. */
  method Advance(w: Net, tokens: seq<Byte>, parent: Option<Cache>) returns (logits: Row, cache: Cache)
    requires Usable(w) && tokens != []
    requires parent.Some? ==> parent.value == CacheOf(w, Window(w, tokens[..|tokens| - 1]))
    ensures logits == Logits(w, tokens)
    ensures cache == CacheOf(w, Window(w, tokens))
  {
    var n, window := |tokens| - 1, Window(w, tokens);
    var x: Matrix;
    if parent.None? || |tokens| > w.context {
      x := Embedded(w, window);
    } else {
      x := [EmbedAt(w, tokens[n], n)];
    }
    var reuse := parent.Some? && |tokens| <= w.context;
    WorkStarts(w, tokens, reuse);
    cache := [];
    ghost var exact := CacheOf(w, window);
    for index := 0 to |w.layers|
      invariant cache == exact[..index]
      invariant x == WorkRows(w, window, reuse, index)
    {
      var k, v;
      k, v, x := LayerTurn(w, window, reuse, index, x, if reuse then Some(parent.value[index]) else None);
      cache := cache + [(k, v)];
    }
    assert exact[..|w.layers|] == exact;
    logits := w.readout(x[|x| - 1]);
  }

  class CachedLogits {
    const w: Net
    var previous: map<seq<Byte>, Cache>
    var current: map<seq<Byte>, Cache>

    /** Every entry holds what a full causal pass over its token list's window computes. */
    ghost predicate Exact(entries: map<seq<Byte>, Cache>)
      requires Usable(w)
    {
      forall key :: key in entries ==> key != [] && entries[key] == CacheOf(w, Window(w, key))
    }

    ghost predicate Valid()
      reads this
    {
      Usable(w) && Exact(previous) && Exact(current)
    }

    constructor (w: Net)
      requires Usable(w)
      ensures Valid() && this.w == w && previous == map[] && current == map[]
    {
      this.w := w;
      previous := map[];
      current := map[];
    }

    /** `logits(tokens)`: whatever was asked before, the answer is that of a full forward pass. */
    method Call(tokens: seq<Byte>) returns (logits: Row)
      requires Valid() && tokens != []
      modifies this`current
      ensures Valid() && logits == Logits(w, tokens)
      ensures |tokens| > w.context ==> logits == Logits(w, tokens[|tokens| - w.context..])
      ensures current == old(current)[tokens := CacheOf(w, Window(w, tokens))]
    {
      NewestOf(w, tokens);
      var key := tokens;
      var parent := if key[..|key| - 1] in previous then Some(previous[key[..|key| - 1]]) else None;
      var cache;
      logits, cache := Advance(w, tokens, parent);
      current := current[key := cache];
    }

    method NextDepth()
      requires Valid()
      modifies this
      ensures Valid() && previous == old(current) && current == map[]
    {
      previous, current := current, map[];
    }
  }
}
