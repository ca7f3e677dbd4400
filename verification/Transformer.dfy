/**
 * The network's forward pass: a stack of causal attention layers on rows of numbers.
 * What a layer does to one row alone (norms, projections, feed-forward) is a parameter; attention,
 * which is where rows meet, is written out, with `exp` a parameter that is only known to be positive.
 */
module Transformer {
  import opened PyData
  import opened Utf8
  import opened Softmax

  type Row = seq<real>
  type Matrix = seq<Row>

  /** `score(x, k)` is the scaled score of the query row `x` against the key row `k`. */
  datatype Layer = Layer(key: Row -> Row, value: Row -> Row, score: (Row, Row) -> real, finish: (Row, Row) -> Row)

  datatype Net = Net(exp: PosFn, embed: (Byte, nat) -> Row, layers: seq<Layer>, readout: Row -> Row,
                     context: nat, dim: nat)

  ghost predicate Usable(w: Net) {
    w.context > 0
  }

  function At(r: Row, i: nat): real {
    if i < |r| then r[i] else 0.0
  }

  /** `attention @ v` for one row of attention scores. */
  function Attend(w: Net, scores: seq<Score>, values: Matrix): Row
    requires SomeFinite(scores) && |scores| == |values|
  {
    seq(w.dim, c requires 0 <= c < w.dim => Mix(Weights(w.exp, scores), Column(values, c)))
  }

  function Column(values: Matrix, c: nat): (r: seq<real>)
    ensures |r| == |values|
  {
    seq(|values|, j requires 0 <= j < |values| => At(values[j], c))
  }

  // ----- The full forward pass -----

  function Keys(l: Layer, xs: Matrix): (ks: Matrix)
    ensures |ks| == |xs|
  {
    seq(|xs|, i requires 0 <= i < |xs| => l.key(xs[i]))
  }

  function Values(l: Layer, xs: Matrix): (vs: Matrix)
    ensures |vs| == |xs|
  {
    seq(|xs|, i requires 0 <= i < |xs| => l.value(xs[i]))
  }

  /** Row `i` of the scores, with the keys after position `last` set to minus infinity. */
  function ScoreRow(l: Layer, x: Row, ks: Matrix, last: nat): (scores: seq<Score>)
    ensures |scores| == |ks|
    ensures ks != [] ==> SomeFinite(scores)
  {
    var scores := seq(|ks|, j requires 0 <= j < |ks| => if j > last then NegInf else Fin(l.score(x, ks[j])));
    assert ks != [] ==> scores[0].Fin?;
    scores
  }

  /** One layer applied to all rows at once, future positions masked. */
  function LayerRows(w: Net, l: Layer, xs: Matrix): (r: Matrix)
    ensures |r| == |xs|
  {
    var ks, vs := Keys(l, xs), Values(l, xs);
    seq(|xs|, i requires 0 <= i < |xs| => l.finish(xs[i], Attend(w, ScoreRow(l, xs[i], ks, i), vs)))
  }

  function EmbedAt(w: Net, token: Byte, position: nat): Row
    requires Usable(w) && position < w.context
  {
    w.embed(token, position)
  }

  function Embedded(w: Net, tokens: seq<Byte>): (xs: Matrix)
    requires Usable(w) && |tokens| <= w.context
    ensures |xs| == |tokens|
  {
    seq(|tokens|, i requires 0 <= i < |tokens| => EmbedAt(w, tokens[i], i))
  }

  /** All rows after the first `depth` layers. */
  function RowsAt(w: Net, tokens: seq<Byte>, depth: nat): (xs: Matrix)
    requires Usable(w) && |tokens| <= w.context && depth <= |w.layers|
    ensures |xs| == |tokens|
  {
    if depth == 0 then Embedded(w, tokens)
    else LayerRows(w, w.layers[depth - 1], RowsAt(w, tokens, depth - 1))
  }

  /** `tokens[-context:]` */
  function Window(w: Net, tokens: seq<Byte>): (r: seq<Byte>)
    ensures |r| <= w.context && (tokens != [] && w.context > 0 ==> r != [])
  {
    if |tokens| <= w.context then tokens else tokens[|tokens| - w.context..]
  }

  /** The logits of the last position. */
  function Logits(w: Net, tokens: seq<Byte>): Row
    requires Usable(w) && tokens != []
  {
    var xs := RowsAt(w, Window(w, tokens), |w.layers|);
    w.readout(xs[|xs| - 1])
  }

  /** Only the newest `context` tokens count: whatever stood before them makes no difference. */
  lemma NewestTokensDecide(w: Net, earlier: seq<Byte>, recent: seq<Byte>)
    requires Usable(w) && |recent| == w.context
    ensures Logits(w, earlier + recent) == Logits(w, recent)
  {
    assert earlier != [] ==> (earlier + recent)[|earlier|..] == recent;
    assert earlier == [] ==> earlier + recent == recent;
  }

  lemma NewestOf(w: Net, tokens: seq<Byte>)
    requires Usable(w)
    ensures |tokens| > w.context ==> Logits(w, tokens) == Logits(w, tokens[|tokens| - w.context..])
  {
    if |tokens| > w.context {
      var k := |tokens| - w.context;
      assert tokens == tokens[..k] + tokens[k..];
      NewestTokensDecide(w, tokens[..k], tokens[k..]);
    }
  }

  /** The reference forward pass: the whole window, layer by layer. */
  method NumpyLogits(w: Net, tokens: seq<Byte>) returns (logits: Row)
    requires Usable(w) && tokens != []
    ensures logits == Logits(w, tokens)
    ensures |tokens| > w.context ==> logits == Logits(w, tokens[|tokens| - w.context..])
  {
    NewestOf(w, tokens);
    var window := Window(w, tokens);
    var x := Embedded(w, window);
    for index := 0 to |w.layers|
      invariant x == RowsAt(w, window, index)
    {
      x := LayerRows(w, w.layers[index], x);
    }
    logits := w.readout(x[|x| - 1]);
  }

  // ----- Causality -----

  /** A layer's row `i` computed from the keys and values of the rows up to `i` alone, without a mask. */
  function StepRow(w: Net, l: Layer, x: Row, ks: Matrix, vs: Matrix): Row
    requires |ks| == |vs| && ks != []
  {
    l.finish(x, Attend(w, ScoreRow(l, x, ks, |ks| - 1), vs))
  }

  lemma ScoreRowSplits(l: Layer, x: Row, ks: Matrix, i: nat)
    requires i < |ks|
    ensures ScoreRow(l, x, ks, i) ==
            ScoreRow(l, x, ks[..i + 1], i) + seq(|ks| - (i + 1), _ => NegInf)
  {
  }

  /** Masked attention over all rows is plain attention over the rows so far. */
  lemma AttendSeesPrefix(w: Net, l: Layer, x: Row, ks: Matrix, vs: Matrix, i: nat)
    requires |ks| == |vs| && i < |ks|
    ensures Attend(w, ScoreRow(l, x, ks, i), vs) == Attend(w, ScoreRow(l, x, ks[..i + 1], i), vs[..i + 1])
  {
    var seen, tail := ScoreRow(l, x, ks[..i + 1], i), seq(|ks| - (i + 1), _ => NegInf);
    ScoreRowSplits(l, x, ks, i);
    forall c: nat | c < w.dim
      ensures Mix(Weights(w.exp, ScoreRow(l, x, ks, i)), Column(vs, c)) ==
              Mix(Weights(w.exp, seen), Column(vs[..i + 1], c))
    {
      assert Column(vs, c) == Column(vs[..i + 1], c) + Column(vs[i + 1..], c);
      MaskedAttention(w.exp, seen, tail, Column(vs[..i + 1], c), Column(vs[i + 1..], c));
    }
  }

  lemma LayerRowIsStep(w: Net, l: Layer, xs: Matrix, i: nat)
    requires i < |xs|
    ensures LayerRows(w, l, xs)[i] == StepRow(w, l, xs[i], Keys(l, xs[..i + 1]), Values(l, xs[..i + 1]))
  {
    var ks, vs := Keys(l, xs), Values(l, xs);
    AttendSeesPrefix(w, l, xs[i], ks, vs, i);
    assert ks[..i + 1] == Keys(l, xs[..i + 1]);
    assert vs[..i + 1] == Values(l, xs[..i + 1]);
  }

  lemma LayerIsCausal(w: Net, l: Layer, xs: Matrix, n: nat)
    requires n <= |xs|
    ensures LayerRows(w, l, xs[..n]) == LayerRows(w, l, xs)[..n]
  {
    forall i | 0 <= i < n
      ensures LayerRows(w, l, xs[..n])[i] == LayerRows(w, l, xs)[i]
    {
      LayerRowIsStep(w, l, xs, i);
      LayerRowIsStep(w, l, xs[..n], i);
      assert xs[..n][..i + 1] == xs[..i + 1];
    }
  }

  /** At every depth, the rows of a prefix are the prefix of the rows: no position sees a later one. */
  lemma {:induction false} RowsAreCausal(w: Net, tokens: seq<Byte>, depth: nat, n: nat)
    requires Usable(w) && |tokens| <= w.context && depth <= |w.layers| && n <= |tokens|
    ensures RowsAt(w, tokens[..n], depth) == RowsAt(w, tokens, depth)[..n]
  {
    if depth > 0 {
      RowsAreCausal(w, tokens, depth - 1, n);
      LayerIsCausal(w, w.layers[depth - 1], RowsAt(w, tokens, depth - 1), n);
    }
  }

  // ----- What the network computes, position by position -----

  function SeenScores(l: Layer, x: Row, seen: Matrix): (r: seq<real>)
    ensures |r| == |seen|
  {
    seq(|seen|, j requires 0 <= j < |seen| => l.score(x, l.key(seen[j])))
  }

  function SeenValues(l: Layer, seen: Matrix, c: nat): (r: seq<real>)
    ensures |r| == |seen|
  {
    seq(|seen|, j requires 0 <= j < |seen| => (var entries := l.value(seen[j]); if c < |entries| then entries[c] else 0.0))
  }

  /** A layer at one position: attention of its row, as an average, to the rows up to it, itself included. */
  function Attentive(w: Net, l: Layer, x: Row, seen: Matrix): Row
    requires seen != []
  {
    l.finish(x, seq(w.dim, c requires 0 <= c < w.dim =>
      Average(Shifted(w.exp, SeenScores(l, x, seen)), SeenValues(l, seen, c))))
  }

  /** The row of position `i` after `depth` layers, without matrices, masks or windows. */
  function Position(w: Net, tokens: seq<Byte>, depth: nat, i: nat): Row
    requires depth <= |w.layers| && i < |tokens|
    decreases depth, 0
  {
    if depth == 0 then w.embed(tokens[i], i)
    else Attentive(w, w.layers[depth - 1], Position(w, tokens, depth - 1, i), Positions(w, tokens, depth - 1, i + 1))
  }

  /** The rows of the first `n` positions. */
  function Positions(w: Net, tokens: seq<Byte>, depth: nat, n: nat): (r: Matrix)
    requires depth <= |w.layers| && n <= |tokens|
    ensures |r| == n
    decreases depth, 1
  {
    seq(n, j requires 0 <= j < n => Position(w, tokens, depth, j))
  }

  lemma AttendIsAverage(w: Net, l: Layer, x: Row, seen: Matrix, row: seq<Score>, c: nat)
    requires seen != [] && c < w.dim && row == ScoreRow(l, x, Keys(l, seen), |seen| - 1)
    ensures Attend(w, row, Values(l, seen))[c] == Average(Shifted(w.exp, SeenScores(l, x, seen)), SeenValues(l, seen, c))
  {
    assert Column(Values(l, seen), c) == SeenValues(l, seen, c);
    AttentionIsAverage(w.exp, row, SeenScores(l, x, seen), SeenValues(l, seen, c));
  }

  lemma StepIsAttentive(w: Net, l: Layer, x: Row, seen: Matrix)
    requires seen != []
    ensures StepRow(w, l, x, Keys(l, seen), Values(l, seen)) == Attentive(w, l, x, seen)
  {
    var row := ScoreRow(l, x, Keys(l, seen), |seen| - 1);
    var mixed := seq(w.dim, c requires 0 <= c < w.dim =>
      Average(Shifted(w.exp, SeenScores(l, x, seen)), SeenValues(l, seen, c)));
    forall c: nat | c < w.dim
      ensures Attend(w, row, Values(l, seen))[c] == mixed[c]
    {
      AttendIsAverage(w, l, x, seen, row, c);
    }
    assert Attend(w, row, Values(l, seen)) == mixed;
  }

  /** The matrix of the full pass holds each position's row. */
  lemma {:induction false} RowsArePositions(w: Net, tokens: seq<Byte>, depth: nat)
    requires Usable(w) && |tokens| <= w.context && depth <= |w.layers|
    ensures RowsAt(w, tokens, depth) == Positions(w, tokens, depth, |tokens|)
  {
    if depth > 0 {
      var l, xs := w.layers[depth - 1], RowsAt(w, tokens, depth - 1);
      RowsArePositions(w, tokens, depth - 1);
      forall i | 0 <= i < |tokens|
        ensures RowsAt(w, tokens, depth)[i] == Position(w, tokens, depth, i)
      {
        LayerRowIsStep(w, l, xs, i);
        StepIsAttentive(w, l, xs[i], xs[..i + 1]);
        assert xs[..i + 1] == Positions(w, tokens, depth - 1, i + 1);
      }
    }
  }

  lemma PositionsAt(w: Net, tokens: seq<Byte>, depth: nat, n: nat, i: nat)
    requires depth <= |w.layers| && i < n <= |tokens|
    ensures Positions(w, tokens, depth, n)[i] == Position(w, tokens, depth, i)
  {
  }

  lemma LogitsReadLastRow(w: Net, tokens: seq<Byte>, rows: Matrix)
    requires Usable(w) && 0 < |tokens| <= w.context && rows == RowsAt(w, tokens, |w.layers|)
    ensures Logits(w, tokens) == w.readout(rows[|tokens| - 1])
  {
  }

  lemma LogitsReadLastPosition(w: Net, tokens: seq<Byte>, row: Row)
    requires Usable(w) && 0 < |tokens| <= w.context && row == Position(w, tokens, |w.layers|, |tokens| - 1)
    ensures Logits(w, tokens) == w.readout(row)
  {
    RowsArePositions(w, tokens, |w.layers|);
    PositionsAt(w, tokens, |w.layers|, |tokens|, |tokens| - 1);
    LogitsReadLastRow(w, tokens, Positions(w, tokens, |w.layers|, |tokens|));
  }

  /** The logits are read out of the newest token's position, among the newest `context` tokens numbered from 0. */
  lemma LogitsReadNewestPosition(w: Net, earlier: seq<Byte>, recent: seq<Byte>, row: Row)
    requires Usable(w) && 0 < |recent| <= w.context && (earlier == [] || |recent| == w.context)
    requires row == Position(w, recent, |w.layers|, |recent| - 1)
    ensures Logits(w, earlier + recent) == w.readout(row)
  {
    LogitsReadLastPosition(w, recent, row);
    if earlier == [] {
      assert earlier + recent == recent;
    } else {
      NewestTokensDecide(w, earlier, recent);
    }
  }
}
