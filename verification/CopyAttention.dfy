/** Attention over the prompt bytes that may be copied, and the mixture of copying and the vocabulary. */
module CopyAttention {
  import opened PyData
  import opened Utf8
  import opened Softmax
  import opened SequentialCopy

  /** Scores outside the eligible positions are minus infinity; with none eligible, position 0 stands in. */
  function SafeScores(raw: seq<real>, eligible: seq<bool>): (s: seq<Score>)
    requires |raw| == |eligible| > 0
    ensures |s| == |raw| && SomeFinite(s)
    ensures forall j :: 0 <= j < |s| && eligible[j] ==> s[j].Fin?
  {
    var s := seq(|raw|, j requires 0 <= j < |raw| =>
                   if eligible[j] || (true !in eligible && j == 0) then Fin(raw[j]) else NegInf);
    assert SomeFinite(s) by {
      if true in eligible {
        var j :| 0 <= j < |eligible| && eligible[j];
        assert s[j].Fin?;
      } else {
        assert s[0].Fin?;
      }
    }
    s
  }

  /** `softmax(scores) * eligible` */
  function Attention(exp: PosFn, raw: seq<real>, eligible: seq<bool>): (a: seq<real>)
    requires |raw| == |eligible| > 0
    ensures |a| == |raw|
    ensures forall j :: 0 <= j < |a| ==> a[j] >= 0.0 && (a[j] > 0.0 <==> eligible[j])
  {
    seq(|raw|, j requires 0 <= j < |raw| => if eligible[j] then Weight(exp, SafeScores(raw, eligible), j) else 0.0)
  }

  /** Whenever some position is eligible, the position that attention picks is. */
  lemma PickIsEligible(exp: PosFn, raw: seq<real>, eligible: seq<bool>)
    requires |raw| == |eligible| > 0 && true in eligible
    ensures eligible[Argmax(Attention(exp, raw, eligible), |raw|)]
  {
    var a := Attention(exp, raw, eligible);
    var j :| 0 <= j < |eligible| && eligible[j];
    assert a[j] > 0.0;
    assert a[Argmax(a, |raw|)] >= a[j];
  }

  lemma {:induction false} ZeroSum(xs: seq<real>)
    requires forall j :: 0 <= j < |xs| ==> xs[j] == 0.0
    ensures Sum(xs) == 0.0
  {
    if xs != [] {
      ZeroSum(xs[..|xs| - 1]);
    }
  }

  lemma AttentionIsWeights(exp: PosFn, raw: seq<real>, eligible: seq<bool>)
    requires |raw| == |eligible| > 0 && true in eligible
    ensures Attention(exp, raw, eligible) == Weights(exp, SafeScores(raw, eligible))
  {
    var a, w := Attention(exp, raw, eligible), Weights(exp, SafeScores(raw, eligible));
    forall j | 0 <= j < |raw|
      ensures a[j] == w[j]
    {
      assert w[j] == Weight(exp, SafeScores(raw, eligible), j);
    }
  }

  /** The attention mass of a row is 1 when something may be copied and 0 otherwise. */
  lemma AttentionMass(exp: PosFn, raw: seq<real>, eligible: seq<bool>)
    requires |raw| == |eligible| > 0
    ensures Sum(Attention(exp, raw, eligible)) == if true in eligible then 1.0 else 0.0
  {
    if true in eligible {
      AttentionIsWeights(exp, raw, eligible);
      WeightsSumToOne(exp, SafeScores(raw, eligible));
    } else {
      ZeroSum(Attention(exp, raw, eligible));
    }
  }

  // ----- Scattering attention onto bytes -----

  function Zeros(): (r: seq<real>)
    ensures |r| == 256
  {
    seq(256, _ => 0.0)
  }

  /** `zeros(256).scatter_add(tokens, attention)` */
  function Scatter(attention: seq<real>, tokens: seq<Byte>): (r: seq<real>)
    requires |attention| == |tokens|
    ensures |r| == 256
  {
    if tokens == [] then Zeros() else
      var n := |tokens| - 1;
      var r := Scatter(attention[..n], tokens[..n]);
      r[tokens[n] := r[tokens[n]] + attention[n]]
  }

  lemma {:induction false} SumAfterAdd(xs: seq<real>, i: nat, x: real)
    requires i < |xs|
    ensures Sum(xs[i := xs[i] + x]) == Sum(xs) + x
  {
    var n, ys := |xs| - 1, xs[i := xs[i] + x];
    if i < n {
      SumAfterAdd(xs[..n], i, x);
      assert ys[..n] == xs[..n][i := xs[i] + x];
    } else {
      assert ys[..n] == xs[..n];
    }
  }

  /** The attention of the positions that hold `b`, and 0 elsewhere. */
  function OnByte(attention: seq<real>, tokens: seq<Byte>, b: Byte): (r: seq<real>)
    requires |attention| == |tokens|
    ensures |r| == |tokens|
  {
    seq(|tokens|, j requires 0 <= j < |tokens| => if tokens[j] == b then attention[j] else 0.0)
  }

  /** A byte receives the attention of all positions that hold it. */
  lemma {:induction false} ScatterGathers(attention: seq<real>, tokens: seq<Byte>, b: Byte)
    requires |attention| == |tokens|
    ensures Scatter(attention, tokens)[b] == Sum(OnByte(attention, tokens, b))
  {
    if tokens != [] {
      var n := |tokens| - 1;
      ScatterGathers(attention[..n], tokens[..n], b);
      assert OnByte(attention, tokens, b)[..n] == OnByte(attention[..n], tokens[..n], b);
    }
  }

  /** Scattering conserves the attention mass. */
  lemma {:induction false} ScatterConserves(attention: seq<real>, tokens: seq<Byte>)
    requires |attention| == |tokens|
    ensures Sum(Scatter(attention, tokens)) == Sum(attention)
  {
    if tokens == [] {
      ZeroSum(Zeros());
    } else {
      var n := |tokens| - 1;
      ScatterConserves(attention[..n], tokens[..n]);
      SumAfterAdd(Scatter(attention[..n], tokens[..n]), tokens[n], attention[n]);
    }
  }

  /** A byte has positive mass exactly when a position that holds it does. */
  lemma {:induction false} ScatterSupport(attention: seq<real>, tokens: seq<Byte>, b: Byte)
    requires |attention| == |tokens| && forall j :: 0 <= j < |attention| ==> attention[j] >= 0.0
    ensures Scatter(attention, tokens)[b] >= 0.0
    ensures Scatter(attention, tokens)[b] > 0.0 <==>
            exists j :: 0 <= j < |tokens| && tokens[j] == b && attention[j] > 0.0
  {
    if tokens != [] {
      var n := |tokens| - 1;
      ScatterSupport(attention[..n], tokens[..n], b);
      if j :| 0 <= j < n && tokens[..n][j] == b && attention[..n][j] > 0.0 {
        assert tokens[j] == b && attention[j] > 0.0;
      }
      if j :| 0 <= j < |tokens| && tokens[j] == b && attention[j] > 0.0 {
        assert j < n ==> tokens[..n][j] == b && attention[..n][j] > 0.0;
      }
    }
  }

  // ----- The mixture -----

  /** `sigmoid(z).clamp(1e-5, 1 - 1e-5)` for a sigmoid value `s`, 0 when nothing may be copied. */
  function Gate(s: real, eligible: seq<bool>): (g: real)
    ensures 0.0 <= g <= 1.0
    ensures true !in eligible ==> g == 0.0
    ensures true in eligible ==> 0.00001 <= g <= 0.99999
  {
    if true !in eligible then 0.0
    else if s < 0.00001 then 0.00001
    else if s > 0.99999 then 0.99999
    else s
  }

  function Distance(a: real, b: real): real {
    if a < b then b - a else a - b
  }

  /** The gate is the number nearest to the sigmoid's value between 0.00001 and 0.99999, when something may be copied. */
  lemma GateIsNearest(s: real, eligible: seq<bool>, x: real)
    requires true in eligible && 0.00001 <= x <= 0.99999
    ensures Distance(Gate(s, eligible), s) <= Distance(x, s)
    ensures 0.00001 <= s <= 0.99999 ==> Gate(s, eligible) == s
  {
  }

  /** `(1 - gate) * v + gate * p` */
  function Blend(gate: real, v: real, p: real): real {
    (1.0 - gate) * v + gate * p
  }

  lemma BlendAdds(gate: real, v: real, p: real, v': real, p': real)
    ensures Blend(gate, v, p) + Blend(gate, v', p') == Blend(gate, v + v', p + p')
  {
  }

  lemma BlendFacts(gate: real, v: real, p: real)
    requires 0.0 <= gate <= 1.0
    ensures v >= 0.0 && p >= 0.0 ==> Blend(gate, v, p) >= 0.0
    ensures v == p ==> Blend(gate, v, p) == v
    ensures gate == 0.0 ==> Blend(gate, v, p) == v
  {
    if v >= 0.0 && p >= 0.0 {
      ProductNonNegative(1.0 - gate, v);
      ProductNonNegative(gate, p);
    }
  }

  lemma ProductNonNegative(a: real, b: real)
    requires a >= 0.0 && b >= 0.0
    ensures a * b >= 0.0
  {
  }

  function Mixture(vocab: seq<real>, pointer: seq<real>, gate: real): (r: seq<real>)
    requires |vocab| == |pointer|
    ensures |r| == |vocab|
  {
    seq(|vocab|, b requires 0 <= b < |vocab| => Blend(gate, vocab[b], pointer[b]))
  }

  lemma {:induction false} MixtureSum(vocab: seq<real>, pointer: seq<real>, gate: real)
    requires |vocab| == |pointer|
    ensures Sum(Mixture(vocab, pointer, gate)) == Blend(gate, Sum(vocab), Sum(pointer))
  {
    if vocab != [] {
      var n := |vocab| - 1;
      MixtureSum(vocab[..n], pointer[..n], gate);
      assert Mixture(vocab, pointer, gate)[..n] == Mixture(vocab[..n], pointer[..n], gate);
      BlendAdds(gate, Sum(vocab[..n]), Sum(pointer[..n]), vocab[n], pointer[n]);
    }
  }

  /** The mixture moves each byte's probability towards the pointer's by the gate's share of the difference. */
  lemma MixtureMoves(vocab: seq<real>, pointer: seq<real>, gate: real, b: nat)
    requires |vocab| == |pointer| && b < |vocab|
    ensures Mixture(vocab, pointer, gate)[b] - vocab[b] == gate * (pointer[b] - vocab[b])
    ensures gate == 1.0 ==> Mixture(vocab, pointer, gate)[b] == pointer[b]
  {
  }

  predicate Distribution(p: seq<real>) {
    |p| == 256 && (forall b :: 0 <= b < |p| ==> p[b] >= 0.0) && Sum(p) == 1.0
  }

  /** One row of `components`: pointer mass per byte, and its mixture with the vocabulary distribution. */
  function Pointer(exp: PosFn, raw: seq<real>, tokens: seq<Byte>, source: seq<bool>): (p: seq<real>)
    requires |raw| == |tokens| == |source| > 0
    ensures |p| == 256
  {
    Scatter(Attention(exp, raw, Eligibles(tokens, source)), tokens)
  }

  /** The prompt positions that hold a nonzero byte. */
  function Eligibles(tokens: seq<Byte>, source: seq<bool>): (r: seq<bool>)
    requires |tokens| == |source|
    ensures |r| == |tokens|
  {
    seq(|tokens|, j requires 0 <= j < |tokens| => source[j] && tokens[j] != 0)
  }

  /** The pointer's support is the set of nonzero bytes at prompt positions. */
  lemma PointerSupport(exp: PosFn, raw: seq<real>, tokens: seq<Byte>, source: seq<bool>, b: Byte)
    requires |raw| == |tokens| == |source| > 0
    ensures var p := Pointer(exp, raw, tokens, source);
      p[b] >= 0.0 && (p[b] > 0.0 <==> b != 0 && exists j :: 0 <= j < |tokens| && source[j] && tokens[j] == b)
  {
    var eligible := Eligibles(tokens, source);
    var a := Attention(exp, raw, eligible);
    ScatterSupport(a, tokens, b);
    if j :| 0 <= j < |tokens| && tokens[j] == b && a[j] > 0.0 {
      assert eligible[j];
    }
    if b != 0 {
      if j :| 0 <= j < |tokens| && source[j] && tokens[j] == b {
        assert eligible[j] && a[j] > 0.0;
      }
    }
  }

  lemma PointerSum(exp: PosFn, raw: seq<real>, tokens: seq<Byte>, source: seq<bool>)
    requires |raw| == |tokens| == |source| > 0
    ensures Sum(Pointer(exp, raw, tokens, source)) == if true in Eligibles(tokens, source) then 1.0 else 0.0
  {
    AttentionMass(exp, raw, Eligibles(tokens, source));
    ScatterConserves(Attention(exp, raw, Eligibles(tokens, source)), tokens);
  }

  lemma BlendedIsDistribution(vocab: seq<real>, pointer: seq<real>, gate: real)
    requires Distribution(vocab) && |pointer| == 256 && forall b :: 0 <= b < 256 ==> pointer[b] >= 0.0
    requires 0.0 <= gate <= 1.0 && (Sum(pointer) == 1.0 || gate == 0.0)
    ensures Distribution(Mixture(vocab, pointer, gate)) && (gate == 0.0 ==> Mixture(vocab, pointer, gate) == vocab)
  {
    MixtureSum(vocab, pointer, gate);
    BlendFacts(gate, Sum(vocab), Sum(pointer));
    forall b | 0 <= b < 256
      ensures Mixture(vocab, pointer, gate)[b] >= 0.0
      ensures gate == 0.0 ==> Mixture(vocab, pointer, gate)[b] == vocab[b]
    {
      BlendFacts(gate, vocab[b], pointer[b]);
    }
  }

  /** The mixture is a probability distribution, and the vocabulary's own when nothing may be copied. */
  lemma MixtureIsDistribution(exp: PosFn, raw: seq<real>, tokens: seq<Byte>, source: seq<bool>, s: real, vocab: seq<real>)
    requires |raw| == |tokens| == |source| > 0 && Distribution(vocab)
    ensures var eligible := Eligibles(tokens, source);
      var mixture := Mixture(vocab, Pointer(exp, raw, tokens, source), Gate(s, eligible));
      Distribution(mixture) && (true !in eligible ==> mixture == vocab)
  {
    var pointer, gate := Pointer(exp, raw, tokens, source), Gate(s, Eligibles(tokens, source));
    PointerSum(exp, raw, tokens, source);
    forall b: int | 0 <= b < 256
      ensures pointer[b] >= 0.0
    {
      PointerSupport(exp, raw, tokens, source, b);
    }
    BlendedIsDistribution(vocab, pointer, gate);
  }

  /** The vocabulary's distribution is the softmax of its 256 logits. */
  lemma VocabularyIsDistribution(exp: PosFn, logits: seq<real>)
    requires |logits| == 256
    ensures Finites(logits)[0].Fin? && Distribution(Weights(exp, Finites(logits)))
  {
    assert Finites(logits)[0].Fin?;
    WeightsSumToOne(exp, Finites(logits));
  }

  /** A whole row of `components`: the blend of the softmax of the logits with the pointer is a distribution. */
  lemma RowIsDistribution(exp: PosFn, raw: seq<real>, tokens: seq<Byte>, source: seq<bool>, s: real, logits: seq<real>)
    requires |raw| == |tokens| == |source| > 0 && |logits| == 256
    ensures Finites(logits)[0].Fin? &&
      Distribution(Mixture(Weights(exp, Finites(logits)), Pointer(exp, raw, tokens, source), Gate(s, Eligibles(tokens, source))))
  {
    VocabularyIsDistribution(exp, logits);
    MixtureIsDistribution(exp, raw, tokens, source, s, Weights(exp, Finites(logits)));
  }

  // ----- The sequential model built on this attention -----

  /** Where the attention of a window's last token is largest. */
  function AttentionStart(exp: PosFn, raw: seq<real>, tokens: seq<Byte>, mask: seq<bool>): nat {
    if |raw| == |tokens| == |mask| && tokens != [] then Argmax(Attention(exp, raw, Eligibles(tokens, mask)), |tokens|) else 0
  }

  /** `raw` scores the window's positions for its last token, and `leave` is the sigmoid of the exit head. */
  function AttentiveModel(base: (seq<Byte>, seq<bool>) -> Byte, exp: PosFn, raw: (seq<Byte>, seq<bool>) -> seq<real>,
                          leave: (seq<Byte>, seq<bool>, nat) -> real): Model {
    Model(base, (tokens: seq<Byte>, mask: seq<bool>) => AttentionStart(exp, raw(tokens, mask), tokens, mask), leave)
  }

  lemma AttentionStarts(exp: PosFn, raw: seq<real>, tokens: seq<Byte>, mask: seq<bool>, j: nat)
    requires |raw| == |tokens| == |mask| && Eligible(tokens, mask, j)
    ensures Eligible(tokens, mask, AttentionStart(exp, raw, tokens, mask))
  {
    assert Eligibles(tokens, mask)[j];
    PickIsEligible(exp, raw, Eligibles(tokens, mask));
  }

  /** A model that starts copying where its attention is largest is well behaved. */
  lemma AttentiveIsWellBehaved(base: (seq<Byte>, seq<bool>) -> Byte, exp: PosFn, raw: (seq<Byte>, seq<bool>) -> seq<real>,
                               leave: (seq<Byte>, seq<bool>, nat) -> real)
    requires forall tokens, mask :: |raw(tokens, mask)| == |tokens|
    requires forall tokens, mask, j :: 0.0 <= leave(tokens, mask, j) <= 1.0
    ensures WellBehaved(AttentiveModel(base, exp, raw, leave))
  {
    var m := AttentiveModel(base, exp, raw, leave);
    forall tokens, mask | |tokens| == |mask| && (exists j :: Eligible(tokens, mask, j))
      ensures Eligible(tokens, mask, m.start(tokens, mask))
    {
      var j :| Eligible(tokens, mask, j);
      AttentionStarts(exp, raw(tokens, mask), tokens, mask, j);
    }
  }
}
