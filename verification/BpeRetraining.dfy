/** Training a tokenizer that has been trained before. */
module BpeRetraining {
  import opened PyData
  import opened Utf8
  import opened Bpe
  import opened BpeFile
  import opened BpeLocality

  /** The pairs that are no keys of `known`, in their order. */
  function Beyond(order: seq<Pair>, known: map<Pair, int>): (pairs: seq<Pair>)
    ensures forall p :: p in pairs ==> p in order && p !in known
  {
    if order == [] then [] else
      var n := |order| - 1;
      Beyond(order[..n], known) + if order[n] in known then [] else [order[n]]
  }

  /** The tables of `t` are those of `below`, with those of `above` written over them, in the order in which it happens. */
  ghost predicate Overlays(t: Table, below: Table, above: Table) {
    && t.merges.at == below.merges.at + above.merges.at && t.vocab == below.vocab + above.vocab
    && t.merges.order == below.merges.order + Beyond(above.merges.order, below.merges.at)
  }

  lemma BeyondSnoc(order: seq<Pair>, p: Pair, known: map<Pair, int>)
    ensures Beyond(order + [p], known) == Beyond(order, known) + if p in known then [] else [p]
  {
    assert (order + [p])[..|order|] == order;
  }

  lemma Regroup<T>(a: seq<T>, b: seq<T>, c: seq<T>)
    ensures a + (b + c) == (a + b) + c
  {
  }

  /** A pair takes its place over the pairs below. */
  lemma PutOrder(below: Dict<Pair, int>, above: Dict<Pair, int>, p: Pair, idx: int)
    requires above.Valid()
    ensures below.order + Beyond(above.Put(p, idx).order, below.at) ==
            below.order + Beyond(above.order, below.at) + if p in below.at || p in above.at then [] else [p]
  {
    if p !in above.at {
      BeyondSnoc(above.order, p, below.at);
      Regroup(below.order, Beyond(above.order, below.at), if p in below.at then [] else [p]);
    }
  }

  lemma PutOverSum<K, V>(a: map<K, V>, b: map<K, V>, k: K, v: V)
    ensures (a + b)[k := v] == a + b[k := v]
  {
  }

  lemma MergeOverlays(t: Table, below: Table, above: Table, p: Pair, idx: int)
    requires t.merges.Valid() && above.merges.Valid() && p.0 in above.vocab && p.1 in above.vocab
    requires Overlays(t, below, above)
    ensures p.0 in t.vocab && p.1 in t.vocab && Overlays(WithMerge(t, p, idx), below, WithMerge(above, p, idx))
  {
    PutOrder(below.merges, above.merges, p, idx);
    PutOverSum(below.merges.at, above.merges.at, p, idx);
    PutOverSum(below.vocab, above.vocab, idx, above.vocab[p.0] + above.vocab[p.1]);
  }

  /** Training never looks at the tables it writes to, so it writes the same over any table. */
  lemma {:induction false} TrainingOverlays(t: Table, below: Table, above: Table, ids: seq<int>, i: nat, rounds: int)
    requires Valid(t) && Valid(above) && Known(t.vocab, ids) && Known(above.vocab, ids)
    requires Overlays(t, below, above)
    ensures Overlays(Train(t, ids, i, rounds).0, below, Train(above, ids, i, rounds).0)
    decreases rounds - i
  {
    if i < rounds && |ids| >= 2 {
      var p, idx := Best(ids), 256 + i;
      TrainUnfolds(t, ids, i, rounds);
      TrainUnfolds(above, ids, i, rounds);
      MergeOverlays(t, below, above, p, idx);
      TrainingOverlays(WithMerge(t, p, idx), below, WithMerge(above, p, idx), Merged(ids, p, idx), i + 1, rounds);
    }
  }

  lemma ValidKnowsBytes(t: Table, bytes: seq<Byte>)
    requires Valid(t)
    ensures Known(t.vocab, bytes)
  {
  }

  /** The table of a tokenizer trained on one text and then on another. */
  function Retrained(first: seq<Scalar>, second: seq<Scalar>, rounds: int, more: int): (t: Table)
    ensures Valid(t)
  {
    var t := TrainedOn(first, rounds).0;
    ValidKnowsBytes(t, Utf8.Encode(second));
    Train(t, Utf8.Encode(second), 0, more).0
  }

  lemma TrainedIsSound(text: seq<Scalar>, rounds: int)
    ensures Sound(TrainedOn(text, rounds).0)
  {
    BytesKnown(Utf8.Encode(text));
    FreshIsSound();
    TrainingKeepsSound(FreshTable(), Utf8.Encode(text), 0, rounds);
  }

  lemma FreshBelow(t: Table)
    requires Sound(t)
    ensures Overlays(t, t, FreshTable())
  {
    assert t.vocab == t.vocab + BaseVocab();
    assert t.merges.at == t.merges.at + map[];
  }

  /** Training again overlays the tables of two separate trainings, for any texts and any numbers of rounds. */
  lemma RetrainingOverlays(first: seq<Scalar>, second: seq<Scalar>, rounds: int, more: int)
    ensures Overlays(Retrained(first, second, rounds, more), TrainedOn(first, rounds).0, TrainedOn(second, more).0)
  {
    var t := TrainedOn(first, rounds).0;
    TrainedIsSound(first, rounds);
    FreshBelow(t);
    ValidKnowsBytes(t, Utf8.Encode(second));
    BytesKnown(Utf8.Encode(second));
    TrainingOverlays(t, t, FreshTable(), Utf8.Encode(second), 0, more);
  }

  /** A pair learned only the first time still has, in both tables together, the bytes of its parts. */
  ghost predicate StillStands(below: Table, above: Table, p: Pair)
    requires p in below.merges.at && Coherent(below)
  {
    var vocab := below.vocab + above.vocab;
    vocab[below.merges.at[p]] == vocab[p.0] + vocab[p.1]
  }

  lemma OverlayCoherent(t: Table, below: Table, above: Table)
    requires Overlays(t, below, above) && Coherent(below) && Coherent(above)
    ensures Coherent(t) <==> forall p :: p in below.merges.at && p !in above.merges.at ==> StillStands(below, above, p)
  {
    if forall p :: p in below.merges.at && p !in above.merges.at ==> StillStands(below, above, p) {
      forall p | p in t.merges.at
        ensures p.0 in t.vocab && p.1 in t.vocab && t.merges.at[p] in t.vocab
        ensures t.vocab[t.merges.at[p]] == t.vocab[p.0] + t.vocab[p.1]
      {
        if p in above.merges.at {
          assert above.vocab[above.merges.at[p]] == above.vocab[p.0] + above.vocab[p.1];
        } else {
          assert StillStands(below, above, p);
        }
      }
    }
    if Coherent(t) {
      forall p | p in below.merges.at && p !in above.merges.at
        ensures StillStands(below, above, p)
      {
        assert p in t.merges.at;
      }
    }
  }

  /** After training again the table is coherent exactly when every pair learned only the first time still stands. */
  lemma RetrainedCoherentIff(first: seq<Scalar>, second: seq<Scalar>, rounds: int, more: int)
    ensures var below, above := TrainedOn(first, rounds).0, TrainedOn(second, more).0;
            && Coherent(below)
            && (Coherent(Retrained(first, second, rounds, more)) <==>
                forall p :: p in below.merges.at && p !in above.merges.at ==> StillStands(below, above, p))
  {
    TrainedIsSound(first, rounds);
    TrainedIsSound(second, more);
    RetrainingOverlays(first, second, rounds, more);
    OverlayCoherent(Retrained(first, second, rounds, more), TrainedOn(first, rounds).0, TrainedOn(second, more).0);
  }

  lemma {:induction false} NothingBeyond(order: seq<Pair>, known: map<Pair, int>)
    requires forall p :: p in order ==> p in known
    ensures Beyond(order, known) == []
  {
    if order != [] {
      NothingBeyond(order[..|order| - 1], known);
    }
  }

  lemma OverlaidByItself(t: Table, above: Table)
    requires above.merges.Valid() && Overlays(t, above, above)
    ensures t == above
  {
    NothingBeyond(above.merges.order, above.merges.at);
    assert above.vocab + above.vocab == above.vocab && above.merges.at + above.merges.at == above.merges.at;
  }

  /** Training again on the same text with the same number of rounds changes neither table, nor the order of the merges. */
  lemma SameTextIsHarmless(text: seq<Scalar>, rounds: int)
    ensures Retrained(text, text, rounds, rounds) == TrainedOn(text, rounds).0
  {
    RetrainingOverlays(text, text, rounds, rounds);
    TrainedIsSound(text, rounds);
    OverlaidByItself(Retrained(text, text, rounds, rounds), TrainedOn(text, rounds).0);
  }

  // ----- Which texts a tokenizer that was trained twice keeps -----

  function AnyBytes(): seq<Byte> -> bool {
    (bytes: seq<Byte>) => true
  }

  lemma RetrainedBytesIntact(first: seq<Scalar>, second: seq<Scalar>, rounds: int, more: int)
    ensures BytesIntact(Retrained(first, second, rounds, more))
  {
    TrainedIsSound(first, rounds);
    TrainedIsSound(second, more);
    RetrainingOverlays(first, second, rounds, more);
    var below, above := TrainedOn(first, rounds).0, TrainedOn(second, more).0;
    forall b | 0 <= b < 256
      ensures b in (below.vocab + above.vocab) && (below.vocab + above.vocab)[b] == [b]
    {
      assert above.vocab[b] == [b];
    }
  }

  /**
   * After training twice, for any texts and any numbers of rounds, encoding keeps all bytes exactly when it keeps those
   * of each entry's two parts.
   */
  lemma RetrainedKeepsBytesIff(first: seq<Scalar>, second: seq<Scalar>, rounds: int, more: int)
    ensures var t := Retrained(first, second, rounds, more);
            KeepsLanguage(t, AnyBytes()) <==> EntriesRestore(t, AnyBytes())
  {
    RetrainedBytesIntact(first, second, rounds, more);
    RestoresIffEntriesDo(Retrained(first, second, rounds, more), AnyBytes());
  }

  /** And all ASCII texts decode back exactly when the texts of the entries' parts do. */
  lemma RetrainedAsciiIff(first: seq<Scalar>, second: seq<Scalar>, rounds: int, more: int)
    ensures var t := Retrained(first, second, rounds, more);
            KeepsAscii(t) <==> EntriesRoundTrip(t)
  {
    RetrainedBytesIntact(first, second, rounds, more);
    AsciiTextsIff(Retrained(first, second, rounds, more));
  }

  /** A round's pair keeps its id to the end. */
  lemma RoundKeepsId(t: Table, ids: seq<int>, i: nat, rounds: int)
    requires Valid(t) && Known(t.vocab, ids) && Trained(t, ids, i) && i < rounds && |ids| >= 2
    ensures var later := Train(t, ids, i, rounds).0.merges.at; Best(ids) in later && later[Best(ids)] == 256 + i
  {
    TrainingStep(t, ids, i);
    EncodeReplaysRounds(Learned(t, ids, 256 + i), Merged(ids, Best(ids), 256 + i), i + 1, rounds);
    ExtendsEarlier(Train(t, ids, i, rounds).0.merges.at, t.merges.at, Best(ids), 256 + i);
  }

  /** The first pair learned has the first id. */
  lemma FirstId(text: seq<Scalar>, rounds: int)
    requires rounds > 0 && |Utf8.Encode(text)| >= 2
    ensures var t, p := TrainedOn(text, rounds).0, Best(Utf8.Encode(text)); p in t.merges.at && t.merges.at[p] == 256
  {
    BytesKnown(Utf8.Encode(text));
    RoundKeepsId(FreshTable(), Utf8.Encode(text), 0, rounds);
  }

  lemma BytePairStands(t: Table, p: Pair)
    requires Sound(t) && p in t.merges.at && 0 <= p.0 < 256 && 0 <= p.1 < 256
    ensures t.merges.at[p] in t.vocab && t.vocab[t.merges.at[p]] == [p.0, p.1]
  {
    assert t.vocab[p.0] == [p.0] && t.vocab[p.1] == [p.1];
  }

  /** The id of a byte pair that is not learned again goes to the first pair of the other training. */
  lemma ByteOverlay(t: Table, below: Table, above: Table, p: Pair, q: Pair)
    requires Overlays(t, below, above) && Sound(above)
    requires 0 <= p.0 < 0x80 && 0 <= p.1 < 0x80 && 0 <= q.0 < 256 && 0 <= q.1 < 256
    requires p in below.merges.at && below.merges.at[p] == 256 && q in above.merges.at && above.merges.at[q] == 256
    ensures RoundTrips(t, [p.0, p.1]) <==> p in above.merges.at
  {
    PairNeedsItsBytes(t, p.0, p.1);
    BytePairStands(above, q);
    if p in above.merges.at {
      BytePairStands(above, p);
    }
  }

  lemma BestIsBytes(bytes: seq<Byte>)
    requires |bytes| >= 2
    ensures 0 <= Best(bytes).0 < 256 && 0 <= Best(bytes).1 < 256
  {
  }

  /**
   * After training again, the text of the first pair ever learned, if it is ASCII, decodes back exactly when that pair
   * has been learned again.
   */
  lemma FirstPairAfterRetraining(first: seq<Scalar>, second: seq<Scalar>, rounds: int, more: int)
    requires rounds > 0 && more > 0 && |Utf8.Encode(first)| >= 2 && |Utf8.Encode(second)| >= 2
    requires var p := Best(Utf8.Encode(first)); 0 <= p.0 < 0x80 && 0 <= p.1 < 0x80
    ensures var p := Best(Utf8.Encode(first));
            RoundTrips(Retrained(first, second, rounds, more), [p.0, p.1]) <==> p in TrainedOn(second, more).0.merges.at
  {
    FirstId(first, rounds);
    FirstId(second, more);
    BestIsBytes(Utf8.Encode(second));
    RetrainingOverlays(first, second, rounds, more);
    TrainedIsSound(second, more);
    ByteOverlay(Retrained(first, second, rounds, more), TrainedOn(first, rounds).0, TrainedOn(second, more).0,
                Best(Utf8.Encode(first)), Best(Utf8.Encode(second)));
  }
}
