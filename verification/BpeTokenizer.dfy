/** The tokenizer object: two tables, changed in place by `Train` and `Load`. */
module BpeTokenizer {
  import opened PyData
  import opened Utf8
  import opened Bpe
  import opened BpeFile

  class BPETokenizer {
    const vocabSize: int
    const numMerges: int := vocabSize - 256
    var merges: Dict<Pair, int>
    var vocab: map<int, seq<Byte>>

    ghost function Tables(): Table
      reads this
    {
      Table(merges, vocab)
    }

    constructor (vocabSize: int := 512)
      ensures Tables() == FreshTable() && this.vocabSize == vocabSize
    {
      this.vocabSize := vocabSize;
      merges := EmptyDict();
      vocab := BaseVocab();
    }

    method GetStats(ids: seq<int>) returns (counts: Dict<Pair, nat>)
      ensures counts == Stats(ids)
    {
      counts := EmptyDict();
      var ps := Pairs(ids);
      for i := 0 to |ps|
        invariant counts == Tally(ps, i)
      {
        counts := Counted(counts, ps[i]);
      }
      TallyIsStats(ids);
    }

    method Merge(ids: seq<int>, pair: Pair, idx: int) returns (newids: seq<int>)
      ensures newids == Merged(ids, pair, idx)
    {
      newids := [];
      var i := 0;
      while i < |ids|
        invariant 0 <= i <= |ids|
        invariant newids + Merged(ids[i..], pair, idx) == Merged(ids, pair, idx)
      {
        MergedStepAfter(newids, ids, i, pair, idx);
        if i < |ids| - 1 && ids[i] == pair.0 && ids[i + 1] == pair.1 {
          newids := newids + [idx];
          i := i + 2;
        } else {
          newids := newids + [ids[i]];
          i := i + 1;
        }
      }
    }

    /** One round of `train`; `stop` when there is no pair left. */
    method TrainRound(ids: seq<int>, i: nat, ghost end: (Table, seq<int>, nat) -> Table)
      returns (stop: bool, ids': seq<int>)
      requires Valid(Tables()) && Known(vocab, ids) && i < numMerges && NamesTraining(end, numMerges)
      modifies this`merges, this`vocab
      ensures Valid(Tables()) && Known(vocab, ids')
      ensures end(old(Tables()), ids, i) == if stop then Tables() else end(Tables(), ids', i + 1)
    {
      assert Reached(Tables(), ids, i);
      var stats := GetStats(ids);
      if stats.order == [] {
        return true, ids;
      }
      var best := BestPair(stats);
      TrainUnfolds(Tables(), ids, i, numMerges);
      var idx := 256 + i;
      ids' := Merge(ids, best, idx);
      merges := merges.Put(best, idx);
      vocab := vocab[idx := vocab[best.0] + vocab[best.1]];
      stop := false;
      assert Reached(Tables(), ids', i + 1);
    }

    /** The loop of `train`. */
    method TrainLoop(start: seq<int>, ghost end: (Table, seq<int>, nat) -> Table)
      requires Valid(Tables()) && Known(vocab, start) && NamesTraining(end, numMerges)
      modifies this`merges, this`vocab
      ensures Valid(Tables()) && Tables() == end(old(Tables()), start, 0)
    {
      var ids, i := start, 0;
      while i < numMerges
        invariant 0 <= i && Valid(Tables()) && Known(vocab, ids)
        invariant end(old(Tables()), start, 0) == end(Tables(), ids, i)
        decreases numMerges - i
      {
        var stop;
        stop, ids := TrainRound(ids, i, end);
        if stop {
          return;
        }
        i := i + 1;
      }
      assert Reached(Tables(), ids, i);
    }

    method Train(text: seq<Scalar>)
      requires Valid(Tables())
      modifies this`merges, this`vocab
      ensures Valid(Tables()) && Known(old(vocab), Utf8.Encode(text))
      ensures Tables() == Bpe.Train(old(Tables()), Utf8.Encode(text), 0, numMerges).0
      ensures old(Tables()) == FreshTable() && vocabSize >= 256 ==> forall id :: id in vocab ==> 0 <= id < vocabSize
      ensures old(Tables()) == FreshTable() && vocabSize >= 256 ==>
                256 + |merges.order| == vocabSize || |EncodeIds(merges.at, Utf8.Encode(text))| < 2
    {
      ghost var end := (t: Table, ids: seq<int>, i: nat) =>
        if Valid(t) && Known(t.vocab, ids) then Bpe.Train(t, ids, i, numMerges).0 else t;
      assert Reached(Tables(), Utf8.Encode(text), 0);
      TrainLoop(Utf8.Encode(text), end);
      if old(Tables()) == FreshTable() && vocabSize >= 256 {
        TrainedVocabulary(text, numMerges);
        EncodeReplaysTraining(text, numMerges);
      }
    }

    method Save() returns (text: string)
      requires merges.Valid()
      ensures text == SaveText(Entries(merges))
    {
      text := "";
      var entries := Entries(merges);
      for i := 0 to |entries|
        invariant text + SaveText(entries[i..]) == SaveText(entries)
      {
        text := text + (LineOf(entries[i]) + "\n");
        assert entries[i..][1..] == entries[i + 1..];
      }
    }

    /** `file` is `None` when the path does not exist; the outcome names the exception raised, if any. */
    method Load(file: Option<string>) returns (outcome: Outcome)
      modifies this
      ensures file.None? ==> outcome == Done && Tables() == FreshTable()
      ensures file.Some? ==> (Tables(), outcome) == LoadText(file.value)
    {
      merges := EmptyDict();
      vocab := BaseVocab();
      if file.None? {
        return Done;
      }
      var lines := Decimal.Lines(file.value);
      for i := 0 to |lines|
        invariant Valid(Tables())
        invariant LoadText(file.value) == LoadLines(Tables(), lines[i..])
      {
        assert lines[i..][1..] == lines[i + 1..];
        match ParseLine(lines[i])
        case None => return ValueError;
        case Some(e) =>
          var (p, idx) := e;
          merges := merges.Put(p, idx);
          if p.0 !in vocab || p.1 !in vocab {
            return KeyError;
          }
          vocab := vocab[idx := vocab[p.0] + vocab[p.1]];
      }
      return Done;
    }

    method Encode(text: seq<Scalar>) returns (ids: seq<int>)
      ensures ids == EncodeIds(merges.at, Utf8.Encode(text))
    {
      ids := Utf8.Encode(text);
      while |ids| >= 2
        invariant EncodeIds(merges.at, Utf8.Encode(text)) == EncodeIds(merges.at, ids)
        decreases |ids|
      {
        var stats := GetStats(ids);
        var pair := LowestPair(merges.at, stats.order);
        if pair !in merges.at {
          break;
        }
        MergedShortens(ids, pair, merges.at[pair]);
        assert NextMerge(merges.at, ids) == Some(pair);
        ids := Merge(ids, pair, merges.at[pair]);
      }
    }

    /** `None` stands for the KeyError of an unknown id. */
    method Decode(ids: seq<int>) returns (text: Option<seq<Scalar>>)
      ensures text == if Known(vocab, ids) then Some(DecodeIds(vocab, ids)) else None
      ensures forall n :: 0 <= n <= |ids| && Known(vocab, ids) && Utf8.StartsAfresh(Expand(vocab, ids[n..])) ==>
                text == Some(DecodeIds(vocab, ids[..n]) + DecodeIds(vocab, ids[n..]))
    {
      forall n: nat | n <= |ids| && Known(vocab, ids)
        ensures Known(vocab, ids[..n]) && Known(vocab, ids[n..])
        ensures Utf8.StartsAfresh(Expand(vocab, ids[n..])) ==>
                  DecodeIds(vocab, ids) == DecodeIds(vocab, ids[..n]) + DecodeIds(vocab, ids[n..])
      {
        DecodeIdsCut(vocab, ids, n);
      }
      var b: seq<Byte> := [];
      for i := 0 to |ids|
        invariant Known(vocab, ids[..i])
        invariant Known(vocab, ids) ==> b + Expand(vocab, ids[i..]) == Expand(vocab, ids)
      {
        if ids[i] !in vocab {
          return None;
        }
        b := b + vocab[ids[i]];
        assert ids[i..][1..] == ids[i + 1..];
      }
      assert ids[..|ids|] == ids && ids[|ids|..] == [];
      assert b + [] == b;
      text := Some(Utf8.Decode(b));
    }
  }
}
