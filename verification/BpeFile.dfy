/** The tokenizer's tables as a text file, and what an arbitrary file can do to them. */
module BpeFile {
  import opened PyData
  import opened Utf8
  import opened Bpe
  import opened Decimal

  datatype Outcome = Done | ValueError | KeyError

  // ----- Printing -----

  type Entry = (Pair, int)

  function LineOf(e: Entry): string {
    PrintInt(e.0.0) + (" " + (PrintInt(e.0.1) + (" " + PrintInt(e.1))))
  }

  lemma LineOfIsOneLine(e: Entry)
    ensures IsLine(LineOf(e))
  {
    IsLineConcat(" ", PrintInt(e.1));
    IsLineConcat(PrintInt(e.0.1), " " + PrintInt(e.1));
    IsLineConcat(" ", PrintInt(e.0.1) + (" " + PrintInt(e.1)));
    IsLineConcat(PrintInt(e.0.0), " " + (PrintInt(e.0.1) + (" " + PrintInt(e.1))));
  }

  /** The entries of `merges.items()`, in insertion order. */
  function Entries(merges: Dict<Pair, int>): seq<Entry>
    requires merges.Valid()
  {
    seq(|merges.order|, i requires 0 <= i < |merges.order| =>
      assert merges.order[i] in merges.order; (merges.order[i], merges.at[merges.order[i]]))
  }

  /** What `save` writes for these entries. */
  function SaveText(entries: seq<Entry>): string {
    if entries == [] then "" else LineOf(entries[0]) + "\n" + SaveText(entries[1..])
  }

  // ----- Parsing -----

  /** `p0, p1, idx = map(int, line.split())`; `None` stands for ValueError. */
  function ParseLine(line: string): Option<Entry> {
    var f := Fields(line);
    if |f| != 3 then None else
      var a, b, c := ParseInt(f[0]), ParseInt(f[1]), ParseInt(f[2]);
      if a.None? || b.None? || c.None? then None
      else Some(((a.value, b.value), c.value))
  }

  lemma ParseLineUndoesPrint(e: Entry)
    ensures ParseLine(LineOf(e)) == Some(e)
  {
    FieldsOfThree(PrintInt(e.0.0), PrintInt(e.0.1), PrintInt(e.1));
    ParseUndoesPrint(e.0.0);
    ParseUndoesPrint(e.0.1);
    ParseUndoesPrint(e.1);
  }

  /** A line names the first part, the second part and the id, in this order. */
  lemma LineFields(first: int, second: int, idx: int)
    ensures Fields(LineOf(((first, second), idx))) == [PrintInt(first), PrintInt(second), PrintInt(idx)]
    ensures ParseLine(LineOf(((first, second), idx))) == Some(((first, second), idx))
  {
    FieldsOfThree(PrintInt(first), PrintInt(second), PrintInt(idx));
    ParseLineUndoesPrint(((first, second), idx));
  }

  /** One loop iteration of `load`: the merge is stored before its parts are looked up. */
  function LoadEntry(t: Table, e: Entry): (r: (Table, Outcome))
    requires Valid(t)
    ensures Valid(r.0)
  {
    if e.0.0 in t.vocab && e.0.1 in t.vocab then (WithMerge(t, e.0, e.1), Done)
    else (Table(t.merges.Put(e.0, e.1), t.vocab), KeyError)
  }

  function LoadLines(t: Table, lines: seq<string>): (r: (Table, Outcome))
    requires Valid(t)
    ensures Valid(r.0)
    decreases |lines|
  {
    if lines == [] then (t, Done) else
      match ParseLine(lines[0])
      case None => (t, ValueError)
      case Some(e) =>
        var (t', outcome) := LoadEntry(t, e);
        if outcome == Done then LoadLines(t', lines[1..]) else (t', outcome)
  }

  /** What `load` leaves behind when the file has this text. */
  function LoadText(text: string): (Table, Outcome) {
    LoadLines(FreshTable(), Lines(text))
  }

  // ----- A saved table loads back -----

  function LoadEntries(t: Table, entries: seq<Entry>): (r: (Table, Outcome))
    requires Valid(t)
    ensures Valid(r.0)
    decreases |entries|
  {
    if entries == [] then (t, Done) else
      var (t', outcome) := LoadEntry(t, entries[0]);
      if outcome == Done then LoadEntries(t', entries[1..]) else (t', outcome)
  }

  lemma SavedHead(entries: seq<Entry>)
    requires entries != []
    ensures Lines(SaveText(entries)) == [LineOf(entries[0])] + Lines(SaveText(entries[1..]))
  {
    LineOfIsOneLine(entries[0]);
    LinesOfLine(LineOf(entries[0]), SaveText(entries[1..]));
  }

  lemma ParsedHead(lines: seq<string>, line: string, entries: seq<Entry>)
    requires |lines| + 1 == |entries| && ParseLine(line) == Some(entries[0])
    requires forall i :: 0 <= i < |lines| ==> ParseLine(lines[i]) == Some(entries[1..][i])
    ensures forall i :: 0 <= i < |entries| ==> ParseLine(([line] + lines)[i]) == Some(entries[i])
  {
    forall i | 0 <= i < |entries|
      ensures ParseLine(([line] + lines)[i]) == Some(entries[i])
    {
      if i > 0 {
        assert ([line] + lines)[i] == lines[i - 1] && entries[i] == entries[1..][i - 1];
      }
    }
  }

  /** Each line of a saved file parses to the entry it was printed from. */
  lemma {:induction false} SavedLinesParse(entries: seq<Entry>)
    ensures |Lines(SaveText(entries))| == |entries|
    ensures forall i :: 0 <= i < |entries| ==> ParseLine(Lines(SaveText(entries))[i]) == Some(entries[i])
  {
    if entries != [] {
      SavedHead(entries);
      ParseLineUndoesPrint(entries[0]);
      SavedLinesParse(entries[1..]);
      ParsedHead(Lines(SaveText(entries[1..])), LineOf(entries[0]), entries);
    }
  }

  lemma {:induction false} LoadParsed(t: Table, lines: seq<string>, entries: seq<Entry>)
    requires Valid(t) && |lines| == |entries|
    requires forall i :: 0 <= i < |lines| ==> ParseLine(lines[i]) == Some(entries[i])
    ensures LoadLines(t, lines) == LoadEntries(t, entries)
    decreases |lines|
  {
    if lines != [] {
      assert ParseLine(lines[0]) == Some(entries[0]);
      var (t', outcome) := LoadEntry(t, entries[0]);
      if outcome == Done {
        LoadParsed(t', lines[1..], entries[1..]);
      }
    }
  }

  lemma {:induction false} LoadEntriesSnoc(t: Table, entries: seq<Entry>, e: Entry)
    requires Valid(t) && LoadEntries(t, entries).1 == Done
    ensures LoadEntries(t, entries + [e]) == LoadEntry(LoadEntries(t, entries).0, e)
    decreases |entries|
  {
    if entries == [] {
      assert entries + [e] == [e];
    } else {
      assert (entries + [e])[1..] == entries[1..] + [e];
      LoadEntriesSnoc(LoadEntry(t, entries[0]).0, entries[1..], e);
    }
  }

  /** The table is what reading its own entries back produces. */
  ghost predicate Reloads(t: Table) {
    Valid(t) && LoadEntries(FreshTable(), Entries(t.merges)) == (t, Done)
  }

  lemma EntriesAfterPut(merges: Dict<Pair, int>, p: Pair, idx: int)
    requires merges.Valid() && p !in merges.at
    ensures Entries(merges.Put(p, idx)) == Entries(merges) + [(p, idx)]
  {
  }

  lemma LearnedReloads(t: Table, ids: seq<int>, idx: int)
    requires Reloads(t) && Known(t.vocab, ids) && |ids| >= 2 && Best(ids) !in t.merges.at
    ensures Reloads(Learned(t, ids, idx))
  {
    var best := Best(ids);
    KnownMembers(t.vocab, ids, best.0);
    KnownMembers(t.vocab, ids, best.1);
    EntriesAfterPut(t.merges, best, idx);
    LoadEntriesSnoc(FreshTable(), Entries(t.merges), (best, idx));
  }

  lemma {:induction false} TrainingReloads(t: Table, ids: seq<int>, i: nat, rounds: int)
    requires Reloads(t) && Known(t.vocab, ids) && Trained(t, ids, i)
    ensures Reloads(Train(t, ids, i, rounds).0)
    decreases rounds - i
  {
    if i < rounds && |ids| >= 2 {
      TrainingStep(t, ids, i);
      LearnedReloads(t, ids, 256 + i);
      TrainingReloads(Learned(t, ids, 256 + i), Merged(ids, Best(ids), 256 + i), i + 1, rounds);
    }
  }

  /** Loading what was saved reads back exactly the entries that were written. */
  lemma SavedTextReloads(t: Table)
    requires Valid(t)
    ensures LoadText(SaveText(Entries(t.merges))) == LoadEntries(FreshTable(), Entries(t.merges))
  {
    SavedLinesParse(Entries(t.merges));
    LoadParsed(FreshTable(), Lines(SaveText(Entries(t.merges))), Entries(t.merges));
  }

  // ----- When decoding undoes encoding -----

  /** Every byte id still stands for its own byte. */
  ghost predicate BytesIntact(t: Table) {
    forall b | 0 <= b < 256 :: b in t.vocab && t.vocab[b] == [b]
  }

  /** Every id that a merge mentions has an expansion; a table is like this after a `load` that returns. */
  ghost predicate PartsKnown(t: Table) {
    forall p :: p in t.merges.at ==> p.0 in t.vocab && p.1 in t.vocab && t.merges.at[p] in t.vocab
  }

  lemma {:induction false} EncodeKeepsBytes(t: Table, ids: seq<int>)
    requires Coherent(t) && Known(t.vocab, ids)
    ensures Known(t.vocab, EncodeIds(t.merges.at, ids))
    ensures Expand(t.vocab, EncodeIds(t.merges.at, ids)) == Expand(t.vocab, ids)
    decreases |ids|
  {
    var next := NextMerge(t.merges.at, ids);
    if next.Some? {
      var p := next.value;
      MergedShortens(ids, p, t.merges.at[p]);
      MergeKeepsBytes(t, ids, p);
      EncodeKeepsBytes(t, Merged(ids, p, t.merges.at[p]));
    }
  }

  ghost predicate KeepsBytes(t: Table, ids: seq<int>) {
    Known(t.vocab, ids) ==>
      && Known(t.vocab, EncodeIds(t.merges.at, ids))
      && Expand(t.vocab, EncodeIds(t.merges.at, ids)) == Expand(t.vocab, ids)
  }

  /** A two-id list that is an entry's pair is encoded as that entry's id. */
  lemma EncodePair(merges: map<Pair, int>, p: Pair)
    requires p in merges
    ensures EncodeIds(merges, [p.0, p.1]) == [merges[p]]
  {
    var ids := [p.0, p.1];
    NextOfTwo(merges, p);
    MergedTwo(p, merges[p]);
    assert EncodeIds(merges, ids) == EncodeIds(merges, [merges[p]]);
    EncodeOne(merges, merges[p]);
  }

  lemma NextOfTwo(merges: map<Pair, int>, p: Pair)
    requires p in merges
    ensures NextMerge(merges, [p.0, p.1]) == Some(p)
  {
    PairsOfTwo(p);
    var next := NextMerge(merges, [p.0, p.1]);
    assert p in [p];
    assert next.Some?;
    assert next.value in [p];
  }

  lemma EncodeOne(merges: map<Pair, int>, id: int)
    ensures EncodeIds(merges, [id]) == [id]
  {
  }

  lemma PairsOfTwo(p: Pair)
    ensures Pairs([p.0, p.1]) == [p]
  {
    assert [p.0, p.1][1..] == [p.1];
  }

  lemma MergedTwo(p: Pair, idx: int)
    ensures Merged([p.0, p.1], p, idx) == [idx]
  {
    assert [p.0, p.1][2..] == [];
  }

  /** The encoding loop preserves the bytes of every id list exactly when the table is coherent. */
  lemma KeepsBytesIffCoherent(t: Table)
    requires PartsKnown(t)
    ensures (forall ids: seq<int> :: KeepsBytes(t, ids)) <==> Coherent(t)
  {
    if Coherent(t) {
      forall ids: seq<int>
        ensures KeepsBytes(t, ids)
      {
        if Known(t.vocab, ids) {
          EncodeKeepsBytes(t, ids);
        }
      }
    }
    if forall ids: seq<int> :: KeepsBytes(t, ids) {
      forall p | p in t.merges.at
        ensures t.vocab[t.merges.at[p]] == t.vocab[p.0] + t.vocab[p.1]
      {
        var ids := [p.0, p.1];
        EncodePair(t.merges.at, p);
        assert KeepsBytes(t, ids);
        ExpandOne(t.vocab, t.merges.at[p]);
        ExpandTwo(t.vocab, p);
      }
    }
  }

  lemma ExpandOne(vocab: map<int, seq<Byte>>, id: int)
    requires id in vocab
    ensures Expand(vocab, [id]) == vocab[id]
  {
    assert [id][1..] == [];
  }

  lemma ExpandTwo(vocab: map<int, seq<Byte>>, p: Pair)
    requires p.0 in vocab && p.1 in vocab
    ensures Expand(vocab, [p.0, p.1]) == vocab[p.0] + vocab[p.1]
  {
    assert [p.0, p.1][1..] == [p.1];
    ExpandOne(vocab, p.1);
  }

  lemma {:induction false} ExpandBytes(t: Table, bytes: seq<Byte>)
    requires BytesIntact(t)
    ensures Known(t.vocab, bytes) && Expand(t.vocab, bytes) == bytes
  {
    if bytes != [] {
      ExpandBytes(t, bytes[1..]);
      assert t.vocab[bytes[0]] == [bytes[0]];
      assert Expand(t.vocab, bytes) == [bytes[0]] + Expand(t.vocab, bytes[1..]);
    }
  }

  /** `decode(ids)` for known ids. */
  function DecodeIds(vocab: map<int, seq<Byte>>, ids: seq<int>): seq<Scalar>
    requires Known(vocab, ids)
  {
    Utf8.Decode(Expand(vocab, ids))
  }

  lemma {:induction false} ExpandConcat(vocab: map<int, seq<Byte>>, a: seq<int>, b: seq<int>)
    requires Known(vocab, a) && Known(vocab, b)
    ensures Known(vocab, a + b) && Expand(vocab, a + b) == Expand(vocab, a) + Expand(vocab, b)
  {
    if a == [] {
      assert a + b == b;
    } else {
      ExpandConcat(vocab, a[1..], b);
      assert (a + b)[1..] == a[1..] + b;
      assert Expand(vocab, a + b) == vocab[a[0]] + (Expand(vocab, a[1..]) + Expand(vocab, b));
    }
  }

  /** Ids may be decoded in pieces, cut wherever no continuation byte follows, whatever bytes they stand for. */
  lemma DecodeIdsConcat(vocab: map<int, seq<Byte>>, a: seq<int>, b: seq<int>)
    requires Known(vocab, a) && Known(vocab, b) && Utf8.StartsAfresh(Expand(vocab, b))
    ensures Known(vocab, a + b) && DecodeIds(vocab, a + b) == DecodeIds(vocab, a) + DecodeIds(vocab, b)
  {
    ExpandConcat(vocab, a, b);
    Utf8.DecodeConcat(Expand(vocab, a), Expand(vocab, b));
  }

  /** A cut in a list of known ids is such a cut. */
  lemma DecodeIdsCut(vocab: map<int, seq<Byte>>, ids: seq<int>, n: nat)
    requires Known(vocab, ids) && n <= |ids|
    ensures Known(vocab, ids[..n]) && Known(vocab, ids[n..])
    ensures Utf8.StartsAfresh(Expand(vocab, ids[n..])) ==>
              DecodeIds(vocab, ids) == DecodeIds(vocab, ids[..n]) + DecodeIds(vocab, ids[n..])
  {
    if Utf8.StartsAfresh(Expand(vocab, ids[n..])) {
      DecodeIdsConcat(vocab, ids[..n], ids[n..]);
      assert ids[..n] + ids[n..] == ids;
    }
  }

  /** A character that breaks off in front of a text is one U+FFFD, and the text is decoded after it. */
  lemma BrokenCharacterIsReplaced(vocab: map<int, seq<Byte>>, ids: seq<int>, c: Scalar, m: nat, text: seq<Scalar>)
    requires Known(vocab, ids) && 0 < m < |Utf8.EncodeScalar(c)|
    requires Expand(vocab, ids) == Utf8.EncodeScalar(c)[..m] + Utf8.Encode(text)
    ensures DecodeIds(vocab, ids) == [Utf8.REPLACEMENT] + text
  {
    Utf8.TextStartsAfresh(text);
    Utf8.DecodeConcat(Utf8.EncodeScalar(c)[..m], Utf8.Encode(text));
    Utf8.BrokenCharacter(c, m);
    Utf8.DecodeUndoesEncode(text);
  }

  /** Decoding undoes encoding for every text, on every coherent table whose byte ids are intact. */
  lemma DecodeUndoesEncode(t: Table, text: seq<Scalar>)
    requires Coherent(t) && BytesIntact(t)
    ensures var ids := EncodeIds(t.merges.at, Utf8.Encode(text));
      Known(t.vocab, ids) && DecodeIds(t.vocab, ids) == text
  {
    ExpandBytes(t, Utf8.Encode(text));
    EncodeKeepsBytes(t, Utf8.Encode(text));
    Utf8.DecodeUndoesEncode(text);
  }

  // ----- Which files are safe to load -----

  ghost predicate NonEmptyVocab(t: Table) {
    forall id :: id in t.vocab ==> |t.vocab[id]| > 0
  }

  lemma ExpansionNonEmpty(t: Table, id: int)
    requires NonEmptyVocab(t) && id in t.vocab
    ensures |t.vocab[id]| > 0
  {
  }

  ghost predicate Mentions(q: Pair, qIdx: int, idx: int) {
    q.0 == idx || q.1 == idx || qIdx == idx
  }

  /**
   * The entry's id is new, or already stands for the same bytes, or is no byte id and is mentioned by
   * nothing else, the entry's own parts included.
   */
  ghost predicate SafeEntry(t: Table, e: Entry)
    requires e.0.0 in t.vocab && e.0.1 in t.vocab
  {
    || e.1 !in t.vocab
    || t.vocab[e.1] == t.vocab[e.0.0] + t.vocab[e.0.1]
    || (!(0 <= e.1 < 256) && e.0.0 != e.1 && e.0.1 != e.1 &&
        forall q :: q in t.merges.at && q != e.0 ==> !Mentions(q, t.merges.at[q], e.1))
  }

  ghost predicate Sound(t: Table) {
    Valid(t) && Coherent(t) && BytesIntact(t) && NonEmptyVocab(t)
  }

  lemma SafeEntryKeepsCoherent(t: Table, e: Entry)
    requires Sound(t) && e.0.0 in t.vocab && e.0.1 in t.vocab && SafeEntry(t, e)
    ensures Coherent(WithMerge(t, e.0, e.1))
  {
    var t' := WithMerge(t, e.0, e.1);
    forall q | q in t'.merges.at
      ensures q.0 in t'.vocab && q.1 in t'.vocab && t'.merges.at[q] in t'.vocab
      ensures t'.vocab[t'.merges.at[q]] == t'.vocab[q.0] + t'.vocab[q.1]
    {
      if q != e.0 {
        assert t.vocab[t.merges.at[q]] == t.vocab[q.0] + t.vocab[q.1];
      }
    }
  }

  lemma SafeEntryKeepsSound(t: Table, e: Entry)
    requires Sound(t) && e.0.0 in t.vocab && e.0.1 in t.vocab && SafeEntry(t, e)
    ensures Sound(WithMerge(t, e.0, e.1))
  {
    ExpansionNonEmpty(t, e.0.0);
    assert t.vocab[e.0.0] + t.vocab[e.0.1] != [];
    SafeEntryKeepsCoherent(t, e);
  }

  lemma Cancel<T>(a: seq<T>, b: seq<T>, x: seq<T>)
    ensures a + x == b + x ==> a == b
    ensures x + a == x + b ==> a == b
  {
    if a + x == b + x {
      assert a == (a + x)[..|a|] && b == (b + x)[..|b|];
    }
    if x + a == x + b {
      assert a == (x + a)[|x|..] && b == (x + b)[|x|..];
    }
  }

  lemma CancelTwice<T>(a: seq<T>, b: seq<T>)
    requires a + a == b + b
    ensures a == b
  {
    assert a == (a + a)[..|a|] && b == (b + b)[..|b|];
  }

  /** A mention of an id whose bytes have changed is incoherent in one of the two tables. */
  lemma MentionBreaks(t: Table, e: Entry, q: Pair)
    requires Sound(t) && e.0.0 in t.vocab && e.0.1 in t.vocab && e.1 in t.vocab
    requires t.vocab[e.1] != t.vocab[e.0.0] + t.vocab[e.0.1]
    requires q in t.merges.at && q != e.0 && Mentions(q, t.merges.at[q], e.1)
    ensures !Coherent(WithMerge(t, e.0, e.1))
  {
    var t', x, idx := WithMerge(t, e.0, e.1), t.merges.at[q], e.1;
    assert t'.merges.at[q] == x;
    if Coherent(t') {
      assert t.vocab[x] == t.vocab[q.0] + t.vocab[q.1];
      assert t'.vocab[x] == t'.vocab[q.0] + t'.vocab[q.1];
      if x == idx {
        ExpansionNonEmpty(t, q.0);
        ExpansionNonEmpty(t, q.1);
      } else if q.0 == idx && q.1 == idx {
        CancelTwice(t.vocab[idx], t'.vocab[idx]);
      } else if q.0 == idx {
        Cancel(t.vocab[idx], t'.vocab[idx], t.vocab[q.1]);
      } else {
        Cancel(t.vocab[idx], t'.vocab[idx], t.vocab[q.0]);
      }
    }
  }

  /** Storing an entry keeps a sound table sound exactly when the entry is safe. */
  lemma SafeEntryIff(t: Table, e: Entry)
    requires Sound(t) && e.0.0 in t.vocab && e.0.1 in t.vocab
    ensures Sound(WithMerge(t, e.0, e.1)) <==> SafeEntry(t, e)
  {
    var t', idx := WithMerge(t, e.0, e.1), e.1;
    if SafeEntry(t, e) {
      SafeEntryKeepsSound(t, e);
    } else {
      assert t'.vocab[idx] != t.vocab[idx];
      if 0 <= idx < 256 {
        assert !BytesIntact(t');
      } else if e.0.0 == idx || e.0.1 == idx {
        assert e.0 in t'.merges.at;
        ExpansionNonEmpty(t, idx);
      } else {
        var q :| q in t.merges.at && q != e.0 && Mentions(q, t.merges.at[q], idx);
        MentionBreaks(t, e, q);
      }
    }
  }

  /** Every line of the file is safe for the table it meets. */
  ghost predicate SafeLines(t: Table, lines: seq<string>)
    requires Valid(t)
    decreases |lines|
  {
    lines != [] && ParseLine(lines[0]).Some? ==>
      var e := ParseLine(lines[0]).value;
      && e.0.0 in t.vocab && e.0.1 in t.vocab && SafeEntry(t, e)
      && SafeLines(WithMerge(t, e.0, e.1), lines[1..])
  }

  lemma FreshIsSound()
    ensures Sound(FreshTable())
  {
  }

  lemma {:induction false} SafeLinesLoadSound(t: Table, lines: seq<string>)
    requires Sound(t) && SafeLines(t, lines)
    ensures Sound(LoadLines(t, lines).0) && LoadLines(t, lines).1 != KeyError
    decreases |lines|
  {
    if lines != [] && ParseLine(lines[0]).Some? {
      var e := ParseLine(lines[0]).value;
      SafeEntryKeepsSound(t, e);
      SafeLinesLoadSound(WithMerge(t, e.0, e.1), lines[1..]);
    }
  }

  /** A tokenizer loaded from a safe file decodes what it encodes. */
  lemma LoadedRoundTrip(file: string, text: seq<Scalar>)
    requires SafeLines(FreshTable(), Lines(file))
    ensures var t := LoadText(file).0;
      var ids := EncodeIds(t.merges.at, Utf8.Encode(text));
      Known(t.vocab, ids) && DecodeIds(t.vocab, ids) == text
  {
    FreshIsSound();
    SafeLinesLoadSound(FreshTable(), Lines(file));
    DecodeUndoesEncode(LoadText(file).0, text);
  }

  // ----- Training from an empty table -----

  ghost predicate VocabBelow(t: Table, bound: int) {
    forall id :: id in t.vocab ==> id < bound
  }

  lemma LearnedIsSound(t: Table, ids: seq<int>, idx: int)
    requires Sound(t) && VocabBelow(t, idx) && Known(t.vocab, ids) && |ids| >= 2
    ensures Sound(Learned(t, ids, idx)) && VocabBelow(Learned(t, ids, idx), idx + 1)
  {
    var best := Best(ids);
    KnownMembers(t.vocab, ids, best.0);
    KnownMembers(t.vocab, ids, best.1);
    assert idx !in t.vocab;
    SafeEntryKeepsSound(t, (best, idx));
  }

  lemma {:induction false} TrainingKeepsSound(t: Table, ids: seq<int>, i: nat, rounds: int)
    requires Sound(t) && VocabBelow(t, 256 + i) && Known(t.vocab, ids)
    ensures Sound(Train(t, ids, i, rounds).0)
    decreases rounds - i
  {
    if i < rounds && |ids| >= 2 {
      LearnedIsSound(t, ids, 256 + i);
      TrainingKeepsSound(Learned(t, ids, 256 + i), Merged(ids, Best(ids), 256 + i), i + 1, rounds);
    }
  }

  lemma BytesKnown(bytes: seq<Byte>)
    ensures Known(FreshTable().vocab, bytes) && IdsBelow(bytes, 256)
  {
  }

  /** The table that training on `text` builds from an empty one, and the ids it ends with. */
  function TrainedOn(text: seq<Scalar>, rounds: int): (Table, seq<int>) {
    BytesKnown(Utf8.Encode(text));
    Train(FreshTable(), Utf8.Encode(text), 0, rounds)
  }

  /** There are `n` merges, and the ids with bytes are the first 256 + `n`. */
  ghost predicate Numbered(t: Table, n: nat) {
    |t.merges.order| == n && forall id :: id in t.vocab <==> 0 <= id < 256 + n
  }

  lemma LearnedIsNumbered(t: Table, ids: seq<int>, n: nat)
    requires Valid(t) && Known(t.vocab, ids) && |ids| >= 2 && Trained(t, ids, n) && Numbered(t, n)
    ensures Numbered(Learned(t, ids, 256 + n), n + 1)
  {
    TrainingStep(t, ids, n);
    assert Best(ids) !in t.merges.at;
  }

  lemma {:induction false} TrainingNumbers(t: Table, ids: seq<int>, i: nat, rounds: nat) returns (n: nat)
    requires Valid(t) && Known(t.vocab, ids) && Trained(t, ids, i) && Numbered(t, i) && i <= rounds
    ensures n <= rounds && Numbered(Train(t, ids, i, rounds).0, n)
    ensures n == rounds || |Train(t, ids, i, rounds).1| < 2
    decreases rounds - i
  {
    n := i;
    if i < rounds && |ids| >= 2 {
      TrainingStep(t, ids, i);
      LearnedIsNumbered(t, ids, i);
      n := TrainingNumbers(Learned(t, ids, 256 + i), Merged(ids, Best(ids), 256 + i), i + 1, rounds);
    }
  }

  /**
   * Training from an empty table numbers the merges from 256 on without a gap: as many as there were rounds, or as it
   * took to shorten the text to a single id.
   */
  lemma TrainedVocabulary(text: seq<Scalar>, rounds: nat)
    ensures var (t, ids) := TrainedOn(text, rounds);
            var n := |t.merges.order|;
            && (forall id :: id in t.vocab <==> 0 <= id < 256 + n)
            && n <= rounds && (n < rounds ==> |ids| < 2)
  {
    BytesKnown(Utf8.Encode(text));
    var n := TrainingNumbers(FreshTable(), Utf8.Encode(text), 0, rounds);
  }

  /** Encoding the training text with the trained table ends with exactly the ids training ended with. */
  lemma EncodeReplaysTraining(text: seq<Scalar>, rounds: int)
    ensures var (t, ids) := TrainedOn(text, rounds); EncodeIds(t.merges.at, Utf8.Encode(text)) == ids
  {
    BytesKnown(Utf8.Encode(text));
    EncodeReplaysRounds(FreshTable(), Utf8.Encode(text), 0, rounds);
  }

  /** A tokenizer trained from scratch decodes what it encodes, whatever it was trained on. */
  lemma TrainedRoundTrip(corpus: seq<Scalar>, rounds: int, text: seq<Scalar>)
    ensures var t := TrainedOn(corpus, rounds).0;
      var ids := EncodeIds(t.merges.at, Utf8.Encode(text));
      Known(t.vocab, ids) && DecodeIds(t.vocab, ids) == text
  {
    BytesKnown(Utf8.Encode(corpus));
    FreshIsSound();
    TrainingKeepsSound(FreshTable(), Utf8.Encode(corpus), 0, rounds);
    DecodeUndoesEncode(TrainedOn(corpus, rounds).0, text);
  }

  /** A tokenizer trained from scratch saves a file that loads back to the same two tables. */
  lemma TrainedReload(corpus: seq<Scalar>, rounds: int)
    ensures var t := TrainedOn(corpus, rounds).0; LoadText(SaveText(Entries(t.merges))) == (t, Done)
  {
    BytesKnown(Utf8.Encode(corpus));
    TrainingReloads(FreshTable(), Utf8.Encode(corpus), 0, rounds);
    SavedTextReloads(TrainedOn(corpus, rounds).0);
  }

  /** A well-formed table results, so that encoding with it is one pass in table order. */
  lemma TrainedIsWellFormed(corpus: seq<Scalar>, rounds: int)
    ensures WellFormed(TrainedOn(corpus, rounds).0.merges.at)
  {
    BytesKnown(Utf8.Encode(corpus));
    TrainingWellFormed(FreshTable(), Utf8.Encode(corpus), 0, rounds);
  }

  lemma {:induction false} TrainingWellFormed(t: Table, ids: seq<int>, i: nat, rounds: int)
    requires Valid(t) && Known(t.vocab, ids) && Trained(t, ids, i) && WellFormed(t.merges.at)
    ensures WellFormed(Train(t, ids, i, rounds).0.merges.at)
    decreases rounds - i
  {
    if i < rounds && |ids| >= 2 {
      TrainingStep(t, ids, i);
      TrainingWellFormed(Learned(t, ids, 256 + i), Merged(ids, Best(ids), 256 + i), i + 1, rounds);
    }
  }

  // ----- Where the promise stops -----

  /** A file with one line loads as its one entry. */
  lemma LoadOneLine(e: Entry)
    requires 0 <= e.0.0 < 256 && 0 <= e.0.1 < 256
    ensures LoadText(LineOf(e) + "\n") == (WithMerge(FreshTable(), e.0, e.1), Done)
  {
    assert SaveText([e]) == LineOf(e) + "\n" by {
      assert [e][1..] == [];
      assert LineOf(e) + "\n" + "" == LineOf(e) + "\n";
    }
    SavedLinesParse([e]);
    LoadParsed(FreshTable(), Lines(SaveText([e])), [e]);
    assert LoadEntries(WithMerge(FreshTable(), e.0, e.1), [e][1..]) == (WithMerge(FreshTable(), e.0, e.1), Done);
  }

  /** A file may redefine a byte: after loading the line `1 2 65` the letter A decodes to two other characters. */
  lemma LoadCanRedefineByte()
    ensures var (t, outcome) := LoadText(LineOf(((1, 2), 65)) + "\n");
      outcome == Done && EncodeIds(t.merges.at, [65]) == [65] && Expand(t.vocab, [65]) == [1, 2]
  {
    LoadOneLine(((1, 2), 65));
    var t := WithMerge(FreshTable(), (1, 2), 65);
    EncodeOne(t.merges.at, 65);
    ExpandOne(t.vocab, 65);
    assert BaseVocab()[1] == [1] && BaseVocab()[2] == [2];
  }

  // ----- What an interrupted load leaves behind -----

  lemma {:induction false} LinesLeaveParts(t: Table, lines: seq<string>)
    requires Valid(t) && PartsKnown(t)
    ensures PartsKnown(LoadLines(t, lines).0) <==> LoadLines(t, lines).1 != KeyError
    decreases |lines|
  {
    if lines != [] && ParseLine(lines[0]).Some? {
      var e := ParseLine(lines[0]).value;
      var (t', outcome) := LoadEntry(t, e);
      if outcome == Done {
        LinesLeaveParts(t', lines[1..]);
      } else {
        assert e.0 in t'.merges.at && t'.merges.at[e.0] == e.1;
      }
    }
  }

  /**
   * After a KeyError, and only then, the tables hold a merge whose parts are not all known: the line that raised has
   * stored its pair and not its bytes.
   */
  lemma InterruptedLoad(text: string)
    ensures PartsKnown(LoadText(text).0) <==> LoadText(text).1 != KeyError
  {
    LinesLeaveParts(FreshTable(), Lines(text));
  }
}
