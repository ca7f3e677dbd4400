/** Where encodings can be cut, and exactly which tables keep which texts. */
module BpeLocality {
  import opened PyData
  import opened Utf8
  import opened Bpe
  import opened BpeFile
  import BpeReload
  import Decimal

  /** No id is stored for two pairs. */
  ghost predicate UniqueIds(merges: map<Pair, int>) {
    forall p, q :: p in merges && q in merges && merges[p] == merges[q] ==> p == q
  }

  // ----- Cutting an encoding of a table without reused ids -----

  lemma {:induction false} PairsOfParts(a: seq<int>, b: seq<int>, q: Pair)
    requires q in Pairs(a) || q in Pairs(b)
    ensures q in Pairs(a + b)
  {
    if a == [] {
      assert a + b == b;
    } else {
      assert (a + b)[1..] == a[1..] + b;
      PairsHead(a, q);
      PairsHead(a + b, q);
      if q in Pairs(a[1..]) || q in Pairs(b) {
        PairsOfParts(a[1..], b, q);
      }
    }
  }

  lemma MergedHead(x: int, a: seq<int>, p: Pair, idx: int)
    requires a != [] ==> (x, a[0]) != p
    ensures Merged([x] + a, p, idx) == [x] + Merged(a, p, idx)
  {
    assert ([x] + a)[1..] == a;
  }

  lemma MergedPair(a: seq<int>, p: Pair, idx: int)
    ensures Merged([p.0, p.1] + a, p, idx) == [idx] + Merged(a, p, idx)
  {
    assert ([p.0, p.1] + a)[2..] == a;
  }

  lemma TailOfConcat(x: int, rest: seq<int>, front: seq<int>, back: seq<int>)
    requires [x] + rest == front + back && front != []
    ensures front == [x] + front[1..] && rest == front[1..] + back
  {
    assert front[0] == (front + back)[0] == x;
    assert rest == ([x] + rest)[1..] == (front + back)[1..];
  }

  lemma GroupHead(x: seq<int>, a: seq<int>, b: seq<int>)
    ensures x + (a + b) == (x + a) + b
  {
  }

  /** A cut of a merged list is a cut of the list. */
  lemma {:induction false} CutBeforeMerge(xs: seq<int>, p: Pair, idx: int, front: seq<int>, back: seq<int>)
    returns (a: seq<int>, b: seq<int>)
    requires Merged(xs, p, idx) == front + back
    ensures xs == a + b && Merged(a, p, idx) == front && Merged(b, p, idx) == back
    decreases |xs|
  {
    if front == [] {
      a, b := [], xs;
      assert front + back == back;
    } else if |xs| >= 2 && xs[0] == p.0 && xs[1] == p.1 {
      TailOfConcat(idx, Merged(xs[2..], p, idx), front, back);
      var a', b' := CutBeforeMerge(xs[2..], p, idx, front[1..], back);
      MergedPair(a', p, idx);
      a, b := [p.0, p.1] + a', b';
      GroupHead([p.0, p.1], a', b');
      assert xs == [p.0, p.1] + xs[2..];
    } else {
      TailOfConcat(xs[0], Merged(xs[1..], p, idx), front, back);
      var a', b' := CutBeforeMerge(xs[1..], p, idx, front[1..], back);
      assert a' != [] ==> a'[0] == xs[1];
      MergedHead(xs[0], a', p, idx);
      a, b := [xs[0]] + a', b';
      GroupHead([xs[0]], a', b');
      assert xs == [xs[0]] + xs[1..];
    }
  }

  /** A round on a list is a round, or none at all, on each of its segments. */
  lemma SegmentStep(merges: map<Pair, int>, xs: seq<int>, segment: seq<int>, p: Pair)
    requires UniqueIds(merges) && NextMerge(merges, xs) == Some(p)
    requires forall q :: q in Pairs(segment) ==> q in Pairs(xs)
    ensures EncodeIds(merges, segment) == EncodeIds(merges, Merged(segment, p, merges[p]))
  {
    if p in Pairs(segment) {
      LowestIsNext(merges, segment, p);
    } else {
      MergedAbsent(segment, p, merges[p]);
    }
  }

  lemma NothingToMerge(merges: map<Pair, int>, xs: seq<int>)
    requires forall q :: q in Pairs(xs) ==> q !in merges
    ensures EncodeIds(merges, xs) == xs
  {
  }

  lemma RoundOnParts(merges: map<Pair, int>, a: seq<int>, b: seq<int>, p: Pair)
    requires UniqueIds(merges) && NextMerge(merges, a + b) == Some(p)
    ensures EncodeIds(merges, a) == EncodeIds(merges, Merged(a, p, merges[p]))
    ensures EncodeIds(merges, b) == EncodeIds(merges, Merged(b, p, merges[p]))
  {
    forall q | q in Pairs(a) || q in Pairs(b)
      ensures q in Pairs(a + b)
    {
      PairsOfParts(a, b, q);
    }
    SegmentStep(merges, a + b, a, p);
    SegmentStep(merges, a + b, b, p);
  }

  /** Wherever an encoding is cut, its two parts are the encodings of two parts of the list. */
  lemma {:induction false} EncodingSplits(merges: map<Pair, int>, xs: seq<int>, front: seq<int>, back: seq<int>)
    returns (a: seq<int>, b: seq<int>)
    requires UniqueIds(merges) && EncodeIds(merges, xs) == front + back
    ensures xs == a + b && EncodeIds(merges, a) == front && EncodeIds(merges, b) == back
    decreases |xs|
  {
    var next := NextMerge(merges, xs);
    if next.None? {
      a, b := front, back;
      forall q | q in Pairs(a) || q in Pairs(b)
        ensures q !in merges
      {
        PairsOfParts(a, b, q);
      }
      NothingToMerge(merges, a);
      NothingToMerge(merges, b);
    } else {
      var p := next.value;
      MergedShortens(xs, p, merges[p]);
      var a', b' := EncodingSplits(merges, Merged(xs, p, merges[p]), front, back);
      a, b := CutBeforeMerge(xs, p, merges[p], a', b');
      RoundOnParts(merges, a, b, p);
    }
  }

  lemma MergedNonEmpty(xs: seq<int>, p: Pair, idx: int)
    requires xs != []
    ensures Merged(xs, p, idx) != []
  {
  }

  /** A list that shrinks to one id in one round is the merged pair. */
  lemma MergedToOne(xs: seq<int>, p: Pair, idx: int)
    requires p in Pairs(xs) && |Merged(xs, p, idx)| == 1
    ensures xs == [p.0, p.1]
  {
    PairsHead(xs, p);
    MergedNonEmpty(xs[1..], p, idx);
    assert xs[2..] == [];
  }

  /** A list that encodes to one id is made of two parts that encode to the two parts of that id's entry. */
  lemma {:induction false} LastMerge(merges: map<Pair, int>, xs: seq<int>) returns (p: Pair, a: seq<int>, b: seq<int>)
    requires UniqueIds(merges) && |xs| >= 2 && |EncodeIds(merges, xs)| == 1
    ensures p in merges && EncodeIds(merges, xs) == [merges[p]]
    ensures xs == a + b && a != [] && b != [] && EncodeIds(merges, a) == [p.0] && EncodeIds(merges, b) == [p.1]
    decreases |xs|
  {
    var q := NextMerge(merges, xs).value;
    var ys := Merged(xs, q, merges[q]);
    MergedShortens(xs, q, merges[q]);
    if |ys| == 1 {
      MergedToOne(xs, q, merges[q]);
      p, a, b := q, [q.0], [q.1];
      EncodePair(merges, q);
      EncodeOne(merges, q.0);
      EncodeOne(merges, q.1);
    } else {
      assert ys != [];
      var a', b';
      p, a', b' := LastMerge(merges, ys);
      a, b := CutBeforeMerge(xs, q, merges[q], a', b');
      RoundOnParts(merges, a, b, q);
    }
  }

  lemma {:induction false} EncodingNonEmpty(merges: map<Pair, int>, xs: seq<int>)
    requires xs != []
    ensures EncodeIds(merges, xs) != []
    decreases |xs|
  {
    var next := NextMerge(merges, xs);
    if next.Some? {
      var p := next.value;
      MergedShortens(xs, p, merges[p]);
      EncodingNonEmpty(merges, Merged(xs, p, merges[p]));
    }
  }

  // ----- The lists that encoding passes through -----

  /** Encoding `xs` passes through `ys`. */
  ghost predicate Stage(merges: map<Pair, int>, xs: seq<int>, ys: seq<int>)
    decreases |xs|
  {
    xs == ys ||
    match NextMerge(merges, xs)
    case None => false
    case Some(p) =>
      MergedShortens(xs, p, merges[p]);
      Stage(merges, Merged(xs, p, merges[p]), ys)
  }

  lemma {:induction false} StageEncodes(merges: map<Pair, int>, xs: seq<int>, ys: seq<int>)
    requires Stage(merges, xs, ys)
    ensures EncodeIds(merges, xs) == EncodeIds(merges, ys)
    decreases |xs|
  {
    if xs != ys {
      var p := NextMerge(merges, xs).value;
      MergedShortens(xs, p, merges[p]);
      StageEncodes(merges, Merged(xs, p, merges[p]), ys);
    }
  }

  lemma {:induction false} StageRound(merges: map<Pair, int>, xs: seq<int>, ys: seq<int>, p: Pair)
    requires Stage(merges, xs, ys) && NextMerge(merges, ys) == Some(p)
    ensures Stage(merges, xs, Merged(ys, p, merges[p]))
    decreases |xs|
  {
    var q := NextMerge(merges, xs).value;
    MergedShortens(xs, q, merges[q]);
    if xs == ys {
      assert Stage(merges, Merged(xs, p, merges[p]), Merged(ys, p, merges[p]));
    } else {
      StageRound(merges, Merged(xs, q, merges[q]), ys, p);
    }
  }

  lemma {:induction false} StageShrinks(merges: map<Pair, int>, xs: seq<int>, ys: seq<int>)
    requires Stage(merges, xs, ys)
    ensures xs == ys || |ys| < |xs|
    decreases |xs|
  {
    if xs != ys {
      var p := NextMerge(merges, xs).value;
      MergedShortens(xs, p, merges[p]);
      StageShrinks(merges, Merged(xs, p, merges[p]), ys);
    }
  }

  /** Encoding passes through one list of each length at most. */
  lemma {:induction false} StagesAgree(merges: map<Pair, int>, xs: seq<int>, ys: seq<int>, zs: seq<int>)
    requires Stage(merges, xs, ys) && Stage(merges, xs, zs) && |ys| == |zs|
    ensures ys == zs
    decreases |xs|
  {
    StageShrinks(merges, xs, ys);
    StageShrinks(merges, xs, zs);
    if xs != ys {
      var p := NextMerge(merges, xs).value;
      MergedShortens(xs, p, merges[p]);
      StagesAgree(merges, Merged(xs, p, merges[p]), ys, zs);
    }
  }

  // ----- One trial per entry -----

  /** The ids stand for these bytes. */
  ghost predicate Means(vocab: map<int, seq<Byte>>, ids: seq<int>, bytes: seq<Byte>) {
    Known(vocab, ids) && Expand(vocab, ids) == bytes
  }

  /** Encoding these bytes keeps them. */
  ghost predicate Restores(t: Table, bytes: seq<Byte>) {
    Means(t.vocab, EncodeIds(t.merges.at, bytes), bytes)
  }

  /** With each list, its segments are in the language. */
  ghost predicate SegmentClosed(language: seq<Byte> -> bool) {
    forall bytes: seq<Byte>, i: nat, j: nat {:trigger language(bytes[i..j])} ::
      i <= j <= |bytes| && language(bytes) ==> language(bytes[i..j])
  }

  /** The bytes that occur in the language stand for themselves. */
  ghost predicate Intact(t: Table, language: seq<Byte> -> bool) {
    forall b: Byte :: language([b]) ==> b in t.vocab && t.vocab[b] == [b]
  }

  /** `p` is an entry whose parts together stand for bytes of the language. */
  predicate Spells(t: Table, language: seq<Byte> -> bool, p: Pair) {
    p in t.merges.at && p.0 in t.vocab && p.1 in t.vocab && language(t.vocab[p.0] + t.vocab[p.1])
  }

  /** The bytes of each entry's two parts are kept: one trial per entry of the table. */
  ghost predicate EntriesRestore(t: Table, language: seq<Byte> -> bool) {
    forall p {:trigger Spells(t, language, p)} :: Spells(t, language, p) ==> Restores(t, t.vocab[p.0] + t.vocab[p.1])
  }

  datatype Trial = Trial(t: Table, language: seq<Byte> -> bool) {
    ghost predicate Passed() {
      SegmentClosed(language) && Intact(t, language) && EntriesRestore(t, language)
    }
  }

  /** A table that has passed its trials over a language. */
  type Passed = c: Trial | c.Passed() ghost witness Trial(FreshTable(), bytes => false)

  /** Encoding the bytes that the ids stand for passes through the ids. */
  ghost predicate Own(c: Passed, ids: seq<int>) {
    && Known(c.t.vocab, ids)
    && c.language(Expand(c.t.vocab, ids))
    && Stage(c.t.merges.at, Expand(c.t.vocab, ids), ids)
  }

  /** Every segment is a list that encoding the segment's own bytes passes through. */
  ghost predicate Local(c: Passed, ids: seq<int>) {
    forall i: nat, j: nat :: i <= j <= |ids| ==> Own(c, ids[i..j])
  }

  lemma SegmentIn(c: Passed, bytes: seq<Byte>, i: nat, j: nat)
    requires c.language(bytes) && i <= j <= |bytes|
    ensures c.language(bytes[i..j])
  {
    assert c.Passed();
  }

  lemma ByteIntact(c: Passed, b: Byte)
    requires c.language([b])
    ensures b in c.t.vocab && c.t.vocab[b] == [b]
  {
    assert c.Passed();
  }

  lemma EntryRestores(c: Passed, p: Pair)
    requires Spells(c.t, c.language, p)
    ensures Restores(c.t, c.t.vocab[p.0] + c.t.vocab[p.1])
  {
    assert c.Passed();
  }

  lemma {:induction false} BytesStand(c: Passed, bytes: seq<Byte>)
    requires c.language(bytes)
    ensures Means(c.t.vocab, bytes, bytes)
  {
    if bytes != [] {
      SegmentIn(c, bytes, 0, 1);
      SegmentIn(c, bytes, 1, |bytes|);
      assert bytes[0..1] == [bytes[0]];
      ByteIntact(c, bytes[0]);
      assert bytes[1..|bytes|] == bytes[1..];
      BytesStand(c, bytes[1..]);
      assert bytes == [bytes[0]] + bytes[1..];
    }
  }

  lemma BytesAreLocal(c: Passed, bytes: seq<Byte>)
    requires c.language(bytes)
    ensures Local(c, bytes)
  {
    forall i: nat, j: nat | i <= j <= |bytes|
      ensures Own(c, bytes[i..j])
    {
      SegmentIn(c, bytes, i, j);
      BytesStand(c, bytes[i..j]);
    }
  }

  // ----- A round keeps lists local -----

  lemma PairOwn(c: Passed, ids: seq<int>, q: Pair)
    requires Local(c, ids) && q in Pairs(ids)
    ensures Own(c, [q.0, q.1])
  {
    var k :| 0 <= k < |Pairs(ids)| && Pairs(ids)[k] == q;
    PairsAt(ids, k);
    assert ids[k..k + 2] == [q.0, q.1];
  }

  lemma OwnPair(c: Passed, q: Pair)
    requires Own(c, [q.0, q.1])
    ensures q.0 in c.t.vocab && q.1 in c.t.vocab
    ensures var bytes := c.t.vocab[q.0] + c.t.vocab[q.1];
            c.language(bytes) && Stage(c.t.merges.at, bytes, [q.0, q.1])
  {
    assert [q.0, q.1][0] in c.t.vocab && [q.0, q.1][1] in c.t.vocab;
    ExpandTwo(c.t.vocab, q);
  }

  /** The id of an entry that may apply stands for the bytes of its two parts. */
  lemma OwnEntry(c: Passed, q: Pair)
    requires Own(c, [q.0, q.1]) && q in c.t.merges.at
    ensures q.0 in c.t.vocab && q.1 in c.t.vocab && c.t.merges.at[q] in c.t.vocab
    ensures c.t.vocab[c.t.merges.at[q]] == c.t.vocab[q.0] + c.t.vocab[q.1]
  {
    OwnPair(c, q);
    StageEncodes(c.t.merges.at, c.t.vocab[q.0] + c.t.vocab[q.1], [q.0, q.1]);
    EncodePair(c.t.merges.at, q);
    EntryRestores(c, q);
    assert [c.t.merges.at[q]][0] in c.t.vocab;
    ExpandOne(c.t.vocab, c.t.merges.at[q]);
  }

  /** Two entries that may apply never share their id. */
  lemma OwnEntriesDiffer(c: Passed, q: Pair, r: Pair)
    requires Own(c, [q.0, q.1]) && q in c.t.merges.at
    requires Own(c, [r.0, r.1]) && r in c.t.merges.at
    requires c.t.merges.at[q] == c.t.merges.at[r]
    ensures q == r
  {
    OwnPair(c, q);
    OwnPair(c, r);
    OwnEntry(c, q);
    OwnEntry(c, r);
    StagesAgree(c.t.merges.at, c.t.vocab[q.0] + c.t.vocab[q.1], [q.0, q.1], [r.0, r.1]);
    assert [q.0, q.1][0] == [r.0, r.1][0] && [q.0, q.1][1] == [r.0, r.1][1];
  }

  /** In a local list a round has no tie to break. */
  lemma NoTies(c: Passed, ids: seq<int>, p: Pair)
    requires Local(c, ids) && NextMerge(c.t.merges.at, ids) == Some(p)
    ensures forall q :: q in Pairs(ids) && q in c.t.merges.at && q != p ==> c.t.merges.at[p] < c.t.merges.at[q]
  {
    forall q | q in Pairs(ids) && q in c.t.merges.at && q != p
      ensures c.t.merges.at[p] < c.t.merges.at[q]
    {
      PairOwn(c, ids, p);
      PairOwn(c, ids, q);
      if c.t.merges.at[q] == c.t.merges.at[p] {
        OwnEntriesDiffer(c, p, q);
      }
    }
  }

  /** A merge keeps the bytes when its own entry stands for its parts. */
  lemma {:induction false} EntryKeepsBytes(vocab: map<int, seq<Byte>>, ids: seq<int>, p: Pair, idx: int)
    requires p.0 in vocab && p.1 in vocab && idx in vocab && vocab[idx] == vocab[p.0] + vocab[p.1] && Known(vocab, ids)
    ensures Means(vocab, Merged(ids, p, idx), Expand(vocab, ids))
    decreases |ids|
  {
    var t := Table(Dict([p], map[p := idx]), vocab);
    MergeKeepsBytes(t, ids, p);
  }

  lemma PairsOfMiddle(a: seq<int>, b: seq<int>, c: seq<int>, q: Pair)
    requires q in Pairs(b)
    ensures q in Pairs(a + (b + c))
  {
    PairsOfParts(b, c, q);
    PairsOfParts(a, b + c, q);
  }

  lemma CutOut<T>(s: seq<T>, i: nat, j: nat)
    requires i <= j <= |s|
    ensures s == s[..i] + (s[i..j] + s[j..])
  {
  }

  lemma SegmentPairs(ids: seq<int>, i: nat, j: nat, q: Pair)
    requires i <= j <= |ids| && q in Pairs(ids[i..j])
    ensures q in Pairs(ids)
  {
    PairsOfMiddle(ids[..i], ids[i..j], ids[j..], q);
    CutOut(ids, i, j);
  }

  lemma SegmentRound(c: Passed, ids: seq<int>, p: Pair, i: nat, j: nat)
    requires Local(c, ids) && NextMerge(c.t.merges.at, ids) == Some(p) && i <= j <= |ids|
    ensures Own(c, Merged(ids[i..j], p, c.t.merges.at[p]))
  {
    var merges, segment := c.t.merges.at, ids[i..j];
    PairOwn(c, ids, p);
    OwnEntry(c, p);
    assert Own(c, segment);
    EntryKeepsBytes(c.t.vocab, segment, p, merges[p]);
    if p in Pairs(segment) {
      NoTies(c, ids, p);
      forall q | q in Pairs(segment)
        ensures q in Pairs(ids)
      {
        SegmentPairs(ids, i, j, q);
      }
      LowestIsNext(merges, segment, p);
      StageRound(merges, Expand(c.t.vocab, segment), segment, p);
    } else {
      MergedAbsent(segment, p, merges[p]);
    }
  }

  /** A segment of a merged list is a merged segment. */
  lemma SegmentBeforeMerge(ids: seq<int>, p: Pair, idx: int, i: nat, j: nat) returns (k: nat, l: nat)
    requires i <= j <= |Merged(ids, p, idx)|
    ensures k <= l <= |ids| && Merged(ids[k..l], p, idx) == Merged(ids, p, idx)[i..j]
  {
    var out := Merged(ids, p, idx);
    assert out == out[..j] + out[j..];
    var front, back := CutBeforeMerge(ids, p, idx, out[..j], out[j..]);
    assert out[..j] == out[..i] + out[i..j];
    var a, b := CutBeforeMerge(front, p, idx, out[..i], out[i..j]);
    k, l := |a|, |front|;
    assert ids[k..l] == b;
  }

  lemma LocalRound(c: Passed, ids: seq<int>, p: Pair)
    requires Local(c, ids) && NextMerge(c.t.merges.at, ids) == Some(p)
    ensures Local(c, Merged(ids, p, c.t.merges.at[p]))
    ensures Known(c.t.vocab, ids) && Means(c.t.vocab, Merged(ids, p, c.t.merges.at[p]), Expand(c.t.vocab, ids))
  {
    var out := Merged(ids, p, c.t.merges.at[p]);
    forall i: nat, j: nat | i <= j <= |out|
      ensures Own(c, out[i..j])
    {
      var k, l := SegmentBeforeMerge(ids, p, c.t.merges.at[p], i, j);
      SegmentRound(c, ids, p, k, l);
    }
    assert ids[0..|ids|] == ids;
    PairOwn(c, ids, p);
    OwnEntry(c, p);
    EntryKeepsBytes(c.t.vocab, ids, p, c.t.merges.at[p]);
  }

  lemma {:induction false} LocalEncoding(c: Passed, ids: seq<int>)
    requires Local(c, ids)
    ensures Local(c, EncodeIds(c.t.merges.at, ids))
    ensures Known(c.t.vocab, ids) && Means(c.t.vocab, EncodeIds(c.t.merges.at, ids), Expand(c.t.vocab, ids))
    decreases |ids|
  {
    assert ids[0..|ids|] == ids;
    var next := NextMerge(c.t.merges.at, ids);
    if next.Some? {
      var p := next.value;
      MergedShortens(ids, p, c.t.merges.at[p]);
      LocalRound(c, ids, p);
      LocalEncoding(c, Merged(ids, p, c.t.merges.at[p]));
    }
  }

  lemma AllRestored(c: Passed, bytes: seq<Byte>)
    requires c.language(bytes)
    ensures Restores(c.t, bytes)
  {
    BytesAreLocal(c, bytes);
    BytesStand(c, bytes);
    LocalEncoding(c, bytes);
  }

  // ----- Exactly when encoding keeps the bytes -----

  /** Encoding keeps all of the language. */
  ghost predicate KeepsLanguage(t: Table, language: seq<Byte> -> bool) {
    forall bytes: seq<Byte> :: language(bytes) ==> Restores(t, bytes)
  }

  /**
   * Encoding keeps all byte lists of a language exactly when the language's bytes are intact and the bytes of each
   * entry's two parts are kept, for every table.
   */
  lemma RestoresIffEntriesDo(t: Table, language: seq<Byte> -> bool)
    requires SegmentClosed(language)
    ensures KeepsLanguage(t, language) <==> Intact(t, language) && EntriesRestore(t, language)
  {
    if KeepsLanguage(t, language) {
      forall b: Byte | language([b])
        ensures b in t.vocab && t.vocab[b] == [b]
      {
        assert Restores(t, [b]);
        EncodeOne(t.merges.at, b);
        assert [b][0] in t.vocab;
        ExpandOne(t.vocab, b);
      }
    }
    if Intact(t, language) && EntriesRestore(t, language) {
      forall bytes: seq<Byte> | language(bytes)
        ensures Restores(t, bytes)
      {
        AllRestored(Trial(t, language), bytes);
      }
    }
  }

  /** Then every segment of an encoding is the encoding of the bytes that it stands for. */
  lemma SegmentsEncodeTheirBytes(t: Table, language: seq<Byte> -> bool, bytes: seq<Byte>, i: nat, j: nat)
    requires SegmentClosed(language) && Intact(t, language) && EntriesRestore(t, language) && language(bytes)
    requires i <= j <= |EncodeIds(t.merges.at, bytes)|
    ensures var segment := EncodeIds(t.merges.at, bytes)[i..j];
            Known(t.vocab, segment) && EncodeIds(t.merges.at, Expand(t.vocab, segment)) == segment
  {
    var c: Passed, ids := Trial(t, language), EncodeIds(t.merges.at, bytes);
    BytesAreLocal(c, bytes);
    LocalEncoding(c, bytes);
    assert Own(c, ids[i..j]);
    StageEncodes(t.merges.at, Expand(t.vocab, ids[i..j]), ids[i..j]);
    EncodeLeavesNothing(t.merges.at, bytes);
    forall q | q in Pairs(ids[i..j])
      ensures q !in t.merges.at
    {
      SegmentPairs(ids, i, j, q);
    }
    NothingToMerge(t.merges.at, ids[i..j]);
  }

  // ----- Exactly when decoding undoes encoding -----

  /** `decode(encode(text)) == text` */
  ghost predicate RoundTrips(t: Table, text: seq<Scalar>) {
    var ids := EncodeIds(t.merges.at, Utf8.Encode(text));
    Known(t.vocab, ids) && DecodeIds(t.vocab, ids) == text
  }

  predicate IsAscii(bytes: seq<Byte>) {
    forall i :: 0 <= i < |bytes| ==> bytes[i] < 0x80
  }

  function AsciiTexts(): seq<Byte> -> bool {
    (bytes: seq<Byte>) => IsAscii(bytes)
  }

  /** An ASCII text decodes back exactly when its bytes are kept. */
  lemma AsciiRoundTrip(t: Table, bytes: seq<Byte>)
    requires IsAscii(bytes)
    ensures RoundTrips(t, bytes) <==> Restores(t, bytes)
  {
    EncodeAscii(bytes);
    Utf8.DecodeUndoesEncode(bytes);
    var ids := EncodeIds(t.merges.at, bytes);
    if Known(t.vocab, ids) && DecodeIds(t.vocab, ids) == bytes {
      DecodedAscii(Expand(t.vocab, ids));
    }
  }

  /** Each entry whose parts stand for ASCII text decodes back: one trial per entry of the table. */
  ghost predicate EntriesRoundTrip(t: Table) {
    forall p {:trigger Spells(t, AsciiTexts(), p)} ::
      Spells(t, AsciiTexts(), p) ==> RoundTrips(t, t.vocab[p.0] + t.vocab[p.1])
  }

  lemma AsciiEntries(t: Table)
    ensures EntriesRoundTrip(t) <==> EntriesRestore(t, AsciiTexts())
  {
    forall p | Spells(t, AsciiTexts(), p)
      ensures RoundTrips(t, t.vocab[p.0] + t.vocab[p.1]) <==> Restores(t, t.vocab[p.0] + t.vocab[p.1])
    {
      AsciiRoundTrip(t, t.vocab[p.0] + t.vocab[p.1]);
    }
  }

  /** Every ASCII text decodes back. */
  ghost predicate KeepsAscii(t: Table) {
    forall text: seq<Byte> :: IsAscii(text) ==> RoundTrips(t, text)
  }

  lemma AsciiTextsAlike(t: Table)
    ensures KeepsAscii(t) <==> KeepsLanguage(t, AsciiTexts())
  {
    forall text: seq<Byte> | IsAscii(text)
      ensures RoundTrips(t, text) <==> Restores(t, text)
    {
      AsciiRoundTrip(t, text);
    }
  }

  /**
   * Every ASCII text decodes back exactly when the ASCII bytes are intact and the text of each entry's parts decodes
   * back, for every table.
   */
  lemma AsciiTextsIff(t: Table)
    ensures KeepsAscii(t) <==> Intact(t, AsciiTexts()) && EntriesRoundTrip(t)
  {
    AsciiTextsAlike(t);
    AsciiEntries(t);
    RestoresIffEntriesDo(t, AsciiTexts());
  }

  /** The bytes are a piece of a text's encoding, possibly cut within a character. */
  ghost predicate InText(bytes: seq<Byte>) {
    exists text: seq<Scalar>, i: nat, j: nat :: i <= j <= |Utf8.Encode(text)| && Utf8.Encode(text)[i..j] == bytes
  }

  ghost function PiecesOfTexts(): seq<Byte> -> bool {
    (bytes: seq<Byte>) => InText(bytes)
  }

  lemma SliceOfSlice<T>(s: seq<T>, k: nat, l: nat, i: nat, j: nat)
    requires k <= l <= |s| && i <= j <= l - k
    ensures s[k + i..k + j] == s[k..l][i..j]
  {
    assert s[k..l][..j] == s[k..k + j];
    assert s[k..k + j][i..] == s[k + i..k + j];
  }

  lemma PieceOfPiece(bytes: seq<Byte>, i: nat, j: nat)
    requires i <= j <= |bytes| && InText(bytes)
    ensures InText(bytes[i..j])
  {
    var text: seq<Scalar>, k: nat, l: nat :| k <= l <= |Utf8.Encode(text)| && Utf8.Encode(text)[k..l] == bytes;
    SliceOfSlice(Utf8.Encode(text), k, l, i, j);
  }

  lemma PiecesAreClosed()
    ensures SegmentClosed(PiecesOfTexts())
  {
    forall bytes: seq<Byte>, i: nat, j: nat | i <= j <= |bytes| && InText(bytes)
      ensures InText(bytes[i..j])
    {
      PieceOfPiece(bytes, i, j);
    }
  }

  /** Trying the entries that spell a piece of some text decides for all pieces of texts, ASCII or not. */
  lemma PiecesIff(t: Table)
    ensures KeepsLanguage(t, PiecesOfTexts()) <==> Intact(t, PiecesOfTexts()) && EntriesRestore(t, PiecesOfTexts())
  {
    PiecesAreClosed();
    RestoresIffEntriesDo(t, PiecesOfTexts());
  }

  /** Then every text decodes back. */
  lemma AllTextsRoundTrip(t: Table, text: seq<Scalar>)
    requires Intact(t, PiecesOfTexts()) && EntriesRestore(t, PiecesOfTexts())
    ensures RoundTrips(t, text)
  {
    var bytes := Utf8.Encode(text);
    assert bytes[0..|bytes|] == bytes;
    assert InText(bytes);
    PiecesAreClosed();
    AllRestored(Trial(t, PiecesOfTexts()), bytes);
    Utf8.DecodeUndoesEncode(text);
  }

  // ----- What single letters and pairs need -----

  lemma OneMeans(vocab: map<int, seq<Byte>>, id: int, bytes: seq<Byte>)
    ensures Means(vocab, [id], bytes) <==> id in vocab && vocab[id] == bytes
  {
    assert [id][0] == id;
    if id in vocab {
      ExpandOne(vocab, id);
    }
  }

  /** An ASCII letter decodes back exactly when its byte id is intact. */
  lemma LetterNeedsItsByte(t: Table, b: Byte)
    requires b < 0x80
    ensures RoundTrips(t, [b]) <==> b in t.vocab && t.vocab[b] == [b]
  {
    AsciiRoundTrip(t, [b]);
    EncodeOne(t.merges.at, b);
    OneMeans(t.vocab, b, [b]);
  }

  /** The two letters of an entry decode back exactly when the entry's id stands for them. */
  lemma PairNeedsItsBytes(t: Table, a: Byte, b: Byte)
    requires a < 0x80 && b < 0x80 && (a, b) in t.merges.at
    ensures var id := t.merges.at[(a, b)];
            RoundTrips(t, [a, b]) <==> id in t.vocab && t.vocab[id] == [a, b]
  {
    AsciiRoundTrip(t, [a, b]);
    EncodePair(t.merges.at, (a, b));
    OneMeans(t.vocab, t.merges.at[(a, b)], [a, b]);
  }

  /** A file of two lines whose parts are bytes loads as its two entries. */
  lemma LoadTwoLines(a: Pair, b: Pair, idx: int)
    requires 0 <= a.0 < 256 && 0 <= a.1 < 256 && 0 <= b.0 < 256 && 0 <= b.1 < 256
    ensures LoadText(SaveText([(a, idx)] + ([(b, idx)] + []))) == (WithMerge(WithMerge(FreshTable(), a, idx), b, idx), Done)
  {
    var es := [(a, idx)] + ([(b, idx)] + []);
    SavedLinesParse(es);
    LoadParsed(FreshTable(), Decimal.Lines(SaveText(es)), es);
    BpeReload.LoadCons(FreshTable(), (a, idx), [(b, idx)] + []);
    BpeReload.LoadCons(WithMerge(FreshTable(), a, idx), (b, idx), []);
  }

  lemma SharedIdTable(a: Pair, b: Pair, idx: int)
    requires 0 <= a.0 < 256 && 0 <= a.1 < 256 && 0 <= b.0 < 256 && 0 <= b.1 < 256 && a != b && !(0 <= idx < 256)
    ensures var t := WithMerge(WithMerge(FreshTable(), a, idx), b, idx);
            a in t.merges.at && t.merges.at[a] == idx && idx in t.vocab && t.vocab[idx] == [b.0, b.1]
  {
    assert BaseVocab()[b.0] == [b.0] && BaseVocab()[b.1] == [b.1];
  }

  /**
   * Two byte pairs stored under one id: a file may do it, and then the text of the first pair decodes to that of the
   * second.
   */
  lemma SharedIdLosesText(a: Pair, b: Pair, idx: int)
    requires 0 <= a.0 < 0x80 && 0 <= a.1 < 0x80 && 0 <= b.0 < 256 && 0 <= b.1 < 256 && a != b && !(0 <= idx < 256)
    ensures var (t, outcome) := LoadText(SaveText([(a, idx)] + ([(b, idx)] + [])));
            && outcome == Done && EncodeIds(t.merges.at, [a.0, a.1]) == [idx]
            && idx in t.vocab && t.vocab[idx] == [b.0, b.1] && !RoundTrips(t, [a.0, a.1])
  {
    LoadTwoLines(a, b, idx);
    var t := WithMerge(WithMerge(FreshTable(), a, idx), b, idx);
    SharedIdTable(a, b, idx);
    EncodePair(t.merges.at, a);
    PairNeedsItsBytes(t, a.0, a.1);
  }
}
