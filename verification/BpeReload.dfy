/** Which loaded files survive being saved and loaded again. */
module BpeReload {
  import opened PyData
  import opened Utf8
  import opened Bpe
  import opened BpeFile
  import opened Decimal

  // ----- The entries of a file -----

  /** The entries of all lines; `None` when some line is malformed. */
  function EntriesIn(lines: seq<string>): Option<seq<Entry>> {
    if lines == [] then Some([]) else
      var first, others := ParseLine(lines[0]), EntriesIn(lines[1..]);
      if first.None? || others.None? then None else Some([first.value] + others.value)
  }

  lemma {:induction false} DoneReadsEntries(t: Table, lines: seq<string>)
    requires Valid(t) && LoadLines(t, lines).1 == Done
    ensures EntriesIn(lines).Some? && LoadLines(t, lines) == LoadEntries(t, EntriesIn(lines).value)
    decreases |lines|
  {
    if lines != [] {
      var e := ParseLine(lines[0]).value;
      DoneReadsEntries(LoadEntry(t, e).0, lines[1..]);
      assert ([e] + EntriesIn(lines[1..]).value)[1..] == EntriesIn(lines[1..]).value;
    }
  }

  /** The entries of a file that loads without an error. */
  function EntriesOf(text: string): seq<Entry>
    requires LoadText(text).1 == Done
  {
    DoneReadsEntries(FreshTable(), Lines(text));
    EntriesIn(Lines(text)).value
  }

  predicate Loads(es: seq<Entry>) {
    LoadEntries(FreshTable(), es).1 == Done
  }

  function Loaded(es: seq<Entry>): (t: Table)
    ensures Valid(t)
  {
    LoadEntries(FreshTable(), es).0
  }

  lemma LoadCons(t: Table, e: Entry, rest: seq<Entry>)
    requires Valid(t)
    ensures LoadEntries(t, [e] + rest) ==
            if LoadEntry(t, e).1 == Done then LoadEntries(LoadEntry(t, e).0, rest) else LoadEntry(t, e)
  {
    assert ([e] + rest)[1..] == rest;
  }

  lemma {:induction false} LoadFront(t: Table, es: seq<Entry>)
    requires Valid(t) && es != [] && LoadEntries(t, es).1 == Done
    ensures LoadEntries(t, es[..|es| - 1]).1 == Done
    decreases |es|
  {
    if |es| > 1 {
      var e, rest := es[0], es[1..];
      assert es == [e] + rest && es[..|es| - 1] == [e] + rest[..|rest| - 1];
      LoadCons(t, e, rest);
      LoadCons(t, e, rest[..|rest| - 1]);
      LoadFront(LoadEntry(t, e).0, rest);
    }
  }

  /** The last line of a file meets the table of the lines before it. */
  lemma LoadLast(es: seq<Entry>)
    requires es != [] && Loads(es)
    ensures var n := |es| - 1;
            && Loads(es[..n]) && es[n].0.0 in Loaded(es[..n]).vocab && es[n].0.1 in Loaded(es[..n]).vocab
            && Loaded(es) == WithMerge(Loaded(es[..n]), es[n].0, es[n].1)
  {
    var n := |es| - 1;
    LoadFront(FreshTable(), es);
    LoadEntriesSnoc(FreshTable(), es[..n], es[n]);
    assert es[..n] + [es[n]] == es;
  }

  // ----- Files that repeat no pair -----

  predicate PairsDiffer(es: seq<Entry>) {
    forall i, j :: 0 <= i < j < |es| ==> es[i].0 != es[j].0
  }

  /** The table holds what some line says, and everything that a line names. */
  ghost predicate Reflects(t: Table, es: seq<Entry>) {
    && (forall p :: p in t.merges.at ==> (p, t.merges.at[p]) in es)
    && (forall e :: e in es ==> e.0 in t.merges.at && e.1 in t.vocab)
    && (forall id :: id in t.vocab ==> 0 <= id < 256 || exists e :: e in es && e.1 == id)
  }

  lemma InLast(es: seq<Entry>, n: nat, e: Entry)
    requires |es| == n + 1
    ensures e in es <==> e in es[..n] || e == es[n]
  {
    assert es == es[..n] + [es[n]];
  }

  lemma ReflectsSnoc(t: Table, es: seq<Entry>, n: nat)
    requires |es| == n + 1 && Valid(t) && Reflects(t, es[..n]) && es[n].0.0 in t.vocab && es[n].0.1 in t.vocab
    ensures Reflects(WithMerge(t, es[n].0, es[n].1), es)
  {
    var e, t' := es[n], WithMerge(t, es[n].0, es[n].1);
    forall p | p in t'.merges.at
      ensures (p, t'.merges.at[p]) in es
    {
      InLast(es, n, (p, t'.merges.at[p]));
    }
    forall e' | e' in es
      ensures e'.0 in t'.merges.at && e'.1 in t'.vocab
    {
      InLast(es, n, e');
    }
    forall id | id in t'.vocab
      ensures 0 <= id < 256 || exists e' :: e' in es && e'.1 == id
    {
      if id == e.1 {
        InLast(es, n, e);
      } else if !(0 <= id < 256) {
        var e' :| e' in es[..n] && e'.1 == id;
        InLast(es, n, e');
      }
    }
  }

  lemma {:induction false} LoadedReflects(es: seq<Entry>)
    requires Loads(es)
    ensures Reflects(Loaded(es), es)
  {
    if es != [] {
      var n := |es| - 1;
      LoadLast(es);
      LoadedReflects(es[..n]);
      ReflectsSnoc(Loaded(es[..n]), es, n);
    }
  }

  lemma PairIsNew(es: seq<Entry>, t: Table, p: Pair)
    requires Reflects(t, es) && forall i :: 0 <= i < |es| ==> es[i].0 != p
    ensures p !in t.merges.at
  {
  }

  lemma NewOnLoading(es: seq<Entry>, p: Pair)
    requires Loads(es) && forall i :: 0 <= i < |es| ==> es[i].0 != p
    ensures p !in Loaded(es).merges.at
  {
    LoadedReflects(es);
    PairIsNew(es, Loaded(es), p);
  }

  lemma DifferSplits(es: seq<Entry>, n: nat)
    requires n < |es| && PairsDiffer(es)
    ensures PairsDiffer(es[..n]) && forall i :: 0 <= i < n ==> es[..n][i].0 != es[n].0
  {
  }

  lemma EntriesOfLast(es: seq<Entry>, n: nat)
    requires |es| == n + 1 && Loads(es[..n]) && Entries(Loaded(es[..n]).merges) == es[..n]
    requires forall i :: 0 <= i < n ==> es[..n][i].0 != es[n].0
    ensures Entries(Loaded(es[..n]).merges.Put(es[n].0, es[n].1)) == es
  {
    NewOnLoading(es[..n], es[n].0);
    EntriesAfterPut(Loaded(es[..n]).merges, es[n].0, es[n].1);
    assert es[..n] + [es[n]] == es;
  }

  lemma {:induction false} EntriesOfLoaded(es: seq<Entry>)
    requires Loads(es) && PairsDiffer(es)
    ensures Entries(Loaded(es).merges) == es
  {
    if es != [] {
      var n := |es| - 1;
      LoadLast(es);
      DifferSplits(es, n);
      EntriesOfLoaded(es[..n]);
      EntriesOfLast(es, n);
    }
  }

  /** Saving what a file loads to and loading that again gives back both tables, if the file repeats no pair. */
  lemma LoadUndoesSave(text: string)
    requires LoadText(text).1 == Done && PairsDiffer(EntriesOf(text))
    ensures var t := LoadText(text).0; LoadText(SaveText(Entries(t.merges))) == (t, Done)
  {
    var es := EntriesOf(text);
    DoneReadsEntries(FreshTable(), Lines(text));
    EntriesOfLoaded(es);
    SavedTextReloads(Loaded(es));
  }

  // ----- Files that repeat pairs -----

  /** Ids are no byte ids, and none is given to two pairs. */
  predicate IdsAreOwn(es: seq<Entry>) {
    && (forall i :: 0 <= i < |es| ==> !(0 <= es[i].1 < 256))
    && forall i, j :: 0 <= i < |es| && 0 <= j < |es| && es[i].1 == es[j].1 ==> es[i].0 == es[j].0
  }

  /** Repeated pairs repeat their id. */
  predicate PairsKeepIds(es: seq<Entry>) {
    forall i, j :: 0 <= i < |es| && 0 <= j < |es| && es[i].0 == es[j].0 ==> es[i].1 == es[j].1
  }

  lemma AtIndex(es: seq<Entry>, e: Entry) returns (i: nat)
    requires e in es
    ensures i < |es| && es[i] == e
  {
    i :| 0 <= i < |es| && es[i] == e;
  }

  /** Only the pair that a line gives an id to can have it. */
  lemma OnlyItsPair(es: seq<Entry>, t: Table, p: Pair, k: nat)
    requires Reflects(t, es) && IdsAreOwn(es) && k < |es| && p in t.merges.at && t.merges.at[p] == es[k].1
    ensures p == es[k].0
  {
    var i := AtIndex(es, (p, t.merges.at[p]));
  }

  /** The id of a new pair is new. */
  lemma IdIsNew(es: seq<Entry>, t: Table, e: Entry)
    requires Reflects(t, es) && IdsAreOwn(es + [e]) && e.0 !in t.merges.at
    ensures e.1 !in t.vocab
  {
    var all := es + [e];
    assert all[|es|] == e;
    forall e' | e' in es
      ensures e'.1 != e.1
    {
      var i := AtIndex(es, e');
      assert all[i] == e';
    }
  }

  lemma PutAgain<K, V>(m: map<K, V>, k: K)
    requires k in m
    ensures m[k := m[k]] == m
  {
  }

  /** A repeated entry changes nothing. */
  lemma RepeatedEntry(es: seq<Entry>, t: Table, e: Entry)
    requires Valid(t) && Coherent(t) && Reflects(t, es) && PairsKeepIds(es + [e]) && e.0 in t.merges.at
    ensures WithMerge(t, e.0, e.1) == t
  {
    var all := es + [e];
    var i := AtIndex(es, (e.0, t.merges.at[e.0]));
    assert all[|es|] == e && all[i] == es[i];
    assert t.merges.at[e.0] == e.1 && t.vocab[e.1] == t.vocab[e.0.0] + t.vocab[e.0.1];
    PutAgain(t.merges.at, e.0);
    PutAgain(t.vocab, e.1);
  }

  lemma NewEntry(t: Table, e: Entry)
    requires Reloads(t) && Coherent(t) && e.0.0 in t.vocab && e.0.1 in t.vocab && e.0 !in t.merges.at && e.1 !in t.vocab
    ensures Reloads(WithMerge(t, e.0, e.1)) && Coherent(WithMerge(t, e.0, e.1))
  {
    EntriesAfterPut(t.merges, e.0, e.1);
    LoadEntriesSnoc(FreshTable(), Entries(t.merges), e);
  }

  lemma OwnIdsFront(es: seq<Entry>)
    requires es != [] && IdsAreOwn(es) && PairsKeepIds(es)
    ensures IdsAreOwn(es[..|es| - 1]) && PairsKeepIds(es[..|es| - 1]) && es == es[..|es| - 1] + [es[|es| - 1]]
  {
  }

  lemma {:induction false} OwnIdsReload(es: seq<Entry>)
    requires Loads(es) && IdsAreOwn(es) && PairsKeepIds(es)
    ensures Reloads(Loaded(es)) && Coherent(Loaded(es))
  {
    if es != [] {
      var front, e := es[..|es| - 1], es[|es| - 1];
      LoadLast(es);
      OwnIdsFront(es);
      OwnIdsReload(front);
      LoadedReflects(front);
      var t := Loaded(front);
      if e.0 in t.merges.at {
        RepeatedEntry(front, t, e);
      } else {
        IdIsNew(front, t, e);
        NewEntry(t, e);
      }
    }
  }

  /** A table that loads back has a merge for every id that is no byte id. */
  lemma ReloadedId(t: Table, id: int) returns (p: Pair)
    requires Reloads(t) && id in t.vocab && !(0 <= id < 256)
    ensures p in t.merges.at && t.merges.at[p] == id
  {
    LoadedReflects(Entries(t.merges));
    var e :| e in Entries(t.merges) && e.1 == id;
    var i := AtIndex(Entries(t.merges), e);
    assert t.merges.order[i] in t.merges.order;
    p := e.0;
  }

  /** If the table loads back, the last id of a pair is the one that each of its lines gives. */
  lemma ReloadedPair(es: seq<Entry>, k: nat)
    requires Loads(es) && IdsAreOwn(es) && Reloads(Loaded(es)) && k < |es|
    ensures es[k].0 in Loaded(es).merges.at && Loaded(es).merges.at[es[k].0] == es[k].1
  {
    LoadedReflects(es);
    assert es[k] in es;
    var p := ReloadedId(Loaded(es), es[k].1);
    OnlyItsPair(es, Loaded(es), p, k);
  }

  /** A file whose ids are its own survives being saved and loaded again exactly when repeated pairs repeat their id. */
  lemma ReloadsIff(text: string)
    requires LoadText(text).1 == Done && IdsAreOwn(EntriesOf(text))
    ensures var t := LoadText(text).0;
            LoadText(SaveText(Entries(t.merges))) == (t, Done) <==> PairsKeepIds(EntriesOf(text))
  {
    var es := EntriesOf(text);
    DoneReadsEntries(FreshTable(), Lines(text));
    SavedTextReloads(Loaded(es));
    if Reloads(Loaded(es)) {
      forall i, j | 0 <= i < |es| && 0 <= j < |es| && es[i].0 == es[j].0
        ensures es[i].1 == es[j].1
      {
        ReloadedPair(es, i);
        ReloadedPair(es, j);
      }
    }
    if PairsKeepIds(es) {
      OwnIdsReload(es);
    }
  }

  /** Whatever the ids: a table that loads back has an expansion for bytes and for ids of its merges only. */
  lemma ReloadNeedsItsIds(t: Table, id: int)
    requires Valid(t) && LoadText(SaveText(Entries(t.merges))) == (t, Done)
    requires id in t.vocab
    ensures 0 <= id < 256 || exists p :: p in t.merges.at && t.merges.at[p] == id
  {
    SavedTextReloads(t);
    if !(0 <= id < 256) {
      var p := ReloadedId(t, id);
    }
  }

  // ----- Any file -----

  function SpelledTogether(a: Option<seq<Byte>>, b: Option<seq<Byte>>): Option<seq<Byte>> {
    if a.Some? && b.Some? then Some(a.value + b.value) else None
  }

  /** The bytes that an id stands for after these lines, read off its last line. */
  function Spelling(es: seq<Entry>, id: int): Option<seq<Byte>> {
    if es == [] then if 0 <= id < 256 then Some([id]) else None
    else
      var n := |es| - 1;
      if es[n].1 != id then Spelling(es[..n], id)
      else SpelledTogether(Spelling(es[..n], es[n].0.0), Spelling(es[..n], es[n].0.1))
  }

  /** Each line's parts stand for something where it stands. */
  predicate Complete(es: seq<Entry>) {
    forall i :: 0 <= i < |es| ==> Spelling(es[..i], es[i].0.0).Some? && Spelling(es[..i], es[i].0.1).Some?
  }

  /** A line added to lines that repeat no pair: a pair that is there keeps its place and takes the new id. */
  function Stored(es: seq<Entry>, e: Entry): seq<Entry> {
    if es == [] then [e]
    else if es[0].0 == e.0 then [e] + es[1..]
    else [es[0]] + Stored(es[1..], e)
  }

  /** The lines with each pair once, in its first place and with its last id. */
  function Condensed(es: seq<Entry>): seq<Entry> {
    if es == [] then [] else Stored(Condensed(es[..|es| - 1]), es[|es| - 1])
  }

  lemma {:induction false} StoredNew(es: seq<Entry>, e: Entry)
    requires forall i :: 0 <= i < |es| ==> es[i].0 != e.0
    ensures Stored(es, e) == es + [e]
  {
    if es != [] {
      StoredNew(es[1..], e);
      assert es == [es[0]] + es[1..];
    }
  }

  lemma {:induction false} StoredAt(es: seq<Entry>, e: Entry, k: nat)
    requires k < |es| && es[k].0 == e.0 && forall i :: 0 <= i < k ==> es[i].0 != e.0
    ensures Stored(es, e) == es[k := e]
  {
    if k > 0 {
      StoredAt(es[1..], e, k - 1);
      assert es == [es[0]] + es[1..];
    }
  }

  /** The dictionary stores an entry as a line is stored. */
  lemma EntriesStored(merges: Dict<Pair, int>, p: Pair, idx: int)
    requires merges.Valid()
    ensures Entries(merges.Put(p, idx)) == Stored(Entries(merges), (p, idx))
  {
    var es := Entries(merges);
    if p in merges.at {
      assert p in merges.order;
      var k :| 0 <= k < |merges.order| && merges.order[k] == p;
      StoredAt(es, (p, idx), k);
      assert Entries(merges.Put(p, idx)) == es[k := (p, idx)];
    } else {
      forall i | 0 <= i < |es|
        ensures es[i].0 != p
      {
        assert merges.order[i] in merges.order;
      }
      StoredNew(es, (p, idx));
      EntriesAfterPut(merges, p, idx);
    }
  }

  lemma {:induction false} EntriesAreCondensed(es: seq<Entry>)
    requires Loads(es)
    ensures Entries(Loaded(es).merges) == Condensed(es)
  {
    if es != [] {
      var n := |es| - 1;
      LoadLast(es);
      EntriesAreCondensed(es[..n]);
      EntriesStored(Loaded(es[..n]).merges, es[n].0, es[n].1);
    }
  }

  lemma {:induction false} SpellingIsLoaded(es: seq<Entry>, id: int)
    requires Loads(es)
    ensures Spelling(es, id) == if id in Loaded(es).vocab then Some(Loaded(es).vocab[id]) else None
  {
    if es != [] {
      var n := |es| - 1;
      LoadLast(es);
      SpellingIsLoaded(es[..n], id);
      SpellingIsLoaded(es[..n], es[n].0.0);
      SpellingIsLoaded(es[..n], es[n].0.1);
    }
  }

  lemma CompleteLast(es: seq<Entry>, n: nat)
    requires |es| == n + 1
    ensures Complete(es) <==> Complete(es[..n]) && Spelling(es[..n], es[n].0.0).Some? && Spelling(es[..n], es[n].0.1).Some?
  {
    assert forall i :: 0 <= i < n ==> es[..n][..i] == es[..i];
  }

  lemma LoadsSnoc(es: seq<Entry>, n: nat)
    requires |es| == n + 1 && Loads(es[..n])
    ensures Loads(es) <==> es[n].0.0 in Loaded(es[..n]).vocab && es[n].0.1 in Loaded(es[..n]).vocab
  {
    LoadEntriesSnoc(FreshTable(), es[..n], es[n]);
    assert es[..n] + [es[n]] == es;
  }

  /** The last line loads exactly when its parts stand for something. */
  lemma LoadsLast(es: seq<Entry>, n: nat)
    requires |es| == n + 1
    ensures Loads(es) <==> Loads(es[..n]) && Spelling(es[..n], es[n].0.0).Some? && Spelling(es[..n], es[n].0.1).Some?
  {
    if Loads(es) {
      LoadFront(FreshTable(), es);
    }
    if Loads(es[..n]) {
      LoadsSnoc(es, n);
      SpellingIsLoaded(es[..n], es[n].0.0);
      SpellingIsLoaded(es[..n], es[n].0.1);
    }
  }

  lemma {:induction false} LoadsIffComplete(es: seq<Entry>)
    ensures Loads(es) <==> Complete(es)
  {
    if es != [] {
      var n := |es| - 1;
      CompleteLast(es, n);
      LoadsIffComplete(es[..n]);
      LoadsLast(es, n);
    }
  }

  /** No entries but its own make a table's merges. */
  lemma SameEntries(a: Dict<Pair, int>, b: Dict<Pair, int>)
    requires a.Valid() && b.Valid() && Entries(a) == Entries(b)
    ensures a == b
  {
    assert |a.order| == |Entries(a)| == |b.order|;
    forall i | 0 <= i < |a.order|
      ensures a.order[i] == b.order[i] && a.order[i] in a.at && b.order[i] in b.at && a.at[a.order[i]] == b.at[a.order[i]]
    {
      assert Entries(a)[i] == Entries(b)[i];
      assert a.order[i] in a.order && b.order[i] in b.order;
    }
    assert a.order == b.order;
    forall p
      ensures p in a.at <==> p in b.at
      ensures p in a.at ==> a.at[p] == b.at[p]
    {
      assert p in a.at <==> p in a.order;
    }
    assert a.at == b.at;
  }

  lemma EntriesDiffer(merges: Dict<Pair, int>)
    requires merges.Valid()
    ensures PairsDiffer(Entries(merges))
  {
  }

  /** Every id is spelled in both alike. */
  ghost predicate SpelledAlike(es: seq<Entry>, c: seq<Entry>) {
    forall id :: Spelling(c, id) == Spelling(es, id)
  }

  lemma VocabFromSpellings(es: seq<Entry>, c: seq<Entry>)
    requires Loads(es) && Loads(c) && SpelledAlike(es, c)
    ensures Loaded(es).vocab == Loaded(c).vocab
  {
    forall id
      ensures id in Loaded(es).vocab <==> id in Loaded(c).vocab
      ensures id in Loaded(es).vocab ==> Loaded(es).vocab[id] == Loaded(c).vocab[id]
    {
      SpellingIsLoaded(es, id);
      SpellingIsLoaded(c, id);
    }
  }

  lemma SpellingsFromVocab(es: seq<Entry>, c: seq<Entry>)
    requires Loads(es) && Loads(c) && Loaded(es).vocab == Loaded(c).vocab
    ensures SpelledAlike(es, c)
  {
    forall id
      ensures Spelling(c, id) == Spelling(es, id)
    {
      SpellingIsLoaded(es, id);
      SpellingIsLoaded(c, id);
    }
  }

  /**
   * Whatever a file's pairs and ids: saving what it loads to and loading that again gives back both tables exactly when
   * its condensed lines are complete and every id is spelled in them as in the file.
   */
  lemma ReloadsIffSpellingsStay(text: string)
    requires LoadText(text).1 == Done
    ensures var t, es := LoadText(text).0, EntriesOf(text);
            LoadText(SaveText(Entries(t.merges))) == (t, Done) <==>
              Complete(Condensed(es)) && SpelledAlike(es, Condensed(es))
  {
    var es := EntriesOf(text);
    var t, c := Loaded(es), Condensed(es);
    DoneReadsEntries(FreshTable(), Lines(text));
    SavedTextReloads(t);
    EntriesAreCondensed(es);
    LoadsIffComplete(c);
    if Loads(c) {
      EntriesDiffer(t.merges);
      EntriesOfLoaded(c);
      SameEntries(Loaded(c).merges, t.merges);
      if SpelledAlike(es, c) {
        VocabFromSpellings(es, c);
      }
      if Loaded(c).vocab == t.vocab {
        SpellingsFromVocab(es, c);
      }
    }
  }

  // ----- A file that does not survive -----

  /** The three lines give `p` the id `x`, build on `x`, and give `p` another id. */
  function Lines3(p: Pair, x: int, c: int, y: int, z: int): seq<Entry> {
    [(p, x)] + ([((x, c), y)] + ([(p, z)] + []))
  }

  lemma Lines3Load(p: Pair, x: int, c: int, y: int, z: int)
    requires 0 <= p.0 < 256 && 0 <= p.1 < 256 && 0 <= c < 256 && !(0 <= x < 256)
    ensures Loads(Lines3(p, x, c, y, z))
    ensures Loaded(Lines3(p, x, c, y, z)).merges == FreshTable().merges.Put(p, x).Put((x, c), y).Put(p, z)
  {
    var t1 := WithMerge(FreshTable(), p, x);
    var t2 := WithMerge(t1, (x, c), y);
    LoadCons(t2, (p, z), []);
    LoadCons(t1, ((x, c), y), [(p, z)] + []);
    LoadCons(FreshTable(), (p, x), [((x, c), y)] + ([(p, z)] + []));
  }

  lemma Lines3Entries(p: Pair, x: int, c: int, y: int, z: int)
    requires p != (x, c)
    ensures Entries(FreshTable().merges.Put(p, x).Put((x, c), y).Put(p, z)) == [(p, z)] + ([((x, c), y)] + [])
  {
    var m1 := FreshTable().merges.Put(p, x);
    var m2 := m1.Put((x, c), y);
    EntriesAfterPut(FreshTable().merges, p, x);
    EntriesAfterPut(m1, (x, c), y);
    assert Entries(m2) == [(p, x), ((x, c), y)];
    EntriesStored(m2, p, z);
    StoredAt(Entries(m2), (p, z), 0);
  }

  lemma SwappedLinesFail(p: Pair, x: int, c: int, y: int, z: int)
    requires 0 <= p.0 < 256 && 0 <= p.1 < 256 && !(0 <= x < 256) && x != z
    ensures LoadEntries(FreshTable(), [(p, z)] + ([((x, c), y)] + [])).1 == KeyError
  {
    var t1 := WithMerge(FreshTable(), p, z);
    LoadCons(FreshTable(), (p, z), [((x, c), y)] + []);
    LoadCons(t1, ((x, c), y), []);
  }

  /**
   * A file like `1 2 300`, `300 3 301`, `1 2 302` loads, but what it is saved as does not: the pair keeps its first
   * place and its last id, so the id that the next line needs is gone.
   */
  lemma SavedFileMayNotLoad(p: Pair, x: int, c: int, y: int, z: int)
    requires 0 <= p.0 < 256 && 0 <= p.1 < 256 && 0 <= c < 256 && !(0 <= x < 256) && x != z
    ensures var (t, outcome) := LoadText(SaveText(Lines3(p, x, c, y, z)));
            outcome == Done && LoadText(SaveText(Entries(t.merges))).1 == KeyError
  {
    var es := Lines3(p, x, c, y, z);
    SavedLinesParse(es);
    LoadParsed(FreshTable(), Lines(SaveText(es)), es);
    Lines3Load(p, x, c, y, z);
    Lines3Entries(p, x, c, y, z);
    SavedTextReloads(Loaded(es));
    SwappedLinesFail(p, x, c, y, z);
  }
}
