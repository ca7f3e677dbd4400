/** Byte-pair encoding on id lists: what the tokenizer's loops compute and the theorems about it. */
module Bpe {
  import opened PyData
  import opened Utf8

  type Pair = (int, int)

  /** The tokenizer's two tables: which pair becomes which id, and the bytes each id stands for. */
  datatype Table = Table(merges: Dict<Pair, int>, vocab: map<int, seq<Byte>>)

  /** `bytes([i])` */
  function Single(i: int): (s: seq<Byte>)
    requires 0 <= i < 256
  {
    [i]
  }

  function BaseVocab(): (v: map<int, seq<Byte>>)
    ensures forall b :: b in v <==> 0 <= b < 256
    ensures forall b :: b in v ==> v[b] == Single(b)
  {
    map b: int | 0 <= b < 256 :: Single(b)
  }

  function FreshTable(): Table {
    Table(EmptyDict(), BaseVocab())
  }

  ghost predicate Valid(t: Table) {
    t.merges.Valid() && forall b :: 0 <= b < 256 ==> b in t.vocab
  }

  predicate Known(vocab: map<int, seq<Byte>>, ids: seq<int>) {
    forall i :: 0 <= i < |ids| ==> ids[i] in vocab
  }

  // ----- Adjacent pairs and one merge -----

  /** `zip(ids, ids[1:])` */
  function Pairs(ids: seq<int>): (ps: seq<Pair>)
    ensures |ps| == if |ids| < 2 then 0 else |ids| - 1
  {
    if |ids| < 2 then [] else [(ids[0], ids[1])] + Pairs(ids[1..])
  }

  lemma {:induction false} PairsAt(ids: seq<int>, j: nat)
    requires j < |ids| - 1
    ensures Pairs(ids)[j] == (ids[j], ids[j + 1])
  {
    if j > 0 {
      PairsAt(ids[1..], j - 1);
    }
  }

  lemma {:induction false} PairsMembers(ids: seq<int>, p: Pair)
    requires p in Pairs(ids)
    ensures p.0 in ids && p.1 in ids
  {
    if p != (ids[0], ids[1]) {
      PairsMembers(ids[1..], p);
    }
  }

  /** Replaces the occurrences of `p`, leftmost first and never overlapping, by `idx`. */
  function Merged(ids: seq<int>, p: Pair, idx: int): (out: seq<int>)
    ensures |out| <= |ids|
    decreases |ids|
  {
    if |ids| >= 2 && ids[0] == p.0 && ids[1] == p.1 then
      [idx] + Merged(ids[2..], p, idx)
    else if ids == [] then []
    else [ids[0]] + Merged(ids[1..], p, idx)
  }

  /** One step of the merging scan. */
  lemma MergedStep(ids: seq<int>, i: nat, p: Pair, idx: int)
    requires i < |ids|
    ensures Merged(ids[i..], p, idx) ==
            if i + 1 < |ids| && ids[i] == p.0 && ids[i + 1] == p.1 then [idx] + Merged(ids[i + 2..], p, idx)
            else [ids[i]] + Merged(ids[i + 1..], p, idx)
  {
    if i + 1 < |ids| {
      assert ids[i..][2..] == ids[i + 2..];
    }
    assert ids[i..][1..] == ids[i + 1..];
  }

  /** The same step, after an output that has been built so far. */
  lemma MergedStepAfter(out: seq<int>, ids: seq<int>, i: nat, p: Pair, idx: int)
    requires i < |ids|
    ensures out + Merged(ids[i..], p, idx) ==
            if i + 1 < |ids| && ids[i] == p.0 && ids[i + 1] == p.1 then (out + [idx]) + Merged(ids[i + 2..], p, idx)
            else (out + [ids[i]]) + Merged(ids[i + 1..], p, idx)
  {
    MergedStep(ids, i, p, idx);
  }

  lemma {:induction false} MergedMember(ids: seq<int>, p: Pair, idx: int, id: int)
    requires id in Merged(ids, p, idx)
    ensures id == idx || id in ids
    decreases |ids|
  {
    if |ids| >= 2 && ids[0] == p.0 && ids[1] == p.1 {
      if id != idx {
        assert id in Merged(ids[2..], p, idx);
        MergedMember(ids[2..], p, idx, id);
      }
    } else if id != ids[0] {
      assert id in Merged(ids[1..], p, idx);
      MergedMember(ids[1..], p, idx, id);
    }
  }

  lemma PairsHead(ids: seq<int>, p: Pair)
    ensures p in Pairs(ids) <==> |ids| >= 2 && (p == (ids[0], ids[1]) || p in Pairs(ids[1..]))
  {
  }

  lemma {:induction false} MergedShrinks(ids: seq<int>, p: Pair, idx: int)
    requires p in Pairs(ids)
    ensures |Merged(ids, p, idx)| < |ids|
    decreases |ids|
  {
    PairsHead(ids, p);
    if !(ids[0] == p.0 && ids[1] == p.1) {
      MergedShrinks(ids[1..], p, idx);
    }
  }

  lemma {:induction false} MergedAbsent(ids: seq<int>, p: Pair, idx: int)
    requires p !in Pairs(ids)
    ensures Merged(ids, p, idx) == ids
    decreases |ids|
  {
    PairsHead(ids, p);
    if ids != [] {
      assert p !in Pairs(ids[1..]);
      MergedAbsent(ids[1..], p, idx);
    }
  }

  /** A merge shortens the list exactly when the pair occurs, and is the identity when it does not. */
  lemma MergedShortens(ids: seq<int>, p: Pair, idx: int)
    ensures if p in Pairs(ids) then |Merged(ids, p, idx)| < |ids| else Merged(ids, p, idx) == ids
  {
    if p in Pairs(ids) {
      MergedShrinks(ids, p, idx);
    } else {
      MergedAbsent(ids, p, idx);
    }
  }

  /** A merge creates no pair of old ids: such a pair was there before, and is not the merged one. */
  lemma {:induction false} MergedPairs(ids: seq<int>, p: Pair, idx: int, q: Pair)
    requires q in Pairs(Merged(ids, p, idx)) && q.0 != idx && q.1 != idx
    ensures q in Pairs(ids) && q != p
    decreases |ids|
  {
    if |ids| >= 2 && ids[0] == p.0 && ids[1] == p.1 {
      var rest := Merged(ids[2..], p, idx);
      assert Merged(ids, p, idx)[1..] == rest;
      MergedPairs(ids[2..], p, idx, q);
      assert Pairs(ids[1..]) == if |ids| < 3 then [] else [(ids[1], ids[2])] + Pairs(ids[1..][1..]);
      assert ids[1..][1..] == ids[2..];
    } else {
      var rest := Merged(ids[1..], p, idx);
      assert Merged(ids, p, idx)[1..] == rest;
      if q in Pairs(rest) {
        MergedPairs(ids[1..], p, idx, q);
      } else {
        assert q == (ids[0], rest[0]);
        assert rest[0] == ids[1];
      }
    }
  }

  // ----- Expansion to bytes -----

  /** `b"".join(vocab[i] for i in ids)` */
  function Expand(vocab: map<int, seq<Byte>>, ids: seq<int>): seq<Byte>
    requires Known(vocab, ids)
  {
    if ids == [] then [] else vocab[ids[0]] + Expand(vocab, ids[1..])
  }

  /** Every merge entry's id stands for its two parts' bytes. */
  predicate Coherent(t: Table) {
    forall p :: p in t.merges.at ==>
      && p.0 in t.vocab && p.1 in t.vocab && t.merges.at[p] in t.vocab
      && t.vocab[t.merges.at[p]] == t.vocab[p.0] + t.vocab[p.1]
  }

  lemma {:induction false} MergeKeepsBytes(t: Table, ids: seq<int>, p: Pair)
    requires Coherent(t) && p in t.merges.at && Known(t.vocab, ids)
    ensures Known(t.vocab, Merged(ids, p, t.merges.at[p]))
    ensures Expand(t.vocab, Merged(ids, p, t.merges.at[p])) == Expand(t.vocab, ids)
    decreases |ids|
  {
    var idx := t.merges.at[p];
    if |ids| >= 2 && ids[0] == p.0 && ids[1] == p.1 {
      MergeKeepsBytes(t, ids[2..], p);
      assert ids[1..][1..] == ids[2..];
      assert Expand(t.vocab, ids) == t.vocab[p.0] + (t.vocab[p.1] + Expand(t.vocab, ids[2..]));
      assert Merged(ids, p, idx)[1..] == Merged(ids[2..], p, idx);
    } else if ids != [] {
      MergeKeepsBytes(t, ids[1..], p);
      assert Merged(ids, p, idx)[1..] == Merged(ids[1..], p, idx);
    }
  }

  // ----- Choosing a pair -----

  /** `get_stats`: how often each adjacent pair occurs, keyed in order of first occurrence. */
  function Stats(ids: seq<int>): (d: Dict<Pair, nat>)
    ensures d.Valid()
    ensures forall p :: p in d.at <==> p in Pairs(ids)
    ensures forall p :: p in d.at ==> d.at[p] == multiset(Pairs(ids))[p]
  {
    var order := Dedupe(Pairs(ids));
    DedupeDistinct(Pairs(ids));
    forall p { DedupeMember(Pairs(ids), p); }
    Dict(order, map p | p in order :: multiset(Pairs(ids))[p])
  }

  /** `counts.get(p, 0)` */
  function CountIn(d: Dict<Pair, nat>, p: Pair): nat {
    if p in d.at then d.at[p] else 0
  }

  /** `counts[p] = counts.get(p, 0) + 1` */
  function Counted(d: Dict<Pair, nat>, p: Pair): (r: Dict<Pair, nat>)
    requires d.Valid()
    ensures r.Valid()
  {
    d.Put(p, CountIn(d, p) + 1)
  }

  /** The dict that counting the first `n` pairs one after another builds. */
  function Tally(ps: seq<Pair>, n: nat): (d: Dict<Pair, nat>)
    requires n <= |ps|
    ensures d.Valid()
  {
    if n == 0 then EmptyDict() else Counted(Tally(ps, n - 1), ps[n - 1])
  }

  lemma {:induction false} TallyOrder(ps: seq<Pair>, n: nat)
    requires n <= |ps|
    ensures Tally(ps, n).order == Dedupe(ps[..n])
  {
    if n > 0 {
      TallyOrder(ps, n - 1);
      assert ps[..n][..n - 1] == ps[..n - 1];
    }
  }

  lemma MultisetSnoc(ps: seq<Pair>, n: nat, p: Pair)
    requires 0 < n <= |ps|
    ensures multiset(ps[..n])[p] == multiset(ps[..n - 1])[p] + if ps[n - 1] == p then 1 else 0
  {
    assert ps[..n] == ps[..n - 1] + [ps[n - 1]];
  }

  lemma CountedOne(d: Dict<Pair, nat>, q: Pair, p: Pair)
    requires d.Valid()
    ensures CountIn(Counted(d, q), p) == CountIn(d, p) + if p == q then 1 else 0
  {
  }

  lemma {:induction false} TallyCount(ps: seq<Pair>, n: nat, p: Pair)
    requires n <= |ps|
    ensures CountIn(Tally(ps, n), p) == multiset(ps[..n])[p]
  {
    if n > 0 {
      TallyCount(ps, n - 1, p);
      CountedOne(Tally(ps, n - 1), ps[n - 1], p);
      MultisetSnoc(ps, n, p);
    }
  }

  /** Counting in order gives every pair's number of occurrences, keyed by first occurrence. */
  lemma TallyIsStats(ids: seq<int>)
    ensures Tally(Pairs(ids), |Pairs(ids)|) == Stats(ids)
  {
    var ps := Pairs(ids);
    var d := Tally(ps, |ps|);
    TallyOrder(ps, |ps|);
    assert ps[..|ps|] == ps;
    forall p | p in d.at
      ensures d.at[p] == Stats(ids).at[p]
    {
      TallyCount(ps, |ps|, p);
    }
    assert d.at == Stats(ids).at;
  }

  /** `max(stats, key=stats.get)`: the most frequent pair, the earliest of them on a tie. */
  function BestPair(stats: Dict<Pair, nat>): (p: Pair)
    requires stats.Valid() && stats.order != []
    ensures p in stats.at
  {
    FirstMax(stats.order, q => if q in stats.at then stats.at[q] as real else 0.0)
  }

  /** `merges.get(p, inf) < merges.get(q, inf)` */
  predicate RanksBelow(merges: map<Pair, int>, p: Pair, q: Pair) {
    p in merges && (q in merges ==> merges[p] < merges[q])
  }

  /** `min(keys, key=lambda p: merges.get(p, inf))` */
  function LowestPair(merges: map<Pair, int>, keys: seq<Pair>): (p: Pair)
    requires keys != []
    ensures p in keys
    ensures forall q :: q in keys ==> !RanksBelow(merges, q, p)
  {
    var n := |keys| - 1;
    if n == 0 then keys[0] else
      var low := LowestPair(merges, keys[..n]);
      assert forall q :: q in keys ==> q in keys[..n] || q == keys[n];
      if RanksBelow(merges, keys[n], low) then keys[n] else low
  }

  // ----- Encoding -----

  /** The pair one round of `encode` merges, if any. */
  function NextMerge(merges: map<Pair, int>, ids: seq<int>): (r: Option<Pair>)
    ensures r.None? ==> forall q :: q in Pairs(ids) ==> q !in merges
    ensures r.Some? ==> r.value in Pairs(ids) && r.value in merges
    ensures r.Some? ==> forall q :: q in Pairs(ids) && q in merges ==> merges[r.value] <= merges[q]
  {
    if |ids| < 2 then None else
      var p := LowestPair(merges, Stats(ids).order);
      if p in merges then Some(p) else None
  }

  function EncodeIds(merges: map<Pair, int>, ids: seq<int>): seq<int>
    decreases |ids|
  {
    match NextMerge(merges, ids)
    case None => ids
    case Some(p) =>
      MergedShortens(ids, p, merges[p]);
      EncodeIds(merges, Merged(ids, p, merges[p]))
  }

  /** The ids of the merges `encode` applies, in the order it applies them. */
  function Applied(merges: map<Pair, int>, ids: seq<int>): seq<int>
    decreases |ids|
  {
    match NextMerge(merges, ids)
    case None => []
    case Some(p) =>
      MergedShortens(ids, p, merges[p]);
      [merges[p]] + Applied(merges, Merged(ids, p, merges[p]))
  }

  /** A table in which both parts of a merge are older than its id, and no id is used twice. */
  ghost predicate WellFormed(merges: map<Pair, int>) {
    && (forall p :: p in merges ==> p.0 < merges[p] && p.1 < merges[p])
    && (forall p, q :: p in merges && q in merges && merges[p] == merges[q] ==> p == q)
  }

  /** No pair that occurs in `ids` has a merge id up to `r`. */
  ghost predicate NoneUpTo(merges: map<Pair, int>, ids: seq<int>, r: int) {
    forall q :: q in Pairs(ids) && q in merges ==> r < merges[q]
  }

  /** After the lowest mergeable pair has been merged, every mergeable pair ranks above it. */
  lemma MergeRaisesFloor(merges: map<Pair, int>, ids: seq<int>, p: Pair)
    requires WellFormed(merges) && p in merges
    requires forall q :: q in Pairs(ids) && q in merges ==> merges[p] <= merges[q]
    ensures NoneUpTo(merges, Merged(ids, p, merges[p]), merges[p])
  {
    var idx := merges[p];
    forall q | q in Pairs(Merged(ids, p, idx)) && q in merges
      ensures idx < merges[q]
    {
      if q.0 != idx && q.1 != idx {
        MergedPairs(ids, p, idx, q);
      }
    }
  }

  predicate Increasing(a: seq<int>) {
    forall i, j :: 0 <= i < j < |a| ==> a[i] < a[j]
  }

  /** Greedy encoding applies merges in strictly increasing id order, starting from the lowest possible. */
  lemma {:induction false} AppliedIncreases(merges: map<Pair, int>, ids: seq<int>)
    requires WellFormed(merges)
    ensures var a := Applied(merges, ids);
      && Increasing(a)
      && (a != [] ==> NextMerge(merges, ids).Some? && a[0] == merges[NextMerge(merges, ids).value])
    decreases |ids|
  {
    var next := NextMerge(merges, ids);
    if next.Some? {
      var p := next.value;
      NextMergeRanksAbove(merges, ids, p);
      MergedShortens(ids, p, merges[p]);
      AppliedIncreases(merges, Merged(ids, p, merges[p]));
      Prepend(merges[p], Applied(merges, Merged(ids, p, merges[p])));
    }
  }

  lemma NextMergeRanksAbove(merges: map<Pair, int>, ids: seq<int>, p: Pair)
    requires WellFormed(merges) && NextMerge(merges, ids) == Some(p)
    ensures var next := NextMerge(merges, Merged(ids, p, merges[p]));
      next.Some? ==> merges[p] < merges[next.value]
  {
    MergeRaisesFloor(merges, ids, p);
  }

  lemma Prepend(x: int, a: seq<int>)
    requires Increasing(a) && (a != [] ==> x < a[0])
    ensures Increasing([x] + a)
  {
  }

  lemma {:induction false} AppliedAreMergeIds(merges: map<Pair, int>, ids: seq<int>)
    ensures forall i :: 0 <= i < |Applied(merges, ids)| ==> Applied(merges, ids)[i] in merges.Values
    decreases |ids|
  {
    match NextMerge(merges, ids)
    case None =>
    case Some(p) =>
      MergedShortens(ids, p, merges[p]);
      AppliedAreMergeIds(merges, Merged(ids, p, merges[p]));
      assert merges[p] in merges.Values;
  }

  lemma {:induction false} IncreasingFits(a: seq<int>, s: set<int>)
    requires forall i :: 0 <= i < |a| ==> a[i] in s
    requires Increasing(a)
    ensures |a| <= |s|
  {
    if a != [] {
      var n := |a| - 1;
      IncreasingFits(a[..n], s - {a[n]});
    }
  }

  lemma {:induction false} ValuesFit<K, V>(m: map<K, V>)
    ensures |m.Values| <= |m|
    decreases |m|
  {
    if m != map[] {
      var k :| k in m;
      var rest := m - {k};
      assert m.Keys == rest.Keys + {k};
      assert |m| == |m.Keys| == |rest.Keys| + 1;
      ValuesFit(rest);
      assert m.Values <= rest.Values + {m[k]} by {
        forall v | v in m.Values
          ensures v in rest.Values + {m[k]}
        {
          var j :| j in m && m[j] == v;
          if j != k {
            assert rest[j] == v;
          }
        }
      }
    }
  }

  /** `encode` makes at most one round per table entry and leaves nothing to merge. */
  lemma EncodeRounds(merges: map<Pair, int>, ids: seq<int>)
    requires WellFormed(merges)
    ensures |Applied(merges, ids)| <= |merges|
    ensures Increasing(Applied(merges, ids))
    ensures forall q :: q in Pairs(EncodeIds(merges, ids)) ==> q !in merges
  {
    AppliedIncreases(merges, ids);
    AppliedAreMergeIds(merges, ids);
    IncreasingFits(Applied(merges, ids), merges.Values);
    ValuesFit(merges);
    EncodeLeavesNothing(merges, ids);
  }

  lemma {:induction false} EncodeLeavesNothing(merges: map<Pair, int>, ids: seq<int>)
    ensures forall q :: q in Pairs(EncodeIds(merges, ids)) ==> q !in merges
    decreases |ids|
  {
    match NextMerge(merges, ids)
    case None =>
    case Some(p) =>
      MergedShortens(ids, p, merges[p]);
      EncodeLeavesNothing(merges, Merged(ids, p, merges[p]));
  }

  // ----- Encoding as one ordered pass -----

  /** `table` lists entries of `merges` by increasing id. */
  ghost predicate InIndexOrder(merges: map<Pair, int>, table: seq<Pair>) {
    && (forall i :: 0 <= i < |table| ==> table[i] in merges)
    && (forall i, j :: 0 <= i < j < |table| ==> merges[table[i]] < merges[table[j]])
  }

  /** The simple form of encoding: each merge once, in table order, whether or not its pair occurs. */
  function OrderedPass(merges: map<Pair, int>, table: seq<Pair>, ids: seq<int>): seq<int>
    requires forall i :: 0 <= i < |table| ==> table[i] in merges
  {
    if table == [] then ids
    else OrderedPass(merges, table[1..], Merged(ids, table[0], merges[table[0]]))
  }

  /** The entries `table` leaves out are over: they rank below it and cannot apply. */
  ghost predicate Remaining(merges: map<Pair, int>, table: seq<Pair>, ids: seq<int>) {
    forall q :: q in merges && q !in table ==>
      q !in Pairs(ids) && (table != [] ==> table[0] in merges && merges[q] < merges[table[0]])
  }

  lemma NextIsTableHead(merges: map<Pair, int>, table: seq<Pair>, ids: seq<int>)
    requires WellFormed(merges) && InIndexOrder(merges, table) && Remaining(merges, table, ids)
    requires table != [] && table[0] in Pairs(ids)
    ensures NextMerge(merges, ids) == Some(table[0])
  {
    var q := NextMerge(merges, ids).value;
    assert q in table;
    var k :| 0 <= k < |table| && table[k] == q;
  }

  lemma RemainingAfterHead(merges: map<Pair, int>, table: seq<Pair>, ids: seq<int>)
    requires WellFormed(merges) && InIndexOrder(merges, table) && Remaining(merges, table, ids)
    requires table != []
    ensures Remaining(merges, table[1..], Merged(ids, table[0], merges[table[0]]))
  {
    var p := table[0];
    if p in Pairs(ids) {
      NextIsTableHead(merges, table, ids);
      MergeRaisesFloor(merges, ids, p);
    } else {
      MergedShortens(ids, p, merges[p]);
    }
    assert forall q :: q in table ==> q == p || q in table[1..];
    if |table| > 1 {
      assert merges[p] < merges[table[1]];
    }
  }

  lemma {:induction false} EncodeFollowsTable(merges: map<Pair, int>, table: seq<Pair>, ids: seq<int>)
    requires WellFormed(merges) && InIndexOrder(merges, table) && Remaining(merges, table, ids)
    ensures EncodeIds(merges, ids) == OrderedPass(merges, table, ids)
    decreases |table|
  {
    if table == [] {
      assert NextMerge(merges, ids).None?;
    } else {
      var p := table[0];
      if p in Pairs(ids) {
        NextIsTableHead(merges, table, ids);
      } else {
        MergedShortens(ids, p, merges[p]);
      }
      RemainingAfterHead(merges, table, ids);
      EncodeFollowsTable(merges, table[1..], Merged(ids, p, merges[p]));
    }
  }

  /** Greedy encoding equals one pass over the whole table in index order, on every id list. */
  lemma EncodeIsOrderedPass(merges: map<Pair, int>, table: seq<Pair>, ids: seq<int>)
    requires WellFormed(merges) && InIndexOrder(merges, table)
    requires forall q :: q in merges ==> q in table
    ensures EncodeIds(merges, ids) == OrderedPass(merges, table, ids)
  {
    EncodeFollowsTable(merges, table, ids);
  }

  /** Every well-formed table can be listed in index order. */
  lemma {:induction false} IndexOrderExists(merges: map<Pair, int>) returns (table: seq<Pair>)
    requires WellFormed(merges)
    ensures InIndexOrder(merges, table) && forall q :: q in merges ==> q in table
    decreases |merges|
  {
    if merges == map[] {
      table := [];
    } else {
      var last := HighestPair(merges);
      var rest := merges - {last};
      assert merges.Keys == rest.Keys + {last};
      assert |merges| == |merges.Keys| == |rest.Keys| + 1;
      var front := IndexOrderExists(rest);
      table := front + [last];
      HighestComesLast(merges, last, front);
    }
  }

  lemma HighestComesLast(merges: map<Pair, int>, last: Pair, front: seq<Pair>)
    requires WellFormed(merges) && last in merges && forall q :: q in merges ==> merges[q] <= merges[last]
    requires var rest := merges - {last}; InIndexOrder(rest, front) && forall q :: q in rest ==> q in front
    ensures InIndexOrder(merges, front + [last]) && forall q :: q in merges ==> q in front + [last]
  {
    var rest, table := merges - {last}, front + [last];
    forall i | 0 <= i < |front|
      ensures front[i] in merges && merges[front[i]] < merges[last]
    {
      assert front[i] in rest;
    }
    forall q | q in merges
      ensures q in table
    {
      assert q == last || q in rest;
    }
  }

  lemma {:induction false} HighestPair(merges: map<Pair, int>) returns (p: Pair)
    requires merges != map[]
    ensures p in merges && forall q :: q in merges ==> merges[q] <= merges[p]
    decreases |merges|
  {
    p :| p in merges;
    var rest := merges - {p};
    assert merges.Keys == rest.Keys + {p};
    assert |merges| == |merges.Keys| == |rest.Keys| + 1;
    if rest != map[] {
      var r := HighestPair(rest);
      forall q | q in merges
        ensures merges[q] <= merges[if merges[r] > merges[p] then r else p]
      {
        assert q == p || q in rest;
      }
      p := if merges[r] > merges[p] then r else p;
    }
  }

  // ----- Training -----

  /** The pair a training round picks. */
  function Best(ids: seq<int>): (p: Pair)
    requires |ids| >= 2
    ensures p in Pairs(ids) && p.0 in ids && p.1 in ids
  {
    var p := BestPair(Stats(ids));
    PairsMembers(ids, p);
    p
  }

  /** The pair a round picks is the most frequent one, and every pair that first occurs before it is rarer. */
  lemma BestIsMostFrequent(ids: seq<int>) returns (n: nat)
    requires |ids| >= 2
    ensures var order := Dedupe(Pairs(ids));
            n < |order| && order[n] == Best(ids)
            && forall i :: 0 <= i < n ==> multiset(Pairs(ids))[order[i]] < multiset(Pairs(ids))[Best(ids)]
    ensures forall q :: q in Pairs(ids) ==> multiset(Pairs(ids))[q] <= multiset(Pairs(ids))[Best(ids)]
  {
    var stats := Stats(ids);
    var key := (q: Pair) => if q in stats.at then stats.at[q] as real else 0.0;
    n := FirstMaxIsFirst(stats.order, key);
    assert stats.order[n] == Best(ids);
    forall i | 0 <= i < n
      ensures multiset(Pairs(ids))[stats.order[i]] < multiset(Pairs(ids))[Best(ids)]
    {
      assert key(stats.order[i]) < key(stats.order[n]);
      assert stats.order[i] in stats.at;
    }
    forall q | q in Pairs(ids)
      ensures multiset(Pairs(ids))[q] <= multiset(Pairs(ids))[Best(ids)]
    {
      assert q in stats.at && q in stats.order;
      assert key(q) <= key(Best(ids));
    }
  }

  /** `self.merges[p] = idx` and the matching `vocab` entry. */
  function WithMerge(t: Table, p: Pair, idx: int): (r: Table)
    requires t.merges.Valid() && p.0 in t.vocab && p.1 in t.vocab
    ensures r.merges.Valid()
  {
    Table(t.merges.Put(p, idx), t.vocab[idx := t.vocab[p.0] + t.vocab[p.1]])
  }

  lemma KnownMembers(vocab: map<int, seq<Byte>>, ids: seq<int>, id: int)
    requires Known(vocab, ids) && id in ids
    ensures id in vocab
  {
  }

  lemma KnownAfterMerge(vocab: map<int, seq<Byte>>, more: map<int, seq<Byte>>, ids: seq<int>, p: Pair, idx: int)
    requires Known(vocab, ids) && more.Keys == vocab.Keys + {idx}
    ensures Known(more, Merged(ids, p, idx))
  {
    var out := Merged(ids, p, idx);
    forall i | 0 <= i < |out|
      ensures out[i] in more
    {
      MergedMember(ids, p, idx, out[i]);
    }
  }

  /** One training round: learn the best pair of `ids` as `idx`. */
  function Learned(t: Table, ids: seq<int>, idx: int): (r: Table)
    requires Valid(t) && Known(t.vocab, ids) && |ids| >= 2
    ensures Valid(r) && Known(r.vocab, Merged(ids, Best(ids), idx))
  {
    var best := Best(ids);
    KnownMembers(t.vocab, ids, best.0);
    KnownMembers(t.vocab, ids, best.1);
    var r := WithMerge(t, best, idx);
    KnownAfterMerge(t.vocab, r.vocab, ids, best, idx);
    r
  }

  /** The rounds `i .. rounds` of training: the final table and the final id list. */
  function Train(t: Table, ids: seq<int>, i: nat, rounds: int): (r: (Table, seq<int>))
    requires Valid(t) && Known(t.vocab, ids)
    ensures Valid(r.0) && Known(r.0.vocab, r.1)
    decreases rounds - i
  {
    if i >= rounds || |ids| < 2 then (t, ids)
    else Train(Learned(t, ids, 256 + i), Merged(ids, Best(ids), 256 + i), i + 1, rounds)
  }

  /** Each learned id is a fresh one of the first `i`, larger than both of its parts. */
  ghost predicate LearnedIds(merges: map<Pair, int>, i: nat) {
    forall p :: p in merges ==> p.0 < merges[p] && p.1 < merges[p] && 256 <= merges[p] < 256 + i
  }

  /** No learned pair occurs in `ids` any more. */
  ghost predicate Exhausted(merges: map<Pair, int>, ids: seq<int>) {
    forall p :: p in merges ==> p !in Pairs(ids)
  }

  ghost predicate IdsBelow(ids: seq<int>, bound: int) {
    forall j :: 0 <= j < |ids| ==> ids[j] < bound
  }

  lemma IdsBelowAfterMerge(ids: seq<int>, p: Pair, idx: int)
    requires IdsBelow(ids, idx)
    ensures IdsBelow(Merged(ids, p, idx), idx + 1)
  {
    var out := Merged(ids, p, idx);
    forall j | 0 <= j < |out|
      ensures out[j] < idx + 1
    {
      MergedMember(ids, p, idx, out[j]);
    }
  }

  lemma ExhaustedAfterMerge(merges: map<Pair, int>, ids: seq<int>, p: Pair, i: nat)
    requires LearnedIds(merges, i) && Exhausted(merges, ids) && p.0 < 256 + i && p.1 < 256 + i
    ensures Exhausted(merges[p := 256 + i], Merged(ids, p, 256 + i))
  {
    var more := merges[p := 256 + i];
    forall q | q in more
      ensures q !in Pairs(Merged(ids, p, 256 + i))
    {
      if q in Pairs(Merged(ids, p, 256 + i)) {
        MergedPairs(ids, p, 256 + i, q);
      }
    }
  }

  /** One round of the training loop, written out. */
  lemma TrainUnfolds(t: Table, ids: seq<int>, i: nat, rounds: int)
    requires Valid(t) && Known(t.vocab, ids)
    requires i < rounds && |ids| >= 2
    ensures Best(ids) == BestPair(Stats(ids)) && Best(ids).0 in t.vocab && Best(ids).1 in t.vocab
    ensures Valid(WithMerge(t, Best(ids), 256 + i))
    ensures Known(WithMerge(t, Best(ids), 256 + i).vocab, Merged(ids, Best(ids), 256 + i))
    ensures Train(t, ids, i, rounds) ==
            Train(WithMerge(t, Best(ids), 256 + i), Merged(ids, Best(ids), 256 + i), i + 1, rounds)
  {
    KnownMembers(t.vocab, ids, Best(ids).0);
    KnownMembers(t.vocab, ids, Best(ids).1);
    assert Learned(t, ids, 256 + i) == WithMerge(t, Best(ids), 256 + i);
  }

  /** Marks the training states that are looked up. */
  predicate Reached(t: Table, ids: seq<int>, i: nat) {
    true
  }

  /** `end` names the table training ends with, so that the loop's proof does not unfold the remaining rounds. */
  ghost predicate NamesTraining(end: (Table, seq<int>, nat) -> Table, rounds: int) {
    forall t: Table, ids, i: nat {:trigger Reached(t, ids, i)} ::
      Reached(t, ids, i) && Valid(t) && Known(t.vocab, ids) ==> end(t, ids, i) == Train(t, ids, i, rounds).0
  }

  /** What holds after `i` rounds that started from an empty table. */
  ghost predicate Trained(t: Table, ids: seq<int>, i: nat) {
    LearnedIds(t.merges.at, i) && Exhausted(t.merges.at, ids) && IdsBelow(ids, 256 + i)
  }

  lemma TrainedAfterMerge(merges: map<Pair, int>, ids: seq<int>, p: Pair, i: nat)
    requires LearnedIds(merges, i) && Exhausted(merges, ids) && IdsBelow(ids, 256 + i)
    requires p in Pairs(ids) && p.0 in ids && p.1 in ids
    ensures var more, out := merges[p := 256 + i], Merged(ids, p, 256 + i);
            LearnedIds(more, i + 1) && Exhausted(more, out) && IdsBelow(out, 256 + i + 1) && p !in merges
  {
    ExhaustedAfterMerge(merges, ids, p, i);
    IdsBelowAfterMerge(ids, p, 256 + i);
  }

  lemma LearnedIsPut(t: Table, ids: seq<int>, idx: int)
    requires Valid(t) && Known(t.vocab, ids) && |ids| >= 2
    ensures Learned(t, ids, idx).merges.at == t.merges.at[Best(ids) := idx]
  {
  }

  /** A round learns a pair that is new and leaves no learned pair behind. */
  lemma TrainingStep(t: Table, ids: seq<int>, i: nat)
    requires Valid(t) && Known(t.vocab, ids) && |ids| >= 2 && Trained(t, ids, i)
    ensures Trained(Learned(t, ids, 256 + i), Merged(ids, Best(ids), 256 + i), i + 1)
    ensures Best(ids) !in t.merges.at
    ensures Learned(t, ids, 256 + i).merges.at == t.merges.at[Best(ids) := 256 + i]
  {
    LearnedIsPut(t, ids, 256 + i);
    TrainedAfterMerge(t.merges.at, ids, Best(ids), i);
  }

  /** `later` keeps the entries of `merges`; all its others have ids of at least `bound`. */
  ghost predicate Extends(later: map<Pair, int>, merges: map<Pair, int>, bound: int) {
    && (forall p :: p in merges ==> p in later && later[p] == merges[p])
    && (forall p :: p in later && p !in merges ==> bound <= later[p])
  }

  /** A round's pair is the lowest one that any extension of its table by later rounds can merge. */
  lemma RoundIsReplayed(merges: map<Pair, int>, ids: seq<int>, later: map<Pair, int>, i: nat)
    requires |ids| >= 2 && Exhausted(merges, ids) && Best(ids) !in merges
    requires Extends(later, merges[Best(ids) := 256 + i], 257 + i)
    ensures Extends(later, merges, 256 + i)
    ensures EncodeIds(later, ids) == EncodeIds(later, Merged(ids, Best(ids), 256 + i))
  {
    var best := Best(ids);
    ExtendsEarlier(later, merges, best, 256 + i);
    LowestIsNext(later, ids, best);
  }

  lemma ExtendsEarlier(later: map<Pair, int>, merges: map<Pair, int>, p: Pair, idx: int)
    requires p !in merges && Extends(later, merges[p := idx], idx + 1)
    ensures Extends(later, merges, idx) && p in later && later[p] == idx
  {
    var more := merges[p := idx];
    assert p in more;
    forall q | q in later && q !in merges
      ensures idx <= later[q]
    {
      assert q == p || q !in more;
    }
    forall q | q in merges
      ensures q in later && later[q] == merges[q]
    {
      assert q in more;
    }
  }

  lemma LowestIsNext(merges: map<Pair, int>, ids: seq<int>, p: Pair)
    requires p in Pairs(ids) && p in merges
    requires forall q :: q in Pairs(ids) && q in merges && q != p ==> merges[p] < merges[q]
    ensures NextMerge(merges, ids) == Some(p)
  {
  }

  /** Later rounds only add entries with higher ids, and encoding with the final table replays them. */
  lemma {:induction false} EncodeReplaysRounds(t: Table, ids: seq<int>, i: nat, rounds: int)
    requires Valid(t) && Known(t.vocab, ids) && Trained(t, ids, i)
    ensures Extends(Train(t, ids, i, rounds).0.merges.at, t.merges.at, 256 + i)
    ensures EncodeIds(Train(t, ids, i, rounds).0.merges.at, ids) == Train(t, ids, i, rounds).1
    decreases rounds - i
  {
    var later := Train(t, ids, i, rounds).0.merges.at;
    if i >= rounds || |ids| < 2 {
      assert NextMerge(later, ids).None?;
    } else {
      var best, idx := Best(ids), 256 + i;
      TrainingStep(t, ids, i);
      EncodeReplaysRounds(Learned(t, ids, idx), Merged(ids, best, idx), i + 1, rounds);
      RoundIsReplayed(t.merges.at, ids, later, i);
    }
  }
}
