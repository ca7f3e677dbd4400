/** Python containers and built-ins whose iteration order the modelled code relies on. */
module PyData {
  datatype Option<+T> = None | Some(value: T)

  /** A Python dict: `order` lists the keys in insertion order. */
  datatype Dict<K(==,!new), V> = Dict(order: seq<K>, at: map<K, V>) {
    ghost predicate Valid() {
      && (forall k :: k in order <==> k in at)
      && Distinct(order)
    }

    /** `d[k] = v`: a key that is already present keeps its place. */
    function Put(k: K, v: V): (d: Dict<K, V>)
      requires Valid()
      ensures d.Valid()
    {
      Dict(if k in at then order else order + [k], at[k := v])
    }
  }

  function EmptyDict<K(==,!new), V>(): (d: Dict<K, V>)
    ensures d.Valid()
  {
    Dict([], map[])
  }

  /** `max(xs, key=key)`: the first element whose key no other exceeds. */
  function FirstMax<T>(xs: seq<T>, key: T -> real): (r: T)
    requires xs != []
    ensures r in xs
    ensures forall x :: x in xs ==> key(x) <= key(r)
  {
    var n := |xs| - 1;
    if n == 0 then xs[0] else
      var best := FirstMax(xs[..n], key);
      assert forall x :: x in xs ==> x in xs[..n] || x == xs[n];
      if key(xs[n]) > key(best) then xs[n] else best
  }

  /** Appending elements that do not beat the maximum leaves it in place, ties included. */
  lemma {:induction false} FirstMaxKeepsFirst<T>(xs: seq<T>, more: seq<T>, key: T -> real)
    requires xs != []
    requires forall x :: x in more ==> key(x) <= key(FirstMax(xs, key))
    ensures FirstMax(xs + more, key) == FirstMax(xs, key)
  {
    if more == [] {
      assert xs + more == xs;
    } else {
      var n := |more| - 1;
      FirstMaxKeepsFirst(xs, more[..n], key);
      assert (xs + more)[..|xs + more| - 1] == xs + more[..n];
      assert more[n] in more;
    }
  }

  /** The maximum stands at a place whose predecessors are all smaller. */
  lemma {:induction false} FirstMaxIsFirst<T>(xs: seq<T>, key: T -> real) returns (n: nat)
    requires xs != []
    ensures n < |xs| && xs[n] == FirstMax(xs, key)
    ensures forall i :: 0 <= i < n ==> key(xs[i]) < key(xs[n])
  {
    var m := |xs| - 1;
    if m > 0 {
      var front := xs[..m];
      if key(xs[m]) > key(FirstMax(front, key)) {
        n := m;
        forall i | 0 <= i < m
          ensures key(xs[i]) < key(xs[m])
        {
          assert xs[i] == front[i] && front[i] in front;
        }
      } else {
        n := FirstMaxIsFirst(front, key);
      }
    } else {
      n := 0;
    }
  }

  /** `list(dict.fromkeys(xs))`: each element once, at its first occurrence. */
  function Dedupe<T(==)>(xs: seq<T>): seq<T> {
    if xs == [] then [] else
      var n := |xs| - 1;
      var r := Dedupe(xs[..n]);
      if xs[n] in r then r else r + [xs[n]]
  }

  lemma {:induction false} DedupeMember<T>(xs: seq<T>, x: T)
    ensures x in Dedupe(xs) <==> x in xs
  {
    if xs != [] {
      var n := |xs| - 1;
      DedupeMember(xs[..n], x);
      DedupeMember(xs[..n], xs[n]);
      assert xs == xs[..n] + [xs[n]];
    }
  }

  ghost predicate Distinct<T>(xs: seq<T>) {
    forall i, j :: 0 <= i < j < |xs| ==> xs[i] != xs[j]
  }

  lemma {:induction false} DedupeDistinct<T>(xs: seq<T>)
    ensures Distinct(Dedupe(xs))
  {
    if xs != [] {
      DedupeDistinct(xs[..|xs| - 1]);
    }
  }

  // ----- `sorted(xs, key=key, reverse=True)` -----

  ghost predicate Descending<T>(xs: seq<T>, key: T -> real) {
    forall i, j :: 0 <= i < j < |xs| ==> key(xs[i]) >= key(xs[j])
  }

  /** How many elements stay in front of a newcomer with key `k`: all whose key is at least `k`. */
  function Place<T>(xs: seq<T>, k: real, key: T -> real): (p: nat)
    ensures p <= |xs|
    ensures p > 0 ==> key(xs[p - 1]) >= k
    ensures forall i :: p <= i < |xs| ==> key(xs[i]) < k
  {
    if xs == [] || key(xs[|xs| - 1]) >= k then |xs| else Place(xs[..|xs| - 1], k, key)
  }

  function InsertDesc<T>(xs: seq<T>, x: T, key: T -> real): seq<T> {
    var p := Place(xs, key(x), key);
    xs[..p] + ([x] + xs[p..])
  }

  lemma InsertPermutes<T>(xs: seq<T>, x: T, key: T -> real)
    ensures multiset(InsertDesc(xs, x, key)) == multiset(xs) + multiset{x}
  {
    var p := Place(xs, key(x), key);
    assert xs == xs[..p] + xs[p..];
  }

  lemma DescendingConcat<T>(a: seq<T>, b: seq<T>, key: T -> real)
    requires Descending(a, key) && Descending(b, key)
    requires forall i, j :: 0 <= i < |a| && 0 <= j < |b| ==> key(a[i]) >= key(b[j])
    ensures Descending(a + b, key)
  {
  }

  lemma DescendingParts<T>(xs: seq<T>, p: nat, key: T -> real)
    requires Descending(xs, key) && p <= |xs|
    ensures Descending(xs[..p], key) && Descending(xs[p..], key)
    ensures forall i, j :: 0 <= i < p && 0 <= j < |xs| - p ==> key(xs[..p][i]) >= key(xs[p..][j])
  {
  }

  lemma InsertKeepsOrder<T>(xs: seq<T>, x: T, key: T -> real)
    requires Descending(xs, key)
    ensures Descending(InsertDesc(xs, x, key), key)
  {
    var p := Place(xs, key(x), key);
    DescendingParts(xs, p, key);
    assert forall i :: 0 <= i < p ==> key(xs[..p][i]) >= key(xs[p - 1]);
    DescendingConcat([x], xs[p..], key);
    DescendingConcat(xs[..p], [x] + xs[p..], key);
  }

  /** Descending by key; elements with equal keys keep their order. */
  function SortDesc<T>(xs: seq<T>, key: T -> real): seq<T> {
    if xs == [] then [] else InsertDesc(SortDesc(xs[..|xs| - 1], key), xs[|xs| - 1], key)
  }

  lemma {:induction false} SortDescSorts<T>(xs: seq<T>, key: T -> real)
    ensures Descending(SortDesc(xs, key), key) && multiset(SortDesc(xs, key)) == multiset(xs)
  {
    if xs != [] {
      var n := |xs| - 1;
      SortDescSorts(xs[..n], key);
      InsertKeepsOrder(SortDesc(xs[..n], key), xs[n], key);
      InsertPermutes(SortDesc(xs[..n], key), xs[n], key);
      assert xs == xs[..n] + [xs[n]];
    }
  }

  function WithKey<T>(xs: seq<T>, key: T -> real, k: real): seq<T> {
    if xs == [] then [] else
      var n := |xs| - 1;
      WithKey(xs[..n], key, k) + if key(xs[n]) == k then [xs[n]] else []
  }

  lemma {:induction false} WithKeyConcat<T>(a: seq<T>, b: seq<T>, key: T -> real, k: real)
    ensures WithKey(a + b, key, k) == WithKey(a, key, k) + WithKey(b, key, k)
  {
    if b == [] {
      assert a + b == a;
    } else {
      var n := |b| - 1;
      WithKeyConcat(a, b[..n], key, k);
      assert (a + b)[..|a + b| - 1] == a + b[..n];
    }
  }

  lemma {:induction false} WithKeyNone<T>(xs: seq<T>, key: T -> real, k: real)
    requires forall i :: 0 <= i < |xs| ==> key(xs[i]) != k
    ensures WithKey(xs, key, k) == []
  {
    if xs != [] {
      WithKeyNone(xs[..|xs| - 1], key, k);
    }
  }

  lemma SpliceStable<T>(front: seq<T>, back: seq<T>, x: T, key: T -> real, k: real)
    requires key(x) == k ==> WithKey(back, key, k) == []
    ensures WithKey(front + ([x] + back), key, k) == WithKey(front + back, key, k) + WithKey([x], key, k)
  {
    WithKeyConcat(front, [x] + back, key, k);
    WithKeyConcat([x], back, key, k);
    WithKeyConcat(front, back, key, k);
    if key(x) != k {
      WithKeyNone([x], key, k);
    }
    OneEmpty(WithKey(front, key, k), WithKey(back, key, k), WithKey([x], key, k));
  }

  lemma InsertStable<T>(xs: seq<T>, x: T, key: T -> real, k: real)
    ensures WithKey(InsertDesc(xs, x, key), key, k) == WithKey(xs, key, k) + WithKey([x], key, k)
  {
    var p := Place(xs, key(x), key);
    if key(x) == k {
      WithKeyNone(xs[p..], key, k);
    }
    SpliceStable(xs[..p], xs[p..], x, key, k);
    assert xs == xs[..p] + xs[p..];
  }

  lemma OneEmpty<T>(a: seq<T>, b: seq<T>, c: seq<T>)
    requires b == [] || c == []
    ensures a + (c + b) == (a + b) + c
  {
  }

  /** For every key, sorting keeps the subsequence of elements with that key, order included. */
  lemma {:induction false} SortStable<T>(xs: seq<T>, key: T -> real, k: real)
    ensures WithKey(SortDesc(xs, key), key, k) == WithKey(xs, key, k)
  {
    if xs != [] {
      var n := |xs| - 1;
      SortStable(xs[..n], key, k);
      InsertStable(SortDesc(xs[..n], key), xs[n], key, k);
      WithKeyConcat(xs[..n], [xs[n]], key, k);
      assert xs == xs[..n] + [xs[n]];
    }
  }

  function Take<T>(xs: seq<T>, n: nat): (r: seq<T>)
    ensures |r| == if |xs| < n then |xs| else n
    ensures r <= xs
  {
    if |xs| < n then xs else xs[..n]
  }

  lemma SameSize<T>(a: seq<T>, b: seq<T>)
    requires multiset(a) == multiset(b)
    ensures |a| == |b|
  {
    assert |multiset(a)| == |multiset(b)|;
  }

  lemma SplitMultiset<T>(s: seq<T>, n: nat)
    requires n <= |s|
    ensures multiset(s[..n]) + multiset(s[n..]) == multiset(s)
  {
    assert s == s[..n] + s[n..];
  }

  /** The first `n` of the sorted elements are as many as there are, and none that is left out has a larger key. */
  lemma TakeBest<T>(xs: seq<T>, key: T -> real, n: nat) returns (rest: seq<T>)
    ensures var kept := Take(SortDesc(xs, key), n);
            && |kept| == (if |xs| < n then |xs| else n) && multiset(kept) + multiset(rest) == multiset(xs)
            && forall i, j :: 0 <= i < |kept| && 0 <= j < |rest| ==> key(kept[i]) >= key(rest[j])
  {
    var sorted := SortDesc(xs, key);
    SortDescSorts(xs, key);
    SameSize(sorted, xs);
    var kept := Take(sorted, n);
    rest := sorted[|kept|..];
    SplitMultiset(sorted, |kept|);
    DescendingParts(sorted, |kept|, key);
  }

  /** Where the `i`th element stands among those with its key. */
  lemma WithKeyAt<T>(xs: seq<T>, key: T -> real, i: nat)
    requires i < |xs|
    ensures var same, p := WithKey(xs, key, key(xs[i])), |WithKey(xs[..i], key, key(xs[i]))|;
            p < |same| && same[p] == xs[i] && same[..p] == WithKey(xs[..i], key, key(xs[i]))
  {
    var k := key(xs[i]);
    WithKeyConcat(xs[..i + 1], xs[i + 1..], key, k);
    assert xs == xs[..i + 1] + xs[i + 1..];
    assert xs[..i + 1][..i] == xs[..i];
  }

  /** Elements with equal keys are found among all elements with that key in the order in which they stand. */
  lemma WithKeyOrder<T>(xs: seq<T>, key: T -> real, i: nat, j: nat) returns (p: nat, q: nat)
    requires i < j < |xs| && key(xs[i]) == key(xs[j])
    ensures var same := WithKey(xs, key, key(xs[i]));
            p < q < |same| && same[p] == xs[i] && same[q] == xs[j]
  {
    p, q := |WithKey(xs[..i], key, key(xs[i]))|, |WithKey(xs[..j], key, key(xs[i]))|;
    WithKeyAt(xs, key, i);
    WithKeyAt(xs, key, j);
    WithKeyAt(xs[..j], key, i);
    assert xs[..j][..i] == xs[..i];
  }

  lemma {:induction false} WithKeyDistinct<T>(xs: seq<T>, key: T -> real, k: real)
    requires Distinct(xs)
    ensures Distinct(WithKey(xs, key, k))
    ensures forall x :: x in WithKey(xs, key, k) ==> x in xs
  {
    if xs != [] {
      var n := |xs| - 1;
      WithKeyDistinct(xs[..n], key, k);
      assert xs[n] !in xs[..n];
    }
  }

  lemma WithKeyLonger<T>(xs: seq<T>, key: T -> real, k: real, i: nat, j: nat)
    requires i <= j <= |xs|
    ensures |WithKey(xs[..i], key, k)| <= |WithKey(xs[..j], key, k)|
  {
    WithKeyConcat(xs[..i], xs[i..j], key, k);
    assert xs[..j] == xs[..i] + xs[i..j];
  }

  /** Sorting does not exchange elements with equal keys. */
  lemma SortKeepsTies<T>(xs: seq<T>, key: T -> real, i: nat, j: nat, a: nat, b: nat)
    requires Distinct(xs) && i < |xs| && j < |xs| && key(xs[i]) == key(xs[j])
    requires a < b < |SortDesc(xs, key)| && SortDesc(xs, key)[a] == xs[i] && SortDesc(xs, key)[b] == xs[j]
    ensures i < j
  {
    var k := key(xs[i]);
    var p, q := WithKeyOrder(SortDesc(xs, key), key, a, b);
    SortStable(xs, key, k);
    WithKeyDistinct(xs, key, k);
    WithKeyAt(xs, key, i);
    WithKeyAt(xs, key, j);
    if j < i {
      WithKeyLonger(xs, key, k, j, i);
    }
  }

  lemma FoundInSorted<T>(xs: seq<T>, key: T -> real, x: T) returns (a: nat)
    requires x in xs
    ensures a < |SortDesc(xs, key)| && SortDesc(xs, key)[a] == x
  {
    SortDescSorts(xs, key);
    assert x in multiset(xs);
    assert x in multiset(SortDesc(xs, key));
    a :| 0 <= a < |SortDesc(xs, key)| && SortDesc(xs, key)[a] == x;
  }

  /** Of distinct elements, one that is left out has a smaller key than each that is kept, or the same key and a later place. */
  lemma TakeBestFirst<T>(xs: seq<T>, key: T -> real, n: nat, i: nat, j: nat)
    requires Distinct(xs) && i < |xs| && j < |xs|
    requires xs[i] in Take(SortDesc(xs, key), n) && xs[j] !in Take(SortDesc(xs, key), n)
    ensures key(xs[i]) > key(xs[j]) || (key(xs[i]) == key(xs[j]) && i < j)
  {
    var kept := Take(SortDesc(xs, key), n);
    var a :| 0 <= a < |kept| && kept[a] == xs[i];
    var b := FoundInSorted(xs, key, xs[j]);
    assert b >= |kept|;
    SortDescSorts(xs, key);
    if key(xs[i]) == key(xs[j]) {
      SortKeepsTies(xs, key, i, j, a, b);
    }
  }

  // ----- `any` -----

  ghost predicate Any<T>(xs: seq<T>, p: T -> bool) {
    exists i :: 0 <= i < |xs| && p(xs[i])
  }

  lemma AnyLast<T>(xs: seq<T>, n: nat, p: T -> bool)
    requires |xs| == n + 1
    ensures Any(xs, p) <==> Any(xs[..n], p) || p(xs[n])
  {
    if Any(xs[..n], p) {
      var i :| 0 <= i < n && p(xs[..n][i]);
      assert p(xs[i]);
    }
    if Any(xs, p) {
      var i :| 0 <= i < |xs| && p(xs[i]);
      if i < n {
        assert p(xs[..n][i]);
      }
    }
  }
}
