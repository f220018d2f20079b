/** Insertion-ordered accumulation, the way the program's loops use a dict, a
    defaultdict or a Counter: each key keeps the place where it was first added
    and holds the sum of everything added under it. Also Counter.most_common(n):
    the entries by decreasing count, equal counts in insertion order. */
module Tally {
  import opened Wrappers

  /** The keys of a sequence of (key, amount) pairs. */
  function Keys<K>(s: seq<(K, int)>): (ks: seq<K>)
    ensures |ks| == |s| && forall i :: 0 <= i < |s| ==> ks[i] == s[i].0
  {
    seq(|s|, i requires 0 <= i < |s| => s[i].0)
  }

  predicate Distinct<K(==)>(ks: seq<K>) {
    forall i, j :: 0 <= i < j < |ks| ==> ks[i] != ks[j]
  }

  /** The distinct elements of ks, each where it first occurs. */
  function FirstSeen<K(==)>(ks: seq<K>): (r: seq<K>)
    ensures forall x :: x in r ==> x in ks
  {
    if ks == [] then []
    else
      var init := ks[..|ks| - 1];
      var s := FirstSeen(init);
      if ks[|ks| - 1] in s then s else s + [ks[|ks| - 1]]
  }

  /** The position of the first occurrence of k in ks. */
  function FirstIndex<K(==)>(ks: seq<K>, k: K): (i: nat)
    requires k in ks
    ensures i < |ks| && ks[i] == k && k !in ks[..i]
  {
    if ks[0] == k then 0 else 1 + FirstIndex(ks[1..], k)
  }

  /** The sum of the amounts added under key k. */
  function Total<K(==)>(s: seq<(K, int)>, k: K): int {
    if s == [] then 0
    else Total(s[..|s| - 1], k) + (if s[|s| - 1].0 == k then s[|s| - 1].1 else 0)
  }

  /** The sum of all amounts. */
  function Sum<K>(s: seq<(K, int)>): int {
    if s == [] then 0 else Sum(s[..|s| - 1]) + s[|s| - 1].1
  }

  /** What the accumulation loop leaves in the dict: one entry per distinct
      key, in first-seen order, holding that key's total. */
  function Accumulated<K(==)>(s: seq<(K, int)>): seq<(K, int)> {
    var ks := FirstSeen(Keys(s));
    seq(|ks|, i requires 0 <= i < |ks| => (ks[i], Total(s, ks[i])))
  }

  /** The position of the entry with key k, or -1 (a dict lookup). */
  function Find<K(==)>(t: seq<(K, int)>, k: K): (i: int)
    ensures -1 <= i < |t|
    ensures i >= 0 ==> t[i].0 == k
    ensures i < 0 ==> forall j :: 0 <= j < |t| ==> t[j].0 != k
  {
    if t == [] then -1
    else if t[0].0 == k then 0
    else var j := Find(t[1..], k); if j < 0 then -1 else j + 1
  }

  lemma {:induction false} FirstSeenMembers<K>(ks: seq<K>)
    ensures forall x :: x in FirstSeen(ks) <==> x in ks
  {
    if ks != [] {
      var init := ks[..|ks| - 1];
      FirstSeenMembers(init);
      assert ks == init + [ks[|ks| - 1]];
    }
  }

  /** The keys of the accumulated dict are pairwise different. */
  lemma {:induction false} FirstSeenDistinct<K>(ks: seq<K>)
    ensures Distinct(FirstSeen(ks))
  {
    if ks != [] {
      FirstSeenDistinct(ks[..|ks| - 1]);
    }
  }

  /** The first occurrence is the one position holding k with no k before it. */
  lemma {:induction false} FirstIndexUnique<K>(ks: seq<K>, k: K, i: nat)
    requires i < |ks| && ks[i] == k && k !in ks[..i]
    ensures FirstIndex(ks, k) == i
  {
    if i > 0 {
      assert ks[0] == ks[..i][0];
      assert ks[1..][..i - 1] == ks[..i][1..];
      FirstIndexUnique(ks[1..], k, i - 1);
    }
  }

  lemma FirstIndexAppend<K>(ks: seq<K>, x: K, k: K)
    requires k in ks
    ensures FirstIndex(ks + [x], k) == FirstIndex(ks, k)
  {
    var i := FirstIndex(ks, k);
    assert (ks + [x])[..i] == ks[..i];
    FirstIndexUnique(ks + [x], k, i);
  }

  lemma FirstIndexNew<K>(ks: seq<K>, k: K)
    requires k !in ks
    ensures FirstIndex(ks + [k], k) == |ks|
  {
    assert (ks + [k])[..|ks|] == ks;
    FirstIndexUnique(ks + [k], k, |ks|);
  }

  lemma FirstSeenAt<K>(ks: seq<K>, i: nat)
    requires i < |FirstSeen(ks)|
    ensures FirstSeen(ks)[i] in ks
  {
    FirstSeenMembers(ks);
    assert FirstSeen(ks)[i] in FirstSeen(ks);
  }

  /** a occurs in ks before every occurrence of b. */
  ghost predicate SeenBefore<K>(ks: seq<K>, a: K, b: K) {
    forall p :: 0 <= p < |ks| && ks[p] == b ==> a in ks[..p]
  }

  lemma SeenBeforeAppend<K>(init: seq<K>, last: K, a: K, b: K)
    requires a in init && SeenBefore(init, a, b)
    ensures SeenBefore(init + [last], a, b)
  {
    var ks := init + [last];
    forall p | 0 <= p < |ks| && ks[p] == b ensures a in ks[..p] {
      if p < |init| {
        assert ks[..p] == init[..p];
      } else {
        assert ks[..p] == init;
      }
    }
  }

  /** The keys of the accumulated dict appear in the order in which each was
      first added: each key is added before any key that follows it. */
  lemma {:induction false} FirstSeenOrder<K>(ks: seq<K>)
    ensures forall i, j :: 0 <= i < j < |FirstSeen(ks)| ==>
      SeenBefore(ks, FirstSeen(ks)[i], FirstSeen(ks)[j])
  {
    if ks != [] {
      var init, last := ks[..|ks| - 1], ks[|ks| - 1];
      assert ks == init + [last];
      FirstSeenOrder(init);
      FirstSeenMembers(init);
      var r0, r := FirstSeen(init), FirstSeen(ks);
      forall i, j | 0 <= i < j < |r| ensures SeenBefore(ks, r[i], r[j]) {
        assert r[i] == r0[i];
        FirstSeenAt(init, i);
        if j < |r0| {
          assert r[j] == r0[j];
        } else {
          assert r[j] == last && last !in init;
        }
        SeenBeforeAppend(init, last, r[i], r[j]);
      }
    }
  }

  lemma TotalAppend<K>(s: seq<(K, int)>, p: (K, int), k: K)
    ensures Total(s + [p], k) == Total(s, k) + (if p.0 == k then p.1 else 0)
  {
    assert (s + [p])[..|s|] == s;
  }

  lemma {:induction false} TotalAbsent<K>(s: seq<(K, int)>, k: K)
    requires k !in Keys(s)
    ensures Total(s, k) == 0
  {
    if s != [] {
      var init := s[..|s| - 1];
      assert Keys(init) == Keys(s)[..|s| - 1];
      TotalAbsent(init, k);
    }
  }

  lemma KeysAppend<K>(s: seq<(K, int)>, p: (K, int))
    ensures Keys(s + [p]) == Keys(s) + [p.0]
  {
  }

  lemma {:induction false} TotalConcat<K>(a: seq<(K, int)>, b: seq<(K, int)>, k: K)
    ensures Total(a + b, k) == Total(a, k) + Total(b, k)
  {
    if b != [] {
      var b0, q := b[..|b| - 1], b[|b| - 1];
      assert a + b == (a + b0) + [q] && b == b0 + [q];
      TotalConcat(a, b0, k);
      TotalAppend(a + b0, q, k);
      TotalAppend(b0, q, k);
    } else {
      assert a + b == a;
    }
  }

  /** Taking out the pair at position j takes its amount off its key's total. */
  lemma TotalRemove<K>(s: seq<(K, int)>, j: nat, k: K)
    requires j < |s|
    ensures Total(s[..j] + s[j + 1..], k) == Total(s, k) - (if s[j].0 == k then s[j].1 else 0)
  {
    var a, x, b := s[..j], s[j], s[j + 1..];
    assert a + [x] == s[..j + 1];
    assert s[..j + 1] + b == s;
    TotalConcat(a + [x], b, k);
    TotalAppend(a, x, k);
    TotalConcat(a, b, k);
  }

  /** In a sequence with distinct keys, a key's total is its one amount. */
  lemma {:induction false} TotalOfDistinct<K>(t: seq<(K, int)>, i: nat)
    requires Distinct(Keys(t)) && i < |t|
    ensures Total(t, t[i].0) == t[i].1
  {
    var init := t[..|t| - 1];
    assert Keys(init) == Keys(t)[..|t| - 1];
    TotalAppend(init, t[|t| - 1], t[i].0);
    assert init + [t[|t| - 1]] == t;
    if i == |t| - 1 {
      assert t[i].0 !in Keys(init);
      TotalAbsent(init, t[i].0);
    } else {
      TotalOfDistinct(init, i);
    }
  }

  /** The accumulated dict holds, under each key, the key's total. */
  lemma TallyTotal<K>(s: seq<(K, int)>, k: K)
    ensures Total(Accumulated(s), k) == Total(s, k)
  {
    var t := Accumulated(s);
    var ks := FirstSeen(Keys(s));
    FirstSeenMembers(Keys(s));
    FirstSeenDistinct(Keys(s));
    assert Keys(t) == ks;
    if k in Keys(s) {
      var i := FirstIndex(ks, k);
      TotalOfDistinct(t, i);
    } else {
      TotalAbsent(s, k);
      TotalAbsent(t, k);
    }
  }

  /** One pass of the accumulation loop: adding (k, v) either adds v to the
      existing entry for k, in place, or appends a new entry (k, v). */
  lemma TallyStep<K>(s: seq<(K, int)>, p: (K, int))
    ensures var t := Accumulated(s); var i := Find(t, p.0);
      Accumulated(s + [p]) == if i < 0 then t + [p] else t[i := (p.0, t[i].1 + p.1)]
  {
    var t := Accumulated(s);
    var i := Find(t, p.0);
    var ks := FirstSeen(Keys(s));
    KeysAppend(s, p);
    assert (Keys(s) + [p.0])[..|s|] == Keys(s);
    FirstSeenMembers(Keys(s));
    FirstSeenDistinct(Keys(s));
    forall k { TotalAppend(s, p, k); }
    var t' := Accumulated(s + [p]);
    if i < 0 {
      forall j | 0 <= j < |ks| ensures ks[j] != p.0 {
        assert t[j].0 == ks[j];
      }
      TotalAbsent(s, p.0);
      assert t' == t + [p];
    } else {
      assert ks[i] == p.0;
      assert t' == t[i := (p.0, t[i].1 + p.1)];
    }
  }

  lemma SumAppend<K>(t: seq<(K, int)>, p: (K, int))
    ensures Sum(t + [p]) == Sum(t) + p.1
  {
    assert (t + [p])[..|t|] == t;
  }

  lemma {:induction false} SumUpdate<K>(t: seq<(K, int)>, i: nat, e: (K, int))
    requires i < |t|
    ensures Sum(t[i := e]) == Sum(t) - t[i].1 + e.1
  {
    var u := t[i := e];
    if i < |t| - 1 {
      assert u[..|u| - 1] == t[..|t| - 1][i := e];
      SumUpdate(t[..|t| - 1], i, e);
    } else {
      assert u[..|u| - 1] == t[..|t| - 1];
    }
  }

  /** Accumulating loses nothing and adds nothing: the entries' values sum to
      the sum of everything added. */
  lemma {:induction false} TallyConserves<K>(s: seq<(K, int)>)
    ensures Sum(Accumulated(s)) == Sum(s)
  {
    if s != [] {
      var init, p := s[..|s| - 1], s[|s| - 1];
      assert s == init + [p];
      TallyConserves(init);
      TallyStep(init, p);
      var t := Accumulated(init);
      var i := Find(t, p.0);
      if i < 0 {
        SumAppend(t, p);
      } else {
        SumUpdate(t, i, (p.0, t[i].1 + p.1));
      }
    }
  }

  /** With pairwise different keys, the dict holds exactly the pairs added. */
  lemma {:induction false} TallyOfDistinct<K>(s: seq<(K, int)>)
    requires Distinct(Keys(s))
    ensures Accumulated(s) == s
  {
    if s != [] {
      var init, p := s[..|s| - 1], s[|s| - 1];
      assert s == init + [p];
      assert Keys(init) == Keys(s)[..|s| - 1];
      TallyOfDistinct(init);
      TallyStep(init, p);
      forall j | 0 <= j < |init| ensures init[j].0 != p.0 {
        assert Keys(s)[j] == init[j].0 && Keys(s)[|s| - 1] == p.0;
      }
    }
  }

  /** When every pair has the same key, the dict holds one entry with the sum. */
  lemma {:induction false} TallyOfOneKey<K>(s: seq<(K, int)>, k: K)
    requires s != [] && forall i :: 0 <= i < |s| ==> s[i].0 == k
    ensures Accumulated(s) == [(k, Sum(s))]
  {
    var init, p := s[..|s| - 1], s[|s| - 1];
    assert s == init + [p];
    TallyStep(init, p);
    if init == [] {
      assert Accumulated(init) == [];
      assert Sum(s) == p.1;
    } else {
      TallyOfOneKey(init, k);
      assert Find(Accumulated(init), k) == 0;
    }
  }

  // ---- Counter.most_common(n) ----

  /** Counts do not increase along t. */
  predicate NonIncreasing<K>(t: seq<(K, int)>) {
    forall i, j :: 0 <= i < j < |t| ==> t[i].1 >= t[j].1
  }

  /** The entries of t whose count is c, in their order in t. */
  function WithCount<K>(t: seq<(K, int)>, c: int): seq<(K, int)> {
    if t == [] then [] else (if t[0].1 == c then [t[0]] else []) + WithCount(t[1..], c)
  }

  /** Places e after every entry whose count is at least e's count. */
  function Insert<K>(e: (K, int), t: seq<(K, int)>): (r: seq<(K, int)>)
    ensures multiset(r) == multiset(t) + multiset{e}
  {
    if t == [] || t[0].1 < e.1 then [e] + t
    else
      assert t == [t[0]] + t[1..];
      [t[0]] + Insert(e, t[1..])
  }

  /** A stable sort by decreasing count (Python's sorted(..., reverse=True)
      keyed on the count), built by inserting each entry in turn. */
  function SortByCount<K>(s: seq<(K, int)>): seq<(K, int)> {
    if s == [] then [] else Insert(s[|s| - 1], SortByCount(s[..|s| - 1]))
  }

  /** Counter.most_common(n): the n entries with the highest counts. */
  function MostCommon<K>(s: seq<(K, int)>, n: nat): seq<(K, int)> {
    var sorted := SortByCount(s);
    if |sorted| <= n then sorted else sorted[..n]
  }

  lemma {:induction false} WithCountAppend<K>(a: seq<(K, int)>, b: seq<(K, int)>, c: int)
    ensures WithCount(a + b, c) == WithCount(a, c) + WithCount(b, c)
  {
    if a != [] {
      assert (a + b)[1..] == a[1..] + b;
      WithCountAppend(a[1..], b, c);
    } else {
      assert a + b == b;
    }
  }

  lemma {:induction false} WithCountNone<K>(t: seq<(K, int)>, c: int)
    requires forall i :: 0 <= i < |t| ==> t[i].1 < c
    ensures WithCount(t, c) == []
  {
    if t != [] {
      WithCountNone(t[1..], c);
    }
  }

  lemma {:induction false} InsertSorted<K>(e: (K, int), t: seq<(K, int)>)
    requires NonIncreasing(t)
    ensures NonIncreasing(Insert(e, t))
  {
    if t != [] && t[0].1 >= e.1 {
      var rest := Insert(e, t[1..]);
      InsertSorted(e, t[1..]);
      forall y | y in rest ensures y.1 <= t[0].1 {
        assert y in multiset(rest);
        if y != e {
          assert y in multiset(t[1..]);
        }
      }
    }
  }

  lemma {:induction false} InsertStable<K>(e: (K, int), t: seq<(K, int)>, c: int)
    requires NonIncreasing(t)
    ensures WithCount(Insert(e, t), c) == WithCount(t, c) + (if e.1 == c then [e] else [])
  {
    if t == [] || t[0].1 < e.1 {
      InsertFrontStable(e, t, c);
    } else {
      var rest := Insert(e, t[1..]);
      assert Insert(e, t) == [t[0]] + rest;
      assert NonIncreasing(t[1..]);
      InsertStable(e, t[1..], c);
      WithCountCons(t[0], rest, c);
      WithCountCons(t[0], t[1..], c);
      assert [t[0]] + t[1..] == t;
      var head, tail := if t[0].1 == c then [t[0]] else [], if e.1 == c then [e] else [];
      AppendAssoc(head, WithCount(t[1..], c), tail);
    }
  }

  /** An entry placed in front of a list with smaller counts comes after them
      among the entries of its own count. */
  lemma InsertFrontStable<K>(e: (K, int), t: seq<(K, int)>, c: int)
    requires NonIncreasing(t) && (t == [] || t[0].1 < e.1)
    ensures WithCount(Insert(e, t), c) == WithCount(t, c) + (if e.1 == c then [e] else [])
  {
    assert Insert(e, t) == [e] + t;
    WithCountCons(e, t, c);
    if e.1 == c {
      WithCountNone(t, c);
    }
  }

  lemma AppendAssoc<T>(a: seq<T>, b: seq<T>, c: seq<T>)
    ensures a + (b + c) == (a + b) + c
  {
  }

  lemma WithCountCons<K>(x: (K, int), t: seq<(K, int)>, c: int)
    ensures WithCount([x] + t, c) == (if x.1 == c then [x] else []) + WithCount(t, c)
  {
    assert ([x] + t)[0] == x && ([x] + t)[1..] == t;
  }

  /** The sort is a permutation into non-increasing order that keeps entries
      with equal counts in their original order. */
  lemma SortByCountCorrect<K>(s: seq<(K, int)>)
    ensures multiset(SortByCount(s)) == multiset(s)
    ensures NonIncreasing(SortByCount(s))
    ensures forall c :: WithCount(SortByCount(s), c) == WithCount(s, c)
  {
    SortByCountPermutes(s);
    SortByCountOrdered(s);
    forall c ensures WithCount(SortByCount(s), c) == WithCount(s, c) {
      SortByCountStable(s, c);
    }
  }

  lemma {:induction false} SortByCountPermutes<K>(s: seq<(K, int)>)
    ensures multiset(SortByCount(s)) == multiset(s)
  {
    if s != [] {
      var init, last := s[..|s| - 1], s[|s| - 1];
      assert s == init + [last];
      SortByCountPermutes(init);
    }
  }

  lemma {:induction false} SortByCountOrdered<K>(s: seq<(K, int)>)
    ensures NonIncreasing(SortByCount(s))
  {
    if s != [] {
      var init := s[..|s| - 1];
      SortByCountOrdered(init);
      InsertSorted(s[|s| - 1], SortByCount(init));
    }
  }

  lemma {:induction false} SortByCountStable<K>(s: seq<(K, int)>, c: int)
    ensures WithCount(SortByCount(s), c) == WithCount(s, c)
  {
    if s != [] {
      var init, last := s[..|s| - 1], s[|s| - 1];
      assert s == init + [last];
      var one := if last.1 == c then [last] else [];
      WithCountAppend(init, [last], c);
      assert [last][1..] == [];
      assert WithCount(s, c) == WithCount(init, c) + one;
      var sorted := SortByCount(init);
      assert SortByCount(s) == Insert(last, sorted);
      SortByCountOrdered(init);
      InsertStable(last, sorted, c);
      SortByCountStable(init, c);
    }
  }

  lemma SortByCountLength<K>(s: seq<(K, int)>)
    ensures |SortByCount(s)| == |s|
  {
    SortByCountCorrect(s);
    assert |multiset(SortByCount(s))| == |multiset(s)|;
  }

  /** Counter.most_common(n) returns min(n, |s|) of the entries, by count with
      no increases. */
  lemma MostCommonSorted<K>(s: seq<(K, int)>, n: nat)
    ensures |MostCommon(s, n)| == if |s| <= n then |s| else n
    ensures multiset(MostCommon(s, n)) <= multiset(s)
    ensures NonIncreasing(MostCommon(s, n))
  {
    var sorted := SortByCount(s);
    SortByCountCorrect(s);
    SortByCountLength(s);
    PrefixOfSorted(sorted, if |sorted| <= n then |sorted| else n);
  }

  lemma PrefixOfSorted<K>(t: seq<(K, int)>, k: nat)
    requires k <= |t| && NonIncreasing(t)
    ensures multiset(t[..k]) <= multiset(t) && NonIncreasing(t[..k])
  {
    assert t == t[..k] + t[k..];
    assert multiset(t) == multiset(t[..k]) + multiset(t[k..]);
  }

  /** Entries with equal counts come out of most_common in first-encountered
      order: those returned are the first ones with that count. */
  lemma MostCommonKeepsTies<K>(s: seq<(K, int)>, n: nat, c: int)
    ensures var w := WithCount(MostCommon(s, n), c);
      |w| <= |WithCount(s, c)| && w == WithCount(s, c)[..|w|]
  {
    var sorted := SortByCount(s);
    SortByCountCorrect(s);
    var r := MostCommon(s, n);
    assert sorted == r + sorted[|r|..];
    WithCountAppend(r, sorted[|r|..], c);
  }

  /** Every entry that most_common leaves out has a count no higher than any
      entry it returns. */
  lemma MostCommonIsTop<K>(s: seq<(K, int)>, n: nat)
    ensures forall x, y :: x in s && x !in MostCommon(s, n) && y in MostCommon(s, n) ==> x.1 <= y.1
  {
    var sorted := SortByCount(s);
    SortByCountCorrect(s);
    var r := MostCommon(s, n);
    var m := |r|;
    assert r == sorted[..m];
    forall x, y | x in s && x !in r && y in r ensures x.1 <= y.1 {
      assert x in multiset(sorted);
      var j :| 0 <= j < |sorted| && sorted[j] == x;
      var i :| 0 <= i < m && r[i] == y;
      forall k | 0 <= k < m ensures sorted[k] != x {
        assert r[k] == sorted[k] && r[k] in r;
      }
    }
  }

  // ---- the rows a loop counts ----

  /** The pairs f reads from the elements of xs, in order, leaving out the
      elements f rejects (the rows a loop skips on ValueError or IndexError). */
  function Picked<T, K>(xs: seq<T>, f: T -> Option<(K, int)>): seq<(K, int)> {
    if xs == [] then []
    else
      var p := f(xs[|xs| - 1]);
      Picked(xs[..|xs| - 1], f) + (if p.Some? then [p.value] else [])
  }

  lemma PickedStep<T, K>(xs: seq<T>, f: T -> Option<(K, int)>, k: nat)
    requires k < |xs|
    ensures Picked(xs[..k + 1], f) == Picked(xs[..k], f) + (if f(xs[k]).Some? then [f(xs[k]).value] else [])
  {
    assert xs[..k + 1][..k] == xs[..k];
  }

  lemma {:induction false} PickedConcat<T, K>(a: seq<T>, b: seq<T>, f: T -> Option<(K, int)>)
    ensures Picked(a + b, f) == Picked(a, f) + Picked(b, f)
  {
    if b != [] {
      var b0 := b[..|b| - 1];
      assert (a + b)[..|a + b| - 1] == a + b0 && (a + b)[|a + b| - 1] == b[|b| - 1];
      PickedConcat(a, b0, f);
    } else {
      assert a + b == a;
    }
  }

  /** When f accepts every element, the picked pairs are exactly its readings. */
  lemma {:induction false} PickedAll<T, K>(xs: seq<T>, f: T -> Option<(K, int)>, ys: seq<(K, int)>)
    requires |xs| == |ys| && forall i :: 0 <= i < |xs| ==> f(xs[i]) == Some(ys[i])
    ensures Picked(xs, f) == ys
  {
    if xs != [] {
      var n := |xs| - 1;
      PickedAll(xs[..n], f, ys[..n]);
      assert ys == ys[..n] + [ys[n]];
    }
  }

  /** One pass of an accumulation loop: add p's amount to the entry of its
      key, or append a new entry for a key not yet seen. */
  function AddPair<K(==)>(t: seq<(K, int)>, p: (K, int)): seq<(K, int)> {
    var i := Find(t, p.0);
    if i < 0 then t + [p] else t[i := (p.0, t[i].1 + p.1)]
  }

  /** The dict an accumulation loop builds, row by row. */
  function Folded<T, K(==)>(xs: seq<T>, f: T -> Option<(K, int)>): seq<(K, int)> {
    if xs == [] then []
    else
      var t := Folded(xs[..|xs| - 1], f);
      match f(xs[|xs| - 1])
      case None => t
      case Some(p) => AddPair(t, p)
  }

  /** One pass of an accumulation loop over xs: a rejected element leaves the
      dict as it was, an accepted one adds its amount to its key's entry, or
      appends a new entry. */
  lemma AccumulateStep<T, K>(xs: seq<T>, f: T -> Option<(K, int)>, k: nat)
    requires k < |xs|
    ensures var t := Accumulated(Picked(xs[..k], f)); var p := f(xs[k]);
      Accumulated(Picked(xs[..k + 1], f)) == if p.None? then t else AddPair(t, p.value)
  {
    PickedStep(xs, f, k);
    var s := Picked(xs[..k], f);
    if f(xs[k]).Some? {
      TallyStep(s, f(xs[k]).value);
    } else {
      assert s + [] == s;
    }
  }

  /** Folding row by row gives the dict of the pairs read, as Accumulated
      states it. */
  lemma {:induction false} FoldedIsAccumulated<T, K>(xs: seq<T>, f: T -> Option<(K, int)>)
    ensures Folded(xs, f) == Accumulated(Picked(xs, f))
  {
    if xs != [] {
      var k := |xs| - 1;
      assert xs[..k + 1] == xs;
      FoldedIsAccumulated(xs[..k], f);
      AccumulateStep(xs, f, k);
    }
  }

  /** The loop shared by calculate_daily_sales and get_top_10_sales: read
      each row with f, skip the rows it rejects, and add the amount read to the
      entry of the key read, opening a new entry for a key not yet seen. */
  method AccumulateRows<T, K(==)>(rows: seq<T>, f: T -> Option<(K, int)>) returns (t: seq<(K, int)>)
    ensures t == Accumulated(Picked(rows, f))
  {
    t := [];
    for k := 0 to |rows|
      invariant t == Folded(rows[..k], f)
    {
      var p := f(rows[k]);
      assert rows[..k + 1][..k] == rows[..k];
      if p.Some? {
        var i := Find(t, p.value.0);
        if i < 0 {
          t := t + [p.value];
        } else {
          t := t[i := (p.value.0, t[i].1 + p.value.1)];
        }
      }
    }
    assert rows[..|rows|] == rows;
    FoldedIsAccumulated(rows, f);
  }
}
