/** Python's `collections.Counter` as the statistics endpoints use it:
    counting a sequence of keys (keys kept in first-occurrence order, as a
    dict keeps insertion order), ordering by count with a stable sort, and
    `most_common(n)`. */
module Counter {
  function Min(a: int, b: int): int {
    if a <= b then a else b
  }

  /** One `(key, count)` pair of a tally. */
  datatype Entry<K> = Entry(key: K, count: nat)

  predicate HasKey<K(==)>(es: seq<Entry<K>>, k: K) {
    exists i :: 0 <= i < |es| && es[i].key == k
  }

  predicate DistinctKeys<K(==)>(es: seq<Entry<K>>) {
    forall i, j :: 0 <= i < j < |es| ==> es[i].key != es[j].key
  }

  /** Every entry carries a key of `xs` and that key's number of occurrences. */
  predicate CountsOf<K(==)>(es: seq<Entry<K>>, xs: seq<K>) {
    forall i :: 0 <= i < |es| ==> es[i].key in xs && es[i].count == multiset(xs)[es[i].key]
  }

  /** Every key of `xs` has an entry. */
  predicate Covers<K(==)>(es: seq<Entry<K>>, xs: seq<K>) {
    forall k :: k in xs ==> HasKey(es, k)
  }

  /** Entries strictly ordered by `rank` of their keys. */
  predicate RankOrdered<K>(es: seq<Entry<K>>, rank: K -> int) {
    forall i, j :: 0 <= i < j < |es| ==> rank(es[i].key) < rank(es[j].key)
  }

  /** Entries ordered by descending count, equal counts by ascending `rank`. */
  predicate CountThenRank<K>(es: seq<Entry<K>>, rank: K -> int) {
    forall i, j :: 0 <= i < j < |es| ==>
      es[i].count > es[j].count || (es[i].count == es[j].count && rank(es[i].key) < rank(es[j].key))
  }

  /** Index of the first occurrence of `k` in `xs`, or `|xs|` when absent. */
  function Position<K(==)>(xs: seq<K>, k: K): (r: nat)
    ensures r <= |xs|
    ensures r < |xs| <==> k in xs
    ensures r < |xs| ==> xs[r] == k
    ensures forall j :: 0 <= j < r ==> xs[j] != k
  {
    if xs == [] then 0 else if xs[0] == k then 0 else 1 + Position(xs[1..], k)
  }

  /** The rank that orders keys by first occurrence in `xs`. */
  /** Entry `e` is ranked ahead of key `k`, which occurs `c` times in
      `xs`: it is more common, or as common and seen earlier. */
  predicate Outranks<K(==)>(e: Entry<K>, k: K, c: int, xs: seq<K>) {
    e.count > c || (e.count == c && Position(xs, e.key) < Position(xs, k))
  }

  function FirstSeen<K(==)>(xs: seq<K>): K -> int {
    k => Position(xs, k) as int
  }

  lemma {:induction false} PositionExtend<K>(xs: seq<K>, x: K, k: K)
    requires k in xs
    ensures Position(xs + [x], k) == Position(xs, k)
  {
    var p := Position(xs, k);
    var q := Position(xs + [x], k);
    assert (xs + [x])[p] == k;
    assert xs[q] == k by {
      if q > p { assert (xs + [x])[p] == k; }
    }
  }

  /** Sum of the counts. */
  function Total<K>(es: seq<Entry<K>>): nat {
    if es == [] then 0 else es[0].count + Total(es[1..])
  }

  lemma {:induction false} TotalSplit<K>(es: seq<Entry<K>>, n: nat)
    requires n <= |es|
    ensures Total(es) == Total(es[..n]) + Total(es[n..])
  {
    if n > 0 {
      TotalSplit(es[1..], n - 1);
      assert es[1..][..n - 1] == es[..n][1..];
      assert es[1..][n - 1..] == es[n..];
    }
  }

  lemma HasKeyCons<K>(es: seq<Entry<K>>, k: K)
    requires es != []
    ensures HasKey(es, k) <==> es[0].key == k || HasKey(es[1..], k)
  {
    if HasKey(es, k) && es[0].key != k {
      var i :| 0 <= i < |es| && es[i].key == k;
      assert es[1..][i - 1].key == k;
    }
    if HasKey(es[1..], k) {
      var i :| 0 <= i < |es[1..]| && es[1..][i].key == k;
      assert es[i + 1].key == k;
    }
  }

  /** Members of two permutations coincide. */
  lemma PermutationMembers<T>(a: seq<T>, b: seq<T>)
    requires multiset(a) == multiset(b)
    ensures forall x :: x in a <==> x in b
  {
    forall x ensures x in a <==> x in b {
      assert x in a <==> x in multiset(a);
      assert x in b <==> x in multiset(b);
    }
  }

  /** Counting one more occurrence of `x`: `counter[x] += 1`. */
  function Bump<K(==)>(es: seq<Entry<K>>, x: K): (r: seq<Entry<K>>)
    requires DistinctKeys(es)
    ensures !HasKey(es, x) ==> r == es + [Entry(x, 1)]
    ensures HasKey(es, x) ==> |r| == |es| && forall i :: 0 <= i < |es| ==>
      r[i].key == es[i].key && r[i].count == es[i].count + (if es[i].key == x then 1 else 0)
    ensures Total(r) == Total(es) + 1
  {
    if es == [] then [Entry(x, 1)]
    else if es[0].key == x then
      HasKeyCons(es, x);
      [Entry(x, es[0].count + 1)] + es[1..]
    else
      var t := es[1..];
      HasKeyCons(es, x);
      var r := [es[0]] + Bump(t, x);
      assert r[1..] == Bump(t, x);
      r
  }

  lemma BumpCounts<K>(t: seq<Entry<K>>, ys: seq<K>, x: K)
    requires DistinctKeys(t) && CountsOf(t, ys) && Covers(t, ys)
    ensures CountsOf(Bump(t, x), ys + [x])
  {
    var xs := ys + [x];
    assert multiset(xs) == multiset(ys) + multiset{x};
    if !HasKey(t, x) {
      assert x !in ys;
    }
  }

  lemma BumpCovers<K>(t: seq<Entry<K>>, ys: seq<K>, x: K)
    requires DistinctKeys(t) && Covers(t, ys)
    ensures Covers(Bump(t, x), ys + [x])
  {
    var r := Bump(t, x);
    forall k | k in ys + [x] ensures HasKey(r, k) {
      if k == x && !HasKey(t, x) {
        assert r[|t|].key == k;
      } else {
        assert HasKey(t, k);
        var i :| 0 <= i < |t| && t[i].key == k;
        assert r[i].key == k;
      }
    }
  }

  lemma BumpOrder<K>(t: seq<Entry<K>>, ys: seq<K>, x: K)
    requires DistinctKeys(t) && CountsOf(t, ys) && Covers(t, ys)
    requires RankOrdered(t, FirstSeen(ys))
    ensures RankOrdered(Bump(t, x), FirstSeen(ys + [x]))
  {
    var xs := ys + [x];
    var r := Bump(t, x);
    forall i | 0 <= i < |t| ensures FirstSeen(xs)(t[i].key) == FirstSeen(ys)(t[i].key) < |ys| {
      assert t[i].key in ys;
      PositionExtend(ys, x, t[i].key);
    }
    if !HasKey(t, x) {
      assert x !in ys;
      assert r[|t|].key == x;
      assert FirstSeen(xs)(x) == |ys|;
    }
    ReRanked(t, r, FirstSeen(ys), FirstSeen(xs));
  }

  /** Entries whose keys are kept in place, ranked alike, and possibly
      followed by one entry ranked after all of them, stay rank ordered. */
  lemma ReRanked<K>(t: seq<Entry<K>>, r: seq<Entry<K>>, rank: K -> int, rank': K -> int)
    requires |t| <= |r| <= |t| + 1
    requires forall i :: 0 <= i < |t| ==> r[i].key == t[i].key && rank'(t[i].key) == rank(t[i].key)
    requires |r| > |t| ==> forall i :: 0 <= i < |t| ==> rank'(t[i].key) < rank'(r[|t|].key)
    requires RankOrdered(t, rank)
    ensures RankOrdered(r, rank')
  {
    forall i, j | 0 <= i < j < |r| ensures rank'(r[i].key) < rank'(r[j].key) {
      if j < |t| {
        assert rank(t[i].key) < rank(t[j].key);
      }
    }
  }

  lemma BumpDistinct<K>(t: seq<Entry<K>>, x: K)
    requires DistinctKeys(t)
    ensures DistinctKeys(Bump(t, x))
  {
  }

  /** `Counter(xs)`: one entry per distinct key of `xs`, in order of first
      occurrence, each carrying the number of occurrences of its key. */
  function Tally<K(==)>(xs: seq<K>): (es: seq<Entry<K>>)
    ensures DistinctKeys(es)
    ensures CountsOf(es, xs)
    ensures Covers(es, xs)
    ensures RankOrdered(es, FirstSeen(xs))
    ensures Total(es) == |xs|
  {
    if xs == [] then []
    else
      var ys, x := xs[..|xs| - 1], xs[|xs| - 1];
      assert xs == ys + [x];
      var t := Tally(ys);
      BumpDistinct(t, x);
      BumpCounts(t, ys, x);
      BumpCovers(t, ys, x);
      BumpOrder(t, ys, x);
      Bump(t, x)
  }

  lemma DistinctSnoc<K>(ys: seq<K>, x: K)
    ensures (set k | k in ys + [x]) == (set k | k in ys) + {x}
  {
  }

  /** A tally has exactly one entry per distinct key. */
  lemma {:induction false} TallySize<K>(xs: seq<K>)
    ensures |Tally(xs)| == |set k | k in xs|
  {
    if xs != [] {
      var ys, x := xs[..|xs| - 1], xs[|xs| - 1];
      assert xs == ys + [x];
      TallySize(ys);
      DistinctSnoc(ys, x);
      var t := Tally(ys);
      assert HasKey(t, x) <==> x in ys by {
        if HasKey(t, x) {
          var i :| 0 <= i < |t| && t[i].key == x;
        }
      }
    }
  }

  /** Places `e` before the first entry whose count is not greater: the step
      of a stable insertion sort by descending count. */
  function Insert<K>(e: Entry<K>, t: seq<Entry<K>>): (r: seq<Entry<K>>)
    ensures multiset(r) == multiset(t) + multiset{e}
    ensures Total(r) == e.count + Total(t)
  {
    if t == [] || e.count >= t[0].count then [e] + t
    else
      var r := [t[0]] + Insert(e, t[1..]);
      assert t == [t[0]] + t[1..];
      assert r[1..] == Insert(e, t[1..]);
      r
  }

  /** Stable sort by descending count: `sorted(items, key=count, reverse=True)`. */
  function SortByCount<K>(es: seq<Entry<K>>): (r: seq<Entry<K>>)
    ensures multiset(r) == multiset(es)
    ensures |r| == |es|
    ensures Total(r) == Total(es)
  {
    if es == [] then []
    else
      assert es == [es[0]] + es[1..];
      Insert(es[0], SortByCount(es[1..]))
  }

  /** `a` may precede `b` in a count-then-rank order of distinct keys. */
  ghost predicate Before<K>(a: Entry<K>, b: Entry<K>, rank: K -> int) {
    && (a.count > b.count || (a.count == b.count && rank(a.key) < rank(b.key)))
    && a.key != b.key
  }

  lemma ConsOrdered<K>(h: Entry<K>, t: seq<Entry<K>>, rank: K -> int)
    requires CountThenRank(t, rank) && DistinctKeys(t)
    requires forall j :: 0 <= j < |t| ==> Before(h, t[j], rank)
    ensures CountThenRank([h] + t, rank) && DistinctKeys([h] + t)
  {
    var r := [h] + t;
    forall i, j | 0 <= i < j < |r|
      ensures r[i].count > r[j].count || (r[i].count == r[j].count && rank(r[i].key) < rank(r[j].key))
      ensures r[i].key != r[j].key
    {
      if i == 0 {
        assert Before(h, t[j - 1], rank);
      } else {
        assert r[i] == t[i - 1] && r[j] == t[j - 1];
      }
    }
  }

  lemma InsertFront<K>(e: Entry<K>, t: seq<Entry<K>>, rank: K -> int)
    requires CountThenRank(t, rank) && DistinctKeys(t)
    requires forall i :: 0 <= i < |t| ==> rank(e.key) < rank(t[i].key)
    requires t == [] || e.count >= t[0].count
    ensures CountThenRank([e] + t, rank) && DistinctKeys([e] + t)
  {
    forall j | 0 <= j < |t| ensures Before(e, t[j], rank) {
      if j > 0 { assert t[0].count >= t[j].count; }
    }
    ConsOrdered(e, t, rank);
  }

  /** Every entry of `Insert(e, t)` is `e` or an entry of `t`. */
  lemma InsertMembers<K>(e: Entry<K>, t: seq<Entry<K>>, j: nat)
    requires j < |Insert(e, t)|
    ensures Insert(e, t)[j] == e || Insert(e, t)[j] in t
  {
    var r := Insert(e, t);
    assert r[j] in multiset(r);
    assert r[j] != e ==> r[j] in multiset(t);
  }

  /** When `e` sinks past the head of `t`, that head precedes everything the
      insertion into the rest produces. */
  lemma HeadPrecedesInsert<K>(e: Entry<K>, t: seq<Entry<K>>, rank: K -> int)
    requires t != [] && e.count < t[0].count
    requires CountThenRank(t, rank) && DistinctKeys(t)
    requires forall i :: 0 <= i < |t| ==> rank(e.key) < rank(t[i].key)
    ensures forall j :: 0 <= j < |Insert(e, t[1..])| ==> Before(t[0], Insert(e, t[1..])[j], rank)
  {
    var t', r' := t[1..], Insert(e, t[1..]);
    forall j | 0 <= j < |r'| ensures Before(t[0], r'[j], rank) {
      InsertMembers(e, t', j);
      if r'[j] != e {
        var k :| 0 <= k < |t'| && t'[k] == r'[j];
        assert t[k + 1] == r'[j];
      }
    }
  }

  lemma {:induction false} InsertOrdered<K>(e: Entry<K>, t: seq<Entry<K>>, rank: K -> int)
    requires CountThenRank(t, rank) && DistinctKeys(t)
    requires forall i :: 0 <= i < |t| ==> rank(e.key) < rank(t[i].key)
    ensures CountThenRank(Insert(e, t), rank) && DistinctKeys(Insert(e, t))
  {
    if t == [] || e.count >= t[0].count {
      InsertFront(e, t, rank);
    } else {
      InsertOrdered(e, t[1..], rank);
      HeadPrecedesInsert(e, t, rank);
      assert Insert(e, t) == [t[0]] + Insert(e, t[1..]);
      ConsOrdered(t[0], Insert(e, t[1..]), rank);
    }
  }

  lemma {:induction false} SortOrdered<K>(es: seq<Entry<K>>, rank: K -> int)
    requires DistinctKeys(es) && RankOrdered(es, rank)
    ensures CountThenRank(SortByCount(es), rank) && DistinctKeys(SortByCount(es))
  {
    if es != [] {
      var tail := es[1..];
      var t := SortByCount(tail);
      SortOrdered(tail, rank);
      PermutationMembers(t, tail);
      forall i | 0 <= i < |t| ensures rank(es[0].key) < rank(t[i].key) {
        assert t[i] in multiset(t);
        assert multiset(t) == multiset(tail);
        assert t[i] in tail;
        var k :| 0 <= k < |tail| && tail[k] == t[i];
        assert es[k + 1] == t[i];
      }
      InsertOrdered(es[0], t, rank);
    }
  }

  /** All distinct keys of `xs` with their counts, most common first and ties
      in order of first occurrence: the ordering `most_common()` and a stable
      `sorted(..., reverse=True)` over a Counter both produce. */
  function Ranked<K(==)>(xs: seq<K>): (r: seq<Entry<K>>)
    ensures DistinctKeys(r)
    ensures CountsOf(r, xs)
    ensures Covers(r, xs)
    ensures CountThenRank(r, FirstSeen(xs))
    ensures Total(r) == |xs|
    ensures |r| == |set k | k in xs|
  {
    var t := Tally(xs);
    var r := SortByCount(t);
    SortOrdered(t, FirstSeen(xs));
    PermutationKeepsCounts(t, r, xs);
    TallySize(xs);
    r
  }

  /** Reordering a tally keeps what each entry says about `xs`. */
  lemma PermutationKeepsCounts<K>(t: seq<Entry<K>>, r: seq<Entry<K>>, xs: seq<K>)
    requires CountsOf(t, xs) && Covers(t, xs) && multiset(r) == multiset(t)
    ensures CountsOf(r, xs) && Covers(r, xs)
  {
    forall i | 0 <= i < |r| ensures r[i].key in xs && r[i].count == multiset(xs)[r[i].key] {
      assert r[i] in multiset(r);
      assert r[i] in multiset(t);
      var j :| 0 <= j < |t| && t[j] == r[i];
    }
    forall k | k in xs ensures HasKey(r, k) {
      var i :| 0 <= i < |t| && t[i].key == k;
      assert t[i] in multiset(t);
      assert t[i] in multiset(r);
      var j :| 0 <= j < |r| && r[j] == t[i];
    }
  }

  lemma DistinctNonEmpty<K>(xs: seq<K>)
    requires xs != []
    ensures |set k | k in xs| >= 1
  {
    var s := set k | k in xs;
    assert xs[0] in s;
    assert s == {xs[0]} + (s - {xs[0]});
  }

  /** `Counter(xs).most_common(n)`: the first `n` entries of `Ranked(xs)`,
      none when `n <= 0`. An absent key is outnumbered by, or tied with and
      seen later than, everything returned. */
  function MostCommon<K(==)>(xs: seq<K>, n: int): (r: seq<Entry<K>>)
    ensures n <= 0 ==> r == []
    ensures n >= 0 ==> |r| == Min(n, |set k | k in xs|)
    ensures DistinctKeys(r)
    ensures CountsOf(r, xs)
    ensures CountThenRank(r, FirstSeen(xs))
    ensures n >= 0 ==> forall k :: k in xs && !HasKey(r, k) ==>
      |r| == n && forall i :: 0 <= i < |r| ==> Outranks(r[i], k, multiset(xs)[k], xs)
    ensures Total(r) <= |xs|
    ensures n >= |set k | k in xs| ==> Total(r) == |xs|
  {
    if n <= 0 then
      if xs != [] then DistinctNonEmpty(xs); [] else []
    else
      var all := Ranked(xs);
      if n >= |all| then all
      else
        PrefixKeeps(all, n, xs);
        all[..n]
  }

  /** The first `n` entries of a ranking keep its per-entry facts, and every
      key left out is outranked by each kept entry. */
  lemma PrefixKeeps<K>(all: seq<Entry<K>>, n: nat, xs: seq<K>)
    requires n < |all|
    requires DistinctKeys(all) && CountsOf(all, xs) && Covers(all, xs)
    requires CountThenRank(all, FirstSeen(xs)) && Total(all) == |xs|
    ensures DistinctKeys(all[..n]) && CountsOf(all[..n], xs)
    ensures CountThenRank(all[..n], FirstSeen(xs))
    ensures Total(all[..n]) <= |xs|
    ensures forall k :: k in xs && !HasKey(all[..n], k) ==>
      forall i :: 0 <= i < n ==> Outranks(all[..n][i], k, multiset(xs)[k], xs)
  {
    TotalSplit(all, n);
    forall k | k in xs && !HasKey(all[..n], k)
      ensures forall i :: 0 <= i < n ==> Outranks(all[..n][i], k, multiset(xs)[k], xs)
    {
      PrefixDominates(all, n, xs, k);
    }
  }

  lemma PrefixDominates<K>(all: seq<Entry<K>>, n: nat, xs: seq<K>, k: K)
    requires n < |all|
    requires CountsOf(all, xs) && Covers(all, xs) && CountThenRank(all, FirstSeen(xs))
    requires k in xs && !HasKey(all[..n], k)
    ensures forall i :: 0 <= i < n ==> Outranks(all[i], k, multiset(xs)[k], xs)
  {
    var p :| 0 <= p < |all| && all[p].key == k;
    forall i | 0 <= i < n ensures Outranks(all[i], k, multiset(xs)[k], xs) {
      assert i < p;
      assert all[p].count == multiset(xs)[k];
      assert FirstSeen(xs)(all[i].key) == Position(xs, all[i].key) as int;
      assert FirstSeen(xs)(all[p].key) == Position(xs, k) as int;
    }
  }

  /** The facts `MostCommon` states about occurrences in `xs`, restated for
      any count that agrees with those occurrences. */
  lemma MostCommonCountedBy<K>(xs: seq<K>, n: int, count: K -> nat)
    requires forall k :: count(k) == multiset(xs)[k]
    ensures var r := MostCommon(xs, n);
      forall i :: 0 <= i < |r| ==> r[i].count == count(r[i].key) && r[i].count >= 1
    ensures var r := MostCommon(xs, n);
      n >= 0 ==> forall k :: count(k) >= 1 && !HasKey(r, k) ==>
        |r| == n && forall i :: 0 <= i < |r| ==> Outranks(r[i], k, count(k), xs)
  {
    var r := MostCommon(xs, n);
    forall k | count(k) >= 1 ensures k in xs {
      assert k in multiset(xs);
    }
  }

  /** The same for `Ranked`, which leaves no key out. */
  lemma RankedCountedBy<K>(xs: seq<K>, count: K -> nat)
    requires forall k :: count(k) == multiset(xs)[k]
    ensures var r := Ranked(xs);
      forall i :: 0 <= i < |r| ==> r[i].count == count(r[i].key) && r[i].count >= 1
    ensures forall k :: count(k) >= 1 ==> HasKey(Ranked(xs), k)
  {
    forall k | count(k) >= 1 ensures k in xs {
      assert k in multiset(xs);
    }
  }
}
