/** Ordering of scored candidates: the stable descending sort that
    `list.sort(reverse=True, key=lambda x: x[0])` performs, and the top-K slice. */
module Ranking {
  import opened Base
  import opened Documents

  /** A `(score, movie)` pair as appended to the result list. */
  datatype Scored = Scored(score: real, doc: Record)

  /** Number of results a fused search returns at most. */
  const K: nat := 10

  /** Scores are non-increasing by position. */
  predicate SortedDesc(s: seq<Scored>) {
    forall i, j | 0 <= i < j < |s| :: s[i].score >= s[j].score
  }

  // ---------------------------------------------------------------------------
  // The stable descending sort, as a function

  /** Places `x` after every element whose score is at least its own, and before the
      rest, so that among equal scores the later arrival comes later. */
  function Insert(s: seq<Scored>, x: Scored): (r: seq<Scored>)
    ensures |r| == |s| + 1
  {
    if s == [] || s[|s| - 1].score >= x.score then s + [x]
    else Insert(s[..|s| - 1], x) + [s[|s| - 1]]
  }

  /** Insertion sort from the left, in descending score order. */
  function SortDesc(xs: seq<Scored>): (r: seq<Scored>)
    ensures |r| == |xs|
  {
    if xs == [] then []
    else Insert(SortDesc(xs[..|xs| - 1]), xs[|xs| - 1])
  }

  lemma {:induction false} InsertPermutation(s: seq<Scored>, x: Scored)
    ensures multiset(Insert(s, x)) == multiset(s) + multiset{x}
    decreases |s|
  {
    if !(s == [] || s[|s| - 1].score >= x.score) {
      var init, last := s[..|s| - 1], s[|s| - 1];
      assert s == init + [last];
      InsertPermutation(init, x);
    }
  }

  lemma {:induction false} InsertSorted(s: seq<Scored>, x: Scored)
    requires SortedDesc(s)
    ensures SortedDesc(Insert(s, x))
    decreases |s|
  {
    if !(s == [] || s[|s| - 1].score >= x.score) {
      var init, last := s[..|s| - 1], s[|s| - 1];
      assert s == init + [last];
      InsertSorted(init, x);
      InsertPermutation(init, x);
      InsertAbove(init, x, Insert(init, x), last.score);
    }
  }

  lemma InsertAbove(init: seq<Scored>, x: Scored, r: seq<Scored>, bound: real)
    requires multiset(r) == multiset(init) + multiset{x}
    requires forall i | 0 <= i < |init| :: init[i].score >= bound
    requires x.score >= bound
    ensures forall i | 0 <= i < |r| :: r[i].score >= bound
  {
    forall i | 0 <= i < |r| ensures r[i].score >= bound {
      assert r[i] in multiset(r);
      if r[i] != x {
        assert r[i] in multiset(init);
      }
    }
  }

  /** The sort returns a permutation of the candidates. */
  lemma {:induction false} SortDescPermutation(xs: seq<Scored>)
    ensures multiset(SortDesc(xs)) == multiset(xs)
  {
    if xs != [] {
      var init, last := xs[..|xs| - 1], xs[|xs| - 1];
      assert xs == init + [last];
      SortDescPermutation(init);
      InsertPermutation(SortDesc(init), last);
    }
  }

  /** The sort returns the candidates with non-increasing scores. */
  lemma {:induction false} SortDescSorted(xs: seq<Scored>)
    ensures SortedDesc(SortDesc(xs))
  {
    if xs != [] {
      SortDescSorted(xs[..|xs| - 1]);
      InsertSorted(SortDesc(xs[..|xs| - 1]), xs[|xs| - 1]);
    }
  }

  // ---------------------------------------------------------------------------
  // Stability

  /** The elements scoring exactly `k`, in their order. */
  function WithScore(s: seq<Scored>, k: real): seq<Scored> {
    if s == [] then []
    else WithScore(s[..|s| - 1], k) + (if s[|s| - 1].score == k then [s[|s| - 1]] else [])
  }

  lemma {:induction false} WithScoreAppend(a: seq<Scored>, b: seq<Scored>, k: real)
    ensures WithScore(a + b, k) == WithScore(a, k) + WithScore(b, k)
    decreases |b|
  {
    if b == [] {
      assert a + b == a;
    } else {
      var b' := b[..|b| - 1];
      assert (a + b)[..|a + b| - 1] == a + b';
      WithScoreAppend(a, b', k);
    }
  }

  lemma WithScoreSingle(y: Scored, k: real)
    ensures WithScore([y], k) == if y.score == k then [y] else []
  {
    assert [y][..0] == [];
  }

  lemma {:induction false} InsertStable(s: seq<Scored>, x: Scored, k: real)
    ensures WithScore(Insert(s, x), k) == WithScore(s, k) + WithScore([x], k)
    decreases |s|
  {
    if s == [] || s[|s| - 1].score >= x.score {
      WithScoreAppend(s, [x], k);
    } else {
      var init, last := s[..|s| - 1], s[|s| - 1];
      var r := Insert(init, x);
      assert Insert(s, x) == r + [last];
      assert s == init + [last];
      InsertStable(init, x, k);
      InsertStableStep(init, last, x, r, k);
    }
  }

  lemma InsertStableStep(init: seq<Scored>, last: Scored, x: Scored, r: seq<Scored>, k: real)
    requires last.score < x.score
    requires WithScore(r, k) == WithScore(init, k) + WithScore([x], k)
    ensures WithScore(r + [last], k) == WithScore(init + [last], k) + WithScore([x], k)
  {
    WithScoreAppend(r, [last], k);
    WithScoreAppend(init, [last], k);
    WithScoreSingle(x, k);
    WithScoreSingle(last, k);
  }

  /** Candidates with equal scores keep their fetch order. */
  lemma {:induction false} SortDescStable(xs: seq<Scored>, k: real)
    ensures WithScore(SortDesc(xs), k) == WithScore(xs, k)
  {
    if xs != [] {
      var init, last := xs[..|xs| - 1], xs[|xs| - 1];
      SortDescStable(init, k);
      InsertStable(SortDesc(init), last, k);
      assert [last][..0] == [];
    }
  }

  lemma WithScoreHasScore(s: seq<Scored>, k: real, y: Scored)
    requires y in WithScore(s, k)
    ensures y in s && y.score == k
  {
    if s != [] {
      var init := s[..|s| - 1];
      if y in WithScore(init, k) {
        WithScoreHasScore(init, k, y);
        assert s == init + [s[|s| - 1]];
      }
    }
  }

  lemma LastHasOwnScore(s: seq<Scored>)
    requires s != []
    ensures WithScore(s, s[|s| - 1].score) != []
  {
  }

  /** Two descending sequences that agree on the order within every score are equal. */
  lemma {:induction false} SortedRunsDetermine(r1: seq<Scored>, r2: seq<Scored>)
    requires SortedDesc(r1) && SortedDesc(r2)
    requires forall k :: WithScore(r1, k) == WithScore(r2, k)
    ensures r1 == r2
    decreases |r1| + |r2|
  {
    if r1 == [] && r2 == [] {
    } else if r1 == [] {
      LastHasOwnScore(r2);
      assert false;
    } else if r2 == [] {
      LastHasOwnScore(r1);
      assert false;
    } else {
      var n1, n2 := |r1| - 1, |r2| - 1;
      LastInOther(r1, r2);
      LastInOther(r2, r1);
      LastScoresMeet(r1, r2);
      var p1, p2 := r1[..n1], r2[..n2];
      assert r1 == p1 + [r1[n1]] && r2 == p2 + [r2[n2]];
      LastItemsEqual(p1, r1[n1], p2, r2[n2]);
      PrefixRunsAgree(p1, p2, r1[n1]);
      assert SortedDesc(p1) && SortedDesc(p2);
      SortedRunsDetermine(p1, p2);
    }
  }

  /** The last, lowest-scoring items of two descending sequences that each hold the
      other's last item have the same score. */
  lemma LastScoresMeet(r1: seq<Scored>, r2: seq<Scored>)
    requires r1 != [] && r2 != []
    requires SortedDesc(r1) && SortedDesc(r2)
    requires r1[|r1| - 1] in r2 && r2[|r2| - 1] in r1
    ensures r1[|r1| - 1].score == r2[|r2| - 1].score
  {
    var n1, n2 := |r1| - 1, |r2| - 1;
    var j1 :| 0 <= j1 < |r1| && r1[j1] == r2[n2];
    var j2 :| 0 <= j2 < |r2| && r2[j2] == r1[n1];
    assert r1[j1].score >= r1[n1].score;
    assert r2[j2].score >= r2[n2].score;
  }

  /** The last item of a sequence also occurs in any sequence with the same runs. */
  lemma LastInOther(r1: seq<Scored>, r2: seq<Scored>)
    requires r1 != []
    requires forall k :: WithScore(r1, k) == WithScore(r2, k)
    ensures r1[|r1| - 1] in r2
  {
    var y := r1[|r1| - 1];
    assert y in WithScore(r1, y.score);
    WithScoreHasScore(r2, y.score, y);
  }

  /** Agreeing on every score's run, with the same last score, two sequences end in
      the same item. */
  lemma LastItemsEqual(p1: seq<Scored>, y1: Scored, p2: seq<Scored>, y2: Scored)
    requires WithScore(p1 + [y1], y1.score) == WithScore(p2 + [y2], y1.score)
    requires y1.score == y2.score
    ensures y1 == y2
  {
    var m := y1.score;
    assert (p1 + [y1])[..|p1|] == p1 && (p2 + [y2])[..|p2|] == p2;
    var w1, w2 := WithScore(p1, m), WithScore(p2, m);
    assert WithScore(p1 + [y1], m) == w1 + [y1];
    assert WithScore(p2 + [y2], m) == w2 + [y2];
    assert (w1 + [y1])[|w1|] == y1 && (w2 + [y2])[|w2|] == y2;
  }

  /** Dropping the same last item from two sequences with the same runs leaves prefixes
      with the same runs. */
  lemma PrefixRunsAgree(p1: seq<Scored>, p2: seq<Scored>, y: Scored)
    requires forall k :: WithScore(p1 + [y], k) == WithScore(p2 + [y], k)
    ensures forall k :: WithScore(p1, k) == WithScore(p2, k)
  {
    forall k ensures WithScore(p1, k) == WithScore(p2, k) {
      assert WithScore(p1 + [y], k) == WithScore(p2 + [y], k);
      WithScoreSnoc(p1, y, k);
      WithScoreSnoc(p2, y, k);
      SnocCancel(WithScore(p1, k), WithScore(p2, k), if y.score == k then [y] else []);
    }
  }

  /** Equal sequences with the same tail have the same front. */
  lemma SnocCancel(w1: seq<Scored>, w2: seq<Scored>, e: seq<Scored>)
    requires w1 + e == w2 + e
    ensures w1 == w2
  {
    assert |w1| == |w2|;
    assert (w1 + e)[..|w1|] == w1 && (w2 + e)[..|w2|] == w2;
  }

  lemma WithScoreSnoc(p: seq<Scored>, y: Scored, k: real)
    ensures WithScore(p + [y], k) == WithScore(p, k) + (if y.score == k then [y] else [])
  {
    assert (p + [y])[..|p|] == p;
  }

  /** `SortDesc` is THE stable descending sort: any ordering that is descending and
      keeps the fetch order within equal scores is exactly it. */
  lemma StableSortUnique(xs: seq<Scored>, r: seq<Scored>)
    requires SortedDesc(r)
    requires forall k :: WithScore(r, k) == WithScore(xs, k)
    ensures r == SortDesc(xs)
  {
    forall k ensures WithScore(r, k) == WithScore(SortDesc(xs), k) {
      SortDescStable(xs, k);
    }
    SortDescSorted(xs);
    SortedRunsDetermine(r, SortDesc(xs));
  }

  // ---------------------------------------------------------------------------
  // The sort in place, as the service runs it

  /** Sorts the array in place, stably, by descending score. */
  method SortByScore(a: array<Scored>)
    modifies a
    ensures a[..] == SortDesc(old(a[..]))
  {
    ghost var input := a[..];
    var i := 0;
    while i < a.Length
      invariant 0 <= i <= a.Length
      invariant a[..i] == SortDesc(input[..i])
      invariant a[i..] == input[i..]
    {
      ghost var before := a[..];
      InsertInPlace(a, i);
      SortByScoreStep(input, before, a[..], i);
      i := i + 1;
    }
    assert input[..a.Length] == input;
  }

  /** One pass of the outer loop extends the sorted prefix by one element. */
  lemma SortByScoreStep(input: seq<Scored>, before: seq<Scored>, after: seq<Scored>, i: nat)
    requires |before| == |input| && |after| == |input| && i < |input|
    requires before[..i] == SortDesc(input[..i]) && before[i..] == input[i..]
    requires after[..i + 1] == Insert(before[..i], before[i]) && after[i + 1..] == before[i + 1..]
    ensures after[..i + 1] == SortDesc(input[..i + 1])
    ensures after[i + 1..] == input[i + 1..]
  {
    assert input[..i + 1] == input[..i] + [input[i]];
    assert input[..i + 1][..i] == input[..i];
    assert before[i] == before[i..][0] == input[i..][0] == input[i];
    assert before[i + 1..] == before[i..][1..];
    assert input[i + 1..] == input[i..][1..];
  }

  /** One step of the insertion sort: moves `a[i]` left past every element of the
      sorted prefix `a[..i]` that scores strictly lower. */
  method InsertInPlace(a: array<Scored>, i: nat)
    requires i < a.Length
    modifies a
    ensures a[..i + 1] == Insert(old(a[..i]), old(a[i]))
    ensures a[i + 1..] == old(a[i + 1..])
  {
    var x := a[i];
    ghost var sorted := a[..i];
    var j := i;
    while j > 0 && a[j - 1].score < x.score
      invariant 0 <= j <= i
      invariant forall k | 0 <= k < j :: a[k] == sorted[k]
      invariant forall k | j < k <= i :: a[k] == sorted[k - 1]
      invariant forall k | i < k < a.Length :: a[k] == old(a[k])
      invariant forall k | j <= k < i :: sorted[k].score < x.score
    {
      a[j] := a[j - 1];
      j := j - 1;
    }
    a[j] := x;
    InsertPosition(sorted, j, x);
    Reassemble(a[..], sorted, x, j);
    assert a[i + 1..] == old(a[i + 1..]);
  }

  lemma Reassemble(cur: seq<Scored>, sorted: seq<Scored>, x: Scored, j: nat)
    requires j <= |sorted| < |cur|
    requires forall k | 0 <= k < j :: cur[k] == sorted[k]
    requires cur[j] == x
    requires forall k | j < k <= |sorted| :: cur[k] == sorted[k - 1]
    ensures cur[..|sorted| + 1] == sorted[..j] + [x] + sorted[j..]
  {
  }

  /** `Insert` puts `x` right after the last element scoring at least as much as `x`. */
  lemma {:induction false} InsertPosition(sorted: seq<Scored>, j: nat, x: Scored)
    requires j <= |sorted|
    requires j == 0 || sorted[j - 1].score >= x.score
    requires forall k | j <= k < |sorted| :: sorted[k].score < x.score
    ensures Insert(sorted, x) == sorted[..j] + [x] + sorted[j..]
    decreases |sorted| - j
  {
    if j == |sorted| {
      assert sorted[..j] == sorted && sorted[j..] == [];
    } else {
      var n := |sorted| - 1;
      var init := sorted[..n];
      assert init[..j] == sorted[..j];
      InsertPosition(init, j, x);
      assert init[j..] + [sorted[n]] == sorted[j..];
    }
  }

  // ---------------------------------------------------------------------------
  // Top-K

  /** `s[:10]`. */
  function Top(s: seq<Scored>): (t: seq<Scored>)
    ensures |t| == Min(K, |s|)
    ensures t == s[..|t|]
  {
    s[..Min(K, |s|)]
  }

  /** The movies of scored pairs, in order: `[m for _, m in s]`. */
  function Docs(s: seq<Scored>): (ms: seq<Record>)
    ensures |ms| == |s|
    ensures forall i | 0 <= i < |s| :: ms[i] == s[i].doc
  {
    seq(|s|, i requires 0 <= i < |s| => s[i].doc)
  }

  /** In a descending sequence, no element after position `n` outscores one before it. */
  lemma PrefixDominates(s: seq<Scored>, n: nat)
    requires SortedDesc(s) && n <= |s|
    ensures forall y, i | y in multiset(s[n..]) && 0 <= i < n :: s[i].score >= y.score
  {
    forall y, i | y in multiset(s[n..]) && 0 <= i < n ensures s[i].score >= y.score {
      var j :| 0 <= j < |s[n..]| && s[n..][j] == y;
      assert s[n + j] == y;
    }
  }

  lemma PrefixSorted(s: seq<Scored>, n: nat)
    requires SortedDesc(s) && n <= |s|
    ensures SortedDesc(s[..n])
  {
  }

  lemma PrefixOfPermutation(xs: seq<Scored>, s: seq<Scored>, n: nat)
    requires multiset(s) == multiset(xs) && n <= |s|
    ensures multiset(s[..n]) <= multiset(xs)
    ensures multiset(xs) - multiset(s[..n]) == multiset(s[n..])
  {
    assert s == s[..n] + s[n..];
  }

  /** The top-K of the sorted candidates: `min(10, n)` of them, in descending order,
      drawn from the candidates, and none left out scores higher than one kept. */
  lemma TopKSelection(xs: seq<Scored>)
    ensures |Top(SortDesc(xs))| == Min(K, |xs|)
    ensures SortedDesc(Top(SortDesc(xs)))
    ensures multiset(Top(SortDesc(xs))) <= multiset(xs)
    ensures forall y, i | y in multiset(xs) - multiset(Top(SortDesc(xs))) && 0 <= i < |Top(SortDesc(xs))| ::
              Top(SortDesc(xs))[i].score >= y.score
  {
    var s := SortDesc(xs);
    var n := Min(K, |s|);
    SortDescSorted(xs);
    SortDescPermutation(xs);
    PrefixSorted(s, n);
    PrefixOfPermutation(xs, s, n);
    PrefixDominates(s, n);
  }
}
