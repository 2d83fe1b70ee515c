/** The per-candidate relevance signals and the two fusions of them: the lexical
    overlap of query and title, the rating term, the saturating popularity term, and
    the fixed-weight sums of the hybrid and the ranked search. */
module Scoring {
  import opened Base
  import opened Text

  // ---------------------------------------------------------------------------
  // Weights and constants

  const HybridSemanticWeight: real := 0.8
  const HybridLexicalWeight: real := 0.2
  const RankedSemanticWeight: real := 0.5
  const RankedRatingWeight: real := 0.3
  const RankedPopularityWeight: real := 0.2

  /** Number of recent watch events at which popularity saturates. */
  const Saturation: nat := 10

  /** Ratings are on a 0 to 10 scale. */
  const RatingScale: real := 10.0

  lemma WeightsSumToOne()
    ensures HybridSemanticWeight + HybridLexicalWeight == 1.0
    ensures RankedSemanticWeight + RankedRatingWeight + RankedPopularityWeight == 1.0
  {
  }

  // ---------------------------------------------------------------------------
  // Lexical overlap

  ghost predicate Distinct<T>(s: seq<T>) {
    forall i, j | 0 <= i < j < |s| :: s[i] != s[j]
  }

  /** A sequence has at most as many distinct elements as positions, and exactly as
      many when no element repeats. */
  lemma {:induction false} CardSetOfSeq<T>(s: seq<T>)
    ensures |set x | x in s| <= |s|
    ensures |set x | x in s| == |s| <==> Distinct(s)
  {
    if s != [] {
      var rest := s[1..];
      CardSetOfSeq(rest);
      assert (set x | x in s) == {s[0]} + (set x | x in rest);
      if s[0] in rest {
        assert (set x | x in s) == (set x | x in rest);
        var j :| 0 <= j < |rest| && rest[j] == s[0];
        assert s[0] == s[j + 1];
      } else {
        if Distinct(rest) {
          forall i, j | 0 <= i < j < |s| ensures s[i] != s[j] {
            if i > 0 {
              assert s[i] == rest[i - 1] && s[j] == rest[j - 1];
            } else {
              assert s[j] == rest[j - 1];
            }
          }
        } else {
          var i, j :| 0 <= i < j < |rest| && rest[i] == rest[j];
          assert s[i + 1] == s[j + 1];
        }
      }
    }
  }

  lemma TokenSetSize(s: string)
    ensures |TokenSet(s)| <= |Split(s)|
    ensures |TokenSet(s)| == |Split(s)| <==> Distinct(Split(Lower(s)))
  {
    CardSetOfSeq(Split(Lower(s)));
    TokenCountLower(s);
  }

  /** `len(set(q.lower().split()) & set(title.lower().split())) / max(len(q.split()), 1)`.
      The denominator counts the raw tokens of the query, repeated ones included. */
  function KeywordOverlap(q: string, title: string): (r: real)
    ensures 0.0 <= r <= 1.0
  {
    CommonTokensBound(q, title);
    Ratio(|TokenSet(q) * TokenSet(title)|, Max(|Split(q)|, 1))
  }

  /** `n / d` as Python's true division. */
  function Ratio(n: nat, d: nat): (r: real)
    requires 0 < d
    ensures 0.0 <= r
    ensures n <= d ==> r <= 1.0
    ensures r == 1.0 <==> n == d
    ensures r == 0.0 <==> n == 0
  {
    RatioFacts(n, d);
    (n as real) / (d as real)
  }

  lemma RatioFacts(n: nat, d: nat)
    requires 0 < d
    ensures var r := (n as real) / (d as real);
      && 0.0 <= r
      && (n <= d ==> r <= 1.0)
      && (r == 1.0 <==> n == d)
      && (r == 0.0 <==> n == 0)
  {
    var x, y := n as real, d as real;
    DivNonNegative(x, y);
    if n <= d {
      DivAtMostOne(x, y);
    }
    DivIsOne(x, y);
    DivIsZero(x, y);
  }

  lemma DivNonNegative(x: real, y: real)
    requires 0.0 <= x && 0.0 < y
    ensures 0.0 <= x / y
  {
  }

  lemma DivAtMostOne(x: real, y: real)
    requires 0.0 <= x <= y && 0.0 < y
    ensures x / y <= 1.0
  {
  }

  lemma DivIsOne(x: real, y: real)
    requires 0.0 < y
    ensures x / y == 1.0 <==> x == y
  {
  }

  lemma DivIsZero(x: real, y: real)
    requires 0.0 < y
    ensures x / y == 0.0 <==> x == 0.0
  {
  }

  /** The common tokens are at most as many as the raw tokens of the query. */
  lemma CommonTokensBound(q: string, title: string)
    ensures |TokenSet(q) * TokenSet(title)| <= Max(|Split(q)|, 1)
  {
    TokenSetSize(q);
    var common := TokenSet(q) * TokenSet(title);
    assert common <= TokenSet(q);
    SubsetCard(common, TokenSet(q));
  }

  lemma SubsetCard<T>(a: set<T>, b: set<T>)
    requires a <= b
    ensures |a| <= |b|
  {
    assert b == a + (b - a);
  }

  /** A query without tokens (empty, or whitespace only) has overlap 0 with every title,
      and no division by zero takes place. */
  lemma OverlapOfBlankQuery(q: string, title: string)
    requires forall i | 0 <= i < |q| :: IsSpace(q[i])
    ensures KeywordOverlap(q, title) == 0.0
  {
    SplitEmpty(q);
    TokenCountLower(q);
    assert TokenSet(q) == {};
  }

  /** Every query has overlap 0 with a title that has no tokens. */
  lemma OverlapWithBlankTitle(q: string, title: string)
    requires forall i | 0 <= i < |title| :: IsSpace(title[i])
    ensures KeywordOverlap(q, title) == 0.0
  {
    SplitEmpty(title);
    TokenCountLower(title);
    assert TokenSet(title) == {};
  }

  /** A query overlaps itself fully exactly when it has tokens and no token repeats after
      lower-casing. */
  lemma SelfOverlap(q: string)
    ensures KeywordOverlap(q, q) == 1.0 <==> |Split(q)| > 0 && Distinct(Split(Lower(q)))
  {
    TokenSetSize(q);
    assert TokenSet(q) * TokenSet(q) == TokenSet(q);
  }

  /** "A a": two raw tokens, one distinct lower-cased token, so its self overlap is 1/2. */
  lemma SelfOverlapOfRepeatedToken()
    ensures KeywordOverlap("A a", "A a") == 0.5
  {
    TokenSetOfRepeatedToken();
    var t := TokenSet("A a");
    assert t * t == {"a"};
    assert |t * t| == 1;
    assert |Split("A a")| == 2;
    assert Ratio(1, 2) == 0.5;
  }

  lemma TokenSetOfRepeatedToken()
    ensures TokenSet("A a") == {"a"}
    ensures |Split("A a")| == 2
  {
    LowerSplitOfRepeatedToken();
    var ws := Split(Lower("A a"));
    assert forall w :: w in ws <==> w == "a";
  }

  lemma LowerSplitOfRepeatedToken()
    ensures Split("A a") == ["A", "a"]
    ensures Split(Lower("A a")) == ["a", "a"]
  {
    SplitOfRepeatedToken();
    SplitLower("A a");
    assert Lower("A") == "a" && Lower("a") == "a";
  }

  lemma SplitOfRepeatedToken()
    ensures Split("A a") == ["A", "a"]
  {
    var q := "A a";
    assert Split("") == [];
    assert WordLength("a") == 1 by {
      assert "a"[1..] == "";
    }
    assert Split("a") == ["a"] by {
      assert "a"[..1] == "a" && "a"[1..] == "";
    }
    assert Split(" a") == ["a"] by {
      assert " a"[1..] == "a";
    }
    assert WordLength(q) == 1 by {
      assert q[1..] == " a";
    }
    assert q[..1] == "A" && q[1..] == " a";
  }

  // ---------------------------------------------------------------------------
  // Rating and popularity

  /** `rating / 10`, not clamped. */
  function RatingScore(rating: real): (r: real)
    ensures r * RatingScale == rating
  {
    rating / RatingScale
  }

  /** On the intended 0 to 10 scale the rating term lies in [0, 1]. */
  lemma RatingScoreInRange(rating: real)
    requires 0.0 <= rating <= 10.0
    ensures 0.0 <= RatingScore(rating) <= 1.0
  {
  }

  /** A corrupt rating above 10 escapes the [0, 1] range, since ratings are not clamped. */
  lemma RatingScoreUnclamped()
    ensures RatingScore(15.0) == 1.5
  {
  }

  /** `min(count / 10, 1)`. */
  function Popularity(count: nat): (p: real)
    ensures 0.0 <= p <= 1.0
    ensures count == 0 ==> p == 0.0
    ensures count >= Saturation ==> p == 1.0
    ensures count < Saturation ==> p == (count as real) / (Saturation as real)
  {
    var ratio := (count as real) / (Saturation as real);
    if ratio <= 1.0 then ratio else 1.0
  }

  /** More recent watches never make a movie less popular. */
  lemma PopularityMonotone(c1: nat, c2: nat)
    requires c1 <= c2
    ensures Popularity(c1) <= Popularity(c2)
  {
  }

  // ---------------------------------------------------------------------------
  // Fusion

  function Least(a: real, b: real): real {
    if a <= b then a else b
  }

  function Greatest(a: real, b: real): real {
    if a >= b then a else b
  }

  /** `0.8 * sem + 0.2 * key`: a weighted average, so it lies between its two signals. */
  function HybridScore(similarity: real, overlap: real): (r: real)
    ensures Least(similarity, overlap) <= r <= Greatest(similarity, overlap)
  {
    HybridSemanticWeight * similarity + HybridLexicalWeight * overlap
  }

  /** `0.5 * sim + 0.3 * rate + 0.2 * pop`: a weighted average, so it lies between the
      least and the greatest of its three signals. */
  function RankedScore(similarity: real, rating: real, popularity: real): (r: real)
    ensures Least(similarity, Least(rating, popularity)) <= r
    ensures r <= Greatest(similarity, Greatest(rating, popularity))
  {
    RankedSemanticWeight * similarity + RankedRatingWeight * rating + RankedPopularityWeight * popularity
  }

  /** The lexical term moves a hybrid score by at most 0.2 above the semantic part. */
  lemma HybridScoreBounds(similarity: real, q: string, title: string)
    ensures HybridSemanticWeight * similarity <= HybridScore(similarity, KeywordOverlap(q, title))
    ensures HybridScore(similarity, KeywordOverlap(q, title)) <= HybridSemanticWeight * similarity + HybridLexicalWeight
  {
  }

  /** For a fixed similarity, the ranked score never decreases as the rating or the
      recent-watch count grows. */
  lemma RankedScoreMonotone(similarity: real, r1: real, r2: real, c1: nat, c2: nat)
    requires r1 <= r2 && c1 <= c2
    ensures RankedScore(similarity, RatingScore(r1), Popularity(c1))
         <= RankedScore(similarity, RatingScore(r2), Popularity(c2))
  {
    PopularityMonotone(c1, c2);
  }

  /** Rating 10 with 10 recent watches beats rating 0 with none by exactly 0.5. */
  lemma RankedScoreTopBeatsBottom(similarity: real)
    ensures RankedScore(similarity, RatingScore(10.0), Popularity(10))
         == RankedScore(similarity, RatingScore(0.0), Popularity(0)) + 0.5
  {
  }
}

