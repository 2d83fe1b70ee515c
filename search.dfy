/** The two fused search handlers with the web layer removed: validate the query,
    score every candidate in fetch order, sort stably by descending score, keep the
    first K, and render their ids. */
module Search {
  import opened Base
  import opened Documents
  import opened Signals
  import opened Ranking

  /** `if not q`: an absent or empty query is rejected before anything is fetched;
      every other query, whitespace only included, goes on to ranking. */
  function Validate(query: Option<string>): (r: Result<string>)
    ensures r.Ok? <==> query.Some? && query.value != ""
    ensures r.Ok? ==> r.value == query.value
    ensures r.Err? ==> r.error == QueryMissing
  {
    if query.None? || query.value == "" then Err(QueryMissing) else Ok(query.value)
  }

  /** The `(score, movie)` list the loop appends to, in fetch order; the first movie
      that cannot be scored aborts the whole pass. */
  function ScoreAll(mode: Mode, q: string, env: Collaborators, movies: seq<Record>): (r: Result<seq<Scored>>)
    ensures r.Ok? <==> forall i | 0 <= i < |movies| :: ScoreOf(mode, q, env, movies[i]).Ok?
    ensures r.Err? ==> r.error in {BadTitle, BadRating, MissingId}
    ensures r.Ok? ==> |r.value| == |movies|
    ensures r.Ok? ==> forall i | 0 <= i < |movies| ::
              r.value[i] == Scored(ScoreOf(mode, q, env, movies[i]).value, movies[i])
    decreases |movies|
  {
    if movies == [] then Ok([])
    else
      var n := |movies| - 1;
      var init := movies[..n];
      AllScoredSplit(mode, q, env, movies, init);
      var scored :- ScoreAll(mode, q, env, init);
      var score :- ScoreOf(mode, q, env, movies[n]);
      PairsExtend(mode, q, env, movies, init, scored, score);
      Ok(scored + [Scored(score, movies[n])])
  }

  /** Every candidate scores iff every earlier one does and the last one does. */
  lemma AllScoredSplit(mode: Mode, q: string, env: Collaborators, movies: seq<Record>, init: seq<Record>)
    requires movies != [] && init == movies[..|movies| - 1]
    ensures (forall i | 0 <= i < |movies| :: ScoreOf(mode, q, env, movies[i]).Ok?) <==>
            (forall i | 0 <= i < |init| :: ScoreOf(mode, q, env, init[i]).Ok?) && ScoreOf(mode, q, env, movies[|init|]).Ok?
  {
    assert forall i | 0 <= i < |init| :: init[i] == movies[i];
  }

  /** Appending the last candidate's pair to the pairs of the earlier ones. */
  lemma PairsExtend(mode: Mode, q: string, env: Collaborators, movies: seq<Record>, init: seq<Record>, scored: seq<Scored>, score: real)
    requires movies != [] && init == movies[..|movies| - 1]
    requires |scored| == |init|
    requires forall i | 0 <= i < |init| :: ScoreOf(mode, q, env, init[i]).Ok?
    requires forall i | 0 <= i < |init| :: scored[i] == Scored(ScoreOf(mode, q, env, init[i]).value, init[i])
    requires ScoreOf(mode, q, env, movies[|init|]) == Ok(score)
    ensures forall i | 0 <= i < |movies| ::
              ScoreOf(mode, q, env, movies[i]).Ok? &&
              (scored + [Scored(score, movies[|init|])])[i] == Scored(ScoreOf(mode, q, env, movies[i]).value, movies[i])
  {
    assert forall i | 0 <= i < |init| :: init[i] == movies[i];
  }

  /** Candidate `i` is the first that cannot be scored, and fails with `e`. */
  predicate FirstFailure(mode: Mode, q: string, env: Collaborators, movies: seq<Record>, i: nat, e: Error) {
    && i < |movies|
    && (forall j | 0 <= j < i :: ScoreOf(mode, q, env, movies[j]).Ok?)
    && ScoreOf(mode, q, env, movies[i]) == Err(e)
  }

  /** A failed pass reports the error of the first candidate that could not be scored. */
  lemma {:induction false} ScoreAllFirstError(mode: Mode, q: string, env: Collaborators, movies: seq<Record>)
    requires ScoreAll(mode, q, env, movies).Err?
    ensures exists i: nat :: FirstFailure(mode, q, env, movies, i, ScoreAll(mode, q, env, movies).error)
    decreases |movies|
  {
    var n := |movies| - 1;
    var init := movies[..n];
    if ScoreAll(mode, q, env, init).Err? {
      ScoreAllFirstError(mode, q, env, init);
      var i: nat :| FirstFailure(mode, q, env, init, i, ScoreAll(mode, q, env, init).error);
      FirstFailureExtends(mode, q, env, movies, i, ScoreAll(mode, q, env, init).error);
    } else {
      assert FirstFailure(mode, q, env, movies, n, ScoreAll(mode, q, env, movies).error) by {
        assert forall j | 0 <= j < n :: movies[j] == init[j];
      }
    }
  }

  lemma FirstFailureExtends(mode: Mode, q: string, env: Collaborators, movies: seq<Record>, i: nat, e: Error)
    requires 0 < |movies|
    requires FirstFailure(mode, q, env, movies[..|movies| - 1], i, e)
    ensures FirstFailure(mode, q, env, movies, i, e)
  {
    var init := movies[..|movies| - 1];
    assert forall j | 0 <= j <= i :: movies[j] == init[j];
  }

  /** Once a prefix of the candidates fails, the whole pass fails with the same error. */
  lemma {:induction false} ScoreAllPrefixError(mode: Mode, q: string, env: Collaborators, movies: seq<Record>, n: nat)
    requires n <= |movies|
    requires ScoreAll(mode, q, env, movies[..n]).Err?
    ensures ScoreAll(mode, q, env, movies) == ScoreAll(mode, q, env, movies[..n])
    decreases |movies|
  {
    if n < |movies| {
      var init := movies[..|movies| - 1];
      assert init[..n] == movies[..n];
      ScoreAllPrefixError(mode, q, env, init, n);
    } else {
      assert movies[..n] == movies;
    }
  }

  /** One more candidate: the pass over the first `i + 1` movies extends the pass over
      the first `i`, or repeats its error, or stops at movie `i`. */
  lemma ScoreAllStep(mode: Mode, q: string, env: Collaborators, movies: seq<Record>, i: nat)
    requires i < |movies|
    ensures var prev, s := ScoreAll(mode, q, env, movies[..i]), ScoreOf(mode, q, env, movies[i]);
      ScoreAll(mode, q, env, movies[..i + 1]) ==
        if prev.Err? then prev
        else if s.Err? then Err(s.error)
        else Ok(prev.value + [Scored(s.value, movies[i])])
  {
    assert movies[..i + 1][..i] == movies[..i];
  }

  /** The whole request: the reply the handler sends, or the error that ends it. */
  function Response(mode: Mode, query: Option<string>, env: Collaborators, movies: seq<Record>): (r: Result<seq<Record>>)
    ensures r == Err(QueryMissing) <==> query.None? || query == Some("")
    ensures r.Ok? ==> |r.value| == Min(K, |movies|)
  {
    var q :- Validate(query);
    var scored :- ScoreAll(mode, q, env, movies);
    FixId(Docs(Top(SortDesc(scored))))
  }

  // ---------------------------------------------------------------------------
  // The handlers, step by step

  /** The `for m in movies` loop: score each candidate and append `(score, m)`. */
  method ScoreCandidates(mode: Mode, q: string, env: Collaborators, movies: seq<Record>) returns (r: Result<seq<Scored>>)
    ensures r == ScoreAll(mode, q, env, movies)
  {
    var res: seq<Scored> := [];
    for i := 0 to |movies|
      invariant ScoreAll(mode, q, env, movies[..i]) == Ok(res)
    {
      var score := ScoreOf(mode, q, env, movies[i]);
      ScoreAllStep(mode, q, env, movies, i);
      if score.Err? {
        ScoreAllPrefixError(mode, q, env, movies, i + 1);
        return Err(score.error);
      }
      res := res + [Scored(score.value, movies[i])];
    }
    assert movies[..|movies|] == movies;
    return Ok(res);
  }

  /** `search_movies_hybrid` (mode `Hybrid`) and `search_movies_ranked` (mode `Ranked`). */
  method Search(mode: Mode, query: Option<string>, env: Collaborators, movies: seq<Record>) returns (r: Result<seq<Record>>)
    ensures r == Response(mode, query, env, movies)
  {
    var q :- Validate(query);
    var scored :- ScoreCandidates(mode, q, env, movies);
    var a := new Scored[|scored|](i requires 0 <= i < |scored| => scored[i]);
    assert a[..] == scored;
    SortByScore(a);
    var top := a[..Min(K, a.Length)];
    r := FixId(Docs(top));
  }

  // ---------------------------------------------------------------------------
  // What a caller sees

  /** Every ranked item is one of the scored candidates. */
  lemma TopDrawnFromCandidates(scored: seq<Scored>)
    ensures forall t | t in Top(SortDesc(scored)) :: t in scored
  {
    TopKSelection(scored);
    forall t | t in Top(SortDesc(scored)) ensures t in scored {
      assert t in multiset(Top(SortDesc(scored)));
    }
  }

  /** A scored candidate carries one of the fetched movies. */
  lemma CandidateIsMovie(mode: Mode, q: string, env: Collaborators, movies: seq<Record>, t: Scored)
    requires ScoreAll(mode, q, env, movies).Ok?
    requires t in ScoreAll(mode, q, env, movies).value
    ensures exists j | 0 <= j < |movies| :: t.doc == movies[j]
  {
    var scored := ScoreAll(mode, q, env, movies).value;
    var j :| 0 <= j < |scored| && scored[j] == t;
    assert t.doc == movies[j];
  }

  /** A successful reply has `min(10, n)` records, each a candidate with its `_id` rendered. */
  lemma ReplyShape(mode: Mode, query: Option<string>, env: Collaborators, movies: seq<Record>, reply: seq<Record>)
    requires Response(mode, query, env, movies) == Ok(reply)
    ensures |reply| == Min(K, |movies|)
    ensures forall i | 0 <= i < |reply| :: exists j | 0 <= j < |movies| :: FixRecord(movies[j]) == Ok(reply[i])
  {
    var q := Validate(query).value;
    var scored := ScoreAll(mode, q, env, movies).value;
    var top := Top(SortDesc(scored));
    TopDrawnFromCandidates(scored);
    forall i | 0 <= i < |reply| ensures exists j | 0 <= j < |movies| :: FixRecord(movies[j]) == Ok(reply[i]) {
      assert top[i] in top;
      CandidateIsMovie(mode, q, env, movies, top[i]);
      assert reply[i] == FixRecord(top[i].doc).value;
    }
  }

  /** With a valid query and candidates that can all be scored and rendered, the
      search succeeds. */
  lemma ReplyDefined(mode: Mode, query: Option<string>, env: Collaborators, movies: seq<Record>)
    requires Validate(query).Ok?
    requires forall i | 0 <= i < |movies| :: ScoreOf(mode, query.value, env, movies[i]).Ok?
    requires forall i | 0 <= i < |movies| :: FixRecord(movies[i]).Ok?
    ensures Response(mode, query, env, movies).Ok?
  {
    var scored := ScoreAll(mode, query.value, env, movies).value;
    var top := Top(SortDesc(scored));
    TopDrawnFromCandidates(scored);
    var docs := Docs(top);
    forall i | 0 <= i < |docs| ensures FixRecord(docs[i]).Ok? {
      assert top[i] in top;
      CandidateIsMovie(mode, query.value, env, movies, top[i]);
    }
  }

  /** A one-movie collection yields exactly that movie, whatever its score. */
  lemma SingleCandidate(mode: Mode, query: Option<string>, env: Collaborators, m: Record)
    requires Validate(query).Ok?
    requires ScoreOf(mode, query.value, env, m).Ok? && FixRecord(m).Ok?
    ensures Response(mode, query, env, [m]) == Ok([FixRecord(m).value])
  {
    var x := Scored(ScoreOf(mode, query.value, env, m).value, m);
    assert ScoreAll(mode, query.value, env, [m]).value == [x];
    assert [x][..0] == [];
    assert SortDesc([x]) == [x];
    assert Docs(Top([x])) == [m];
    assert FixId([m]).value == [FixRecord(m).value];
  }

  /** With every score equal, the sort keeps the fetch order. */
  lemma {:induction false} SortDescEqualScores(xs: seq<Scored>, c: real)
    requires forall i | 0 <= i < |xs| :: xs[i].score == c
    ensures SortDesc(xs) == xs
  {
    if xs != [] {
      var init := xs[..|xs| - 1];
      SortDescEqualScores(init, c);
      assert init + [xs[|xs| - 1]] == xs;
    }
  }

  /** Candidates that all score the same come back in fetch order: the first
      `min(10, n)` of them. */
  lemma EqualScoresKeepFetchOrder(mode: Mode, query: Option<string>, env: Collaborators, movies: seq<Record>, s: real)
    requires Validate(query).Ok?
    requires forall i | 0 <= i < |movies| :: ScoreOf(mode, query.value, env, movies[i]) == Ok(s)
    ensures Response(mode, query, env, movies) == FixId(movies[..Min(K, |movies|)])
  {
    var scored := ScoreAll(mode, query.value, env, movies).value;
    ReplyOfScored(mode, query, env, movies, scored);
    SortDescEqualScores(scored, s);
    DocsOfScored(scored, movies);
  }

  /** The documents of the first 10 scored candidates are the first 10 movies. */
  lemma DocsOfScored(scored: seq<Scored>, movies: seq<Record>)
    requires |scored| == |movies|
    requires forall i | 0 <= i < |movies| :: scored[i].doc == movies[i]
    ensures Docs(Top(scored)) == movies[..Min(K, |movies|)]
  {
  }

  /** Two items in either order sort with the higher score first. */
  lemma SortTwo(h: Scored, l: Scored)
    requires h.score > l.score
    ensures SortDesc([h, l]) == [h, l]
    ensures SortDesc([l, h]) == [h, l]
  {
    assert [h, l][..1] == [h] && [l, h][..1] == [l];
    assert [h][..0] == [] && [l][..0] == [];
    assert SortDesc([h]) == [h] && SortDesc([l]) == [l];
    assert Insert([l], h) == Insert([], h) + [l];
  }

  /** Two candidates, fetched in the order `[a, b]`, scored as `[x, y]`. */
  lemma ScoreTwo(mode: Mode, q: string, env: Collaborators, a: Record, b: Record)
    requires ScoreOf(mode, q, env, a).Ok? && ScoreOf(mode, q, env, b).Ok?
    ensures ScoreAll(mode, q, env, [a, b]) ==
              Ok([Scored(ScoreOf(mode, q, env, a).value, a), Scored(ScoreOf(mode, q, env, b).value, b)])
  {
    var r := ScoreAll(mode, q, env, [a, b]).value;
    assert r == [Scored(ScoreOf(mode, q, env, a).value, a), Scored(ScoreOf(mode, q, env, b).value, b)];
  }

  /** The reply once the candidates are scored. */
  lemma ReplyOfScored(mode: Mode, query: Option<string>, env: Collaborators, movies: seq<Record>, scored: seq<Scored>)
    requires Validate(query).Ok?
    requires ScoreAll(mode, query.value, env, movies) == Ok(scored)
    ensures Response(mode, query, env, movies) == FixId(Docs(Top(SortDesc(scored))))
  {
  }

  /** Of two candidates, the higher-scoring one comes first, whichever was fetched first. */
  lemma HigherScoreFirst(mode: Mode, query: Option<string>, env: Collaborators, hi: Record, lo: Record)
    requires Validate(query).Ok?
    requires ScoreOf(mode, query.value, env, hi).Ok? && ScoreOf(mode, query.value, env, lo).Ok?
    requires ScoreOf(mode, query.value, env, hi).value > ScoreOf(mode, query.value, env, lo).value
    requires FixRecord(hi).Ok? && FixRecord(lo).Ok?
    ensures Response(mode, query, env, [hi, lo]) == Ok([FixRecord(hi).value, FixRecord(lo).value])
    ensures Response(mode, query, env, [lo, hi]) == Ok([FixRecord(hi).value, FixRecord(lo).value])
  {
    var q := query.value;
    var h := Scored(ScoreOf(mode, q, env, hi).value, hi);
    var l := Scored(ScoreOf(mode, q, env, lo).value, lo);
    ScoreTwo(mode, q, env, hi, lo);
    ScoreTwo(mode, q, env, lo, hi);
    SortTwo(h, l);
    ReplyOfScored(mode, query, env, [hi, lo], [h, l]);
    ReplyOfScored(mode, query, env, [lo, hi], [l, h]);
    ReplyOfTwo(h, l);
  }

  lemma ReplyOfTwo(h: Scored, l: Scored)
    requires FixRecord(h.doc).Ok? && FixRecord(l.doc).Ok?
    ensures FixId(Docs(Top([h, l]))) == Ok([FixRecord(h.doc).value, FixRecord(l.doc).value])
  {
    assert Docs(Top([h, l])) == [h.doc, l.doc];
    assert FixId([h.doc, l.doc]).value == [FixRecord(h.doc).value, FixRecord(l.doc).value];
  }

  /** Ranked search, same title: rating 10 with 10 recent watches is returned ahead of
      rating 0 with none, in either fetch order. */
  lemma PopularAndRatedFirst(query: Option<string>, env: Collaborators, top: Record, bottom: Record)
    requires Validate(query).Ok?
    requires TitleOf(top).Ok? && TitleOf(top) == TitleOf(bottom)
    requires RatingOf(top) == Ok(10.0) && RatingOf(bottom) == Ok(0.0)
    requires "_id" in top && "_id" in bottom
    requires env.recentViews(top["_id"]) == 10 && env.recentViews(bottom["_id"]) == 0
    requires FixRecord(top).Ok? && FixRecord(bottom).Ok?
    ensures Response(Ranked, query, env, [bottom, top]) == Ok([FixRecord(top).value, FixRecord(bottom).value])
    ensures Response(Ranked, query, env, [top, bottom]) == Ok([FixRecord(top).value, FixRecord(bottom).value])
  {
    RankedScoreStrictlyHigher(query.value, env, top, bottom);
    HigherScoreFirst(Ranked, query, env, top, bottom);
  }
}
