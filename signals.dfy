/** The signals read from one candidate document, and its fused score in each mode. */
module Signals {
  import opened Base
  import opened Documents
  import opened Scoring

  /** The collaborators consulted per candidate, as pure functions: the cosine
      similarity of the embeddings of query and title, and the number of watch events
      the store holds for a movie id within the last 30 days. */
  datatype Collaborators = Collaborators(similarity: (string, string) -> real, recentViews: Json -> nat)

  /** The two fused searches: title-focused hybrid, and ranked with rating and popularity. */
  datatype Mode = Hybrid | Ranked

  /** `m.get("title", "")`, which must be a string to be encoded and lower-cased. */
  function TitleOf(m: Record): (r: Result<string>)
    ensures "title" !in m ==> r == Ok("")
    ensures "title" in m ==> (r.Ok? <==> m["title"].Str?)
    ensures "title" in m && r.Ok? ==> r.value == m["title"].s
    ensures r.Err? ==> r.error == BadTitle
  {
    if "title" !in m then Ok("")
    else match m["title"]
      case Str(t) => Ok(t)
      case _ => Err(BadTitle)
  }

  /** `m.get("rating", 0)` as a number: integers, floats and booleans divide by 10,
      anything else raises. */
  function RatingOf(m: Record): (r: Result<real>)
    ensures "rating" !in m ==> r == Ok(0.0)
    ensures "rating" in m ==> (r.Ok? <==> m["rating"].Int? || m["rating"].Float? || m["rating"].Bool?)
    ensures "rating" in m && m["rating"].Int? ==> r == Ok(m["rating"].i as real)
    ensures "rating" in m && m["rating"].Float? ==> r == Ok(m["rating"].x)
    ensures "rating" in m && m["rating"].Bool? ==> r == Ok(if m["rating"].b then 1.0 else 0.0)
    ensures r.Err? ==> r.error == BadRating
  {
    if "rating" !in m then Ok(0.0)
    else match m["rating"]
      case Int(i) => Ok(i as real)
      case Float(x) => Ok(x)
      case Bool(b) => Ok(if b then 1.0 else 0.0)
      case _ => Err(BadRating)
  }

  /** The fused score of one candidate; the first field that cannot be read aborts. */
  function ScoreOf(mode: Mode, q: string, env: Collaborators, m: Record): (r: Result<real>)
    ensures r.Err? ==> r.error in {BadTitle, BadRating, MissingId}
    ensures mode == Hybrid && TitleOf(m).Ok? ==>
              r == Ok(HybridScore(env.similarity(q, TitleOf(m).value), KeywordOverlap(q, TitleOf(m).value)))
    ensures mode == Ranked && TitleOf(m).Ok? && RatingOf(m).Ok? && "_id" in m ==>
              r == Ok(RankedScore(env.similarity(q, TitleOf(m).value), RatingScore(RatingOf(m).value),
                                  Popularity(env.recentViews(m["_id"]))))
  {
    var title :- TitleOf(m);
    var similarity := env.similarity(q, title);
    match mode
    case Hybrid => Ok(HybridScore(similarity, KeywordOverlap(q, title)))
    case Ranked =>
      var rating :- RatingOf(m);
      if "_id" !in m then Err(MissingId)
      else Ok(RankedScore(similarity, RatingScore(rating), Popularity(env.recentViews(m["_id"]))))
  }

  /** The hybrid score reads nothing but the title: neither rating, nor id, nor views. */
  lemma HybridScoreReadsOnlyTitle(q: string, env1: Collaborators, env2: Collaborators, m1: Record, m2: Record)
    requires TitleOf(m1) == TitleOf(m2)
    requires env1.similarity == env2.similarity
    ensures ScoreOf(Hybrid, q, env1, m1) == ScoreOf(Hybrid, q, env2, m2)
  {
  }

  /** A hybrid score is never an error for a movie with a string title or no title. */
  lemma HybridScoreDefined(q: string, env: Collaborators, m: Record)
    ensures ScoreOf(Hybrid, q, env, m).Ok? <==> TitleOf(m).Ok?
  {
  }

  /** A ranked score needs a readable title, a numeric rating (or none) and an id. */
  lemma RankedScoreDefined(q: string, env: Collaborators, m: Record)
    ensures ScoreOf(Ranked, q, env, m).Ok? <==> TitleOf(m).Ok? && RatingOf(m).Ok? && "_id" in m
  {
  }

  /** Two movies with the same title, the same rating and the same number of recent
      watches get the same ranked score. */
  lemma RankedScoreSameSignals(q: string, env: Collaborators, m1: Record, m2: Record)
    requires TitleOf(m1) == TitleOf(m2) && RatingOf(m1) == RatingOf(m2)
    requires "_id" in m1 && "_id" in m2
    requires env.recentViews(m1["_id"]) == env.recentViews(m2["_id"])
    ensures ScoreOf(Ranked, q, env, m1) == ScoreOf(Ranked, q, env, m2)
  {
  }

  /** Same title, rating 10 and 10 recent watches against rating 0 and none: the first
      scores strictly higher. */
  lemma RankedScoreStrictlyHigher(q: string, env: Collaborators, top: Record, bottom: Record)
    requires TitleOf(top).Ok? && TitleOf(top) == TitleOf(bottom)
    requires RatingOf(top) == Ok(10.0) && RatingOf(bottom) == Ok(0.0)
    requires "_id" in top && "_id" in bottom
    requires env.recentViews(top["_id"]) == 10 && env.recentViews(bottom["_id"]) == 0
    ensures ScoreOf(Ranked, q, env, top).Ok? && ScoreOf(Ranked, q, env, bottom).Ok?
    ensures ScoreOf(Ranked, q, env, top).value > ScoreOf(Ranked, q, env, bottom).value
  {
    RankedScoreTopBeatsBottom(env.similarity(q, TitleOf(top).value));
  }
}
