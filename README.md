# Movie search ranking, modelled in Dafny

This project models the ranking core of a small movie-platform web service
(`pythonProject/ADS.py`). It covers the following:

- **Documents**: the BSON-like values the store returns, and the two utilities
  that render identifiers as strings.
  - `convert_objectid` is a structural map over a whole JSON tree. It replaces
    every ObjectId, at any depth, by its hexadecimal string.
  - `fix_id` replaces the top-level `_id` of each record by `str(_id)`.
- **Text**: Python's `str.lower()` and whitespace `str.split()`, the operations
  the lexical score is made from.
- **Scoring**: the per-candidate signals and their fixed-weight fusion.
  - The lexical overlap is the number of shared lower-cased tokens divided by
    `max(len(q.split()), 1)`.
  - The rating term is `rating / 10`, not clamped.
  - The popularity term is `min(views / 10, 1)`.
  - The hybrid score is `0.8·sim + 0.2·overlap`.
  - The ranked score is `0.5·sim + 0.3·rating + 0.2·popularity`.
- **Signals**: how one movie document yields its score in each mode. It also
  covers the field reads that can fail: a title that is not a string, a rating
  that is not a number, and a missing `_id`.
- **Ranking**: the stable descending sort and the first-10 slice.
  - The sort is specified as a function. It is proved to be a permutation, to be
    sorted, and to keep the fetch order among equal scores. It is also proved to
    be the only sequence with those three properties.
  - It is then implemented as an in-place insertion sort on an array. That
    method is proved equal to the function.
- **Search**: the two fused handlers, `search_movies_hybrid` and
  `search_movies_ranked`.
  - They check the query: an absent or empty query gets the `query missing` 400
    reply before any work.
  - They score every candidate in fetch order, in a loop that appends
    `(score, movie)`.
  - They sort, keep the first 10 and render their ids.
  - The handler is a method proved equal to a specification function
    `Response`. End-to-end lemmas state what a caller observes.

Two collaborators are parameters of the model (`Signals.Collaborators`). Each
is a total function:
- `similarity(query, title)` stands for the cosine similarity of the
  sentence-transformer embeddings.
- `recentViews(id)` stands for the number of watch events for that movie id in
  the last 30 days. This is what `count_documents` returns.

The collection of movies is an input sequence in fetch order. Failures are
values of `Base.Result`:
- `QueryMissing` is the service's own 400 reply.
- Every other error stands for an exception, which the web framework answers
  with a 500.

The lexical overlap's numerator counts distinct shared tokens, but its
denominator counts the raw tokens of the query, repeats included. A query that
repeats a word therefore overlaps its own title by less than 1 (see
`Scoring.SelfOverlapOfRepeatedToken`). The code also has no
guard for a zero-norm embedding. The model treats the similarity as an opaque
real number and adds no fallback.

## Model

| member | source | states |
|---|---|---|
| Documents.Hex | pythonProject/ADS.py:22 | `str(ObjectId)` is two lower-case hex digits per byte |
| Documents.UnhexHex | pythonProject/ADS.py:22 | rendering an ObjectId loses nothing: its bytes read back from the string |
| Documents.HexInjective | pythonProject/ADS.py:22 | distinct ObjectIds render as distinct strings |
| Documents.DecimalDigits | pythonProject/ADS.py:17 | `str(n)` of a natural number is a non-empty run of decimal digits with no leading zero, one digit exactly when `n < 10` |
| Documents.DecimalValueOfDigits | pythonProject/ADS.py:17 | the digits of `str(n)` read back as `n` |
| Documents.IntText | pythonProject/ADS.py:17 | `str(i)` of an integer is non-empty, starts with `-` exactly when `i` is negative, is never `"-0"`, and reading it back, sign included, gives `i` |
| Documents.IntTextInjective | pythonProject/ADS.py:17 | distinct integer ids render as distinct strings |
| Documents.IdText | pythonProject/ADS.py:17 | `str(_id)`: an ObjectId gives its hex string, a string gives itself, an integer its decimal text, `None` gives `"None"`, a boolean `"True"` or `"False"`; a float, list or dict id fails, and only those do |
| Documents.ConvertObjectId | pythonProject/ADS.py:19-23 | lists keep their length, dicts keep their keys, scalars stay scalars; an ObjectId becomes its string (see ConvertObjectIdLeaves), and no ObjectId is left anywhere in the result |
| Documents.ConvertObjectIdKeepsClean | pythonProject/ADS.py:19-23 | a tree without ObjectIds comes back unchanged |
| Documents.ConvertObjectIdIdempotent | pythonProject/ADS.py:19-23 | converting twice is the same as converting once |
| Documents.ConvertObjectIdAtPath | pythonProject/ADS.py:19-23 | the result has exactly the positions of the input, and the subtree at each is the converted input subtree |
| Documents.ConvertObjectIdLeaves | pythonProject/ADS.py:20-23 | at every position an ObjectId leaf becomes its hex string and every other leaf is unchanged |
| Documents.FixRecord | pythonProject/ADS.py:17 | succeeds iff `_id` is present and renderable; the keys are kept, `_id` becomes the string and every other field is unchanged; a missing `_id` is a KeyError |
| Documents.FixId | pythonProject/ADS.py:16-17 | succeeds iff every record can be fixed; the output has the same length and order and holds each record fixed; errors are only missing or unrenderable ids |
| Documents.FixIdIdempotent | pythonProject/ADS.py:16-17 | fixing records that are already fixed returns them unchanged |
| Text.LowerChar | pythonProject/ADS.py:81 | lower-casing leaves every whitespace character unchanged, maps A-Z to a-z (code point plus 32), and leaves no A-Z |
| Text.Lower | pythonProject/ADS.py:81 | `s.lower()` keeps the length and lower-cases each character |
| Text.Split | pythonProject/ADS.py:81 | every token of `s.split()` is non-empty and has no whitespace |
| Text.SplitEmpty | pythonProject/ADS.py:81 | a string has no tokens iff it is all whitespace |
| Text.SplitWordPrefix | pythonProject/ADS.py:81 | a word followed by whitespace or by nothing is split off as the first token |
| Text.SplitSpace | pythonProject/ADS.py:81 | a leading whitespace character is dropped: it starts no token |
| Text.SkipSpaces | pythonProject/ADS.py:81 | any run of leading whitespace is dropped, so several spaces split like one |
| Text.SplitSpaceRun | pythonProject/ADS.py:81 | a word followed by a run of whitespace is split off as the first token, whatever the length of the run |
| Text.SplitJoin | pythonProject/ADS.py:81 | splitting words joined by spaces gives back the same words |
| Text.SplitLower | pythonProject/ADS.py:81 | `s.lower().split()` equals the lower-cased tokens of `s.split()` |
| Text.TokenCountLower | pythonProject/ADS.py:81 | lower-casing does not change the number of tokens |
| Text.TokenSet | pythonProject/ADS.py:81 | `set(s.lower().split())` holds only words, and is empty iff `s` is all whitespace |
| Scoring.WeightsSumToOne | pythonProject/ADS.py:82-108 | each mode's fusion weights sum to 1 |
| Scoring.KeywordOverlap | pythonProject/ADS.py:81 | the lexical overlap always lies in [0, 1] |
| Scoring.Ratio | pythonProject/ADS.py:81 | the true division is non-negative, at most 1 when the numerator is at most the denominator, 1 iff they are equal, and 0 iff the numerator is 0 |
| Scoring.TokenSetSize | pythonProject/ADS.py:81 | the token set is at most as large as the raw token list, and equally large iff no lower-cased token repeats |
| Scoring.CommonTokensBound | pythonProject/ADS.py:81 | the shared tokens never outnumber `max(len(q.split()), 1)` |
| Scoring.OverlapOfBlankQuery | pythonProject/ADS.py:81 | an empty or whitespace-only query has overlap 0, and `max(..., 1)` avoids a division by zero |
| Scoring.OverlapWithBlankTitle | pythonProject/ADS.py:81 | a title without tokens has overlap 0 with every query |
| Scoring.SelfOverlap | pythonProject/ADS.py:81 | a query overlaps itself fully iff it has tokens and none repeats after lower-casing |
| Scoring.SelfOverlapOfRepeatedToken | pythonProject/ADS.py:81 | the query `A a` has self overlap 1/2, since the denominator counts raw tokens |
| Scoring.RatingScore | pythonProject/ADS.py:102 | the rating term times 10 is the rating |
| Scoring.RatingScoreInRange | pythonProject/ADS.py:102 | a rating in [0, 10] gives a term in [0, 1] |
| Scoring.RatingScoreUnclamped | pythonProject/ADS.py:102 | a rating of 15 gives 1.5: nothing clamps it |
| Scoring.Popularity | pythonProject/ADS.py:107 | the popularity lies in [0, 1]: 0 at no views, `views/10` below 10, and 1 from 10 views on |
| Scoring.PopularityMonotone | pythonProject/ADS.py:107 | popularity never decreases with more views |
| Scoring.HybridScore | pythonProject/ADS.py:82 | `0.8·sem + 0.2·key` is a weighted average: it lies between its two signals |
| Scoring.RankedScore | pythonProject/ADS.py:108 | `0.5·sim + 0.3·rate + 0.2·pop` is a weighted average: it lies between the least and the greatest of its three signals |
| Scoring.HybridScoreBounds | pythonProject/ADS.py:82 | the lexical term adds between 0 and 0.2 to the weighted similarity |
| Scoring.RankedScoreMonotone | pythonProject/ADS.py:108 | with the similarity fixed, a higher rating or view count never lowers the ranked score |
| Scoring.RankedScoreTopBeatsBottom | pythonProject/ADS.py:108 | rating 10 with 10 views beats rating 0 with no views by exactly 0.5 |
| Signals.TitleOf | pythonProject/ADS.py:78 | an absent title is `""`, a string title is itself, and any other title fails |
| Signals.RatingOf | pythonProject/ADS.py:102 | an absent rating is 0; an integer or float rating is read as its value and a boolean as 1 or 0; anything else fails |
| Signals.ScoreOf | pythonProject/ADS.py:78-108 | scoring fails only on a bad title, a bad rating or a missing `_id`; with a string title the hybrid score is `HybridScore` of the similarity and the keyword overlap of query and title, and with a string title, a numeric rating and an `_id` the ranked score is `RankedScore` of the similarity, `rating / 10` and the popularity of the id's recent views |
| Signals.HybridScoreReadsOnlyTitle | pythonProject/ADS.py:78-82 | the hybrid score depends only on the title and the similarity, not on rating, id or views |
| Signals.HybridScoreDefined | pythonProject/ADS.py:78-82 | a hybrid score exists iff the title is readable |
| Signals.RankedScoreDefined | pythonProject/ADS.py:99-108 | a ranked score exists iff the title and rating are readable and `_id` is present |
| Signals.RankedScoreSameSignals | pythonProject/ADS.py:99-108 | the same title, rating and view count give the same ranked score |
| Signals.RankedScoreStrictlyHigher | pythonProject/ADS.py:99-108 | with the same title, rating 10 and 10 views scores strictly higher than rating 0 and no views |
| Ranking.Insert | pythonProject/ADS.py:85 | one insertion step of the sort lengthens the sequence by one |
| Ranking.InsertPermutation | pythonProject/ADS.py:85 | an insertion step holds exactly the old items plus the new one |
| Ranking.InsertSorted | pythonProject/ADS.py:85 | inserting into a descending sequence keeps it descending |
| Ranking.SortDesc | pythonProject/ADS.py:85 | the sort keeps the length; its content, order and stability are the three lemmas below |
| Ranking.SortDescPermutation | pythonProject/ADS.py:85 | the sort returns a permutation of its input |
| Ranking.SortDescSorted | pythonProject/ADS.py:85 | the sort's output is in non-increasing score order |
| Ranking.SortDescStable | pythonProject/ADS.py:85 | for every score, the items with that score keep their input order |
| Ranking.StableSortUnique | pythonProject/ADS.py:85 | any sorted arrangement that keeps the input order within every score equals the sort's output |
| Ranking.SortByScore | pythonProject/ADS.py:85 | sorting the array in place yields exactly the stable descending sort of its old contents |
| Ranking.InsertInPlace | pythonProject/ADS.py:85 | one insertion step places `a[i]` into the sorted prefix and leaves the rest unchanged |
| Ranking.Top | pythonProject/ADS.py:86 | `res[:10]` is the prefix of length `min(10, n)` |
| Ranking.Docs | pythonProject/ADS.py:86 | `[m for _, m in ...]` keeps the documents in order |
| Ranking.TopKSelection | pythonProject/ADS.py:85-86 | the first 10 of the sort are `min(10, n)` items, sorted, drawn from the input, and none of the dropped items outscores one that is kept |
| Search.Validate | pythonProject/ADS.py:69-71 | the query is rejected with `query missing` iff it is absent or empty; whitespace-only queries pass |
| Search.ScoreAll | pythonProject/ADS.py:77-83 | scoring succeeds iff every candidate scores; the result pairs each candidate, in fetch order, with its score |
| Search.ScoreAllFirstError | pythonProject/ADS.py:77-83 | a failed pass reports the error of the first candidate that cannot be scored |
| Search.ScoreAllPrefixError | pythonProject/ADS.py:77-83 | once a prefix of the candidates fails, the whole pass fails with that error |
| Search.ScoreCandidates | pythonProject/ADS.py:75-83 | the append loop computes exactly the scored list, or the first error |
| Search.Search | pythonProject/ADS.py:67-86 | the handler computes exactly `Response`: validate, score, sort in place, slice, fix ids |
| Search.Response | pythonProject/ADS.py:67-86 | the request fails with the 400 `query missing` reply iff the query is absent or empty, whatever the collection holds; a successful reply has `min(10, n)` records |
| Search.TopDrawnFromCandidates | pythonProject/ADS.py:111-112 | every returned item is one of the scored candidates |
| Search.CandidateIsMovie | pythonProject/ADS.py:98-109 | every scored item carries one of the fetched movies |
| Search.ReplyShape | pythonProject/ADS.py:111-112 | a successful reply has `min(10, n)` records, each a fetched movie with its `_id` rendered |
| Search.ReplyDefined | pythonProject/ADS.py:94-112 | a valid query over movies that all score and all have renderable ids always succeeds |
| Search.SingleCandidate | pythonProject/ADS.py:73-86 | a one-movie collection returns exactly that movie |
| Search.SortDescEqualScores | pythonProject/ADS.py:85 | when all scores are equal, sorting leaves the order unchanged |
| Search.EqualScoresKeepFetchOrder | pythonProject/ADS.py:85-86 | candidates with equal scores come back as the first `min(10, n)` in fetch order |
| Search.SortTwo | pythonProject/ADS.py:85 | two items sort with the higher score first, in either input order |
| Search.ScoreTwo | pythonProject/ADS.py:77-83 | two candidates are scored in fetch order |
| Search.ReplyOfScored | pythonProject/ADS.py:85-86 | once the candidates are scored, the reply is the fixed first 10 of their stable sort |
| Search.HigherScoreFirst | pythonProject/ADS.py:85-86 | of two candidates, the higher-scoring one is returned first whichever was fetched first |
| Search.ReplyOfTwo | pythonProject/ADS.py:86 | a two-item reply is the two records, fixed, in order |
| Search.PopularAndRatedFirst | pythonProject/ADS.py:98-112 | in ranked search with equal titles, rating 10 with 10 recent views is returned ahead of rating 0 with none, in either fetch order |

## Left out

- The web layer (Flask routing, `jsonify`, HTTP status codes) is left out. Replies are values of `Result`, and `QueryMissing` stands for the 400 reply.
- MongoDB is left out. `find({})` is the input sequence in fetch order, and `count_documents` over the last 30 days is the `recentViews` collaborator. The clock and the 30-day window are not modelled.
- The sentence-transformer embeddings and the numpy cosine similarity are left out. They are the opaque `similarity` collaborator, so a NaN from a zero-norm embedding is not represented.
- Floating point is left out: scores are exact reals, so rounding and NaN ordering in the sort are not modelled.
- `search_movies_basic` is left out beyond its query check, which is the same `Search.Validate` (lines 60-62). Its ordering is MongoDB's text score, which lies outside the model.
- `top_watched_movies` is left out: it is an aggregation pipeline that runs inside the database. Only its final `convert_objectid` is covered, by `Documents.ConvertObjectId`.
- `get_user_history` and `get_movie_reviews` are left out beyond `convert_objectid`. The parsing of `ObjectId(id)` and the database queries are not modelled.
- The `home` route and the module-level setup (client, index creation, model loading) are left out.
- Text.LowerChar: lower-cases only ASCII and Latin-1 upper-case letters, not the whole of Unicode, because case folding across Unicode is outside the model.
- Documents.IdText: does not render a float, list or dict `_id` the way Python's `str()` does; such an id is reported as the `IdNotRendered` error.
- Signals.ScoreOf: the embedding call on a non-string title and the division of a non-numeric rating are modelled only as the errors they raise, not as the exception type or text.
