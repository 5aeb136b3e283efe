# Question recommender — a Dafny model

The service answers `GET /recommend?avaliation=…&client=…&scale=…`. Given a
client's evaluation on a questionnaire scale, it recommends the questions
on which comparable subjects later scored lower than this evaluation
currently does. The route works in these steps:

1. It checks that the evaluation exists for the client and the scale.
2. It builds a comparison pool. The pool holds every answer in the scale
   from other clients' evaluations, plus the target evaluation's own
   answers.
3. It pivots the pool into a zero-filled evaluation × question score matrix.
4. It ranks the pool's evaluations by cosine similarity to the target. It
   keeps the five most similar and drops the target itself.
5. It pairs each neighbour with its owning client.
6. It gathers, for each neighbour, the answers of that client's later
   evaluations in the scale.
7. It averages those answers per question.
8. It subtracts the target's own scores and keeps the negative differences,
   sorted ascending.
9. It returns the scale's questions whose id survived.

The model replaces the four SQL queries with filters over in-memory tables.
Answers are joined rows (`Records.AnswerRow`: evaluation, client, question,
question's scale, score). Scores are exact `real`s. The similarity function
is a parameter. Each pipeline step is a function with its properties proved
about it. The progression loop is an imperative method proved against the
function it computes. The whole route is `Recommender.Recommendation`,
which has four outcomes:

- `NotFound`: HTTP 404.
- `TargetUnanswered`: the server error raised when the target has no
  answer in the scale. This is the `KeyError` of `.loc[avaliationid]`, or,
  when the whole comparison pool is empty, an earlier error of the tabular
  or similarity library on the empty table.
- `NoData`: the "no data" message.
- `Recommended(questions)`.

Modules, in dependency order:

- `Seqs` (seqs.dfy): order-keeping filter, concatenation.
- `Records` (records.dfy): the rows and the query filters.
- `Ranking` (ranking.dfy): labelled series, the value sort, label removal.
- `ScoreMatrix` (score_matrix.dfy): pivot table, column means.
- `Neighbours` (neighbours.dfy): top-five selection, client pairing.
- `Progression` (progression.dfy): the gathering loop.
- `Gap` (gap.dfy): the target's series, the negative differences, question
  selection.
- `Recommender` (recommender.dfy): the route.
- `Scenario` (scenario.dfy): a worked example of the route.

The tables are assumed well formed (`Records.WellFormed`):

- Every evaluation has one owning client.
- All rows for one (evaluation, question) pair carry the same score.

The second condition generalises "one answer per question". It also holds
for the concatenated progressions, which repeat rows when two neighbours
share a client. The tabular library's mean of equal duplicates is that
value itself.

## Model

| member | source | states |
|---|---|---|
| Records.QueryRelation | main.py:21-28 | the existence check's result is empty exactly when no evaluation row has the given client, id and scale |
| Records.FetchAnswers | main.py:62-83 | the comparison pool holds exactly the answers in the scale whose client differs from the requester's or whose evaluation is the target, in table order |
| Records.PrimaryPoolContents | main.py:75-78 | every answer of the target in the scale is in the pool; no other evaluation of the requesting client is; every pool answer is in the scale |
| Records.FetchEvaluationDetails | main.py:30-48 | a progression holds exactly the answers in the scale of the given client's evaluations with an id greater than the given one |
| Records.FetchQuestions | main.py:51-59 | the scale's question list holds exactly the questions whose row has that scale |
| Ranking.Sort | main.py:104 | `sort_values`: the result is ordered by value in the requested direction and is a permutation of the input |
| Ranking.RemoveId | main.py:105 | `drop(label)` keeps exactly the entries whose label differs, and never lengthens the series |
| Ranking.RemoveIdLength | main.py:105 | `drop(label, errors='ignore')` removes exactly one entry when the label is present (distinct labels) and none otherwise |
| ScoreMatrix.Keys | main.py:98 | a pivot's index or columns are the distinct evaluation or question ids of the rows, strictly ascending |
| ScoreMatrix.Cell | main.py:98 | a cell holds the evaluation's score for the question, or 0 when it has no such answer |
| ScoreMatrix.PivotTable | main.py:98 | one row per distinct evaluation and one column per distinct question, both strictly ascending; every cell holds the matching score or 0 |
| ScoreMatrix.ColumnMeans | main.py:121 | a mean series labelled by the pivot's columns; each mean times the row count is the column sum, with missing answers counted as the filled-in 0 |
| ScoreMatrix.ColumnMeanBounds | main.py:121 | when every cell lies in [0, hi], every column mean lies in [0, hi] |
| ScoreMatrix.ColumnMeanUniform | main.py:121 | a column holding one value in every row has that value as its mean |
| Neighbours.SimilarityRow | main.py:100-103 | the target's similarity row is labelled by the pivot's evaluation ids; each entry is the similarity of the target's score vector to that row's |
| Neighbours.Top | main.py:104 | `head(5)` of the descending sort keeps min(5, n) entries |
| Neighbours.TopSpec | main.py:104 | `head(5)` of the descending sort: non-increasing, distinct, drawn from the row, and at least as similar as every entry left out |
| Neighbours.SimilarEvaluationsSpec | main.py:103-106 | the selection never holds the target; it holds min(5, n) entries, one fewer when the target is among the top five; it is non-increasing, has distinct ids and is drawn from the row; no other evaluation left out is more similar than a selected one |
| Neighbours.SimilarEvaluations | main.py:104-106 | the selection never holds the target, has at most five entries and is drawn from the similarity row |
| Neighbours.SelfMostSimilar | main.py:103-106 | when the target is strictly most similar to itself, exactly min(5, n) − 1 neighbours are selected |
| Neighbours.SmallRowAllSelected | main.py:104-105 | when the row has at most five entries, every evaluation other than the target is selected |
| Neighbours.ClientOf | main.py:108-109 | the client paired with an evaluation is the client on all of its answer rows |
| Neighbours.SimilarClients | main.py:108-110 | one pair per selected id, in selection order, each with the client of that evaluation's own rows |
| Progression.Progressions | main.py:112-116 | at most one progression per neighbour; each kept one is non-empty and is the progression of some neighbour |
| Progression.GatherProgression | main.py:112-116 | the loop's `results_list` is the non-empty progressions of the neighbours, in neighbour order |
| Progression.ProgressionsEmpty | main.py:112-118 | no progression is kept exactly when every neighbour's progression is empty |
| Progression.CombinedProgression | main.py:112-119 | the concatenated progressions hold exactly the answers in the scale of a neighbour's client's evaluations later than that neighbour |
| Gap.TargetSeries | main.py:122-124 | the target's row of its own pivot: strictly ascending question ids, exactly the questions the target answered, each with the target's score |
| Gap.NegativeGaps | main.py:125-126 | a difference is kept exactly when the target has a score for the mean's question and mean − score < 0; it is labelled by that question |
| Gap.RetainedIff | main.py:125-126 | aligning on question id: a mean is retained exactly when the target's score for the same question is above it |
| Gap.GapRanking | main.py:125-127 | the ranking is ascending and a permutation of the negative differences |
| Gap.GapRankingSpec | main.py:125-127 | the ranking is ascending, every gap is negative, and it holds (q, mean − score) exactly when both a mean and a target score exist for q and the mean is lower |
| Gap.NegativeGapsAsWritten | main.py:124-126 | as written: with exactly one target score, every mean is compared against that score; otherwise the same as the aligned difference |
| Gap.SqueezeBroadcastsOneScore | main.py:124-126 | a target with one answered question: as written, another question is ranked against that one score; aligned on question id, nothing is ranked |
| Gap.SelectQuestions | main.py:128-130 | the selected questions are the scale's questions whose id is ranked, in question-table order (a subsequence), with multiplicities kept |
| Recommender.PoolMatrix | main.py:95-98 | the pool matrix's rows are the pool's evaluations; the target is among them exactly when it has an answer in the scale |
| Recommender.ChosenIds | main.py:103-106 | at most five selected ids, none the target, all pool evaluations; with at most five pool evaluations, every non-target one is selected |
| Recommender.NeighboursOf | main.py:103-110 | at most five neighbours, none the target and none owned by the requester, each paired with its own client and answering in the scale; with at most five pool evaluations, every other one is a neighbour |
| Recommender.PeerMeans | main.py:119-121 | the peer means are the column means of the gathered answers' pivot table; they are labelled by strictly ascending question ids, exactly the questions some gathered answer is about |
| Recommender.OwnSeries | main.py:122-124 | the target's own series has distinct question ids, exactly the questions the target answered in the scale, each with the target's score |
| Recommender.RankingOf | main.py:121-127 | the ranking is ascending and negative; it ranks a question exactly when its peer mean is below the target's score for it, and each ranked value is that mean minus that score |
| Recommender.RankingFacts | main.py:124-127 | the gap ranking against the target's own series, stated over the answers: ascending, negative, the questions whose mean is below the target's score, each valued mean minus score |
| Recommender.Recommendation | main.py:86-132 | "not found" only when the existence query is empty; recommended questions are questions of the scale; each outcome is characterised exactly by the lemmas below |
| Recommender.RecommendQuestionsRoute | main.py:86-132 | the route, run with the imperative gathering loop, answers what `Recommendation` specifies |
| Recommender.NotFoundExactly | main.py:91-93 | 404 is answered exactly when no evaluation row matches the client, id and scale |
| Recommender.TargetUnansweredExactly | main.py:98-103 | past the existence check, the route fails exactly when the target has no answer in the scale |
| Recommender.NoDataExactly | main.py:118-132 | past both checks, "no data" is answered exactly when every neighbour's progression is empty; otherwise a question list is |
| Recommender.RecommendedQuestions | main.py:118-130 | a recommended list is a subsequence of the scale's questions and holds exactly those with a peer mean strictly below the target's score |
| Scenario.ScenarioRecommends | main.py:95-132 | for any similarity, tables of the worked shape make the route recommend exactly the second question |
| Scenario.ScenarioNoData | main.py:95-132 | for any similarity, the same shape without the peer's later evaluation makes the route answer "no data", not an empty list |
| Scenario.PeerProgressionScenario | main.py:95-132 | the concrete worked example recommends exactly the second question |
| Scenario.NoLaterEvaluationScenario | main.py:95-132 | the concrete example without the later evaluation answers "no data" |

## Left out

- Database plumbing is not modelled: environment loading, engine
  creation, connections and query execution (main.py:10-13, 26-28, 46-48,
  57-59, 81-83). Only the queries' WHERE clauses and joins are modelled, as
  filters over in-memory rows. The database is a parameter.
- The HTTP layer is not modelled: the FastAPI app, the route decorator,
  `QueryParams`, `HTTPException` and the response dictionaries. The
  outcomes are the `Recommender.Outcome` datatype.
- The numeric value of `cosine_similarity` is left out. It uses square
  roots and floating point. It is a caller-supplied function of two score
  vectors, and every neighbour property holds for any such function.
- Floating point is not modelled. Scores and means are exact reals, so
  rounding in the mean and in the difference is not captured.
- The `client` query parameter is declared as a string in the route and
  compared with an integer column. The model treats it as an integer.
- Tie order is a modelling choice. The library's `sort_values` uses an
  unstable sort, so the order of equal values, and which of several
  equally similar evaluations fill the fifth place, is unspecified. The
  model fixes a stable insertion sort: ties keep ascending id order. Every
  proved property holds for any order among ties, except the exact
  neighbour list `Recommendation` computes.
- The unused `timestamp` column is not modelled.
- NaN from index alignment is modelled only as "a question must appear in
  both series". A question with a mean but no target score, or the reverse,
  is dropped by the `< 0` filter.
- `pivot_table`'s mean aggregation of duplicate (evaluation, question) rows
  is not modelled in general. `Records.ScoresAgree` requires such rows to
  carry equal scores, and then the aggregate is that score.
- The returned questions come in question-table order (main.py:128), not
  in the order of the sorted differences; the sort at main.py:127 does not
  reach the response.
- A ranked question with no row in the question table is dropped without
  an error (main.py:128).
- A target with no answer in the scale passes the existence check
  (main.py:91-93) and then fails at `similarity_df.loc[avaliationid]`
  (main.py:103), so it gets a server error (`TargetUnanswered`) rather
  than "not found".
- Recommender.RankingOf: uses the difference aligned on question id. For a
  target that answered exactly one question of the scale, the code at
  main.py:124-126 compares that one score with the mean of every question;
  the model does not reproduce this (see Findings).
- Recommender.Recommendation: inherits the aligned difference of
  `Recommender.RankingOf`, so the one-answer case above is not reproduced.
- Recommender.RecommendedQuestions: states the recommended questions for
  the aligned difference only, not the one-answer case above.
- Recommender.RecommendQuestionsRoute: computes `Recommender.Recommendation`
  and so has the same aligned difference, not the one-answer case above.
- Recommender.TargetUnansweredExactly: models the server error as one
  outcome. It does not tell the `KeyError` apart from the empty-pool
  error, and it does not model the HTTP 500 body the framework returns.

## Findings

| source | as written | input that shows it | evidently intended | confidence | as-written member | corrected member |
|---|---|---|---|---|---|---|
| main.py:124-126 | `.squeeze()` turns the target's row into a bare number when the target answered exactly one question of the scale; `mean_scores - evaluation_series` then subtracts that one score from the mean of every question | target answered only question 1 (score 2); peer means are 5 for question 1 and 1 for question 2 — question 2 is recommended with gap −1 although the target never answered it | differences aligned on question id: only questions the target answered are compared, so nothing is recommended here | medium; not executed | Gap.SqueezeBroadcastsOneScore | Gap.GapRankingSpec |

The pipeline (`Recommender.RankingOf`, and so `Recommender.Recommendation`)
uses the corrected difference `Gap.NegativeGaps`. `Gap.NegativeGapsAsWritten`
models the code as written, and `Gap.SqueezeBroadcastsOneScore` exhibits
where the two differ.
