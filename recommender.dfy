/** The `/recommend` route as one computation over in-memory tables: the
    existence check, the comparison pool and its score matrix, neighbour
    selection, progression gathering, the peer means, the gap against the
    target and the selection of question rows. */
module Recommender {
  import opened Seqs
  import opened Records
  import opened Ranking
  import opened ScoreMatrix
  import opened Neighbours
  import opened Progression
  import opened Gap

  /** What the route answers: HTTP 404 when the evaluation does not exist for
      the client and scale; a server error when the target has no answer in
      the scale (the `KeyError` of `.loc[target]`, or an earlier library
      error when the pool is empty); the "no data"
      message when no neighbour has a later evaluation; otherwise the
      questions. */
  datatype Outcome = NotFound | TargetUnanswered | NoData | Recommended(questions: seq<Question>)

  /** Cosine similarity of two score vectors, supplied by the caller. */
  type Similarity = (seq<real>, seq<real>) -> real

  /** The pivot of the comparison pool. */
  function PoolMatrix(answers: seq<AnswerRow>, client: int, target: int, scale: int): (m: Matrix)
    requires WellFormed(answers)
    ensures Shaped(m) && StrictlyIncreasing(m.rows)
    ensures forall e :: e in m.rows <==> exists a :: a in FetchAnswers(answers, client, target, scale) && a.evaluation == e
    ensures target in m.rows <==> exists a :: a in answers && a.evaluation == target && a.questionScale == scale
  {
    var primary := FetchAnswers(answers, client, target, scale);
    WellFormedSelection(answers, primary);
    PivotTable(primary)
  }

  /** `similar_ids`: the evaluations selected from the target's similarity
      row; at most five, all in the pool, none the target. */
  function ChosenIds(answers: seq<AnswerRow>, client: int, target: int, scale: int, sim: Similarity): (ids: seq<int>)
    requires WellFormed(answers)
    requires target in PoolMatrix(answers, client, target, scale).rows
    ensures |ids| <= TopCount
    ensures forall e :: e in ids ==> e != target && e in PoolMatrix(answers, client, target, scale).rows
    ensures |PoolMatrix(answers, client, target, scale).rows| <= TopCount ==>
      forall e :: e in PoolMatrix(answers, client, target, scale).rows && e != target ==> e in ids
  {
    var m := PoolMatrix(answers, client, target, scale);
    var row := SimilarityRow(m, IndexOf(m.rows, target), sim);
    IncreasingIdsDistinct(row);
    SimilarEvaluationsSpec(row, target);
    var chosen := SimilarEvaluations(row, target);
    assert forall x :: x in chosen ==> x.id in m.rows by {
      forall x | x in chosen ensures x.id in m.rows {
        assert x in row;
        var i :| 0 <= i < |row| && row[i] == x;
        assert Ids(row)[i] == x.id;
      }
    }
    if |m.rows| <= TopCount then
      SmallRowAllSelected(row, target);
      Ids(chosen)
    else
      Ids(chosen)
  }

  /** `similar_clients`: the selected neighbours with their clients. They
      are at most five other evaluations of the comparison pool, none of
      them the target and none owned by the requesting client, each paired
      with the client of its own answers. */
  function NeighboursOf(answers: seq<AnswerRow>, client: int, target: int, scale: int, sim: Similarity): (ns: seq<Neighbour>)
    requires WellFormed(answers)
    requires target in PoolMatrix(answers, client, target, scale).rows
    ensures |ns| <= TopCount
    ensures forall n :: n in ns ==> n.evaluation != target && n.client != client
    ensures forall n, a :: n in ns && a in answers && a.evaluation == n.evaluation ==> a.client == n.client
    ensures forall n :: n in ns ==> exists a :: a in answers && a.evaluation == n.evaluation && a.questionScale == scale
    ensures |PoolMatrix(answers, client, target, scale).rows| <= TopCount ==>
      forall e :: e in PoolMatrix(answers, client, target, scale).rows && e != target ==> exists n :: n in ns && n.evaluation == e
  {
    var primary := FetchAnswers(answers, client, target, scale);
    WellFormedSelection(answers, primary);
    var ids := ChosenIds(answers, client, target, scale, sim);
    var ns := SimilarClients(primary, ids);
    assert forall n :: n in ns ==> (n.evaluation != target && n.client != client &&
        (forall a :: a in answers && a.evaluation == n.evaluation ==> a.client == n.client) &&
        exists a :: a in answers && a.evaluation == n.evaluation && a.questionScale == scale) by {
      forall n | n in ns
        ensures n.evaluation != target && n.client != client
        ensures forall a :: a in answers && a.evaluation == n.evaluation ==> a.client == n.client
        ensures exists a :: a in answers && a.evaluation == n.evaluation && a.questionScale == scale
      {
        var k :| 0 <= k < |ns| && ns[k] == n;
        assert ids[k] in ids;
        var a :| a in primary && a.evaluation == n.evaluation;
        assert a.client == n.client;
      }
    }
    assert |PoolMatrix(answers, client, target, scale).rows| <= TopCount ==>
      forall e :: e in PoolMatrix(answers, client, target, scale).rows && e != target ==> exists n :: n in ns && n.evaluation == e
    by {
      forall e | |PoolMatrix(answers, client, target, scale).rows| <= TopCount && e in PoolMatrix(answers, client, target, scale).rows && e != target
        ensures exists n :: n in ns && n.evaluation == e
      {
        var k := IndexOf(ids, e);
        assert ns[k] in ns;
      }
    }
    ns
  }

  /** `mean_scores`: the column means of the pivot of the combined
      progression pool, labelled by question id, one per question some
      progression answer is about. */
  function PeerMeans(answers: seq<AnswerRow>, results: seq<seq<AnswerRow>>): (r: seq<Scored>)
    requires WellFormed(answers)
    requires results != []
    requires forall k :: 0 <= k < |results| ==> results[k] != []
    requires forall k, a :: 0 <= k < |results| && a in results[k] ==> a in answers
    ensures StrictlyIncreasing(Ids(r))
    ensures forall q :: q in Ids(r) <==> exists a :: a in Concat(results) && a.question == q
    ensures ScoresAgree(Concat(results)) && |PivotTable(Concat(results)).rows| > 0
    ensures r == ColumnMeans(PivotTable(Concat(results)))
  {
    var combined := Concat(results);
    WellFormedSelection(answers, combined);
    assert combined != [] by {
      assert results[0][0] in results[0];
    }
    var peers := PivotTable(combined);
    assert peers.rows != [] by {
      assert combined[0] in combined;
      assert combined[0].evaluation in peers.rows;
    }
    ColumnMeans(peers)
  }

  /** `evaluation_series`: the target's own scores, one per question it
      answered in the scale. */
  function OwnSeries(answers: seq<AnswerRow>, client: int, target: int, scale: int): (ts: seq<Scored>)
    requires WellFormed(answers)
    ensures DistinctIds(ts)
    ensures forall q :: q in Ids(ts) <==> exists a :: a in answers && a.evaluation == target && a.questionScale == scale && a.question == q
    ensures forall x, a :: x in ts && a in answers && a.evaluation == target && a.questionScale == scale && a.question == x.id ==> x.value == a.score
  {
    var primary := FetchAnswers(answers, client, target, scale);
    WellFormedSelection(answers, primary);
    var ts := TargetSeries(primary, target);
    IncreasingIdsDistinct(ts);
    assert forall q :: q in Ids(ts) <==> exists a :: a in answers && a.evaluation == target && a.questionScale == scale && a.question == q by {
      forall q ensures q in Ids(ts) <==> exists a :: a in answers && a.evaluation == target && a.questionScale == scale && a.question == q {
        if exists a :: a in answers && a.evaluation == target && a.questionScale == scale && a.question == q {
          var a :| a in answers && a.evaluation == target && a.questionScale == scale && a.question == q;
          assert a in primary;
        }
      }
    }
    ts
  }

  /** `sorted_filtered_differences`: ascending, all negative, holding a
      question exactly when it has a peer mean strictly below the target's
      own score for it, with value mean − score. */
  function RankingOf(answers: seq<AnswerRow>, client: int, target: int, scale: int, results: seq<seq<AnswerRow>>): (r: seq<Scored>)
    requires WellFormed(answers)
    requires results != []
    requires forall k :: 0 <= k < |results| ==> results[k] != []
    requires forall k, a :: 0 <= k < |results| && a in results[k] ==> a in answers
    ensures Ordered(r, false)
    ensures forall g :: g in r ==> g.value < 0.0
    ensures forall q :: q in Ids(r) <==>
      exists m, a :: m in PeerMeans(answers, results) && a in answers && a.evaluation == target && a.questionScale == scale &&
        m.id == q && a.question == q && m.value < a.score
    ensures forall g :: g in r ==>
      exists m, a :: m in PeerMeans(answers, results) && a in answers && a.evaluation == target && a.questionScale == scale &&
        m.id == g.id && a.question == g.id && g.value == m.value - a.score
  {
    var means := PeerMeans(answers, results);
    var ts := OwnSeries(answers, client, target, scale);
    RankingFacts(answers, target, scale, means, ts);
    GapRanking(means, ts)
  }

  /** The gap ranking against the target's own series, stated in terms of
      the answers. */
  lemma RankingFacts(answers: seq<AnswerRow>, target: int, scale: int, means: seq<Scored>, ts: seq<Scored>)
    requires DistinctIds(ts)
    requires forall q :: q in Ids(ts) <==> exists a :: a in answers && a.evaluation == target && a.questionScale == scale && a.question == q
    requires forall x, a :: x in ts && a in answers && a.evaluation == target && a.questionScale == scale && a.question == x.id ==> x.value == a.score
    ensures var r := GapRanking(means, ts);
      && Ordered(r, false)
      && (forall g :: g in r ==> g.value < 0.0)
      && (forall q :: q in Ids(r) <==>
            exists m, a :: m in means && a in answers && a.evaluation == target && a.questionScale == scale &&
              m.id == q && a.question == q && m.value < a.score)
      && (forall g :: g in r ==>
            exists m, a :: m in means && a in answers && a.evaluation == target && a.questionScale == scale &&
              m.id == g.id && a.question == g.id && g.value == m.value - a.score)
  {
    var r := GapRanking(means, ts);
    GapRankingSpec(means, ts);
    RankingIds(answers, target, scale, means, ts, r);
    forall g | g in r
      ensures exists m, a :: (m in means && a in answers && a.evaluation == target && a.questionScale == scale &&
        m.id == g.id && a.question == g.id && g.value == m.value - a.score)
    {
      RankedGap(answers, target, scale, means, ts, r, g);
    }
  }

  /** A ranked entry is a peer mean minus the target's score for the same
      question. */
  lemma RankedGap(answers: seq<AnswerRow>, target: int, scale: int, means: seq<Scored>, ts: seq<Scored>, r: seq<Scored>, g: Scored)
    requires forall q :: q in Ids(ts) ==> exists a :: a in answers && a.evaluation == target && a.questionScale == scale && a.question == q
    requires forall x, a :: x in ts && a in answers && a.evaluation == target && a.questionScale == scale && a.question == x.id ==> x.value == a.score
    requires forall g :: g in r ==> exists m, t :: m in means && t in ts && m.id == t.id && m.value - t.value < 0.0 && g == Scored(m.id, m.value - t.value)
    requires g in r
    ensures exists m, a :: (m in means && a in answers && a.evaluation == target && a.questionScale == scale &&
      m.id == g.id && a.question == g.id && g.value == m.value - a.score)
  {
    var m, t :| m in means && t in ts && m.id == t.id && m.value - t.value < 0.0 && g == Scored(m.id, m.value - t.value);
    assert t.id in Ids(ts);
    var a :| a in answers && a.evaluation == target && a.questionScale == scale && a.question == t.id;
  }

  /** What the ranking's ids are, given what the gap ranking holds and what
      the target series holds. */
  lemma RankingIds(answers: seq<AnswerRow>, target: int, scale: int, means: seq<Scored>, ts: seq<Scored>, r: seq<Scored>)
    requires forall q :: q in Ids(ts) <==> exists a :: a in answers && a.evaluation == target && a.questionScale == scale && a.question == q
    requires forall x, a :: x in ts && a in answers && a.evaluation == target && a.questionScale == scale && a.question == x.id ==> x.value == a.score
    requires forall g :: g in r <==> exists m, t :: m in means && t in ts && m.id == t.id && m.value - t.value < 0.0 && g == Scored(m.id, m.value - t.value)
    ensures forall q :: q in Ids(r) <==>
      exists m, a :: m in means && a in answers && a.evaluation == target && a.questionScale == scale &&
        m.id == q && a.question == q && m.value < a.score
  {
    forall q | q in Ids(r)
      ensures exists m, a :: (m in means && a in answers && a.evaluation == target && a.questionScale == scale &&
        m.id == q && a.question == q && m.value < a.score)
    {
      RankedHasLowerMean(answers, target, scale, means, ts, r, q);
    }
    forall q | exists m, a :: (m in means && a in answers && a.evaluation == target && a.questionScale == scale &&
        m.id == q && a.question == q && m.value < a.score)
      ensures q in Ids(r)
    {
      var m, a :| m in means && a in answers && a.evaluation == target && a.questionScale == scale &&
         m.id == q && a.question == q && m.value < a.score;
      LowerMeanIsRanked(answers, target, scale, means, ts, r, m, a);
    }
  }

  lemma RankedHasLowerMean(answers: seq<AnswerRow>, target: int, scale: int, means: seq<Scored>, ts: seq<Scored>, r: seq<Scored>, q: int)
    requires forall q :: q in Ids(ts) ==> exists a :: a in answers && a.evaluation == target && a.questionScale == scale && a.question == q
    requires forall x, a :: x in ts && a in answers && a.evaluation == target && a.questionScale == scale && a.question == x.id ==> x.value == a.score
    requires forall g :: g in r ==> exists m, t :: m in means && t in ts && m.id == t.id && m.value - t.value < 0.0 && g == Scored(m.id, m.value - t.value)
    requires q in Ids(r)
    ensures exists m, a :: (m in means && a in answers && a.evaluation == target && a.questionScale == scale &&
      m.id == q && a.question == q && m.value < a.score)
  {
    var g :| g in r && g.id == q;
    var m, t :| m in means && t in ts && m.id == t.id && m.value - t.value < 0.0 && g == Scored(m.id, m.value - t.value);
    assert t.id in Ids(ts);
    var a :| a in answers && a.evaluation == target && a.questionScale == scale && a.question == t.id;
  }

  lemma LowerMeanIsRanked(answers: seq<AnswerRow>, target: int, scale: int, means: seq<Scored>, ts: seq<Scored>, r: seq<Scored>,
                          m: Scored, a: AnswerRow)
    requires forall q :: (exists a :: a in answers && a.evaluation == target && a.questionScale == scale && a.question == q) ==> q in Ids(ts)
    requires forall x, a :: x in ts && a in answers && a.evaluation == target && a.questionScale == scale && a.question == x.id ==> x.value == a.score
    requires forall g :: (exists m, t :: m in means && t in ts && m.id == t.id && m.value - t.value < 0.0 && g == Scored(m.id, m.value - t.value)) ==> g in r
    requires m in means && a in answers && a.evaluation == target && a.questionScale == scale && a.question == m.id && m.value < a.score
    ensures m.id in Ids(r)
  {
    assert m.id in Ids(ts);
    var t :| t in ts && t.id == m.id;
    var g := Scored(m.id, m.value - t.value);
    assert g in r;
  }

  /** The route, as a function of the tables it reads. */
  function Recommendation(evaluations: seq<EvaluationRow>, answers: seq<AnswerRow>, questions: seq<QuestionRow>,
                          target: int, client: int, scale: int, sim: Similarity): (r: Outcome)
    requires WellFormed(answers)
    ensures r == NotFound ==> QueryRelation(evaluations, client, target, scale) == []
    ensures r.Recommended? ==> forall q :: q in r.questions ==> QuestionRow(scale, q) in questions
  {
    if QueryRelation(evaluations, client, target, scale) == [] then NotFound
    else if target !in PoolMatrix(answers, client, target, scale).rows then TargetUnanswered
    else
      var results := Progressions(answers, NeighboursOf(answers, client, target, scale, sim), scale);
      if results == [] then NoData
      else
        ProgressionsFromAnswers(answers, NeighboursOf(answers, client, target, scale, sim), scale);
        var ranking := RankingOf(answers, client, target, scale, results);
        Recommended(SelectQuestions(FetchQuestions(questions, scale), ranking))
  }

  lemma ProgressionsFromAnswers(answers: seq<AnswerRow>, ns: seq<Neighbour>, scale: int)
    ensures forall k, a :: 0 <= k < |Progressions(answers, ns, scale)| && a in Progressions(answers, ns, scale)[k] ==> a in answers
  {
    var results := Progressions(answers, ns, scale);
    CombinedProgression(answers, ns, scale);
    forall k, a | 0 <= k < |results| && a in results[k] ensures a in answers {
      assert a in Concat(results);
    }
  }

  /** `recommend_questions_route`: the existence check, then the pipeline,
      with the progression loop run imperatively. */
  method RecommendQuestionsRoute(evaluations: seq<EvaluationRow>, answers: seq<AnswerRow>, questions: seq<QuestionRow>,
                                 target: int, client: int, scale: int, sim: Similarity) returns (outcome: Outcome)
    requires WellFormed(answers)
    ensures outcome == Recommendation(evaluations, answers, questions, target, client, scale, sim)
  {
    var found := QueryRelation(evaluations, client, target, scale);
    if found == [] {
      return NotFound;
    }
    var m := PoolMatrix(answers, client, target, scale);
    if target !in m.rows {
      return TargetUnanswered;
    }
    var ns := NeighboursOf(answers, client, target, scale, sim);
    var results := GatherProgression(answers, ns, scale);
    if results == [] {
      return NoData;
    }
    ProgressionsFromAnswers(answers, ns, scale);
    var ranking := RankingOf(answers, client, target, scale, results);
    outcome := Recommended(SelectQuestions(FetchQuestions(questions, scale), ranking));
  }

  /** NotFound is answered exactly when no evaluation row matches the
      client, id and scale, before anything else is computed. */
  lemma NotFoundExactly(evaluations: seq<EvaluationRow>, answers: seq<AnswerRow>, questions: seq<QuestionRow>,
                        target: int, client: int, scale: int, sim: Similarity)
    requires WellFormed(answers)
    ensures Recommendation(evaluations, answers, questions, target, client, scale, sim) == NotFound
        <==> forall v :: v in evaluations ==> !(v.client == client && v.id == target && v.scale == scale)
  {
  }

  /** Past the existence check, the route fails exactly when the target has
      no answer to a question of the scale. */
  lemma TargetUnansweredExactly(evaluations: seq<EvaluationRow>, answers: seq<AnswerRow>, questions: seq<QuestionRow>,
                                target: int, client: int, scale: int, sim: Similarity)
    requires WellFormed(answers)
    requires QueryRelation(evaluations, client, target, scale) != []
    ensures Recommendation(evaluations, answers, questions, target, client, scale, sim) == TargetUnanswered
        <==> forall a :: a in answers ==> !(a.evaluation == target && a.questionScale == scale)
  {
  }

  /** Past both checks, "no data" is answered exactly when no neighbour's
      client has an evaluation after the neighbour in the scale; otherwise
      a (possibly empty) question list is. */
  lemma NoDataExactly(evaluations: seq<EvaluationRow>, answers: seq<AnswerRow>, questions: seq<QuestionRow>,
                      target: int, client: int, scale: int, sim: Similarity)
    requires WellFormed(answers)
    requires QueryRelation(evaluations, client, target, scale) != []
    requires exists a :: a in answers && a.evaluation == target && a.questionScale == scale
    ensures var outcome := Recommendation(evaluations, answers, questions, target, client, scale, sim);
      && (outcome == NoData <==>
          forall n :: n in NeighboursOf(answers, client, target, scale, sim) ==> FetchEvaluationDetails(answers, n.evaluation, n.client, scale) == [])
      && (outcome != NoData ==> outcome.Recommended?)
  {
    ProgressionsEmpty(answers, NeighboursOf(answers, client, target, scale, sim), scale);
  }

  /** The recommended questions are exactly the scale's question rows, in
      table order, whose question has a peer mean strictly below the
      target's own score; the peer mean is taken over the later
      evaluations of the neighbours' clients. */
  lemma RecommendedQuestions(evaluations: seq<EvaluationRow>, answers: seq<AnswerRow>, questions: seq<QuestionRow>,
                             target: int, client: int, scale: int, sim: Similarity)
    requires WellFormed(answers)
    requires Recommendation(evaluations, answers, questions, target, client, scale, sim).Recommended?
    ensures var qs := Recommendation(evaluations, answers, questions, target, client, scale, sim).questions;
      var results := Progressions(answers, NeighboursOf(answers, client, target, scale, sim), scale);
      && results != []
      && (forall k :: 0 <= k < |results| ==> results[k] != [])
      && (forall k, a :: 0 <= k < |results| && a in results[k] ==> a in answers)
      && Subsequence(qs, FetchQuestions(questions, scale))
      && (forall q :: q in qs <==>
            QuestionRow(scale, q) in questions &&
            exists m, a :: m in PeerMeans(answers, results) && a in answers && a.evaluation == target && a.questionScale == scale &&
              m.id == q.id && a.question == q.id && m.value < a.score)
  {
    var ns := NeighboursOf(answers, client, target, scale, sim);
    ProgressionsFromAnswers(answers, ns, scale);
  }
}
