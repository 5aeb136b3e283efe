/** A worked scenario for the whole route, for any similarity function.

    Scale 7 has two questions. Client 10's evaluation 1 (the target) scores
    2 on question 1 and 4 on question 2. Client 20's evaluation 2 scores the
    same, and client 20's later evaluation 3 scores 5 and 1. The comparison
    pool holds three evaluations, so both other evaluations are neighbours
    whatever the similarities are; only evaluation 2 has a later evaluation
    of its client, so the peer means are 5 and 1, and only question 2 has a
    mean below the target's own score. Without evaluation 3 the route
    answers "no data". */
module Scenario {
  import opened Seqs
  import opened Records
  import opened Ranking
  import opened ScoreMatrix
  import opened Neighbours
  import opened Progression
  import opened Recommender

  const Scale: int := 7
  const TargetClient: int := 10
  const Target: int := 1

  const First: Question := Question(1, 1, "first", "domain", "blue")
  const Second: Question := Question(2, 2, "second", "domain", "red")

  function Questions(): seq<QuestionRow> {
    [QuestionRow(Scale, First), QuestionRow(Scale, Second)]
  }

  function Evaluations(): seq<EvaluationRow> {
    [EvaluationRow(1, 10, Scale), EvaluationRow(2, 20, Scale), EvaluationRow(3, 20, Scale)]
  }

  /** The answers, with or without client 20's later evaluation 3. */
  function Answers(withLater: bool): seq<AnswerRow> {
    [AnswerRow(1, 10, 1, Scale, 2.0), AnswerRow(1, 10, 2, Scale, 4.0),
     AnswerRow(2, 20, 1, Scale, 2.0), AnswerRow(2, 20, 2, Scale, 4.0)]
    + (if withLater then [AnswerRow(3, 20, 1, Scale, 5.0), AnswerRow(3, 20, 2, Scale, 1.0)] else [])
  }

  /** What the scenario's rows are: client 10 owns evaluation 1, client 20
      the others; evaluation 3 exists only `withLater`; the target scores 2
      and 4. */
  lemma AnswersFacts(withLater: bool)
    ensures WellFormed(Answers(withLater))
    ensures forall a :: a in Answers(withLater) ==>
      a.questionScale == Scale && 1 <= a.evaluation <= 3 && (a.evaluation == 3 ==> withLater) &&
      (if a.evaluation == 1 then a.client == 10 else a.client == 20)
    ensures forall a :: a in Answers(withLater) && a.evaluation == 1 ==>
      (a.question == 1 && a.score == 2.0) || (a.question == 2 && a.score == 4.0)
    ensures forall a :: a in Answers(withLater) && a.evaluation == 3 ==>
      (a.question == 1 && a.score == 5.0) || (a.question == 2 && a.score == 1.0)
    ensures Answers(withLater)[0] == AnswerRow(1, 10, 1, Scale, 2.0) && Answers(withLater)[1] == AnswerRow(1, 10, 2, Scale, 4.0)
    ensures Answers(withLater)[2] == AnswerRow(2, 20, 1, Scale, 2.0)
    ensures withLater ==> Answers(withLater)[4] == AnswerRow(3, 20, 1, Scale, 5.0) && Answers(withLater)[5] == AnswerRow(3, 20, 2, Scale, 1.0)
  {
  }

  /** The comparison pool of evaluation 1 for client 10 holds evaluations 1
      and 2 and at most three evaluations in all. */
  lemma ScenarioPool(answers: seq<AnswerRow>)
    requires WellFormed(answers)
    requires |answers| >= 3 && answers[0] == AnswerRow(1, 10, 1, Scale, 2.0) && answers[2] == AnswerRow(2, 20, 1, Scale, 2.0)
    requires forall a :: a in answers ==> 1 <= a.evaluation <= 3
    ensures Target in PoolMatrix(answers, TargetClient, Target, Scale).rows
    ensures 2 in PoolMatrix(answers, TargetClient, Target, Scale).rows
    ensures |PoolMatrix(answers, TargetClient, Target, Scale).rows| <= 3
  {
    var m := PoolMatrix(answers, TargetClient, Target, Scale);
    assert answers[0] in answers && answers[2] in answers;
    forall e | e in m.rows ensures 1 <= e <= 3 {
      var a :| a in FetchAnswers(answers, TargetClient, Target, Scale) && a.evaluation == e;
    }
    IncreasingWithin(m.rows, 1, 3);
  }

  /** Whatever the similarities, a pool of at most five evaluations makes
      every other one a neighbour; here every neighbour is evaluation 2 or
      3 of client 20, and evaluation 2 is one. */
  lemma ScenarioNeighbours(answers: seq<AnswerRow>, sim: Similarity)
    requires WellFormed(answers)
    requires Target in PoolMatrix(answers, TargetClient, Target, Scale).rows
    requires 2 in PoolMatrix(answers, TargetClient, Target, Scale).rows
    requires |PoolMatrix(answers, TargetClient, Target, Scale).rows| <= 3
    requires forall a :: a in answers ==> 1 <= a.evaluation <= 3 && (a.evaluation != 1 ==> a.client == 20)
    ensures Neighbour(2, 20) in NeighboursOf(answers, TargetClient, Target, Scale, sim)
    ensures forall n :: n in NeighboursOf(answers, TargetClient, Target, Scale, sim) ==> n.client == 20 && 2 <= n.evaluation <= 3
  {
    var ns := NeighboursOf(answers, TargetClient, Target, Scale, sim);
    assert |PoolMatrix(answers, TargetClient, Target, Scale).rows| <= TopCount;
    forall n | n in ns ensures n.client == 20 && 2 <= n.evaluation <= 3 {
      var a :| a in answers && a.evaluation == n.evaluation && a.questionScale == Scale;
    }
    var n :| n in ns && n.evaluation == 2;
  }

  /** With neighbour 2 of client 20 among neighbours that are all
      evaluations 2 or 3 of client 20, the combined progression is exactly
      the answers of evaluation 3. */
  lemma ScenarioCombined(answers: seq<AnswerRow>, ns: seq<Neighbour>)
    requires Neighbour(2, 20) in ns
    requires forall n :: n in ns ==> n.client == 20 && 2 <= n.evaluation <= 3
    requires forall a :: a in answers ==> a.questionScale == Scale && a.evaluation <= 3 && (a.evaluation == 3 ==> a.client == 20)
    ensures forall a :: a in Concat(Progressions(answers, ns, Scale)) <==> a in answers && a.evaluation == 3
  {
    CombinedProgression(answers, ns, Scale);
  }

  /** The pivot of evaluation 3's two answers: one row, two columns. */
  lemma ScenarioPeerPivot(combined: seq<AnswerRow>)
    requires ScoresAgree(combined)
    requires AnswerRow(3, 20, 1, Scale, 5.0) in combined && AnswerRow(3, 20, 2, Scale, 1.0) in combined
    requires forall a :: a in combined ==> a.evaluation == 3 && (a.question == 1 || a.question == 2)
    ensures PivotTable(combined) == Matrix([3], [1, 2], [[5.0, 1.0]])
  {
    var peers := PivotTable(combined);
    assert peers.rows == [3] by {
      assert 3 in peers.rows;
      IncreasingWithin(peers.rows, 3, 3);
    }
    assert peers.cols == [1, 2] by {
      assert 1 in peers.cols && 2 in peers.cols;
      forall q | q in peers.cols ensures 1 <= q <= 2 {
        var a :| a in combined && a.question == q;
      }
      IncreasingWithin(peers.cols, 1, 2);
      assert peers.cols[0] < peers.cols[1];
    }
    assert peers.cells[0] == [5.0, 1.0];
  }

  /** The peer means of a progression pool holding exactly evaluation 3's
      two answers, 5 and 1. */
  lemma ScenarioMeans(answers: seq<AnswerRow>, results: seq<seq<AnswerRow>>)
    requires WellFormed(answers)
    requires results != []
    requires forall k :: 0 <= k < |results| ==> results[k] != []
    requires forall k, a :: 0 <= k < |results| && a in results[k] ==> a in answers
    requires forall a :: a in Concat(results) <==> a in answers && a.evaluation == 3
    requires AnswerRow(3, 20, 1, Scale, 5.0) in answers && AnswerRow(3, 20, 2, Scale, 1.0) in answers
    requires forall a :: a in answers && a.evaluation == 3 ==> a.question == 1 || a.question == 2
    ensures PeerMeans(answers, results) == [Scored(1, 5.0), Scored(2, 1.0)]
  {
    var combined := Concat(results);
    WellFormedSelection(answers, combined);
    ScenarioPeerPivot(combined);
    ScenarioColumnMeans();
  }

  /** Means over one evaluation are that evaluation's scores. */
  lemma ScenarioColumnMeans()
    ensures ColumnMeans(Matrix([3], [1, 2], [[5.0, 1.0]])) == [Scored(1, 5.0), Scored(2, 1.0)]
  {
    var means := ColumnMeans(Matrix([3], [1, 2], [[5.0, 1.0]]));
    assert ColumnSum([[5.0, 1.0]], 0, 1) == 5.0 && ColumnSum([[5.0, 1.0]], 1, 1) == 1.0;
    assert means == [Scored(1, 5.0), Scored(2, 1.0)];
  }

  /** Only question 2 has a peer mean below the target's own score: 5 is
      above 2, 1 is below 4. */
  lemma ScenarioRanked(answers: seq<AnswerRow>, means: seq<Scored>, q: Question)
    requires means == [Scored(1, 5.0), Scored(2, 1.0)]
    requires AnswerRow(1, 10, 2, Scale, 4.0) in answers
    requires forall a :: a in answers && a.evaluation == 1 ==> (a.question == 1 && a.score == 2.0) || (a.question == 2 && a.score == 4.0)
    ensures (exists m, a :: m in means && a in answers && a.evaluation == Target && a.questionScale == Scale &&
              m.id == q.id && a.question == q.id && m.value < a.score) <==> q.id == 2
  {
    if q.id == 2 {
      assert means[1] in means;
    }
  }

  /** For any similarity, tables of the scenario's shape keep a non-empty
      progression list whose peer means are 5 and 1. */
  lemma ScenarioProgression(answers: seq<AnswerRow>, sim: Similarity)
    requires WellFormed(answers)
    requires |answers| >= 3 && answers[0] == AnswerRow(1, 10, 1, Scale, 2.0) && answers[2] == AnswerRow(2, 20, 1, Scale, 2.0)
    requires AnswerRow(3, 20, 1, Scale, 5.0) in answers && AnswerRow(3, 20, 2, Scale, 1.0) in answers
    requires forall a :: a in answers ==> a.questionScale == Scale && 1 <= a.evaluation <= 3 && (a.evaluation != 1 ==> a.client == 20)
    requires forall a :: a in answers && a.evaluation == 3 ==> a.question == 1 || a.question == 2
    ensures Target in PoolMatrix(answers, TargetClient, Target, Scale).rows
    ensures var results := Progressions(answers, NeighboursOf(answers, TargetClient, Target, Scale, sim), Scale);
      && results != []
      && (forall k :: 0 <= k < |results| ==> results[k] != [])
      && (forall k, a :: 0 <= k < |results| && a in results[k] ==> a in answers)
      && PeerMeans(answers, results) == [Scored(1, 5.0), Scored(2, 1.0)]
  {
    ScenarioPool(answers);
    ScenarioNeighbours(answers, sim);
    var ns := NeighboursOf(answers, TargetClient, Target, Scale, sim);
    var results := Progressions(answers, ns, Scale);
    ScenarioCombined(answers, ns);
    assert results != [] by {
      assert AnswerRow(3, 20, 1, Scale, 5.0) in Concat(results);
    }
    ProgressionsFromAnswers(answers, ns, Scale);
    ScenarioMeans(answers, results);
  }

  /** For any similarity, tables of the scenario's shape make the route
      recommend exactly question 2. */
  lemma ScenarioRecommends(evaluations: seq<EvaluationRow>, answers: seq<AnswerRow>, questions: seq<QuestionRow>, sim: Similarity)
    requires WellFormed(answers)
    requires EvaluationRow(Target, TargetClient, Scale) in evaluations
    requires |answers| >= 3 && answers[0] == AnswerRow(1, 10, 1, Scale, 2.0) && answers[2] == AnswerRow(2, 20, 1, Scale, 2.0)
    requires AnswerRow(1, 10, 2, Scale, 4.0) in answers
    requires AnswerRow(3, 20, 1, Scale, 5.0) in answers && AnswerRow(3, 20, 2, Scale, 1.0) in answers
    requires forall a :: a in answers ==> a.questionScale == Scale && 1 <= a.evaluation <= 3 && (a.evaluation != 1 ==> a.client == 20)
    requires forall a :: a in answers && a.evaluation == 1 ==> (a.question == 1 && a.score == 2.0) || (a.question == 2 && a.score == 4.0)
    requires forall a :: a in answers && a.evaluation == 3 ==> a.question == 1 || a.question == 2
    requires FetchQuestions(questions, Scale) == [First, Second]
    ensures Recommendation(evaluations, answers, questions, Target, TargetClient, Scale, sim) == Recommended([Second])
  {
    ScenarioProgression(answers, sim);
    var results := Progressions(answers, NeighboursOf(answers, TargetClient, Target, Scale, sim), Scale);
    assert QueryRelation(evaluations, TargetClient, Target, Scale) != [];
    ScenarioGathered(evaluations, answers, questions, sim);
    RecommendedQuestions(evaluations, answers, questions, Target, TargetClient, Scale, sim);
    ScenarioQuestions(answers, questions, PeerMeans(answers, results),
                      Recommendation(evaluations, answers, questions, Target, TargetClient, Scale, sim).questions);
  }

  /** The recommended questions are the scale's questions with a peer mean
      below the target's score: here the second only. */
  lemma ScenarioQuestions(answers: seq<AnswerRow>, questions: seq<QuestionRow>, means: seq<Scored>, qs: seq<Question>)
    requires means == [Scored(1, 5.0), Scored(2, 1.0)]
    requires AnswerRow(1, 10, 2, Scale, 4.0) in answers
    requires forall a :: a in answers && a.evaluation == 1 ==> (a.question == 1 && a.score == 2.0) || (a.question == 2 && a.score == 4.0)
    requires FetchQuestions(questions, Scale) == [First, Second]
    requires Subsequence(qs, FetchQuestions(questions, Scale))
    requires forall q :: q in qs <==>
      QuestionRow(Scale, q) in questions &&
      exists m, a :: m in means && a in answers && a.evaluation == Target && a.questionScale == Scale &&
        m.id == q.id && a.question == q.id && m.value < a.score
    ensures qs == [Second]
  {
    assert QuestionRow(Scale, Second) in questions;
    forall q ensures q in qs <==> q == Second {
      ScenarioRanked(answers, means, q);
    }
    OnlySecond(qs);
  }

  /** Past both checks, a non-empty progression list makes the route
      answer with a question list. */
  lemma ScenarioGathered(evaluations: seq<EvaluationRow>, answers: seq<AnswerRow>, questions: seq<QuestionRow>, sim: Similarity)
    requires WellFormed(answers)
    requires QueryRelation(evaluations, TargetClient, Target, Scale) != []
    requires Target in PoolMatrix(answers, TargetClient, Target, Scale).rows
    requires Progressions(answers, NeighboursOf(answers, TargetClient, Target, Scale, sim), Scale) != []
    ensures Recommendation(evaluations, answers, questions, Target, TargetClient, Scale, sim).Recommended?
  {
  }

  /** A subsequence of the scale's two questions holding only the second is
      exactly the second. */
  lemma OnlySecond(qs: seq<Question>)
    requires Subsequence(qs, [First, Second])
    requires forall q :: q in qs <==> q == Second
    ensures qs == [Second]
  {
    assert Second in qs;
    assert qs[0] in qs;
    var rest := [First, Second][1..];
    assert rest == [Second] && rest[1..] == [];
    assert Subsequence(qs, rest);
    assert Subsequence(qs[1..], rest[1..]);
    assert qs == [qs[0]] + qs[1..];
  }

  /** For any similarity, tables of the scenario's shape without a later
      evaluation make the route answer "no data", not an empty list. */
  lemma ScenarioNoData(evaluations: seq<EvaluationRow>, answers: seq<AnswerRow>, questions: seq<QuestionRow>, sim: Similarity)
    requires WellFormed(answers)
    requires EvaluationRow(Target, TargetClient, Scale) in evaluations
    requires |answers| >= 3 && answers[0] == AnswerRow(1, 10, 1, Scale, 2.0) && answers[2] == AnswerRow(2, 20, 1, Scale, 2.0)
    requires forall a :: a in answers ==> a.questionScale == Scale && 1 <= a.evaluation <= 2 && (a.evaluation != 1 ==> a.client == 20)
    ensures Recommendation(evaluations, answers, questions, Target, TargetClient, Scale, sim) == NoData
  {
    ScenarioPool(answers);
    ScenarioNeighbours(answers, sim);
    ScenarioNoLaterDetails(answers, NeighboursOf(answers, TargetClient, Target, Scale, sim));
    assert answers[0] in answers;
    NoDataExactly(evaluations, answers, questions, Target, TargetClient, Scale, sim);
  }

  /** No neighbour of client 20 has a later evaluation when client 20 has
      only evaluation 2. */
  lemma ScenarioNoLaterDetails(answers: seq<AnswerRow>, ns: seq<Neighbour>)
    requires forall n :: n in ns ==> n.client == 20 && 2 <= n.evaluation
    requires forall a :: a in answers ==> a.evaluation <= 2
    ensures forall n :: n in ns ==> FetchEvaluationDetails(answers, n.evaluation, n.client, Scale) == []
  {
    forall n | n in ns ensures FetchEvaluationDetails(answers, n.evaluation, n.client, Scale) == [] {
      var details := FetchEvaluationDetails(answers, n.evaluation, n.client, Scale);
      assert forall a :: a !in details;
    }
  }

  /** The route recommends exactly question 2. */
  lemma PeerProgressionScenario(sim: Similarity)
    ensures WellFormed(Answers(true))
    ensures Recommendation(Evaluations(), Answers(true), Questions(), Target, TargetClient, Scale, sim) == Recommended([Second])
  {
    AnswersFacts(true);
    assert Evaluations()[0] in Evaluations();
    assert Answers(true)[1] in Answers(true) && Answers(true)[4] in Answers(true) && Answers(true)[5] in Answers(true);
    assert FetchQuestions(Questions(), Scale) == [First, Second];
    ScenarioRecommends(Evaluations(), Answers(true), Questions(), sim);
  }

  /** Without client 20's later evaluation the route answers "no data". */
  lemma NoLaterEvaluationScenario(sim: Similarity)
    ensures WellFormed(Answers(false))
    ensures Recommendation(Evaluations(), Answers(false), Questions(), Target, TargetClient, Scale, sim) == NoData
  {
    AnswersFacts(false);
    assert Evaluations()[0] in Evaluations();
    ScenarioNoData(Evaluations(), Answers(false), Questions(), sim);
  }
}
