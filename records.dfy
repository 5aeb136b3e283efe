/** The rows the recommender reads from the relational store, and the WHERE
    clauses of its four queries recast as filters over in-memory tables.

    `AnswerRow` is one row of the join avaliations ⋈ answers ⋈ itens ⋈
    questions: the evaluation id, the evaluation's client, the question id,
    the question's scale and the item's score. The creation timestamp the
    queries also select is never used and is not modelled. */
module Records {
  import opened Seqs

  datatype AnswerRow = AnswerRow(evaluation: int, client: int, question: int, questionScale: int, score: real)

  /** A row of the `avaliations` table. */
  datatype EvaluationRow = EvaluationRow(id: int, client: int, scale: int)

  /** The question fields returned to the caller. */
  datatype Question = Question(id: int, itemOrder: int, content: string, domain: string, color: string)

  /** A row of the `questions` table: a question and the scale it belongs to. */
  datatype QuestionRow = QuestionRow(scale: int, question: Question)

  /** What the schema guarantees of the joined answer rows: an evaluation
      has one owning client, and all rows for one (evaluation, question)
      pair carry the same score. */
  ghost predicate OneClientPerEvaluation(rows: seq<AnswerRow>) {
    forall a, b :: a in rows && b in rows && a.evaluation == b.evaluation ==> a.client == b.client
  }

  ghost predicate ScoresAgree(rows: seq<AnswerRow>) {
    forall a, b :: a in rows && b in rows && a.evaluation == b.evaluation && a.question == b.question ==> a.score == b.score
  }

  ghost predicate WellFormed(rows: seq<AnswerRow>) {
    OneClientPerEvaluation(rows) && ScoresAgree(rows)
  }

  /** Both schema guarantees carry over to any selection of the rows. */
  lemma WellFormedSelection(rows: seq<AnswerRow>, sub: seq<AnswerRow>)
    requires WellFormed(rows)
    requires forall a :: a in sub ==> a in rows
    ensures WellFormed(sub)
  {
  }

  /** `query_relation`: the evaluation rows with the given client, id and scale. */
  function QueryRelation(evaluations: seq<EvaluationRow>, client: int, evaluation: int, scale: int): (r: seq<EvaluationRow>)
    ensures r == [] <==> forall v :: v in evaluations ==> !(v.client == client && v.id == evaluation && v.scale == scale)
  {
    Filter(evaluations, (v: EvaluationRow) => v.client == client && v.id == evaluation && v.scale == scale)
  }

  /** The WHERE clause of `fetch_answers`: a question of the scale, and
      either another client or the target evaluation itself. */
  predicate InPrimaryPool(a: AnswerRow, client: int, target: int, scale: int) {
    a.questionScale == scale && (a.client != client || a.evaluation == target)
  }

  /** `fetch_answers`: the comparison pool. */
  function FetchAnswers(answers: seq<AnswerRow>, client: int, target: int, scale: int): (r: seq<AnswerRow>)
    ensures forall a :: a in r <==> a in answers && a.questionScale == scale && (a.client != client || a.evaluation == target)
    ensures Subsequence(r, answers)
  {
    Filter(answers, (a: AnswerRow) => InPrimaryPool(a, client, target, scale))
  }

  /** The comparison pool holds every answer of the target evaluation in the
      scale, and no answer of the requesting client's other evaluations. */
  lemma PrimaryPoolContents(answers: seq<AnswerRow>, client: int, target: int, scale: int)
    ensures forall a :: a in answers && a.evaluation == target && a.questionScale == scale ==> a in FetchAnswers(answers, client, target, scale)
    ensures forall a :: a in FetchAnswers(answers, client, target, scale) && a.client == client ==> a.evaluation == target
    ensures forall a :: a in FetchAnswers(answers, client, target, scale) ==> a.questionScale == scale
  {
  }

  /** The WHERE clause of `fetch_evaluation_details`: a later evaluation of
      the same client, on a question of the scale. */
  predicate LaterInScale(a: AnswerRow, after: int, client: int, scale: int) {
    a.evaluation > after && a.client == client && a.questionScale == scale
  }

  /** `fetch_evaluation_details`: the answers of `client`'s evaluations
      after `after` in the scale. */
  function FetchEvaluationDetails(answers: seq<AnswerRow>, after: int, client: int, scale: int): (r: seq<AnswerRow>)
    ensures forall a :: a in r <==> a in answers && a.evaluation > after && a.client == client && a.questionScale == scale
  {
    Filter(answers, (a: AnswerRow) => LaterInScale(a, after, client, scale))
  }

  /** `fetch_questions`: the questions of the scale, in table order. */
  function FetchQuestions(questions: seq<QuestionRow>, scale: int): (r: seq<Question>)
    ensures |r| <= |questions|
    ensures forall q :: q in r <==> QuestionRow(scale, q) in questions
  {
    if questions == [] then []
    else
      assert questions == [questions[0]] + questions[1..];
      var head := if questions[0].scale == scale then [questions[0].question] else [];
      head + FetchQuestions(questions[1..], scale)
  }
}
