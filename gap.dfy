/** Gap analysis and question selection: the target's own score series, the
    difference `mean_scores - evaluation_series` aligned on question id, the
    negative differences sorted ascending, and the scale's question rows
    whose id survived. */
module Gap {
  import opened Seqs
  import opened Records
  import opened Ranking
  import opened ScoreMatrix

  lemma IncreasingIdsDistinct(s: seq<Scored>)
    requires StrictlyIncreasing(Ids(s))
    ensures DistinctIds(s)
  {
    forall i, j | 0 <= i < j < |s| ensures s[i].id != s[j].id {
      assert Ids(s)[i] < Ids(s)[j];
    }
  }

  /** The value labelled `id` in a series. */
  function Lookup(s: seq<Scored>, id: int): (v: real)
    requires id in Ids(s)
    ensures exists x :: x in s && x.id == id && x.value == v
  {
    if s[0].id == id then s[0].value
    else
      assert Ids(s) == [s[0].id] + Ids(s[1..]);
      var v := Lookup(s[1..], id);
      assert forall x :: x in s[1..] ==> x in s;
      v
  }

  /** The target's row of its own pivot table, `.loc[target]`: one entry per
      question the target answered, ascending, holding its score (the
      pivot of one evaluation's answers has that evaluation as its only row
      and the questions it answered as its columns). */
  function TargetSeries(primary: seq<AnswerRow>, target: int): (r: seq<Scored>)
    requires ScoresAgree(primary)
    ensures StrictlyIncreasing(Ids(r))
    ensures forall q :: q in Ids(r) <==> exists a :: a in primary && a.evaluation == target && a.question == q
    ensures forall x, a :: x in r && a in primary && a.evaluation == target && a.question == x.id ==> x.value == a.score
  {
    var own := Filter(primary, (a: AnswerRow) => a.evaluation == target);
    var qs := Keys(own, false);
    var r := seq(|qs|, j requires 0 <= j < |qs| => Scored(qs[j], Cell(primary, target, qs[j])));
    assert Ids(r) == qs;
    assert forall q :: q in qs <==> exists a :: a in primary && a.evaluation == target && a.question == q by {
      forall q ensures q in qs <==> exists a :: a in primary && a.evaluation == target && a.question == q {
        if q in qs {
          var a :| a in own && Key(a, false) == q;
        }
        if exists a :: a in primary && a.evaluation == target && a.question == q {
          var a :| a in primary && a.evaluation == target && a.question == q;
          assert a in own && Key(a, false) == q;
        }
      }
    }
    r
  }

  /** The one negative difference a mean entry contributes, if any:
      `mean - score` when the target has a score for the same question
      (otherwise the aligned difference is NaN and the `< 0` filter drops
      it). */
  predicate Retained(m: Scored, target: seq<Scored>) {
    m.id in Ids(target) && m.value - Lookup(target, m.id) < 0.0
  }

  /** `differences[differences < 0]` for `differences = mean_scores - evaluation_series`. */
  function NegativeGaps(means: seq<Scored>, target: seq<Scored>): (r: seq<Scored>)
    ensures forall g :: g in r <==> exists m :: m in means && Retained(m, target) && g == Scored(m.id, m.value - Lookup(target, m.id))
  {
    if means == [] then []
    else
      var m := means[0];
      var rest := NegativeGaps(means[1..], target);
      assert means == [m] + means[1..];
      if Retained(m, target) then [Scored(m.id, m.value - Lookup(target, m.id))] + rest else rest
  }

  /** `sort_values(ascending=True)` of the negative differences. */
  function GapRanking(means: seq<Scored>, target: seq<Scored>): (r: seq<Scored>)
    ensures Ordered(r, false)
    ensures multiset(r) == multiset(NegativeGaps(means, target))
  {
    Sort(NegativeGaps(means, target), false)
  }

  /** A mean entry is retained exactly when the target has a score for its
      question that the mean is below. */
  lemma RetainedIff(m: Scored, target: seq<Scored>)
    requires DistinctIds(target)
    ensures Retained(m, target) <==> exists t :: t in target && t.id == m.id && m.value - t.value < 0.0
    ensures forall t :: t in target && t.id == m.id ==> Lookup(target, m.id) == t.value
  {
    if exists t :: t in target && t.id == m.id {
      var t :| t in target && t.id == m.id;
      assert m.id in Ids(target);
      var x :| x in target && x.id == m.id && x.value == Lookup(target, m.id);
      var i :| 0 <= i < |target| && target[i] == x;
      var j :| 0 <= j < |target| && target[j] == t;
      assert i == j;
    }
  }

  /** The gap ranking is ascending, every gap is negative, and a question is
      ranked exactly when it has both a mean and a target score and the
      mean is below the score, ranked with gap `mean - score`. */
  lemma GapRankingSpec(means: seq<Scored>, target: seq<Scored>)
    requires DistinctIds(target)
    ensures var r := GapRanking(means, target);
      && Ordered(r, false)
      && (forall g :: g in r ==> g.value < 0.0)
      && (forall g :: g in r <==> exists m, t :: m in means && t in target && m.id == t.id && m.value - t.value < 0.0 && g == Scored(m.id, m.value - t.value))
  {
    var r := GapRanking(means, target);
    assert forall g :: g in r <==> g in NegativeGaps(means, target);
    forall g ensures g in r <==> exists m, t :: m in means && t in target && m.id == t.id && m.value - t.value < 0.0 && g == Scored(m.id, m.value - t.value) {
      if g in r {
        var m :| m in means && Retained(m, target) && g == Scored(m.id, m.value - Lookup(target, m.id));
        RetainedIff(m, target);
        var t :| t in target && t.id == m.id && m.value - t.value < 0.0;
        assert g == Scored(m.id, m.value - t.value);
      }
      if exists m, t :: m in means && t in target && m.id == t.id && m.value - t.value < 0.0 && g == Scored(m.id, m.value - t.value) {
        var m, t :| m in means && t in target && m.id == t.id && m.value - t.value < 0.0 && g == Scored(m.id, m.value - t.value);
        RetainedIff(m, target);
        assert g in NegativeGaps(means, target);
      }
    }
  }

  /** `differences[differences < 0]` as the route computes it: `.squeeze()`
      turns a target series of one question into a bare number, which is
      then subtracted from the mean of EVERY question. */
  function NegativeGapsAsWritten(means: seq<Scored>, target: seq<Scored>): (r: seq<Scored>)
    ensures |target| != 1 ==> r == NegativeGaps(means, target)
    ensures |target| == 1 ==> forall g :: g in r <==>
      exists m :: m in means && m.value - target[0].value < 0.0 && g == Scored(m.id, m.value - target[0].value)
  {
    if |target| == 1 then
      if means == [] then []
      else
        var rest := NegativeGapsAsWritten(means[1..], target);
        var d := means[0].value - target[0].value;
        assert means == [means[0]] + means[1..];
        if d < 0.0 then [Scored(means[0].id, d)] + rest else rest
    else NegativeGaps(means, target)
  }

  /** A target that answered only question 1 (score 2) against peer means
      5 for question 1 and 1 for question 2: as written, question 2 is
      retained with gap -1 although the target never answered it; aligned on
      question id, nothing is retained. */
  lemma SqueezeBroadcastsOneScore()
    ensures NegativeGapsAsWritten([Scored(1, 5.0), Scored(2, 1.0)], [Scored(1, 2.0)]) == [Scored(2, -1.0)]
    ensures NegativeGaps([Scored(1, 5.0), Scored(2, 1.0)], [Scored(1, 2.0)]) == []
    ensures 2 !in Ids([Scored(1, 2.0)])
  {
    var means := [Scored(1, 5.0), Scored(2, 1.0)];
    var target := [Scored(1, 2.0)];
    assert Ids(target) == [1];
    assert means[1..] == [Scored(2, 1.0)];
    assert means[1..][1..] == [];
    assert !Retained(means[0], target);
    assert !Retained(means[1], target);
  }

  /** `df_questions[df_questions['questionid'].isin(ranking.index)]`: the
      scale's questions whose id is ranked, in question-table order. */
  function SelectQuestions(questions: seq<Question>, ranking: seq<Scored>): (r: seq<Question>)
    ensures Subsequence(r, questions)
    ensures forall q :: q in r <==> q in questions && q.id in Ids(ranking)
    ensures forall q :: multiset(r)[q] == if q.id in Ids(ranking) then multiset(questions)[q] else 0
  {
    Filter(questions, (q: Question) => q.id in Ids(ranking))
  }
}
