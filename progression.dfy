/** Progression gathering: for each neighbour, the answers of its client's
    later evaluations in the scale, appended to `results_list` only when
    there are any; then the concatenation of the collected frames. */
module Progression {
  import opened Seqs
  import opened Records
  import opened Neighbours

  /** The progression of one neighbour: `fetch_evaluation_details(N, client of N, scale)`. */
  function ProgressionOf(answers: seq<AnswerRow>, n: Neighbour, scale: int): seq<AnswerRow> {
    FetchEvaluationDetails(answers, n.evaluation, n.client, scale)
  }

  /** The `results_list` the loop has built after visiting `ns`: the
      non-empty progressions, in neighbour order. */
  function Progressions(answers: seq<AnswerRow>, ns: seq<Neighbour>, scale: int): (r: seq<seq<AnswerRow>>)
    ensures |r| <= |ns|
    ensures forall k :: 0 <= k < |r| ==> r[k] != [] && exists n :: n in ns && r[k] == ProgressionOf(answers, n, scale)
  {
    if ns == [] then []
    else
      var init := ns[..|ns| - 1];
      var details := ProgressionOf(answers, ns[|ns| - 1], scale);
      assert forall n :: n in init ==> n in ns;
      Progressions(answers, init, scale) + (if details != [] then [details] else [])
  }

  /** The loop at lines 112-116: visits the neighbours in order and appends
      each non-empty progression to `results`. */
  method GatherProgression(answers: seq<AnswerRow>, ns: seq<Neighbour>, scale: int) returns (results: seq<seq<AnswerRow>>)
    ensures results == Progressions(answers, ns, scale)
    ensures forall k :: 0 <= k < |results| ==> results[k] != []
  {
    results := [];
    var i := 0;
    while i < |ns|
      invariant 0 <= i <= |ns|
      invariant results == Progressions(answers, ns[..i], scale)
      invariant forall k :: 0 <= k < |results| ==> results[k] != []
    {
      var details := FetchEvaluationDetails(answers, ns[i].evaluation, ns[i].client, scale);
      if details != [] {
        results := results + [details];
      }
      assert ns[..i + 1][..i] == ns[..i];
      i := i + 1;
    }
    assert ns[..|ns|] == ns;
  }

  /** No progression is kept exactly when no neighbour's client has a later
      evaluation in the scale. */
  lemma {:induction false} ProgressionsEmpty(answers: seq<AnswerRow>, ns: seq<Neighbour>, scale: int)
    ensures Progressions(answers, ns, scale) == [] <==> forall n :: n in ns ==> ProgressionOf(answers, n, scale) == []
  {
    if ns != [] {
      var init := ns[..|ns| - 1];
      ProgressionsEmpty(answers, init, scale);
      assert ns == init + [ns[|ns| - 1]];
    }
  }

  /** The combined progression pool holds exactly the answers, in the scale,
      of some neighbour's client's evaluations later than that neighbour. */
  lemma {:induction false} CombinedProgression(answers: seq<AnswerRow>, ns: seq<Neighbour>, scale: int)
    ensures forall a :: a in Concat(Progressions(answers, ns, scale)) <==>
      a in answers && a.questionScale == scale && exists n :: n in ns && a.evaluation > n.evaluation && a.client == n.client
  {
    if ns != [] {
      var init := ns[..|ns| - 1];
      var last := ns[|ns| - 1];
      CombinedProgression(answers, init, scale);
      assert ns == init + [last];
      var prev := Progressions(answers, init, scale);
      var details := ProgressionOf(answers, last, scale);
      var all := Progressions(answers, ns, scale);
      forall a ensures a in Concat(all) <==> a in Concat(prev) || a in details {
        if details != [] {
          assert all == prev + [details];
          ConcatSnoc(prev, details);
        } else {
          assert all == prev;
        }
      }
    }
  }

  lemma ConcatSnoc(ss: seq<seq<AnswerRow>>, s: seq<AnswerRow>)
    ensures Concat(ss + [s]) == Concat(ss) + s
  {
    assert (ss + [s])[..|ss|] == ss;
  }
}
