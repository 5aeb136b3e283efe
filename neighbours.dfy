/** Nearest-neighbour selection: the target's row of the similarity matrix
    is sorted by descending similarity, its first five entries are kept and
    the target itself is dropped; each remaining evaluation is then paired
    with the client that owns it. */
module Neighbours {
  import opened Records
  import opened Ranking
  import opened ScoreMatrix

  /** The `head(5)` of the descending similarity sort. */
  const TopCount: nat := 5

  /** Row `t` of `cosine_similarity(matrix)`, labelled by evaluation id.
      The similarity of two evaluations is a function `sim` of their two
      score vectors; its numeric value is not modelled. */
  function SimilarityRow(m: Matrix, t: nat, sim: (seq<real>, seq<real>) -> real): (r: seq<Scored>)
    requires Shaped(m) && t < |m.rows|
    ensures Ids(r) == m.rows
    ensures forall i :: 0 <= i < |r| ==> r[i].value == sim(m.cells[t], m.cells[i])
  {
    seq(|m.rows|, i requires 0 <= i < |m.rows| => Scored(m.rows[i], sim(m.cells[t], m.cells[i])))
  }

  function Min(a: nat, b: nat): nat {
    if a <= b then a else b
  }

  /** The first `TopCount` entries by descending similarity. */
  function Top(row: seq<Scored>): (r: seq<Scored>)
    ensures |r| == Min(TopCount, |row|)
  {
    Sort(row, true)[..Min(TopCount, |row|)]
  }

  /** `sort_values(ascending=False).head(5).drop(target, errors='ignore')`. */
  function SimilarEvaluations(row: seq<Scored>, target: int): (r: seq<Scored>)
    ensures target !in Ids(r)
    ensures |r| <= TopCount
    ensures forall x :: x in r ==> x in row
  {
    RemoveId(Top(row), target)
  }

  /** The first five entries are in non-increasing similarity, come from
      the row, and are at least as similar as every entry left out. */
  lemma TopSpec(row: seq<Scored>)
    requires DistinctIds(row)
    ensures var top := Top(row);
      && Ordered(top, true)
      && DistinctIds(top)
      && (forall x :: x in top ==> x in row)
      && (forall x, y :: x in row && x !in top && y in top ==> x.value <= y.value)
  {
    var sorted := Sort(row, true);
    var k := Min(TopCount, |row|);
    var top := Top(row);
    SortKeepsDistinctIds(row, true);
    forall i, j | 0 <= i < j < |top| ensures top[i].id != top[j].id && top[i].value >= top[j].value {
      assert top[i] == sorted[i] && top[j] == sorted[j];
    }
    OrderedPrefix(sorted, true, k);
    assert sorted == top + sorted[k..];
    forall x | x in row && x !in top ensures x in sorted[k..] {
      assert x in sorted;
    }
  }

  /** Neighbour selection: the target is never returned; at most five
      entries are, one fewer when the target is among the first five; the
      entries come from the row in non-increasing similarity with distinct
      ids; and no other evaluation left out is more similar than any
      selected one. */
  lemma SimilarEvaluationsSpec(row: seq<Scored>, target: int)
    requires DistinctIds(row)
    ensures var r := SimilarEvaluations(row, target);
      && target !in Ids(r)
      && |r| == (if target in Ids(Top(row)) then Min(TopCount, |row|) - 1 else Min(TopCount, |row|))
      && |r| <= TopCount
      && Ordered(r, true)
      && DistinctIds(r)
      && (forall x :: x in r ==> x in row)
      && (forall x, y :: x in row && x.id != target && x !in r && y in r ==> x.value <= y.value)
  {
    var top := Top(row);
    var r := SimilarEvaluations(row, target);
    TopSpec(row);
    RemoveIdLength(top, target);
    RemoveIdKeepsDistinctIds(top, target);
    RemoveIdKeepsOrder(top, target);
    assert target !in Ids(r) by {
      forall i | 0 <= i < |r| ensures Ids(r)[i] != target {
        assert r[i] in r;
      }
    }
  }

  /** When the target is strictly more similar to itself than to any other
      evaluation, it heads the sort and exactly `min(5, n) - 1` neighbours
      are returned. */
  lemma SelfMostSimilar(row: seq<Scored>, target: int)
    requires DistinctIds(row)
    requires exists t :: t in row && t.id == target && forall x :: x in row && x.id != target ==> x.value < t.value
    ensures |SimilarEvaluations(row, target)| == Min(TopCount, |row|) - 1
  {
    var t :| t in row && t.id == target && forall x :: x in row && x.id != target ==> x.value < t.value;
    var sorted := Sort(row, true);
    assert t in sorted;
    var p :| 0 <= p < |sorted| && sorted[p] == t;
    if p != 0 {
      SortKeepsDistinctIds(row, true);
      assert false;
    }
    assert Ids(Top(row))[0] == target;
    SimilarEvaluationsSpec(row, target);
  }

  /** A row of at most five entries is kept whole by `head(5)`: every
      evaluation other than the target is selected. */
  lemma SmallRowAllSelected(row: seq<Scored>, target: int)
    requires |row| <= TopCount
    ensures forall x :: x in row && x.id != target ==> x in SimilarEvaluations(row, target)
    ensures forall e :: e in Ids(row) && e != target ==> e in Ids(SimilarEvaluations(row, target))
  {
    assert Top(row) == Sort(row, true);
    forall e | e in Ids(row) && e != target ensures e in Ids(SimilarEvaluations(row, target)) {
      var x :| x in row && x.id == e;
      assert x in SimilarEvaluations(row, target);
    }
  }

  /** One row of `clients_df`: an evaluation and its owning client. */
  datatype Neighbour = Neighbour(evaluation: int, client: int)

  /** The client owning evaluation `e`, read from its answer rows. */
  function ClientOf(rows: seq<AnswerRow>, e: int): (c: int)
    requires OneClientPerEvaluation(rows)
    requires exists a :: a in rows && a.evaluation == e
    ensures forall a :: a in rows && a.evaluation == e ==> a.client == c
  {
    if rows[0].evaluation == e then rows[0].client
    else
      assert rows == [rows[0]] + rows[1..];
      assert OneClientPerEvaluation(rows[1..]) by {
        forall a, b | a in rows[1..] && b in rows[1..] ensures a in rows && b in rows { }
      }
      ClientOf(rows[1..], e)
  }

  /** `clients_df.loc[similar_ids]`: each selected evaluation with its
      client, in selection order. */
  function SimilarClients(rows: seq<AnswerRow>, ids: seq<int>): (r: seq<Neighbour>)
    requires OneClientPerEvaluation(rows)
    requires forall e :: e in ids ==> exists a :: a in rows && a.evaluation == e
    ensures |r| == |ids|
    ensures forall i :: 0 <= i < |r| ==> r[i].evaluation == ids[i]
    ensures forall i, a :: 0 <= i < |r| && a in rows && a.evaluation == ids[i] ==> a.client == r[i].client
  {
    seq(|ids|, i requires 0 <= i < |ids| => var e := ids[i]; assert e in ids; Neighbour(e, ClientOf(rows, e)))
  }
}
