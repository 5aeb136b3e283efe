/** The score matrix built by `pivot_table(index='avaliationid',
    columns='questionid', values='score', fill_value=0)`: one row per
    distinct evaluation id, one column per distinct question id, both
    ascending, each cell the evaluation's score for the question or 0 when it
    has no answer for it; and the per-column mean taken by `.mean()`. */
module ScoreMatrix {
  import opened Records
  import opened Ranking

  ghost predicate StrictlyIncreasing(s: seq<int>) {
    forall i, j :: 0 <= i < j < |s| ==> s[i] < s[j]
  }

  /** A strictly increasing list of ids drawn from `[lo, hi]` has at most
      `hi - lo + 1` entries. */
  lemma {:induction false} IncreasingWithin(s: seq<int>, lo: int, hi: int)
    requires StrictlyIncreasing(s)
    requires forall x :: x in s ==> lo <= x <= hi
    ensures |s| <= if lo <= hi then hi - lo + 1 else 0
  {
    if s != [] {
      assert s[0] in s;
      assert StrictlyIncreasing(s[1..]);
      forall x | x in s[1..] ensures s[0] + 1 <= x <= hi {
        var k :| 0 <= k < |s[1..]| && s[1..][k] == x;
        assert s[k + 1] == x && s[k + 1] in s;
      }
      IncreasingWithin(s[1..], s[0] + 1, hi);
    }
  }

  /** Adds `x` to an ascending list of distinct ids, unless already there. */
  function InsertId(x: int, s: seq<int>): (r: seq<int>)
    requires StrictlyIncreasing(s)
    ensures StrictlyIncreasing(r)
    ensures forall y :: y in r <==> y in s || y == x
  {
    if s == [] || x < s[0] then [x] + s
    else if x == s[0] then s
    else
      var rest := InsertId(x, s[1..]);
      assert s == [s[0]] + s[1..];
      var r := [s[0]] + rest;
      forall y | y in rest ensures s[0] < y {
        if y != x {
          var k :| 0 <= k < |s[1..]| && s[1..][k] == y;
          assert s[k + 1] == y;
        }
      }
      forall i, j | 0 <= i < j < |r| ensures r[i] < r[j] {
        if i == 0 {
          assert r[j] in rest;
        } else {
          assert r[i] == rest[i - 1] && r[j] == rest[j - 1];
        }
      }
      r
  }

  /** The distinct evaluation ids (when `byEvaluation`) or question ids of
      the rows, ascending: the index or the columns of the pivot. */
  function Keys(rows: seq<AnswerRow>, byEvaluation: bool): (r: seq<int>)
    ensures StrictlyIncreasing(r)
    ensures forall k :: k in r <==> exists a :: a in rows && Key(a, byEvaluation) == k
  {
    if rows == [] then []
    else
      var init := rows[..|rows| - 1];
      var last := rows[|rows| - 1];
      assert rows == init + [last];
      InsertId(Key(last, byEvaluation), Keys(init, byEvaluation))
  }

  function Key(a: AnswerRow, byEvaluation: bool): int {
    if byEvaluation then a.evaluation else a.question
  }

  /** The score of evaluation `e` for question `q`, 0 when it has none. */
  function Cell(rows: seq<AnswerRow>, e: int, q: int): (r: real)
    requires ScoresAgree(rows)
    ensures forall a :: a in rows && a.evaluation == e && a.question == q ==> r == a.score
    ensures (forall a :: a in rows ==> !(a.evaluation == e && a.question == q)) ==> r == 0.0
  {
    if rows == [] then 0.0
    else if rows[0].evaluation == e && rows[0].question == q then rows[0].score
    else
      assert ScoresAgree(rows[1..]) by {
        forall a, b | a in rows[1..] && b in rows[1..] ensures a in rows && b in rows { }
      }
      assert rows == [rows[0]] + rows[1..];
      Cell(rows[1..], e, q)
  }

  /** A dense matrix with its row index and column index. */
  datatype Matrix = Matrix(rows: seq<int>, cols: seq<int>, cells: seq<seq<real>>)

  ghost predicate Shaped(m: Matrix) {
    |m.cells| == |m.rows| && forall i :: 0 <= i < |m.cells| ==> |m.cells[i]| == |m.cols|
  }

  /** `pivot_table(..., fill_value=0)`. Duplicate (evaluation, question)
      rows carry equal scores, so the library's mean aggregation of
      duplicates yields that score. */
  function PivotTable(rows: seq<AnswerRow>): (m: Matrix)
    requires ScoresAgree(rows)
    ensures Shaped(m)
    ensures StrictlyIncreasing(m.rows) && StrictlyIncreasing(m.cols)
    ensures forall e :: e in m.rows <==> exists a :: a in rows && a.evaluation == e
    ensures forall q :: q in m.cols <==> exists a :: a in rows && a.question == q
    ensures forall i, j, a :: 0 <= i < |m.rows| && 0 <= j < |m.cols| && a in rows && a.evaluation == m.rows[i] && a.question == m.cols[j]
              ==> m.cells[i][j] == a.score
    ensures forall i, j :: 0 <= i < |m.rows| && 0 <= j < |m.cols| && (forall a :: a in rows ==> !(a.evaluation == m.rows[i] && a.question == m.cols[j]))
              ==> m.cells[i][j] == 0.0
  {
    var es := Keys(rows, true);
    var qs := Keys(rows, false);
    assert forall e :: e in es <==> exists a :: a in rows && a.evaluation == e by {
      forall e ensures e in es <==> exists a :: a in rows && a.evaluation == e {
        if e in es {
          var a :| a in rows && Key(a, true) == e;
        }
        if exists a :: a in rows && a.evaluation == e {
          var a :| a in rows && a.evaluation == e;
          assert Key(a, true) == e;
        }
      }
    }
    assert forall q :: q in qs <==> exists a :: a in rows && a.question == q by {
      forall q ensures q in qs <==> exists a :: a in rows && a.question == q {
        if q in qs {
          var a :| a in rows && Key(a, false) == q;
        }
        if exists a :: a in rows && a.question == q {
          var a :| a in rows && a.question == q;
          assert Key(a, false) == q;
        }
      }
    }
    Matrix(es, qs, seq(|es|, i requires 0 <= i < |es| => seq(|qs|, j requires 0 <= j < |qs| => Cell(rows, es[i], qs[j]))))
  }

  /** The sum of column `j` over the first `n` rows. */
  function ColumnSum(cells: seq<seq<real>>, j: nat, n: nat): real
    requires n <= |cells|
    requires forall i :: 0 <= i < |cells| ==> j < |cells[i]|
  {
    if n == 0 then 0.0 else ColumnSum(cells, j, n - 1) + cells[n - 1][j]
  }

  /** `.mean()`: each column's mean over all rows, missing answers counted
      as the 0 the pivot filled in; a series labelled by question id. */
  function ColumnMeans(m: Matrix): (r: seq<Scored>)
    requires Shaped(m)
    requires |m.rows| > 0
    ensures Ids(r) == m.cols
    ensures forall j :: 0 <= j < |r| ==> r[j].value * (|m.rows| as real) == ColumnSum(m.cells, j, |m.rows|)
  {
    seq(|m.cols|, j requires 0 <= j < |m.cols| => Scored(m.cols[j], ColumnSum(m.cells, j, |m.rows|) / (|m.rows| as real)))
  }

  lemma {:induction false} ColumnSumBounds(cells: seq<seq<real>>, j: nat, n: nat, hi: real)
    requires n <= |cells|
    requires forall i :: 0 <= i < |cells| ==> j < |cells[i]|
    requires forall i :: 0 <= i < |cells| ==> 0.0 <= cells[i][j] <= hi
    ensures 0.0 <= ColumnSum(cells, j, n) <= (n as real) * hi
  {
    if n > 0 {
      ColumnSumBounds(cells, j, n - 1, hi);
    }
  }

  lemma {:induction false} ColumnSumUniform(cells: seq<seq<real>>, j: nat, n: nat, s: real)
    requires n <= |cells|
    requires forall i :: 0 <= i < |cells| ==> j < |cells[i]| && cells[i][j] == s
    ensures ColumnSum(cells, j, n) == (n as real) * s
  {
    if n > 0 {
      ColumnSumUniform(cells, j, n - 1, s);
    }
  }

  /** With scores in [0, hi], every column mean lies in [0, hi]. */
  lemma ColumnMeanBounds(m: Matrix, hi: real)
    requires Shaped(m) && |m.rows| > 0
    requires forall i, j :: 0 <= i < |m.rows| && 0 <= j < |m.cols| ==> 0.0 <= m.cells[i][j] <= hi
    ensures forall j :: 0 <= j < |m.cols| ==> 0.0 <= ColumnMeans(m)[j].value <= hi
  {
    var r := ColumnMeans(m);
    var n := |m.rows| as real;
    forall j | 0 <= j < |m.cols| ensures 0.0 <= r[j].value <= hi {
      ColumnSumBounds(m.cells, j, |m.rows|, hi);
      assert r[j].value * n <= n * hi;
    }
  }

  /** A column in which every row holds the same value `s` has mean `s`. */
  lemma ColumnMeanUniform(m: Matrix, j: nat, s: real)
    requires Shaped(m) && |m.rows| > 0 && j < |m.cols|
    requires forall i :: 0 <= i < |m.rows| ==> m.cells[i][j] == s
    ensures ColumnMeans(m)[j].value == s
  {
    ColumnSumUniform(m.cells, j, |m.rows|, s);
  }
}
