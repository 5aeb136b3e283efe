/** Labelled numeric series, as the tabular library's one-column Series, and
    the value sort used by `sort_values`. The library sorts with an unstable
    quicksort, so among equal values its order is unspecified; this model
    fixes one order (a stable insertion sort: equal values keep their input
    order) and every property proved of it is about order by value and
    membership only. */
module Ranking {

  /** One labelled entry: an evaluation or question id and its value. */
  datatype Scored = Scored(id: int, value: real)

  /** May a value `a` come before a value `b` in the requested direction? */
  predicate Precedes(a: real, b: real, descending: bool) {
    if descending then a >= b else a <= b
  }

  ghost predicate Ordered(s: seq<Scored>, descending: bool) {
    forall i, j :: 0 <= i < j < |s| ==> Precedes(s[i].value, s[j].value, descending)
  }

  /** The ids of a series, in order. */
  function Ids(s: seq<Scored>): (r: seq<int>)
    ensures |r| == |s|
    ensures forall i :: 0 <= i < |s| ==> r[i] == s[i].id
    ensures forall x :: x in s ==> x.id in r
    ensures forall id :: id in r ==> exists x :: x in s && x.id == id
  {
    seq(|s|, i requires 0 <= i < |s| => s[i].id)
  }

  ghost predicate DistinctIds(s: seq<Scored>) {
    forall i, j :: 0 <= i < j < |s| ==> s[i].id != s[j].id
  }

  /** An entry that may precede every entry of an ordered series may head it. */
  lemma OrderedCons(x: Scored, t: seq<Scored>, descending: bool)
    requires Ordered(t, descending)
    requires forall y :: y in t ==> Precedes(x.value, y.value, descending)
    ensures Ordered([x] + t, descending)
  {
    var r := [x] + t;
    forall i, j | 0 <= i < j < |r| ensures Precedes(r[i].value, r[j].value, descending) {
      assert r[j] == t[j - 1];
      assert r[j] in t;
      if i > 0 {
        assert r[i] == t[i - 1];
      }
    }
  }

  /** An entry whose id no entry of a series carries may head it. */
  lemma DistinctCons(x: Scored, t: seq<Scored>)
    requires DistinctIds(t)
    requires forall y :: y in t ==> y.id != x.id
    ensures DistinctIds([x] + t)
  {
    var r := [x] + t;
    forall i, j | 0 <= i < j < |r| ensures r[i].id != r[j].id {
      assert r[j] == t[j - 1];
      assert r[j] in t;
      if i > 0 {
        assert r[i] == t[i - 1];
      }
    }
  }

  /** The head of an ordered series may precede every entry of its tail. */
  lemma OrderedHead(s: seq<Scored>, descending: bool)
    requires Ordered(s, descending) && s != []
    ensures Ordered(s[1..], descending)
    ensures forall y :: y in s[1..] ==> Precedes(s[0].value, y.value, descending)
  {
    forall y | y in s[1..] ensures Precedes(s[0].value, y.value, descending) {
      var q :| 0 <= q < |s[1..]| && s[1..][q] == y;
      assert s[q + 1] == y;
    }
    forall i, j | 0 <= i < j < |s[1..]| ensures Precedes(s[1..][i].value, s[1..][j].value, descending) {
      assert s[1..][i] == s[i + 1] && s[1..][j] == s[j + 1];
    }
  }

  /** The head of a series with distinct ids shares no id with its tail. */
  lemma DistinctHead(s: seq<Scored>)
    requires DistinctIds(s) && s != []
    ensures DistinctIds(s[1..])
    ensures forall y :: y in s[1..] ==> y.id != s[0].id
  {
    forall y | y in s[1..] ensures y.id != s[0].id {
      var q :| 0 <= q < |s[1..]| && s[1..][q] == y;
      assert s[q + 1] == y;
    }
    forall i, j | 0 <= i < j < |s[1..]| ensures s[1..][i].id != s[1..][j].id {
      assert s[1..][i] == s[i + 1] && s[1..][j] == s[j + 1];
    }
  }

  /** Puts `x` in front of the first entry it may precede. */
  function Insert(x: Scored, s: seq<Scored>, descending: bool): (r: seq<Scored>)
    requires Ordered(s, descending)
    ensures Ordered(r, descending)
    ensures multiset(r) == multiset(s) + multiset{x}
    ensures forall y :: y in r <==> y in s || y == x
  {
    if s == [] || Precedes(x.value, s[0].value, descending) then
      assert forall y :: y in s ==> Precedes(x.value, y.value, descending) by {
        forall y | y in s ensures Precedes(x.value, y.value, descending) {
          var k :| 0 <= k < |s| && s[k] == y;
          assert Precedes(s[0].value, s[k].value, descending) || k == 0;
        }
      }
      OrderedCons(x, s, descending);
      [x] + s
    else
      OrderedHead(s, descending);
      var rest := Insert(x, s[1..], descending);
      assert s == [s[0]] + s[1..];
      OrderedCons(s[0], rest, descending);
      [s[0]] + rest
  }

  /** `sort_values`: the entries of `s` ordered by value. */
  function Sort(s: seq<Scored>, descending: bool): (r: seq<Scored>)
    ensures Ordered(r, descending)
    ensures multiset(r) == multiset(s)
    ensures |r| == |s|
    ensures forall x :: x in r <==> x in s
  {
    if s == [] then []
    else
      assert s == [s[0]] + s[1..];
      Insert(s[0], Sort(s[1..], descending), descending)
  }

  lemma {:induction false} InsertKeepsDistinctIds(x: Scored, s: seq<Scored>, descending: bool)
    requires Ordered(s, descending) && DistinctIds(s)
    requires forall y :: y in s ==> y.id != x.id
    ensures DistinctIds(Insert(x, s, descending))
  {
    if s == [] || Precedes(x.value, s[0].value, descending) {
      DistinctCons(x, s);
    } else {
      OrderedHead(s, descending);
      DistinctHead(s);
      InsertKeepsDistinctIds(x, s[1..], descending);
      DistinctCons(s[0], Insert(x, s[1..], descending));
    }
  }

  /** Sorting keeps the ids distinct. */
  lemma {:induction false} SortKeepsDistinctIds(s: seq<Scored>, descending: bool)
    requires DistinctIds(s)
    ensures DistinctIds(Sort(s, descending))
  {
    if s != [] {
      DistinctHead(s);
      SortKeepsDistinctIds(s[1..], descending);
      InsertKeepsDistinctIds(s[0], Sort(s[1..], descending), descending);
    }
  }

  /** In an ordered series every entry in the first `k` places comes before
      every entry after them. */
  lemma OrderedPrefix(s: seq<Scored>, descending: bool, k: nat)
    requires Ordered(s, descending)
    requires k <= |s|
    ensures forall x, y :: x in s[..k] && y in s[k..] ==> Precedes(x.value, y.value, descending)
  {
    forall x, y | x in s[..k] && y in s[k..] ensures Precedes(x.value, y.value, descending) {
      var i :| 0 <= i < k && s[i] == x;
      var j :| k <= j < |s| && s[j] == y;
    }
  }

  /** `drop(id, errors='ignore')`: the series without the entries labelled `id`. */
  function RemoveId(s: seq<Scored>, id: int): (r: seq<Scored>)
    ensures forall x :: x in r <==> x in s && x.id != id
    ensures |r| <= |s|
  {
    if s == [] then []
    else if s[0].id == id then RemoveId(s[1..], id)
    else [s[0]] + RemoveId(s[1..], id)
  }

  lemma {:induction false} RemoveIdKeepsOrder(s: seq<Scored>, id: int)
    requires Ordered(s, true)
    ensures Ordered(RemoveId(s, id), true)
  {
    if s != [] {
      OrderedHead(s, true);
      RemoveIdKeepsOrder(s[1..], id);
      if s[0].id != id {
        OrderedCons(s[0], RemoveId(s[1..], id), true);
      }
    }
  }

  lemma {:induction false} RemoveIdKeepsDistinctIds(s: seq<Scored>, id: int)
    requires DistinctIds(s)
    ensures DistinctIds(RemoveId(s, id))
  {
    if s != [] {
      DistinctHead(s);
      RemoveIdKeepsDistinctIds(s[1..], id);
      if s[0].id != id {
        DistinctCons(s[0], RemoveId(s[1..], id));
      }
    }
  }

  /** With distinct ids, dropping an id removes exactly one entry when the
      id is present and none otherwise. */
  lemma {:induction false} RemoveIdLength(s: seq<Scored>, id: int)
    requires DistinctIds(s)
    ensures |RemoveId(s, id)| == if id in Ids(s) then |s| - 1 else |s|
  {
    if s != [] {
      DistinctHead(s);
      RemoveIdLength(s[1..], id);
      assert Ids(s) == [s[0].id] + Ids(s[1..]);
      if s[0].id == id {
        assert id !in Ids(s[1..]) by {
          forall k | 0 <= k < |s[1..]| ensures Ids(s[1..])[k] != id {
            assert s[1..][k] in s[1..];
          }
        }
      }
    }
  }
}
