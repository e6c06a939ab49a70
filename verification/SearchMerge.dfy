/**
 The merge step of the memory search: full-text and semantic rows are merged by
 id in a Map, sorted by descending similarity and cut to the limit.
 */
module SearchMerge {
  import opened Common
  import opened OrderedDict
  import opened StableSort

  const MAX_LIMIT: int := 100

  datatype Row = Row(id: int, similarity: Option<real>, body: string)

  /** A missing similarity counts as 0. */
  function Score(r: Row): real {
    r.similarity.GetOr(0.0)
  }

  function HigherFirst(): (Row, Row) -> bool {
    (a: Row, b: Row) => Score(a) >= Score(b)
  }

  type Seen = Dict<int, Row>

  /** The Map after the full-text rows: the last row of an id wins. */
  function AddFullText(fts: seq<Row>): (d: Seen)
    ensures d.Valid()
  {
    if fts == [] then Dict([], map[])
    else
      var r := fts[|fts| - 1];
      AddFullText(fts[..|fts| - 1]).Put(r.id, r)
  }

  /** The Map after some semantic rows too: a row replaces only a lower score. */
  function Merge(fts: seq<Row>, semantic: seq<Row>): (d: Seen)
    ensures d.Valid()
  {
    if semantic == [] then AddFullText(fts)
    else
      var d, r := Merge(fts, semantic[..|semantic| - 1]), semantic[|semantic| - 1];
      if r.id !in d.vals || Score(r) > Score(d.vals[r.id]) then d.Put(r.id, r) else d
  }

  /** Where slice(0, limit) ends; None stands for NaN. */
  function SliceEnd(n: nat, limit: Option<int>): nat {
    match limit
    case None => 0
    case Some(l) => if l < 0 then (if n + l < 0 then 0 else n + l) else if l < n then l else n
  }

  function Limit(requested: Option<int>): Option<int> {
    match requested
    case None => None
    case Some(l) => Some(if l < MAX_LIMIT then l else MAX_LIMIT)
  }

  function Ranked(fts: seq<Row>, semantic: seq<Row>): seq<Row> {
    Sort(HigherFirst(), Merge(fts, semantic).Values())
  }

  lemma AddFullTextSnoc(fts: seq<Row>, i: nat)
    requires i < |fts|
    ensures AddFullText(fts[..i + 1]) == AddFullText(fts[..i]).Put(fts[i].id, fts[i])
  {
    assert fts[..i + 1][..i] == fts[..i];
  }

  lemma MergeSnoc(fts: seq<Row>, semantic: seq<Row>, i: nat)
    requires i < |semantic|
    ensures var d, r := Merge(fts, semantic[..i]), semantic[i];
            Merge(fts, semantic[..i + 1])
            == if r.id !in d.vals || Score(r) > Score(d.vals[r.id]) then d.Put(r.id, r) else d
  {
    assert semantic[..i + 1][..i] == semantic[..i];
  }

  function Least(a: int, b: int): int {
    if a < b then a else b
  }

  method Search(fts: seq<Row>, semantic: seq<Row>, requested: Option<int>) returns (merged: seq<Row>)
    ensures |merged| <= |Ranked(fts, semantic)| && merged == Ranked(fts, semantic)[..|merged|]
    ensures requested == None ==> merged == []
    ensures requested.Some? ==>
      var l, ids := requested.value, |(set r | r in fts + semantic :: r.id)|;
      && (l >= 0 ==> |merged| == Least(l, Least(100, ids)))
      && (l < 0 ==> |merged| == if ids + l > 0 then ids + l else 0)
    ensures forall i, j :: 0 <= i < j < |merged| ==>
      && merged[i].id != merged[j].id
      && merged[i].similarity.GetOr(0.0) >= merged[j].similarity.GetOr(0.0)
  {
    var seen: Seen := Dict([], map[]);
    for i := 0 to |fts|
      invariant seen == AddFullText(fts[..i])
    {
      AddFullTextSnoc(fts, i);
      seen := seen.Put(fts[i].id, fts[i]);
    }
    assert fts[..|fts|] == fts;
    for i := 0 to |semantic|
      invariant seen == Merge(fts, semantic[..i])
    {
      MergeSnoc(fts, semantic, i);
      var r := semantic[i];
      if r.id !in seen.vals || Score(r) > Score(seen.vals[r.id]) {
        seen := seen.Put(r.id, r);
      }
    }
    assert semantic[..|semantic|] == semantic;
    RankedRows(fts, semantic);
    RankedDescends(fts, semantic);
    RankedLength(fts, semantic);
    var sorted := Sort(HigherFirst(), seen.Values());
    merged := sorted[..SliceEnd(|sorted|, Limit(requested))];
  }

  // ---- The Map holds one row per id ----

  lemma {:induction false} FullTextIds(fts: seq<Row>)
    ensures forall id :: id in AddFullText(fts).vals <==> exists r :: r in fts && r.id == id
    ensures forall id :: id in AddFullText(fts).vals ==>
      AddFullText(fts).vals[id] in fts && AddFullText(fts).vals[id].id == id
  {
    if fts != [] {
      var n := |fts| - 1;
      FullTextIds(fts[..n]);
      assert fts == fts[..n] + [fts[n]];
      forall id ensures id in AddFullText(fts).vals <==> exists r :: r in fts && r.id == id {
        if r :| r in fts[..n] && r.id == id {
          assert r in fts;
        }
      }
    }
  }

  /** Ids are those of the inputs, and every kept row is an input row of its id. */
  lemma {:induction false} MergeIds(fts: seq<Row>, semantic: seq<Row>)
    ensures forall id :: id in Merge(fts, semantic).vals <==> exists r :: r in fts + semantic && r.id == id
    ensures forall id :: id in Merge(fts, semantic).vals ==>
      var r := Merge(fts, semantic).vals[id]; r in fts + semantic && r.id == id
  {
    FullTextIds(fts);
    if semantic == [] {
      assert fts + semantic == fts;
    } else {
      var n := |semantic| - 1;
      MergeIds(fts, semantic[..n]);
      assert fts + semantic == (fts + semantic[..n]) + [semantic[n]];
      forall id ensures id in Merge(fts, semantic).vals <==> exists r :: r in fts + semantic && r.id == id {
        if r :| r in fts + semantic[..n] && r.id == id {
          assert r in fts + semantic;
        }
        assert semantic[n] in fts + semantic;
      }
    }
  }

  /** The rows of fts that are not followed by another row of the same id. */
  predicate LastOfItsId(fts: seq<Row>, i: int) {
    0 <= i < |fts| && forall j :: i < j < |fts| ==> fts[j].id != fts[i].id
  }

  lemma {:induction false} FullTextKeepsLast(fts: seq<Row>, i: nat)
    requires LastOfItsId(fts, i)
    ensures fts[i].id in AddFullText(fts).vals && AddFullText(fts).vals[fts[i].id] == fts[i]
  {
    var n := |fts| - 1;
    if i < n {
      assert LastOfItsId(fts[..n], i);
      FullTextKeepsLast(fts[..n], i);
    }
  }

  /** The kept score bounds that of the last full-text row and of every semantic row of the id. */
  lemma MergeBounds(fts: seq<Row>, semantic: seq<Row>, id: int)
    ensures id in AddFullText(fts).vals ==>
      id in Merge(fts, semantic).vals && Score(AddFullText(fts).vals[id]) <= Score(Merge(fts, semantic).vals[id])
    ensures forall r :: r in semantic && r.id == id ==>
      id in Merge(fts, semantic).vals && Score(r) <= Score(Merge(fts, semantic).vals[id])
    ensures id in Merge(fts, semantic).vals ==>
      || (id in AddFullText(fts).vals && Merge(fts, semantic).vals[id] == AddFullText(fts).vals[id])
      || Merge(fts, semantic).vals[id] in semantic
  {
    var full := FullTextRow(fts, id);
    KeptIsBest(fts, semantic, id);
    BestMeaning(full, semantic, id);
  }

  /** Which row the Map keeps of an id, given the full-text one: the first of the best, full text before semantic. */
  ghost predicate FirstBest(full: Option<Row>, semantic: seq<Row>, id: int, kept: Row) {
    || (full == Some(kept)
        && forall j :: 0 <= j < |semantic| && semantic[j].id == id ==> Score(semantic[j]) <= Score(kept))
    || exists k :: 0 <= k < |semantic| && FirstBestAt(full, semantic, id, k) && kept == semantic[k]
  }

  ghost predicate FirstBestAt(full: Option<Row>, semantic: seq<Row>, id: int, k: nat)
    requires k < |semantic|
  {
    && semantic[k].id == id
    && (full.Some? ==> Score(full.value) < Score(semantic[k]))
    && (forall j :: 0 <= j < k && semantic[j].id == id ==> Score(semantic[j]) < Score(semantic[k]))
    && (forall j :: k <= j < |semantic| && semantic[j].id == id ==> Score(semantic[j]) <= Score(semantic[k]))
  }

  function FullTextRow(fts: seq<Row>, id: int): Option<Row> {
    if id in AddFullText(fts).vals then Some(AddFullText(fts).vals[id]) else None
  }

  /** The best row of an id, seen one after the other. */
  function BestOf(full: Option<Row>, semantic: seq<Row>, id: int): Option<Row> {
    if semantic == [] then full
    else
      var n := |semantic| - 1;
      var best, r := BestOf(full, semantic[..n], id), semantic[n];
      if r.id == id && (best.None? || Score(r) > Score(best.value)) then Some(r) else best
  }

  function Kept(fts: seq<Row>, semantic: seq<Row>, id: int): Option<Row> {
    if id in Merge(fts, semantic).vals then Some(Merge(fts, semantic).vals[id]) else None
  }

  lemma {:induction false} KeptIsBest(fts: seq<Row>, semantic: seq<Row>, id: int)
    ensures Kept(fts, semantic, id) == BestOf(FullTextRow(fts, id), semantic, id)
  {
    if semantic != [] {
      KeptIsBest(fts, semantic[..|semantic| - 1], id);
    }
  }

  lemma {:induction false} BestMeaning(full: Option<Row>, semantic: seq<Row>, id: int)
    ensures match BestOf(full, semantic, id)
            case None => full == None && forall j :: 0 <= j < |semantic| ==> semantic[j].id != id
            case Some(best) => FirstBest(full, semantic, id, best)
  {
    if semantic != [] {
      var n := |semantic| - 1;
      BestMeaning(full, semantic[..n], id);
      var best := BestOf(full, semantic[..n], id);
      if best.Some? {
        BestOfMore(full, semantic, id, best.value);
      } else if semantic[n].id == id {
        assert forall j :: 0 <= j < n ==> semantic[..n][j] == semantic[j];
        assert FirstBestAt(full, semantic, id, n);
      } else {
        assert forall j :: 0 <= j < n ==> semantic[..n][j] == semantic[j];
      }
    }
  }

  /** Equal scores never replace: of several best rows the first in order stays. */
  lemma KeptIsFirstBest(fts: seq<Row>, semantic: seq<Row>, id: int)
    requires id in Merge(fts, semantic).vals
    ensures FirstBest(FullTextRow(fts, id), semantic, id, Merge(fts, semantic).vals[id])
  {
    KeptIsBest(fts, semantic, id);
    BestMeaning(FullTextRow(fts, id), semantic, id);
  }

  lemma BestOfMore(full: Option<Row>, semantic: seq<Row>, id: int, kept: Row)
    requires semantic != [] && FirstBest(full, semantic[..|semantic| - 1], id, kept)
    ensures var r := semantic[|semantic| - 1];
            FirstBest(full, semantic, id, if r.id == id && Score(r) > Score(kept) then r else kept)
  {
    var n := |semantic| - 1;
    var r, before := semantic[n], semantic[..n];
    assert forall j :: 0 <= j < n ==> before[j] == semantic[j];
    if r.id == id && Score(r) > Score(kept) {
      assert FirstBestAt(full, semantic, id, n);
    } else if k :| 0 <= k < |before| && FirstBestAt(full, before, id, k) && kept == before[k] {
      assert FirstBestAt(full, semantic, id, k);
    }
  }

  /** Every row of an id scores at most what the Map keeps for that id. */
  ghost predicate KeepsMaximum(fts: seq<Row>, semantic: seq<Row>) {
    forall r :: r in fts + semantic ==>
      r.id in Merge(fts, semantic).vals && Score(r) <= Score(Merge(fts, semantic).vals[r.id])
  }

  predicate Covers(r: Row, s: Row) {
    s.id == r.id && Score(s) >= Score(r)
  }

  /** No full-text row beats both the last full-text row and every semantic row of its id. */
  ghost predicate NoHiddenFullText(fts: seq<Row>, semantic: seq<Row>) {
    forall r :: r in fts ==>
      || (exists i :: LastOfItsId(fts, i) && Covers(r, fts[i]))
      || (exists s :: s in semantic && Covers(r, s))
  }

  /** The merged score is the maximum over both lists exactly when no full-text duplicate hides one. */
  lemma KeepsMaximumIff(fts: seq<Row>, semantic: seq<Row>)
    ensures KeepsMaximum(fts, semantic) <==> NoHiddenFullText(fts, semantic)
  {
    if NoHiddenFullText(fts, semantic) {
      forall r | r in fts + semantic
        ensures r.id in Merge(fts, semantic).vals && Score(r) <= Score(Merge(fts, semantic).vals[r.id])
      {
        MergeBounds(fts, semantic, r.id);
        if i :| r in fts && LastOfItsId(fts, i) && Covers(r, fts[i]) {
          FullTextKeepsLast(fts, i);
        }
      }
    }
    if KeepsMaximum(fts, semantic) {
      forall r | r in fts
        ensures (exists i :: LastOfItsId(fts, i) && Covers(r, fts[i])) || (exists s :: s in semantic && Covers(r, s))
      {
        assert r in fts + semantic;
        MergeBounds(fts, semantic, r.id);
        MergeIds(fts, semantic);
        var kept := Merge(fts, semantic).vals[r.id];
        assert Covers(r, kept);
        if kept !in semantic {
          var i := LastRow(fts, r.id);
          FullTextKeepsLast(fts, i);
        }
      }
    }
  }

  lemma {:induction false} LastRow(fts: seq<Row>, id: int) returns (i: nat)
    requires exists r :: r in fts && r.id == id
    ensures LastOfItsId(fts, i) && fts[i].id == id
  {
    i := |fts| - 1;
    if fts[i].id != id {
      var n := i;
      var r :| r in fts && r.id == id;
      assert r in fts[..n];
      i := LastRow(fts[..n], id);
    }
  }

  lemma DistinctIdsHideNothing(fts: seq<Row>, semantic: seq<Row>)
    requires forall i, j :: 0 <= i < j < |fts| ==> fts[i].id != fts[j].id
    ensures KeepsMaximum(fts, semantic)
  {
    forall r | r in fts ensures exists i :: LastOfItsId(fts, i) && Covers(r, fts[i]) {
      var i :| 0 <= i < |fts| && fts[i] == r;
      assert LastOfItsId(fts, i);
    }
    KeepsMaximumIff(fts, semantic);
  }

  /** With duplicate full-text ids the maximum can be lost. */
  lemma DuplicateLosesMaximum()
    ensures !KeepsMaximum([Row(7, Some(0.9), "a"), Row(7, None, "b")], [])
  {
    var fts := [Row(7, Some(0.9), "a"), Row(7, None, "b")];
    assert LastOfItsId(fts, 1);
    FullTextKeepsLast(fts, 1);
    assert fts[0] in fts + [];
    assert Score(fts[0]) == 0.9 && Score(fts[1]) == 0.0;
  }

  // ---- Top k ----

  ghost predicate Descends(all: seq<Row>) {
    forall i, j :: 0 <= i < j < |all| ==> Score(all[i]) >= Score(all[j])
  }

  /** Sorting keeps one row per id. */
  lemma RankedRows(fts: seq<Row>, semantic: seq<Row>)
    ensures var all, rows := Ranked(fts, semantic), Merge(fts, semantic).Values();
            && |all| == |rows| && multiset(all) == multiset(rows) && SameTies(HigherFirst(), rows, all)
            && (forall i, j :: 0 <= i < j < |all| ==> all[i].id != all[j].id)
  {
    MergeIds(fts, semantic);
    var d := Merge(fts, semantic);
    var rows, all := d.Values(), Ranked(fts, semantic);
    SortCorrect(HigherFirst(), rows);
    forall i | 0 <= i < |rows| ensures rows[i].id == d.keys[i] {
      assert d.keys[i] in d.vals;
    }
    PermutationDistinct(rows, all);
    forall i, j | 0 <= i < j < |all| ensures all[i].id != all[j].id {
      assert all[i] in multiset(rows) && all[j] in multiset(rows);
      var p :| 0 <= p < |rows| && rows[p] == all[i];
      var q :| 0 <= q < |rows| && rows[q] == all[j];
      assert p != q;
    }
  }

  /**
   Any prefix is the top of the merged rows: one row per id, scores never
   increasing, ties in Map order, and nothing left out beats anything returned.
   */
  lemma TopK(fts: seq<Row>, semantic: seq<Row>, n: nat)
    requires n <= |Ranked(fts, semantic)|
    ensures var all, rows := Ranked(fts, semantic), Merge(fts, semantic).Values();
            && |all| == |(set r | r in fts + semantic :: r.id)|
            && multiset(all) == multiset(rows) && SameTies(HigherFirst(), rows, all)
            && (forall i, j :: 0 <= i < j < |all| ==> all[i].id != all[j].id)
            && Descends(all)
            && (forall r, s :: r in all[..n] && s in all[n..] ==> Score(s) <= Score(r))
  {
    RankedRows(fts, semantic);
    RankedDescends(fts, semantic);
    RankedLength(fts, semantic);
  }

  lemma RankedDescends(fts: seq<Row>, semantic: seq<Row>)
    ensures Descends(Ranked(fts, semantic))
  {
    var rows, all := Merge(fts, semantic).Values(), Ranked(fts, semantic);
    SortCorrect(HigherFirst(), rows);
    forall i, j | 0 <= i < j < |all| ensures Score(all[i]) >= Score(all[j]) {
      assert HigherFirst()(all[i], all[j]);
    }
  }

  /** There is one merged row per id. */
  lemma RankedLength(fts: seq<Row>, semantic: seq<Row>)
    ensures |Ranked(fts, semantic)| == |(set r | r in fts + semantic :: r.id)|
  {
    MergedIds(fts, semantic);
    RankedRows(fts, semantic);
    DistinctCardinality(Merge(fts, semantic).keys);
    assert (set k | k in Merge(fts, semantic).keys) == Merge(fts, semantic).vals.Keys;
  }

  lemma MergedIds(fts: seq<Row>, semantic: seq<Row>)
    ensures Merge(fts, semantic).vals.Keys == (set r | r in fts + semantic :: r.id)
  {
    MergeIds(fts, semantic);
    forall id ensures id in Merge(fts, semantic).vals.Keys <==> id in (set r | r in fts + semantic :: r.id) {
      assert id in Merge(fts, semantic).vals.Keys <==> id in Merge(fts, semantic).vals;
    }
  }

}
