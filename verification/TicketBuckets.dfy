/**
 The dashboard's ticket tabs: every ticket goes to one of three buckets, and
 each bucket is sorted twice in place, by recency and then by severity.
 Timestamps are compared as strings by the source; here they are ranks in that
 string order.
 */
module TicketBuckets {
  import opened Common
  import opened StableSort
  import opened Tickets

  datatype Row = Row(id: string, severity: string, status: Status, updatedAt: int)

  datatype Bucket = OpenTab | InProgressTab | ClosedTab

  function BucketOf(s: Status): Bucket {
    match s
    case Resolved | Closed | RolledBack => ClosedTab
    case Investigating | InvestigationComplete | InDevelopment | InReview | Testing | Deploying | Monitoring =>
      InProgressTab
    case _ => OpenTab
  }

  function SeverityRank(severity: string): nat {
    if severity == "critical" then 0
    else if severity == "high" then 1
    else if severity == "medium" then 2
    else if severity == "low" then 3
    else 9
  }

  function NewestFirst(): (Row, Row) -> bool {
    (a: Row, b: Row) => a.updatedAt >= b.updatedAt
  }

  function MostSevereFirst(): (Row, Row) -> bool {
    (a: Row, b: Row) => SeverityRank(a.severity) <= SeverityRank(b.severity)
  }

  function InBucket(b: Bucket): Row -> bool {
    (r: Row) => BucketOf(r.status) == b
  }

  /** The tab as promised: one stable sort by severity, newest first within a severity. */
  function Tab(rows: seq<Row>, b: Bucket): seq<Row> {
    Sort(Lex(MostSevereFirst(), NewestFirst()), Filter(InBucket(b), rows))
  }

  class Dashboard {
    var open: seq<Row>
    var inProgress: seq<Row>
    var closed: seq<Row>

    method FillBuckets(rows: seq<Row>)
      modifies this
      ensures open == Filter(InBucket(OpenTab), rows)
      ensures inProgress == Filter(InBucket(InProgressTab), rows)
      ensures closed == Filter(InBucket(ClosedTab), rows)
    {
      open, inProgress, closed := [], [], [];
      for i := 0 to |rows|
        invariant open == Filter(InBucket(OpenTab), rows[..i])
        invariant inProgress == Filter(InBucket(InProgressTab), rows[..i])
        invariant closed == Filter(InBucket(ClosedTab), rows[..i])
      {
        assert rows[..i + 1] == rows[..i] + [rows[i]];
        FilterConcat(InBucket(OpenTab), rows[..i], [rows[i]]);
        FilterConcat(InBucket(InProgressTab), rows[..i], [rows[i]]);
        FilterConcat(InBucket(ClosedTab), rows[..i], [rows[i]]);
        match BucketOf(rows[i].status)
        case OpenTab => open := open + [rows[i]];
        case InProgressTab => inProgress := inProgress + [rows[i]];
        case ClosedTab => closed := closed + [rows[i]];
      }
      assert rows[..|rows|] == rows;
    }

    /** Two sorts per bucket give the promised order. */
    method Build(rows: seq<Row>)
      modifies this
      ensures open == Tab(rows, OpenTab)
      ensures inProgress == Tab(rows, InProgressTab)
      ensures closed == Tab(rows, ClosedTab)
    {
      FillBuckets(rows);
      TwoPassSort(MostSevereFirst(), NewestFirst(), open);
      TwoPassSort(MostSevereFirst(), NewestFirst(), inProgress);
      TwoPassSort(MostSevereFirst(), NewestFirst(), closed);
      open := Sort(NewestFirst(), open);
      open := Sort(MostSevereFirst(), open);
      inProgress := Sort(NewestFirst(), inProgress);
      inProgress := Sort(MostSevereFirst(), inProgress);
      closed := Sort(NewestFirst(), closed);
      closed := Sort(MostSevereFirst(), closed);
    }
  }

  lemma {:induction false} FiltersPartition(rows: seq<Row>)
    ensures multiset(Filter(InBucket(OpenTab), rows)) + multiset(Filter(InBucket(InProgressTab), rows))
          + multiset(Filter(InBucket(ClosedTab), rows)) == multiset(rows)
  {
    if rows != [] {
      FiltersPartition(rows[1..]);
      assert rows == [rows[0]] + rows[1..];
    }
  }

  lemma TabRows(rows: seq<Row>, b: Bucket)
    ensures multiset(Tab(rows, b)) == multiset(Filter(InBucket(b), rows))
    ensures forall r :: r in Tab(rows, b) ==> BucketOf(r.status) == b
  {
    var kept, t := Filter(InBucket(b), rows), Tab(rows, b);
    LexIsPreorder(MostSevereFirst(), NewestFirst());
    SortCorrect(Lex(MostSevereFirst(), NewestFirst()), kept);
    FilterMembers(InBucket(b), rows);
    forall r | r in t ensures BucketOf(r.status) == b {
      assert r in multiset(t);
      assert r in kept;
    }
  }

  /** Conservation: the three tabs together hold every row exactly as often as the input. */
  lemma TabsPartition(rows: seq<Row>)
    ensures multiset(Tab(rows, OpenTab)) + multiset(Tab(rows, InProgressTab)) + multiset(Tab(rows, ClosedTab))
         == multiset(rows)
    ensures forall b, r :: r in Tab(rows, b) ==> BucketOf(r.status) == b
  {
    TabRows(rows, OpenTab);
    TabRows(rows, InProgressTab);
    TabRows(rows, ClosedTab);
    FiltersPartition(rows);
  }

  /** Which statuses go to which tab. */
  lemma BucketMeaning(s: Status)
    ensures BucketOf(s) == ClosedTab <==> s == Resolved || s == Closed || s == RolledBack
    ensures BucketOf(s) == InProgressTab <==>
      s == Investigating || s == InvestigationComplete || s == InDevelopment
      || s == InReview || s == Testing || s == Deploying || s == Monitoring
  {
  }

  /** A tab holds exactly the tickets of its statuses. */
  lemma TabMember(rows: seq<Row>, b: Bucket, r: Row)
    ensures r in Tab(rows, b) <==> r in rows && BucketOf(r.status) == b
  {
    TabRows(rows, b);
    FilterMembers(InBucket(b), rows);
    assert r in Tab(rows, b) <==> r in multiset(Tab(rows, b));
    assert r in Filter(InBucket(b), rows) <==> r in multiset(Filter(InBucket(b), rows));
  }

  /** The ladder of severities; whatever is not on it comes after all of them, in one rank. */
  lemma SeverityLadder(a: string, b: string)
    ensures SeverityRank("critical") < SeverityRank("high") < SeverityRank("medium") < SeverityRank("low")
    ensures a !in ["critical", "high", "medium", "low"] ==> SeverityRank("low") < SeverityRank(a)
    ensures a !in ["critical", "high", "medium", "low"] && b !in ["critical", "high", "medium", "low"] ==>
      SeverityRank(a) == SeverityRank(b)
  {
  }

  /** a may stand before b in a tab. */
  predicate InOrder(a: Row, b: Row) {
    || SeverityRank(a.severity) < SeverityRank(b.severity)
    || (SeverityRank(a.severity) == SeverityRank(b.severity) && a.updatedAt >= b.updatedAt)
  }

  /** Each tab is ordered by severity, and newest first within one. */
  lemma TabOrder(rows: seq<Row>, b: Bucket)
    ensures forall i, j :: 0 <= i < j < |Tab(rows, b)| ==> InOrder(Tab(rows, b)[i], Tab(rows, b)[j])
  {
    LexIsPreorder(MostSevereFirst(), NewestFirst());
    SortCorrect(Lex(MostSevereFirst(), NewestFirst()), Filter(InBucket(b), rows));
    var leq, t := Lex(MostSevereFirst(), NewestFirst()), Tab(rows, b);
    forall i, j | 0 <= i < j < |t| ensures InOrder(t[i], t[j]) {
      assert leq(t[i], t[j]);
    }
  }

  /** Rows that no key can tell apart. */
  function SameKeys(x: Row): Row -> bool {
    (y: Row) => SeverityRank(y.severity) == SeverityRank(x.severity) && y.updatedAt == x.updatedAt
  }

  lemma TieMeaning(x: Row)
    ensures forall y :: SameKeys(x)(y) == Tie(Lex(MostSevereFirst(), NewestFirst()), x)(y)
  {
  }

  /** Full ties keep their input order. */
  lemma TabKeepsTies(rows: seq<Row>, b: Bucket, x: Row)
    ensures Filter(SameKeys(x), Tab(rows, b)) == Filter(SameKeys(x), Filter(InBucket(b), rows))
  {
    var leq, kept := Lex(MostSevereFirst(), NewestFirst()), Filter(InBucket(b), rows);
    LexIsPreorder(MostSevereFirst(), NewestFirst());
    SortCorrect(leq, kept);
    TieMeaning(x);
    FilterAgree(SameKeys(x), Tie(leq, x), Tab(rows, b));
    FilterAgree(SameKeys(x), Tie(leq, x), kept);
    assert Filter(Tie(leq, x), Sort(leq, kept)) == Filter(Tie(leq, x), kept);
  }
}
