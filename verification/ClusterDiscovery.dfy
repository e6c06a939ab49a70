/**
 Cluster discovery: a ticket joins the cluster of a similar ticket, or starts a
 new one with its similar tickets.

 The graph store answers lookups through an RPC that reports a failure as "no
 cluster", and swallows failed writes; both outcomes are inputs of a call.
 */
module ClusterDiscovery {
  import opened Common

  type TicketId = string
  type ClusterId = string
  type Clusters = map<ClusterId, seq<TicketId>>

  datatype Match = Match(ticketId: TicketId, similarity: real)

  /** matches is None when the similarity search raised. */
  datatype Call = Call(
    ticket: TicketId,
    matches: Option<seq<Match>>,
    threshold: real,
    lookup: TicketId -> Option<ClusterId>,
    freshId: ClusterId,
    writes: bool)

  predicate Holds(cs: Clusters, c: ClusterId, t: TicketId) {
    c in cs && t in cs[c]
  }

  /** A lookup never invents a cluster, and new ids are new. */
  ghost predicate Honest(cs: Clusters, call: Call) {
    && (forall t :: call.lookup(t).Some? ==> Holds(cs, call.lookup(t).value, t))
    && call.freshId !in cs
  }

  /** No lookup of this call failed: what is clustered is found. */
  ghost predicate LookupsWork(cs: Clusters, call: Call) {
    forall t, c :: Holds(cs, c, t) ==> call.lookup(t).Some?
  }

  function Accepts(call: Call): Match -> bool {
    (m: Match) => m.ticketId != call.ticket && m.similarity >= call.threshold
  }

  function Ids(ms: seq<Match>): (ids: seq<TicketId>)
    ensures |ids| == |ms| && forall i :: 0 <= i < |ms| ==> ids[i] == ms[i].ticketId
  {
    seq(|ms|, i requires 0 <= i < |ms| => ms[i].ticketId)
  }

  function SimilarIds(call: Call): seq<TicketId>
    requires call.matches.Some?
  {
    Ids(Filter(Accepts(call), call.matches.value))
  }

  /** The similar tickets: what the search found, without the ticket itself, at the threshold or above. */
  lemma SimilarMeaning(call: Call, id: TicketId)
    requires call.matches.Some?
    ensures id in SimilarIds(call) <==>
      id != call.ticket && exists m :: m in call.matches.value && m.ticketId == id && m.similarity >= call.threshold
  {
    var kept := Filter(Accepts(call), call.matches.value);
    FilterMembers(Accepts(call), call.matches.value);
    if id in SimilarIds(call) {
      var i :| 0 <= i < |SimilarIds(call)| && SimilarIds(call)[i] == id;
      assert kept[i] in kept;
    }
    if m :| m in call.matches.value && m.ticketId == id && m.similarity >= call.threshold && id != call.ticket {
      assert m in kept;
      var i :| 0 <= i < |kept| && kept[i] == m;
      assert SimilarIds(call)[i] == id;
    }
  }

  /** Similar tickets stand in the order the search found them. */
  lemma SimilarOrder(call: Call, i: nat, j: nat) returns (a: nat, b: nat)
    requires call.matches.Some? && i < j < |SimilarIds(call)|
    ensures a < b < |call.matches.value|
    ensures call.matches.value[a].ticketId == SimilarIds(call)[i]
    ensures call.matches.value[b].ticketId == SimilarIds(call)[j]
  {
    a, b := FilterOrder(Accepts(call), call.matches.value, i, j);
  }

  /** The cluster of the first ticket that has one. */
  function FirstCluster(lookup: TicketId -> Option<ClusterId>, ids: seq<TicketId>): Option<ClusterId> {
    if ids == [] then None
    else if lookup(ids[0]).Some? then lookup(ids[0])
    else FirstCluster(lookup, ids[1..])
  }

  function AddTicket(cs: Clusters, c: ClusterId, t: TicketId, writes: bool): Clusters {
    if c !in cs || t in cs[c] || !writes then cs else cs[c := cs[c] + [t]]
  }

  function Discover(cs: Clusters, call: Call): (Clusters, Option<ClusterId>) {
    if call.lookup(call.ticket).Some? then (cs, call.lookup(call.ticket))
    else if call.matches.None? then (cs, None)
    else
      var similar := SimilarIds(call);
      if similar == [] then (cs, None)
      else
        match FirstCluster(call.lookup, similar)
        case Some(c) => (AddTicket(cs, c, call.ticket, call.writes), Some(c))
        case None =>
          (if call.writes then cs[call.freshId := [call.ticket] + similar] else cs, Some(call.freshId))
  }

  class GraphStore {
    var clusters: Clusters

    constructor ()
      ensures clusters == map[]
    {
      clusters := map[];
    }

    method AddTicketToCluster(c: ClusterId, t: TicketId, writes: bool)
      modifies this
      ensures clusters == AddTicket(old(clusters), c, t, writes)
      ensures Grown(old(clusters), clusters)
      ensures forall d, u :: Holds(clusters, d, u) <==>
        Holds(old(clusters), d, u) || (writes && c in old(clusters) && d == c && u == t)
    {
      if c !in clusters || t in clusters[c] {
        return;
      }
      if writes {
        clusters := clusters[c := clusters[c] + [t]];
      }
    }

    /** An upsert on the cluster id. */
    method CreateCluster(c: ClusterId, ids: seq<TicketId>, writes: bool)
      modifies this
      ensures clusters == if writes then old(clusters)[c := ids] else old(clusters)
      ensures c !in old(clusters) ==> Grown(old(clusters), clusters)
      ensures c !in old(clusters) ==> forall d, u :: Holds(clusters, d, u) <==>
        Holds(old(clusters), d, u) || (writes && d == c && u in ids)
    {
      if writes {
        clusters := clusters[c := ids];
      }
    }

    method DiscoverCluster(call: Call) returns (id: Option<ClusterId>)
      modifies this
      ensures (clusters, id) == Discover(old(clusters), call)
    {
      id := call.lookup(call.ticket);
      if id.Some? || call.matches.None? {
        return;
      }
      var matches := call.matches.value;
      var kept: seq<Match> := [];
      for i := 0 to |matches|
        invariant clusters == old(clusters)
        invariant kept == Filter(Accepts(call), matches[..i])
      {
        assert matches[..i + 1] == matches[..i] + [matches[i]];
        FilterConcat(Accepts(call), matches[..i], [matches[i]]);
        if matches[i].ticketId != call.ticket && matches[i].similarity >= call.threshold {
          kept := kept + [matches[i]];
        }
      }
      assert matches[..|matches|] == matches;
      var similar := Ids(kept);
      if similar == [] {
        return None;
      }
      for i := 0 to |similar|
        invariant clusters == old(clusters)
        invariant FirstCluster(call.lookup, similar) == FirstCluster(call.lookup, similar[i..])
      {
        var found := call.lookup(similar[i]);
        if found.Some? {
          AddTicketToCluster(found.value, call.ticket, call.writes);
          return found;
        }
      }
      CreateCluster(call.freshId, [call.ticket] + similar, call.writes);
      id := Some(call.freshId);
    }
  }

  // ---- What calls keep ----

  ghost predicate Disjoint(cs: Clusters) {
    forall c, d, t :: Holds(cs, c, t) && Holds(cs, d, t) ==> c == d
  }

  /** Every old cluster is still there and has only grown at its end. */
  ghost predicate Grown(before: Clusters, after: Clusters) {
    forall c :: c in before ==> c in after && before[c] <= after[c]
  }

  predicate FirstWithCluster(lookup: TicketId -> Option<ClusterId>, ids: seq<TicketId>, i: int) {
    0 <= i < |ids| && lookup(ids[i]).Some? && forall j :: 0 <= j < i ==> lookup(ids[j]).None?
  }

  lemma {:induction false} FirstClusterFound(lookup: TicketId -> Option<ClusterId>, ids: seq<TicketId>)
    ensures FirstCluster(lookup, ids).Some? ==> exists t :: t in ids && lookup(t) == FirstCluster(lookup, ids)
    ensures FirstCluster(lookup, ids).Some? ==>
      exists i :: FirstWithCluster(lookup, ids, i) && lookup(ids[i]) == FirstCluster(lookup, ids)
    ensures FirstCluster(lookup, ids).None? ==> forall t :: t in ids ==> lookup(t).None?
  {
    if ids != [] && lookup(ids[0]).None? {
      FirstClusterFound(lookup, ids[1..]);
      if FirstCluster(lookup, ids).Some? {
        var t :| t in ids[1..] && lookup(t) == FirstCluster(lookup, ids);
        assert t in ids;
        var i :| FirstWithCluster(lookup, ids[1..], i) && lookup(ids[1..][i]) == FirstCluster(lookup, ids);
        assert FirstWithCluster(lookup, ids, i + 1);
      }
    }
  }

  /** The three ways a call ends that is neither clustered already nor without similar tickets. */
  lemma DiscoverMeaning(cs: Clusters, call: Call)
    ensures call.lookup(call.ticket).Some? ==> Discover(cs, call) == (cs, call.lookup(call.ticket))
    ensures call.lookup(call.ticket).None? && (call.matches.None? || SimilarIds(call) == []) ==>
      Discover(cs, call) == (cs, None)
    ensures call.lookup(call.ticket).None? && call.matches.Some? ==>
      forall i :: FirstWithCluster(call.lookup, SimilarIds(call), i) ==>
        var c := call.lookup(SimilarIds(call)[i]).value;
        Discover(cs, call) ==
          (if call.writes && c in cs && call.ticket !in cs[c] then cs[c := cs[c] + [call.ticket]] else cs, Some(c))
    ensures call.lookup(call.ticket).None? && call.matches.Some? && SimilarIds(call) != [] ==>
      (forall t :: t in SimilarIds(call) ==> call.lookup(t).None?) ==>
        Discover(cs, call) ==
          (if call.writes then cs[call.freshId := [call.ticket] + SimilarIds(call)] else cs, Some(call.freshId))
  {
    if call.lookup(call.ticket).None? && call.matches.Some? {
      var ids := SimilarIds(call);
      FirstClusterFound(call.lookup, ids);
      forall i | FirstWithCluster(call.lookup, ids, i) ensures FirstCluster(call.lookup, ids) == call.lookup(ids[i]) {
        FirstIsUnique(call.lookup, ids, i);
      }
    }
  }

  lemma {:induction false} FirstIsUnique(lookup: TicketId -> Option<ClusterId>, ids: seq<TicketId>, i: int)
    requires FirstWithCluster(lookup, ids, i)
    ensures FirstCluster(lookup, ids) == lookup(ids[i])
  {
    if i > 0 {
      assert lookup(ids[0]).None?;
      assert FirstWithCluster(lookup, ids[1..], i - 1);
      FirstIsUnique(lookup, ids[1..], i - 1);
    }
  }

  /** The tickets the call writes, and the cluster it writes them to. */
  ghost function Placed(call: Call): (seq<TicketId>, ClusterId)
    requires call.matches.Some?
  {
    match FirstCluster(call.lookup, SimilarIds(call))
    case Some(c) => ([call.ticket], c)
    case None => ([call.ticket] + SimilarIds(call), call.freshId)
  }

  /** The ticket is in no cluster yet and has similar ones: it has to be written somewhere. */
  ghost predicate NeedsWrite(call: Call) {
    call.lookup(call.ticket).None? && call.matches.Some? && SimilarIds(call) != []
  }

  ghost predicate Writes(call: Call) {
    NeedsWrite(call) && call.writes
  }

  /** The call is about to write a ticket that already sits in some other cluster. */
  ghost predicate Misplaces(cs: Clusters, call: Call) {
    Writes(call) &&
    var (ids, c) := Placed(call);
    exists t, d :: t in ids && d != c && Holds(cs, d, t)
  }

  lemma DiscoverEffect(cs: Clusters, call: Call)
    requires Honest(cs, call)
    ensures !Writes(call) ==> Discover(cs, call).0 == cs
    ensures Writes(call) ==>
      var (ids, c) := Placed(call);
      forall d, t :: Holds(Discover(cs, call).0, d, t) <==> Holds(cs, d, t) || (d == c && t in ids)
    ensures Grown(cs, Discover(cs, call).0)
  {
    if Writes(call) {
      FirstClusterFound(call.lookup, SimilarIds(call));
    }
  }

  /** From disjoint clusters, one call stays disjoint exactly when it misplaces no ticket. */
  lemma DisjointIff(cs: Clusters, call: Call)
    requires Disjoint(cs) && Honest(cs, call)
    ensures Disjoint(Discover(cs, call).0) <==> !Misplaces(cs, call)
  {
    DiscoverEffect(cs, call);
    var after := Discover(cs, call).0;
    if Writes(call) {
      var (ids, c) := Placed(call);
      if Misplaces(cs, call) {
        var t, d :| t in ids && d != c && Holds(cs, d, t);
        assert Holds(after, c, t) && Holds(after, d, t);
      }
    }
  }

  /** When every lookup works nothing is misplaced. */
  lemma WorkingLookupsMisplaceNothing(cs: Clusters, call: Call)
    requires Honest(cs, call) && LookupsWork(cs, call)
    ensures !Misplaces(cs, call)
  {
    if Writes(call) {
      FirstClusterFound(call.lookup, SimilarIds(call));
    }
  }

  /** One failed lookup, of b alone, is enough to put b into two clusters. */
  lemma FailedLookupSplits(c: ClusterId, freshId: ClusterId, a: TicketId, b: TicketId, e: TicketId)
    requires c != freshId && a != b && a != e && b != e
    ensures var cs := map[c := [b, e]];
            var call := Call(a, Some([Match(b, 0.9)]), 0.85, t => if t == e then Some(c) else None, freshId, true);
            && Disjoint(cs) && Honest(cs, call)
            && (forall t, d :: t != b && Holds(cs, d, t) ==> call.lookup(t).Some?)
            && !Disjoint(Discover(cs, call).0)
  {
    var cs: Clusters := map[c := [b, e]];
    var call := Call(a, Some([Match(b, 0.9)]), 0.85, t => if t == e then Some(c) else None, freshId, true);
    assert Accepts(call)(Match(b, 0.9));
    assert Filter(Accepts(call), [Match(b, 0.9)]) == [Match(b, 0.9)];
    assert SimilarIds(call) == [b];
    FirstClusterFound(call.lookup, SimilarIds(call));
    assert Holds(cs, c, b);
    assert b in Placed(call).0;
    assert Misplaces(cs, call);
    DisjointIff(cs, call);
  }

  // ---- Runs ----

  ghost predicate Run(start: Clusters, calls: seq<Call>, end: Clusters)
    decreases |calls|
  {
    if calls == [] then end == start
    else
      exists mid :: Run(start, Earlier(calls), mid) && Stepped(mid, Latest(calls), end)
  }

  function Earlier(calls: seq<Call>): (r: seq<Call>)
    requires calls != []
    ensures |r| < |calls|
  {
    calls[..|calls| - 1]
  }

  function Latest(calls: seq<Call>): Call
    requires calls != []
  {
    calls[|calls| - 1]
  }

  ghost predicate Stepped(mid: Clusters, call: Call, end: Clusters) {
    Honest(mid, call) && LookupsWork(mid, call) && end == Discover(mid, call).0
  }

  /**
   Over any run with working lookups, failing writes included: clusters stay
   disjoint, none shrinks, vanishes or merges with another, and a ticket once
   placed stays in its one cluster.
   */
  lemma {:induction false} EveryRun(start: Clusters, calls: seq<Call>, end: Clusters)
    requires Disjoint(start) && Run(start, calls, end)
    ensures Disjoint(end) && Grown(start, end)
    ensures forall c, d, t :: Holds(start, c, t) && Holds(end, d, t) ==> c == d
  {
    if calls != [] {
      var call := Latest(calls);
      var mid :| Run(start, Earlier(calls), mid) && Stepped(mid, call, end);
      EveryRun(start, Earlier(calls), mid);
      WorkingLookupsMisplaceNothing(mid, call);
      DisjointIff(mid, call);
      DiscoverEffect(mid, call);
    }
    forall c, d, t | Holds(start, c, t) && Holds(end, d, t) ensures c == d {
      assert start[c] <= end[c];
      assert Holds(end, c, t);
    }
  }

  /** The answer is the cluster that alone now holds the ticket, or none does. */
  ghost predicate AnswerIsRight(cs: Clusters, call: Call) {
    var (after, id) := Discover(cs, call);
    forall c :: Holds(after, c, call.ticket) <==> id == Some(c)
  }

  /**
   With working lookups the answer is right exactly when the write works or none
   is needed: a call whose write is lost answers the id it failed to write to.
   */
  lemma AnswerIsRightIff(cs: Clusters, call: Call)
    requires Disjoint(cs) && Honest(cs, call) && LookupsWork(cs, call)
    ensures AnswerIsRight(cs, call) <==> (NeedsWrite(call) ==> call.writes)
  {
    DiscoverEffect(cs, call);
    WorkingLookupsMisplaceNothing(cs, call);
    DisjointIff(cs, call);
    var (after, id) := Discover(cs, call);
    if Writes(call) {
      var (ids, c) := Placed(call);
      assert call.ticket in ids;
      assert Holds(after, c, call.ticket);
    }
  }
}
