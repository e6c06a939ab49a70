/**
 Concurrent discovery calls: lookups and writes of any number of calls
 interleave. A call decides by what it looked up and writes later, and joining a
 cluster is a fetch of its row followed by a patch with the longer list. Lookups
 work here; what can go wrong is that a call is overtaken.
 */
module ClusterRace {
  import opened Common
  import opened ClusterDiscovery

  type Tid = nat

  /** A finished write: the members the row now has. */
  datatype Placement = Placement(tid: Tid, cluster: ClusterId, ids: seq<TicketId>)

  /** A ticket a call is going to write, and how many writes there had been when the call looked at it. */
  datatype Claim = Claim(ticket: TicketId, seen: nat)

  /**
   Searching: the calling ticket and the similar ones checked so far, all in no
   cluster. Joining: a similar ticket is in the cluster. Patching: its row has
   been fetched.
   */
  datatype Phase =
    | Idle
    | Searching(similar: seq<TicketId>, claims: seq<Claim>)
    | Joining(cluster: ClusterId, claim: Claim)
    | Patching(cluster: ClusterId, claims: seq<Claim>, fetched: nat)

  datatype World = World(clusters: Clusters, log: seq<Placement>, threads: map<Tid, Phase>)

  datatype Step =
    | Begin(tid: Tid, ticket: TicketId, similar: seq<TicketId>, answer: Option<ClusterId>)
    | LookUp(tid: Tid, answer: Option<ClusterId>)
    | Create(tid: Tid, freshId: ClusterId, saved: bool)
    | Fetch(tid: Tid)
    | Patch(tid: Tid, saved: bool)

  datatype Write = Write(tid: Tid, cluster: ClusterId, claims: seq<Claim>)

  function At(w: World, tid: Tid): Phase {
    if tid in w.threads then w.threads[tid] else Idle
  }

  function Tickets(claims: seq<Claim>): (ids: seq<TicketId>)
    ensures |ids| == |claims| && forall i :: 0 <= i < |claims| ==> ids[i] == claims[i].ticket
  {
    seq(|claims|, i requires 0 <= i < |claims| => claims[i].ticket)
  }

  function Members(ids: seq<TicketId>, seen: nat): (claims: seq<Claim>)
    ensures |claims| == |ids| && forall i :: 0 <= i < |ids| ==> claims[i] == Claim(ids[i], seen)
  {
    seq(|ids|, i requires 0 <= i < |ids| => Claim(ids[i], seen))
  }

  /** The write a step makes, if it makes one. */
  function Writing(w: World, s: Step): Option<Write> {
    match (s, At(w, s.tid))
    case (Create(tid, freshId, saved), Searching(similar, claims)) =>
      if saved && |claims| == |similar| + 1 then Some(Write(tid, freshId, claims)) else None
    case (Patch(tid, saved), Patching(c, claims, _)) => if saved then Some(Write(tid, c, claims)) else None
    case _ => None
  }

  /** The phase its thread reaches. */
  function Moved(w: World, s: Step): Phase {
    var n := |w.log|;
    match (s, At(w, s.tid))
    case (Begin(_, ticket, similar, answer), Idle) =>
      if answer.Some? || similar == [] then Idle else Searching(similar, [Claim(ticket, n)])
    case (LookUp(_, answer), Searching(similar, claims)) =>
      if claims == [] || |claims| > |similar| then At(w, s.tid)
      else if answer.Some? then Joining(answer.value, claims[0])
      else Searching(similar, claims + [Claim(similar[|claims| - 1], n)])
    case (Create(_, _, _), Searching(similar, claims)) =>
      if |claims| == |similar| + 1 then Idle else At(w, s.tid)
    case (Fetch(_), Joining(c, claim)) =>
      if c !in w.clusters || claim.ticket in w.clusters[c] then Idle
      else Patching(c, Members(w.clusters[c], n) + [claim], n)
    case (Patch(_, _), Patching(_, _, _)) => Idle
    case _ => At(w, s.tid)
  }

  function Written(w: World, x: Write): World {
    w.(clusters := w.clusters[x.cluster := Tickets(x.claims)],
       log := w.log + [Placement(x.tid, x.cluster, Tickets(x.claims))])
  }

  function Next(w: World, s: Step): World {
    var v := if Writing(w, s).Some? then Written(w, Writing(w, s).value) else w;
    v.(threads := w.threads[s.tid := Moved(w, s)])
  }

  /** A lookup answers a cluster that holds the ticket, if there is one. */
  ghost predicate Truthful(cs: Clusters, t: TicketId, answer: Option<ClusterId>) {
    match answer
    case Some(c) => Holds(cs, c, t)
    case None => forall c :: !Holds(cs, c, t)
  }

  ghost predicate Possible(w: World, s: Step) {
    match s
    case Begin(_, ticket, _, answer) => Truthful(w.clusters, ticket, answer)
    case LookUp(tid, answer) =>
      var p := At(w, tid);
      p.Searching? && 0 < |p.claims| <= |p.similar| ==> Truthful(w.clusters, p.similar[|p.claims| - 1], answer)
    case Create(_, freshId, _) => freshId !in w.clusters
    case _ => true
  }

  // ---- When a single step breaks something ----

  /** The step writes a ticket that some other cluster holds. */
  ghost predicate Collides(w: World, s: Step) {
    Writing(w, s).Some? &&
    var x := Writing(w, s).value;
    exists i, d :: 0 <= i < |x.claims| && d != x.cluster && Holds(w.clusters, d, x.claims[i].ticket)
  }

  lemma WrittenHolds(w: World, x: Write)
    ensures forall d, t :: Holds(Written(w, x).clusters, d, t) <==>
      if d == x.cluster then t in Tickets(x.claims) else Holds(w.clusters, d, t)
  {
  }

  /** From disjoint clusters a step keeps them disjoint exactly when it does not collide. */
  lemma StepDisjointIff(w: World, s: Step)
    requires Disjoint(w.clusters)
    ensures Disjoint(Next(w, s).clusters) <==> !Collides(w, s)
  {
    if Writing(w, s).Some? {
      var x := Writing(w, s).value;
      WrittenHolds(w, x);
      if Collides(w, s) {
        var i, d :| 0 <= i < |x.claims| && d != x.cluster && Holds(w.clusters, d, x.claims[i].ticket);
        assert Tickets(x.claims)[i] == x.claims[i].ticket;
        assert Holds(Next(w, s).clusters, x.cluster, x.claims[i].ticket);
        assert Holds(Next(w, s).clusters, d, x.claims[i].ticket);
      } else {
        forall t, d | t in Tickets(x.claims) && Holds(w.clusters, d, t) ensures d == x.cluster {
          var i :| 0 <= i < |x.claims| && Tickets(x.claims)[i] == t;
          assert x.claims[i].ticket == t;
        }
      }
    }
  }

  // ---- What every run of undisturbed clusters keeps ----

  /** Since the claim's lookup another call has written its ticket to cluster d. */
  ghost predicate Since(log: seq<Placement>, tid: Tid, claim: Claim, d: ClusterId) {
    exists m :: claim.seen <= m < |log| && log[m].tid != tid && log[m].cluster == d && claim.ticket in log[m].ids
  }

  /** A claimed ticket that sits in a cluster other than the target was put there since. */
  ghost predicate Tracked(w: World, tid: Tid, claim: Claim, target: Option<ClusterId>) {
    && claim.seen <= |w.log|
    && forall d :: Holds(w.clusters, d, claim.ticket) && Some(d) != target ==> Since(w.log, tid, claim, d)
  }

  ghost predicate AllTracked(w: World, tid: Tid, claims: seq<Claim>, target: Option<ClusterId>) {
    forall i :: 0 <= i < |claims| ==> Tracked(w, tid, claims[i], target)
  }

  ghost predicate PhaseOk(w: World, tid: Tid, p: Phase) {
    match p
    case Idle => true
    case Searching(similar, claims) => claims != [] && AllTracked(w, tid, claims, None)
    case Joining(c, claim) => Tracked(w, tid, claim, None)
    case Patching(c, claims, fetched) =>
      AllTracked(w, tid, claims, Some(c))
  }

  ghost predicate Inv(w: World) {
    forall tid :: tid in w.threads ==> PhaseOk(w, tid, w.threads[tid])
  }

  lemma TrackedStays(w: World, x: Write, tid: Tid, claim: Claim, target: Option<ClusterId>)
    requires Tracked(w, tid, claim, target) && x.tid != tid
    ensures Tracked(Written(w, x), tid, claim, target)
  {
    var v := Written(w, x);
    forall d | Holds(v.clusters, d, claim.ticket) && Some(d) != target ensures Since(v.log, tid, claim, d) {
      if d == x.cluster {
        assert v.log[|w.log|].cluster == d;
      } else {
        assert Holds(w.clusters, d, claim.ticket);
        var m :| claim.seen <= m < |w.log|
          && w.log[m].tid != tid && w.log[m].cluster == d && claim.ticket in w.log[m].ids;
        assert v.log[m] == w.log[m];
      }
    }
  }

  lemma OthersStayOk(w: World, x: Write, tid: Tid, p: Phase)
    requires PhaseOk(w, tid, p) && x.tid != tid
    ensures PhaseOk(Written(w, x), tid, p)
  {
    var v := Written(w, x);
    match p
    case Idle =>
    case Joining(c, claim) => TrackedStays(w, x, tid, claim, None);
    case Searching(similar, claims) =>
      forall i | 0 <= i < |claims| ensures Tracked(v, tid, claims[i], None) {
        TrackedStays(w, x, tid, claims[i], None);
      }
    case Patching(c, claims, fetched) =>
      forall i | 0 <= i < |claims| ensures Tracked(v, tid, claims[i], Some(c)) {
        TrackedStays(w, x, tid, claims[i], Some(c));
      }
  }

  lemma NextKeepsInv(w: World, s: Step)
    requires Inv(w) && Disjoint(w.clusters) && Possible(w, s)
    ensures Inv(Next(w, s))
  {
    var v := Next(w, s);
    if Writing(w, s).Some? {
      var x := Writing(w, s).value;
      forall tid | tid in v.threads ensures PhaseOk(v, tid, v.threads[tid]) {
        if tid != s.tid {
          OthersStayOk(w, x, tid, w.threads[tid]);
        }
      }
    }
  }

  /** The write comes after another call put one of its tickets somewhere else. */
  ghost predicate Overtaken(w: World, s: Step) {
    Writing(w, s).Some? &&
    var x := Writing(w, s).value;
    exists i, d :: 0 <= i < |x.claims| && d != x.cluster && Since(w.log, x.tid, x.claims[i], d)
  }

  /** A collision can only come from being overtaken. */
  lemma CollisionIsOvertaking(w: World, s: Step)
    requires Inv(w) && Collides(w, s)
    ensures Overtaken(w, s)
  {
    var x := Writing(w, s).value;
    assert PhaseOk(w, s.tid, At(w, s.tid));
    var i, d :| 0 <= i < |x.claims| && d != x.cluster && Holds(w.clusters, d, x.claims[i].ticket);
    assert Since(w.log, x.tid, x.claims[i], d);
  }

  // ---- Runs ----

  function Run(w: World, steps: seq<Step>): World
    decreases |steps|
  {
    if steps == [] then w else Run(Next(w, steps[0]), steps[1..])
  }

  lemma {:induction false} RunSnoc(w: World, steps: seq<Step>, s: Step)
    ensures Run(w, steps + [s]) == Next(Run(w, steps), s)
    decreases |steps|
  {
    if steps != [] {
      assert (steps + [s])[1..] == steps[1..] + [s];
      RunSnoc(Next(w, steps[0]), steps[1..], s);
    }
  }

  /** Disjoint or not, the clusters as they are found, with no call under way. */
  function Quiet(start: Clusters): World {
    World(start, [], map[])
  }

  function Before(start: Clusters, steps: seq<Step>, i: nat): World
    requires i <= |steps|
  {
    Run(Quiet(start), steps[..i])
  }

  lemma BeforeNext(start: Clusters, steps: seq<Step>, i: nat)
    requires i < |steps|
    ensures Before(start, steps, i + 1) == Next(Before(start, steps, i), steps[i])
  {
    assert steps[..i + 1] == steps[..i] + [steps[i]];
    RunSnoc(Quiet(start), steps[..i], steps[i]);
  }

  /** Lookups work and new ids are new, whenever their step comes. */
  ghost predicate Legal(w: World, steps: seq<Step>)
    decreases |steps|
  {
    steps != [] ==> Possible(w, steps[0]) && Legal(Next(w, steps[0]), steps[1..])
  }

  lemma {:induction false} LegalAt(w: World, steps: seq<Step>, i: nat)
    requires Legal(w, steps) && i < |steps|
    ensures Possible(Run(w, steps[..i]), steps[i])
    decreases i
  {
    if i > 0 {
      LegalAt(Next(w, steps[0]), steps[1..], i - 1);
      assert steps[..i][1..] == steps[1..][..i - 1];
    }
  }

  ghost predicate StaysDisjoint(start: Clusters, steps: seq<Step>) {
    forall i :: 0 <= i <= |steps| ==> Disjoint(Before(start, steps, i).clusters)
  }

  ghost predicate NeverCollides(start: Clusters, steps: seq<Step>) {
    forall i :: 0 <= i < |steps| ==> !Collides(Before(start, steps, i), steps[i])
  }

  ghost predicate NeverOvertaken(start: Clusters, steps: seq<Step>) {
    forall i :: 0 <= i < |steps| ==> !Overtaken(Before(start, steps, i), steps[i])
  }

  /** From step to step every cluster keeps its members. */
  ghost predicate OnlyGrows(start: Clusters, steps: seq<Step>) {
    forall i :: 0 <= i < |steps| ==> Grown(Before(start, steps, i).clusters, Before(start, steps, i + 1).clusters)
  }

  lemma {:induction false} DisjointUpTo(start: Clusters, steps: seq<Step>, n: nat)
    requires Disjoint(start) && n <= |steps| && NeverCollides(start, steps)
    ensures Disjoint(Before(start, steps, n).clusters)
  {
    if n > 0 {
      DisjointUpTo(start, steps, n - 1);
      BeforeNext(start, steps, n - 1);
      StepDisjointIff(Before(start, steps, n - 1), steps[n - 1]);
    }
  }

  /** A run stays disjoint exactly when no write collides with what is there. */
  lemma StaysDisjointIff(start: Clusters, steps: seq<Step>)
    requires Disjoint(start)
    ensures StaysDisjoint(start, steps) <==> NeverCollides(start, steps)
  {
    if NeverCollides(start, steps) {
      forall i | 0 <= i <= |steps| ensures Disjoint(Before(start, steps, i).clusters) {
        DisjointUpTo(start, steps, i);
      }
    }
    if StaysDisjoint(start, steps) {
      forall i | 0 <= i < |steps| ensures !Collides(Before(start, steps, i), steps[i]) {
        BeforeNext(start, steps, i);
        assert Disjoint(Before(start, steps, i + 1).clusters);
        StepDisjointIff(Before(start, steps, i), steps[i]);
      }
    }
  }

  /** As long as clusters are disjoint the invariant holds; without overtaking they stay so. */
  lemma {:induction false} NotOvertakenUpTo(start: Clusters, steps: seq<Step>, n: nat)
    requires Disjoint(start) && Legal(Quiet(start), steps) && n <= |steps|
    requires NeverOvertaken(start, steps) || StaysDisjoint(start, steps)
    ensures Inv(Before(start, steps, n)) && Disjoint(Before(start, steps, n).clusters)
  {
    if n > 0 {
      NotOvertakenUpTo(start, steps, n - 1);
      var w, s := Before(start, steps, n - 1), steps[n - 1];
      BeforeNext(start, steps, n - 1);
      LegalAt(Quiet(start), steps, n - 1);
      NextKeepsInv(w, s);
      StepDisjointIff(w, s);
      if Collides(w, s) {
        CollisionIsOvertaking(w, s);
      }
    }
  }

  /** Everything ever written is still where it was written. */
  ghost predicate LogHolds(w: World) {
    forall m, t :: 0 <= m < |w.log| && t in w.log[m].ids ==> Holds(w.clusters, w.log[m].cluster, t)
  }

  lemma {:induction false} LogHoldsUpTo(start: Clusters, steps: seq<Step>, n: nat)
    requires OnlyGrows(start, steps) && n <= |steps|
    ensures LogHolds(Before(start, steps, n))
  {
    if n > 0 {
      LogHoldsUpTo(start, steps, n - 1);
      BeforeNext(start, steps, n - 1);
      assert Grown(Before(start, steps, n - 1).clusters, Before(start, steps, (n - 1) + 1).clusters);
    }
  }

  /**
   Calls with working lookups keep disjoint clusters disjoint if none is
   overtaken between a lookup and its write, and only then as long as clusters
   only grow.
   */
  lemma DisjointIffNotOvertaken(start: Clusters, steps: seq<Step>)
    requires Disjoint(start) && Legal(Quiet(start), steps)
    ensures NeverOvertaken(start, steps) ==> StaysDisjoint(start, steps)
    ensures OnlyGrows(start, steps) ==> (StaysDisjoint(start, steps) <==> NeverOvertaken(start, steps))
  {
    if NeverOvertaken(start, steps) {
      forall i | 0 <= i <= |steps| ensures Disjoint(Before(start, steps, i).clusters) {
        NotOvertakenUpTo(start, steps, i);
      }
    }
    if OnlyGrows(start, steps) && StaysDisjoint(start, steps) {
      StaysDisjointIff(start, steps);
      forall i | 0 <= i < |steps| ensures !Overtaken(Before(start, steps, i), steps[i]) {
        LogHoldsUpTo(start, steps, i);
      }
    }
  }

  // ---- One call on its own ----

  lemma OneFirst(w: World, s: Step, later: seq<Step>)
    requires Possible(w, s) && Legal(Next(w, s), later)
    ensures Legal(w, [s] + later) && Run(w, [s] + later) == Run(Next(w, s), later)
  {
    assert ([s] + later)[1..] == later;
  }

  lemma JoinAlone(w: World, tid: Tid, c: ClusterId, claim: Claim, saved: bool) returns (steps: seq<Step>)
    requires At(w, tid) == Joining(c, claim)
    ensures Legal(w, steps)
    ensures Run(w, steps).clusters == AddTicket(w.clusters, c, claim.ticket, saved)
  {
    var v := Next(w, Fetch(tid));
    steps := [Fetch(tid), Patch(tid, saved)];
    OneFirst(v, Patch(tid, saved), []);
    OneFirst(w, Fetch(tid), [Patch(tid, saved)]);
    assert steps == [Fetch(tid)] + [Patch(tid, saved)];
    if c in w.clusters && claim.ticket !in w.clusters[c] {
      var claims := Members(w.clusters[c], |w.log|) + [claim];
      assert Tickets(claims) == w.clusters[c] + [claim.ticket];
    }
  }

  /** What the search leads to from the similar tickets not yet checked. */
  function Found(cs: Clusters, call: Call, similar: seq<TicketId>, rest: seq<TicketId>): Clusters {
    match FirstCluster(call.lookup, rest)
    case Some(c) => AddTicket(cs, c, call.ticket, call.writes)
    case None => if call.writes then cs[call.freshId := [call.ticket] + similar] else cs
  }

  lemma {:induction false} SearchAlone(w: World, tid: Tid, call: Call, similar: seq<TicketId>, claims: seq<Claim>)
    returns (steps: seq<Step>)
    requires Honest(w.clusters, call) && LookupsWork(w.clusters, call)
    requires At(w, tid) == Searching(similar, claims) && 0 < |claims| <= |similar| + 1
    requires Tickets(claims) == [call.ticket] + similar[..|claims| - 1]
    ensures Legal(w, steps)
    ensures Run(w, steps).clusters == Found(w.clusters, call, similar, similar[|claims| - 1..])
    decreases |similar| + 1 - |claims|
  {
    var k := |claims| - 1;
    if k == |similar| {
      var s := Create(tid, call.freshId, call.writes);
      OneFirst(w, s, []);
      assert similar[..k] == similar && [s] == [s] + [];
      steps := [s];
    } else {
      var answer := call.lookup(similar[k]);
      var s := LookUp(tid, answer);
      var v := Next(w, s);
      assert v.clusters == w.clusters;
      assert claims[0].ticket == Tickets(claims)[0] == call.ticket;
      var later;
      if answer.Some? {
        later := JoinAlone(v, tid, answer.value, claims[0], call.writes);
      } else {
        var claims' := claims + [Claim(similar[k], |w.log|)];
        assert Tickets(claims') == Tickets(claims) + [similar[k]];
        assert similar[..k + 1] == similar[..k] + [similar[k]];
        later := SearchAlone(v, tid, call, similar, claims');
        assert similar[k..][1..] == similar[k + 1..];
      }
      OneFirst(w, s, later);
      steps := [s] + later;
    }
  }

  /** A call that nothing interleaves with does what the atomic call does. */
  lemma AloneIsDiscover(w: World, tid: Tid, call: Call) returns (steps: seq<Step>)
    requires At(w, tid).Idle? && Honest(w.clusters, call) && LookupsWork(w.clusters, call) && call.matches.Some?
    ensures Legal(w, steps)
    ensures Run(w, steps).clusters == Discover(w.clusters, call).0
  {
    var similar, answer := SimilarIds(call), call.lookup(call.ticket);
    var s := Begin(tid, call.ticket, similar, answer);
    var v := Next(w, s);
    assert v.clusters == w.clusters;
    var later := [];
    if answer.None? && similar != [] {
      var claims := [Claim(call.ticket, |w.log|)];
      assert Tickets(claims) == [call.ticket] + similar[..0];
      later := SearchAlone(v, tid, call, similar, claims);
      assert similar[0..] == similar;
    }
    OneFirst(w, s, later);
    steps := [s] + later;
  }

  // ---- The race itself ----

  const NOTHING: World := Quiet(map[])

  lemma BothBegin(a: TicketId, b: TicketId) returns (w: World)
    requires a != b
    ensures Possible(NOTHING, Begin(1, a, [b], None))
    ensures Possible(Next(NOTHING, Begin(1, a, [b], None)), Begin(2, b, [a], None))
    ensures w == Next(Next(NOTHING, Begin(1, a, [b], None)), Begin(2, b, [a], None))
    ensures w.clusters == map[] && w.log == []
    ensures At(w, 1) == Searching([b], [Claim(a, 0)]) && At(w, 2) == Searching([a], [Claim(b, 0)])
  {
    w := Next(Next(NOTHING, Begin(1, a, [b], None)), Begin(2, b, [a], None));
  }

  lemma BothLookUp(w: World, a: TicketId, b: TicketId) returns (v: World)
    requires w.clusters == map[] && w.log == []
    requires At(w, 1) == Searching([b], [Claim(a, 0)]) && At(w, 2) == Searching([a], [Claim(b, 0)])
    ensures Possible(w, LookUp(1, None)) && Possible(Next(w, LookUp(1, None)), LookUp(2, None))
    ensures v == Next(Next(w, LookUp(1, None)), LookUp(2, None))
    ensures v.clusters == map[]
    ensures At(v, 1) == Searching([b], [Claim(a, 0), Claim(b, 0)])
    ensures At(v, 2) == Searching([a], [Claim(b, 0), Claim(a, 0)])
  {
    v := Next(Next(w, LookUp(1, None)), LookUp(2, None));
  }

  lemma BothWrite(w: World, a: TicketId, b: TicketId, c: ClusterId, d: ClusterId) returns (v: World)
    requires w.clusters == map[] && c != d
    requires At(w, 1) == Searching([b], [Claim(a, 0), Claim(b, 0)])
    requires At(w, 2) == Searching([a], [Claim(b, 0), Claim(a, 0)])
    ensures Possible(w, Create(1, c, true)) && Possible(Next(w, Create(1, c, true)), Create(2, d, true))
    ensures v == Next(Next(w, Create(1, c, true)), Create(2, d, true))
    ensures v.clusters == map[c := [a, b], d := [b, a]]
  {
    assert Tickets([Claim(a, 0), Claim(b, 0)]) == [a, b] && Tickets([Claim(b, 0), Claim(a, 0)]) == [b, a];
    v := Next(Next(w, Create(1, c, true)), Create(2, d, true));
  }

  lemma TwoFirst(w: World, s: Step, t: Step, later: seq<Step>)
    requires Possible(w, s) && Possible(Next(w, s), t) && Legal(Next(Next(w, s), t), later)
    ensures Legal(w, [s, t] + later) && Run(w, [s, t] + later) == Run(Next(Next(w, s), t), later)
  {
    OneFirst(Next(w, s), t, later);
    OneFirst(w, s, [t] + later);
    assert [s] + ([t] + later) == [s, t] + later;
  }

  /** Two similar tickets discovered at once: each call finds the other free, and both create a cluster. */
  lemma BothCreate(a: TicketId, b: TicketId, c: ClusterId, d: ClusterId) returns (steps: seq<Step>)
    requires a != b && c != d
    ensures Legal(NOTHING, steps)
    ensures Run(NOTHING, steps).clusters == map[c := [a, b], d := [b, a]]
    ensures !Disjoint(Run(NOTHING, steps).clusters)
  {
    var u := BothBegin(a, b);
    var v := BothLookUp(u, a, b);
    var w := BothWrite(v, a, b, c, d);
    TwoFirst(v, Create(1, c, true), Create(2, d, true), []);
    var last := [Create(1, c, true), Create(2, d, true)];
    assert last + [] == last;
    TwoFirst(u, LookUp(1, None), LookUp(2, None), last);
    TwoFirst(NOTHING, Begin(1, a, [b], None), Begin(2, b, [a], None), [LookUp(1, None), LookUp(2, None)] + last);
    steps := [Begin(1, a, [b], None), Begin(2, b, [a], None)] + ([LookUp(1, None), LookUp(2, None)] + last);
    assert Holds(w.clusters, c, a) && Holds(w.clusters, d, a);
  }
}
