/**
 Concurrent discovery calls and the members of a cluster: a call that joins one
 patches the row it has fetched, so a patch can write over what another call
 put there in between.
 */
module ClusterGrowth {
  import opened Common
  import opened ClusterDiscovery
  import opened ClusterRace

  /** The patch comes after another call has written the row with members that this patch does not have. */
  ghost predicate Overwrites(w: World, s: Step) {
    && s.Patch? && s.saved && At(w, s.tid).Patching?
    && var p := At(w, s.tid);
       exists m :: p.fetched <= m < |w.log| && Overwritten(w.log[m], s.tid, p.cluster, p.claims)
  }

  predicate Overwritten(e: Placement, tid: Tid, c: ClusterId, claims: seq<Claim>) {
    e.tid != tid && e.cluster == c && !(e.ids <= Tickets(claims))
  }

  // ---- What runs keep that only grow ----

  /** The row is what the call fetched, or what another call has written since. */
  ghost predicate RowKnown(w: World, tid: Tid, c: ClusterId, claims: seq<Claim>, fetched: nat) {
    && c in w.clusters && claims != [] && fetched <= |w.log|
    && (w.clusters[c] == Tickets(claims[..|claims| - 1]) || WrittenSince(w, tid, c, fetched))
  }

  ghost predicate WrittenSince(w: World, tid: Tid, c: ClusterId, fetched: nat)
    requires c in w.clusters
  {
    exists m :: fetched <= m < |w.log| && w.log[m].tid != tid && w.log[m].cluster == c && w.log[m].ids == w.clusters[c]
  }

  ghost predicate RowsKnown(w: World) {
    forall tid :: tid in w.threads && w.threads[tid].Patching? ==>
      var p := w.threads[tid]; RowKnown(w, tid, p.cluster, p.claims, p.fetched)
  }

  /** Every list ever written is still the beginning of its row. */
  ghost predicate LogKept(w: World) {
    forall m :: 0 <= m < |w.log| ==>
      w.log[m].cluster in w.clusters && w.log[m].ids <= w.clusters[w.log[m].cluster]
  }

  /** While every written list is kept, a step keeps all members exactly when it does not overwrite. */
  lemma StepGrowsIff(w: World, s: Step)
    requires RowsKnown(w) && LogKept(w) && Possible(w, s)
    ensures Grown(w.clusters, Next(w, s).clusters) <==> !Overwrites(w, s)
  {
    if s.Patch? && s.saved && At(w, s.tid).Patching? {
      var p := At(w, s.tid);
      assert Next(w, s).clusters == w.clusters[p.cluster := Tickets(p.claims)];
    }
  }

  lemma OthersKnown(w: World, x: Write, tid: Tid, c: ClusterId, claims: seq<Claim>, fetched: nat)
    requires RowKnown(w, tid, c, claims, fetched) && x.tid != tid
    ensures RowKnown(Written(w, x), tid, c, claims, fetched)
  {
    var v := Written(w, x);
    if x.cluster == c {
      assert v.log[|w.log|].ids == v.clusters[c];
    } else if WrittenSince(w, tid, c, fetched) {
      var m :| fetched <= m < |w.log| && w.log[m].tid != tid && w.log[m].cluster == c && w.log[m].ids == w.clusters[c];
      assert v.log[m] == w.log[m];
    }
  }

  lemma StepKeepsRows(w: World, s: Step)
    requires RowsKnown(w)
    ensures RowsKnown(Next(w, s))
  {
    var v := Next(w, s);
    forall tid | tid in v.threads && v.threads[tid].Patching?
      ensures var p := v.threads[tid]; RowKnown(v, tid, p.cluster, p.claims, p.fetched)
    {
      var p := v.threads[tid];
      if Writing(w, s).Some? {
        OthersKnown(w, Writing(w, s).value, tid, p.cluster, p.claims, p.fetched);
      }
    }
  }

  // ---- Runs ----

  ghost predicate NeverOverwrites(start: Clusters, steps: seq<Step>) {
    forall i :: 0 <= i < |steps| ==> !Overwrites(Before(start, steps, i), steps[i])
  }

  lemma {:induction false} KeptUpTo(start: Clusters, steps: seq<Step>, n: nat)
    requires Legal(Quiet(start), steps) && n <= |steps|
    requires NeverOverwrites(start, steps) || OnlyGrows(start, steps)
    ensures RowsKnown(Before(start, steps, n)) && LogKept(Before(start, steps, n))
  {
    if n > 0 {
      var w, s := Before(start, steps, n - 1), steps[n - 1];
      KeptUpTo(start, steps, n - 1);
      LegalAt(Quiet(start), steps, n - 1);
      BeforeNext(start, steps, n - 1);
      StepKeepsRows(w, s);
      StepGrowsIff(w, s);
      assert OnlyGrows(start, steps) ==> Grown(w.clusters, Before(start, steps, (n - 1) + 1).clusters);
      assert Before(start, steps, n) == Next(w, s);
    } else {
      assert Before(start, steps, 0) == Quiet(start);
    }
  }

  /**
   Over a run of interleaved calls clusters only grow exactly when no patch comes
   after another call has written the row, since this call's fetch, with members
   that this patch does not have.
   */
  lemma OnlyGrowsIff(start: Clusters, steps: seq<Step>)
    requires Legal(Quiet(start), steps)
    ensures OnlyGrows(start, steps) <==> NeverOverwrites(start, steps)
  {
    if OnlyGrows(start, steps) {
      forall i | 0 <= i < |steps| ensures !Overwrites(Before(start, steps, i), steps[i]) {
        KeptUpTo(start, steps, i);
        LegalAt(Quiet(start), steps, i);
        BeforeNext(start, steps, i);
        StepGrowsIff(Before(start, steps, i), steps[i]);
        assert Grown(Before(start, steps, i).clusters, Before(start, steps, i + 1).clusters);
      }
    }
    if NeverOverwrites(start, steps) {
      forall i | 0 <= i < |steps|
        ensures Grown(Before(start, steps, i).clusters, Before(start, steps, i + 1).clusters)
      {
        KeptUpTo(start, steps, i);
        LegalAt(Quiet(start), steps, i);
        BeforeNext(start, steps, i);
        StepGrowsIff(Before(start, steps, i), steps[i]);
      }
    }
  }

  /** So with working lookups and no overwriting, clusters stay disjoint exactly when no call is overtaken. */
  lemma GrowingDisjointIff(start: Clusters, steps: seq<Step>)
    requires Disjoint(start) && Legal(Quiet(start), steps) && NeverOverwrites(start, steps)
    ensures StaysDisjoint(start, steps) <==> NeverOvertaken(start, steps)
  {
    OnlyGrowsIff(start, steps);
    DisjointIffNotOvertaken(start, steps);
  }

  // ---- A member lost ----

  lemma BothBegin(w: World, c: ClusterId, a: TicketId, b: TicketId, e: TicketId) returns (v: World)
    requires w == Quiet(map[c := [e]]) && a != e && b != e
    ensures Possible(w, Begin(1, a, [e], None)) && Possible(Next(w, Begin(1, a, [e], None)), Begin(2, b, [e], None))
    ensures v == Next(Next(w, Begin(1, a, [e], None)), Begin(2, b, [e], None))
    ensures v.clusters == map[c := [e]] && v.log == []
    ensures At(v, 1) == Searching([e], [Claim(a, 0)]) && At(v, 2) == Searching([e], [Claim(b, 0)])
  {
    v := Next(Next(w, Begin(1, a, [e], None)), Begin(2, b, [e], None));
  }

  lemma BothFind(w: World, c: ClusterId, a: TicketId, b: TicketId, e: TicketId) returns (v: World)
    requires w.clusters == map[c := [e]] && w.log == []
    requires At(w, 1) == Searching([e], [Claim(a, 0)]) && At(w, 2) == Searching([e], [Claim(b, 0)])
    ensures Possible(w, LookUp(1, Some(c))) && Possible(Next(w, LookUp(1, Some(c))), LookUp(2, Some(c)))
    ensures v == Next(Next(w, LookUp(1, Some(c))), LookUp(2, Some(c)))
    ensures v.clusters == map[c := [e]] && v.log == []
    ensures At(v, 1) == Joining(c, Claim(a, 0)) && At(v, 2) == Joining(c, Claim(b, 0))
  {
    assert Holds(w.clusters, c, e);
    v := Next(Next(w, LookUp(1, Some(c))), LookUp(2, Some(c)));
  }

  lemma BothFetch(w: World, c: ClusterId, a: TicketId, b: TicketId, e: TicketId) returns (v: World)
    requires w.clusters == map[c := [e]] && w.log == [] && a != e && b != e
    requires At(w, 1) == Joining(c, Claim(a, 0)) && At(w, 2) == Joining(c, Claim(b, 0))
    ensures v == Next(Next(w, Fetch(1)), Fetch(2)) && v.clusters == map[c := [e]]
    ensures At(v, 1) == Patching(c, Members([e], 0) + [Claim(a, 0)], 0)
    ensures At(v, 2) == Patching(c, Members([e], 0) + [Claim(b, 0)], 0)
  {
    v := Next(Next(w, Fetch(1)), Fetch(2));
  }

  lemma BothPatch(w: World, c: ClusterId, first: seq<Claim>, second: seq<Claim>) returns (v: World)
    requires At(w, 1) == Patching(c, first, 0) && At(w, 2) == Patching(c, second, 0) && w.clusters.Keys == {c}
    ensures v == Next(Next(w, Patch(1, true)), Patch(2, true))
    ensures v.clusters == map[c := Tickets(second)]
  {
    v := Next(Next(w, Patch(1, true)), Patch(2, true));
  }

  /** Two calls join one cluster at once: both patches are saved, and the second drops the first one's ticket. */
  lemma JoinLost(c: ClusterId, a: TicketId, b: TicketId, e: TicketId) returns (steps: seq<Step>)
    requires a != b && a != e && b != e
    ensures Legal(Quiet(map[c := [e]]), steps)
    ensures ClusterRace.Run(Quiet(map[c := [e]]), steps).clusters == map[c := [e, b]]
  {
    var start := Quiet(map[c := [e]]);
    var u := BothBegin(start, c, a, b, e);
    var v := BothFind(u, c, a, b, e);
    var w := BothFetch(v, c, a, b, e);
    var second := Members([e], 0) + [Claim(b, 0)];
    var end := BothPatch(w, c, Members([e], 0) + [Claim(a, 0)], second);
    assert Tickets(second) == [e, b];
    var patches, fetches := [Patch(1, true), Patch(2, true)], [Fetch(1), Fetch(2)];
    var finds := [LookUp(1, Some(c)), LookUp(2, Some(c))];
    TwoFirst(w, Patch(1, true), Patch(2, true), []);
    assert patches + [] == patches;
    TwoFirst(v, Fetch(1), Fetch(2), patches);
    TwoFirst(u, LookUp(1, Some(c)), LookUp(2, Some(c)), fetches + patches);
    TwoFirst(start, Begin(1, a, [e], None), Begin(2, b, [e], None), finds + (fetches + patches));
    steps := [Begin(1, a, [e], None), Begin(2, b, [e], None)] + (finds + (fetches + patches));
  }
}
