/**
 Batch resolution: when a ticket is resolved, similar siblings of its cluster
 are resolved with it, in cluster order and up to a cap.
 */
module BatchResolution {
  import opened Common
  import opened Tickets

  const MIN_REPORT: nat := 200

  /** severe: HIGH or CRITICAL; attempts: how many fix attempts are recorded. */
  datatype Ticket = Ticket(
    status: Status,
    report: nat,
    severe: bool,
    attempts: nat,
    resolvedBy: Option<string>)

  /**
   What the outside world answers while one sibling is handled: whether one of
   the calls raises, the ids the similarity search returns above the floor, and
   the cosine of the two embeddings if both exist.
   */
  datatype Probe = Probe(raises: bool, matches: set<string>, cosine: Option<real>)

  /** bypass: whether the note written on siblings happens to name a bypass reason. */
  datatype Request = Request(
    ticket: string,
    cluster: seq<string>,
    embedded: bool,
    probes: seq<Probe>,
    threshold: real,
    cap: int,
    bypass: bool)

  predicate Finished(s: Status) {
    s == Resolved || s == Closed || s == Acknowledged
  }

  predicate AuditPasses(t: Ticket, bypass: bool) {
    bypass || (t.report >= MIN_REPORT && (t.severe ==> t.attempts > 0))
  }

  predicate Similar(p: Probe, id: string, threshold: real) {
    id in p.matches || (p.cosine.Some? && p.cosine.value >= threshold)
  }

  /** The k-th cluster member can be resolved with the ticket, as the store stands. */
  predicate Eligible(store: map<string, Ticket>, r: Request, k: nat)
    requires k < |r.cluster| <= |r.probes|
  {
    var id, p := r.cluster[k], r.probes[k];
    && id != r.ticket
    && !p.raises
    && id in store
    && !Finished(store[id].status)
    && Similar(p, id, r.threshold)
    && AuditPasses(store[id], r.bypass)
  }

  function Resolving(t: Ticket, fixer: string): Ticket {
    t.(status := Resolved, resolvedBy := Some(fixer))
  }

  /** The eligible members among the first n, each once, in cluster order. */
  function EligibleIds(store: map<string, Ticket>, r: Request, n: nat): seq<string>
    requires n <= |r.cluster| <= |r.probes|
  {
    if n == 0 then []
    else
      var ids := EligibleIds(store, r, n - 1);
      if Eligible(store, r, n - 1) && r.cluster[n - 1] !in ids then ids + [r.cluster[n - 1]] else ids
  }

  /** Eligible in the source's terms: the checks of the loop body, one by one. */
  lemma EligibleMeaning(store: map<string, Ticket>, r: Request, k: nat)
    requires k < |r.cluster| <= |r.probes|
    ensures var id, p := r.cluster[k], r.probes[k];
            Eligible(store, r, k) <==>
              (id != r.ticket && !p.raises && id in store &&
               var t := store[id];
               && t.status != Resolved && t.status != Closed && t.status != Acknowledged
               && (id in p.matches || (p.cosine.Some? && p.cosine.value >= r.threshold))
               && (r.bypass || (t.report >= 200 && (t.severe ==> t.attempts > 0))))
  {
  }

  /** Its members are the eligible ids, none twice. */
  lemma {:induction false} EligibleIdsMeaning(store: map<string, Ticket>, r: Request, n: nat)
    requires n <= |r.cluster| <= |r.probes|
    ensures Distinct(EligibleIds(store, r, n))
    ensures forall id :: id in EligibleIds(store, r, n) ==> id in store && id != r.ticket && !Finished(store[id].status)
    ensures forall k :: 0 <= k < n && Eligible(store, r, k) ==> r.cluster[k] in EligibleIds(store, r, n)
    ensures forall id :: id in EligibleIds(store, r, n) ==>
      exists k :: 0 <= k < n && r.cluster[k] == id && Eligible(store, r, k)
  {
    if n > 0 {
      EligibleIdsMeaning(store, r, n - 1);
    }
  }

  function Take<T>(s: seq<T>, cap: int): seq<T> {
    if cap <= 0 then [] else if cap >= |s| then s else s[..cap]
  }

  /** The store with exactly the given tickets resolved. */
  function ResolveAll(store: map<string, Ticket>, ids: seq<string>, fixer: string): map<string, Ticket> {
    map id | id in store :: if id in ids then Resolving(store[id], fixer) else store[id]
  }

  /** What the specification answers: the first `cap` eligible siblings. */
  function AutoResolved(store: map<string, Ticket>, r: Request): seq<string>
    requires |r.cluster| <= |r.probes|
  {
    if |r.cluster| <= 1 || !r.embedded then [] else Take(EligibleIds(store, r, |r.cluster|), r.cap)
  }

  predicate AllSiblingsIn(r: Request, ids: seq<string>) {
    forall k :: 0 <= k < |r.cluster| ==> r.cluster[k] in ids || r.cluster[k] == r.ticket
  }

  lemma {:induction false} EligiblePrefix(store: map<string, Ticket>, r: Request, m: nat, n: nat)
    requires m <= n <= |r.cluster| <= |r.probes|
    ensures EligibleIds(store, r, m) <= EligibleIds(store, r, n)
  {
    if m < n {
      EligiblePrefix(store, r, m, n - 1);
    }
  }

  lemma TakeAtCap(store: map<string, Ticket>, r: Request, k: nat, n: nat)
    requires k <= n <= |r.cluster| <= |r.probes|
    requires |Take(EligibleIds(store, r, k), r.cap)| >= r.cap
    ensures Take(EligibleIds(store, r, n), r.cap) == Take(EligibleIds(store, r, k), r.cap)
  {
    EligiblePrefix(store, r, k, n);
  }

  class Resolver {
    var tickets: map<string, Ticket>
    var clusterResolved: bool

    /** Tries the k-th cluster member; any exception or doubt leaves the store alone. */
    method TrySibling(r: Request, k: nat) returns (done: bool)
      requires k < |r.cluster| <= |r.probes| && r.cluster[k] != r.ticket
      modifies this`tickets
      ensures done == Eligible(old(tickets), r, k)
      ensures var id, p := r.cluster[k], r.probes[k];
              done <==>
                (!p.raises && id in old(tickets) &&
                 var t := old(tickets)[id];
                 && t.status != Resolved && t.status != Closed && t.status != Acknowledged
                 && (id in p.matches || (p.cosine.Some? && p.cosine.value >= r.threshold))
                 && (r.bypass || (t.report >= 200 && (t.severe ==> t.attempts > 0))))
      ensures done ==> tickets == old(tickets)[r.cluster[k] := Resolving(old(tickets)[r.cluster[k]], r.ticket)]
      ensures done ==>
        tickets[r.cluster[k]] == old(tickets)[r.cluster[k]].(status := Resolved, resolvedBy := Some(r.ticket))
      ensures !done ==> tickets == old(tickets)
    {
      var id, p := r.cluster[k], r.probes[k];
      done := false;
      if p.raises || id !in tickets || Finished(tickets[id].status) {
        return;
      }
      if !Similar(p, id, r.threshold) || !AuditPasses(tickets[id], r.bypass) {
        return;
      }
      tickets := tickets[id := Resolving(tickets[id], r.ticket)];
      done := true;
    }

    /** The ids resolved along; the cluster is flagged when no other sibling remains. */
    method OnTicketResolved(r: Request, flagSaved: bool) returns (resolved: seq<string>)
      requires |r.cluster| <= |r.probes|
      modifies this
      ensures resolved == AutoResolved(old(tickets), r)
      ensures tickets == ResolveAll(old(tickets), resolved, r.ticket)
      ensures clusterResolved == (old(clusterResolved) || (flagSaved && resolved != [] && AllSiblingsIn(r, resolved)))
    {
      resolved := [];
      if |r.cluster| <= 1 || !r.embedded {
        return;
      }
      resolved := ResolveSiblings(r);
      if resolved != [] && AllSiblingsIn(r, resolved) && flagSaved {
        clusterResolved := true;
      }
    }

    method ResolveSiblings(r: Request) returns (resolved: seq<string>)
      requires |r.cluster| <= |r.probes|
      modifies this`tickets
      ensures resolved == Take(EligibleIds(old(tickets), r, |r.cluster|), r.cap)
      ensures tickets == ResolveAll(old(tickets), resolved, r.ticket)
    {
      resolved := [];
      ghost var start := tickets;
      for k := 0 to |r.cluster|
        invariant resolved == Take(EligibleIds(start, r, k), r.cap)
        invariant |resolved| < r.cap ==> resolved == EligibleIds(start, r, k)
        invariant tickets == ResolveAll(start, resolved, r.ticket)
      {
        var id := r.cluster[k];
        if id != r.ticket {
          if |resolved| >= r.cap {
            TakeAtCap(start, r, k, |r.cluster|);
            return;
          }
          var done := TrySibling(r, k);
          if done {
            resolved := resolved + [id];
          }
        }
      }
    }
  }

  /**
   Which tickets end up changed: exactly the first cap eligible siblings, each
   once; everything else, finished siblings included, is untouched.
   */
  lemma OnlyEligibleChange(store: map<string, Ticket>, r: Request, id: string)
    requires |r.cluster| <= |r.probes| && id in store
    ensures var ids := AutoResolved(store, r);
            var after := ResolveAll(store, ids, r.ticket);
            && Distinct(ids)
            && |ids| <= (if r.cap < 0 then 0 else r.cap)
            && (id in ids <==> after[id] != store[id] && after[id].status == Resolved && store[id].status != Resolved)
            && (Finished(store[id].status) || id == r.ticket ==> after[id] == store[id])
  {
    var ids, all := AutoResolved(store, r), EligibleIds(store, r, |r.cluster|);
    EligibleIdsMeaning(store, r, |r.cluster|);
    assert ids <= all;
    assert id in ids ==> id in all;
  }

  lemma AroundEligible(store: map<string, Ticket>, r: Request, k: nat) returns (head: seq<string>, longer: seq<string>)
    requires k < |r.cluster| <= |r.probes| && Eligible(store, r, k)
    ensures head == EligibleIds(store, r, k)
    ensures head <= EligibleIds(store, r, |r.cluster|) && longer <= EligibleIds(store, r, |r.cluster|)
    ensures r.cluster[k] in longer && |longer| <= |head| + 1
  {
    head, longer := EligibleIds(store, r, k), EligibleIds(store, r, k + 1);
    EligiblePrefix(store, r, k, |r.cluster|);
    EligiblePrefix(store, r, k + 1, |r.cluster|);
  }

  /** An eligible sibling is left open only because the cap was used up on earlier ones. */
  lemma LeftOpenMeansCapped(store: map<string, Ticket>, r: Request, k: nat)
    requires k < |r.cluster| <= |r.probes| && |r.cluster| > 1 && r.embedded
    requires Eligible(store, r, k) && r.cluster[k] !in AutoResolved(store, r)
    ensures |AutoResolved(store, r)| == if r.cap < 0 then 0 else r.cap
    ensures AutoResolved(store, r) <= EligibleIds(store, r, k)
  {
    var head, longer := AroundEligible(store, r, k);
  }

  /** Every sibling is resolved now and none was before. */
  ghost predicate AllNewlyResolved(store: map<string, Ticket>, after: map<string, Ticket>, r: Request) {
    forall k :: 0 <= k < |r.cluster| && r.cluster[k] != r.ticket ==>
      var id := r.cluster[k];
      id in store && id in after && after[id].status == Resolved && store[id].status != Resolved
  }

  /**
   When the flag is raised: exactly when the call resolved every sibling itself.
   A sibling resolved earlier keeps the cluster open although all are resolved.
   */
  lemma FlagIff(store: map<string, Ticket>, r: Request)
    requires |r.cluster| <= |r.probes|
    ensures var ids := AutoResolved(store, r);
            AllSiblingsIn(r, ids) <==> AllNewlyResolved(store, ResolveAll(store, ids, r.ticket), r)
  {
    var ids := AutoResolved(store, r);
    EligibleIdsMeaning(store, r, |r.cluster|);
    assert ids <= EligibleIds(store, r, |r.cluster|) || ids == [];
    forall k | 0 <= k < |r.cluster| && r.cluster[k] in ids ensures r.cluster[k] in store {
      assert r.cluster[k] in EligibleIds(store, r, |r.cluster|);
    }
    if AllNewlyResolved(store, ResolveAll(store, ids, r.ticket), r) {
      forall k | 0 <= k < |r.cluster| && r.cluster[k] != r.ticket ensures r.cluster[k] in ids {
        OnlyEligibleChange(store, r, r.cluster[k]);
      }
    }
    if AllSiblingsIn(r, ids) {
      forall k | 0 <= k < |r.cluster| && r.cluster[k] != r.ticket
        ensures r.cluster[k] in store && store[r.cluster[k]].status != Resolved
      {
        OnlyEligibleChange(store, r, r.cluster[k]);
      }
    }
  }

  /** Member k is the ticket itself, or its id is eligible at some position. */
  ghost predicate Resolvable(store: map<string, Ticket>, r: Request, k: nat)
    requires k < |r.cluster| <= |r.probes|
  {
    || r.cluster[k] == r.ticket
    || exists j :: 0 <= j < |r.cluster| && r.cluster[j] == r.cluster[k] && Eligible(store, r, j)
  }

  ghost function EligibleSet(store: map<string, Ticket>, r: Request): set<string>
    requires |r.cluster| <= |r.probes|
  {
    set k | 0 <= k < |r.cluster| && Eligible(store, r, k) :: r.cluster[k]
  }

  lemma EligibleCount(store: map<string, Ticket>, r: Request)
    requires |r.cluster| <= |r.probes|
    ensures |EligibleIds(store, r, |r.cluster|)| == |EligibleSet(store, r)|
    ensures forall id :: id in EligibleIds(store, r, |r.cluster|) <==> id in EligibleSet(store, r)
  {
    var ids := EligibleIds(store, r, |r.cluster|);
    EligibleIdsMeaning(store, r, |r.cluster|);
    DistinctCardinality(ids);
    assert (set id | id in ids) == EligibleSet(store, r);
  }

  /**
   The same condition before the call: every sibling is eligible at one of its
   positions, and the cap has room for all of them.
   */
  lemma FlagForetold(store: map<string, Ticket>, r: Request)
    requires |r.cluster| <= |r.probes|
    ensures AutoResolved(store, r) != [] && AllSiblingsIn(r, AutoResolved(store, r)) <==>
      && |r.cluster| > 1 && r.embedded
      && (forall k :: 0 <= k < |r.cluster| ==> Resolvable(store, r, k))
      && 1 <= |EligibleSet(store, r)| <= r.cap
  {
    var n := |r.cluster|;
    var ids, all := AutoResolved(store, r), EligibleIds(store, r, n);
    EligibleIdsMeaning(store, r, n);
    EligibleCount(store, r);
    if n > 1 && r.embedded {
      assert ids <= all && (|all| <= r.cap ==> ids == all);
      if 0 < r.cap < |all| {
        CutLeavesOneOut(all, r);
      }
      if ids != [] && AllSiblingsIn(r, ids) {
        forall k | 0 <= k < n ensures Resolvable(store, r, k) {
          assert r.cluster[k] in ids ==> r.cluster[k] in all;
        }
      }
      if |all| <= r.cap && forall k :: 0 <= k < n ==> Resolvable(store, r, k) {
        forall k | 0 <= k < n ensures r.cluster[k] in all || r.cluster[k] == r.ticket {
          assert Resolvable(store, r, k);
        }
      }
    }
  }

  /** A cap below their number leaves some eligible sibling out. */
  lemma CutLeavesOneOut(all: seq<string>, r: Request)
    requires Distinct(all) && 0 < r.cap < |all|
    requires forall id :: id in all ==> id in r.cluster && id != r.ticket
    ensures !AllSiblingsIn(r, Take(all, r.cap))
  {
    var x := all[r.cap];
    assert x in r.cluster;
    var k :| 0 <= k < |r.cluster| && r.cluster[k] == x;
    forall j | 0 <= j < r.cap ensures Take(all, r.cap)[j] != x {
    }
  }

  /** All members resolved, yet the cluster stays open: one sibling had been resolved before. */
  lemma EarlierResolvedKeepsClusterOpen()
    ensures var t := Ticket(Open, 200, false, 0, None);
            var store := map["a" := t.(status := Resolved), "b" := t, "c" := t.(status := Resolved)];
            var p := Probe(false, {}, Some(1.0));
            var r := Request("a", ["a", "b", "c"], true, [p, p, p], 0.9, 10, false);
            var after := ResolveAll(store, AutoResolved(store, r), "a");
            && AutoResolved(store, r) == ["b"]
            && (forall id :: id in after ==> after[id].status == Resolved)
            && !AllSiblingsIn(r, AutoResolved(store, r))
  {
    var t := Ticket(Open, 200, false, 0, None);
    var store := map["a" := t.(status := Resolved), "b" := t, "c" := t.(status := Resolved)];
    var p := Probe(false, {}, Some(1.0));
    var r := Request("a", ["a", "b", "c"], true, [p, p, p], 0.9, 10, false);
    assert !Eligible(store, r, 0) && Eligible(store, r, 1) && !Eligible(store, r, 2);
    assert EligibleIds(store, r, 1) == [];
    assert EligibleIds(store, r, 2) == ["b"];
    assert EligibleIds(store, r, 3) == ["b"];
    assert r.cluster[2] == "c";
  }
}
