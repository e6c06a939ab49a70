/**
 How the stuck lists drain: what auto-fix cycles take out of them, how fast, and
 which tickets they never get to.
 */
module Draining {
  import opened Common
  import opened Tickets
  import opened StuckTickets

  ghost predicate UniqueIds(rows: seq<Ticket>) {
    forall i, j :: 0 <= i < j < |rows| ==> rows[i].id != rows[j].id
  }

  /** Filtering a changed table is filtering the old one, if only dropped rows changed. */
  lemma {:induction false} FilterPointwise(p: Ticket -> bool, q: Ticket -> bool, rows: seq<Ticket>, after: seq<Ticket>)
    requires |after| == |rows|
    requires forall i :: 0 <= i < |rows| ==> p(after[i]) == q(rows[i]) && (q(rows[i]) ==> after[i] == rows[i])
    ensures Filter(p, after) == Filter(q, rows)
  {
    if rows != [] {
      assert forall i :: 0 <= i < |rows| - 1 ==> rows[1..][i] == rows[i + 1] && after[1..][i] == after[i + 1];
      FilterPointwise(p, q, rows[1..], after[1..]);
    }
  }

  function NotReached(items: seq<Item>, works: Oracle): Ticket -> bool {
    (t: Ticket) => !Reached(items, works, t)
  }

  lemma EvidenceMeaning(rows: seq<Ticket>, s: Status, hours: real, t: Ticket)
    requires UniqueIds(rows) && t in rows && Mentions(Evidence(rows, s, hours), t.id)
    ensures t in Stuck(rows, s, hours)
  {
    var items, stuck := Evidence(rows, s, hours), Stuck(rows, s, hours);
    var i :| 0 <= i < |items| && items[i].id == t.id;
    var u := stuck[i];
    assert u in stuck;
    FilterMembers(IsStuck(s, hours), rows);
    assert u in rows && u.id == t.id;
  }

  /** Fixing one finding takes exactly the reached tickets out of its stuck list. */
  lemma FixRemovesReached(rows: seq<Ticket>, s: Status, hours: real, works: Oracle)
    requires UniqueIds(rows) && Active(s)
    ensures var items := Evidence(rows, s, hours);
            Stuck(AfterFix(rows, items, works), s, hours) == Filter(NotReached(items, works), Stuck(rows, s, hours))
  {
    var items, p := Evidence(rows, s, hours), IsStuck(s, hours);
    var after, q := AfterFix(rows, items, works), (t: Ticket) => NotReached(items, works)(t) && IsStuck(s, hours)(t);
    ApplyLength(rows, Sent(Fixable(works), ResetOf(), items));
    forall i | 0 <= i < |rows| ensures p(after[i]) == q(rows[i]) && (q(rows[i]) ==> after[i] == rows[i]) {
      FixEffect(rows, items, works, s, i);
    }
    FilterPointwise(p, q, rows, after);
    FilterTwice(NotReached(items, works), p, q, rows);
  }

  lemma {:induction false} ApplyLength(rows: seq<Ticket>, ps: seq<Patch>)
    ensures |Apply(rows, ps)| == |rows|
  {
    if ps != [] {
      ApplyLength(rows, ps[..|ps| - 1]);
    }
  }

  /** Fixing one finding leaves the other status's stuck list alone, and keeps ids. */
  lemma FixLeavesOther(rows: seq<Ticket>, s: Status, other: Status, hours: real, works: Oracle)
    requires UniqueIds(rows) && Active(s) && Active(other) && s != other
    ensures var after := AfterFix(rows, Evidence(rows, s, hours), works);
            Stuck(after, other, hours) == Stuck(rows, other, hours) && UniqueIds(after)
  {
    var items, p := Evidence(rows, s, hours), IsStuck(other, hours);
    var after := AfterFix(rows, items, works);
    ApplyLength(rows, Sent(Fixable(works), ResetOf(), items));
    forall i | 0 <= i < |rows|
      ensures after[i].id == rows[i].id
      ensures p(after[i]) == p(rows[i]) && (p(rows[i]) ==> after[i] == rows[i])
    {
      FixEffect(rows, items, works, s, i);
      if Mentions(items, rows[i].id) {
        EvidenceMeaning(rows, s, hours, rows[i]);
        FilterMembers(IsStuck(s, hours), rows);
      }
    }
    FilterPointwise(p, p, rows, after);
  }

  /** Some stuck tickets, per status, after one cycle: those the fix did not reach. */
  lemma CycleRemovesReached(rows: seq<Ticket>, s: Status, hours: real, works: Oracle)
    requires UniqueIds(rows) && Active(s)
    ensures UniqueIds(Cycle(rows, hours, works))
    ensures Stuck(Cycle(rows, hours, works), s, hours)
         == Filter(NotReached(Evidence(rows, s, hours), works), Stuck(rows, s, hours))
  {
    var middle := AfterFix(rows, Evidence(rows, Investigating, hours), works);
    FixLeavesOther(rows, Investigating, InDevelopment, hours, works);
    assert Evidence(middle, InDevelopment, hours) == Evidence(rows, InDevelopment, hours);
    FixLeavesOther(middle, InDevelopment, Investigating, hours, works);
    FixRemovesReached(rows, Investigating, hours, works);
    FixRemovesReached(middle, InDevelopment, hours, works);
  }

  lemma {:induction false} StuckIdsUnique(rows: seq<Ticket>, s: Status, hours: real)
    requires UniqueIds(rows)
    ensures UniqueIds(Stuck(rows, s, hours))
  {
    if rows != [] {
      StuckIdsUnique(rows[1..], s, hours);
      FilterMembers(IsStuck(s, hours), rows[1..]);
      var rest := Stuck(rows[1..], s, hours);
      forall j | 0 <= j < |rest| ensures rest[j].id != rows[0].id {
        assert rest[j] in rest;
        var k :| 0 <= k < |rows| - 1 && rows[1..][k] == rest[j];
        assert rows[k + 1] == rest[j];
      }
    }
  }

  function Blocked(works: Oracle): Ticket -> bool {
    (t: Ticket) => !Patchable(works, t)
  }

  ghost predicate AllPatchable(works: Oracle, ts: seq<Ticket>) {
    forall i :: 0 <= i < |ts| ==> Patchable(works, ts[i])
  }

  /** What is left of ts after its first n elements. */
  function Rest(ts: seq<Ticket>, n: nat): seq<Ticket> {
    if |ts| <= n then [] else ts[n..]
  }

  /** What a cycle leaves of a stuck list: the blocked ones of the first 20, and all the others. */
  function Sweep(ts: seq<Ticket>, works: Oracle): seq<Ticket> {
    Filter(Blocked(works), FirstOf(ts, EVIDENCE_LIMIT)) + Rest(ts, EVIDENCE_LIMIT)
  }

  lemma SweepIsFilter(stuck: seq<Ticket>, s: Status, works: Oracle)
    requires UniqueIds(stuck)
    ensures Filter(NotReached(Items(FirstOf(stuck, EVIDENCE_LIMIT), s), works), stuck) == Sweep(stuck, works)
  {
    var first, rest := FirstOf(stuck, EVIDENCE_LIMIT), Rest(stuck, EVIDENCE_LIMIT);
    var items := Items(first, s);
    var p := NotReached(items, works);
    assert stuck == first + rest;
    FilterConcat(p, first, rest);
    forall i | 0 <= i < |first| ensures p(first[i]) == Blocked(works)(first[i]) {
      assert items[i].id == first[i].id;
      assert Mentions(items, first[i].id);
    }
    FilterAgree(p, Blocked(works), first);
    forall i | 0 <= i < |rest| ensures p(rest[i]) {
      assert rest[i] == stuck[|first| + i];
      assert forall j :: 0 <= j < |items| ==> items[j].id == stuck[j].id;
    }
    FilterAll(p, rest);
  }

  /** A cycle sweeps the stuck list of each active status. */
  lemma CycleIsSweep(rows: seq<Ticket>, s: Status, hours: real, works: Oracle)
    requires UniqueIds(rows) && Active(s)
    ensures UniqueIds(Cycle(rows, hours, works))
    ensures Stuck(Cycle(rows, hours, works), s, hours) == Sweep(Stuck(rows, s, hours), works)
  {
    CycleRemovesReached(rows, s, hours, works);
    StuckIdsUnique(rows, s, hours);
    SweepIsFilter(Stuck(rows, s, hours), s, works);
  }

  lemma {:induction false} NothingBlocked(ts: seq<Ticket>, works: Oracle)
    requires AllPatchable(works, ts)
    ensures Filter(Blocked(works), ts) == []
  {
    if ts != [] {
      NothingBlocked(ts[1..], works);
    }
  }

  lemma SweepDropsFirst(ts: seq<Ticket>, works: Oracle)
    requires AllPatchable(works, ts)
    ensures Sweep(ts, works) == Rest(ts, EVIDENCE_LIMIT)
  {
    NothingBlocked(FirstOf(ts, EVIDENCE_LIMIT), works);
  }

  /** When every stuck ticket can be patched, a cycle takes out exactly the first 20. */
  lemma CycleDropsFirst(rows: seq<Ticket>, s: Status, hours: real, works: Oracle)
    requires UniqueIds(rows) && Active(s) && AllPatchable(works, Stuck(rows, s, hours))
    ensures Stuck(Cycle(rows, hours, works), s, hours) == Rest(Stuck(rows, s, hours), EVIDENCE_LIMIT)
    ensures UniqueIds(Cycle(rows, hours, works))
  {
    CycleIsSweep(rows, s, hours, works);
    SweepDropsFirst(Stuck(rows, s, hours), works);
  }

  // ---- Draining over many cycles ----

  function IdsOf(ts: seq<Ticket>): set<string> {
    set t | t in ts :: t.id
  }

  lemma {:induction false} UniqueIdsCount(ts: seq<Ticket>)
    requires UniqueIds(ts)
    ensures |IdsOf(ts)| == |ts|
  {
    if ts != [] {
      UniqueIdsCount(ts[1..]);
      assert ts == [ts[0]] + ts[1..];
      assert IdsOf(ts) == {ts[0].id} + IdsOf(ts[1..]);
    }
  }

  /** tables[k] is what cycle k finds; in between anything may happen except that a ticket becomes stuck in s. */
  ghost predicate Draining(tables: seq<seq<Ticket>>, s: Status, hours: real, works: Oracle) {
    && (forall k :: 0 <= k < |tables| ==> UniqueIds(tables[k]) && AllPatchable(works, Stuck(tables[k], s, hours)))
    && (forall k :: 0 <= k < |tables| - 1 ==>
          IdsOf(Stuck(tables[k + 1], s, hours)) <= IdsOf(Stuck(Cycle(tables[k], hours, works), s, hours)))
  }

  lemma SubsetCount(a: set<string>, b: set<string>)
    requires a <= b
    ensures |a| <= |b|
  {
    assert b == a + (b - a);
  }

  /** Progress: each cycle takes 20 off the stuck list, so n tickets are gone after ceil(n / 20) cycles. */
  lemma {:induction false} DrainBound(tables: seq<seq<Ticket>>, s: Status, hours: real, works: Oracle, k: nat)
    requires Active(s) && Draining(tables, s, hours, works) && k < |tables|
    ensures |Stuck(tables[k], s, hours)| <=
      var left := |Stuck(tables[0], s, hours)| - EVIDENCE_LIMIT * k; if left > 0 then left else 0
  {
    if k > 0 {
      DrainBound(tables, s, hours, works, k - 1);
      var before, now := tables[k - 1], Stuck(tables[k], s, hours);
      var after := Stuck(Cycle(before, hours, works), s, hours);
      CycleDropsFirst(before, s, hours, works);
      StuckIdsUnique(Cycle(before, hours, works), s, hours);
      StuckIdsUnique(tables[k], s, hours);
      UniqueIdsCount(after);
      UniqueIdsCount(now);
      assert IdsOf(Stuck(tables[(k - 1) + 1], s, hours)) <= IdsOf(after);
      SubsetCount(IdsOf(now), IdsOf(after));
    }
  }

  // ---- Patches that come and go: one oracle per cycle ----

  /** tables(k) is what cycle k finds, works(k) which of its patches succeed. */
  type Tables = nat -> seq<Ticket>
  type Oracles = nat -> Oracle

  /** Between cycle k and the next anything may happen except that a ticket becomes stuck in s. */
  ghost predicate UnfedAt(tables: Tables, s: Status, hours: real, works: Oracles, k: nat) {
    && UniqueIds(tables(k)) && UniqueIds(tables(k + 1))
    && IdsOf(Stuck(tables(k + 1), s, hours)) <= IdsOf(Stuck(Cycle(tables(k), hours, works(k)), s, hours))
  }

  ghost predicate Unfed(tables: Tables, s: Status, hours: real, works: Oracles) {
    forall k: nat :: UnfedAt(tables, s, hours, works, k)
  }

  /** Cycle k moves one of the first 20. */
  ghost predicate Moves(tables: Tables, s: Status, hours: real, works: Oracles, k: nat) {
    MovesOne(Stuck(tables(k), s, hours), works(k))
  }

  ghost predicate MovesOne(ts: seq<Ticket>, works: Oracle) {
    exists i :: 0 <= i < |ts| && i < EVIDENCE_LIMIT && Patchable(works, ts[i])
  }

  /** From cycle k on tickets are stuck, and no cycle ever moves one. */
  ghost predicate Jammed(tables: Tables, s: Status, hours: real, works: Oracles, k: nat) {
    Stuck(tables(k), s, hours) != [] && forall j: nat :: j >= k ==> !Moves(tables, s, hours, works, j)
  }

  lemma {:induction false} FilterLength(p: Ticket -> bool, ts: seq<Ticket>)
    ensures |Filter(p, ts)| <= |ts|
    ensures (exists i :: 0 <= i < |ts| && !p(ts[i])) ==> |Filter(p, ts)| < |ts|
  {
    if ts != [] {
      FilterLength(p, ts[1..]);
      if p(ts[0]) && exists i :: 0 <= i < |ts| && !p(ts[i]) {
        var i :| 0 <= i < |ts| && !p(ts[i]);
        assert !p(ts[1..][i - 1]);
      }
    }
  }

  lemma SweepLength(ts: seq<Ticket>, works: Oracle)
    ensures |Sweep(ts, works)| <= |ts|
    ensures MovesOne(ts, works) ==> |Sweep(ts, works)| < |ts|
    ensures !MovesOne(ts, works) ==> Sweep(ts, works) == ts
  {
    var p, first := Blocked(works), FirstOf(ts, EVIDENCE_LIMIT);
    assert ts == first + Rest(ts, EVIDENCE_LIMIT);
    FilterLength(p, first);
    if MovesOne(ts, works) {
      var i :| 0 <= i < |ts| && i < EVIDENCE_LIMIT && Patchable(works, ts[i]);
      assert !p(first[i]);
    } else {
      forall i | 0 <= i < |first| ensures p(first[i]) {
        assert first[i] == ts[i];
      }
      FilterAll(p, first);
    }
  }

  lemma NextStuckLength(tables: Tables, s: Status, hours: real, works: Oracles, k: nat)
    requires Active(s) && UnfedAt(tables, s, hours, works, k)
    ensures |Stuck(tables(k + 1), s, hours)| <= |Stuck(tables(k), s, hours)|
    ensures Moves(tables, s, hours, works, k) ==>
      |Stuck(tables(k + 1), s, hours)| < |Stuck(tables(k), s, hours)|
  {
    var after := Cycle(tables(k), hours, works(k));
    CycleIsSweep(tables(k), s, hours, works(k));
    SweepLength(Stuck(tables(k), s, hours), works(k));
    StuckIdsUnique(after, s, hours);
    StuckIdsUnique(tables(k + 1), s, hours);
    UniqueIdsCount(Stuck(after, s, hours));
    UniqueIdsCount(Stuck(tables(k + 1), s, hours));
    SubsetCount(IdsOf(Stuck(tables(k + 1), s, hours)), IdsOf(Stuck(after, s, hours)));
  }

  ghost predicate NoLonger(lists: nat -> seq<Ticket>, i: nat) {
    |lists(i + 1)| <= |lists(i)|
  }

  lemma {:induction false} LengthsFall(lists: nat -> seq<Ticket>, k: nat, j: nat)
    requires k <= j && forall i: nat :: NoLonger(lists, i)
    ensures |lists(j)| <= |lists(k)|
    decreases j
  {
    if k < j {
      LengthsFall(lists, k, j - 1);
      assert NoLonger(lists, j - 1);
    }
  }

  lemma StuckLengthFalls(tables: Tables, s: Status, hours: real, works: Oracles, k: nat, j: nat)
    requires Active(s) && Unfed(tables, s, hours, works) && k <= j
    ensures |Stuck(tables(j), s, hours)| <= |Stuck(tables(k), s, hours)|
  {
    var lists := (i: nat) => Stuck(tables(i), s, hours);
    forall i: nat ensures NoLonger(lists, i) {
      assert UnfedAt(tables, s, hours, works, i);
      NextStuckLength(tables, s, hours, works, i);
    }
    LengthsFall(lists, k, j);
  }

  /** If cycles never jam, the list empties, whatever else takes tickets off it in between. */
  lemma {:induction false} EmptiesUnlessJammed(tables: Tables, s: Status, hours: real, works: Oracles, k: nat)
    returns (end: nat)
    requires Active(s) && Unfed(tables, s, hours, works)
    requires forall m: nat :: !Jammed(tables, s, hours, works, m)
    ensures Stuck(tables(end), s, hours) == []
    decreases |Stuck(tables(k), s, hours)|
  {
    end := k;
    if Stuck(tables(k), s, hours) != [] {
      assert !Jammed(tables, s, hours, works, k);
      var j: nat :| j >= k && Moves(tables, s, hours, works, j);
      StuckLengthFalls(tables, s, hours, works, k, j);
      assert UnfedAt(tables, s, hours, works, j);
      NextStuckLength(tables, s, hours, works, j);
      end := EmptiesUnlessJammed(tables, s, hours, works, j + 1);
    }
  }

  /** Nothing but cycles happens between table k and the next. */
  ghost predicate LeftAloneAt(tables: Tables, hours: real, works: Oracles, k: nat) {
    UniqueIds(tables(k)) && tables(k + 1) == Cycle(tables(k), hours, works(k))
  }

  ghost predicate LeftAlone(tables: Tables, hours: real, works: Oracles) {
    forall k: nat :: LeftAloneAt(tables, hours, works, k)
  }

  lemma NextStuck(tables: Tables, s: Status, hours: real, works: Oracles, k: nat)
    requires Active(s) && LeftAloneAt(tables, hours, works, k)
    ensures UnfedAt(tables, s, hours, works, k)
    ensures !Moves(tables, s, hours, works, k) ==> Stuck(tables(k + 1), s, hours) == Stuck(tables(k), s, hours)
  {
    CycleIsSweep(tables(k), s, hours, works(k));
    SweepLength(Stuck(tables(k), s, hours), works(k));
  }

  ghost predicate SameNext(lists: nat -> seq<Ticket>, i: nat) {
    lists(i + 1) == lists(i)
  }

  lemma {:induction false} ConstantFrom(lists: nat -> seq<Ticket>, k: nat, j: nat)
    requires k <= j && forall i: nat :: i >= k ==> SameNext(lists, i)
    ensures lists(j) == lists(k)
    decreases j
  {
    if k < j {
      ConstantFrom(lists, k, j - 1);
      assert SameNext(lists, j - 1);
    }
  }

  lemma JammedStays(tables: Tables, s: Status, hours: real, works: Oracles, k: nat, j: nat)
    requires Active(s) && LeftAlone(tables, hours, works) && Jammed(tables, s, hours, works, k) && k <= j
    ensures Stuck(tables(j), s, hours) == Stuck(tables(k), s, hours)
  {
    var lists := (i: nat) => Stuck(tables(i), s, hours);
    forall i: nat | i >= k ensures SameNext(lists, i) {
      assert LeftAloneAt(tables, hours, works, i) && !Moves(tables, s, hours, works, i);
      NextStuck(tables, s, hours, works, i);
    }
    ConstantFrom(lists, k, j);
  }

  /**
   Left alone, with patches that may succeed in one cycle and fail in another,
   the list empties exactly when it never jams: when no cycle is reached from
   which on none of its first 20 can ever be patched.
   */
  lemma DrainsIffNeverJammed(tables: Tables, s: Status, hours: real, works: Oracles)
    requires Active(s) && LeftAlone(tables, hours, works)
    ensures (exists k: nat :: Stuck(tables(k), s, hours) == []) <==>
      forall k: nat :: !Jammed(tables, s, hours, works, k)
  {
    forall k: nat ensures UnfedAt(tables, s, hours, works, k) {
      assert LeftAloneAt(tables, hours, works, k);
      NextStuck(tables, s, hours, works, k);
    }
    if forall k: nat :: !Jammed(tables, s, hours, works, k) {
      var end := EmptiesUnlessJammed(tables, s, hours, works, 0);
    } else {
      var k: nat :| Jammed(tables, s, hours, works, k);
      forall j: nat ensures Stuck(tables(j), s, hours) != [] {
        if k <= j {
          JammedStays(tables, s, hours, works, k, j);
        } else {
          StuckLengthFalls(tables, s, hours, works, j, k);
        }
      }
    }
  }

  // ---- Patches that always work or always fail ----

  function OneCycle(hours: real, works: Oracle): seq<Ticket> -> seq<Ticket> {
    (rows: seq<Ticket>) => Cycle(rows, hours, works)
  }

  function Repeat(step: seq<Ticket> -> seq<Ticket>, rows: seq<Ticket>, k: nat): seq<Ticket>
    decreases k
  {
    if k == 0 then rows else Repeat(step, step(rows), k - 1)
  }

  /** The table after k cycles with nothing in between. */
  function Cycles(rows: seq<Ticket>, hours: real, works: Oracle, k: nat): seq<Ticket> {
    Repeat(OneCycle(hours, works), rows, k)
  }

  function Sweeps(ts: seq<Ticket>, works: Oracle, k: nat): seq<Ticket>
    decreases k
  {
    if k == 0 then ts else Sweeps(Sweep(ts, works), works, k - 1)
  }

  ghost predicate SweepsEach(step: seq<Ticket> -> seq<Ticket>, stuckOf: seq<Ticket> -> seq<Ticket>, works: Oracle) {
    forall r {:trigger step(r)} :: UniqueIds(r) ==>
      UniqueIds(step(r)) && stuckOf(step(r)) == Sweep(stuckOf(r), works)
  }

  lemma {:induction false} RepeatSweeps(
    step: seq<Ticket> -> seq<Ticket>, stuckOf: seq<Ticket> -> seq<Ticket>, works: Oracle, rows: seq<Ticket>, k: nat)
    requires SweepsEach(step, stuckOf, works) && UniqueIds(rows)
    ensures stuckOf(Repeat(step, rows, k)) == Sweeps(stuckOf(rows), works, k)
    decreases k
  {
    if k > 0 {
      RepeatSweeps(step, stuckOf, works, step(rows), k - 1);
    }
  }

  lemma CyclesSweep(rows: seq<Ticket>, s: Status, hours: real, works: Oracle, k: nat)
    requires UniqueIds(rows) && Active(s)
    ensures Stuck(Cycles(rows, hours, works, k), s, hours) == Sweeps(Stuck(rows, s, hours), works, k)
  {
    var step, stuckOf := OneCycle(hours, works), (r: seq<Ticket>) => Stuck(r, s, hours);
    forall r | UniqueIds(r) ensures UniqueIds(step(r)) && stuckOf(step(r)) == Sweep(stuckOf(r), works) {
      CycleIsSweep(r, s, hours, works);
    }
    RepeatSweeps(step, stuckOf, works, rows, k);
  }

  lemma {:induction false} SweepsEmpty(ts: seq<Ticket>, works: Oracle, k: nat)
    requires AllPatchable(works, ts) && |ts| <= EVIDENCE_LIMIT * k
    ensures Sweeps(ts, works, k) == []
    decreases k
  {
    if k > 0 {
      SweepDropsFirst(ts, works);
      SweepsEmpty(Rest(ts, EVIDENCE_LIMIT), works, k - 1);
    }
  }

  lemma SweepMembers(ts: seq<Ticket>, works: Oracle)
    ensures forall t :: t in Sweep(ts, works) ==> t in ts
    ensures forall t :: t in ts && !Patchable(works, t) ==> t in Sweep(ts, works)
  {
    var first, rest := FirstOf(ts, EVIDENCE_LIMIT), Rest(ts, EVIDENCE_LIMIT);
    assert ts == first + rest;
    FilterMembers(Blocked(works), first);
  }

  lemma {:induction false} BlockedStays(ts: seq<Ticket>, works: Oracle, t: Ticket, k: nat)
    requires t in ts && !Patchable(works, t)
    ensures t in Sweeps(ts, works, k)
    decreases k
  {
    if k > 0 {
      SweepMembers(ts, works);
      BlockedStays(Sweep(ts, works), works, t, k - 1);
    }
  }

  /** Left alone, the stuck list empties exactly when every stuck ticket has an id and a working patch. */
  lemma DrainsIff(rows: seq<Ticket>, s: Status, hours: real, works: Oracle)
    requires UniqueIds(rows) && Active(s)
    ensures (exists k: nat :: Stuck(Cycles(rows, hours, works, k), s, hours) == []) <==>
      AllPatchable(works, Stuck(rows, s, hours))
  {
    var stuck := Stuck(rows, s, hours);
    if AllPatchable(works, stuck) {
      SweepsEmpty(stuck, works, |stuck|);
      CyclesSweep(rows, s, hours, works, |stuck|);
    } else {
      var i :| 0 <= i < |stuck| && !Patchable(works, stuck[i]);
      forall k: nat ensures Stuck(Cycles(rows, hours, works, k), s, hours) != [] {
        BlockedStays(stuck, works, stuck[i], k);
        CyclesSweep(rows, s, hours, works, k);
      }
    }
  }

  // ---- Starvation: which single tickets leave ----

  /** How many tickets of ts no patch can move. */
  function BlockedIn(ts: seq<Ticket>, works: Oracle): nat {
    |Filter(Blocked(works), ts)|
  }

  lemma SweepKeepsBlocked(ts: seq<Ticket>, works: Oracle)
    ensures Filter(Blocked(works), Sweep(ts, works)) == Filter(Blocked(works), ts)
  {
    var p, first, rest := Blocked(works), FirstOf(ts, EVIDENCE_LIMIT), Rest(ts, EVIDENCE_LIMIT);
    assert ts == first + rest;
    FilterConcat(p, first, rest);
    FilterConcat(p, Filter(p, first), rest);
    FilterTwice(p, p, p, first);
  }

  /** A ticket beyond the first 20 only sees those before it swept. */
  lemma SweepBefore(pre: seq<Ticket>, t: Ticket, post: seq<Ticket>, works: Oracle)
    requires |pre| >= EVIDENCE_LIMIT
    ensures Sweep(pre + [t] + post, works) == Sweep(pre, works) + [t] + post
  {
    var ts := pre + [t] + post;
    assert FirstOf(ts, EVIDENCE_LIMIT) == FirstOf(pre, EVIDENCE_LIMIT);
    assert Rest(ts, EVIDENCE_LIMIT) == Rest(pre, EVIDENCE_LIMIT) + [t] + post;
  }

  lemma SweepShrinks(pre: seq<Ticket>, works: Oracle)
    requires |pre| >= EVIDENCE_LIMIT && BlockedIn(pre, works) < EVIDENCE_LIMIT
    ensures |Sweep(pre, works)| < |pre|
  {
    var first, rest := FirstOf(pre, EVIDENCE_LIMIT), Rest(pre, EVIDENCE_LIMIT);
    assert pre == first + rest;
    FilterConcat(Blocked(works), first, rest);
  }

  /** Behind 20 blocked tickets no ticket ever moves up far enough. */
  lemma {:induction false} StaysBehind(pre: seq<Ticket>, t: Ticket, post: seq<Ticket>, works: Oracle, k: nat)
    requires BlockedIn(pre, works) >= EVIDENCE_LIMIT
    ensures t in Sweeps(pre + [t] + post, works, k)
    decreases k
  {
    if k > 0 {
      FilterMembers(Blocked(works), pre);
      SweepBefore(pre, t, post, works);
      SweepKeepsBlocked(pre, works);
      StaysBehind(Sweep(pre, works), t, post, works, k - 1);
    }
  }

  lemma SweepTakes(pre: seq<Ticket>, t: Ticket, post: seq<Ticket>, works: Oracle)
    requires |pre| < EVIDENCE_LIMIT && Patchable(works, t) && t !in post
    ensures t !in Sweep(pre + [t] + post, works)
  {
    var ts := pre + [t] + post;
    FilterMembers(Blocked(works), FirstOf(ts, EVIDENCE_LIMIT));
    forall i | 0 <= i < |Rest(ts, EVIDENCE_LIMIT)| ensures Rest(ts, EVIDENCE_LIMIT)[i] != t {
      assert Rest(ts, EVIDENCE_LIMIT)[i] == ts[EVIDENCE_LIMIT + i] == post[EVIDENCE_LIMIT + i - |pre| - 1];
    }
  }

  /** Behind fewer than 20 blocked tickets it moves up until it is taken. */
  lemma {:induction false} Leaves(pre: seq<Ticket>, t: Ticket, post: seq<Ticket>, works: Oracle) returns (k: nat)
    requires BlockedIn(pre, works) < EVIDENCE_LIMIT && Patchable(works, t)
    requires t !in pre && t !in post
    ensures t !in Sweeps(pre + [t] + post, works, k)
    decreases |pre|
  {
    if |pre| < EVIDENCE_LIMIT {
      SweepTakes(pre, t, post, works);
      k := 1;
    } else {
      SweepShrinks(pre, works);
      SweepKeepsBlocked(pre, works);
      SweepMembers(pre, works);
      SweepBefore(pre, t, post, works);
      var m := Leaves(Sweep(pre, works), t, post, works);
      k := m + 1;
    }
  }

  /**
   Left alone, a stuck ticket leaves exactly when it can be patched and fewer
   than 20 tickets that cannot stand before it in the list.
   */
  lemma TicketLeavesIff(rows: seq<Ticket>, s: Status, hours: real, works: Oracle, i: nat)
    requires UniqueIds(rows) && Active(s) && i < |Stuck(rows, s, hours)|
    ensures var stuck := Stuck(rows, s, hours);
            (exists k: nat :: stuck[i] !in Stuck(Cycles(rows, hours, works, k), s, hours)) <==>
              Patchable(works, stuck[i]) && BlockedIn(stuck[..i], works) < EVIDENCE_LIMIT
  {
    var stuck := Stuck(rows, s, hours);
    var pre, t, post := stuck[..i], stuck[i], stuck[i + 1..];
    assert stuck == pre + [t] + post;
    StuckIdsUnique(rows, s, hours);
    if Patchable(works, t) && BlockedIn(pre, works) < EVIDENCE_LIMIT {
      var k := Leaves(pre, t, post, works);
      CyclesSweep(rows, s, hours, works, k);
    } else {
      forall k: nat ensures t in Stuck(Cycles(rows, hours, works, k), s, hours) {
        CyclesSweep(rows, s, hours, works, k);
        if Patchable(works, t) {
          StaysBehind(pre, t, post, works, k);
        } else {
          BlockedStays(stuck, works, t, k);
        }
      }
    }
  }
}
