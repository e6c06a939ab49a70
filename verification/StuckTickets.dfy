/**
 The orchestrator's corrective actions on tickets: detecting stuck tickets,
 resetting them, and the other two actions that patch a ticket's status.
 Rows stand in order of creation, newest first, as the detection query returns
 them; whether a patch request succeeds is given by an oracle on the ticket id.
 */
module StuckTickets {
  import opened Common
  import opened StableSort
  import opened Tickets

  const EVIDENCE_LIMIT: nat := 20
  const EXHAUSTED_LIMIT: nat := 50
  const MAX_ATTEMPTS: int := 3

  /** age: hours since the last update, None when no timestamp can be read. */
  datatype Ticket = Ticket(id: string, status: Status, age: Option<real>, attempts: int, feature: bool)

  datatype Item = Item(id: string, status: Status)

  type Oracle = string -> bool

  predicate Active(s: Status) {
    s == Investigating || s == InDevelopment
  }

  /** Stuck in status s: in it for longer than the threshold. */
  function IsStuck(s: Status, hours: real): Ticket -> bool {
    (t: Ticket) => t.status == s && t.age.Some? && t.age.value > hours
  }

  function Stuck(rows: seq<Ticket>, s: Status, hours: real): seq<Ticket> {
    Filter(IsStuck(s, hours), rows)
  }

  /** The rule: in the status, with a readable age above the threshold. */
  lemma StuckMeaning(rows: seq<Ticket>, s: Status, hours: real, t: Ticket)
    ensures t in Stuck(rows, s, hours) <==> t in rows && t.status == s && t.age.Some? && t.age.value > hours
  {
    FilterMembers(IsStuck(s, hours), rows);
  }

  function FirstOf<T>(s: seq<T>, n: nat): seq<T> {
    if |s| <= n then s else s[..n]
  }

  /** The evidence of a stuck finding: the first tickets stuck in s. */
  function Evidence(rows: seq<Ticket>, s: Status, hours: real): seq<Item> {
    Items(FirstOf(Stuck(rows, s, hours), EVIDENCE_LIMIT), s)
  }

  function Items(ts: seq<Ticket>, s: Status): (items: seq<Item>)
    ensures |items| == |ts|
    ensures forall i :: 0 <= i < |ts| ==> items[i] == Item(ts[i].id, s)
  {
    seq(|ts|, i requires 0 <= i < |ts| => Item(ts[i].id, s))
  }

  /** Some row of the id is in the status, with a readable age above the threshold. */
  ghost predicate NamesStuck(rows: seq<Ticket>, s: Status, hours: real, id: string) {
    exists t :: t in rows && t.id == id && t.status == s && t.age.Some? && t.age.value > hours
  }

  /** Evidence names stuck tickets only, and all of them if they are fewer than its limit. */
  lemma EvidenceMembers(rows: seq<Ticket>, s: Status, hours: real)
    ensures forall k :: 0 <= k < |Evidence(rows, s, hours)| ==>
      NamesStuck(rows, s, hours, Evidence(rows, s, hours)[k].id)
    ensures |Evidence(rows, s, hours)| < 20 ==>
      forall t :: t in rows && t.status == s && t.age.Some? && t.age.value > hours ==>
        Item(t.id, s) in Evidence(rows, s, hours)
  {
    var items := Evidence(rows, s, hours);
    forall k | 0 <= k < |items| ensures NamesStuck(rows, s, hours, items[k].id) {
      var t := EvidenceSound(rows, s, hours, k);
    }
    if |items| < 20 {
      forall t | t in rows && t.status == s && t.age.Some? && t.age.value > hours
        ensures Item(t.id, s) in Evidence(rows, s, hours)
      {
        EvidenceComplete(rows, s, hours, t);
      }
    }
  }

  lemma EvidenceSound(rows: seq<Ticket>, s: Status, hours: real, k: nat) returns (t: Ticket)
    requires k < |Evidence(rows, s, hours)|
    ensures t in rows && t.id == Evidence(rows, s, hours)[k].id
    ensures t.status == s && t.age.Some? && t.age.value > hours
  {
    t := Stuck(rows, s, hours)[k];
    assert t in Stuck(rows, s, hours);
    StuckMeaning(rows, s, hours, t);
  }

  lemma EvidenceComplete(rows: seq<Ticket>, s: Status, hours: real, t: Ticket)
    requires |Evidence(rows, s, hours)| < 20
    requires t in rows && t.status == s && t.age.Some? && t.age.value > hours
    ensures Item(t.id, s) in Evidence(rows, s, hours)
  {
    var stuck, items := Stuck(rows, s, hours), Evidence(rows, s, hours);
    StuckMeaning(rows, s, hours, t);
    var k :| 0 <= k < |stuck| && stuck[k] == t;
    assert items[k] == Item(t.id, s);
  }

  /** A request that sets the status, and the attempts if given, of the rows with an id. */
  datatype Patch = Patch(id: string, status: Status, attempts: Option<int>)

  function PatchedRow(t: Ticket, p: Patch): Ticket {
    if t.id == p.id then t.(status := p.status, attempts := p.attempts.GetOr(t.attempts)) else t
  }

  function Patched(rows: seq<Ticket>, p: Patch): (after: seq<Ticket>)
    ensures |after| == |rows|
    ensures forall i :: 0 <= i < |rows| ==> after[i] == PatchedRow(rows[i], p)
  {
    seq(|rows|, i requires 0 <= i < |rows| => PatchedRow(rows[i], p))
  }

  /** The table after some patches, in order. */
  function Apply(rows: seq<Ticket>, ps: seq<Patch>): seq<Ticket> {
    if ps == [] then rows else Patched(Apply(rows, ps[..|ps| - 1]), ps[|ps| - 1])
  }

  // ---- What an action sends; works says which requests succeed ----

  function Map<T, U>(f: T -> U, s: seq<T>): (r: seq<U>)
    ensures |r| == |s| && forall i :: 0 <= i < |s| ==> r[i] == f(s[i])
  {
    seq(|s|, i requires 0 <= i < |s| => f(s[i]))
  }

  /** One patch per wanted subject, in order. */
  function Sent<T>(wanted: T -> bool, patch: T -> Patch, subjects: seq<T>): seq<Patch> {
    Map(patch, Filter(wanted, subjects))
  }

  lemma SentOneMore<T>(rows: seq<Ticket>, wanted: T -> bool, patch: T -> Patch, subjects: seq<T>, i: nat)
    requires i < |subjects|
    ensures var x := subjects[i];
            var before, after := Sent(wanted, patch, subjects[..i]), Sent(wanted, patch, subjects[..i + 1]);
            && (wanted(x) ==> Apply(rows, after) == Patched(Apply(rows, before), patch(x)) && |after| == |before| + 1)
            && (!wanted(x) ==> after == before)
  {
    var x, before, after := subjects[i], Sent(wanted, patch, subjects[..i]), Sent(wanted, patch, subjects[..i + 1]);
    assert subjects[..i + 1] == subjects[..i] + [x];
    FilterSnoc(wanted, subjects[..i], x);
    if wanted(x) {
      assert after == before + [patch(x)];
      assert after[..|before|] == before;
    }
  }

  function Fixable(works: Oracle): Item -> bool {
    (item: Item) => item.id != "" && works(item.id)
  }

  function ResetStatus(s: Status): Status {
    if s == Investigating then Open else InvestigationComplete
  }

  function ResetOf(): Item -> Patch {
    (item: Item) => Patch(item.id, ResetStatus(item.status), None)
  }

  predicate Done(s: Status) {
    s == Closed || s == Resolved || s == Failed
  }

  function Reopenable(works: Oracle): Item -> bool {
    (item: Item) => item.id != "" && Done(item.status) && works(item.id)
  }

  function ReopenOf(): Item -> Patch {
    (item: Item) => Patch(item.id, Open, Some(0))
  }

  predicate Exhausted(t: Ticket) {
    t.attempts >= MAX_ATTEMPTS && t.feature
  }

  function Retryable(works: Oracle): Ticket -> bool {
    (t: Ticket) => Exhausted(t) && t.id != "" && works(t.id)
  }

  function RetryStatus(s: Status): Status {
    if s == Failed then InvestigationComplete else s
  }

  function RetryOf(s: Status): Ticket -> Patch {
    (t: Ticket) => Patch(t.id, RetryStatus(s), Some(0))
  }

  function HasStatus(s: Status): Ticket -> bool {
    (t: Ticket) => t.status == s
  }

  /** When each ticket was last updated, as far as one query can tell. */
  type Updates = Ticket -> int

  function LatestFirst(updated: Updates): (Ticket, Ticket) -> bool {
    (t: Ticket, u: Ticket) => updated(t) >= updated(u)
  }

  /** What the query for tickets of one status answers: the latest updated ones. */
  function Queried(rows: seq<Ticket>, s: Status, updated: Updates): seq<Ticket> {
    FirstOf(Sort(LatestFirst(updated), Filter(HasStatus(s), rows)), EXHAUSTED_LIMIT)
  }

  function AfterFix(rows: seq<Ticket>, items: seq<Item>, works: Oracle): seq<Ticket> {
    Apply(rows, Sent(Fixable(works), ResetOf(), items))
  }

  function AfterDesync(rows: seq<Ticket>, items: seq<Item>, works: Oracle): seq<Ticket> {
    Apply(rows, Sent(Reopenable(works), ReopenOf(), items))
  }

  function AfterRetry(rows: seq<Ticket>, s: Status, updated: Updates, works: Oracle): seq<Ticket> {
    Apply(rows, Sent(Retryable(works), RetryOf(s), Queried(rows, s, updated)))
  }

  function Cycle(rows: seq<Ticket>, hours: real, works: Oracle): seq<Ticket> {
    AfterFix(AfterFix(rows, Evidence(rows, Investigating, hours), works), Evidence(rows, InDevelopment, hours), works)
  }

  function Works(): Oracle {
    (id: string) => true
  }

  /** In a dry run every request counts as answered. */
  function Answering(dryRun: bool, works: Oracle): Oracle {
    if dryRun then Works() else works
  }

  lemma FixableCount(items: seq<Item>, dryRun: bool, works: Oracle)
    ensures |Filter(Fixable(Answering(dryRun, works)), items)|
         == |(set i | 0 <= i < |items| && items[i].id != "" && (dryRun || works(items[i].id)))|
  {
    var p := Fixable(Answering(dryRun, works));
    FilterCount(p, items);
    forall i | 0 <= i < |items| ensures p(items[i]) <==> items[i].id != "" && (dryRun || works(items[i].id)) {
    }
    assert Positions(p, items)
        == (set i | 0 <= i < |items| && items[i].id != "" && (dryRun || works(items[i].id)));
  }

  lemma ReopenableCount(items: seq<Item>, dryRun: bool, works: Oracle)
    ensures |Filter(Reopenable(Answering(dryRun, works)), items)|
         == |(set i | 0 <= i < |items| && items[i].id != ""
               && (items[i].status == Closed || items[i].status == Resolved || items[i].status == Failed)
               && (dryRun || works(items[i].id)))|
  {
    var p := Reopenable(Answering(dryRun, works));
    FilterCount(p, items);
    forall i | 0 <= i < |items|
      ensures p(items[i]) <==>
        (items[i].id != ""
         && (items[i].status == Closed || items[i].status == Resolved || items[i].status == Failed)
         && (dryRun || works(items[i].id)))
    {
      assert Done(items[i].status) <==>
        items[i].status == Closed || items[i].status == Resolved || items[i].status == Failed;
    }
    assert Positions(p, items)
        == (set i | 0 <= i < |items| && items[i].id != ""
              && (items[i].status == Closed || items[i].status == Resolved || items[i].status == Failed)
              && (dryRun || works(items[i].id)));
  }

  class Orchestrator {
    var rows: seq<Ticket>
    const dryRun: bool

    constructor (rows: seq<Ticket>, dryRun: bool)
      ensures this.rows == rows && this.dryRun == dryRun
    {
      this.rows := rows;
      this.dryRun := dryRun;
    }

    method Detect(s: Status, hours: real) returns (evidence: seq<Item>)
      ensures evidence == Evidence(rows, s, hours) && |evidence| <= 20
      ensures forall k :: 0 <= k < |evidence| ==>
        evidence[k].status == s && NamesStuck(rows, s, hours, evidence[k].id)
      ensures |evidence| < 20 ==> forall t :: t in rows && t.status == s && t.age.Some? && t.age.value > hours ==>
        Item(t.id, s) in evidence
    {
      var stuck: seq<Ticket> := [];
      for i := 0 to |rows|
        invariant stuck == Filter(IsStuck(s, hours), rows[..i])
      {
        assert rows[..i + 1] == rows[..i] + [rows[i]];
        FilterConcat(IsStuck(s, hours), rows[..i], [rows[i]]);
        if rows[i].status == s && rows[i].age.Some? && rows[i].age.value > hours {
          stuck := stuck + [rows[i]];
        }
      }
      assert rows[..|rows|] == rows;
      evidence := Items(FirstOf(stuck, EVIDENCE_LIMIT), s);
      EvidenceMembers(rows, s, hours);
    }

    method Send(p: Patch)
      modifies this
      ensures rows == Patched(old(rows), p)
    {
      rows := Patched(rows, p);
    }

    method TryReset(item: Item, works: Oracle) returns (counted: bool)
      modifies this
      ensures counted == Fixable(Answering(dryRun, works))(item)
      ensures rows == if counted && !dryRun then Patched(old(rows), ResetOf()(item)) else old(rows)
    {
      counted := false;
      if item.id != "" {
        counted := dryRun || works(item.id);
        if counted && !dryRun {
          Send(Patch(item.id, ResetStatus(item.status), None));
        }
      }
    }

    /** The number of tickets reset, or in a dry run that would be. */
    method FixStuck(items: seq<Item>, works: Oracle) returns (fixed: nat)
      modifies this
      ensures rows == if dryRun then old(rows) else AfterFix(old(rows), items, works)
      ensures fixed == |Filter(Fixable(Answering(dryRun, works)), items)|
      ensures fixed == |(set i | 0 <= i < |items| && items[i].id != "" && (dryRun || works(items[i].id)))|
    {
      FixableCount(items, dryRun, works);
      fixed := 0;
      ghost var start, wanted := rows, Fixable(Answering(dryRun, works));
      for i := 0 to |items|
        invariant rows == if dryRun then start else Apply(start, Sent(wanted, ResetOf(), items[..i]))
        invariant fixed == |Sent(wanted, ResetOf(), items[..i])|
      {
        SentOneMore(start, wanted, ResetOf(), items, i);
        var counted := TryReset(items[i], works);
        if counted {
          fixed := fixed + 1;
        }
      }
      assert items[..|items|] == items;
    }

    /** Feature tickets out of attempts get a new chance: first the failed ones, then those waiting for development. */
    method FixExhausted(first: Updates, second: Updates, works: Oracle) returns (count: nat)
      modifies this
      ensures rows == if dryRun then old(rows)
                      else AfterRetry(AfterRetry(old(rows), Failed, first, works), InvestigationComplete, second, works)
      ensures var wanted := Retryable(Answering(dryRun, works));
              var middle := if dryRun then old(rows) else AfterRetry(old(rows), Failed, first, works);
              count == |Filter(wanted, Queried(old(rows), Failed, first))|
                     + |Filter(wanted, Queried(middle, InvestigationComplete, second))|
    {
      var failed := ResetExhausted(Failed, first, works);
      var waiting := ResetExhausted(InvestigationComplete, second, works);
      count := failed + waiting;
    }

    method TryRetry(t: Ticket, s: Status, works: Oracle) returns (counted: bool)
      modifies this
      ensures counted == Retryable(Answering(dryRun, works))(t)
      ensures rows == if counted && !dryRun then Patched(old(rows), RetryOf(s)(t)) else old(rows)
    {
      counted := false;
      if Exhausted(t) && t.id != "" {
        counted := dryRun || works(t.id);
        if counted && !dryRun {
          Send(Patch(t.id, if s == Failed then InvestigationComplete else s, Some(0)));
        }
      }
    }

    method ResetExhausted(s: Status, updated: Updates, works: Oracle) returns (count: nat)
      modifies this
      ensures rows == if dryRun then old(rows) else AfterRetry(old(rows), s, updated, works)
      ensures count == |Filter(Retryable(Answering(dryRun, works)), Queried(old(rows), s, updated))|
    {
      count := 0;
      ghost var start, wanted := rows, Retryable(Answering(dryRun, works));
      var queried := Queried(rows, s, updated);
      for i := 0 to |queried|
        invariant rows == if dryRun then start else Apply(start, Sent(wanted, RetryOf(s), queried[..i]))
        invariant count == |Sent(wanted, RetryOf(s), queried[..i])|
      {
        SentOneMore(start, wanted, RetryOf(s), queried, i);
        var counted := TryRetry(queried[i], s, works);
        if counted {
          count := count + 1;
        }
      }
      assert queried[..|queried|] == queried;
    }

    method TryReopen(item: Item, works: Oracle) returns (counted: bool)
      modifies this
      ensures counted == Reopenable(Answering(dryRun, works))(item)
      ensures rows == if counted && !dryRun then Patched(old(rows), ReopenOf()(item)) else old(rows)
    {
      counted := false;
      if item.id != "" && Done(item.status) {
        counted := dryRun || works(item.id);
        if counted && !dryRun {
          Send(Patch(item.id, Open, Some(0)));
        }
      }
    }

    /** Tickets whose GitHub issue is open again are reopened. */
    method FixDesync(items: seq<Item>, works: Oracle) returns (count: nat)
      modifies this
      ensures rows == if dryRun then old(rows) else AfterDesync(old(rows), items, works)
      ensures count == |Filter(Reopenable(Answering(dryRun, works)), items)|
      ensures count == |(set i | 0 <= i < |items| && items[i].id != ""
        && (items[i].status == Closed || items[i].status == Resolved || items[i].status == Failed)
        && (dryRun || works(items[i].id)))|
    {
      ReopenableCount(items, dryRun, works);
      count := 0;
      ghost var start, wanted := rows, Reopenable(Answering(dryRun, works));
      for i := 0 to |items|
        invariant rows == if dryRun then start else Apply(start, Sent(wanted, ReopenOf(), items[..i]))
        invariant count == |Sent(wanted, ReopenOf(), items[..i])|
      {
        SentOneMore(start, wanted, ReopenOf(), items, i);
        var counted := TryReopen(items[i], works);
        if counted {
          count := count + 1;
        }
      }
      assert items[..|items|] == items;
    }

    /** One auto-fix cycle: both findings are made first, then both are fixed. */
    method AutoFix(hours: real, works: Oracle)
      modifies this
      ensures rows == if dryRun then old(rows) else Cycle(old(rows), hours, works)
    {
      var investigating := Detect(Investigating, hours);
      var inDevelopment := Detect(InDevelopment, hours);
      var first := FixStuck(investigating, works);
      var second := FixStuck(inDevelopment, works);
    }
  }

  // ---- No action makes a ticket active ----

  /** Same tickets; a status is unchanged or has become Open or InvestigationComplete. */
  ghost predicate Relaxed(before: seq<Ticket>, after: seq<Ticket>) {
    && |after| == |before|
    && forall i :: 0 <= i < |before| ==>
      && after[i].id == before[i].id && after[i].age == before[i].age
      && (after[i].status == before[i].status || !Active(after[i].status))
  }

  lemma RelaxedMeaning(before: seq<Ticket>, after: seq<Ticket>, i: nat)
    requires Relaxed(before, after) && i < |before|
    ensures after[i].status == Investigating || after[i].status == InDevelopment ==>
      after[i].status == before[i].status
  {
  }

  ghost predicate AllRelaxing(ps: seq<Patch>) {
    forall k :: 0 <= k < |ps| ==> !Active(ps[k].status)
  }

  lemma {:induction false} ApplyRelaxes(rows: seq<Ticket>, ps: seq<Patch>)
    requires AllRelaxing(ps)
    ensures Relaxed(rows, Apply(rows, ps))
  {
    if ps != [] {
      ApplyRelaxes(rows, ps[..|ps| - 1]);
    }
  }

  /** No action's patches ever move a ticket into an active status. */
  lemma NoActionActivates(rows: seq<Ticket>, items: seq<Item>, s: Status, updated: Updates, works: Oracle)
    requires s == Failed || s == InvestigationComplete
    ensures Relaxed(rows, AfterFix(rows, items, works))
    ensures Relaxed(rows, AfterDesync(rows, items, works))
    ensures Relaxed(rows, AfterRetry(rows, s, updated, works))
  {
    ApplyRelaxes(rows, Sent(Fixable(works), ResetOf(), items));
    ApplyRelaxes(rows, Sent(Reopenable(works), ReopenOf(), items));
    ApplyRelaxes(rows, Sent(Retryable(works), RetryOf(s), Queried(rows, s, updated)));
  }

  /** Relaxing never adds a stuck ticket: the stuck ones afterwards are some of those before, in order. */
  lemma {:induction false} RelaxedStuckShrinks(before: seq<Ticket>, after: seq<Ticket>, s: Status, hours: real)
    requires Relaxed(before, after) && Active(s)
    ensures |Stuck(after, s, hours)| <= |Stuck(before, s, hours)|
    ensures forall t :: t in Stuck(after, s, hours) ==> exists u :: u in Stuck(before, s, hours) && u.id == t.id
  {
    if before != [] {
      var p := IsStuck(s, hours);
      assert Relaxed(before[1..], after[1..]) by {
        assert forall i :: 0 <= i < |before| - 1 ==> before[1..][i] == before[i + 1] && after[1..][i] == after[i + 1];
      }
      RelaxedStuckShrinks(before[1..], after[1..], s, hours);
      assert p(after[0]) ==> p(before[0]);
      forall t | t in Stuck(after, s, hours) ensures exists u :: u in Stuck(before, s, hours) && u.id == t.id {
        if t in Stuck(after[1..], s, hours) {
          var u :| u in Stuck(before[1..], s, hours) && u.id == t.id;
          assert u in Stuck(before, s, hours);
        } else {
          assert t == after[0] && p(t);
          assert before[0] in Stuck(before, s, hours);
        }
      }
    }
  }

  // ---- What each action does, ticket by ticket ----

  predicate Mentions(items: seq<Item>, id: string) {
    exists i :: 0 <= i < |items| && items[i].id == id
  }

  /** All items carry the status s, so fixing sends every mentioned ticket to one status. */
  ghost predicate AllOf(items: seq<Item>, s: Status) {
    forall i :: 0 <= i < |items| ==> items[i].status == s
  }

  predicate Patches(ps: seq<Patch>, id: string) {
    exists k :: 0 <= k < |ps| && ps[k].id == id
  }

  /** Patches that all set the same values change exactly the rows they name. */
  lemma {:induction false} ApplyEffect(rows: seq<Ticket>, ps: seq<Patch>, s: Status, attempts: Option<int>, i: nat)
    requires i < |rows| && forall k :: 0 <= k < |ps| ==> ps[k].status == s && ps[k].attempts == attempts
    ensures |Apply(rows, ps)| == |rows|
    ensures Apply(rows, ps)[i] ==
      if Patches(ps, rows[i].id) then rows[i].(status := s, attempts := attempts.GetOr(rows[i].attempts)) else rows[i]
  {
    if ps != [] {
      var n := |ps| - 1;
      ApplyEffect(rows, ps[..n], s, attempts, i);
    }
  }

  /** A wanted subject's patch names the id. */
  ghost predicate Named<T(!new)>(wanted: T -> bool, patch: T -> Patch, subjects: seq<T>, id: string) {
    exists x :: x in subjects && wanted(x) && patch(x).id == id
  }

  lemma SentMeaning<T(!new)>(wanted: T -> bool, patch: T -> Patch, subjects: seq<T>, id: string)
    ensures Patches(Sent(wanted, patch, subjects), id) <==> Named(wanted, patch, subjects, id)
  {
    var kept := Filter(wanted, subjects);
    FilterMembers(wanted, subjects);
    if Named(wanted, patch, subjects, id) {
      var x :| x in subjects && wanted(x) && patch(x).id == id;
      var k :| 0 <= k < |kept| && kept[k] == x;
      assert Sent(wanted, patch, subjects)[k].id == id;
    }
    if Patches(Sent(wanted, patch, subjects), id) {
      var k :| 0 <= k < |kept| && Sent(wanted, patch, subjects)[k].id == id;
      assert kept[k] in subjects;
    }
  }

  /** An action whose patches all set the same values changes exactly the rows it names. */
  lemma ActionEffect<T(!new)>(
    rows: seq<Ticket>, wanted: T -> bool, patch: T -> Patch, subjects: seq<T>, s: Status, attempts: Option<int>, i: nat)
    requires i < |rows|
    requires forall x :: x in subjects ==> patch(x).status == s && patch(x).attempts == attempts
    ensures |Apply(rows, Sent(wanted, patch, subjects))| == |rows|
    ensures Apply(rows, Sent(wanted, patch, subjects))[i] ==
      if Named(wanted, patch, subjects, rows[i].id)
      then rows[i].(status := s, attempts := attempts.GetOr(rows[i].attempts)) else rows[i]
  {
    FilterMembers(wanted, subjects);
    var kept := Filter(wanted, subjects);
    assert forall k :: 0 <= k < |kept| ==> kept[k] in subjects;
    SentMeaning(wanted, patch, subjects, rows[i].id);
    ApplyEffect(rows, Sent(wanted, patch, subjects), s, attempts, i);
  }

  /** The ticket has an id, and a patch of it works. */
  predicate Patchable(works: Oracle, t: Ticket) {
    t.id != "" && works(t.id)
  }

  /** The fix reaches t: it has an id, its patch works, and the evidence names it. */
  predicate Reached(items: seq<Item>, works: Oracle, t: Ticket) {
    Patchable(works, t) && Mentions(items, t.id)
  }

  /** The effect of fixing one finding, ticket by ticket. */
  lemma FixEffect(rows: seq<Ticket>, items: seq<Item>, works: Oracle, s: Status, i: nat)
    requires AllOf(items, s) && i < |rows|
    ensures |AfterFix(rows, items, works)| == |rows|
    ensures AfterFix(rows, items, works)[i] ==
      if Reached(items, works, rows[i]) then rows[i].(status := ResetStatus(s)) else rows[i]
    ensures AfterFix(rows, items, works)[i] ==
      if rows[i].id != "" && works(rows[i].id) && (exists x :: x in items && x.id == rows[i].id)
      then rows[i].(status := if s == Investigating then Open else InvestigationComplete) else rows[i]
  {
    ActionEffect(rows, Fixable(works), ResetOf(), items, ResetStatus(s), None, i);
    if Mentions(items, rows[i].id) {
      var k :| 0 <= k < |items| && items[k].id == rows[i].id;
      assert items[k] in items;
    }
    assert Named(Fixable(works), ResetOf(), items, rows[i].id) <==> Reached(items, works, rows[i]);
  }

  /** Reopening changes exactly the named tickets that the finding saw as done. */
  lemma DesyncEffect(rows: seq<Ticket>, items: seq<Item>, works: Oracle, i: nat)
    requires i < |rows|
    ensures |AfterDesync(rows, items, works)| == |rows|
    ensures AfterDesync(rows, items, works)[i] ==
      if rows[i].id != "" && works(rows[i].id) && (exists x ::
        (x in items && x.id == rows[i].id && (x.status == Closed || x.status == Resolved || x.status == Failed)))
      then rows[i].(status := Open, attempts := 0) else rows[i]
  {
    ActionEffect(rows, Reopenable(works), ReopenOf(), items, Open, Some(0), i);
    if x :| x in items && x.id == rows[i].id && Done(x.status) {
      assert rows[i].id != "" && works(rows[i].id) ==> Reopenable(works)(x);
    }
  }

  lemma SortedMembers(leq: (Ticket, Ticket) -> bool, s: seq<Ticket>)
    requires TotalPreorder(leq)
    ensures forall t :: t in Sort(leq, s) <==> t in s
  {
    SortCorrect(leq, s);
    assert forall t :: t in Sort(leq, s) <==> t in multiset(Sort(leq, s));
    assert forall t :: t in s <==> t in multiset(s);
  }

  /** The query answers only tickets of the status, and all of them if fewer than its limit come. */
  lemma QueriedMembers(rows: seq<Ticket>, s: Status, updated: Updates)
    ensures forall t :: t in Queried(rows, s, updated) ==> t in rows && t.status == s
    ensures |Queried(rows, s, updated)| <= 50
    ensures |Queried(rows, s, updated)| < 50 ==>
      forall u :: u in rows && u.status == s ==> u in Queried(rows, s, updated)
  {
    var kept := Filter(HasStatus(s), rows);
    var all, queried := Sort(LatestFirst(updated), kept), Queried(rows, s, updated);
    FilterMembers(HasStatus(s), rows);
    SortedMembers(LatestFirst(updated), kept);
    assert queried <= all && (|queried| < 50 ==> queried == all);
    forall t | t in queried ensures t in rows && t.status == s {
      assert t in all && t in kept;
    }
    forall u | u in rows && u.status == s ensures u in all {
      assert u in kept;
    }
  }

  /** Nothing it leaves out was updated later than anything it answers. */
  lemma QueriedAreLatest(rows: seq<Ticket>, s: Status, updated: Updates, t: Ticket, u: Ticket)
    requires t in Queried(rows, s, updated) && u in rows && u.status == s && updated(u) > updated(t)
    ensures u in Queried(rows, s, updated)
  {
    var kept, leq := Filter(HasStatus(s), rows), LatestFirst(updated);
    var all, queried := Sort(leq, kept), Queried(rows, s, updated);
    FilterMembers(HasStatus(s), rows);
    SortCorrect(leq, kept);
    SortedMembers(leq, kept);
    var i :| 0 <= i < |queried| && queried[i] == t;
    var j :| 0 <= j < |all| && all[j] == u;
    assert all[i] == t;
    assert j <= i;
    assert queried[j] == u;
  }

  /** A retry changes exactly the named, queried tickets that are out of attempts. */
  lemma RetryEffect(rows: seq<Ticket>, s: Status, updated: Updates, works: Oracle, i: nat)
    requires i < |rows|
    ensures |AfterRetry(rows, s, updated, works)| == |rows|
    ensures AfterRetry(rows, s, updated, works)[i] ==
      if rows[i].id != "" && works(rows[i].id)
         && (exists t :: t in Queried(rows, s, updated) && t.id == rows[i].id && t.attempts >= 3 && t.feature)
      then rows[i].(status := if s == Failed then InvestigationComplete else s, attempts := 0) else rows[i]
  {
    ActionEffect(rows, Retryable(works), RetryOf(s), Queried(rows, s, updated), RetryStatus(s), Some(0), i);
    if t :| t in Queried(rows, s, updated) && t.id == rows[i].id && Exhausted(t) {
      assert rows[i].id != "" && works(rows[i].id) ==> Retryable(works)(t);
    }
  }
}
