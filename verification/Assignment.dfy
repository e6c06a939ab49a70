/**
 Greedy assignment of unassigned issues to bots. A live assignment raises both
 the bot's base load and its load of the cycle, a dry-run assignment only the
 latter, so the effective load grows by a step of 2 or 1.
 */
module Assignment {
  import opened Common

  const MAX_ASSIGNMENTS: nat := 10

  datatype Issue = Issue(repo: string, number: Option<int>)

  predicate Assignable(i: Issue) {
    i.repo != "" && i.number.Some?
  }

  /** One attempt: which issue, which bot, and whether gh accepted it. */
  datatype Pick = Pick(issue: nat, bot: nat, ok: bool)

  function Won(picks: seq<Pick>, bot: nat): nat {
    if picks == [] then 0
    else Won(picks[..|picks| - 1], bot) + if picks[|picks| - 1].ok && picks[|picks| - 1].bot == bot then 1 else 0
  }

  function Successes(picks: seq<Pick>): nat {
    if picks == [] then 0
    else Successes(picks[..|picks| - 1]) + if picks[|picks| - 1].ok then 1 else 0
  }

  function StepOf(dryRun: bool): int {
    if dryRun then 1 else 2
  }

  function Effective(base: seq<int>, dryRun: bool, picks: seq<Pick>, bot: nat): int
    requires bot < |base|
  {
    base[bot] + if dryRun then Won(picks, bot) else 2 * Won(picks, bot)
  }

  /** bot is the first of the least loaded ones. */
  predicate LeastLoaded(base: seq<int>, dryRun: bool, picks: seq<Pick>, bot: nat) {
    && bot < |base|
    && (forall d :: 0 <= d < |base| ==> Effective(base, dryRun, picks, bot) <= Effective(base, dryRun, picks, d))
    && (forall d :: 0 <= d < bot ==> Effective(base, dryRun, picks, bot) < Effective(base, dryRun, picks, d))
  }

  /** Every pick went to the then least loaded bot, with fewer than the maximum successes behind it. */
  ghost predicate Greedy(base: seq<int>, dryRun: bool, picks: seq<Pick>) {
    picks != [] ==>
      var earlier := picks[..|picks| - 1];
      && Greedy(base, dryRun, earlier)
      && LeastLoaded(base, dryRun, earlier, picks[|picks| - 1].bot)
      && Successes(earlier) < MAX_ASSIGNMENTS
  }

  lemma GreedyExtend(base: seq<int>, dryRun: bool, picks: seq<Pick>, next: Pick)
    requires Greedy(base, dryRun, picks)
    requires LeastLoaded(base, dryRun, picks, next.bot) && Successes(picks) < MAX_ASSIGNMENTS
    ensures Greedy(base, dryRun, picks + [next])
  {
    assert (picks + [next])[..|picks|] == picks;
  }

  method LeastLoadedBot(load: seq<int>, cycle: seq<int>) returns (bot: nat)
    requires |load| == |cycle| > 0
    ensures bot < |load|
    ensures forall d :: 0 <= d < |load| ==> load[bot] + cycle[bot] <= load[d] + cycle[d]
    ensures forall d :: 0 <= d < bot ==> load[bot] + cycle[bot] < load[d] + cycle[d]
  {
    bot := 0;
    for d := 1 to |load|
      invariant bot < d
      invariant forall e :: 0 <= e < d ==> load[bot] + cycle[bot] <= load[e] + cycle[e]
      invariant forall e :: 0 <= e < bot ==> load[bot] + cycle[bot] < load[e] + cycle[e]
    {
      if load[d] + cycle[d] < load[bot] + cycle[bot] {
        bot := d;
      }
    }
  }

  /** The assignable issues below k, in order. */
  function Targets(issues: seq<Issue>, k: nat): seq<nat>
    requires k <= |issues|
  {
    if k == 0 then []
    else if Assignable(issues[k - 1]) then Targets(issues, k - 1) + [k - 1]
    else Targets(issues, k - 1)
  }

  function IssuesOf(picks: seq<Pick>): seq<nat> {
    if picks == [] then [] else IssuesOf(picks[..|picks| - 1]) + [picks[|picks| - 1].issue]
  }

  /** Each target is tried once and in order; gh decides, unless it is a dry run. */
  ghost predicate Tried(issues: seq<Issue>, gh: seq<bool>, dryRun: bool, picks: seq<Pick>, k: nat)
    requires |gh| == |issues| && k <= |issues|
  {
    && IssuesOf(picks) == Targets(issues, k)
    && forall p :: 0 <= p < |picks| ==> picks[p].issue < |gh| && picks[p].ok == (dryRun || gh[picks[p].issue])
  }

  /** The targets are exactly the assignable issues, none twice. */
  lemma {:induction false} TargetsMeaning(issues: seq<Issue>, k: nat)
    requires k <= |issues|
    ensures forall i :: i in Targets(issues, k) <==>
      0 <= i < k && issues[i].repo != "" && issues[i].number.Some?
    ensures forall p, q :: 0 <= p < q < |Targets(issues, k)| ==> Targets(issues, k)[p] < Targets(issues, k)[q]
  {
    if k > 0 {
      TargetsMeaning(issues, k - 1);
      var before := Targets(issues, k - 1);
      forall p | 0 <= p < |before| ensures before[p] < k - 1 {
        assert before[p] in before;
      }
    }
  }

  /** The two load tables agree with the picks. */
  ghost predicate LoadsAgree(base: seq<int>, dryRun: bool, load: seq<int>, cycle: seq<int>, picks: seq<Pick>) {
    && |load| == |cycle| == |base|
    && (forall b :: 0 <= b < |base| ==> cycle[b] == Won(picks, b))
    && (forall b :: 0 <= b < |base| ==> load[b] == base[b] + if dryRun then 0 else Won(picks, b))
  }

  /** Choosing a bot for issue k, running gh, and booking the assignment. */
  method AssignOne(
    base: seq<int>, load: seq<int>, cycle: seq<int>, picks: seq<Pick>, k: nat, accepted: bool, dryRun: bool)
    returns (next: Pick, load': seq<int>, cycle': seq<int>)
    requires base != [] && LoadsAgree(base, dryRun, load, cycle, picks)
    requires Greedy(base, dryRun, picks) && Successes(picks) < MAX_ASSIGNMENTS
    ensures next.issue == k && next.ok == (dryRun || accepted)
    ensures LoadsAgree(base, dryRun, load', cycle', picks + [next])
    ensures Greedy(base, dryRun, picks + [next])
    ensures Successes(picks + [next]) == Successes(picks) + if next.ok then 1 else 0
  {
    var bot := LeastLoadedBot(load, cycle);
    next := Pick(k, bot, dryRun || accepted);
    assert forall b :: 0 <= b < |base| ==> load[b] + cycle[b] == Effective(base, dryRun, picks, b);
    GreedyExtend(base, dryRun, picks, next);
    load', cycle' := load, cycle;
    if next.ok {
      cycle' := cycle'[bot := cycle'[bot] + 1];
      if !dryRun {
        load' := load'[bot := load'[bot] + 1];
      }
    }
  }

  /**
   gh says, per issue, whether the command succeeds. Each assignable issue below
   the stopping point is tried once, in order; the loop stops early only when
   the maximum is reached.
   */
  method AssignIssues(base: seq<int>, issues: seq<Issue>, gh: seq<bool>, dryRun: bool)
    returns (done: nat, picks: seq<Pick>, stop: nat)
    requires |gh| == |issues|
    ensures done == Successes(picks) <= MAX_ASSIGNMENTS
    ensures stop <= |issues| && (stop < |issues| && base != [] ==> done == MAX_ASSIGNMENTS)
    ensures Greedy(base, dryRun, picks)
    ensures Tried(issues, gh, dryRun, picks, stop)
  {
    done, picks, stop := 0, [], 0;
    if base == [] {
      return;
    }
    var load, cycle := base, seq(|base|, _ => 0);
    while stop < |issues|
      invariant done == Successes(picks) <= MAX_ASSIGNMENTS
      invariant LoadsAgree(base, dryRun, load, cycle, picks)
      invariant Greedy(base, dryRun, picks)
      invariant stop <= |issues| && Tried(issues, gh, dryRun, picks, stop)
    {
      if done >= MAX_ASSIGNMENTS {
        return;
      }
      if issues[stop].repo != "" && issues[stop].number.Some? {
        var next, load', cycle' := AssignOne(base, load, cycle, picks, stop, gh[stop], dryRun);
        load, cycle, picks := load', cycle', picks + [next];
        if next.ok {
          done := done + 1;
        }
      }
      stop := stop + 1;
    }
  }

  // ---- What greedy means ----

  /** The picks that bot won. */
  ghost function WonPicks(picks: seq<Pick>, bot: nat): set<int> {
    set k | 0 <= k < |picks| && picks[k].ok && picks[k].bot == bot
  }

  lemma {:induction false} WonIsCount(picks: seq<Pick>, bot: nat)
    ensures Won(picks, bot) == |WonPicks(picks, bot)|
  {
    if picks != [] {
      var n := |picks| - 1;
      WonIsCount(picks[..n], bot);
      assert WonPicks(picks, bot)
          == if picks[n].ok && picks[n].bot == bot then WonPicks(picks[..n], bot) + {n} else WonPicks(picks[..n], bot);
    }
  }

  lemma {:induction false} SuccessesAreCount(picks: seq<Pick>)
    ensures Successes(picks) == |(set k | 0 <= k < |picks| && picks[k].ok)|
  {
    if picks != [] {
      var n := |picks| - 1;
      SuccessesAreCount(picks[..n]);
      var before := set k | 0 <= k < n && picks[..n][k].ok;
      assert (set k | 0 <= k < |picks| && picks[k].ok) == if picks[n].ok then before + {n} else before;
    }
  }

  /** The load a choice goes by: the base load, plus one per dry win or two per live win. */
  lemma EffectiveMeaning(base: seq<int>, dryRun: bool, picks: seq<Pick>, bot: nat)
    requires bot < |base|
    ensures Effective(base, dryRun, picks, bot) == base[bot] + (if dryRun then 1 else 2) * |WonPicks(picks, bot)|
  {
    WonIsCount(picks, bot);
  }

  /** Every pick of a greedy run: fewer than ten successes before it, and the first least loaded bot then. */
  lemma {:induction false} GreedyAt(base: seq<int>, dryRun: bool, picks: seq<Pick>, k: nat)
    requires Greedy(base, dryRun, picks) && k < |picks|
    ensures Successes(picks[..k]) < 10 && picks[k].bot < |base|
    ensures forall d :: 0 <= d < |base| ==>
      Effective(base, dryRun, picks[..k], picks[k].bot) <= Effective(base, dryRun, picks[..k], d)
    ensures forall d :: 0 <= d < picks[k].bot ==>
      Effective(base, dryRun, picks[..k], picks[k].bot) < Effective(base, dryRun, picks[..k], d)
    decreases |picks|
  {
    var n := |picks| - 1;
    if k < n {
      GreedyAt(base, dryRun, picks[..n], k);
      assert picks[..n][..k] == picks[..k];
    }
  }

  // ---- Balance ----

  /** A bot that received work ends at most one step above any other. */
  lemma {:induction false} BalanceBound(base: seq<int>, dryRun: bool, picks: seq<Pick>, bot: nat, other: nat)
    requires Greedy(base, dryRun, picks) && bot < |base| && other < |base|
    requires Won(picks, bot) > 0
    ensures Effective(base, dryRun, picks, bot) <= Effective(base, dryRun, picks, other) + StepOf(dryRun)
  {
    var n := |picks| - 1;
    assert LeastLoaded(base, dryRun, picks[..n], picks[n].bot);
    if !(picks[n].ok && picks[n].bot == bot) {
      BalanceBound(base, dryRun, picks[..n], bot, other);
    } else {
      assert Effective(base, dryRun, picks[..n], bot) <= Effective(base, dryRun, picks[..n], other);
    }
  }

  /** Bots that start level end within one assignment of each other, whatever gh does. */
  lemma LevelStartStaysLevel(base: seq<int>, dryRun: bool, picks: seq<Pick>, bot: nat, other: nat)
    requires Greedy(base, dryRun, picks) && bot < |base| && other < |base|
    requires base[bot] == base[other]
    ensures Won(picks, bot) <= Won(picks, other) + 1
  {
    if Won(picks, bot) > 0 {
      BalanceBound(base, dryRun, picks, bot, other);
    }
  }

  // ---- Fewest tickets ----

  /** bot has no more tickets, old and newly assigned, than any other. */
  ghost predicate FewestTickets(base: seq<int>, picks: seq<Pick>, bot: nat) {
    bot < |base| && forall d :: 0 <= d < |base| ==> Effective(base, true, picks, bot) <= Effective(base, true, picks, d)
  }

  /** Every pick of every run of this step goes to a bot with the fewest tickets. */
  ghost predicate AlwaysFewest(base: seq<int>, dryRun: bool) {
    forall picks, bot :: MayPick(base, dryRun, picks, bot) ==> FewestTickets(base, picks, bot)
  }

  /** After these picks the next issue may go to bot. */
  ghost predicate MayPick(base: seq<int>, dryRun: bool, picks: seq<Pick>, bot: nat) {
    Greedy(base, dryRun, picks) && LeastLoaded(base, dryRun, picks, bot) && Successes(picks) < MAX_ASSIGNMENTS
  }

  /** How many live wins b needs before m is preferred to it. */
  function HeadStart(base: seq<int>, b: nat, m: nat): nat
    requires b < |base| && m < |base|
  {
    var gap := base[m] - base[b];
    if b < m && gap >= 0 then gap / 2 + 1
    else if b > m && gap > 0 then (gap + 1) / 2
    else 0
  }

  /** The live wins the first n bots need together before m is preferred to all of them. */
  function HeadStarts(base: seq<int>, m: nat, n: nat): nat
    requires m < |base| && n <= |base|
  {
    if n == 0 then 0 else HeadStarts(base, m, n - 1) + HeadStart(base, n - 1, m)
  }

  /** m is never picked in a cycle, or not before f has made up the tickets it has less. */
  ghost predicate Fair(base: seq<int>) {
    forall f, m :: 0 <= f < |base| && 0 <= m < |base| && base[f] < base[m] ==>
      HeadStart(base, f, m) >= base[m] - base[f] || HeadStarts(base, m, |base|) >= MAX_ASSIGNMENTS
  }

  function WonBy(picks: seq<Pick>, n: nat): nat {
    if n == 0 then 0 else WonBy(picks, n - 1) + Won(picks, n - 1)
  }

  lemma {:induction false} WonByGrows(picks: seq<Pick>, next: Pick, n: nat)
    ensures WonBy(picks + [next], n) == WonBy(picks, n) + if next.ok && next.bot < n then 1 else 0
  {
    if n > 0 {
      WonByGrows(picks, next, n - 1);
    }
  }

  lemma {:induction false} NothingWon(n: nat)
    ensures WonBy([], n) == 0
  {
    if n > 0 {
      NothingWon(n - 1);
    }
  }

  /** Every success was won by one of the bots. */
  lemma {:induction false} SuccessesAreWon(base: seq<int>, dryRun: bool, picks: seq<Pick>)
    requires Greedy(base, dryRun, picks)
    ensures WonBy(picks, |base|) == Successes(picks)
  {
    if picks == [] {
      NothingWon(|base|);
    } else {
      var n := |picks| - 1;
      SuccessesAreWon(base, dryRun, picks[..n]);
      assert picks == picks[..n] + [picks[n]];
      WonByGrows(picks[..n], picks[n], |base|);
    }
  }

  /** A least loaded bot has seen every other one use up its head start. */
  lemma LeastLoadedMeans(base: seq<int>, picks: seq<Pick>, m: nat, b: nat)
    requires LeastLoaded(base, false, picks, m) && b < |base|
    ensures Won(picks, b) >= HeadStart(base, b, m)
    ensures base[b] < base[m] ==> Won(picks, b) >= HeadStart(base, b, m) + Won(picks, m)
    ensures base[b] >= base[m] ==> base[m] + Won(picks, m) <= base[b] + Won(picks, b)
  {
    assert Effective(base, false, picks, m) <= Effective(base, false, picks, b);
    if b < m {
      assert Effective(base, false, picks, m) < Effective(base, false, picks, b);
    }
  }

  /** A bot picked before m has not used up its head start. */
  lemma PickedBefore(base: seq<int>, picks: seq<Pick>, m: nat, b: nat)
    requires LeastLoaded(base, false, picks, b) && m < |base| && m != b && Won(picks, m) == 0
    ensures Won(picks, b) < HeadStart(base, b, m)
  {
    assert Effective(base, false, picks, b) <= Effective(base, false, picks, m);
    if m < b {
      assert Effective(base, false, picks, b) < Effective(base, false, picks, m);
    }
  }

  lemma {:induction false} HeadStartsBound(base: seq<int>, picks: seq<Pick>, m: nat, n: nat)
    requires m < |base| && n <= |base|
    ensures (forall b :: 0 <= b < n ==> Won(picks, b) >= HeadStart(base, b, m)) ==>
      WonBy(picks, n) >= HeadStarts(base, m, n)
    ensures (forall b :: 0 <= b < n ==> Won(picks, b) <= HeadStart(base, b, m)) ==>
      WonBy(picks, n) <= HeadStarts(base, m, n)
  {
    if n > 0 {
      HeadStartsBound(base, picks, m, n - 1);
    }
  }

  lemma {:induction false} SomeLeastLoaded(base: seq<int>, picks: seq<Pick>, n: nat) returns (b: nat)
    requires 0 < n <= |base|
    ensures b < n
    ensures forall d :: 0 <= d < n ==> Effective(base, false, picks, b) <= Effective(base, false, picks, d)
    ensures forall d :: 0 <= d < b ==> Effective(base, false, picks, b) < Effective(base, false, picks, d)
  {
    b := 0;
    if n > 1 {
      b := SomeLeastLoaded(base, picks, n - 1);
      if Effective(base, false, picks, n - 1) < Effective(base, false, picks, b) {
        b := n - 1;
      }
    }
  }

  /** If the head starts fit into a cycle, m is picked once they are used up. */
  lemma {:induction false} RunUntilPicked(base: seq<int>, picks: seq<Pick>, m: nat) returns (run: seq<Pick>)
    requires m < |base| && Greedy(base, false, picks)
    requires forall b :: 0 <= b < |base| ==> Won(picks, b) <= HeadStart(base, b, m)
    requires HeadStarts(base, m, |base|) < MAX_ASSIGNMENTS
    ensures MayPick(base, false, run, m)
    ensures forall b :: 0 <= b < |base| ==> Won(run, b) <= HeadStart(base, b, m)
    decreases MAX_ASSIGNMENTS - Successes(picks)
  {
    SuccessesAreWon(base, false, picks);
    HeadStartsBound(base, picks, m, |base|);
    run := picks;
    if !LeastLoaded(base, false, picks, m) {
      var b := SomeLeastLoaded(base, picks, |base|);
      assert LeastLoaded(base, false, picks, b);
      PickedBefore(base, picks, m, b);
      var next := Pick(0, b, true);
      GreedyExtend(base, false, picks, next);
      run := RunUntilPicked(base, picks + [next], m);
    }
  }

  lemma UnfairPick(base: seq<int>, picks: seq<Pick>, m: nat)
    requires MayPick(base, false, picks, m) && !FewestTickets(base, picks, m)
    ensures !Fair(base)
  {
    var f :| 0 <= f < |base| && Effective(base, true, picks, f) < Effective(base, true, picks, m);
    LeastLoadedMeans(base, picks, m, f);
    forall b | 0 <= b < |base| ensures Won(picks, b) >= HeadStart(base, b, m) {
      LeastLoadedMeans(base, picks, m, b);
    }
    HeadStartsBound(base, picks, m, |base|);
    SuccessesAreWon(base, false, picks);
    assert base[f] < base[m] && HeadStart(base, f, m) < base[m] - base[f];
  }

  lemma UnfairRun(base: seq<int>)
    requires !Fair(base)
    ensures !AlwaysFewest(base, false)
  {
    var f, m :| 0 <= f < |base| && 0 <= m < |base| && base[f] < base[m]
      && HeadStart(base, f, m) < base[m] - base[f] && HeadStarts(base, m, |base|) < MAX_ASSIGNMENTS;
    var run := RunUntilPicked(base, [], m);
    assert Effective(base, true, run, f) < Effective(base, true, run, m);
  }

  /**
   Picking always goes to a bot with the fewest tickets exactly in a dry run, or
   when the initial loads are fair: a live assignment counts twice, so a bot with
   fewer tickets is passed over unless it has caught up by the time its head
   start is used up, or the cycle ends before.
   */
  lemma PicksFewestIff(base: seq<int>, dryRun: bool)
    ensures AlwaysFewest(base, dryRun) <==> dryRun || Fair(base)
  {
    if !dryRun && Fair(base) {
      forall picks, bot | MayPick(base, false, picks, bot) ensures FewestTickets(base, picks, bot) {
        if !FewestTickets(base, picks, bot) {
          UnfairPick(base, picks, bot);
        }
      }
    }
    if !dryRun && !Fair(base) {
      UnfairRun(base);
    }
  }

  // ---- Where the base loads come from ----

  const TEAM_BOTS: seq<(string, string)> := [
    ("team-alpha", "bot-alpha"), ("bot-alpha", "bot-alpha"), ("bot-beta", "bot-beta"), ("team-beta", "bot-beta")]

  function CountOf(counts: map<string, int>, team: string): int {
    if team in counts then counts[team] else 0
  }

  /** Each bot gets the count of the first team id that maps to it. */
  method InitialLoad(counts: map<string, int>) returns (load: map<string, int>)
    ensures load == map["bot-alpha" := CountOf(counts, "team-alpha"), "bot-beta" := CountOf(counts, "bot-beta")]
  {
    load := map[];
    for i := 0 to |TEAM_BOTS|
      invariant load ==
        if i == 0 then map[]
        else if i <= 2 then map["bot-alpha" := CountOf(counts, "team-alpha")]
        else map["bot-alpha" := CountOf(counts, "team-alpha"), "bot-beta" := CountOf(counts, "bot-beta")]
    {
      var (team, bot) := TEAM_BOTS[i];
      if bot !in load {
        load := load[bot := CountOf(counts, team)];
      }
    }
  }
}
