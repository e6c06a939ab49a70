/**
 The circuit breaker: a bounded window of outcomes, a trip rule, a pause, and
 a state file that a restarted process reads back.

 Times are integers (microseconds); a write to the state file may fail, in
 which case the source logs a warning and goes on.
 */
module CircuitBreaker {
  import opened Common

  const MIN_RESULTS: nat := 5

  datatype Config = Config(windowSize: nat, threshold: real, pauseDuration: int)

  /** What the state file holds, and what the breaker holds in memory. */
  datatype State = State(results: seq<bool>, pausedUntil: Option<int>)

  function FailureRate(results: seq<bool>): real {
    if results == [] then 0.0 else Count(results, false) as real / |results| as real
  }

  predicate Trips(results: seq<bool>, threshold: real) {
    |results| >= MIN_RESULTS && FailureRate(results) >= threshold
  }

  lemma ScaledRate(failures: nat, n: nat, p: real)
    requires n > 0
    ensures failures as real / n as real >= p <==> failures as real >= p * n as real
  {
    var q := failures as real / n as real;
    assert q * n as real == failures as real;
    if q >= p {
      assert (q - p) * n as real >= 0.0;
    } else {
      assert (p - q) * n as real > 0.0;
    }
  }

  /** The trip rule: at least five results, of which at least the threshold's share are failures. */
  lemma TripRule(results: seq<bool>, p: real)
    ensures Trips(results, p) <==> |results| >= 5 && multiset(results)[false] as real >= p * |results| as real
  {
    CountIsMultiplicity(results, false);
    if results != [] {
      ScaledRate(Count(results, false), |results|, p);
    }
  }

  predicate PausedAt(pausedUntil: Option<int>, now: int) {
    pausedUntil.Some? && now < pausedUntil.value
  }

  /** Python's s[-n:]: the whole sequence when n is 0. */
  function SliceFromEnd<T>(s: seq<T>, n: nat): seq<T> {
    if n == 0 || n >= |s| then s else s[|s| - n..]
  }

  // ---- One process and its state file, step by step ----

  datatype Event =
    | Record(success: bool, now: int, saved: bool)
    | Skip
    | Clear(saved: bool)
    | Restart
    | LoseFile

  datatype Machine = Machine(mem: State, file: Option<State>)

  function Load(cfg: Config, file: Option<State>): State {
    match file
    case None => State([], None)
    case Some(st) => State(SliceFromEnd(st.results, cfg.windowSize), st.pausedUntil)
  }

  function Save(mem: State, file: Option<State>, saved: bool): Machine {
    Machine(mem, if saved then Some(mem) else file)
  }

  function Pushed(results: seq<bool>, success: bool, size: nat): seq<bool> {
    var grown := results + [success];
    if |grown| > size then grown[1..] else grown
  }

  function PauseAfter(cfg: Config, results: seq<bool>, now: int, pausedUntil: Option<int>): Option<int> {
    if Trips(results, cfg.threshold) then Some(now + cfg.pauseDuration) else pausedUntil
  }

  function Step(cfg: Config, m: Machine, e: Event): Machine {
    match e
    case Record(success, now, saved) =>
      var results := Pushed(m.mem.results, success, cfg.windowSize);
      Save(State(results, PauseAfter(cfg, results, now, m.mem.pausedUntil)), m.file, saved)
    case Skip => m
    case Clear(saved) => Save(m.mem.(pausedUntil := None), m.file, saved)
    case Restart => m.(mem := Load(cfg, m.file))
    case LoseFile => m.(file := None)
  }

  function Run(cfg: Config, events: seq<Event>): Machine {
    if events == [] then Machine(State([], None), None)
    else Step(cfg, Run(cfg, events[..|events| - 1]), events[|events| - 1])
  }

  class StateFile {
    var content: Option<State>

    constructor ()
      ensures content == None
    {
      content := None;
    }
  }

  class Breaker {
    const cfg: Config
    const file: StateFile
    var results: seq<bool>
    var pausedUntil: Option<int>
    ghost var events: seq<Event>

    ghost predicate Valid()
      reads this, file
    {
      Machine(State(results, pausedUntil), file.content) == Run(cfg, events)
    }

    /** A fresh process: whatever the earlier ones saved is loaded. */
    constructor (cfg: Config, file: StateFile, ghost past: seq<Event>)
      requires file.content == Run(cfg, past).file
      ensures Valid() && this.cfg == cfg && this.file == file
      ensures events == past + [Restart]
    {
      this.cfg := cfg;
      this.file := file;
      var st := Load(cfg, file.content);
      results := st.results;
      pausedUntil := st.pausedUntil;
      events := past + [Restart];
      new;
      assert events[..|events| - 1] == past;
    }

    method SaveState(saved: bool)
      modifies file
      ensures file.content == Save(State(results, pausedUntil), old(file.content), saved).file
    {
      if saved {
        file.content := Some(State(results, pausedUntil));
      }
    }

    method Push(success: bool)
      modifies this`results
      ensures results == Pushed(old(results), success, cfg.windowSize)
    {
      results := results + [success];
      if |results| > cfg.windowSize {
        results := results[1..];
      }
    }

    method TripIfDue(now: int)
      modifies this`pausedUntil
      ensures pausedUntil == PauseAfter(cfg, results, now, old(pausedUntil))
      ensures pausedUntil ==
        if |results| >= 5 && multiset(results)[false] as real >= cfg.threshold * |results| as real
        then Some(now + cfg.pauseDuration) else old(pausedUntil)
    {
      TripRule(results, cfg.threshold);
      if |results| >= MIN_RESULTS && FailureRate(results) >= cfg.threshold {
        pausedUntil := Some(now + cfg.pauseDuration);
      }
    }

    method RecordResult(success: bool, now: int, saved: bool)
      requires Valid()
      modifies this, file
      ensures Valid() && events == old(events) + [Record(success, now, saved)]
      ensures results == if |old(results)| < cfg.windowSize then old(results) + [success]
                         else (old(results) + [success])[1..]
    {
      Push(success);
      TripIfDue(now);
      SaveState(saved);
      events := events + [Record(success, now, saved)];
    }

    method RecordSkip()
      requires Valid()
      modifies this`events
      ensures Valid() && events == old(events) + [Skip]
    {
      events := events + [Skip];
    }

    method ClearPause(saved: bool)
      requires Valid()
      modifies this, file
      ensures Valid() && events == old(events) + [Clear(saved)]
    {
      pausedUntil := None;
      SaveState(saved);
      events := events + [Clear(saved)];
    }

    /** The answer a caller gets, stated on the history alone. */
    method IsPaused(now: int) returns (paused: bool)
      requires Valid()
      ensures paused <==> PausedAt(PauseOf(cfg, Surviving(events).live), now)
      ensures ClockOrdered(Surviving(events).live) ==>
        (paused <==> HasRecentTrip(cfg, Surviving(events).live, now))
    {
      paused := pausedUntil.Some? && now < pausedUntil.value;
      HistoryDecides(cfg, events);
      if ClockOrdered(Surviving(events).live) {
        PausedIffRecentTrip(cfg, Surviving(events).live, now);
      }
    }

    /** The orchestrator's reset: the state file is removed behind the process's back. */
    method RemoveStateFile()
      requires Valid()
      modifies this`events, file
      ensures Valid() && events == old(events) + [LoseFile]
    {
      file.content := None;
      events := events + [LoseFile];
    }
  }

  // ---- The history that counts ----

  /** live: the events the process remembers; stored: those its state file remembers. */
  datatype Memory = Memory(live: seq<Event>, stored: seq<Event>)

  /** A restart forgets what was never saved; a lost file forgets everything at the next restart. */
  function Surviving(events: seq<Event>): Memory {
    if events == [] then Memory([], [])
    else
      var m, e := Surviving(events[..|events| - 1]), events[|events| - 1];
      match e
      case Record(_, _, saved) => Memory(m.live + [e], if saved then m.live + [e] else m.stored)
      case Clear(saved) => Memory(m.live + [e], if saved then m.live + [e] else m.stored)
      case Skip => m
      case Restart => m.(live := m.stored)
      case LoseFile => m.(stored := [])
  }

  function Outcomes(h: seq<Event>): seq<bool> {
    if h == [] then []
    else if h[|h| - 1].Record? then Outcomes(h[..|h| - 1]) + [h[|h| - 1].success]
    else Outcomes(h[..|h| - 1])
  }

  function LastN<T>(s: seq<T>, n: nat): seq<T> {
    if n >= |s| then s else s[|s| - n..]
  }

  /** The i-th event is a record after which the last outcomes met the trip rule. */
  predicate TripsAt(cfg: Config, h: seq<Event>, i: int) {
    0 <= i < |h| && h[i].Record? && Trips(LastN(Outcomes(h[..i + 1]), cfg.windowSize), cfg.threshold)
  }

  lemma WindowRule(o: seq<bool>, size: nat, n: nat, p: real)
    requires n == if |o| < size then |o| else size
    ensures Trips(LastN(o, size), p) <==> n >= 5 && multiset(o[|o| - n..])[false] as real / n as real >= p
  {
    CountIsMultiplicity(o[|o| - n..], false);
  }

  /** The rule over a history: a record trips on the last min(n, W) of the n outcomes up to it. */
  lemma TripsAtIff(cfg: Config, h: seq<Event>, i: nat)
    requires i < |h|
    ensures var o := Outcomes(h[..i + 1]);
            var n := if |o| < cfg.windowSize then |o| else cfg.windowSize;
            TripsAt(cfg, h, i) <==>
              h[i].Record? && n >= 5 && multiset(o[|o| - n..])[false] as real / n as real >= cfg.threshold
  {
    var o := Outcomes(h[..i + 1]);
    WindowRule(o, cfg.windowSize, if |o| < cfg.windowSize then |o| else cfg.windowSize, cfg.threshold);
  }

  /** What a record does, whatever the rule is called. */
  lemma RecordEffect(cfg: Config, m: Machine, success: bool, now: int, saved: bool)
    ensures var st := Step(cfg, m, Record(success, now, saved)).mem;
            st.pausedUntil ==
              if |st.results| >= 5 && multiset(st.results)[false] as real / |st.results| as real >= cfg.threshold
              then Some(now + cfg.pauseDuration) else m.mem.pausedUntil
  {
    CountIsMultiplicity(Pushed(m.mem.results, success, cfg.windowSize), false);
  }

  predicate ClearedAfter(h: seq<Event>, i: int)
    requires -1 <= i
  {
    exists j :: i < j < |h| && h[j].Clear?
  }

  /** Some record since the last clear tripped less than the pause duration before now. */
  ghost predicate HasRecentTrip(cfg: Config, h: seq<Event>, now: int) {
    exists i :: RecentTrip(cfg, h, i, now)
  }

  predicate RecentTrip(cfg: Config, h: seq<Event>, i: int, now: int) {
    TripsAt(cfg, h, i) && !ClearedAfter(h, i) && now - h[i].now < cfg.pauseDuration
  }

  ghost predicate ClockOrdered(h: seq<Event>) {
    forall i, j :: 0 <= i < j < |h| && h[i].Record? && h[j].Record? ==> h[i].now <= h[j].now
  }

  /** The pause a history leaves behind: set by its last trip, unless cleared since. */
  function PauseOf(cfg: Config, h: seq<Event>): Option<int> {
    if h == [] then None
    else
      var n := |h| - 1;
      if h[n].Clear? then None
      else if TripsAt(cfg, h, n) then Some(h[n].now + cfg.pauseDuration)
      else PauseOf(cfg, h[..n])
  }

  function StateOf(cfg: Config, h: seq<Event>): State {
    State(LastN(Outcomes(h), cfg.windowSize), PauseOf(cfg, h))
  }

  /** Pushing onto the window is keeping the last outcomes. */
  lemma PushedIsLastN(o: seq<bool>, x: bool, size: nat)
    ensures Pushed(LastN(o, size), x, size) == LastN(o + [x], size)
  {
    if |o| >= size {
      assert (LastN(o, size) + [x])[1..] == (o + [x])[|o| + 1 - size..];
    }
  }

  /** What one more remembered event does to the state. */
  lemma StateGrows(cfg: Config, h: seq<Event>, file: Option<State>, e: Event)
    requires e.Record? || e.Clear?
    ensures Step(cfg, Machine(StateOf(cfg, h), file), e).mem == StateOf(cfg, h + [e])
  {
    var g := h + [e];
    assert g[..|h|] == h && g[..|h| + 1] == g;
    if e.Record? {
      PushedIsLastN(Outcomes(h), e.success, cfg.windowSize);
      assert TripsAt(cfg, g, |h|) <==> Trips(LastN(Outcomes(g), cfg.windowSize), cfg.threshold);
    }
  }

  /**
   The history decides the state. After any events, with saves and restarts in
   any order, the window is the last windowSize surviving outcomes and the pause
   is the one the surviving history leaves; likewise for the state file.
   */
  lemma {:induction false} HistoryDecides(cfg: Config, events: seq<Event>)
    ensures Run(cfg, events).mem == StateOf(cfg, Surviving(events).live)
    ensures match Run(cfg, events).file
            case None => Surviving(events).stored == []
            case Some(st) => st == StateOf(cfg, Surviving(events).stored)
  {
    if events != [] {
      var earlier, e := events[..|events| - 1], events[|events| - 1];
      HistoryDecides(cfg, earlier);
      var m := Run(cfg, earlier);
      if e.Record? || e.Clear? {
        StateGrows(cfg, Surviving(earlier).live, m.file, e);
      }
    }
  }

  ghost predicate AllSaved(events: seq<Event>) {
    forall i :: 0 <= i < |events| ==>
      (events[i].Record? || events[i].Clear? ==> events[i].saved) && !events[i].LoseFile?
  }

  function Remembered(): Event -> bool {
    (e: Event) => e.Record? || e.Clear?
  }

  lemma {:induction false} SavedIsRemembered(events: seq<Event>)
    requires AllSaved(events)
    ensures Surviving(events).live == Surviving(events).stored == Filter(Remembered(), events)
  {
    if events != [] {
      var n := |events| - 1;
      SavedIsRemembered(events[..n]);
      assert events == events[..n] + [events[n]];
      FilterSnoc(Remembered(), events[..n], events[n]);
    }
  }

  /** With successful saves nothing is forgotten, whatever the restarts. */
  lemma SavedHistorySurvives(cfg: Config, events: seq<Event>)
    requires AllSaved(events)
    ensures Surviving(events).live == Surviving(events).stored
    ensures Surviving(events).live == Filter(Remembered(), events)
    ensures Run(cfg, events).mem.results == LastN(Outcomes(events), cfg.windowSize)
  {
    SavedIsRemembered(events);
    HistoryDecides(cfg, events);
    OutcomesOfKept(events);
  }

  lemma {:induction false} OutcomesOfKept(events: seq<Event>)
    ensures Outcomes(Filter(Remembered(), events)) == Outcomes(events)
  {
    if events != [] {
      var n := |events| - 1;
      OutcomesOfKept(events[..n]);
      assert events == events[..n] + [events[n]];
      FilterSnoc(Remembered(), events[..n], events[n]);
    }
  }

  /** An event that is no clear changes nothing about the trips before it. */
  lemma RecentTripOfPrefix(cfg: Config, h: seq<Event>, i: int, now: int)
    requires 0 <= i < |h| - 1 && !h[|h| - 1].Clear?
    ensures RecentTrip(cfg, h, i, now) <==> RecentTrip(cfg, h[..|h| - 1], i, now)
  {
    var earlier := h[..|h| - 1];
    assert h[..i + 1] == earlier[..i + 1];
    if ClearedAfter(h, i) {
      var j :| i < j < |h| && h[j].Clear?;
      assert earlier[j].Clear?;
    }
    if ClearedAfter(earlier, i) {
      var j :| i < j < |earlier| && earlier[j].Clear?;
      assert h[j].Clear?;
    }
  }

  /** On a clock that never goes back, the pause is exactly a recent, uncleared trip. */
  lemma {:induction false} PausedIffRecentTrip(cfg: Config, h: seq<Event>, now: int)
    requires ClockOrdered(h)
    ensures PausedAt(PauseOf(cfg, h), now) <==> HasRecentTrip(cfg, h, now)
  {
    if h != [] {
      var n := |h| - 1;
      if h[n].Clear? {
        forall i | TripsAt(cfg, h, i) ensures ClearedAfter(h, i) {
          assert i < n;
        }
      } else {
        PausedIffRecentTrip(cfg, h[..n], now);
        forall i | 0 <= i < n ensures RecentTrip(cfg, h, i, now) <==> RecentTrip(cfg, h[..n], i, now) {
          RecentTripOfPrefix(cfg, h, i, now);
        }
        if TripsAt(cfg, h, n) {
          assert !ClearedAfter(h, n);
          assert PausedAt(PauseOf(cfg, h), now) <==> RecentTrip(cfg, h, n, now);
          forall i | RecentTrip(cfg, h, i, now) ensures RecentTrip(cfg, h, n, now) {
            assert i <= n;
          }
        } else {
          if HasRecentTrip(cfg, h[..n], now) {
            var i :| RecentTrip(cfg, h[..n], i, now);
            assert RecentTrip(cfg, h, i, now);
          }
          if HasRecentTrip(cfg, h, now) {
            var i :| RecentTrip(cfg, h, i, now);
            assert RecentTrip(cfg, h[..n], i, now);
          }
        }
      }
    }
  }

  /** Record i stands uncleared, is recent, and came with at least five results at the threshold's failure rate. */
  ghost predicate Pauses(cfg: Config, h: seq<Event>, i: nat, now: int)
    requires i < |h|
  {
    && h[i].Record? && now - h[i].now < cfg.pauseDuration
    && (forall j :: i < j < |h| ==> !h[j].Clear?)
    && var o := Outcomes(h[..i + 1]);
       var n := if |o| < cfg.windowSize then |o| else cfg.windowSize;
       n >= 5 && multiset(o[|o| - n..])[false] as real / n as real >= cfg.threshold
  }

  lemma PausesIff(cfg: Config, h: seq<Event>, i: nat, now: int)
    requires i < |h|
    ensures RecentTrip(cfg, h, i, now) <==> Pauses(cfg, h, i, now)
  {
    TripsAtIff(cfg, h, i);
  }

  /**
   The pause in the source's terms: some surviving record with no clear after it
   was made less than the pause duration ago, and among the last min(n, W) of the
   n outcomes up to it, at least five, the share of failures met the threshold.
   */
  lemma PauseOverHistory(cfg: Config, events: seq<Event>, now: int)
    requires ClockOrdered(Surviving(events).live)
    ensures var h := Surviving(events).live;
            PausedAt(Run(cfg, events).mem.pausedUntil, now) <==>
              exists i :: 0 <= i < |h| && Pauses(cfg, h, i, now)
  {
    var h := Surviving(events).live;
    HistoryDecides(cfg, events);
    PausedIffRecentTrip(cfg, h, now);
    forall i | 0 <= i < |h| ensures RecentTrip(cfg, h, i, now) <==> Pauses(cfg, h, i, now) {
      PausesIff(cfg, h, i, now);
    }
  }

  // ---- Recovery ----

  function Successes(k: nat): seq<bool> {
    seq(k, _ => true)
  }

  lemma {:induction false} CountConcat(s: seq<bool>, t: seq<bool>, x: bool)
    ensures Count(s + t, x) == Count(s, x) + Count(t, x)
  {
    if s == [] {
      assert s + t == t;
    } else {
      assert (s + t)[0] == s[0] && (s + t)[1..] == s[1..] + t;
      CountConcat(s[1..], t, x);
    }
  }

  lemma {:induction false} CountConstant(s: seq<bool>, v: bool)
    requires forall i :: 0 <= i < |s| ==> s[i] == v
    ensures Count(s, v) == |s| && Count(s, !v) == 0
  {
    if s != [] {
      CountConstant(s[1..], v);
    }
  }

  lemma {:induction false} CountAtMostLength(s: seq<bool>, v: bool)
    ensures Count(s, v) <= |s|
  {
    if s != [] {
      CountAtMostLength(s[1..], v);
    }
  }

  /** The window after k successes: older outcomes, then as many successes as fit. */
  lemma WindowAfterSuccesses(past: seq<bool>, k: nat, size: nat) returns (older: seq<bool>)
    ensures k >= size ==> LastN(past + Successes(k), size) == Successes(size) && older == []
    ensures k < size ==> LastN(past + Successes(k), size) == older + Successes(k)
    ensures k < size ==> older == LastN(past, size - k)
  {
    older := if k >= size then [] else LastN(past, size - k);
    if k >= size {
      assert LastN(past + Successes(k), size) == Successes(size);
    }
  }

  lemma NonNegativeProduct(x: real, y: real)
    requires x >= 0.0 && y >= 0.0
    ensures x * y >= 0.0
  {
  }

  lemma OnlySuccessesNeverTrip(n: nat, p: real)
    requires p > 0.0
    ensures !Trips(Successes(n), p)
  {
    CountConstant(Successes(n), true);
  }

  /** A tripping window with at least k successes, and no more than size slots, bounds k. */
  lemma FewEnoughSuccesses(w: seq<bool>, k: nat, size: nat, p: real)
    requires 0.0 < p <= 1.0 && Trips(w, p)
    requires |w| <= size && Count(w, false) <= |w| - k
    ensures k as real <= (1.0 - p) * size as real
  {
    var n := |w| as real;
    ScaledRate(Count(w, false), |w|, p);
    assert n - k as real >= p * n;
    NonNegativeProduct(1.0 - p, size as real - n);
  }

  lemma TripsAfterSuccesses(past: seq<bool>, k: nat, size: nat, p: real)
    requires 0.0 < p <= 1.0
    requires Trips(LastN(past + Successes(k), size), p)
    ensures size >= MIN_RESULTS && k as real <= (1.0 - p) * size as real
  {
    var w := LastN(past + Successes(k), size);
    var older := WindowAfterSuccesses(past, k, size);
    if k >= size {
      OnlySuccessesNeverTrip(size, p);
    } else {
      CountConcat(older, Successes(k), false);
      CountConstant(Successes(k), true);
      CountAtMostLength(older, false);
      FewEnoughSuccesses(w, k, size, p);
    }
  }

  /** From a window of failures, k successes still trip the breaker whenever k <= (1 - p) * size. */
  lemma SuccessCanTrip(k: nat, size: nat, p: real)
    requires 0.0 < p <= 1.0
    requires size >= MIN_RESULTS && k as real <= (1.0 - p) * size as real
    ensures Trips(LastN(seq(size, _ => false) + Successes(k), size), p)
  {
    var past: seq<bool> := seq(size, _ => false);
    var w := LastN(past + Successes(k), size);
    assert (1.0 - p) * size as real < size as real by {
      assert p * size as real > 0.0;
    }
    var older := WindowAfterSuccesses(past, k, size);
    CountConcat(older, Successes(k), false);
    CountConstant(older, false);
    CountConstant(Successes(k), true);
    ScaledRate(size - k, size, p);
  }

  /**
   Recovery bound, and that it is sharp: after k consecutive successes the last
   of them can still trip the breaker, for some earlier outcomes, exactly when
   the window has at least five slots and k <= (1 - p) * size.
   */
  lemma RecoveryBound(k: nat, size: nat, p: real)
    requires 0.0 < p <= 1.0
    ensures (exists past :: Trips(LastN(past + Successes(k), size), p))
       <==> size >= MIN_RESULTS && k as real <= (1.0 - p) * size as real
  {
    if size >= MIN_RESULTS && k as real <= (1.0 - p) * size as real {
      SuccessCanTrip(k, size, p);
    } else {
      forall past | Trips(LastN(past + Successes(k), size), p) ensures false {
        TripsAfterSuccesses(past, k, size, p);
      }
    }
  }

  ghost predicate AllSuccesses(records: seq<Event>) {
    forall i :: 0 <= i < |records| ==> records[i].Record? && records[i].success
  }

  /** Records that follow are remembered after what is remembered, one by one. */
  lemma {:induction false} StreakLives(events: seq<Event>, streak: seq<Event>)
    requires AllSuccesses(streak)
    ensures Surviving(events + streak).live == Surviving(events).live + streak
    decreases |streak|
  {
    if streak == [] {
      assert events + streak == events && Surviving(events).live + streak == Surviving(events).live;
    } else {
      var e, later := streak[0], streak[1..];
      StreakLives(events + [e], later);
      assert events + streak == (events + [e]) + later;
      assert Surviving(events).live + streak == (Surviving(events).live + [e]) + later;
    }
  }

  lemma {:induction false} StreakOutcomes(live: seq<Event>, streak: seq<Event>)
    requires AllSuccesses(streak)
    ensures Outcomes(live + streak) == Outcomes(live) + Successes(|streak|)
    decreases |streak|
  {
    if streak == [] {
      assert live + streak == live;
    } else {
      var n := |streak| - 1;
      StreakOutcomes(live, streak[..n]);
      assert live + streak == (live + streak[..n]) + [streak[n]];
      assert Successes(n) + [true] == Successes(n + 1);
    }
  }

  /** k successes in a row are more than a trip allows. */
  predicate StreakIsLong(cfg: Config, k: nat) {
    cfg.windowSize < MIN_RESULTS || k as real > (1.0 - cfg.threshold) * cfg.windowSize as real
  }

  /**
   Recovery over whole histories: whatever happened before, clears, restarts and
   lost files included, a long enough streak of recorded successes leaves a
   window that does not trip, and its last success leaves the pause alone.
   */
  lemma StreakRecovers(cfg: Config, events: seq<Event>, streak: seq<Event>)
    requires 0.0 < cfg.threshold <= 1.0
    requires AllSuccesses(streak) && streak != [] && StreakIsLong(cfg, |streak|)
    ensures !Trips(Run(cfg, events + streak).mem.results, cfg.threshold)
    ensures Run(cfg, events + streak).mem.pausedUntil
         == Run(cfg, events + streak[..|streak| - 1]).mem.pausedUntil
  {
    var n := |streak| - 1;
    WindowAfterStreak(cfg, events, streak);
    LongStreakNeverTrips(cfg, Outcomes(Surviving(events).live), |streak|);
    assert events + streak == (events + streak[..n]) + [streak[n]];
  }

  lemma LongStreakNeverTrips(cfg: Config, past: seq<bool>, k: nat)
    requires 0.0 < cfg.threshold <= 1.0 && StreakIsLong(cfg, k)
    ensures !Trips(LastN(past + Successes(k), cfg.windowSize), cfg.threshold)
  {
    if Trips(LastN(past + Successes(k), cfg.windowSize), cfg.threshold) {
      TripsAfterSuccesses(past, k, cfg.windowSize, cfg.threshold);
    }
  }

  lemma WindowAfterStreak(cfg: Config, events: seq<Event>, streak: seq<Event>)
    requires AllSuccesses(streak)
    ensures Run(cfg, events + streak).mem.results
         == LastN(Outcomes(Surviving(events).live) + Successes(|streak|), cfg.windowSize)
  {
    StreakLives(events, streak);
    StreakOutcomes(Surviving(events).live, streak);
    HistoryDecides(cfg, events + streak);
  }

}
