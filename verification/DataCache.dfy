/**
 The dashboard's in-process data cache under a threading server: the cache is
 touched only inside short critical sections, the fetch runs between them, and
 the ETag sent with an answer is read in one more critical section.
 */
module DataCache {
  import opened Common

  const DATA_CACHE_TTL: real := 30.0

  /** json.dumps of the ticket summary, or its failure. */
  datatype Summary = Encodable(json: string) | Unencodable

  datatype Data = Data(content: string, summary: Summary)

  /** The empty dict. */
  const EMPTY: Data := Data("", Encodable("{}"))

  datatype Cache = Cache(data: Option<Data>, ts: real, etag: string)

  const NO_CACHE: Cache := Cache(None, 0.0, "")

  type Hash = string -> string

  function EtagOf(md5: Hash, d: Data): string {
    match d.summary
    case Encodable(json) => "\"" + md5(json) + "\""
    case Unencodable => "\"unknown\""
  }

  ghost predicate Injective(md5: Hash) {
    forall x, y :: md5(x) == md5(y) ==> x == y
  }

  /** An etag is a quoted hash: it tells apart exactly the summaries that the hash tells apart. */
  lemma EtagTellsSummaries(md5: Hash, a: Data, b: Data)
    ensures var tag := EtagOf(md5, a);
            && |tag| >= 2 && tag[0] == '"' && tag[|tag| - 1] == '"'
            && (a.summary.Encodable? ==> tag[1..|tag| - 1] == md5(a.summary.json))
            && (a.summary.Unencodable? ==> tag[1..|tag| - 1] == "unknown")
    ensures Injective(md5) && a.summary.Encodable? && b.summary.Encodable? ==>
      (EtagOf(md5, a) == EtagOf(md5, b) <==> a.summary == b.summary)
  {
  }

  predicate Fresh(cache: Cache, now: real) {
    cache.data.Some? && now - cache.ts < DATA_CACHE_TTL
  }

  function Stored(md5: Hash, latest: Data, now: real): Cache {
    Cache(Some(latest), now, EtagOf(md5, latest))
  }

  /** One write of the cache: the result and the time its request had read. */
  datatype Entry = Entry(data: Data, at: real)

  /** The cache after the given writes. */
  function CacheAfter(md5: Hash, log: seq<Entry>): Cache {
    if log == [] then NO_CACHE else Stored(md5, log[|log| - 1].data, log[|log| - 1].at)
  }

  function LatestData(log: seq<Entry>): Data {
    if log == [] then EMPTY else log[|log| - 1].data
  }

  /** The latest write is younger than the TTL. */
  predicate Recent(log: seq<Entry>, now: real) {
    log != [] && now - log[|log| - 1].at < DATA_CACHE_TTL
  }

  /** Any two writes lie at least the TTL apart. */
  ghost predicate Spaced(log: seq<Entry>) {
    forall i, j :: 0 <= i < j < |log| ==> log[j].at - log[i].at >= DATA_CACHE_TTL
  }

  /** How a fetch ends within the time limit, or fails to. */
  datatype Outcome = Returned(data: Data) | Vanished | Raised | TimedOut

  /** A whole request with nothing in between: the cache it leaves and its answer. */
  function Serve(md5: Hash, cache: Cache, now: real, fetched: Outcome): (Cache, Data) {
    if Fresh(cache, now) then (cache, cache.data.value)
    else
      match fetched
      case TimedOut | Raised => (cache, cache.data.GetOr(EMPTY))
      case Returned(latest) => (Stored(md5, latest, now), latest)
      case Vanished => (Stored(md5, EMPTY, now), EMPTY)
  }

  // ---- The shared dictionary and its critical sections ----

  class SharedCache {
    const md5: Hash
    var data: Option<Data>
    var ts: real
    var etag: string
    ghost var log: seq<Entry>

    function View(): Cache
      reads this
    {
      Cache(data, ts, etag)
    }

    ghost predicate Valid()
      reads this
    {
      View() == CacheAfter(md5, log)
    }

    constructor (md5: Hash)
      ensures Valid() && this.md5 == md5 && log == []
    {
      this.md5 := md5;
      data, ts, etag := None, 0.0, "";
      log := [];
    }

    method Lookup(now: real) returns (hit: Option<Data>)
      requires Valid()
      ensures hit == if Recent(log, now) then Some(LatestData(log)) else None
    {
      hit := None;
      if data.Some? && now - ts < DATA_CACHE_TTL {
        hit := data;
      }
    }

    method Store(latest: Data, now: real)
      requires Valid()
      modifies this
      ensures Valid() && log == old(log) + [Entry(latest, now)]
    {
      var tag := EtagOf(md5, latest);
      data := Some(latest);
      ts := now;
      etag := tag;
      log := log + [Entry(latest, now)];
    }

    /**
     One request with no other thread in between. Whatever happens to its fetch it
     answers the latest result ever written, or the empty dict before the first;
     it writes only when none is recent, so writes stay the TTL apart whatever
     the clock does.
     */
    method GetCachedDashboardData(now: real, fetched: Outcome) returns (answer: Data)
      requires Valid() && Spaced(log)
      modifies this
      ensures Valid() && Spaced(log)
      ensures answer == LatestData(log)
      ensures log == (if Recent(old(log), now) || fetched.TimedOut? || fetched.Raised? then old(log)
                      else old(log) + [Entry(answer, now)])
      ensures (View(), answer) == Serve(md5, old(View()), now, fetched)
    {
      var hit := Lookup(now);
      if hit.Some? {
        return hit.value;
      }
      match fetched
      case TimedOut =>
        answer := data.GetOr(EMPTY);
      case Raised =>
        answer := data.GetOr(EMPTY);
      case Returned(latest) =>
        Store(latest, now);
        answer := latest;
      case Vanished =>
        Store(EMPTY, now);
        answer := EMPTY;
    }
  }

  // ---- Any number of handler threads, interleaved ----

  /** A finished fetch: its result, when its request read the clock, when it began. */
  datatype Fetch = Fetch(data: Data, requested: real, begun: real)

  datatype Path = FastPath | FreshFetch | StaleFallback | EmptyFallback

  datatype Answer = Answer(path: Path, now: real, data: Data)

  /** storesBefore, storesAfter: how often the cache had been written at the answer and at the etag read. */
  datatype Response = Response(answer: Answer, etag: string, storesBefore: nat, storesAfter: nat)

  datatype Thread =
    | Idle
    | Entered(now: real)
    | Missed(now: real)
    | Fetching(now: real, begun: real)
    | Fetched(now: real, begun: real, latest: Data)
    | Failed(now: real)
    | Answered(answer: Answer, stores: nat)

  type Tid = nat

  datatype World = World(
    clock: real,
    cache: Cache,
    log: seq<Entry>,
    threads: map<Tid, Thread>,
    finished: seq<Fetch>,
    answers: seq<Answer>,
    responses: seq<Response>)

  datatype Step =
    | Tick(dt: real)
    | Enter(tid: Tid)
    | Check(tid: Tid)
    | BeginFetch(tid: Tid)
    | EndFetch(tid: Tid, outcome: Outcome)
    | Finish(tid: Tid)
    | ReadEtag(tid: Tid)

  const START: World := World(0.0, NO_CACHE, [], map[], [], [], [])

  function At(w: World, tid: Tid): Thread {
    if tid in w.threads then w.threads[tid] else Idle
  }

  function Goto(w: World, tid: Tid, t: Thread): World {
    w.(threads := w.threads[tid := t])
  }

  function Answering(w: World, tid: Tid, a: Answer): World {
    Goto(w, tid, Answered(a, |w.log|)).(answers := w.answers + [a])
  }

  /** One atomic step; a step its thread is not ready for changes nothing. */
  function Next(md5: Hash, w: World, s: Step): World {
    match s
    case Tick(dt) => if dt >= 0.0 then w.(clock := w.clock + dt) else w
    case Enter(tid) =>
      if At(w, tid).Idle? then Goto(w, tid, Entered(w.clock)) else w
    case Check(tid) =>
      (match At(w, tid)
       case Entered(now) =>
         if Fresh(w.cache, now) then Answering(w, tid, Answer(FastPath, now, w.cache.data.value))
         else Goto(w, tid, Missed(now))
       case _ => w)
    case BeginFetch(tid) =>
      (match At(w, tid)
       case Missed(now) => Goto(w, tid, Fetching(now, w.clock))
       case _ => w)
    case EndFetch(tid, outcome) =>
      (match At(w, tid)
       case Fetching(now, begun) =>
         if outcome.TimedOut? || outcome.Raised? then Goto(w, tid, Failed(now))
         else
           var latest := if outcome.Returned? then outcome.data else EMPTY;
           Goto(w, tid, Fetched(now, begun, latest)).(finished := w.finished + [Fetch(latest, now, begun)])
       case _ => w)
    case Finish(tid) =>
      (match At(w, tid)
       case Fetched(now, begun, latest) =>
         var w' := w.(cache := Stored(md5, latest, now), log := w.log + [Entry(latest, now)]);
         Answering(w', tid, Answer(FreshFetch, now, latest))
       case Failed(now) =>
         Answering(w, tid,
           if w.cache.data.Some? then Answer(StaleFallback, now, w.cache.data.value)
           else Answer(EmptyFallback, now, EMPTY))
       case _ => w)
    case ReadEtag(tid) =>
      (match At(w, tid)
       case Answered(a, stores) =>
         Goto(w, tid, Idle).(responses := w.responses + [Response(a, w.cache.etag, stores, |w.log|)])
       case _ => w)
  }

  function Exec(md5: Hash, steps: seq<Step>): World {
    if steps == [] then START
    else Next(md5, Exec(md5, steps[..|steps| - 1]), steps[|steps| - 1])
  }

  /** A thread that runs its request undisturbed does to the cache what Serve says. */
  lemma AloneIsServe(md5: Hash, w: World, tid: Tid, fetched: Outcome)
    requires At(w, tid).Idle?
    ensures var checked := Next(md5, Next(md5, w, Enter(tid)), Check(tid));
            var fetching := Next(md5, Next(md5, checked, BeginFetch(tid)), EndFetch(tid, fetched));
            var v := Next(md5, fetching, Finish(tid));
            && At(v, tid).Answered?
            && (v.cache, At(v, tid).answer.data) == Serve(md5, w.cache, w.clock, fetched)
  {
    var checked := Next(md5, Next(md5, w, Enter(tid)), Check(tid));
    if Fresh(w.cache, w.clock) {
      assert At(checked, tid).Answered?;
    } else {
      assert At(checked, tid) == Missed(w.clock) && checked.cache == w.cache;
      var fetching := Next(md5, Next(md5, checked, BeginFetch(tid)), EndFetch(tid, fetched));
      assert fetching.cache == w.cache;
      assert At(fetching, tid) ==
        match fetched
        case TimedOut | Raised => Failed(w.clock)
        case Returned(latest) => Fetched(w.clock, w.clock, latest)
        case Vanished => Fetched(w.clock, w.clock, EMPTY);
    }
  }

  // ---- What every interleaving keeps ----

  /** The cache is one finished fetch: its data, its request's clock, its summary's etag. */
  predicate OneFetch(md5: Hash, cache: Cache, f: Fetch) {
    cache == Stored(md5, f.data, f.requested)
  }

  ghost predicate CacheIsOneFetch(md5: Hash, w: World) {
    w.cache == NO_CACHE || exists f :: f in w.finished && OneFetch(md5, w.cache, f)
  }

  predicate Begins(f: Fetch, d: Data) {
    f.data == d
  }

  /** Where an answer may come from. */
  ghost predicate Justified(finished: seq<Fetch>, a: Answer) {
    match a.path
    case FastPath => exists f :: f in finished && Begins(f, a.data) && a.now - f.begun < DATA_CACHE_TTL
    case FreshFetch => exists f :: f in finished && Begins(f, a.data) && f.requested == a.now
    case StaleFallback => exists f :: f in finished && Begins(f, a.data)
    case EmptyFallback => a.data == EMPTY
  }

  /** The etag that belongs to an answer. */
  function OwnTag(md5: Hash, a: Answer): string {
    if a.path.EmptyFallback? then "" else EtagOf(md5, a.data)
  }

  /** The etag in the cache after the first k writes. */
  function TagAt(md5: Hash, log: seq<Entry>, k: nat): string
    requires k <= |log|
  {
    CacheAfter(md5, log[..k]).etag
  }

  ghost predicate ThreadOk(md5: Hash, w: World, t: Thread) {
    match t
    case Idle => true
    case Entered(now) => now <= w.clock
    case Missed(now) => now <= w.clock
    case Fetching(now, begun) => now <= begun <= w.clock
    case Fetched(now, begun, latest) => Fetch(latest, now, begun) in w.finished
    case Failed(now) => now <= w.clock
    case Answered(a, stores) => stores <= |w.log| && OwnTag(md5, a) == TagAt(md5, w.log, stores)
  }

  /** The answer's own etag was in the cache at the answer, and the sent one at the etag read. */
  predicate TagsTraced(md5: Hash, log: seq<Entry>, r: Response) {
    && r.storesBefore <= r.storesAfter <= |log|
    && OwnTag(md5, r.answer) == TagAt(md5, log, r.storesBefore)
    && r.etag == TagAt(md5, log, r.storesAfter)
  }

  ghost predicate Inv(md5: Hash, w: World) {
    && CacheIsOneFetch(md5, w)
    && w.cache == CacheAfter(md5, w.log)
    && (forall f :: f in w.finished ==> f.requested <= f.begun <= w.clock)
    && (forall tid :: tid in w.threads ==> ThreadOk(md5, w, w.threads[tid]))
    && (forall a :: a in w.answers ==> Justified(w.finished, a))
    && (forall r :: r in w.responses ==> TagsTraced(md5, w.log, r))
  }

  lemma CheckKeepsInv(md5: Hash, w: World, tid: Tid)
    requires Inv(md5, w)
    ensures Inv(md5, Next(md5, w, Check(tid)))
  {
    var t := At(w, tid);
    if t.Entered? && Fresh(w.cache, t.now) {
      var f :| f in w.finished && OneFetch(md5, w.cache, f);
      assert Begins(f, w.cache.data.value);
    }
  }

  lemma EndFetchKeepsInv(md5: Hash, w: World, tid: Tid, outcome: Outcome)
    requires Inv(md5, w)
    ensures Inv(md5, Next(md5, w, EndFetch(tid, outcome)))
  {
    var t, w' := At(w, tid), Next(md5, w, EndFetch(tid, outcome));
    if t.Fetching? && (outcome.Returned? || outcome.Vanished?) {
      var f := w'.finished[|w.finished|];
      assert forall g :: g in w.finished ==> g in w'.finished;
      if w.cache != NO_CACHE {
        var g :| g in w.finished && OneFetch(md5, w.cache, g);
        assert g in w'.finished;
      }
    }
  }

  lemma TracesStay(md5: Hash, log: seq<Entry>, e: Entry, r: Response)
    requires TagsTraced(md5, log, r)
    ensures TagsTraced(md5, log + [e], r)
  {
  }

  lemma ThreadsStayOk(md5: Hash, w: World, c: Cache, e: Entry, t: Thread)
    requires ThreadOk(md5, w, t)
    ensures ThreadOk(md5, w.(cache := c, log := w.log + [e]), t)
  {
  }

  lemma StoreKeepsInv(md5: Hash, w: World, tid: Tid)
    requires Inv(md5, w) && At(w, tid).Fetched?
    ensures Inv(md5, Next(md5, w, Finish(tid)))
  {
    var t, w' := At(w, tid), Next(md5, w, Finish(tid));
    var f, e := Fetch(t.latest, t.now, t.begun), Entry(t.latest, t.now);
    assert OneFetch(md5, w'.cache, f) && Begins(f, t.latest);
    forall r | r in w'.responses ensures TagsTraced(md5, w'.log, r) {
      TracesStay(md5, w.log, e, r);
    }
    forall other | other in w'.threads ensures ThreadOk(md5, w', w'.threads[other]) {
      if other != tid {
        ThreadsStayOk(md5, w, w'.cache, e, w.threads[other]);
      }
    }
  }

  lemma FallbackKeepsInv(md5: Hash, w: World, tid: Tid)
    requires Inv(md5, w) && At(w, tid).Failed?
    ensures Inv(md5, Next(md5, w, Finish(tid)))
  {
    if w.cache != NO_CACHE {
      var f :| f in w.finished && OneFetch(md5, w.cache, f);
      assert Begins(f, w.cache.data.value);
    }
  }

  lemma NextKeepsInv(md5: Hash, w: World, s: Step)
    requires Inv(md5, w)
    ensures Inv(md5, Next(md5, w, s))
  {
    match s
    case Check(tid) => CheckKeepsInv(md5, w, tid);
    case EndFetch(tid, outcome) => EndFetchKeepsInv(md5, w, tid, outcome);
    case Finish(tid) =>
      if At(w, tid).Fetched? {
        StoreKeepsInv(md5, w, tid);
      } else if At(w, tid).Failed? {
        FallbackKeepsInv(md5, w, tid);
      }
    case ReadEtag(tid) =>
    case _ =>
  }

  /** Safety over every run: the invariant holds after any schedule of any threads. */
  lemma {:induction false} EveryRun(md5: Hash, steps: seq<Step>)
    ensures Inv(md5, Exec(md5, steps))
  {
    if steps != [] {
      EveryRun(md5, steps[..|steps| - 1]);
      NextKeepsInv(md5, Exec(md5, steps[..|steps| - 1]), steps[|steps| - 1]);
    }
  }

  // ---- Exactly when an answer is sent under its own etag ----

  /** For every response of every run: exactly when the writes up to the etag read end in the answer's etag. */
  lemma OwnTagIff(md5: Hash, steps: seq<Step>, r: Response)
    requires r in Exec(md5, steps).responses
    ensures var log := Exec(md5, steps).log;
            && r.storesBefore <= r.storesAfter <= |log|
            && (r.etag == OwnTag(md5, r.answer) <==>
                  TagAt(md5, log, r.storesAfter) == TagAt(md5, log, r.storesBefore))
  {
    EveryRun(md5, steps);
  }

  // ---- Exactly when the cache goes back to an older request ----

  predicate SetsBack(w: World, s: Step) {
    s.Finish? && At(w, s.tid).Fetched? && At(w, s.tid).now < w.cache.ts
  }

  lemma StepSetsBackIff(md5: Hash, w: World, s: Step)
    ensures Next(md5, w, s).cache.ts < w.cache.ts <==> SetsBack(w, s)
  {
  }

  ghost predicate NeverSetsBack(md5: Hash, steps: seq<Step>) {
    forall i :: 0 <= i < |steps| ==> !SetsBack(Exec(md5, steps[..i]), steps[i])
  }

  ghost predicate CacheTimeRises(md5: Hash, steps: seq<Step>) {
    forall i, j :: 0 <= i <= j <= |steps| ==> Exec(md5, steps[..i]).cache.ts <= Exec(md5, steps[..j]).cache.ts
  }

  lemma ExecStep(md5: Hash, steps: seq<Step>, i: nat)
    requires i < |steps|
    ensures Exec(md5, steps[..i + 1]) == Next(md5, Exec(md5, steps[..i]), steps[i])
  {
    assert steps[..i + 1][..i] == steps[..i];
  }

  lemma {:induction false} RisesUpTo(md5: Hash, steps: seq<Step>, i: nat, j: nat)
    requires NeverSetsBack(md5, steps) && i <= j <= |steps|
    ensures Exec(md5, steps[..i]).cache.ts <= Exec(md5, steps[..j]).cache.ts
    decreases j
  {
    if i < j {
      RisesUpTo(md5, steps, i, j - 1);
      ExecStep(md5, steps, j - 1);
      StepSetsBackIff(md5, Exec(md5, steps[..j - 1]), steps[j - 1]);
    }
  }

  /** Over a run the cache time never falls exactly when no thread finishes with a clock reading older than it. */
  lemma CacheTimeRisesIff(md5: Hash, steps: seq<Step>)
    ensures CacheTimeRises(md5, steps) <==> NeverSetsBack(md5, steps)
  {
    if NeverSetsBack(md5, steps) {
      forall i, j | 0 <= i <= j <= |steps|
        ensures Exec(md5, steps[..i]).cache.ts <= Exec(md5, steps[..j]).cache.ts
      {
        RisesUpTo(md5, steps, i, j);
      }
    } else {
      var i :| 0 <= i < |steps| && SetsBack(Exec(md5, steps[..i]), steps[i]);
      ExecStep(md5, steps, i);
      StepSetsBackIff(md5, Exec(md5, steps[..i]), steps[i]);
    }
  }

  // ---- Runs in which both happen ----

  lemma Extend(md5: Hash, steps: seq<Step>, w: World, s: Step) returns (steps': seq<Step>, w': World)
    requires w == Exec(md5, steps)
    ensures steps' == steps + [s] && w' == Next(md5, w, s) && w' == Exec(md5, steps')
  {
    steps' := steps + [s];
    w' := Next(md5, w, s);
    assert steps'[..|steps'| - 1] == steps;
  }

  predicate Untouched(w: World) {
    w.cache == NO_CACHE && w.log == [] && w.responses == [] && w.answers == []
  }

  lemma BothChecked(md5: Hash, dt: real) returns (steps: seq<Step>, w: World)
    requires dt >= 0.0
    ensures w == Exec(md5, steps) && Untouched(w) && w.clock == dt
    ensures At(w, 1) == Missed(0.0) && At(w, 2) == Missed(dt)
  {
    steps, w := [], START;
    steps, w := Extend(md5, steps, w, Enter(1));
    steps, w := Extend(md5, steps, w, Check(1));
    steps, w := Extend(md5, steps, w, Tick(dt));
    steps, w := Extend(md5, steps, w, Enter(2));
    steps, w := Extend(md5, steps, w, Check(2));
  }

  /** Two requests miss together and both fetch; thread 1 read its clock dt before thread 2. */
  lemma BothMiss(md5: Hash, dt: real, a: Data, b: Data) returns (steps: seq<Step>, w: World)
    requires dt >= 0.0
    ensures w == Exec(md5, steps) && Untouched(w)
    ensures At(w, 1) == Fetched(0.0, dt, a) && At(w, 2) == Fetched(dt, dt, b)
  {
    steps, w := BothChecked(md5, dt);
    steps, w := Extend(md5, steps, w, BeginFetch(1));
    steps, w := Extend(md5, steps, w, BeginFetch(2));
    steps, w := Extend(md5, steps, w, EndFetch(1, Returned(a)));
    steps, w := Extend(md5, steps, w, EndFetch(2, Returned(b)));
  }

  /**
   The ETag is read in its own critical section, so another thread's store can
   slip in between: whenever two results have different etags, some run sends
   one of them under the etag of the other.
   */
  lemma EtagCanBelongToOtherData(md5: Hash, a: Data, b: Data) returns (steps: seq<Step>, r: Response)
    requires EtagOf(md5, a) != EtagOf(md5, b)
    ensures r in Exec(md5, steps).responses
    ensures r.answer.data == a && r.etag == EtagOf(md5, b)
  {
    var w;
    steps, w := BothMiss(md5, 0.0, a, b);
    steps, w := Extend(md5, steps, w, Finish(1));
    steps, w := Extend(md5, steps, w, Finish(2));
    steps, w := Extend(md5, steps, w, ReadEtag(1));
    r := w.responses[0];
  }

  /** A slow request overwrites a later one's result and sets the cache time back. */
  lemma CacheTimeCanGoBack(md5: Hash, dt: real, a: Data, b: Data) returns (before: seq<Step>, after: seq<Step>)
    requires dt > 0.0
    ensures before < after
    ensures Exec(md5, before).cache == Stored(md5, b, dt)
    ensures Exec(md5, after).cache == Stored(md5, a, 0.0)
  {
    var steps, w := BothMiss(md5, dt, a, b);
    steps, w := Extend(md5, steps, w, Finish(2));
    before := steps;
    steps, w := Extend(md5, steps, w, Finish(1));
    after := steps;
  }
}
