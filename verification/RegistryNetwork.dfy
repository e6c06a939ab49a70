/**
 Many registries that mirror their registrations to one hub over posts that may
 be lost, delayed or reordered, and pull its list back. Unregistering is local:
 the hub is never told.
 */
module RegistryNetwork {
  import opened Common
  import opened AgentRegistry
  import opened RegistryHub

  type Rid = nat

  datatype World = World(
    clock: real,
    posted: seq<Card>,      // every body ever sent to the hub
    flights: seq<Card>,     // sent, neither delivered nor lost yet
    delivered: seq<Card>,   // in the order they reached the hub
    hub: seq<Card>,
    regs: map<Rid, Reg>)

  datatype Event =
    | Tick(dt: real)
    | Register(rid: Rid, card: Card)
    | ForeignPost(card: Card)
    | Deliver(flight: nat)
    | Lose(flight: nat)
    | Unregister(rid: Rid, name: string)
    | ChangeStatus(rid: Rid, name: string, status: string)
    | Expire(rid: Rid, ttl: real)
    | Pull(rid: Rid)

  const START: World := World(0.0, [], [], [], [], map[])

  function RegOf(w: World, rid: Rid): Reg {
    if rid in w.regs then w.regs[rid] else EMPTY
  }

  ghost predicate Sound(w: World) {
    && w.hub == HubAfter(w.delivered)
    && (forall rid :: RegOf(w, rid).Valid())
    && (forall c :: c in w.flights || c in w.delivered ==> c in w.posted)
  }

  function Send(w: World, c: Card): World {
    w.(posted := w.posted + [c], flights := w.flights + [c])
  }

  function WithReg(w: World, rid: Rid, r: Reg): World {
    w.(regs := w.regs[rid := r])
  }

  /** One event. A pull is a GET the hub answered; a failed one changes nothing and is no event. */
  function Next(w: World, e: Event): World
    requires Sound(w)
  {
    match e
    case Tick(dt) => if dt >= 0.0 then w.(clock := w.clock + dt) else w
    case Register(rid, c) =>
      if Named(c) then Send(WithReg(w, rid, RegisterIn(RegOf(w, rid), c, w.clock)), c) else w
    case ForeignPost(c) => Send(w, c)
    case Deliver(k) =>
      if k < |w.flights| then
        w.(flights := w.flights[..k] + w.flights[k + 1..],
           delivered := w.delivered + [w.flights[k]],
           hub := Accept(w.hub, w.flights[k]))
      else w
    case Lose(k) =>
      if k < |w.flights| then w.(flights := w.flights[..k] + w.flights[k + 1..]) else w
    case Unregister(rid, name) => WithReg(w, rid, UnregisterIn(RegOf(w, rid), name))
    case ChangeStatus(rid, name, status) => WithReg(w, rid, SetStatusIn(RegOf(w, rid), name, status))
    case Expire(rid, ttl) => WithReg(w, rid, ExpireIn(RegOf(w, rid), ttl, w.clock))
    case Pull(rid) => WithReg(w, rid, PullIn(RegOf(w, rid), w.hub, w.clock))
  }

  // ---- What each event does ----

  /** The network and the hub stand as they did; at most registry rid has changed. */
  ghost predicate OnlyRegistry(w: World, v: World, rid: Rid) {
    && v.clock == w.clock && v.posted == w.posted && v.flights == w.flights
    && v.delivered == w.delivered && v.hub == w.hub
    && forall other :: other != rid ==> RegOf(v, other) == RegOf(w, other)
  }

  /** A registration is cached, freshly stamped, and posted to the hub; a nameless one does nothing. */
  lemma RegisterEffect(w: World, rid: Rid, c: Card)
    requires Sound(w)
    ensures var v := Next(w, Register(rid, c));
            if c.name.Text? && c.name.value != "" then
              var name, r := c.name.value, RegOf(w, rid);
              && v.posted == w.posted + [c] && v.flights == w.flights + [c]
              && v.delivered == w.delivered && v.hub == w.hub && v.clock == w.clock
              && RegOf(v, rid).agents.vals == r.agents.vals[name := c]
              && RegOf(v, rid).registeredAt == r.registeredAt[name := w.clock]
              && forall other :: other != rid ==> RegOf(v, other) == RegOf(w, other)
            else v == w
  {
    assert RegOf(w, rid).Valid();
  }

  lemma PostEffect(w: World, c: Card)
    requires Sound(w)
    ensures var v := Next(w, ForeignPost(c));
            v == w.(posted := w.posted + [c], flights := w.flights + [c])
  {
  }

  lemma WithoutOne(s: seq<Card>, k: nat)
    requires k < |s|
    ensures multiset(s[..k] + s[k + 1..]) == multiset(s) - multiset{s[k]}
    ensures multiset(s) == multiset(s[..k] + s[k + 1..]) + multiset{s[k]}
  {
    assert s == s[..k] + [s[k]] + s[k + 1..];
  }

  /** A delivery moves one post from its flight to the end of what the hub got. */
  lemma DeliverEffect(w: World, k: nat)
    requires Sound(w) && k < |w.flights|
    ensures var v := Next(w, Deliver(k));
            && multiset(w.flights) == multiset(v.flights) + multiset{w.flights[k]}
            && v.delivered == w.delivered + [w.flights[k]] && v.hub == HubAfter(v.delivered)
            && v.clock == w.clock && v.posted == w.posted && v.regs == w.regs
  {
    WithoutOne(w.flights, k);
    assert (w.delivered + [w.flights[k]])[..|w.delivered|] == w.delivered;
  }

  /** A loss only ends the flight. */
  lemma LoseEffect(w: World, k: nat)
    requires Sound(w) && k < |w.flights|
    ensures var v := Next(w, Lose(k));
            && multiset(w.flights) == multiset(v.flights) + multiset{w.flights[k]}
            && v == w.(flights := v.flights)
  {
    WithoutOne(w.flights, k);
  }

  /** Unregistering takes the name out of one registry; the network and the hub are not told. */
  lemma UnregisterEffect(w: World, rid: Rid, name: string)
    requires Sound(w)
    ensures var v, r := Next(w, Unregister(rid, name)), RegOf(w, rid);
            && OnlyRegistry(w, v, rid)
            && RegOf(v, rid).agents.vals == r.agents.vals - {name}
            && RegOf(v, rid).registeredAt == r.registeredAt - {name}
  {
    assert RegOf(w, rid).Valid();
    UnregisterMeaning(RegOf(w, rid), name);
  }

  /** A status change touches one card of one registry. */
  lemma ChangeStatusEffect(w: World, rid: Rid, name: string, status: string)
    requires Sound(w)
    ensures var v, r := Next(w, ChangeStatus(rid, name, status)), RegOf(w, rid);
            && OnlyRegistry(w, v, rid)
            && RegOf(v, rid).registeredAt == r.registeredAt
            && RegOf(v, rid).agents.vals == (
              if name !in r.agents.vals then r.agents.vals
              else r.agents.vals[name := r.agents.vals[name].(status := Some(status))])
  {
    assert RegOf(w, rid).Valid();
  }

  /** Expiry and pulling change one registry only. */
  lemma ExpireAndPullAreLocal(w: World, rid: Rid, ttl: real)
    requires Sound(w)
    ensures OnlyRegistry(w, Next(w, Expire(rid, ttl)), rid)
    ensures OnlyRegistry(w, Next(w, Pull(rid)), rid)
    ensures RegOf(Next(w, Expire(rid, ttl)), rid) == ExpireIn(RegOf(w, rid), ttl, w.clock)
    ensures RegOf(Next(w, Pull(rid)), rid) == PullIn(RegOf(w, rid), w.hub, w.clock)
  {
  }

  lemma UnregisterMeaning(r: Reg, name: string)
    requires r.Valid()
    ensures UnregisterIn(r, name).agents.vals == r.agents.vals - {name}
    ensures UnregisterIn(r, name).registeredAt == r.registeredAt - {name}
  {
  }

  // ---- What every event keeps ----

  lemma DeliverKeepsPosted(w: World, k: nat)
    requires Sound(w) && k < |w.flights|
    ensures var v := Next(w, Deliver(k)); forall c :: c in v.flights || c in v.delivered ==> c in v.posted
  {
    assert w.flights[k] in w.flights;
  }

  lemma RegsStayValid(w: World, v: World)
    requires Sound(w) && v.regs == w.regs
    ensures forall rid :: RegOf(v, rid).Valid()
  {
    forall rid ensures RegOf(v, rid).Valid() {
      assert RegOf(w, rid).Valid();
    }
  }

  lemma DeliverKeepsSound(w: World, k: nat)
    requires Sound(w) && k < |w.flights|
    ensures var v := Next(w, Deliver(k));
            && Sound(v) && w.delivered <= v.delivered
            && forall name :: name != "" && Lists(w.hub, name) ==> Lists(v.hub, name)
  {
    var c, v := w.flights[k], Next(w, Deliver(k));
    assert (w.delivered + [c])[..|w.delivered|] == w.delivered;
    assert v.hub == HubAfter(v.delivered);
    forall name | name != "" && Lists(w.hub, name) ensures Lists(v.hub, name) {
      NamesNeverLost(w.delivered, c, name);
    }
    DeliverKeepsPosted(w, k);
    RegsStayValid(w, v);
  }

  lemma WithRegKeepsSound(w: World, rid: Rid, r: Reg)
    requires Sound(w) && r.Valid()
    ensures Sound(WithReg(w, rid, r))
  {
    forall other ensures RegOf(WithReg(w, rid, r), other).Valid() {
      assert RegOf(w, other).Valid();
    }
  }

  lemma SendKeepsSound(w: World, c: Card)
    requires Sound(w)
    ensures Sound(Send(w, c))
  {
    RegsStayValid(w, Send(w, c));
  }

  lemma QuietKeepsSound(w: World, v: World)
    requires Sound(w) && v.regs == w.regs && v.hub == w.hub && v.delivered == w.delivered && v.posted == w.posted
    requires forall c :: c in v.flights ==> c in w.flights
    ensures Sound(v)
  {
    RegsStayValid(w, v);
  }

  lemma NextKeepsSound(w: World, e: Event)
    requires Sound(w)
    ensures Sound(Next(w, e))
    ensures w.delivered <= Next(w, e).delivered
    ensures forall name :: name != "" && Lists(w.hub, name) ==> Lists(Next(w, e).hub, name)
  {
    match e
    case Deliver(k) =>
      if k < |w.flights| {
        DeliverKeepsSound(w, k);
      }
    case Register(rid, c) =>
      if Named(c) {
        var r := RegisterIn(RegOf(w, rid), c, w.clock);
        WithRegKeepsSound(w, rid, r);
        SendKeepsSound(WithReg(w, rid, r), c);
      }
    case ForeignPost(c) => SendKeepsSound(w, c);
    case Unregister(rid, name) => WithRegKeepsSound(w, rid, UnregisterIn(RegOf(w, rid), name));
    case ChangeStatus(rid, name, status) => WithRegKeepsSound(w, rid, SetStatusIn(RegOf(w, rid), name, status));
    case Expire(rid, ttl) => WithRegKeepsSound(w, rid, ExpireIn(RegOf(w, rid), ttl, w.clock));
    case Pull(rid) => WithRegKeepsSound(w, rid, PullIn(RegOf(w, rid), w.hub, w.clock));
    case _ => QuietKeepsSound(w, Next(w, e));
  }

  /** The world after a run of events. */
  function After(events: seq<Event>): (w: World)
    ensures Sound(w)
  {
    if events == [] then START
    else
      var v, e := After(events[..|events| - 1]), events[|events| - 1];
      NextKeepsSound(v, e);
      Next(v, e)
  }

  /**
   Every run: the registries' two maps agree, the hub lists exactly the last
   posts that reached it, each name once, and nothing nobody posted.
   */
  lemma EveryRun(events: seq<Event>)
    ensures var w := After(events);
            && Sound(w)
            && (forall c :: c in w.hub <==> StandsAmong(w.delivered, c))
            && (forall i, j :: 0 <= i < j < |w.hub| && w.hub[i].name.Text? ==> w.hub[i].name != w.hub[j].name)
  {
    var w := After(events);
    forall c ensures c in w.hub <==> StandsAmong(w.delivered, c) {
      HubHoldsLastPosts(w.delivered, c);
    }
    NamesUnique(w.delivered);
  }

  lemma AfterOneMore(events: seq<Event>, e: Event)
    ensures After(events + [e]) == Next(After(events), e)
  {
    assert (events + [e])[..|events|] == events;
  }

  /** What every further event keeps, every continuation of a run keeps. */
  lemma {:induction false} KeptByRuns(p: seq<Event> -> bool, events: seq<Event>, later: seq<Event>)
    requires forall s, e :: p(s) ==> p(s + [e])
    requires p(events)
    ensures p(events + later)
    decreases |later|
  {
    if later == [] {
      assert events + later == events;
    } else {
      var n := |later| - 1;
      KeptByRuns(p, events, later[..n]);
      assert events + later == (events + later[..n]) + [later[n]];
    }
  }

  /** No continuation of a run takes a listed name off the hub. */
  lemma NoRunLosesName(events: seq<Event>, later: seq<Event>, name: string)
    requires name != "" && Lists(After(events).hub, name)
    ensures Lists(After(events + later).hub, name)
  {
    var listed := (s: seq<Event>) => Lists(After(s).hub, name);
    forall s, e | listed(s) ensures listed(s + [e]) {
      AfterOneMore(s, e);
      NextKeepsSound(After(s), e);
    }
    KeptByRuns(listed, events, later);
  }

  // ---- Conservation: where the posts are ----

  predicate IsPost(e: Event) {
    (e.Register? && e.card.name.Text? && e.card.name.value != "") || e.ForeignPost?
  }

  /** The cards of a run's posts: its named registrations and what others posted, in order. */
  function PostsOf(events: seq<Event>): seq<Card> {
    if events == [] then []
    else
      var n := |events| - 1;
      if IsPost(events[n]) then PostsOf(events[..n]) + [events[n].card] else PostsOf(events[..n])
  }

  /** The cards of the posts that got lost. */
  function LostIn(events: seq<Event>): seq<Card> {
    if events == [] then []
    else
      var n := |events| - 1;
      LostIn(events[..n]) + LostBy(After(events[..n]), events[n])
  }

  /** Every post is in flight, delivered or lost. */
  ghost predicate Balanced(w: World, lost: seq<Card>) {
    multiset(w.posted) == multiset(w.flights) + multiset(w.delivered) + multiset(lost)
  }

  lemma NextPosts(w: World, e: Event)
    requires Sound(w)
    ensures Next(w, e).posted == if IsPost(e) then w.posted + [e.card] else w.posted
  {
    match e
    case Register(rid, c) => RegisterEffect(w, rid, c);
    case _ =>
  }

  lemma SentBalanced(w: World, v: World, lost: seq<Card>, c: Card)
    requires Balanced(w, lost)
    requires v.posted == w.posted + [c] && v.flights == w.flights + [c] && v.delivered == w.delivered
    ensures Balanced(v, lost)
  {
  }

  lemma DeliveredBalanced(w: World, v: World, lost: seq<Card>, c: Card)
    requires Balanced(w, lost) && v.posted == w.posted && v.delivered == w.delivered + [c]
    requires multiset(w.flights) == multiset(v.flights) + multiset{c}
    ensures Balanced(v, lost)
  {
  }

  lemma LostBalanced(w: World, v: World, lost: seq<Card>, c: Card)
    requires Balanced(w, lost) && v.posted == w.posted && v.delivered == w.delivered
    requires multiset(w.flights) == multiset(v.flights) + multiset{c}
    ensures Balanced(v, lost + [c])
  {
  }

  /** The card the event takes out of the network. */
  function LostBy(w: World, e: Event): seq<Card> {
    if e.Lose? && e.flight < |w.flights| then [w.flights[e.flight]] else []
  }

  lemma NetworkBalanced(w: World, k: nat, lost: seq<Card>)
    requires Sound(w) && Balanced(w, lost) && k < |w.flights|
    ensures Balanced(Next(w, Deliver(k)), lost)
    ensures Balanced(Next(w, Lose(k)), lost + [w.flights[k]])
  {
    DeliverEffect(w, k);
    DeliveredBalanced(w, Next(w, Deliver(k)), lost, w.flights[k]);
    LoseEffect(w, k);
    LostBalanced(w, Next(w, Lose(k)), lost, w.flights[k]);
  }

  lemma NextBalanced(w: World, e: Event, lost: seq<Card>)
    requires Sound(w) && Balanced(w, lost)
    ensures Balanced(Next(w, e), lost + LostBy(w, e))
  {
    assert lost + [] == lost;
    match e
    case Deliver(k) =>
      if k < |w.flights| {
        NetworkBalanced(w, k, lost);
      }
    case Lose(k) =>
      if k < |w.flights| {
        NetworkBalanced(w, k, lost);
      }
    case _ =>
  }

  lemma PostsOneMore(events: seq<Event>, e: Event)
    ensures PostsOf(events + [e]) == if IsPost(e) then PostsOf(events) + [e.card] else PostsOf(events)
    ensures LostIn(events + [e]) == LostIn(events) + LostBy(After(events), e)
  {
    assert (events + [e])[..|events|] == events;
  }

  ghost predicate PostsAccounted(events: seq<Event>) {
    After(events).posted == PostsOf(events) && Balanced(After(events), LostIn(events))
  }

  lemma NextAccounted(events: seq<Event>, e: Event)
    requires PostsAccounted(events)
    ensures PostsAccounted(events + [e])
  {
    AfterOneMore(events, e);
    PostsOneMore(events, e);
    NextPosts(After(events), e);
    NextBalanced(After(events), e, LostIn(events));
  }

  /**
   Every run posts exactly its named registrations and the posts of others, in
   order, and each of them is in flight, delivered or lost.
   */
  lemma EveryPostAccounted(events: seq<Event>)
    ensures After(events).posted == PostsOf(events)
    ensures multiset(PostsOf(events))
         == multiset(After(events).flights) + multiset(After(events).delivered) + multiset(LostIn(events))
  {
    var accounted := (s: seq<Event>) => PostsAccounted(s);
    forall s, e | accounted(s) ensures accounted(s + [e]) {
      NextAccounted(s, e);
    }
    KeptByRuns(accounted, [], events);
    assert [] + events == events;
  }

  /** A posted registration that is neither lost nor in flight is listed by the hub. */
  lemma RegisteredIsListed(w: World, lost: seq<Card>, c: Card)
    requires w.hub == HubAfter(w.delivered) && Balanced(w, lost)
    requires Named(c) && c in w.posted && c !in lost && c !in w.flights
    ensures Lists(w.hub, c.name.value)
  {
    assert c in multiset(w.posted);
    assert c in w.delivered;
    DeliveredIsListed(w.delivered, c);
  }

  // ---- Pulling ----

  lemma {:induction false} PullTakesEach(r: Reg, cards: seq<Card>, now: real, i: nat)
    requires r.Valid() && i < |cards| && Named(cards[i])
    requires forall k, j :: 0 <= k < j < |cards| && cards[k].name.Text? ==> cards[k].name != cards[j].name
    ensures cards[i].name.value in PullIn(r, cards, now).agents.vals
    ensures PullIn(r, cards, now).agents.vals[cards[i].name.value] == cards[i]
    ensures PullIn(r, cards, now).registeredAt[cards[i].name.value] == now
  {
    var n := |cards| - 1;
    if i < n {
      assert cards[..n][i] == cards[i];
      PullTakesEach(r, cards[..n], now, i);
      assert cards[i].name != cards[n].name;
    }
  }

  lemma {:induction false} PullLeavesOthers(r: Reg, cards: seq<Card>, now: real, name: string)
    requires r.Valid() && !Lists(cards, name)
    ensures name in PullIn(r, cards, now).agents.vals <==> name in r.agents.vals
    ensures name in r.agents.vals ==> PullIn(r, cards, now).agents.vals[name] == r.agents.vals[name]
  {
    if cards != [] {
      var n := |cards| - 1;
      assert cards[n] in cards;
      PullLeavesOthers(r, cards[..n], now, name);
    }
  }

  lemma PulledIffListed(r: Reg, cards: seq<Card>, now: real, name: string)
    requires r.Valid() && name != "" && name !in r.agents.vals
    requires forall k, j :: 0 <= k < j < |cards| && cards[k].name.Text? ==> cards[k].name != cards[j].name
    ensures name in PullIn(r, cards, now).agents.vals <==> Lists(cards, name)
  {
    if Lists(cards, name) {
      var c :| c in cards && c.name == Text(name);
      var i :| 0 <= i < |cards| && cards[i] == c;
      PullTakesEach(r, cards, now, i);
    } else {
      PullLeavesOthers(r, cards, now, name);
    }
  }

  /** Right after a pull the registry holds the hub's card of every named entry, freshly stamped. */
  lemma PullAgreesWithHub(w: World, rid: Rid, i: nat)
    requires Sound(w) && i < |w.hub| && Named(w.hub[i])
    ensures var r, name := RegOf(Next(w, Pull(rid)), rid), w.hub[i].name.value;
            name in r.agents.vals && r.agents.vals[name] == w.hub[i] && r.registeredAt[name] == w.clock
  {
    NamesUnique(w.delivered);
    PullTakesEach(RegOf(w, rid), w.hub, w.clock, i);
  }

  /** An unregistered agent comes back with the next pull exactly when the hub still lists it. */
  lemma UnregisterUndoneIff(w: World, rid: Rid, name: string)
    requires Sound(w) && name != ""
    ensures Sound(Next(w, Unregister(rid, name)))
    ensures name !in RegOf(Next(w, Unregister(rid, name)), rid).agents.vals
    ensures name in RegOf(Next(Next(w, Unregister(rid, name)), Pull(rid)), rid).agents.vals <==> Lists(w.hub, name)
  {
    var r := UnregisterIn(RegOf(w, rid), name);
    var v := Next(w, Unregister(rid, name));
    WithRegKeepsSound(w, rid, r);
    assert v == WithReg(w, rid, r) && RegOf(v, rid) == r;
    assert RegOf(Next(v, Pull(rid)), rid) == PullIn(r, w.hub, w.clock);
    NamesUnique(w.delivered);
    PulledIffListed(r, w.hub, w.clock, name);
  }
}
