/**
 The agent registry: a local cache of agent cards in insertion order with the
 time each was registered, TTL expiry, and the choice of an agent for a task.
 */
module AgentRegistry {
  import opened Common
  import opened OrderedDict
  import opened StableSort

  const DEFAULT_PRIORITY: int := 100

  datatype Skill = Skill(id: Option<string>, tags: set<string>)

  /** What a JSON object says for a name: nothing, null, or a string. */
  datatype Name = Absent | Null | Text(value: string)

  /** An agent card; other absent fields are None. */
  datatype Card = Card(
    name: Name,
    status: Option<string>,
    priority: Option<int>,
    skills: seq<Skill>,
    url: string)

  predicate Named(c: Card) {
    c.name.Text? && c.name.value != ""
  }

  function Status(c: Card): string {
    c.status.GetOr("online")
  }

  function Priority(c: Card): int {
    c.priority.GetOr(DEFAULT_PRIORITY)
  }

  predicate HasSkill(c: Card, task: string) {
    exists s :: s in c.skills && (s.id == Some(task) || task in s.tags)
  }

  function AllTags(c: Card): set<string> {
    set s, t | s in c.skills && t in s.tags :: t
  }

  // ---- The registry as a value ----

  datatype Reg = Reg(agents: Dict<string, Card>, registeredAt: map<string, real>) {
    /** Both maps have the same keys, and every card sits under its own name. */
    ghost predicate Valid() {
      && agents.Valid()
      && registeredAt.Keys == agents.vals.Keys
      && forall k :: k in agents.vals ==> k != "" && agents.vals[k].name == Text(k)
    }
  }

  const EMPTY: Reg := Reg(Dict([], map[]), map[])

  function RegisterIn(r: Reg, c: Card, now: real): (r': Reg)
    requires r.Valid()
    ensures r'.Valid()
  {
    if !Named(c) then r
    else Reg(r.agents.Put(c.name.value, c), r.registeredAt[c.name.value := now])
  }

  function UnregisterIn(r: Reg, name: string): (r': Reg)
    requires r.Valid()
    ensures r'.Valid()
  {
    if name !in r.agents.vals then r
    else Reg(r.agents.Remove(name), r.registeredAt - {name})
  }

  function SetStatusIn(r: Reg, name: string, status: string): (r': Reg)
    requires r.Valid()
    ensures r'.Valid()
  {
    if name !in r.agents.vals then r
    else r.(agents := r.agents.Put(name, r.agents.vals[name].(status := Some(status))))
  }

  /** Cards pulled from the hub, in its order; nameless ones are skipped. */
  function PullIn(r: Reg, cards: seq<Card>, now: real): (r': Reg)
    requires r.Valid()
    ensures r'.Valid()
  {
    if cards == [] then r
    else RegisterIn(PullIn(r, cards[..|cards| - 1], now), cards[|cards| - 1], now)
  }

  predicate Stale(r: Reg, ttl: real, now: real, name: string) {
    name in r.registeredAt && now - r.registeredAt[name] > ttl
  }

  function StaleNames(r: Reg, ttl: real, now: real): string -> bool {
    (name: string) => Stale(r, ttl, now, name)
  }

  /** Popping the names one after the other. */
  function PopAll(r: Reg, names: seq<string>): (r': Reg)
    requires r.Valid()
    ensures r'.Valid()
  {
    if names == [] then r else UnregisterIn(PopAll(r, names[..|names| - 1]), names[|names| - 1])
  }

  function ExpireIn(r: Reg, ttl: real, now: real): (r': Reg)
    requires r.Valid()
    ensures r'.Valid()
  {
    PopAll(r, Filter(StaleNames(r, ttl, now), r.agents.keys))
  }

  // ---- Choosing an agent ----

  function Eligible(task: string, exclude: set<string>): Card -> bool {
    (c: Card) => !(c.name.Text? && c.name.value in exclude) && Status(c) == "online" && HasSkill(c, task)
  }

  function TierTagged(severity: string): Card -> bool {
    (c: Card) => severity in AllTags(c) || "heavy" in AllTags(c)
  }

  function LowerFirst(): (Card, Card) -> bool {
    (a: Card, b: Card) => Priority(a) <= Priority(b)
  }

  predicate Urgent(severity: string) {
    severity == "critical" || severity == "high"
  }

  /** The cards a choice is made from: the tier-tagged ones if urgency asks and there are any. */
  function Pool(r: Reg, task: string, severity: string, exclude: set<string>): seq<Card>
    requires r.Valid()
  {
    Preferred(Filter(Eligible(task, exclude), r.agents.Values()), severity)
  }

  function Preferred(eligible: seq<Card>, severity: string): seq<Card> {
    var tagged := Filter(TierTagged(severity), eligible);
    if Urgent(severity) && tagged != [] then tagged else eligible
  }

  /** c is the first of pool by priority, and by insertion order between equal priorities. */
  ghost predicate FirstByPriority(pool: seq<Card>, c: Card) {
    exists k :: 0 <= k < |pool| && Leads(pool, k) && c == pool[k]
  }

  ghost predicate Leads(pool: seq<Card>, k: nat)
    requires k < |pool|
  {
    && (forall i :: 0 <= i < |pool| ==> Priority(pool[k]) <= Priority(pool[i]))
    && (forall i :: 0 <= i < k ==> Priority(pool[k]) < Priority(pool[i]))
  }

  class Registry {
    const ttl: real
    var agents: Dict<string, Card>
    var registeredAt: map<string, real>

    function View(): Reg
      reads this
    {
      Reg(agents, registeredAt)
    }

    ghost predicate Valid()
      reads this
    {
      View().Valid()
    }

    constructor (ttl: real)
      ensures Valid() && this.ttl == ttl && View() == EMPTY
    {
      this.ttl := ttl;
      agents, registeredAt := Dict([], map[]), map[];
    }

    /** False stands for the ValueError a nameless card raises. */
    method Register(c: Card, now: real) returns (ok: bool)
      requires Valid()
      modifies this
      ensures Valid() && View() == RegisterIn(old(View()), c, now)
      ensures ok <==> c.name.Text? && c.name.value != ""
      ensures !ok ==> View() == old(View())
      ensures ok ==> agents.vals == old(agents).vals[c.name.value := c]
      ensures ok ==> registeredAt == old(registeredAt)[c.name.value := now]
    {
      if !c.name.Text? || c.name.value == "" {
        return false;
      }
      agents := agents.Put(c.name.value, c);
      registeredAt := registeredAt[c.name.value := now];
      ok := true;
    }

    method Unregister(name: string) returns (found: bool)
      requires Valid()
      modifies this
      ensures Valid() && View() == UnregisterIn(old(View()), name)
      ensures found <==> name in old(agents).vals
      ensures agents.vals == old(agents).vals - {name} && registeredAt == old(registeredAt) - {name}
    {
      found := name in agents.vals;
      if found {
        agents := agents.Remove(name);
        registeredAt := registeredAt - {name};
      }
    }

    method SetStatus(name: string, status: string) returns (found: bool)
      requires Valid()
      modifies this
      ensures Valid() && View() == SetStatusIn(old(View()), name, status)
      ensures found <==> name in old(agents).vals
      ensures !found ==> View() == old(View())
      ensures found ==> registeredAt == old(registeredAt)
      ensures found ==> agents.vals == old(agents).vals[name := old(agents).vals[name].(status := Some(status))]
    {
      found := name in agents.vals;
      if found {
        agents := agents.Put(name, agents.vals[name].(status := Some(status)));
      }
    }

    /** Discovery through the hub: cards is what GET /v1/agents returned. */
    method DiscoverFromHub(cards: seq<Card>, now: real)
      requires Valid()
      modifies this
      ensures Valid() && View() == PullIn(old(View()), cards, now)
    {
      for i := 0 to |cards|
        invariant Valid() && View() == PullIn(old(View()), cards[..i], now)
      {
        assert cards[..i + 1][..i] == cards[..i];
        if cards[i].name.Text? && cards[i].name.value != "" {
          var name := cards[i].name.value;
          agents := agents.Put(name, cards[i]);
          registeredAt := registeredAt[name := now];
        }
      }
      assert cards[..|cards|] == cards;
    }

    method Pop(name: string)
      requires Valid()
      modifies this
      ensures Valid() && View() == UnregisterIn(old(View()), name)
    {
      if name in agents.vals {
        agents := agents.Remove(name);
        registeredAt := registeredAt - {name};
      }
    }

    /** The expired names are collected first and popped after. */
    method ExpireStale(now: real)
      requires Valid()
      modifies this
      ensures Valid() && View() == ExpireIn(old(View()), ttl, now)
    {
      var expired := Filter(StaleNames(View(), ttl, now), agents.keys);
      for i := 0 to |expired|
        invariant Valid() && View() == PopAll(old(View()), expired[..i])
      {
        assert expired[..i + 1][..i] == expired[..i];
        Pop(expired[i]);
      }
      assert expired[..|expired|] == expired;
    }

    /** The eligible cards in insertion order. */
    method Candidates(task: string, exclude: set<string>) returns (candidates: seq<Card>)
      requires Valid()
      ensures candidates == Filter(Eligible(task, exclude), agents.Values())
    {
      candidates := [];
      ghost var all := agents.Values();
      for i := 0 to |agents.keys|
        invariant candidates == Filter(Eligible(task, exclude), all[..i])
      {
        var name := agents.keys[i];
        assert name in agents.vals;
        var card := agents.vals[name];
        FilterStep(Eligible(task, exclude), all, i);
        if name !in exclude && Status(card) == "online" && HasSkill(card, task) {
          candidates := candidates + [card];
        }
      }
      assert all[..|agents.keys|] == all;
    }

    /** The chosen card, or None. */
    method SelectAgent(task: string, severity: string, exclude: set<string>, now: real) returns (chosen: Option<Card>)
      requires Valid()
      modifies this
      ensures Valid() && View() == ExpireIn(old(View()), ttl, now)
      ensures chosen == None <==> Pool(View(), task, severity, exclude) == []
      ensures chosen.Some? ==> FirstByPriority(Pool(View(), task, severity, exclude), chosen.value)
    {
      ExpireStale(now);
      var candidates := Candidates(task, exclude);
      chosen := None;
      if candidates != [] {
        var card := Choose(candidates, severity);
        chosen := Some(card);
      }
    }
  }

  /** The walk along the sorted candidates for the first tagged one. */
  method FindTagged(sorted: seq<Card>, tagged: Card -> bool) returns (k: nat)
    ensures k <= |sorted| && Filter(tagged, sorted[..k]) == []
    ensures k < |sorted| ==> tagged(sorted[k])
  {
    k := 0;
    while k < |sorted| && !tagged(sorted[k])
      invariant 0 <= k <= |sorted|
      invariant Filter(tagged, sorted[..k]) == []
    {
      assert sorted[..k + 1] == sorted[..k] + [sorted[k]];
      FilterConcat(tagged, sorted[..k], [sorted[k]]);
      k := k + 1;
    }
  }

  /** The sort by priority, then the first tier-tagged card if urgency asks for one. */
  method Choose(candidates: seq<Card>, severity: string) returns (card: Card)
    requires candidates != []
    ensures FirstByPriority(Preferred(candidates, severity), card)
  {
    var sorted := Sort(LowerFirst(), candidates);
    HeadLeads(candidates);
    if Urgent(severity) {
      var k := FindTagged(sorted, TierTagged(severity));
      FirstTagged(TierTagged(severity), candidates, sorted, k);
      if k < |sorted| {
        HeadLeads(Filter(TierTagged(severity), candidates));
        return sorted[k];
      }
    }
    card := sorted[0];
  }

  /** The first tagged card of the sorted candidates heads the sort of the tagged candidates. */
  lemma FirstTagged(p: Card -> bool, candidates: seq<Card>, sorted: seq<Card>, k: nat)
    requires sorted == Sort(LowerFirst(), candidates) && k <= |sorted|
    requires Filter(p, sorted[..k]) == [] && (k < |sorted| ==> p(sorted[k]))
    ensures k < |sorted| ==> Filter(p, candidates) != [] && Sort(LowerFirst(), Filter(p, candidates)) != []
    ensures k < |sorted| ==> sorted[k] == Sort(LowerFirst(), Filter(p, candidates))[0]
    ensures k == |sorted| ==> Filter(p, candidates) == []
  {
    FilterOfSort(LowerFirst(), p, candidates);
    SortCorrect(LowerFirst(), Filter(p, candidates));
    assert sorted == sorted[..k] + sorted[k..];
    FilterConcat(p, sorted[..k], sorted[k..]);
  }

  lemma HeadLeads(pool: seq<Card>)
    requires pool != []
    ensures Sort(LowerFirst(), pool) != [] && FirstByPriority(pool, Sort(LowerFirst(), pool)[0])
  {
    var k := SortHead(LowerFirst(), pool);
    forall i | 0 <= i < |pool| ensures Priority(pool[k]) <= Priority(pool[i]) {
      assert LowerFirst()(pool[k], pool[i]);
    }
    forall i | 0 <= i < k ensures Priority(pool[k]) < Priority(pool[i]) {
      assert !LowerFirst()(pool[i], pool[k]);
    }
    assert Leads(pool, k);
  }

  /** The cards a choice may fall on: cached under their name, not excluded, online and skilled. */
  lemma EligibleMeaning(r: Reg, task: string, exclude: set<string>, c: Card)
    requires r.Valid()
    ensures c in Filter(Eligible(task, exclude), r.agents.Values()) <==>
      && c.name.Text? && c.name.value in r.agents.vals && r.agents.vals[c.name.value] == c
      && c.name.value !in exclude
      && (c.status == None || c.status == Some("online"))
      && exists s :: s in c.skills && (s.id == Some(task) || task in s.tags)
  {
    var all := r.agents.Values();
    FilterMembers(Eligible(task, exclude), all);
    if c in all {
      var i :| 0 <= i < |all| && all[i] == c;
      assert r.agents.keys[i] in r.agents.vals;
    }
    if c.name.Text? && c.name.value in r.agents.vals && r.agents.vals[c.name.value] == c {
      var i :| 0 <= i < |r.agents.keys| && r.agents.keys[i] == c.name.value;
      assert all[i] == c;
    }
    assert Status(c) == "online" <==> c.status == None || c.status == Some("online");
    assert HasSkill(c, task) <==> exists s :: s in c.skills && (s.id == Some(task) || task in s.tags);
  }

  /**
   The pool of a choice: all eligible cards, or, for critical and high severity
   and if there is one, those of the tier.
   */
  lemma PoolMeaning(r: Reg, task: string, severity: string, exclude: set<string>, c: Card)
    requires r.Valid()
    ensures var eligible := Filter(Eligible(task, exclude), r.agents.Values());
            var heavy := (d: Card) => exists s :: s in d.skills && (severity in s.tags || "heavy" in s.tags);
            c in Pool(r, task, severity, exclude) <==>
              && c in eligible
              && ((severity == "critical" || severity == "high") ==>
                    (exists d :: d in eligible && heavy(d)) ==> heavy(c))
  {
    var eligible := Filter(Eligible(task, exclude), r.agents.Values());
    var tagged := Filter(TierTagged(severity), eligible);
    FilterMembers(TierTagged(severity), eligible);
    forall d ensures TierTagged(severity)(d) <==>
      exists s :: s in d.skills && (severity in s.tags || "heavy" in s.tags)
    {
    }
    if tagged != [] {
      assert tagged[0] in tagged;
    }
  }

  /** Cards stand in the pool in the order of the registry. */
  lemma PoolOrder(r: Reg, task: string, severity: string, exclude: set<string>, i: nat, j: nat) returns (a: nat, b: nat)
    requires r.Valid() && i < j < |Pool(r, task, severity, exclude)|
    ensures var pool := Pool(r, task, severity, exclude);
            && a < b < |r.agents.keys|
            && r.agents.vals[r.agents.keys[a]] == pool[i] && r.agents.vals[r.agents.keys[b]] == pool[j]
  {
    var all := r.agents.Values();
    var eligible := Filter(Eligible(task, exclude), all);
    a, b := i, j;
    if Pool(r, task, severity, exclude) != eligible {
      a, b := FilterOrder(TierTagged(severity), eligible, i, j);
    }
    a, b := FilterOrder(Eligible(task, exclude), all, a, b);
  }

  /** The choice among a pool: lowest priority, 100 if there is none, and the earliest of those. */
  lemma FirstByPriorityMeaning(pool: seq<Card>, c: Card)
    ensures FirstByPriority(pool, c) <==>
      exists k :: (0 <= k < |pool| && pool[k] == c
        && (forall i :: 0 <= i < |pool| ==> c.priority.GetOr(100) <= pool[i].priority.GetOr(100))
        && (forall i :: 0 <= i < k ==> c.priority.GetOr(100) < pool[i].priority.GetOr(100)))
  {
    assert forall d :: Priority(d) == d.priority.GetOr(100);
    if FirstByPriority(pool, c) {
      var k :| 0 <= k < |pool| && Leads(pool, k) && c == pool[k];
      assert pool[k] == c;
    }
    if k :| (0 <= k < |pool| && pool[k] == c
             && (forall i :: 0 <= i < |pool| ==> c.priority.GetOr(100) <= pool[i].priority.GetOr(100))
             && (forall i :: 0 <= i < k ==> c.priority.GetOr(100) < pool[i].priority.GetOr(100)))
    {
      assert Leads(pool, k);
    }
  }

  /** Nothing is chosen exactly when no cached card is online, not excluded and skilled. */
  lemma PoolEmptyIff(r: Reg, task: string, severity: string, exclude: set<string>)
    requires r.Valid()
    ensures Pool(r, task, severity, exclude) == [] <==>
      forall k :: k in r.agents.vals ==>
        var c := r.agents.vals[k];
        !(k !in exclude && (c.status == None || c.status == Some("online"))
          && exists s :: s in c.skills && (s.id == Some(task) || task in s.tags))
  {
    var eligible := Filter(Eligible(task, exclude), r.agents.Values());
    forall k | k in r.agents.vals
      ensures r.agents.vals[k] in eligible <==>
        var c := r.agents.vals[k];
        k !in exclude && (c.status == None || c.status == Some("online"))
        && exists s :: s in c.skills && (s.id == Some(task) || task in s.tags)
    {
      EligibleMeaning(r, task, exclude, r.agents.vals[k]);
    }
    if eligible != [] {
      assert eligible[0] in eligible;
      EligibleMeaning(r, task, exclude, eligible[0]);
    }
  }

  function NotIn(gone: seq<string>): string -> bool {
    (k: string) => k !in gone
  }

  /** Popping takes out exactly the given names. */
  lemma {:induction false} PopAllMeaning(r: Reg, names: seq<string>)
    requires r.Valid()
    ensures forall k :: k in PopAll(r, names).agents.vals <==> k in r.agents.vals && k !in names
    ensures forall k :: k in PopAll(r, names).agents.vals ==>
      PopAll(r, names).agents.vals[k] == r.agents.vals[k] && PopAll(r, names).registeredAt[k] == r.registeredAt[k]
  {
    if names != [] {
      PopAllMeaning(r, names[..|names| - 1]);
    }
  }

  /** Popping keeps the other names in their order. */
  lemma {:induction false} PopAllOrder(r: Reg, names: seq<string>)
    requires r.Valid()
    ensures PopAll(r, names).agents.keys == Filter(NotIn(names), r.agents.keys)
  {
    if names == [] {
      FilterAll(NotIn(names), r.agents.keys);
    } else {
      var n := |names| - 1;
      PopAllOrder(r, names[..n]);
      assert PopAll(r, names) == UnregisterIn(PopAll(r, names[..n]), names[n]);
      assert names == names[..n] + [names[n]];
      FilterTwice(OtherThan(names[n]), NotIn(names[..n]), NotIn(names), r.agents.keys);
      if names[n] !in PopAll(r, names[..n]).agents.vals {
        FilterAll(OtherThan(names[n]), PopAll(r, names[..n]).agents.keys);
      }
    }
  }

  /** Expiry keeps exactly the cards registered at most ttl ago, unchanged and in their order. */
  lemma ExpireKeepsFresh(r: Reg, ttl: real, now: real)
    requires r.Valid()
    ensures var left := ExpireIn(r, ttl, now);
            && (forall k :: k in left.agents.vals <==> k in r.agents.vals && now - r.registeredAt[k] <= ttl)
            && (forall k :: k in left.agents.vals ==>
                  left.agents.vals[k] == r.agents.vals[k] && left.registeredAt[k] == r.registeredAt[k])
            && left.agents.keys == Filter(NotIn(Filter(StaleNames(r, ttl, now), r.agents.keys)), r.agents.keys)
  {
    FilterMembers(StaleNames(r, ttl, now), r.agents.keys);
    PopAllMeaning(r, Filter(StaleNames(r, ttl, now), r.agents.keys));
    PopAllOrder(r, Filter(StaleNames(r, ttl, now), r.agents.keys));
  }
}
