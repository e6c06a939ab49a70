/**
 The hub's agent list, as a function of the posts that reached it: which cards a
 post replaces, which names are listed, and what becomes of nameless cards.
 */
module RegistryHub {
  import opened Common
  import opened AgentRegistry

  // ---- The hub ----

  /** The name a posted card is filed under: a missing one reads as the empty string, null as itself. */
  function PostedKey(c: Card): Option<string> {
    match c.name
    case Absent => Some("")
    case Null => None
    case Text(s) => Some(s)
  }

  /** The name a listed card is compared by: a missing one reads as null. */
  function ListedKey(a: Card): Option<string> {
    if a.name.Text? then Some(a.name.value) else None
  }

  function NotFiled(key: Option<string>): Card -> bool {
    (a: Card) => ListedKey(a) != key
  }

  function Accept(agents: seq<Card>, c: Card): seq<Card> {
    Filter(NotFiled(PostedKey(c)), agents) + [c]
  }

  class Hub {
    var registeredAgents: seq<Card>
    ghost var delivered: seq<Card>

    ghost predicate Valid()
      reads this
    {
      registeredAgents == HubAfter(delivered)
    }

    constructor ()
      ensures Valid() && delivered == []
    {
      registeredAgents, delivered := [], [];
    }

    method RegisterAgent(c: Card)
      requires Valid()
      modifies this
      ensures Valid() && delivered == old(delivered) + [c]
    {
      var kept: seq<Card> := [];
      for i := 0 to |registeredAgents|
        invariant registeredAgents == old(registeredAgents) && delivered == old(delivered)
        invariant kept == Filter(NotFiled(PostedKey(c)), registeredAgents[..i])
      {
        FilterSnoc(NotFiled(PostedKey(c)), registeredAgents[..i], registeredAgents[i]);
        assert registeredAgents[..i + 1] == registeredAgents[..i] + [registeredAgents[i]];
        if ListedKey(registeredAgents[i]) != PostedKey(c) {
          kept := kept + [registeredAgents[i]];
        }
      }
      assert registeredAgents[..|registeredAgents|] == registeredAgents;
      registeredAgents := kept + [c];
      delivered := delivered + [c];
      assert delivered[..|delivered| - 1] == old(delivered);
    }
  }

  /** The list after the posts that reached the hub, in the order they did. */
  function HubAfter(posts: seq<Card>): seq<Card> {
    if posts == [] then []
    else Accept(HubAfter(posts[..|posts| - 1]), posts[|posts| - 1])
  }

  /** No name is listed twice. */
  lemma {:induction false} NamesUnique(posts: seq<Card>)
    ensures forall i, j :: 0 <= i < j < |HubAfter(posts)| && HubAfter(posts)[i].name.Text? ==>
      HubAfter(posts)[i].name != HubAfter(posts)[j].name
  {
    if posts != [] {
      var n := |posts| - 1;
      var before, c := HubAfter(posts[..n]), posts[n];
      NamesUnique(posts[..n]);
      FilterNamesUnique(NotFiled(PostedKey(c)), before);
      FilterMembers(NotFiled(PostedKey(c)), before);
      var kept := Filter(NotFiled(PostedKey(c)), before);
      forall i | 0 <= i < |kept| && kept[i].name.Text? ensures kept[i].name != c.name {
        assert kept[i] in kept;
      }
    }
  }

  lemma {:induction false} FilterNamesUnique(p: Card -> bool, s: seq<Card>)
    requires forall i, j :: 0 <= i < j < |s| && s[i].name.Text? ==> s[i].name != s[j].name
    ensures forall i, j :: 0 <= i < j < |Filter(p, s)| && Filter(p, s)[i].name.Text? ==>
      Filter(p, s)[i].name != Filter(p, s)[j].name
  {
    if s != [] {
      FilterNamesUnique(p, s[1..]);
      FilterMembers(p, s[1..]);
      var rest := Filter(p, s[1..]);
      forall j | 0 <= j < |rest| && s[0].name.Text? ensures s[0].name != rest[j].name {
        assert rest[j] in rest;
        var k :| 0 <= k < |s[1..]| && s[1..][k] == rest[j];
        assert s[k + 1] == rest[j];
      }
    }
  }

  /** No later post replaces the name of post i. */
  predicate Stands(posts: seq<Card>, i: int) {
    0 <= i < |posts| && forall j :: i < j < |posts| ==> PostedKey(posts[j]) != ListedKey(posts[i])
  }

  lemma StandsOfPrefix(posts: seq<Card>, i: nat)
    requires i < |posts| - 1
    ensures Stands(posts, i) <==>
      Stands(posts[..|posts| - 1], i) && NotFiled(PostedKey(posts[|posts| - 1]))(posts[i])
  {
    var earlier := posts[..|posts| - 1];
    if Stands(earlier, i) && NotFiled(PostedKey(posts[|posts| - 1]))(posts[i]) {
      forall j | i < j < |posts| ensures PostedKey(posts[j]) != ListedKey(posts[i]) {
        assert j < |posts| - 1 ==> earlier[j] == posts[j];
      }
    }
  }

  ghost predicate StandsAmong(posts: seq<Card>, c: Card) {
    exists i :: Stands(posts, i) && posts[i] == c
  }

  /** The hub lists exactly the posts that no later post replaced. */
  lemma {:induction false} HubHoldsLastPosts(posts: seq<Card>, c: Card)
    ensures c in HubAfter(posts) <==> StandsAmong(posts, c)
  {
    if posts != [] {
      var n := |posts| - 1;
      var earlier, keep := posts[..n], NotFiled(PostedKey(posts[n]));
      HubHoldsLastPosts(earlier, c);
      FilterMembers(keep, HubAfter(earlier));
      assert c in HubAfter(posts) <==> (c in HubAfter(earlier) && keep(c)) || c == posts[n];
      if StandsAmong(earlier, c) && keep(c) {
        var i :| Stands(earlier, i) && earlier[i] == c;
        StandsOfPrefix(posts, i);
        assert posts[i] == c;
      } else if c == posts[n] {
        assert Stands(posts, n);
      } else if StandsAmong(posts, c) {
        var i :| Stands(posts, i) && posts[i] == c;
        StandsOfPrefix(posts, i);
      }
    }
  }

  predicate Lists(agents: seq<Card>, name: string) {
    exists c :: c in agents && c.name == Text(name)
  }

  /** A listed name stays listed whatever is posted next. */
  lemma NamesNeverLost(posts: seq<Card>, c: Card, name: string)
    requires name != "" && Lists(HubAfter(posts), name)
    ensures Lists(HubAfter(posts + [c]), name)
  {
    assert (posts + [c])[..|posts|] == posts;
    FilterMembers(NotFiled(PostedKey(c)), HubAfter(posts));
    var a :| a in HubAfter(posts) && a.name == Text(name);
    if PostedKey(c) == Some(name) {
      assert c in HubAfter(posts + [c]);
    } else {
      assert a in HubAfter(posts + [c]);
    }
  }

  predicate IsNameless(a: Card) {
    !a.name.Text?
  }

  function Nameless(): Card -> bool {
    (a: Card) => !a.name.Text?
  }

  /** The posts from the last one on whose name is null; all of them if there is none. */
  function FromLastNull(posts: seq<Card>): seq<Card> {
    if posts == [] then []
    else
      var n := |posts| - 1;
      if posts[n].name.Null? then [posts[n]] else FromLastNull(posts[..n]) + [posts[n]]
  }

  /** A post with a missing name replaces no nameless card, one whose name is null replaces them all. */
  lemma {:induction false} NamelessSinceNull(posts: seq<Card>)
    ensures Filter(Nameless(), HubAfter(posts)) == Filter(Nameless(), FromLastNull(posts))
  {
    if posts != [] {
      var n := |posts| - 1;
      var c, before := posts[n], HubAfter(posts[..n]);
      var keep := NotFiled(PostedKey(c));
      NamelessSinceNull(posts[..n]);
      FilterSnoc(Nameless(), Filter(keep, before), c);
      if c.name.Null? {
        NoneNameless(before);
      } else {
        FilterTwice(Nameless(), keep, Nameless(), before);
        FilterSnoc(Nameless(), FromLastNull(posts[..n]), c);
      }
    }
  }

  /** Filing under null leaves no nameless card. */
  lemma {:induction false} NoneNameless(agents: seq<Card>)
    ensures Filter(Nameless(), Filter(NotFiled(None), agents)) == []
  {
    if agents != [] {
      NoneNameless(agents[1..]);
      var rest := Filter(NotFiled(None), agents[1..]);
      if ListedKey(agents[0]) != None {
        assert ([agents[0]] + rest)[1..] == rest;
      } else {
        assert Filter(NotFiled(None), agents) == rest;
      }
    }
  }

  /** No post whose name is null comes after a nameless one. */
  ghost predicate NoNullAfterNameless(posts: seq<Card>) {
    forall i, j :: 0 <= i < j < |posts| && IsNameless(posts[i]) ==> !posts[j].name.Null?
  }

  lemma NoNullStep(posts: seq<Card>)
    requires posts != []
    ensures var n := |posts| - 1;
            NoNullAfterNameless(posts) <==>
              && NoNullAfterNameless(posts[..n])
              && (posts[n].name.Null? ==> Filter(Nameless(), posts[..n]) == [])
  {
    NamelessOrNot(posts[..|posts| - 1]);
  }

  lemma KeptAtNull(before: seq<Card>, c: Card)
    requires c.name.Null?
    ensures Filter(Nameless(), FromLastNull(before + [c])) == [c]
    ensures [c] == Filter(Nameless(), before + [c]) <==> NoNullAfterNameless(before + [c])
  {
    assert (before + [c])[..|before|] == before;
    NoNullStep(before + [c]);
    FilterSnoc(Nameless(), before, c);
    NoneThenNoNull(before);
    assert Filter(Nameless(), [c]) == [c];
  }

  lemma KeptAtOther(before: seq<Card>, c: Card)
    requires !c.name.Null?
    ensures NoNullAfterNameless(before + [c]) <==> NoNullAfterNameless(before)
    ensures Filter(Nameless(), FromLastNull(before + [c])) == Filter(Nameless(), before + [c]) <==>
      Filter(Nameless(), FromLastNull(before)) == Filter(Nameless(), before)
  {
    assert (before + [c])[..|before|] == before;
    NoNullStep(before + [c]);
    FilterSnoc(Nameless(), before, c);
    FilterSnoc(Nameless(), FromLastNull(before), c);
    SameWithLast(Filter(Nameless(), FromLastNull(before)), Filter(Nameless(), before), c);
  }

  lemma {:induction false} NamelessAreKept(posts: seq<Card>)
    ensures Filter(Nameless(), FromLastNull(posts)) == Filter(Nameless(), posts) <==> NoNullAfterNameless(posts)
  {
    if posts != [] {
      var n := |posts| - 1;
      NamelessAreKept(posts[..n]);
      assert posts == posts[..n] + [posts[n]];
      if posts[n].name.Null? {
        KeptAtNull(posts[..n], posts[n]);
      } else {
        KeptAtOther(posts[..n], posts[n]);
      }
    }
  }

  lemma SameWithLast(s: seq<Card>, t: seq<Card>, c: Card)
    ensures s + [c] == t + [c] <==> s == t
  {
    if s + [c] == t + [c] {
      assert s == (s + [c])[..|s|];
      assert t == (t + [c])[..|t|];
    }
  }

  lemma NoneThenNoNull(posts: seq<Card>)
    ensures Filter(Nameless(), posts) == [] ==> NoNullAfterNameless(posts)
  {
    NamelessOrNot(posts);
  }

  lemma NamelessOrNot(posts: seq<Card>)
    ensures Filter(Nameless(), posts) == [] <==> forall i :: 0 <= i < |posts| ==> !IsNameless(posts[i])
  {
    FilterMembers(Nameless(), posts);
    if Filter(Nameless(), posts) != [] {
      assert Filter(Nameless(), posts)[0] in posts;
    }
  }

  /**
   Nameless cards pile up, one per post, exactly as long as no post with an
   explicit null name follows one of them: such a post drops all before it.
   */
  lemma NamelessPileUpIff(posts: seq<Card>)
    ensures Filter(Nameless(), HubAfter(posts)) == Filter(Nameless(), posts) <==> NoNullAfterNameless(posts)
  {
    NamelessSinceNull(posts);
    NamelessAreKept(posts);
  }

  /** What a post replaces: its own name; all nameless cards if its name is null; the empty name if it has none. */
  lemma AcceptMeaning(agents: seq<Card>, c: Card, a: Card)
    ensures c.name.Text? ==> (a in Accept(agents, c) <==> a == c || (a in agents && a.name != c.name))
    ensures c.name.Null? ==> (a in Accept(agents, c) <==> a == c || (a in agents && a.name.Text?))
    ensures c.name.Absent? ==> (a in Accept(agents, c) <==> a == c || (a in agents && a.name != Text("")))
  {
    FilterMembers(NotFiled(PostedKey(c)), agents);
    assert ListedKey(a) != PostedKey(c) <==> NotFiled(PostedKey(c))(a);
  }

  /** A named card that reached the hub is listed by its name. */
  lemma {:induction false} DeliveredIsListed(posts: seq<Card>, c: Card)
    requires c in posts && Named(c)
    ensures Lists(HubAfter(posts), c.name.value)
  {
    var n := |posts| - 1;
    assert posts == posts[..n] + [posts[n]];
    if posts[n] == c {
      assert c in HubAfter(posts);
    } else {
      DeliveredIsListed(posts[..n], c);
      NamesNeverLost(posts[..n], posts[n], c.name.value);
    }
  }
}
