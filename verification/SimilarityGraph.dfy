/**
 The ticket similarity graph: TF-IDF vectors of tokenized titles and the edges
 whose cosine reaches EDGE_THRESHOLD. Tokens arrive already split; the natural
 logarithm and the square roots are parameters.
 */
module SimilarityGraph {
  import opened Common
  import opened Cosine

  const EDGE_THRESHOLD: real := 0.75

  type Title = seq<string>

  /** In how many titles the token occurs. */
  function DocFrequency(titles: seq<Title>, tok: string): nat {
    if titles == [] then 0 else (if tok in titles[0] then 1 else 0) + DocFrequency(titles[1..], tok)
  }

  /** All that is used of the logarithm: it is not negative from 1 on. */
  ghost predicate LogLike(log: real -> real) {
    forall x :: x >= 1.0 ==> log(x) >= 0.0
  }

  function Idf(log: real -> real, titles: seq<Title>, df: nat): real {
    log((|titles| + 1) as real / (df + 1) as real) + 1.0
  }

  function Share(count: nat, total: nat): real
    requires total > 0
  {
    count as real / total as real
  }

  function Weight(log: real -> real, titles: seq<Title>, title: Title, tok: string): real {
    if title == [] then 0.0
    else Share(Count(title, tok), |title|) * Idf(log, titles, DocFrequency(titles, tok))
  }

  lemma WeightOfAbsent(log: real -> real, titles: seq<Title>, title: Title, tok: string)
    requires tok !in title
    ensures Weight(log, titles, title, tok) == 0.0
  {
    CountIsMultiplicity(title, tok);
    if title != [] {
      assert Share(0, |title|) == 0.0;
      assert 0.0 * Idf(log, titles, DocFrequency(titles, tok)) == 0.0;
    }
  }

  /** The vector of a title over a vocabulary. */
  function TfIdf(log: real -> real, titles: seq<Title>, vocab: seq<string>, title: Title): Vector {
    seq(|vocab|, k requires 0 <= k < |vocab| => Weight(log, titles, title, vocab[k]))
  }

  lemma {:induction false} DocFrequencySnoc(titles: seq<Title>, title: Title, tok: string)
    ensures DocFrequency(titles + [title], tok) == DocFrequency(titles, tok) + if tok in title then 1 else 0
  {
    if titles != [] {
      assert (titles + [title])[1..] == titles[1..] + [title];
      DocFrequencySnoc(titles[1..], title, tok);
    }
  }

  lemma {:induction false} DocFrequencyBound(titles: seq<Title>, tok: string)
    ensures DocFrequency(titles, tok) <= |titles|
    ensures DocFrequency(titles, tok) > 0 <==> exists i :: 0 <= i < |titles| && tok in titles[i]
  {
    if titles != [] {
      DocFrequencyBound(titles[1..], tok);
      if DocFrequency(titles[1..], tok) > 0 {
        var i :| 0 <= i < |titles[1..]| && tok in titles[1..][i];
        assert tok in titles[i + 1];
      }
      if i :| 0 <= i < |titles| && tok in titles[i] && tok !in titles[0] {
        assert tok in titles[1..][i - 1];
      }
    }
  }

  /** The document frequency is the number of titles with the token. */
  lemma {:induction false} DocFrequencyIsCount(titles: seq<Title>, tok: string)
    ensures DocFrequency(titles, tok) == |(set i | 0 <= i < |titles| && tok in titles[i])|
  {
    if titles != [] {
      var n := |titles| - 1;
      DocFrequencyIsCount(titles[..n], tok);
      assert titles == titles[..n] + [titles[n]];
      DocFrequencySnoc(titles[..n], titles[n], tok);
      var before := set i | 0 <= i < n && tok in titles[..n][i];
      assert (set i | 0 <= i < |titles| && tok in titles[i]) == if tok in titles[n] then before + {n} else before;
    }
  }

  /** The loops over the titles' token sets count document frequencies. */
  method BuildFrequencies(titles: seq<Title>) returns (df: map<string, nat>)
    ensures forall tok :: tok in df <==> exists i :: 0 <= i < |titles| && tok in titles[i]
    ensures forall tok :: tok in df ==> df[tok] == DocFrequency(titles, tok)
    ensures forall tok :: tok in df ==> df[tok] == |(set i | 0 <= i < |titles| && tok in titles[i])|
  {
    df := map[];
    for i := 0 to |titles|
      invariant forall tok :: tok in df <==> DocFrequency(titles[..i], tok) > 0
      invariant forall tok :: tok in df ==> df[tok] == DocFrequency(titles[..i], tok)
    {
      var all := set t | t in titles[i];
      var pending, before := all, df;
      while pending != {}
        invariant pending <= all
        invariant forall tok :: tok in df <==> tok in before || tok in all - pending
        invariant forall tok :: tok in df ==>
          df[tok] == (if tok in before then before[tok] else 0) + if tok in all - pending then 1 else 0
        decreases |pending|
      {
        var tok :| tok in pending;
        pending := pending - {tok};
        df := df[tok := (if tok in df then df[tok] else 0) + 1];
      }
      assert titles[..i + 1] == titles[..i] + [titles[i]];
      forall tok
        ensures DocFrequency(titles[..i + 1], tok) == DocFrequency(titles[..i], tok) + if tok in all then 1 else 0
      {
        DocFrequencySnoc(titles[..i], titles[i], tok);
      }
    }
    assert titles[..|titles|] == titles;
    forall tok ensures DocFrequency(titles, tok) > 0 <==> exists i :: 0 <= i < |titles| && tok in titles[i] {
      DocFrequencyBound(titles, tok);
    }
    forall tok ensures DocFrequency(titles, tok) == |(set i | 0 <= i < |titles| && tok in titles[i])| {
      DocFrequencyIsCount(titles, tok);
    }
  }

  /** tf.get(tok, 0) + 1 over the tokens of one title. */
  method TermFrequencies(title: Title) returns (tf: map<string, nat>)
    ensures forall tok :: tok in tf <==> tok in title
    ensures forall tok :: tok in tf ==> tf[tok] == Count(title, tok) == multiset(title)[tok]
  {
    tf := map[];
    for i := 0 to |title|
      invariant forall tok :: tok in tf <==> tok in title[..i]
      invariant forall tok :: tok in tf ==> tf[tok] == multiset(title[..i])[tok]
    {
      assert title[..i + 1] == title[..i] + [title[i]];
      tf := tf[title[i] := (if title[i] in tf then tf[title[i]] else 0) + 1];
    }
    assert title[..|title|] == title;
    forall tok ensures Count(title, tok) == multiset(title)[tok] {
      CountIsMultiplicity(title, tok);
    }
  }

  lemma TfIdfElements(log: real -> real, titles: seq<Title>, vocab: seq<string>, title: Title)
    ensures forall k :: 0 <= k < |vocab| && vocab[k] !in title ==> TfIdf(log, titles, vocab, title)[k] == 0.0
  {
    forall k | 0 <= k < |vocab| && vocab[k] !in title ensures TfIdf(log, titles, vocab, title)[k] == 0.0 {
      WeightOfAbsent(log, titles, title, vocab[k]);
    }
  }

  /** The weight of one token, as the loop computes it from the two tables. */
  method TokenWeight(
    log: real -> real, titles: seq<Title>, df: map<string, nat>, tf: map<string, nat>, title: Title, tok: string)
    returns (w: real)
    requires tok in title && tok in tf && tok in df
    requires tf[tok] == Count(title, tok) && df[tok] == DocFrequency(titles, tok)
    ensures w == Weight(log, titles, title, tok)
  {
    w := Share(tf[tok], |title|) * Idf(log, titles, df[tok]);
  }

  /** The vector a title gets, computed token by token into a zero vector. */
  method BuildVector(log: real -> real, titles: seq<Title>, vocab: seq<string>, df: map<string, nat>, title: Title)
    returns (vec: Vector)
    requires Distinct(vocab) && forall tok :: tok in df <==> tok in vocab
    requires forall tok :: tok in df ==> df[tok] == DocFrequency(titles, tok)
    requires forall tok :: tok in title ==> tok in df
    ensures vec == TfIdf(log, titles, vocab, title)
  {
    var tf := TermFrequencies(title);
    vec := seq(|vocab|, _ => 0.0);
    var pending := tf.Keys;
    ghost var goal := TfIdf(log, titles, vocab, title);
    TfIdfElements(log, titles, vocab, title);
    while pending != {}
      invariant pending <= tf.Keys && |vec| == |vocab|
      invariant forall k :: 0 <= k < |vocab| ==> vec[k] == if vocab[k] in pending then 0.0 else goal[k]
      decreases |pending|
    {
      var tok :| tok in pending;
      pending := pending - {tok};
      var w := TokenWeight(log, titles, df, tf, title, tok);
      var k :| 0 <= k < |vocab| && vocab[k] == tok;
      assert goal[k] == w;
      vec := vec[k := w];
    }
  }

  /** Each component: the token's share of the title times ln((n + 1) / (df + 1)) + 1. */
  lemma TfIdfMeaning(log: real -> real, titles: seq<Title>, vocab: seq<string>, title: Title, k: nat)
    requires k < |vocab|
    ensures title == [] ==> TfIdf(log, titles, vocab, title)[k] == 0.0
    ensures title != [] ==>
      var tok, n := vocab[k], |titles|;
      var df := |(set i | 0 <= i < n && tok in titles[i])|;
      TfIdf(log, titles, vocab, title)[k]
      == (multiset(title)[tok] as real / |title| as real) * (log((n + 1) as real / (df + 1) as real) + 1.0)
  {
    DocFrequencyIsCount(titles, vocab[k]);
    CountIsMultiplicity(title, vocab[k]);
  }

  /** TF-IDF vectors have no negative component. */
  lemma TfIdfNonNegative(log: real -> real, titles: seq<Title>, vocab: seq<string>, title: Title)
    requires LogLike(log)
    ensures NonNegative(TfIdf(log, titles, vocab, title))
  {
    forall k | 0 <= k < |vocab| ensures Weight(log, titles, title, vocab[k]) >= 0.0 {
      if title != [] {
        var df := DocFrequency(titles, vocab[k]);
        DocFrequencyBound(titles, vocab[k]);
        var share := Share(Count(title, vocab[k]), |title|);
        DivTimes(Count(title, vocab[k]) as real, |title| as real);
        assert |title| as real * share >= 0.0;
        PositiveFactor(|title| as real, share);
        ProductNonNegative(share, Idf(log, titles, df));
      }
    }
  }

  // ---- Edges ----

  datatype Edge = Edge(source: nat, target: nat, similarity: real)

  predicate Before(e: Edge, f: Edge) {
    e.source < f.source || (e.source == f.source && e.target < f.target)
  }

  ghost predicate Norms(vecs: seq<Vector>, norms: seq<real>) {
    |norms| == |vecs| && forall i :: 0 <= i < |vecs| ==> IsNorm(norms[i], vecs[i])
  }

  function PairSimilarity(vecs: seq<Vector>, norms: seq<real>, i: int, j: int): real
    requires Norms(vecs, norms) && 0 <= i < |vecs| && 0 <= j < |vecs|
  {
    Similarity(vecs[i], vecs[j], norms[i], norms[j])
  }

  /** e joins two distinct nodes, smaller index first, by their similarity above the threshold. */
  ghost predicate IsEdge(vecs: seq<Vector>, norms: seq<real>, e: Edge)
    requires Norms(vecs, norms)
  {
    && e.source < e.target < |vecs|
    && e.similarity == PairSimilarity(vecs, norms, e.source, e.target)
    && e.similarity >= EDGE_THRESHOLD
  }

  /** Both vectors are non-zero, and their inner product reaches 0.75 of the product of their norms. */
  ghost predicate InnerReaches(vecs: seq<Vector>, norms: seq<real>, i: nat, j: nat)
    requires Norms(vecs, norms) && i < |vecs| && j < |vecs| && |vecs[i]| == |vecs[j]|
  {
    norms[i] > 0.0 && norms[j] > 0.0 && Dot(vecs[i], vecs[j]) >= 0.75 * (norms[i] * norms[j])
  }

  /** Exactly the pairs above the threshold, each once, with a similarity in [0.75, 1]. */
  method BuildEdges(vecs: seq<Vector>, norms: seq<real>) returns (edges: seq<Edge>)
    requires Norms(vecs, norms)
    ensures forall e :: e in edges <==> IsEdge(vecs, norms, e)
    ensures forall k, l :: 0 <= k < l < |edges| ==> Before(edges[k], edges[l])
    ensures forall e :: e in edges ==> EDGE_THRESHOLD <= e.similarity <= 1.0
    ensures forall i, j :: 0 <= i < j < |vecs| && |vecs[i]| == |vecs[j]| ==>
      ((exists e :: e in edges && e.source == i && e.target == j) <==> InnerReaches(vecs, norms, i, j))
  {
    edges := [];
    var n := |vecs|;
    for i := 0 to n
      invariant forall e :: e in edges <==> IsEdge(vecs, norms, e) && e.source < i
      invariant forall k, l :: 0 <= k < l < |edges| ==> Before(edges[k], edges[l])
    {
      for j := i + 1 to n
        invariant forall e :: e in edges <==>
          IsEdge(vecs, norms, e) && (e.source < i || (e.source == i && e.target < j))
        invariant forall k, l :: 0 <= k < l < |edges| ==> Before(edges[k], edges[l])
      {
        var sim := PairSimilarity(vecs, norms, i, j);
        if sim >= EDGE_THRESHOLD {
          assert forall k :: 0 <= k < |edges| ==> edges[k] in edges;
          edges := edges + [Edge(i, j, sim)];
        }
      }
    }
    forall i, j | 0 <= i < j < |vecs| && |vecs[i]| == |vecs[j]|
      ensures (exists e :: e in edges && e.source == i && e.target == j) <==> InnerReaches(vecs, norms, i, j)
    {
      var e := Edge(i, j, PairSimilarity(vecs, norms, i, j));
      assert e in edges <==> IsEdge(vecs, norms, e);
    }
    forall e | e in edges ensures e.similarity <= 1.0 {
      SimilarityRange(vecs[e.source], vecs[e.target], norms[e.source], norms[e.target]);
    }
  }

  /** No TF-IDF similarity is negative, edge or not. */
  lemma TfIdfSimilarityRange(
    log: real -> real, titles: seq<Title>, vocab: seq<string>, s: Title, t: Title, ns: real, nt: real)
    requires LogLike(log)
    requires IsNorm(ns, TfIdf(log, titles, vocab, s)) && IsNorm(nt, TfIdf(log, titles, vocab, t))
    ensures 0.0 <= Similarity(TfIdf(log, titles, vocab, s), TfIdf(log, titles, vocab, t), ns, nt) <= 1.0
  {
    TfIdfNonNegative(log, titles, vocab, s);
    TfIdfNonNegative(log, titles, vocab, t);
    NonNegativeSimilarity(TfIdf(log, titles, vocab, s), TfIdf(log, titles, vocab, t), ns, nt);
  }

  // ---- From titles to edges, whatever the order of the vocabulary ----

  /** All that is used of the square root. */
  ghost predicate SqrtLike(sqrt: real -> real) {
    forall x :: x >= 0.0 ==> sqrt(x) >= 0.0 && sqrt(x) * sqrt(x) == x
  }

  /** vocab lists every token of the titles once, in any order. */
  ghost predicate Vocabulary(vocab: seq<string>, titles: seq<Title>) {
    Distinct(vocab) && forall tok :: tok in vocab <==> exists i :: 0 <= i < |titles| && tok in titles[i]
  }

  function Sum(f: string -> real, toks: seq<string>): real {
    if toks == [] then 0.0 else f(toks[0]) + Sum(f, toks[1..])
  }

  lemma {:induction false} SumRemove(f: string -> real, toks: seq<string>, i: nat)
    requires i < |toks|
    ensures Sum(f, toks) == f(toks[i]) + Sum(f, toks[..i] + toks[i + 1..])
  {
    var rest := toks[..i] + toks[i + 1..];
    if i == 0 {
      assert rest == toks[1..];
    } else {
      SumRemove(f, toks[1..], i - 1);
      assert rest[1..] == toks[1..][..i - 1] + toks[1..][i..];
    }
  }

  /** A sum over distinct tokens does not depend on their order. */
  lemma {:induction false} SumOrderFree(f: string -> real, a: seq<string>, b: seq<string>)
    requires Distinct(a) && Distinct(b) && forall tok :: tok in a <==> tok in b
    ensures Sum(f, a) == Sum(f, b)
  {
    if a == [] {
      assert forall i :: 0 <= i < |b| ==> b[i] in b;
    } else {
      assert a[0] in b;
      var i :| 0 <= i < |b| && b[i] == a[0];
      var rest := b[..i] + b[i + 1..];
      forall tok ensures tok in a[1..] <==> tok in rest {
        WithoutOne(a, 0, tok);
        WithoutOne(b, i, tok);
        assert a[..0] + a[1..] == a[1..];
      }
      SumRemove(f, b, i);
      SumOrderFree(f, a[1..], rest);
    }
  }

  lemma WithoutOne(s: seq<string>, i: nat, tok: string)
    requires Distinct(s) && i < |s|
    ensures tok in s[..i] + s[i + 1..] <==> tok in s && tok != s[i]
  {
    var rest := s[..i] + s[i + 1..];
    if tok in s && tok != s[i] {
      var k :| 0 <= k < |s| && s[k] == tok;
      assert rest[if k < i then k else k - 1] == tok;
    }
    if tok in rest {
      var k :| 0 <= k < |rest| && rest[k] == tok;
      assert tok == s[if k < i then k else k + 1];
    }
  }

  function Product(log: real -> real, titles: seq<Title>, s: Title, t: Title): string -> real {
    (tok: string) => Weight(log, titles, s, tok) * Weight(log, titles, t, tok)
  }

  lemma {:induction false} DotIsSum(f: string -> real, toks: seq<string>, a: Vector, b: Vector)
    requires |a| == |b| == |toks| && forall k :: 0 <= k < |toks| ==> a[k] * b[k] == f(toks[k])
    ensures Dot(a, b) == Sum(f, toks)
  {
    if toks != [] {
      forall k | 0 <= k < |toks| - 1 ensures a[1..][k] * b[1..][k] == f(toks[1..][k]) {
        assert a[k + 1] * b[k + 1] == f(toks[k + 1]);
      }
      DotIsSum(f, toks[1..], a[1..], b[1..]);
    }
  }

  function NormOf(sqrt: real -> real, v: Vector): (n: real)
    requires SqrtLike(sqrt)
    ensures IsNorm(n, v)
  {
    ZeroNorm(v);
    sqrt(Dot(v, v))
  }

  /** The similarity of titles i and j over a vocabulary. */
  function TitleSimilarity(
    log: real -> real, sqrt: real -> real, titles: seq<Title>, vocab: seq<string>, i: int, j: int): real
    requires SqrtLike(sqrt) && 0 <= i < |titles| && 0 <= j < |titles|
  {
    var a, b := TfIdf(log, titles, vocab, titles[i]), TfIdf(log, titles, vocab, titles[j]);
    Similarity(a, b, NormOf(sqrt, a), NormOf(sqrt, b))
  }

  lemma DotOver(log: real -> real, titles: seq<Title>, vocab: seq<string>, s: Title, t: Title)
    ensures Dot(TfIdf(log, titles, vocab, s), TfIdf(log, titles, vocab, t)) == Sum(Product(log, titles, s, t), vocab)
  {
    DotIsSum(Product(log, titles, s, t), vocab, TfIdf(log, titles, vocab, s), TfIdf(log, titles, vocab, t));
  }

  lemma DotOrderFree(log: real -> real, titles: seq<Title>, v: seq<string>, w: seq<string>, s: Title, t: Title)
    requires Vocabulary(v, titles) && Vocabulary(w, titles)
    ensures Dot(TfIdf(log, titles, v, s), TfIdf(log, titles, v, t))
         == Dot(TfIdf(log, titles, w, s), TfIdf(log, titles, w, t))
  {
    DotOver(log, titles, v, s, t);
    DotOver(log, titles, w, s, t);
    SumOrderFree(Product(log, titles, s, t), v, w);
  }

  lemma SameEmptiness(v: seq<string>, w: seq<string>)
    requires forall tok :: tok in v <==> tok in w
    ensures v == [] <==> w == []
  {
    if v != [] {
      assert v[0] in w;
    }
    if w != [] {
      assert w[0] in v;
    }
  }

  /** The similarity depends on the three inner products only. */
  lemma SimilarityFromDots(sqrt: real -> real, a: Vector, b: Vector, c: Vector, d: Vector)
    requires SqrtLike(sqrt) && |a| == |b| && |c| == |d| && (|a| == 0 <==> |c| == 0)
    requires Dot(a, a) == Dot(c, c) && Dot(a, b) == Dot(c, d) && Dot(b, b) == Dot(d, d)
    ensures Similarity(a, b, NormOf(sqrt, a), NormOf(sqrt, b)) == Similarity(c, d, NormOf(sqrt, c), NormOf(sqrt, d))
  {
    assert NormOf(sqrt, a) == NormOf(sqrt, c) && NormOf(sqrt, b) == NormOf(sqrt, d);
  }

  /** It is the same over every vocabulary of the titles. */
  lemma SimilarityOrderFree(
    log: real -> real, sqrt: real -> real, titles: seq<Title>, v: seq<string>, w: seq<string>, i: nat, j: nat)
    requires SqrtLike(sqrt) && Vocabulary(v, titles) && Vocabulary(w, titles) && i < |titles| && j < |titles|
    ensures TitleSimilarity(log, sqrt, titles, v, i, j) == TitleSimilarity(log, sqrt, titles, w, i, j)
  {
    var s, t := titles[i], titles[j];
    DotOrderFree(log, titles, v, w, s, s);
    DotOrderFree(log, titles, v, w, s, t);
    DotOrderFree(log, titles, v, w, t, t);
    SameEmptiness(v, w);
    SimilarityFromDots(sqrt,
      TfIdf(log, titles, v, s), TfIdf(log, titles, v, t), TfIdf(log, titles, w, s), TfIdf(log, titles, w, t));
  }

  method ListOf(toks: set<string>) returns (vocab: seq<string>)
    ensures Distinct(vocab) && forall tok :: tok in vocab <==> tok in toks
  {
    vocab := [];
    var pending := toks;
    while pending != {}
      invariant pending <= toks && Distinct(vocab)
      invariant forall tok :: tok in vocab <==> tok in toks - pending
      decreases |pending|
    {
      var tok :| tok in pending;
      assert tok !in vocab;
      pending := pending - {tok};
      vocab := vocab + [tok];
    }
  }

  /** e joins titles whose similarity, over any vocabulary, reaches the threshold. */
  ghost predicate IsTitleEdge(
    log: real -> real, sqrt: real -> real, titles: seq<Title>, vocab: seq<string>, e: Edge)
    requires SqrtLike(sqrt)
  {
    && e.source < e.target < |titles|
    && e.similarity == TitleSimilarity(log, sqrt, titles, vocab, e.source, e.target)
    && e.similarity >= EDGE_THRESHOLD
  }

  /** The titles' vectors are non-zero, and their inner product reaches 0.75 of the product of their lengths. */
  ghost predicate TitlesReach(
    log: real -> real, sqrt: real -> real, titles: seq<Title>, vocab: seq<string>, i: nat, j: nat)
    requires i < |titles| && j < |titles|
  {
    var a, b := TfIdf(log, titles, vocab, titles[i]), TfIdf(log, titles, vocab, titles[j]);
    var na, nb := sqrt(Dot(a, a)), sqrt(Dot(b, b));
    na > 0.0 && nb > 0.0 && Dot(a, b) >= 0.75 * (na * nb)
  }

  lemma TitleEdgeIff(
    log: real -> real, sqrt: real -> real, titles: seq<Title>, vocab: seq<string>, i: nat, j: nat)
    requires SqrtLike(sqrt) && i < |titles| && j < |titles|
    ensures TitleSimilarity(log, sqrt, titles, vocab, i, j) >= EDGE_THRESHOLD <==>
      TitlesReach(log, sqrt, titles, vocab, i, j)
  {
    var a, b := TfIdf(log, titles, vocab, titles[i]), TfIdf(log, titles, vocab, titles[j]);
    ThresholdIff(a, b, NormOf(sqrt, a), NormOf(sqrt, b), EDGE_THRESHOLD,
      TitleSimilarity(log, sqrt, titles, vocab, i, j), Dot(a, b));
  }

  lemma EdgesReach(
    log: real -> real, sqrt: real -> real, titles: seq<Title>, vocab: seq<string>, edges: seq<Edge>, i: nat, j: nat)
    requires SqrtLike(sqrt) && i < j < |titles|
    requires forall e :: e in edges <==> IsTitleEdge(log, sqrt, titles, vocab, e)
    ensures (exists e :: e in edges && e.source == i && e.target == j) <==>
      TitlesReach(log, sqrt, titles, vocab, i, j)
  {
    TitleEdgeIff(log, sqrt, titles, vocab, i, j);
    var e := Edge(i, j, TitleSimilarity(log, sqrt, titles, vocab, i, j));
    assert e in edges <==> IsTitleEdge(log, sqrt, titles, vocab, e);
  }

  /**
   From titles to edges: exactly the pairs whose similarity reaches the
   threshold, whichever order the vocabulary is listed in, each once, with a
   similarity in [0.75, 1].
   */
  method BuildGraph(log: real -> real, sqrt: real -> real, titles: seq<Title>) returns (edges: seq<Edge>)
    requires SqrtLike(sqrt)
    ensures forall vocab, e :: Vocabulary(vocab, titles) ==>
      (e in edges <==> IsTitleEdge(log, sqrt, titles, vocab, e))
    ensures forall vocab, i, j :: Vocabulary(vocab, titles) && 0 <= i < j < |titles| ==>
      ((exists e :: e in edges && e.source == i && e.target == j) <==> TitlesReach(log, sqrt, titles, vocab, i, j))
    ensures forall k, l :: 0 <= k < l < |edges| ==> Before(edges[k], edges[l])
    ensures forall e :: e in edges ==> EDGE_THRESHOLD <= e.similarity <= 1.0
  {
    var df := BuildFrequencies(titles);
    var vocab := ListOf(df.Keys);
    var vecs, norms := [], [];
    for i := 0 to |titles|
      invariant |vecs| == |norms| == i
      invariant forall k :: 0 <= k < i ==>
        vecs[k] == TfIdf(log, titles, vocab, titles[k]) && norms[k] == NormOf(sqrt, vecs[k])
    {
      var vec := BuildVector(log, titles, vocab, df, titles[i]);
      vecs, norms := vecs + [vec], norms + [NormOf(sqrt, vec)];
    }
    edges := BuildEdges(vecs, norms);
    forall other, e | Vocabulary(other, titles)
      ensures e in edges <==> IsTitleEdge(log, sqrt, titles, other, e)
    {
      if e.source < e.target < |titles| {
        SimilarityOrderFree(log, sqrt, titles, vocab, other, e.source, e.target);
      }
    }
    forall other, i, j | Vocabulary(other, titles) && 0 <= i < j < |titles|
      ensures (exists e :: e in edges && e.source == i && e.target == j) <==>
        TitlesReach(log, sqrt, titles, other, i, j)
    {
      EdgesReach(log, sqrt, titles, other, edges, i, j);
    }
  }
}
