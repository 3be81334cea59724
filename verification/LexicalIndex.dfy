/** The BM25 lexical index: a scorer, the sparse embeddings and the source texts,
    three maps that have to agree. */
module LexicalIndex {
  import opened Wrappers
  import opened Ordering

  type Id = string

  datatype TokenEmbedding = TokenEmbedding(index: nat, value: real)

  type Embedding = seq<TokenEmbedding>

  /** The bm25 crate: embedding a text at an average document length, the score
      of a document for a query within a corpus, the average length fitted to a
      corpus, and the tokenizer with its hash. Nothing is assumed of them here. */
  datatype Bm25 = Bm25(embed: (real, string) -> Embedding,
                       score: (map<Id, Embedding>, Embedding, Id) -> real,
                       fit: map<Id, string> -> real,
                       tokenize: string -> seq<string>,
                       hash: string -> nat)

  datatype Hit = Hit(id: Id, score: real)

  /** Higher scores first, ties by id. */
  predicate HitBefore(a: Hit, b: Hit)
  {
    a.score > b.score || (a.score == b.score && StringLess(a.id, b.id))
  }

  lemma HitBeforeIsStrictTotal()
    ensures StrictTotal(HitBefore)
  {
    forall a, b
      ensures HitBefore(a, b) || HitBefore(b, a) || a == b
      ensures !(HitBefore(a, b) && HitBefore(b, a))
    {
      StringLessTotal(a.id, b.id);
    }
    forall a, b, c | HitBefore(a, b) && HitBefore(b, c)
      ensures HitBefore(a, c)
    {
      if a.score == b.score == c.score {
        StringLessTransitive(a.id, b.id, c.id);
      }
    }
  }

  /** The query and the document have a token in common. */
  predicate Shares(query: Embedding, doc: Embedding)
  {
    exists i, j | 0 <= i < |query| && 0 <= j < |doc| :: query[i].index == doc[j].index
  }

  /** Every document that shares a token with the query, once, with its score, best first. */
  ghost predicate IsRanking(all: seq<Hit>, lib: Bm25, scorer: map<Id, Embedding>, query: Embedding)
  {
    && Sorted(HitBefore, all)
    && forall h :: h in all <==> h.id in scorer && Meets(query, scorer[h.id]) && h.score == lib.score(scorer, query, h.id)
  }

  /** Some token of the one is a token of the other. */
  ghost predicate Meets(query: Embedding, doc: Embedding)
  {
    exists t | t in query :: exists u | u in doc :: t.index == u.index
  }

  lemma SharesIff(query: Embedding, doc: Embedding)
    ensures Shares(query, doc) <==> Meets(query, doc)
  {
    if Shares(query, doc) {
      var i, j :| 0 <= i < |query| && 0 <= j < |doc| && query[i].index == doc[j].index;
      assert query[i] in query && doc[j] in doc;
    }
    if Meets(query, doc) {
      var t :| t in query && exists u | u in doc :: t.index == u.index;
      var u :| u in doc && t.index == u.index;
      var i :| 0 <= i < |query| && query[i] == t;
      var j :| 0 <= j < |doc| && doc[j] == u;
    }
  }

  /** Ties are broken, so the ranking is one: searching twice gives the same list. */
  lemma RankingUnique(a: seq<Hit>, b: seq<Hit>, lib: Bm25, scorer: map<Id, Embedding>, query: Embedding)
    requires IsRanking(a, lib, scorer, query) && IsRanking(b, lib, scorer, query)
    ensures a == b
  {
    HitBeforeIsStrictTotal();
    SortedUnique(HitBefore, a, b);
  }

  /** No document is ranked twice. */
  lemma RankingDistinct(all: seq<Hit>, lib: Bm25, scorer: map<Id, Embedding>, query: Embedding)
    requires IsRanking(all, lib, scorer, query)
    ensures forall i, j | 0 <= i < j < |all| :: all[i].id != all[j].id
  {
    HitBeforeIsStrictTotal();
    SortedNoDuplicates(HitBefore, all);
    forall i, j | 0 <= i < j < |all|
      ensures all[i].id != all[j].id
    {
      assert all[i] in all && all[j] in all;
    }
  }

  function Truncated<T>(s: seq<T>, limit: nat): (r: seq<T>)
    ensures r <= s && |r| == if limit < |s| then limit else |s|
  {
    if limit < |s| then s[..limit] else s
  }

  /** The first term of the text that has this hash. */
  ghost predicate TermFor(lib: Bm25, text: string, hash: nat, term: string)
  {
    exists i | 0 <= i < |lib.tokenize(text)| :: lib.tokenize(text)[i] == term && IsFirst(lib, lib.tokenize(text), hash, i)
  }

  ghost predicate IsFirst(lib: Bm25, tokens: seq<string>, hash: nat, i: nat)
    requires i < |tokens|
  {
    lib.hash(tokens[i]) == hash && forall j | 0 <= j < i :: lib.hash(tokens[j]) != hash
  }

  /** How many of the first n tokens of an embedding are hashes of terms of the text. */
  ghost function Named(lib: Bm25, text: string, embedding: Embedding, n: nat): nat
    requires n <= |embedding|
  {
    if n == 0 then 0
    else
      Named(lib, text, embedding, n - 1)
      + if exists k | 0 <= k < |lib.tokenize(text)| :: lib.hash(lib.tokenize(text)[k]) == embedding[n - 1].index then 1 else 0
  }

  /** Each hash of a token is mapped to the first token with it. */
  ghost predicate IsTermMap(m: map<nat, string>, lib: Bm25, tokens: seq<string>)
  {
    && (forall h | h in m :: exists i | 0 <= i < |tokens| :: tokens[i] == m[h] && IsFirst(lib, tokens, h, i))
    && (forall i | 0 <= i < |tokens| :: lib.hash(tokens[i]) in m)
  }

  /** The weights of the first n tokens of an embedding, under the terms of their hashes. */
  function Pairs(embedding: Embedding, m: map<nat, string>, n: nat): seq<(string, real)>
    requires n <= |embedding|
  {
    if n == 0 then []
    else
      var t := embedding[n - 1];
      Pairs(embedding, m, n - 1) + if t.index in m then [(m[t.index], t.value)] else []
  }

  lemma PairsNone(embedding: Embedding, m: map<nat, string>)
    ensures Pairs(embedding, m, 0) == []
  {
  }

  lemma PairsNext(embedding: Embedding, m: map<nat, string>, n: nat)
    requires n < |embedding|
    ensures var t := embedding[n];
            Pairs(embedding, m, n + 1) == Pairs(embedding, m, n) + if t.index in m then [(m[t.index], t.value)] else []
  {
  }

  /** As many weights are kept as have a term. */
  lemma {:induction false} PairsCount(lib: Bm25, text: string, embedding: Embedding, m: map<nat, string>, n: nat)
    requires n <= |embedding| && IsTermMap(m, lib, lib.tokenize(text))
    ensures |Pairs(embedding, m, n)| == Named(lib, text, embedding, n)
  {
    hide TermFor, IsTermMap;
    if n > 0 {
      PairsCount(lib, text, embedding, m, n - 1);
      HasTerm(lib, text, m, embedding[n - 1].index);
    }
  }

  /** Every pair is a weight under a term. */
  lemma {:induction false} PairsMembers(lib: Bm25, text: string, embedding: Embedding, m: map<nat, string>, n: nat)
    requires n <= |embedding| && IsTermMap(m, lib, lib.tokenize(text))
    ensures forall p | p in Pairs(embedding, m, n) :: exists t | t in embedding :: TermFor(lib, text, t.index, p.0) && p.1 == t.value
  {
    hide TermFor, IsTermMap;
    if n > 0 {
      PairsMembers(lib, text, embedding, m, n - 1);
      assert embedding[n - 1] in embedding;
      HasTerm(lib, text, m, embedding[n - 1].index);
    }
  }

  /** If all have a term they come out complete and in order. */
  lemma {:induction false} PairsComplete(lib: Bm25, text: string, embedding: Embedding, m: map<nat, string>, n: nat)
    requires n <= |embedding| && IsTermMap(m, lib, lib.tokenize(text))
    requires forall t | t in embedding :: exists term :: TermFor(lib, text, t.index, term)
    ensures |Pairs(embedding, m, n)| == n
    ensures forall k | 0 <= k < n :: TermFor(lib, text, embedding[k].index, Pairs(embedding, m, n)[k].0)
                                     && Pairs(embedding, m, n)[k].1 == embedding[k].value
  {
    hide TermFor, IsTermMap;
    if n > 0 {
      PairsComplete(lib, text, embedding, m, n - 1);
      assert embedding[n - 1] in embedding;
      HasTerm(lib, text, m, embedding[n - 1].index);
    }
  }

  lemma HasTerm(lib: Bm25, text: string, m: map<nat, string>, hash: nat)
    requires IsTermMap(m, lib, lib.tokenize(text))
    ensures hash in m <==> exists k | 0 <= k < |lib.tokenize(text)| :: lib.hash(lib.tokenize(text)[k]) == hash
    ensures hash in m ==> TermFor(lib, text, hash, m[hash])
    ensures hash in m <==> exists term :: TermFor(lib, text, hash, term)
  {
    if hash in m {
      assert TermFor(lib, text, hash, m[hash]);
    }
  }

  /** Refitting at a new length is done but for the documents in left. */
  ghost predicate PartlyRefit(lib: Bm25, texts: map<Id, string>, scorer: map<Id, Embedding>, embeddings: map<Id, Embedding>,
                              fitted: map<Id, real>, left: set<Id>, at: real)
  {
    && embeddings.Keys == texts.Keys == fitted.Keys
    && scorer.Keys == texts.Keys - left
    && forall id | id in scorer :: scorer[id] == embeddings[id] == lib.embed(at, texts[id]) && fitted[id] == at
  }

  lemma RefitStep(lib: Bm25, texts: map<Id, string>, scorer: map<Id, Embedding>, embeddings: map<Id, Embedding>,
                  fitted: map<Id, real>, left: set<Id>, at: real, id: Id)
    requires PartlyRefit(lib, texts, scorer, embeddings, fitted, left, at) && id in left && id in texts
    ensures var e := lib.embed(at, texts[id]);
            PartlyRefit(lib, texts, scorer[id := e], embeddings[id := e], fitted[id := at], left - {id}, at)
  {
  }

  class Bm25Index {
    const lib: Bm25
    /** The average document length of the index's own embedder; never replaced. */
    const avgdl: real
    var scorer: map<Id, Embedding>
    var embeddings: map<Id, Embedding>
    var texts: map<Id, string>
    /** The average document length each stored embedding was made with. */
    ghost var fitted: map<Id, real>

    /** The three maps agree: same ids, and each embedding is that of the stored text. */
    ghost predicate Valid()
      reads this
    {
      && scorer == embeddings
      && embeddings.Keys == texts.Keys == fitted.Keys
      && forall id | id in texts :: embeddings[id] == lib.embed(fitted[id], texts[id])
    }

    constructor (lib: Bm25, avgdl: real)
      ensures Valid() && texts == map[] && fitted == map[] && this.lib == lib && this.avgdl == avgdl
    {
      this.lib := lib;
      this.avgdl := avgdl;
      scorer, embeddings, texts, fitted := map[], map[], map[], map[];
    }

    method Upsert(id: Id, text: string)
      requires Valid()
      modifies this
      ensures Valid()
      ensures texts == old(texts)[id := text] && fitted == old(fitted)[id := avgdl]
    {
      var embedding := lib.embed(avgdl, text);
      scorer := scorer[id := embedding];
      embeddings := embeddings[id := embedding];
      texts := texts[id := text];
      fitted := fitted[id := avgdl];
    }

    method Remove(id: Id)
      requires Valid()
      modifies this
      ensures Valid()
      ensures texts == old(texts) - {id} && fitted == old(fitted) - {id}
    {
      scorer := scorer - {id};
      embeddings := embeddings - {id};
      texts := texts - {id};
      fitted := fitted - {id};
    }

    /** Re-embeds every document at the length fitted to the corpus; no document
        and no text is lost. The index's own embedder stays as it was. */
    method Refit() returns (newAvgdl: real)
      requires Valid()
      modifies this
      ensures Valid() && texts == old(texts)
      ensures if texts == map[] then newAvgdl == avgdl else newAvgdl == lib.fit(texts)
      ensures forall id | id in texts :: fitted[id] == newAvgdl
    {
      if texts == map[] {
        return avgdl;
      }
      newAvgdl := lib.fit(texts);
      scorer := map[];
      var left := texts.Keys;
      while left != {}
        invariant left <= texts.Keys && texts == old(texts)
        invariant PartlyRefit(lib, texts, scorer, embeddings, fitted, left, newAvgdl)
        decreases left
      {
        var id :| id in left;
        var embedding := lib.embed(newAvgdl, texts[id]);
        RefitStep(lib, texts, scorer, embeddings, fitted, left, newAvgdl, id);
        hide PartlyRefit;
        scorer := scorer[id := embedding];
        embeddings := embeddings[id := embedding];
        fitted := fitted[id := newAvgdl];
        left := left - {id};
      }
    }

    /** The best hits for the query, which is embedded at the index's own length. */
    method Search(query: string, limit: nat) returns (hits: seq<Hit>)
      requires Valid()
      ensures exists all :: IsRanking(all, lib, scorer, lib.embed(avgdl, query)) && hits == Truncated(all, limit)
      ensures forall i, j | 0 <= i < j < |hits| ::
                hits[i].score > hits[j].score || (hits[i].score == hits[j].score && StringLess(hits[i].id, hits[j].id))
    {
      HitBeforeIsStrictTotal();
      var q := lib.embed(avgdl, query);
      var scored: seq<Hit> := [];
      var left := scorer.Keys;
      while left != {}
        invariant left <= scorer.Keys
        invariant Sorted(HitBefore, scored)
        invariant forall h ::
                h in scored <==> (h.id in scorer && h.id !in left && Meets(q, scorer[h.id]) && h.score == lib.score(scorer, q, h.id))
        decreases left
      {
        var id :| id in left;
        SharesIff(q, scorer[id]);
        if Shares(q, scorer[id]) {
          var hit := Hit(id, lib.score(scorer, q, id));
          InsertSorted(HitBefore, scored, hit);
          scored := Insert(HitBefore, scored, hit);
        }
        left := left - {id};
      }
      assert IsRanking(scored, lib, scorer, q);
      hits := Truncated(scored, limit);
    }

    /** The stored weights under terms of the document, the first of those with one
        hash. Exactly the hashes without a term are dropped; when the embedder only uses hashes of the text's own tokens,
        none is, and the weights come out complete and in order. */
    method EmbeddingOf(id: Id) returns (pairs: Option<seq<(string, real)>>)
      requires Valid()
      ensures pairs.Some? <==> id in texts
      ensures pairs.Some? ==> forall p | p in pairs.value ::
                exists t | t in embeddings[id] :: TermFor(lib, texts[id], t.index, p.0) && p.1 == t.value
      ensures pairs.Some? ==> |pairs.value| == Named(lib, texts[id], embeddings[id], |embeddings[id]|)
      ensures pairs.Some? && (forall t | t in embeddings[id] :: exists term :: TermFor(lib, texts[id], t.index, term)) ==>
                && |pairs.value| == |embeddings[id]|
                && forall k | 0 <= k < |pairs.value| ::
                     TermFor(lib, texts[id], embeddings[id][k].index, pairs.value[k].0) && pairs.value[k].1 == embeddings[id][k].value
    {
      hide TermFor, Named, Pairs, IsTermMap;
      if id !in embeddings || id !in texts {
        return None;
      }
      var embedding := embeddings[id];
      var hashToTerm := TermMap(lib.tokenize(texts[id]));
      PairsCount(lib, texts[id], embedding, hashToTerm, |embedding|);
      PairsMembers(lib, texts[id], embedding, hashToTerm, |embedding|);
      if forall t | t in embedding :: exists term :: TermFor(lib, texts[id], t.index, term) {
        PairsComplete(lib, texts[id], embedding, hashToTerm, |embedding|);
      }
      var out: seq<(string, real)> := [];
      PairsNone(embedding, hashToTerm);
      for k := 0 to |embedding|
        invariant out == Pairs(embedding, hashToTerm, k)
      {
        PairsNext(embedding, hashToTerm, k);
        if embedding[k].index in hashToTerm {
          out := out + [(hashToTerm[embedding[k].index], embedding[k].value)];
        }
      }
      return Some(out);
    }

    /** The loop that maps each hash to the first token with it. */
    method TermMap(tokens: seq<string>) returns (hashToTerm: map<nat, string>)
      ensures IsTermMap(hashToTerm, lib, tokens)
    {
      hashToTerm := map[];
      for i := 0 to |tokens|
        invariant forall h | h in hashToTerm ::
                    exists j | 0 <= j < i :: tokens[j] == hashToTerm[h] && IsFirst(lib, tokens, h, j)
        invariant forall j | 0 <= j < i :: lib.hash(tokens[j]) in hashToTerm
      {
        if lib.hash(tokens[i]) !in hashToTerm {
          assert IsFirst(lib, tokens, lib.hash(tokens[i]), i);
          hashToTerm := hashToTerm[lib.hash(tokens[i]) := tokens[i]];
        }
      }
    }
  }
}
