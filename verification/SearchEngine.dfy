/** The in-memory search engine: documents by arrival, vectors by URL and a
    lexical index by URL, kept in step by index_one and index_batch. */
module SearchEngine {
  import opened Wrappers
  import opened LexicalIndex

  type Url = string

  type Vector = seq<real>

  /** details stands for the fields that are only copied to the result. */
  datatype Content = Content(url: Url, title: string, excerpt: string, body: string, details: int, isValid: bool)

  datatype SearchResult = SearchResult(rank: nat, doc: Content, score: real)

  datatype EmbedError = EmbedError

  /** The dense embedder: it may fail, and may return any number of vectors. */
  type Embedder = seq<string> -> Result<seq<Vector>, EmbedError>

  /** Title and body, as the document is indexed lexically. */
  function LexicalText(c: Content): string
  {
    if c.title == "" then c.body else c.title + " " + c.body
  }

  /** Under one title, different bodies are indexed as different texts. */
  lemma TextTellsBody(a: Content, b: Content)
    requires a.title == b.title && a.body != b.body
    ensures LexicalText(a) != LexicalText(b)
  {
    if a.title != "" {
      var start := a.title + " ";
      assert LexicalText(a)[|start|..] == a.body && LexicalText(b)[|start|..] == b.body;
    }
  }

  function VectorText(c: Content): string
  {
    if c.title == "" then c.url else c.title + " " + c.excerpt
  }

  /** The documents that are indexed: those marked valid, in order. */
  function ValidOnly(items: seq<Content>): (valid: seq<Content>)
    ensures |valid| <= |items|
    ensures forall c :: c in valid <==> c in items && c.isValid
  {
    if items == [] then [] else
      var last := items[|items| - 1];
      ValidOnly(items[..|items| - 1]) + if last.isValid then [last] else []
  }

  /** The loop that filters a batch. */
  method KeepValid(items: seq<Content>) returns (valid: seq<Content>)
    ensures valid == ValidOnly(items)
  {
    valid := [];
    for i := 0 to |items|
      invariant valid == ValidOnly(items[..i])
    {
      assert items[..i + 1][..i] == items[..i];
      if items[i].isValid {
        valid := valid + [items[i]];
      }
    }
    assert items[..|items|] == items;
  }

  /** What the lexical index must hold for these documents: the last text per URL. */
  function TextsOf(docs: seq<Content>): map<Url, string>
  {
    if docs == [] then map[] else
      var last := docs[|docs| - 1];
      TextsOf(docs[..|docs| - 1])[last.url := LexicalText(last)]
  }

  /** The position of the latest document with this URL. */
  ghost predicate IsLatest(docs: seq<Content>, url: Url, k: int)
  {
    0 <= k < |docs| && docs[k].url == url && forall j | k < j < |docs| :: docs[j].url != url
  }

  /** An id of the lexical index is the URL of a document, and its text is the
      title, a blank and the body of the latest document with that URL, or the
      body alone when there is no title. */
  lemma {:induction false} TextsAreLatest(docs: seq<Content>, url: Url)
    ensures url in TextsOf(docs) <==> exists k :: IsLatest(docs, url, k)
    ensures forall k | IsLatest(docs, url, k) && docs[k].title == "" :: TextsOf(docs)[url] == docs[k].body
    ensures forall k | IsLatest(docs, url, k) && docs[k].title != "" :: TextsOf(docs)[url] == docs[k].title + " " + docs[k].body
  {
    if docs != [] {
      var n := |docs| - 1;
      var front := docs[..n];
      TextsAreLatest(front, url);
      if docs[n].url == url {
        assert IsLatest(docs, url, n);
      } else {
        forall k: int
          ensures IsLatest(docs, url, k) <==> IsLatest(front, url, k)
        {
          if IsLatest(front, url, k) {
            assert docs[k] == front[k];
          }
          if IsLatest(docs, url, k) {
            assert front[k] == docs[k];
          }
        }
        if url in TextsOf(docs) {
          var k :| IsLatest(front, url, k);
          assert IsLatest(docs, url, k);
        }
      }
    }
  }

  lemma TextsAppend(docs: seq<Content>, c: Content)
    ensures TextsOf(docs + [c]) == TextsOf(docs)[c.url := LexicalText(c)]
  {
    assert (docs + [c])[..|docs|] == docs;
  }

  function VectorTexts(items: seq<Content>): (texts: seq<string>)
    ensures |texts| == |items|
    ensures forall i | 0 <= i < |items| ::
              texts[i] == if items[i].title == "" then items[i].url else items[i].title + " " + items[i].excerpt
  {
    seq(|items|, i requires 0 <= i < |items| => VectorText(items[i]))
  }

  function Shorter<A, B>(a: seq<A>, b: seq<B>): (n: nat)
    ensures n <= |a| && n <= |b| && (n == |a| || n == |b|)
  {
    if |a| < |b| then |a| else |b|
  }

  /** The vectors after the first n documents of a batch are stored in turn. */
  function Stored(before: map<Url, Vector>, items: seq<Content>, embedded: seq<Vector>, n: nat): map<Url, Vector>
    requires n <= |items| && n <= |embedded|
  {
    if n == 0 then before else Stored(before, items, embedded, n - 1)[items[n - 1].url := embedded[n - 1]]
  }

  /** A URL of the batch has the vector of its latest document there; any other URL keeps its own. */
  lemma {:induction false} StoredIsLatest(before: map<Url, Vector>, items: seq<Content>, embedded: seq<Vector>, n: nat, url: Url)
    requires n <= |items| && n <= |embedded|
    ensures var after := Stored(before, items, embedded, n);
            && (forall k | IsLatest(items[..n], url, k) :: url in after && after[url] == embedded[k])
            && ((forall k | 0 <= k < n :: items[k].url != url) ==>
                  (url in after <==> url in before) && (url in before ==> after[url] == before[url]))
  {
    if n > 0 {
      StoredIsLatest(before, items, embedded, n - 1, url);
      var after := Stored(before, items, embedded, n);
      forall k | IsLatest(items[..n], url, k)
        ensures url in after && after[url] == embedded[k]
      {
        if k < n - 1 {
          assert IsLatest(items[..n - 1], url, k);
          assert items[..n][n - 1].url != url;
        }
      }
      if forall k | 0 <= k < n :: items[k].url != url {
        assert items[n - 1].url != url;
      }
    }
  }

  /** The result for a hit: the document is the latest with that URL, and its
      text is the one the index scored. */
  ghost predicate IsResult(docs: seq<Content>, texts: map<Url, string>, hit: Hit, rank: nat, result: SearchResult)
  {
    && result.rank == rank && result.score == hit.score
    && (exists k :: IsLatest(docs, hit.id, k) && result.doc == docs[k])
    && hit.id in texts
    && (result.doc.title == "" ==> texts[hit.id] == result.doc.body)
    && (result.doc.title != "" ==> texts[hit.id] == result.doc.title + " " + result.doc.body)
  }

  /** The vectors for a batch; no vectors are asked for without an embedder or for an empty batch. */
  function BatchVectors(embedder: Option<Embedder>, valid: seq<Content>): Result<seq<Vector>, EmbedError>
  {
    if embedder.None? || valid == [] then Ok([]) else embedder.value(VectorTexts(valid))
  }

  lemma StoredNothing(before: map<Url, Vector>, items: seq<Content>)
    ensures Stored(before, items, [], 0) == before
  {
  }

  lemma TextsNotEmpty(docs: seq<Content>)
    requires docs != []
    ensures TextsOf(docs) != map[]
  {
    assert docs[|docs| - 1].url in TextsOf(docs);
  }

  class InMemorySearchEngine {
    var documents: seq<Content>
    var vectors: map<Url, Vector>
    const embedder: Option<Embedder>
    const lexical: Bm25Index

    /** Documents and lexical index agree. */
    ghost predicate Valid()
      reads this, lexical
    {
      lexical.Valid() && lexical.texts == TextsOf(documents)
    }

    constructor (lib: Bm25, embedder: Option<Embedder>)
      ensures Valid() && fresh(lexical)
      ensures documents == [] && vectors == map[] && this.embedder == embedder
    {
      this.embedder := embedder;
      documents, vectors := [], map[];
      lexical := new Bm25Index(lib, 0.0);
    }

    /** A valid document is indexed whole or, if the embedder fails, not at all. */
    method IndexOne(content: Content) returns (r: Result<(), EmbedError>)
      requires Valid()
      modifies this, lexical
      ensures Valid()
      ensures var text := if content.title == "" then content.url else content.title + " " + content.excerpt;
              && (r.Err? <==> content.isValid && embedder.Some? && embedder.value([text]).Err?)
              && vectors == if content.isValid && embedder.Some? && embedder.value([text]).Ok? && embedder.value([text]).value != []
                            then old(vectors)[content.url := embedder.value([text]).value[0]] else old(vectors)
      ensures documents == if content.isValid && r.Ok? then old(documents) + [content] else old(documents)
      ensures lexical.fitted == if content.isValid && r.Ok?
                                then old(lexical.fitted)[content.url := lexical.avgdl] else old(lexical.fitted)
    {
      hide TextsOf, LexicalText;
      if !content.isValid {
        return Ok(());
      }
      if embedder.Some? {
        var embedded := embedder.value([VectorText(content)]);
        if embedded.Err? {
          return Err(embedded.error);
        }
        if embedded.value != [] {
          vectors := vectors[content.url := embedded.value[0]];
        }
      }
      TextsAppend(documents, content);
      lexical.Upsert(content.url, LexicalText(content));
      documents := documents + [content];
      return Ok(());
    }

    /** The loop that stores the vectors of a batch, paired with its documents. */
    method StoreVectors(items: seq<Content>, embedded: seq<Vector>)
      modifies this`vectors
      ensures vectors == Stored(old(vectors), items, embedded, Shorter(items, embedded))
    {
      for i := 0 to Shorter(items, embedded)
        invariant vectors == Stored(old(vectors), items, embedded, i)
      {
        vectors := vectors[items[i].url := embedded[i]];
      }
    }

    /** The loop that feeds a batch to the lexical index. */
    method UpsertAll(valid: seq<Content>)
      requires Valid()
      modifies lexical
      ensures lexical.Valid() && lexical.texts == TextsOf(documents + valid)
      ensures valid == [] ==> lexical.fitted == old(lexical.fitted)
    {
      hide TextsOf, LexicalText;
      assert documents + valid[..0] == documents;
      for i := 0 to |valid|
        invariant lexical.Valid()
        invariant lexical.texts == TextsOf(documents + valid[..i])
        invariant valid == [] ==> lexical.fitted == old(lexical.fitted)
      {
        TextsAppend(documents + valid[..i], valid[i]);
        assert documents + valid[..i + 1] == documents + valid[..i] + [valid[i]];
        lexical.Upsert(valid[i].url, LexicalText(valid[i]));
      }
      assert valid[..|valid|] == valid;
    }

    /** The lexical half of a batch: upsert every document, then refit. */
    method FeedLexical(valid: seq<Content>)
      requires Valid()
      modifies lexical
      ensures lexical.Valid() && lexical.texts == TextsOf(documents + valid)
      ensures valid == [] ==> lexical.fitted == old(lexical.fitted)
      ensures valid != [] ==> forall url | url in lexical.texts :: lexical.fitted[url] == lexical.lib.fit(lexical.texts)
    {
      hide TextsOf, LexicalText;
      UpsertAll(valid);
      if |valid| > 0 {
        TextsNotEmpty(documents + valid);
        var _ := lexical.Refit();
      }
    }

    /** The valid documents of the batch are indexed in order, or none if the
        embedder fails; every stored embedding is then at the refitted length. */
    method IndexBatch(items: seq<Content>) returns (r: Result<nat, EmbedError>)
      requires Valid()
      modifies this, lexical
      ensures Valid()
      ensures r.Ok? ==> r.value == |ValidOnly(items)| && documents == old(documents) + ValidOnly(items)
      ensures r.Err? ==> documents == old(documents) && lexical.fitted == old(lexical.fitted)
      ensures r.Err? <==> BatchVectors(embedder, ValidOnly(items)).Err?
      ensures var valid, embedded := ValidOnly(items), BatchVectors(embedder, ValidOnly(items));
              vectors == if embedded.Ok? then Stored(old(vectors), valid, embedded.value, Shorter(valid, embedded.value)) else old(vectors)
      ensures r.Ok? && r.value > 0 ==> forall url | url in lexical.texts :: lexical.fitted[url] == lexical.lib.fit(lexical.texts)
      ensures r == Ok(0) ==> lexical.fitted == old(lexical.fitted)
    {
      hide TextsOf, LexicalText, Stored, ValidOnly, VectorTexts;
      assert documents + [] == documents;
      var valid := KeepValid(items);
      StoredNothing(vectors, valid);
      if embedder.Some? && valid != [] {
        var embedded := embedder.value(VectorTexts(valid));
        if embedded.Err? {
          return Err(embedded.error);
        }
        StoreVectors(valid, embedded.value);
      }
      FeedLexical(valid);
      documents := documents + valid;
      return Ok(|valid|);
    }

    /** No hit is dropped, and each result is the very version that was scored.
        Ranks run from 1 to the number of hits. */
    method SearchBm25(query: string, limit: nat) returns (results: seq<SearchResult>)
      requires Valid()
      ensures exists all: seq<Hit> ::
                && IsRanking(all, lexical.lib, lexical.scorer, lexical.lib.embed(lexical.avgdl, query))
                && |results| == |Truncated(all, limit)|
                && forall i: nat | i < |results| :: IsResult(documents, lexical.texts, all[i], i + 1, results[i])
    {
      hide TextsOf, LexicalText, IsResult;
      var hits := lexical.Search(query, limit);
      ghost var all: seq<Hit> :| && IsRanking(all, lexical.lib, lexical.scorer, lexical.lib.embed(lexical.avgdl, query))
                                 && hits == Truncated(all, limit);
      forall i | 0 <= i < |hits|
        ensures hits[i].id in lexical.texts
      {
        assert all[i] in all;
      }
      results := Resolve(hits);
    }

    /** The map of the documents by URL. */
    method ByUrl() returns (byUrl: map<Url, Content>)
      ensures byUrl == LastByUrl(documents)
    {
      byUrl := map[];
      for i := 0 to |documents|
        invariant byUrl == LastByUrl(documents[..i])
      {
        assert documents[..i + 1][..i] == documents[..i];
        byUrl := byUrl[documents[i].url := documents[i]];
      }
      assert documents[..|documents|] == documents;
    }

    /** The loop that looks the hits up; a hit without a document would be dropped. */
    method Resolve(hits: seq<Hit>) returns (results: seq<SearchResult>)
      requires lexical.texts == TextsOf(documents)
      requires forall i | 0 <= i < |hits| :: hits[i].id in lexical.texts
      ensures |results| == |hits|
      ensures forall i: nat | i < |results| :: IsResult(documents, lexical.texts, hits[i], i + 1, results[i])
    {
      hide LastByUrl, TextsOf, LexicalText, IsLatest;
      var byUrl := ByUrl();
      results := [];
      for rank := 0 to |hits|
        invariant |results| == rank
        invariant forall i: nat | i < rank :: IsResult(documents, lexical.texts, hits[i], i + 1, results[i])
      {
        var url := hits[rank].id;
        HitIsDocument(documents, url);
        if url in byUrl {
          results := results + [SearchResult(rank + 1, byUrl[url], hits[rank].score)];
        }
      }
    }
  }

  /** What collecting the documents into a map by URL leaves: the last one wins. */
  function LastByUrl(docs: seq<Content>): map<Url, Content>
  {
    if docs == [] then map[] else
      var last := docs[|docs| - 1];
      LastByUrl(docs[..|docs| - 1])[last.url := last]
  }

  lemma {:induction false} LastByUrlIsLatest(docs: seq<Content>, url: Url)
    ensures forall k | IsLatest(docs, url, k) :: url in LastByUrl(docs) && LastByUrl(docs)[url] == docs[k]
  {
    if docs != [] {
      var n := |docs| - 1;
      LastByUrlIsLatest(docs[..n], url);
      forall k | IsLatest(docs, url, k)
        ensures url in LastByUrl(docs) && LastByUrl(docs)[url] == docs[k]
      {
        if k < n {
          assert IsLatest(docs[..n], url, k);
          assert docs[n].url != url;
        }
      }
    }
  }

  /** Every id of the lexical index is found in the map by URL. */
  lemma HitIsDocument(docs: seq<Content>, url: Url)
    requires url in TextsOf(docs)
    ensures url in LastByUrl(docs)
    ensures exists k :: IsLatest(docs, url, k) && LastByUrl(docs)[url] == docs[k]
    ensures var doc, text := LastByUrl(docs)[url], TextsOf(docs)[url];
            text == if doc.title == "" then doc.body else doc.title + " " + doc.body
  {
    TextsAreLatest(docs, url);
    LastByUrlIsLatest(docs, url);
  }
}
