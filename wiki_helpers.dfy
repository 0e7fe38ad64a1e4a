/**
 * Ingestion and query control flow over a wiki store (utils/wikiHelpers.js). The database is a
 * small class holding the `wiki_pages` and `wiki_nodes` collections; what the database, the
 * embeddings service and the query-enrichment model answer is passed in as values.
 */
module WikiHelpers {
  import opened Wrappers
  import opened SentenceSegmentation
  import opened Windowing
  import opened Embeddings

  const EmbedTokenPerWindow := 500
  const EmbedSentenceOverlap := 2

  /** A `wiki_pages` document `{wiki_id, title, text, tags, document_embedding}`. */
  datatype PageDoc = PageDoc(wikiId: string, title: string, text: string, tags: seq<string>, documentEmbedding: seq<real>)

  /** A `wiki_nodes` document: an embedding window object with its `wiki_page_title` property. */
  datatype NodeDoc = NodeDoc(text: string, embedding: seq<real>, wikiPageTitle: Option<string>)

  /** What `insertOne` does: acknowledged with an id, not acknowledged, or throwing. */
  datatype WriteOutcome = Acknowledged(insertedId: string) | Unacknowledged | WriteThrows(message: string)

  /** What `insertMany` does. */
  datatype ManyOutcome = ManyAcknowledged(insertedIds: seq<string>) | ManyUnacknowledged | ManyThrows(message: string)

  /** The titles of the pages of wiki `wikiId` that carry one of `tags`, in store order. */
  function TitlesMatching(pages: seq<PageDoc>, wikiId: string, tags: seq<string>, n: nat): seq<string>
    requires n <= |pages|
    decreases n
  {
    if n == 0 then []
    else
      var p := pages[n - 1];
      var earlier := TitlesMatching(pages, wikiId, tags, n - 1);
      if p.wikiId == wikiId && HasTagIn(p.tags, tags) then earlier + [p.title] else earlier
  }

  /** `{tags: {$in: wanted}}` on an array field: some element is one of `wanted`. */
  predicate HasTagIn(pageTags: seq<string>, wanted: seq<string>) {
    exists t :: t in pageTags && t in wanted
  }

  /** A title is found exactly when some page of the wiki with that title carries a wanted tag. */
  lemma {:induction false} TitlesMatchingMeaning(pages: seq<PageDoc>, wikiId: string, tags: seq<string>, n: nat)
    requires n <= |pages|
    ensures forall t :: t in TitlesMatching(pages, wikiId, tags, n) <==>
              exists k :: 0 <= k < n && pages[k].title == t && pages[k].wikiId == wikiId && HasTagIn(pages[k].tags, tags)
    decreases n
  {
    if n > 0 {
      TitlesMatchingMeaning(pages, wikiId, tags, n - 1);
    }
  }

  /** The two collections. */
  class WikiStore {
    var pages: seq<PageDoc>
    var nodes: seq<NodeDoc>

    constructor ()
      ensures pages == [] && nodes == []
    {
      pages := [];
      nodes := [];
    }

    /** `wiki_pages.insertOne(doc)`: an acknowledged insert stores the document. */
    method InsertPage(doc: PageDoc, outcome: WriteOutcome)
      modifies this
      ensures pages == if outcome.Acknowledged? then old(pages) + [doc] else old(pages)
      ensures nodes == old(nodes)
    {
      if outcome.Acknowledged? {
        pages := pages + [doc];
      }
    }

    /** `wiki_nodes.insertMany(docs)`: an acknowledged insert stores all documents together. */
    method InsertNodes(docs: seq<NodeDoc>, outcome: ManyOutcome)
      modifies this
      ensures nodes == if outcome.ManyAcknowledged? then old(nodes) + docs else old(nodes)
      ensures pages == old(pages)
    {
      if outcome.ManyAcknowledged? {
        nodes := nodes + docs;
      }
    }

    /** `wiki_pages.find({wiki_id, tags: {$in: tags}})` mapped to titles. */
    function FindTitles(wikiId: string, tags: seq<string>): seq<string>
      reads this
    {
      TitlesMatching(pages, wikiId, tags, |pages|)
    }
  }

  /** What `insertWikiPage` resolves or rejects with. */
  datatype InsertReply =
    | Inserted(wikiPageId: string, subnodes: seq<string>)  // `{success: {wiki_page_id, subnodes}, error: null}`
    | InsertFailed(error: string)                          // `{success: null, error}`
    | NodesFailed(error: string)                           // `{error}` alone
    | InsertRejected(error: string)                        // an error thrown outside the `try`

  const NoEmbeddingsMessage := "Failed to insert document: Couldn't generate any text embeddings!"
  const PageWriteMessage := "Failed to insert document: MongoError"
  const NodesWriteMessage := "Failed to insert wiki nodes: MongoError"

  /** The embedding vectors of the chunks. */
  function Vectors(chunks: seq<Chunk>): (r: seq<seq<real>>)
    ensures |r| == |chunks|
    ensures forall k :: 0 <= k < |chunks| ==> r[k] == chunks[k].embedding
  {
    seq(|chunks|, k requires 0 <= k < |chunks| => chunks[k].embedding)
  }

  /** The node documents for the chunks once stamped with `wiki_page_title = title`. */
  function Stamped(chunks: seq<Chunk>, title: string): (r: seq<NodeDoc>)
    ensures |r| == |chunks|
    ensures forall k :: 0 <= k < |chunks| ==> r[k] == NodeDoc(chunks[k].text, chunks[k].embedding, Some(title))
  {
    seq(|chunks|, k requires 0 <= k < |chunks| => NodeDoc(chunks[k].text, chunks[k].embedding, Some(title)))
  }

  /** The documents `insertMany` receives: the window objects as they are. */
  function NodeDocs(records: seq<EmbeddingRecord>): (r: seq<NodeDoc>)
    reads records
    ensures |r| == |records|
    ensures forall k :: 0 <= k < |records| ==>
              r[k] == NodeDoc(records[k].text, records[k].embedding, records[k].wikiPageTitle)
  {
    seq(|records|, k reads records requires 0 <= k < |records| =>
      NodeDoc(records[k].text, records[k].embedding, records[k].wikiPageTitle))
  }

  /** `embeddings[i]['wiki_page_title'] = title` for every window object, in place. */
  method StampTitle(records: seq<EmbeddingRecord>, title: string)
    modifies records
    ensures forall k :: 0 <= k < |records| ==>
              && records[k].wikiPageTitle == Some(title)
              && records[k].text == old(records[k].text)
              && records[k].embedding == old(records[k].embedding)
  {
    for i := 0 to |records|
      invariant forall k :: 0 <= k < i ==> records[k].wikiPageTitle == Some(title)
      invariant forall k :: 0 <= k < |records| ==>
                  records[k].text == old(records[k].text) && records[k].embedding == old(records[k].embedding)
    {
      records[i].wikiPageTitle := Some(title);
    }
  }

  /** The reply once the page document is ready to be written. */
  function WriteReply(pageWrite: WriteOutcome, nodesWrite: ManyOutcome): InsertReply {
    match pageWrite
    case WriteThrows(message) => InsertFailed(message)
    case Unacknowledged => InsertFailed(PageWriteMessage)
    case Acknowledged(pageId) =>
      match nodesWrite
      case ManyThrows(message) => InsertFailed(message)
      case ManyUnacknowledged => NodesFailed(NodesWriteMessage)
      case ManyAcknowledged(ids) => Inserted(pageId, ids)
  }

  /** The reply of `insertWikiPage` once the embedded chunks are known. */
  function InsertResult(chunks: seq<Chunk>, pageWrite: WriteOutcome, nodesWrite: ManyOutcome): InsertReply {
    if |chunks| == 0 then InsertFailed(NoEmbeddingsMessage)
    else if Uneven(Vectors(chunks)) then InsertRejected(UnevenMessage)
    else WriteReply(pageWrite, nodesWrite)
  }

  /** The page is written when there is an average to store and its insert is acknowledged. */
  predicate PageWritten(chunks: seq<Chunk>, pageWrite: WriteOutcome) {
    |chunks| > 0 && !Uneven(Vectors(chunks)) && pageWrite.Acknowledged?
  }

  /**
   * `insertWikiPage` succeeds exactly when some window was embedded, their vectors are even
   * and both inserts are acknowledged; it then answers with the ids the inserts gave. Every
   * failure is a message, and the only rejection is the uneven-vectors error.
   */
  lemma InsertResultMeaning(chunks: seq<Chunk>, pageWrite: WriteOutcome, nodesWrite: ManyOutcome)
    ensures var reply := InsertResult(chunks, pageWrite, nodesWrite);
            && (reply.Inserted? <==> PageWritten(chunks, pageWrite) && nodesWrite.ManyAcknowledged?)
            && (reply.Inserted? ==> reply.wikiPageId == pageWrite.insertedId && reply.subnodes == nodesWrite.insertedIds)
            && (reply.InsertRejected? <==> |chunks| > 0 && Uneven(Vectors(chunks)))
            && (reply.NodesFailed? <==> PageWritten(chunks, pageWrite) && nodesWrite.ManyUnacknowledged?)
            && (reply.InsertFailed? && !PageWritten(chunks, pageWrite) && |chunks| > 0 ==>
                  reply.error == if pageWrite.WriteThrows? then pageWrite.message else PageWriteMessage)
  {
  }

  /** The two inserts, with the title stamp on the window objects in between. */
  method WriteDocuments(store: WikiStore, records: seq<EmbeddingRecord>, doc: PageDoc, title: string,
                        pageWrite: WriteOutcome, nodesWrite: ManyOutcome)
    returns (reply: InsertReply)
    modifies store, records
    ensures reply == WriteReply(pageWrite, nodesWrite)
    ensures store.pages == if pageWrite.Acknowledged? then old(store.pages) + [doc] else old(store.pages)
    ensures store.nodes == if pageWrite.Acknowledged? && nodesWrite.ManyAcknowledged?
                           then old(store.nodes) + Stamped(old(Snapshot(records)), title)
                           else old(store.nodes)
  {
    ghost var chunks := Snapshot(records);
    store.InsertPage(doc, pageWrite);
    match pageWrite {
      case WriteThrows(message) =>
        return InsertFailed(message);
      case Unacknowledged =>
        return InsertFailed(PageWriteMessage);
      case Acknowledged(pageId) =>
        StampTitle(records, title);
        assert NodeDocs(records) == Stamped(chunks, title);
        store.InsertNodes(NodeDocs(records), nodesWrite);
        match nodesWrite {
          case ManyThrows(message) =>
            return InsertFailed(message);
          case ManyUnacknowledged =>
            return NodesFailed(NodesWriteMessage);
          case ManyAcknowledged(ids) =>
            return Inserted(pageId, ids);
        }
    }
  }

  /**
   * `insertWikiPage(wikiId, title, text, tags)`. `fetch` gives the embeddings service's
   * behaviour per window, `pageWrite` and `nodesWrite` what the two inserts do.
   */
  method InsertWikiPage(store: WikiStore, grabber: SentenceGrabber, wikiId: string, title: string, text: string,
                        tags: seq<string>, fetch: nat -> FetchOutcome, pageWrite: WriteOutcome, nodesWrite: ManyOutcome)
    returns (reply: InsertReply)
    requires RunsFit(Segment(grabber.abbreviations, text), EmbedTokenPerWindow, EmbedSentenceOverlap)
    modifies store
    ensures reply == InsertResult(EmbeddedChunks(grabber.abbreviations, text, fetch), pageWrite, nodesWrite)
    ensures !PageWritten(EmbeddedChunks(grabber.abbreviations, text, fetch), pageWrite) ==>
              store.pages == old(store.pages)
    ensures PageWritten(EmbeddedChunks(grabber.abbreviations, text, fetch), pageWrite) ==>
              && |store.pages| == |old(store.pages)| + 1
              && store.pages[..|old(store.pages)|] == old(store.pages)
              && StoredPage(store.pages[|old(store.pages)|], wikiId, title, text, tags,
                            EmbeddedChunks(grabber.abbreviations, text, fetch))
    ensures store.nodes == if PageWritten(EmbeddedChunks(grabber.abbreviations, text, fetch), pageWrite)
                              && nodesWrite.ManyAcknowledged?
                           then old(store.nodes) + Stamped(EmbeddedChunks(grabber.abbreviations, text, fetch), title)
                           else old(store.nodes)
  {
    var embeddings := GetEmbeddings(grabber, text, fetch, EmbedTokenPerWindow, EmbedSentenceOverlap);
    ghost var chunks := Snapshot(embeddings);
    if |embeddings| == 0 {
      return InsertFailed(NoEmbeddingsMessage);
    }
    var average := GetAverageEmbedding(Vectors(Snapshot(embeddings)));
    if average.Failure? {
      return InsertRejected(average.error);
    }
    var docData := PageDoc(wikiId, title, text, tags, average.value);
    reply := WriteDocuments(store, embeddings, docData, title, pageWrite, nodesWrite);
  }

  /** The windows of the text whose embedding was written, as `getEmbeddings` returns them. */
  function EmbeddedChunks(abbreviations: seq<Element>, text: string, fetch: nat -> FetchOutcome): seq<Chunk>
    requires RunsFit(Segment(abbreviations, text), EmbedTokenPerWindow, EmbedSentenceOverlap)
  {
    Survivors(FetchedChunks(EmbeddingWindows(abbreviations, text, EmbedTokenPerWindow, EmbedSentenceOverlap), fetch))
  }

  /** The page document holds the page's fields and the average of the chunk vectors. */
  predicate StoredPage(page: PageDoc, wikiId: string, title: string, text: string, tags: seq<string>, chunks: seq<Chunk>)
    requires |chunks| > 0
  {
    && page.wikiId == wikiId && page.title == title && page.text == text && page.tags == tags
    && IsAverage(Vectors(chunks), page.documentEmbedding)
  }

  /** A `WikiNodeQuery` `{wikiId, searchText, tags, n, useEnrichment}`; `None` is an absent text. */
  datatype WikiQuery = WikiQuery(wikiId: string, searchText: Option<string>, tags: seq<string>, n: int, useEnrichment: bool)

  /** What `enrichQuery` resolves with: `{query, error: null}` or `{query: null, error}`. */
  datatype Enrichment = Enriched(query: string) | EnrichFailed(error: string)

  datatype Projection = ProjectMeta(meta: string) | ProjectInclude | ProjectExclude

  /** The aggregation stages the query builds. */
  datatype Stage =
    | VectorSearch(index: string, path: string, queryVector: seq<real>, numCandidates: nat, limit: int)
    | Project(fields: seq<(string, Projection)>)
    | MatchTitles(wikiTitleIn: seq<string>)   // `{$match: {wiki_title: {$in: titles}}}`

  /** A result row of the aggregation: `{score, text, wiki_title}`. */
  datatype Hit = Hit(score: real, text: string, wikiTitle: Option<string>)

  /** The calls to the outside world, in order. */
  datatype Call =
    | EnrichCall(text: string)
    | EmbedCall(text: string)
    | TagLookupCall(wikiId: string, tags: seq<string>)
    | AggregateCall(pipeline: seq<Stage>)

  /** What `queryWikiNodes` resolves with. */
  datatype QueryReply =
    | QueryFailed(error: string)        // `{result: null, error}`
    | NoResults                         // the bare `[]`
    | QueryResults(result: seq<Hit>)    // `{result, error: null}`

  const SearchTextMessage := "Required parameter 'searchText' undefined "
  const NodeIndex := "wiki-node-embeddings"
  const NumCandidates: nat := 200

  /** `!searchText`: absent or the empty string. */
  predicate Falsy(searchText: Option<string>) {
    searchText.None? || searchText.value == ""
  }

  /** The text that gets embedded: the enriched query only when enrichment was asked for and succeeded. */
  function QueryText(searchText: string, useEnrichment: bool, enrichment: Enrichment): (t: string)
    ensures t != searchText ==> useEnrichment && enrichment.Enriched? && t == enrichment.query
    ensures useEnrichment && enrichment.Enriched? ==> t == enrichment.query
  {
    if useEnrichment && enrichment.Enriched? then enrichment.query else searchText
  }

  const ProjectStage := Project([("score", ProjectMeta("vectorSearchScore")), ("text", ProjectInclude),
                                 ("wiki_title", ProjectInclude), ("_id", ProjectExclude)])

  /** The vector-search pipeline, with the title filter first exactly when titles were found. */
  function Pipeline(queryVector: seq<real>, limit: int, titles: seq<string>): (p: seq<Stage>)
    ensures |p| == if |titles| > 0 then 3 else 2
    ensures p[0].MatchTitles? <==> |titles| > 0
    ensures |titles| > 0 ==> p[0] == MatchTitles(titles)
    ensures p[|p| - 2] == VectorSearch(NodeIndex, "embedding", queryVector, NumCandidates, limit)
    ensures p[|p| - 1] == ProjectStage
  {
    var aggregation := [VectorSearch(NodeIndex, "embedding", queryVector, NumCandidates, limit), ProjectStage];
    if |titles| > 0 then [MatchTitles(titles)] + aggregation else aggregation
  }

  /** `embedReply.error || queryNode.embedding.length === 0`. */
  predicate EmbedFailed(reply: FetchReply, embedding: seq<real>) {
    (reply.ReplyError? && reply.error != "") || |embedding| == 0
  }

  /**
   * `queryWikiNodes(query)`. `enrichment`, `embedOutcome` and `found` are what the enrichment
   * model, the embeddings service and the aggregation answer; the limit is the query's `n`.
   */
  method QueryWikiNodes(store: WikiStore, query: WikiQuery, enrichment: Enrichment, embedOutcome: FetchOutcome,
                        found: seq<Hit>)
    returns (reply: QueryReply, calls: seq<Call>)
    ensures Falsy(query.searchText) ==> reply == QueryFailed(SearchTextMessage) && calls == []
    ensures !Falsy(query.searchText) ==>
              var searchText := query.searchText.value;
              var text := QueryText(searchText, query.useEnrichment, enrichment);
              var start := (if query.useEnrichment then [EnrichCall(searchText)] else []) + [EmbedCall(text)];
              var vector := Written(embedOutcome);
              var titles := if |query.tags| > 0 then store.FindTitles(query.wikiId, query.tags) else [];
              if vector.None? || |vector.value| == 0 then
                reply == NoResults && calls == start
              else
                && reply == QueryResults(found)
                && calls == start
                           + (if |query.tags| > 0 then [TagLookupCall(query.wikiId, query.tags)] else [])
                           + [AggregateCall(Pipeline(vector.value, query.n, titles))]
  {
    if Falsy(query.searchText) {
      return QueryFailed(SearchTextMessage), [];
    }
    calls := [];
    var queryNode := new EmbeddingRecord(query.searchText.value);
    if query.useEnrichment {
      calls := calls + [EnrichCall(query.searchText.value)];
      match enrichment {
        case EnrichFailed(_) =>
        case Enriched(enriched) =>
          queryNode.text := enriched;
      }
    }
    calls := calls + [EmbedCall(queryNode.text)];
    var embedReply := EmbeddingFetch(queryNode, embedOutcome);
    if EmbedFailed(embedReply, queryNode.embedding) {
      return NoResults, calls;
    }
    var titles := [];
    if |query.tags| > 0 {
      calls := calls + [TagLookupCall(query.wikiId, query.tags)];
      titles := store.FindTitles(query.wikiId, query.tags);
    }
    var aggregation := [VectorSearch(NodeIndex, "embedding", queryNode.embedding, NumCandidates, query.n), ProjectStage];
    if |titles| > 0 {
      aggregation := [MatchTitles(titles)] + aggregation;
    }
    calls := calls + [AggregateCall(aggregation)];
    return QueryResults(found), calls;
  }
}
