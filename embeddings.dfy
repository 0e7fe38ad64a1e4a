/**
 * Embedding orchestration and aggregation (utils/embeddings.js): each text window is sent to
 * the embeddings service, whose reply is an input here; windows whose embedding stayed empty are
 * dropped; a document vector is the per-dimension mean of its chunks' vectors; two vectors
 * are compared by their dot product over the model's 1536 dimensions. Numbers are reals.
 */
module Embeddings {
  import opened Wrappers
  import opened SentenceSegmentation
  import opened Windowing

  /** The dimension of the small embedding model. */
  const SmallEmbeddingsDim: nat := 1536

  /** What the embeddings service does with one request. */
  datatype FetchOutcome =
    | NotOk                              // the response status is not ok
    | BodyError(message: string)         // reading the response body fails with this message
    | Body(data: seq<seq<real>>)         // `completion.data`: the returned embedding vectors

  /** What `embeddingFetch` resolves with. */
  datatype FetchReply = ReplyError(error: string) | ReplySuccess(success: string)

  const FetchFailedMessage := "Failed to get embedding from openai"
  const WroteMessage := "Wrote embedding to object"
  /** The message of the TypeError that reading `data[0].embedding` raises when `data` is empty. */
  const NoDataMessage := "Cannot read properties of undefined (reading 'embedding')"

  /** The vector a fetch writes into its store object, if it writes one. */
  function Written(outcome: FetchOutcome): Option<seq<real>> {
    if outcome.Body? && |outcome.data| > 0 then Some(outcome.data[0]) else None
  }

  /** The reply of `embeddingFetch` for an outcome: success exactly when a vector was written. */
  function Reply(outcome: FetchOutcome): (reply: FetchReply)
    ensures reply.ReplySuccess? <==> Written(outcome).Some?
    ensures outcome.NotOk? ==> reply == ReplyError(FetchFailedMessage)
  {
    match outcome
    case NotOk => ReplyError(FetchFailedMessage)
    case BodyError(message) => ReplyError(message)
    case Body(data) => if |data| > 0 then ReplySuccess(WroteMessage) else ReplyError(NoDataMessage)
  }

  /** A window object `{text, embedding}`; `insertWikiPage` later adds `wiki_page_title` to it. */
  class EmbeddingRecord {
    var text: string
    var embedding: seq<real>
    /** The `wiki_page_title` property, absent until a page insert stamps it. */
    var wikiPageTitle: Option<string>

    /** `{text, embedding: []}`. */
    constructor (text: string)
      ensures this.text == text && embedding == [] && wikiPageTitle == None
    {
      this.text := text;
      embedding := [];
      wikiPageTitle := None;
    }
  }

  /**
   * `embeddingFetch(store)` with the service's behaviour given as `outcome`: on success it
   * overwrites `store.embedding` with the first returned vector and nothing else; on any failure
   * the object is left as it was.
   */
  method EmbeddingFetch(store: EmbeddingRecord, outcome: FetchOutcome) returns (reply: FetchReply)
    modifies store
    ensures reply == Reply(outcome)
    ensures store.embedding == (if Written(outcome).Some? then Written(outcome).value else old(store.embedding))
    ensures store.text == old(store.text) && store.wikiPageTitle == old(store.wikiPageTitle)
  {
    match outcome {
      case NotOk =>
        reply := ReplyError(FetchFailedMessage);
      case BodyError(message) =>
        reply := ReplyError(message);
      case Body(data) =>
        if |data| == 0 {
          reply := ReplyError(NoDataMessage);
        } else {
          store.embedding := data[0];
          reply := ReplySuccess(WroteMessage);
        }
    }
  }

  /** The value of a window object: its text and its embedding. */
  datatype Chunk = Chunk(text: string, embedding: seq<real>)

  /** The window object for `text` after its fetch. */
  function FetchedChunk(text: string, outcome: FetchOutcome): Chunk {
    Chunk(text, if Written(outcome).Some? then Written(outcome).value else [])
  }

  /** The window objects after every fetch: window `k` is fetched with outcome `fetch(k)`. */
  function FetchedChunks(windows: seq<string>, fetch: nat -> FetchOutcome): seq<Chunk> {
    seq(|windows|, k requires 0 <= k < |windows| => FetchedChunk(windows[k], fetch(k)))
  }

  /** The chunks among the first `n` whose embedding is non-empty, in order. */
  function SurvivorsUpTo(chunks: seq<Chunk>, n: nat): seq<Chunk>
    requires n <= |chunks|
    decreases n
  {
    if n == 0 then []
    else if |chunks[n - 1].embedding| == 0 then SurvivorsUpTo(chunks, n - 1)
    else SurvivorsUpTo(chunks, n - 1) + [chunks[n - 1]]
  }

  function Survivors(chunks: seq<Chunk>): seq<Chunk> {
    SurvivorsUpTo(chunks, |chunks|)
  }

  /** The indices among the first `n` whose chunk has a non-empty embedding, in increasing order. */
  function SurvivorIndices(chunks: seq<Chunk>, n: nat): seq<nat>
    requires n <= |chunks|
    decreases n
  {
    if n == 0 then []
    else if |chunks[n - 1].embedding| == 0 then SurvivorIndices(chunks, n - 1)
    else SurvivorIndices(chunks, n - 1) + [n - 1]
  }

  /**
   * The survivors are chunks taken unchanged and in their original order: survivor `j` is chunk
   * `idx[j]` for strictly increasing indices `idx`.
   */
  lemma {:induction false} SurvivorsInOrder(chunks: seq<Chunk>, n: nat)
    requires n <= |chunks|
    ensures var s := SurvivorsUpTo(chunks, n);
            var idx := SurvivorIndices(chunks, n);
            && |s| == |idx|
            && (forall j :: 0 <= j < |idx| ==> idx[j] < n && s[j] == chunks[idx[j]])
            && (forall j, l :: 0 <= j < l < |idx| ==> idx[j] < idx[l])
    decreases n
  {
    if n > 0 {
      SurvivorsInOrder(chunks, n - 1);
    }
  }

  /** The indices taken are exactly the chunks with a non-empty embedding. */
  lemma {:induction false} SurvivorIndicesExact(chunks: seq<Chunk>, n: nat)
    requires n <= |chunks|
    ensures forall k :: 0 <= k < n ==> (k in SurvivorIndices(chunks, n) <==> |chunks[k].embedding| > 0)
    ensures forall k :: k in SurvivorIndices(chunks, n) ==> k < n
    decreases n
  {
    if n > 0 {
      SurvivorIndicesExact(chunks, n - 1);
    }
  }

  /** Every survivor has a non-empty embedding; when no fetch wrote a vector there are none. */
  lemma {:induction false} SurvivorsNonEmpty(chunks: seq<Chunk>, n: nat)
    requires n <= |chunks|
    ensures forall j :: 0 <= j < |SurvivorsUpTo(chunks, n)| ==> |SurvivorsUpTo(chunks, n)[j].embedding| > 0
    ensures (forall k :: 0 <= k < n ==> |chunks[k].embedding| == 0) ==> SurvivorsUpTo(chunks, n) == []
    decreases n
  {
    if n > 0 {
      SurvivorsNonEmpty(chunks, n - 1);
    }
  }

  /** The window texts `getEmbeddings(text, tokensPerWindow, overlap)` fetches embeddings for. */
  function EmbeddingWindows(abbreviations: seq<Element>, text: string, tokensPerWindow: int, overlap: int): seq<string>
    requires RunsFit(Segment(abbreviations, text), tokensPerWindow, overlap)
  {
    Windows(Segment(abbreviations, text), tokensPerWindow, overlap)
  }

  /** The values of a sequence of window objects. */
  function Snapshot(records: seq<EmbeddingRecord>): (r: seq<Chunk>)
    reads records
    ensures |r| == |records|
    ensures forall k :: 0 <= k < |records| ==> r[k] == Chunk(records[k].text, records[k].embedding)
  {
    if records == [] then []
    else Snapshot(records[..|records| - 1]) + [Chunk(records[|records| - 1].text, records[|records| - 1].embedding)]
  }

  /** `windows.map(text => ({text, embedding: []}))`: one new, distinct object per window. */
  method NewRecords(windows: seq<string>) returns (records: seq<EmbeddingRecord>)
    ensures |records| == |windows|
    ensures forall k :: 0 <= k < |records| ==> fresh(records[k])
    ensures forall j, k :: 0 <= j < k < |records| ==> records[j] != records[k]
    ensures forall k :: 0 <= k < |records| ==>
              records[k].text == windows[k] && records[k].embedding == [] && records[k].wikiPageTitle == None
  {
    records := [];
    for i := 0 to |windows|
      invariant |records| == i
      invariant forall k :: 0 <= k < i ==> fresh(records[k])
      invariant forall j, k :: 0 <= j < k < i ==> records[j] != records[k]
      invariant forall k :: 0 <= k < i ==>
                  records[k].text == windows[k] && records[k].embedding == [] && records[k].wikiPageTitle == None
    {
      var record := new EmbeddingRecord(windows[i]);
      records := records + [record];
    }
  }

  /**
   * The fetch pool: `embeddingFetch` on every object, object `k` with outcome `fetch(k)`. The
   * source runs them concurrently; each writes only its own object, so one after another gives
   * the same objects.
   */
  method FetchAll(records: seq<EmbeddingRecord>, fetch: nat -> FetchOutcome)
    requires forall j, k :: 0 <= j < k < |records| ==> records[j] != records[k]
    modifies records
    ensures forall k :: 0 <= k < |records| ==>
              && records[k].embedding == (if Written(fetch(k)).Some? then Written(fetch(k)).value else old(records[k].embedding))
              && records[k].text == old(records[k].text)
              && records[k].wikiPageTitle == old(records[k].wikiPageTitle)
  {
    for i := 0 to |records|
      invariant forall k :: 0 <= k < i ==>
                  && records[k].embedding == (if Written(fetch(k)).Some? then Written(fetch(k)).value else old(records[k].embedding))
                  && records[k].text == old(records[k].text)
                  && records[k].wikiPageTitle == old(records[k].wikiPageTitle)
      invariant forall k :: i <= k < |records| ==>
                  && records[k].embedding == old(records[k].embedding)
                  && records[k].text == old(records[k].text)
                  && records[k].wikiPageTitle == old(records[k].wikiPageTitle)
    {
      var _ := EmbeddingFetch(records[i], fetch(i));
    }
  }

  /**
   * The result loop of `getEmbeddings`: the objects whose embedding is non-empty, in order;
   * result `j` is the very object at surviving index `j`.
   */
  method KeepEmbedded(records: seq<EmbeddingRecord>) returns (result: seq<EmbeddingRecord>)
    ensures Snapshot(result) == Survivors(Snapshot(records))
    ensures |result| == |SurvivorIndices(Snapshot(records), |records|)|
    ensures forall j :: 0 <= j < |result| ==>
              SurvivorIndices(Snapshot(records), |records|)[j] < |records|
              && result[j] == records[SurvivorIndices(Snapshot(records), |records|)[j]]
    ensures forall k :: 0 <= k < |result| ==> result[k] in records
  {
    ghost var chunks := Snapshot(records);
    result := [];
    for i := 0 to |records|
      invariant Snapshot(result) == SurvivorsUpTo(chunks, i)
      invariant |result| == |SurvivorIndices(chunks, i)|
      invariant forall j :: 0 <= j < |result| ==>
                  SurvivorIndices(chunks, i)[j] < i && result[j] == records[SurvivorIndices(chunks, i)[j]]
    {
      if |records[i].embedding| == 0 {
        continue;
      } else {
        result := result + [records[i]];
      }
    }
  }

  /**
   * `getEmbeddings(text, tokensPerWindow, overlap)`: segment, window, fetch every window (the
   * service's behaviour for window `k` is `fetch(k)`), and keep the window objects whose
   * embedding came back non-empty, in window order.
   */
  method GetEmbeddings(grabber: SentenceGrabber, text: string, fetch: nat -> FetchOutcome,
                       tokensPerWindow: int := 500, overlap: int := 2)
    returns (result: seq<EmbeddingRecord>)
    requires RunsFit(Segment(grabber.abbreviations, text), tokensPerWindow, overlap)
    ensures Snapshot(result) == Survivors(FetchedChunks(EmbeddingWindows(grabber.abbreviations, text, tokensPerWindow, overlap), fetch))
    ensures forall k :: 0 <= k < |result| ==> fresh(result[k]) && result[k].wikiPageTitle == None
  {
    var sentences := grabber.GrabSentences(text);
    var windows := WindowSentences(sentences, tokensPerWindow, overlap);
    var records := NewRecords(windows);
    FetchAll(records, fetch);
    assert Snapshot(records) == FetchedChunks(windows, fetch);
    result := KeepEmbedded(records);
  }

  /** The error `getAverageEmbedding` throws. */
  const UnevenMessage := "Cannot determine average of uneven length vectors"

  /** Some vector is shorter than the first one. */
  predicate Uneven(vectors: seq<seq<real>>)
    requires |vectors| > 0
  {
    exists i :: 0 <= i < |vectors| && |vectors[i]| < |vectors[0]|
  }

  /** Component `j` of `v`, or 0 where `v` has none. */
  function Component(v: seq<real>, j: nat): real {
    if j < |v| then v[j] else 0.0
  }

  /** The sum of component `j` over the first `n` vectors. */
  function ColumnSum(vectors: seq<seq<real>>, j: nat, n: nat): real
    requires n <= |vectors|
    decreases n
  {
    if n == 0 then 0.0 else ColumnSum(vectors, j, n - 1) + Component(vectors[n - 1], j)
  }

  /** `r` is the per-dimension mean of `vectors` over the first vector's dimensions. */
  predicate IsAverage(vectors: seq<seq<real>>, r: seq<real>)
    requires |vectors| > 0
  {
    && |r| == |vectors[0]|
    && forall j :: 0 <= j < |r| ==> r[j] == ColumnSum(vectors, j, |vectors|) / (|vectors| as real)
  }

  /**
   * `getAverageEmbedding(embeddings)` over the chunks' vectors: the per-dimension mean over the
   * first vector's dimensions, or the error when some vector is shorter than the first.
   */
  method GetAverageEmbedding(vectors: seq<seq<real>>) returns (r: Result<seq<real>, string>)
    requires |vectors| > 0
    ensures r.Failure? <==> Uneven(vectors)
    ensures r.Failure? ==> r.error == UnevenMessage
    ensures r.Success? ==> IsAverage(vectors, r.value)
  {
    var dim := |vectors[0]|;
    var sumVector := new real[dim](_ => 0.0);
    for i := 0 to |vectors|
      invariant forall k :: 0 <= k < i ==> |vectors[k]| >= dim
      invariant forall j :: 0 <= j < dim ==> sumVector[j] == ColumnSum(vectors, j, i)
    {
      for j := 0 to dim
        invariant forall jj :: 0 <= jj < j ==> sumVector[jj] == ColumnSum(vectors, jj, i + 1)
        invariant forall jj :: j <= jj < dim ==> sumVector[jj] == ColumnSum(vectors, jj, i)
        invariant j <= |vectors[i]|
      {
        if |vectors[i]| <= j {
          return Failure(UnevenMessage);
        }
        sumVector[j] := sumVector[j] + vectors[i][j];
      }
    }
    for i := 0 to sumVector.Length
      invariant forall j :: 0 <= j < i ==> sumVector[j] == ColumnSum(vectors, j, |vectors|) / (|vectors| as real)
      invariant forall j :: i <= j < dim ==> sumVector[j] == ColumnSum(vectors, j, |vectors|)
    {
      sumVector[i] := sumVector[i] / (|vectors| as real);
    }
    return Success(sumVector[..]);
  }

  /** Vectors that all equal `v` average to `v`. */
  lemma {:induction false} ColumnSumOfCopies(vectors: seq<seq<real>>, v: seq<real>, j: nat, n: nat)
    requires n <= |vectors|
    requires forall i :: 0 <= i < |vectors| ==> vectors[i] == v
    requires j < |v|
    ensures ColumnSum(vectors, j, n) == (n as real) * v[j]
    decreases n
  {
    if n > 0 {
      ColumnSumOfCopies(vectors, v, j, n - 1);
    }
  }

  lemma AverageOfCopies(vectors: seq<seq<real>>, v: seq<real>)
    requires |vectors| > 0
    requires forall i :: 0 <= i < |vectors| ==> vectors[i] == v
    ensures !Uneven(vectors)
    ensures IsAverage(vectors, v)
  {
    forall j | 0 <= j < |v|
      ensures v[j] == ColumnSum(vectors, j, |vectors|) / (|vectors| as real)
    {
      ColumnSumOfCopies(vectors, v, j, |vectors|);
    }
  }

  /**
   * A JavaScript number as far as the dot product needs it: a real, or NaN, which reading past
   * the end of an array (`undefined`) turns a product into.
   */
  datatype JsNumber = Num(value: real) | NaN

  function Add(x: JsNumber, y: JsNumber): JsNumber {
    if x.Num? && y.Num? then Num(x.value + y.value) else NaN
  }

  function Mul(x: JsNumber, y: JsNumber): JsNumber {
    if x.Num? && y.Num? then Num(x.value * y.value) else NaN
  }

  /** `e[i]` used as a number: `undefined` past the end becomes NaN. */
  function At(e: seq<real>, i: nat): JsNumber {
    if i < |e| then Num(e[i]) else NaN
  }

  /** The sum of `e1[k] * e2[k]` for `k < n`, with JavaScript's NaN propagation. */
  function Dot(e1: seq<real>, e2: seq<real>, n: nat): JsNumber
    decreases n
  {
    if n == 0 then Num(0.0) else Add(Dot(e1, e2, n - 1), Mul(At(e1, n - 1), At(e2, n - 1)))
  }

  /** The sum of `e1[k] * e2[k]` for `k < n` over reals. */
  function RealDot(e1: seq<real>, e2: seq<real>, n: nat): real
    requires n <= |e1| && n <= |e2|
    decreases n
  {
    if n == 0 then 0.0 else RealDot(e1, e2, n - 1) + e1[n - 1] * e2[n - 1]
  }

  /** `getSmallCosineSimilarity(embedding1, embedding2)`. */
  method GetSmallCosineSimilarity(embedding1: seq<real>, embedding2: seq<real>) returns (dp: JsNumber)
    ensures dp == Dot(embedding1, embedding2, SmallEmbeddingsDim)
  {
    dp := Num(0.0);
    for i := 0 to SmallEmbeddingsDim
      invariant dp == Dot(embedding1, embedding2, i)
    {
      dp := Add(dp, Mul(At(embedding1, i), At(embedding2, i)));
    }
  }

  /** The dot product does not depend on the order of its arguments. */
  lemma {:induction false} DotSymmetric(e1: seq<real>, e2: seq<real>, n: nat)
    ensures Dot(e1, e2, n) == Dot(e2, e1, n)
    decreases n
  {
    if n > 0 {
      DotSymmetric(e1, e2, n - 1);
    }
  }

  /**
   * The dot product over `n` dimensions is the real sum of the first `n` products when both
   * vectors have `n` components, whatever follows them, and NaN when either is shorter.
   */
  lemma {:induction false} DotValue(e1: seq<real>, e2: seq<real>, n: nat)
    ensures n <= |e1| && n <= |e2| ==> Dot(e1, e2, n) == Num(RealDot(e1, e2, n))
    ensures n > |e1| || n > |e2| ==> Dot(e1, e2, n) == NaN
    decreases n
  {
    if n > 0 {
      DotValue(e1, e2, n - 1);
    }
  }

  /** The similarity reads exactly the first 1536 components. */
  lemma SimilarityReadsPrefix(e1: seq<real>, e2: seq<real>)
    requires |e1| >= SmallEmbeddingsDim && |e2| >= SmallEmbeddingsDim
    ensures Dot(e1, e2, SmallEmbeddingsDim) == Num(RealDot(e1[..SmallEmbeddingsDim], e2[..SmallEmbeddingsDim], SmallEmbeddingsDim))
  {
    DotValue(e1, e2, SmallEmbeddingsDim);
    DotValue(e1[..SmallEmbeddingsDim], e2[..SmallEmbeddingsDim], SmallEmbeddingsDim);
    RealDotPrefix(e1, e2, SmallEmbeddingsDim);
  }

  lemma {:induction false} RealDotPrefix(e1: seq<real>, e2: seq<real>, n: nat)
    requires n <= |e1| && n <= |e2|
    ensures RealDot(e1, e2, n) == RealDot(e1[..n], e2[..n], n)
  {
    RealDotAgree(e1, e2, e1[..n], e2[..n], n);
  }

  lemma {:induction false} RealDotAgree(a1: seq<real>, a2: seq<real>, b1: seq<real>, b2: seq<real>, n: nat)
    requires n <= |a1| && n <= |a2| && n <= |b1| && n <= |b2|
    requires forall k :: 0 <= k < n ==> a1[k] == b1[k] && a2[k] == b2[k]
    ensures RealDot(a1, a2, n) == RealDot(b1, b2, n)
    decreases n
  {
    if n > 0 {
      RealDotAgree(a1, a2, b1, b2, n - 1);
    }
  }
}
