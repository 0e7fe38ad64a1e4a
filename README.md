# rag-query: chunking and retrieval core in Dafny

This project models the chunking-and-retrieval pipeline of the rag-query server, and proves
properties of the model.

**Ingestion.** Raw wiki text goes through these steps:
- it is split into sentences, taking abbreviations into account;
- the sentences are grouped into windows that fit a token budget, with a sentence overlap;
- each window is sent to the embeddings service;
- windows whose embedding stayed empty are dropped;
- the document vector is the per-dimension mean of the chunk vectors;
- one page document and one node document per chunk are written to the store.

**Query.** A query goes through these steps:
- the search text is checked;
- if asked for, it is rewritten by the enrichment model;
- it is embedded;
- if tags are given, they are looked up to find page titles;
- a vector-search aggregation is assembled, its title filter first when any titles were found.

The modules follow the source files:

| module | file | flavour |
|---|---|---|
| `JsText` | `js_text.dfy` | the JavaScript string operations the code relies on (`trim`, `split`, `join`, ASCII `toLowerCase`) |
| `SentenceSegmentation` | `sentence_segmentation.dfy` | `SentenceGrabber`, a class whose `Abbreviations` array is mutable state plus a one-pass scanning method, specified by functions |
| `Windowing` | `windowing.dfy` | `estTokens`, and `windowSentences` as a loop proved against a recursive specification |
| `LegacySplitter` | `legacy_splitter.dfy` | the old `getSentences` word grouper, as a loop proved against a specification |
| `Embeddings` | `embeddings.dfy` | window objects as a class mutated by `embeddingFetch`; the fetch pool, the average and the dot product as methods |
| `WikiHelpers` | `wiki_helpers.dfy` | `insertWikiPage` and `queryWikiNodes` over a store class holding the two collections |
| `Wrappers` | `wrappers.dfy` | `Option` and `Result` |

**External services.** The embeddings service, the enrichment model and the document database
are not modelled. What each answers is a parameter:
- `fetch(k)` is the service's behaviour for window `k`: not ok, a body error, or a body with vectors;
- `Enrichment` is the enrichment model's answer;
- `WriteOutcome` and `ManyOutcome` say whether `insertOne` and `insertMany` are acknowledged or throw;
- the aggregation's result rows are a parameter.

The tag lookup is computed from the store's pages, using `find` semantics. The calls a query
makes are returned as a log, so that what happens before validation and after a failed embedding
can be stated.

**Numbers.** Arithmetic runs on integers and reals:
- `Math.ceil(0.25 * len)` is `(len + 3) / 4` on naturals, where `len` counts UTF-16 code units as JavaScript's `length` does;
- vector components are reals;
- the dot product models JavaScript's NaN for components read past the end of a vector.

**Times do not end sentences.** In "Dr. Smith arrived at 10 a.m. The visit went well." the
code finds one sentence, not two. The word examined at the period after "a.m." is "a.m.", and
its prefix "a.m" is listed, so that period is not a boundary. `TimeAbbreviationContinuesSentence`
shows this on a shorter text.

**Strings.** Dafny strings are sequences of Unicode characters, while JavaScript counts UTF-16
code units. Where a length decides the outcome, the model counts code units (`Utf16Length`):
the token estimate, the short-part test of the dotted-token heuristic, and the word without its
last character in `_isAbbreviation`. Elsewhere, the scan's positions count characters. Every
character the scan compares against (the dividers, the space, `"` and `[`) is a single code
unit, and each cut the scan makes that decides anything falls just after a divider, so counting
characters picks the same boundaries.

## Model

| member | source | states |
|---|---|---|
| `JsText.TrimMeaning` | utils/strUtils.js:85 | `trim` keeps one contiguous part of the string and removes only whitespace around it; neither end of what it keeps is whitespace |
| `JsText.TrimKeepsLast` | utils/strUtils.js:85 | a slice that ends in a non-whitespace character keeps that character last after trimming |
| `JsText.SplitMeaning` | utils/strUtils.js:69 | `split` on one character gives at least one part; no part contains the separator; joining the parts with it gives the input back; there is more than one part exactly when the separator occurs |
| `JsText.LastPartOfSplit` | utils/strUtils.js:81 | the last element of `split(" ")` (what `.at(-1)` reads) is the text after the last space |
| `JsText.Lower` | utils/strUtils.js:58 | the ASCII lowering keeps the length |
| `JsText.Utf16LengthBounds` | utils/strUtils.js:101 | `length` counts one or two code units per character |
| `JsText.Utf16LengthSnoc` | utils/strUtils.js:70 | appending a character adds its code units to `length` |
| `JsText.Utf16LengthIsCount` | utils/strUtils.js:101 | `length` equals the character count exactly when no character lies outside the Basic Multilingual Plane |
| `SentenceSegmentation.SomeShortPartMeaning` | utils/strUtils.js:70 | the recursive check equals "some part among the first m has `length` at most 2" (the `filter(...).length > 0` test) |
| `SentenceSegmentation.ShortPartFromSplit` | utils/strUtils.js:68-70 | the one-pass scan for a short dotted part agrees with splitting on "." and looking for a part of `length` at most 2 |
| `SentenceSegmentation.HasShortDottedPartBySplit` | utils/strUtils.js:68-70 | the dotted-token heuristic holds exactly when the word without one trailing "." splits on "." into more than one part and some part is at most two code units long |
| `SentenceSegmentation.WideCharacterMakesLongPart` | utils/strUtils.js:68-70 | in "a😀.bcd" both parts are three code units long, so the heuristic does not apply |
| `SentenceSegmentation.IsAbbreviation` | utils/strUtils.js:62-71 | `_isAbbreviation`: the lowercased word is listed, or the lowercased word without its last code unit is listed, or the dotted-token heuristic holds |
| `SentenceSegmentation.NextQualifies` | utils/strUtils.js:80 | `checkNext`: the character after index `i` is a space, `"` or `[`, or `i` is the last index |
| `SentenceSegmentation.Accepted` | utils/strUtils.js:79-83 | index `i` closes a sentence exactly when it holds a divider, the next character qualifies, and the examined word is not an abbreviation |
| `SentenceSegmentation.AssignTrue` | utils/strUtils.js:59 | `Abbreviations[key] = true` on the array's elements: an index key writes `true` there, filling any gap with holes; "length" truncates to length 1 (or extends an empty array by one hole); any other key leaves the elements unchanged |
| `SentenceSegmentation.WordStartInSlice` | utils/strUtils.js:78 | the start of the last space-free run found by scanning equals the start of the last `split(" ")` part of the slice |
| `SentenceSegmentation.ExaminedWordIsLastWord` | utils/strUtils.js:77-81 | the examined word is the last element of `text.slice(pos, min(len-1, i+1)).split(" ")`, so at the last index it leaves out the final character |
| `SentenceSegmentation.ScanAdvance` | utils/strUtils.js:76-87 | one loop index either emits the trimmed slice `[pos, i+1)` and restarts after it, or continues the same sentence |
| `SentenceSegmentation.ScanSound` | utils/strUtils.js:76-87 | every emitted span ends at an accepted divider; the spans follow each other without gap or overlap, the first starting at the sentence start |
| `SentenceSegmentation.ScanComplete` | utils/strUtils.js:76-87 | no boundary is missed: no index inside a span, nor after the last span, is accepted for that span's start |
| `SentenceSegmentation.ScanSlicesConcat` | utils/strUtils.js:84-86 | the emitted untrimmed slices concatenate to the text from the start to the end of the last sentence |
| `SentenceSegmentation.ScanClosesAt` | utils/strUtils.js:83-86 | every span closes at an index with any property that all accepted indices share |
| `SentenceSegmentation.SentencesAreTrimmed` | utils/strUtils.js:85 | every sentence is non-empty and neither starts nor ends with whitespace |
| `SentenceSegmentation.SentencesEndInDivider` | utils/strUtils.js:79-85 | every sentence is non-empty and ends in `.`, `!` or `?`; the divider that closed it is followed by a space, `"` or `[`, or by nothing |
| `SentenceSegmentation.SegmentCoversPrefix` | utils/strUtils.js:73-91 | the sentences' slices cover a prefix of the text, and no index after it is a boundary, so the trailing text without a boundary is never emitted |
| `SentenceSegmentation.AssignTrueNeverLists` | utils/strUtils.js:57-59 | `Abbreviations[key] = true` never makes a string element appear; a key that is neither an array index nor "length" leaves the elements as they were |
| `SentenceSegmentation.ExtendNeverAddsAbbreviation` | utils/strUtils.js:57-67 | a word that is an abbreviation after `extendAbbreviations` already was one before: extending cannot add a listed abbreviation |
| `SentenceSegmentation.DrIsAbbreviation` | utils/strUtils.js:5-67 | "Dr." is an abbreviation, through its lowercased prefix "dr" |
| `SentenceSegmentation.FinalAbbreviationNotAccepted` | utils/strUtils.js:5-83 | at the last index of "at 10 a.m." the examined word is "a.m", which is listed, so the final period is no boundary |
| `SentenceSegmentation.TimeIsAbbreviation` | utils/strUtils.js:5-67 | "a.m." is an abbreviation, through its prefix "a.m" |
| `SentenceSegmentation.TimeAbbreviationContinuesSentence` | utils/strUtils.js:77-83 | the period ending "a.m." followed by a space is no boundary, because the examined word "a.m." is an abbreviation |
| `SentenceSegmentation.SentenceGrabber.constructor` | utils/strUtils.js:5-46 | the abbreviation array starts as the 40 listed keys in order, with no named properties |
| `SentenceSegmentation.SentenceGrabber.ExtendAbbreviations` | utils/strUtils.js:57-60 | the key is the lowercased, trimmed input; an array-index key or "length" changes the elements as an array assignment does; any other key becomes a named property |
| `SentenceSegmentation.SentenceGrabber.GrabSentences` | utils/strUtils.js:73-91 | the loop returns exactly the sentences of the boundary scan of the text under the current abbreviations |
| `Windowing.EstTokens` | utils/strUtils.js:101 | the estimate is the least natural `r` with `4r >= length`, which is `ceil(0.25 * length)`, where `length` counts UTF-16 code units |
| `Windowing.EstTokensCountsCodeUnits` | utils/strUtils.js:101 | three emoji are six code units, so they are estimated at two tokens |
| `Windowing.ConcatIsJoin` | utils/strUtils.js:122 | the window text is the concatenation of its sentences |
| `Windowing.TokensMonotone` | utils/strUtils.js:114-121 | the token count of a run of sentences grows with the run |
| `Windowing.GreedyEndMeaning` | utils/strUtils.js:113-124 | the greedy window stays within the budget, and when it stops before the end the next sentence would exceed it |
| `Windowing.GreedyEndReaches` | utils/strUtils.js:113-124 | the greedy window reaches at least every end whose run fits the budget |
| `Windowing.WindowProgress` | utils/strUtils.js:113-125 | when every run of `overlap + 1` sentences fits, each window holds a sentence and the rewound cursor is past the window's start |
| `Windowing.OversizedSentenceStalls` | utils/strUtils.js:113-119 | a sentence over the budget gives an empty window and rewinds the cursor to no later than before, so the loop makes no progress |
| `Windowing.WindowSpansFromMeaning` | utils/strUtils.js:110-128 | every window is a greedy window of consecutive sentences; each later window starts where the cursor was rewound to; a window reaching the last sentence is pushed only if non-empty |
| `Windowing.WindowSpansFromReachEnd` | utils/strUtils.js:110-128 | the windows reach the end: if there is no window, or the last one stops before the last sentence, then from the cursor after it nothing is left, that is the cursor is past the sentences or the window opened there would take all the rest and be empty, so it is not pushed |
| `Windowing.WindowsMeaning` | utils/strUtils.js:110-128 | the windows start at sentence 0; window `k` is the concatenation of its sentences, fits the budget and cannot take the next sentence; consecutive windows are linked by the rewind; a window reaching the last sentence is non-empty; and whatever the last window leaves is empty of sentences or of text |
| `Windowing.WindowSentences` | utils/strUtils.js:110-129 | the loop returns exactly the windows of the specification |
| `LegacySplitter.GroupFromEnds` | utils/strUtils.js:136-148 | every sentence pushed by the grouping ends in `.`, `?` or `!` |
| `LegacySplitter.GroupFromJoin` | utils/strUtils.js:136-149 | joining the sentences from word `w` on gives the pending text, the remaining words joined by spaces, and the closing " ." when the last word does not end a sentence |
| `LegacySplitter.LegacySentencesJoin` | utils/strUtils.js:132-150 | joining the sentences with spaces gives the text back, plus " ." when its last word does not end a sentence |
| `LegacySplitter.LegacySentencesEnd` | utils/strUtils.js:132-150 | every sentence ends in `.`, `?` or `!` |
| `LegacySplitter.GetSentences` | utils/strUtils.js:132-150 | the loop returns exactly the grouped sentences |
| `Embeddings.Reply` | utils/embeddings.js:22-33 | the fetch reports success exactly when a vector was written; a response that is not ok gives the fixed failure message |
| `Embeddings.EmbeddingRecord.constructor` | utils/embeddings.js:46 | a window object starts with its text and an empty embedding |
| `Embeddings.EmbeddingFetch` | utils/embeddings.js:11-36 | the reply is the outcome's reply; the object's embedding becomes `data[0].embedding` when there is one, and nothing else changes |
| `Embeddings.NewRecords` | utils/embeddings.js:46 | one fresh, distinct window object per window, with an empty embedding |
| `Embeddings.FetchAll` | utils/embeddings.js:47-52 | after the pool, object `k` carries what fetch `k` wrote, and its text is unchanged |
| `Embeddings.KeepEmbedded` | utils/embeddings.js:53-58 | the result is, in order, the objects whose embedding is non-empty: result `j` is the very object at the `j`-th surviving index |
| `Embeddings.SurvivorsInOrder` | utils/embeddings.js:53-58 | the survivors are the chunks at strictly increasing indices |
| `Embeddings.SurvivorIndicesExact` | utils/embeddings.js:53-58 | an index survives exactly when its chunk's embedding is non-empty |
| `Embeddings.SurvivorsNonEmpty` | utils/embeddings.js:53-58 | every surviving embedding is non-empty; if every fetch failed, nothing survives |
| `Embeddings.GetEmbeddings` | utils/embeddings.js:44-59 | the result is the fresh window objects of the segmented, windowed text whose fetch wrote a non-empty vector, in window order |
| `Embeddings.GetAverageEmbedding` | utils/embeddings.js:71-84 | it fails with the uneven-length message exactly when some vector is shorter than the first; otherwise every component is the column sum over the count |
| `Embeddings.AverageOfCopies` | utils/embeddings.js:71-84 | the average of copies of one vector is that vector |
| `Embeddings.GetSmallCosineSimilarity` | utils/embeddings.js:62-68 | the loop computes the sum of products over the 1536 dimensions, with NaN for components past the end |
| `Embeddings.DotSymmetric` | utils/embeddings.js:62-68 | the similarity is symmetric |
| `Embeddings.DotValue` | utils/embeddings.js:62-68 | the similarity is the real dot product when both vectors are long enough, and NaN otherwise |
| `Embeddings.SimilarityReadsPrefix` | utils/embeddings.js:62-68 | only the first 1536 components matter |
| `WikiHelpers.TitlesMatchingMeaning` | utils/wikiHelpers.js:159-163 | a title is found exactly when some page of the wiki with that title carries one of the wanted tags |
| `WikiHelpers.WikiStore.InsertPage` | utils/wikiHelpers.js:59 | an acknowledged insert appends the page document; the nodes are unchanged |
| `WikiHelpers.WikiStore.InsertNodes` | utils/wikiHelpers.js:69 | an acknowledged insert appends all node documents; the pages are unchanged |
| `WikiHelpers.StampTitle` | utils/wikiHelpers.js:64-67 | every window object gets the page title, and its text and embedding are unchanged |
| `WikiHelpers.InsertResult` | utils/wikiHelpers.js:47-80 | the reply of `insertWikiPage`: no chunks fails with the no-embeddings message, uneven vectors are rejected with the thrown message, otherwise the writes decide the reply |
| `WikiHelpers.InsertResultMeaning` | utils/wikiHelpers.js:44-83 | success exactly when chunks exist, their vectors are even and both inserts are acknowledged, carrying the insert ids; rejection exactly on uneven vectors; each failure carries its message |
| `WikiHelpers.WriteDocuments` | utils/wikiHelpers.js:55-82 | the page is written, then the stamped nodes only if the page insert was acknowledged |
| `WikiHelpers.InsertWikiPage` | utils/wikiHelpers.js:44-83 | the reply follows the embedded chunks and the two write outcomes; the store gains a page with the document's fields and the chunk average only when it is written; it gains the stamped chunks only when both inserts are acknowledged |
| `WikiHelpers.Falsy` | utils/wikiHelpers.js:129 | `!wikiQuery.searchText`: the search text is absent or empty |
| `WikiHelpers.EmbedFailed` | utils/wikiHelpers.js:150 | the embedding failed when the reply carries a non-empty error or the embedding stayed empty |
| `WikiHelpers.QueryText` | utils/wikiHelpers.js:137-145 | the enriched query replaces the search text only when enrichment is asked for and succeeds |
| `WikiHelpers.Pipeline` | utils/wikiHelpers.js:166-192 | the pipeline is vector search (index "wiki-node-embeddings", path "embedding", 200 candidates, the limit) then the projection, preceded by the title filter exactly when titles were found |
| `WikiHelpers.QueryWikiNodes` | utils/wikiHelpers.js:128-199 | an absent or empty search text fails before any call; a failed or empty embedding returns `[]` without a tag lookup or search; otherwise the tag lookup happens only for non-empty tags, and the search runs with the query vector and the matched titles |

## Left out

- Network, HTTP and the database driver are not modelled. Their answers are parameters, and `Promise.all` concurrency is modelled as fetches in window order, which gives the same final state.
- Floating point is not modelled: vector components are reals, and IEEE rounding and overflow are not captured.
- Embeddings.EmbeddingFetch: a `fetch` that rejects (a network error) leaves the source's promise pending forever; the model has no such outcome.
- Embeddings.GetAverageEmbedding: requires a non-empty input. The source throws a TypeError on an empty array, which `insertWikiPage` never passes.
- Windowing.WindowSentences: requires that every run of `overlap + 1` consecutive sentences fits the budget. This guarantees that the source loop ends. The source also ends on some inputs it excludes, for example `["abcd", "abcd", "abcd"]` with budget 2 and overlap 2. On others it never ends, for example when a sentence over the budget has more sentences before it (`OversizedSentenceStalls`). Embeddings.GetEmbeddings and WikiHelpers.InsertWikiPage inherit this precondition.
- JsText.Lower: `toLowerCase` is modelled on ASCII letters only. JavaScript's full lowering can change the length (`"\u0130".toLowerCase()` has length 2); the ASCII lowering cannot.
- SentenceSegmentation.SentenceGrabber.GrabSentences: positions in the text count characters, not UTF-16 code units, and a text cannot hold a lone surrogate, which a JavaScript string can.
- WikiHelpers.InsertWikiPage: the `error.message || error || "Unknown Error"` fallback is taken to be the thrown message.
- WikiHelpers.InsertWikiPage: the `_id` fields that the driver adds to inserted objects are not modelled.
- WikiHelpers.InsertWikiPage: unacknowledged writes are taken as not stored.
- WikiHelpers.QueryWikiNodes: the vector search's limit is taken from the query's `n`. The source names an unbound `n` there, which would raise a ReferenceError.
- WikiHelpers.QueryWikiNodes: `find` returns a cursor whose `.map` yields a cursor, so `titles.length` is not a count in the source. The model takes the titles as a sequence.
- WikiHelpers.QueryWikiNodes: the rows the aggregation returns are a parameter; ranking by similarity is the vector index's job.
- WikiHelpers.QueryWikiNodes: nodes are stamped `wiki_page_title` but filtered and projected by `wiki_title`. The model records the stage as written and does not evaluate it against the nodes.
- LegacySplitter.GroupFrom: the source's `endChar === ""` test never holds, because `"".at(-1)` is `undefined`, so the model omits it.
- Not part of this model: `createWikiTag`, `deleteWikiPage` and `checkUserPermission` (plain database plumbing), utils/db.js and mongo.js, the routers, and `enrichQuery`'s prompt (only its `{query, error}` answer is modelled).
