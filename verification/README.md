# CV question answering: a Dafny model of the pipeline's data transformations

The system answers questions about one candidate's CV. It comes in two
variants. `app.js` flattens every CV chunk to text, embeds each text once at
startup into an in-memory vector store, and answers a question from the five
store entries closest to the question's embedding. `index.js` skips retrieval
and puts the whole CV, flattened, into every prompt. This project models the
deterministic part of both: the two record flatteners, vector-store
construction, top-5 ranking, and the composition of context and prompt.

Modules:

- `Wrappers` (`wrappers.dfy`): `Option`, and `AllOrNothing`, the sequential
  reading of `Promise.all` (fulfils with every result in order, or rejects
  and keeps nothing).
- `Text` (`text.dfy`): `Array.prototype.join` on strings, with the positions
  at which each part lands in the joined string.
- `Answers` (`answers.dfy`): the fallback sentence both servers tell the
  model to give when the CV lacks the answer.
- `JsValues` (`js_values.dfy`): JSON values, objects as ordered field
  sequences, truthiness, property reads, ToString and template-literal text.
  `JSON.stringify` and number-to-text are opaque: they are fields of a
  `Host` value passed in.
- `IndexServer` (`index_server.dfy`): the schema-agnostic `chunkToText` (a
  loop, proved equal to a recursive definition), `candidateInfo`,
  `fullCVContext`, and the system and user messages.
- `Ranking` (`ranking.dfy`): a stable sort by descending score and the top-k
  prefix, with a proof that descending order and stability determine the
  result. Any stable sort with the comparator `b.score - a.score` therefore
  gives the same answer as this one, whatever its algorithm.
- `AppServer` (`app_server.dfy`): the three-way `chunkToText`, store
  construction, the top-5 matches, the context block and the prompt.

The cosine score is a parameter `(Embedding, Embedding) -> real`. The
embedding service is a parameter `Value -> Option<Embedding>`, with `None`
for a failed request. The store is a value, so ranking cannot change it: the
query path only reads the store it is given.

Two behaviours of the code worth noting:

- Neither server rejects a missing `message`. A missing question renders as
  "undefined" in the prompt, so `TemplateText` models that case.
- `app.js` does not flatten the way `index.js` does. It returns the `content`
  value itself, which need not be a string. If `items` is truthy but not an
  array, the `join` call throws, and so store construction fails.

## Model

| member | source | states |
|---|---|---|
| `Wrappers.AllOrNothing` | app.js:57 | succeeds iff every element's request succeeds; then exactly one result per element, result i belonging to element i |
| `Text.Join` | index.js:39 | joining no parts gives ""; otherwise the length is the parts' total length plus one separator per neighbouring pair |
| `Text.JoinPlacesParts` | index.js:39 | every part appears verbatim in the joined string at its offset (earlier parts plus one separator each) |
| `Text.JoinPlacesSeparators` | index.js:39 | every part but the last is followed, right where it ends, by the separator |
| `Text.OffsetsOrdered` | index.js:39 | each part ends at least one separator's length before any later part starts, so parts keep their order |
| `JsValues.Get` | app.js:20 | a property read is undefined iff no field has that key; otherwise it yields the value of a field with that key |
| `JsValues.Or` | app.js:24 | `a \|\| b` yields `a` when `a` is truthy and `b` otherwise |
| `JsValues.ArrayJoinOfStrings` | app.js:87 | joining an array of strings joins the strings themselves, none altered |
| `IndexServer.Segment` | index.js:28-36 | a field yields a segment iff its key is not id/type/category and its value is an array, an object, or truthy; a segment starts with "key: " |
| `IndexServer.ChunkToText` | index.js:23-40 | the entries loop and join compute the flattened text: the rendered segments in field order, joined by " \| " |
| `IndexServer.SegmentsConcat` | index.js:27 | segments of a concatenation are the segments of each part, in order, so output order follows the key iteration order |
| `IndexServer.SkippedKeysIgnored` | index.js:25-28 | removing every id/type/category field changes neither the segments nor the flattened text |
| `IndexServer.SkippedFieldInsertedAnywhere` | index.js:25-28 | inserting an id/type/category field anywhere leaves the flattened text unchanged |
| `IndexServer.NothingRenderedIsEmpty` | index.js:24-39 | a chunk with no rendering field has no segments and flattens to "" |
| `IndexServer.ArrayRendersJoined` | index.js:30-31 | an array under a kept key always yields a segment, "key: " followed by its elements' texts joined by ", " (so an empty array yields "key: ") |
| `IndexServer.ObjectRendersSerialised` | index.js:32-33 | a non-null object, even empty, yields "key: " followed by its serialisation |
| `IndexServer.ScalarRendersIffTruthy` | index.js:32-36 | a scalar, null included, yields a segment iff truthy, and then "key: " followed by its text |
| `IndexServer.FlattenedHoldsSegments` | index.js:39 | every segment, the only one included, lies verbatim in the flattened text at its offset |
| `IndexServer.FlattenedSegmentsInOrder` | index.js:27-39 | " \| " follows each earlier segment right where it ends, and both end before any later segment begins, so the text follows field order |
| `IndexServer.ExampleChunk` | index.js:23-40 | {id:"x", type:"t", skill:"Go", years:0, tags:["a","b"]} flattens to "skill: Go \| tags: a, b" |
| `IndexServer.CandidateInfo` | index.js:43-48 | the candidate block is its six labelled lines (Name, Location, Email, LinkedIn, Experience ... years, Role) joined by newlines |
| `IndexServer.CandidateLineAt` | index.js:43-48 | each of the six lines lies verbatim in the candidate block at its offset, ending before the next line begins |
| `IndexServer.FullCVContext` | index.js:51-52 | with no chunks the context is the candidate block alone; otherwise the block, a blank line, then the chunk texts joined by blank lines |
| `IndexServer.ChunkTextInContext` | index.js:51-52 | chunk i's text lies verbatim in the context, after the candidate block and before chunk i+1's text |
| `IndexServer.SystemMessageHasFallback` | index.js:65-67 | the system message contains the fallback sentence verbatim |
| `IndexServer.UserMessage` | index.js:71-77 | the user message holds the whole CV context verbatim and then the question text verbatim, at fixed offsets |
| `IndexServer.UserMessageInjective` | index.js:71-77 | user messages with equally long contexts are equal only if their contexts and question texts are |
| `AppServer.ChunkToText` | app.js:19-27 | a truthy content is returned as is; it throws iff content is falsy and items is truthy but not an array; any other result is a string |
| `AppServer.ContentWins` | app.js:20-22 | chunks with the same truthy content flatten identically, whatever their items hold |
| `AppServer.ItemsRenderWithLabel` | app.js:23-25 | without content, an items array (even empty) renders as category-or-type label, ": ", and the items joined by ", " |
| `AppServer.OtherwiseSerialised` | app.js:26 | with neither content nor items the text is the serialisation of the whole chunk |
| `AppServer.EntryFor` | app.js:39-55 | a chunk's entry exists iff flattening and its embedding request succeed; it carries the chunk's id, the flattened text and that embedding |
| `AppServer.GenerateEmbeddings` | app.js:38-58 | ready iff every chunk's entry succeeds; on failure the store is unchanged; on success it grows by one entry per chunk, in order, each with that chunk's id, text and embedding |
| `AppServer.DuplicateIdsKept` | app.js:39-58 | after a successful startup, chunks sharing an id give two store entries with that id, each at its own chunk's position |
| `Ranking.WithScoreMembers` | app.js:84 | an entry is in the subsequence for score s iff it occurs in the sequence and scores exactly s |
| `Ranking.Insert` | app.js:84 | inserting into a descending sequence keeps it descending, adds exactly the one entry, and keeps each equal-score subsequence in order with the new entry first |
| `Ranking.SortByScore` | app.js:84 | the result is descending, a permutation of the input, and for every score the entries with that score keep their input order (stability) |
| `Ranking.StableSortIsUnique` | app.js:84 | two descending sequences with the same equal-score subsequences are equal: order and stability fix the sorted result |
| `Ranking.TopK` | app.js:84-85 | min(k, n) entries, descending, drawn from the input; no entry left out scores above a kept one; for each score the kept entries are the first ones of the input |
| `Ranking.SortedIsOnlyStableOrder` | app.js:84 | any descending order of the input that keeps every equal-score subsequence is the sort's result |
| `Ranking.ExampleRanking` | app.js:79-85 | scores 1, 0, 0.707 give top two: the first entry, then the third |
| `AppServer.Scored` | app.js:79-83 | one scored match per store entry, in store order; match i has entry i's text and the cosine of the query with entry i's embedding |
| `AppServer.TopMatches` | app.js:79-85 | min(5, store size) matches, descending, each a store entry's text and score; the kept matches are a sub-multiset of the scored ones, and every scored match left over (an identical twin of a kept one included) scores no higher than any kept one; ties keep store order |
| `AppServer.Context` | app.js:87 | no matches give ""; when every match text is a string, the context is exactly those strings, unaltered, joined by blank lines |
| `AppServer.ContextHoldsTexts` | app.js:87 | when the match texts are strings, each lies verbatim in the context at its offset in match order |
| `AppServer.Prompt` | app.js:101-108 | the prompt holds the context verbatim after the header, then the question text verbatim, then instructions containing the fallback sentence |
| `AppServer.PromptContainsParts` | app.js:101-108 | the prompt contains the context, the question text and the fallback sentence, each verbatim |
| `AppServer.PromptInjective` | app.js:101-108 | prompts with equally long contexts are equal only if their contexts and question texts are |
| `AppServer.ExamplePrompt` | app.js:87-108 | matches "A", "B" and question "Q?" give a prompt containing "A\n\nB", "Q?" and the fallback sentence |

## Left out

- HTTP plumbing: Express routing, CORS, `express.json`, `res.json`/`res.send`, `app.listen` (app.js:7-16, 64, 113-127; index.js:11-20, 54, 90-106). These are transport, not data transformation.
- The remote calls: the axios requests to the embedding, generation and Groq endpoints, the bearer token and dotenv. The embedding request is a parameter. The `/chat` handlers themselves are left out because they are built around network calls (app.js embeds the question, then requests the generation; index.js requests the chat completion) and return the service's reply; the pure steps around those calls are modelled by `AppServer.TopMatches`, `AppServer.Context` and `AppServer.Prompt` for app.js, and by `IndexServer.UserMessage` for index.js.
- The arithmetic of `cosineSimilarity` (app.js:30-35): floating point with `Math.sqrt`, where a zero norm gives NaN and NaN breaks the comparator. The score is an arbitrary real-valued function, so NaN scores are not modelled.
- `JSON.stringify` and number-to-text rendering are library behaviour. They are opaque `Host` fields.
- `Promise.all` concurrency is a sequential all-or-nothing walk. Which rejection reason `Promise.all` reports is not modelled; only that startup fails.
- The embedding service is a function of the text. The model cannot express two identical texts getting different answers.
- `Object.entries` order: a chunk's field sequence is taken to be already in that order (integer-like keys first). Property reads take the first field with the key; objects from `JSON.parse` have no duplicate keys.
- Console logging (app.js:60, 89-95, 111; index.js:95) and the 500 error response of index.js (index.js:94-97).
- The exception thrown by the match-preview log: `m.text.substring(0, 50)` (app.js:93) throws a TypeError when a top match's text is not a string, which happens when a chunk's truthy `content` is not a string. The handler then stops before the prompt is built. The model builds the context and prompt for such texts anyway, through ToString, and does not model this exception path.
- Numerals too large for a double (such as `1e400`) parse to Infinity. `Num` holds a real, so infinite numbers are not modelled.
- The cosine laws (symmetry, `cos(v, v) = 1`): the score function is a parameter, so nothing about it is proved.
- Request validation: neither server rejects a missing `message`, so the model has no rejection path.
- AppServer.ChunkToText: the label-and-items rendering is stated in `AppServer.ItemsRenderWithLabel`, not in the function's own contract.
