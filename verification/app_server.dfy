/** The retrieval server (app.js): every chunk is flattened and embedded once
    at startup into a vector store; each question is embedded, the five
    closest store entries are ranked, and their texts become the context of a
    grounded prompt. */
module AppServer {
  import opened Wrappers
  import opened Text
  import opened JsValues
  import opened Answers
  import opened Ranking

  /** The vector the embedding service returns for a text. */
  type Embedding = seq<real>

  /** `chunkToText`: the `content` property itself when truthy; otherwise,
      when `items` is truthy, "label: item, item, ..." with the label taken
      from `category || type`; otherwise the serialisation of the chunk.
      `None` is the TypeError thrown when `items` is truthy but not an array
      (it has no `join` method). */
  function ChunkToText(h: Host, chunk: Object): (r: Option<Value>)
    ensures TruthyProp(Get(chunk, "content")) ==> r == Get(chunk, "content")
    ensures r.None? <==> !TruthyProp(Get(chunk, "content")) && TruthyProp(Get(chunk, "items"))
                         && !Get(chunk, "items").value.Arr?
    ensures r.Some? && !TruthyProp(Get(chunk, "content")) ==> r.value.Str?
  {
    var content := Get(chunk, "content");
    var items := Get(chunk, "items");
    if TruthyProp(content) then content
    else if TruthyProp(items) then
      match items.value
      case Arr(xs) =>
        Some(Str(TemplateText(h, Or(Get(chunk, "category"), Get(chunk, "type"))) + ": " + ArrayJoin(h, xs, ", ")))
      case _ => None
    else Some(Str(h.stringify(Obj(chunk))))
  }

  /** A truthy `content` decides the text alone: two chunks with the same
      truthy `content` get the same text, whatever else they hold. */
  lemma ContentWins(h: Host, a: Object, b: Object)
    requires TruthyProp(Get(a, "content")) && Get(a, "content") == Get(b, "content")
    ensures ChunkToText(h, a) == ChunkToText(h, b) == Get(a, "content")
  {
  }

  /** Without a truthy `content`, an `items` array, even an empty one,
      renders as the label, a colon, and the items joined by ", "; the label
      is `category` when truthy and `type` otherwise. */
  lemma ItemsRenderWithLabel(h: Host, chunk: Object, xs: seq<Value>)
    requires !TruthyProp(Get(chunk, "content")) && Get(chunk, "items") == Some(Arr(xs))
    ensures TruthyProp(Get(chunk, "category")) ==>
              ChunkToText(h, chunk) == Some(Str(ToString(h, Get(chunk, "category").value) + ": " + ArrayJoin(h, xs, ", ")))
    ensures !TruthyProp(Get(chunk, "category")) ==>
              ChunkToText(h, chunk) == Some(Str(TemplateText(h, Get(chunk, "type")) + ": " + ArrayJoin(h, xs, ", ")))
    ensures xs == [] ==> ChunkToText(h, chunk).value.s[|ChunkToText(h, chunk).value.s| - 2..] == ": "
  {
    if xs == [] {
      assert ElementTexts(h, xs) == [];
      var name := TemplateText(h, Or(Get(chunk, "category"), Get(chunk, "type")));
      assert name + ": " + "" == name + ": ";
    }
  }

  /** With neither a truthy `content` nor a truthy `items`, the text is the
      serialisation of the whole chunk. */
  lemma OtherwiseSerialised(h: Host, chunk: Object)
    requires !TruthyProp(Get(chunk, "content")) && !TruthyProp(Get(chunk, "items"))
    ensures ChunkToText(h, chunk) == Some(Str(h.stringify(Obj(chunk))))
  {
  }

  /** One vector-store entry. */
  datatype Entry = Entry(id: Option<Value>, text: Value, embedding: Embedding)

  /** The work done for one chunk at startup: flatten it, request its
      embedding, and build the entry. `None` when flattening throws or the
      request fails. */
  function EntryFor(h: Host, embed: Value -> Option<Embedding>, chunk: Object): (r: Option<Entry>)
    ensures r.Some? <==> ChunkToText(h, chunk).Some? && embed(ChunkToText(h, chunk).value).Some?
    ensures r.Some? ==> r.value.id == Get(chunk, "id") && r.value.text == ChunkToText(h, chunk).value
    ensures r.Some? ==> r.value.embedding == embed(r.value.text).value
  {
    match ChunkToText(h, chunk)
    case None => None
    case Some(text) =>
      match embed(text)
      case None => None
      case Some(e) => Some(Entry(Get(chunk, "id"), text, e))
  }

  /** The vector store after startup, and whether startup completed. */
  datatype Startup = Startup(vectorStore: seq<Entry>, ready: bool)

  /** `generateEmbeddings`: one embedding request per chunk, all joined; the
      store is appended to only once every request has succeeded. */
  function GenerateEmbeddings(h: Host, embed: Value -> Option<Embedding>, vectorStore: seq<Entry>,
                              chunks: seq<Object>): (r: Startup)
    ensures r.ready <==> forall i :: 0 <= i < |chunks| ==> EntryFor(h, embed, chunks[i]).Some?
    ensures !r.ready ==> r.vectorStore == vectorStore
    ensures r.ready ==> |r.vectorStore| == |vectorStore| + |chunks|
    ensures r.ready ==> r.vectorStore[..|vectorStore|] == vectorStore
    ensures r.ready ==> forall i :: 0 <= i < |chunks| ==>
              r.vectorStore[|vectorStore| + i].id == Get(chunks[i], "id")
              && ChunkToText(h, chunks[i]) == Some(r.vectorStore[|vectorStore| + i].text)
              && embed(r.vectorStore[|vectorStore| + i].text) == Some(r.vectorStore[|vectorStore| + i].embedding)
  {
    match AllOrNothing(chunks, c => EntryFor(h, embed, c))
    case None => Startup(vectorStore, false)
    case Some(entries) =>
      assert forall i :: 0 <= i < |chunks| ==> (vectorStore + entries)[|vectorStore| + i] == entries[i];
      Startup(vectorStore + entries, true)
  }

  /** Entries are never merged: two chunks with the same id give two store
      entries with that id, at their own positions. */
  lemma DuplicateIdsKept(h: Host, embed: Value -> Option<Embedding>, chunks: seq<Object>, i: nat, j: nat)
    requires i < j < |chunks| && Get(chunks[i], "id") == Get(chunks[j], "id")
    ensures GenerateEmbeddings(h, embed, [], chunks).ready ==>
              |GenerateEmbeddings(h, embed, [], chunks).vectorStore| == |chunks|
              && GenerateEmbeddings(h, embed, [], chunks).vectorStore[i].id == Get(chunks[i], "id")
              && GenerateEmbeddings(h, embed, [], chunks).vectorStore[j].id == Get(chunks[i], "id")
  {
    var st := GenerateEmbeddings(h, embed, [], chunks).vectorStore;
    if GenerateEmbeddings(h, embed, [], chunks).ready {
      assert st[0 + i] == st[i] && st[0 + j] == st[j];
    }
  }

  /** The number of matches a question is answered from. */
  const MaxMatches: nat := 5

  /** Every store entry scored against the query, in store order. */
  function Scored(store: seq<Entry>, query: Embedding, cosine: (Embedding, Embedding) -> real): (r: seq<Match>)
    ensures |r| == |store|
    ensures forall i :: 0 <= i < |store| ==> r[i].text == store[i].text && r[i].score == cosine(query, store[i].embedding)
  {
    seq(|store|, i requires 0 <= i < |store| => Match(store[i].text, cosine(query, store[i].embedding)))
  }

  /** `m` is the text of some store entry with that entry's score. */
  predicate ScoredFromStore(store: seq<Entry>, query: Embedding, cosine: (Embedding, Embedding) -> real, m: Match) {
    exists i :: 0 <= i < |store| && m == Match(store[i].text, cosine(query, store[i].embedding))
  }

  /** The top-5 matches: at most five, best first, each scored from a store
      entry, none beaten by an entry left out (counting identical entries one
      by one), ties in store order. */
  function TopMatches(store: seq<Entry>, query: Embedding, cosine: (Embedding, Embedding) -> real): (r: seq<Match>)
    ensures |r| == Min(MaxMatches, |store|)
    ensures Descending(r)
    ensures forall k :: 0 <= k < |r| ==>
              exists i :: 0 <= i < |store| && r[k] == Match(store[i].text, cosine(query, store[i].embedding))
    ensures multiset(r) <= multiset(Scored(store, query, cosine))
    ensures forall m, k :: m in multiset(Scored(store, query, cosine)) - multiset(r) && 0 <= k < |r| ==>
              m.score <= r[k].score
    ensures forall s :: |WithScore(r, s)| <= |WithScore(Scored(store, query, cosine), s)|
                        && WithScore(r, s) == WithScore(Scored(store, query, cosine), s)[..|WithScore(r, s)|]
  {
    var all := Scored(store, query, cosine);
    var r := TopK(all, MaxMatches);
    DrawnFromStore(store, query, cosine, r);
    r
  }

  /** Every entry of a sub-multiset of the scored store is some store
      entry's text with that entry's score. */
  lemma DrawnFromStore(store: seq<Entry>, query: Embedding, cosine: (Embedding, Embedding) -> real, r: seq<Match>)
    requires multiset(r) <= multiset(Scored(store, query, cosine))
    ensures forall k :: 0 <= k < |r| ==> ScoredFromStore(store, query, cosine, r[k])
  {
    var all := Scored(store, query, cosine);
    forall k | 0 <= k < |r|
      ensures ScoredFromStore(store, query, cosine, r[k])
    {
      assert r[k] in multiset(r);
      assert r[k] in multiset(all);
      var i :| 0 <= i < |all| && all[i] == r[k];
      assert 0 <= i < |store| && r[k] == Match(store[i].text, cosine(query, store[i].embedding));
    }
  }

  /** The context block: the match texts separated by blank lines. No
      matches give the empty context; string texts are joined unaltered. */
  function Context(h: Host, matches: seq<Match>): (r: string)
    ensures |matches| == 0 ==> r == ""
    ensures (forall k :: 0 <= k < |matches| ==> matches[k].text.Str?) ==>
              r == Join(seq(|matches|, k requires 0 <= k < |matches| => matches[k].text.s), "\n\n")
  {
    var values := seq(|matches|, i requires 0 <= i < |matches| => matches[i].text);
    if forall k :: 0 <= k < |matches| ==> matches[k].text.Str? then
      ArrayJoinOfStrings(h, values, "\n\n");
      assert seq(|values|, k requires 0 <= k < |values| => values[k].s)
          == seq(|matches|, k requires 0 <= k < |matches| => matches[k].text.s);
      ArrayJoin(h, values, "\n\n")
    else
      ArrayJoin(h, values, "\n\n")
  }

  /** When every match text is a string, text `i` lies verbatim in the
      context at its offset, after the texts before it. */
  lemma ContextHoldsTexts(h: Host, matches: seq<Match>, texts: seq<string>, i: nat)
    requires |texts| == |matches| && i < |texts|
    requires forall k :: 0 <= k < |matches| ==> matches[k].text == Str(texts[k])
    ensures ContainsAt(Context(h, matches), texts[i], Offset(texts, "\n\n", i))
  {
    assert seq(|matches|, k requires 0 <= k < |matches| => matches[k].text.s) == texts;
    JoinPlacesParts(texts, "\n\n", i);
  }

  const Header: string :=
    "You are an AI assistant answering questions about Prince Kumar Yadav's CV/resume.\n\nContext from CV:\n"
  const QuestionLabel: string := "\n\nUser Question: "
  const InstructionsHead: string :=
    "\n\nInstructions: Answer the question directly using ONLY the information provided in the context above. "
    + "If the information is not in the context, say \""
  const InstructionsTail: string :=
    "\" Be specific and mention relevant details like company names, technologies, and experience."

  /** Where the parts of a five-part template land, the last part being
      itself three parts. */
  lemma TemplateLayout(a: string, b: string, c: string, d: string, e1: string, f: string, e2: string)
    ensures ContainsAt(a + b + c + d + (e1 + f + e2), b, |a|)
    ensures ContainsAt(a + b + c + d + (e1 + f + e2), d, |a| + |b| + |c|)
    ensures ContainsAt(a + b + c + d + (e1 + f + e2), f, |a| + |b| + |c| + |d| + |e1|)
  {
    FrameAt(a, b, c, d, e1 + f + e2);
    assert a + b + c + d + (e1 + f + e2) == (a + b + c + d + e1) + f + e2;
    InfixAt(a + b + c + d + e1, f, e2);
  }

  /** The prompt: context and question inserted verbatim into a fixed
      template that ends with the instruction naming the fallback sentence. */
  function Prompt(h: Host, context: string, question: Option<Value>): (r: string)
    ensures ContainsAt(r, context, |Header|)
    ensures ContainsAt(r, TemplateText(h, question), |Header| + |context| + |QuestionLabel|)
    ensures ContainsAt(r, Fallback, |Header| + |context| + |QuestionLabel| + |TemplateText(h, question)| + |InstructionsHead|)
    ensures |r| == |Header| + |context| + |QuestionLabel| + |TemplateText(h, question)|
      + |InstructionsHead| + |Fallback| + |InstructionsTail|
  {
    TemplateLayout(Header, context, QuestionLabel, TemplateText(h, question), InstructionsHead, Fallback, InstructionsTail);
    Header + context + QuestionLabel + TemplateText(h, question) + (InstructionsHead + Fallback + InstructionsTail)
  }

  /** The template is unambiguous: two prompts with equally long contexts
      are equal only when the contexts and the question texts are. */
  lemma PromptInjective(h: Host, c1: string, q1: Option<Value>, c2: string, q2: Option<Value>)
    requires |c1| == |c2|
    requires Prompt(h, c1, q1) == Prompt(h, c2, q2)
    ensures c1 == c2
    ensures TemplateText(h, q1) == TemplateText(h, q2)
  {
    var p := Prompt(h, c1, q1);
    assert c1 == p[|Header|..|Header| + |c1|] == c2;
  }

  /** Example: matches "A" and "B" and the question "Q?" give a
      prompt holding "A\n\nB", "Q?" and the fallback sentence. */
  lemma ExamplePrompt(h: Host, sa: real, sb: real)
    ensures IsInfix("A\n\nB", Prompt(h, Context(h, [Match(Str("A"), sa), Match(Str("B"), sb)]), Some(Str("Q?"))))
    ensures IsInfix("Q?", Prompt(h, Context(h, [Match(Str("A"), sa), Match(Str("B"), sb)]), Some(Str("Q?"))))
    ensures IsInfix(Fallback, Prompt(h, Context(h, [Match(Str("A"), sa), Match(Str("B"), sb)]), Some(Str("Q?"))))
  {
    ExampleContext(h, sa, sb);
    PromptContainsParts(h, "A\n\nB", Some(Str("Q?")));
  }

  /** The prompt contains the context, the question text and the fallback
      sentence, each somewhere verbatim. */
  lemma PromptContainsParts(h: Host, context: string, question: Option<Value>)
    ensures IsInfix(context, Prompt(h, context, question))
    ensures IsInfix(TemplateText(h, question), Prompt(h, context, question))
    ensures IsInfix(Fallback, Prompt(h, context, question))
  {
    var p := Prompt(h, context, question);
    var q := TemplateText(h, question);
    AtIsInfix(p, context, |Header|);
    AtIsInfix(p, q, |Header| + |context| + |QuestionLabel|);
    AtIsInfix(p, Fallback, |Header| + |context| + |QuestionLabel| + |q| + |InstructionsHead|);
  }

  /** Example: the context built from matches "A" and "B" is "A\n\nB". */
  lemma ExampleContext(h: Host, sa: real, sb: real)
    ensures Context(h, [Match(Str("A"), sa), Match(Str("B"), sb)]) == "A\n\nB"
  {
    var ms := [Match(Str("A"), sa), Match(Str("B"), sb)];
    var texts := seq(|ms|, i requires 0 <= i < |ms| => ms[i].text);
    assert texts == [Str("A"), Str("B")];
    assert ElementTexts(h, texts) == ["A", "B"];
    JoinCons("A", ["B"], "\n\n");
    assert ["A"] + ["B"] == ["A", "B"];
  }
}
