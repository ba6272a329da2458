/** The retrieval-free server (index.js): every chunk is flattened to text,
    the whole CV is put into one context string, and every question is sent
    to the completion service together with that context. */
module IndexServer {
  import opened Wrappers
  import opened Text
  import opened JsValues
  import opened Answers

  /** Keys that never contribute a segment. */
  const SkipFields: set<string> := {"id", "type", "category"}

  /** The text one field contributes, or `None` when it contributes nothing.
      The array branch comes before the object branch (an array is also an
      object), and `null` fails the object branch and is falsy. */
  function Segment(h: Host, f: Field): (r: Option<string>)
    ensures r.Some? <==> f.key !in SkipFields && (f.value.Arr? || f.value.Obj? || Truthy(f.value))
    ensures r.Some? ==> |f.key| + 2 <= |r.value| && r.value[..|f.key| + 2] == f.key + ": "
  {
    if f.key in SkipFields then None
    else
      match f.value
      case Arr(items) => Some(f.key + ": " + ArrayJoin(h, items, ", "))
      case Obj(_) => Some(f.key + ": " + h.stringify(f.value))
      case _ => if Truthy(f.value) then Some(f.key + ": " + ToString(h, f.value)) else None
  }

  /** The segments of the fields that render, in field order. */
  function Segments(h: Host, fields: Object): (r: seq<string>)
    ensures |r| <= |fields|
  {
    if |fields| == 0 then []
    else
      match Segment(h, fields[0])
      case Some(s) => [s] + Segments(h, fields[1..])
      case None => Segments(h, fields[1..])
  }

  /** The flattened text of a chunk: its segments separated by " | ". */
  function Flattened(h: Host, chunk: Object): string {
    Join(Segments(h, chunk), " | ")
  }

  /** `chunkToText`: walks the entries in order, collecting one part per
      rendering field, then joins the parts. */
  method ChunkToText(h: Host, chunk: Object) returns (text: string)
    ensures text == Flattened(h, chunk)
  {
    var parts: seq<string> := [];
    var i := 0;
    while i < |chunk|
      invariant 0 <= i <= |chunk|
      invariant parts == Segments(h, chunk[..i])
    {
      var f := chunk[i];
      SegmentsConcat(h, chunk[..i], [f]);
      assert chunk[..i + 1] == chunk[..i] + [f];
      if f.key in SkipFields {
      } else if f.value.Arr? {
        parts := parts + [f.key + ": " + ArrayJoin(h, f.value.items, ", ")];
      } else if f.value.Obj? {
        parts := parts + [f.key + ": " + h.stringify(f.value)];
      } else if Truthy(f.value) {
        parts := parts + [f.key + ": " + ToString(h, f.value)];
      }
      i := i + 1;
    }
    assert chunk[..i] == chunk;
    text := Join(parts, " | ");
  }

  /** Flattening is compositional: the segments of a concatenation are the
      segments of each half, so segments keep the chunk's key order. */
  lemma {:induction false} SegmentsConcat(h: Host, a: Object, b: Object)
    ensures Segments(h, a + b) == Segments(h, a) + Segments(h, b)
  {
    if |a| > 0 {
      assert (a + b)[0] == a[0];
      assert (a + b)[1..] == a[1..] + b;
      SegmentsConcat(h, a[1..], b);
    } else {
      assert a + b == b;
    }
  }

  /** A chunk's fields with every skipped key removed. */
  function WithoutSkipped(fields: Object): (r: Object)
    ensures forall i :: 0 <= i < |r| ==> r[i].key !in SkipFields
  {
    if |fields| == 0 then []
    else if fields[0].key in SkipFields then WithoutSkipped(fields[1..])
    else [fields[0]] + WithoutSkipped(fields[1..])
  }

  /** Fields named `id`, `type` or `category` never contribute: the flattened
      text is the same with all of them removed. */
  lemma {:induction false} SkippedKeysIgnored(h: Host, chunk: Object)
    ensures Segments(h, chunk) == Segments(h, WithoutSkipped(chunk))
    ensures Flattened(h, chunk) == Flattened(h, WithoutSkipped(chunk))
  {
    if |chunk| > 0 {
      SkippedKeysIgnored(h, chunk[1..]);
      if chunk[0].key !in SkipFields {
        var r := [chunk[0]] + WithoutSkipped(chunk[1..]);
        assert r[0] == chunk[0] && r[1..] == WithoutSkipped(chunk[1..]);
      }
    }
  }

  /** Inserting a skipped field anywhere leaves the flattened text unchanged. */
  lemma SkippedFieldInsertedAnywhere(h: Host, a: Object, b: Object, key: string, v: Value)
    requires key in SkipFields
    ensures Flattened(h, a + [Field(key, v)] + b) == Flattened(h, a + b)
  {
    SegmentsConcat(h, a + [Field(key, v)], b);
    SegmentsConcat(h, a, [Field(key, v)]);
    SegmentsConcat(h, a, b);
    assert [Field(key, v)][1..] == [];
    assert Segment(h, Field(key, v)) == None;
    assert Segments(h, []) == [];
    assert Segments(h, [Field(key, v)]) == [];
    assert Segments(h, a + [Field(key, v)] + b) == Segments(h, a + b);
  }

  /** A chunk none of whose fields renders flattens to the empty string. */
  lemma {:induction false} NothingRenderedIsEmpty(h: Host, chunk: Object)
    requires forall i :: 0 <= i < |chunk| ==> Segment(h, chunk[i]).None?
    ensures Segments(h, chunk) == []
    ensures Flattened(h, chunk) == ""
  {
    if |chunk| > 0 {
      NothingRenderedIsEmpty(h, chunk[1..]);
    }
  }

  /** An array field renders as "key: " followed by its items joined by
      ", "; even an empty one renders, as "key: " with nothing after the
      colon, because the array test comes before the truthiness test. */
  lemma ArrayRendersJoined(h: Host, key: string, xs: seq<Value>)
    requires key !in SkipFields
    ensures Segment(h, Field(key, Arr(xs))) == Some(key + ": " + ArrayJoin(h, xs, ", "))
    ensures xs == [] ==> Segment(h, Field(key, Arr(xs))) == Some(key + ": ")
  {
    assert ElementTexts(h, []) == [];
    assert ArrayJoin(h, [], ", ") == "";
    assert key + ": " + "" == key + ": ";
  }

  /** An object field renders as its serialisation, even when empty. */
  lemma ObjectRendersSerialised(h: Host, key: string, fields: Object)
    requires key !in SkipFields
    ensures Segment(h, Field(key, Obj(fields))) == Some(key + ": " + h.stringify(Obj(fields)))
  {
  }

  /** A falsy scalar (`null`, `false`, `0`, `""`) contributes nothing; a
      truthy scalar renders as its text. */
  lemma ScalarRendersIffTruthy(h: Host, key: string, v: Value)
    requires key !in SkipFields && !v.Arr? && !v.Obj?
    ensures Segment(h, Field(key, v)).Some? <==> Truthy(v)
    ensures Truthy(v) ==> Segment(h, Field(key, v)) == Some(key + ": " + ToString(h, v))
  {
  }

  /** The flattened text holds every rendered segment verbatim, at its
      offset. */
  lemma FlattenedHoldsSegments(h: Host, chunk: Object, i: nat)
    requires i < |Segments(h, chunk)|
    ensures ContainsAt(Flattened(h, chunk), Segments(h, chunk)[i], Offset(Segments(h, chunk), " | ", i))
  {
    JoinPlacesParts(Segments(h, chunk), " | ", i);
  }

  /** Segments appear in field order: each is followed by " | ", and both
      end before any later segment starts. */
  lemma FlattenedSegmentsInOrder(h: Host, chunk: Object, i: nat, j: nat)
    requires i < j < |Segments(h, chunk)|
    ensures ContainsAt(Flattened(h, chunk), " | ", Offset(Segments(h, chunk), " | ", i) + |Segments(h, chunk)[i]|)
    ensures Offset(Segments(h, chunk), " | ", i) + |Segments(h, chunk)[i]| + 3 <= Offset(Segments(h, chunk), " | ", j)
  {
    JoinPlacesSeparators(Segments(h, chunk), " | ", i);
    OffsetsOrdered(Segments(h, chunk), " | ", i, j);
  }

  /** Example: `{id: "x", type: "t", skill: "Go", years: 0,
      tags: ["a", "b"]}` flattens to "skill: Go | tags: a, b". */
  lemma ExampleChunk(h: Host)
    ensures Flattened(h, [Field("id", Str("x")), Field("type", Str("t")), Field("skill", Str("Go")),
                          Field("years", Num(0.0)), Field("tags", Arr([Str("a"), Str("b")]))])
         == "skill: Go | tags: a, b"
  {
    ExampleChunkSegments(h);
    JoinCons("skill: Go", ["tags: a, b"], " | ");
    assert ["skill: Go"] + ["tags: a, b"] == ["skill: Go", "tags: a, b"];
  }

  lemma ExampleChunkSegments(h: Host)
    ensures Segments(h, [Field("id", Str("x")), Field("type", Str("t")), Field("skill", Str("Go")),
                         Field("years", Num(0.0)), Field("tags", Arr([Str("a"), Str("b")]))])
         == ["skill: Go", "tags: a, b"]
  {
    var head := [Field("id", Str("x")), Field("type", Str("t"))];
    var skill := [Field("skill", Str("Go"))];
    var years := [Field("years", Num(0.0))];
    var tags := [Field("tags", Arr([Str("a"), Str("b")]))];
    ExampleSegments(h);
    SegmentsConcat(h, years, tags);
    SegmentsConcat(h, skill, years + tags);
    SegmentsConcat(h, head, skill + (years + tags));
    assert head + (skill + (years + tags))
        == [Field("id", Str("x")), Field("type", Str("t")), Field("skill", Str("Go")),
            Field("years", Num(0.0)), Field("tags", Arr([Str("a"), Str("b")]))];
  }

  /** The segments of the example's fields, one at a time. */
  lemma ExampleSegments(h: Host)
    ensures Segments(h, [Field("id", Str("x")), Field("type", Str("t"))]) == []
    ensures Segments(h, [Field("skill", Str("Go"))]) == ["skill: Go"]
    ensures Segments(h, [Field("years", Num(0.0))]) == []
    ensures Segments(h, [Field("tags", Arr([Str("a"), Str("b")]))]) == ["tags: a, b"]
  {
    assert ElementTexts(h, [Str("a"), Str("b")]) == ["a", "b"];
    JoinCons("a", ["b"], ", ");
    assert ["a"] + ["b"] == ["a", "b"];
    assert ArrayJoin(h, [Str("a"), Str("b")], ", ") == "a, b";
    assert "tags" !in SkipFields && "skill" !in SkipFields && "years" !in SkipFields;
    assert "tags" + ": " + "a, b" == "tags: a, b";
    assert "skill" + ": " + "Go" == "skill: Go";
    assert [Field("id", Str("x")), Field("type", Str("t"))][1..] == [Field("type", Str("t"))];
    assert [Field("type", Str("t"))][1..] == [];
    assert [Field("skill", Str("Go"))][1..] == [];
    assert [Field("years", Num(0.0))][1..] == [];
    assert [Field("tags", Arr([Str("a"), Str("b")]))][1..] == [];
  }

  /** `candidateInfo`: the candidate's six attributes on six labelled lines. */
  function CandidateInfo(h: Host, candidate: Object): (r: string)
    ensures r == Join(CandidateLines(h, candidate), "\n")
  {
    var ls := CandidateLines(h, candidate);
    JoinSix(ls, "\n");
    ls[0] + "\n" + ls[1] + "\n" + ls[2] + "\n" + ls[3] + "\n" + ls[4] + "\n" + ls[5]
  }

  /** The six labelled lines, in order; a missing attribute shows as
      "undefined". */
  function CandidateLines(h: Host, candidate: Object): (r: seq<string>)
    ensures |r| == 6
  {
    [ "Name: " + TemplateText(h, Get(candidate, "name")),
      "Location: " + TemplateText(h, Get(candidate, "location")),
      "Email: " + TemplateText(h, Get(candidate, "email")),
      "LinkedIn: " + TemplateText(h, Get(candidate, "linkedin")),
      "Experience: " + TemplateText(h, Get(candidate, "experience_years")) + " years",
      "Role: " + TemplateText(h, Get(candidate, "primary_role")) ]
  }

  /** Each labelled line lies verbatim in the candidate block, in label
      order; a string attribute appears right after its label. */
  lemma CandidateLineAt(h: Host, candidate: Object, i: nat)
    requires i < 6
    ensures ContainsAt(CandidateInfo(h, candidate), CandidateLines(h, candidate)[i],
                       Offset(CandidateLines(h, candidate), "\n", i))
    ensures i < 5 ==> Offset(CandidateLines(h, candidate), "\n", i) + |CandidateLines(h, candidate)[i]| + 1
                      <= Offset(CandidateLines(h, candidate), "\n", i + 1)
  {
    JoinPlacesParts(CandidateLines(h, candidate), "\n", i);
    if i < 5 {
      OffsetsOrdered(CandidateLines(h, candidate), "\n", i, i + 1);
    }
  }

  /** The flattened text of every chunk, in corpus order. */
  function ChunkTexts(h: Host, chunks: seq<Object>): (r: seq<string>)
    ensures |r| == |chunks|
  {
    seq(|chunks|, i requires 0 <= i < |chunks| => Flattened(h, chunks[i]))
  }

  /** `fullCVContext`: the candidate block and every chunk's text, separated
      by blank lines. */
  function FullCVContext(h: Host, candidate: Object, chunks: seq<Object>): (r: string)
    ensures |chunks| == 0 ==> r == CandidateInfo(h, candidate)
    ensures |chunks| > 0 ==> r == CandidateInfo(h, candidate) + "\n\n" + Join(ChunkTexts(h, chunks), "\n\n")
  {
    var parts := [CandidateInfo(h, candidate)] + ChunkTexts(h, chunks);
    if |chunks| > 0 then
      JoinCons(CandidateInfo(h, candidate), ChunkTexts(h, chunks), "\n\n");
      Join(parts, "\n\n")
    else
      Join(parts, "\n\n")
  }

  /** Chunk `i`'s text lies verbatim in the context, after the candidate
      block, and before the text of every later chunk. */
  lemma ChunkTextInContext(h: Host, candidate: Object, chunks: seq<Object>, i: nat)
    requires i < |chunks|
    ensures ContainsAt(FullCVContext(h, candidate, chunks), Flattened(h, chunks[i]),
                       Offset([CandidateInfo(h, candidate)] + ChunkTexts(h, chunks), "\n\n", i + 1))
    ensures |CandidateInfo(h, candidate)| + 2
         <= Offset([CandidateInfo(h, candidate)] + ChunkTexts(h, chunks), "\n\n", i + 1)
    ensures i + 1 < |chunks| ==>
              (Offset([CandidateInfo(h, candidate)] + ChunkTexts(h, chunks), "\n\n", i + 1)
               + |Flattened(h, chunks[i])| + 2
               <= Offset([CandidateInfo(h, candidate)] + ChunkTexts(h, chunks), "\n\n", i + 2))
  {
    var parts := [CandidateInfo(h, candidate)] + ChunkTexts(h, chunks);
    JoinPlacesParts(parts, "\n\n", i + 1);
    OffsetsOrdered(parts, "\n\n", 0, i + 1);
    if i + 1 < |chunks| {
      OffsetsOrdered(parts, "\n\n", i + 1, i + 2);
    }
  }

  /** The system message of the completion request. */
  const SystemMessage: string :=
    "You are an AI assistant answering questions about Prince Kumar Yadav's CV.\n"
    + "Only answer using the CV information provided.\n"
    + "If answer not found, say: \"" + Fallback + "\""

  /** The system message tells the model the fallback sentence verbatim. */
  lemma SystemMessageHasFallback()
    ensures ContainsAt(SystemMessage, Fallback, |SystemMessage| - |Fallback| - 1)
  {
  }

  const UserPrefix: string := "\nCV Data:\n"
  const QuestionLabel: string := "\n\nUser Question:\n"

  /** The user message: the whole CV context, then the question, each
      inserted verbatim into a fixed frame. */
  function UserMessage(h: Host, context: string, question: Option<Value>): (r: string)
    ensures ContainsAt(r, context, |UserPrefix|)
    ensures ContainsAt(r, TemplateText(h, question), |UserPrefix| + |context| + |QuestionLabel|)
    ensures |r| == |UserPrefix| + |context| + |QuestionLabel| + |TemplateText(h, question)| + 1
  {
    var q := TemplateText(h, question);
    var r := UserPrefix + context + QuestionLabel + q + "\n";
    assert r[|UserPrefix|..|UserPrefix| + |context|] == context;
    assert r[|UserPrefix| + |context| + |QuestionLabel|..|UserPrefix| + |context| + |QuestionLabel| + |q|] == q;
    r
  }

  /** The frame is unambiguous: two user messages with equally long contexts
      are equal only when both the context and the question text are. */
  lemma UserMessageInjective(h: Host, c1: string, q1: Option<Value>, c2: string, q2: Option<Value>)
    requires |c1| == |c2|
    requires UserMessage(h, c1, q1) == UserMessage(h, c2, q2)
    ensures c1 == c2
    ensures TemplateText(h, q1) == TemplateText(h, q2)
  {
    var m := UserMessage(h, c1, q1);
    assert c1 == m[|UserPrefix|..|UserPrefix| + |c1|] == c2;
  }
}
