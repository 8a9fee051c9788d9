/** The question-answering route: validate the question, embed it, retrieve
    the six closest chunks, ask the chat model with a prompt built from them,
    and answer with the model's text and, outside production, the citations. */
module Ask {
  import opened Common
  import opened Text
  import opened Rag
  import Embedder

  /** How many chunks the route retrieves. */
  const TopK: int := 6
  const ChatModel: String := "gpt-4o-mini"
  const Temperature: real := 0.2
  /** The answer when the model's reply has no content. */
  const NoAnswer: String := "No answer."
  /** What separates two source excerpts in the prompt. */
  const ExcerptSeparator: String := "\n\n---\n\n"

  /** The `question` field of the request body: missing or null, a string, or
      any other JSON value (on which `trim` is not a function). */
  datatype QuestionField = Absent | Given(value: String) | NotText

  /** The query embedding request (a single input string). */
  datatype EmbedQuery = EmbedQuery(model: String, input: String)
  datatype Message = Message(role: String, content: String)
  datatype ChatRequest = ChatRequest(model: String, temperature: real, messages: seq<Message>)

  /** The effects the route has on the outside world, in order. */
  datatype Call = LoadIndex | Embed(query: EmbedQuery) | Chat(request: ChatRequest)

  /** One entry of the debug citations. */
  datatype Citation = Citation(source: String, filename: String, page: nat, id: String, score: real)

  datatype Body =
    | ErrorBody(error: String)
    | AnswerBody(answer: String, indexCreatedAt: String, citations: Option<seq<Citation>>)

  /** A JSON response, or an exception that escapes the handler. */
  datatype Response = Json(status: nat, body: Body) | Crash

  datatype Outcome = Outcome(response: Response, calls: seq<Call>)

  // ---------------------------------------------------------------------------
  // Substrings

  /** `p` occurs in `s` starting at position `a`. */
  predicate At(p: String, s: String, a: int) {
    0 <= a && a + |p| <= |s| && forall j :: 0 <= j < |p| ==> s[a + j] == p[j]
  }

  /** `p` occurs in `s` as a contiguous piece. */
  predicate Occurs(p: String, s: String) {
    exists a :: 0 <= a <= |s| && At(p, s, a)
  }

  /** A piece of a piece of `s` is a piece of `s`. */
  lemma AtTrans(p: String, m: String, s: String, b: int, a: int)
    requires At(p, m, b) && At(m, s, a)
    ensures At(p, s, a + b)
  {
    forall j | 0 <= j < |p|
      ensures s[a + b + j] == p[j]
    {
      assert m[b + j] == p[j];
    }
  }

  /** Both halves of a concatenation occur in it. */
  lemma AtConcat(x: String, y: String)
    ensures At(x, x + y, 0) && At(y, x + y, |x|)
  {
    forall j | 0 <= j < |y|
      ensures (x + y)[|x| + j] == y[j]
    {
    }
  }

  /** Each part of a join occurs in it. */
  lemma {:induction false} OccursInJoin(parts: seq<String>, sep: String, i: nat) returns (a: int)
    requires i < |parts|
    ensures At(parts[i], Join(parts, sep), a)
    decreases |parts|
  {
    var s := Join(parts, sep);
    if i == 0 {
      a := 0;
    } else {
      var rest := Join(parts[1..], sep);
      var a' := OccursInJoin(parts[1..], sep, i - 1);
      assert parts[1..][i - 1] == parts[i];
      var head := parts[0] + sep;
      assert s == head + rest;
      AtConcat(head, rest);
      AtTrans(parts[i], rest, s, a', |head|);
      a := |head| + a';
    }
  }

  /** A join of non-empty parts ends where its last part ends. */
  lemma {:induction false} JoinLast(parts: seq<String>, sep: String)
    requires |parts| > 0 && |parts[|parts| - 1]| > 0
    ensures |Join(parts, sep)| > 0
    ensures Join(parts, sep)[|Join(parts, sep)| - 1] == parts[|parts| - 1][|parts[|parts| - 1]| - 1]
    decreases |parts|
  {
    if |parts| > 1 {
      JoinLast(parts[1..], sep);
      assert parts[1..][|parts| - 2] == parts[|parts| - 1];
    }
  }

  // ---------------------------------------------------------------------------
  // The prompt

  /** `SOURCE ${i + 1}`: the label of the i-th retrieved chunk. */
  function SourceLabel(i: nat): (r: String)
    ensures |r| > 7 && r[..7] == "SOURCE "
  {
    "SOURCE " + NatToString(i + 1)
  }

  /** The number in a label reads back as the chunk's rank, counted from 1;
      so two retrieved chunks never share a label. */
  lemma LabelRoundTrip(i: nat)
    ensures AllDigits(SourceLabel(i)[7..]) && ParseNat(SourceLabel(i)[7..]) == i + 1
  {
    assert SourceLabel(i)[7..] == NatToString(i + 1);
    ParseNatToString(i + 1);
  }

  lemma LabelsDistinct(i: nat, j: nat)
    ensures SourceLabel(i) == SourceLabel(j) <==> i == j
  {
    LabelRoundTrip(i);
    LabelRoundTrip(j);
  }

  /** The first lines of an excerpt: label, file name and page. */
  function ExcerptHead(i: nat, c: Chunk): (r: String)
    ensures |r| > 0 && !IsWhitespace(r[0]) && !IsWhitespace(r[|r| - 1])
  {
    var page := NatToString(c.page);
    var r := SourceLabel(i) + "\nFILENAME: " + c.filename + "\nPAGE: " + page;
    assert r[|r| - 1] == page[|page| - 1] && IsDigit(page[|page| - 1]);
    r
  }

  /** One source excerpt: label, file name, page and text, trimmed. The trim
      only ever removes whitespace after the chunk's text: an excerpt of text
      ending in a non-whitespace character is the whole template. */
  function SourceExcerpt(i: nat, c: Chunk): (r: String)
    ensures |r| > 0 && Trimmed(r)
    ensures Without(r, IsWhitespace) == Without(ExcerptHead(i, c) + "\nTEXT:\n" + c.text, IsWhitespace)
    ensures c.text != [] && !IsWhitespace(c.text[|c.text| - 1]) ==>
              r == ExcerptHead(i, c) + "\nTEXT:\n" + c.text
  {
    var head := ExcerptHead(i, c);
    ConcatAssoc(head, "\nTEXT:\n", c.text);
    TrimAfterHead(head, "\nTEXT:\n" + c.text);
    Trim(head + ("\nTEXT:\n" + c.text))
  }

  lemma TrimAfterHead(head: String, body: String)
    requires |head| > 0 && !IsWhitespace(head[0]) && !IsWhitespace(head[|head| - 1])
    ensures |Trim(head + body)| > 0
    ensures Without(Trim(head + body), IsWhitespace) == Without(head + body, IsWhitespace)
    ensures body != [] && !IsWhitespace(body[|body| - 1]) ==> Trim(head + body) == head + body
  {
    TrimKeepsPrefix(head, body);
    TrimKeepsContent(head + body);
    assert (head + body)[0] == head[0];
    if body != [] {
      assert (head + body)[|head + body| - 1] == body[|body| - 1];
    }
    TrimmedUnchanged(head + body);
  }

  /** An excerpt begins with its head, whatever the chunk's text. */
  lemma ExcerptBeginsWithHead(i: nat, c: Chunk)
    ensures At(ExcerptHead(i, c), SourceExcerpt(i, c), 0)
  {
    var head := ExcerptHead(i, c);
    TrimKeepsPrefix(head, "\nTEXT:\n" + c.text);
    PrefixAt(head, SourceExcerpt(i, c));
  }

  lemma PrefixAt(x: String, r: String)
    requires |x| <= |r| && r[..|x|] == x
    ensures At(x, r, 0)
  {
    forall j | 0 <= j < |x|
      ensures r[j] == x[j]
    {
      assert r[..|x|][j] == r[j];
    }
  }

  /** `s` holds no line break. */
  predicate OneLine(s: String) {
    forall k :: 0 <= k < |s| ==> s[k] != '\n'
  }

  lemma OneLineConcat(x: String, y: String)
    requires OneLine(x) && OneLine(y)
    ensures OneLine(x + y)
  {
    assert forall k :: |x| <= k < |x + y| ==> (x + y)[k] == y[k - |x|];
  }

  lemma DigitsOneLine(s: String)
    requires AllDigits(s)
    ensures OneLine(s)
  {
  }

  /** One line of the list of available sources: it starts with the chunk's
      label, and it is a single line when the file name has no line break. */
  function SourceLine(i: nat, c: Chunk): (r: String)
    ensures At(SourceLabel(i), r, 0)
    ensures OneLine(c.filename) ==> OneLine(r)
  {
    var tag := SourceLabel(i);
    var page := NatToString(c.page);
    var rest := ": " + c.filename + " (p." + page + ")";
    AtConcat(tag, rest);
    if OneLine(c.filename) then
      SourceLineOneLine(tag, c.filename, page, i + 1);
      tag + rest
    else
      tag + rest
  }

  lemma SourceLineOneLine(tag: String, filename: String, page: String, n: nat)
    requires tag == "SOURCE " + NatToString(n) && AllDigits(page) && OneLine(filename)
    ensures OneLine(tag + (": " + filename + " (p." + page + ")"))
  {
    DigitsOneLine(NatToString(n));
    OneLineConcat("SOURCE ", NatToString(n));
    DigitsOneLine(page);
    OneLineConcat(": ", filename);
    OneLineConcat(": " + filename, " (p.");
    OneLineConcat(": " + filename + " (p.", page);
    OneLineConcat(": " + filename + " (p." + page, ")");
    OneLineConcat(tag, ": " + filename + " (p." + page + ")");
  }

  /** Maps each element together with its position, as JavaScript's `map`
      does when its callback takes the index too. */
  function IndexedMap<T, U>(xs: seq<T>, f: (nat, T) -> U): (r: seq<U>)
    ensures |r| == |xs|
    ensures forall i :: 0 <= i < |xs| ==> r[i] == f(i, xs[i])
  {
    seq(|xs|, i requires 0 <= i < |xs| => f(i, xs[i]))
  }

  /** Mapping one more element appends its image at the next index. */
  lemma IndexedMapSnoc<T, U>(xs: seq<T>, x: T, f: (nat, T) -> U)
    ensures IndexedMap(xs + [x], f) == IndexedMap(xs, f) + [f(|xs|, x)]
  {
    var e, p := IndexedMap(xs + [x], f), IndexedMap(xs, f) + [f(|xs|, x)];
    forall k | 0 <= k < |e|
      ensures e[k] == p[k]
    {
      if k < |xs| {
        assert (xs + [x])[k] == xs[k];
      }
    }
  }

  function Excerpts(top: seq<ScoredChunk>): (r: seq<String>)
    ensures |r| == |top|
    ensures forall i :: 0 <= i < |top| ==> r[i] == SourceExcerpt(i, top[i].chunk)
  {
    IndexedMap(top, (i: nat, t: ScoredChunk) => SourceExcerpt(i, t.chunk))
  }

  function Lines(top: seq<ScoredChunk>): (r: seq<String>)
    ensures |r| == |top|
    ensures forall i :: 0 <= i < |top| ==> r[i] == SourceLine(i, top[i].chunk)
  {
    IndexedMap(top, (i: nat, t: ScoredChunk) => SourceLine(i, t.chunk))
  }

  /** The list of available sources: one line per retrieved chunk, empty
      exactly when nothing was retrieved. */
  function SourceList(top: seq<ScoredChunk>): (r: String)
    ensures r == [] <==> |top| == 0
  {
    Join(Lines(top), "\n")
  }

  /** The source excerpts, separated by rules, empty exactly when nothing was
      retrieved. */
  function SourcesText(top: seq<ScoredChunk>): (r: String)
    ensures r == [] <==> |top| == 0
  {
    assert |top| > 0 ==> Excerpts(top)[0] == SourceExcerpt(0, top[0].chunk);
    Join(Excerpts(top), ExcerptSeparator)
  }

  /** The list of sources holds the lines in rank order, a newline between
      neighbours: one more chunk adds a newline and its line. */
  lemma SourceListSnoc(top: seq<ScoredChunk>, t: ScoredChunk)
    requires |top| > 0
    ensures SourceList(top + [t]) == SourceList(top) + "\n" + SourceLine(|top|, t.chunk)
  {
    IndexedMapSnoc(top, t, (i: nat, t: ScoredChunk) => SourceLine(i, t.chunk));
    JoinSnoc(Lines(top), SourceLine(|top|, t.chunk), "\n");
  }

  /** The excerpts come in rank order, a rule between neighbours: one more
      chunk adds a rule and its excerpt. */
  lemma SourcesTextSnoc(top: seq<ScoredChunk>, t: ScoredChunk)
    requires |top| > 0
    ensures SourcesText(top + [t]) == SourcesText(top) + ExcerptSeparator + SourceExcerpt(|top|, t.chunk)
  {
    IndexedMapSnoc(top, t, (i: nat, t: ScoredChunk) => SourceExcerpt(i, t.chunk));
    JoinSnoc(Excerpts(top), SourceExcerpt(|top|, t.chunk), ExcerptSeparator);
  }

  const ListHeader: String := "\n\nAvailable sources:\n"
  const ExcerptsHeader: String := "\n\nSource excerpts:\n"

  /** The user message after its first line. */
  function PromptTail(top: seq<ScoredChunk>): String {
    ListHeader + SourceList(top) + ExcerptsHeader + SourcesText(top)
  }

  /** The untrimmed user message: the question, the list of sources and the
      excerpts. */
  function Prompt(question: String, top: seq<ScoredChunk>): (r: String)
    ensures At("Question: " + question, r, 0)
  {
    AtConcat("Question: " + question, PromptTail(top));
    "Question: " + question + PromptTail(top)
  }

  /** The user message, trimmed. With at least one source nothing is trimmed
      away; in every case it begins with the question. */
  function UserContent(question: String, top: seq<ScoredChunk>): (r: String)
    ensures |top| > 0 ==> r == Prompt(question, top)
    ensures question != [] && Trimmed(question) ==> At("Question: " + question, r, 0)
  {
    TrimmedPrompt(question, top);
    Trim(Prompt(question, top))
  }

  lemma TrimmedPrompt(question: String, top: seq<ScoredChunk>)
    ensures |top| > 0 ==> Trim(Prompt(question, top)) == Prompt(question, top)
    ensures question != [] && Trimmed(question) ==> At("Question: " + question, Trim(Prompt(question, top)), 0)
  {
    var x := "Question: " + question;
    var p := Prompt(question, top);
    assert p == x + PromptTail(top);
    if question != [] && Trimmed(question) {
      TrimKeepsPrefix(x, PromptTail(top));
      PrefixAt(x, Trim(p));
    }
    if |top| > 0 {
      PromptTrimmed(question, top);
      TrimOfTrimmed(p);
    }
  }

  lemma PromptTrimmed(question: String, top: seq<ScoredChunk>)
    requires |top| > 0
    ensures Trimmed(Prompt(question, top))
  {
    var t := SourcesText(top);
    TextEndsInExcerpt(top);
    var lead := ListHeader + SourceList(top) + ExcerptsHeader;
    assert PromptTail(top) == lead + t;
    EndsTrimmed("Question: " + question, lead, t);
  }

  /** With at least one excerpt, the excerpts end in a non-blank character. */
  lemma TextEndsInExcerpt(top: seq<ScoredChunk>)
    requires |top| > 0
    ensures |SourcesText(top)| > 0 && !IsWhitespace(SourcesText(top)[|SourcesText(top)| - 1])
  {
    var ex := Excerpts(top);
    assert ex[|ex| - 1] == SourceExcerpt(|top| - 1, top[|top| - 1].chunk);
    JoinEndsNonBlank(ex, ExcerptSeparator);
    assert SourcesText(top) == Join(ex, ExcerptSeparator);
  }

  lemma JoinEndsNonBlank(parts: seq<String>, sep: String)
    requires |parts| > 0 && |parts[|parts| - 1]| > 0 && Trimmed(parts[|parts| - 1])
    ensures |Join(parts, sep)| > 0 && !IsWhitespace(Join(parts, sep)[|Join(parts, sep)| - 1])
  {
    JoinLast(parts, sep);
  }

  lemma EndsTrimmed(x: String, lead: String, t: String)
    requires |x| > 0 && !IsWhitespace(x[0])
    requires |t| > 0 && !IsWhitespace(t[|t| - 1])
    ensures Trimmed(x + (lead + t))
  {
    var p := x + (lead + t);
    assert p[0] == x[0];
    assert p[|p| - 1] == t[|t| - 1];
  }

  lemma LastOfConcat(x: String, y: String)
    requires |y| > 0
    ensures (x + y)[0] == if |x| > 0 then x[0] else y[0]
    ensures (x + y)[|x + y| - 1] == y[|y| - 1]
  {
  }

  /** The chat request: fixed model and temperature, the system prompt, then
      the user message. */
  function ChatFor(systemPrompt: String, question: String, top: seq<ScoredChunk>): (r: ChatRequest)
    ensures r.model == ChatModel && r.temperature == Temperature
    ensures |r.messages| == 2
    ensures r.messages[0] == Message("system", systemPrompt)
    ensures r.messages[1] == Message("user", UserContent(question, top))
  {
    ChatRequest(ChatModel, Temperature,
      [Message("system", systemPrompt), Message("user", UserContent(question, top))])
  }

  /** The debug citations: entry i is labelled `SOURCE i+1` and carries the
      file name, page, id and score of the i-th retrieved chunk. */
  function Citations(top: seq<ScoredChunk>): (r: seq<Citation>)
    ensures |r| == |top|
    ensures forall i :: 0 <= i < |top| ==>
              r[i] == Citation(SourceLabel(i), top[i].chunk.filename, top[i].chunk.page, top[i].chunk.id, top[i].score)
  {
    seq(|top|, i requires 0 <= i < |top| =>
      Citation(SourceLabel(i), top[i].chunk.filename, top[i].chunk.page, top[i].chunk.id, top[i].score))
  }

  /** The citations carry pairwise distinct labels, and the number in entry
      i's label reads back as i + 1. */
  lemma CitationLabels(top: seq<ScoredChunk>)
    ensures forall i, j :: 0 <= i < j < |top| ==> Citations(top)[i].source != Citations(top)[j].source
    ensures forall i :: 0 <= i < |top| ==>
              AllDigits(Citations(top)[i].source[7..]) && ParseNat(Citations(top)[i].source[7..]) == i + 1
  {
    var r := Citations(top);
    forall i | 0 <= i < |top|
      ensures AllDigits(r[i].source[7..]) && ParseNat(r[i].source[7..]) == i + 1
    {
      LabelRoundTrip(i);
    }
  }

  /** How a citation reads in the list of sources. */
  function CitationLine(c: Citation): String {
    c.source + ": " + c.filename + " (p." + NatToString(c.page) + ")"
  }

  /** Where the list of sources and the excerpts sit in the user message. */
  lemma PromptParts(question: String, top: seq<ScoredChunk>) returns (o1: int, o2: int)
    ensures At(SourceList(top), Prompt(question, top), o1)
    ensures At(SourcesText(top), Prompt(question, top), o2)
  {
    var x := "Question: " + question;
    assert Prompt(question, top) == x + (ListHeader + SourceList(top) + ExcerptsHeader + SourcesText(top));
    o1, o2 := FourParts(x, ListHeader, SourceList(top), ExcerptsHeader, SourcesText(top));
  }

  lemma FourParts(x: String, h1: String, list: String, h2: String, text: String) returns (o1: int, o2: int)
    ensures At(list, x + (h1 + list + h2 + text), o1)
    ensures At(text, x + (h1 + list + h2 + text), o2)
  {
    var s := x + (h1 + list + h2 + text);
    o1, o2 := |x| + |h1|, |x| + |h1| + |list| + |h2|;
    forall j | 0 <= j < |list|
      ensures s[o1 + j] == list[j]
    {
    }
    forall j | 0 <= j < |text|
      ensures s[o2 + j] == text[j]
    {
    }
  }

  /** Every citation returned to the client names a source the model was
      shown: its line appears in the list of sources, and an excerpt with the
      same label, file name and page appears among the excerpts. */
  lemma {:induction false} CitedSourcesWereShown(question: String, top: seq<ScoredChunk>, i: nat)
    requires question != [] && Trimmed(question)
    requires i < |top|
    ensures Occurs(CitationLine(Citations(top)[i]), UserContent(question, top))
    ensures Occurs(SourceLabel(i) + "\nFILENAME: " + Citations(top)[i].filename
                     + "\nPAGE: " + NatToString(Citations(top)[i].page), UserContent(question, top))
  {
    var c := top[i].chunk;
    var p := Prompt(question, top);
    assert UserContent(question, top) == p;
    var o1, o2 := PromptParts(question, top);
    CitedLineShown(top, i, p, o1);
    CitedHeadShown(top, i, p, o2);
  }

  lemma CitedLineShown(top: seq<ScoredChunk>, i: nat, p: String, o: int)
    requires i < |top|
    requires At(SourceList(top), p, o)
    ensures Occurs(CitationLine(Citations(top)[i]), p)
  {
    var c := top[i].chunk;
    assert CitationLine(Citations(top)[i]) == SourceLine(i, c) == Lines(top)[i];
    var a := OccursInJoin(Lines(top), "\n", i);
    AtTrans(Lines(top)[i], SourceList(top), p, a, o);
  }

  lemma CitedHeadShown(top: seq<ScoredChunk>, i: nat, p: String, o: int)
    requires i < |top|
    requires At(SourcesText(top), p, o)
    ensures Occurs(SourceLabel(i) + "\nFILENAME: " + Citations(top)[i].filename
                     + "\nPAGE: " + NatToString(Citations(top)[i].page), p)
  {
    var c := top[i].chunk;
    var head := ExcerptHead(i, c);
    assert Citations(top)[i].filename == c.filename && Citations(top)[i].page == c.page;
    assert Excerpts(top)[i] == SourceExcerpt(i, c);
    var a := OccursInJoin(Excerpts(top), ExcerptSeparator, i);
    ExcerptBeginsWithHead(i, c);
    AtTrans(head, SourceExcerpt(i, c), SourcesText(top), 0, a);
    AtTrans(head, SourcesText(top), p, a, o);
  }

  // ---------------------------------------------------------------------------
  // The handler

  /** The question is present and not blank after trimming. */
  predicate HasQuestion(question: QuestionField) {
    question.Given? && !AllWhitespace(question.value)
  }

  /** The score of a chunk: the similarity of the query to its embedding. A
      chunk without one makes the route throw, so its score is never used. */
  function ChunkScore(score: (Vector, Vector) -> real): (r: (Vector, Chunk) -> real)
    ensures forall q: Vector, c: Chunk :: c.embedding.Some? ==> r(q, c) == score(q, c.embedding.value)
  {
    (q: Vector, c: Chunk) => if c.embedding.Some? then score(q, c.embedding.value) else 0.0
  }

  predicate AllEmbedded(chunks: seq<Chunk>) {
    forall i :: 0 <= i < |chunks| ==> chunks[i].embedding.Some?
  }

  /** The request that embeds the (trimmed) question. */
  function Query(question: String): EmbedQuery {
    EmbedQuery(Embedder.EmbeddingModel, question)
  }

  /** Top-6 retrieval over the index's chunks with the route's scoring. */
  function Retriever(score: (Vector, Vector) -> real): (Vector, seq<Chunk>) -> seq<ScoredChunk> {
    (query: Vector, chunks: seq<Chunk>) => RetrieveTopK(query, chunks, TopK, ChunkScore(score))
  }

  /** The chunks retrieved for a question whose embedding came back
      non-empty, by the first vector of the answer. */
  function TopChunks(question: String, index: Index,
                     embed: EmbedQuery -> Option<seq<Vector>>,
                     retrieve: (Vector, seq<Chunk>) -> seq<ScoredChunk>): seq<ScoredChunk>
    requires embed(Query(question)).Some? && |embed(Query(question)).value| > 0
  {
    retrieve(embed(Query(question)).value[0], index.chunks)
  }

  /** The chat request the route builds for a question and its retrieved
      chunks. */
  function Asker(systemPrompt: String): (String, seq<ScoredChunk>) -> ChatRequest {
    (question: String, top: seq<ScoredChunk>) => ChatFor(systemPrompt, question, top)
  }

  /** The last step: send `request` to the chat model and build the answer. */
  function Reply(request: ChatRequest, createdAt: String, top: seq<ScoredChunk>,
                 chat: ChatRequest -> Option<Option<String>>, production: bool): (r: Outcome)
    ensures r.calls == [Chat(request)]
    ensures chat(request).None? ==> r.response == Crash
    ensures chat(request).Some? ==>
              && r.response.Json? && r.response.status == 200 && r.response.body.AnswerBody?
              && r.response.body.answer == chat(request).value.GetOr(NoAnswer)
              && r.response.body.indexCreatedAt == createdAt
              && (r.response.body.citations.Some? <==> !production)
              && (!production ==> r.response.body.citations.value == Citations(top))
  {
    match chat(request)
    case None => Outcome(Crash, [Chat(request)])
    case Some(content) =>
      var citations := if production then None else Some(Citations(top));
      Outcome(Json(200, AnswerBody(content.GetOr(NoAnswer), createdAt, citations)), [Chat(request)])
  }

  /** The handler answered the question. */
  predicate Answered(r: Outcome) {
    r.response.Json? && r.response.status == 200
  }

  /** What the route does once the question is embedded: the chat request it
      sends is built from the retrieved chunks, and the answer from the reply
      to it. */
  predicate AnswerFits(question: String, index: Option<Index>,
                       embed: EmbedQuery -> Option<seq<Vector>>,
                       chat: ChatRequest -> Option<Option<String>>,
                       retrieve: (Vector, seq<Chunk>) -> seq<ScoredChunk>,
                       ask: (String, seq<ScoredChunk>) -> ChatRequest,
                       production: bool, r: Outcome)
  {
    && (|r.calls| == 3 ==>
          && index.Some? && AllEmbedded(index.value.chunks)
          && embed(Query(question)).Some? && |embed(Query(question)).value| > 0
          && r.calls[2] == Chat(ask(question, TopChunks(question, index.value, embed, retrieve))))
    && (Answered(r) ==>
          && |r.calls| == 3 && r.response.body.AnswerBody?
          && chat(r.calls[2].request).Some?
          && r.response.body.answer == chat(r.calls[2].request).value.GetOr(NoAnswer)
          && r.response.body.indexCreatedAt == index.value.createdAt
          && (production ==> r.response.body.citations == None)
          && (!production ==> r.response.body.citations ==
                                Some(Citations(TopChunks(question, index.value, embed, retrieve)))))
  }

  /** Everything after validation: read the index, embed the question,
      retrieve, ask. `retrieve` ranks the chunks for a query vector and `ask`
      builds the chat request. */
  function Serve(question: String, index: Option<Index>,
                 embed: EmbedQuery -> Option<seq<Vector>>,
                 chat: ChatRequest -> Option<Option<String>>,
                 retrieve: (Vector, seq<Chunk>) -> seq<ScoredChunk>,
                 ask: (String, seq<ScoredChunk>) -> ChatRequest,
                 production: bool): (r: Outcome)
    ensures 1 <= |r.calls| <= 3 && r.calls[0] == LoadIndex
    ensures index.None? ==> r == Outcome(Crash, [LoadIndex])
    ensures index.Some? ==> 2 <= |r.calls| && r.calls[1] == Embed(Query(question))
    ensures r.response == Json(500, ErrorBody("Embedding failed")) <==>
              index.Some? && embed(Query(question)) == Some([])
    ensures r.response == Json(500, ErrorBody("Embedding failed")) ==> |r.calls| == 2
    ensures r.response.Json? ==> r.response.status == 200 || r.response.status == 500
    ensures AnswerFits(question, index, embed, chat, retrieve, ask, production, r)
    ensures index.Some? && embed(Query(question)).None? ==>
              r == Outcome(Crash, [LoadIndex, Embed(Query(question))])
    ensures index.Some? && embed(Query(question)).Some? && |embed(Query(question)).value| > 0 ==>
              (|r.calls| == 3 <==> AllEmbedded(index.value.chunks))
    ensures index.Some? && embed(Query(question)).Some? && |embed(Query(question)).value| > 0
            && !AllEmbedded(index.value.chunks) ==>
              r == Outcome(Crash, [LoadIndex, Embed(Query(question))])
    ensures |r.calls| == 3 ==> (Answered(r) <==> chat(r.calls[2].request).Some?)
    ensures |r.calls| == 3 && chat(r.calls[2].request).None? ==> r.response == Crash
  {
    if index.None? then Outcome(Crash, [LoadIndex])
    else
      var chunks := index.value.chunks;
      var calls := [LoadIndex, Embed(Query(question))];
      match embed(Query(question))
      case None => Outcome(Crash, calls)
      case Some(data) =>
        if |data| == 0 then Outcome(Json(500, ErrorBody("Embedding failed")), calls)
        else if !AllEmbedded(chunks) then Outcome(Crash, calls)
        else
          var top := TopChunks(question, index.value, embed, retrieve);
          var rest := Reply(ask(question, top), index.value.createdAt, top, chat, production);
          Outcome(rest.response, calls + rest.calls)
  }

  /** `POST /api/ask`. The index, the embedding provider, the chat provider
      and the similarity are parameters: `index` is `None` when reading the
      embedded index throws, and a provider answers `None` when its call
      throws. A blank or missing question is rejected with 400 before anything
      else happens; a question that is not a string throws before anything
      else happens. Otherwise the index is read, the trimmed question is
      embedded with the model the chunks were embedded with, an empty
      embedding answer gives 500 without a chat call, and otherwise the chat
      model is asked once about the six chunks closest to the question; its
      reply, or "No answer." when it has no content, is returned with the
      index's creation time and, outside production, the citations of those
      chunks. */
  function Handle(question: QuestionField, index: Option<Index>,
                  embed: EmbedQuery -> Option<seq<Vector>>,
                  chat: ChatRequest -> Option<Option<String>>,
                  score: (Vector, Vector) -> real,
                  systemPrompt: String, production: bool): (r: Outcome)
    ensures question.NotText? ==> r == Outcome(Crash, [])
    ensures r.response == Json(400, ErrorBody("Missing question")) <==> !question.NotText? && !HasQuestion(question)
    ensures !HasQuestion(question) ==> r.calls == []
    ensures HasQuestion(question) ==>
              && Trim(question.value) != [] && Trimmed(Trim(question.value))
              && r == Serve(Trim(question.value), index, embed, chat, Retriever(score), Asker(systemPrompt), production)
  {
    match question
    case NotText => Outcome(Crash, [])
    case Absent => Outcome(Json(400, ErrorBody("Missing question")), [])
    case Given(s) =>
      var q := Trim(s);
      if q == [] then Outcome(Json(400, ErrorBody("Missing question")), [])
      else
        var r := Serve(q, index, embed, chat, Retriever(score), Asker(systemPrompt), production);
        assert r.response.Json? ==> r.response.status != 400;
        r
  }

  /** An outcome whose chat call carries the prompt for `top` and whose
      citations are those of `top` cites only sources that prompt shows. */
  lemma CitationsShownIn(question: String, top: seq<ScoredChunk>, systemPrompt: String,
                         r: Outcome, i: nat)
    requires question != [] && Trimmed(question)
    requires |r.calls| == 3 && r.calls[2] == Chat(ChatFor(systemPrompt, question, top))
    requires r.response.Json? && r.response.body.AnswerBody?
    requires r.response.body.citations == Some(Citations(top))
    ensures i < |r.response.body.citations.value| ==>
              Occurs(CitationLine(r.response.body.citations.value[i]), r.calls[2].request.messages[1].content)
  {
    if i < |top| {
      CitedSourcesWereShown(question, top, i);
    }
  }

  /** The success path: a non-blank question, an index whose chunks all carry
      embeddings, an embedding answer holding a vector and a chat call that
      returns give a 200 answer with the reply's content and the index's
      creation time, after exactly the three calls in order. */
  lemma RouteAnswers(question: QuestionField, index: Option<Index>,
                     embed: EmbedQuery -> Option<seq<Vector>>,
                     chat: ChatRequest -> Option<Option<String>>,
                     score: (Vector, Vector) -> real,
                     systemPrompt: String, production: bool)
    requires HasQuestion(question) && index.Some? && AllEmbedded(index.value.chunks)
    requires embed(Query(Trim(question.value))).Some? && |embed(Query(Trim(question.value))).value| > 0
    requires chat(ChatFor(systemPrompt, Trim(question.value),
                          RetrieveTopK(embed(Query(Trim(question.value))).value[0], index.value.chunks,
                                       TopK, ChunkScore(score)))).Some?
    ensures var q := Trim(question.value);
            var top := RetrieveTopK(embed(Query(q)).value[0], index.value.chunks, TopK, ChunkScore(score));
            var r := Handle(question, index, embed, chat, score, systemPrompt, production);
            && Answered(r) && r.response.body.AnswerBody?
            && r.response.body.answer == chat(ChatFor(systemPrompt, q, top)).value.GetOr(NoAnswer)
            && r.response.body.indexCreatedAt == index.value.createdAt
            && r.calls == [LoadIndex, Embed(Query(q)), Chat(ChatFor(systemPrompt, q, top))]
  {
    var q := Trim(question.value);
    assert Handle(question, index, embed, chat, score, systemPrompt, production)
        == Serve(q, index, embed, chat, Retriever(score), Asker(systemPrompt), production);
    ServeAnswers(q, index, embed, chat, Retriever(score), Asker(systemPrompt), production);
  }

  /** Serve's success path, for any retrieval and request builder. */
  lemma ServeAnswers(question: String, index: Option<Index>,
                     embed: EmbedQuery -> Option<seq<Vector>>,
                     chat: ChatRequest -> Option<Option<String>>,
                     retrieve: (Vector, seq<Chunk>) -> seq<ScoredChunk>,
                     ask: (String, seq<ScoredChunk>) -> ChatRequest,
                     production: bool)
    requires index.Some? && AllEmbedded(index.value.chunks)
    requires embed(Query(question)).Some? && |embed(Query(question)).value| > 0
    requires chat(ask(question, TopChunks(question, index.value, embed, retrieve))).Some?
    ensures var request := ask(question, TopChunks(question, index.value, embed, retrieve));
            var r := Serve(question, index, embed, chat, retrieve, ask, production);
            && Answered(r) && r.response.body.AnswerBody?
            && r.response.body.answer == chat(request).value.GetOr(NoAnswer)
            && r.response.body.indexCreatedAt == index.value.createdAt
            && r.calls == [LoadIndex, Embed(Query(question)), Chat(request)]
  {
    var r := Serve(question, index, embed, chat, retrieve, ask, production);
    assert r.calls == [r.calls[0], r.calls[1], r.calls[2]];
  }

  /** End to end: when the route answers outside production, it cites at most
      six chunks (all of them when the index has fewer), and every citation
      names a source the chat model was shown in the user message. */
  lemma AnswerCitesShownSources(question: QuestionField, index: Option<Index>,
                                embed: EmbedQuery -> Option<seq<Vector>>,
                                chat: ChatRequest -> Option<Option<String>>,
                                score: (Vector, Vector) -> real,
                                systemPrompt: String, production: bool, i: nat)
    requires Answered(Handle(question, index, embed, chat, score, systemPrompt, production))
    requires !production
    ensures var r := Handle(question, index, embed, chat, score, systemPrompt, production);
            && r.response.body.citations.Some?
            && |r.response.body.citations.value| == (if |index.value.chunks| < TopK then |index.value.chunks| else TopK)
            && (i < |r.response.body.citations.value| ==>
                  Occurs(CitationLine(r.response.body.citations.value[i]), r.calls[2].request.messages[1].content))
  {
    var r := Handle(question, index, embed, chat, score, systemPrompt, production);
    assert HasQuestion(question);
    var q := Trim(question.value);
    var top := TopChunks(q, index.value, embed, Retriever(score));
    assert top == RetrieveTopK(embed(Query(q)).value[0], index.value.chunks, TopK, ChunkScore(score));
    assert r.calls[2].request == ChatFor(systemPrompt, q, top);
    CitationsShownIn(q, top, systemPrompt, r, i);
  }
}
