# Wellness Bridge retrieval pipeline, in Dafny

This project models the pure logic of Wellness Bridge's retrieval-augmented
question answering and proves properties of it. The pipeline has four parts:

- **Indexing** (`scripts/index_pdfs.mjs`): each PDF page's text items are joined
  and their whitespace collapsed. Every non-empty page is normalised by
  `chunkText` and cut into windows of 1200 characters that overlap by 200.
  Each window becomes a record with the id `<docId>::p<page>::c<idx>`.
  The docId is the file name without its `.pdf` extension, matched in any
  letter case. Modules `Chunker` and `Ingest`.
- **Retrieval** (`lib/rag.ts`): `dot`, `norm` and `cosineSim` over real
  vectors, and `retrieveTopK`. That function scores every chunk, sorts the
  scores in descending order with a stable sort, and keeps the first `k`.
  Module `Rag`.
- **Embedding** (`scripts/embed_index.mjs`): the chunk list is cut into batches
  of 64. Each batch's texts go to the embedding provider, and the j-th vector
  returned is written into the j-th chunk of the batch. Module `Embedder`.
- **Answering** (`app/api/ask/route.ts`, `POST`): the route validates the
  question and embeds it, then retrieves six chunks. It builds the list of
  sources and the excerpts, asks the chat model, and answers with the reply.
  Outside production it also returns the citations. Module `Ask`.

Modules `Common` (`Option`, `Result`) and `Text` hold the shared pieces:
JavaScript's `trim` on a fixed whitespace set, `${n}` for naturals, and
`Array.prototype.join`.

The outside world becomes function parameters:

- The PDF extractor is `extract`, which returns a file's text items page by
  page, or `None` when extraction throws.
- The folder listing is an `Option` that is absent when the folder is missing.
- The clock is the `now` string.
- The embedding and chat providers return `None` when the call throws.
- The production flag and the system prompt are plain parameters.
- The route's similarity is a `score` function on vectors.

The route returns an `Outcome`: the response, together with the trace of
calls it made (load index, embed, chat). So "no call happens" can be stated.
An exception that escapes the handler is the response `Crash`.

Behaviour worth noting:

- The next-to-last chunk may be shorter than 1200 characters. Once the text
  left after a step fits inside the overlap, the last chunk lies wholly
  inside the one before it (`Chunker.TrailingChunkInsideOverlap`).
- `chunkText` returns `[]` at once when the normalised text is empty, whatever
  the size and overlap. It never rejects an overlap that is not smaller than
  the size: with such an overlap and non-empty text its loop never ends. The
  model therefore requires `overlap < size` only when the normalised text is
  not empty.
- A window's end is computed with `Math.min` and then passed to `slice`, so a
  negative size gives a negative end, which `slice` counts back from the end
  of the text. `Chunker.Window` follows that rule.
- File names that differ only in the case of `.pdf` get the same document id,
  and so the same chunk ids (`Ingest.CaseVariantsShareDocId`). Chunk ids are
  unique only when document ids are (`Ingest.IdsUnique`).
- The embedding script writes out the index's own `createdAt`; it does not
  stamp a new time (`Embedder.EmbedIndex`).
- The answer falls back to `"No answer."` only when the reply's content is
  missing or null. An empty string is returned as it is (`Ask.Reply`).
- Skipping pages with empty text makes no difference to the records: the
  chunker gives no chunks for empty text (`Ingest.PageChunks`).

## Model

| member | source | states |
|---|---|---|
| Text.Trim | scripts/index_pdfs.mjs:14 | The result is an infix of the input with only whitespace around it, has no whitespace at either end, and is empty exactly when the input is all whitespace |
| Text.TrimKeepsContent | scripts/index_pdfs.mjs:14 | Trimming removes only whitespace: the non-whitespace characters are kept, in order |
| Text.TrimKeepsPrefix | app/api/ask/route.ts:60-64 | Trimming text that starts with a piece whose first and last characters are not whitespace keeps that piece as the prefix |
| Text.ParseNatToString | scripts/index_pdfs.mjs:73 | The decimal form of a number reads back as that number |
| Text.NatToStringInjective | scripts/index_pdfs.mjs:73 | Distinct numbers print differently |
| Text.Join | app/api/ask/route.ts:66 | Joining no parts gives the empty string, one part gives that part, and otherwise the result starts with the first part |
| Text.JoinSnoc | app/api/ask/route.ts:66-71 | Joining one more part appends the separator and then that part, so the parts appear in order with the separator between neighbours |
| Chunker.CollapseRuns | scripts/index_pdfs.mjs:12 | Afterwards the only class character left is the space and no two class characters are adjacent. Every character is a space or comes from the input, the first character is kept (as a space when it is in the class), and input that already has no such runs is unchanged |
| Chunker.CollapseRunsKeepsOthers | scripts/index_pdfs.mjs:12 | Collapsing runs keeps every character outside the class, in order |
| Chunker.CollapseRunsOfRun | scripts/index_pdfs.mjs:12 | A non-empty run of class characters becomes exactly one space |
| Chunker.CollapseRunsSplit | scripts/index_pdfs.mjs:12 | Collapsing text that is cut where no run is split (one side empty, or a side that does not touch the cut with a class character) gives the two halves collapsed separately, joined |
| Chunker.CollapseRunBetween | scripts/index_pdfs.mjs:12 | A run of class characters between two pieces that do not touch it with class characters becomes one space between the two pieces collapsed separately |
| Chunker.CollapseNewlines | scripts/index_pdfs.mjs:13 | No run of three newlines is left. Characters come from the input, the first character is kept, text with no double space still has none, and text without such a run is unchanged. Every character other than a newline is kept, in order |
| Chunker.CollapseNewlinesOfRun | scripts/index_pdfs.mjs:13 | A run of newlines becomes two newlines when it has three or more and is kept as it is otherwise |
| Chunker.CollapseNewlinesSplit | scripts/index_pdfs.mjs:13 | Text cut where no newline run is split gives the two halves rewritten separately, joined |
| Chunker.CollapseNewlineRunBetween | scripts/index_pdfs.mjs:13 | A newline run between two pieces that do not touch it with newlines becomes two newlines when it has three or more, and is kept otherwise; the pieces are rewritten separately |
| Chunker.RemoveCarriageReturns | scripts/index_pdfs.mjs:11 | Every carriage return is removed and every other character is kept, in order |
| Chunker.Clean | scripts/index_pdfs.mjs:10-14 | The normalised text has no carriage return, no tab, no two consecutive spaces, no run of three newlines, and no whitespace at either end. Every non-whitespace character of the input is kept, in order |
| Chunker.CleanSeparatesWords | scripts/index_pdfs.mjs:10-14 | Two words (non-empty, with no whitespace) separated by any non-empty mix of spaces and tabs normalise to the two words with one space between them |
| Chunker.CleanKeepsParagraphBreak | scripts/index_pdfs.mjs:10-14 | Two words separated by newlines normalise to the words with two newlines between them when there were three or more, and with the same newlines otherwise |
| Chunker.CleanFixesClean | scripts/index_pdfs.mjs:10-14 | Text that already has those properties is left unchanged by normalisation |
| Chunker.CleanIdempotent | scripts/index_pdfs.mjs:10-14 | Normalising twice gives the same text as normalising once |
| Chunker.PageText | scripts/index_pdfs.mjs:34-35 | A page's text is normalised text whose only whitespace character is the space, and it keeps every non-whitespace character of the page's items, in order |
| Chunker.PageTextOfWords | scripts/index_pdfs.mjs:34-35 | When every item is a word, a page's text is the items joined with single spaces |
| Chunker.CleanKeepsPageText | scripts/index_pdfs.mjs:35 | `chunkText`'s normalisation leaves a page's extracted text unchanged |
| Chunker.Windows | scripts/index_pdfs.mjs:16-23 | There are no windows exactly when the text is empty. Window k is the slice from offset k times the step, ending `size` characters later or at the end of the text; a negative end counts back from the end of the text, as `slice` does. The last window starts before the end and the next offset would not. With a positive size each window has between 1 and size characters |
| Chunker.ChunkText | scripts/index_pdfs.mjs:9-23 | Empty normalised text gives no chunks whatever the size and overlap; otherwise the overlap must be smaller than the size, since the loop would not end. There are no chunks exactly when the normalised text is empty. With a positive size every chunk has between 1 and `size` characters. With a non-negative overlap, the first chunk followed by each later chunk without its first `overlap` characters is the normalised text |
| Chunker.ChunkIsWindow | scripts/index_pdfs.mjs:18-21 | Window k of a text is `text[k*step .. min(k*step + size, len))`, where `step` is the size less the overlap, and `k*step` lies inside the text |
| Chunker.ChunkCount | scripts/index_pdfs.mjs:18-22 | The number of chunks is the length divided by the step, rounded up |
| Chunker.StitchReconstructs | scripts/index_pdfs.mjs:16-23 | The chunks, each after the first shorn of the overlap it repeats, concatenate back to the normalised text |
| Chunker.TrailingChunkInsideOverlap | scripts/index_pdfs.mjs:18-21 | Text of 1001 to 1200 characters gives two chunks: the whole text, and its tail from position 1000, which lies inside the first chunk |
| Chunker.NegativeSizeCountsFromEnd | scripts/index_pdfs.mjs:18-21 | With size -5 and overlap -10, ten characters give the windows `abcde` and the empty string, because `slice` counts a negative end back from the end of the text |
| Rag.Dot | lib/rag.ts:19-23 | The sum of products over the positions of the first vector is non-negative when both arguments agree on those positions |
| Rag.ComputeDot | lib/rag.ts:19-23 | The accumulating loop returns the dot product |
| Rag.DotSymmetric | lib/rag.ts:19-23 | For vectors of equal length, `dot(a, b) = dot(b, a)` |
| Rag.DotPrefix | lib/rag.ts:19-23 | Positions of the second vector beyond the length of the first take no part in the product |
| Rag.DotSelfNonNegative | lib/rag.ts:19-26 | `dot(a, a) >= 0`, so `norm` takes the root of a non-negative number |
| Rag.Norm | lib/rag.ts:24-26 | The norm is non-negative |
| Rag.CosineSim | lib/rag.ts:27-29 | The similarity is positive, zero or negative exactly when the dot product is, because the guarded denominator is positive |
| Rag.CosineSymmetric | lib/rag.ts:27-29 | For vectors of equal length the similarity is symmetric |
| Rag.Ranking | lib/rag.ts:39 | The insertion sort lists each position exactly once, in descending score order, with ties in input order |
| Rag.RankingRanks | lib/rag.ts:39 | The insertion order is a stable descending ranking of all positions |
| Rag.RankingUnique | lib/rag.ts:39 | Any two stable descending rankings of the same scores are equal, so the result does not depend on the sort algorithm |
| Rag.PrefixDominates | lib/rag.ts:39-40 | A prefix of a ranking is itself sorted, and every position outside it scores no higher than any position in it |
| Rag.TopPositions | lib/rag.ts:39-40 | It returns as many positions as `slice(0, k)` keeps, all inside the input, in stable descending order. Every position left out comes after every position returned |
| Rag.RetrieveTopK | lib/rag.ts:37-41 | It returns `min(k, n)` entries for `k >= 0`. Each entry pairs an input chunk with its own score, the entries come from distinct positions, and scores do not increase along the output. Equal scores keep input order, and no chunk left out scores above a returned one |
| Ingest.PdfFiles | scripts/index_pdfs.mjs:51 | A name is kept exactly when it ends in `.pdf` in any letter case, and the result is no longer than the listing |
| Ingest.PdfFilesAppend | scripts/index_pdfs.mjs:51 | Filtering a listing is filtering its parts one after another, so the filter keeps listing order |
| Ingest.PdfFilesOne | scripts/index_pdfs.mjs:51 | A one-name listing keeps the name exactly when it is a PDF name, so repeated names are kept as often as they are listed |
| Ingest.DocId | scripts/index_pdfs.mjs:61 | A PDF name loses exactly its last four characters; any other name is kept whole |
| Ingest.CaseVariantsShareDocId | scripts/index_pdfs.mjs:51-61 | `a.pdf` and `a.PDF` are both processed and share a document id |
| Ingest.IdRoundTrip | scripts/index_pdfs.mjs:73 | A chunk id parses back into the document id, page and chunk index it was built from, even when the document id itself contains `::p` or `::c` |
| Ingest.ChunkIdInjective | scripts/index_pdfs.mjs:73 | Equal chunk ids come from equal document ids, pages and chunk indexes |
| Ingest.PageRecordIds | scripts/index_pdfs.mjs:71-80 | The id of record i of a page parses back into the page's document id, its page number and i, and no two records of a page share an id |
| Ingest.PageChunks | scripts/index_pdfs.mjs:68-69 | A page gives no chunks exactly when its normalised text is empty |
| Ingest.FileRecords | scripts/index_pdfs.mjs:66-83 | Every record is chunk idx of a non-empty page. Records come in strictly increasing page-then-chunk order, and every chunk of every non-empty page has a record |
| Ingest.RecordsOfFile | scripts/index_pdfs.mjs:59-83 | Every record of a file is one of its pages' chunks, in page-then-chunk order, and every chunk of every non-empty page is present |
| Ingest.RecordsFromFiles | scripts/index_pdfs.mjs:57-86 | Every record written belongs to one of the files |
| Ingest.AllRecordsAppend | scripts/index_pdfs.mjs:59-86 | The records of two lists of files are the records of the first followed by those of the second |
| Ingest.FileBlock | scripts/index_pdfs.mjs:59-86 | The records of file i form one block, after those of every earlier file and before those of every later one |
| Ingest.IdsUnique | scripts/index_pdfs.mjs:59-80 | When no two files share a document id, no two records share an id |
| Ingest.AllRecordsComplete | scripts/index_pdfs.mjs:59-83 | Every chunk of every non-empty page of every file has a record with its id, document id, file name, page, chunk index and text, and no embedding |
| Ingest.ExtractAll | scripts/index_pdfs.mjs:59-63 | When every file extracts, file i's pages are the page texts of its extraction. Otherwise the run fails naming a file whose extraction threw |
| Ingest.IndexWith | scripts/index_pdfs.mjs:45-91 | A missing folder and a folder without PDFs are errors, and a failed extraction names a listed PDF whose extraction threw. A written index carries `now`; its records are exactly the records of the extracted PDFs, in listing order, and each comes from a listed PDF with the document id of its file name, the id built from its parts, and no embedding. When there are PDFs and every one extracts, an index is written |
| Ingest.IndexPdfs | scripts/index_pdfs.mjs:41-91 | With the script's page text and chunker: a missing folder and a folder without PDFs are errors, a written index carries `now`, each record comes from a listed PDF and has 1 to 1200 characters, and record ids are distinct when the PDFs' document ids are |
| Embedder.BatchCount | scripts/embed_index.mjs:39-40 | The loop runs the least number of passes of 64 that covers all chunks |
| Embedder.Batch | scripts/embed_index.mjs:40-41 | Batch b holds 1 to 64 chunks, the ones from position `64*b` on, in order |
| Embedder.ConcatIsPrefix | scripts/embed_index.mjs:39-41 | The first m batches together are exactly the chunks before position `64*m` |
| Embedder.BatchesPartition | scripts/embed_index.mjs:39-41 | All batches taken in order give back every chunk exactly once, and each holds 1 to 64 chunks |
| Embedder.PositionInBatch | scripts/embed_index.mjs:40-47 | Chunk k is sent in batch `k / 64`, at position `k % 64` |
| Embedder.Texts | scripts/embed_index.mjs:42 | The texts sent are the batch's chunk texts, in order |
| Embedder.Request | scripts/embed_index.mjs:19-23 | A request names `text-embedding-3-small`, and its j-th input is the text of chunk `64*b + j`, one input per chunk of batch b |
| Embedder.FillBatch | scripts/embed_index.mjs:45-47 | The chunks of the batch get the vector at their position in it; every other chunk is unchanged |
| Embedder.StepFilled | scripts/embed_index.mjs:40-47 | After a pass, the chunks of every batch sent so far carry the vector for their position |
| Embedder.EmbedStep | scripts/embed_index.mjs:40-48 | A pass sends the next batch's request. When the provider answers, the chunks of that batch, added to those filled before, carry their vectors and later chunks are unchanged |
| Embedder.EmbedIndex | scripts/embed_index.mjs:27-53 | See the paragraph below this table |
| Ask.SourceLabel | app/api/ask/route.ts:60 | A label is `SOURCE ` followed by a number |
| Ask.LabelRoundTrip | app/api/ask/route.ts:98 | The number in the label of the i-th retrieved chunk reads back as `i + 1` |
| Ask.LabelsDistinct | app/api/ask/route.ts:98 | Two ranks get the same label exactly when they are equal |
| Ask.ExcerptHead | app/api/ask/route.ts:60-62 | An excerpt's first lines start and end with non-whitespace |
| Ask.SourceExcerpt | app/api/ask/route.ts:60-64 | An excerpt is non-empty and has no whitespace at either end. It keeps every non-whitespace character of its label, file name, page and chunk text, in order. When the chunk's text ends in a non-whitespace character, the excerpt is the whole template, text included |
| Ask.ExcerptBeginsWithHead | app/api/ask/route.ts:60-64 | An excerpt begins with its label, file name and page, whatever the chunk's text |
| Ask.SourceLine | app/api/ask/route.ts:70 | The line for rank i begins with that rank's `SOURCE i+1` label, and is a single line when the file name has no newline |
| Ask.SourceList | app/api/ask/route.ts:69-71 | The list of sources is empty exactly when nothing was retrieved |
| Ask.SourceListSnoc | app/api/ask/route.ts:69-71 | One more retrieved chunk adds a newline and that chunk's line at the end of the list |
| Ask.SourcesText | app/api/ask/route.ts:57-66 | The excerpts text is empty exactly when nothing was retrieved |
| Ask.SourcesTextSnoc | app/api/ask/route.ts:57-66 | One more retrieved chunk adds the `---` rule and that chunk's excerpt at the end |
| Ask.Prompt | app/api/ask/route.ts:81-87 | The untrimmed user message starts with `Question: ` and the question |
| Ask.UserContent | app/api/ask/route.ts:81-87 | With at least one source the trim removes nothing. A non-blank trimmed question is always at the start, after `Question: ` |
| Ask.PromptParts | app/api/ask/route.ts:81-87 | The list of sources and the excerpts both occur in the user message |
| Ask.ChatFor | app/api/ask/route.ts:74-90 | The request names `gpt-4o-mini` at temperature 0.2 and has two messages: the system prompt, then the user message built from the question and the retrieved chunks |
| Ask.CitationLabels | app/api/ask/route.ts:97-103 | No two citations share a label, and the number in citation i's label reads back as `i + 1` |
| Ask.CitedSourcesWereShown | app/api/ask/route.ts:57-87 | For every citation, its line in the list of sources and an excerpt head with the same label, file name and page occur in the user message |
| Ask.Reply | app/api/ask/route.ts:74-115 | The chat call is made once. A thrown call escapes the handler. Otherwise the status is 200 and the answer is the content, or `No answer.` when it is missing. `indexCreatedAt` is the index's, and citations are present exactly outside production |
| Ask.Serve | app/api/ask/route.ts:40-115 | The index is loaded first and the question embedded next. A missing index file or a throwing embeddings call ends the request with a crash. The response is 500 "Embedding failed" exactly when the provider returns no vector, and then no chat call follows. Given a vector, the chat call is made exactly when every chunk has an embedding, and otherwise the request crashes after the embedding call. Once the chat call is made, the route answers exactly when it returns, and crashes otherwise. When the route answers, the chat request is built from the chunks retrieved for the first vector |
| Ask.ServeAnswers | app/api/ask/route.ts:40-115 | When the index loads, every chunk is embedded, the query gets a non-empty vector and the chat call returns, the route answers. The calls are exactly: load the index, embed the question, then the chat request built from the retrieved chunks. The answer and `indexCreatedAt` are taken from the chat reply and the index |
| Ask.ChunkScore | lib/rag.ts:38 | A chunk with an embedding is scored by the similarity of the query and that embedding. Chunks without one do not matter to an answer: `Ask.Serve` makes the chat call only when every chunk has an embedding |
| Ask.RouteAnswers | app/api/ask/route.ts:32-115 | A present, non-blank question is answered whenever the index loads, is fully embedded, and both provider calls return. The chat request carries the system prompt, the trimmed question and the top six chunks by the similarity, and the answer is the reply's content, or "No answer." when it has none |
| Ask.Handle | app/api/ask/route.ts:32-38 | A question that is missing, or blank after trimming, gets 400 "Missing question" with no call at all. A non-string question throws. Otherwise the rest runs on the trimmed question |
| Ask.CitationsShownIn | app/api/ask/route.ts:97-113 | An answer whose citations are those of the chunks in its prompt cites only sources that prompt shows |
| Ask.AnswerCitesShownSources | app/api/ask/route.ts:54-113 | When the route answers outside production, it cites `min(6, n)` chunks, and each citation's line occurs in the user message sent to the chat model |

`Embedder.EmbedIndex` states the following:

- Without an API key it sends nothing and writes nothing.
- Requests go out as batches 0, 1, 2, …, and every request but the last was
  answered.
- A rejected request ends the run with nothing written.
- A completed run has sent every batch and keeps `createdAt`.
- After a completed run, chunk k differs from its input only in its
  embedding, which is vector `k % 64` of the answer to batch `k / 64`.
- An empty index needs no call and is written back unchanged.

## Left out

- PDF parsing (`extractTextByPage`'s use of pdfjs) is a parameter: the model starts from each page's text items.
- File system access, JSON parsing and writing, `process.exit` and logging are not modelled. A missing folder and an empty listing are error results. The listing order is taken as given.
- `sleep(150)` between batches only paces the calls and is left out.
- `SYSTEM_PROMPT`'s text is a parameter, since its effect on the chat model cannot be stated.
- `NextResponse` and HTTP plumbing are reduced to a status and a body. `NODE_ENV` becomes the `production` flag.
- Request bodies that are not JSON objects are left out. A `question` that is missing or null is `Absent`; one that is present but not a string is the single case `NotText`, and it throws.
- `loadEmbeddedIndex` is an `Option<Index>` parameter: `None` when reading or parsing throws.
- Text.Trim: whitespace is the fixed set of space, tab, newline, carriage return, vertical tab and form feed. JavaScript's `trim` and `\s` also cover Unicode spaces. Letter case in `.pdf` is ASCII only.
- Rag.CosineSim: floating point is not modelled. Scores are reals, the square root is any function that is non-negative on non-negative arguments, and the 1e-12 guard is the exact real.
- Rag.Dot: requires the first vector to be no longer than the second. In JavaScript a shorter second vector gives NaN, and the order a sort gives NaN scores is not modelled.
- Ask.Handle: the route's similarity is a `score` parameter rather than `Rag.CosineSim`, so nothing about floating-point ranking is claimed.
- Chunker.ChunkText: requires `overlap < size` when the normalised text is not empty. With a larger overlap the script never terminates on such text, and the model does not describe a run that does not end.
- Chunker.ChunkText: lengths count characters of the Dafny string, that is code points. JavaScript's `length` and `slice` count UTF-16 code units, so text outside the Basic Multilingual Plane is cut at different places.
- Chunker.Windows: window sizes and offsets count code points, not the UTF-16 code units JavaScript's `slice` counts; the two agree only for text inside the Basic Multilingual Plane.
- The check that each batch's answer has as many vectors as texts is not added, because the script does not make it. A missing vector leaves the chunk's embedding absent (`Embedder.FillBatch`).
- The sort is modelled by its result, the unique stable descending order, and not by the engine's algorithm.
