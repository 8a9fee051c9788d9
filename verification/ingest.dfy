/** The indexing script's main loop: which files of the PDF folder it reads,
    the document id and chunk id it gives each chunk, and the flat list of
    chunk records it writes, in file, page and chunk order. */
module Ingest {
  import opened Common
  import opened Text
  import opened Chunker
  import opened Rag

  // ---------------------------------------------------------------------------
  // File names

  /** ASCII lower-casing of one character. */
  function LowerChar(c: char): (r: char)
    ensures 'A' <= c <= 'Z' ==> r as int == c as int + 32
    ensures !('A' <= c <= 'Z') ==> r == c
  {
    if 'A' <= c <= 'Z' then (c as int + 32) as char else c
  }

  /** The name ends in a dot followed by the letters p, d, f in either case. */
  predicate IsPdfName(f: String) {
    && |f| >= 4
    && f[|f| - 4] == '.'
    && LowerChar(f[|f| - 3]) == 'p'
    && LowerChar(f[|f| - 2]) == 'd'
    && LowerChar(f[|f| - 1]) == 'f'
  }

  /** The folder listing filtered down to the PDF files, in listing order. */
  function PdfFiles(listing: seq<String>): (r: seq<String>)
    ensures |r| <= |listing|
    ensures forall f :: f in r <==> f in listing && IsPdfName(f)
  {
    if |listing| == 0 then []
    else
      var rest := PdfFiles(listing[1..]);
      assert forall f :: f in listing <==> f == listing[0] || f in listing[1..];
      (if IsPdfName(listing[0]) then [listing[0]] else []) + rest
  }

  /** Filtering a listing is filtering its parts one after another: together
      with the membership clause above, the PDF names keep their listing
      order and their repetitions. */
  lemma {:induction false} PdfFilesAppend(xs: seq<String>, ys: seq<String>)
    ensures PdfFiles(xs + ys) == PdfFiles(xs) + PdfFiles(ys)
    decreases |xs|
  {
    if |xs| == 0 {
      assert xs + ys == ys;
    } else {
      assert (xs + ys)[1..] == xs[1..] + ys;
      PdfFilesAppend(xs[1..], ys);
    }
  }

  /** Filtering a single name keeps it exactly when it is a PDF name. */
  lemma PdfFilesOne(f: String)
    ensures PdfFiles([f]) == if IsPdfName(f) then [f] else []
  {
    assert [f][1..] == [];
  }

  /** The document id: the name without a final `.pdf` in any letter case;
      any other name is kept whole. */
  function DocId(f: String): (r: String)
    ensures IsPdfName(f) ==> |r| == |f| - 4 && r + f[|f| - 4..] == f
    ensures !IsPdfName(f) ==> r == f
  {
    if IsPdfName(f) then f[..|f| - 4] else f
  }

  /** The extension is matched without regard to case, so two files whose
      names differ only in the case of `.pdf` get the same document id. */
  lemma CaseVariantsShareDocId()
    ensures IsPdfName("a.pdf") && IsPdfName("a.PDF")
    ensures "a.pdf" != "a.PDF" && DocId("a.pdf") == DocId("a.PDF")
  {
    assert "a.pdf"[..1] == "a" && "a.PDF"[..1] == "a";
  }

  // ---------------------------------------------------------------------------
  // Chunk ids

  /** The chunk id: the document id, then `::p` and the page number, then
      `::c` and the chunk index. */
  function ChunkId(docId: String, page: nat, idx: nat): String {
    docId + "::p" + NatToString(page) + "::c" + NatToString(idx)
  }

  datatype IdParts = IdParts(docId: String, page: nat, chunkIndex: nat)

  /** The number of decimal digits at the end of `s`. */
  function TrailingDigits(s: String): (n: nat)
    ensures n <= |s|
    ensures forall i :: |s| - n <= i < |s| ==> IsDigit(s[i])
    ensures n < |s| ==> !IsDigit(s[|s| - n - 1])
  {
    if |s| > 0 && IsDigit(s[|s| - 1]) then TrailingDigits(s[..|s| - 1]) + 1 else 0
  }

  /** Splits a chunk id back into its document id, page and chunk index,
      reading the two numbers from the end so that a document id containing
      `::p` or `::c` does not confuse it. */
  function ParseChunkId(id: String): Option<IdParts> {
    var n2 := TrailingDigits(id);
    var head := id[..|id| - n2];
    if n2 == 0 || |head| < 3 || head[|head| - 3..] != "::c" then None
    else
      var mid := head[..|head| - 3];
      var n1 := TrailingDigits(mid);
      var front := mid[..|mid| - n1];
      if n1 == 0 || |front| < 3 || front[|front| - 3..] != "::p" then None
      else Some(IdParts(front[..|front| - 3], ParseNat(mid[|mid| - n1..]), ParseNat(id[|id| - n2..])))
  }

  /** The digits appended after a non-digit are exactly the trailing digits. */
  lemma {:induction false} TrailingDigitsAfter(x: String, ds: String)
    requires AllDigits(ds) && |x| > 0 && !IsDigit(x[|x| - 1])
    ensures TrailingDigits(x + ds) == |ds|
    decreases |ds|
  {
    if |ds| > 0 {
      var s := x + ds;
      assert s[..|s| - 1] == x + ds[..|ds| - 1];
      TrailingDigitsAfter(x, ds[..|ds| - 1]);
    } else {
      assert x + ds == x;
    }
  }

  /** A chunk id reads back as the document id, page and chunk index it
      was built from. */
  lemma IdRoundTrip(docId: String, page: nat, idx: nat)
    ensures ParseChunkId(ChunkId(docId, page, idx)) == Some(IdParts(docId, page, idx))
  {
    var p, c := NatToString(page), NatToString(idx);
    var mid := docId + "::p" + p;
    var id := mid + "::c" + c;
    TrailingDigitsAfter(mid + "::c", c);
    assert id[..|id| - |c|] == mid + "::c";
    assert id[|id| - |c|..] == c;
    TrailingDigitsAfter(docId + "::p", p);
    assert mid[..|mid| - |p|] == docId + "::p";
    assert mid[|mid| - |p|..] == p;
    ParseNatToString(page);
    ParseNatToString(idx);
  }

  /** Equal chunk ids have equal document ids, pages and chunk indexes. */
  lemma ChunkIdInjective(d1: String, p1: nat, c1: nat, d2: String, p2: nat, c2: nat)
    requires ChunkId(d1, p1, c1) == ChunkId(d2, p2, c2)
    ensures d1 == d2 && p1 == p2 && c1 == c2
  {
    IdRoundTrip(d1, p1, c1);
    IdRoundTrip(d2, p2, c2);
  }

  // ---------------------------------------------------------------------------
  // Records

  /** The records of one page: chunk idx of the page's text, with its id. */
  function PageRecords(docId: String, file: String, page: nat, chunks: seq<String>): (r: seq<Chunk>)
    ensures |r| == |chunks|
    ensures forall idx :: 0 <= idx < |r| ==>
              r[idx] == Chunk(ChunkId(docId, page, idx), docId, file, page, idx, chunks[idx], None)
  {
    seq(|chunks|, idx requires 0 <= idx < |chunks| =>
      Chunk(ChunkId(docId, page, idx), docId, file, page, idx, chunks[idx], None))
  }

  /** The records of a page carry distinct ids, and each id reads back as
      the document id, the page and the record's position. */
  lemma PageRecordIds(docId: String, file: String, page: nat, chunks: seq<String>)
    ensures var r := PageRecords(docId, file, page, chunks);
            forall i :: 0 <= i < |r| ==> ParseChunkId(r[i].id) == Some(IdParts(docId, page, i))
    ensures var r := PageRecords(docId, file, page, chunks);
            forall i, j :: 0 <= i < j < |r| ==> r[i].id != r[j].id
  {
    var r := PageRecords(docId, file, page, chunks);
    forall i | 0 <= i < |r|
      ensures ParseChunkId(r[i].id) == Some(IdParts(docId, page, i))
    {
      IdRoundTrip(docId, page, i);
    }
  }

  /** The chunks of a page's text, with the default size and overlap. */
  function PageChunks(text: String): (r: seq<String>)
    ensures r == [] <==> Clean(text) == []
    ensures forall k :: 0 <= k < |r| ==> 0 < |r[k]| <= ChunkSize
  {
    ChunkText(text, ChunkSize, Overlap)
  }

  /** `c` is a record the loop writes for file `file` whose page texts (page
      1 first) are `texts`, when `chunk` cuts a page's text into chunks: a
      page with text, one of that page's chunks, and the id built from the
      document id, page and chunk index. */
  predicate RecordOf(docId: String, file: String, texts: seq<String>, chunk: String -> seq<String>, c: Chunk) {
    && 1 <= c.page <= |texts|
    && texts[c.page - 1] != []
    && c.chunkIndex < |chunk(texts[c.page - 1])|
    && c == Chunk(ChunkId(docId, c.page, c.chunkIndex), docId, file, c.page, c.chunkIndex,
                  chunk(texts[c.page - 1])[c.chunkIndex], None)
  }

  /** Record `a` comes before record `b` in page, then chunk, order. */
  predicate KeyLess(a: Chunk, b: Chunk) {
    a.page < b.page || (a.page == b.page && a.chunkIndex < b.chunkIndex)
  }

  /** Some record is for page `page`, chunk `idx`. */
  predicate HasRecord(r: seq<Chunk>, page: nat, idx: nat) {
    exists k :: 0 <= k < |r| && r[k].page == page && r[k].chunkIndex == idx
  }

  /** The loop over the first `n` pages of one file: pages with empty text
      are skipped; every record written is one of a page's chunks; records
      come in strictly increasing page, then chunk, order; and every chunk of
      every page among the first `n` has its record. */
  function FileRecords(docId: String, file: String, texts: seq<String>, chunk: String -> seq<String>, n: nat): (r: seq<Chunk>)
    requires n <= |texts|
    ensures forall k :: 0 <= k < |r| ==> RecordOf(docId, file, texts, chunk, r[k]) && r[k].page <= n
    ensures forall a, b :: 0 <= a < b < |r| ==> KeyLess(r[a], r[b])
    ensures forall page, idx :: 0 <= idx && 1 <= page <= n && texts[page - 1] != [] && idx < |chunk(texts[page - 1])| ==>
              HasRecord(r, page, idx)
  {
    if n == 0 then []
    else
      var prev := FileRecords(docId, file, texts, chunk, n - 1);
      var text := texts[n - 1];
      var more := if text == [] then [] else PageRecords(docId, file, n, chunk(text));
      FileRecordsStep(docId, file, texts, chunk, n, prev, more);
      prev + more
  }

  lemma FileRecordsStep(docId: String, file: String, texts: seq<String>, chunk: String -> seq<String>, n: nat, prev: seq<Chunk>, more: seq<Chunk>)
    requires 1 <= n <= |texts|
    requires forall k :: 0 <= k < |prev| ==> RecordOf(docId, file, texts, chunk, prev[k]) && prev[k].page <= n - 1
    requires forall a, b :: 0 <= a < b < |prev| ==> KeyLess(prev[a], prev[b])
    requires forall page, idx :: 0 <= idx && 1 <= page <= n - 1 && texts[page - 1] != [] && idx < |chunk(texts[page - 1])| ==>
               HasRecord(prev, page, idx)
    requires more == if texts[n - 1] == [] then [] else PageRecords(docId, file, n, chunk(texts[n - 1]))
    ensures forall k :: 0 <= k < |prev + more| ==> RecordOf(docId, file, texts, chunk, (prev + more)[k]) && (prev + more)[k].page <= n
    ensures forall a, b :: 0 <= a < b < |prev + more| ==> KeyLess((prev + more)[a], (prev + more)[b])
    ensures forall page, idx :: 0 <= idx && 1 <= page <= n && texts[page - 1] != [] && idx < |chunk(texts[page - 1])| ==>
              HasRecord(prev + more, page, idx)
  {
    assert forall k :: 0 <= k < |more| ==> more[k].page == n && more[k].chunkIndex == k;
    assert forall k :: 0 <= k < |more| ==> RecordOf(docId, file, texts, chunk, more[k]);
    RecordsJoin(docId, file, texts, chunk, n, prev, more);
    OrderJoin(n, prev, more);
    CoverJoin(texts, chunk, n, prev, more);
  }

  lemma RecordsJoin(docId: String, file: String, texts: seq<String>, chunk: String -> seq<String>, n: nat, prev: seq<Chunk>, more: seq<Chunk>)
    requires forall k :: 0 <= k < |prev| ==> RecordOf(docId, file, texts, chunk, prev[k]) && prev[k].page <= n
    requires forall k :: 0 <= k < |more| ==> RecordOf(docId, file, texts, chunk, more[k]) && more[k].page <= n
    ensures forall k :: 0 <= k < |prev + more| ==> RecordOf(docId, file, texts, chunk, (prev + more)[k]) && (prev + more)[k].page <= n
  {
    var r := prev + more;
    forall k | 0 <= k < |r|
      ensures RecordOf(docId, file, texts, chunk, r[k]) && r[k].page <= n
    {
      if k < |prev| {
        assert r[k] == prev[k];
      } else {
        assert r[k] == more[k - |prev|];
      }
    }
  }

  lemma OrderJoin(n: nat, prev: seq<Chunk>, more: seq<Chunk>)
    requires forall k :: 0 <= k < |prev| ==> prev[k].page < n
    requires forall a, b :: 0 <= a < b < |prev| ==> KeyLess(prev[a], prev[b])
    requires forall k :: 0 <= k < |more| ==> more[k].page == n && more[k].chunkIndex == k
    ensures forall a, b :: 0 <= a < b < |prev + more| ==> KeyLess((prev + more)[a], (prev + more)[b])
  {
    var r := prev + more;
    forall a, b | 0 <= a < b < |r|
      ensures KeyLess(r[a], r[b])
    {
      if b < |prev| {
        assert r[a] == prev[a] && r[b] == prev[b];
      } else if a < |prev| {
        assert r[a] == prev[a] && r[b] == more[b - |prev|];
      } else {
        assert r[a] == more[a - |prev|] && r[b] == more[b - |prev|];
      }
    }
  }

  lemma CoverJoin(texts: seq<String>, chunk: String -> seq<String>, n: nat, prev: seq<Chunk>, more: seq<Chunk>)
    requires 1 <= n <= |texts|
    requires forall page, idx :: 0 <= idx && 1 <= page <= n - 1 && texts[page - 1] != [] && idx < |chunk(texts[page - 1])| ==>
               HasRecord(prev, page, idx)
    requires texts[n - 1] != [] ==> |more| == |chunk(texts[n - 1])|
    requires forall k :: 0 <= k < |more| ==> more[k].page == n && more[k].chunkIndex == k
    ensures forall page, idx :: 0 <= idx && 1 <= page <= n && texts[page - 1] != [] && idx < |chunk(texts[page - 1])| ==>
              HasRecord(prev + more, page, idx)
  {
    var r := prev + more;
    forall page, idx | 0 <= idx && 1 <= page <= n && texts[page - 1] != [] && idx < |chunk(texts[page - 1])|
      ensures HasRecord(r, page, idx)
    {
      if page < n {
        assert HasRecord(prev, page, idx);
        var k :| 0 <= k < |prev| && prev[k].page == page && prev[k].chunkIndex == idx;
        assert r[k] == prev[k];
      } else {
        assert r[|prev| + idx] == more[idx];
      }
    }
  }

  /** A PDF file with the cleaned text of each of its pages, page 1 first. */
  datatype SourceFile = SourceFile(name: String, pages: seq<String>)

  /** All records of one file. */
  function RecordsOfFile(f: SourceFile, chunk: String -> seq<String>): (r: seq<Chunk>)
    ensures forall k :: 0 <= k < |r| ==> InFile(f, chunk, r[k])
    ensures forall a, b :: 0 <= a < b < |r| ==> KeyLess(r[a], r[b])
    ensures forall page, idx :: 0 <= idx && 1 <= page <= |f.pages| && f.pages[page - 1] != [] && idx < |chunk(f.pages[page - 1])| ==>
              HasRecord(r, page, idx)
  {
    FileRecords(DocId(f.name), f.name, f.pages, chunk, |f.pages|)
  }

  /** `c` is one of the records written for file `f`. */
  predicate InFile(f: SourceFile, chunk: String -> seq<String>, c: Chunk) {
    RecordOf(DocId(f.name), f.name, f.pages, chunk, c)
  }

  /** `c` is one of the records written for some file of `files`. */
  predicate InSomeFile(files: seq<SourceFile>, chunk: String -> seq<String>, c: Chunk) {
    exists i :: 0 <= i < |files| && InFile(files[i], chunk, c)
  }

  /** `f` applied to each of `xs`, the results one after another. */
  function Flatten<A, B>(xs: seq<A>, f: A -> seq<B>): seq<B> {
    if |xs| == 0 then [] else f(xs[0]) + Flatten(xs[1..], f)
  }

  lemma {:induction false} FlattenAppend<A, B>(xs: seq<A>, ys: seq<A>, f: A -> seq<B>)
    ensures Flatten(xs + ys, f) == Flatten(xs, f) + Flatten(ys, f)
    decreases |xs|
  {
    if |xs| > 0 {
      FlattenAppend(xs[1..], ys, f);
      assert (xs + ys)[1..] == xs[1..] + ys;
      assert (xs + ys)[0] == xs[0];
    } else {
      assert xs + ys == ys;
    }
  }

  /** The records of all files, file by file in the order given. */
  function AllRecords(files: seq<SourceFile>, chunk: String -> seq<String>): seq<Chunk> {
    Flatten(files, (f: SourceFile) => RecordsOfFile(f, chunk))
  }

  /** Each record of `AllRecords` is one written for one of the files. */
  lemma {:induction false} RecordsFromFiles(files: seq<SourceFile>, chunk: String -> seq<String>)
    ensures forall k :: 0 <= k < |AllRecords(files, chunk)| ==> InSomeFile(files, chunk, AllRecords(files, chunk)[k])
  {
    if |files| > 0 {
      RecordsFromFiles(files[1..], chunk);
      AllRecordsStep(files, chunk, RecordsOfFile(files[0], chunk), AllRecords(files[1..], chunk));
    }
  }

  lemma AllRecordsStep(files: seq<SourceFile>, chunk: String -> seq<String>, first: seq<Chunk>, rest: seq<Chunk>)
    requires |files| > 0
    requires forall k :: 0 <= k < |first| ==> InFile(files[0], chunk, first[k])
    requires forall k :: 0 <= k < |rest| ==> InSomeFile(files[1..], chunk, rest[k])
    ensures forall k :: 0 <= k < |first + rest| ==> InSomeFile(files, chunk, (first + rest)[k])
  {
    var r := first + rest;
    forall k | 0 <= k < |r|
      ensures InSomeFile(files, chunk, r[k])
    {
      if k < |first| {
        assert r[k] == first[k];
        assert InFile(files[0], chunk, r[k]);
      } else {
        assert r[k] == rest[k - |first|];
        var i :| 0 <= i < |files| - 1 && InFile(files[1..][i], chunk, rest[k - |first|]);
        assert files[1..][i] == files[i + 1];
        assert InFile(files[i + 1], chunk, r[k]);
      }
    }
  }

  /** The records of file i form one block, after those of every earlier
      file and before those of every later one. */
  lemma {:induction false} FileBlock(files: seq<SourceFile>, chunk: String -> seq<String>, i: nat)
    requires i < |files|
    ensures AllRecords(files, chunk)
            == AllRecords(files[..i], chunk) + RecordsOfFile(files[i], chunk) + AllRecords(files[i + 1..], chunk)
  {
    var after := [files[i]] + files[i + 1..];
    assert files == files[..i] + after;
    AllRecordsAppend(files[..i], after, chunk);
    assert after[1..] == files[i + 1..];
  }

  /** Every chunk of every page with text of every file has its record among
      all the records: the loop leaves nothing out. */
  lemma AllRecordsComplete(files: seq<SourceFile>, chunk: String -> seq<String>, i: nat, page: nat, idx: nat)
    requires i < |files| && 1 <= page <= |files[i].pages| && files[i].pages[page - 1] != []
    requires idx < |chunk(files[i].pages[page - 1])|
    ensures var d := DocId(files[i].name);
            exists k :: 0 <= k < |AllRecords(files, chunk)| &&
              AllRecords(files, chunk)[k]
                == Chunk(ChunkId(d, page, idx), d, files[i].name, page, idx, chunk(files[i].pages[page - 1])[idx], None)
  {
    var block := RecordsOfFile(files[i], chunk);
    assert HasRecord(block, page, idx);
    var k :| 0 <= k < |block| && block[k].page == page && block[k].chunkIndex == idx;
    assert InFile(files[i], chunk, block[k]);
    FileBlock(files, chunk, i);
    var before := AllRecords(files[..i], chunk);
    assert AllRecords(files, chunk)[|before| + k] == block[k];
  }

  /** The records of two lists of files, one after the other, are the
      records of the first list followed by those of the second. */
  lemma AllRecordsAppend(xs: seq<SourceFile>, ys: seq<SourceFile>, chunk: String -> seq<String>)
    ensures AllRecords(xs + ys, chunk) == AllRecords(xs, chunk) + AllRecords(ys, chunk)
  {
    FlattenAppend(xs, ys, (f: SourceFile) => RecordsOfFile(f, chunk));
  }

  lemma AllRecordsCons(files: seq<SourceFile>, chunk: String -> seq<String>)
    requires |files| > 0
    ensures AllRecords(files, chunk) == RecordsOfFile(files[0], chunk) + AllRecords(files[1..], chunk)
  {
  }

  /** When no two files share a document id, every chunk id is unique. */
  lemma {:induction false} IdsUnique(files: seq<SourceFile>, chunk: String -> seq<String>)
    requires forall i, j :: 0 <= i < j < |files| ==> DocId(files[i].name) != DocId(files[j].name)
    ensures forall a, b :: 0 <= a < b < |AllRecords(files, chunk)| ==>
              AllRecords(files, chunk)[a].id != AllRecords(files, chunk)[b].id
  {
    if |files| > 0 {
      var first := RecordsOfFile(files[0], chunk);
      var rest := AllRecords(files[1..], chunk);
      IdsUnique(files[1..], chunk);
      RecordsFromFiles(files[1..], chunk);
      var r := first + rest;
      assert r == AllRecords(files, chunk);
      forall a, b | 0 <= a < b < |r|
        ensures r[a].id != r[b].id
      {
        if b < |first| {
          assert r[a] == first[a] && r[b] == first[b];
          IdsDiffer(first[a], first[b]);
        } else if a < |first| {
          var y := rest[b - |first|];
          assert r[a] == first[a] && r[b] == y;
          var i :| 0 <= i < |files| - 1 && InFile(files[1..][i], chunk, y);
          assert files[1..][i] == files[i + 1];
          assert y.docId == DocId(files[i + 1].name);
          IdsDiffer(first[a], y);
        } else {
          assert r[a] == rest[a - |first|] && r[b] == rest[b - |first|];
        }
      }
    }
  }

  /** Records whose document id, page or chunk index differ have different ids. */
  lemma IdsDiffer(x: Chunk, y: Chunk)
    requires x.id == ChunkId(x.docId, x.page, x.chunkIndex)
    requires y.id == ChunkId(y.docId, y.page, y.chunkIndex)
    requires x.docId != y.docId || KeyLess(x, y)
    ensures x.id != y.id
  {
    if x.id == y.id {
      ChunkIdInjective(x.docId, x.page, x.chunkIndex, y.docId, y.page, y.chunkIndex);
    }
  }

  // ---------------------------------------------------------------------------
  // The whole run

  datatype IngestError =
    | MissingFolder                 // the PDF folder does not exist
    | NoPdfs                        // no file name in it ends in `.pdf`
    | ExtractionFailed(file: String) // reading the PDF's text threw

  /** Extracts every file in order; the first failure stops the run. Each
      page's text items are turned into the page's text by `pageText`
      (`PageText` in the script). */
  function ExtractAll(files: seq<String>, extract: String -> Option<seq<seq<String>>>,
                      pageText: seq<String> -> String)
    : (r: Result<seq<SourceFile>, IngestError>)
    ensures r.Ok? ==> |r.value| == |files|
    ensures r.Ok? ==> forall i :: 0 <= i < |files| ==>
              extract(files[i]).Some? && r.value[i].name == files[i]
              && |r.value[i].pages| == |extract(files[i]).value|
              && forall p :: 0 <= p < |r.value[i].pages| ==> r.value[i].pages[p] == pageText(extract(files[i]).value[p])
    ensures r.Err? ==> r.error.ExtractionFailed? && r.error.file in files && extract(r.error.file).None?
    ensures (forall i :: 0 <= i < |files| ==> extract(files[i]).Some?) ==> r.Ok?
  {
    if |files| == 0 then Ok([])
    else
      match extract(files[0])
      case None => Err(ExtractionFailed(files[0]))
      case Some(raw) =>
        var pages := seq(|raw|, p requires 0 <= p < |raw| => pageText(raw[p]));
        match ExtractAll(files[1..], extract, pageText)
        case Err(e) => Err(e)
        case Ok(rest) =>
          var r := [SourceFile(files[0], pages)] + rest;
          assert forall i :: 1 <= i < |files| ==> r[i] == rest[i - 1] && files[i] == files[1..][i - 1];
          Ok(r)
  }

  /** `c` is a record of a PDF file named in `names`: its document id comes
      from its file name, its id from its document id, page and chunk index,
      and it has no embedding yet. */
  predicate ListedRecord(names: seq<String>, c: Chunk) {
    && c.filename in names && IsPdfName(c.filename) && c.docId == DocId(c.filename)
    && c.id == ChunkId(c.docId, c.page, c.chunkIndex) && c.embedding == None
  }

  lemma RecordsListed(names: seq<String>, sources: seq<SourceFile>, chunk: String -> seq<String>, chunks: seq<Chunk>)
    requires forall i :: 0 <= i < |sources| ==> sources[i].name in names && IsPdfName(sources[i].name)
    requires forall k :: 0 <= k < |chunks| ==> InSomeFile(sources, chunk, chunks[k])
    ensures forall k :: 0 <= k < |chunks| ==> ListedRecord(names, chunks[k])
  {
    forall k | 0 <= k < |chunks|
      ensures ListedRecord(names, chunks[k])
    {
      RecordListed(names, sources, chunk, chunks[k]);
    }
  }

  lemma RecordListed(names: seq<String>, sources: seq<SourceFile>, chunk: String -> seq<String>, c: Chunk)
    requires forall i :: 0 <= i < |sources| ==> sources[i].name in names && IsPdfName(sources[i].name)
    requires InSomeFile(sources, chunk, c)
    ensures ListedRecord(names, c)
  {
    var i :| 0 <= i < |sources| && InFile(sources[i], chunk, c);
  }

  /** One run of the indexing script over the folder listing `listing`
      (absent when the folder is missing), with `extract` giving each PDF's
      text items page by page, `pageText` joining a page's items into its
      text, `chunk` cutting a page's text into chunks and `now` the time the
      index is written. The index holds the records of all PDF files in
      listing order, none of them with an embedding yet. */
  function IndexWith(listing: Option<seq<String>>, extract: String -> Option<seq<seq<String>>>, now: String,
                     pageText: seq<String> -> String, chunk: String -> seq<String>)
    : (r: Result<Index, IngestError>)
    ensures listing.None? ==> r == Err(MissingFolder)
    ensures listing.Some? && PdfFiles(listing.value) == [] ==> r == Err(NoPdfs)
    ensures r.Err? && r.error.ExtractionFailed? ==>
              listing.Some? && r.error.file in listing.value && IsPdfName(r.error.file) && extract(r.error.file).None?
    ensures r.Ok? ==> listing.Some? && r.value.createdAt == now
    ensures r.Ok? ==> forall k :: 0 <= k < |r.value.chunks| ==> ListedRecord(listing.value, r.value.chunks[k])
    ensures r.Ok? ==> exists sources ::
              && ExtractAll(PdfFiles(listing.value), extract, pageText) == Ok(sources)
              && r.value.chunks == AllRecords(sources, chunk)
    ensures (listing.Some? && PdfFiles(listing.value) != []
             && forall f :: f in PdfFiles(listing.value) ==> extract(f).Some?) ==> r.Ok?
  {
    match listing
    case None => Err(MissingFolder)
    case Some(names) =>
      var files := PdfFiles(names);
      if files == [] then Err(NoPdfs)
      else
        match ExtractAll(files, extract, pageText)
        case Err(e) => Err(e)
        case Ok(sources) =>
          var chunks := AllRecords(sources, chunk);
          assert forall i :: 0 <= i < |sources| ==> sources[i].name in files;
          RecordsFromFiles(sources, chunk);
          RecordsListed(names, sources, chunk, chunks);
          Ok(Index(now, chunks))
  }

  /** No two of `files` have the same document id. */
  predicate DistinctDocIds(files: seq<String>) {
    forall i, j :: 0 <= i < j < |files| ==> DocId(files[i]) != DocId(files[j])
  }

  /** The script as written: page texts from `PageText`, chunks of 1200
      characters overlapping by 200. Besides what `IndexWith` promises, every
      chunk written holds 1 to 1200 characters, and no two records share an
      id when no two PDF files share a document id. */
  function IndexPdfs(listing: Option<seq<String>>, extract: String -> Option<seq<seq<String>>>, now: String)
    : (r: Result<Index, IngestError>)
    ensures listing.None? ==> r == Err(MissingFolder)
    ensures listing.Some? && PdfFiles(listing.value) == [] ==> r == Err(NoPdfs)
    ensures r.Ok? ==> r.value.createdAt == now
    ensures r.Ok? ==> forall k :: 0 <= k < |r.value.chunks| ==>
              ListedRecord(listing.value, r.value.chunks[k]) && 0 < |r.value.chunks[k].text| <= ChunkSize
    ensures r.Ok? && DistinctDocIds(PdfFiles(listing.value)) ==>
              forall a, b :: 0 <= a < b < |r.value.chunks| ==> r.value.chunks[a].id != r.value.chunks[b].id
  {
    var r := IndexWith(listing, extract, now, PageText, PageChunks);
    if r.Ok? then
      var sources :| ExtractAll(PdfFiles(listing.value), extract, PageText) == Ok(sources)
                     && r.value.chunks == AllRecords(sources, PageChunks);
      ScriptRecords(PdfFiles(listing.value), sources);
      r
    else r
  }

  /** The records of the extracted files, with the script's chunker, hold
      1 to 1200 characters each, and their ids are distinct when the files'
      document ids are. */
  lemma ScriptRecords(files: seq<String>, sources: seq<SourceFile>)
    requires |sources| == |files| && forall i :: 0 <= i < |files| ==> sources[i].name == files[i]
    ensures forall k :: 0 <= k < |AllRecords(sources, PageChunks)| ==>
              0 < |AllRecords(sources, PageChunks)[k].text| <= ChunkSize
    ensures DistinctDocIds(files) ==>
              forall a, b :: 0 <= a < b < |AllRecords(sources, PageChunks)| ==>
                AllRecords(sources, PageChunks)[a].id != AllRecords(sources, PageChunks)[b].id
  {
    var rs := AllRecords(sources, PageChunks);
    RecordsFromFiles(sources, PageChunks);
    forall k | 0 <= k < |rs|
      ensures 0 < |rs[k].text| <= ChunkSize
    {
      assert InSomeFile(sources, PageChunks, rs[k]);
      var i :| 0 <= i < |sources| && InFile(sources[i], PageChunks, rs[k]);
      assert rs[k].text == PageChunks(sources[i].pages[rs[k].page - 1])[rs[k].chunkIndex];
    }
    if DistinctDocIds(files) {
      IdsUnique(sources, PageChunks);
    }
  }
}
