/** The embedding script: it sends the chunk texts of the index to the
    embedding provider in batches of 64 and writes each returned vector into
    the chunk it belongs to. */
module Embedder {
  import opened Common
  import opened Text
  import opened Rag

  /** Chunks per provider request. */
  const BatchSize: int := 64

  /** The model every request names. */
  const EmbeddingModel: String := "text-embedding-3-small"

  /** One `embeddings.create` request. */
  datatype EmbedRequest = EmbedRequest(model: String, input: seq<String>)

  // ---------------------------------------------------------------------------
  // Batches

  /** The number of passes of the batching loop over `n` chunks: the least
      count of batches of 64 that covers them all. */
  function BatchCount(n: nat): (c: nat)
    ensures BatchSize * c >= n
    ensures c > 0 ==> BatchSize * (c - 1) < n
  {
    (n + BatchSize - 1) / BatchSize
  }

  /** Where batch `b` ends: 64 places after its start, or at the end of the chunks. */
  function BatchEnd(n: nat, b: nat): (e: nat)
    ensures e <= n
    ensures BatchSize * b < n ==> BatchSize * b < e <= BatchSize * b + BatchSize
    ensures e < n ==> e == BatchSize * b + BatchSize
  {
    if BatchSize * b + BatchSize < n then BatchSize * b + BatchSize else n
  }

  /** The chunks of pass `b`: up to 64 of them, from position `64 * b` on. */
  function Batch<T>(xs: seq<T>, b: nat): (r: seq<T>)
    requires b < BatchCount(|xs|)
    ensures 0 < |r| <= BatchSize
    ensures BatchSize * b + |r| <= |xs|
    ensures forall j {:trigger r[j]} :: 0 <= j < |r| ==> r[j] == xs[BatchSize * b + j]
  {
    xs[BatchSize * b .. BatchEnd(|xs|, b)]
  }

  /** The first `m` batches, one after another. */
  function Concat<T>(xs: seq<T>, m: nat): seq<T>
    requires m <= BatchCount(|xs|)
  {
    if m == 0 then [] else Concat(xs, m - 1) + Batch(xs, m - 1)
  }

  /** The first `m` batches are exactly the chunks before position `64 * m`
      (or all of them, at the end). */
  lemma {:induction false} ConcatIsPrefix<T>(xs: seq<T>, m: nat)
    requires m <= BatchCount(|xs|)
    ensures Concat(xs, m) == xs[..if BatchSize * m < |xs| then BatchSize * m else |xs|]
    decreases m
  {
    if m > 0 {
      ConcatIsPrefix(xs, m - 1);
      var before := Concat(xs, m - 1);
      assert before == xs[..BatchSize * (m - 1)];
      assert before + Batch(xs, m - 1) == xs[..BatchEnd(|xs|, m - 1)];
    }
  }

  /** The batches partition the chunks: taken in order they give back every
      chunk exactly once, and each holds between 1 and 64 chunks. */
  lemma BatchesPartition<T>(xs: seq<T>)
    ensures Concat(xs, BatchCount(|xs|)) == xs
    ensures forall b :: 0 <= b < BatchCount(|xs|) ==> 0 < |Batch(xs, b)| <= BatchSize
  {
    var c := BatchCount(|xs|);
    ConcatIsPrefix(xs, c);
  }

  /** Chunk `k` travels in batch `k / 64`, at position `k % 64` of it. */
  lemma PositionInBatch<T>(xs: seq<T>, k: nat)
    requires k < |xs|
    ensures k / BatchSize < BatchCount(|xs|)
    ensures k % BatchSize < |Batch(xs, k / BatchSize)|
    ensures Batch(xs, k / BatchSize)[k % BatchSize] == xs[k]
  {
    var b := k / BatchSize;
    assert BatchSize * b + k % BatchSize == k;
  }

  // ---------------------------------------------------------------------------
  // The embedding pass

  /** The texts of the chunks, in order. */
  function Texts(cs: seq<Chunk>): (r: seq<String>)
    ensures |r| == |cs|
    ensures forall j :: 0 <= j < |cs| ==> r[j] == cs[j].text
  {
    if cs == [] then [] else [cs[0].text] + Texts(cs[1..])
  }

  /** The request for batch `b` of the chunks. */
  function Request(cs: seq<Chunk>, b: nat): (q: EmbedRequest)
    requires b < BatchCount(|cs|)
    ensures q.model == EmbeddingModel
    ensures |q.input| == |Batch(cs, b)|
    ensures forall j :: 0 <= j < |q.input| ==> q.input[j] == cs[BatchSize * b + j].text
  {
    EmbedRequest(EmbeddingModel, Texts(Batch(cs, b)))
  }

  /** The j-th vector of an answer: absent when the provider returned fewer
      vectors than it was sent texts. */
  function VectorAt(vs: seq<Vector>, j: nat): (r: Option<Vector>)
    ensures j < |vs| ==> r == Some(vs[j])
    ensures j >= |vs| ==> r == None
  {
    if j < |vs| then Some(vs[j]) else None
  }

  /** Writes the answer's vectors into the batch occupying positions `start`
      to `end`, the j-th vector into the batch's j-th chunk. */
  method FillBatch(cs: seq<Chunk>, start: nat, end: nat, embeddings: seq<Vector>) returns (r: seq<Chunk>)
    requires start <= end <= |cs|
    ensures |r| == |cs|
    ensures forall k :: 0 <= k < |cs| && !(start <= k < end) ==> r[k] == cs[k]
    ensures forall k :: start <= k < end ==> r[k] == cs[k].(embedding := VectorAt(embeddings, k - start))
  {
    r := cs;
    var j := 0;
    while j < end - start
      invariant 0 <= j <= end - start
      invariant |r| == |cs|
      invariant forall k :: 0 <= k < |cs| && !(start <= k < start + j) ==> r[k] == cs[k]
      invariant forall k :: start <= k < start + j ==> r[k] == cs[k].(embedding := VectorAt(embeddings, k - start))
    {
      r := r[start + j := r[start + j].(embedding := VectorAt(embeddings, j))];
      j := j + 1;
    }
  }

  /** Positions `64 * b` to `64 * b + 63` form batch `b`. */
  lemma SameBatch(k: int, b: nat)
    requires BatchSize * b <= k < BatchSize * b + BatchSize
    ensures k / BatchSize == b && k % BatchSize == k - BatchSize * b
  {
  }

  /** The requests `sent` are the first batches in order, and the provider
      answered each of them. */
  predicate AllAnswered(orig: seq<Chunk>, provider: EmbedRequest -> Option<seq<Vector>>,
                        sent: seq<EmbedRequest>)
  {
    && |sent| <= BatchCount(|orig|)
    && (forall b :: 0 <= b < |sent| ==> sent[b] == Request(orig, b) && provider(sent[b]).Some?)
  }

  /** The chunks of the batches in `sent` carry the vectors the provider
      returned for them. */
  predicate Filled(orig: seq<Chunk>, provider: EmbedRequest -> Option<seq<Vector>>,
                   cs: seq<Chunk>, sent: seq<EmbedRequest>)
    requires |cs| == |orig|
  {
    forall k :: 0 <= k < |orig| && k < BatchSize * |sent| ==>
      && k / BatchSize < |sent|
      && provider(sent[k / BatchSize]).Some?
      && cs[k] == orig[k].(embedding := VectorAt(provider(sent[k / BatchSize]).value, k % BatchSize))
  }

  /** The chunks after the batches in `sent` are as they were read. */
  predicate Untouched(orig: seq<Chunk>, cs: seq<Chunk>, sent: seq<EmbedRequest>)
    requires |cs| == |orig|
  {
    forall k :: BatchSize * |sent| <= k < |orig| ==> cs[k] == orig[k]
  }

  /** What the loop has achieved once the requests `sent` have all been
      answered: they are the first batches in order, the chunks of those
      batches carry their vectors, and the later chunks are untouched. */
  predicate Progress(orig: seq<Chunk>, provider: EmbedRequest -> Option<seq<Vector>>,
                     cs: seq<Chunk>, sent: seq<EmbedRequest>)
  {
    && |cs| == |orig|
    && AllAnswered(orig, provider, sent)
    && Filled(orig, provider, cs, sent)
    && Untouched(orig, cs, sent)
  }

  /** Sending the next batch, answered, extends the answered requests. */
  lemma StepAnswered(orig: seq<Chunk>, provider: EmbedRequest -> Option<seq<Vector>>,
                     sent: seq<EmbedRequest>)
    requires AllAnswered(orig, provider, sent)
    requires BatchSize * |sent| < |orig|
    requires provider(Request(orig, |sent|)).Some?
    ensures AllAnswered(orig, provider, sent + [Request(orig, |sent|)])
  {
    var sent' := sent + [Request(orig, |sent|)];
    forall c | 0 <= c < |sent'|
      ensures sent'[c] == Request(orig, c) && provider(sent'[c]).Some?
    {
      if c < |sent| {
        assert sent'[c] == sent[c];
      }
    }
  }

  /** Writing the vectors of the next batch into its chunks extends the filled
      prefix by that batch. */
  lemma StepFilled(orig: seq<Chunk>, provider: EmbedRequest -> Option<seq<Vector>>,
                   cs: seq<Chunk>, sent: seq<EmbedRequest>, cs': seq<Chunk>, vs: seq<Vector>)
    requires |cs| == |orig| && |cs'| == |cs|
    requires Filled(orig, provider, cs, sent) && Untouched(orig, cs, sent)
    requires BatchSize * |sent| < |orig|
    requires provider(Request(orig, |sent|)) == Some(vs)
    requires forall k :: 0 <= k < BatchSize * |sent| ==> cs'[k] == cs[k]
    requires forall k :: BatchSize * |sent| <= k < BatchEnd(|orig|, |sent|) ==>
               cs'[k] == cs[k].(embedding := VectorAt(vs, k - BatchSize * |sent|))
    ensures Filled(orig, provider, cs', sent + [Request(orig, |sent|)])
  {
    var b := |sent|;
    var sent' := sent + [Request(orig, b)];
    assert BatchEnd(|orig|, b) == |orig| || BatchEnd(|orig|, b) == BatchSize * |sent'|;
    forall k | 0 <= k < |orig| && k < BatchSize * |sent'|
      ensures k / BatchSize < |sent'|
      ensures provider(sent'[k / BatchSize]).Some?
      ensures cs'[k] == orig[k].(embedding := VectorAt(provider(sent'[k / BatchSize]).value, k % BatchSize))
    {
      if k < BatchSize * b {
        assert cs'[k] == cs[k];
        assert sent'[k / BatchSize] == sent[k / BatchSize];
      } else {
        SameBatch(k, b);
        assert cs[k] == orig[k];
      }
    }
  }

  /** Positions past the next batch keep their chunks. */
  lemma StepUntouched(orig: seq<Chunk>, cs: seq<Chunk>, sent: seq<EmbedRequest>, cs': seq<Chunk>)
    requires |cs| == |orig| && |cs'| == |cs|
    requires Untouched(orig, cs, sent)
    requires BatchSize * |sent| < |orig|
    requires forall k :: BatchEnd(|orig|, |sent|) <= k < |cs| ==> cs'[k] == cs[k]
    ensures Untouched(orig, cs', sent + [Request(orig, |sent|)])
  {
    var b := |sent|;
    assert BatchEnd(|orig|, b) == |orig| || BatchEnd(|orig|, b) == BatchSize * (b + 1);
  }

  /** One pass of the loop: slice the next batch, send its texts, and write
      the vectors back; `ok` is false when the provider rejected the request. */
  method EmbedStep(orig: seq<Chunk>, provider: EmbedRequest -> Option<seq<Vector>>,
                   cs: seq<Chunk>, sent: seq<EmbedRequest>)
    returns (cs': seq<Chunk>, sent': seq<EmbedRequest>, ok: bool)
    requires Progress(orig, provider, cs, sent)
    requires BatchSize * |sent| < |orig|
    ensures sent' == sent + [Request(orig, |sent|)]
    ensures ok <==> provider(Request(orig, |sent|)).Some?
    ensures ok ==> Progress(orig, provider, cs', sent')
  {
    var n := |cs|;
    var b := |sent|;
    var i := BatchSize * b;
    var end := if i + BatchSize < n then i + BatchSize else n;
    var slice := cs[i..end];
    assert slice == Batch(orig, b);
    var request := EmbedRequest(EmbeddingModel, Texts(slice));
    sent' := sent + [request];
    var response := provider(request);
    if response.None? {
      return cs, sent', false;
    }
    cs' := FillBatch(cs, i, end, response.value);
    ok := true;
    StepAnswered(orig, provider, sent);
    StepFilled(orig, provider, cs, sent, cs', response.value);
    StepUntouched(orig, cs, sent, cs');
  }

  /** The script's run. Without an API key it stops before reading anything.
      Otherwise it sends the batches in order; the first request the provider
      rejects (`None`) ends the run with nothing written. When every request
      succeeds, chunk `k` carries vector `k % 64` of the answer to batch
      `k / 64` and is otherwise unchanged, and `createdAt` is kept from the
      index that was read. */
  method EmbedIndex(hasKey: bool, index: Index, provider: EmbedRequest -> Option<seq<Vector>>)
    returns (out: Option<Index>, sent: seq<EmbedRequest>)
    ensures !hasKey ==> out == None && sent == []
    ensures |sent| <= BatchCount(|index.chunks|)
    ensures forall b :: 0 <= b < |sent| ==> sent[b] == Request(index.chunks, b)
    ensures forall b :: 0 <= b < |sent| - 1 ==> provider(sent[b]).Some?
    ensures hasKey && out.None? ==> 0 < |sent| && provider(sent[|sent| - 1]).None?
    ensures out.Some? ==> hasKey && |sent| == BatchCount(|index.chunks|)
    ensures out.Some? ==> out.value.createdAt == index.createdAt
    ensures out.Some? ==> Progress(index.chunks, provider, out.value.chunks, sent)
    ensures hasKey && index.chunks == [] ==> out == Some(index) && sent == []
  {
    if !hasKey {
      return None, [];
    }
    var chunks := index.chunks;
    sent := [];
    var i := 0;
    while i < |chunks|
      invariant i == BatchSize * |sent|
      invariant Progress(index.chunks, provider, chunks, sent)
      decreases |chunks| - i
    {
      var ok;
      chunks, sent, ok := EmbedStep(index.chunks, provider, chunks, sent);
      if !ok {
        return None, sent;
      }
      i := i + BatchSize;
    }
    out := Some(Index(index.createdAt, chunks));
  }
}
