/** Batched embedding with retry (`SyncManager._get_embeddings_batch`).  The service is a function from
    a text to its vector; which calls throw is decided by an oracle. */
module Embeddings {
  import opened Text

  type Embedding = seq<real>

  const MAX_RETRIES := 3

  datatype Failure = ServiceFailed | BadBatchSize | IndexError | DatabaseFailed

  function EmbedAll(embed: string -> Embedding, texts: seq<string>): (r: seq<Embedding>)
    ensures |r| == |texts|
  {
    seq(|texts|, i requires 0 <= i < |texts| => embed(texts[i]))
  }

  lemma EmbedAllAppend(embed: string -> Embedding, xs: seq<string>, ys: seq<string>)
    ensures EmbedAll(embed, xs + ys) == EmbedAll(embed, xs) + EmbedAll(embed, ys)
  {
  }

  /** Some attempt for the batch that starts at text `i` succeeds. */
  predicate Served(throws: (nat, nat) -> bool, i: nat) {
    exists attempt :: 0 <= attempt < MAX_RETRIES && !throws(i, attempt)
  }

  /** Every batch from text `i` on is served within its retries. */
  predicate AllServed(throws: (nat, nat) -> bool, batchSize: nat, i: nat, n: nat)
    requires batchSize > 0
    decreases n - i
  {
    i < n ==> Served(throws, i) && AllServed(throws, batchSize, i + batchSize, n)
  }

  /** All batches are served exactly if each of them, one at every multiple of the batch size, succeeds in one
      of three attempts. */
  lemma {:induction false} AllServedIff(throws: (nat, nat) -> bool, batchSize: nat, i: nat, n: nat)
    requires batchSize > 0 && i % batchSize == 0
    ensures AllServed(throws, batchSize, i, n)
       <==> forall j :: i <= j < n && j % batchSize == 0 ==> !throws(j, 0) || !throws(j, 1) || !throws(j, 2)
    decreases n - i
  {
    ServedIff(throws, i);
    if i < n {
      NextBatch(i, batchSize);
      AllServedIff(throws, batchSize, i + batchSize, n);
    }
  }

  lemma ServedIff(throws: (nat, nat) -> bool, i: nat)
    ensures Served(throws, i) <==> !throws(i, 0) || !throws(i, 1) || !throws(i, 2)
  {
  }

  /** Between two multiples there is none. */
  lemma NextBatch(i: nat, batchSize: nat)
    requires batchSize > 0 && i % batchSize == 0
    ensures (i + batchSize) % batchSize == 0
    ensures forall j :: i < j < i + batchSize ==> j % batchSize != 0
  {
    forall j | i < j < i + batchSize ensures j % batchSize != 0 {
      assert j == batchSize * (i / batchSize) + (j - i);
      Remainder(j, batchSize, i / batchSize, j - i);
    }
    Remainder(i + batchSize, batchSize, i / batchSize + 1, 0);
  }

  lemma Remainder(x: nat, d: nat, q: nat, r: nat)
    requires r < d && x == d * q + r
    ensures x % d == r
  {
    var q' := x / d;
    assert x == d * q' + x % d;
    Multiples(d, q + 1, q');
    Multiples(d, q' + 1, q);
  }

  lemma Multiples(d: nat, a: nat, b: nat)
    ensures a <= b ==> d * a <= d * b
  {
  }

  lemma BatchExtends<T>(xs: seq<T>, i: nat, size: nat)
    requires i < |xs|
    ensures xs[..i] + Slice(xs, i, i + size) == xs[..if i + size < |xs| then i + size else |xs|]
  {
  }

  /** The result is the embedding of each text in order if and only if no batch fails three times; a
      batch that does fails the whole call.  `range` rejects a zero step and is empty for a negative one. */
  method GetEmbeddingsBatch(texts: seq<string>, batchSize: int, embed: string -> Embedding,
                            throws: (nat, nat) -> bool) returns (r: Result<seq<Embedding>, Failure>)
    ensures batchSize > 0 ==>
              r == if AllServed(throws, batchSize, 0, |texts|) then Ok(EmbedAll(embed, texts))
                   else Err(ServiceFailed)
    ensures batchSize == 0 ==> r == Err(BadBatchSize)
    ensures batchSize < 0 ==> r == Ok([])
  {
    if batchSize == 0 {
      return Err(BadBatchSize);
    }
    var all: seq<Embedding> := [];
    var i := 0;
    while batchSize > 0 && i < |texts|
      invariant 0 <= i && (batchSize < 0 ==> i == 0)
      invariant all == EmbedAll(embed, texts[..if i < |texts| then i else |texts|])
      invariant batchSize > 0 ==>
                  AllServed(throws, batchSize, 0, |texts|) == AllServed(throws, batchSize, i, |texts|)
      decreases |texts| - i
    {
      var batch := Slice(texts, i, i + batchSize);
      var served := false;
      var attempt := 0;
      while attempt < MAX_RETRIES && !served
        invariant 0 <= attempt < MAX_RETRIES
        invariant served ==> Served(throws, i)
        invariant !served ==> forall a :: 0 <= a < attempt ==> throws(i, a)
        invariant all == EmbedAll(embed, texts[..i]) + if served then EmbedAll(embed, batch) else []
        decreases MAX_RETRIES - attempt, !served
      {
        if !throws(i, attempt) {
          all := all + EmbedAll(embed, batch);
          served := true;
        } else if attempt == MAX_RETRIES - 1 {
          return Err(ServiceFailed);
        } else {
          attempt := attempt + 1;
        }
      }
      EmbedAllAppend(embed, texts[..i], batch);
      BatchExtends(texts, i, batchSize);
      i := i + batchSize;
    }
    TakeAll(texts);
    return Ok(all);
  }
}
