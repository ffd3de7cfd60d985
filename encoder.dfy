/** `generate_embedding_gemini` of apps/ai/utils/encoder_gemini.py: the texts are sent to the
    embedding service in consecutive batches, each batch is tried at most three times, and the
    first batch that fails every attempt ends the run with the vectors gathered so far.

    The embedding service is an oracle: `call(chunk, chunkIndex, attempt)` is its answer to
    attempt number `attempt` (from 0) on the batch `chunk` with index `chunkIndex`, either the
    vectors it returned or None when the call raised. Vectors are opaque values of type V; the
    texts are of type T. */
module Encoder {
  import opened Wrappers
  import opened Arith

  /** Retries after the first attempt: three attempts in all. */
  const MAX_RETRIES: nat := 2

  /** The task types the service accepts. */
  const VALID_TASK_TYPES: seq<string> := ["RETRIEVAL_QUERY", "RETRIEVAL_DOCUMENT"]

  /** The default of the `task_type` parameter, which the validity check rejects. */
  const DEFAULT_TASK_TYPE: string := "retrieval_document"

  /** The default of the `batch_size` parameter. */
  const DEFAULT_BATCH_SIZE: nat := 100

  /** The ValueError raised for a task type that is not accepted. */
  datatype EncodeError = InvalidTaskType(taskType: string)

  /** `texts[i : i + batch_size]`: the batch that starts at i, shorter at the end. */
  function Chunk<T>(texts: seq<T>, i: nat, batchSize: nat): (chunk: seq<T>)
    requires i <= |texts| && batchSize >= 1
    ensures |chunk| <= batchSize
    ensures i < |texts| ==> chunk != []
    ensures i + |chunk| <= |texts|
    ensures |chunk| < batchSize ==> i + |chunk| == |texts|
    ensures forall k :: 0 <= k < |chunk| ==> chunk[k] == texts[i + k]
  {
    texts[i..if i + batchSize <= |texts| then i + batchSize else |texts|]
  }

  /** The answer to the attempts from `attempt` on for one batch: the first attempt that
      succeeds, or None when every attempt up to MAX_RETRIES fails. */
  function BatchResult<T, V>(call: (seq<T>, nat, nat) -> Option<seq<V>>, chunk: seq<T>, chunkIndex: nat, attempt: nat): (r: Option<seq<V>>)
    ensures r.Some? ==> exists a: nat :: attempt <= a <= MAX_RETRIES && call(chunk, chunkIndex, a) == r
    ensures attempt <= MAX_RETRIES && call(chunk, chunkIndex, attempt).Some? ==> r == call(chunk, chunkIndex, attempt)
    decreases MAX_RETRIES + 1 - attempt
  {
    if attempt > MAX_RETRIES then None
    else
      match call(chunk, chunkIndex, attempt)
      case Some(vectors) => Some(vectors)
      case None => BatchResult(call, chunk, chunkIndex, attempt + 1)
  }

  /** The vectors gathered from the batch starting at i to the end, stopping at the first
      batch whose attempts all fail. */
  function EmbedFrom<T, V>(texts: seq<T>, batchSize: nat, i: nat, call: (seq<T>, nat, nat) -> Option<seq<V>>): (r: seq<V>)
    requires batchSize >= 1
    ensures i >= |texts| ==> r == []
    ensures i < |texts| && BatchResult(call, Chunk(texts, i, batchSize), i / batchSize, 0).Some? ==>
      BatchResult(call, Chunk(texts, i, batchSize), i / batchSize, 0).value <= r
    decreases |texts| - i
  {
    if i >= |texts| then []
    else
      match BatchResult(call, Chunk(texts, i, batchSize), i / batchSize, 0)
      case None => []
      case Some(vectors) => vectors + EmbedFrom(texts, batchSize, i + batchSize, call)
  }

  /** What `generate_embedding_gemini` returns or raises. */
  function Embeddings<T, V>(texts: seq<T>, taskType: string, batchSize: nat, call: (seq<T>, nat, nat) -> Option<seq<V>>): (r: Result<seq<V>, EncodeError>)
    requires batchSize >= 1
    ensures texts == [] ==> r == Success([])
    ensures r.Failure? ==> texts != [] && taskType !in VALID_TASK_TYPES && r.error == InvalidTaskType(taskType)
  {
    if texts == [] then Success([])
    else if taskType !in VALID_TASK_TYPES then Failure(InvalidTaskType(taskType))
    else Success(EmbedFrom(texts, batchSize, 0, call))
  }

  /** `generate_embedding_gemini`: validation, then the loop over batches; a batch whose
      attempts all fail ends the run with the vectors gathered so far. */
  method GenerateEmbedding<T, V>(texts: seq<T>, taskType: string, batchSize: nat, call: (seq<T>, nat, nat) -> Option<seq<V>>)
    returns (r: Result<seq<V>, EncodeError>)
    requires batchSize >= 1
    ensures r == Embeddings(texts, taskType, batchSize, call)
  {
    if texts == [] {
      return Success([]);
    }
    if taskType !in VALID_TASK_TYPES {
      return Failure(InvalidTaskType(taskType));
    }
    assert Embeddings(texts, taskType, batchSize, call) == Success(EmbedFrom(texts, batchSize, 0, call));
    var allEmbeddings: seq<V> := [];
    var i := 0;
    while i < |texts|
      invariant allEmbeddings + EmbedFrom(texts, batchSize, i, call) == EmbedFrom(texts, batchSize, 0, call)
      decreases |texts| - i
    {
      var result := NextBatch(texts, batchSize, i, call);
      if result.None? {
        AbortKeepsEarlier(texts, batchSize, i, call);
        assert allEmbeddings + [] == allEmbeddings;
        return Success(allEmbeddings);
      }
      SuccessContinues(texts, batchSize, i, call, allEmbeddings, result.value);
      allEmbeddings := allEmbeddings + result.value;
      i := i + batchSize;
    }
    assert EmbedFrom(texts, batchSize, i, call) == [];
    assert allEmbeddings + [] == allEmbeddings;
    r := Success(allEmbeddings);
  }

  /** The batch at position i, `texts[i : i + batch_size]` numbered `i // batch_size`, sent
      with its retries. */
  method NextBatch<T, V>(texts: seq<T>, batchSize: nat, i: nat, call: (seq<T>, nat, nat) -> Option<seq<V>>)
    returns (result: Option<seq<V>>)
    requires batchSize >= 1 && i < |texts|
    ensures result == BatchResult(call, Chunk(texts, i, batchSize), i / batchSize, 0)
  {
    var chunk := Chunk(texts, i, batchSize);
    var chunkIndex := i / batchSize;
    result := TryBatch(chunk, chunkIndex, call);
  }

  /** The retry loop for one batch: attempts 0, 1 and 2, stopping at the first that
      succeeds. */
  method TryBatch<T, V>(chunk: seq<T>, chunkIndex: nat, call: (seq<T>, nat, nat) -> Option<seq<V>>)
    returns (result: Option<seq<V>>)
    ensures result == BatchResult(call, chunk, chunkIndex, 0)
  {
    var attempt := 0;
    while attempt <= MAX_RETRIES
      invariant attempt <= MAX_RETRIES + 1
      invariant BatchResult(call, chunk, chunkIndex, attempt) == BatchResult(call, chunk, chunkIndex, 0)
    {
      var answer := call(chunk, chunkIndex, attempt);
      if answer.Some? {
        return answer;
      }
      attempt := attempt + 1;
    }
    return None;
  }

  // ---------------------------------------------------------------------------------
  // Properties

  /** An empty text list gives no vectors, whatever the task type, even an invalid one: the
      emptiness check comes before the task-type check. */
  lemma EmptyTextsFirst<T, V>(taskType: string, batchSize: nat, call: (seq<T>, nat, nat) -> Option<seq<V>>)
    requires batchSize >= 1
    ensures Embeddings([], taskType, batchSize, call) == Success([])
  {
  }

  /** A non-empty text list is rejected exactly when the task type is not one of the two
      accepted ones; the lower-case default is among the rejected ones. */
  lemma TaskTypeChecked<T, V>(texts: seq<T>, taskType: string, batchSize: nat, call: (seq<T>, nat, nat) -> Option<seq<V>>)
    requires batchSize >= 1 && texts != []
    ensures Embeddings(texts, taskType, batchSize, call).Failure? <==>
      taskType != "RETRIEVAL_QUERY" && taskType != "RETRIEVAL_DOCUMENT"
    ensures Embeddings(texts, DEFAULT_TASK_TYPE, batchSize, call) == Failure(InvalidTaskType(DEFAULT_TASK_TYPE))
  {
    assert DEFAULT_TASK_TYPE[0] != VALID_TASK_TYPES[0][0];
    assert DEFAULT_TASK_TYPE[0] != VALID_TASK_TYPES[1][0];
  }

  /** The batches in the order they are sent, from position i on. */
  function Chunks<T>(texts: seq<T>, batchSize: nat, i: nat): (cs: seq<seq<T>>)
    requires batchSize >= 1
    ensures i >= |texts| <==> cs == []
    ensures i < |texts| ==> cs[0] == Chunk(texts, i, batchSize)
    decreases |texts| - i
  {
    if i >= |texts| then [] else [Chunk(texts, i, batchSize)] + Chunks(texts, batchSize, i + batchSize)
  }

  /** The run over a list of batches numbered from `index`: each batch with its retries, the
      first batch whose attempts all fail ending the run. */
  function EmbedBatches<T, V>(cs: seq<seq<T>>, index: nat, call: (seq<T>, nat, nat) -> Option<seq<V>>): (r: seq<V>)
    ensures cs == [] ==> r == []
    ensures cs != [] && BatchResult(call, cs[0], index, 0).Some? ==> BatchResult(call, cs[0], index, 0).value <= r
  {
    if cs == [] then []
    else
      match BatchResult(call, cs[0], index, 0)
      case None => []
      case Some(vectors) => vectors + EmbedBatches(cs[1..], index + 1, call)
  }

  /** The batches `generate_embedding_gemini` sends are exactly `Chunks`, numbered from 0:
      the run from batch j on is the run over the batches from position j * batch_size. */
  lemma {:induction false} EmbedFromBatches<T, V>(texts: seq<T>, batchSize: nat, j: nat, call: (seq<T>, nat, nat) -> Option<seq<V>>)
    requires batchSize >= 1
    ensures EmbedFrom(texts, batchSize, j * batchSize, call) == EmbedBatches(Chunks(texts, batchSize, j * batchSize), j, call)
    decreases |texts| - j * batchSize
  {
    var i := j * batchSize;
    if i < |texts| {
      BatchIndex(j, j, batchSize);
      var cs := Chunks(texts, batchSize, i);
      assert cs[1..] == Chunks(texts, batchSize, (j + 1) * batchSize);
      EmbedFromBatches(texts, batchSize, j + 1, call);
    }
  }

  function Concat<T>(cs: seq<seq<T>>): seq<T> {
    if cs == [] then [] else cs[0] + Concat(cs[1..])
  }

  /** The batches are consecutive slices that together are the texts. */
  lemma {:induction false} ChunksCover<T>(texts: seq<T>, batchSize: nat, i: nat)
    requires batchSize >= 1 && i <= |texts|
    ensures Concat(Chunks(texts, batchSize, i)) == texts[i..]
    decreases |texts| - i
  {
    if i < |texts| {
      var c := Chunk(texts, i, batchSize);
      if i + batchSize > |texts| {
        assert Chunks(texts, batchSize, i + batchSize) == [];
        assert c == texts[i..];
        assert Concat(Chunks(texts, batchSize, i)) == c + [];
      } else {
        ChunksCover(texts, batchSize, i + batchSize);
        assert texts[i..] == c + texts[i + batchSize..];
      }
    }
  }

  /** Every batch but the last holds exactly batch_size texts, and none is empty. */
  lemma {:induction false} ChunksShape<T>(texts: seq<T>, batchSize: nat, i: nat)
    requires batchSize >= 1 && i <= |texts|
    ensures forall k :: 0 <= k < |Chunks(texts, batchSize, i)| ==> Chunks(texts, batchSize, i)[k] != []
    ensures forall k :: 0 <= k < |Chunks(texts, batchSize, i)| - 1 ==> |Chunks(texts, batchSize, i)[k]| == batchSize
    decreases |texts| - i
  {
    if i < |texts| {
      var cs := Chunks(texts, batchSize, i);
      if i + batchSize > |texts| {
        assert Chunks(texts, batchSize, i + batchSize) == [];
        assert |cs| == 1;
      } else {
        ChunksShape(texts, batchSize, i + batchSize);
        var rest := Chunks(texts, batchSize, i + batchSize);
        assert cs == [Chunk(texts, i, batchSize)] + rest;
        assert forall k :: 1 <= k < |cs| ==> cs[k] == rest[k - 1];
      }
    }
  }

  /** A batch is tried at most MAX_RETRIES + 1 = 3 times: it fails exactly when attempts 0, 1
      and 2 all fail, and otherwise yields the answer of its first successful attempt. */
  lemma BatchAttempts<T, V>(call: (seq<T>, nat, nat) -> Option<seq<V>>, chunk: seq<T>, chunkIndex: nat)
    ensures BatchResult(call, chunk, chunkIndex, 0).None? <==>
      call(chunk, chunkIndex, 0).None? && call(chunk, chunkIndex, 1).None? && call(chunk, chunkIndex, 2).None?
    ensures BatchResult(call, chunk, chunkIndex, 0).Some? ==> exists a: nat :: (a <= MAX_RETRIES
      && BatchResult(call, chunk, chunkIndex, 0) == call(chunk, chunkIndex, a)
      && forall b: nat :: b < a ==> call(chunk, chunkIndex, b).None?)
  {
    assert BatchResult(call, chunk, chunkIndex, 3) == None;
    if call(chunk, chunkIndex, 0).Some? {
      assert BatchResult(call, chunk, chunkIndex, 0) == call(chunk, chunkIndex, 0);
    } else if call(chunk, chunkIndex, 1).Some? {
      assert BatchResult(call, chunk, chunkIndex, 0) == call(chunk, chunkIndex, 1);
    } else if call(chunk, chunkIndex, 2).Some? {
      assert BatchResult(call, chunk, chunkIndex, 0) == call(chunk, chunkIndex, 2);
    }
  }

  /** A batch that fails all its attempts ends the run: from there on nothing more is
      gathered, so the result is what the earlier batches gave. */
  lemma AbortKeepsEarlier<T, V>(texts: seq<T>, batchSize: nat, i: nat, call: (seq<T>, nat, nat) -> Option<seq<V>>)
    requires batchSize >= 1 && i < |texts|
    requires BatchResult(call, Chunk(texts, i, batchSize), i / batchSize, 0).None?
    ensures EmbedFrom(texts, batchSize, i, call) == []
  {
  }

  /** After a batch that succeeds, the loop goes on with the next batch. */
  lemma SuccessContinues<T, V>(texts: seq<T>, batchSize: nat, i: nat, call: (seq<T>, nat, nat) -> Option<seq<V>>,
      earlier: seq<V>, vectors: seq<V>)
    requires batchSize >= 1 && i < |texts|
    requires BatchResult(call, Chunk(texts, i, batchSize), i / batchSize, 0) == Some(vectors)
    ensures earlier + EmbedFrom(texts, batchSize, i, call)
      == (earlier + vectors) + EmbedFrom(texts, batchSize, i + batchSize, call)
  {
    var rest := EmbedFrom(texts, batchSize, i + batchSize, call);
    assert EmbedFrom(texts, batchSize, i, call) == vectors + rest;
    assert (earlier + vectors) + rest == earlier + (vectors + rest);
  }

  /** Oracles that agree on every batch with index up to k. */
  ghost predicate AgreeUpTo<T(!new), V>(c1: (seq<T>, nat, nat) -> Option<seq<V>>, c2: (seq<T>, nat, nat) -> Option<seq<V>>, k: nat) {
    forall chunk: seq<T>, chunkIndex: nat, attempt: nat :: chunkIndex <= k ==>
      c1(chunk, chunkIndex, attempt) == c2(chunk, chunkIndex, attempt)
  }

  /** No later batch is tried: when batch number k fails all its attempts, the answers the
      service would give to later batches do not change the result, from any batch j on. */
  lemma {:induction false} LaterBatchesUntried<T(!new), V>(texts: seq<T>, batchSize: nat, j: nat, k: nat,
      c1: (seq<T>, nat, nat) -> Option<seq<V>>, c2: (seq<T>, nat, nat) -> Option<seq<V>>)
    requires batchSize >= 1 && j <= k && k * batchSize < |texts|
    requires BatchResult(c1, Chunk(texts, k * batchSize, batchSize), k, 0).None?
    requires AgreeUpTo(c1, c2, k)
    ensures EmbedFrom(texts, batchSize, j * batchSize, c1) == EmbedFrom(texts, batchSize, j * batchSize, c2)
    decreases k - j
  {
    var i := j * batchSize;
    BatchIndex(j, k, batchSize);
    var chunk := Chunk(texts, i, batchSize);
    BatchAgrees(c1, c2, chunk, j, k, 0);
    if j < k && BatchResult(c1, chunk, j, 0).Some? {
      LaterBatchesUntried(texts, batchSize, j + 1, k, c1, c2);
    }
  }

  /** Arithmetic of batch starts: batch j starts at j * batch_size, and batch j + 1 right
      after it. */
  lemma BatchIndex(j: nat, k: nat, batchSize: nat)
    requires batchSize >= 1 && j <= k
    ensures (j * batchSize) / batchSize == j
    ensures j * batchSize + batchSize == (j + 1) * batchSize
    ensures j * batchSize <= k * batchSize
  {
    MulDivExact(j, batchSize);
    MulMonotone(j, k, batchSize);
  }

  lemma {:induction false} BatchAgrees<T(!new), V>(c1: (seq<T>, nat, nat) -> Option<seq<V>>, c2: (seq<T>, nat, nat) -> Option<seq<V>>,
      chunk: seq<T>, chunkIndex: nat, k: nat, attempt: nat)
    requires AgreeUpTo(c1, c2, k) && chunkIndex <= k
    ensures BatchResult(c1, chunk, chunkIndex, attempt) == BatchResult(c2, chunk, chunkIndex, attempt)
    decreases MAX_RETRIES + 1 - attempt
  {
    if attempt <= MAX_RETRIES {
      assert c1(chunk, chunkIndex, attempt) == c2(chunk, chunkIndex, attempt);
      BatchAgrees(c1, c2, chunk, chunkIndex, k, attempt + 1);
    }
  }

  /** An oracle that answers every successful call with one vector per text of the batch. */
  ghost predicate OnePerText<T(!new), V>(call: (seq<T>, nat, nat) -> Option<seq<V>>) {
    forall chunk: seq<T>, chunkIndex: nat, attempt: nat :: call(chunk, chunkIndex, attempt).Some? ==>
      |call(chunk, chunkIndex, attempt).value| == |chunk|
  }

  lemma {:induction false} BatchOnePerText<T(!new), V>(call: (seq<T>, nat, nat) -> Option<seq<V>>, chunk: seq<T>, chunkIndex: nat, attempt: nat)
    requires OnePerText(call)
    ensures BatchResult(call, chunk, chunkIndex, attempt).Some? ==> |BatchResult(call, chunk, chunkIndex, attempt).value| == |chunk|
    decreases MAX_RETRIES + 1 - attempt
  {
    if attempt <= MAX_RETRIES && call(chunk, chunkIndex, attempt).None? {
      BatchOnePerText(call, chunk, chunkIndex, attempt + 1);
    }
  }

  /** With one vector per text, the vectors belong to a prefix of the texts made of whole
      batches: never more vectors than texts, and a short result stops at a batch boundary. */
  lemma {:induction false} WholeBatchesPrefix<T(!new), V>(texts: seq<T>, batchSize: nat, i: nat, call: (seq<T>, nat, nat) -> Option<seq<V>>)
    requires batchSize >= 1 && OnePerText(call) && i <= |texts|
    ensures |EmbedFrom(texts, batchSize, i, call)| <= |texts| - i
    ensures |EmbedFrom(texts, batchSize, i, call)| < |texts| - i ==>
      |EmbedFrom(texts, batchSize, i, call)| % batchSize == 0
    decreases |texts| - i
  {
    if i < |texts| {
      var chunk := Chunk(texts, i, batchSize);
      var b := BatchResult(call, chunk, i / batchSize, 0);
      if b.Some? {
        BatchOnePerText(call, chunk, i / batchSize, 0);
        var rest := EmbedFrom(texts, batchSize, i + batchSize, call);
        var n := |rest|;
        assert |EmbedFrom(texts, batchSize, i, call)| == |chunk| + n;
        if i + batchSize <= |texts| {
          WholeBatchesPrefix(texts, batchSize, i + batchSize, call);
          assert |chunk| == batchSize;
          if n < |texts| - i - batchSize {
            ModShift(n, batchSize);
          }
        } else {
          assert n == 0;
        }
      }
    }
  }
}
