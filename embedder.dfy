/** `embed_rows` of apps/ai/preps/embedder.py: the captions of the CAPTIONED images are embedded
    in table order, and the k-th image id is paired with the k-th vector. The Firestore client
    the module opens is not part of this model. */
module Embedder {
  import opened Wrappers
  import PrepDb
  import Encoder

  /** One `{"image_id": ..., "vector": ...}` entry. */
  datatype EmbeddingEntry<V> = EmbeddingEntry(imageId: int, vector: V)

  /** The task type `embed_rows` passes to the encoder. */
  const EMBED_TASK_TYPE: string := "RETRIEVAL_DOCUMENT"

  /** `zip(image_ids, embeddings)`: pairs up to the shorter of the two lists. */
  function Zip<V>(ids: seq<int>, vectors: seq<V>): (r: seq<EmbeddingEntry<V>>)
    ensures |r| == if |ids| <= |vectors| then |ids| else |vectors|
    ensures forall k :: 0 <= k < |r| ==> r[k] == EmbeddingEntry(ids[k], vectors[k])
  {
    if ids == [] || vectors == [] then []
    else [EmbeddingEntry(ids[0], vectors[0])] + Zip(ids[1..], vectors[1..])
  }

  /** The captions of the rows, in row order. */
  function Captions(rows: seq<PrepDb.ImageRow>): (captions: seq<Option<string>>)
    ensures |captions| == |rows|
    ensures forall k :: 0 <= k < |rows| ==> captions[k] == rows[k].caption
  {
    seq(|rows|, k requires 0 <= k < |rows| => rows[k].caption)
  }

  /** The ids of the rows, in row order. */
  function ImageIds(rows: seq<PrepDb.ImageRow>): (ids: seq<int>)
    ensures |ids| == |rows|
    ensures forall k :: 0 <= k < |rows| ==> ids[k] == rows[k].imageId
  {
    seq(|rows|, k requires 0 <= k < |rows| => rows[k].imageId)
  }

  /** The vectors the encoder returns for the captions of the CAPTIONED rows. */
  function CaptionVectors<V>(rows: seq<PrepDb.ImageRow>, call: (seq<Option<string>>, nat, nat) -> Option<seq<V>>): (vectors: seq<V>)
    requires rows != []
    ensures Encoder.Embeddings(Captions(rows), EMBED_TASK_TYPE, Encoder.DEFAULT_BATCH_SIZE, call) == Success(vectors)
    ensures vectors == Encoder.EmbedBatches(Encoder.Chunks(Captions(rows), Encoder.DEFAULT_BATCH_SIZE, 0), 0, call)
  {
    var r := Encoder.Embeddings(Captions(rows), EMBED_TASK_TYPE, Encoder.DEFAULT_BATCH_SIZE, call);
    assert EMBED_TASK_TYPE == Encoder.VALID_TASK_TYPES[1];
    Encoder.EmbedFromBatches(Captions(rows), Encoder.DEFAULT_BATCH_SIZE, 0, call);
    r.value
  }

  /** `embed_rows` on the current table, with the embedding service as the oracle `call`. */
  function EmbedRows<V>(db: PrepDb.Store, call: (seq<Option<string>>, nat, nat) -> Option<seq<V>>): (r: seq<EmbeddingEntry<V>>)
    reads db
    ensures |r| <= |db.GetMemes(PrepDb.CAPTIONED)|
    ensures forall k :: 0 <= k < |r| ==>
      r[k].imageId == db.GetMemes(PrepDb.CAPTIONED)[k].imageId
      && db.GetMemes(PrepDb.CAPTIONED)[k].status == Some(PrepDb.CAPTIONED)
  {
    var targetRows := db.GetMemes(PrepDb.CAPTIONED);
    if targetRows == [] then []
    else
      assert forall k :: 0 <= k < |targetRows| ==> targetRows[k] in targetRows;
      Zip(ImageIds(targetRows), CaptionVectors(targetRows, call))
  }

  // ---------------------------------------------------------------------------------
  // Properties

  /** Without CAPTIONED rows the result is empty whatever the embedding service would answer:
      the encoder is not consulted. */
  lemma NothingCaptioned<V>(db: PrepDb.Store, call: (seq<Option<string>>, nat, nat) -> Option<seq<V>>)
    requires forall row :: row in db.images ==> row.status != Some(PrepDb.CAPTIONED)
    ensures EmbedRows(db, call) == []
  {
  }

  /** The k-th entry pairs the k-th CAPTIONED row's id with the k-th vector the encoder returns
      for the captions taken in the same row order with task type RETRIEVAL_DOCUMENT; there are
      as many entries as the shorter of the two lists. */
  lemma EntriesPairRows<V>(db: PrepDb.Store, call: (seq<Option<string>>, nat, nat) -> Option<seq<V>>)
    requires db.GetMemes(PrepDb.CAPTIONED) != []
    ensures var rows := db.GetMemes(PrepDb.CAPTIONED);
      var vectors := Encoder.EmbedFrom(Captions(rows), Encoder.DEFAULT_BATCH_SIZE, 0, call);
      var r := EmbedRows(db, call);
      && Encoder.Embeddings(Captions(rows), EMBED_TASK_TYPE, Encoder.DEFAULT_BATCH_SIZE, call) == Success(vectors)
      && |r| == (if |rows| <= |vectors| then |rows| else |vectors|)
      && forall k :: 0 <= k < |r| ==> r[k] == EmbeddingEntry(rows[k].imageId, vectors[k])
  {
    var rows := db.GetMemes(PrepDb.CAPTIONED);
    assert EMBED_TASK_TYPE == Encoder.VALID_TASK_TYPES[1];
    assert Captions(rows) != [];
  }

  /** With a service that returns one vector per caption, every row up to an aborted batch gets
      its entry and no later row does: the entries cover all CAPTIONED rows or a whole number
      of batches of 100. */
  lemma EntriesCoverWholeBatches<V>(db: PrepDb.Store, call: (seq<Option<string>>, nat, nat) -> Option<seq<V>>)
    requires Encoder.OnePerText(call)
    ensures var n := |EmbedRows(db, call)|;
      n == |db.GetMemes(PrepDb.CAPTIONED)| || n % Encoder.DEFAULT_BATCH_SIZE == 0
  {
    var rows := db.GetMemes(PrepDb.CAPTIONED);
    if rows != [] {
      EntriesPairRows(db, call);
      Encoder.WholeBatchesPrefix(Captions(rows), Encoder.DEFAULT_BATCH_SIZE, 0, call);
    }
  }
}
