/**
 * The parts of the Firestore client the migrator touches, as opaque values:
 * document snapshots, and a write batch that records what was staged on it
 * and how often it was committed. Validation, atomicity and the network are
 * outside the model.
 */
module Firestore {
  import opened JsValues

  /** A document reference, named by its path. */
  datatype DocRef = DocRef(path: string)

  /** A query document snapshot: its reference and an opaque handle on its contents. */
  datatype Snapshot = Snapshot(ref: DocRef, contents: nat)

  /** One staged `WriteBatch.update` call. */
  datatype StagedWrite =
      /** `batch.update(ref, updateData)` */
    | UpdateData(ref: DocRef, data: JsValue)
      /** `batch.update(ref, field, value)` */
    | UpdateField(ref: DocRef, field: JsValue, value: JsValue)

  /** A write batch: the updates staged on it, in call order, and the number of `commit` calls. */
  datatype WriteBatch = WriteBatch(staged: seq<StagedWrite>, commits: nat)

  /** `firestore.batch()`: a fresh batch. */
  function NewBatch(): WriteBatch {
    WriteBatch([], 0)
  }

  /** `batch.update(...)`: appends one staged write. */
  function Stage(b: WriteBatch, w: StagedWrite): WriteBatch {
    b.(staged := b.staged + [w])
  }

  /** `batch.commit()`: records one commit. */
  function Commit(b: WriteBatch): WriteBatch {
    b.(commits := b.commits + 1)
  }
}
