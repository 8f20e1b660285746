/**
 * `CollectionMigrator.update`: resolve the call shape once, create one write
 * batch, walk every document of every page the traversal delivers staging at
 * most one update per document, then commit that batch once.
 *
 * The traversal engine is an input: the pages it delivers, in delivery order,
 * and the `(batchCount, docCount)` pair it reports.
 */
module Migrator {
  import opened Wrappers
  import opened JsValues
  import opened Firestore
  import opened Signature

  /** What the JavaScript functions passed to `update` return: `invoke(id, s)` is function `id` applied to `s`. */
  type Invoke = (nat, Snapshot) -> JsValue

  /** The TypeError raised by `predicate?.(snapshot)` when `predicate` is neither nullish nor callable. */
  datatype UpdateError = PredicateNotCallable(pred: JsValue)

  /** What the traversal delivers and reports. */
  datatype Traversal = Traversal(pages: seq<seq<Snapshot>>, batchCount: nat, docCount: nat)

  /** `{ batchCount, updatedDocCount }` */
  datatype UpdateResult = UpdateResult(batchCount: nat, updatedDocCount: nat)

  /** The settled result of one `update` call together with the write batch it used. */
  datatype UpdateRun = UpdateRun(outcome: Result<UpdateResult, UpdateError>, batch: WriteBatch)

  /** A predicate argument that `predicate?.(snapshot)` can evaluate without throwing. */
  predicate Usable(pred: JsValue) {
    IsNullish(pred) || IsCallable(pred)
  }

  /** The pages concatenated: every document the traversal visits, in visiting order. */
  function Flatten(pages: seq<seq<Snapshot>>): seq<Snapshot> {
    if |pages| == 0 then [] else pages[0] + Flatten(pages[1..])
  }

  /** A traversal whose counts describe the pages it delivered. */
  predicate Consistent(t: Traversal) {
    t.batchCount == |t.pages| && t.docCount == |Flatten(t.pages)|
  }

  /**
   * `predicate?.(snapshot) ?? true` followed by a truthiness test: no predicate
   * admits every document, a predicate returning `true` admits, one returning
   * `false` rejects, one returning a nullish value admits, any other return
   * value admits exactly when it is truthy, and a non-callable predicate throws.
   */
  function ShouldUpdate(pred: JsValue, invoke: Invoke, d: Snapshot): (r: Result<bool, UpdateError>)
    ensures r.Failure? <==> !Usable(pred)
    ensures r.Failure? ==> r.error == PredicateNotCallable(pred)
    ensures IsNullish(pred) ==> r == Success(true)
    ensures pred.Function? && !IsNullish(invoke(pred.id, d)) ==> r == Success(Truthy(invoke(pred.id, d)))
    ensures pred.Function? && IsNullish(invoke(pred.id, d)) ==> r == Success(true)
  {
    if IsNullish(pred) then
      Success(true)
    else if pred.Function? then
      var verdict := invoke(pred.id, d);
      Success(if IsNullish(verdict) then true else Truthy(verdict))
    else
      Failure(PredicateNotCallable(pred))
  }

  /** The strategy's predicate lets document `d` be updated. */
  predicate Admits(s: Strategy, invoke: Invoke, d: Snapshot) {
    ShouldUpdate(s.pred, invoke, d) == Success(true)
  }

  /** The update a strategy stages for one document; it always targets `d.ref`. */
  function WriteFor(s: Strategy, invoke: Invoke, d: Snapshot): (w: StagedWrite)
    ensures w.ref == d.ref
    ensures w.UpdateField? <==> s.FieldValue?
  {
    match s
    case Getter(g, _) => UpdateData(d.ref, invoke(g, d))
    case FieldValue(f, v, _) => UpdateField(d.ref, f, v)
    case StaticData(data, _) => UpdateData(d.ref, data)
  }

  /**
   * The per-document handler: exactly one update, targeting the document's
   * reference, is staged when the predicate admits the document, nothing when
   * it rejects it; the batch is never committed here.
   */
  function HandleDoc(s: Strategy, invoke: Invoke, b: WriteBatch, d: Snapshot): (r: Result<WriteBatch, UpdateError>)
    ensures r.Failure? <==> !Usable(s.pred)
    ensures r.Failure? ==> r.error == PredicateNotCallable(s.pred)
    ensures r.Success? ==> r.value.commits == b.commits
    ensures r.Success? ==> |r.value.staged| == |b.staged| + (if Admits(s, invoke, d) then 1 else 0)
    ensures r.Success? ==> r.value.staged[..|b.staged|] == b.staged
    ensures r.Success? && Admits(s, invoke, d) ==> r.value.staged[|b.staged|] == WriteFor(s, invoke, d)
  {
    match ShouldUpdate(s.pred, invoke, d)
    case Failure(e) => Failure(e)
    case Success(shouldUpdate) =>
      if shouldUpdate then Success(Stage(b, WriteFor(s, invoke, d))) else Success(b)
  }

  /** The writes one document should contribute: its write when admitted, none otherwise. */
  function WritesFor(s: Strategy, invoke: Invoke, d: Snapshot): seq<StagedWrite> {
    if Admits(s, invoke, d) then [WriteFor(s, invoke, d)] else []
  }

  /** What `HandleDoc` does to the batch when it does not throw. */
  lemma HandleDocAppends(s: Strategy, invoke: Invoke, b: WriteBatch, d: Snapshot)
    requires HandleDoc(s, invoke, b, d).Success?
    ensures HandleDoc(s, invoke, b, d).value == b.(staged := b.staged + WritesFor(s, invoke, d))
  {
  }

  /** Reference definition: one write per admitted document, in document order. */
  function Expected(s: Strategy, invoke: Invoke, docs: seq<Snapshot>): seq<StagedWrite> {
    if |docs| == 0 then [] else WritesFor(s, invoke, docs[0]) + Expected(s, invoke, docs[1..])
  }

  /** The number of documents the strategy's predicate admits. */
  function AdmittedCount(s: Strategy, invoke: Invoke, docs: seq<Snapshot>): nat {
    if |docs| == 0 then 0
    else (if Admits(s, invoke, docs[0]) then 1 else 0) + AdmittedCount(s, invoke, docs[1..])
  }

  /**
   * `snapshots.forEach(snapshot => handleUpdateBatchDoc(batch, snapshot))` over
   * one page: the reference writes are appended to the batch, or the handler
   * throws on the first document when the predicate is not callable.
   */
  function StageDocs(s: Strategy, invoke: Invoke, b: WriteBatch, docs: seq<Snapshot>): (r: Result<WriteBatch, UpdateError>)
    ensures r.Failure? <==> |docs| > 0 && !Usable(s.pred)
    ensures r.Failure? ==> r.error == PredicateNotCallable(s.pred)
    ensures r.Success? ==> r.value == b.(staged := b.staged + Expected(s, invoke, docs))
    decreases |docs|
  {
    if |docs| == 0 then
      Success(b)
    else
      match HandleDoc(s, invoke, b, docs[0])
      case Failure(e) => Failure(e)
      case Success(b1) =>
        HandleDocAppends(s, invoke, b, docs[0]);
        assert b1.staged + Expected(s, invoke, docs[1..]) == b.staged + Expected(s, invoke, docs);
        StageDocs(s, invoke, b1, docs[1..])
  }

  lemma {:induction false} ExpectedAppend(s: Strategy, invoke: Invoke, xs: seq<Snapshot>, ys: seq<Snapshot>)
    ensures Expected(s, invoke, xs + ys) == Expected(s, invoke, xs) + Expected(s, invoke, ys)
    decreases |xs|
  {
    if |xs| == 0 {
      assert xs + ys == ys;
    } else {
      assert (xs + ys)[0] == xs[0];
      assert (xs + ys)[1..] == xs[1..] + ys;
      ExpectedAppend(s, invoke, xs[1..], ys);
    }
  }

  /**
   * The traversal callback applied to every page in delivery order, all onto
   * the one batch `b`: the batch ends up holding the reference writes for all
   * visited documents, or the first page with a document throws.
   */
  function StagePages(s: Strategy, invoke: Invoke, b: WriteBatch, pages: seq<seq<Snapshot>>): (r: Result<WriteBatch, UpdateError>)
    ensures r.Failure? <==> |Flatten(pages)| > 0 && !Usable(s.pred)
    ensures r.Failure? ==> r.error == PredicateNotCallable(s.pred)
    ensures r.Success? ==> r.value == b.(staged := b.staged + Expected(s, invoke, Flatten(pages)))
    decreases |pages|
  {
    if |pages| == 0 then
      Success(b)
    else
      match StageDocs(s, invoke, b, pages[0])
      case Failure(e) => Failure(e)
      case Success(b1) =>
        ExpectedAppend(s, invoke, pages[0], Flatten(pages[1..]));
        assert Flatten(pages) == pages[0] + Flatten(pages[1..]);
        assert b1.staged + Expected(s, invoke, Flatten(pages[1..]))
            == b.staged + Expected(s, invoke, Flatten(pages));
        StagePages(s, invoke, b1, pages[1..])
  }

  /**
   * `update(...args)`: one batch for the whole traversal, committed exactly
   * once after the traversal and only if no handler threw; the result passes
   * the traversal's `batchCount` through and reports its `docCount` as
   * `updatedDocCount`, whatever the predicate admitted.
   */
  function Update(args: seq<JsValue>, invoke: Invoke, t: Traversal): (r: UpdateRun)
    ensures r.outcome.Success? <==> |Flatten(t.pages)| == 0 || Usable(Resolve(args).pred)
    ensures r.outcome.Success? ==> r.outcome.value == UpdateResult(t.batchCount, t.docCount)
    ensures r.outcome.Success? ==> r.batch == WriteBatch(Expected(Resolve(args), invoke, Flatten(t.pages)), 1)
    ensures r.outcome.Failure? ==> r.outcome.error == PredicateNotCallable(Resolve(args).pred)
    ensures r.outcome.Failure? ==> r.batch == WriteBatch([], 0)
  {
    var handleUpdateBatchDoc := Resolve(args);
    var batch := NewBatch();
    match StagePages(handleUpdateBatchDoc, invoke, batch, t.pages)
    case Failure(e) => UpdateRun(Failure(e), batch)
    case Success(staged) =>
      UpdateRun(Success(UpdateResult(t.batchCount, t.docCount)), Commit(staged))
  }

  lemma {:induction false} FlattenAppend(ps: seq<seq<Snapshot>>, qs: seq<seq<Snapshot>>)
    ensures Flatten(ps + qs) == Flatten(ps) + Flatten(qs)
    decreases |ps|
  {
    if |ps| == 0 {
      assert ps + qs == qs;
    } else {
      assert (ps + qs)[0] == ps[0];
      assert (ps + qs)[1..] == ps[1..] + qs;
      FlattenAppend(ps[1..], qs);
    }
  }

  /**
   * Staged writes follow page order: the writes for a later page come after
   * all writes for the pages before it. Document order within a page comes
   * from the definition of `Expected`.
   */
  lemma StagedInTraversalOrder(s: Strategy, invoke: Invoke, pages: seq<seq<Snapshot>>, page: seq<Snapshot>)
    ensures Expected(s, invoke, Flatten(pages + [page]))
         == Expected(s, invoke, Flatten(pages)) + Expected(s, invoke, page)
  {
    FlattenAppend(pages, [page]);
    assert [page][1..] == [];
    assert Flatten([page]) == page;
    ExpectedAppend(s, invoke, Flatten(pages), page);
  }

  lemma {:induction false} ExpectedCount(s: Strategy, invoke: Invoke, docs: seq<Snapshot>)
    ensures |Expected(s, invoke, docs)| == AdmittedCount(s, invoke, docs)
    decreases |docs|
  {
    if |docs| > 0 {
      ExpectedCount(s, invoke, docs[1..]);
    }
  }

  /**
   * At most one write per visited document, and one for every document
   * exactly when the predicate admits them all.
   */
  lemma {:induction false} ExpectedBounds(s: Strategy, invoke: Invoke, docs: seq<Snapshot>)
    ensures |Expected(s, invoke, docs)| == AdmittedCount(s, invoke, docs) <= |docs|
    ensures |Expected(s, invoke, docs)| == |docs| <==> forall i :: 0 <= i < |docs| ==> Admits(s, invoke, docs[i])
    decreases |docs|
  {
    ExpectedCount(s, invoke, docs);
    if |docs| > 0 {
      ExpectedBounds(s, invoke, docs[1..]);
      if forall i :: 0 <= i < |docs| ==> Admits(s, invoke, docs[i]) {
        assert forall i :: 0 <= i < |docs[1..]| ==> Admits(s, invoke, docs[1..][i]) by {
          forall i | 0 <= i < |docs[1..]| ensures Admits(s, invoke, docs[1..][i]) {
            assert docs[1..][i] == docs[i + 1];
          }
        }
      }
      if |Expected(s, invoke, docs)| == |docs| {
        assert Admits(s, invoke, docs[0]);
        forall i | 0 <= i < |docs| ensures Admits(s, invoke, docs[i]) {
          if i > 0 {
            assert docs[i] == docs[1..][i - 1];
          }
        }
      }
    }
  }

  /** A write is staged for a document exactly when the predicate admits it, and every write stems from such a document. */
  lemma {:induction false} ExpectedMembers(s: Strategy, invoke: Invoke, docs: seq<Snapshot>)
    ensures forall w :: w in Expected(s, invoke, docs) ==>
              exists j :: 0 <= j < |docs| && Admits(s, invoke, docs[j]) && w == WriteFor(s, invoke, docs[j])
    ensures forall j :: 0 <= j < |docs| && Admits(s, invoke, docs[j]) ==> WriteFor(s, invoke, docs[j]) in Expected(s, invoke, docs)
    decreases |docs|
  {
    if |docs| > 0 {
      ExpectedMembers(s, invoke, docs[1..]);
      var head := WritesFor(s, invoke, docs[0]);
      assert Expected(s, invoke, docs) == head + Expected(s, invoke, docs[1..]);
      forall w | w in Expected(s, invoke, docs)
        ensures exists j :: 0 <= j < |docs| && Admits(s, invoke, docs[j]) && w == WriteFor(s, invoke, docs[j])
      {
        if w in head {
          assert Admits(s, invoke, docs[0]) && w == WriteFor(s, invoke, docs[0]);
        } else {
          assert w in Expected(s, invoke, docs[1..]);
          var j :| 0 <= j < |docs[1..]| && Admits(s, invoke, docs[1..][j]) && w == WriteFor(s, invoke, docs[1..][j]);
          assert docs[1..][j] == docs[j + 1];
        }
      }
      forall j | 0 <= j < |docs| && Admits(s, invoke, docs[j])
        ensures WriteFor(s, invoke, docs[j]) in Expected(s, invoke, docs)
      {
        if j > 0 {
          assert docs[j] == docs[1..][j - 1];
        }
      }
    }
  }

  /** When every document is admitted, the writes are exactly one per document, in document order. */
  lemma {:induction false} ExpectedWhenAllAdmitted(s: Strategy, invoke: Invoke, docs: seq<Snapshot>)
    requires forall i :: 0 <= i < |docs| ==> Admits(s, invoke, docs[i])
    ensures Expected(s, invoke, docs) == seq(|docs|, i requires 0 <= i < |docs| => WriteFor(s, invoke, docs[i]))
    decreases |docs|
  {
    if |docs| > 0 {
      assert forall i :: 0 <= i < |docs[1..]| ==> Admits(s, invoke, docs[1..][i]) by {
        forall i | 0 <= i < |docs[1..]| ensures Admits(s, invoke, docs[1..][i]) {
          assert docs[1..][i] == docs[i + 1];
        }
      }
      ExpectedWhenAllAdmitted(s, invoke, docs[1..]);
      assert Admits(s, invoke, docs[0]);
    }
  }

  /**
   * A strategy without a predicate (`undefined` or `null`) stages one write per
   * visited document, in traversal order, and the update succeeds.
   */
  lemma AbsentPredicateStagesEveryDocument(args: seq<JsValue>, invoke: Invoke, t: Traversal)
    requires IsNullish(Resolve(args).pred)
    ensures Update(args, invoke, t).outcome.Success?
    ensures var docs := Flatten(t.pages);
            Update(args, invoke, t).batch.staged
            == seq(|docs|, i requires 0 <= i < |docs| => WriteFor(Resolve(args), invoke, docs[i]))
  {
    ExpectedWhenAllAdmitted(Resolve(args), invoke, Flatten(t.pages));
  }

  /**
   * The field/value form is only chosen for exactly two arguments, so its
   * predicate is always absent and it stages `batch.update(ref, field, value)`
   * for every visited document.
   */
  lemma FieldValueFormAlwaysStages(args: seq<JsValue>, invoke: Invoke, t: Traversal)
    requires Resolve(args).FieldValue?
    ensures |args| == 2
    ensures Update(args, invoke, t).outcome.Success?
    ensures var docs := Flatten(t.pages);
            Update(args, invoke, t).batch.staged
            == seq(|docs|, i requires 0 <= i < |docs| => UpdateField(docs[i].ref, args[0], args[1]))
  {
    AbsentPredicateStagesEveryDocument(args, invoke, t);
  }

  /**
   * `updatedDocCount` is the number of documents visited, not the number
   * updated: it bounds the staged writes from above and equals their number
   * only when the predicate admits every document.
   */
  lemma UpdatedDocCountIsVisitedCount(args: seq<JsValue>, invoke: Invoke, t: Traversal)
    requires Consistent(t)
    requires Update(args, invoke, t).outcome.Success?
    ensures var r := Update(args, invoke, t);
            var docs := Flatten(t.pages);
            && r.outcome.value.updatedDocCount == |docs|
            && |r.batch.staged| <= r.outcome.value.updatedDocCount
            && (|r.batch.staged| == r.outcome.value.updatedDocCount
                <==> forall i :: 0 <= i < |docs| ==> Admits(Resolve(args), invoke, docs[i]))
  {
    ExpectedBounds(Resolve(args), invoke, Flatten(t.pages));
  }

  /**
   * The static-object form stages `batch.update(ref, updateData)` with the
   * first argument as the data, for exactly the admitted documents.
   */
  lemma StaticFormStagesUpdateData(args: seq<JsValue>, invoke: Invoke, t: Traversal)
    requires Resolve(args).StaticData?
    ensures var r := Update(args, invoke, t);
            var docs := Flatten(t.pages);
            r.outcome.Success? ==>
              forall w :: w in r.batch.staged <==>
                exists j :: 0 <= j < |docs| && Admits(Resolve(args), invoke, docs[j])
                            && w == UpdateData(docs[j].ref, ArgAt(args, 0))
  {
    var s, docs := Resolve(args), Flatten(t.pages);
    ExpectedMembers(s, invoke, docs);
    assert forall j :: 0 <= j < |docs| ==> WriteFor(s, invoke, docs[j]) == UpdateData(docs[j].ref, ArgAt(args, 0));
  }

  /**
   * The getter form stages `batch.update(ref, getUpdateData(snapshot))`, the
   * getter's result for that very document, for exactly the admitted documents.
   */
  lemma GetterFormStagesGetterResult(args: seq<JsValue>, invoke: Invoke, t: Traversal)
    requires Resolve(args).Getter?
    ensures var r := Update(args, invoke, t);
            var docs := Flatten(t.pages);
            r.outcome.Success? ==>
              forall w :: w in r.batch.staged <==>
                exists j :: 0 <= j < |docs| && Admits(Resolve(args), invoke, docs[j])
                            && w == UpdateData(docs[j].ref, invoke(ArgAt(args, 0).id, docs[j]))
  {
    var s, docs := Resolve(args), Flatten(t.pages);
    ExpectedMembers(s, invoke, docs);
    assert forall j :: 0 <= j < |docs| ==> WriteFor(s, invoke, docs[j]) == UpdateData(docs[j].ref, invoke(ArgAt(args, 0).id, docs[j]));
  }
}
