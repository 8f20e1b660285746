/**
 * Two places where `update` as written departs from what its declared
 * overloads and documented result promise, each shown on a concrete input,
 * and a corrected definition with the promised property proved.
 */
module Findings {
  import opened Wrappers
  import opened JsValues
  import opened Firestore
  import opened Signature
  import opened Migrator

  /**
   * The declared calls a type-checked caller can write, where a passed
   * predicate is a function or an explicit `undefined`, minus the two shapes
   * whose argument lists coincide with another overload's.
   */
  predicate WellTyped(c: Call) {
    match c
      // `update(updateData, undefined)` reads the same as `update(field, undefined)`
    case WithData(d, p) => !IsCallable(d) && (p.Some? ==> IsCallable(p.value))
    case WithField(f, v, p) =>
      && !IsCallable(f)
      && (p.Some? ==> IsCallable(p.value) || p.value == Undefined)
        // `update(field, someFunction)` reads the same as `update(updateData, predicate)`
      && (p.None? ==> !IsCallable(v))
    case WithGetter(_, p) => p.Some? ==> IsCallable(p.value) || p.value == Undefined
  }

  /**
   * As written, `update(field, value, predicate)` is resolved to the
   * static-object form with `value` read as the predicate, so when `value` is
   * neither nullish nor a function it throws on any non-empty collection and
   * nothing is committed.
   */
  lemma ThreeArgumentFieldCallThrows(invoke: Invoke)
    ensures var c := WithField(Data(0, true), Data(1, true), Some(Function(2)));
            var t := Traversal([[Snapshot(DocRef("items/a"), 0)]], 1, 1);
            && WellTyped(c)
            && Resolve(Args(c)) == StaticData(Data(0, true), Data(1, true))
            && Resolve(Args(c)) != Intended(c)
            && Update(Args(c), invoke, t) == UpdateRun(Failure(PredicateNotCallable(Data(1, true))), WriteBatch([], 0))
  {
  }

  /**
   * Resolution as evidently intended: a third argument always means the
   * field/value overload, since the static-object and getter overloads take
   * at most two.
   */
  function ResolveIntended(args: seq<JsValue>): (s: Strategy)
    ensures s.Getter? <==> IsCallable(ArgAt(args, 0))
    ensures s.FieldValue? <==> !IsCallable(ArgAt(args, 0)) && (|args| == 3 || (|args| == 2 && !IsCallable(args[1])))
    ensures s.FieldValue? ==> s.field == args[0] && s.value == args[1] && s.pred == ArgAt(args, 2)
    ensures s.StaticData? ==> s.data == ArgAt(args, 0) && s.pred == ArgAt(args, 1)
    ensures |args| != 3 ==> s == Resolve(args)
  {
    var arg1, arg2, arg3 := ArgAt(args, 0), ArgAt(args, 1), ArgAt(args, 2);
    if arg1.Function? then
      Getter(arg1.id, arg2)
    else if |args| == 3 || (|args| == 2 && !IsCallable(arg2)) then
      FieldValue(arg1, arg2, arg3)
    else
      StaticData(arg1, arg2)
  }

  /** The corrected resolution recovers the overload of every well-typed declared call. */
  lemma ResolveIntendedRecoversDeclaredCalls(c: Call)
    requires WellTyped(c)
    ensures ResolveIntended(Args(c)) == Intended(c)
  {
  }

  /**
   * As written, `updatedDocCount` is the number of documents visited: with
   * three documents of which the predicate rejects one, two updates are
   * staged and committed, but three are reported.
   */
  lemma UpdatedDocCountIncludesRejected()
    ensures var invoke: Invoke := (id: nat, d: Snapshot) => Bool(d.contents != 2);
            var docs := [Snapshot(DocRef("items/a"), 1), Snapshot(DocRef("items/b"), 2), Snapshot(DocRef("items/c"), 3)];
            var r := Update([Data(0, true), Function(9)], invoke, Traversal([docs], 1, 3));
            && r.outcome == Success(UpdateResult(1, 3))
            && |r.batch.staged| == 2
  {
    var invoke: Invoke := (id: nat, d: Snapshot) => Bool(d.contents != 2);
    var docs := [Snapshot(DocRef("items/a"), 1), Snapshot(DocRef("items/b"), 2), Snapshot(DocRef("items/c"), 3)];
    var s := StaticData(Data(0, true), Function(9));
    assert Flatten([docs]) == docs + Flatten([]);
    assert docs[1..][1..] == [docs[2]];
    assert !Admits(s, invoke, docs[1]);
    assert Expected(s, invoke, docs) == [WriteFor(s, invoke, docs[0]), WriteFor(s, invoke, docs[2])];
  }

  /**
   * `update` with both corrections: three-argument field/value calls are
   * honoured, and `updatedDocCount` is the number of documents whose update
   * was staged and committed.
   */
  function UpdateIntended(args: seq<JsValue>, invoke: Invoke, t: Traversal): (r: UpdateRun)
    ensures r.outcome.Success? <==> |Flatten(t.pages)| == 0 || Usable(ResolveIntended(args).pred)
    ensures r.outcome.Success? ==> r.batch == WriteBatch(Expected(ResolveIntended(args), invoke, Flatten(t.pages)), 1)
    ensures r.outcome.Success? ==> r.outcome.value.batchCount == t.batchCount
    ensures r.outcome.Success? ==> r.outcome.value.updatedDocCount == AdmittedCount(ResolveIntended(args), invoke, Flatten(t.pages))
    ensures r.outcome.Failure? ==> r.batch == WriteBatch([], 0)
  {
    var handleUpdateBatchDoc := ResolveIntended(args);
    var batch := NewBatch();
    match StagePages(handleUpdateBatchDoc, invoke, batch, t.pages)
    case Failure(e) => UpdateRun(Failure(e), batch)
    case Success(staged) =>
      ExpectedCount(handleUpdateBatchDoc, invoke, Flatten(t.pages));
      UpdateRun(Success(UpdateResult(t.batchCount, |staged.staged|)), Commit(staged))
  }

  /**
   * With the corrections, `update(field, value, predicate)` stages
   * `batch.update(ref, field, value)` for exactly the documents the predicate
   * admits, and reports how many that was.
   */
  lemma FieldCallWithPredicateHonoured(field: JsValue, value: JsValue, p: nat, invoke: Invoke, t: Traversal)
    requires !IsCallable(field)
    ensures var r := UpdateIntended([field, value, Function(p)], invoke, t);
            var s := FieldValue(field, value, Function(p));
            var docs := Flatten(t.pages);
            && r.outcome.Success?
            && r.outcome.value.updatedDocCount == |r.batch.staged| <= |docs|
            && (forall j :: 0 <= j < |docs| && Admits(s, invoke, docs[j]) ==> UpdateField(docs[j].ref, field, value) in r.batch.staged)
            && (forall w :: w in r.batch.staged ==> exists j :: 0 <= j < |docs| && Admits(s, invoke, docs[j]) && w == UpdateField(docs[j].ref, field, value))
  {
    var s := FieldValue(field, value, Function(p));
    ExpectedBounds(s, invoke, Flatten(t.pages));
    ExpectedMembers(s, invoke, Flatten(t.pages));
  }
}
