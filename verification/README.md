# CollectionMigrator.update, modelled in Dafny

This project models the migration layer of firecode's admin package. `CollectionMigrator.update` accepts one of three call shapes:

- `update(updateData, predicate?)`
- `update(field, value, predicate?)`
- `update(getUpdateData, predicate?)`

It sorts them apart at run time by looking at its untyped arguments. It then traverses the collection. For every document of every page, it stages at most one `WriteBatch.update` onto a single shared write batch. It commits that batch once, after the traversal, and returns `{ batchCount, updatedDocCount }`.

Modules, one per concern:

- `Wrappers` (`wrappers.dfy`): `Option` and `Result`.
- `JsValues` (`js_values.dfy`): the JavaScript values involved. The model keeps only what the code inspects: `typeof v === 'function'`, nullishness (what `?.` and `??` test) and truthiness (what `if` tests).
- `Firestore` (`firestore.dfy`): snapshots and a write batch. The batch is a log of staged updates plus a commit counter.
- `Signature` (`signature.dfy`): call-shape resolution, `getUpdateHandlerForSignature`'s dispatch, as a pure function onto a `Strategy` variant. The declared overloads are a separate `Call` datatype. This gives resolution an independent reference.
- `Migrator` (`migrator.dfy`): the per-document handler, the fold over pages and `update` itself. It also holds `Expected`, a reference definition of the writes a run must stage: one per admitted document, in traversal order.
- `Findings` (`findings.dfy`): the two discrepancies listed below, each shown as written and corrected.

The traversal is an input, `Traversal(pages, batchCount, docCount)`: the pages in delivery order and the counts `traverse` reports. The behaviour of the JavaScript functions the caller passes is another input, `invoke(id, snapshot)`. A predicate that is neither nullish nor callable makes `predicate?.(snapshot)` throw a TypeError. The model represents this as `Failure(PredicateNotCallable(...))`. It happens on the first document, so nothing is staged. If `traverse` then rejects, the `await` at line 60 throws and `commit` is never reached. The model takes that rejection as given.

Two points where the code departs from what a reader might expect:

- One write batch is created for the whole traversal and committed once (`CollectionMigrator.ts:58`, `:66`). There is no batch per page.
- `updatedDocCount` is the traversal's `docCount` (`:60`). It is not the number of documents that passed the predicate.

## Model

| member | source | states |
|---|---|---|
| Signature.Resolve | packages/admin/src/CollectionMigrator.ts:74-102 | A callable first argument selects the getter form. Otherwise exactly two arguments with a non-callable second one select the field/value form, whose predicate is always `undefined`. Every other case is the static-object form, which reads the second argument as the predicate, including when there are three arguments. |
| Signature.ResolveDeclaredCall | packages/admin/src/CollectionMigrator.ts:22-102 | For a call written in one of the three declared overloads, resolution picks that overload if and only if the call is "recovered". Getter calls are always recovered. Static calls are recovered when the predicate is omitted or callable. Field/value calls are recovered only when no predicate is passed and the value is not a function. |
| Migrator.ShouldUpdate | packages/admin/src/CollectionMigrator.ts:80-81 | `predicate?.(snapshot) ?? true`, tested for truthiness. An absent predicate admits. A predicate returning `true` admits and one returning `false` rejects. A nullish return value admits. Any other return value admits exactly when it is truthy. A non-callable, non-nullish predicate throws. |
| Migrator.WriteFor | packages/admin/src/CollectionMigrator.ts:83-100 | Every staged update targets `snapshot.ref`. It is a field/value update exactly for the field/value form. The payload of each form is pinned by `FieldValueFormAlwaysStages`, `StaticFormStagesUpdateData` and `GetterFormStagesGetterResult`. |
| Migrator.HandleDoc | packages/admin/src/CollectionMigrator.ts:76-103 | Per document, exactly one update targeting the document's ref is appended when the predicate admits the document, and nothing when it rejects it. Earlier staged updates are kept and no commit happens. It fails exactly when the predicate is not usable. |
| Migrator.StageDocs | packages/admin/src/CollectionMigrator.ts:61-63 | `forEach` over one page appends exactly the reference writes `Expected` for that page to the batch. On a non-empty page with an unusable predicate it fails instead. |
| Migrator.StagePages | packages/admin/src/CollectionMigrator.ts:60-64 | All pages are staged onto the one batch, in delivery order. The batch ends with the reference writes for all visited documents, or the run fails iff some document is visited and the predicate is unusable. |
| Migrator.Update | packages/admin/src/CollectionMigrator.ts:55-69 | On success, the batch holds exactly the reference writes for every visited document and is committed exactly once. The result is `(batchCount, docCount)` of the traversal. On failure nothing was staged and nothing committed. Success holds iff no document is visited or the resolved predicate is usable. |
| Migrator.StagedInTraversalOrder | packages/admin/src/CollectionMigrator.ts:60-63 | The writes of a later page come after all writes of the earlier pages. Document order within a page comes from the definition of `Expected`, not from this lemma. |
| Migrator.ExpectedBounds | packages/admin/src/CollectionMigrator.ts:61-63 | The number of staged writes equals the number of admitted documents, which is at most the number visited. It equals the number visited iff every document is admitted. |
| Migrator.ExpectedMembers | packages/admin/src/CollectionMigrator.ts:82-101 | Every admitted document's update is staged. Every staged update stems from an admitted document. |
| Migrator.ExpectedWhenAllAdmitted | packages/admin/src/CollectionMigrator.ts:61-63 | When every document is admitted, the writes are one per document, in document order. |
| Migrator.AbsentPredicateStagesEveryDocument | packages/admin/src/CollectionMigrator.ts:94-101 | With no predicate, `update` succeeds and stages one update per visited document, in traversal order. |
| Migrator.FieldValueFormAlwaysStages | packages/admin/src/CollectionMigrator.ts:85-93 | The field/value form is only chosen for exactly two arguments. It always succeeds and stages `update(ref, field, value)` for every visited document. |
| Migrator.StaticFormStagesUpdateData | packages/admin/src/CollectionMigrator.ts:94-101 | In the static-object form, a successful `update` stages exactly `update(ref, updateData)` for each admitted document, with the first argument as `updateData`, and nothing else. |
| Migrator.GetterFormStagesGetterResult | packages/admin/src/CollectionMigrator.ts:77-84 | In the getter form, a successful `update` stages exactly `update(ref, getUpdateData(snapshot))` for each admitted document, where the data is the getter's result for that same document, and nothing else. |
| Migrator.UpdatedDocCountIsVisitedCount | packages/admin/src/CollectionMigrator.ts:60-68 | Given counts that describe the pages, `updatedDocCount` is the number of visited documents. It is at least the number of staged updates, and equal to it iff the predicate admitted every document. |
| Findings.ThreeArgumentFieldCallThrows | packages/admin/src/CollectionMigrator.ts:85-98 | A well-typed `update(field, value, predicate)` resolves to the static-object form with `value` as its predicate. With a `value` that is neither nullish nor a function, the call fails on a one-document collection and nothing is committed. |
| Findings.ResolveIntended | packages/admin/src/CollectionMigrator.ts:36-40 | Corrected resolution: three arguments with a non-callable first one select the field/value form with the third argument as predicate. It agrees with `Resolve` on every other argument count. |
| Findings.ResolveIntendedRecoversDeclaredCalls | packages/admin/src/CollectionMigrator.ts:22-53 | Corrected resolution picks the declared overload for every well-typed call. A passed predicate may be a function or an explicit `undefined`. Two shapes are excluded because their argument lists coincide with another overload's: `update(updateData, undefined)` and `update(field, someFunction)`. |
| Findings.UpdatedDocCountIncludesRejected | packages/admin/src/CollectionMigrator.ts:60-68 | Three documents, one rejected by the predicate: two updates are staged, but `updatedDocCount` is 3. |
| Findings.UpdateIntended | packages/admin/src/CollectionMigrator.ts:55-69 | Corrected `update`: `updatedDocCount` equals the number of admitted documents, whose updates are exactly those staged and committed once. |
| Findings.FieldCallWithPredicateHonoured | packages/admin/src/CollectionMigrator.ts:36-40 | With the corrections, `update(field, value, predicate)` stages `update(ref, field, value)` for exactly the documents the predicate admits, and reports that count. |

## Left out

- The traversal engine: pagination, `maxDocCount` truncation, concurrency slots and the sleep between batches. `CollectionTraverser` and `PromiseQueueBasedTraverserImpl` are not part of this model. Their output is an input here.
- Migrator.UpdatedDocCountIsVisitedCount: assumes `Consistent`, meaning `batchCount` is the page count and `docCount` the number of documents delivered. The engine's source is not part of this model.
- Migrator.Update: assumes `traverse` rejects when a batch callback throws; the engine's source is not part of this model. Its failure branch, where nothing is committed, rests on that.
- `createTraverser` (`packages/admin/src/api/createTraverser.ts`): a one-line factory over the engine, with no logic of its own.
- `packages/admin/__tests__/types/createTraverser.test-d.ts`: a compile-time type assertion with no runtime behaviour.
- Firestore semantics: `WriteBatch.update` validation of its arguments, the limit on writes per batch, atomic commit, network failures and commit errors. A batch is only a log of staged calls plus a commit count.
- Exceptions thrown by user predicates or getters, and asynchronous error propagation through `traverse`. Every callback is a total function. The only error modelled is the TypeError from calling a non-callable predicate.
- Snapshot contents, `UpdateData` and `FieldPath` values: opaque handles.
- Signature.Resolve: the code re-runs the dispatch inside the returned closure for every document. It depends only on the arguments, so the model resolves once per call.
- Findings.ResolveIntended: an explicitly passed `undefined` predicate, as in `update(updateData, undefined)`, still reads as the field/value form. JavaScript could tell the shapes apart by testing the first argument with `typeof arg1 === 'string'` or `instanceof FieldPath`. The code tests `typeof arg1` only against `'function'`, and the model's `JsValue` does not record whether a value is a string, a FieldPath or a plain object. So `ResolveIntended` cannot tell these shapes apart. `WellTyped` excludes this shape, and `Signature.ResolveDeclaredCall` states the behaviour as written.
- Findings.ResolveIntended: `update(field, someFunction)`, a two-argument field call whose value is a function, still reads as `update(updateData, predicate)`. For the same reason, `JsValue` does not record whether the first argument is a string, a FieldPath or an object, so `ResolveIntended` cannot separate the two. Firestore rejects a function as a field value in any case. `WellTyped` excludes this shape too.

## Findings

| source | as written | input that shows it | evidently intended | confidence | as-written member | corrected member |
|---|---|---|---|---|---|---|
| packages/admin/src/CollectionMigrator.ts:85 | The field/value form requires `argCount === 2`. The declared overload `update(field, value, predicate)` therefore falls through to the static-object form, and calling `value` as the predicate throws a TypeError when `value` is neither nullish nor a function. | `update('status', 'archived', pred)` on a collection with one document | Three arguments mean field/value with the third as predicate | high (not executed) | Findings.ThreeArgumentFieldCallThrows | Findings.ResolveIntended, Findings.ResolveIntendedRecoversDeclaredCalls, Findings.FieldCallWithPredicateHonoured |
| packages/admin/src/CollectionMigrator.ts:60 | `updatedDocCount` is the traversal's `docCount`, which counts every visited document. | `update(updateData, pred)` over three documents where `pred` rejects one reports 3, with 2 updates staged | The number of documents updated, as the method's documentation says | medium (not executed) | Findings.UpdatedDocCountIncludesRejected | Findings.UpdateIntended |

`Migrator.Update` follows the code as written. `Findings.UpdateIntended` applies both corrections on top of the same staging fold.
