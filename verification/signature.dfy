/**
 * Call-shape resolution for `CollectionMigrator.update`: the untyped argument
 * list is turned into one of three per-document update strategies, looking
 * only at `typeof arg1`, the argument count and `typeof arg2`.
 */
module Signature {
  import opened Wrappers
  import opened JsValues

  /** The per-document update strategies; `pred` is the raw argument read as the predicate. */
  datatype Strategy =
      /** Signature 1: `update(updateData, predicate?)` */
    | StaticData(data: JsValue, pred: JsValue)
      /** Signature 2: `update(field, value, predicate?)` */
    | FieldValue(field: JsValue, value: JsValue, pred: JsValue)
      /** Signature 3: `update(getUpdateData, predicate?)` */
    | Getter(getter: nat, pred: JsValue)

  /**
   * The dispatch of the handler returned by `getUpdateHandlerForSignature`: a
   * callable first argument selects the getter form; otherwise exactly two
   * arguments with a non-callable second one select the field/value form;
   * everything else is the static-object form.
   */
  function Resolve(args: seq<JsValue>): (s: Strategy)
    ensures s.Getter? <==> IsCallable(ArgAt(args, 0))
    ensures s.FieldValue? <==> !IsCallable(ArgAt(args, 0)) && |args| == 2 && !IsCallable(args[1])
    ensures s.StaticData? <==> !IsCallable(ArgAt(args, 0)) && (|args| != 2 || IsCallable(args[1]))
    ensures s.Getter? ==> ArgAt(args, 0) == Function(s.getter) && s.pred == ArgAt(args, 1)
    // The field/value form reads its predicate from a third argument it never has.
    ensures s.FieldValue? ==> s.field == args[0] && s.value == args[1] && s.pred == Undefined
    // With three arguments and a non-callable first one, the second is read as the predicate.
    ensures s.StaticData? ==> s.data == ArgAt(args, 0) && s.pred == ArgAt(args, 1)
  {
    var arg1, arg2, arg3 := ArgAt(args, 0), ArgAt(args, 1), ArgAt(args, 2);
    if arg1.Function? then
      Getter(arg1.id, arg2)
    else if |args| == 2 && !IsCallable(arg2) then
      FieldValue(arg1, arg2, arg3)
    else
      StaticData(arg1, arg2)
  }

  /** A call written in one of the three declared overloads; an omitted predicate is `None`. */
  datatype Call =
    | WithData(data: JsValue, pred: Option<JsValue>)
    | WithField(field: JsValue, value: JsValue, pred: Option<JsValue>)
    | WithGetter(getter: nat, pred: Option<JsValue>)

  /** The positional argument list the runtime sees for a declared call. */
  function Args(c: Call): seq<JsValue> {
    match c
    case WithData(d, None) => [d]
    case WithData(d, Some(p)) => [d, p]
    case WithField(f, v, None) => [f, v]
    case WithField(f, v, Some(p)) => [f, v, p]
    case WithGetter(g, None) => [Function(g)]
    case WithGetter(g, Some(p)) => [Function(g), p]
  }

  /** The strategy the overload a call was written in stands for. */
  function Intended(c: Call): Strategy {
    match c
    case WithData(d, p) => StaticData(d, p.GetOr(Undefined))
    case WithField(f, v, p) => FieldValue(f, v, p.GetOr(Undefined))
    case WithGetter(g, p) => Getter(g, p.GetOr(Undefined))
  }

  /** The declared calls whose overload the argument sniffing recovers. */
  predicate Recovered(c: Call) {
    match c
    case WithData(d, p) => !IsCallable(d) && (p.None? || IsCallable(p.value))
    case WithField(f, v, p) => !IsCallable(f) && !IsCallable(v) && p.None?
    case WithGetter(_, _) => true
  }

  /**
   * Resolution recovers the declared overload exactly for the recovered calls.
   * In particular every getter call is recovered, an explicit non-callable
   * predicate (even `undefined`) turns a static call into a field/value one,
   * and no field/value call that passes a predicate is recovered.
   */
  lemma ResolveDeclaredCall(c: Call)
    ensures Resolve(Args(c)) == Intended(c) <==> Recovered(c)
  {
  }
}
