/**
 * The two message unions of a generated service module, `__Request` and
 * `__Reply`, as declarations (one variant per method, in schema order) and
 * as the values that travel between client and server.
 */
module Messages {
  import opened Schema

  /** A request variant's payload shape: bare for a method without arguments, a tuple otherwise. */
  datatype Shape = Nullary | Tupled(fields: seq<Ty>)

  datatype RequestVariantDecl = RequestVariantDecl(name: Ident, shape: Shape)

  datatype ReplyVariantDecl = ReplyVariantDecl(name: Ident, payload: Ty)

  /** The variant shape a method must get: nullary exactly when it takes no arguments, else the tuple of its argument types. */
  predicate ShapeFor(s: Shape, m: MethodDesc)
  {
    (s.Nullary? <==> |m.params| == 0) && (s.Tupled? ==> s.fields == ArgTypes(m))
  }

  /** `define_request!`: walks the method list, threading the finished variants. */
  function DefineRequestRec(finished: seq<RequestVariantDecl>, rest: seq<MethodDesc>): (r: seq<RequestVariantDecl>)
    ensures |r| == |finished| + |rest|
    ensures r[..|finished|] == finished
    ensures forall j :: |finished| <= j < |r| ==>
      r[j].name == rest[j - |finished|].name && ShapeFor(r[j].shape, rest[j - |finished|])
    decreases |rest|
  {
    if rest == [] then finished
    else
      var r := DefineRequestRec(finished + [VariantFor(rest[0])], rest[1..]);
      assert r[..|finished|] == (r[..|finished| + 1])[..|finished|];
      r
  }

  /** One step of `define_request!`: `name()` is a bare variant, `name (T1, ..., Tn)` a tupled one. */
  function VariantFor(m: MethodDesc): (v: RequestVariantDecl)
    ensures v.name == m.name && ShapeFor(v.shape, m)
  {
    if |m.params| == 0 then RequestVariantDecl(m.name, Nullary)
    else RequestVariantDecl(m.name, Tupled(ArgTypes(m)))
  }

  /** The `__Request` union of a service: one variant per method, in schema order. */
  function DefineRequest(ms: seq<MethodDesc>): (u: seq<RequestVariantDecl>)
    ensures |u| == |ms|
    ensures forall i :: 0 <= i < |ms| ==> u[i].name == ms[i].name && ShapeFor(u[i].shape, ms[i])
  {
    // Naming the empty accumulator keeps the verifier's search small.
    var none: seq<RequestVariantDecl> := [];
    var u := DefineRequestRec(none, ms);
    assert |none| == 0;
    u
  }

  /** The `__Reply` union: one variant per method, in schema order, carrying the return type. */
  function ReplyUnion(ms: seq<MethodDesc>): (u: seq<ReplyVariantDecl>)
    ensures |u| == |ms|
    ensures forall i :: 0 <= i < |ms| ==> u[i].name == ms[i].name && u[i].payload == ms[i].ret
  {
    if ms == [] then [] else [ReplyVariantDecl(ms[0].name, ms[0].ret)] + ReplyUnion(ms[1..])
  }

  /** The two unions agree variant by variant: same names, same order. */
  lemma {:induction false} UnionsAligned(ms: seq<MethodDesc>)
    ensures |DefineRequest(ms)| == |ReplyUnion(ms)| == |ms|
    ensures forall i :: 0 <= i < |ms| ==> DefineRequest(ms)[i].name == ReplyUnion(ms)[i].name
  {
  }

  // Values of the unions.

  datatype Payload<V> = Bare | Args(values: seq<V>)

  datatype Request<V> = Request(tag: Ident, payload: Payload<V>)

  datatype Reply<V> = Reply(tag: Ident, value: V)

  /** The arguments a request carries (none for a bare variant). */
  function ArgsOf<V>(p: Payload<V>): seq<V>
  {
    match p
    case Bare => []
    case Args(vs) => vs
  }

  /** `request_variant!(name args...)`: the bare variant without arguments, the tupled one with. */
  function RequestVariant<V>(name: Ident, args: seq<V>): (r: Request<V>)
    ensures r.tag == name
    ensures ArgsOf(r.payload) == args
    ensures r.payload.Bare? <==> |args| == 0
  {
    if |args| == 0 then Request(name, Bare) else Request(name, Args(args))
  }

  /** A payload has the right arity for a variant shape. */
  predicate Fits<V>(s: Shape, p: Payload<V>)
  {
    match s
    case Nullary => p.Bare?
    case Tupled(ts) => p.Args? && |p.values| == |ts|
  }

  /** Values have the given types, position by position. */
  predicate TypedArgs<V>(args: seq<V>, ts: seq<Ty>, typeOf: V -> Ty)
  {
    |args| == |ts| && forall k :: 0 <= k < |args| ==> typeOf(args[k]) == ts[k]
  }

  /** A request is a value of the union `u`: some variant has its tag and its payload's arity. */
  predicate InRequestUnion<V>(u: seq<RequestVariantDecl>, r: Request<V>)
  {
    exists i | 0 <= i < |u| :: u[i].name == r.tag && Fits(u[i].shape, r.payload)
  }

  /** As `InRequestUnion`, with the payload's values of the variant's field types. */
  predicate WellTypedRequest<V>(u: seq<RequestVariantDecl>, r: Request<V>, typeOf: V -> Ty)
  {
    exists i | 0 <= i < |u| :: AcceptsTyped(u[i], r, typeOf)
  }

  /** Variant `d` is the request's variant, and the request's values have `d`'s field types. */
  predicate AcceptsTyped<V>(d: RequestVariantDecl, r: Request<V>, typeOf: V -> Ty)
  {
    d.name == r.tag && Fits(d.shape, r.payload)
    && (d.shape.Tupled? ==> TypedArgs(r.payload.values, d.shape.fields, typeOf))
  }

  predicate InReplyUnion<V>(u: seq<ReplyVariantDecl>, r: Reply<V>)
  {
    exists i | 0 <= i < |u| :: u[i].name == r.tag
  }

  predicate WellTypedReply<V>(u: seq<ReplyVariantDecl>, r: Reply<V>, typeOf: V -> Ty)
  {
    exists i | 0 <= i < |u| :: u[i].name == r.tag && typeOf(r.value) == u[i].payload
  }

  /** A call of method `i` with the right number of arguments builds a value of the request union. */
  lemma {:induction false} RequestVariantInUnion<V>(ms: seq<MethodDesc>, i: nat, args: seq<V>)
    requires i < |ms| && |args| == |ms[i].params|
    ensures InRequestUnion(DefineRequest(ms), RequestVariant(ms[i].name, args))
  {
    var u := DefineRequest(ms);
    assert u[i].name == ms[i].name && Fits(u[i].shape, RequestVariant(ms[i].name, args).payload);
  }

  /** With arguments of the declared types, the request is well typed too. */
  lemma {:induction false} RequestVariantWellTyped<V>(ms: seq<MethodDesc>, i: nat, args: seq<V>, typeOf: V -> Ty)
    requires i < |ms| && TypedArgs(args, ArgTypes(ms[i]), typeOf)
    ensures WellTypedRequest(DefineRequest(ms), RequestVariant(ms[i].name, args), typeOf)
  {
    var u := DefineRequest(ms);
    var r := RequestVariant(ms[i].name, args);
    assert AcceptsTyped(u[i], r, typeOf);
  }

  /** In a service with distinct names, a request's tag alone picks its variant, hence its method. */
  lemma {:induction false} RequestTagDeterminesMethod<V>(ms: seq<MethodDesc>, r: Request<V>, i: nat)
    requires DistinctNames(ms)
    requires InRequestUnion(DefineRequest(ms), r)
    requires i < |ms| && ms[i].name == r.tag
    ensures Fits(DefineRequest(ms)[i].shape, r.payload)
  {
    var u := DefineRequest(ms);
    var j :| 0 <= j < |u| && u[j].name == r.tag && Fits(u[j].shape, r.payload);
    SameNameSameIndex(ms, i, j);
  }

  lemma {:induction false} SameNameSameIndex(ms: seq<MethodDesc>, i: nat, j: nat)
    requires DistinctNames(ms)
    requires i < |ms| && j < |ms| && ms[i].name == ms[j].name
    ensures i == j
  {
  }
}
