/**
 * The server side of a generated module: the `Service` trait's implementers,
 * the blanket forwarding `impl Service for P where P: Deref<Target = S>`,
 * and `__Server::serve`, the `match` from each request variant to the reply
 * variant of the same name.
 */
module Service {
  import opened Wrappers
  import opened Schema
  import opened Messages

  /**
   * An implementer of `Service`: either a concrete one, whose methods are given
   * as one function of the method name and the arguments, or a pointer-like
   * wrapper (`Arc<S>`, `&S`, ...) that dereferences to another implementer.
   */
  datatype Impl<!V> = Concrete(call: (Ident, seq<V>) -> V) | Deref(inner: Impl<V>)

  /** The concrete implementer at the bottom of a chain of wrappers. */
  function Innermost<V>(impl: Impl<V>): (c: Impl<V>)
    ensures c.Concrete?
  {
    match impl
    case Concrete(_) => impl
    case Deref(inner) => Innermost(inner)
  }

  /**
   * `Service::name(&impl, args)`: a wrapper forwards to what it dereferences
   * to, so however many wrappers deep, the call reaches the concrete
   * implementer at the bottom with the same name and arguments.
   */
  function Invoke<V>(impl: Impl<V>, name: Ident, args: seq<V>): (r: V)
    ensures r == Innermost(impl).call(name, args)
  {
    match impl
    case Concrete(call) => call(name, args)
    case Deref(inner) => Invoke(inner, name, args)
  }

  /** The implementer returns a value of each method's return type for arguments of its argument types. */
  ghost predicate Implements<V(!new)>(ms: seq<MethodDesc>, impl: Impl<V>, typeOf: V -> Ty)
  {
    forall i, args :: 0 <= i < |ms| && TypedArgs(args, ArgTypes(ms[i]), typeOf) ==>
      typeOf(Invoke(impl, ms[i].name, args)) == ms[i].ret
  }

  /** The pattern `request_variant!(name args...)` of one match arm. */
  predicate ArmMatches<V>(m: MethodDesc, req: Request<V>)
  {
    req.tag == m.name
    && if |m.params| == 0 then req.payload.Bare?
       else req.payload.Args? && |req.payload.values| == |m.params|
  }

  /**
   * The arms of `match request`, one per method in schema order: the first arm
   * whose pattern matches calls that method and wraps the result in the reply
   * variant of the same name. `None` means no arm matched.
   */
  function MatchArms<V>(arms: seq<MethodDesc>, impl: Impl<V>, req: Request<V>): (r: Option<Reply<V>>)
    ensures r.None? <==> forall i :: 0 <= i < |arms| ==> !ArmMatches(arms[i], req)
    ensures r.Some? ==> r.value.tag == req.tag && r.value.value == Invoke(impl, req.tag, ArgsOf(req.payload))
    decreases |arms|
  {
    if arms == [] then None
    else if ArmMatches(arms[0], req) then
      Some(Reply(arms[0].name, Invoke(impl, arms[0].name, ArgsOf(req.payload))))
    else
      var r := MatchArms(arms[1..], impl, req);
      assert forall i :: 1 <= i < |arms| ==> arms[i] == arms[1..][i - 1];
      r
  }

  /** Every value of the request union is matched by the arm of its own variant. */
  lemma {:induction false} ArmsCoverRequestUnion<V>(ms: seq<MethodDesc>, req: Request<V>)
    requires InRequestUnion(DefineRequest(ms), req)
    ensures exists i :: 0 <= i < |ms| && ArmMatches(ms[i], req)
  {
    var u := DefineRequest(ms);
    var i :| 0 <= i < |u| && u[i].name == req.tag && Fits(u[i].shape, req.payload);
    assert ShapeFor(u[i].shape, ms[i]);
    if u[i].shape.Tupled? {
      assert |u[i].shape.fields| == |ms[i].params|;
    }
  }

  /**
   * `__Server::serve`: total over the request union; the reply has the
   * request's tag and carries what the implementer returns for its arguments.
   */
  function Serve<V>(ms: seq<MethodDesc>, impl: Impl<V>, req: Request<V>): (r: Reply<V>)
    requires InRequestUnion(DefineRequest(ms), req)
    ensures r.tag == req.tag
    ensures r.value == Invoke(impl, req.tag, ArgsOf(req.payload))
    ensures InReplyUnion(ReplyUnion(ms), r)
  {
    ArmsCoverRequestUnion(ms, req);
    var r := MatchArms(ms, impl, req).value;
    ReplyTagInUnion(ms, req, r);
    r
  }

  /** A reply tagged with the name of a matched arm is a value of the reply union. */
  lemma {:induction false} ReplyTagInUnion<V>(ms: seq<MethodDesc>, req: Request<V>, r: Reply<V>)
    requires exists i :: 0 <= i < |ms| && ArmMatches(ms[i], req)
    requires r.tag == req.tag
    ensures InReplyUnion(ReplyUnion(ms), r)
  {
    var i :| 0 <= i < |ms| && ArmMatches(ms[i], req);
    assert ReplyUnion(ms)[i].name == r.tag;
  }

  /** The arguments of a well-typed request have the argument types of the method its tag names. */
  lemma {:induction false} WellTypedRequestArgs<V>(ms: seq<MethodDesc>, req: Request<V>, typeOf: V -> Ty) returns (i: nat)
    requires WellTypedRequest(DefineRequest(ms), req, typeOf)
    ensures i < |ms| && ms[i].name == req.tag
    ensures TypedArgs(ArgsOf(req.payload), ArgTypes(ms[i]), typeOf)
  {
    var u := DefineRequest(ms);
    i := PickVariant(u, req, typeOf);
    ShapeArgs(ms[i], u[i], req, typeOf);
  }

  /** The variant of `u` that a well-typed request belongs to. */
  lemma {:induction false} PickVariant<V>(u: seq<RequestVariantDecl>, req: Request<V>, typeOf: V -> Ty) returns (i: nat)
    requires WellTypedRequest(u, req, typeOf)
    ensures i < |u| && AcceptsTyped(u[i], req, typeOf)
  {
    i :| 0 <= i < |u| && AcceptsTyped(u[i], req, typeOf);
  }

  /** A payload that fits a method's shape carries values of the method's argument types. */
  lemma {:induction false} ShapeArgs<V>(m: MethodDesc, d: RequestVariantDecl, req: Request<V>, typeOf: V -> Ty)
    requires ShapeFor(d.shape, m) && AcceptsTyped(d, req, typeOf)
    ensures TypedArgs(ArgsOf(req.payload), ArgTypes(m), typeOf)
  {
    if d.shape.Nullary? {
      assert ArgsOf(req.payload) == [] && ArgTypes(m) == [];
    }
  }

  /** A well-typed request served by a conforming implementer yields a reply of the method's return type. */
  lemma {:induction false} ServeWellTyped<V(!new)>(ms: seq<MethodDesc>, impl: Impl<V>, req: Request<V>, typeOf: V -> Ty)
    requires WellTypedRequest(DefineRequest(ms), req, typeOf)
    requires Implements(ms, impl, typeOf)
    ensures WellTypedReply(ReplyUnion(ms), Serve(ms, impl, req), typeOf)
  {
    var i := WellTypedRequestArgs(ms, req, typeOf);
    assert InRequestUnion(DefineRequest(ms), req);
    var r := Serve(ms, impl, req);
    assert typeOf(Invoke(impl, ms[i].name, ArgsOf(req.payload))) == ms[i].ret;
    assert ReplyUnion(ms)[i].name == r.tag && ReplyUnion(ms)[i].payload == typeOf(r.value);
  }

  /** Serving through a wrapper (`serve(addr, Arc::new(server), ...)`) answers as the wrapped implementer does. */
  lemma {:induction false} ServeThroughWrapper<V>(ms: seq<MethodDesc>, impl: Impl<V>, req: Request<V>)
    requires InRequestUnion(DefineRequest(ms), req)
    ensures Serve(ms, Deref(impl), req) == Serve(ms, impl, req)
  {
  }
}
