/**
 * The client side of a generated module: the blocking `Client` methods
 * (`client_methods!`), the asynchronous `AsyncClient` methods with their
 * per-method reply mapper (`async_client_methods!`), and `Future::get`.
 *
 * The transport's `rpc` and `rpc_async` are parameters: functions from the
 * request sent to what the transport hands back, a reply or an error.
 */
module Client {
  import opened Wrappers
  import opened Schema
  import opened Messages
  import opened Service

  /** The crate's error type; what it distinguishes is not part of this model. */
  datatype Error = Error(description: string)

  /**
   * How a client call ends: it returns a `Result` (a reply payload or a
   * transport error), or it panics because the reply's variant was not the
   * one of the called method.
   */
  datatype Outcome<V> = Completed(result: Result<V, Error>) | Panicked(expected: Ident, got: Ident)

  /** What the transport delivers for a request. */
  type Transport<!V> = Request<V> -> Result<Reply<V>, Error>

  /** Which arm of `client_methods!` / `async_client_methods!` generates the methods. */
  datatype Extraction = Irrefutable | Refutable

  /**
   * A single method declaration matches the first macro arm, whose `let
   * __Reply::name(reply) = reply` binds without a tag check; any other number
   * of methods matches the second, whose `if let` checks the tag.
   */
  function ExtractionFor(ms: seq<MethodDesc>): (e: Extraction)
    ensures e.Irrefutable? <==> |ms| == 1
  {
    if |ms| == 1 then Irrefutable else Refutable
  }

  /** `name(args)` is a method of the generated stub: the schema declares it with that many arguments. */
  predicate IsMethodCall<V>(ms: seq<MethodDesc>, name: Ident, args: seq<V>)
  {
    exists i | 0 <= i < |ms| :: ms[i].name == name && |args| == |ms[i].params|
  }

  /**
   * `Client::name(&self, args)`: send `request_variant!(name args)` through
   * `rpc`; `try!` returns a transport error as it is; otherwise extract the
   * payload of the reply.
   */
  function BlockingCall<V>(ms: seq<MethodDesc>, name: Ident, args: seq<V>, rpc: Transport<V>): (r: Outcome<V>)
    requires IsMethodCall(ms, name, args)
    ensures rpc(RequestVariant(name, args)).Err? ==> r == Completed(Err(rpc(RequestVariant(name, args)).error))
    ensures r.Completed? && r.result.Ok? <==>
      rpc(RequestVariant(name, args)).Ok? && (|ms| == 1 || rpc(RequestVariant(name, args)).value.tag == name)
    ensures r.Completed? && r.result.Ok? ==> r.result.value == rpc(RequestVariant(name, args)).value.value
    ensures r.Panicked? ==> r.expected == name && r.got == rpc(RequestVariant(name, args)).value.tag != name
    ensures rpc(RequestVariant(name, args)).Ok? && |ms| != 1 && rpc(RequestVariant(name, args)).value.tag != name ==>
      r == Panicked(name, rpc(RequestVariant(name, args)).value.tag)
  {
    match rpc(RequestVariant(name, args))
    case Err(e) => Completed(Err(e))
    case Ok(reply) =>
      match ExtractionFor(ms)
      case Irrefutable => Completed(Ok(reply.value))
      case Refutable =>
        match CheckTag(name, reply)
        case Payload(v) => Completed(Ok(v))
        case Mismatch(expected, got) => Panicked(expected, got)
  }

  /** What a reply mapper makes of a reply: its payload, or the panic of a mismatched tag. */
  datatype Extracted<V> = Payload(value: V) | Mismatch(expected: Ident, got: Ident)

  /** The `if let __Reply::name(reply) = reply { reply } else { panic!(...) }` of the checking arm. */
  function CheckTag<V>(name: Ident, reply: Reply<V>): (e: Extracted<V>)
    ensures e.Payload? <==> reply.tag == name
    ensures e.Payload? ==> e.value == reply.value
    ensures e.Mismatch? ==> e.expected == name && e.got == reply.tag
  {
    if reply.tag == name then Payload(reply.value) else Mismatch(name, reply.tag)
  }

  /** The `fn mapper(reply: __Reply) -> Out` generated for method `name`. */
  function Mapper<V(!new)>(ms: seq<MethodDesc>, name: Ident): (mapper: Reply<V> -> Extracted<V>)
    ensures forall reply :: mapper(reply).Payload? <==> (|ms| == 1 || reply.tag == name)
    ensures forall reply :: mapper(reply).Payload? ==> mapper(reply).value == reply.value
    ensures forall reply :: mapper(reply).Mismatch? ==> mapper(reply).expected == name && mapper(reply).got == reply.tag
  {
    match ExtractionFor(ms)
    case Irrefutable => (reply: Reply<V>) => Payload(reply.value)
    case Refutable => (reply: Reply<V>) => CheckTag(name, reply)
  }

  /**
   * The generated `Future<T>`: what the transport's deferred reply resolves to,
   * and the mapper fixed when the call was made.
   */
  datatype Future<!V> = Future(future: Result<Reply<V>, Error>, mapper: Reply<V> -> Extracted<V>)

  /** `Future::get`: `self.future.get().map(self.mapper)`; an error passes through, a reply goes to the mapper. */
  function Get<V>(f: Future<V>): (r: Outcome<V>)
    ensures f.future.Err? ==> r == Completed(Err(f.future.error))
    ensures f.future.Ok? && f.mapper(f.future.value).Payload? ==> r == Completed(Ok(f.mapper(f.future.value).value))
    ensures f.future.Ok? && f.mapper(f.future.value).Mismatch? ==>
      r == Panicked(f.mapper(f.future.value).expected, f.mapper(f.future.value).got)
  {
    match f.future
    case Err(e) => Completed(Err(e))
    case Ok(reply) =>
      match f.mapper(reply)
      case Payload(v) => Completed(Ok(v))
      case Mismatch(expected, got) => Panicked(expected, got)
  }

  /** `AsyncClient::name(&self, args)`: start `rpc_async` on the request and pair it with the method's mapper. */
  function AsyncCall<V(!new)>(ms: seq<MethodDesc>, name: Ident, args: seq<V>, rpcAsync: Transport<V>): (f: Future<V>)
    requires IsMethodCall(ms, name, args)
    ensures f.future == rpcAsync(RequestVariant(name, args))
    ensures forall reply :: f.mapper(reply).Payload? <==> (|ms| == 1 || reply.tag == name)
    ensures forall reply :: f.mapper(reply).Payload? ==> f.mapper(reply).value == reply.value
    ensures forall reply :: f.mapper(reply).Mismatch? ==> f.mapper(reply).expected == name && f.mapper(reply).got == reply.tag
    ensures f.mapper == Mapper(ms, name)
  {
    Future(rpcAsync(RequestVariant(name, args)), Mapper(ms, name))
  }

  /** Given the same delivery from `rpc` and `rpc_async`, the blocking and the asynchronous client agree. */
  lemma {:induction false} AsyncAgreesWithBlocking<V(!new)>(ms: seq<MethodDesc>, name: Ident, args: seq<V>, rpc: Transport<V>, rpcAsync: Transport<V>)
    requires IsMethodCall(ms, name, args)
    requires rpcAsync(RequestVariant(name, args)) == rpc(RequestVariant(name, args))
    ensures Get(AsyncCall(ms, name, args, rpcAsync)) == BlockingCall(ms, name, args, rpc)
  {
  }

  /**
   * In a single-method service every value of the reply union carries the one
   * method's tag, so the unchecked extraction, blocking or asynchronous, gives
   * what the tag check would: the payload, never a mismatch.
   */
  lemma {:induction false} SingleMethodExtractionIsExact<V(!new)>(ms: seq<MethodDesc>, reply: Reply<V>)
    requires |ms| == 1
    requires InReplyUnion(ReplyUnion(ms), reply)
    ensures reply.tag == ms[0].name
    ensures Mapper(ms, ms[0].name)(reply) == CheckTag(ms[0].name, reply) == Payload(reply.value)
  {
    var i :| 0 <= i < |ReplyUnion(ms)| && ReplyUnion(ms)[i].name == reply.tag;
  }

  /** A transport that delivers every request of the union to `serve` and brings its reply back. */
  ghost predicate Faithful<V(!new)>(rpc: Transport<V>, ms: seq<MethodDesc>, impl: Impl<V>)
  {
    forall req :: InRequestUnion(DefineRequest(ms), req) ==> rpc(req) == Ok(Serve(ms, impl, req))
  }

  /** Such a transport, in process: requests outside the union cannot be built by a generated client. */
  function Loopback<V(!new)>(ms: seq<MethodDesc>, impl: Impl<V>): (rpc: Transport<V>)
    ensures forall req :: InRequestUnion(DefineRequest(ms), req) ==> rpc(req) == Ok(Serve(ms, impl, req))
  {
    (req: Request<V>) =>
      if InRequestUnion(DefineRequest(ms), req) then Ok(Serve(ms, impl, req))
      else Err(Error("request outside the service's request union"))
  }

  /**
   * The round trip: calling method `name` through a faithful transport returns
   * what the implementer computes for those arguments, never a transport
   * error and never a panic, from the blocking and from the asynchronous client.
   */
  lemma {:induction false} RoundTrip<V(!new)>(ms: seq<MethodDesc>, impl: Impl<V>, name: Ident, args: seq<V>, rpc: Transport<V>)
    requires IsMethodCall(ms, name, args)
    requires Faithful(rpc, ms, impl)
    ensures BlockingCall(ms, name, args, rpc) == Completed(Ok(Invoke(impl, name, args)))
    ensures Get(AsyncCall(ms, name, args, rpc)) == Completed(Ok(Invoke(impl, name, args)))
  {
    var i :| 0 <= i < |ms| && ms[i].name == name && |args| == |ms[i].params|;
    RequestVariantInUnion(ms, i, args);
    var req := RequestVariant(name, args);
    assert rpc(req) == Ok(Serve(ms, impl, req));
    AsyncAgreesWithBlocking(ms, name, args, rpc, rpc);
  }
}
