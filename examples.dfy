/**
 * The services the crate's own tests declare, and the results its tests
 * assert, stated over the model: `my_server` with `hello(foo: Foo) -> Foo`
 * and `add(x: i32, y: i32) -> i32`, the zero-argument `qux`, and the
 * attribute cases `bar` and `baz`.
 */
module Examples {
  import opened Wrappers
  import opened Schema
  import opened ModDoc
  import opened Messages
  import opened Service
  import opened Client
  import opened Rpc

  /** The values the test services exchange. */
  datatype TestValue = I32(n: int) | Str(s: string) | Foo(message: string)

  function TypeOf(v: TestValue): Ty
  {
    match v
    case I32(_) => Ty("i32")
    case Str(_) => Ty("String")
    case Foo(_) => Ty("Foo")
  }

  const MyServerMethods: seq<MethodDesc> := [
    MethodDesc([], "hello", [Param("foo", Ty("Foo"))], Ty("Foo")),
    MethodDesc([], "add", [Param("x", Ty("i32")), Param("y", Ty("i32"))], Ty("i32"))
  ]

  const MyServer: RpcDef :=
    RpcDef([Other("deny(missing_docs)"), Doc("Hello")], "my_server", Some([Item("pub struct Foo { pub message: String }")]),
           MyServerMethods)

  /**
   * The test's `Server`: `hello` greets, `add` adds. Calls that do not fit the
   * trait's signatures cannot be written against it; they get a dummy value.
   */
  function ServerCall(name: Ident, args: seq<TestValue>): (r: TestValue)
    ensures name == "hello" && TypedArgs(args, [Ty("Foo")], TypeOf) ==>
      r.Foo? && args[0].Foo? && r.message == "Hello, " + args[0].message
    ensures name == "add" && TypedArgs(args, [Ty("i32"), Ty("i32")], TypeOf) ==>
      r.I32? && args[0].I32? && args[1].I32? && r.n == args[0].n + args[1].n
  {
    if name == "hello" && |args| == 1 && args[0].Foo? then Foo("Hello, " + args[0].message)
    else if name == "add" && |args| == 2 && args[0].I32? && args[1].I32? then I32(args[0].n + args[1].n)
    else Str("")
  }

  const Server: Impl<TestValue> := Concrete(ServerCall)

  /** `Server` implements `my_server::Service` with the declared types. */
  lemma {:induction false} ServerImplementsMyServer()
    ensures Implements(MyServerMethods, Server, TypeOf)
  {
    forall i, args | 0 <= i < |MyServerMethods| && TypedArgs(args, ArgTypes(MyServerMethods[i]), TypeOf)
      ensures TypeOf(Invoke(Server, MyServerMethods[i].name, args)) == MyServerMethods[i].ret
    {
      if i == 0 {
        assert TypeOf(args[0]) == Ty("Foo");
      } else {
        assert TypeOf(args[0]) == Ty("i32") && TypeOf(args[1]) == Ty("i32");
      }
    }
  }

  const Loop: Transport<TestValue> := Loopback(MyServerMethods, Server)

  /** The `simple` test, first call: `add(1, 2)` returns 3 over a faithful transport. */
  lemma {:induction false} SimpleAdd()
    ensures IsMethodCall(MyServerMethods, "add", [I32(1), I32(2)])
    ensures BlockingCall(MyServerMethods, "add", [I32(1), I32(2)], Loop) == Completed(Ok(I32(3)))
  {
    assert MyServerMethods[1].name == "add";
    RoundTrip(MyServerMethods, Server, "add", [I32(1), I32(2)], Loop);
  }

  /** The `simple` test, second call: `hello(Foo { message: "Adam" })` returns `Foo { message: "Hello, Adam" }`. */
  lemma {:induction false} SimpleHello()
    ensures IsMethodCall(MyServerMethods, "hello", [Foo("Adam")])
    ensures BlockingCall(MyServerMethods, "hello", [Foo("Adam")], Loop) == Completed(Ok(Foo("Hello, Adam")))
  {
    assert MyServerMethods[0].name == "hello";
    RoundTrip(MyServerMethods, Server, "hello", [Foo("Adam")], Loop);
    GreetAdam();
  }

  lemma {:induction false} GreetAdam()
    ensures Invoke(Server, "hello", [Foo("Adam")]) == Foo("Hello, Adam")
  {
    assert "Hello, " + "Adam" == "Hello, Adam";
  }

  /** The `simple_async` test: the same answers through `AsyncClient` and `Future::get`. */
  lemma {:induction false} SimpleAsync()
    ensures IsMethodCall(MyServerMethods, "add", [I32(1), I32(2)])
    ensures Get(AsyncCall(MyServerMethods, "add", [I32(1), I32(2)], Loop)) == Completed(Ok(I32(3)))
    ensures IsMethodCall(MyServerMethods, "hello", [Foo("Adam")])
    ensures Get(AsyncCall(MyServerMethods, "hello", [Foo("Adam")], Loop)) == Completed(Ok(Foo("Hello, Adam")))
  {
    SimpleAdd();
    SimpleHello();
    AsyncAgreesWithBlocking(MyServerMethods, "add", [I32(1), I32(2)], Loop, Loop);
    AsyncAgreesWithBlocking(MyServerMethods, "hello", [Foo("Adam")], Loop, Loop);
  }

  /** `serve_arc_server`: `serve` accepts `Arc::new(Server)`, and by the forwarding impl it answers as `Server`. */
  lemma {:induction false} ArcServerTest(req: Request<TestValue>)
    requires InRequestUnion(DefineRequest(MyServerMethods), req)
    ensures Serve(MyServerMethods, Deref(Server), req) == Serve(MyServerMethods, Server, req)
  {
    ServeThroughWrapper(MyServerMethods, Server, req);
  }

  /** A reply of the wrong variant in the two-method `my_server` is a panic naming both tags, not a value. */
  lemma {:induction false} WrongReplyPanics()
    ensures IsMethodCall(MyServerMethods, "add", [I32(1), I32(2)])
    ensures BlockingCall(MyServerMethods, "add", [I32(1), I32(2)],
                         (req: Request<TestValue>) => Ok(Reply("hello", Foo("x"))))
            == Panicked("add", "hello")
  {
    assert MyServerMethods[1].name == "add";
  }

  /** The `qux` service: a method without arguments gets a bare variant, and one method means unchecked extraction. */
  lemma {:induction false} QuxTest()
    ensures Expand(RpcDef([], "qux", None, [MethodDesc([], "hello", [], Ty("String"))])).request
            == [RequestVariantDecl("hello", Nullary)]
    ensures Expand(RpcDef([], "qux", None, [MethodDesc([], "hello", [], Ty("String"))])).extraction == Irrefutable
    ensures Expand(RpcDef([], "qux", None, [MethodDesc([], "hello", [], Ty("String"))])).attrs == [Placeholder]
    ensures RequestVariant<TestValue>("hello", []) == Request("hello", Bare)
  {
    var def := RpcDef([], "qux", None, [MethodDesc([], "hello", [], Ty("String"))]);
    var b := Expand(def);
    assert |b.request| == 1 && b.request[0].name == "hello" && b.request[0].shape == Nullary;
    assert b.attrs == AddModDoc([]);
  }

  /** Module docs of the tests: `bar` gets the placeholder after its attribute; `baz` and `my_server` keep theirs. */
  lemma {:induction false} ModuleDocTests()
    ensures AddModDoc([Other("deny(missing_docs)")]) == [Other("deny(missing_docs)"), Placeholder]
    ensures AddModDoc([Other("deny(missing_docs)"), Doc("Hello bob"), Other("allow(unused)")])
            == [Other("deny(missing_docs)"), Doc("Hello bob"), Other("allow(unused)")]
    ensures AddModDoc(MyServer.attrs) == MyServer.attrs
  {
    assert !HasDoc([Other("deny(missing_docs)")]);
    assert [Other("deny(missing_docs)"), Doc("Hello bob"), Other("allow(unused)")][1].Doc?;
    assert MyServer.attrs[1].Doc?;
  }
}
