# tarpc `rpc!` service generator, modelled in Dafny

tarpc's `rpc!` macro takes a service definition and expands it into a module. The definition has module attributes, a module name, an optional `items { }` block and a list of `rpc name(arg: Type, ...) -> Out;` declarations. The generated module holds:

- the module documentation: a placeholder doc is added when the definition has none (`add_mod_doc!`);
- the `Service` trait and its blanket forwarding impl for every `P: Deref<Target = S>`;
- the message enums `__Request` (`define_request!`, `request_variant!`) and `__Reply`;
- the server dispatch `__Server::serve`;
- the blocking `Client` methods (`client_methods!`) and the asynchronous `AsyncClient` methods (`async_client_methods!`), which return a `Future` that `get` resolves.

The model describes each of these as pure Dafny functions over a schema of the service (`Schema`), which mirrors the macro's own input:

| file | module | models |
|---|---|---|
| `wrappers.dfy` | `Wrappers` | `Option` and `Result` |
| `schema.dfy` | `Schema` | the service schema: attributes, methods, parameter and return types |
| `mod_doc.dfy` | `ModDoc` | `add_mod_doc!` |
| `messages.dfy` | `Messages` | `define_request!`, `request_variant!`, `__Reply`, and the values of both unions |
| `service.dfy` | `Service` | implementers, Deref forwarding, `__Server::serve` |
| `client.dfy` | `Client` | `client_methods!`, `async_client_methods!`, `Future::get`, and an in-process transport |
| `rpc.dfy` | `Rpc` | the two arms of `rpc!` |
| `examples.dfy` | `Examples` | the services in the crate's own tests, and what those tests assert |

Values that cross the wire have a type parameter `V`. A service's implementer is a function of the method name and the argument values, or a wrapper that dereferences to another implementer. The transport's `rpc` and `rpc_async` are parameters: functions from a request to a reply or an error.

A reply of the wrong variant makes a generated client `panic!`. The model represents this as an outcome, `Panicked(expected, got)`, kept apart from `Completed(Err(e))`, which is a transport error. The panic unwinds the calling thread; it is not an error value the caller receives, and the model keeps it apart from one.

`Client.Loopback` is an in-process transport that hands every request of the union to `serve`. It is not part of the generated code; it is there to show that the faithful transport `Client.RoundTrip` assumes can exist, and the examples use it.

## Model

| member | source | states |
|---|---|---|
| ModDoc.AddModDocRec | tarpc/src/macros.rs:16-61 | The recursive scan, from any accumulator, returns the accumulator followed by the remaining attributes unchanged. It appends the placeholder doc exactly when no `#[doc = ...]` remains. |
| ModDoc.AddModDoc | tarpc/src/macros.rs:63-74 | The output always has a doc attribute. Input that already has a doc comes back unchanged. Input without one comes back with the placeholder "A module containing an rpc service and client stub." appended. |
| ModDoc.AddModDocKeepsAttributes | tarpc/src/macros.rs:16-61 | Every given attribute survives, in order, as a prefix of the output. At most one attribute is added. |
| ModDoc.AddModDocIdempotent | tarpc/src/macros.rs:29-43 | Applying the macro a second time changes nothing. |
| Schema.ArgTypes | tarpc/src/macros.rs:257 | The argument types passed to `define_request!` are the declared parameter types, one per parameter, in order. |
| Messages.VariantFor | tarpc/src/macros.rs:162-165 | A method's variant has the method's name. Its shape is nullary exactly when the method has no parameters, and otherwise is the tuple of its argument types. |
| Messages.DefineRequestRec | tarpc/src/macros.rs:156-167 | The accumulator walk keeps the finished variants as a prefix. It adds exactly one variant per remaining method, in order, with that method's name and shape. |
| Messages.DefineRequest | tarpc/src/macros.rs:156-167 | `__Request` has one variant per method, in schema order, each with the method's name and the right shape (bare without arguments, otherwise the tuple of argument types). |
| Messages.ReplyUnion | tarpc/src/macros.rs:259-265 | `__Reply` has one variant per method, in schema order, each carrying the method's return type. |
| Messages.UnionsAligned | tarpc/src/macros.rs:257-265 | The request and reply unions have the schema's size and agree name by name at every position. |
| Messages.RequestVariant | tarpc/src/macros.rs:172-175 | `request_variant!` tags the request with the method name and carries exactly the given arguments. The payload is bare exactly when there are none. |
| Messages.RequestVariantInUnion | tarpc/src/macros.rs:172-175 | A call of a declared method with its number of arguments builds a value of that service's `__Request`. |
| Messages.RequestVariantWellTyped | tarpc/src/macros.rs:172-175 | With arguments of the declared types, that request is also well typed against `__Request`. |
| Messages.RequestTagDeterminesMethod | tarpc/src/macros.rs:156-167 | With distinct method names, a request's tag alone fixes its variant: the payload fits the variant of the method with that name. |
| Service.Invoke | tarpc/src/macros.rs:245-255 | A trait call through the forwarding impl, however many wrappers deep, gives what the innermost concrete implementer returns for the same name and arguments. |
| Service.MatchArms | tarpc/src/macros.rs:330-335 | The arms match nothing exactly when no method's pattern (same name, same arity) fits the request. When one matches, the reply has the request's tag and carries what the implementer returns for the request's arguments. |
| Service.ArmsCoverRequestUnion | tarpc/src/macros.rs:329-336 | Every value of `__Request` is matched by some arm, so the `match` is exhaustive over the union. |
| Service.Serve | tarpc/src/macros.rs:329-336 | For every value of the request union, `serve` returns a reply with the request's tag. The reply carries the implementer's result for the request's arguments and is a value of `__Reply`. |
| Service.ReplyTagInUnion | tarpc/src/macros.rs:259-265 | A reply tagged with the name of a matched arm is a value of `__Reply`. |
| Service.ShapeArgs | tarpc/src/macros.rs:162-165 | A payload that fits a method's variant carries values of the method's argument types (none when the variant is bare). |
| Service.WellTypedRequestArgs | tarpc/src/macros.rs:156-167 | A well-typed request names a declared method and carries arguments of that method's parameter types. |
| Service.ServeWellTyped | tarpc/src/macros.rs:329-336 | Served by an implementer that keeps the trait's signatures, a well-typed request gets a reply whose value has the return type of the reply variant with its tag. |
| Service.ServeThroughWrapper | tarpc/src/macros.rs:245-255 | Serving through a wrapper such as `Arc<S>` answers every request exactly as serving `S` itself. |
| Client.ExtractionFor | tarpc/src/macros.rs:81-107 | The unchecked (`let`) extraction arm is chosen exactly when the service has one method. Otherwise the checking (`if let`) arm is used. |
| Client.BlockingCall | tarpc/src/macros.rs:81-107 | A transport error is returned unchanged. The call succeeds exactly when the transport delivers a reply and either the service has one method or the reply's tag is the method's name. It then returns the reply's payload. Otherwise it panics, naming the expected and the received tag. |
| Client.CheckTag | tarpc/src/macros.rs:100-104 | The `if let` yields the payload exactly when the tag is the method's name. Otherwise it reports a mismatch naming both tags. |
| Client.Mapper | tarpc/src/macros.rs:120-143 | For every reply, the generated mapper yields the payload exactly when the service has one method or the tag matches. A mismatch names the expected and the received tag. |
| Client.Get | tarpc/src/macros.rs:273-278 | `get` passes a transport error through unchanged. It applies the mapper to a delivered reply, which gives the payload or the mapper's panic. |
| Client.AsyncCall | tarpc/src/macros.rs:113-151 | The future holds what `rpc_async` returns for `request_variant!(name args)`. It also holds the method's own mapper: it accepts exactly the replies the blocking client accepts, and a mismatch names the called method and the received tag. |
| Client.AsyncAgreesWithBlocking | tarpc/src/macros.rs:267-278 | When `rpc` and `rpc_async` deliver the same result, `get` on the asynchronous call gives the same outcome as the blocking call: the same value, the same error or the same panic. |
| Client.SingleMethodExtractionIsExact | tarpc/src/macros.rs:82-92 | In a one-method service, every value of `__Reply` has the method's tag. So the unchecked extraction gives what the tag check would (the payload) and can never skip a real mismatch. |
| Client.RoundTrip | tarpc/src/macros.rs:404-426 | Through a faithful transport, calling any declared method, blocking or asynchronous, returns exactly what the implementer computes for those arguments. It never returns a transport error and never panics. |
| Rpc.Expand | tarpc/src/macros.rs:208-352 | The expansion keeps the module's name and items. Its attributes are exactly what `add_mod_doc!` makes of the given ones, so they always include a module doc, keep the given ones as a prefix and add at most one. The trait declares the schema's methods. Both unions are aligned with the schema, with names, shapes and return types. The one-method case selects unchecked extraction. |
| Rpc.MissingItemsMeansEmpty | tarpc/src/macros.rs:180-206 | A definition without an `items` block expands exactly as the same definition with an empty `items { }`. |
| Examples.ServerCall | tarpc/src/macros.rs:387-395 | For a `Foo` argument, `hello` returns a `Foo` whose message is "Hello, " followed by the argument's message. For two `i32` arguments, `add` returns their sum, taken over unbounded integers (see "## Left out"). |
| Examples.ServerImplementsMyServer | tarpc/src/macros.rs:386-395 | The test `Server` returns a `Foo` for `hello(Foo)` and an `i32` for `add(i32, i32)`. |
| Examples.SimpleAdd | tarpc/src/macros.rs:404-414 | `client.add(1, 2)` returns 3. |
| Examples.SimpleHello | tarpc/src/macros.rs:404-414 | `client.hello(Foo { message: "Adam" })` returns `Foo { message: "Hello, Adam" }`. |
| Examples.SimpleAsync | tarpc/src/macros.rs:416-426 | The same two calls through `AsyncClient` and `get` return the same values. |
| Examples.ArcServerTest | tarpc/src/macros.rs:397-402 | `serve` accepts `Arc::new(Server)`, and by the forwarding impl it answers every request of the union as `Server` does. |
| Examples.WrongReplyPanics | tarpc/src/macros.rs:98-104 | In the two-method `my_server`, a `hello` reply to an `add` call panics with expected `add` and got `hello`. |
| Examples.QuxTest | tarpc/src/macros.rs:428-435 | The zero-argument `qux::hello` gets a bare request variant and the placeholder module doc. Its client uses the unchecked extraction. |
| Examples.ModuleDocTests | tarpc/src/macros.rs:452-486 | `bar` (an attribute, no doc) gets the placeholder after its attribute. `baz` and `my_server` keep their own attributes and docs unchanged. |

## Left out

- Connection setup: the generated `Client::new`, `AsyncClient::new` and `serve` only pass their arguments on to the transport, to `protocol::Client::new`, and to `serve_async` on `Arc::new(__Server(service))`. They are not modelled.
- Network transport: the transport's `rpc`, `rpc_async`, `serve_async` and `ServeHandle` sit outside the macro. They appear only as the transport parameter; `Client.Loopback` stands in for a working connection.
- Serialization: `Serialize`/`Deserialize` on both unions and the wire encoding are not modelled. A request travels as a value.
- Concurrency: the `Send + Sync` bounds, the `'static` bound and the `Arc` around `__Server` are not modelled.
- Derives: `Debug` and `allow(non_camel_case_types)` are not modelled. The benchmark and the `debug` test are also left out.
- Token-level macro mechanics: `as_item!`, `stringify!`, hygiene, and the parsing of `$x:meta`, `$x:ty` and `$x:item` are not modelled. Types and items are kept as opaque text, and attributes are either `#[doc = ...]` or something else.
- Client.BlockingCall, Client.CheckTag, Client.Mapper: the panic message shows the whole received reply through `{:?}`. The model keeps only the received tag, for the blocking client and for the asynchronous mapper alike.
- Rpc.Expand: requires distinct method names. The Rust compiler rejects duplicate enum variants and trait methods, so such a definition has no expansion to model.
- Service.Serve: defined only on values of the request union. The generated `match` covers exactly those, and no other `__Request` value can be built.
- Trait methods are modelled as one function of the method name and the argument values. Different Rust types are told apart by a typing function supplied with each property.
- Examples.ServerCall, Examples.SimpleAdd: the test `Server::add` does `x + y` on `i32`, which panics on overflow in a debug build and wraps in a release build. The model's `I32` holds an unbounded integer and `add` returns the unbounded sum. This agrees with the source only while the sum fits in 32 bits, as it does for the test's `1 + 2`.
