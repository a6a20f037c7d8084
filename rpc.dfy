/**
 * `rpc!` itself: the first arm rewrites a definition without an `items { }`
 * block into one with an empty block; the second assembles the service
 * module from the schema.
 */
module Rpc {
  import opened Wrappers
  import opened Schema
  import opened ModDoc
  import opened Messages
  import opened Client

  /** An item of the `items { }` block, passed through untouched. */
  datatype Item = Item(tokens: string)

  /** The input of `rpc!`: module attributes and name, the optional items block, the service methods. */
  datatype RpcDef = RpcDef(attrs: seq<Attr>, name: Ident, items: Option<seq<Item>>, methods: seq<MethodDesc>)

  /**
   * What the expansion declares: the module's attributes, name and items, the
   * `Service` trait's methods (also those of the forwarding impl), the two
   * message unions, and which extraction arm the client stubs use.
   */
  datatype Binding = Binding(
    attrs: seq<Attr>,
    name: Ident,
    items: seq<Item>,
    service: seq<MethodDesc>,
    request: seq<RequestVariantDecl>,
    reply: seq<ReplyVariantDecl>,
    extraction: Extraction)

  /** The expansion of `rpc! { ... }`. Duplicate method names are refused by the Rust compiler. */
  function Expand(def: RpcDef): (b: Binding)
    requires DistinctNames(def.methods)
    ensures b.name == def.name
    ensures b.items == (if def.items.Some? then def.items.value else [])
    ensures b.attrs == AddModDoc(def.attrs)
    ensures HasDoc(b.attrs)
    ensures |def.attrs| <= |b.attrs| <= |def.attrs| + 1 && b.attrs[..|def.attrs|] == def.attrs
    ensures b.service == def.methods
    ensures |b.request| == |def.methods| && |b.reply| == |def.methods|
    ensures forall i :: 0 <= i < |def.methods| ==>
      && b.request[i].name == def.methods[i].name
      && b.reply[i].name == def.methods[i].name
      && ShapeFor(b.request[i].shape, def.methods[i])
      && b.reply[i].payload == def.methods[i].ret
    ensures b.extraction.Irrefutable? <==> |def.methods| == 1
    decreases if def.items.None? then 1 else 0
  {
    match def.items
    case None => Expand(def.(items := Some([])))
    case Some(items) =>
      AddModDocKeepsAttributes(def.attrs);
      Binding(AddModDoc(def.attrs), def.name, items, def.methods,
              DefineRequest(def.methods), ReplyUnion(def.methods), ExtractionFor(def.methods))
  }

  /** A definition without `items` expands as the one with an empty `items { }` block. */
  lemma {:induction false} MissingItemsMeansEmpty(def: RpcDef)
    requires DistinctNames(def.methods) && def.items.None?
    ensures Expand(def) == Expand(def.(items := Some([])))
  {
  }
}
