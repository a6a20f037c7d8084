/**
 * The service schema that `rpc!` is given: attributes on the service module
 * and an ordered list of `rpc name(arg: Type, ...) -> Out;` declarations,
 * each with its own attributes. Types are kept as their source text; the
 * model never needs to look inside them.
 */
module Schema {

  type Ident = string

  /** A Rust type as written in the schema (`i32`, `Foo`, `HashMap<String, String>`). */
  datatype Ty = Ty(path: string)

  /**
   * An attribute `#[...]`. `Doc` is exactly the form `#[doc = "..."]` (also
   * what a `///` comment becomes); every other attribute, `#[doc(hidden)]`
   * included, is `Other` with its tokens.
   */
  datatype Attr = Doc(text: string) | Other(tokens: string)

  datatype Param = Param(name: Ident, ty: Ty)

  /** One `rpc` declaration of the `service { ... }` block. */
  datatype MethodDesc = MethodDesc(attrs: seq<Attr>, name: Ident, params: seq<Param>, ret: Ty)

  /** The argument types of a method, in declaration order. */
  function ArgTypes(m: MethodDesc): (ts: seq<Ty>)
    ensures |ts| == |m.params|
    ensures forall k :: 0 <= k < |ts| ==> ts[k] == m.params[k].ty
  {
    TypesOf(m.params)
  }

  function TypesOf(ps: seq<Param>): (ts: seq<Ty>)
    ensures |ts| == |ps|
    ensures forall k :: 0 <= k < |ts| ==> ts[k] == ps[k].ty
  {
    if ps == [] then [] else [ps[0].ty] + TypesOf(ps[1..])
  }

  /** No two methods share a name (Rust rejects duplicate enum variants otherwise). */
  predicate DistinctNames(ms: seq<MethodDesc>)
  {
    forall i, j :: 0 <= i < j < |ms| ==> ms[i].name != ms[j].name
  }
}
