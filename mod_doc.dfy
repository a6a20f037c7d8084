/**
 * `add_mod_doc!`: a recursive scan over the service module's attributes with
 * an accumulator of attributes already passed. The first `#[doc = ...]`
 * found stops the scan and the list is emitted as it came; reaching the end
 * without one appends a fixed placeholder doc.
 */
module ModDoc {
  import opened Schema

  const PlaceholderText: string := "A module containing an rpc service and client stub."
  const Placeholder: Attr := Doc(PlaceholderText)

  predicate HasDoc(attrs: seq<Attr>)
  {
    exists k | 0 <= k < |attrs| :: attrs[k].Doc?
  }

  /**
   * The `@rec { done } { rest }` arms of the macro, tried in order. Whatever
   * was already scanned, the result is the scanned and the remaining
   * attributes as they came, with the placeholder appended exactly when no
   * doc attribute remains.
   */
  function AddModDocRec(done: seq<Attr>, rest: seq<Attr>): (r: seq<Attr>)
    ensures r == if HasDoc(rest) then done + rest else done + rest + [Placeholder]
    decreases |rest|
  {
    if rest == [] then                                 // nothing left
      assert done + rest == done;
      done + [Placeholder]
    else if rest[0].Doc? then                          // a doc attribute: emit all as is
      assert HasDoc(rest) by { assert rest[0].Doc?; }
      done + rest
    else                                               // keep going
      HasDocPastOther(rest);
      assert done + [rest[0]] + rest[1..] == done + rest by { assert rest == [rest[0]] + rest[1..]; }
      AddModDocRec(done + [rest[0]], rest[1..])
  }

  /** Skipping a leading attribute that is not a doc keeps whether a doc is present. */
  lemma {:induction false} HasDocPastOther(rest: seq<Attr>)
    requires rest != [] && !rest[0].Doc?
    ensures HasDoc(rest) <==> HasDoc(rest[1..])
  {
    if HasDoc(rest) {
      var k :| 0 <= k < |rest| && rest[k].Doc?;
      assert k > 0 && rest[1..][k - 1].Doc?;
    }
    if HasDoc(rest[1..]) {
      var k :| 0 <= k < |rest[1..]| && rest[1..][k].Doc?;
      assert rest[k + 1].Doc?;
    }
  }

  /** The entry arm: start the scan with nothing done. */
  function AddModDoc(attrs: seq<Attr>): (r: seq<Attr>)
    ensures HasDoc(r)
    ensures HasDoc(attrs) ==> r == attrs
    ensures !HasDoc(attrs) ==> r == attrs + [Placeholder]
  {
    assert [] + attrs == attrs;
    assert (attrs + [Placeholder])[|attrs|].Doc?;
    AddModDocRec([], attrs)
  }

  /** Every attribute given survives, in its original order, as a prefix of the output. */
  lemma {:induction false} AddModDocKeepsAttributes(attrs: seq<Attr>)
    ensures |attrs| <= |AddModDoc(attrs)| <= |attrs| + 1
    ensures AddModDoc(attrs)[..|attrs|] == attrs
  {
  }

  /** A second application changes nothing: the first one left a doc attribute. */
  lemma {:induction false} AddModDocIdempotent(attrs: seq<Attr>)
    ensures AddModDoc(AddModDoc(attrs)) == AddModDoc(attrs)
  {
  }
}
