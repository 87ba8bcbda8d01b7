/** Permissions ::= SEQUENCE OF Permissions1
    The elements are opaque nodes here; each one's own encoding is constructed (it is a
    SEQUENCE), and the encoder stores them in an array that only holds constructed encodings. */
module V3Permissions {
  import opened BerHeader
  import opened Ber
  import opened Asn1

  /** Every component becomes an element, in order; any number of them, none included. The
      tag is never examined. */
  function DecodeValue(ber: Node): (r: Result<seq<Node>>)
    ensures r.Ok? <==> ber.Cons?
    ensures r.Ok? ==> r.value == ber.children
    ensures r.Err? ==> r.error == BadForm
  {
    if !ber.Cons? then Err(BadForm) else Ok(ber.children)
  }

  /** Decoding an encoding gives back the elements, same number, same order, under any tag. */
  lemma DecodeEncode(elems: seq<Node>, c: TagClass, t: nat)
    requires AllConstructed(elems)
    ensures DecodeValue(SequenceOfValue(elems, c, t).value) == Ok(elems)
  {
  }

  /** A decoded value whose elements are all constructed encodes back to the node it came from. */
  lemma EncodeDecode(ber: Node)
    requires DecodeValue(ber).Ok? && AllConstructed(DecodeValue(ber).value)
    ensures SequenceOfValue(DecodeValue(ber).value, ber.cls, ber.tag) == Ok(ber)
  {
  }

  /** From value to octets and back, under the universal SEQUENCE tag. */
  lemma OctetsRoundTrip(elems: seq<Node>)
    requires AllConstructed(elems)
    requires TotalLength(Cons(Universal, SequenceTag, elems)) <= MaxInt
    ensures var r := DecodeNode(Encode(SequenceOfValue(elems, Universal, SequenceTag).value));
      r.Some? && r.value.1 == [] && DecodeValue(r.value.0) == Ok(elems)
  {
    DecodeEncodeWhole(Cons(Universal, SequenceTag, elems));
  }

  class Permissions {
    var value: array?<Node>

    constructor ()
      ensures value == null
    {
      value := null;
    }

    /** Checks the form, then allocates the element array and fills it component by
        component. `checkTag` is accepted and ignored. A failure leaves the previous array. */
    method BerDecode(ber: Node, checkTag: bool) returns (outcome: Outcome)
      modifies this
      ensures outcome == ToOutcome(DecodeValue(ber))
      ensures outcome.Pass? ==> value != null && fresh(value) && value[..] == ber.children
      ensures outcome.Fail? ==> value == old(value)
    {
      if !ber.Cons? {
        return Fail(BadForm);
      }
      var numParts := |ber.children|;
      var elems := new Node[numParts];
      value := elems;
      for p := 0 to numParts
        invariant value == elems
        invariant forall k :: 0 <= k < p ==> elems[k] == ber.children[k]
      {
        elems[p] := ber.children[p];
      }
      assert elems[..] == ber.children;
      return Pass;
    }

    /** Encodes every element in order into an array of constructed encodings; a missing
        array is reported instead of raising. */
    method BerEncode(tagType: TagClass, tag: nat) returns (r: Result<Node>)
      ensures value == null ==> r == Err(NullComponent)
      ensures value != null ==> r == SequenceOfValue(value[..], tagType, tag)
    {
      if value == null {
        return Err(NullComponent);
      }
      r := EncodeSequenceOf(value, tagType, tag);
    }

    /** The encoding under the universal SEQUENCE tag. */
    method BerEncodeDefault() returns (r: Result<Node>)
      ensures value == null ==> r == Err(NullComponent)
      ensures value != null ==> r == SequenceOfValue(value[..], Universal, SequenceTag)
    {
      r := BerEncode(Universal, SequenceTag);
    }
  }
}
