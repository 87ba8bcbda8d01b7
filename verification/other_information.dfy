/** OtherInformation ::= [201] IMPLICIT SEQUENCE OF OtherInformation1
    The elements are opaque nodes here; each one's own encoding is constructed (it is a
    SEQUENCE), and the encoder stores them in an array that only holds constructed encodings. */
module V3OtherInformation {
  import opened BerHeader
  import opened Ber
  import opened Asn1

  /** The tag the type carries when it is not implicitly retagged. */
  const OtherInformationTag: nat := 201

  /** The tag is only examined when `checkTag` is set. */
  predicate TagAccepted(ber: Node, checkTag: bool)
  {
    !checkTag || HasTag(ber, ContextSpecific, OtherInformationTag)
  }

  /** Every component becomes an element, in order; any number of them, none included. */
  function DecodeValue(ber: Node, checkTag: bool): (r: Result<seq<Node>>)
    ensures r.Ok? <==> TagAccepted(ber, checkTag) && ber.Cons?
    ensures r.Ok? ==> r.value == ber.children
    ensures r == Err(BadTag(ber.tag, OtherInformationTag)) <==> !TagAccepted(ber, checkTag)
    ensures r == Err(BadForm) <==> TagAccepted(ber, checkTag) && ber.Prim?
  {
    if checkTag && !HasTag(ber, ContextSpecific, OtherInformationTag) then
      Err(BadTag(ber.tag, OtherInformationTag))
    else if !ber.Cons? then Err(BadForm)
    else Ok(ber.children)
  }

  /** Decoding an encoding gives back the elements, same number, same order. */
  lemma DecodeEncode(elems: seq<Node>, c: TagClass, t: nat)
    requires AllConstructed(elems)
    ensures DecodeValue(SequenceOfValue(elems, c, t).value, false) == Ok(elems)
    ensures DecodeValue(SequenceOfValue(elems, ContextSpecific, OtherInformationTag).value, true) == Ok(elems)
  {
  }

  /** A decoded value whose elements are all constructed encodes back to the node it came from. */
  lemma EncodeDecode(ber: Node, checkTag: bool)
    requires DecodeValue(ber, checkTag).Ok? && AllConstructed(DecodeValue(ber, checkTag).value)
    ensures SequenceOfValue(DecodeValue(ber, checkTag).value, ber.cls, ber.tag) == Ok(ber)
  {
  }

  /** From value to octets and back, under the type's own tag. */
  lemma OctetsRoundTrip(elems: seq<Node>)
    requires AllConstructed(elems)
    requires TotalLength(Cons(ContextSpecific, OtherInformationTag, elems)) <= MaxInt
    ensures var r := DecodeNode(Encode(SequenceOfValue(elems, ContextSpecific, OtherInformationTag).value));
      r.Some? && r.value.1 == [] && DecodeValue(r.value.0, true) == Ok(elems)
  {
    DecodeEncodeWhole(Cons(ContextSpecific, OtherInformationTag, elems));
  }

  class OtherInformation {
    var value: array?<Node>

    constructor ()
      ensures value == null
    {
      value := null;
    }

    /** Checks the tag (only when asked) and the form, then allocates the element array and
        fills it component by component. A failure leaves the previous array in place. */
    method BerDecode(ber: Node, checkTag: bool) returns (outcome: Outcome)
      modifies this
      ensures outcome == ToOutcome(DecodeValue(ber, checkTag))
      ensures outcome.Pass? ==> value != null && fresh(value) && value[..] == ber.children
      ensures outcome.Fail? ==> value == old(value)
    {
      if checkTag {
        if ber.tag != OtherInformationTag || ber.cls != ContextSpecific {
          return Fail(BadTag(ber.tag, OtherInformationTag));
        }
      }
      if !ber.Cons? {
        return Fail(BadForm);
      }
      var numParts := |ber.children|;
      var elems := new Node[numParts];
      value := elems;
      for p := 0 to numParts
        invariant value == elems
        invariant forall k :: 0 <= k < p ==> elems[k] == ber.children[k]
      {
        elems[p] := ber.children[p];
      }
      assert elems[..] == ber.children;
      return Pass;
    }

    /** Encodes every element in order into an array of constructed encodings; a missing
        array is reported instead of raising. */
    method BerEncode(tagType: TagClass, tag: nat) returns (r: Result<Node>)
      ensures value == null ==> r == Err(NullComponent)
      ensures value != null ==> r == SequenceOfValue(value[..], tagType, tag)
    {
      if value == null {
        return Err(NullComponent);
      }
      r := EncodeSequenceOf(value, tagType, tag);
    }

    /** The encoding under the type's own tag, context-specific 201. */
    method BerEncodeDefault() returns (r: Result<Node>)
      ensures value == null ==> r == Err(NullComponent)
      ensures value != null ==> r == SequenceOfValue(value[..], ContextSpecific, OtherInformationTag)
    {
      r := BerEncode(ContextSpecific, OtherInformationTag);
    }
  }
}
