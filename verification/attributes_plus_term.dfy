/** AttributesPlusTerm ::= [102] IMPLICIT SEQUENCE { attributes AttributeList, term Term }
    Two mandatory components read by position; both are opaque nodes here. */
module V3AttributesPlusTerm {
  import opened BerHeader
  import opened Ber
  import opened Asn1

  /** The tag the type carries when it is not implicitly retagged. */
  const AttributesPlusTermTag: nat := 102

  datatype Value = Value(attributes: Node, term: Node)

  /** The tag is only examined when `checkTag` is set. */
  predicate TagAccepted(ber: Node, checkTag: bool)
  {
    !checkTag || HasTag(ber, ContextSpecific, AttributesPlusTermTag)
  }

  /** How many components the decoder stores before it stops: none when the tag or the
      form is wrong, otherwise as many of the two as there are. */
  function StoredParts(ber: Node, checkTag: bool): (k: nat)
    ensures k <= 2
    ensures k > 0 ==> ber.Cons? && k <= |ber.children|
    ensures ber.Cons? && TagAccepted(ber, checkTag) ==> k == if |ber.children| < 2 then |ber.children| else 2
  {
    if !TagAccepted(ber, checkTag) then 0
    else if !ber.Cons? then 0
    else if |ber.children| < 2 then |ber.children|
    else 2
  }

  /** The tag check (only when asked for), the form check, then exactly two components. */
  function DecodeValue(ber: Node, checkTag: bool): (r: Result<Value>)
    ensures r.Ok? ==> EncodeValue(r.value, ber.cls, ber.tag) == ber
    ensures r.Ok? <==> TagAccepted(ber, checkTag) && ber.Cons? && |ber.children| == 2
    ensures r == Err(BadTag(ber.tag, AttributesPlusTermTag)) <==> !TagAccepted(ber, checkTag)
    ensures r == Err(BadForm) <==> TagAccepted(ber, checkTag) && ber.Prim?
    ensures r == Err(Incomplete) <==> TagAccepted(ber, checkTag) && ber.Cons? && |ber.children| < 2
    ensures ber.Cons? ==>
      (r == Err(ExtraData(2, |ber.children|)) <==> TagAccepted(ber, checkTag) && |ber.children| > 2)
  {
    if !TagAccepted(ber, checkTag) then
      Err(BadTag(ber.tag, AttributesPlusTermTag))
    else if !ber.Cons? then Err(BadForm)
    else if |ber.children| <= 0 then Err(Incomplete)
    else if |ber.children| <= 1 then Err(Incomplete)
    else if 2 < |ber.children| then Err(ExtraData(2, |ber.children|))
    else Ok(Value(ber.children[0], ber.children[1]))
  }

  /** The encoding: attributes then term. */
  function EncodeValue(v: Value, c: TagClass, t: nat): (n: Node)
    ensures n.Cons? && HasTag(n, c, t) && |n.children| == 2
    ensures n.children[0] == v.attributes && n.children[1] == v.term
  {
    Cons(c, t, [v.attributes, v.term])
  }

  /** Decoding an encoding gives back both components, with the tag check on when the
      encoding carries the type's own tag and off under any other tag. */
  lemma DecodeEncode(v: Value, c: TagClass, t: nat)
    ensures DecodeValue(EncodeValue(v, c, t), false) == Ok(v)
    ensures DecodeValue(EncodeValue(v, ContextSpecific, AttributesPlusTermTag), true) == Ok(v)
  {
  }

  /** From value to octets and back, under the type's own tag. */
  lemma OctetsRoundTrip(v: Value)
    requires TotalLength(EncodeValue(v, ContextSpecific, AttributesPlusTermTag)) <= MaxInt
    ensures var r := DecodeNode(Encode(EncodeValue(v, ContextSpecific, AttributesPlusTermTag)));
      r.Some? && r.value.1 == [] && DecodeValue(r.value.0, true) == Ok(v)
  {
    DecodeEncodeWhole(EncodeValue(v, ContextSpecific, AttributesPlusTermTag));
    DecodeEncode(v, ContextSpecific, AttributesPlusTermTag);
  }

  class AttributesPlusTerm {
    var attributes: Option<Node>
    var term: Option<Node>

    constructor ()
      ensures attributes.None? && term.None?
    {
      attributes, term := None, None;
    }

    /** Reads the two components with a cursor; each is stored as soon as it is reached, so a
        later failure leaves it set. */
    method BerDecode(ber: Node, checkTag: bool) returns (outcome: Outcome)
      modifies this
      ensures outcome == ToOutcome(DecodeValue(ber, checkTag))
      ensures attributes == if StoredParts(ber, checkTag) >= 1 then Some(ber.children[0]) else old(attributes)
      ensures term == if StoredParts(ber, checkTag) == 2 then Some(ber.children[1]) else old(term)
    {
      if checkTag {
        if ber.tag != AttributesPlusTermTag || ber.cls != ContextSpecific {
          return Fail(BadTag(ber.tag, AttributesPlusTermTag));
        }
      }
      if !ber.Cons? {
        return Fail(BadForm);
      }
      var numParts := |ber.children|;
      var part := 0;
      if numParts <= part {
        return Fail(Incomplete);
      }
      attributes := Some(ber.children[part]);
      part := part + 1;
      if numParts <= part {
        return Fail(Incomplete);
      }
      term := Some(ber.children[part]);
      part := part + 1;
      if part < numParts {
        return Fail(ExtraData(part, numParts));
      }
      return Pass;
    }

    /** Fills a two-slot fields array, attributes first; a missing component is reported
        instead of being dereferenced. */
    method BerEncode(tagType: TagClass, tag: nat) returns (r: Result<Node>)
      ensures attributes.None? || term.None? ==> r == Err(NullComponent)
      ensures attributes.Some? && term.Some? ==>
        r == Ok(EncodeValue(Value(attributes.value, term.value), tagType, tag))
    {
      var numFields := 2;
      var fields := new Node[numFields];
      var x := 0;
      if attributes.None? {
        return Err(NullComponent);
      }
      fields[x] := attributes.value;
      x := x + 1;
      if term.None? {
        return Err(NullComponent);
      }
      fields[x] := term.value;
      var outer := new BerConstructed(tagType, tag, fields);
      assert fields[..] == [attributes.value, term.value];
      r := Ok(outer.AsNode());
    }

    /** The encoding under the type's own tag, context-specific 102. */
    method BerEncodeDefault() returns (r: Result<Node>)
      ensures attributes.None? || term.None? ==> r == Err(NullComponent)
      ensures attributes.Some? && term.Some? ==>
        r == Ok(EncodeValue(Value(attributes.value, term.value), ContextSpecific, AttributesPlusTermTag))
    {
      r := BerEncode(ContextSpecific, AttributesPlusTermTag);
    }
  }
}
