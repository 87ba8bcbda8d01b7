/** PresentRequest.recordComposition ::= CHOICE { simple [19] EXPLICIT ElementSetNames,
                                                  complex [209] IMPLICIT CompSpec }
    The ElementSetNames alternative is itself a CHOICE, so its tag [19] is an explicit wrapper
    holding one element. Both alternatives are opaque nodes here. */
module V3PresentRequestRecordComposition {
  import opened BerHeader
  import opened Ber
  import opened Asn1

  datatype Choice = Simple(elementSetNames: Node) | Complex(compSpec: Node)

  /** The alternative is chosen by the node's own tag. */
  function DecodeValue(ber: Node): (r: Result<Choice>)
    ensures r.Ok? ==> EncodeValue(r.value) == ber
    ensures r.Ok? <==>
      (HasTag(ber, ContextSpecific, 19) && ber.Cons? && |ber.children| == 1)
      || HasTag(ber, ContextSpecific, 209)
    ensures r == Err(ChoiceNotMatched) <==>
      !HasTag(ber, ContextSpecific, 19) && !HasTag(ber, ContextSpecific, 209)
    ensures r == Err(BadForm) <==> HasTag(ber, ContextSpecific, 19) && !(ber.Cons? && |ber.children| == 1)
    ensures r.Err? ==> r.error in {BadForm, ChoiceNotMatched}
  {
    if HasTag(ber, ContextSpecific, 19) then
      if !ber.Cons? || |ber.children| != 1 then Err(BadForm)
      else Ok(Simple(ber.children[0]))
    else if HasTag(ber, ContextSpecific, 209) then Ok(Complex(ber))
    else Err(ChoiceNotMatched)
  }

  /** The encoding of one alternative: [19] wrapping the element set names, or the
      specification implicitly tagged [209]. */
  function EncodeValue(v: Choice): (n: Node)
    ensures v.Simple? ==> n == Cons(ContextSpecific, 19, [v.elementSetNames])
    ensures v.Complex? ==> HasTag(n, ContextSpecific, 209) && n.Cons? == v.compSpec.Cons?
    ensures v.Complex? && n.Prim? ==> n.content == v.compSpec.content
    ensures v.Complex? && n.Cons? ==> n.children == v.compSpec.children
  {
    match v
    case Simple(s) => Cons(ContextSpecific, 19, [s])
    case Complex(c) => Retag(c, ContextSpecific, 209)
  }

  /** Which alternative two nullable fields select, with the two ways of selecting none
      properly: both set, or neither. */
  function Chosen(simple: Option<Node>, complex: Option<Node>): (r: Result<Choice>)
    ensures r.Ok? <==> simple.Some? != complex.Some?
    ensures r == Err(ChoiceMultiplySet) <==> simple.Some? && complex.Some?
    ensures r == Err(ChoiceNotSet) <==> simple.None? && complex.None?
    ensures r.Ok? && r.value.Simple? ==> simple == Some(r.value.elementSetNames)
    ensures r.Ok? && r.value.Complex? ==> complex == Some(r.value.compSpec)
  {
    if simple.Some? && complex.Some? then Err(ChoiceMultiplySet)
    else if simple.Some? then Ok(Simple(simple.value))
    else if complex.Some? then Ok(Complex(complex.value))
    else Err(ChoiceNotSet)
  }

  /** Decoding an encoding selects the same alternative with the same payload; the
      specification comes back as it travels, tagged [209]. */
  lemma DecodeEncode(v: Choice)
    ensures DecodeValue(EncodeValue(v))
      == Ok(match v case Simple(s) => v case Complex(c) => Complex(Retag(c, ContextSpecific, 209)))
  {
  }

  /** From value to octets and back. */
  lemma OctetsRoundTrip(v: Choice)
    requires TotalLength(EncodeValue(v)) <= MaxInt
    ensures var r := DecodeNode(Encode(EncodeValue(v)));
      r.Some? && r.value.1 == []
      && DecodeValue(r.value.0)
         == Ok(match v case Simple(s) => v case Complex(c) => Complex(Retag(c, ContextSpecific, 209)))
  {
    DecodeEncodeWhole(EncodeValue(v));
    DecodeEncode(v);
  }

  class PresentRequestRecordComposition {
    var simple: Option<Node>
    var complex: Option<Node>

    constructor ()
      ensures simple.None? && complex.None?
    {
      simple, complex := None, None;
    }

    /** Clears both alternatives, then sets the one the node's tag selects. `checkTag` plays
        no part: a CHOICE has no tag of its own. */
    method BerDecode(ber: Node, checkTag: bool) returns (outcome: Outcome)
      modifies this
      ensures outcome == ToOutcome(DecodeValue(ber))
      ensures outcome.Fail? ==> simple.None? && complex.None?
      ensures outcome.Pass? ==> Chosen(simple, complex) == DecodeValue(ber)
    {
      simple := None;
      complex := None;
      if ber.tag == 19 && ber.cls == ContextSpecific {
        if !ber.Cons? {
          return Fail(BadForm);
        }
        if |ber.children| != 1 {
          return Fail(BadForm);
        }
        simple := Some(ber.children[0]);
        return Pass;
      }
      if ber.tag == 209 && ber.cls == ContextSpecific {
        complex := Some(ber);
        return Pass;
      }
      return Fail(ChoiceNotMatched);
    }

    /** Encodes the alternative that is set, checking that exactly one is. */
    method BerEncode() returns (r: Result<Node>)
      ensures Chosen(simple, complex).Err? ==> r == Err(Chosen(simple, complex).error)
      ensures Chosen(simple, complex).Ok? ==> r == Ok(EncodeValue(Chosen(simple, complex).value))
    {
      var chosen: Option<Node> := None;
      if simple.Some? {
        var enc := new Node[1];
        enc[0] := simple.value;
        assert enc[..] == [simple.value];
        var wrapper := new BerConstructed(ContextSpecific, 19, enc);
        chosen := Some(wrapper.AsNode());
      }
      if complex.Some? {
        if chosen.Some? {
          return Err(ChoiceMultiplySet);
        }
        chosen := Some(Retag(complex.value, ContextSpecific, 209));
      }
      if chosen.None? {
        return Err(ChoiceNotSet);
      }
      return Ok(chosen.value);
    }

    /** A CHOICE cannot be implicitly tagged: this always fails. */
    method BerEncodeImplicit(tagType: TagClass, tag: nat) returns (r: Result<Node>)
      ensures r == Err(CannotImplicitlyTag)
    {
      return Err(CannotImplicitlyTag);
    }
  }
}
