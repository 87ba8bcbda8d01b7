/** NamePlusRecord ::= SEQUENCE { name [0] IMPLICIT DatabaseName OPTIONAL,
                                   record [1] EXPLICIT NamePlusRecord_record }
    The components are carried as their own encodings: a database name and a record are
    opaque nodes here, and reading one back is the identity. */
module V3NamePlusRecord {
  import opened BerHeader
  import opened Ber
  import opened Asn1

  datatype Value = Value(name: Option<Node>, record: Node)

  /** The optional name is recognised by its context-specific tag 0 on the first component. */
  predicate NamePresent(ber: Node)
  {
    ber.Cons? && |ber.children| > 0 && HasTag(ber.children[0], ContextSpecific, 0)
  }

  /** Position of the record component: after the name if there is one. */
  function RecordIndex(ber: Node): (i: nat)
    ensures i <= 1 && (i == 1 <==> NamePresent(ber))
  {
    if NamePresent(ber) then 1 else 0
  }

  /** The checks made up to the point where the record is stored, and the record itself: the
      element inside the EXPLICIT [1] wrapper. */
  function RecordComponent(ber: Node): (r: Result<Node>)
    ensures r.Ok? ==>
      ber.Cons? && RecordIndex(ber) < |ber.children|
      && ber.children[RecordIndex(ber)] == Cons(ContextSpecific, 1, [r.value])
    ensures ber.Cons? && RecordIndex(ber) < |ber.children| && RecordWrapper(ber.children[RecordIndex(ber)])
      ==> r.Ok?
    ensures r == Err(BadForm) <==> ber.Prim?
    ensures r == Err(Incomplete) <==> ber.Cons? && |ber.children| <= RecordIndex(ber)
    ensures r == Err(BadRecordTag) <==>
      ber.Cons? && RecordIndex(ber) < |ber.children|
      && !HasTag(ber.children[RecordIndex(ber)], ContextSpecific, 1)
    ensures r == Err(BadRecordWrapper) <==>
      ber.Cons? && RecordIndex(ber) < |ber.children|
      && HasTag(ber.children[RecordIndex(ber)], ContextSpecific, 1)
      && !RecordWrapper(ber.children[RecordIndex(ber)])
    ensures r.Err? ==> r.error in {BadForm, Incomplete, BadRecordTag, BadRecordWrapper}
  {
    if !ber.Cons? then Err(BadForm)
    else if |ber.children| == 0 then Err(Incomplete)
    else if |ber.children| <= RecordIndex(ber) then Err(Incomplete)
    else
      var p := ber.children[RecordIndex(ber)];
      if !HasTag(p, ContextSpecific, 1) then Err(BadRecordTag)
      else if !p.Cons? || |p.children| != 1 then Err(BadRecordWrapper)
      else Ok(p.children[0])
  }

  /** An EXPLICIT [1] tag: a constructed context-specific node [1] holding one element. */
  predicate RecordWrapper(p: Node)
  {
    HasTag(p, ContextSpecific, 1) && p.Cons? && |p.children| == 1
  }

  /** The whole decoding: the record must be the last component. */
  function DecodeValue(ber: Node): (r: Result<Value>)
    ensures r.Ok? ==> EncodeValue(r.value, ber.cls, ber.tag) == ber
    ensures r.Ok? ==> (r.value.name.Some? <==> NamePresent(ber))
    ensures r.Err? && r.error.ExtraData? ==>
      ber.Cons? && r.error.part < r.error.numParts == |ber.children|
    ensures RecordComponent(ber).Err? ==> r == Err(RecordComponent(ber).error)
    ensures RecordComponent(ber).Ok? ==>
      (r == Err(ExtraData(RecordIndex(ber) + 1, |ber.children|)) <==> RecordIndex(ber) + 1 < |ber.children|)
    ensures RecordComponent(ber).Ok? && r.Ok? ==> r.value.record == RecordComponent(ber).value
  {
    match RecordComponent(ber)
    case Err(e) => Err(e)
    case Ok(record) =>
      if RecordIndex(ber) + 1 < |ber.children| then Err(ExtraData(RecordIndex(ber) + 1, |ber.children|))
      else Ok(Value(if NamePresent(ber) then Some(ber.children[0]) else None, record))
  }

  /** The encoding: the name, implicitly tagged [0], when present; then the record inside a
      constructed [1] wrapper. */
  function EncodeValue(v: Value, c: TagClass, t: nat): (n: Node)
    ensures n.Cons? && HasTag(n, c, t)
    ensures |n.children| == if v.name.Some? then 2 else 1
    ensures n.children[|n.children| - 1] == Cons(ContextSpecific, 1, [v.record])
    ensures v.name.Some? ==> n.children[0] == Retag(v.name.value, ContextSpecific, 0)
  {
    var nameField := if v.name.Some? then [Retag(v.name.value, ContextSpecific, 0)] else [];
    Cons(c, t, nameField + [Cons(ContextSpecific, 1, [v.record])])
  }

  /** Decoding an encoding gives back whether the name is present, the name as it travels
      (tagged [0]) and the record. */
  lemma DecodeEncode(v: Value, c: TagClass, t: nat)
    ensures DecodeValue(EncodeValue(v, c, t))
      == Ok(Value(if v.name.Some? then Some(Retag(v.name.value, ContextSpecific, 0)) else None, v.record))
  {
  }

  /** A value that came out of a decoding encodes back to itself exactly. */
  lemma DecodeEncodeDecoded(v: Value, c: TagClass, t: nat)
    requires v.name.Some? ==> HasTag(v.name.value, ContextSpecific, 0)
    ensures DecodeValue(EncodeValue(v, c, t)) == Ok(v)
  {
    DecodeEncode(v, c, t);
    if v.name.Some? {
      RetagSame(v.name.value);
    }
  }

  /** From value to octets and back: the octets written for an encoding read back as one
      node, with nothing left over, that decodes to the value. */
  lemma OctetsRoundTrip(v: Value, c: TagClass, t: nat)
    requires TotalLength(EncodeValue(v, c, t)) <= MaxInt
    ensures var r := DecodeNode(Encode(EncodeValue(v, c, t)));
      r.Some? && r.value.1 == []
      && DecodeValue(r.value.0)
         == Ok(Value(if v.name.Some? then Some(Retag(v.name.value, ContextSpecific, 0)) else None, v.record))
  {
    DecodeEncodeWhole(EncodeValue(v, c, t));
    DecodeEncode(v, c, t);
  }

  class NamePlusRecord {
    var name: Option<Node>
    var record: Option<Node>

    constructor ()
      ensures name.None? && record.None?
    {
      name, record := None, None;
    }

    /** Reads the components in order with a cursor. The name is stored as soon as it is
        recognised and the record as soon as its wrapper checks out, so a later failure leaves
        them set; a decoding without a name leaves an earlier name in place. The tag of `ber`
        itself is not examined, whatever `checkTag` says. */
    method BerDecode(ber: Node, checkTag: bool) returns (outcome: Outcome)
      modifies this
      ensures outcome == ToOutcome(DecodeValue(ber))
      ensures name == if NamePresent(ber) then Some(ber.children[0]) else old(name)
      ensures record == if RecordComponent(ber).Ok? then Some(RecordComponent(ber).value) else old(record)
    {
      if !ber.Cons? {
        return Fail(BadForm);
      }
      var numParts := |ber.children|;
      var part := 0;
      if numParts <= part {
        return Fail(Incomplete);
      }
      var p := ber.children[part];
      if p.tag == 0 && p.cls == ContextSpecific {
        name := Some(p);
        part := part + 1;
      }
      if numParts <= part {
        return Fail(Incomplete);
      }
      p := ber.children[part];
      if p.tag != 1 || p.cls != ContextSpecific {
        return Fail(BadRecordTag);
      }
      if !p.Cons? {
        return Fail(BadRecordWrapper);
      }
      if |p.children| != 1 {
        return Fail(BadRecordWrapper);
      }
      record := Some(p.children[0]);
      part := part + 1;
      if part < numParts {
        return Fail(ExtraData(part, numParts));
      }
      return Pass;
    }

    /** Builds the fields array (one slot more when the name is set) and wraps it. A missing
        record is reported instead of being dereferenced. */
    method BerEncode(tagType: TagClass, tag: nat) returns (r: Result<Node>)
      ensures record.None? ==> r == Err(NullComponent)
      ensures record.Some? ==> r == Ok(EncodeValue(Value(name, record.value), tagType, tag))
    {
      var numFields := 1;
      if name.Some? {
        numFields := numFields + 1;
      }
      var fields := new Node[numFields];
      var x := 0;
      if name.Some? {
        fields[x] := Retag(name.value, ContextSpecific, 0);
        x := x + 1;
      }
      if record.None? {
        return Err(NullComponent);
      }
      var enc := new Node[1];
      enc[0] := record.value;
      assert enc[..] == [record.value];
      var wrapper := new BerConstructed(ContextSpecific, 1, enc);
      fields[x] := wrapper.AsNode();
      var outer := new BerConstructed(tagType, tag, fields);
      ghost var expected := EncodeValue(Value(name, record.value), tagType, tag).children;
      assert fields[..] == expected by {
        assert fields[x] == expected[x];
        assert name.Some? ==> fields[0] == expected[0];
      }
      r := Ok(outer.AsNode());
    }

    /** The encoding under the universal SEQUENCE tag. */
    method BerEncodeDefault() returns (r: Result<Node>)
      ensures record.None? ==> r == Err(NullComponent)
      ensures record.Some? ==> r == Ok(EncodeValue(Value(name, record.value), Universal, SequenceTag))
    {
      r := BerEncode(Universal, SequenceTag);
    }
  }
}
