/** A BER encoding of a constructed value (SEQUENCE, SEQUENCE OF, SET, SET OF or an explicit
    tag wrapper), built from the encodings of its components. */
module Asn1 {
  import opened BerHeader
  import opened Ber

  class BerConstructed {
    const tagType: TagClass
    const tag: nat
    const isConstructed: bool
    /** Cached when the object is built: the content octets and the whole encoding. */
    const contentLength: nat
    const totalLength: nat
    /** The components, kept as the very array the creator passed in. */
    const contentElements: array<Node>

    /** The cached lengths agree with the components as they are now. The array is shared
        with the creator, so a later store into it can break this. */
    ghost predicate Valid()
      reads contentElements
    {
      contentLength == SumTotal(contentElements[..]) && totalLength == TotalLength(AsNode())
    }

    /** The value this object encodes. */
    function AsNode(): (n: Node)
      reads contentElements
      ensures n.Cons? && n.cls == tagType && n.tag == tag && n.children == contentElements[..]
    {
      Cons(tagType, tag, contentElements[..])
    }

    /** Adds up the components' total lengths in a loop and records the header fields. */
    constructor (asn1Class: TagClass, tagNumber: nat, elements: array<Node>)
      ensures tagType == asn1Class && tag == tagNumber && isConstructed
      ensures contentElements == elements && contentElements[..] == old(elements[..])
      ensures contentLength == SumTotal(elements[..])
      ensures totalLength == HeaderLength(tagNumber, contentLength) + contentLength
      ensures Valid()
    {
      var len := 0;
      for k := 0 to elements.Length
        invariant len == SumTotal(elements[..k])
      {
        SumTotalBounds(elements[..], k);
        assert elements[..][..k] == elements[..k] && elements[..][..k + 1] == elements[..k + 1];
        len := len + TotalLength(elements[k]);
      }
      assert elements[..elements.Length] == elements[..];
      tagType, tag, isConstructed := asn1Class, tagNumber, true;
      contentLength := len;
      totalLength := HeaderLength(tagNumber, len) + len;
      contentElements := elements;
    }

    /** The number of components. */
    function NumberComponents(): (n: nat)
      reads contentElements
      ensures n == |AsNode().children|
    {
      contentElements.Length
    }

    /** Component `index`, for an index below NumberComponents(). */
    function ElementAt(index: nat): (e: Node)
      requires index < NumberComponents()
      reads contentElements
      ensures e == AsNode().children[index]
      ensures ChildOf(e, AsNode())
    {
      contentElements[index]
    }

    /** Writes the encoding into `data` from `offset` on: the header, then every component in
        stored order. Returns the offset just past the last octet written. */
    method EncodingGet(offset: nat, data: array<byte>) returns (i: nat)
      requires Valid() && totalLength <= MaxInt
      requires offset + totalLength <= data.Length
      modifies data
      ensures i == offset + totalLength
      ensures data[offset..i] == Encode(AsNode())
      ensures Outside(data[..], old(data[..]), offset, i)
      ensures contentElements[..] == old(contentElements[..])
    {
      var head := Header(tagType, true, tag, contentLength);
      i := WriteBytes(head, offset, data);
      ghost var afterHead := data[..];
      var j := WriteElements(contentElements[..], i, data);
      Extend(data[..], afterHead, offset, i, j);
      OutsideTrans(old(data[..]), afterHead, data[..], offset, i, j);
      i := j;
    }

    /** Appends the encoding to the octets already written to a stream: the header, then
        every component's own output in stored order. */
    method Output(dest: seq<byte>) returns (out: seq<byte>)
      requires Valid() && totalLength <= MaxInt
      ensures out == dest + Encode(AsNode())
    {
      var elems := contentElements[..];
      var head := dest + Header(tagType, true, tag, contentLength);
      out := head;
      assert out == head + EncodeAll(elems[..0]);
      for k := 0 to contentElements.Length
        invariant SumTotal(elems[..k]) <= MaxInt
        invariant out == head + EncodeAll(elems[..k])
      {
        EncodeAllSnoc(elems, k);
        ConcatAssoc(head, EncodeAll(elems[..k]), Encode(elems[k]));
        out := out + Encode(contentElements[k]);
      }
      assert elems[..contentElements.Length] == elems;
      ConcatAssoc(dest, Header(tagType, true, tag, contentLength), EncodeAll(elems));
    }
  }

  /** `e` is one of the components of `n`. */
  predicate ChildOf(e: Node, n: Node)
  {
    n.Cons? && e in n.children
  }

  /** Every node of `s` is constructed: the only encodings an array of BerConstructed
      can hold. */
  predicate AllConstructed(s: seq<Node>)
  {
    forall k :: 0 <= k < |s| ==> s[k].Cons?
  }

  /** A SEQUENCE OF encoding: the elements in order as the components of one constructed
      encoding under the given tag. An element whose encoding is primitive cannot be stored in
      the array of constructed encodings, and the whole encoding fails. */
  function SequenceOfValue(elems: seq<Node>, c: TagClass, t: nat): (r: Result<Node>)
    ensures r.Ok? <==> AllConstructed(elems)
    ensures r.Ok? ==> r.value.Cons? && HasTag(r.value, c, t) && r.value.children == elems
    ensures r.Err? ==> r.error == NotConstructedElement
  {
    if AllConstructed(elems) then Ok(Cons(c, t, elems)) else Err(NotConstructedElement)
  }

  /** Stores each element's encoding in order into a fresh array of constructed encodings and
      builds one constructed encoding around it; a primitive element stops the loop. */
  method EncodeSequenceOf(value: array<Node>, c: TagClass, t: nat) returns (r: Result<Node>)
    ensures r == SequenceOfValue(value[..], c, t)
  {
    var fields := new Node[value.Length];
    for p := 0 to value.Length
      invariant forall k :: 0 <= k < p ==> value[k].Cons? && fields[k] == value[k]
    {
      if !value[p].Cons? {
        assert !AllConstructed(value[..]) by {
          assert !value[..][p].Cons?;
        }
        return Err(NotConstructedElement);
      }
      fields[p] := value[p];
    }
    var outer := new BerConstructed(c, t, fields);
    assert fields[..] == value[..];
    r := Ok(outer.AsNode());
  }

  /** `d` and `b` have the same length and agree outside the positions `lo` to `hi - 1`. */
  ghost predicate Outside<T>(d: seq<T>, b: seq<T>, lo: nat, hi: nat)
  {
    |d| == |b| && forall j :: 0 <= j < |d| && !(lo <= j < hi) ==> d[j] == b[j]
  }

  /** Octets written after position `i` leave the run already written from `offset` in place. */
  lemma Extend<T>(d: seq<T>, b: seq<T>, offset: nat, i: nat, next: nat)
    requires offset <= i <= next <= |d| && Outside(d, b, i, next)
    ensures d[offset..next] == b[offset..i] + d[i..next]
  {
    assert d[offset..i] == b[offset..i];
  }

  lemma OutsideTrans<T>(d0: seq<T>, d1: seq<T>, d2: seq<T>, offset: nat, i: nat, next: nat)
    requires offset <= i <= next
    requires Outside(d1, d0, offset, i) && Outside(d2, d1, i, next)
    ensures Outside(d2, d0, offset, next)
  {
  }

  /** Copies `bytes` into `data` from `offset` on and returns the offset just past them. */
  method WriteBytes(bytes: seq<byte>, offset: nat, data: array<byte>) returns (i: nat)
    requires offset + |bytes| <= data.Length
    modifies data
    ensures i == offset + |bytes|
    ensures data[offset..i] == bytes
    ensures Outside(data[..], old(data[..]), offset, i)
  {
    i := offset;
    while i < offset + |bytes|
      invariant offset <= i <= offset + |bytes|
      invariant forall k :: offset <= k < i ==> data[k] == bytes[k - offset]
      invariant forall k :: 0 <= k < data.Length && !(offset <= k < i) ==> data[k] == old(data[k])
    {
      data[i] := bytes[i - offset];
      i := i + 1;
    }
    assert data[offset..i] == bytes;
  }

  /** Writes the encoding of one component: a primitive one as header and content octets, a
      constructed one as header and components. */
  method WriteEncoding(n: Node, offset: nat, data: array<byte>) returns (i: nat)
    requires TotalLength(n) <= MaxInt && offset + TotalLength(n) <= data.Length
    modifies data
    ensures i == offset + TotalLength(n)
    ensures data[offset..i] == Encode(n)
    ensures Outside(data[..], old(data[..]), offset, i)
    decreases n, 1
  {
    var head := Header(n.cls, n.Cons?, n.tag, ContentLength(n));
    i := WriteBytes(head, offset, data);
    ghost var afterHead := data[..];
    var j;
    match n {
      case Prim(_, _, content) =>
        j := WriteBytes(content, i, data);
      case Cons(_, _, children) =>
        j := WriteElements(children, i, data);
    }
    Extend(data[..], afterHead, offset, i, j);
    OutsideTrans(old(data[..]), afterHead, data[..], offset, i, j);
    i := j;
  }

  /** Writes the encodings of `elems` one after another, threading the offset through. */
  method WriteElements(elems: seq<Node>, offset: nat, data: array<byte>) returns (i: nat)
    requires SumTotal(elems) <= MaxInt && offset + SumTotal(elems) <= data.Length
    modifies data
    ensures i == offset + SumTotal(elems)
    ensures data[offset..i] == EncodeAll(elems)
    ensures Outside(data[..], old(data[..]), offset, i)
    decreases elems, 0
  {
    i := offset;
    for k := 0 to |elems|
      invariant SumTotal(elems[..k]) <= SumTotal(elems)
      invariant i == offset + SumTotal(elems[..k])
      invariant data[offset..i] == EncodeAll(elems[..k])
      invariant Outside(data[..], old(data[..]), offset, i)
    {
      SumTotalBounds(elems, k);
      EncodeAllSnoc(elems, k);
      ghost var before := data[..];
      var next := WriteEncoding(elems[k], i, data);
      Extend(data[..], before, offset, i, next);
      OutsideTrans(old(data[..]), before, data[..], offset, i, next);
      i := next;
    }
    assert elems[..|elems|] == elems;
  }
}
