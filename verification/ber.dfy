/** The value a BER encoding denotes: a primitive node with opaque content octets or a
    constructed node with an ordered sequence of child encodings, together with the
    lengths and the octets that BER assigns to it. */
module Ber {
  import opened BerHeader

  datatype Node =
    | Prim(cls: TagClass, tag: nat, content: seq<byte>)
    | Cons(cls: TagClass, tag: nat, children: seq<Node>)

  /** Universal tag number of SEQUENCE and SEQUENCE OF (X.680). */
  const SequenceTag: nat := 16

  /** The failures the structural decoders and encoders report. */
  datatype Asn1Error =
    | BadTag(observed: nat, expected: nat)  // the implicit tag is not the one expected
    | BadForm                               // a constructed encoding was needed and a primitive one was given
    | Incomplete                            // a mandatory component is missing
    | BadRecordTag                          // the component in the record position is not [1]
    | BadRecordWrapper                      // the EXPLICIT [1] wrapper is primitive or does not hold one element
    | ExtraData(part: nat, numParts: nat)   // components are left after the last expected one
    | ChoiceNotMatched                      // no CHOICE alternative has the node's tag
    | ChoiceMultiplySet                     // more than one CHOICE alternative is set
    | ChoiceNotSet                          // no CHOICE alternative is set
    | CannotImplicitlyTag                   // a CHOICE cannot be implicitly tagged
    | NullComponent                         // a mandatory field to encode is not set
    | NotConstructedElement                 // a SEQUENCE OF element did not encode as a constructed encoding

  /** The node carries tag `t` of class `c`. */
  predicate HasTag(n: Node, c: TagClass, t: nat)
  {
    n.cls == c && n.tag == t
  }

  datatype Result<T> = Ok(value: T) | Err(error: Asn1Error)

  datatype Outcome = Pass | Fail(error: Asn1Error)

  function ToOutcome<T>(r: Result<T>): Outcome
  {
    match r
    case Ok(_) => Pass
    case Err(e) => Fail(e)
  }

  // ---------------------------------------------------------------------------
  // Lengths

  /** Number of content octets: the content itself, or the children's total lengths added up. */
  function ContentLength(n: Node): nat
    decreases n, 1
  {
    match n
    case Prim(_, _, content) => |content|
    case Cons(_, _, children) => SumTotal(children)
  }

  /** Header octets plus content octets. */
  function TotalLength(n: Node): (r: nat)
    ensures r >= ContentLength(n) + 2
    decreases n, 2
  {
    HeaderLength(n.tag, ContentLength(n)) + ContentLength(n)
  }

  /** The total lengths of `s` added up, first to last. */
  function SumTotal(s: seq<Node>): nat
    decreases s, 0
  {
    if s == [] then 0 else SumTotal(s[..|s| - 1]) + TotalLength(s[|s| - 1])
  }

  // ---------------------------------------------------------------------------
  // Octets

  /** The BER encoding of a node: its header, then its content octets or its children's
      encodings one after another in their stored order. */
  function Encode(n: Node): (r: seq<byte>)
    requires TotalLength(n) <= MaxInt
    ensures |r| == TotalLength(n)
    decreases n, 1
  {
    match n
    case Prim(c, t, content) => Header(c, false, t, |content|) + content
    case Cons(c, t, children) => Header(c, true, t, SumTotal(children)) + EncodeAll(children)
  }

  /** The encodings of `s` concatenated in order. */
  function EncodeAll(s: seq<Node>): (r: seq<byte>)
    requires SumTotal(s) <= MaxInt
    ensures |r| == SumTotal(s)
    decreases s, 0
  {
    if s == [] then [] else EncodeAll(s[..|s| - 1]) + Encode(s[|s| - 1])
  }

  lemma {:induction false} SumTotalAppend(a: seq<Node>, b: seq<Node>)
    ensures SumTotal(a + b) == SumTotal(a) + SumTotal(b)
    decreases |b|
  {
    if b == [] {
      assert a + b == a;
    } else {
      SnocSplit(a, b);
      SumTotalAppend(a, b[..|b| - 1]);
    }
  }

  /** Splitting off the last element of a concatenation (stated generically, so that the
      proofs using it do not unfold the encoding functions). */
  lemma SnocSplit<T>(a: seq<T>, b: seq<T>)
    requires b != []
    ensures (a + b)[..|a + b| - 1] == a + b[..|b| - 1] && (a + b)[|a + b| - 1] == b[|b| - 1]
  {
  }

  lemma ConcatAssoc<T>(x: seq<T>, y: seq<T>, z: seq<T>)
    ensures (x + y) + z == x + (y + z)
  {
  }

  lemma {:induction false} EncodeAllAppend(a: seq<Node>, b: seq<Node>)
    requires SumTotal(a + b) <= MaxInt
    ensures SumTotal(a) <= MaxInt && SumTotal(b) <= MaxInt
    ensures EncodeAll(a + b) == EncodeAll(a) + EncodeAll(b)
    decreases |b|
  {
    SumTotalAppend(a, b);
    if b == [] {
      assert a + b == a;
    } else {
      var b', x := b[..|b| - 1], b[|b| - 1];
      SumTotalAppend(a, b');
      EncodeAllAppend(a, b');
      SnocSplit(a, b);
      calc {
        EncodeAll(a + b);
        EncodeAll(a + b') + Encode(x);
        (EncodeAll(a) + EncodeAll(b')) + Encode(x);
        { ConcatAssoc(EncodeAll(a), EncodeAll(b'), Encode(x)); }
        EncodeAll(a) + (EncodeAll(b') + Encode(x));
        EncodeAll(a) + EncodeAll(b);
      }
    }
  }

  /** The encodings of the first `k + 1` nodes are those of the first `k` followed by node `k`. */
  lemma EncodeAllSnoc(s: seq<Node>, k: nat)
    requires SumTotal(s) <= MaxInt && k < |s|
    ensures SumTotal(s[..k + 1]) == SumTotal(s[..k]) + TotalLength(s[k]) <= SumTotal(s)
    ensures EncodeAll(s[..k + 1]) == EncodeAll(s[..k]) + Encode(s[k])
  {
    SumTotalBounds(s, k);
    TakePrefix(s, k, k + 1);
  }

  /** A child's total length fits inside the sum over the children, and so does every prefix sum. */
  lemma SumTotalBounds(s: seq<Node>, k: nat)
    requires k < |s|
    ensures SumTotal(s[..k]) + TotalLength(s[k]) <= SumTotal(s)
    ensures SumTotal(s[..k + 1]) == SumTotal(s[..k]) + TotalLength(s[k])
  {
    TakePrefix(s, k, k + 1);
    TakeDrop(s, k + 1);
    SumTotalAppend(s[..k + 1], s[k + 1..]);
  }

  /** Child `k` of a constructed node occupies the octets that start after the encodings of
      the children stored before it: the order of the children is the order on the wire. */
  lemma ChildPosition(s: seq<Node>, k: nat)
    requires SumTotal(s) <= MaxInt && k < |s|
    ensures SumTotal(s[..k]) + TotalLength(s[k]) <= |EncodeAll(s)|
    ensures EncodeAll(s)[SumTotal(s[..k])..SumTotal(s[..k]) + TotalLength(s[k])] == Encode(s[k])
  {
    var front, back := s[..k + 1], s[k + 1..];
    EncodeAllSnoc(s, k);
    TakeDrop(s, k + 1);
    EncodeAllAppend(front, back);
    var x, y, z := EncodeAll(s[..k]), Encode(s[k]), EncodeAll(back);
    assert EncodeAll(s) == (x + y) + z;
    MiddleSlice(x, y, z);
  }

  lemma TakePrefix<T>(s: seq<T>, i: nat, j: nat)
    requires i <= j <= |s|
    ensures s[..j][..i] == s[..i]
  {
  }

  lemma TakeDrop<T>(s: seq<T>, i: nat)
    requires i <= |s|
    ensures s[..i] + s[i..] == s
  {
  }

  lemma MiddleSlice<T>(x: seq<T>, y: seq<T>, z: seq<T>)
    ensures |x| + |y| <= |(x + y) + z| && ((x + y) + z)[|x|..|x| + |y|] == y
  {
  }

  // ---------------------------------------------------------------------------
  // Implicit tagging

  /** An implicitly tagged encoding of a component: the identifier is replaced and the form
      and contents are kept (X.690 section 8.14). */
  function Retag(n: Node, c: TagClass, t: nat): (r: Node)
    ensures r.cls == c && r.tag == t && r.Cons? == n.Cons?
    ensures ContentLength(r) == ContentLength(n)
    ensures n.Prim? ==> r.content == n.content
    ensures n.Cons? ==> r.children == n.children
  {
    match n
    case Prim(_, _, content) => Prim(c, t, content)
    case Cons(_, _, children) => Cons(c, t, children)
  }

  /** Implicit tagging loses nothing: putting the original identifier back restores the node. */
  lemma RetagRestore(n: Node, c: TagClass, t: nat)
    ensures Retag(Retag(n, c, t), n.cls, n.tag) == n
  {
  }

  /** Retagging with the tag a node already has changes nothing. */
  lemma RetagSame(n: Node)
    ensures Retag(n, n.cls, n.tag) == n
  {
  }

  // ---------------------------------------------------------------------------
  // Reading octets back

  /** Reads one encoding from the front of `s`: the node and the octets after it. A
      constructed node's content must be exactly a sequence of whole encodings. */
  function DecodeNode(s: seq<byte>): (r: Option<(Node, seq<byte>)>)
    ensures r.Some? ==> |r.value.1| < |s|
    decreases |s|, 0
  {
    match ParseHeader(s)
    case None => None
    case Some((id, len, rest)) =>
      HeaderShortens(s);
      if |rest| < len then None
      else if !id.constructed then Some((Prim(id.cls, id.tag, rest[..len]), rest[len..]))
      else
        match DecodeAll(rest[..len])
        case None => None
        case Some(children) => Some((Cons(id.cls, id.tag, children), rest[len..]))
  }

  /** Reads a sequence of whole encodings that fills `s` exactly. */
  function DecodeAll(s: seq<byte>): Option<seq<Node>>
    decreases |s|, 1
  {
    if s == [] then Some([])
    else
      match DecodeNode(s)
      case None => None
      case Some((n, rest)) =>
        match DecodeAll(rest)
        case None => None
        case Some(ns) => Some([n] + ns)
  }

  lemma HeaderShortens(s: seq<byte>)
    requires ParseHeader(s).Some?
    ensures |ParseHeader(s).value.2| < |s|
  {
    var low := s[0] % 0x20;
    if low == 0x1F {
      TagNumberShortens(s[1..], 0);
    }
  }

  lemma {:induction false} TagNumberShortens(s: seq<byte>, acc: nat)
    requires ParseTagNumber(s, acc).Some?
    ensures |ParseTagNumber(s, acc).value.1| < |s|
    decreases |s|
  {
    if s[0] >= 0x80 {
      TagNumberShortens(s[1..], acc * 128 + (s[0] - 0x80));
    }
  }

  /** What DecodeNode makes of a header followed by the content octets it announces. */
  lemma DecodeFramed(c: TagClass, constructed: bool, t: nat, body: seq<byte>, rest: seq<byte>)
    requires |body| <= MaxInt
    ensures !constructed ==>
      DecodeNode(Header(c, constructed, t, |body|) + body + rest) == Some((Prim(c, t, body), rest))
    ensures constructed && DecodeAll(body).Some? ==>
      DecodeNode(Header(c, constructed, t, |body|) + body + rest)
        == Some((Cons(c, t, DecodeAll(body).value), rest))
  {
    var s := Header(c, constructed, t, |body|) + body + rest;
    assert s == Header(c, constructed, t, |body|) + (body + rest);
    HeaderRoundTrip(c, constructed, t, |body|, body + rest);
    assert (body + rest)[..|body|] == body;
    assert (body + rest)[|body|..] == rest;
  }

  /** Reading the encoding of a node gives back that node and leaves what followed it. */
  lemma {:induction false} DecodeEncode(n: Node, rest: seq<byte>)
    requires TotalLength(n) <= MaxInt
    ensures DecodeNode(Encode(n) + rest) == Some((n, rest))
    decreases n, 1
  {
    match n
    case Prim(c, t, content) =>
      DecodeFramed(c, false, t, content, rest);
    case Cons(c, t, children) =>
      DecodeAllEncodeAll(children);
      DecodeFramed(c, true, t, EncodeAll(children), rest);
  }

  /** The encoding of a node, on its own, reads back as that node with nothing left over. */
  lemma DecodeEncodeWhole(n: Node)
    requires TotalLength(n) <= MaxInt
    ensures DecodeNode(Encode(n)) == Some((n, []))
  {
    DecodeEncode(n, []);
    assert Encode(n) + [] == Encode(n);
  }

  /** Reading the concatenated encodings of a sequence of nodes gives back the sequence. */
  lemma {:induction false} DecodeAllEncodeAll(s: seq<Node>)
    requires SumTotal(s) <= MaxInt
    ensures DecodeAll(EncodeAll(s)) == Some(s)
    decreases s, 0
  {
    if s != [] {
      EncodeAllFirst(s);
      var x, rest := Encode(s[0]), EncodeAll(s[1..]);
      DecodeEncode(s[0], rest);
      DecodeAllEncodeAll(s[1..]);
      assert x + rest != [];
      assert DecodeAll(x + rest) == Some([s[0]] + s[1..]);
      FirstRest(s);
    }
  }

  /** The encodings of a non-empty sequence start with the encoding of its first node. */
  lemma EncodeAllFirst(s: seq<Node>)
    requires SumTotal(s) <= MaxInt && s != []
    ensures TotalLength(s[0]) <= MaxInt && SumTotal(s[1..]) <= MaxInt
    ensures EncodeAll(s) == Encode(s[0]) + EncodeAll(s[1..])
  {
    var one, rest := [s[0]], s[1..];
    FirstRest(s);
    EncodeAllSingle(s[0]);
    EncodeAllAppend(one, rest);
    calc {
      EncodeAll(s);
      EncodeAll(one + rest);
      EncodeAll(one) + EncodeAll(rest);
      Encode(s[0]) + EncodeAll(rest);
    }
  }

  lemma EncodeAllSingle(n: Node)
    ensures SumTotal([n]) == TotalLength(n)
    ensures TotalLength(n) <= MaxInt ==> EncodeAll([n]) == Encode(n)
  {
    assert [n][..0] == [];
  }

  lemma FirstRest<T>(s: seq<T>)
    requires s != []
    ensures [s[0]] + s[1..] == s
  {
  }
}
