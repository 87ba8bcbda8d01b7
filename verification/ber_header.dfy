/** Identifier and length octets of a BER encoding (ITU-T X.690, sections 8.1.2 and 8.1.3).
    The header writer of the library lives in a base class that is not part of this model;
    these functions follow the standard, and the parsers beside them show that the header
    can be read back unambiguously. */
module BerHeader {

  /** An octet, as an unsigned value. */
  type byte = b: int | 0 <= b < 256

  /** Largest value of a Java `int`: every length the library stores is an `int`. */
  const MaxInt: nat := 0x7FFF_FFFF

  datatype Option<T> = None | Some(value: T)

  /** The four tag classes of X.690 section 8.1.2.2. */
  datatype TagClass = Universal | Application | ContextSpecific | Private

  /** Bits 8 and 7 of the first identifier octet. */
  function ClassBits(c: TagClass): byte
  {
    match c
    case Universal => 0x00
    case Application => 0x40
    case ContextSpecific => 0x80
    case Private => 0xC0
  }

  /** The class encoded in bits 8 and 7 of an identifier octet. */
  function ClassOf(b: byte): TagClass
  {
    if b < 0x40 then Universal
    else if b < 0x80 then Application
    else if b < 0xC0 then ContextSpecific
    else Private
  }

  /** Bit 6 of the first identifier octet. */
  function FormBit(constructed: bool): byte
  {
    if constructed then 0x20 else 0x00
  }

  /** Base-128 digits of `m`, most significant first, each with bit 8 set; empty for 0. */
  function ContinuedOctets(m: nat): (r: seq<byte>)
    ensures forall k :: 0 <= k < |r| ==> r[k] >= 0x80
    ensures m > 0 ==> |r| > 0 && r[0] > 0x80
    decreases m
  {
    if m == 0 then [] else ContinuedOctets(m / 128) + [0x80 + m % 128]
  }

  /** The subsequent identifier octets of a tag number (X.690 section 8.1.2.4.2): base 128,
      most significant first, bit 8 set on every octet but the last. */
  function TagNumberOctets(t: nat): (r: seq<byte>)
    ensures |r| >= 1 && r[|r| - 1] < 0x80
    ensures forall k :: 0 <= k < |r| - 1 ==> r[k] >= 0x80
  {
    ContinuedOctets(t / 128) + [t % 128]
  }

  /** The identifier octets: one octet for tag numbers 0 to 30 (section 8.1.2.3), otherwise
      an octet whose low five bits are all ones followed by the tag number octets (section 8.1.2.4). */
  function IdentifierOctets(c: TagClass, constructed: bool, t: nat): (r: seq<byte>)
    ensures |r| == IdentifierLength(t)
  {
    if t <= 30 then [ClassBits(c) + FormBit(constructed) + t]
    else [ClassBits(c) + FormBit(constructed) + 0x1F] + TagNumberOctets(t)
  }

  function IdentifierLength(t: nat): nat
  {
    if t <= 30 then 1 else 1 + |TagNumberOctets(t)|
  }

  /** Base-256 digits of `n`, most significant first, without leading zero octets. */
  function Base256(n: nat): (r: seq<byte>)
    ensures |r| >= 1
    decreases n
  {
    if n < 256 then [n] else Base256(n / 256) + [n % 256]
  }

  function Pow256(k: nat): (p: nat)
    ensures p >= 1
  {
    if k == 0 then 1 else 256 * Pow256(k - 1)
  }

  /** A number below 256^k needs at most k base-256 digits. */
  lemma {:induction false} Base256Width(n: nat, k: nat)
    requires 1 <= k && n < Pow256(k)
    ensures |Base256(n)| <= k
    decreases n
  {
    if n >= 256 {
      assert k >= 2;
      assert n / 256 < Pow256(k - 1);
      Base256Width(n / 256, k - 1);
    }
  }

  function LengthLength(len: nat): nat
  {
    if len < 0x80 then 1 else 1 + |Base256(len)|
  }

  /** The definite-form length octets (X.690 section 8.1.3): the short form for lengths up to 127,
      otherwise the long form, an octet with bit 8 set holding the count of the big-endian
      octets that follow. */
  function LengthOctets(len: nat): (r: seq<byte>)
    requires len <= MaxInt
    ensures |r| == LengthLength(len)
    ensures len < 0x80 <==> r[0] < 0x80
  {
    if len < 0x80 then [len]
    else
      Base256Width(len, 4);
      [0x80 + |Base256(len)|] + Base256(len)
  }

  function HeaderLength(t: nat, len: nat): nat
  {
    IdentifierLength(t) + LengthLength(len)
  }

  /** Identifier octets followed by length octets. */
  function Header(c: TagClass, constructed: bool, t: nat, len: nat): (r: seq<byte>)
    requires len <= MaxInt
    ensures |r| == HeaderLength(t, len)
  {
    IdentifierOctets(c, constructed, t) + LengthOctets(len)
  }

  // ---------------------------------------------------------------------------
  // Reading a header back

  datatype Identifier = Identifier(cls: TagClass, constructed: bool, tag: nat)

  /** Reads base-128 tag number octets after an accumulated prefix value `acc`. */
  function ParseTagNumber(s: seq<byte>, acc: nat): Option<(nat, seq<byte>)>
    decreases |s|
  {
    if s == [] then None
    else if s[0] >= 0x80 then ParseTagNumber(s[1..], acc * 128 + (s[0] - 0x80))
    else Some((acc * 128 + s[0], s[1..]))
  }

  function ParseIdentifier(s: seq<byte>): Option<(Identifier, seq<byte>)>
  {
    if s == [] then None
    else
      var cls := ClassOf(s[0]);
      var constructed := s[0] % 0x40 >= 0x20;
      var low := s[0] % 0x20;
      if low < 0x1F then Some((Identifier(cls, constructed, low), s[1..]))
      else
        match ParseTagNumber(s[1..], 0)
        case None => None
        case Some((t, rest)) => Some((Identifier(cls, constructed, t), rest))
  }

  /** The number whose base-256 digits, most significant first, are `ds`. */
  function BigEndianValue(ds: seq<byte>): nat
  {
    if ds == [] then 0 else BigEndianValue(ds[..|ds| - 1]) * 256 + ds[|ds| - 1]
  }

  /** Reads definite-form length octets; the indefinite form (0x80) is not accepted. */
  function ParseLength(s: seq<byte>): Option<(nat, seq<byte>)>
  {
    if s == [] then None
    else if s[0] < 0x80 then Some((s[0], s[1..]))
    else
      var k := s[0] - 0x80;
      if k == 0 || |s| < 1 + k then None
      else Some((BigEndianValue(s[1..1 + k]), s[1 + k..]))
  }

  function ParseHeader(s: seq<byte>): Option<(Identifier, nat, seq<byte>)>
  {
    match ParseIdentifier(s)
    case None => None
    case Some((id, rest)) =>
      match ParseLength(rest)
      case None => None
      case Some((len, rest')) => Some((id, len, rest'))
  }

  lemma {:induction false} ContinuedOctetsRoundTrip(m: nat, tail: seq<byte>)
    ensures ParseTagNumber(ContinuedOctets(m) + tail, 0) == ParseTagNumber(tail, m)
    decreases m
  {
    if m > 0 {
      var d: byte := 0x80 + m % 128;
      calc {
        ParseTagNumber(ContinuedOctets(m) + tail, 0);
        { assert ContinuedOctets(m) + tail == ContinuedOctets(m / 128) + ([d] + tail); }
        ParseTagNumber(ContinuedOctets(m / 128) + ([d] + tail), 0);
        { ContinuedOctetsRoundTrip(m / 128, [d] + tail); }
        ParseTagNumber([d] + tail, m / 128);
        { assert ([d] + tail)[1..] == tail; }
        ParseTagNumber(tail, (m / 128) * 128 + m % 128);
        { assert (m / 128) * 128 + m % 128 == m; }
        ParseTagNumber(tail, m);
      }
    } else {
      assert ContinuedOctets(m) + tail == tail;
    }
  }

  /** The first identifier octet gives back its class, form and low five bits. */
  lemma FirstOctetFields(c: TagClass, constructed: bool, low: nat)
    requires low < 0x20
    ensures var b := ClassBits(c) + FormBit(constructed) + low;
      0 <= b < 256 && ClassOf(b) == c && (b % 0x40 >= 0x20) == constructed && b % 0x20 == low
  {
  }

  /** What ParseIdentifier makes of a first octet `b` followed by `tail`. */
  lemma ParseIdentifierFirst(b: byte, tail: seq<byte>)
    ensures ParseIdentifier([b] + tail) ==
      if b % 0x20 < 0x1F then Some((Identifier(ClassOf(b), b % 0x40 >= 0x20, b % 0x20), tail))
      else
        match ParseTagNumber(tail, 0)
        case None => None
        case Some((t, rest)) => Some((Identifier(ClassOf(b), b % 0x40 >= 0x20, t), rest))
  {
    assert ([b] + tail)[0] == b && ([b] + tail)[1..] == tail;
  }

  /** The tag number octets read back as the tag number, leaving what followed. */
  lemma TagNumberRoundTrip(t: nat, rest: seq<byte>)
    ensures ParseTagNumber(TagNumberOctets(t) + rest, 0) == Some((t, rest))
  {
    var d: byte := t % 128;
    assert TagNumberOctets(t) + rest == ContinuedOctets(t / 128) + ([d] + rest);
    ContinuedOctetsRoundTrip(t / 128, [d] + rest);
    assert ([d] + rest)[1..] == rest;
    assert (t / 128) * 128 + d == t;
  }

  /** The identifier octets read back as the class, form and tag number they were made from. */
  lemma IdentifierRoundTrip(c: TagClass, constructed: bool, t: nat, rest: seq<byte>)
    ensures ParseIdentifier(IdentifierOctets(c, constructed, t) + rest)
            == Some((Identifier(c, constructed, t), rest))
  {
    var low := if t <= 30 then t else 0x1F;
    FirstOctetFields(c, constructed, low);
    var b: byte := ClassBits(c) + FormBit(constructed) + low;
    if t <= 30 {
      assert IdentifierOctets(c, constructed, t) + rest == [b] + rest;
      ParseIdentifierFirst(b, rest);
    } else {
      assert IdentifierOctets(c, constructed, t) + rest == [b] + (TagNumberOctets(t) + rest);
      ParseIdentifierFirst(b, TagNumberOctets(t) + rest);
      TagNumberRoundTrip(t, rest);
    }
  }

  lemma {:induction false} Base256RoundTrip(n: nat)
    ensures BigEndianValue(Base256(n)) == n
    decreases n
  {
    if n >= 256 {
      var ds := Base256(n);
      assert ds[..|ds| - 1] == Base256(n / 256);
      Base256RoundTrip(n / 256);
    }
  }

  /** The length octets read back as the length they were made from. */
  lemma LengthRoundTrip(len: nat, rest: seq<byte>)
    requires len <= MaxInt
    ensures ParseLength(LengthOctets(len) + rest) == Some((len, rest))
  {
    var s := LengthOctets(len) + rest;
    if len < 0x80 {
      assert s[1..] == rest;
    } else {
      var ds := Base256(len);
      Base256Width(len, 4);
      assert s[1..1 + |ds|] == ds;
      assert s[1 + |ds|..] == rest;
      Base256RoundTrip(len);
    }
  }

  /** A header is read back as its identifier and length, leaving exactly what followed it. */
  lemma HeaderRoundTrip(c: TagClass, constructed: bool, t: nat, len: nat, rest: seq<byte>)
    requires len <= MaxInt
    ensures ParseHeader(Header(c, constructed, t, len) + rest)
            == Some((Identifier(c, constructed, t), len, rest))
  {
    assert Header(c, constructed, t, len) + rest
        == IdentifierOctets(c, constructed, t) + (LengthOctets(len) + rest);
    IdentifierRoundTrip(c, constructed, t, LengthOctets(len) + rest);
    LengthRoundTrip(len, rest);
  }

  /** Tag numbers 0 to 30 take one identifier octet and 31 upwards take the escape octet
      plus at least one more (the boundary of X.690 section 8.1.2.4). */
  lemma IdentifierBoundary()
    ensures IdentifierOctets(ContextSpecific, false, 30) == [0x9E]
    ensures IdentifierOctets(ContextSpecific, false, 31) == [0x9F, 0x1F]
    ensures IdentifierOctets(ContextSpecific, true, 102) == [0xBF, 0x66]
    ensures IdentifierOctets(ContextSpecific, true, 209) == [0xBF, 0x81, 0x51]
  {
    assert ContinuedOctets(0) == [];
    assert ContinuedOctets(1) == ContinuedOctets(0) + [0x81];
  }

  /** Lengths up to 127 take the short form and 128 upwards the long form. */
  lemma LengthBoundary()
    ensures LengthOctets(127) == [0x7F]
    ensures LengthOctets(128) == [0x81, 0x80]
    ensures LengthOctets(256) == [0x82, 0x01, 0x00]
  {
    assert Base256(1) == [1];
    assert Base256(256) == Base256(1) + [0];
  }
}
