# BER constructed encodings and five Z39.50 bindings

This project models the part of an ASN.1/BER library that handles constructed encodings (`BERConstructed`), together with five Z39.50 (Z39-50-APDU-1995) types whose decoders and encoders are built on it. Each of the five applies one structural rule over the components of a constructed encoding:

- `NamePlusRecord`: an OPTIONAL `[0]` name, recognised by its tag, then an EXPLICIT `[1]` record wrapper that must hold exactly one element, with "incomplete" and "extra data" errors.
- `PresentRequestRecordComposition`: a CHOICE selected by the node's own tag, `[19]` or `[209]`. Encoding it reports "multiply set" and "not set", and implicit tagging is refused.
- `AttributesPlusTerm`: `[102] IMPLICIT SEQUENCE` of two mandatory components read by position.
- `OtherInformation`: `[201] IMPLICIT SEQUENCE OF`, with a tag check.
- `Permissions`: a universal `SEQUENCE OF`, with no tag check.

The modules are as follows:

- `BerHeader` (`ber_header.dfy`) holds the identifier and length octets of ITU-T X.690, sections 8.1.2 and 8.1.3.
  - The library writes these octets in its `BEREncoding` base class, and `BEREncoding` is not part of this model. These functions therefore follow the standard rather than shown code.
  - Parsers stand beside them, with round-trip lemmas proving that a header reads back unambiguously.
- `Ber` (`ber.dfy`) holds the value an encoding denotes.
  - A node is `Prim(class, tag, content octets)` or `Cons(class, tag, children)`.
  - It defines the node's content and total lengths, its octets (`Encode`, the header followed by the children's encodings in stored order) and implicit retagging (X.690 section 8.14).
  - It includes a reader (`DecodeNode`), which is the independent partner of `Encode`. The lemmas prove that reading back what was written gives the node back.
- `Asn1` (`ber_constructed.dfy`) holds the class `BerConstructed`.
  - It has constant header fields and the caller's own component array, which is shared and not copied.
  - Its constructor adds up the components' total lengths in a loop.
  - `EncodingGet` writes into a byte array, threading an offset through the components. `Output` appends to a stream, modelled as the sequence of octets written so far.
  - Both methods are proved to produce exactly `Encode` of the node.
- One module per Z39.50 type.
  - Each class has the Java fields. A nullable reference is an `Option`, and a nullable array is an `array?`.
  - `BerDecode` updates the fields step by step, exactly where the Java code stores them. This includes the partial updates left behind by a failure.
  - `BerEncode` fills a fields array and wraps it in a `BerConstructed`.
  - Each method is proved against a pure `DecodeValue` or `EncodeValue` function. Round-trip lemmas relate those functions to each other and to the octets.
  - `OtherInformation` and `Permissions` encode a SEQUENCE OF with the same loop in Java. The model writes that loop once, as `Asn1.EncodeSequenceOf`, specified by `Asn1.SequenceOfValue`.

Components of types this model does not include (`DatabaseName`, `NamePlusRecord_record`, `ElementSetNames`, `CompSpec`, `AttributeList`, `Term`, `OtherInformation1`, `Permissions1`) are carried as opaque nodes. Decoding one is the identity. Encoding one with an implicit tag is `Retag`, and encoding one without a tag is the identity.

Java exceptions become values:

- A failed cast or an error thrown by a decoder becomes `Fail(error)`. Encoders return `Err(error)`.
- `NullComponent` stands for the `NullPointerException` that encoding a missing mandatory field would raise.
- `NotConstructedElement` stands for the `ArrayStoreException` that storing a primitive encoding into a `BERConstructed[]` would raise.

`NamePlusRecord.berDecode` does not clear `s_name` when the encoding has no name. An object that is decoded twice therefore keeps the earlier name. The model states this as written (`V3NamePlusRecord.NamePlusRecord.BerDecode`).

The first identifier octet of a constructed context-specific `[102]` is 0xBF (class bits 10, constructed bit 1, low bits 11111, as X.690 section 8.1.2.4 requires for tag numbers above 30), followed by 0x66; `BerHeader.IdentifierBoundary` pins this case.

## Model

| member | source | states |
|---|---|---|
| BerHeader.IdentifierOctets | asn1/src/main/java/org/xbib/asn1/BERConstructed.java:37 | identifier octets take one octet for tags 0 to 30 and the escape form beyond; their length is IdentifierLength (X.690 section 8.1.2, assumed, since the header writer is not part of this model) |
| BerHeader.LengthOctets | asn1/src/main/java/org/xbib/asn1/BERConstructed.java:37 | definite length octets: the short form exactly below 128, otherwise the long form; the first octet tells the two apart |
| BerHeader.Header | asn1/src/main/java/org/xbib/asn1/BERConstructed.java:116 | the header is identifier then length octets, HeaderLength octets long |
| BerHeader.IdentifierRoundTrip | asn1/src/main/java/org/xbib/asn1/BERConstructed.java:116 | identifier octets read back as the class, form and tag number they were made from, leaving what followed |
| BerHeader.LengthRoundTrip | asn1/src/main/java/org/xbib/asn1/BERConstructed.java:116 | length octets read back as the length, leaving what followed |
| BerHeader.HeaderRoundTrip | asn1/src/main/java/org/xbib/asn1/BERConstructed.java:116 | a header reads back as its identifier and length, leaving exactly the content octets after it |
| BerHeader.IdentifierBoundary | asn1/src/main/java/org/xbib/asn1/BERConstructed.java:37 | tag 30 takes one octet and tag 31 two; [102] and [209] constructed take 0xBF 0x66 and 0xBF 0x81 0x51 |
| BerHeader.LengthBoundary | asn1/src/main/java/org/xbib/asn1/BERConstructed.java:37 | lengths 127, 128 and 256 encode as 7F, 81 80 and 82 01 00 |
| Ber.TotalLength | asn1/src/main/java/org/xbib/asn1/BERConstructed.java:33-37 | the total length is the header plus the content length, at least two octets more than the content |
| Ber.Encode | asn1/src/main/java/org/xbib/asn1/BERConstructed.java:115-121 | the encoding of a node is exactly TotalLength octets long |
| Ber.EncodeAll | asn1/src/main/java/org/xbib/asn1/BERConstructed.java:117-119 | the children's encodings laid end to end are SumTotal octets long |
| Ber.SumTotalAppend | asn1/src/main/java/org/xbib/asn1/BERConstructed.java:33-36 | the content length sum splits over a concatenation of component lists |
| Ber.EncodeAllAppend | asn1/src/main/java/org/xbib/asn1/BERConstructed.java:117-119 | the encodings of two component lists written one after the other are the encoding of the joined list |
| Ber.EncodeAllSnoc | asn1/src/main/java/org/xbib/asn1/BERConstructed.java:117-119 | writing one more component extends the octets by exactly its encoding |
| Ber.SumTotalBounds | asn1/src/main/java/org/xbib/asn1/BERConstructed.java:33-36 | each component's length and every prefix sum fit within the content length |
| Ber.ChildPosition | asn1/src/main/java/org/xbib/asn1/BERConstructed.java:115-121 | component k occupies the octets right after the components stored before it, so stored order is wire order |
| Ber.Retag | z3950/src/main/java/org/xbib/io/iso23950/v3/NamePlusRecord.java:164 | implicit tagging replaces class and tag and keeps the form, the content octets of a primitive node and the components of a constructed one |
| Ber.RetagSame | z3950/src/main/java/org/xbib/io/iso23950/v3/PresentRequestRecordComposition.java:74 | retagging with the node's own tag changes nothing |
| Ber.RetagRestore | z3950/src/main/java/org/xbib/io/iso23950/v3/NamePlusRecord.java:164 | putting the original identifier back on an implicitly tagged node restores it exactly, so implicit tagging loses nothing |
| Ber.DecodeEncode | asn1/src/main/java/org/xbib/asn1/BERConstructed.java:115-121 | reading the encoding of any node gives back that node and leaves what followed |
| Ber.DecodeAllEncodeAll | asn1/src/main/java/org/xbib/asn1/BERConstructed.java:117-119 | reading the concatenated encodings of a component list gives back the list, in order |
| Ber.DecodeEncodeWhole | asn1/src/main/java/org/xbib/asn1/BERConstructed.java:51-56 | an encoding on its own reads back as its node with nothing left over |
| Asn1.BerConstructed.AsNode | asn1/src/main/java/org/xbib/asn1/BERConstructed.java:15-17 | the object denotes a constructed node with its class, tag and current components |
| Asn1.BerConstructed.constructor | asn1/src/main/java/org/xbib/asn1/BERConstructed.java:31-39 | the content length is the sum of the components' total lengths (0 with none), the form is constructed, and the very array passed in is kept |
| Asn1.BerConstructed.NumberComponents | asn1/src/main/java/org/xbib/asn1/BERConstructed.java:63-65 | the number of components of the denoted node |
| Asn1.BerConstructed.ElementAt | asn1/src/main/java/org/xbib/asn1/BERConstructed.java:74-76 | for an index below NumberComponents, the component at that position |
| Asn1.BerConstructed.EncodingGet | asn1/src/main/java/org/xbib/asn1/BERConstructed.java:115-121 | writes exactly Encode of the node from offset on, returns offset plus the total length, leaves every other octet and the components unchanged |
| Asn1.BerConstructed.Output | asn1/src/main/java/org/xbib/asn1/BERConstructed.java:51-56 | appends exactly Encode of the node to the stream: the same octets EncodingGet writes |
| Asn1.WriteBytes | asn1/src/main/java/org/xbib/asn1/BERConstructed.java:116 | copies octets into the array from offset on and touches nothing else |
| Asn1.WriteEncoding | asn1/src/main/java/org/xbib/asn1/BERConstructed.java:118 | a component writes exactly its own encoding and returns the offset past it |
| Asn1.WriteElements | asn1/src/main/java/org/xbib/asn1/BERConstructed.java:117-119 | the loop over components writes their encodings end to end and returns the offset past the last |
| Asn1.SequenceOfValue | z3950/src/main/java/org/xbib/io/iso23950/v3/OtherInformation.java:107-118 | the SEQUENCE OF encoding shared with Permissions.java:88-99: succeeds exactly when every element is constructed, with the elements as components in order under the given tag; otherwise not-constructed element |
| Asn1.EncodeSequenceOf | z3950/src/main/java/org/xbib/io/iso23950/v3/OtherInformation.java:110-117 | the loop that stores each element into the array of constructed encodings returns exactly SequenceOfValue of the array's elements |
| V3NamePlusRecord.RecordIndex | z3950/src/main/java/org/xbib/io/iso23950/v3/NamePlusRecord.java:85-89 | the record is at position 1 exactly when the first component is context-specific [0], else at 0 |
| V3NamePlusRecord.RecordComponent | z3950/src/main/java/org/xbib/io/iso23950/v3/NamePlusRecord.java:93-113 | the record is found exactly when the component at the record position is a constructed [1] holding one element, and is that element; otherwise bad form exactly for a primitive input, incomplete exactly when no component is at the record position, bad record tag exactly when that component is not [1], bad record wrapper exactly when it is a [1] that is primitive or does not hold one element |
| V3NamePlusRecord.DecodeValue | z3950/src/main/java/org/xbib/io/iso23950/v3/NamePlusRecord.java:58-121 | a successful decoding re-encodes to the input under its own tag and has a name exactly when the first component is [0]; the record checks fail with RecordComponent's error; once they pass, extra data (record position + 1, component count) is reported exactly when components follow the record |
| V3NamePlusRecord.EncodeValue | z3950/src/main/java/org/xbib/io/iso23950/v3/NamePlusRecord.java:145-173 | one field without a name and two with it; the name first, tagged [0]; the record last inside a [1] wrapper holding one element |
| V3NamePlusRecord.DecodeEncode | z3950/src/main/java/org/xbib/io/iso23950/v3/NamePlusRecord.java:79-120 | decoding an encoding recovers name presence, the name as tagged [0], and the record |
| V3NamePlusRecord.DecodeEncodeDecoded | z3950/src/main/java/org/xbib/io/iso23950/v3/NamePlusRecord.java:87 | a value as decoding produces it (name tagged [0]) survives encode then decode exactly |
| V3NamePlusRecord.OctetsRoundTrip | z3950/src/main/java/org/xbib/io/iso23950/v3/NamePlusRecord.java:145-173 | the octets of an encoding read back as one node that decodes to the same value |
| V3NamePlusRecord.NamePlusRecord.constructor | z3950/src/main/java/org/xbib/io/iso23950/v3/NamePlusRecord.java:30-31 | a new object has neither name nor record |
| V3NamePlusRecord.NamePlusRecord.BerDecode | z3950/src/main/java/org/xbib/io/iso23950/v3/NamePlusRecord.java:58-121 | the outcome is DecodeValue's; the name is stored when recognised and otherwise kept from before; the record is stored once its wrapper checks out, even when extra data follows |
| V3NamePlusRecord.NamePlusRecord.BerEncode | z3950/src/main/java/org/xbib/io/iso23950/v3/NamePlusRecord.java:145-173 | a missing record is an error; otherwise the result is EncodeValue of the fields under the given tag |
| V3NamePlusRecord.NamePlusRecord.BerEncodeDefault | z3950/src/main/java/org/xbib/io/iso23950/v3/NamePlusRecord.java:130-134 | the encoding under the universal SEQUENCE tag |
| V3PresentRequestRecordComposition.DecodeValue | z3950/src/main/java/org/xbib/io/iso23950/v3/PresentRequestRecordComposition.java:55-78 | succeeds exactly for a constructed [19] with one component or any [209]; bad form exactly for a [19] that is primitive or does not hold one component; not matched exactly for any other tag; a success re-encodes to the input |
| V3PresentRequestRecordComposition.EncodeValue | z3950/src/main/java/org/xbib/io/iso23950/v3/PresentRequestRecordComposition.java:89-99 | simple becomes [19] wrapping its one element; complex becomes a [209] of the specification's form with its content octets or components unchanged |
| V3PresentRequestRecordComposition.Chosen | z3950/src/main/java/org/xbib/io/iso23950/v3/PresentRequestRecordComposition.java:87-103 | an alternative is chosen exactly when one field is set; "multiply set" exactly when both are; "not set" exactly when neither is |
| V3PresentRequestRecordComposition.DecodeEncode | z3950/src/main/java/org/xbib/io/iso23950/v3/PresentRequestRecordComposition.java:59-99 | decoding an encoding selects the same alternative with the same payload |
| V3PresentRequestRecordComposition.OctetsRoundTrip | z3950/src/main/java/org/xbib/io/iso23950/v3/PresentRequestRecordComposition.java:86-104 | the octets of an encoding read back and decode to the same alternative |
| V3PresentRequestRecordComposition.PresentRequestRecordComposition.constructor | z3950/src/main/java/org/xbib/io/iso23950/v3/PresentRequestRecordComposition.java:30-31 | a new object has no alternative set |
| V3PresentRequestRecordComposition.PresentRequestRecordComposition.BerDecode | z3950/src/main/java/org/xbib/io/iso23950/v3/PresentRequestRecordComposition.java:55-78 | the outcome is DecodeValue's; both fields are cleared on failure; on success exactly one is set, to the decoded alternative |
| V3PresentRequestRecordComposition.PresentRequestRecordComposition.BerEncode | z3950/src/main/java/org/xbib/io/iso23950/v3/PresentRequestRecordComposition.java:86-104 | the error Chosen reports, or the encoding of the chosen alternative |
| V3PresentRequestRecordComposition.PresentRequestRecordComposition.BerEncodeImplicit | z3950/src/main/java/org/xbib/io/iso23950/v3/PresentRequestRecordComposition.java:106-108 | implicit tagging always fails |
| V3AttributesPlusTerm.StoredParts | z3950/src/main/java/org/xbib/io/iso23950/v3/AttributesPlusTerm.java:74-85 | after the tag and form checks pass, the decoder stores as many of the two components as exist |
| V3AttributesPlusTerm.DecodeValue | z3950/src/main/java/org/xbib/io/iso23950/v3/AttributesPlusTerm.java:56-89 | succeeds exactly for an accepted tag, constructed form and two components; each error (bad tag, bad form, incomplete, extra data 2/n) exactly in its case; a success re-encodes to the input |
| V3AttributesPlusTerm.EncodeValue | z3950/src/main/java/org/xbib/io/iso23950/v3/AttributesPlusTerm.java:109-116 | exactly two components, attributes then term |
| V3AttributesPlusTerm.DecodeEncode | z3950/src/main/java/org/xbib/io/iso23950/v3/AttributesPlusTerm.java:56-116 | decoding an encoding recovers both components, with the tag check off, or on under tag [102] |
| V3AttributesPlusTerm.OctetsRoundTrip | z3950/src/main/java/org/xbib/io/iso23950/v3/AttributesPlusTerm.java:97-116 | the octets of the default encoding read back and decode to the same value with the tag check on |
| V3AttributesPlusTerm.AttributesPlusTerm.constructor | z3950/src/main/java/org/xbib/io/iso23950/v3/AttributesPlusTerm.java:29-30 | a new object has neither component |
| V3AttributesPlusTerm.AttributesPlusTerm.BerDecode | z3950/src/main/java/org/xbib/io/iso23950/v3/AttributesPlusTerm.java:56-89 | the outcome is DecodeValue's; each component is stored as soon as it is reached, also when a later check fails |
| V3AttributesPlusTerm.AttributesPlusTerm.BerEncode | z3950/src/main/java/org/xbib/io/iso23950/v3/AttributesPlusTerm.java:109-116 | a missing component is an error; otherwise EncodeValue of the two under the given tag |
| V3AttributesPlusTerm.AttributesPlusTerm.BerEncodeDefault | z3950/src/main/java/org/xbib/io/iso23950/v3/AttributesPlusTerm.java:97-99 | the encoding under context-specific [102] |
| V3OtherInformation.DecodeValue | z3950/src/main/java/org/xbib/io/iso23950/v3/OtherInformation.java:54-83 | succeeds exactly for an accepted tag and constructed form, with all components in order (none allowed); bad tag and bad form exactly in their cases |
| V3OtherInformation.DecodeEncode | z3950/src/main/java/org/xbib/io/iso23950/v3/OtherInformation.java:77-82 | decoding an encoding gives back the same elements in the same order |
| V3OtherInformation.EncodeDecode | z3950/src/main/java/org/xbib/io/iso23950/v3/OtherInformation.java:110-117 | a decoded list of constructed elements encodes back to the input node |
| V3OtherInformation.OctetsRoundTrip | z3950/src/main/java/org/xbib/io/iso23950/v3/OtherInformation.java:92-96 | the octets of the default encoding read back and decode to the same elements |
| V3OtherInformation.OtherInformation.constructor | z3950/src/main/java/org/xbib/io/iso23950/v3/OtherInformation.java:25-26 | a new object has no array |
| V3OtherInformation.OtherInformation.BerDecode | z3950/src/main/java/org/xbib/io/iso23950/v3/OtherInformation.java:54-83 | the outcome is DecodeValue's; on success a fresh array holds the components in order; on failure the old array stays |
| V3OtherInformation.OtherInformation.BerEncode | z3950/src/main/java/org/xbib/io/iso23950/v3/OtherInformation.java:107-118 | a missing array is an error; otherwise SequenceOfValue of the array's elements under the given tag |
| V3OtherInformation.OtherInformation.BerEncodeDefault | z3950/src/main/java/org/xbib/io/iso23950/v3/OtherInformation.java:92-96 | the encoding under context-specific [201] |
| V3Permissions.DecodeValue | z3950/src/main/java/org/xbib/io/iso23950/v3/Permissions.java:47-64 | succeeds exactly for constructed form, under any tag, with all components in order; otherwise bad form |
| V3Permissions.DecodeEncode | z3950/src/main/java/org/xbib/io/iso23950/v3/Permissions.java:58-63 | decoding an encoding under any tag gives back the same elements in the same order |
| V3Permissions.EncodeDecode | z3950/src/main/java/org/xbib/io/iso23950/v3/Permissions.java:91-98 | a decoded list of constructed elements encodes back to the input node |
| V3Permissions.OctetsRoundTrip | z3950/src/main/java/org/xbib/io/iso23950/v3/Permissions.java:73-77 | the octets of the default encoding read back and decode to the same elements |
| V3Permissions.Permissions.BerDecode | z3950/src/main/java/org/xbib/io/iso23950/v3/Permissions.java:47-64 | the outcome is DecodeValue's; checkTag is ignored; on success a fresh array holds the components in order; on failure the old array stays |
| V3Permissions.Permissions.BerEncode | z3950/src/main/java/org/xbib/io/iso23950/v3/Permissions.java:88-99 | a missing array is an error; otherwise SequenceOfValue of the array's elements under the given tag |
| V3Permissions.Permissions.BerEncodeDefault | z3950/src/main/java/org/xbib/io/iso23950/v3/Permissions.java:73-77 | the encoding under the universal SEQUENCE tag |

## Left out

- The identifier and length octets: `BEREncoding` (`init`, `iGetHead`, `outputHead`, `iTotalLength`) is not part of this model. `BerHeader` follows X.690 sections 8.1.2 and 8.1.3 instead, and only the definite length form is produced or read.
- Asn1.BerConstructed.constructor: the content length is an unbounded sum, not a Java `int` that wraps past 2^31 - 1. Writing an encoding requires its total length to be at most 2^31 - 1 (`MaxInt`), so the length octets fit in four octets.
- Octets are values 0 to 255, not Java's signed bytes.
- Asn1.BerConstructed.Output: the `OutputStream` is the sequence of octets written so far. Flushing and `IOException` are not modelled.
- Asn1.BerConstructed.EncodingGet: the destination array must be long enough. In Java a short array throws `ArrayIndexOutOfBoundsException`, and the model does not describe that failure.
- Asn1.BerConstructed.ElementAt: an index outside the components is excluded by its requires clause. Java throws there.
- The components of a `BerConstructed` are node values, not `BEREncoding` objects. A component's own `iEncodingGet` and `output` are `WriteEncoding` and `Encode`.
- Aliasing: the components array is shared with its creator. A later store into it makes the cached lengths stale, which shows up as `Valid()` no longer holding. The methods that write an encoding require `Valid()`.
- Null entries inside component or element arrays are not representable, because nodes are never null.
- The nested component types (`DatabaseName`, `NamePlusRecord_record`, `ElementSetNames`, `CompSpec`, `AttributeList`, `Term`, `OtherInformation1`, `Permissions1`) are not part of this model. Their own tag checks and errors are absent: decoding one is the identity and encoding one is the identity or `Retag`.
- The decoding constructors `X(ber, checkTag)` are `BerDecode` on a new object, and a failure leaves the object in the state `BerDecode` describes. `Permissions` has no default constructor in Java; the model gives it one that holds no array.
- The distinction between `ASN1EncodingException` and `ASN1Exception` is dropped, along with the message texts. Each failure is an `Asn1Error` case.
- Tag class numbers outside the four classes, and negative tag numbers, cannot be expressed, because `TagClass` and `nat` exclude them.
- All `toString` methods are diagnostic text and are not modelled.
- `ResourceReportId.java`, `ZClientTest.java` and `SyntaxException.java` are not part of this model. The first delegates to a type that is not shown, the second talks to live servers, and the third is a bare exception class.
