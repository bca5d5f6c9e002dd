# A verified model of a Matter device stack

This project models the parts of a Rust implementation of the Matter protocol that
turn structures into bytes and back, and the tables a device keeps while it talks
to others, and proves what they promise.

* **TLV** (`Bytes`, `WriteBuf`, `Tlv`, `TlvParser`, `TlvWriter`, `TlvTrees`). The wire format of
  Appendix A of the Matter Core Specification: a write buffer, a flat element
  iterator, a container iterator that finds the end of a container by counting
  levels, and a writer with minimal integers and a string that is written before
  its length is known. The wire form is flat and its meaning is a tree; writing and
  walking undo each other.
* **Derived codecs** (`Schema`, `Derive`, `DeriveCodec`, `DecodeTypes`). A schema takes
  the place of the derive macros. The one-pass decoder and the decoder that looks tags
  up are related to each other and to the encoder, and whatever arrives is decoded to
  a value of its type or not at all.
* **Certificates** (`Der`, `Asn1Writer`, `BitStrings`, `Cert`, `CertAsn1`, `CertTlv`). An
  in-place DER writer that reserves, back-patches and shifts is proved against the
  recursive encoder of sections 8.1.3 and 10.1 of ITU-T X.690, and the certificate
  encoder against the to-be-signed structure of RFC 5280.
* **SPAKE2+** (`Spake2p`). The shared values over an abstract group, for the back end
  that inverts a copy of a point and the one that inverts it in place.
* **Transport** (`Mrp`, `Session`, `Exchange`, `ExchangeMgr`). Session ids with
  wrap-around, least-recently-used eviction, exchanges that index into the session
  table, and one acknowledgement owed and one awaited per exchange, over all runs of
  receive, send, close, purge, evict and add-session steps.
* **Access control** (`Acl`, `AccessControl`, `AclStore`, `AclRestart`, `AclDecision`,
  `AclRead`, `AclMgr`, `AclRun`). Nine slots shared by all fabrics, each fabric's list view of its
  own entries, the bytes it reads of them, the decisions, and the persisted form that a
  restart loads.
* **Data model** (`Node`, `WritePath`). Wildcard traversal of endpoints, clusters and
  attributes, and write requests with data versions.

State that the source changes in place is a class whose methods are proved equal to
a step function; the theorems are about those functions and their runs. Time, random
numbers, the network, the key-value store and the cryptographic library appear as
parameters.

## Where the code differs from what it says

The model follows the code, and the exact condition is proved in each case.

* `str8` accepts 256 bytes and stores the length in one byte; longer strings than
  65535 bytes are cut by `str16` (`TlvWriter.Str8IffBelow256`,
  `TlvWriter.LongStringIffShortEnough`).
* OPERATE is written with the number of MANAGE. So a fabric that writes it reads back
  MANAGE (`AclReads.WholeListReadsBack`), and after a restart its entry grants what
  MANAGE does (`AclDecisions.EntryDecidesAlikeIff`, `AclDecisions.RestartKeepsDecisionsIff`).
  Entries without VIEW or with the invalid mode, which no request can carry, would make
  the whole stored list unreadable (`AclRestarts.SurvivesIff`, `AclReads.RequestsSurvive`).
* List indexes of the access control list are cut to a byte
  (`AccessControls.DeletesThePositionIff`, `AccessControls.EditsThePositionIff`): index 256
  deletes or overwrites the first entry (`AccessControls.WrongIndexDeletes`,
  `AccessControls.WrongIndexEdits`).
* The leaf of a path has 32 bits and is cut to 16 (`Nodes.VisitsMatchesIff`). Paths of
  requests have attribute ids of 16 bits (interaction_model/messages.rs:349, 363-365), so
  they cannot reach the difference.
* A list write that fails on the way is not rolled back (`AccessControls.WholeListTakenIff`,
  `AccessControls.FailedWriteLosesTheList`).
* A change that cannot be stored stays in memory although the write is reported as failed
  (`AccessControls.FailedButChangedIff`, `AccessControls.UnstoredStays`), until a restart
  (`AclRuns.RestartAfterRun`, `AclRuns.UnstoredIsLost`).
* The OpenSSL back end leaves its blinding point inverted
  (`Spake2p.CryptoOpenSSL.GetTTAsVerifier`). The program makes one call on each object
  (secure_channel/spake2p.rs:139-152), and the first one is right.
* A certificate with an empty key, a key usage of zero or an extended key usage of 7 stops
  the encoder with a panic (`CertAsn1.EncodingClean`, `CertAsn1.AsAsn1`), and such
  certificates can arrive (`CertTlv.UnencodableArrives`).
* Any acknowledgement ends the wait for one, whichever counter it names. So a second
  reliable message is accepted, and an exchange purged, with the first one outstanding
  (`Mrps.AwaitsOutstandingIff`, `Mrps.OverlapIff`, `Mrps.StrayAcknowledgement`,
  `Exchanges.PurgedUnansweredIff`, `Exchanges.PurgedWhileOutstanding`).
* The quality FIXED is two bits, which are also those of SCENE and PERSISTENT
  together (`WritePaths.WriteStores`).
* Comments in the DER writer give 0xA1 and 0xA2 for the octets that count length
  octets; the code writes 0x81 and 0x82, as X.690 asks.

## Model

| member | source | states |
|---|---|---|
| WriteBufs.WriteBuf.Append | matter/src/utils/writebuf.rs:80-94 | Bytes are appended behind the contents, whole or not at all; nothing in front of or behind them changes |
| WriteBufs.WriteBuf.Prepend | matter/src/utils/writebuf.rs:61-78 | Bytes are put in front of the contents when the reserved space holds them, and otherwise nothing changes |
| WriteBufs.WriteBuf.Reserve | matter/src/utils/writebuf.rs:53-59 | Space in front is reserved only in a buffer that was not written to; the buffer stays usable exactly if it is refused or asked for no more than the buffer has, which nothing checks |
| TlvParser.ReadOfToken | matter/src/tlv/parser.rs:546-607 | Whatever bytes follow it, a written token is read back as the same tag and value, and the reader stops exactly behind it |
| TlvParser.TokenOfRead | matter/src/tlv/parser.rs:546-607 | Every element the reader returns is well formed and was spelled by exactly the bytes consumed, in its one canonical form |
| TlvParser.TLVListIterator.Next | matter/src/tlv/parser.rs:540-607 | The flat iterator, which advances `current` and `left`, returns the element in front of it and moves behind it |
| TlvParser.TLVContainerIterator.SkipToEndOfContainer | matter/src/tlv/parser.rs:635-667 | Counting levels in one number finds the end of the container that was returned last |
| TlvParser.TLVContainerIterator.Next | matter/src/tlv/parser.rs:672-697 | One call of the container iterator on its four fields is one step of the cursor the theorems speak of |
| TlvParser.IteratorYieldsChildren | matter/src/tlv/parser.rs:634-697 | On the encoding of any container followed by any bytes the iterator yields exactly the direct children, in order and whatever their nesting, and then `None` on every later call |
| TlvParser.RoundTrip | matter/src/tlv/parser.rs:353-369 | Walking the bytes of any tree with `next` and `enter` rebuilds that tree |
| TlvParser.EncodeIsPrefixFree | matter/src/tlv/writer.rs:48-208 | No tree's bytes begin with the bytes of another tree |
| TlvParser.FindTagInElement | matter/src/tlv/parser.rs:464-474 | `find_tag` returns the first direct child with the tag cut to a byte, or that there is none |
| TlvWriter.MinWidthIsLeast | matter/src/tlv/writer.rs:76-112 | Unsigned integers are written in the narrowest of the four widths |
| TlvWriter.LongStringIffShortEnough | matter/src/tlv/writer.rs:124-133 | `str16` and `utf16` write a string that reads back exactly if it has at most 65535 bytes |
| TlvWriter.Str8IffBelow256 | matter/src/tlv/writer.rs:114-122 | `str8` accepts 256 bytes, but what it writes reads back exactly if there are fewer; 256 bytes read as an empty string |
| TlvWriter.TLVWriter.PutControlTag | matter/src/tlv/writer.rs:48-69 | The control byte and tag are appended; when they do not fit, a proper first part of them may be left behind |
| TlvWriter.TLVWriter.U64 | matter/src/tlv/writer.rs:101-112 | A 64-bit integer is appended as the token of its narrowest width |
| TlvWriter.TLVWriter.I8 | matter/src/tlv/writer.rs:71-74 | A signed byte is appended as its two's complement token |
| TlvWriter.TLVWriter.Str16 | matter/src/tlv/writer.rs:124-133 | A byte string is appended with a one-byte or two-byte length, which is cut above 65535 |
| TlvWriter.TLVWriter.Str16As | matter/src/tlv/writer.rs:135-160 | Writing the body first, then shifting it one byte left and rewriting the header when it is short, leaves what `str16` leaves for the generator's output, for every generator that reports no more than it was given |
| TlvWriter.TLVWriter.StartContainer | matter/src/tlv/writer.rs:182-192 | A container's token is appended |
| TlvWriter.TLVWriter.EndContainer | matter/src/tlv/writer.rs:194-196 | The end marker is appended |
| TlvTrees.WriteTree | matter/src/tlv/writer.rs:48-208 | The writer's calls for any tree of integers, booleans, nulls, strings up to 65535 bytes and nested containers append its encoding, or stop inside it for want of space |
| TlvTrees.WriteThenRead | matter/src/tlv/parser.rs:353-369 | Such a tree written into a buffer, read by the iterators and rebuilt is the same tree, exactly when it fits |
| Schema.PrivilegeBack | matter/src/data_model/objects/privilege.rs:24-58 | A privilege reads back as itself exactly for VIEW, MANAGE and ADMIN; OPERATE comes back as MANAGE, and bits without V do not come back at all |
| Schema.PrivilegeNumbers | matter/src/data_model/objects/privilege.rs:29-58 | The numbers the four privileges are written as, and that exactly 1, 3, 4 and 5 are read |
| Derive.DecodesBack | matter_macro_derive/src/lib.rs:265-289 | For any schema of nested structs, lists, arrays, options and nullables with distinct tags, the decoder applied to what the encoder wrote returns the value, occupied slots of fixed arrays moved to the front |
| Derive.CodecRoundTrip | matter_macro_derive/src/lib.rs:121-131 | The same from bytes to bytes, whatever follows the encoding |
| Derive.FieldsBack | matter_macro_derive/src/lib.rs:268-289 | The one-pass decoder with one element of look-ahead finds every field, missing options included, and ignores foreign elements behind them |
| Derive.DecodersAgree | matter_macro_derive/src/lib.rs:268-309 | On children in schema order, tagged at most once and before any foreign element, the one-pass decoder and the `find_tag` decoder return the same value or the same error |
| Derive.OrderMatters | matter_macro_derive/src/lib.rs:268-309 | Without that order they differ, for any two required fields: with their elements swapped one decoder misses the first field and the other finds both |
| Derive.TrailingIgnored | matter_macro_derive/src/lib.rs:268-289 | Elements with tags outside the schema behind the fields do not change the result |
| Derive.NamesBack | matter/src/cert/mod.rs:278-306 | Distinguished names are read back in the order they were written |
| DeriveCodec.WrittenIsEncoding | matter_macro_derive/src/lib.rs:121-131 | The bytes written for a value are the encoding of its trees whenever its strings fit their length fields |
| DeriveCodec.ToTlv | matter/src/tlv/traits.rs:62-79 | `to_tlv` appends exactly those bytes, or stops inside them with `NoSpace`, for every type of the schema |
| DeriveCodec.FieldsToTlv | matter_macro_derive/src/lib.rs:121-131 | The generated encoder writes the fields one after the other until one fails |
| DeriveCodec.FromTlv | matter/src/tlv/traits.rs:20-52 | The decoding methods, which advance iterators, compute the decoder of the theorems |
| DeriveCodec.FieldsFromTlv | matter_macro_derive/src/lib.rs:268-289 | The generated one-pass decoder, with its iterator and its look-ahead element, computes the ordered decoder |
| DeriveCodec.FieldsByTag | matter_macro_derive/src/lib.rs:290-309 | The generated decoder for unordered structures computes the decoder that looks every tag up |
| DeriveCodec.EnumFromTlv | matter_macro_derive/src/lib.rs:343-362 | The generated enum decoder takes the variant of the first child's tag |
| DeriveCodec.SlotsFromTlv | matter/src/tlv/traits.rs:20-41 | A fixed array is filled from the front, and elements that do not fit are ignored |
| DeriveCodec.VecFromTlv | matter/src/tlv/traits.rs:239-250 | An owned array decodes every element, or fails at the first that does not decode |
| DeriveCodec.NamesFromTlv | matter/src/cert/mod.rs:278-296 | Names are pushed in order, elements without a context tag left out |
| DecodeTypes.DecodeTyped | matter_macro_derive/src/lib.rs:265-309 | Whatever well-formed element arrives, a decoder that succeeds returns a value within the ranges of its type |
| DecodeTypes.BytesDecodeTyped | matter/src/tlv/parser.rs:586-607 | The same for the first element of any bytes |
| DecodeTypes.ChildrenValid | matter/src/tlv/parser.rs:634-697 | A container iterator yields well-formed elements only |
| Der.LenBytesMinimal | matter/src/cert/asn1_writer.rs:120-134 | No definite length in fewer octets says the same length (section 10.1 of ITU-T X.690) |
| Der.ReadBack | matter/src/cert/asn1_writer.rs:40-118 | A definite-length reader recovers from the encoding of any forest all that the tags let it see |
| Der.RunTree | matter/src/cert/asn1_writer.rs:40-118 | The calls for a tree succeed exactly if its lengths are below 65536, it nests no more than nine deep and the reserved bytes fit the buffer; then they append its recursive minimal-length encoding to what was there and change nothing else |
| Der.RunForest | matter/src/cert/asn1_writer.rs:40-118 | The same for any sequence of trees inside an open container |
| Der.PeakBound | matter/src/cert/asn1_writer.rs:17-67 | The reserved length bytes cost at most two bytes of buffer for every container that is open at once |
| Asn1Writers.ASN1Writer.EncodeLen | matter/src/cert/asn1_writer.rs:69-92 | The length octets are written at the offset, highest first, and nothing else changes |
| Asn1Writers.ASN1Writer.AppendTlv | matter/src/cert/asn1_writer.rs:28-54 | Tag, length and contents are added to the innermost open container, or the call fails and adds nothing |
| Asn1Writers.ASN1Writer.AddCompound | matter/src/cert/asn1_writer.rs:56-67 | A tag and three reserved bytes open a container; the call that opens a tenth one fails but leaves it open |
| Asn1Writers.ASN1Writer.EndCompound | matter/src/cert/asn1_writer.rs:94-118 | Back-patching the length and shifting the contents left turns the innermost container into finished bytes of the one around it |
| Asn1Writers.ASN1Writer.ShiftLeft | matter/src/cert/asn1_writer.rs:103-110 | Moving overlapping bytes one by one from the front moves the whole slice |
| Asn1Writers.StackClose | matter/src/cert/asn1_writer.rs:94-118 | Why patching and shifting is closing: the bytes and the starts then stand for the stack without that container |
| BitStrings.TruncationIsExact | matter/src/cert/asn1_writer.rs:170-190 | A truncated bit string ends with a set bit and only zero bits were dropped (section 11.2.2 of ITU-T X.690) |
| BitStrings.ReverseByteReverses | matter/src/cert/mod.rs:72-78 | The table of nibbles reverses the bits of a byte |
| BitStrings.KeyUsageReadsBack | matter/src/cert/mod.rs:80-119 | Every nonzero key usage is the bits a reader finds in the contents, and the contents end with its highest bit |
| Certs.EncodingSpells | matter/src/cert/mod.rs:446-491 | For every certificate that can be encoded and names known algorithms, the calls are balanced and spell the to-be-signed structure of section 4.1 of RFC 5280, names in stored order |
| Certs.ExtensionsSpell | matter/src/cert/mod.rs:206-249 | The calls for the extensions spell each extension that is present, in fixed order, around its value |
| Certs.DnSpells | matter/src/cert/mod.rs:309-356 | The calls for distinguished names spell one set for each Matter name, in stored order, and skip other names |
| Certs.HexReadsBack | matter/src/cert/mod.rs:334-370 | The hexadecimal text of a name is the number it was made from |
| Certs.HexDigits | matter/src/cert/mod.rs:358-370 | The text has as many upper-case hexadecimal digits as are asked for when they are enough, and otherwise no leading zero |
| Certs.NameText | matter/src/cert/mod.rs:335-367 | A 64-bit value is spelled in exactly 16 such digits and a 32-bit one in 8, which denote the value |
| Certs.CertificateNames | matter/src/cert/mod.rs:446-491 | In the to-be-signed certificate the issuer and the subject are the Matter names that are stored, in order, each under its own identifier with 16 digits, or 8 for a CASE authenticated tag, of its value |
| Certs.NameIdentifiers | matter/src/cert/mod.rs:309-321 | The identifiers of the names are those of 1.3.6.1.4.1.37244.1.n in the encoding of section 8.19 of ITU-T X.690 |
| Certs.ExtensionIdentifiers | matter/src/cert/mod.rs:207-211 | The identifiers of the extensions are those of 2.5.29.n of RFC 5280 |
| Certs.AlgorithmIdentifiers | matter/src/cert/mod.rs:16-18 | The identifiers of the key, the curve and the signature are 1.2.840.10045.2.1, 1.2.840.10045.3.1.7 and 1.2.840.10045.4.3.2 |
| Certs.KeyPurposes | matter/src/cert/mod.rs:125-130 | The identifiers of the six key purposes are those of 1.3.6.1.5.5.7.3.n of RFC 5280 |
| CertAsn1.Consumer.BitStr | matter/src/cert/asn1_writer.rs:170-190 | The trimming loop and the count of zero bits make the truncated contents; it panics exactly on an empty string and on one of zeros that is to be truncated |
| CertAsn1.Consumer.Dispatch | matter/src/cert/asn1_writer.rs:152-248 | Each consumer method makes the writer call with its tag |
| CertAsn1.EncodeDistNames | matter/src/cert/mod.rs:309-370 | The loop over the names makes the calls of the trace, or a first part of them when one fails |
| CertAsn1.EncodeExtendedKeyUsage | matter/src/cert/mod.rs:121-152 | The loop over the purposes makes one call for each of the six known ones, skips unknown ones and panics at 7 |
| CertAsn1.EncodeExtensions | matter/src/cert/mod.rs:206-249 | The encoder of the extensions makes the calls of the trace until one fails |
| CertAsn1.EncodeCert | matter/src/cert/mod.rs:446-491 | For every certificate, the encoder stops at a call that fails or panics, or makes all calls of its trace and ends as the trace says |
| CertAsn1.AsAsn1 | matter/src/cert/mod.rs:436-440 | For every certificate and buffer, it succeeds exactly for known algorithms, a certificate that can be encoded, and lengths and a peak that fit, and then returns the recursive encoding of the to-be-signed structure, with which the buffer begins; it panics exactly for known algorithms and a certificate that cannot be encoded, when there is room for what comes in front of the panic |
| CertAsn1.EncodingClean | matter/src/cert/mod.rs:446-491 | The encoder meets a panic exactly for known algorithms and an empty public key, a key usage of zero or an extended key usage of 7 |
| CertAsn1.PanicsWithRoom | matter/src/cert/mod.rs:121-152 | Such a certificate panics in every buffer that would hold it with these values put right |
| CertAsn1.CertificateShaped | matter/src/cert/mod.rs:446-491 | At most six containers of a certificate are ever open |
| CertAsn1.CertificateReadsBack | matter/src/cert/mod.rs:436-491 | The depth is never the reason for a failure, twelve bytes more than the result are always enough, and a definite-length reader finds the structure that was meant |
| CertTlv.CertRoundTrip | matter/src/cert/mod.rs:372-394 | Reading the TLV of a certificate, whatever follows it, gives the value of that certificate |
| CertTlv.CertValInjective | matter/src/cert/mod.rs:372-386 | Different certificates have different values |
| CertTlv.CertWritten | matter/src/cert/mod.rs:372-386 | On the wire every field of a certificate, its extensions and its constraints is under its own tag |
| CertTlv.UnencodableArrives | matter/src/cert/mod.rs:372-394 | Certificates that cannot be encoded do arrive: with any other one, the same with a key usage of zero is read from its bytes |
| CertTlv.CertDecodable | matter/src/cert/mod.rs:154-203 | The derived schemas of the certificate, its extensions and its constraints are ones the codec theorems apply to |
| Groups.MulMod | matter/src/secure_channel/crypto_mbedtls.rs:70-88 | A scalar counts only modulo the order |
| Spake2p.MulAddUnblinds | matter/src/secure_channel/crypto_mbedtls.rs:205-269 | Multiplying out with the inverted blinding point and the product reduced modulo the order is multiplying the unblinded share |
| Spake2p.SharedValuesAgree | matter/src/secure_channel/crypto_mbedtls.rs:102-135 | Prover and verifier compute the same Z = xyP and V = w1yP (section 3.3 of RFC 9383), for all scalars and points of any abelian group annihilated by its order |
| Spake2p.WrongW0Shows | matter/src/secure_channel/crypto_mbedtls.rs:241-269 | With another w0 on the prover's side the verifier's Z is still xyP exactly if the two do not differ in multiples of M |
| Spake2p.CryptoMbedTLS.SetL | matter/src/secure_channel/crypto_mbedtls.rs:102-110 | L is w1s times the generator although w1s was reduced first |
| Spake2p.CryptoMbedTLS.GetPB | matter/src/secure_channel/crypto_mbedtls.rs:113-135 | The verifier's share is yP + w0N for the drawn y, which is kept |
| Spake2p.CryptoMbedTLS.GetZVAsProver | matter/src/secure_channel/crypto_mbedtls.rs:205-236 | Z and V are the products the RFC asks for |
| Spake2p.CryptoMbedTLS.GetZVAsVerifier | matter/src/secure_channel/crypto_mbedtls.rs:241-270 | Z and V are the products the RFC asks for |
| Spake2p.InvertedBlindShows | matter/src/secure_channel/crypto_openssl.rs:278-311 | With the point left inverted, Z is right exactly if twice the blinding vanishes |
| Spake2p.CryptoOpenSSL.GetTTAsVerifier | matter/src/secure_channel/crypto_openssl.rs:147-170 | The point stays inverted in the object: every odd call on it computes the right Z, and every even one exactly if twice the blinding vanishes; V is always right. `Spake2P` drops the object after one call (spake2p.rs:139-152), so only the first call occurs in the program |
| Spake2p.CryptoOpenSSL.GetZVAsProver | matter/src/secure_channel/crypto_openssl.rs:243-273 | Z and V are the products the RFC asks for, and the caller's point comes back inverted |
| Mrps.ReliableMessage.PreSend | matter/src/transport/mrp.rs:89-111 | The owed acknowledgement is stamped and forgotten, also when a second reliable message is then refused |
| Mrps.ReliableMessage.Recv | matter/src/transport/mrp.rs:118-142 | An acknowledgement ends the wait whichever counter it names, also when the message is then refused |
| Mrps.AcksAccounted | matter/src/transport/mrp.rs:89-142 | Over any run the reliable counters accepted are the counters stamped, in order, followed by the one still owed |
| Mrps.OneOutstanding | matter/src/transport/mrp.rs:104-110 | Between two accepted reliable sends an acknowledgement came in |
| Mrps.AwaitedIff | matter/src/transport/mrp.rs:104-129 | A counter is awaited after a run exactly if it was the last accepted reliable send and no acknowledgement came in behind it |
| Mrps.EmptyMeansSettled | matter/src/transport/mrp.rs:71-73 | `is_empty` holds after a run exactly if everything accepted was acknowledged and nothing sent is awaited |
| Mrps.SendExact | matter/src/transport/mrp.rs:89-113 | After any run a send stamps the one acknowledgement that is owed and, when reliable, is accepted exactly if nothing is awaited |
| Mrps.RecvExact | matter/src/transport/mrp.rs:118-142 | After any run a message is accepted exactly if its acknowledgement names a counter and, when it is reliable, everything accepted before is acknowledged and its time-out can be computed |
| Mrps.OutstandingIff | matter/src/transport/mrp.rs:118-129 | After a run a counter is outstanding, sent with no acknowledgement behind it that names it, exactly if it is awaited, or an acknowledgement of another counter ended the wait and none that names it came later |
| Mrps.AwaitsOutstandingIff | matter/src/transport/mrp.rs:122-127 | What is awaited is what is outstanding at every moment of a run exactly if no acknowledgement of it arrives while another counter is awaited |
| Mrps.OverlapIff | matter/src/transport/mrp.rs:104-110 | A reliable send is accepted while a message is outstanding exactly if such an acknowledgement left that message unanswered |
| Mrps.StrayAcknowledgement | matter/src/transport/mrp.rs:122-127 | Acknowledging any other counter leaves the exchange empty and open for the next reliable message, with the first one outstanding |
| Sessions.SessionMgr.GetNextSessId | matter/src/transport/session.rs:318-335 | The search ends within seventeen rounds with a nonzero id no session uses, the first candidate that is free |
| Sessions.FindsFirstUnused | matter/src/transport/session.rs:318-335 | The id found is unused and all candidates before it are in use |
| Sessions.IdsDistinct | matter/src/transport/session.rs:318-335 | Until the counter has gone once round all 65535 nonzero values no id is handed out twice, however sessions come and go in between |
| Sessions.ThousandsOfIdsDistinct | matter/src/transport/session.rs:318-335 | So any 3855 ids handed out in a row are different |
| Sessions.SessionMgr.GetLru | matter/src/transport/session.rs:341-353 | The scan finds the slot the specification names |
| Sessions.LruIsOldest | matter/src/transport/session.rs:341-353 | That slot holds a session used no later than any other, the first such; it is slot 0 when no session was used before now |
| Sessions.SessionMgr.PostRecv | matter/src/transport/session.rs:383-448 | The look-up in the slots, its one case of a new session, and a full table reported as no session |
| Sessions.PostRecvMatches | matter/src/transport/session.rs:383-448 | The session found answers to the header and no other session changes; there is none only in a full table, an encrypted packet never makes one, and an error means that none matches |
| Sessions.PostRecvExact | matter/src/transport/session.rs:383-448 | A packet gets the first session with its session id, peer address and encryption and no other node id; when there is none, an unsecured packet gets a fresh session of its address and node id in the first free slot, or none in a full table, and a secured one an error |
| Exchanges.InvAlways | matter/src/transport/exchange.rs:192-360 | A run of enabled steps that starts with the invariant ends with it; nothing is asked of the states in between |
| Exchanges.ReachedInv | matter/src/transport/exchange.rs:192-360 | In every state of every run from empty tables, each exchange is stored under its own id, its session slot is occupied, and there are at most eight; every further enabled step leads to such a state |
| Exchanges.EvictExact | matter/src/transport/exchange.rs:303-345 | A successful eviction frees exactly that slot and removes exactly the exchanges that use it; a failed one removes nothing and moves no exchange |
| Exchanges.JoinFindsRoom | matter/src/transport/exchange.rs:347-360 | After the eviction the retried insertion finds room, in the slot that was freed; adding a session fails only when the eviction does |
| Exchanges.RecvFindsRoom | matter/src/transport/exchange.rs:228-243 | A packet is turned away for want of a session only when the eviction fails; the retried look-up always succeeds |
| Exchanges.DeliveredToItsExchange | matter/src/transport/exchange.rs:192-272 | A message is handed on for an exchange of its own session with the role that answers the sender's; only an initiator begins one, and an exchange of another session is left alone |
| Exchanges.DeliverExact | matter/src/transport/exchange.rs:192-272 | For every packet: when it is refused and with which error, what becomes of its exchange, and that its session counts as used now |
| Exchanges.SendOnExact | matter/src/transport/exchange.rs:108-129 | For every send: one counter is used up, the session counts as used now unless the reliability protocol refuses, and how it ends |
| Exchanges.EvictPassesIff | matter/src/transport/exchange.rs:303-345 | An eviction goes through exactly if the close message can be built and, when an exchange uses the session, encoded and sent |
| Exchanges.SparedIsKept | matter/src/transport/exchange.rs:228-360 | A step leaves an exchange it spares on the same session in the same role, and moves its reliability state by that exchange's own messages only |
| Exchanges.ExchangesStayPut | matter/src/transport/exchange.rs:192-360 | Over any run that spares it an exchange never moves to another session, and its reliability state is that of a run of the protocol |
| Exchanges.ExchangesRunTheProtocol | matter/src/transport/exchange.rs:192-360 | After any run from empty tables every exchange is in the state of a run of the reliability protocol that began when the exchange did |
| Exchanges.PurgedIsSettled | matter/src/transport/exchange.rs:282-293 | After any run from empty tables, when a purge drops an exchange, all reliable messages it ever accepted are acknowledged and nothing it sent is awaited |
| Exchanges.PurgedIff | matter/src/transport/exchange.rs:79-82 | After any run from empty tables, a purge drops an exchange exactly if its handler closed it since it was begun, all reliable messages it accepted are acknowledged, and nothing it sent is awaited |
| Exchanges.PurgedUnansweredIff | matter/src/transport/exchange.rs:282-293 | After any run from empty tables, a purge drops an exchange while a message of it is outstanding exactly if an acknowledgement of another counter left that message unanswered |
| Exchanges.PurgedWhileOutstanding | matter/src/transport/exchange.rs:282-293 | Four steps from empty tables lead there: a peer opens an exchange, is sent a reliable message, acknowledges another one, and the handler closes the exchange |
| Exchanges.NotSparedIsGone | matter/src/transport/exchange.rs:282-345 | An exchange goes only by a purge or with its evicted session, and its id comes back in the same step only as a new exchange of the packet's sender |
| ExchangeMgrs.ExchangeMgr.Get | matter/src/transport/exchange.rs:192-225 | The exchange is created, found or refused as the step says |
| ExchangeMgrs.ExchangeMgr.SendOn | matter/src/transport/exchange.rs:108-129 | The message counter, the reliability state and the time of last use change in the source's order, also on its error paths |
| ExchangeMgrs.ExchangeMgr.EvictSession | matter/src/transport/exchange.rs:303-345 | The close message, the loop that removes the exchanges and the freed slot make the eviction step |
| ExchangeMgrs.ExchangeMgr.Recv | matter/src/transport/exchange.rs:228-272 | Receiving in place is the receive step, eviction and retry included |
| ExchangeMgrs.ExchangeMgr.Purge | matter/src/transport/exchange.rs:282-293 | Collecting and removing in two loops is the purge step |
| ExchangeMgrs.ExchangeMgr.AddSession | matter/src/transport/exchange.rs:347-360 | Adding a session in place is the join step |
| Acls.AccessOkMeans | matter/src/data_model/objects/attribute.rs:36-55 | Reading needs one of the privilege bits the object asks for, writing one of them other than VIEW, and the object must allow the operation |
| Acls.MatchesAccessor | matter/src/acl.rs:192-212 | The loop over the subjects decides as the declarative rule does; no subjects at all means every subject |
| Acls.MatchesAccessDesc | matter/src/acl.rs:214-240 | The loop over the targets decides as the declarative rule does; no targets at all means every target |
| Acls.AllowIff | matter/src/acl.rs:192-244 | An accessor may read or write exactly if it came over PASE, or an entry of its fabric with its authentication mode lists no subject or the accessor, no target or one that names nothing but the object's endpoint and cluster, and holds a privilege bit that is asked for |
| Acls.OtherSubjectsRefused | matter/src/acl.rs:192-212 | An accessor that none of its fabric's entries lists is refused |
| Acls.OtherClustersRefused | matter/src/acl.rs:214-226 | So is one whose fabric's entries all name other clusters |
| Acls.OtherEndpointsRefused | matter/src/acl.rs:214-226 | So is one whose fabric's entries all name other endpoints |
| Acls.DecidedByView | matter/src/acl.rs:441-458 | A decision depends only on the entries of the accessor's own fabric |
| Acls.SlotOfPosition | matter/src/acl.rs:283-300 | The slot found for an index holds the entry at that position of the fabric's view |
| Acls.EditActsOnView | matter/src/acl.rs:384-395 | Editing an index replaces that position of the fabric's view and no other fabric's; it fails exactly outside the view |
| Acls.DeleteActsOnView | matter/src/acl.rs:397-408 | Deleting an index takes that position out of the fabric's view and touches no other's |
| Acls.AddActsOnView | matter/src/acl.rs:357-381 | Adding puts the entry into its fabric's view, at the end when the free slots lie behind that fabric's entries, keeps all others and the limit of three, and touches no other fabric |
| AccessControls.WholeListTakesOver | matter/src/interaction_model/messages.rs:306-323 | After a successful write of a whole list the fabric's entries are exactly that list in order; a write that fails on the way leaves a first part of it, and nothing of the old list |
| AccessControls.WholeListTakenIff | matter/src/interaction_model/messages.rs:306-323 | It succeeds exactly if every item decodes, there are at most three, the slots left when the fabric's own are cleared are enough, and the store takes the cleared list and each step after it |
| AccessControls.WholeListTakenIfStored | matter/src/interaction_model/messages.rs:306-323 | With a store that takes everything that is a condition on the request and on the slots other fabrics leave |
| AccessControls.FailedWriteLosesTheList | matter/src/interaction_model/messages.rs:309-319 | A good item in front of one that does not decode fails the write, and the fabric is left with the good item alone |
| AclReads.ReadsRestored | matter/src/data_model/system_model/access_control.rs:87-97 | The bytes of a read, whatever follows them, decode to the entries shown, in order, with MANAGE in place of OPERATE |
| AclReads.EntryWritten | matter/src/acl.rs:144-158 | On the wire every field of an entry and of its targets is under its own tag |
| AclReads.OneEntryBytes | matter/src/data_model/system_model/access_control.rs:87-97 | The bytes of a read of one entry, one by one |
| AclReads.Arrives | matter/src/acl.rs:142-158 | Whatever entry a write carries has one of the four named privileges and a real authentication mode, its subjects and targets in front |
| AclReads.WholeListReadsBack | matter/src/interaction_model/messages.rs:306-323 | After a successful write of a whole list the bytes of the fabric-filtered read decode to the written entries with MANAGE in place of OPERATE, so to the written list exactly if no item has OPERATE |
| AclReads.OperateReadsAsManage | matter/src/data_model/objects/privilege.rs:41-58 | A request that writes one entry with privilege 3 succeeds, and the fabric reads privilege 7 |
| AclReads.NullItemLosesTheList | matter/src/interaction_model/messages.rs:309-319 | A request with one good item and a null loses the old list |
| AclReads.RequestExists | matter/src/interaction_model/messages.rs:309-319 | These requests are the elements that certain bytes are read as |
| AclReads.RequestsSurvive | matter/src/acl.rs:258-277 | After any run of requests of any fabrics what would be stored can be loaded again |
| AccessControls.IndexActsOnPosition | matter/src/data_model/system_model/access_control.rs:53-77 | Editing or deleting by list index acts on that position of the list the fabric reads when the index is below 256 or its low byte is outside the list as well |
| AccessControls.DeletesThePositionIff | matter/src/data_model/system_model/access_control.rs:68 | For deletion that condition is exact |
| AccessControls.WrongIndexDeletes | matter/src/data_model/system_model/access_control.rs:68 | List index 256 deletes the first entry |
| AccessControls.EditsThePositionIff | matter/src/data_model/system_model/access_control.rs:63 | Editing by list index acts on that position exactly if the index is below 256, or its low byte is outside the list, or the item there is the one written and cannot be stored |
| AccessControls.WrongIndexEdits | matter/src/data_model/system_model/access_control.rs:63 | List index 256 overwrites the first entry |
| AccessControls.FailedButChangedIff | matter/src/acl.rs:357-428 | Adding, editing, deleting or clearing is reported as failed and yet changes the fabric's list exactly if the change itself goes well, makes a difference, and cannot be stored |
| AccessControls.FailedListWriteIff | matter/src/interaction_model/messages.rs:298-323 | The same for the writes of one item through the list write |
| AccessControls.WriteEnds | matter/src/data_model/system_model/access_control.rs:47-77 | How every write ends: undecodable items and positions that are not there, a full fabric or list, and otherwise the store's answer |
| AccessControls.UnstoredStays | matter/src/acl.rs:357-408 | At a store that takes nothing an entry is added and deleted again, both writes failing |
| AccessControls.RunKeepsToFabric | matter/src/data_model/system_model/access_control.rs:47-128 | Over any run of one fabric's requests all slots of other fabrics stay as they are and the fabric keeps to three entries |
| AccessControls.RunKeepsOtherDecisions | matter/src/acl.rs:441-458 | No decision about an accessor of another fabric changes in such a run |
| AccessControls.AddNeverRevokes | matter/src/acl.rs:357-381 | Adding an entry never takes an access away |
| AclMgrs.AclMgr.Store | matter/src/acl.rs:258-264 | The slots are encoded into 300 bytes and handed over; the store holds their encoding exactly when all of it succeeds |
| AclMgrs.AclMgr.NewWith | matter/src/acl.rs:315-342 | A manager starts with what loads from the store, and empty when nothing does |
| AclMgrs.AclMgr.ForIndexInFabric | matter/src/acl.rs:283-300 | The loop that counts a fabric's entries finds the slot of the index |
| AclMgrs.AclMgr.Add | matter/src/acl.rs:357-381 | The entry is in the slots before it is stored, so it stays when storing fails |
| AclMgrs.AclMgr.DeleteForFabric | matter/src/acl.rs:410-428 | The loop empties exactly the fabric's slots |
| AclMgrs.AclMgr.EraseAll | matter/src/acl.rs:344-355 | All slots are emptied and that is stored when the store takes it |
| AclMgrs.AclMgr.Allow | matter/src/acl.rs:441-458 | The loop over the entries decides as the declarative rule does |
| AclMgrs.AccessControlCluster.WriteAclAttr | matter/src/data_model/system_model/access_control.rs:47-77 | Decoding, the overwritten fabric index, the index cut to a byte and the status codes make the write of the specification |
| AclMgrs.AccessControlCluster.WriteAttribute | matter/src/data_model/system_model/access_control.rs:109-128 | Writing the attribute, item by item for an array, is the list write, and the data version rises by one exactly when it succeeds |
| AclMgrs.AccessControlCluster.ReadAclAttr | matter/src/data_model/system_model/access_control.rs:87-97 | The loop over the entries, with or without the fabric filter, appends the bytes of the read when they fit |
| AclMgrs.RestartAfterStore | matter/src/acl.rs:315-342 | A manager that starts with what another one stored has all of its entries restored, at the same index of each fabric, or none |
| AclRuns.StoreHoldsLast | matter/src/acl.rs:344-428 | After any run of changes that may fail to be stored, the key-value store holds the slots as of the last change that was |
| AclRuns.RestartAfterRun | matter/src/acl.rs:315-342 | A restart after any run gives each fabric its restored entries of that moment, at the same indexes, or none |
| AclRuns.RestartGivesMemory | matter/src/acl.rs:315-342 | These are the restored entries of memory when the last change that went well was stored |
| AclRuns.UnstoredIsLost | matter/src/acl.rs:357-381 | An entry added while the store fails is in memory and is gone with a restart |
| AclMgrs.LoadTyped | matter/src/acl.rs:266-277 | Whatever bytes are loaded, the slots hold entries within the ranges of their fields |
| AclRestarts.LoadAfterStore | matter/src/acl.rs:258-277 | Loading what was stored gives the entries that were there, in order and moved to the front, OPERATE turned into MANAGE |
| AclRestarts.SurvivesIff | matter/src/acl.rs:258-277 | It loads at all exactly if every stored entry has the VIEW bit and a real authentication mode |
| AclRestarts.RestartKeepsViews | matter/src/acl.rs:258-300 | After a restart every index of every fabric means the same entry |
| AclDecisions.GrantsAlikeIff | matter/src/data_model/objects/privilege.rs:24-58 | What a privilege with VIEW grants, for all permissions and operations, is the same after a restart exactly for VIEW, MANAGE and ADMIN |
| AclDecisions.EntryDecidesAlikeIff | matter/src/acl.rs:241-244 | An entry decides the same for every accessor and every object after a restart exactly if its privilege is VIEW, MANAGE or ADMIN |
| AclDecisions.RestartDecides | matter/src/acl.rs:441-458 | After a restart exactly those requests are allowed that were allowed before and those an OPERATE entry of the accessor's fabric would allow as MANAGE |
| AclDecisions.RestartKeepsDecisionsIff | matter/src/acl.rs:441-458 | Every decision of the list is the same after a restart exactly if whatever an OPERATE entry concerns is also the concern of a MANAGE or ADMIN entry |
| AclDecisions.RestartKeepsDecisions | matter/src/acl.rs:258-277 | In particular with privileges VIEW, MANAGE and ADMIN only |
| AclDecisions.OperateEscalates | matter/src/data_model/objects/privilege.rs:49-53 | Alone in the list, an OPERATE entry gains access by a restart: reading and writing an object that asks for MANAGE is refused before and allowed afterwards |
| AclDecisions.UnnamedPrivilegeShrinks | matter/src/data_model/objects/privilege.rs:43-58 | Privilege bits that no request can carry lose access: 5, 9, 11 and 13 each allow a read that is refused after a restart |
| Nodes.VisitsExactlyTheMatches | matter/src/data_model/objects/node.rs:104-160 | Along the path of a request, whose attribute id has 16 bits, a traversal visits exactly the attributes with the ids of the path, in storage order, whatever the visitor returns, and an error comes out only where no wildcard encloses it |
| Nodes.MatchesDistinct | matter/src/data_model/objects/node.rs:257-272 | No attribute is visited twice |
| Nodes.VisitsMatchesIff | matter/src/data_model/objects/node.rs:263-265 | Along a path with any leaf it visits exactly the matches if and only if the leaf is missing or below 65536, or no attribute on the path has the id the leaf is cut to |
| Nodes.LeafIsCut | matter/src/data_model/objects/node.rs:263-265 | Leaf 65536 visits attribute 0, which does not match it; no request can form this path |
| Nodes.Node.ForEachAttribute | matter/src/data_model/objects/node.rs:145-160 | The loop over the endpoints, with its running id and path, is the traversal of the theorems |
| Nodes.Node.ForEachCluster | matter/src/data_model/objects/node.rs:202-216 | The loop over the clusters of an endpoint |
| Nodes.Node.ForEachLeaf | matter/src/data_model/objects/node.rs:257-272 | The loop over the attributes of a cluster |
| WritePaths.WriteStores | matter/src/data_model/objects/cluster.rs:238-283 | A write succeeds exactly if the attribute is there, takes writes, may be written by the accessor, is of a supported type and not FIXED and the data is of its type; then it stores the data there and nowhere else |
| WritePaths.WriteCodes | matter/src/data_model/objects/cluster.rs:238-283 | Which code every failing write ends with |
| WritePaths.RequestTracks | matter/src/data_model/core.rs:236-252 | Over a whole write request each cluster's data version rises, modulo 2^32, by exactly the number of successes reported for it, and a cluster with none is unchanged |
| WritePaths.HandleWriteTracks | matter/src/data_model/core.rs:65-128 | The same for one path; a write with a stale version changes nothing, a concrete path is answered exactly once, a path without endpoint only by successes, and other wildcards by one error |
| WritePaths.ConcretePathExact | matter/src/data_model/core.rs:65-128 | A path that names endpoint, cluster and attribute gets one answer: a version mismatch exactly if a version is given and differs, and success exactly if none is given or it is equal, the attribute may be written and the data is of its type; then the data is stored, the version is one higher and nothing else has changed |
| WritePaths.WildcardExact | matter/src/data_model/core.rs:98-128 | A path without endpoint is answered by one success for every endpoint, in order, where that holds; the data is stored there and everything else is as it was |
| WritePaths.MissingPathExact | matter/src/data_model/core.rs:76-84 | A path that names what is not there, or leaves out more than the endpoint, gets one error of that part and changes nothing |
| WritePaths.HandleWriteAttrPath | matter/src/data_model/core.rs:65-128 | The handler with its encoder and the traversal in place is that function |
| WritePaths.ForEachClusterMut | matter/src/data_model/objects/node.rs:171-190 | The loop that changes the endpoints in place is the traversal for writes |
| WritePaths.ConsumeWriteAttr | matter/src/data_model/core.rs:236-252 | The loop over the writes of a request answers them in order |

## Left out

* TLV floating-point values and strings with four-byte or eight-byte lengths: the
  reader answers them as the end of the input, as the source does, and nothing writes them.
* The pointer of a container element is the slice of bytes behind its tag; the
  shared buffer and the offset into it are not kept.
* Equality of elements, which compares the end marker with anything, and printing.
* The owned `String` type and the array that is decoded lazily while it is read.
* Text of dates: an uninterpreted function from the epoch to bytes. Signature checks
  and certificate chains.
* Curve points as bytes, hashing, the transcript and the confirmation keys of
  SPAKE2+, and failures of the cryptographic libraries; the third back end, whose
  formulas are the same.
* Encryption, keys and attached data of sessions and exchanges, and the header codecs;
  what decrypting and decoding a packet gives is a parameter.
* The order in which the exchange map lists its entries; the exchange a close message
  goes out on is any one of the session's.
* Readiness of acknowledgements, whose comparison is the reverse of its name, and the
  map of four entries they are collected in; sends and standalone acknowledgements can
  happen at any time instead.
* One reading of the clock serves all of a step. A message counter that overflows wraps,
  as in a release build.
* Handlers of secure-channel and interaction messages, reads and commands of the data
  model, subscriptions, network input and output, discovery and the work queue.
* Building the node, and its change callback. Endpoints, clusters and attributes are
  values in the node's array of endpoints, so aliasing between them is not captured;
  the closures of the traversals are written out as inner loops.
* Clusters with a write of their own, other than access control, inside a write
  request; answers are a list, not bytes in a response buffer that might be full.
* Locks: each locked section is one step.
* CertAsn1.Consumer.BitStr: the index below an empty string is a panic, as where
  overflow is checked; without the check an empty key that is not truncated is written
  as an empty bit string.
* AclMgrs.AccessControlCluster.ReadAclAttr: says of a list that does not fit only that
  something is appended, because the source ignores which of its calls failed.
* Fixed arrays of elements that are not optional, and unordered structures inside others:
  nothing in the repository encodes or decodes one.
* WriteBufs.WriteBuf.Reserve: what other calls do to a buffer whose reserve was larger
  than itself.
* Asn1Writers.ASN1Writer.AddCompound: asks for room in the stack of starts, because the
  source indexes it out of bounds when a client goes on after the call that failed.
* TlvWriter.TLVWriter.Str16As: asks for two free bytes behind the header, because the
  source slices past its buffer without them.
