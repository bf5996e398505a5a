# soccer: a Dafny model of the tunnel's codecs and lookup cache

`soccer` is a SOCKS5-over-WebSocket tunnel in Rust. The local side (`soccer`) accepts SOCKS5
CONNECT requests (RFC 1928) and sends the destination to the remote side (`goal`) as a small
binary request header. The bytes it relays may be disguised by a byte shifter. The remote side
resolves the name through its own DNS client (RFC 1035), and concurrent lookups of the same name
share one query through a coalescing result cache.

This project models the pure and stateful core of those parts:

- **DNS codec** (`dns/src/*.rs`): domain/qname conversion, header, question, request message,
  answer records read through a name-compression pointer, response parsing with its address
  accessors, and the two crate entry points. The parsers work on a `Cursor` class: an immutable
  byte buffer and a position the methods move. Each method is proved equal to a pure
  specification function `XAt(data, pos)` that returns the value and the position after it. The
  properties are proved about those functions:
  - header, question and qname round trips;
  - the record layout;
  - a request read back as a response;
  - the test vectors of the crate's `to_bytes_test` and `test_no_answers`.
- **Result cache** (`domain-name-actor/src/result_cache.rs`): a `class` whose map is updated in
  place by `Subscribe` and `Notify`. With responders as ids:
  - each method is proved against a transition function on a `CacheState` value;
  - an invariant holds over every sequence of operations;
  - the keys in the table are exactly the keys in flight;
  - each key is launched once per subscribe that found it not in flight (coalescing, but no
    memoisation);
  - with distinct ids, every responder is sent at most one result, and exactly one once nothing
    is in flight.
- **Cache key** (`domain-name-query-types/src/lib.rs`): `QType`, its `Display`, and
  `NameQuery::a_record`.
- **Byte shifter** (`transfer/src/byte_shift.rs`): written in 8-bit arithmetic with the `encode` and `decode`
  branches, so no intermediate value leaves a byte. It is addition and subtraction modulo 256,
  and each direction undoes the other.
- **Destination** (`soccer/src/destination.rs`). `destination.rs` has no `address()` accessor,
  although `soccer/src/main.rs:95,98` calls one; the model adds one that returns the stored bytes.
- **Tunnel request header**: `encode_request_header` in `soccer/src/main.rs` and
  `decode_request_header` in `goal/src/main.rs`. The model also covers the byte-level part of
  `recv_request` and the two fixed SOCKS5 replies. The encoder and decoder round trip for every
  domain a SOCKS5 request can carry (at most 255 bytes).

In the DNS codec, `Destination` and the tunnel header, strings are modelled as their UTF-8
bytes (`seq<uint8>`). The cache key's `Name` (`domain-name-query-types/src/lib.rs`) is a Dafny
`string`, since no byte of it is inspected. `String::from_utf8_lossy` is a
concrete function (`Utf8.Lossy`) that keeps well-formed sequences. It replaces each maximal
ill-formed prefix by U+FFFD. A failing `std::io` read is `Err(UnexpectedEof)`. A Rust panic
(`todo!`, `unwrap` on a failed read, an out-of-range slice) is `Err(Panic)`.

Behaviours of the code that the model keeps as written:

- **Compression pointer.** `parse_from_reader` in `dns/src/resource_record.rs` computes the
  pointer offset as `(first & 63) + second`. Section 4.1.4 of RFC 1035 defines it as
  `(first & 63) * 256 + second`. The two agree exactly when the target lies in the first 256
  bytes of the message (`PointerAgreesWithRfc`). A pointer `C1 00` to offset 256 is followed to
  offset 1 (`PointerDefectExample`). The tag bits are never checked, so any byte is taken as a
  pointer (`PointerIgnoresTag`). The model follows the code.
- **Empty labels.** `domain_to_qname` writes an empty label as a zero length byte, so "a..b"
  becomes `1 a 0 1 b 0` (`QnameEmptyLabel`), and a reader stops at that zero. The empty domain
  becomes `0 0` (`QnameEmpty`). A label of 256 bytes or more has its length truncated to a
  byte. Round trips are therefore stated for well-formed domains: labels of 1 to 255 ASCII
  bytes.
- **Overlong labels.** `qname_to_domain` panics when a label length reaches past the end of
  the input (`LabelsOfOverrun`). It stops quietly at the end of the input when no zero byte
  comes.
- **Length truncation.** The tunnel header carries the address length `as u16`. The decoder
  then reads only the first `|address| mod 65536` bytes (`Goal.EncodeThenDecode`). Addresses
  from a SOCKS5 request are at most 255 bytes, so the round trip holds for every destination
  the local side produces (`Goal.TunnelCarriesRequest`).

## Model

| member | source | states |
|---|---|---|
| Bytes.U16Bytes | dns/src/header.rs:27-36 | a 16-bit value is written as two bytes whose big-endian reading is the value |
| Bytes.U16Of | dns/src/header.rs:38-44 | two bytes read big-endian denote `hi * 256 + lo` |
| Bytes.U32Of | dns/src/resource_record.rs:34 | four bytes read big-endian denote the 32-bit TTL |
| Bytes.U16BytesOf | dns/src/header.rs:27-44 | writing back what was read gives the same two bytes, so the encoding is a bijection |
| Utf8.Lossy | dns/src/utils.rs:18 | `from_utf8_lossy` never shrinks its input and at most triples it, so only the empty sequence decodes to nothing |
| Utf8.LossyAscii | dns/src/utils.rs:18 | lossy decoding leaves ASCII bytes unchanged |
| Utf8.LossyAsciiPrefix | dns/src/utils.rs:18 | an ASCII prefix passes through lossy decoding unchanged, whatever follows it |
| Utf8.LossyBadLead | dns/src/utils.rs:18 | a byte that cannot start a UTF-8 sequence becomes one U+FFFD, whatever follows it, and decoding resumes at the next byte |
| Cursors.ZeroFrom | dns/src/question.rs:35 | the first zero byte at or after the position, or the end: no zero before it |
| Cursors.UntilZero | dns/src/question.rs:35 | `read_until(0)` returns the bytes up to and including the first zero, or up to the end when there is none, and nothing at or past the end |
| Cursors.UntilZeroStops | dns/src/question.rs:35 | a zero-free run followed by a zero is read exactly, with its terminator |
| Cursors.Cursor.constructor | dns/src/response_message.rs:18 | a new cursor is at position 0 over the given bytes |
| Cursors.Cursor.SetPosition | dns/src/resource_record.rs:24-29 | `set_position` moves to any position, also past the end |
| Cursors.Cursor.ReadU8 | dns/src/resource_record.rs:18-19 | reads one byte and advances by one, or fails at the end |
| Cursors.Cursor.ReadU16 | dns/src/header.rs:39-44 | reads two bytes big-endian and advances by two, or fails when fewer remain |
| Cursors.Cursor.ReadU32 | dns/src/resource_record.rs:34 | reads four bytes big-endian and advances by four, or fails when fewer remain |
| Cursors.Cursor.ReadExact | goal/src/main.rs:84-86 | `read_exact` of n bytes returns exactly the next n bytes, or fails when fewer remain; reading no bytes succeeds at any position |
| Cursors.Cursor.ReadUntilZero | dns/src/question.rs:34-35 | returns what `UntilZero` describes and moves past it |
| DnsUtils.Split | dns/src/utils.rs:31 | `split('.')` gives at least one part and no part holds a dot |
| DnsUtils.JoinSplit | dns/src/utils.rs:24-31 | joining the parts again with dots gives back the input |
| DnsUtils.SplitWhole | dns/src/utils.rs:31 | a dot-free string splits into itself alone |
| DnsUtils.SplitFirst | dns/src/utils.rs:31 | splitting at the first dot gives the part before it and the split of the rest |
| DnsUtils.RunsAppend | dns/src/utils.rs:32-38 | one more label appends its length byte and its bytes |
| DnsUtils.RunsSplitLength | dns/src/utils.rs:28-38 | the labels of a domain take one byte more than the domain |
| DnsUtils.QnameLength | dns/src/utils.rs:28-43 | a qname is two bytes longer than its domain and ends in a zero byte |
| DnsUtils.DomainToQname | dns/src/utils.rs:28-43 | `domain_to_qname` writes each dot-separated label as its truncated length byte and its bytes, then a zero |
| DnsUtils.LabelsOf | dns/src/utils.rs:5-22 | reading labels panics or gives labels of 1 to 255 bytes |
| DnsUtils.MapLossy | dns/src/utils.rs:18-19 | every label is decoded lossily, in order (definitional; `QnameToDomain` is stated with it) |
| DnsUtils.QnameToDomain | dns/src/utils.rs:2-25 | `qname_to_domain` joins the lossily decoded labels with dots, stops at a zero length or the end, and panics on a label past the end |
| DnsUtils.LabelsOfRuns | dns/src/utils.rs:5-22 | labels written as runs are read back exactly, and whatever follows the zero byte is ignored |
| DnsUtils.LabelsOfOverrun | dns/src/utils.rs:13-16 | a label whose length reaches past the input makes the slice panic |
| DnsUtils.QnameRoundTrip | dns/src/utils.rs:2-43 | `qname_to_domain(domain_to_qname(d)) == d` for every well-formed domain |
| DnsUtils.RunsNulFree | dns/src/utils.rs:32-38 | labels of 1 to 255 nonzero bytes are written without a zero byte |
| DnsUtils.SplitNulFree | dns/src/utils.rs:31 | the parts of a zero-free string are zero-free |
| DnsUtils.QnameNulFree | dns/src/utils.rs:28-38 | the qname of a zero-free well-formed domain has its only zero at the end |
| DnsUtils.QnameEmpty | dns/src/utils.rs:28-43 | the empty domain becomes one empty label, `0 0` |
| DnsUtils.QnameTwoLabels | dns/src/utils.rs:28-43 | a two-label domain becomes length, label, length, label, zero |
| DnsUtils.QnameEmptyLabel | dns/src/utils.rs:28-43 | an empty label inside a domain is written as a zero byte, and reading the name back stops there: "a..b" is read as "a" |
| DnsHeader.New | dns/src/header.rs:16-25 | the request header: id 209*256+183, flags 256 (recursion desired), one question, no records |
| DnsHeader.HeaderBytes | dns/src/header.rs:27-36 | a header is twelve bytes |
| DnsHeader.ToBytes | dns/src/header.rs:27-36 | `to_bytes` appends the six fields big-endian to the buffer, leaving what was there |
| DnsHeader.HeaderAt | dns/src/header.rs:38-56 | reading a header fails exactly when fewer than twelve bytes remain; otherwise each field is the big-endian value of its two bytes |
| DnsHeader.ParseFromReader | dns/src/header.rs:38-56 | `parse_from_reader` reads what `HeaderAt` describes and advances by twelve |
| DnsHeader.HeaderRoundTrip | dns/src/header.rs:27-56 | a written header is read back exactly, whatever surrounds it |
| DnsHeader.NewHeaderBytes | dns/src/header.rs:16-36 | the request header is `209 183 1 0 0 1 0 0 0 0 0 0` |
| DnsQuestion.New | dns/src/question.rs:13-19 | a question for the domain with type A (1) and class IN (1) |
| DnsQuestion.ToBytes | dns/src/question.rs:21-31 | `to_bytes` appends the qname, type and class, six bytes more than the domain |
| DnsQuestion.QuestionAt | dns/src/question.rs:33-48 | the question is read up to the first zero, then type and class; it fails exactly when the name panics or four bytes are missing |
| DnsQuestion.ParseFromReader | dns/src/question.rs:33-48 | `parse_from_reader` reads what `QuestionAt` describes and moves past it |
| DnsQuestion.QuestionRoundTrip | dns/src/question.rs:21-48 | a written question for a zero-free well-formed domain is read back exactly, whatever surrounds it |
| DnsRequestMessage.New | dns/src/request_message.rs:10-15 | the request header and an A/IN question for the domain |
| DnsRequestMessage.ToBytes | dns/src/request_message.rs:17-22 | the header, then the question, appended: eighteen bytes more than the domain |
| DnsRequestMessage.RequestLayout | dns/src/request_message.rs:10-22 | every request is the fixed header, the qname, then `0 1 0 1` |
| DnsRequestMessage.BaiduRequest | dns/src/request_message.rs:29-44 | the request for "baidu.com" is the 27 bytes of `to_bytes_test` |
| DnsResourceRecord.PointerOffset | dns/src/resource_record.rs:22 | the offset the code computes is below 320, so names past byte 318 of a message cannot be reached |
| DnsResourceRecord.RfcPointerOffset | dns/src/resource_record.rs:21-22 | the offset section 4.1.4 of RFC 1035 defines is a 14-bit number |
| DnsResourceRecord.PointerAgreesWithRfc | dns/src/resource_record.rs:21-22 | the code's pointer offset equals the RFC 1035 offset exactly when the low six bits of the first byte are zero |
| DnsResourceRecord.PointerDefectExample | dns/src/resource_record.rs:22 | the pointer `C1 00` (offset 256) is followed to offset 1 |
| DnsResourceRecord.PointerIgnoresTag | dns/src/resource_record.rs:21-22 | the two tag bits are never looked at |
| DnsResourceRecord.NameAt | dns/src/resource_record.rs:18-31 | the name is read through the two pointer bytes, panics when its labels do, and reading resumes after the pointer |
| DnsResourceRecord.FieldsAt | dns/src/resource_record.rs:32-35 | type, class, TTL and data length read big-endian, failing exactly when ten bytes are missing |
| DnsResourceRecord.RecordAt | dns/src/resource_record.rs:16-52 | a record read has exactly `rdLength` data bytes and ends 12 + `rdLength` bytes after its start |
| DnsResourceRecord.RecordLayout | dns/src/resource_record.rs:16-52 | when a record is read, what makes it fail; on success every field's bytes, the data being exactly `rdLength` bytes, and the record ending `12 + rdLength` bytes on |
| DnsResourceRecord.ReadDomainName | dns/src/resource_record.rs:55-59 | `read_domain_name` is `read_until(0)` and never fails |
| DnsResourceRecord.ReadName | dns/src/resource_record.rs:18-31 | the pointer is followed, the position restored, and the name decoded |
| DnsResourceRecord.ReadFields | dns/src/resource_record.rs:32-35 | the four fixed fields are read and the position advances by ten |
| DnsResourceRecord.ReadData | dns/src/resource_record.rs:37-40 | `rdlength` single-byte reads give exactly the next `rdlength` bytes in order |
| DnsResourceRecord.ParseFromReader | dns/src/resource_record.rs:16-52 | `parse_from_reader` reads what `RecordAt` describes and moves past it |
| DnsResponseMessage.Repeat | dns/src/response_message.rs:29-34 | a successful repeat of n reads gives n values |
| DnsResponseMessage.RepeatFails | dns/src/response_message.rs:31-34 | once a read fails, the loop's `?` makes every longer repeat fail the same way |
| DnsResponseMessage.RepeatNext | dns/src/response_message.rs:31-34 | one more iteration reads where the previous record ended |
| DnsResponseMessage.RecordsAt | dns/src/response_message.rs:29-34 | a successful read of n answer records gives n records |
| DnsResponseMessage.QuestionPartAt | dns/src/response_message.rs:23-27 | a question is read exactly when `qdcount` is 1; any other count reads none |
| DnsResponseMessage.ResponseOf | dns/src/response_message.rs:16-43 | fewer than twelve bytes fail; on success the header is the header bytes, the question is present iff `qdcount == 1`, and there are `ancount` answers |
| DnsResponseMessage.ReadQuestionPart | dns/src/response_message.rs:23-27 | reads what `QuestionPartAt` describes |
| DnsResponseMessage.ReadRecords | dns/src/response_message.rs:29-34 | the loop reads what `RecordsAt` describes, stopping at the first failing record |
| DnsResponseMessage.ParseResponse | dns/src/response_message.rs:16-43 | `parse_response` on a fresh cursor is `ResponseOf` |
| DnsResponseMessage.AddressOf | dns/src/response_message.rs:73-81 | a record has an address iff its data has at least four bytes, and the address is the first four |
| DnsResponseMessage.FirstAddress | dns/src/response_message.rs:45-56 | Some iff there is a first answer and its data has at least four bytes; then its first four bytes |
| DnsResponseMessage.LastAddress | dns/src/response_message.rs:58-69 | Some iff there is a last answer and its data has at least four bytes; then its first four bytes |
| DnsResponseMessage.AddressList | dns/src/response_message.rs:72-83 | one optional address per record, in order |
| DnsResponseMessage.Addresses | dns/src/response_message.rs:72-83 | `addresses` has one entry per answer |
| DnsResponseMessage.AddressesEnds | dns/src/response_message.rs:45-83 | `first_address` and `last_address` are the ends of `addresses` |
| DnsResponseMessage.ZCnnName | dns/src/response_message.rs:92-95 | the test's qname decodes to "z.cnn" |
| DnsResponseMessage.ZCnnQuestion | dns/src/response_message.rs:93-95 | the test's question section reads as z.cnn, A, IN |
| DnsResponseMessage.NoAnswers | dns/src/response_message.rs:90-99 | the test response for "z.cnn" parses, has its question and no first address |
| Dns.EncodeRequest | dns/src/lib.rs:12-18 | `encode_request` never fails and gives the request bytes, eighteen bytes longer than the domain |
| Dns.DecodeResponse | dns/src/lib.rs:20-22 | `decode_response` is `parse_response` |
| Dns.DecodeOwnRequest | dns/src/lib.rs:12-22 | decoding an encoded request gives its header, its question, no answers and no address |
| ResultCaches.NewPending | domain-name-actor/src/result_cache.rs:16-22 | a new pending item has exactly the one responder |
| ResultCaches.Empty | domain-name-actor/src/result_cache.rs:34-38 | a new table is empty and has sent and launched nothing |
| ResultCaches.Deliveries | domain-name-actor/src/result_cache.rs:66-68 | one send of the result per responder, in order |
| ResultCaches.Subscribed | domain-name-actor/src/result_cache.rs:40-60 | a new key gets a pending entry and one launch; a pending key gets the responder appended; other keys are untouched; a resolved key panics |
| ResultCaches.Notified | domain-name-actor/src/result_cache.rs:62-78 | a pending key is removed and its responders are sent the result in order; an absent key changes nothing; a resolved key panics |
| ResultCaches.SubscribePreserves | domain-name-actor/src/result_cache.rs:40-60 | subscribe never panics and keeps every entry pending and non-empty |
| ResultCaches.NotifyPreserves | domain-name-actor/src/result_cache.rs:62-78 | notify never panics and keeps every entry pending and non-empty |
| ResultCaches.SubscribeWaiting | domain-name-actor/src/result_cache.rs:40-60 | subscribe adds exactly the responder to those waiting |
| ResultCaches.NotifyWaiting | domain-name-actor/src/result_cache.rs:62-78 | notify moves exactly the key's responders from waiting to sent |
| ResultCaches.SubscribeAccounted | domain-name-actor/src/result_cache.rs:40-60 | a subscribe keeps the keys, launches and responders accounted for |
| ResultCaches.NotifyAccounted | domain-name-actor/src/result_cache.rs:62-78 | a notify keeps the keys, launches and responders accounted for |
| ResultCaches.RunFacts | domain-name-actor/src/result_cache.rs:40-78 | every sequence of operations succeeds. Afterwards the keys in the table are those in flight, each key was launched once per subscribe that found it idle, and every subscriber is waiting or was sent a result |
| ResultCaches.ExactlyOnce | domain-name-actor/src/result_cache.rs:62-78 | with distinct ids every responder gets at most one result, and exactly one once no key is in flight |
| ResultCaches.TwoSubscribers | domain-name-actor/src/result_cache.rs:98-118 | the `test_dns_cache` test: two subscribers on "a" both receive 1.2.3.4, with one launch |
| ResultCaches.LaunchAgainAfterNotify | domain-name-actor/src/result_cache.rs:62-78 | results are not kept: a subscribe after a notify launches the lookup again |
| ResultCaches.ResultCache.constructor | domain-name-actor/src/result_cache.rs:34-38 | `new` gives the empty table |
| ResultCaches.ResultCache.Subscribe | domain-name-actor/src/result_cache.rs:40-60 | the table's new state is `Subscribed` of the old one, and the invariant holds |
| ResultCaches.ResultCache.Notify | domain-name-actor/src/result_cache.rs:62-78 | the responders are sent the result one by one; the new state is `Notified` of the old one |
| DomainNameQueryTypes.Display | domain-name-query-types/src/lib.rs:9-21 | `QType::A` is displayed as "A" |
| DomainNameQueryTypes.ARecord | domain-name-query-types/src/lib.rs:31-37 | `a_record(s)` has name `s` and type A |
| DomainNameQueryTypes.ARecordSameKey | domain-name-query-types/src/lib.rs:25-37 | two `a_record` keys are equal iff their names are |
| DomainNameQueryTypes.QueryIsARecord | domain-name-query-types/src/lib.rs:3-7 | A is the only record type, so every query is `a_record` of its name |
| ByteShift.ByteShifter.Encode | transfer/src/byte_shift.rs:14-20 | `encode(b) == (b + sugar) mod 256`, with no intermediate value outside a byte |
| ByteShift.ByteShifter.Decode | transfer/src/byte_shift.rs:22-28 | `decode(b) == (b - sugar) mod 256`, with no intermediate value outside a byte |
| ByteShift.New | transfer/src/byte_shift.rs:8-12 | keeps the sugar (definitional) |
| ByteShift.DecodeEncode | transfer/src/byte_shift.rs:14-28 | decode undoes encode for every sugar and byte |
| ByteShift.EncodeDecode | transfer/src/byte_shift.rs:14-28 | encode undoes decode for every sugar and byte |
| ByteShift.EncodeInjective | transfer/src/byte_shift.rs:14-20 | different bytes are encoded differently |
| ByteShift.ZeroSugar | transfer/src/byte_shift.rs:14-28 | with sugar 0 both directions are the identity |
| ByteShift.EncodeVectors | transfer/src/byte_shift.rs:36-46 | the encoding test vectors for sugar 10 |
| ByteShift.DecodeVectors | transfer/src/byte_shift.rs:49-60 | the decoding test vectors for sugar 10 |
| SoccerDestination.Destination.Domain | soccer/src/destination.rs:14-16 | `domain()` is the address decoded lossily: empty exactly when the address is, and at most three times as long |
| SoccerDestination.Destination.Port | soccer/src/destination.rs:18-20 | `port()` returns the stored port (definitional; the round trip in `Goal.RoundTrip` is stated with it) |
| SoccerDestination.Destination.ToStr | soccer/src/destination.rs:22-26 | `to_str` is the domain, then a colon, then decimal digits that denote the port |
| SoccerDestination.Destination.Address | soccer/src/main.rs:95-98 | `address()` returns the stored bytes (definitional; the header encoder is stated with it) |
| SoccerDestination.New | soccer/src/destination.rs:7-12 | stores both the address and the port |
| SoccerDestination.Default | soccer/src/destination.rs:29-36 | empty address, port 0, empty domain |
| SoccerDestination.Decimal | soccer/src/destination.rs:25 | `{}` of the port: at least one digit, no leading zero, denoting the port |
| SoccerDestination.ToStrParts | soccer/src/destination.rs:22-26 | `to_str` is the domain, a colon and the decimal port. The port is read back after the last colon and the domain before it |
| SoccerDestination.DomainOfAscii | soccer/src/destination.rs:14-16 | the domain of an ASCII address is the address |
| SoccerDestination.ToStrExample | soccer/src/destination.rs:22-26 | "a" on port 8080 gives "a:8080" |
| Soccer.RequestHeaderBytes | soccer/src/main.rs:85-103 | `6 + len` bytes: the port big-endian, `0 0`, the length mod 65536 big-endian, then the address verbatim |
| Soccer.EncodeRequestHeader | soccer/src/main.rs:85-103 | the three puts and the byte loop build exactly `RequestHeaderBytes` |
| Soccer.PortOf | soccer/src/main.rs:166 | `hi * 256 + lo` in 16-bit arithmetic is the big-endian port and never overflows |
| Soccer.Unwrapped | soccer/src/main.rs:147 | `unwrap` turns a failed read into a panic and passes a value through |
| Soccer.RequestAt | soccer/src/main.rs:145-176 | a short fixed part panics; ATYP other than 3 gives the default after four bytes; for ATYP 3 a complete request gives its address bytes and big-endian port and ends 7 + length bytes on, and a short one panics |
| Soccer.RecvRequest | soccer/src/main.rs:145-176 | the sequence of exact reads on the socket gives `RequestAt`, and a successful request leaves the socket just after the bytes it consumed |
| Soccer.MethodSelectionReplyLayout | soccer/src/main.rs:128-137 | the reply is version 5, method 0 (no authentication) |
| Soccer.ConnectReplyLayout | soccer/src/main.rs:194-204 | the reply is version 5, succeeded, IPv4 1.1.1.1, port 80 |
| Soccer.RequestExample | soccer/src/main.rs:153-172 | a domain request for "a" on port 443 consumes all eight bytes |
| Soccer.IPv4RequestIsDefault | soccer/src/main.rs:173-175 | an IPv4 request gives the default destination and leaves the socket after the fourth byte |
| Goal.RequestHeaderOf | goal/src/main.rs:72-92 | fails iff shorter than 6 or than `6 + len`; gives the lossy domain of bytes `6..6+len` and the big-endian port, ignoring bytes 2-3 |
| Goal.DecodeRequestHeader | goal/src/main.rs:72-92 | the cursor reads and `read_exact` give `RequestHeaderOf` |
| Goal.IgnoresTrailing | goal/src/main.rs:84-86 | bytes after the header are ignored |
| Goal.EncodeThenDecode | soccer/src/main.rs:85-103 | decoding the encoder's output gives the port and the domain of the first `len mod 65536` address bytes |
| Goal.RoundTrip | goal/src/main.rs:72-92 | for addresses under 65536 bytes decoding gives `(domain(dst), port(dst))` |
| Goal.TunnelCarriesRequest | soccer/src/main.rs:157-172 | every destination taken from a SOCKS5 request reaches the remote side intact |
| Goal.DecodeExample | goal/src/main.rs:72-92 | a concrete header decodes to "a" on port 80 |

## Left out

- Sockets, the WebSocket handshake and the relay loops are I/O and are not modelled: the
  `main` and `process` functions of `soccer/src/main.rs` and `goal/src/main.rs`, all of
  `mock_client/src/main.rs`, and `transfer/src/lib.rs`, `transfer/src/encode.rs` and
  `transfer/src/tcp_accept.rs`.
- `recv_method_selection_message` and `send_method_selection_message` / `send_reply`: these
  only do socket I/O. Their fixed replies are modelled as constants.
- The actor and the resolver are concurrency, UDP and calls into Tokio:
  `domain-name-actor/src/actor.rs`, `domain-name-actor/src/resolve.rs` and `goal/src/resolve.rs`.
- Configuration and command-line parsing (`configuration/src/lib.rs`, `goal/src/cli_args.rs`).
- Responders are ids: the channel's transport is not modelled, and a failed `send` (receiver
  dropped) is ignored, as the code ignores it. `IpAddr` is carried as an opaque value.
- The closure `f` of `subscribe` is recorded as a launch of the key rather than run.
- `Vec<u8>` buffers: an appending `to_bytes(&mut Vec)` is modelled as a method that returns
  the old contents plus the new bytes. No buffer aliasing is modelled.
- Cursors.Cursor.ReadU8: on failure the position is left unspecified; the standard library
  has not kept it the same across versions, and no caller reads it after an error.
- Cursors.Cursor.ReadU16: on failure the position is left unspecified; callers stop at the error.
- Cursors.Cursor.ReadU32: on failure the position is left unspecified; callers stop at the error.
- Cursors.Cursor.ReadExact: on failure the position is left unspecified; callers stop at the error.
- DnsResourceRecord.ParseFromReader: the position after a failed read is not stated; every
  caller propagates the error.
- Soccer.RecvRequest: the socket's position after a failed read is not stated; the code
  panics there, which ends the connection's task.
- `Display` writes into a formatter; it is modelled as returning the string.
- `String::from_utf8_lossy` is a concrete model of the UTF-8 decoding. Only its behaviour on
  ASCII and on invalid lead bytes, and its length bounds, are proved.
- Logging (`println!`, `info!`, `error!`) is not modelled.
