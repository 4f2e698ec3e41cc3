# neofs-node core, modelled in Dafny

This project models four small pieces of the NeoFS storage node and its
command-line client, and proves properties of each model.

- **The private health-check codec** (`pkg/services/private/service.pb.go`).
  - The model covers the protobuf messages `HealthCheckRequest`, `HealthCheckRequest_Body`, `HealthCheckResponse` and `HealthCheckResponse_Body`.
  - Each is a class with the fields the generated Go code updates: the body and signature pointers, the status, and the unknown bytes (`XXX_unrecognized`).
  - `Size`, `Marshal`, `MarshalTo` and `Unmarshal` are methods over arrays and loops, as in the source.
  - Each method is proved against a value-level encoding (`HealthSpec.Encode*`) or decoding (`HealthSpec.Decode*`).
  - Round trips, the error classes and the skipping of unknown fields are proved as lemmas about those functions.
  - The wire format is the Protocol Buffers binary encoding: base-128 varints, keys written as field number × 8 + wire type, and length-delimited records.
- **The container-command validators** (`cmd/neofs-cli/modules/container.go`).
  - `parseBasicACL` takes three keywords or a hexadecimal mask.
  - `parseAttributes` splits `Key=Value` entries and appends the timestamp and name attributes.
  - `parseContainerID` refuses the empty string.
- **The delete-service helpers** (`pkg/services/object/delete/util.go`).
  - They head an address and classify the head of the target.
  - They walk the children of a split object and find the previous part.
  - They collect the parts found by a split-ID search.
  - They put the tombstone through an init, one chunk, then close.
  - The head, search and put services are oracles given as parameters.
- **The EigenTrust iteration duration cache** (`cmd/neofs-node/timers.go`).
  - One cached `uint32` is recomputed from the network map client.
  - The client is a class whose current answers are fields, and it records the calls made on it.

Modules:
- `GoInts` holds Go integer widths and truncations.
- `Wrappers` holds `Option` and `Result`.
- `WireErrors` holds the codec errors.
- `Buffers`: byte-buffer splicing.
- `Varint`: varints and `sovService`.
- `Wire`: key and length reading, plus `skipService`.
- `HealthSpec` holds the message values, their encoding and their decoding.
- `RequestProofs` and `ResponseProofs` hold the round trips.
- `DecodeErrors` holds the error classes.
- `HealthMessages` holds the message classes.
- `ContainerCli`, `DeleteUtil` and `Timers` model the other three source files.

Paths below are relative to the repository root.

## Model

| member | source | states |
|---|---|---|
| Varint.SovService | pkg/services/private/service.pb.go:542-551 | The number of 7-bit groups of x equals the length of its varint encoding. It is between 1 and 10, and exactly 1 for 0. |
| Varint.VarintLenAtMostTen | pkg/services/private/service.pb.go:542-551 | Any uint64 needs between 1 and 10 bytes, and 0 needs exactly one. |
| Varint.VarintLenOfMax | pkg/services/private/service.pb.go:542-551 | The largest uint64 needs exactly 10 bytes. |
| Varint.EncodeVarintService | pkg/services/private/service.pb.go:466-474 | Writes exactly the varint encoding of v at offset and nothing else in the buffer. Returns offset plus the encoding's length. |
| Varint.VarintBytesContinue | pkg/services/private/service.pb.go:466-474 | Every byte of a varint but the last has the 0x80 bit set. The last byte is below 0x80 (the ensures of `VarintBytes`). |
| Varint.DecodeVarint | pkg/services/private/service.pb.go:561-574 | The shift-and-or loop computes `ReadVarint`: the value and the index after it, or an error. |
| Varint.ReadVarintEncoded | pkg/services/private/service.pb.go:561-574 | Reading the encoding of v returns v and the index just past it. |
| Varint.ReadVarintRunsOut | pkg/services/private/service.pb.go:565-567 | Input that ends while every byte still continues gives `io.ErrUnexpectedEOF`. |
| Varint.ReadVarintOverflows | pkg/services/private/service.pb.go:561-564 | Ten continuation bytes in a row (a shift reaching 64) give `ErrIntOverflowService`. |
| Wire.ReadTag | pkg/services/private/service.pb.go:558-582 | A key is accepted iff its varint reads, its wire type is not 4 and its `int32` field number is positive. An accepted key has a wire type other than 4 and a positive field number. |
| Wire.DecodeTag | pkg/services/private/service.pb.go:558-582 | The method reading a key computes `ReadTag`. |
| Wire.KeyErrors | pkg/services/private/service.pb.go:561-582 | A key with wire type 4 fails with "end group for non-group". Field number 0 fails with "illegal tag". A varint that is too long fails with the overflow error, and one that is truncated fails with the EOF error. |
| Wire.ReadTagEndGroup | pkg/services/private/service.pb.go:577-579 | Wire type 4 is refused before the field number is looked at. |
| Wire.ReadTagZero | pkg/services/private/service.pb.go:580-582 | Field number 0 is refused with the message name, field 0 and the wire type. |
| Wire.DecodeEmbedded | pkg/services/private/service.pb.go:588-612 | The length-prefix loop computes `Embedded`: an in-bounds span, or the length, negative-index or EOF error. |
| Wire.EmbeddedEncoded | pkg/services/private/service.pb.go:588-612 | A length prefix followed by that many bytes reads as exactly the span of those bytes. |
| Wire.EmbeddedNegative | pkg/services/private/service.pb.go:603-605 | A length of 2^63 or more (negative as Go `int`) gives `ErrInvalidLengthService`. |
| Wire.EmbeddedTruncated | pkg/services/private/service.pb.go:606-612 | A length that runs past the end of the input gives `io.ErrUnexpectedEOF`, when the end index stays below 2^63. |
| Wire.EmbeddedEndWraps | pkg/services/private/service.pb.go:606-609 | A length below 2^63 whose end index reaches 2^63 (negative as Go `int`) gives `ErrInvalidLengthService`. |
| Wire.SkipService | pkg/services/private/service.pb.go:934-1038 | The skipping loop, with its recursion into groups, computes `SkipField`. |
| Wire.SkipFieldEncoded | pkg/services/private/service.pb.go:934-1035 | The skipped length of any encoded field is its full byte length. That is a varint for wire type 0, eight bytes for 1, length-prefixed for 2, up to the matching end tag for 3, and four bytes for 5. |
| Wire.SkipGroupEncoded | pkg/services/private/service.pb.go:996-1027 | A group is skipped field by field up to and including its end tag. |
| Wire.SkipFieldLengthErrors | pkg/services/private/service.pb.go:972-995 | For a length-delimited field, the skipped length is key, length varint and payload. It gives `ErrInvalidLengthService` when that length reaches 2^63: either the length itself is negative as a Go `int`, or the end index wraps. Otherwise it is returned. |
| Wire.SkipFieldIllegal | pkg/services/private/service.pb.go:1033-1034 | Wire types 6 and 7 give "illegal wireType". |
| Wire.UnknownTruncatedFixed64 | pkg/services/private/service.pb.go:969-971 | A fixed64 field cut short fails with `io.ErrUnexpectedEOF`. The failure comes from the bounds check after skipping. |
| Wire.SkipUnknown | pkg/services/private/service.pb.go:656-670 | The unknown-field branch computes `Unknown`: the end index of the field from where its key starts, checked against the input's end. |
| Wire.UnknownLengthErrors | pkg/services/private/service.pb.go:656-667 | An unknown length-delimited field gives `ErrInvalidLengthService` when its length is 2^63 or more, or when its end index, counted from the start of the input, reaches 2^63. |
| Wire.EncodedFieldsRun | pkg/services/private/service.pb.go:656-672 | A run of encoded fields with numbers the message does not know is read as unknown field after unknown field, up to its end. |
| ResponseProofs.ResponseBodyRoundTrip | pkg/services/private/service.pb.go:450-464 | Decoding the encoding of a response body restores its status and its unknown bytes. |
| ResponseProofs.LastStatusWins | pkg/services/private/service.pb.go:890-908 | With two status fields, the second value is the one kept. |
| ResponseProofs.ResponseBodyFields | pkg/services/private/service.pb.go:909-925 | Unknown fields of a body are appended verbatim, in order, to its unknown bytes. |
| ResponseProofs.ResponseSignatureField | pkg/services/private/service.pb.go:800-835 | A signature field is merged into the signature: its bytes follow the ones already there. |
| ResponseProofs.ResponseBodyField | pkg/services/private/service.pb.go:764-799 | A body field is decoded into the body already there, or into a new empty one, and the result becomes the body. |
| ResponseProofs.ResponseFields | pkg/services/private/service.pb.go:836-852 | Unknown fields of a response are appended verbatim, in order. |
| ResponseProofs.ResponseRoundTrip | pkg/services/private/service.pb.go:409-438 | Decoding the encoding of a response (body, signature, unknown bytes) gives back the same response. |
| RequestProofs.RequestBodyRoundTrip | pkg/services/private/service.pb.go:388-397 | Decoding the encoding of a request body restores its unknown bytes. |
| RequestProofs.RequestBodyField | pkg/services/private/service.pb.go:584-619 | A body field is decoded into the existing or a new body. |
| RequestProofs.RequestSignatureField | pkg/services/private/service.pb.go:620-655 | A signature field's bytes are appended to the signature. |
| RequestProofs.RequestFields | pkg/services/private/service.pb.go:656-672 | Unknown fields of a request are appended verbatim, in order. |
| RequestProofs.RequestRoundTrip | pkg/services/private/service.pb.go:347-376 | Decoding the encoding of a request gives back the same request. |
| DecodeErrors.DecodeRequestBodyKeyErrors | pkg/services/private/service.pb.go:684-708 | For the request body: wire type 4, field number 0, an overlong key and a truncated key each give their error. |
| DecodeErrors.DecodeRequestBodyUnknownErrors | pkg/services/private/service.pb.go:710-724 | Unknown fields of wire type 6 or 7 are refused. A truncated fixed64 gives the EOF error. |
| DecodeErrors.DecodeRequestBodyUnknownLengthErrors | pkg/services/private/service.pb.go:710-721 | In the request body, an unknown length-delimited field with a negative length or a wrapping end index gives `ErrInvalidLengthService`. |
| DecodeErrors.DecodeRequestBodyStepErrors | pkg/services/private/service.pb.go:684-724 | A failing key or a failing skip ends the request body's decoding with that error. |
| DecodeErrors.DecodeResponseBodyKeyErrors | pkg/services/private/service.pb.go:864-888 | The same key errors, for the response body. |
| DecodeErrors.DecodeResponseBodyUnknownErrors | pkg/services/private/service.pb.go:909-923 | The same unknown-field errors, for the response body. |
| DecodeErrors.DecodeResponseBodyUnknownLengthErrors | pkg/services/private/service.pb.go:909-920 | The same length errors, for an unknown field of the response body. |
| DecodeErrors.DecodeResponseBodyStepErrors | pkg/services/private/service.pb.go:864-923 | Key and skip errors end the response body's decoding. |
| DecodeErrors.StatusWireTypeError | pkg/services/private/service.pb.go:890-893 | A status field that is not a varint gives "wrong wireType … for field Status". |
| DecodeErrors.DecodeRequestKeyErrors | pkg/services/private/service.pb.go:558-582 | The key errors, for the request. |
| DecodeErrors.DecodeRequestUnknownErrors | pkg/services/private/service.pb.go:656-670 | The unknown-field errors, for the request. |
| DecodeErrors.DecodeRequestUnknownLengthErrors | pkg/services/private/service.pb.go:656-667 | The same length errors, for an unknown field of the request. |
| DecodeErrors.DecodeRequestStepErrors | pkg/services/private/service.pb.go:558-670 | Key and skip errors end the request's decoding. |
| DecodeErrors.DecodeRequestWireTypeErrors | pkg/services/private/service.pb.go:584-587 | A body or signature field that is not length-delimited gives "wrong wireType" with the field name. A signature field gives the same error at lines 620-623. |
| DecodeErrors.DecodeRequestLengthErrors | pkg/services/private/service.pb.go:603-612 | A negative length gives `ErrInvalidLengthService`, and so does a length whose end index wraps to a negative `int`. A length past the end of the input, with an end index below 2^63, gives `io.ErrUnexpectedEOF`. |
| DecodeErrors.DecodeRequestEmbeddedError | pkg/services/private/service.pb.go:588-612 | Any failure to read the length prefix ends the request's decoding with that error. |
| DecodeErrors.DecodeResponseKeyErrors | pkg/services/private/service.pb.go:738-762 | The key errors, for the response. |
| DecodeErrors.DecodeResponseUnknownErrors | pkg/services/private/service.pb.go:836-850 | The unknown-field errors, for the response. |
| DecodeErrors.DecodeResponseUnknownLengthErrors | pkg/services/private/service.pb.go:836-847 | The same length errors, for an unknown field of the response. |
| DecodeErrors.DecodeResponseStepErrors | pkg/services/private/service.pb.go:738-850 | Key and skip errors end the response's decoding. |
| DecodeErrors.DecodeResponseWireTypeErrors | pkg/services/private/service.pb.go:764-767 | Wrong wire types for Body and Signature (the Signature check is at lines 800-803). |
| DecodeErrors.DecodeResponseLengthErrors | pkg/services/private/service.pb.go:783-792 | For the response: a negative length or a wrapping end index gives `ErrInvalidLengthService`, and a length past the end of the input gives `io.ErrUnexpectedEOF`. |
| DecodeErrors.DecodeResponseEmbeddedError | pkg/services/private/service.pb.go:768-792 | Any failure to read the length prefix ends the response's decoding with that error. |
| HealthMessages.RequestBody.Size | pkg/services/private/service.pb.go:495-505 | A nil body has size 0. Otherwise the size is the length of its encoding. |
| HealthMessages.RequestBody.MarshalTo | pkg/services/private/service.pb.go:388-397 | Writes the body's encoding at the offset, changes nothing else, and returns its length. |
| HealthMessages.RequestBody.Marshal | pkg/services/private/service.pb.go:378-386 | A buffer of `Size` bytes, filled with exactly the encoding. |
| HealthMessages.RequestBody.Unmarshal | pkg/services/private/service.pb.go:681-734 | Succeeds iff `DecodeRequestBody` does, and then leaves the decoded message. Otherwise it returns that function's error. |
| HealthMessages.ResponseBody.Size | pkg/services/private/service.pb.go:527-540 | Nil gives 0. Otherwise the size is the length of the encoding. |
| HealthMessages.ResponseBody.MarshalTo | pkg/services/private/service.pb.go:450-464 | Writes nothing for status 0, or `0x08` and the varint otherwise, then the unknown bytes. Exactly the encoding at the offset is written. |
| HealthMessages.ResponseBody.Marshal | pkg/services/private/service.pb.go:440-448 | A buffer of `Size` bytes holding the encoding. |
| HealthMessages.ResponseBody.Unmarshal | pkg/services/private/service.pb.go:861-933 | Agrees with `DecodeResponseBody`: it succeeds iff that does, with the same message or error. The status is reset, so a later status field replaces an earlier one. |
| HealthMessages.Request.Size | pkg/services/private/service.pb.go:475-493 | Nil gives 0. Otherwise each present field adds key, length varint and payload, and the unknown bytes are added. The sum is the length of the encoding. |
| HealthMessages.Request.MarshalTo | pkg/services/private/service.pb.go:347-376 | Writes `0x0a` and the body, then `0x12` and the signature, then the unknown bytes. Exactly the encoding is written at the offset. |
| HealthMessages.Request.Marshal | pkg/services/private/service.pb.go:337-345 | A buffer of `Size` bytes holding the encoding. |
| HealthMessages.Request.UnmarshalField | pkg/services/private/service.pb.go:559-672 | One pass of the loop agrees with `RequestStep`. A body or signature it creates is fresh. |
| HealthMessages.Request.Unmarshal | pkg/services/private/service.pb.go:555-680 | Agrees with `DecodeRequest` on success and on every error. |
| HealthMessages.Response.Size | pkg/services/private/service.pb.go:507-525 | Nil gives 0. Otherwise the size is the length of the encoding. |
| HealthMessages.Response.MarshalTo | pkg/services/private/service.pb.go:409-438 | Writes the body field, the signature field and the unknown bytes, in that order. Exactly the encoding is written. |
| HealthMessages.Response.Marshal | pkg/services/private/service.pb.go:399-407 | A buffer of `Size` bytes holding the encoding. |
| HealthMessages.Response.UnmarshalField | pkg/services/private/service.pb.go:739-852 | One pass of the loop agrees with `ResponseStep`. |
| HealthMessages.Response.Unmarshal | pkg/services/private/service.pb.go:735-860 | Agrees with `DecodeResponse` on success and on every error. |
| ContainerCli.ParseBasicACL | cmd/neofs-cli/modules/container.go:721-739 | `public-read-write`, `private` and `public-read` map to their rules. Any other string goes to the trim-and-parse branch (`DefaultACL`). |
| ContainerCli.DefaultACL | cmd/neofs-cli/modules/container.go:730-737 | The trimmed string is accepted iff it is non-empty, all hex digits, and below 2^32. It then yields that value. Any other string gives an error quoting the trimmed string. |
| ContainerCli.DefaultACLNoTrailingZero | cmd/neofs-cli/modules/container.go:730 | Because both ends are trimmed of `0` and `x`, no accepted number is a multiple of 16. |
| ContainerCli.ParseBasicACLPrintedRoundTrip | cmd/neofs-cli/modules/container.go:730-737 | A mask printed in hex reads back as itself whenever its last hex digit is not 0. |
| ContainerCli.ParseBasicACLDropsZeros | cmd/neofs-cli/modules/container.go:730 | As written, "0x10" is read as 1. |
| ContainerCli.ParseBasicACLPrinted16 | cmd/neofs-cli/modules/container.go:730 | The printed form of 16 ("10", as line 797 prints a mask) is read as 1. |
| ContainerCli.ParseBasicACLZero | cmd/neofs-cli/modules/container.go:730-735 | "0" is trimmed to nothing and refused. |
| ContainerCli.ParseBasicACLIntendedRoundTrip | cmd/neofs-cli/modules/container.go:721-739 | With the prefix removed instead of a cut set, every 32-bit mask in hex, with or without `0x`, reads back as itself. |
| ContainerCli.FormatHexValue | cmd/neofs-cli/modules/container.go:797 | A hex-printed mask reads back as the number, in lower-case digits. |
| ContainerCli.SplitParts | cmd/neofs-cli/modules/container.go:690 | `strings.Split` gives one part more than there are separators. No part contains the separator. |
| ContainerCli.SplitJoin | cmd/neofs-cli/modules/container.go:690 | Joining the parts with the separator gives back the string. |
| ContainerCli.SplitPair | cmd/neofs-cli/modules/container.go:690-697 | Two parts means key `=` value with no other `=`. |
| ContainerCli.ParseAttributes | cmd/neofs-cli/modules/container.go:687-718 | Fails iff some entry does not hold exactly one `=`. Otherwise the output is the entries in order as key/value, then the timestamp unless disabled, then the name if non-empty. The length is n + [timestamp] + [name]. |
| ContainerCli.ParseContainerID | cmd/neofs-cli/modules/container.go:752-764 | The empty string gives "container ID is not set" and the decoder is not consulted. Otherwise the result is the decoder's, and a failure gives "can't decode container ID value". |
| DeleteUtil.HeadAddressAsksOnlyRawHead | pkg/services/object/delete/util.go:26-41 | The result depends only on the head service's answer to the raw head of the given address with the execution's common parameters. Two services that agree there give the same object or the same error. |
| DeleteUtil.SplitInfoOf | pkg/services/object/delete/util.go:43-56 | A header gives no split info and no error. A split-info error gives its info. Any other error is returned. |
| DeleteUtil.SplitInfoErrorsAreOther | pkg/services/object/delete/util.go:46-55 | The result is a success exactly for a header or a split-info error. No returned error is a split-info error. |
| DeleteUtil.Children | pkg/services/object/delete/util.go:58-67 | Heads the linking object in the execution's container. Gives its children, or the head error. |
| DeleteUtil.Previous | pkg/services/object/delete/util.go:69-78 | Heads the given part. Gives its previous-part ID, or the head error. |
| DeleteUtil.SimpleIdWriter.WriteIDs | pkg/services/object/delete/util.go:100-104 | The batch is appended after the IDs already there, in order. It never fails. |
| DeleteUtil.SplitMembers | pkg/services/object/delete/util.go:80-98 | Returns every ID the search wrote, in write order (`Flatten` of the batches), or the search error. |
| DeleteUtil.SplitMembersPrmDeterminedBy | pkg/services/object/delete/util.go:81-90 | The search request holds the common parameters, the container and one string-equal filter on the split ID. Two executions send the same request iff they agree on those three. |
| DeleteUtil.FlattenAppend | pkg/services/object/delete/util.go:100-104 | Writing two runs of batches keeps both, in order. |
| DeleteUtil.FlattenMembers | pkg/services/object/delete/util.go:100-104 | An ID is collected iff some batch held it. |
| DeleteUtil.Put | pkg/services/object/delete/util.go:106-138 | The streamer receives the protocol's calls up to the first failure. The result is the first failure or Close's ID. |
| DeleteUtil.ProtocolCarriesTombstone | pkg/services/object/delete/util.go:112-127 | Init carries the tombstone without payload and the common parameters. Adding the chunk's bytes back gives the tombstone. |
| DeleteUtil.ProtocolOneChunk | pkg/services/object/delete/util.go:122-132 | Exactly one chunk is sent, and it is the second call. |
| DeleteUtil.InitPrmBroadcast | pkg/services/object/delete/util.go:118-120 | The no-success-tracking option is present iff broadcast is set. |
| DeleteUtil.ClosedOnlyAfterSuccess | pkg/services/object/delete/util.go:122-135 | Close is called iff opening, Init and SendChunk all succeeded. |
| Timers.EigenTrustDuration.Value | cmd/neofs-node/timers.go:30-39 | Always a nil error. The client is consulted and the value refreshed only when the cached value is 0. Otherwise the value is returned unchanged. |
| Timers.EigenTrustDuration.Update | cmd/neofs-node/timers.go:43-48 | Always recomputes. |
| Timers.EigenTrustDuration.Refresh | cmd/neofs-node/timers.go:50-62 | Asks for the iterations, then (only on success) the epoch duration. Either failure leaves the value unchanged. Otherwise the value becomes `uint32(epochDuration / iterations)`. |
| Timers.UpdatedKeepsOnError | cmd/neofs-node/timers.go:50-59 | A failing call leaves the cached value as it was. |
| Timers.UpdatedQuotient | cmd/neofs-node/timers.go:61 | On success the value is the quotient mod 2^32. When the quotient fits, value × iterations stays within the epoch. |
| Timers.UpdatedForgetsCache | cmd/neofs-node/timers.go:61 | On success the new value does not depend on the old one. |
| Timers.ValueStable | cmd/neofs-node/timers.go:28-38 | Once `Value` has cached a non-zero value, later `Value` calls keep it, whatever the client says. |

## Left out

- Protobuf plumbing backed by the library is not modelled:
  - the deterministic `XXX_Marshal` path, `XXX_Merge`, `XXX_DiscardUnknown` and `Descriptor`;
  - the registrations and the compressed file descriptor;
  - the gRPC client, server and handlers.
- `sozService` is unused by the messages and is not modelled.
- `Signature` and `HealthStatus` are defined outside `service.pb.go`, so the model treats them as follows:
  - The signature is opaque: it is kept as its own encoded bytes.
  - Its `Unmarshal` appends those bytes and never fails. This is the merge rule for a length-delimited message, so the error branch after it is not modelled.
  - The status is an unsigned 64-bit number.
- Inputs are assumed shorter than 2^63 − 8 bytes, so that Go's `int` arithmetic on indices cannot wrap. No Go slice is that long.
- HealthMessages.Request.Size: requires the encoding to be shorter than 2^63. The Go `int` sum would wrap beyond that. The same holds for `Response.Size`, both `MarshalTo`s and both `Marshal`s.
- HealthMessages.Request.Unmarshal: promises nothing about the message after an error. Go leaves the fields decoded before the error in place. The same holds for the other three `Unmarshal`s.
- The final `if iNdEx > l` checks of the four `Unmarshal`s cannot fire: the model proves the loop index never passes the input's end. They have no branch in the model.
- The nested `MarshalTo` calls never fail, so the error returns after them have no branch.
- Error values are datatype constructors carrying the message name, field name and numbers. They are not formatted strings.
- The rest of `container.go` is not modelled:
  - the cobra commands, the RPC calls and the file reads and writes;
  - the polling loops that sleep;
  - policy parsing, nonces and JSON printing.
- In `container.go`, `time.Now` and the global flags become parameters.
- `strings.ToLower` is modelled for ASCII letters only.
- `strconv.ParseUint`'s two error kinds, syntax and range, are merged, because `parseBasicACL` replaces both with its own message.
- The container-ID decoder (`cid.ID.Parse`) is a function parameter. Its base58 decoding is not part of this model.
- ContainerCli.ParseContainerID: states only the empty-string guard and how the decoder's answer is passed on, not what the decoder accepts.
- In `util.go`, the head, search and put services, the execution context and the placement traverser are oracles and plain values.
- The rule values 0x1FBFBFFF, 0x1C8C8CCC and 0x1FBF8CFF, the attribute keys "Timestamp" and "Name", and the search key "$Object:split.splitID" come from the ACL, container and object libraries. Those libraries are not part of this model; the values are copied from them.
- `exec.newAddress` (defined in `exec.go`, which is not part of this model) is taken to put the given object ID in the execution's container.
- DeleteUtil.SplitInfoOf: recognises a split-info error only when it is the error itself. `errors.As` also looks through wrapped errors.
- The execution's split information is always present in the model. Go would dereference a nil pointer.
- The put streamer's answers are fixed when it is built. They do not depend on what it is sent.
- The search writes its batches and then returns; the model does not capture concurrency within a search.
- The `sync.Mutex` of `EigenTrustDuration` is not modelled, nor are the block-timer functions of `timers.go`.
- Go panics when the iteration count is 0. This is a precondition (`Timers.Divisible`) on `Update` and `update`, and on `Value` when the cache is empty.
- `pkg/innerring/processors/neofs/process_bind.go` and `cmd/neofs-cli/modules/dump.go` are not part of this model: they are event handling and CLI wiring around foreign calls.

## Findings

| source | as written | input that shows it | evidently intended | confidence | as-written member | corrected member |
|---|---|---|---|---|---|---|
| cmd/neofs-cli/modules/container.go:730 | `strings.Trim(…, "0x")` treats `"0x"` as a set of characters. It strips every leading and trailing `0` and `x`, so trailing zero digits are lost. | `"0x10"` is read as 1. `"10"`, the way line 797 prints the mask 16, is also read as 1. `"0"` is refused. | Remove an optional `0x` prefix only, then parse the digits. | not executed | ContainerCli.ParseBasicACLDropsZeros | ContainerCli.ParseBasicACLIntendedRoundTrip |
