# Verified model of the AWS CRT Python bindings

A Dafny model of the parts of `awscrt` that compute or keep state themselves instead of forwarding to native
code: the CBOR object codec, the buffering of HTTP response headers, two cross-language lifetime protocols, and
the feature lists of the IoT metrics. `dafny verify dfyconfig.toml` checks everything.

## The CBOR object codec

`CborEncoder.Encoder` appends to a growing buffer, `CborDecoder.Decoder` moves a cursor over its source and counts
`currentDepth` up and down; both follow the C functions branch by branch, with the same loops and error exits. Each
method is proved against a function on values (`CborEncoder.Write`, `CborDecoderSpec.PopItem` and the functions it
is mutually recursive with). The theorems then compare those functions with two descriptions of CBOR written from
RFC 8949. They share the layer of single elements with the decoder (reading a head, and what one integer, float or
simple value stands for) and nothing above it: no recursion, no position, no depth counter:

* `CborWire`: every item is the spelling of one syntax tree; a tree has a meaning (a Python object, or none where
  the decoder has no object for it) and a nesting depth;
* `CborWellFormed`: the well-formedness check of Appendix C of RFC 8949, which is also what
  `consume_next_whole_data_item` is documented to consume.

`CborFormat` states the bytes themselves, for writing and for reading, and the errors.

The element layer (heads, argument widths, shortest arguments, single elements) lives in a native library that is
not part of the repository; `CborElement` writes it from sections 3, 3.1, 3.2.1 to 3.2.3 and 4.1 of RFC 8949. Python
`dict`s keep insertion order and compare keys by Python equality (`1`, `1.0` and `True` are one key); `str` is a
sequence of code points, possibly with lone surrogates, and crosses into bytes by strict UTF-8.

Findings, each with its lemma:

* With a 32-bit `long`, the integer -2147483648 is written as -18446744071562067968: negating the minimum of
  `long` wraps around to itself and is then widened to 64 bits (`source/cbor.c:86-92`). Round trip and normalisation
  hold if and only if no such integer is in the object, hence always with a 64-bit `long`. The model takes the wrap-around
  two's complement gives, where C leaves the negation undefined.
* The documentation of `write_int` promises a negative bignum below -2^64 (`awscrt/cbor.py:117-132`); the code
  raises there, and the model follows the code.
* The depth limit of 128 holds for `pop_next_data_item`; `pop_next_list` and `pop_next_map`, which do not count
  the outer level, read 129 levels.

## HTTP header blocks

`HttpHeaders.HttpStream` flattens headers into NUL-terminated strings beside a count and scans them apart when a
block is done. Every run of the buffered machine, over any slicing, any order of blocks and any outcome of the
callbacks, is a run of an ideal machine that just keeps the list of headers. The precondition is that names and
values contain no NUL, and a flattened block scans back to itself exactly then; scans stay inside the buffer
in every run, whatever the bytes.

A block that fails leaves the buffer as it was (`source/http_stream.c:70-150`), and the ideal machine does the same.
Should the connection go on, its headers are delivered again in front of those of the next block that calls
`_on_response`, unless a block in between succeeds: a successful block that is not a main block swallows the
leftovers. `_on_response` sees each main block's own headers if and only if no block calls it while such
leftovers are there. After a block that is not UTF-8 every later block fails.

## Lifetime protocols

`InputStreamRef` separates the atomic counter step of acquire and release from the Python reference step, and lets
any number of threads interleave. The identity between the counter and the Python references holds in every
interleaving. Two rules make every interleaving safe as well: a release gives back a reference whose
acquire has returned, and whoever acquires from zero keeps a Python reference until the acquire returns. Without
either rule there is a run that touches a freed object.

`ConnectionBinding` interleaves creation, the setup callback, the shutdown callback, the capsule's destructor and
the end of Python. The count is the number of owners in every reachable state. A run uses the binding after it
is freed if and only if the shutdown callback releases its reference before a setup without a capsule reads
`connection->native`, which that setup does after releasing its own (`source/http_connection.c:124-125`).
Callbacks serialised on one event loop, as the native library runs them, exclude that.

## IoT metrics

`FeatureLists` and `IotMetrics` model the merge of comma-separated `id/value` lists and the metadata made from it,
over insertion-ordered dictionaries (`StringDict`). A metrics version that consists of digits `int()` refuses (such
as a superscript two, for which `isdigit()` is true) makes `_create_metrics` raise (`awscrt/aws_iot_metrics.py:448-449`);
which characters are digits is a parameter of the model.

## Model

| member | source | states |
|---|---|---|
| CborCodec.RoundTrip | source/cbor.c:186-234 | writing any encodable object and popping it back, whatever bytes follow, returns the same object and leaves exactly those bytes iff no integer is misencoded; nested too deeply it raises the recursion error and nothing else |
| CborCodec.Long64IsFaithful | source/cbor.c:82-106 | with a 64-bit `long` no integer anywhere in an object is misencoded |
| CborCodec.DirectEntryReadsOneLevelMore | source/cbor.c:833-835 | `pop_next_data_item` succeeds on an encoded list or dict iff its depth is at most 128, the direct list and map entries iff it is at most 129 |
| CborCodec.PopConsumesOneWholeItem | source/cbor.c:673-753 | whatever is accepted is one well-formed item, the pop stops where consuming one whole item stops, and at least one byte is consumed |
| CborCodec.WholeItemIsPoppedIff | awscrt/cbor.py:448-470 | one whole well-formed item is popped iff it has a meaning and fits the depth; the result is that meaning and the same bytes are left |
| CborCodec.TruncatedItemIsRejected | source/cbor.c:437-454 | no strict prefix of an item decodes or can be consumed, so an indefinite container without its break is an error at any nesting, in spite of the unchecked first peek |
| CborCodec.EncodingsAreUnique | source/cbor.c:186-234 | encodings of all encodable objects are prefix-free, and injective wherever no integer is misencoded |
| CborCodec.StreamRoundTrip | awscrt/cbor.py:557-573 | any n successful writes on one encoder are popped as n items with nothing left over, and the values come back in order iff no integer is misencoded |
| CborCodec.MeaningIsRegular | source/cbor.c:673-753 | whatever the decoder can return is a proper Python object the encoder accepts, no deeper than the item |
| CborCodec.Normalisation | awscrt/cbor.py:382-387 | any value decoded from any bytes can be encoded again, and decoding that gives the same value iff no integer in it is misencoded |
| CborRespelling.RespellingMeansTheSame | source/cbor.c:403-551 | changing argument widths, definite to indefinite framing, and chunking, at every level at once, keeps the meaning and the depth |
| CborRespelling.RespellingDecodesTheSame | source/cbor.c:556-632 | the decoder returns the same value and leaves the same bytes for every respelling, and fails on one iff it fails on the other |
| CborRespelling.OpenedIsRespelled | source/cbor.c:437-454 | every item with a meaning has an all-indefinite respelling |
| CborRespelling.IntegerWidths | source/cbor.c:687-706 | an integer at any two widths it fits in is a respelling |
| CborRespelling.StringChunks | source/cbor.c:556-632 | a whole string and any chunks of it, text cut at character boundaries, are respellings of each other |
| CborRespelling.Framings | source/cbor.c:403-551 | containers with any two framings around respelled items are respellings |
| CborRespelling.ChunksMeanTheirPayload | source/cbor.c:556-632 | chunks mean their joined payload, and for text they have a meaning iff every chunk is whole characters |
| CborUnique.SpellingIsUnique | awscrt/cbor.py:448-470 | bytes start with at most one item: the syntax tree and its end are determined |
| CborWellFormed.SpellingIsWellFormed | awscrt/cbor.py:448-470 | every spelling passes the check of Appendix C of RFC 8949 with its own extent |
| CborWellFormed.WellFormedIsSpelling | awscrt/cbor.py:448-470 | every item that passes the check is the spelling of a tree |
| CborDecoderProofs.ItemOfSpelling | source/cbor.c:673-753 | popping the spelling of an item yields its meaning and exactly the bytes behind it if it has one and fits the depth, else an error: the recursion error if it has a meaning |
| CborDecoderProofs.ContainerOfSpelling | source/cbor.c:403-551 | the same for the direct list and map entries, one level deeper |
| CborDecoderProofs.AcceptedIsSpelling | source/cbor.c:673-753 | accepted bytes are the spelling of an item with the value as its meaning, within the depth |
| CborDecoderProofs.AcceptedIsWellFormed | source/cbor.c:673-753 | accepted bytes are well-formed with the same extent, in any context |
| CborDecoderSpec.PopItem | source/cbor.c:673-753 | every pop ends, never gives bytes back, and consumes at least one on success |
| CborDecoder.Decoder.constructor | awscrt/cbor.py:362-380 | the cursor starts at the first byte with depth 0 |
| CborDecoder.Decoder.GetRemainingBytes | awscrt/cbor.py:399-418 | the bytes consumed followed by the remaining bytes are the source |
| CborDecoder.Decoder.ConsumeNextSingleElement | source/cbor.c:778-787 | moves over one element, or fails and stays |
| CborDecoder.Decoder.PopNextString | source/cbor.c:370-396 | a definite string or the right error, type errors without moving |
| CborDecoder.Decoder.PopNextIndefString | source/cbor.c:556-632 | the chunk loop joins the chunks in order up to the break |
| CborDecoder.Decoder.PopNextTag | source/cbor.c:637-668 | only the epoch tag, with a number behind it; `current_depth` is restored |
| CborDecoder.Decoder.PopNextList | source/cbor.c:403-468 | value or error, position and restored `current_depth` for both framings |
| CborDecoder.Decoder.FillCounted | source/cbor.c:423-436 | the counted loop appends exactly the counted items, in order, or stops at the first error |
| CborDecoder.Decoder.FillUntilBreak | source/cbor.c:437-454 | the until-break loop, including its unchecked first peek, appends items up to the break and never succeeds without one |
| CborDecoder.Decoder.PopNextMap | source/cbor.c:473-551 | value or error, position and restored `current_depth` for both framings |
| CborDecoder.Decoder.FillMapCounted | source/cbor.c:494-508 | the counted loop sets exactly the counted entries, in order, by dict rules, or stops at the first error |
| CborDecoder.Decoder.FillMapUntilBreak | source/cbor.c:513-532 | the until-break loop sets entries up to the break and never succeeds without one |
| CborDecoder.Decoder.PopNextEntry | source/cbor.c:494-512 | the value is popped even after its key failed, the value's error wins, and an entry is set by dict rules |
| CborDecoder.Decoder.PopNextElement | source/cbor.c:687-748 | the dispatch on the next element reaches the right pop; a stray break is an error without moving |
| CborDecoder.Decoder.PopNextScalar | source/cbor.c:691-728 | integers, floats, booleans and nulls: one element is consumed and its value returned, -1-n for a negative integer |
| CborDecoder.Decoder.PopNextDataItem | source/cbor.c:673-753 | value or error and position as specified; on every exit `current_depth` is what it was on entry and never above 128 |
| CborEncoder.PyLongIsWriteInt | source/cbor.c:82-138 | accepts exactly [-2^64, 2^64-1] for both widths of `long`; agrees with `write_int` and is inverted by the decoder's -1-val iff the integer is not the minimum of a 32-bit `long` |
| CborEncoder.MinimumOfLong32IsWrittenWrongly | source/cbor.c:86-92 | the concrete integer that a 32-bit `long` writes wrongly, and what it is read back as |
| CborEncoder.Encoder.WriteInt | awscrt/cbor.py:117-132 | appends the right major type and shortest argument, or raises and appends nothing |
| CborEncoder.Encoder.WritePyLong | source/cbor.c:82-138 | the three branches append what the specification says |
| CborEncoder.Encoder.WritePyList | source/cbor.c:140-157 | start with the count, then the items in order up to the first failure |
| CborEncoder.Encoder.WritePyDict | source/cbor.c:159-184 | start with the count, then keys and values in insertion order up to the first failure |
| CborEncoder.Encoder.WritePyObject | source/cbor.c:186-234 | appends to the buffer and keeps every earlier byte, also when the write fails |
| CborEncoderProofs.WriteSpells | source/cbor.c:140-234 | a write succeeds iff the object is encodable, and then appends exactly one item whose counts match its contents |
| CborEncoderProofs.FailedWriteIsIncomplete | source/cbor.c:186-234 | what a failed write appended is no well-formed item |
| CborEncoderProofs.SpellMeans | source/cbor.c:186-234 | the written item nests as deep as the object and means the object iff no integer is misencoded |
| CborElement.ReadWrittenHead | source/cbor.c:57-78 | a head is read back at every argument width (section 3 of RFC 8949), whatever follows |
| CborElement.WrittenHeadOfRead | source/cbor.c:370-396 | every head that is read is a written one |
| CborElement.Shortest | source/cbor.c:57-78 | no admissible argument width is shorter (section 4.1 of RFC 8949) |
| CborFormat.HeadLayout | source/cbor.c:57-78 | the literal bytes of a head as the encoder writes it, for every major type and every argument below 2^64 |
| CborFormat.HeadLayoutAtWidth | source/cbor.c:370-396 | the literal bytes of a head at each argument width |
| CborFormat.SpellingLayout | source/cbor.c:403-632 | the major type of each kind of item, and the literal bytes that open and end indefinite ones |
| CborFormat.EncodedBytes | source/cbor.c:186-234 | the bytes written for each Python type: which major type, count or simple value, big-endian doubles, and -1-n for negative integers |
| CborFormat.WriteRaisesFirstFault | source/cbor.c:186-234 | a write raises iff something in the object cannot be written, and then for the first such thing in writing order, with its own error |
| CborFormat.IntegersRead | source/cbor.c:687-706 | integers at every width are read as n and as -1-n |
| CborFormat.SimpleValueRead | source/cbor.c:717-725 | false, true, null and undefined are 0xF4 to 0xF7; the other one-byte simple values are refused |
| CborFormat.FloatsRead | source/cbor.c:707-709 | half, single and double precision are read from their big-endian patterns |
| CborFormat.StringIsRead | source/cbor.c:370-396 | a definite string is read whole, or refused as too large or as not UTF-8, and is passed in every case |
| CborFormat.TagIsReadIff | source/cbor.c:637-668 | a tagged item is read iff the tag is 1 and an integer or float follows, within the depth, and is read as that number |
| CborFormat.CountIsTooLargeIff | source/cbor.c:403-422 | a count of 2^63 or more is refused behind its head, and no other count is |
| CborFormat.WrongElement | source/cbor.c:370-396 | every pop refuses an element of another type, or bytes that are no element, with the right error and without moving |
| CborFormat.WrongTagContent | source/cbor.c:637-660 | behind the epoch tag, what is no number is refused where it stands |
| CborFormat.ErrorsAtHead | source/cbor.c:673-686 | depth 128, no input and a stray break raise their errors without moving |
| CborFormat.ErrorsBehindHead | source/cbor.c:661-667 | an unsupported tag is refused behind its head, bad text behind the string |
| CborFormat.EntryErrors | source/cbor.c:494-507 | the value is read where the key stopped even if the key failed, its error wins, and only lists and dicts cannot be keys |
| CborFormat.MapWithPlainKeys | source/cbor.c:473-551 | a map whose keys are pairwise unequal strings, bytes or integers is read as one entry for every pair, in order |
| PyFloats.WidenSingleIsExact | source/cbor.c:370-396 | every finite single, taken apart bit by bit as IEEE 754 says, widens to the double of the same number |
| PyFloats.WidenHalfIsExact | source/cbor.c:370-396 | the same for every finite half |
| PyFloats.WidenSingleKeepsSpecials | source/cbor.c:370-396 | infinities of singles keep their sign, and NaNs stay NaNs |
| PyFloats.WidenHalfKeepsSpecials | source/cbor.c:370-396 | the same for halves |
| PyFloats.NumberOfPattern | source/cbor.c:370-396 | which number, infinity or NaN a double is, by its bits |
| PyFloats.WidenIsExact | source/cbor.c:370-396 | for any smaller format, given by its fields, widening keeps the number |
| PyFloats.WidenKeepsSpecials | source/cbor.c:370-396 | infinities keep their sign and NaNs stay NaNs when widened |
| Utf8.DecodeOfEncode | source/module.c:271-296 | strict UTF-8 decoding inverts encoding on every surrogate-free string |
| Utf8.EncodeOfDecode | source/cbor.c:370-396 | decoded text is surrogate-free and encodes back to the very same bytes |
| Utf8.DecodeOfConcat | source/cbor.c:595-632 | text cut at character boundaries decodes piecewise |
| Utf8.DecodeCharIff | source/cbor.c:370-396 | which bytes are a character: the byte ranges of the Unicode standard, without overlong forms and surrogates |
| Utf8.DecodeCharValue | source/cbor.c:370-396 | which code point they are |
| Utf8.DecodesIff | source/module.c:271-296 | bytes are text iff some string without lone surrogates encodes to them |
| PyObjects.SameKeyIff | source/cbor.c:494-512 | when two objects are one dict key, type by type: equal text, bytes, or number across `int`, `bool` and `float`; never NaN, never different kinds |
| PyObjects.HashableIff | source/cbor.c:500-502 | which objects can be keys |
| PyObjects.SetItemKeepsKeys | source/cbor.c:494-512 | setting an entry keeps keys hashable and pairwise different |
| PyObjects.SetItemsOfFlatten | source/cbor.c:473-551 | a dict is rebuilt in insertion order from its own keys and values |
| PyObjects.SetItemsWithoutCollision | source/cbor.c:473-551 | if no key was met twice, the dict holds exactly the keys and values that came in, in order |
| HttpHeaders.ScanInvertsFlattenIff | source/http_stream.c:104-126 | a flattened block scans back to itself iff no name or value holds a NUL |
| HttpHeaders.ScanStaysInside | source/http_stream.c:104-126 | every bounded scan of a flattened block finds its terminator and every advance stays in the buffer, for all headers |
| HttpHeaders.EveryScanStaysInside | source/http_stream.c:39-150 | the same in every reachable state of every run, NULs and failing blocks included |
| HttpHeaders.TextIff | source/http_stream.c:119-125 | headers become text iff every name and value is UTF-8, and then every name encodes back to its name and every value to its value |
| HttpHeaders.SentAsIsUnique | source/http_stream.c:119-125 | the text of headers is determined by their bytes |
| HttpHeaders.HttpStream.OnIncomingHeaders | source/http_stream.c:39-68 | appends the flattened slice and its count, keeping what was there |
| HttpHeaders.HttpStream.BuildHeaderList | source/http_stream.c:94-126 | the cursor loop yields the scanned headers as text, or fails on the first that is not UTF-8 |
| HttpHeaders.HttpStream.OnIncomingHeaderBlockDone | source/http_stream.c:70-150 | exactly when the callback succeeds, when `_on_response` is called and with what, and that the buffer is cleared on success and kept on failure |
| HttpHeaders.RunRefinesIdeal | source/http_stream.c:39-150 | every run of the buffer is a run of the ideal list machine: any slicing, order, kind and outcome of blocks |
| HttpHeaders.BlockRuns | source/http_stream.c:39-150 | one block in any slicing and with any outcome, on top of any leftovers: the call it makes and what it leaves in the buffer |
| HttpHeaders.BlockIsDelivered | source/http_stream.c:39-150 | one block that does not fail, in any slicing, into an empty buffer, leaves the buffer empty, and a main block is delivered with its status and its headers byte for byte as they were sent |
| HttpHeaders.EachSeesItsOwnIff | source/http_stream.c:39-150 | over whole runs of blocks of any kind, slicing and outcome, `_on_response` sees exactly each main block's own headers, in order, iff no block calls it while headers of an earlier block are left in the buffer |
| HttpHeaders.NeighboursSuffice | source/http_stream.c:128-142 | if all blocks get as far as their headers, that means: no main block with headers whose callback raises is directly followed by a main block |
| HttpHeaders.OwnCarries | source/http_stream.c:128-142 | the calls meant by a run are one for each main block that reaches Python, in order, with its status and its headers as sent |
| HttpHeaders.BlocksAreDelivered | source/http_stream.c:128-142 | over runs in which no block fails `_on_response` sees exactly the main blocks, each with its status and its own headers as sent, and the buffer ends up empty |
| HttpHeaders.RaisingBlockLeaksIntoNext | source/http_stream.c:128-142 | the witness: after a main block whose callback raised, the next main block delivers the headers of both |
| HttpHeaders.UndecodableBlockBlocksAll | source/http_stream.c:119-123 | once a buffered name or value is not UTF-8, whatever the other bytes, no later block of the run reaches `_on_response` and nothing is cleared |
| InputStreamRef.EveryRunIsBalanced | source/io.c:833-863 | in every interleaving, with no rule on callers, the Python references held are (1 if `c_ref` > 0 else 0) plus pending decrements minus pending increments |
| InputStreamRef.CreatedStreamIsBalanced | source/io.c:888-915 | the same from a newly created stream while Python is alive |
| InputStreamRef.StepKeepsSafe | source/io.c:833-863 | every single step that keeps the rules keeps the accounting and the safety of the stream |
| InputStreamRef.EveryRunIsSafe | source/io.c:833-863 | in every interleaving that keeps the two rules, every C reference is returned or being acquired, the object is alive while C holds it, and no Python step touches a freed object |
| InputStreamRef.CreatedStreamIsSafe | source/io.c:888-915 | the same from a newly created stream, with no Python step on a freed object |
| InputStreamRef.AtRestOneReference | source/io.c:833-863 | with no call in progress exactly one Python reference is held while C holds any, and none otherwise |
| InputStreamRef.ShutdownOnlyLeaks | source/io.c:841-843 | after Python shut down nothing is released, so nothing is released twice |
| InputStreamRef.UnpinnedAcquirerIsUnsafe | source/io.c:833-847 | a run that frees the object under C if the acquirer drops its own reference too early |
| InputStreamRef.OvertakingReleaseIsUnsafe | source/io.c:849-863 | a run that frees the object early if a release overtakes its acquire |
| InputStreamRef.InputStreamImpl.constructor | source/io.c:888-915 | a new stream has no C reference and has taken no Python reference |
| InputStreamRef.InputStreamImpl.Acquire | source/io.c:833-847 | the callback is its two steps, the second only from zero |
| InputStreamRef.InputStreamImpl.Release | source/io.c:849-863 | the callback is its two steps, the second only to zero |
| InputStreamRef.InputStreamImpl.ShutDownPython | source/io.c:841-843 | Python ends as a step of the protocol, after which the callbacks skip their second step |
| ConnectionBinding.RunKeepsInv | source/http_connection.c:18-135 | the invariant holds after every interleaving |
| ConnectionBinding.CountIsOwners | source/http_connection.c:18-135 | the reference count is the number of live owners; binding, `py_core` and native connection are released at most once |
| ConnectionBinding.MisusedIff | source/http_connection.c:118-126 | a run uses the binding after free iff in it the shutdown callback's release comes before a capsule-less setup's read of `native` |
| ConnectionBinding.SerialisedRunsAreSafe | source/http_connection.c:79-135 | no use after free while shutdown does not run inside a setup that has still to read `native` |
| ConnectionBinding.OverlappingShutdownIsUnsafe | source/http_connection.c:118-126 | a run from creation, with the shutdown callback inside the setup's call into Python, that uses the binding after free |
| ConnectionBinding.CompleteRunReleasesOnce | source/http_connection.c:18-52 | a finished run with Python alive has released everything exactly once |
| ConnectionBinding.HttpConnectionBinding.New | source/http_connection.c:229-392 | creation is a run of the protocol on each of its three exits; `py_core` is held iff the options were good, and released with the binding on failure |
| ConnectionBinding.HttpConnectionBinding.OnClientConnectionSetup | source/http_connection.c:79-135 | what each of the four paths leaves: `native`, `py_core`, the count, the capsule with only Python's references, what was released, and a setup that is over |
| ConnectionBinding.HttpConnectionBinding.OnConnectionShutdown | source/http_connection.c:54-77 | the shutdown callback is a run of the protocol, releasing its reference only if Python is alive |
| ConnectionBinding.HttpConnectionBinding.ExitPython | source/http_connection.c:58-61 | Python ends as a step of the protocol, after which setup and shutdown return at once |
| ConnectionBinding.HttpConnectionBinding.ForgetCapsule | source/http_connection.c:46-52 | dropping the last reference to the capsule, and no other, starts its destructor |
| ConnectionBinding.HttpConnectionBinding.CapsuleDestructor | source/http_connection.c:46-52 | the destructor releases the native connection once and then its reference, and is a run of the protocol |
| StringDict.SetAllAssociates | awscrt/aws_iot_metrics.py:383-394 | merging insertion-ordered dictionaries is associative, order included |
| StringDict.GetAfterSetAll | awscrt/aws_iot_metrics.py:383-394 | after any assignments the last value assigned to a key is found, else the old one |
| StringDict.KeysAfterSetAll | awscrt/aws_iot_metrics.py:383-394 | keys stand in order of first appearance |
| FeatureLists.ParseOfPrintIff | awscrt/aws_iot_metrics.py:383-395 | a dictionary survives printing and parsing iff ids are unique, without slash or comma, and values without comma |
| FeatureLists.ParsedIsPrintable | awscrt/aws_iot_metrics.py:383-394 | whatever is parsed can be printed, values with slashes and the empty list included |
| FeatureLists.MergeFeatureLists | awscrt/aws_iot_metrics.py:371-395 | the two loops over one dictionary compute the merge of the two parsed lists |
| FeatureLists.MergePrefersUser | awscrt/aws_iot_metrics.py:374-375 | the user's last value wins for every id the user gives, otherwise the CRT's last value stays |
| FeatureLists.MergeKeepsOrder | awscrt/aws_iot_metrics.py:383-395 | the merged list has unique ids in order of first appearance over both lists |
| FeatureLists.MergeAssociates | awscrt/aws_iot_metrics.py:371-395 | merging is associative as strings |
| FeatureLists.MergeWithEmpty | awscrt/aws_iot_metrics.py:380 | merging with the empty list on either side only normalises, and normalising twice is normalising once |
| FeatureLists.MergeAbsorbs | awscrt/aws_iot_metrics.py:371-395 | merging the CRT list in again changes nothing |
| FeatureLists.KeptVerbatimIff | awscrt/aws_iot_metrics.py:383-395 | merging with nothing keeps the text as it is iff it is empty or consists of pairs with different ids |
| IotMetrics.CreateMetrics | awscrt/aws_iot_metrics.py:400-458 | the loop over the entries and the final assignments give the result described without their history, under the user's library name or the default one |
| IotMetrics.CreatedEntries | awscrt/aws_iot_metrics.py:405-429 | the library name is the user's or the default; keys are unique, the two version keys never take user values, every other user key survives with its last value and nothing else appears |
| IotMetrics.CreatedOrder | awscrt/aws_iot_metrics.py:430-457 | the order of the keys: the CRT version, user keys by first appearance, features, metrics version |
| IotMetrics.OthersFilter | awscrt/aws_iot_metrics.py:437-443 | which user entries are passed through, in their order |
| IotMetrics.CreatedFeature | awscrt/aws_iot_metrics.py:446-452 | each feature is the user's only if the metrics versions match and the user gives it, else the CRT's |
| IotMetrics.MatchesIffCurrent | awscrt/aws_iot_metrics.py:448-449 | the version matches iff it is text of digits, not too many, that are zeros and then a one |
| IotMetrics.CreateRaisesIff | awscrt/aws_iot_metrics.py:448-449 | creation raises iff the last metrics version is made of digits of which one has no decimal value or which are too many |
| IotMetrics.SuperscriptVersionRaises | awscrt/aws_iot_metrics.py:448-449 | a concrete raising input, a superscript two as the metrics version, with digit tables for which it occurs |
| IotMetrics.CreateIsIdempotent | awscrt/aws_iot_metrics.py:400-458 | feeding the result back in gives the same entries in the same order |

## Left out

- CborEncoder.Write: writes a float as 8 bytes; the native library picks the most compact form, which is in code not part of this model. Decoding accepts all three float widths.
- CborEncoder.Encoder.WritePyObject: the same holds for the floats it writes.
- CborElement.NextElement: takes unassigned simple values as no element, because they have no `AwsCborType`; the error the native library gives for them is not part of this model.
- CborDecoder.Decoder.PopNextTag: has the default epoch callback only; other callbacks, and callbacks that call the decoder again, are not modelled. When the content behind the tag fails to decode (at the depth limit), `source/cbor.c:651-653` hands a null value to the callback and drops a reference to it; the model returns the error of the content.
- InputStreamRef.EveryRunIsSafe: does not model the wrap-around of the C counter at the size of `size_t`.
- Subclasses: those of `str`, `list` and `dict` are written like their base classes, as in `source/cbor.c:217-225`, but have no class of their own in the model; those of `int`, `float` and `bytes` are refused and belong to `Other`. An object does not change while it is written.
- Python reference counts inside `source/cbor.c`; values and positions are modelled instead.
- Allocation failure, including `PyList_New` for a count that fits `Py_ssize_t` but not memory.
- `reset_src`, and the typed `write_*` and `pop_*` calls other than those in the table: one element each, without recursion.
- The error codes of the native library: errors are told apart by their Python-visible cause.
- `consume_next_whole_data_item` has its loop in the native library; its documented extent is modelled by Appendix C of RFC 8949.
- Failures of the native buffer while headers are appended, and the text encoding of `_on_response` failures.
- IotMetrics.CreateMetrics: Python strings with lone surrogates, which a Dafny `string` cannot hold.
- Input stream `read`, `seek` and `get_status`, HTTP connection options and proxies: argument marshalling.
- The mechanics of the interpreter lock: only "Python has shut down" is a step.
- CRC and xxhash wrappers, auth, TLS, PKCS#11, S3, websocket, MQTT, request-response and event-stream bindings: forwarding to native code.
- The per-option letter tables and feature-list builders of the metrics: table look-ups that would add only easy members.
