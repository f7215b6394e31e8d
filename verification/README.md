# A verified model of the Webkey backend and of the algorithms shipped with it

The project models, in Dafny, the parts of the repository in which bookkeeping is easy to get wrong,
and proves what they are there for.

**The wipc protocol.** Nine Protocol Buffers messages with generated parsers, two serialisers, a size
pass, has-bits, `Clear`, `MergeFrom`, `Swap` and unknown-field retention; the streams of libprotobuf they
call; the length-delimited framing of the receiver thread and of the authentication handshake.

- `WireFormat` varints, tags, records (unknown fields, groups included) and scanning; `Schema` the nine
  messages; `Messages` message values with parsing, merging and serialising as functions.
- `MergeLaws`, `NormalForm`, `SizeBounds` the laws of these functions.
- `Storage` the members of the generated classes with the has-bit invariant and the cached sizes;
  `CodedStreams` the two streams over arbitrary buffer boundaries; `PlainLoop` the parser without its jumps;
  `MessageObjects` the generated code, proved against the functions.
- `Receiver` and `Auth` the frames; `Requests` what the bytes of a client make the backend do, stated on the
  field numbers and payloads themselves.

**Input and frames.** `TouchScaling` and `TouchInjection` the 32-bit coordinate arithmetic and the event
stream of `touchinject.cc`; `ScreenCapture` the capture loop of `screencap.cc` with its sampled cache,
interleaved in any way with requests that change its settings.

**Algorithms in the tree.** `LineClip` and `LineSimplify` segment clipping, the polyline walk and line
simplification of Leaflet over exact reals; `CallbackList`, `CallbackObject`, `Deferred`, `When` the re-entrant
callback list of jQuery and what is built on it; `Combinators`, `NthChild`, `DocumentOrder` Sizzle's caches,
comparator and duplicate removal; `MoxReplay` the record and replay automaton of mox.

Classes follow the source: their methods update fields in place and are proved against functions on
values, and the lemmas are about these functions, over all inputs, runs or reachable states. `dafny verify
dfyconfig.toml` checks everything.

Some promises do not hold of the code as it is. For each of them the exact condition under which it
holds is proved:

- Concatenating encodings is merging only if no announced length overruns the first part. `PushLimit` cuts
  the limit of a sub-message down to the enclosing one, so the parser accepts truncated encodings, which the
  Encoding guide calls malformed (`MergeLaws.ConcatIsMergeIffComplete`); it does so for exactly the messages
  with sub-messages (`MergeLaws.TruncationAcceptedIff`).
- The announced length of a frame need not be used up: a zero byte ends it early (`Receiver.ZeroEndsFrame`), and
  the next frame begins at the announced end only if the fields reach it (`Receiver.InStepIff`).
- The scaling arithmetic is exact on axes of at most 65537 steps, 32768 for the flipped one
  (`TouchScaling.ScaleUpExactIff`, `TouchScaling.ScaleDownExactIff`); the touches still land on the device
  unless the flipped axis is longer, 2^31 - 1 steps excepted (`TouchInjection.AllLandIff`).
- A square resolution request is not turned to the orientation of a landscape device
  (`ScreenCapture.StoredTurnedIff`), and the height of a request is not checked
  (`ScreenCapture.StoredHeightFitsIff`).
- In diff mode the frame sent last is sure to agree with the next one only if the cache holds its samples
  (`ScreenCapture.NextAgreesIff`), which memory that nobody wrote or a frame sent before diff mode can prevent
  (`ScreenCapture.StaleFrameStays`); from the first frame sent in diff mode on it does
  (`ScreenCapture.StretchTheorem`).
- `write_n_bytes` delivers the data it reports as sent only if the first write takes them all
  (`ScreenCapture.DeliveredIffAtOnce`).
- `Callbacks.empty` during a pass makes later additions be skipped unless `firingIndex` is -1
  (`CallbackList.EmptyIsSafeIff`).
- A list that is disabled before it ever fired comes back with `empty()`
  (`CallbackList.DisableIsFinalIff`).
- A `MultipleTimesGroup` of mox is greedy (`MoxReplay.AcceptsLanguageIffDisjoint`,
  `MoxReplay.RecordingAcceptsIff`).

## Model

| member | source | states |
|---|---|---|
| `WireFormat.VarintRoundTrip` | backend/openmdmrenative/protobuf_static/src/google/protobuf/io/coded_stream.cc:692-741 | a varint below 2^64 written as EncodeVarint writes it is read back with the same value and exactly its bytes are consumed, whatever follows |
| `WireFormat.VarintIsGroups` | backend/openmdmrenative/protobuf_static/src/google/protobuf/io/coded_stream.cc:692-741 | a varint is groups of seven bits, the lowest first, all but the last with bit 7 set, no superfluous group |
| `WireFormat.VarintReadIff` | backend/openmdmrenative/protobuf_static/src/google/protobuf/io/coded_stream.cc:467-511 | any bytes are read as a varint iff one of the first ten is below 128, as the number of the groups up to it cut to 64 bits |
| `WireFormat.VarintSizeIsLength` | backend/openmdmrenative/protobuf_static/src/google/protobuf/io/coded_stream.cc:863-900 | VarintSize is the length of the encoding |
| `WireFormat.TagRoundTrip` | backend/openmdmrenative/protobuf_static/src/google/protobuf/io/coded_stream.cc:413-450 | the tag of a field number and wire type is read back as these |
| `WireFormat.EncodedAs` | backend/openmdmrenative/protobuf_static/src/google/protobuf/wire_format.cc:162-233 | the tag of field n is 8n plus 0 to 5 for the kinds of record, a group ends with 8n + 4 |
| `WireFormat.PayloadRoundTrip` | backend/openmdmrenative/protobuf_static/src/google/protobuf/wire_format.cc:82-140 | SkipField on an encoded record, groups at any depth included, gives back that record and stops behind it |
| `WireFormat.ScanEncode` | backend/openmdmrenative/protobuf_static/src/google/protobuf/wire_format.cc:142-233 | skipping through the encoding of a list of records gives the list back and ends at the end |
| `WireFormat.ScanAppend` | backend/openmdmrenative/protobuf_static/src/google/protobuf/wire_format.cc:142-160 | a scan of a + b is the scan of a, and, if that ended at the end of a, continued with the scan of b |
| `WireFormat.ForeignEnd` | backend/openmdmrenative/protobuf_static/src/google/protobuf/wire_format.cc:82-140 | a group closed by the end of another number is an error, and so are the wire types 6 and 7 |
| `WireFormat.UnknownSizeIsLength` | backend/openmdmrenative/protobuf_static/src/google/protobuf/wire_format.cc:293-339 | the recursive size of an unknown field set is the number of bytes it serialises to |
| `CodedStreams.CodedInputStream.ReadVarint64` | backend/openmdmrenative/protobuf_static/src/google/protobuf/io/coded_stream.cc:467-511 | over any split of the input into buffers, the result and the bytes consumed are those of reading a varint from the rest of the window |
| `CodedStreams.CodedInputStream.ReadTag` | backend/openmdmrenative/protobuf_static/src/google/protobuf/io/coded_stream.cc:387-450 | the tag at the head of the window, 0 for a zero or unreadable tag, and 0 with the end marked when the window is empty, except where it was the total limit that cut it |
| `CodedStreams.CodedInputStream.PushLimit` | backend/openmdmrenative/protobuf_static/src/google/protobuf/io/coded_stream.cc:103-139 | the new window is the announced length, cut to the enclosing window and to the total limit of 64 MiB |
| `CodedStreams.SkipField` | backend/openmdmrenative/protobuf_static/src/google/protobuf/wire_format.cc:82-140 | refines ReadPayload: same record, same bytes consumed, same failures |
| `CodedStreams.SkipMessage` | backend/openmdmrenative/protobuf_static/src/google/protobuf/wire_format.cc:142-160 | refines ScanRecords up to the end of the group or window |
| `CodedStreams.CodedOutputStream.WriteRaw` | backend/openmdmrenative/protobuf_static/src/google/protobuf/io/coded_stream.cc:626-643 | appends as much as fits and records an error exactly when something did not |
| `PlainLoop.LoopIsScan` | backend/openmdmrenative/wipc.pb.cc:466-581 | the loop that reads one tag and dispatches on it equals splitting the window into records and absorbing them in order |
| `MessageObjects.MessageObject.MergePartialFromCodedStream` | backend/openmdmrenative/wipc.pb.cc:466-581 | the parser with its ExpectTag jumps, the repeated field 2 and the ExpectAtEnd exit gives, on every input and field order, the outcome of the plain loop: message, rest of input, success, end mark (which fields and numbers that takes, Requests.MessageIsRead states on the bytes); where the total limit of the stream cuts the window it succeeds only as the plain loop does, but may fail |
| `MessageObjects.MessageObject.NextLabel` | backend/openmdmrenative/wipc.pb.cc:484-571 | a jump is only taken onto a tag that is next in the input, to the field of that tag; without a jump nothing is consumed |
| `MessageObjects.MessageObject.TopOfLoop` | backend/openmdmrenative/wipc.pb.cc:471-573 | reading a tag and dispatching on it is one step of the plain loop; an unknown field goes to the unknown set |
| `MessageObjects.MessageObject.ParseNumber` | backend/openmdmrenative/wipc.pb.cc:473-492 | enum, uint32 and bool payloads are absorbed as the wire rules say; a number outside the enum goes, sign-extended, to the unknown set |
| `MessageObjects.MessageObject.ParseSub` | backend/openmdmrenative/wipc.pb.cc:494-559 | a sub-message is merged into the field, an element of the repeated field is appended, both within the pushed limit |
| `MessageObjects.MessageObject.ParseFromCodedStream` | backend/openmdmrenative/protobuf_static/src/google/protobuf/message_lite.cc:96-162 | clears first, so the old contents never matter, and then fails exactly when parsing fails or a required field is missing |
| `MergeLaws.MergeAssociative` | backend/openmdmrenative/wipc.pb.cc:751-772 | Merge is associative, so any grouping of arrivals gives the same message |
| `MergeLaws.MergeIdentity` | backend/openmdmrenative/wipc.pb.cc:751-772 | the empty message is neutral on both sides |
| `MergeLaws.WindowIsMerge` | backend/openmdmrenative/wipc.pb.cc:466-581 | parsing into a message m equals merging into m what the same bytes parse to alone |
| `MergeLaws.ConcatIsMerge` | backend/openmdmrenative/wipc.pb.cc:466-581 | for a complete a, parsing a + b is MergeFrom of the two parses: scalars last one wins, sub-messages merged, repeated and unknown fields appended |
| `MergeLaws.ConcatIsMergeIffComplete` | backend/openmdmrenative/wipc.pb.cc:466-581 | that law holds for all b if and only if no announced length in a overruns a |
| `MergeLaws.CutParse` | backend/openmdmrenative/protobuf_static/src/google/protobuf/io/coded_stream.cc:116-139 | an accepted encoding that is cut off inside a sub-message swallows what is appended to it, which is why the converse holds |
| `MergeLaws.CutShortIsAccepted` | backend/openmdmrenative/protobuf_static/src/google/protobuf/io/coded_stream.cc:116-139 | for every sub-message field of every message, its tag and the length 1 with nothing behind them are accepted as an empty sub-message although they are cut short |
| `MergeLaws.TruncationAcceptedIff` | backend/openmdmrenative/protobuf_static/src/google/protobuf/io/coded_stream.cc:116-139 | encodings that are accepted although an announced length overruns them exist for exactly the messages with sub-messages |
| `NormalForm.WindowNormal` | backend/openmdmrenative/wipc.pb.cc:466-581 | whatever is parsed keeps the invariant that the unknown set only holds records the parser would route there again |
| `NormalForm.ReadBack` | backend/openmdmrenative/wipc.pb.cc:583-627 | parsing the serialisation of a normal message gives the message |
| `NormalForm.ReadBackIffNormal` | backend/openmdmrenative/wipc.pb.cc:466-627 | exactly the normal messages survive the round trip |
| `SizeBounds.WindowWeight` | backend/openmdmrenative/wipc.pb.cc:466-627 | serialising what was parsed never needs more than twice the bytes that were read |
| `SizeBounds.SerializeIsNormalForm` | backend/openmdmrenative/wipc.pb.cc:466-627 | for every byte string below 2^30 bytes that parses, serialising and parsing again gives the same message |
| `Storage.AbsentReadsDefault` | backend/openmdmrenative/wipc.pb.h:1225-1300 | a field whose has-bit is off reads as its default although its getter ignores the has-bit |
| `Storage.BlankSound` | backend/openmdmrenative/wipc.pb.cc:400-413 | a new object is empty and keeps the has-bit invariant |
| `Storage.SizeIsSum` | backend/openmdmrenative/wipc.pb.cc:681-737 | the serialised length is the sum over the fields and the unknown set |
| `Storage.SerializeIsBytesFrom` | backend/openmdmrenative/wipc.pb.cc:583-627 | the bytes are those of the fields in order of their numbers, then the unknown set |
| `MessageObjects.MessageObject.SetScalar` | backend/openmdmrenative/wipc.pb.h:1242-1247 | sets one field, changes no other and keeps the has-bit invariant |
| `MessageObjects.MessageObject.ClearField` | backend/openmdmrenative/wipc.pb.h:1234-1292 | the field becomes absent and reads as its default again |
| `MessageObjects.MessageObject.MutableSub` | backend/openmdmrenative/wipc.pb.h:1297-1302 | the field becomes present; an absent one starts empty whatever its object held before |
| `MessageObjects.MessageObject.ReleaseSub` | backend/openmdmrenative/wipc.pb.h:1303-1308 | the field becomes absent and its object, if any, is handed out |
| `MessageObjects.MessageObject.SetAllocatedSub` | backend/openmdmrenative/wipc.pb.h:1309-1320 | the field becomes the given message, or absent for NULL |
| `MessageObjects.MessageObject.Clear` | backend/openmdmrenative/wipc.pb.cc:445-464 | the empty message, also when the has-bits guard the work and sub-messages are reused |
| `MessageObjects.MessageObject.ByteSize` | backend/openmdmrenative/wipc.pb.cc:681-737 | the length of the serialisation, and every nested cached size equals its recomputed size |
| `MessageObjects.MessageObject.SerializeWithCachedSizes` | backend/openmdmrenative/wipc.pb.cc:583-627 | writes the serialisation, given the cached sizes |
| `MessageObjects.MessageObject.SerializeWithCachedSizesToArray` | backend/openmdmrenative/wipc.pb.cc:629-679 | writes the same bytes at the position given and nothing else in the array |
| `MessageObjects.MessageObject.SerializeToCodedStream` | backend/openmdmrenative/protobuf_static/src/google/protobuf/message_lite.cc:228-262 | both ways of writing push exactly the serialisation |
| `MessageObjects.MessageObject.MergeFrom` | backend/openmdmrenative/wipc.pb.cc:751-772 | the value becomes the Merge of the two values |
| `MessageObjects.MessageObject.Swap` | backend/openmdmrenative/wipc.pb.cc:805-817 | member by member, the has-bits and the unknown fields too: both invariants still hold and the values are exchanged; the cached sizes go along |
| `MessageObjects.MessageObject.IsInitialized` | backend/openmdmrenative/wipc.pb.cc:786-803 | true exactly when all required fields are present at every level |
| `Receiver.ReadMessage` | backend/openmdmrenative/webkeynative.cc:54-73 | one delimited frame: the message it holds and the rest of the stream, or failure; a frame that the total limit of the stream cuts may fail or give what its first part holds |
| `Receiver.ReceiverThread.Run` | backend/openmdmrenative/webkeynative.cc:75-134 | with one reused message object and one stream for the whole session the events dispatched are those of the frames read one by one, as far as these lie whole in the first 64 MiB, and halt is set exactly when a CMD was among them; below 64 MiB they are those of all frames |
| `Receiver.FramesAreDelivered` | backend/openmdmrenative/webkeynative.cc:87-130 | well-formed frames give one event each, as if parsed into a fresh object, up to and including the first CMD, and nothing behind it is looked at |
| `Receiver.FramesBelowTheLimit` | backend/openmdmrenative/protobuf_static/src/google/protobuf/io/coded_stream.cc:103-114 | of a stream of any length the well-formed frames that end within the first 64 MiB are dispatched first, each once and in order, and with a CMD among them nothing else is |
| `Receiver.SentIsDispatched` | backend/openmdmrenative/webkeynative.cc:54-130 | a list of normal messages, framed and concatenated, at most 64 MiB, is dispatched as that list up to the first CMD; nothing more is when a CMD was sent or nothing follows |
| `Receiver.InStepIff` | backend/openmdmrenative/webkeynative.cc:54-73 | the next frame is looked for at the announced end of this one iff the fields of this one reach that far |
| `Receiver.ZeroEndsFrame` | backend/openmdmrenative/webkeynative.cc:54-73 | a zero byte behind a field ends a frame early, and the rest of the frame is taken for the next one |
| `Auth.SendAuthKey` | backend/openmdmrenative/webkey_auth.cc:57-88 | the buffer holds exactly the frame of the key message: its size from ByteSize is neither too large nor too small |
| `Auth.HandshakeAcceptsIffSameKey` | backend/openmdmrenative/webkey_auth.cc:14-88 | what one side sends the other accepts if and only if the keys are equal, for frames of at most 64 MiB |
| `Requests.FrameMeans` | backend/openmdmrenative/webkeynative.cc:75-134 | stated on wire numbers: a frame written field by field, any of them missing, with any 64-bit numbers, is accepted iff every enum number is a listed one (cut to 32 bits) and nothing required is missing at any level; then type 1 asks set_metrics for its resolution, frequency or difference, 2 injects its touches in order with their coordinates, kind, mirror and flip, 3 enables the keyboard with its method iff the key type is 0, 4 carries the button's type and id, 5 halts; absent sub-messages read as defaults |
| `Requests.MessageIsRead` | backend/openmdmrenative/wipc.proto:6-66 | what the parser makes of such a frame, an unlisted enum number staying out of its field and in the unknown set |
| `Requests.HalvesAreMerged` | backend/openmdmrenative/wipc.pb.cc:494-559 | a sub-message sent in two fields is read as the concatenation of both sent in one |
| `Requests.LastNumberCounts` | backend/openmdmrenative/protobuf_static/src/google/protobuf/wire_format_lite_inl.h:120-161 | of two numbers sent for one field the last one counts |
| `Requests.SessionIsDone` | backend/openmdmrenative/webkeynative.cc:75-134 | a session of such frames within the first 64 MiB is carried out frame by frame and in order, up to the first of type 5 |
| `Requests.SessionEndsAt` | backend/openmdmrenative/webkeynative.cc:54-89 | the first frame with a missing required field or an unlisted number ends the session; nothing behind it is carried out |
| `Requests.MessageIsWritten` | backend/openmdmrenative/wipc.proto:6-66 | the bytes the generated code writes: each field under the number and wire type of wipc.proto, in the order of the numbers |
| `Requests.KeyIsWritten` | backend/openmdmrenative/webkey_auth.cc:57-88 | the bytes of the key message: type 5, and in field 6 a command of type 1 with the key in field 2 |
| `Requests.AcceptedIff` | backend/openmdmrenative/webkey_auth.cc:14-56 | of all frames a peer may send, accepted are exactly the complete ones of type 5 with a command whose key is the expected one |
| `TouchScaling.ScaleUpExactIff` | backend/openmdmrenative/touchinject.cc:264-272 | the wrapping unsigned formula equals min + floor(v * range / 65535) for all coordinates if and only if the axis has at most 65537 steps |
| `TouchScaling.ScaleDownExactIff` | backend/openmdmrenative/touchinject.cc:265-268 | the signed formula of the flipped branch is exact for all coordinates if and only if the axis has at most 32768 steps |
| `TouchScaling.ScaleUpProperties` | backend/openmdmrenative/touchinject.cc:258-272 | within the axis, monotone, ends to ends, and a mirrored coordinate is the reflected one within one unit |
| `TouchScaling.ScaleDownProperties` | backend/openmdmrenative/touchinject.cc:258-268 | the same for the flipped branch, antitone |
| `TouchScaling.ScaleUpLands` | backend/openmdmrenative/touchinject.cc:264-272 | on an axis of any length the unsigned formula stays on the axis, also where it wraps |
| `TouchScaling.ScaleDownLandsIff` | backend/openmdmrenative/touchinject.cc:265-268 | the flipped formula stays on the axis for all coordinates if and only if the axis has at most 32768 or exactly 2^31 - 1 steps |
| `TouchInjection.ScaledOnDevice` | backend/openmdmrenative/touchinject.cc:248-272 | every touch lands on the device for any coordinates, mirroring and flipping, unless the flipped axis has a length at which ScaleDown leaves it |
| `TouchInjection.AllLandIff` | backend/openmdmrenative/touchinject.cc:248-272 | all touches land if and only if that axis is not flipped or has one of the lengths of ScaleDownLandsIff |
| `TouchInjection.CornersReachCorners` | backend/openmdmrenative/touchinject.cc:248-272 | corners go to corners, turned a quarter when the axes are exchanged |
| `TouchInjection.MirroredIsReflected` | backend/openmdmrenative/touchinject.cc:248-256 | a mirrored touch lands at the point reflected on both axes, within one unit |
| `TouchInjection.TouchInjector.TouchInject` | backend/openmdmrenative/touchinject.cc:233-303 | the state and the reports written are those of one step of the machine; events are whole reports |
| `TouchInjection.TouchInjector.TouchesInject` | backend/openmdmrenative/touchinject.cc:305-316 | the touches of one message are injected in order |
| `TouchInjection.EveryStream` | backend/openmdmrenative/touchinject.cc:233-303 | for every input sequence: non-empty reports each closed by one SYN_REPORT, a release between two presses, touch_released tells the last BTN_TOUCH, tracking ids are 0, 1, 2, ... |
| `TouchInjection.EveryInputReports` | backend/openmdmrenative/touchinject.cc:233-303 | apart from positions, each input writes exactly its own press, release or plain report, with contact ids on multi-touch devices, and a DOWN while another is held an UP before it |
| `TouchInjection.EveryTouchLands` | backend/openmdmrenative/touchinject.cc:233-303 | every DOWN and MOVE is written once at its own coordinates in input order, with pressure 100 on a multi-touch device, and the inserted UP adds no position |
| `ScreenCapture.SampleInFrame` | backend/openmdmrenative/screencap.cc:170-187 | every sampled index lies inside a frame of the current resolution |
| `ScreenCapture.SamplesAreDense` | backend/openmdmrenative/screencap.cc:170-187 | every 25 consecutive words below the last sample hold a sampled one, and less than 25 words of the stored size are left |
| `ScreenCapture.ScreenCapture.Compare` | backend/openmdmrenative/screencap.cc:214-222 | the cache ends as the samples of the frame and changed is set iff one differed |
| `ScreenCapture.ScreenCapture.CaptureOnce` | backend/openmdmrenative/screencap.cc:156-268 | one iteration of the loop is one step of the system, with all indices in range |
| `ScreenCapture.ScreenCapture.SetResolution` | backend/openmdmrenative/screencap.cc:277-307 | what a resolution request stores, and that the cache is replaced before its size is wrong |
| `ScreenCapture.ScreenCapture.SetMetrics` | backend/openmdmrenative/screencap.cc:309-328 | a Screen message is carried out as the request it stands for, read through its accessors |
| `ScreenCapture.ScreenCapture.StartStreamer` | backend/openmdmrenative/screencap.cc:384-401 | a new stream starts with no cache and asks for one |
| `ScreenCapture.RunKeeps` | backend/openmdmrenative/screencap.cc:135-307 | in every reachable state the cache has the size of the resolution or is about to be replaced, the stored resolution is no wider than the device and not turned against it, and the frequency in use is the one asked for unless it is about to be taken over |
| `ScreenCapture.StoredHeightFitsIff` | backend/openmdmrenative/screencap.cc:291-304 | an accepted request is stored no higher than the device exactly when its side along the device's height is; the code never tests it |
| `ScreenCapture.TallerThanDevice` | backend/openmdmrenative/screencap.cc:291-304 | a reachable resolution of 50x1000 on a device of 100x200 |
| `ScreenCapture.StoredSides` | backend/openmdmrenative/screencap.cc:277-307 | an accepted request is stored with its two sides, turned to the device's orientation; any other changes nothing |
| `ScreenCapture.SettingsTakeEffect` | backend/openmdmrenative/screencap.cc:156-194 | after any history the next iteration works with the resolution and frequency asked for, with a cache of that size; a new resolution ends diff mode |
| `ScreenCapture.StoppedSendsNothing` | backend/openmdmrenative/screencap.cc:135-160 | a stopped stream sends nothing until a new one starts |
| `ScreenCapture.StoredTurnedIff` | backend/openmdmrenative/screencap.cc:277-307 | an accepted request ends in the device's orientation unless it is square on a landscape device, and is stored as asked iff it was in that orientation or square |
| `ScreenCapture.FrameInDiffMode` | backend/openmdmrenative/screencap.cc:214-262 | a frame is sent exactly when a sampled word differs from the cache |
| `ScreenCapture.DiffRunSendsChanges` | backend/openmdmrenative/screencap.cc:214-262 | over an uninterrupted stretch of diff mode exactly the frames that differ at a sampled position from the frame before them are sent, once and in order |
| `ScreenCapture.StretchTheorem` | backend/openmdmrenative/screencap.cc:156-268 | in an uninterrupted diff-mode stretch, from the first frame sent on, the frame sent last agrees with the current one at every sampled position |
| `ScreenCapture.NextAgreesIff` | backend/openmdmrenative/screencap.cc:180-230 | whatever the next frame is, the frame sent last agrees with it after its iteration, if and only if the cache holds the samples of the frame sent last |
| `ScreenCapture.StaleFrameStays` | backend/openmdmrenative/screencap.cc:180-230 | a reachable run in which that fails: the cache never saw the frame sent before diff mode, holds what the memory held, and the new frame is not sent |
| `ScreenCapture.UnsampledChangeIsMissed` | backend/openmdmrenative/screencap.cc:213-222 | a change between the sampled words is never sent |
| `ScreenCapture.WriteNBytes` | backend/openmdmrenative/screencap.cc:121-133 | over any results of write(): success is reported iff as many bytes were taken as there are, and the socket gets the head of the data again with every write |
| `ScreenCapture.WrittenWholeIff` | backend/openmdmrenative/screencap.cc:121-133 | the data, whatever they are, arrive if and only if one write takes them whole, since the pointer never advances |
| `ScreenCapture.DeliveredIffAtOnce` | backend/openmdmrenative/screencap.cc:121-133 | when write_n_bytes reports success, the data, whatever they are, have arrived if and only if the first write took all of them |
| `LineClip.LineUtil.ClipSegment` | app/src/androidTest/assets/webkit/leaflet.js:8 | exactly the part of the segment inside the box, or nothing iff no point of it is inside; terminates and divides by no zero; the code kept for the next call is that of the end point |
| `LineClip.EdgeCrossed` | app/src/androidTest/assets/webkit/leaflet.js:8 | the other end lies across the edge cut at, so the divisor is not zero and the cut is on the segment |
| `LineClip.FewerSteps` | app/src/androidTest/assets/webkit/leaflet.js:8 | the termination measure: outcode bits left, or rejection at once |
| `LineClip.CutOffOutside` | app/src/androidTest/assets/webkit/leaflet.js:8 | what a cut removes lies outside the box |
| `LineClip.ClippedEnds` | app/src/androidTest/assets/webkit/leaflet.js:8 | an end point is returned unchanged iff it lies in the box |
| `LineClip.ClipPoints` | app/src/androidTest/assets/webkit/leaflet.js:8 | walking a polyline with the cached code, the parts draw exactly the clipped segments in order and lie in the box; a part ends exactly where the line leaves the box or is over |
| `LineSimplify.ClosestIsMinimal` | app/src/androidTest/assets/webkit/leaflet.js:8 | the squared distance returned is that of a point of the segment and no point of it is nearer |
| `LineSimplify.SimplifyDPStep` | app/src/androidTest/assets/webkit/leaflet.js:8 | between neighbouring marks every point is within the tolerance of the joining segment; every mark set is a farthest point of its gap, beyond the tolerance; marks outside are untouched |
| `LineSimplify.SimplifyDP` | app/src/androidTest/assets/webkit/leaflet.js:8 | a subsequence with both ends; every dropped point is within the tolerance of the segment joining its nearest kept neighbours, every kept one was a farthest point beyond the tolerance of the gap it divided |
| `LineSimplify.ReducePoints` | app/src/androidTest/assets/webkit/leaflet.js:8 | a subsequence with both ends; every dropped point is within the tolerance of the last kept one before it, every kept one is not, the last excepted |
| `LineSimplify.Simplify` | app/src/androidTest/assets/webkit/leaflet.js:8 | the line drawn stays within twice the tolerance of every original point, piece by piece; it is the radial reduction and then Douglas-Peucker on what that left, with all they drop and keep; tolerance 0 changes nothing |
| `CallbackList.EveryRun` | app/src/androidTest/assets/webkit/jquery.js:3085-3247 | for all options and every sequence of calls and callback returns: passes do not interleave, no place is called twice in a pass and the order is the list's; fireWith calls begin their passes first in first out, every call passes the data of the last fireWith that began one, the memory is the latest of these, and such a pass begins at the first place; without memory there are no other passes; which fireWith calls take effect is FireCallsAll and LockIsFinal |
| `CallbackList.RunKeeps` | app/src/androidTest/assets/webkit/jquery.js:3111-3247 | the invariant of every event; firing implies firingLength == list.length |
| `CallbackList.WholePass` | app/src/androidTest/assets/webkit/jquery.js:3111-3137 | at the end of a pass, after any history and for all options, every place in the list that the pass covers (all of them in the pass of a fireWith), there from the start or added during the pass, was called in this pass exactly once |
| `CallbackList.PassIsComplete` | app/src/androidTest/assets/webkit/jquery.js:3111-3137 | a pass that runs off the end has called every place it covers that is still in the list, those added during it included |
| `CallbackList.RemovedIsNeverCalled` | app/src/androidTest/assets/webkit/jquery.js:3171-3190 | a place removed before its turn is never called, in this pass or later |
| `CallbackList.RemoveTakesOut` | app/src/androidTest/assets/webkit/jquery.js:3171-3190 | remove takes every place of the function out of the list |
| `CallbackList.EmptyIsSafeIff` | app/src/androidTest/assets/webkit/jquery.js:3197-3201 | for all options, after empty() during a pass all functions added next are the rest of that pass if and only if firingIndex is -1 |
| `CallbackList.EmptyTrap` | app/src/androidTest/assets/webkit/jquery.js:3197-3201 | a concrete run in which a function added after empty() is skipped |
| `CallbackList.LockIsFinal` | app/src/androidTest/assets/webkit/jquery.js:3202-3219 | after lock() or disable() a list that has fired, also one in the middle of a pass, takes no fireWith and begins none that waits, whatever happens to it; calls still made pass the data remembered; a quiet one that remembers nothing calls nothing |
| `CallbackList.LockedStillCalls` | app/src/androidTest/assets/webkit/jquery.js:3211-3217 | a locked list with memory goes on calling the functions added to it at once, with the data remembered |
| `CallbackList.LockIsDisable` | app/src/androidTest/assets/webkit/jquery.js:3211-3217 | locking a list that never fired is disabling it |
| `CallbackList.DisableIsFinalIff` | app/src/androidTest/assets/webkit/jquery.js:3197-3206 | a quiet disabled list takes nothing and calls nothing for ever iff it had fired; otherwise empty() brings it back |
| `CallbackList.DisabledWithoutEmpty` | app/src/androidTest/assets/webkit/jquery.js:3202-3206 | without empty() a disabled quiet list never takes or calls anything |
| `CallbackList.FireCallsAll` | app/src/androidTest/assets/webkit/jquery.js:3111-3137 | fireWith on a quiet list calls every place once, in order and with its data, a false answer notwithstanding unless stopOnFalse is set, and then the list is kept, kept empty for its memory, or given up |
| `CallbackList.UniqueNeverTwice` | app/src/androidTest/assets/webkit/jquery.js:3147-3151 | a unique list never holds a function twice |
| `CallbackList.OnceBeginsOnePass` | app/src/androidTest/assets/webkit/jquery.js:3224-3236 | a once list takes at most one fireWith in any run |
| `CallbackList.RemoveIsFilter` | app/src/androidTest/assets/webkit/jquery.js:3171-3190 | remove keeps all places of other functions, in order |
| `CallbackObject.Callbacks.Fire` | app/src/androidTest/assets/webkit/jquery.js:3111-3137 | the loop of fire, the queue and the re-entrant calls lead exactly where the state machine does, with all indexes in range |
| `CallbackObject.Callbacks.Add` | app/src/androidTest/assets/webkit/jquery.js:3140-3169 | add, with the immediate call of lists with memory |
| `CallbackObject.Callbacks.RemoveOne` | app/src/androidTest/assets/webkit/jquery.js:3171-3190 | the splice loop with the firing indexes removes exactly the places of the function |
| `CallbackObject.Callbacks.FireWith` | app/src/androidTest/assets/webkit/jquery.js:3224-3236 | queues during a pass, fires otherwise, and is ignored once spent |
| `CallbackObject.DriveIsRun` | app/src/androidTest/assets/webkit/jquery.js:3111-3247 | a scripted run of the object is a run of the machine, so the laws of all runs hold of it |
| `Deferred.CallbacksRunOnce` | app/src/androidTest/assets/webkit/jquery.js:3253-3337 | the first settling call decides the state; callbacks of the other list never run; once nothing runs, every callback registered before or after has run once, in order, with the settling value |
| `Deferred.StateIsFinal` | app/src/androidTest/assets/webkit/jquery.js:3302-3325 | the state leaves pending at most once |
| `Deferred.RunOwnSettles` | app/src/androidTest/assets/webkit/jquery.js:3310-3318 | the three internal callbacks set the state, disable the other list and lock that for progress before any caller's callback runs |
| `Deferred.ReturnAdvances` | app/src/androidTest/assets/webkit/jquery.js:3111-3137 | each return leads to the next registered callback |
| `Deferred.NotifiedUntilSettled` | app/src/androidTest/assets/webkit/jquery.js:3302-3325 | notify takes effect exactly until the first settling call, which locks the list for progress |
| `Deferred.ProgressInOrder` | app/src/androidTest/assets/webkit/jquery.js:3253-3337 | progress callbacks, whenever registered, get the values notified, in order, and none that was notified after the first settling call |
| `When.Master.constructor` | app/src/androidTest/assets/webkit/jquery.js:3340-3391 | after the registration loop remaining is the number of unresolved subordinates and the master is settled exactly as promised |
| `When.Master.OnDone` | app/src/androidTest/assets/webkit/jquery.js:3351-3363 | a resolving subordinate stores its value in position and resolves the master iff it was the last |
| `When.Master.OnFail` | app/src/androidTest/assets/webkit/jquery.js:3372-3382 | the first rejection rejects the master |
| `When.ResolvedIffAll` | app/src/androidTest/assets/webkit/jquery.js:3340-3391 | what is promised is a resolution iff all subordinates have resolved |
| `When.Master.HasResolvedIffAll` | app/src/androidTest/assets/webkit/jquery.js:3340-3391 | at any time the master has resolved exactly if all subordinates have, with their values in position, and has been rejected exactly if one of them has, with the reason of one that was |
| `Combinators.Sizzle.Search` | app/src/androidTest/assets/webkit/jquery.js:2102-2153 | the memoised search answers as the search without memory, for any sequence of queries in a run, also when searches are nested and share cells that are filled in later; FoundIsHop and MatchesIffSelected say what that answer is |
| `Combinators.Sizzle.SearchCached` | app/src/androidTest/assets/webkit/jquery.js:2118-2152 | the same for the branch with the shared cell |
| `Combinators.Sizzle.Match` | app/src/androidTest/assets/webkit/jquery.js:2155-2167 | the matcher handed to a combinator: the compound and the combinator to its left |
| `Combinators.Sizzle.NewRun` | app/src/androidTest/assets/webkit/jquery.js:2357-2381 | a new run leaves the caches of earlier ones in place and reads none of them |
| `Combinators.FoundIsExists` | app/src/androidTest/assets/webkit/jquery.js:2102-2153 | the search holds iff some node along the direction satisfies the matcher |
| `Combinators.FoundIsNearest` | app/src/androidTest/assets/webkit/jquery.js:2107-2114 | a first search holds iff the nearest eligible node exists and satisfies the matcher |
| `Combinators.FoundIsHop` | app/src/androidTest/assets/webkit/jquery.js:1557-1562 | the search holds iff one or more parentNode links, or previousSibling links, lead to a node that satisfies the matcher and is an element or all nodes are asked for; with first no such node lies between |
| `Combinators.MatchesIffSelected` | app/src/androidTest/assets/webkit/jquery.js:2155-2167 | a node matches a selector iff there are nodes for all compounds to its left, each matching its compound and linked as the combinators say |
| `NthChild.CycleTestIsCycle` | app/src/androidTest/assets/webkit/jquery.js:1766-1768 | the remainder test holds iff the position is a*n + b for some n >= 0, for all signs of a and b |
| `NthChild.PositionIsCardinality` | app/src/androidTest/assets/webkit/jquery.js:1716-1764 | a position is the number of counted children up to the node, or from it on |
| `NthChild.Family.SeekForward` | app/src/androidTest/assets/webkit/jquery.js:1720-1741 | the position found from the index cached on the parent, or from the start, is the true one |
| `NthChild.Family.SeekBackward` | app/src/androidTest/assets/webkit/jquery.js:1743-1764 | the position cached on an element, or counted from the end, is the true one |
| `NthChild.Family.Matches` | app/src/androidTest/assets/webkit/jquery.js:1684-1770 | :nth-child, :nth-last-child and the of-type forms answer exactly "exists n >= 0 with position a*n + b", for any order of queries in a run |
| `DocumentOrder.BeforeIsTreeOrder` | app/src/androidTest/assets/webkit/jquery.js:1353-1405 | the order of paths is pre-order: ancestors first, subtrees in the order of siblings |
| `DocumentOrder.BeforeTotal` | app/src/androidTest/assets/webkit/jquery.js:1353-1405 | of two different nodes exactly one is before the other |
| `DocumentOrder.BeforeTransitive` | app/src/androidTest/assets/webkit/jquery.js:1353-1405 | the order is transitive |
| `DocumentOrder.SiblingCheck` | app/src/androidTest/assets/webkit/jquery.js:952-973 | the order of two siblings; a node whose list of ancestors has ended comes first |
| `DocumentOrder.WalkDown` | app/src/androidTest/assets/webkit/jquery.js:1392-1395 | the unbounded loop down the lists of ancestors stops, at the first difference below the document |
| `DocumentOrder.Sorter.SortOrder` | app/src/androidTest/assets/webkit/jquery.js:1353-1405 | the comparator terminates and its sign is the tree order; hasDuplicate is set iff it is given one node twice |
| `DocumentOrder.RemoveDuplicates` | app/src/androidTest/assets/webkit/jquery.js:1491-1500 | collecting the indices and splicing from the last on keeps exactly the first of equal neighbours |
| `DocumentOrder.Sorter.UniqueSort` | app/src/androidTest/assets/webkit/jquery.js:1480-1507 | each distinct node once, in document order, also when duplicates are only noticed by the comparator; with StrictOrderUnique that determines the list |
| `DocumentOrder.Sorter.DropDuplicates` | app/src/androidTest/assets/webkit/jquery.js:1491-1504 | the same for any array sort: what is left of any ordered permutation, provided the comparator was given equal neighbours |
| `DocumentOrder.StrictOrderUnique` | app/src/androidTest/assets/webkit/jquery.js:1480-1507 | two lists in strict document order with the same nodes are equal, so the result does not depend on the sort |
| `MoxReplay.AcceptsGreedy` | backend/openmdmrenative/protobuf_static/python/mox.py:545-613 | replay followed by Verify accepts a trace iff it is a concatenation of words of the queue in which every MultipleTimesGroup takes all it can |
| `MoxReplay.AcceptsLanguageIffDisjoint` | backend/openmdmrenative/protobuf_static/python/mox.py:545-613 | replay accepts exactly the concatenations of words of the recorded items iff no MultipleTimesGroup shares a method with the item behind it |
| `MoxReplay.TrapIsRejected` | backend/openmdmrenative/protobuf_static/python/mox.py:1285-1316 | the witness: a shortest word of such a queue that is rejected |
| `MoxReplay.RecordAllKeeps` | backend/openmdmrenative/protobuf_static/python/mox.py:664-684 | recording keeps every call in order; calls of one class and group name in a row share a group |
| `MoxReplay.RecordingAcceptsIff` | backend/openmdmrenative/protobuf_static/python/mox.py:664-702 | in terms of the recorded calls, cut into the longest runs of one mark and name: the traces that are, run by run, the one call, the calls in any order, or any sequence of them with each as often as recorded are exactly the accepted ones iff no MultipleTimes run shares a method with the run behind it |
| `MoxReplay.RecordedAsItems` | backend/openmdmrenative/protobuf_static/python/mox.py:664-684 | each run becomes one item of the queue: a single call, an unordered group or a repeating group of its name, with its methods in order |
| `MoxReplay.CutExists` | backend/openmdmrenative/protobuf_static/python/mox.py:664-684 | every recording can be cut like that |
| `MoxReplay.MockAnything.CheckAndCreateNewGroup` | backend/openmdmrenative/protobuf_static/python/mox.py:664-684 | the call moves from the tail of the queue into the group at the tail or a new one |
| `MoxReplay.MockAnything.VerifyMethodCall` | backend/openmdmrenative/protobuf_static/python/mox.py:588-613 | the queue after an accepted call, and an error exactly when the call is not expected |
| `MoxReplay.MockAnything.ReplayAndVerify` | backend/openmdmrenative/protobuf_static/python/mox.py:545-613 | a whole trace with Verify at the end is accepted iff the specification accepts it |
| `MoxReplay.MockAnything.Verify` | backend/openmdmrenative/protobuf_static/python/mox.py:331-347 | passes iff nothing is left but possibly one satisfied MultipleTimesGroup |
| `MoxReplay.IsSatisfied` | backend/openmdmrenative/protobuf_static/python/mox.py:1318-1332 | the strike-out loop: every method was called at least as often as it was recorded |
| `CodedStreams.CodedInputStream.ReadVarint32` | backend/openmdmrenative/protobuf_static/src/google/protobuf/io/coded_stream.cc:355-385 | the low 32 bits of the varint at the head of the window, over any buffer boundaries |
| `CodedStreams.CodedInputStream.ReadBytes` | backend/openmdmrenative/protobuf_static/src/google/protobuf/io/coded_stream.cc:240-275 | the announced bytes across any buffer boundaries, or failure when the window is shorter |
| `CodedStreams.CodedInputStream.PopLimit` | backend/openmdmrenative/protobuf_static/src/google/protobuf/io/coded_stream.cc:141-149 | the window is again that of the enclosing limit behind what was consumed |
| `CodedStreams.CodedInputStream.ExpectTag` | backend/openmdmrenative/protobuf_static/src/google/protobuf/io/coded_stream.h:936-960 | consumes the tag it was asked for when it says so, and otherwise nothing |
| `CodedStreams.CodedInputStream.ExpectAtEnd` | backend/openmdmrenative/protobuf_static/src/google/protobuf/io/coded_stream.h:980-995 | true only at the end of the window |
| `CodedStreams.WriteToArray` | backend/openmdmrenative/protobuf_static/src/google/protobuf/io/coded_stream.cc:638-643 | the bytes are written at the position given and nothing else changes |
| `MessageObjects.MessageObject.Unusual` | backend/openmdmrenative/wipc.pb.cc:561-571 | an unknown field is kept in the unknown set as the record that was read |
| `MessageObjects.MessageObject.ParseString` | backend/openmdmrenative/wipc.pb.cc:2490-2500 | a length-delimited string within the window, or failure |
| `MessageObjects.MessageObject.FieldSize` | backend/openmdmrenative/wipc.pb.cc:681-737 | what one field adds to the size, with the nested sizes cached |
| `MessageObjects.MessageObject.WriteMessage` | backend/openmdmrenative/protobuf_static/src/google/protobuf/wire_format_lite_inl.h:574-585 | tag, cached size and sub-message are exactly the record of the field |
| `MessageObjects.MessageObject.MergeField` | backend/openmdmrenative/wipc.pb.cc:751-772 | one field of MergeFrom |
| `Receiver.Dispatch` | backend/openmdmrenative/webkeynative.cc:91-127 | the object with its has-bits and stale members is dispatched as the value it stands for; what that makes of the bytes is Requests.FrameMeans |
| `Auth.BuildKeyMessage` | backend/openmdmrenative/webkey_auth.cc:60-65 | the message that carries the key, built with the accessors |
| `Auth.WriteFrame` | backend/openmdmrenative/webkey_auth.cc:75-79 | the frame is pushed whole: length prefix, then the serialisation |
| `TouchInjection.OwnDeviceIsExact` | backend/openmdmrenative/touchinject.cc:152-160 | on the device the program creates itself every touch is within -2047..2048 |
| `TouchInjection.DetectedTurns` | backend/openmdmrenative/touchinject.cc:111-117 | the coordinates of every unflipped input on a device as it was read: turned a quarter exactly when it is wider than high, with the mirroring applied before |
| `TouchInjection.TouchInjector.Place` | backend/openmdmrenative/touchinject.cc:248-272 | the coordinates computed are those of the input clamped, mirrored and, if asked, flipped |
| `ScreenCapture.PlainRunSendsAll` | backend/openmdmrenative/screencap.cc:156-262 | over any run without diff mode every frame taken is sent, once and in order, whatever resolutions and frequencies are asked for and iterations fail meanwhile |
| `ScreenCapture.SentFrequency` | backend/openmdmrenative/screencap.cc:156-262 | every frame goes out with the frequency asked for last |
| `ScreenCapture.ScreenCapture.ReadSettings` | backend/openmdmrenative/screencap.cc:162-194 | the settings are taken over; a new resolution gets a cache of its size and ends diff mode |
| `LineClip.ClippedUnique` | app/src/androidTest/assets/webkit/leaflet.js:8 | the result of clipping is determined by the segment and the box |
| `CallbackList.AddWithMemory` | app/src/androidTest/assets/webkit/jquery.js:3140-3169 | add to a list with memory, unique or not, begins a pass over exactly the places added, with the data remembered, or nothing if none was added |
| `CallbackList.StopOnFalseEnds` | app/src/androidTest/assets/webkit/jquery.js:3119-3123 | with stopOnFalse a callback that returns false is the last of its pass |
| `CallbackList.FalseForgets` | app/src/androidTest/assets/webkit/jquery.js:3119-3123 | and the list forgets its data, so what is added then is not called |
| `CallbackObject.Callbacks.Remove` | app/src/androidTest/assets/webkit/jquery.js:3171-3190 | remove of several functions is the step of the machine |
| `CallbackObject.Callbacks.Empty` | app/src/androidTest/assets/webkit/jquery.js:3197-3201 | empty is the step of the machine, on a disabled list too |
| `Deferred.RunConsistent` | app/src/androidTest/assets/webkit/jquery.js:3253-3337 | after every run what was called and what is still to come make up what was registered |
| `When.Master.Register` | app/src/androidTest/assets/webkit/jquery.js:3366-3388 | the loop over the arguments and the test after it |
| `NthChild.Family.SeekFromStart` | app/src/androidTest/assets/webkit/jquery.js:1747-1764 | the loop without a starting index finds the true position and caches a true one for every element met |
| `DocumentOrder.FollowedBy` | app/src/androidTest/assets/webkit/jquery.js:965-971 | the nextSibling loop ends, with true iff the other child comes later |
| `MoxReplay.MockAnything.Record` | backend/openmdmrenative/protobuf_static/python/mox.py:557-562 | a call in record mode extends the queue as its mark says |

## Left out

- Sockets, threads, locks, signals, files, ioctl, JPEG encoding, timing and sleeps: the model starts at the bytes, touches, screenshots and calls they deliver.
- libprotobuf's recursion limit: messages nest three deep, and groups of unknown fields are taken to stay below it.
- Receiver.ReceiverThread.Run: what the one frame that overruns the 64 MiB of a session leads to is only bounded by `Dispatched`, because it depends on where the buffers of the stream end.
- Requests.FrameMeans: fields are written in the order of their numbers and at most once; other orders and repeated fields are covered by MergeLaws and PlainLoop, not by this law.
- What `enable_keyboard`, `disable_keyboard` and `button_inject` do with what they are given.
- UTF-8 checks of string fields: they only log.
- Descriptors, reflection, `CopyFrom` and memory management of the generated classes; `RepeatedPtrField` keeps cleared elements for reuse, the model creates new ones.
- Pointer aliasing of sub-messages: a sub-message is held by value in its owner, so `mutable_x` is modelled as taking the object out and `StoreSub` as putting it back, and a pointer kept after that is not followed.
- Has-bits are one flag per field, not bits of a 32-bit word.
- Fixed-width values in unknown fields are kept as their raw bytes.
- The state of an object after a failed parse, which the callers never look at.
- CodedStreams.CodedInputStream.ReadTag: the position of the stream after a tag that is longer than a varint may be and straddles two buffers, where the source leaves some of its bytes unread.
- Bytes that the private stream of `read_and_check_auth` reads ahead and drops.
- Auth.SendAuthKey: requires the key message to stay below 2^31 bytes, because the C++ sizes are 32-bit ints.
- SizeBounds.SerializeIsNormalForm: is stated below 2^30 bytes of input, because re-serialising may double the size and sizes are 32-bit ints; a stream delivers at most 64 MiB in all.
- TouchScaling.ScaleDownExactIff: overflow of the signed product is undefined in C++ and modelled as wrapping, here and in ScaleDownLandsIff and AllLandIff.
- Overflow of the tracking id of `touchinject.cc`, which grows without bound here, and write errors on the input device.
- ScreenCapture.ScreenCapture.CaptureOnce: requests take effect between iterations, so a change of `check_diff` between its two unlocked reads in one iteration is not captured; width * height * bytesPerPixel is not cut to 32 bits.
- ScreenCapture.PlainRunSendsAll: here and in the other theorems on frames one flag says whether a frame reaches the socket; that a frame larger than one write takes arrives garbled is in WriteNBytes and DeliveredIffAtOnce alone.
- The first part of `read_dev_info`, which only copies the axis ranges it is told; keyboards, buttons and `suinput`.
- Floating-point rounding in Leaflet; `clipPolygon`, the map, tiles and gestures.
- LineClip.LineUtil.ClipSegment: outcodes are four flags named after the edges, not an integer with the bits 1, 2, 4, 8.
- CallbackObject.Callbacks.Fire: callbacks are scripts of finitely many calls of the list's own methods; when the script ends the run is cut off, so an endless run appears as all its finite pieces. Callbacks that throw are not modelled.
- The tag that names each place of a callback list and the log are bookkeeping of the model; nested argument arrays of `add` are taken flattened.
- Deferred.CallbacksRunOnce: the three lists are held as values, not as objects; `then` and `always` are not modelled, and a caller's functions are numbers.
- When.Master.constructor: progress notifications are not modelled, and a subordinate is its outcome, which settles at most once by Deferred.StateIsFinal.
- Sizzle's tokenizer, pseudo-selectors without caches, the `:first-child` family, runs nested in one another that change `dirruns`, and document changes during a run.
- Combinators.Sizzle.SearchCached: cells are numbered instead of referenced, and nodes are numbered in document order, so that parents and preceding siblings have smaller numbers.
- NthChild.Family.SeekForward: the caches of one parent and its children; different parents do not share any.
- DocumentOrder.Sorter.SortOrder: nodes of one document without `sourceIndex`; disconnected nodes and several documents are not modelled.
- DocumentOrder.Sorter.UniqueSort: an insertion sort with the same comparator stands in for the browser's array sort; DropDuplicates and StrictOrderUnique hold for any sort that compares what ends up side by side.
- Mox comparators, metaclasses, side effects and return values: equality of methods is plain equality.
- The queue of mox after an UnexpectedMethodCallError, and group names as arbitrary objects.
- DOM manipulation, CSS, effects and Ajax of jQuery, the web controllers, build scripts, `stubout.py`: plumbing that would only add easy members.
