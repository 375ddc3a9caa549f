# trabbits, modelled and verified in Dafny

trabbits is a proxy between AMQP 0-9-1 clients and one or two RabbitMQ clusters ("upstreams"). This
project models its core in Dafny 4.11 and proves what that core keeps. `dafny verify dfyconfig.toml`
checks everything.

## The parts

**The wire codec.** `octets` has big-endian integers, short and long strings and parse results.
`field_codec` defines field values, the octets of one choice of map order (a `Layout`), and the parser.
Because a table is written in whatever order its map is ranged over, every round trip is about all layouts
of a value. `field_values` says exactly which values survive, from what a reader can return at all;
`field_limits` that the parser always moves forward, and what it makes of octets cut short. `writer` and
`reader` are the imperative encoders and decoders, tied to those functions. `wire_octets` states the octets of
every value a second time, from the protocol's numbers alone, and what the parser makes of octets no writer puts
out. `fieldsets`, `arguments` and
`schema` model the method compiler: in-place grouping of fields into runs, the octet shared by a run of bits,
and which field lists give a codec that restores every argument. `methods` lists the 64 methods with their
numbers and fields, `generated` has the code generated for them as it stands in the repository and shows it is
what the fields compile to, `method_io` has the generated loops, `headers` the 14-bit property mask, `frames` and
`frame_io` the frames, and `frame_values` exactly which frames survive. `frame_octets` states whole frames by
numbers as well, and `frame_refusals` what is accepted as a frame at all.

**Messages on the client connection.** `content` splits a body under the negotiated frame size and puts a
message together again, `receive` says what that makes of any frames whatever; `end_to_end` goes from a message to octets and back. `shared_writer` is the writer
shared by all goroutines of a connection, as a state machine in which any goroutine can write at any time and
only locking waits, under any frame size; `client_reader` is what a client that takes the channels apart makes of the stream.

**Several upstreams behind one channel.** `confirms` renumbers publisher confirms, as a state machine of
record, publish, broker confirmation, lookup and send steps; `reselect` has any number of Confirm.Selects.
`deliveries` interleaves delivery tags. `channels` keeps the per-upstream channel maps in step. `topics` and
`routing` choose the upstream for a routing key, against a declarative topic relation. `auth` reads the login
of a SASL response.

**Node health.** `health` is the probe state machine over every history of probes.

## Where the code keeps less than one might expect

Each of these is kept as the code has it, with the exact condition proved.

- A field value reads back as itself, up to int becoming int32, exactly when every length written is in range
  (below 2^31 for strings, octet strings and tables, below 2^32 for arrays), every key has fewer than 256
  octets, every int fits int32 and every time is in whole seconds (`FieldValues.FieldRoundTripIff`). The same
  goes for frames and their short strings (`FrameValues.FrameRoundTripIff`). Keys and short strings that are
  longer come back cut, ints wrapped, times without their part of a second.
- `readArray` takes any EOF as the end of the array. Octets cut short are accepted exactly at the cuts of
  `FieldLimits.QuietElems`, not only between elements: behind a tag, a length or a decimal's scale the element
  cut is dropped, and behind a nested array's size that array stays, shortened
  (`FieldLimits.CutArrayAcceptedIff`). EOF never falls inside an element that was written in full
  (`FieldCodec.ElemsRoundTrip`).
- Two runs of bits in one method would share the variable that collects them, so true bits leak into the
  later run. The codec is faithful exactly for schemas whose bits are contiguous
  (`Schema.CodecFaithfulIffBitsContiguous`); all 64 methods are (`Methods.EveryMethodFaithful`).
- A client may negotiate any positive frame size. The splitting loop gets through a non-empty body exactly
  when the size exceeds 8 (`Content.SendEndsIff`); at 8 it writes empty body frames for ever, under the lock,
  and below 8 it panics behind the header (`Content.StuckRounds`).
- Heartbeats inside content are tolerated only on the content's own channel, while clients send them on
  channel 0 (`Content.ReassemblyIff`).
- A send that fails midway releases the lock with a partial group written. A client then loses nothing until
  another frame comes on that channel, which ends the connection; exactly what it misses is in
  `ClientReader.ClientMissesNothingIff`.
- With one Confirm.Select on a channel, a failed publish is never confirmed, and any other can be as long as its
  upstream's listener goes on (`Confirms.ConfirmableIff`). A failed publish's entry stays until another publish
  to that upstream takes it over (`Confirms.LostExactly`).
- A second Confirm.Select restarts the numbering, from then on behind the client's
  (`Reselect.CountersAgreeIff`), and leaves the first one's entries and listeners in place. The listeners of a
  Confirm.Select can come to confirm its tag k exactly when none of its later publishes was recorded under the
  same number and the listener goes on (`Reselect.ConfirmableIff`); without further publishes, when that number
  has also been used up (`Reselect.SettledConfirmableIff`). So a failed publish is confirmed to the client
  exactly when a publish of a later Confirm.Select was accepted under its number
  (`Reselect.FailedConfirmableIff`, with an example in `Reselect.FailedPublishConfirmed`), and a tag reaches the
  client twice exactly when two Confirm.Selects can each confirm theirs (`Reselect.ConfirmedTwiceIff`).
- A multiple ack or nack reaches one upstream only. It settles what the protocol says exactly when no
  smaller unsettled tag belongs to another upstream (`Deliveries.MultipleIsStandardIff`), and tag 0 settles
  upstream 0's deliveries alone (`Deliveries.ZeroSettlesFirstUpstream`).
- Tag arithmetic is exact up to a bound on the upstream's tag (`Deliveries.RestoreInvertsTagIff`).

The repository's README differs from the code in two places, and the model follows the code. README.md:253-259
says patterns are equivalent to RabbitMQ topic patterns; the guard in `Match` changes the answer for exactly
the keys and patterns in `Topics.GuardExactEffect`. It also says the first matching upstream is used at
once; `GetChannelWithIndex` (publishing) does that, `GetChannel` keeps the last match, and the two agree
exactly when no two upstreams match (`Routing.LookupsAgreeIff`).

## Conventions

Octets are `0 <= b < 256`. Go integers are bounded subset types; wrap-around, truncation to int32 and the
conversion of a uint64 size to int are written out. A Go string is the sequence of its octets; in `topics`
and `routing` one `char` stands for one octet. Errors are result values. The clock, dialing, broker answers
and the outcome of writes are parameters or steps. Ghost out-parameters of the writers name the layout that
was chosen; history fields in the run states are ordinary data that no step's guard reads.

## Model

| member | source | states |
|---|---|---|
| Octets.ShortRoundTrip | amqp091/write.go:283-297 | Any string written as a short string reads back cut to its first 255 octets, with the octets after it untouched |
| Octets.LongRoundTrip | amqp091/read.go:106-122 | A long string, of which the writer keeps its length modulo 2^32, reads back if and only if it is shorter than 2^31 octets |
| Octets.Wrap32Exact | amqp091/write.go:332-451 | A Go int written as int32 keeps its value if and only if it is in the int32 range |
| FieldCodec.FieldRoundTrip | amqp091/write.go:332-451 | For every nested value, every order of every table in it and every suffix, reading the written octets gives the normalised value and leaves exactly the suffix |
| FieldCodec.ElemsRoundTrip | amqp091/read.go:294-317 | The array loop reads every element that was written and meets EOF only after the last one |
| FieldCodec.TableRoundTrip | amqp091/read.go:264-292 | A written table reads back as the map of its normalised entries, leaving the suffix |
| FieldValues.AnyOrderRoundTripIff | amqp091/write.go:455-472 | Written in any map order, a supported value reads back as one normalised value that does not depend on the order, leaving the suffix, if and only if its lengths are in range and its keys fit short strings |
| FieldValues.ReadIsReadable | amqp091/read.go:159-317 | On any octets a value read has short keys, no unsized int, whole seconds and lengths in range at every depth, and takes no more octets than were read |
| FieldValues.FieldRoundTripIff | amqp091/read.go:159-254 | Written in any map order, a supported value reads back as itself up to int becoming int32, leaving the suffix, if and only if its lengths are in range, its keys short, its ints in the int32 range and its times in whole seconds |
| FieldValues.SmallIsWellSized | amqp091/write.go:332-451 | Every value with short keys that takes fewer than 2^31 octets has all its lengths in range |
| FieldLimits.ParseFieldProgress | amqp091/read.go:159-254 | On any octets the parser leaves a suffix of its input, and a field it returns used at least one octet |
| FieldLimits.CutArrayAcceptedIff | amqp091/read.go:294-317 | For every array and every point at which its octets stop, or at which a size that is too small cuts them, it is accepted if and only if that is a quiet cut, and then it reads as the elements before the cut and what a nested array cut keeps; otherwise the unexpected end is reported; octets behind the size are left alone |
| Writers.WriteField | amqp091/write.go:332-451 | Succeeds exactly on values of supported types and then appends the octets, by number, of the value in one order of its tables; a failure only extends the buffer |
| Writers.WriteArray | amqp091/write.go:397-416 | Appends tag, length and the elements' encodings when every element is supported, and nothing otherwise |
| Writers.WriteTable | amqp091/write.go:455-472 | Appends the long string of the entries in some order of the map when every value is supported, and nothing otherwise |
| Writers.Buffer.WriteShort | amqp091/write.go:283-297 | Appends the short-string encoding |
| Writers.Buffer.WriteLong | amqp091/write.go:299-313 | Appends the long-string encoding |
| Readers.Source.ReadShort | amqp091/read.go:93-104 | Result and remaining octets are those of the short-string parser, on every input |
| Readers.Source.ReadLong | amqp091/read.go:106-122 | Result and remaining octets are those of the long-string parser, refusing 2^31 octets or more |
| Readers.Source.ReadField | amqp091/read.go:159-254 | Result and remaining octets are those of the field parser on every input; the position only moves forward |
| Readers.Source.ReadTable | amqp091/read.go:264-292 | Draining the nested buffer into a map computes the table parser |
| Readers.Source.ReadArray | amqp091/read.go:294-317 | Looping over the limited reader and appending computes the array parser |
| WireOctets.FieldOctetsIff | amqp091/write.go:332-451 | The octets of a value in a given order of its tables are, and only are: its type's octet by number, then integers and lengths big-endian by place value, strings behind their lengths, elements and entries one after another |
| WireOctets.OctetsRead | amqp091/read.go:159-254 | Any octets of that description, with lengths in range, read as the normalised value, leaving the suffix |
| WireOctets.FirstOctetDecides | amqp091/read.go:159-254 | On any octets a value that is read has the type its first octet names, and one that is none of the fifteen is refused |
| WireOctets.OversizedCount | amqp091/read.go:106-122 | Behind a count of 2^31 or more a string or table is empty and nothing is read, and an octet string makes the reader panic |
| WireOctets.LastEntryWins | amqp091/read.go:264-292 | Of several entries of one key the last is read |
| WireOctets.BrokenTableRefused | amqp091/read.go:264-292 | A table that goes on behind its entries with something that is no entry is refused with that error, and the reader is behind the table |
| WireOctets.BrokenArray | amqp091/read.go:294-317 | An array that goes on behind its elements with something that is no field ends there on an EOF and is refused on any other error |
| Fieldsets.FindDomain | spec/gen.go:431-439 | Returns the domain the field resolves to |
| Fieldsets.DomainFromFinds | spec/gen.go:431-439 | A declared name resolves to a domain of that name; any other name resolves to the last domain, without an error |
| Fieldsets.Fieldsets | spec/gen.go:378-409 | Fails exactly when some field has no native type; otherwise returns the grouping of the typed fields |
| Fieldsets.Compact | spec/gen.go:395-407 | Compacting single-field runs in place leaves the grouping in the array's front |
| Fieldsets.GroupIsMaximalPartition | spec/gen.go:377-409 | The runs are non-empty, each of one type, no two neighbours alike, and laid end to end they are the input |
| Fieldsets.MaximalRunsUnique | spec/gen.go:377-409 | No other list of maximal runs lays out to the same fields |
| Schema.CodecFaithfulIffBitsContiguous | spec/gen.go:254-349 | The codec compiled from a field list restores all arguments of every kind if and only if no other field stands between two of its bits |
| Arguments.RunsRoundTrip | spec/gen.go:264-349 | For every schema and all arguments, decoding the encoding gives the arguments with each bit smeared by true bits at its offset in earlier runs, and leaves the suffix |
| Arguments.SetBitsHas | spec/gen.go:264-269 | After a bit run is packed, a bit is set exactly when it was set before or its argument is true |
| Arguments.FaithfulIffOneBitRun | spec/gen.go:211-221 | A codec restores all arguments if and only if it has at most one run of bits |
| Methods.DispatchIffID | amqp091/spec091.go:2801-3382 | The dispatch on a class and method number gives a method if and only if that method is written with these numbers |
| Methods.MethodBitRuns | spec/amqp0-9-1.stripped.extended.xml:70-541 | The fields of every method group into at most one run of bits, and no run of bits is longer than eight |
| Methods.EveryMethodFaithful | amqp091/spec091.go:66-2800 | Every method's codec, compiled from its fields by the grouping, restores all its arguments |
| Generated.GeneratedIsCompiled | amqp091/spec091.go:66-2800 | For all 64 methods the runs the repository's generated code handles are what the grouping makes of the specification's fields, its numbers are those dispatched on, and content follows methods 40, 50, 60 and 71 of class 60 |
| Generated.GroupOfExpanded | spec/gen.go:378-409 | Grouping any maximal runs laid end to end gives these runs |
| MethodIO.PackBits | amqp091/spec091.go:845-888 | A bit of the octet is set exactly when it was set before or its argument is true, at every offset |
| MethodIO.WriteRuns | amqp091/spec091.go:66-2800 | Writing run by run appends the schema's encoding and succeeds exactly when all tables hold supported values |
| MethodIO.ReadRuns | amqp091/spec091.go:66-2800 | Reading run by run computes the schema's decoder on every input |
| Headers.MaskRoundTrip | amqp091/write.go:105-145 | Every 14-bit mask reads back from its two octets |
| Headers.PropsRoundTrip | amqp091/read.go:324-419 | Any subset of the properties reads back as it was written, absent ones as zero values, leaving the suffix |
| Headers.AnnouncedRead | amqp091/read.go:324-419 | Under any mask with a message's flags, also one with reserved1 or unused bits, the announced properties are read and reserved1 from behind them |
| Frames.MethodRoundTrip | amqp091/read.go:46-91 | A method frame's payload reads back as the method with its normalised arguments |
| Frames.HeaderRoundTrip | amqp091/read.go:324-419 | A header frame's payload reads back with class, weight, size and properties |
| Frames.FrameRoundTrip | amqp091/read.go:46-91 | Every frame in range reads back normalised, with short strings cut to 255 octets and tables as their values read, and nothing after it is touched |
| FrameValues.ReadFrameReadable | amqp091/read.go:46-91 | On any octets a frame read has short strings below 256 octets, readable tables and whole seconds |
| FrameValues.FrameRoundTripIff | amqp091/read.go:46-91 | Written in any map order, a supported frame reads back as itself up to int becoming int32, leaving the suffix, if and only if its lengths are in range, its short strings below 256 octets, its tables lose nothing, its timestamp is in whole seconds and reserved1 is empty |
| Frames.BodyFrameRoundTripIff | amqp091/read.go:421-432 | A body frame reads back if and only if its size fits the size field |
| Frames.StreamRoundTrip | amqp091/read.go:46-91 | For any list of frames, reading the concatenated writes gives the same frames, normalised, in order and then EOF with nothing left |
| FrameOctets.OnWireIff | amqp091/write.go:228-281 | The octets of a frame are, and only are: type 1, 2, 3 or 8, channel, payload size modulo 2^32, payload, 206; a method's payload is its numbers and arguments with neighbouring bits in one octet, a header's its class, weight, size, the sum of its properties' flags and these properties in order |
| FrameOctets.PropsOctetsIff | amqp091/write.go:105-215 | The flags of the properties present add up, 0x8000 for the content type down to 8 for the app id, and behind them come these properties in that order |
| FrameOctets.ArgsOctetsIff | spec/gen.go:211-221 | For any schema with at most one run of bits the encoder's octets are one argument after another, bits that stand together as one octet in which each is worth twice the one before |
| FrameOctets.OnWireReads | amqp091/read.go:46-91 | Any octets of that description, in range, read as the frame, normalised, leaving the suffix |
| FrameOctets.SkipCutsFrames | amqp091/write.go:228-281 | A reader that only skips 7, the size and 1 octets cuts written frames into exactly these frames, when no payload reaches 2^32 octets |
| FrameOctets.SettlementsWritten | amqp091/spec091.go:66-2800 | Basic.Ack, Basic.Reject and Basic.Nack octet for octet, for every tag and flag |
| FrameRefusals.ReadFrameForm | amqp091/read.go:46-91 | Whatever octets a frame is read from: the type and channel are in front, a method's or header's numbers behind the size, a body has exactly its size, a heartbeat nothing, and 206 stands before what is left |
| FrameRefusals.UnknownTypeRefused | amqp091/read.go:46-91 | Any other type is refused behind the prefix |
| FrameRefusals.BodyAcceptedIff | amqp091/read.go:421-432 | A body frame is accepted if and only if the octets its size counts are there and 206 follows |
| FrameRefusals.HeartbeatAcceptedIff | amqp091/read.go:434-446 | A heartbeat is accepted if and only if its size is 0 and 206 follows |
| FrameIO.WriteFrame | amqp091/write.go:228-248 | Appends prefix, payload and end octet |
| FrameIO.WriteFrameBuffer | amqp091/write.go:252-281 | Appends the same octets as writeFrame on the buffer's contents |
| Headers.MaskUpToHas | amqp091/write.go:105-145 | A mask built flag by flag has exactly the flags whose properties are present |
| FrameIO.BuildMask | amqp091/write.go:105-145 | The mask has the flag of every property that will be written, of no other, and never that of reserved1 |
| FrameIO.WriteProps | amqp091/write.go:147-215 | The second pass writes the mask and the properties it names, in order |
| FrameIO.WriteMethod | amqp091/write.go:45-69 | Class, method number and arguments, when all tables are supported |
| FrameIO.WriteHeader | amqp091/write.go:85-218 | Class, weight, size and properties, when the headers are supported |
| FrameIO.Write | amqp091/write.go:45-226 | Appends the frame's octets, by number, exactly when all its values are supported, and nothing otherwise |
| FrameIO.WrittenFrameReads | amqp091/read.go:46-91 | Whatever order the tables were written in, the frame reads back as one normalised frame, leaving the suffix |
| FrameIO.ReadProperties | amqp091/read.go:324-419 | Reading the mask and then each property it names computes the properties parser |
| FrameIO.ReadFrame | amqp091/read.go:46-91 | Result and remaining octets are those of the frame parser on every input, errors included |
| Content.SendBody | proxy.go:706-720 | With a size above 8 the loop ends and writes one body frame per part of the split |
| Content.Send | proxy.go:678-732 | Writes the message's whole group: the method, and for content the header and all parts |
| Content.SplitExact | proxy.go:704-720 | The parts make up the body in order, none is empty, each fits the frame size with its overhead, and there are exactly ceil(len/(frameMax-8)) |
| Content.GroupForm | proxy.go:678-732 | The group is the method, for content a header of class 60 and weight 0 with the body's length, and body frames that add up to the body, of which all but the last fill the frame size exactly |
| Content.SendRounds | proxy.go:706-720 | Under any frame size, after any number of rounds the loop is at the offset and has written the frames, or has panicked, as the round functions say |
| Content.SendEndsIff | proxy.go:431-436 | Under a negotiated frame size these rounds get through the body if and only if the size exceeds 8 or the body is empty |
| Content.StuckRounds | proxy.go:706-720 | At a size of 8 every round writes an empty body frame and stays where it is; below 8 the first round panics |
| Content.ReceiveMessage | proxy.go:734-789 | The loop over frames computes the declared reassembly on every list of frames |
| Content.ReassemblyIff | proxy.go:734-789 | Fed a message's content frames among heartbeats, it returns the identical message and leaves the frames after it if and only if all these heartbeats are on its channel |
| Receive.ReceiveExact | proxy.go:734-789 | On any frames the loop ends at the first one at which it does not go on, with the last method's arguments, the last header's properties and all body octets, and leaves the frames after it |
| Receive.ReceivedIff | proxy.go:734-789 | A message is received if and only if the first frame at which the loop ends gives it |
| Receive.MethodReceived | proxy.go:775-780 | Behind heartbeats a method without content is received with the arguments of its frame, empty properties and body; another channel or method fails |
| Receive.ContentMethodReplaces | proxy.go:775-780 | For a method with content its method frame replaces the arguments and the loop goes on; another method fails |
| EndToEnd.WriteFrames | amqp091/write.go:45-226 | Writing frames one after another appends their encodings up to the first one with an unsupported value |
| EndToEnd.WrittenFramesRead | amqp091/read.go:46-91 | The octets of written frames read back as these frames normalised, in order, up to the last octet |
| EndToEnd.MessageRoundTrip | proxy.go:678-789 | A content message written as octets frame by frame is read and put together again as the normalised message, with no octet left |
| SharedWriter.MutualExclusion | proxy.go:678-682 | In every interleaving of locking, writing and unlocking goroutines no two are writing |
| SharedWriter.LockedIffWriting | proxy.go:678-682 | In every interleaving the lock is taken if and only if a goroutine is writing, and otherwise each one with something to send can lock |
| SharedWriter.LockComesFreeIff | proxy.go:678-732 | From every reachable state the lock can come free without a cut if and only if no item the splitting loop does not get through is under way |
| SharedWriter.CutFreesLock | proxy.go:679-702 | From every reachable state a send that fails frees the lock |
| SharedWriter.StreamIsTurns | proxy.go:678-732 | In every interleaving the stream is the parts the lock holders wrote, in the order of the lock, so frames of two groups never mix |
| SharedWriter.StuckIsLoop | proxy.go:678-732 | What an item whose body the loop does not get through writes under the lock is its method, its header and the frames of that loop |
| SharedWriter.TurnsWhole | proxy.go:487-503 | While no group was cut short, every turn but the one under way wrote its whole group |
| SharedWriter.ItemsConserved | proxy.go:678-732 | No goroutine's send is skipped, repeated or reordered |
| ClientReader.ClientReadsWhatWasSent | proxy.go:678-732 | While no group was cut short, at any time, a client that takes the channels apart has exactly the messages of the whole groups, in the order of the lock |
| ClientReader.ClientFailsIff | proxy.go:678-732 | In every interleaving the client meets a frame out of place if and only if a group reached a channel on which an earlier one had been cut short after its first frame |
| ClientReader.ClientMissesNothingIff | proxy.go:684-693 | In every interleaving the client has the messages of all whole groups before the first such clash, and so misses nothing if and only if no whole group is at or after it |
| Confirms.ConfirmState.RecordPublish | confirm.go:37-43 | Adds the entry under the next client tag, wrapping like a uint64, and returns the tag |
| Confirms.ConfirmState.LookupClientTag | confirm.go:47-56 | Returns and removes the entry, or reports it missing and changes nothing |
| Confirms.StepInv | methods.go:93-125 | Every step of every goroutine keeps the ledger, map and log invariant |
| Confirms.NeverUnknown | confirm.go:106-118 | In every run every upstream confirmation finds its entry |
| Confirms.ConfirmationIsItsOwn | confirm.go:106-140 | Every ack or nack the client gets carries the tag of one of its own publishes, through the upstream that publish went to, with the ack or nack that upstream's broker gave for it in the steps of the run |
| Confirms.ConfirmedOnceInOrder | confirm.go:106-140 | No client tag is confirmed twice, and those confirmed through one upstream go up strictly |
| Confirms.TagsPartitioned | confirm.go:37-56 | Pending, confirmed and lost tags partition 1..clientTag, the map is injective, and a lost tag's publish failed |
| Confirms.LostExactly | methods.go:92-98 | The entry of a client tag was overwritten if and only if its publish failed and another publish to the same upstream came after |
| Confirms.ConfirmableIff | methods.go:92-125 | With one Confirm.Select, from every reachable state: a run can go on, or has gone, to confirm a client tag if and only if its publish has not failed and its upstream's listener had not stopped before |
| Confirms.LookedUpIsReceived | confirm.go:106-140 | The tags looked up are exactly those the client has received and those a listener has in hand |
| Confirms.DrainedIffAllConfirmed | confirm.go:37-56 | The map is empty if and only if nothing is being published, every accepted publish was looked up and every failed one was followed by another to its upstream |
| Confirms.ClientTagIsTotal | methods.go:93-125 | The counter is the sum of what the upstreams accepted, the failed publishes and the one under way |
| Reselect.CountersAgreeIff | confirm.go:78-104 | The proxy's numbering agrees with the client's if and only if no Confirm.Select followed a counted publish, and is behind otherwise |
| Reselect.NewestCounts | confirm.go:78-104 | In every run with any Confirm.Selects, publishes before the first one and failed publishes, that numbering is the counter of the confirmState in use |
| Reselect.ConfirmableIff | confirm.go:87-140 | From every reachable state: the listeners of Confirm.Select g can come to confirm its tag k, or have, if and only if no later publish of g was recorded under its key and its listener has confirmed it or goes on |
| Reselect.SettledConfirmableIff | confirm.go:106-140 | With no publish and no Confirm.Select to come, they can if and only if, besides, the number it was recorded under has been used up |
| Reselect.FailedConfirmableIff | methods.go:92-125 | With none to come, a failed publish can be confirmed if and only if it is still the last of its Confirm.Select under its number, its listener goes on and a publish of a later Confirm.Select was accepted under that number; any other publish if and only if its listener goes on |
| Reselect.ConfirmedTwiceIff | confirm.go:87-99 | From every reachable state, with none to come, a client tag can reach the client twice, or has, if and only if two Confirm.Selects can each confirm the tag of that number |
| Deliveries.RestoreInvertsTagIff | delivery.go:28-34 | Restoring a rewritten tag gives the upstream and its tag if and only if s <= (2^64-1-i)/n |
| Deliveries.HeldTags | delivery.go:28-39 | Each unsettled delivery is held by the client under one tag, which restores to it and to no other |
| Deliveries.ClientAccountExact | methods.go:177-276 | In every run the tags the client holds by its own account are exactly the images of the upstreams' unsettled deliveries |
| Deliveries.SettleExact | methods.go:254-276 | Settling a held tag settles exactly it, or for a multiple exactly the held tags up to it with the same residue, and touches no other upstream |
| Deliveries.MultipleIsStandardIff | methods.go:254-276 | A multiple settles all held tags up to the given one if and only if none of them is another upstream's |
| Deliveries.ZeroSettlesFirstUpstream | methods.go:254-276 | A multiple on tag 0 empties upstream 0 and leaves the others alone |
| Channels.Upstream.NewChannel | upstream.go:107-121 | Adds the channel, or fails on a known id or a failed open and changes nothing |
| Channels.Upstream.CloseChannel | upstream.go:133-146 | Removes the id unless its channel fails to close; an unknown id is no error |
| Channels.Proxy.NewChannel | proxy.go:184-191 | Opens on each upstream in turn up to the first failure |
| Channels.Proxy.CloseChannel | proxy.go:193-200 | Closes on each upstream in turn up to the first failure |
| Channels.Proxy.GetChannels | proxy.go:115-125 | Succeeds exactly when every upstream has the id, with the upstreams' own channels in order |
| Channels.Proxy.GetChannelByDeliveryTag | delivery.go:41-51 | The channel of the upstream the tag belongs to, if every upstream has the id |
| Channels.Proxy.Handle | proxy.go:599-658 | Open, close and Confirm.Select do to the maps and confirm states what their handlers do, with the right kind of outcome |
| Channels.Proxy.Run | server.go:593-617 | The loop handles commands in order until one ends the connection |
| Channels.NewFromAll | proxy.go:184-191 | Opening succeeds if and only if no upstream knows the id and all open; then every map gains it and nothing else; otherwise exactly the upstreams before the first that fails have it |
| Channels.CloseFromAll | proxy.go:193-200 | Closing succeeds if and only if every known channel closes; then every map loses the id and nothing else; otherwise exactly the upstreams before the first that fails have lost it |
| Channels.LockstepAtLoopHead | server.go:593-617 | Whenever the loop goes on, all upstreams hold exactly the ids the client opened and did not close, and confirm states exist only for these |
| Channels.ConfirmsAtLoopHead | confirm.go:78-104 | Whenever the loop goes on, a channel has a confirm state if and only if a Confirm.Select of it was accepted by all upstreams and no close of it came after |
| Channels.HandledIff | proxy.go:599-658 | A command succeeds if and only if the client's open channels and the upstreams' answers allow it, and gives an AMQP error exactly for a Confirm.Select an upstream refuses |
| Channels.LoopGoesOnIff | server.go:593-617 | The loop goes on behind a command if and only if it succeeds or its AMQP error can be answered |
| Channels.HoldsAtLoopHead | proxy.go:184-191 | Whenever the loop goes on, an open id stands on every upstream for the channel its last Open got there |
| Channels.ChannelFoundIff | delivery.go:41-51 | Whenever the loop goes on, a delivery tag finds a channel if and only if the client has the channel open, and then the one its last Open got from upstream tag mod n: the index is never out of range |
| Channels.PartialIsFatal | methods.go:18-39 | An open or close after which the maps differ ends the loop |
| Channels.MisuseIsFatal | methods.go:18-29 | Opening an open id, or selecting confirms on one not open, ends the loop and changes nothing |
| Topics.SplitJoins | pattern/match.go:15-25 | Splitting gives separator-free words that join to the string |
| Topics.JoinSplits | pattern/match.go:15-25 | Any separator-free words are what splitting their join gives |
| Topics.SplitLengthIffContains | pattern/match.go:15-25 | More than one word if and only if the separator occurs, so the Contains test adds nothing |
| Topics.PercentMatcherCorrect | pattern/match.go:84-124 | The backtracking matcher accepts a text if and only if some fillings woven between the pattern's literals give it, from any two indices |
| Topics.WordMatcherCorrect | pattern/match.go:28-80 | The backtracking matcher accepts if and only if the key's words divide into consecutive segments, one accepted by each pattern word, from any two indices |
| Topics.MatchIffTopicUnguarded | pattern/match.go:15-25 | Match is the topic relation outside the guard and false inside it |
| Topics.GuardExactEffect | pattern/match.go:15-25 | Match and the topic relation differ if and only if a single-word key meets a pattern of several words that are all # but at most one, which accepts the key |
| Routing.GetChannelWithIndex | proxy.go:146-160 | The least upstream with a matching pattern, 0 when none has one, and that upstream's own channel for the id |
| Routing.GetChannelIndex | proxy.go:127-144 | The greatest upstream with a matching pattern, 0 when none has one |
| Routing.LookupsAgreeIff | proxy.go:127-160 | The two lookups agree if and only if no two upstreams match the key |
| Health.NodeStatus.MarkHealthy | health/health.go:83-90 | Healthy, both clocks set, no failures |
| Health.NodeStatus.MarkUnhealthy | health/health.go:92-98 | Unhealthy, one failure more, clock set |
| Health.NodeStatus.AddFail | health/health.go:100-105 | One failure more, clock set, status kept |
| Health.NodeStatus.CheckNode | health/health.go:324-396 | One probe of the machine, skipped exactly inside an unhealthy node's recovery interval |
| Health.StatusExact | health/health.go:324-396 | Over every history: unhealthy if and only if never up or the threshold failed in a row, and healthy otherwise; the counter is a function of the failures in a row, in which a failure at the threshold counts twice |
| Health.ClocksExact | health/health.go:83-105 | Over every history the last success is the clock of the last dial that succeeded, and the last check that of the last dial |
| Health.RedialAfterRecovery | health/health.go:333-344 | An unhealthy node is dialed again no sooner than the recovery interval after its last check |
| Health.SkippedUntilRecovery | health/health.go:333-344 | However many probes come inside an unhealthy node's recovery interval, none dials or changes it, and the first one after the interval dials |
| Health.GetHealthyNodes | health/health.go:235-259 | The healthy and unknown nodes, each once, or all nodes when there are none |
| Health.GetHealthSummary | health/health.go:399-412 | The number of usable nodes and of the others |
| Auth.ParseAMQPLAIN | amqp091/auth.go:16-42 | The loop ends on every input with the scan's decision; a login has a user and a password |
| Auth.ScanReadsEntries | amqp091/auth.go:16-42 | Written entries are scanned as the last LOGIN string and the last PASSWORD string, and the scan goes on behind them |
| Auth.LoginRoundTrip | amqp091/auth.go:16-42 | A non-empty LOGIN and PASSWORD, each written once, in any order among any other entries and with anything but an entry behind, are read back |
| Auth.LiteralLogin | amqp091/auth.go:16-42 | Octet for octet: a user behind "LOGIN" and a password behind "PASSWORD", of any length, in either order, are the login, unless one is empty |
| Auth.PlainExact | amqp091/auth.go:8-14 | A PLAIN response gives a user and password if and only if it is an identity, the user and the password separated by zero octets, the first two without zero octets |

## Left out

- Sockets, deadlines, contexts, timers, TLS and dialing; a write that fails ends a lock holder's turn (`Cut`) or a confirm listener (`StopStep`) and is not retried.
- The rabbitmq client library: an upstream is an environment that numbers accepted publishes 1, 2, 3, ... and confirms each once and in order, to every listener registered by then.
- The HTTP API, its client, the command line, the terminal UI, metrics, log and probe buffers, configuration loading and config reload.
- `bufferPool` and `bufio`: a writer is an append-only list of octets, and nothing is said about flushing (an empty body never reaches the flushing write).
- Fields of domain timestamp in methods: the generated encoder would call a function that does not exist; no method has one.
- Read errors other than the two EOF kinds, such as timeouts in the middle of a frame, and the difference between nil and empty slices and maps.
- Floats and doubles in field values are their bit patterns; times are seconds and nanoseconds, without zones.
- The error of writing a method frame without a method, which a typed frame cannot be.
- Header tables that come from the rabbitmq library have another type than the field writer accepts; values here are of the writer's own types.
- Queue attributes and auto-delete emulation, exchange and queue methods on upstreams, consumer bookkeeping, cluster scheduling and `sortNodesByLeastConnections`, whose comparator is random on ties.
- Properties copied on publish; priority is not copied by the code.
- Content.Send: requires a message whose splitting loop ends; the others are in Content.SendRounds and in the runs of SharedWriter.
- Confirms.RunInv: runs hold fewer than 2^64 publishes per Confirm.Select, the range in which the counter does not wrap.
- Deliveries.ClientAccountExact: an upstream delivers only while its tag is within the bound of Deliveries.RestoreInvertsTagIff, and a client settles tags it holds or, with multiple, tag 0; a broker closes the channel on any other.
- A Confirm.Select that fails on some upstream: the confirmState it made is never used.
- The client of ClientReader is a reader by the AMQP 0-9-1 specification, not code of the repository.
- Health.RedialAfterRecovery: assumes that the clock did not go back between the two updates of the last dial.
- The XML of the specification: the types of each method's fields are listed in `methods`, domains resolved.
- Routing.GetChannelIndex: gives the upstream GetChannel settles on; fetching the channel from it is as in Routing.GetChannelWithIndex.
