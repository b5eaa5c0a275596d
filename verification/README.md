# A model of the moq-go relay

moq-go is a Media over QUIC relay for draft-ietf-moq-transport-22. This project models the parts of it where a
mistake would be silent: what the relay asserts about Objects it does not hold, and when it tells a subscriber
that a Subgroup is complete. Section numbers below are those of the draft.

`dafny verify dfyconfig.toml` checks everything. All numbers are unbounded in Dafny, so `Uint64` gives 64-bit
numbers as a subset type and `Wrap` writes the wrap-around of the original's arithmetic out.

## The parts

**FETCH** (`Locations`, `FetchRanges`, `FetchMeaning`, `FetchElements`, `FetchAnswer`, `FetchStitch`, `FetchClash`,
`FetchHop`, `Varint`, `FetchWire`, `FetchDecode`, `FetchRelay`). A gap in a FETCH response asserts that the Objects
in it do not exist. `FetchMeaning` gives a response a meaning: for every Location, whether the response says that
an Object is there, that none is, that it is unknown, or that it timed out. Everything else is stated against that
meaning. Building the elements of a response keeps it, merging End of Range markers keeps it, and reading a
response computes it exactly; `FetchDecode` says what any list of objects on a stream stands for, and which do not
decode. `FetchStitch.StitchedFetchObjects` says what the relay answers from its stores and one upstream,
`FetchRelay.RelayHop` carries an answer through bytes across one hop, and `FetchRelay.TwoRelays` puts the two
together: the second relay takes an Object as not existing only where the first had a signal that says so and no
Object in hand, expired or not, and every unknown or timed out mark reaches it.

**Subgroup fanout** (`SubgroupWriter`, `SubgroupStreams`, `SubgroupGate`, `SubgroupLosses`, `SubgroupSet`,
`Fanout`, `FanoutWriters`, `FanoutReads`, `FanoutOnce`, `FanoutEnds`, `FanoutLateWriter`). Several inbound streams
feed one Subgroup, and every subscriber has a writer with a bounded queue. The steps of the machine in `Fanout` are
what the relay makes atomic under its locks, and a run is any interleaving of them. `FanoutWriters.SubscriberFin`
is the end-to-end result: what a FIN a subscriber sees means. `SubgroupWriterObject` and `SubgroupSetObject` hold
the same operations as classes with the relay's own fields, updated in place, each method proved to do what the
step does to the state the fields stand for.

**Recycled queues** (`InboxPool`), **sessions to other relays** (`UpstreamPool`) and **datagrams**
(`DatagramWriter`) are machines of the same kind. Their classes (`InboxPoolObject`, `UpstreamPoolObject`,
`DatagramWriterObject`) carry the run they have made as ghost state, so what is proved of every run holds of every
object.

**Range Filters and REQUEST_UPDATE** (`RangeFilterCodec`, `RangeFilterSets`, `RequestUpdate`), **message parameters**
(`LocationFilters`, `Params`), **the choice among upstream errors** (`CandidateErrors`) and **the latency histogram**
(`Histogram`) each have one module or a few.

## Where the original does not do what one would expect

- A response read in descending order whose End Location falls short of the span can mark one Location both
  unknown and timed out. `FetchClash.ClashHappens` gives such a response, `FetchClash.ClashIsRefused` shows that the
  relay then sends two elements at one Location, which the next relay refuses, `FetchClash.StitchClash` that stitching
  that request does send them, and `FetchStitch.AnswerDisjointExact`
  says exactly when it happens. What is proved of a stitched answer is proved but for this shape.
- `isNextObject` adds one to an Object ID without checking for 2^64-1, so an Object 0 can be written on a stream
  after an Object 2^64-1, and no reader can resolve that stream. `SubgroupWriter.WrapHappens` gives the run, and
  `SubgroupWriter.WriteExact` says exactly when a write does this.
- A writer opened with its set counts as open from the start, so an Object whose header was read before that
  writer was opened is offered to it too. `FanoutLateWriter.LateWriterIsOffered` gives such a run, and
  `FanoutWriters.JoinerCutOff` says exactly when an Object goes to a writer that was not open at its header.

## What is taken as given

- The ledger of delivered Objects calls one redundant only if it was claimed before or announced absent, and calls
  any other fresh or too old. A contributor ends cleanly only after reading every existing Object it vouches for.
- Verdicts of a subscription on an Object, the transport's and the clock's doing (lag, expiry, a failed write, a
  failed open), an upstream's response and the failure of a dial are arbitrary.
- The relay serves a dialled session until that session ends, and no longer: the eviction of a pool entry when the
  session's handler returns is the eviction of an entry whose session is over.
- Property blobs reach the model parsed: a parameter function gives the Prior Gaps in them, or says whether the
  decoder accepts them.

## Model

| member | source | states |
|---|---|---|
| Locations.PositionOrders | pkg/relay/fetch_ranges.go:170-175 | stream order is a total order in both group orders, antisymmetric, equal only on equal Locations, and in ascending order it is Location order |
| Locations.SuccessorIsNext | pkg/relay/fetch_ranges.go:32-40 | nothing lies between a Location and its successor, across group ends too, and exactly the last Location has none |
| Locations.PredecessorIsPrevious | pkg/relay/handler_fetch.go:719-728 | the predecessor inverts the successor, and exactly the first Location has none |
| FetchRanges.Uncovered | pkg/relay/fetch_ranges.go:44-69 | the result is exactly the Locations of the span outside the known set, as maximal runs in ascending order, for known ranges in any order and overlapping |
| FetchMeaning.PresentIffElement | pkg/moqt/message/fetch_object.go:11-77 | an ordered response says an Object is at a Location exactly when it has an Object element there |
| FetchMeaning.FirstDecides | pkg/moqt/message/fetch_object.go:11-77 | what a response says about a Location is decided by the first element at or after it in stream order |
| FetchElements.RunReachesEnd | pkg/relay/fetch_ranges.go:181-193 | from any Location of a range the response stays inside the range up to some end of one of its runs, in either order |
| FetchElements.RunEndsInRange | pkg/relay/fetch_ranges.go:181-193 | every end of a run is a Location of the range |
| FetchElements.MergeInPlace | pkg/relay/fetch_ranges.go:217-231 | the compaction within the slice leaves the merged list in its first elements |
| FetchElements.AppendMarkers | pkg/relay/fetch_ranges.go:205-214 | one marker of the right kind is added at each end of a run of each range |
| FetchElements.FetchElements | pkg/relay/fetch_ranges.go:198-231 | the whole computation gives the sorted and merged list the lemmas speak of |
| FetchElements.MergeKeepsMeaning | pkg/relay/fetch_ranges.go:217-231 | dropping a marker followed by one of its kind changes what the response says about no Location |
| FetchElements.MergeIsOrdered | pkg/relay/fetch_ranges.go:198-231 | the merged Locations strictly increase in stream order |
| FetchElements.MergeKeepsObjects | pkg/relay/fetch_ranges.go:217-231 | merging drops only markers, and adds nothing |
| FetchElements.UnmergedMarks | pkg/relay/fetch_ranges.go:177-216 | before merging, the first element at or after an unknown or timed out Location is a marker of its kind |
| FetchElements.ElementsSound | pkg/relay/fetch_ranges.go:168-231 | gap soundness: elements strictly increase, all Objects survive, unknown and timed out Locations keep their status, and an Object is claimed exactly where there is one |
| FetchAnswer.StreamCoveredExact | pkg/relay/handler_fetch.go:643-693 | the ranges are disjoint and hold exactly the Locations of the span after the previous element and up to the marker in stream order, in both orders |
| FetchAnswer.RefusedElem | pkg/relay/handler_fetch.go:631-641 | an element the loop refuses is one no acceptable response carries |
| FetchAnswer.EndLocationCaps | pkg/relay/handler_fetch.go:613-622 | after a FIN, what lies past the End Location is unknown, and nothing else becomes so |
| FetchAnswer.CutShort | pkg/relay/handler_fetch.go:558-568 | when the time runs out mid-read, everything not sent and not marked is timed out, so no Location of the span is left unclassified |
| FetchAnswer.ReadResponse | pkg/relay/handler_fetch.go:546-623 | the loop accepts a response exactly when its elements ascend inside the span and the End Location, and then returns exactly the ranges the response means and, one for one and in order, its Objects with their own Location, Subgroup, priority, Properties and payload |
| FetchAnswer.StitchedKeeps | pkg/relay/handler_fetch.go:584-609 | of a decoded response exactly the Objects are kept, in order, each field as received and the status that of an ordinary Object |
| FetchAnswer.CarriedExact | pkg/relay/handler_fetch.go:584-609 | an Object is among those kept exactly if the response has one that is no marker with the same fields |
| FetchStitch.KnownFromCache | pkg/relay/fetch_ranges.go:73-100 | the result is exactly the Locations cached Objects settle: their own, those their gaps say do not exist, and those past an end of group or track |
| FetchStitch.UnknownIn | pkg/relay/fetch_ranges.go:106-113 | the result is exactly the Locations of the range settled neither by cached Objects nor by the ranges given, as maximal runs |
| FetchStitch.TogetherServes | pkg/relay/fetch_ranges.go:158-166 | adding handed-over Objects to cached ones serves each Location of either once, the cached one first |
| FetchStitch.NotHeld | pkg/relay/fetch_ranges.go:126-129 | exactly the given Locations no Object is at |
| FetchStitch.DropHeldExact | pkg/relay/fetch_ranges.go:132-135 | exactly the given Locations no Object is at |
| FetchStitch.Intersect | pkg/relay/handler_fetch.go:383-401 | the result holds exactly the Locations both lists hold |
| FetchStitch.FetchUpstreamRange | pkg/relay/handler_fetch.go:457-624 | exactly which upstream outcomes are refused, give no answer, and give an answer; an answer is what the response means, its Objects field by field those received |
| FetchStitch.MergeAnswer | pkg/relay/handler_fetch.go:360-379 | cached Objects win over received ones, and a Location stays unknown or timed out only where no Object is served |
| FetchStitch.AnswerOverlap | pkg/relay/handler_fetch.go:613-622 | an answer marks a Location both unknown and timed out exactly past a FIN's End Location where the response says timed out |
| FetchStitch.AnswerMarks | pkg/relay/handler_fetch.go:546-623 | an answer marks unknown exactly what the response says is or its FIN does not reach, and timed out exactly what it says is or, out of time, leaves unsaid |
| FetchStitch.MergedClassified | pkg/relay/handler_fetch.go:360-379 | the Objects, unknown and timed out sets handed on are pairwise disjoint exactly if the answer does not mark a missing Location both ways |
| FetchStitch.AnswerCoversSpan | pkg/relay/handler_fetch.go:546-623 | every Location of an answered span has an Object, is unknown, timed out, or is absent by a clean and ordered response of the upstream |
| FetchStitch.Stitch | pkg/relay/handler_fetch.go:294-379 | the upstream is asked for the first missing Location to the last; refused exactly if it refuses the track; the Objects served are exactly the relay's own and the upstream's where it has none; exactly what the upstream leaves unknown is unknown, exactly what it leaves timed out or is still arriving is timed out, and any other missing Location is absent by its word; the sets are disjoint exactly if nothing clashes |
| FetchStitch.StitchedFetchObjects | pkg/relay/handler_fetch.go:294-379 | unless the response clashes, in either order and for any span: the answer is in stream order, holds exactly the Objects served, marks what is left unknown, timed out or still arriving, and says an Object does not exist only where a cached Object, the ledger or an accepted response says so |
| FetchStitch.CapConflictExact | pkg/relay/handler_fetch.go:613-622 | a Location past the End Location is marked timed out exactly in one shape of a descending response |
| FetchStitch.AnswerDisjointExact | pkg/relay/handler_fetch.go:546-623 | the unknown and timed out parts of an answer are disjoint exactly when that shape does not occur |
| FetchStitch.ClashIsCapConflict | pkg/relay/handler_fetch.go:613-622 | an answer clashes only through that shape |
| FetchClash.ClashHappens | pkg/relay/handler_fetch.go:546-623 | a concrete descending response the loop accepts, whose answer marks {5, 10} both ways |
| FetchClash.ClashIsRefused | pkg/relay/handler_fetch.go:360-379 | whatever the relay stitches of that response for that request, it sends two elements at {5, 10}, and no relay accepts that, whatever it asked for |
| FetchClash.StitchClash | pkg/relay/handler_fetch.go:294-379 | stitching that request sends two elements at {5, 10}, which no relay accepts |
| FetchHop.SentSound | pkg/relay/handler_fetch.go:751-800 | leaving out status Objects keeps every mark, and claims Objects exactly where an ordinary one is |
| FetchHop.AbsenceIsSignalled | pkg/relay/handler_fetch.go:294-379 | what is sent of a stitched answer says an Object does not exist only where a signal says so, and nowhere an ordinary Object is held |
| FetchHop.ReplacedMeaning | pkg/relay/handler_fetch.go:751-800 | replacing Objects by unknown markers leaves every mark, and turns presence and absence into unknown at most |
| FetchHop.ExpiryNeverInventsAbsence | pkg/relay/handler_fetch.go:751-909 | an Object that expires while being sent is never reported as not existing |
| FetchHop.ExpiredIsUnknown | pkg/relay/handler_fetch.go:751-909 | an Object that expires while being sent is reported as unknown |
| FetchHop.OutgoingSound | pkg/relay/handler_fetch.go:751-800 | whatever expires, marks survive, an Object is claimed exactly where an ordinary one did not expire, and absence only where it was said before |
| FetchHop.HopIsAccepted | pkg/relay/handler_fetch.go:631-641 | what is written is in order inside the range answered, so the next relay accepts it |
| FetchHop.HopIsSound | pkg/relay/handler_fetch.go:546-693 | across a hop, for any expiry and End Location: unknown and timed out sets are recovered, what expired and what lies past the End Location is unknown, the two are disjoint exactly if the End Location does not conflict, and absence is concluded only where the response said so |
| FetchHop.HopObjects | pkg/relay/handler_fetch.go:584-609 | the Objects received across a hop are exactly the ordinary ones that did not expire, each with the same Location, Subgroup, priority, Properties and payload |
| Varint.VarintRoundTrip | pkg/moqt/wire/varint.go:34-111 | every 64-bit number reads back from its leading-ones encoding, whatever follows it |
| Varint.BytesRoundTrip | pkg/moqt/wire/wire.go:111-135 | a length-prefixed field reads back, whatever follows it |
| FetchWire.FetchObjectRoundTrip | pkg/moqt/message/fetch_object.go:95-226 | every canonical object of a FETCH stream reads back, whatever follows it |
| FetchWire.ObjectTrip | pkg/moqt/session/datastream_in.go:402-535 | the decoder recovers an Object's Location, Subgroup, priority, Properties and payload from its deltas and flags, in either group order |
| FetchWire.MarkerTrip | pkg/moqt/session/datastream_in.go:402-535 | the decoder recovers a marker and keeps in step with the encoder |
| FetchWire.StreamFetchObjects | pkg/relay/handler_fetch.go:751-909 | a list strictly increasing in stream order is never refused, and what is written decodes to exactly the list meant: status Objects left out, expired ones as unknown markers; the count is of Objects written |
| FetchDecode.DecodeExact | pkg/moqt/session/datastream_in.go:402-535 | any list of objects decodes exactly if each resolves in turn: Group, Object and Subgroup from its own fields and the one before by the flag bits, the previous priority where it has none, markers of the three codes with neither, and no step past 2^64-1 or below 0 |
| FetchDecode.MalformedExact | pkg/moqt/session/datastream_in.go:402-535 | a list is malformed, rather than merely wrong, exactly if its first object that does not resolve does but for its Properties |
| FetchDecode.DecodedMeans | pkg/moqt/session/datastream_in.go:402-424 | a decoded list in stream order says an Object is somewhere exactly if an object that is no marker is there, and of the Locations a marker closes: 0x8C that none exists, 0x10C that it is unknown, 0x20C that it timed out |
| FetchDecode.ParseExact | pkg/moqt/message/fetch_object.go:95-226 | an object is read exactly if its flags are in use and the fields they name follow, in order |
| FetchWire.ParseAllAppended | pkg/moqt/message/fetch_object.go:95-226 | a whole stream of canonical objects parses back to its clean end |
| FetchRelay.Transfer | pkg/relay/handler_fetch.go:546-909 | an ordered list sent as bytes and read back means to the next relay what its elements say |
| FetchRelay.RelayHop | pkg/relay/handler_fetch.go:546-909 | relay-hop soundness through bytes, for any expiry and End Location: exactly the unexpired ordinary Objects, field by field, at least the unknown and timed out sets, expired Objects as unknown, and absence only where the response was a gap |
| FetchRelay.TwoRelays | pkg/relay/handler_fetch.go:294-909 | a FETCH across two relays: unless the first refuses or its upstream clashes, the second has exactly the unexpired Objects the first serves, field by field, every mark of the first, and expired Objects as unknown, and takes one as not existing only where the first had a signal that says so and no ordinary Object in hand |
| SubgroupWriter.FinMeansComplete | pkg/relay/handler_fanout.go:1077-1299 | in every run a stream ended by FIN means everything admitted was written in order, and everything declined was before the Start and not above an admitted Object |
| SubgroupWriter.LosslessStep | pkg/relay/handler_fanout.go:914-1049 | exactly overflow, expiry, a filter miss, a pause, the end of group or subscription, an aged-out drop, a failed open or write, lag and an inbound reset rule a FIN out, and for good |
| SubgroupWriter.FinishExact | pkg/relay/handler_fanout.go:1242-1299 | once the queue has drained an open stream FINs exactly if nothing was lost |
| SubgroupWriter.CleanCloseFins | pkg/relay/handler_fanout.go:1077-1299 | a clean close with nothing lost and every write succeeding writes all that was admitted and FINs |
| SubgroupWriter.FinInvStep | pkg/relay/handler_fanout.go:914-1299 | every step keeps: while a FIN is possible, written and queued together are what was admitted |
| SubgroupWriter.FinIsFinalStep | pkg/relay/handler_fanout.go:1242-1299 | a FIN is the last thing a writer does |
| SubgroupWriter.ExtendExact | pkg/relay/handler_fanout.go:1197-1203 | the delta of one more Object reads back to its ID, and the stream stays ascending, exactly if the ID is above the last |
| SubgroupWriter.WriteExact | pkg/relay/handler_fanout.go:1306-1346 | writing an Object keeps every stream well formed exactly if its ID does not wrap from 2^64-1 to 0 |
| SubgroupWriter.WrapHappens | pkg/relay/handler_fanout.go:1334-1337 | a concrete run that puts Object 0 after Object 2^64-1 on one stream, which no reader can resolve |
| SubgroupWriter.StreamsWellFormed | pkg/relay/handler_fanout.go:1077-1239 | in every run without such a wrap each outbound stream ascends, its deltas read back to the IDs forwarded, one says FIRST_OBJECT exactly if it starts with a first Object, and together the streams hold what was written |
| SubgroupWriter.GateAfter | pkg/relay/handler_fanout.go:914-957 | only an offer adds to what a writer admitted, or to the forwarded Objects it declined |
| SubgroupWriter.MarksExact | pkg/relay/handler_fanout.go:961-974 | after any marks the code kept is that of overload if any mark had it, and otherwise that of the first |
| SubgroupWriter.FirstCloseDecides | pkg/relay/handler_fanout.go:1374-1387 | after any closes the stream ends as the first one said, and nothing else has changed |
| SubgroupWriter.StreamsEndOnce | pkg/relay/handler_fanout.go:1053-1127 | ending a stream or opening another changes how no ended stream ended and what no stream carries, and leaves only the newest open |
| SubgroupWriter.EndingExact | pkg/relay/handler_fanout.go:1242-1299 | an open stream ends with TOO_FAR_BEHIND for lag, else EXCESSIVE_LOAD for drops past the cap, else as the merged streams reset, else for the reason it is incomplete, else by FIN; the first two close the writer |
| SubgroupLosses.LossExact | pkg/relay/handler_fanout.go:914-1049 | over every run the drops are those on a full queue of an open writer, the first step to do so decided how the stream ends, with its code, the reason kept for its incompleteness is load if it ever was one and else the first, by code, and publishers are turned away exactly when the writer is closed, cannot write, or ended behind its subscriber |
| SubgroupLosses.FateExact | pkg/relay/handler_fanout.go:1151-1227 | over every run what becomes of an Object taken: lag ends the loop, a late or failed write resets the stream with 0x2 or 0x0 and stops the writing, as does a failed open, an expired Object is left out and a stream opened for it reset, and any other is written |
| SubgroupLosses.GivenUpExact | pkg/relay/handler_fanout.go:977-985 | over every run a stream given up for another is reset for the reason it is incomplete, and else with CANCELLED |
| SubgroupStreams.NextExact | pkg/relay/handler_fanout.go:1334-1346 | the test whether an Object may go on a stream: the next ID, or, nothing dropped between, a higher one that follows what was read or whose Prior Object ID Gap reaches down to the next; and the one wrapped pair |
| SubgroupStreams.SharedStream | pkg/relay/handler_fanout.go:1077-1346 | in every run without an ID wrap neighbours on a stream have consecutive IDs, or were taken one right after the other and nothing that exists lies between them, by the order read or by a gap |
| SubgroupStreams.NewStream | pkg/relay/handler_fanout.go:1097-1187 | in every such run a stream with Objects on it gives way to another only for an Object that does not continue it, and is reset |
| SubgroupStreams.TogetherStep | pkg/relay/handler_fanout.go:1077-1346 | every step keeps both |
| SubgroupGate.DeclinesExact | pkg/relay/handler_fanout.go:939-957 | in every run an Object is declined without loss exactly as its verdict and its place before or after those admitted say |
| SubgroupGate.FollowsExact | pkg/relay/handler_fanout.go:914-935 | in every run an Object taken is said to follow exactly if everything read on its stream since the last one taken was declined, and none was dropped |
| SubgroupWriterObject.SubgroupWriter.constructor | pkg/relay/handler_fanout.go:812-833 | a writer starts open, complete and empty |
| SubgroupWriterObject.SubgroupWriter.Skip | pkg/relay/handler_fanout.go:939-957 | the new state is that of the step |
| SubgroupWriterObject.SubgroupWriter.Admit | pkg/relay/handler_fanout.go:914-935 | takes exactly what the subscription forwards, and keeps track of what follows what |
| SubgroupWriterObject.SubgroupWriter.Publish | pkg/relay/handler_fanout.go:990-1021 | the new state is that of the step: queued, dropped on overflow, or refused |
| SubgroupWriterObject.SubgroupWriter.Offer | pkg/relay/handler_fanout.go:710-725 | admitting and publishing together are the step the run theorems speak of |
| SubgroupWriterObject.SubgroupWriter.Prepare | pkg/relay/handler_fanout.go:1171-1187 | the stream the Object needs is open |
| SubgroupWriterObject.SubgroupWriter.Settle | pkg/relay/handler_fanout.go:1189-1227 | the new state is that of the step: expired, timed out, failed or written |
| SubgroupWriterObject.SubgroupWriter.HandleNext | pkg/relay/handler_fanout.go:1151-1236 | one pass of the loop is the step the run theorems speak of |
| SubgroupWriterObject.SubgroupWriter.FinishStream | pkg/relay/handler_fanout.go:1242-1299 | the stream ends as the step says, slow readers first, then failed writers, inbound resets, incompleteness, and last FIN |
| SubgroupWriterObject.SubgroupWriter.RunClosed | pkg/relay/handler_fanout.go:1077-1239 | once admission has stopped the loop handles the queue in order and then ends the stream |
| SubgroupWriterObject.SubgroupWriter.Run | pkg/relay/handler_fanout.go:914-1299 | publishers, the end of the merged streams and the loop, interleaved in any way, take the writer through the run of the machine, so the run theorems hold of it |
| SubgroupSet.WidenedDescribes | pkg/relay/handler_fanout.go:127-136 | the run kept is that of the IDs forwarded: its ends are the least and the greatest, and it is unbroken exactly if they were forwarded one next to the other |
| SubgroupSet.FirstIsLowest | pkg/relay/handler_fanout.go:122-138 | an Object said to start the Subgroup is below everything forwarded before it |
| SubgroupSet.AdmissionExact | pkg/relay/handler_fanout.go:204-229 | a late copy is let through exactly if it is above everything forwarded, dropped as a repeat exactly if it was forwarded and is an end of what was or all of it went one by one, and lost otherwise; any other copy is let through |
| SubgroupSet.NotedExact | pkg/relay/handler_fanout.go:660-669 | a header read adds one reader of its Object and touches no other entry |
| SubgroupSet.ReleasedExact | pkg/relay/handler_fanout.go:673-682 | a reader done takes one off its Object's count, and the last takes the entry |
| SubgroupSetObject.SubgroupWriterSet.constructor | pkg/relay/handler_fanout.go:383-388 | a set starts with nothing forwarded and no writers |
| SubgroupSetObject.SubgroupWriterSet.ClaimFirst | pkg/relay/handler_fanout.go:122-138 | the new state is that of forwarding the Object, and it is first exactly if claimed and lowest |
| SubgroupSetObject.SubgroupWriterSet.Leave | pkg/relay/handler_fanout.go:144-151 | the earliest clean start and the last reset code are kept |
| SubgroupSetObject.SubgroupWriterSet.Outcome | pkg/relay/handler_fanout.go:176-185 | the ending computed is the one the run theorems speak of |
| SubgroupSetObject.SubgroupWriterSet.NoteHeader | pkg/relay/handler_fanout.go:660-669 | the search and update are those of the step, and the count returned is that of the first header read |
| SubgroupSetObject.SubgroupWriterSet.DoneReading | pkg/relay/handler_fanout.go:673-682 | the search and update are those of the step |
| SubgroupSetObject.SubgroupWriterSet.OfferAll | pkg/relay/handler_fanout.go:710-725 | each writer open by the cut-off is offered the Object once, and no other changes |
| SubgroupSetObject.SubgroupWriterSet.Forward | pkg/relay/handler_fanout.go:690-726 | the set and every writer change as the step says |
| SubgroupSetObject.SubgroupWriterSet.AdmitAgedOut | pkg/relay/handler_fanout.go:204-229 | an Object is let through exactly as the step says, and one lost is reported to every writer |
| Fanout.RunInvStep | pkg/relay/handler_fanout.go:119-138 | every step keeps the run and the lowest ID true to what was forwarded |
| Fanout.CoverInvStep | pkg/relay/handler_fanout.go:411-447 | every step keeps: what was claimed or read is forwarded, accounted for or about to be |
| Fanout.FinCovers | pkg/relay/handler_fanout.go:176-185 | where the outcome is FIN, no existing Object at or above the lowest forwarded is unaccounted for |
| Fanout.FinExact | pkg/relay/handler_fanout.go:144-185 | the end is a FIN exactly if a contributor that ended cleanly covers from the lowest ID forwarded, or from no later than one past a run of IDs all forwarded from that one up |
| Fanout.ReadingInvStep | pkg/relay/handler_fanout.go:622-682 | every step keeps the list of Objects being read true to the contributors part way through each |
| Fanout.CutInvStep | pkg/relay/handler_fanout.go:622-713 | every step keeps: a contributor's cut-off picks out exactly the writers open by the first header read for its Object |
| FanoutWriters.FinSafety | pkg/relay/handler_fanout.go:119-229 | FIN safety over every run: each existing Object at or above the lowest forwarded was forwarded, claimed elsewhere, announced absent, or lost with every writer there marked |
| FanoutWriters.FinOutcome | pkg/relay/handler_fanout.go:144-185 | over every run the end is a FIN in exactly those cases |
| FanoutWriters.ResetExact | pkg/relay/handler_fanout.go:144-185 | over every run, merged streams that do not FIN reset with CANCELLED if a contributor ended cleanly, and else with the code of the last that reset |
| FanoutWriters.LowestExact | pkg/relay/handler_fanout.go:119-138 | over every run the lowest ID kept is the least of those forwarded, by this set or the one it was seeded from |
| FanoutWriters.LateCopies | pkg/relay/handler_fanout.go:204-229 | over every run a late copy is forwarded, changes nothing for any writer, or is lost to every writer there, in exactly the cases of AdmissionExact |
| FanoutOnce.LedgerExact | pkg/relay/handler_fanout.go:500-566 | over every run the ledger has exactly the Objects claimed here as a first copy, claimed elsewhere, and announced absent |
| FanoutOnce.ForwardedOnce | pkg/relay/handler_fanout.go:500-726 | over every run an Object never claimed too late is claimed as a first copy at most once and forwarded at most once, however many streams carry it |
| FanoutEnds.CourseExact | pkg/relay/handler_fanout.go:479-621 | over every run a contributor is broken exactly if it stopped part way through an Object or found one malformed, has left exactly if it did, cleanly exactly if without a reset, and never cleanly if broken |
| FanoutEnds.EndedExact | pkg/relay/handler_fanout.go:411-447 | over every run the merged streams are over exactly if there were contributors and all have left |
| FanoutEnds.WriterEnds | pkg/relay/handler_fanout.go:1077-1299 | once they are over the loop of every writer, left to itself, ends; and if nothing was lost to it by then, it has written everything admitted and FINs |
| FanoutReads.CoverExact | pkg/relay/handler_fanout.go:411-447 | over every run a stream vouches from 0 on or, a replay, from the first Object it read, once it has read one |
| FanoutReads.DeliveryExact | pkg/relay/handler_fanout.go:690-726 | over every run a delivery admits to a writer that is due it exactly the Object read, said to start the Subgroup exactly if first on a stream that is no replay and below everything forwarded, and to follow exactly if everything read on its stream since the last one taken was declined |
| FanoutWriters.JoinerCutOff | pkg/relay/handler_fanout.go:479-713 | over every run an Object is offered to exactly the writers opened with the set or by the first of its overlapping header reads, whichever copy wins; this differs from "open at that read" exactly for writers opened with the set after it; the list has one entry per Object, counting its readers |
| FanoutLateWriter.LateWriterIsOffered | pkg/relay/handler_fanout.go:479-713 | a concrete run in which a writer opened with the set is offered an Object whose header was read before |
| FanoutWriters.SubscriberFin | pkg/relay/handler_fanout.go:411-447 | end to end over every run: when a subscriber's stream FINs, so did the merged streams, each existing Object at or above the lowest forwarded is accounted for, and each Object due to the subscriber, each time it was forwarded or lost, was written to it or was before its Start |
| FanoutWriters.ClosingInvStep | pkg/relay/handler_fanout.go:411-447 | every step keeps: a writer is closed for anything but a reset only by a FIN of the merged streams |
| FanoutWriters.OutboundStreams | pkg/relay/handler_fanout.go:1077-1346 | over every run without an ID wrap each stream of each subscriber is well formed, goes on only with an Object that nothing can lie before, is given up only for one that something can, and one saying FIRST_OBJECT starts below everything forwarded before |
| FanoutWriters.WriterMoves | pkg/relay/handler_fanout.go:566-611 | a step of the fanout is at most one step of each writer |
| FanoutWriters.AgedOutMarks | pkg/relay/handler_fanout.go:217-227 | a writer told of a lost Object can no longer FIN, or declined it |
| InboxPool.PoolIsolation | pkg/relay/subgroup_inbox.go:23-91 | in every interleaving a queue is one writer's or free once and empty, and a writer is returned what was accepted for it, in order |
| InboxPool.EndIsClosedAndEmpty | pkg/relay/subgroup_inbox.go:50-74 | the end is reported only when closed and everything accepted was returned, as a closed channel would |
| InboxPool.AcceptedExact | pkg/relay/handler_fanout.go:990-1021 | in every run an Object is accepted, at the end of the queue, exactly if the writer is open and the queue not full |
| InboxPool.BoundedRun | pkg/relay/subgroup_inbox.go:6-48 | in every run no queue holds more than its size, and no more than 1024 are kept |
| InboxPool.PutExact | pkg/relay/subgroup_inbox.go:32-48 | a queue put back is empty, and is kept exactly if fewer than 1024 are |
| InboxPool.ClosedExact | pkg/relay/subgroup_inbox.go:50-91 | in every run a writer refuses Objects exactly if closed, made to refuse or released, and reports its end exactly if its loop saw it |
| InboxPool.NothingAfterStop | pkg/relay/subgroup_inbox.go:50-91 | in every run a loop that gave up or saw its end is returned nothing more |
| InboxPool.LoopEnds | pkg/relay/subgroup_inbox.go:50-91 | a closed writer's loop, left to itself, returns everything accepted, then reports the end, then gives its queue back |
| InboxPool.InvStep | pkg/relay/subgroup_inbox.go:23-91 | every step of taking, publishing, receiving, releasing and putting back keeps that |
| InboxPoolObject.SubgroupInboxPool.Take | pkg/relay/subgroup_inbox.go:23-30 | the queue handed out is empty, is no other writer's and no longer free, and the pool has taken the step of the machine |
| InboxPoolObject.SubgroupInboxPool.Receive | pkg/relay/subgroup_inbox.go:50-74 | the Object received is the oldest queued, and was published for this writer |
| InboxPoolObject.SubgroupInboxPool.GiveBack | pkg/relay/subgroup_inbox.go:32-48 | the queue is emptied, is nobody's, is kept only if of the right size and there is room, and no other writer notices |
| InboxPoolObject.QueuesApart | pkg/relay/subgroup_inbox.go:23-91 | in a pool in use two writers have different queues, neither free, each holding only what was published for its writer |
| RangeFilterCodec.FilterRoundTrip | pkg/moqt/message/rangefilter.go:54-137 | a filter parses back from what it is written as exactly if its ranges ascend and only the last is open |
| RangeFilterCodec.ParsedIsCanonical | pkg/moqt/message/rangefilter.go:91-137 | every accepted blob yields ascending ranges without overflow |
| RangeFilterCodec.WriteRangeFilter | pkg/moqt/message/rangefilter.go:54-69 | the loop writes what the encoding says, stopping at an open range |
| RangeFilterCodec.ReadRanges | pkg/moqt/message/rangefilter.go:109-137 | the loop reads what the decoding says, refusing what overflows |
| RangeFilterCodec.HeaderExact | pkg/moqt/message/rangefilter.go:54-69 | exactly the two property filters have a Property Type on the wire |
| RangeFilterCodec.RefusedExact | pkg/moqt/message/rangefilter.go:139-161 | a filter is refused exactly for an odd Property Type, an open range before the last, or a priority above 255 |
| RangeFilterCodec.MatchValue | pkg/moqt/message/rangefilter.go:163-176 | a value matches exactly if it lies in some range |
| RangeFilterSets.BuildRangeFilterSet | pkg/moqt/message/rangefilter.go:257-291 | the loop refuses exactly lists with two filters of one kind and otherwise groups by SetID, counts ranges and notes property filters |
| RangeFilterSets.GroupedGroups | pkg/moqt/message/rangefilter.go:280-288 | there is one group per SetID in use, holding that SetID's filters in order |
| RangeFilterSets.FilterExact | pkg/moqt/message/rangefilter.go:312-386 | each type of filter asks of its own field, by code: Subgroup, Object ID, priority, or the first Property of its type; a filter of the other scope asks nothing |
| RangeFilterSets.OnlyAskedFieldsMatter | pkg/moqt/message/rangefilter.go:391-417 | Objects alike in the fields some filter of the set asks about are matched alike |
| RangeFilterSets.ObjectExact | pkg/moqt/message/rangefilter.go:391-417 | an Object matches exactly if for some SetID it has, for every filter of it, the value the type asks for inside one of the ranges |
| RangeFilterSets.TrackExact | pkg/moqt/message/rangefilter.go:438-454 | a track matches exactly if for some SetID it has what every Track Property filter of it asks for |
| RangeFilterSets.BothExact | pkg/moqt/message/rangefilter.go:398-432 | with track gating an Object matches exactly if for one SetID the Object and the track have what its filters of both scopes ask for |
| RequestUpdate.UpdatesAgree | pkg/relay/handler_namespace.go:538-556 | updating the stored parameters and updating the set fail on the same updates and otherwise match the same Objects and tracks and count the same ranges |
| RequestUpdate.MergedExact | pkg/relay/handler_namespace.go:538-556 | what is stored after an update: the parameters of every type it does not name, and its own of those it does, but for the prefix, tokens and empty Range Filters |
| RequestUpdate.CarriedExact | pkg/moqt/message/rangefilter.go:240-256 | the filters of a list are refused exactly if a non-empty one is bad, and else are exactly those its parameters of the five types carry |
| RequestUpdate.UntouchedParses | pkg/relay/handler_namespace.go:543-546 | dropping the parameters of the updated types drops exactly their filters |
| RequestUpdate.KeptParses | pkg/relay/handler_namespace.go:547-554 | what an update's own parameters leave out carries no filter |
| RequestUpdate.FlattenGrouped | pkg/moqt/message/rangefilter.go:223-239 | the filters of a set's groups are those it was built from |
| LocationFilters.FilterRoundTrip | pkg/moqt/message/filter.go:200-233 | a Location Filter parses back, leaving what follows it, exactly if its type is defined and its other fields are zero |
| LocationFilters.FilterExact | pkg/moqt/message/filter.go:200-233 | which numbers each of the six types carries on the wire, in order, and that no other type is read |
| Params.ParamsRoundTrip | pkg/moqt/message/params.go:356-483 | parsing an appended list of parameters of every kind returns its stable sort by type, whatever follows it |
| Params.ValueRoundTrip | pkg/moqt/message/params.go:406-483 | a value of every kind reads back, the self-delimiting Location Filter included |
| Params.KindExact | pkg/moqt/message/params.go:113-145 | which types are read, and as what kind of value |
| Params.WriteParams | pkg/moqt/message/params.go:358-370 | the loop writes the sorted list |
| Params.ReadParams | pkg/moqt/message/params.go:378-404 | the loop reads what the encoding says, refusing a type past 2^64-1 |
| UpstreamPool.SingleFlight | pkg/relay/relay_upstream_pool.go:242-300 | in every run at most one dial per address is in progress, and one starts only where none is and no session of that address is live |
| UpstreamPool.SharedOutcome | pkg/relay/relay_upstream_pool.go:242-285 | callers answered from one entry got the same outcome |
| UpstreamPool.HandedLive | pkg/relay/relay_upstream_pool.go:242-300 | in every run a caller that returned had asked for an address, and was given the outcome of an entry of that address whose session was then live, or was refused when dialing had stopped and there was no entry |
| UpstreamPool.DroppedIsOut | pkg/relay/relay_upstream_pool.go:254-299 | in every run an entry dropped or evicted was spent and is out of the map; a caller that found its session ended calls again |
| UpstreamPool.GoneForGood | pkg/relay/relay_upstream_pool.go:242-299 | in every run an entry out of the map never comes back, and nobody waits for it again |
| UpstreamPool.EndsExact | pkg/relay/relay_upstream_pool.go:242-332 | in every run a session is over exactly if it ended, and dialing stopped exactly if it was told to |
| UpstreamPool.OutcomeStands | pkg/relay/relay_upstream_pool.go:275-278 | an entry's outcome never changes once set |
| UpstreamPool.OnlySpentRemoved | pkg/relay/relay_upstream_pool.go:256-299 | no removal takes out an entry that is in use: a stale one leaves a newer entry alone |
| UpstreamPool.NothingPublishedAfterStop | pkg/relay/relay_upstream_pool.go:328-332 | once dialing has stopped no entry is published |
| UpstreamPool.InvStep | pkg/relay/relay_upstream_pool.go:242-332 | every step keeps the map true to the entries in use |
| UpstreamPoolObject.RelayPool.LookUp | pkg/relay/relay_upstream_pool.go:243-273 | the entry found, or a new one published, or a refusal, and the pool has taken the step of the machine |
| UpstreamPoolObject.RelayPool.Resolve | pkg/relay/relay_upstream_pool.go:274-278 | the entry has its outcome, and the pool has taken the step of the machine |
| UpstreamPoolObject.PoolDialsOnce | pkg/relay/relay_upstream_pool.go:242-300 | a pool in use never dials one address twice at a time, nor where a session lives |
| UpstreamPoolObject.RelayPool.Drop | pkg/relay/relay_upstream_pool.go:254-299 | the pool has taken the removal step of the machine: the entry is gone, and every other is still there, one that has taken its place too |
| DatagramWriter.ReservationsConserved | pkg/relay/datagram_writer.go:65-159 | in every run what was reserved is released, queued or in hand, and nothing is released twice |
| DatagramWriter.NothingLeftReserved | pkg/relay/datagram_writer.go:106-128 | after the worker returns nothing can be enqueued and nothing stays reserved but what a publisher is releasing |
| DatagramWriter.SentInOrder | pkg/relay/datagram_writer.go:65-159 | in every run datagrams go out in the order they were enqueued, each at most once |
| DatagramWriter.SentExact | pkg/relay/datagram_writer.go:135-159 | a datagram is handed to the session exactly if, when looked at, the writer is not stopped, the session not over, its subscription not cancelled and it not stale |
| DatagramWriter.UnsentOnlyFor | pkg/relay/datagram_writer.go:65-159 | in every run a datagram released unsent had found the queue full, was cancelled or stale, or was left when the writer had stopped or the session was over |
| DatagramWriter.ReservedExact | pkg/relay/datagram_writer.go:65-95 | a datagram is reserved exactly if the writer is open and the subscription lets it, and queued exactly if there is room |
| DatagramWriter.StoppedExact | pkg/relay/datagram_writer.go:97-128 | in every run the writer is stopped exactly if told to or its worker is leaving, and the worker leaves only if told to stop or the session ended |
| DatagramWriter.WorkerReturns | pkg/relay/datagram_writer.go:106-128 | a worker on its way out returns after a known number of steps of its own, having released what it held and what was queued, in order |
| DatagramWriter.InvStep | pkg/relay/datagram_writer.go:65-159 | every step keeps the reservations conserved |
| DatagramWriterObject.DatagramQueue.Enqueue | pkg/relay/datagram_writer.go:65-95 | a datagram is reserved unless refused, and goes to a queue that never holds more than its size or back to the publisher to release; the writer has taken the step of the machine |
| DatagramWriterObject.DatagramQueue.StopAndDrain | pkg/relay/datagram_writer.go:106-117 | refuses more, releases everything queued in order, and leaves reserved only what publishers are releasing |
| DatagramWriterObject.QueueConserves | pkg/relay/datagram_writer.go:65-159 | a writer in use loses no reservation and releases none twice |
| CandidateErrors.OrderIndependent | pkg/relay/handler_subscribe.go:582-610 | the same errors in any order give the same rank, retry and code |
| CandidateErrors.ChosenIsBest | pkg/relay/handler_subscribe.go:588-665 | the error chosen is one of them and as good an answer as any |
| CandidateErrors.AwaitsIffAllDo | pkg/relay/handler_subscribe.go:554-580 | the choice awaits a publisher exactly if every error does |
| CandidateErrors.AnswerExact | pkg/relay/handler_subscribe.go:588-665 | whatever came in, by code: an unknown Mandatory Property is answered first, then Properties that do not parse, then a refusal, a publisher leaving, a timeout, and last none at all |
| CandidateErrors.SoonestRetry | pkg/relay/handler_subscribe.go:595-636 | the answer allows a retry if any error of the class answered for does, and no later than any of them |
| CandidateErrors.CodeDiffersOnlyInRankFour | pkg/relay/handler_subscribe.go:601-609 | errors of one rank other than the fourth have one answer code |
| CandidateErrors.AnswerKeepsPromise | pkg/relay/handler_subscribe.go:1013-1060 | whatever the jitter, the answer has the code chosen for and a retry no later than promised |
| CandidateErrors.Choose | pkg/relay/handler_subscribe.go:736-767 | the running choice is the fold over the errors so far |
| Histogram.ErrorBound | internal/conference/histogram.go:64-81 | below 31 * 2^26 microseconds the value reported for a rank is not below that sample's whole microseconds and above them by at most a sixteenth; from there on it is the largest sample, which it never exceeds |
| Histogram.UpperBound | internal/conference/histogram.go:29-47 | a bucket's upper bound is not below its values and above them by at most a sixteenth |
| Histogram.Monotone | internal/conference/histogram.go:29-37 | a larger value has no lower bucket |
| Histogram.UpperIsLargest | internal/conference/histogram.go:39-47 | the upper bound of a bucket lands in it and is its largest value |
| Histogram.InBounds | internal/conference/histogram.go:20-37 | every bucket index is within the 464, and the largest values share bucket 447 |
| Histogram.DurationHistogram.Record | internal/conference/histogram.go:49-53 | the counts, total and maximum are those of the samples with the new one |
| Histogram.DurationHistogram.Merge | internal/conference/histogram.go:55-61 | merging equals recording both sets of samples, into itself too |
| Histogram.DurationHistogram.FindRank | internal/conference/histogram.go:70-79 | adding up the counts finds the bucket of the sample of that rank |
| Histogram.RankExists | internal/conference/histogram.go:64-81 | every rank up to the total is that of some sample |
| Histogram.RankIsNearest | internal/conference/histogram.go:64-70 | the rank looked up is the whole number nearest q times the total, halves up, kept between 1 and the total |
| Histogram.LastStarts | internal/conference/histogram.go:20-37 | the last bucket holds exactly what is at least 31 * 2^26 microseconds |
| Histogram.DurationHistogram.Quantile | internal/conference/histogram.go:64-81 | there is a sample of the nearest rank to q times the total, and the quantile is not below its whole microseconds, above them by at most a sixteenth, or the largest sample in the last bucket; 0 of nothing |

## Left out

- QUIC, WebTransport and TLS, listeners, health, metrics and profiling endpoints, and the command-line programs.
- The registry, the object cache and the session layer beyond the FETCH decoder: the ledger is a contract, a subscription's verdict is arbitrary.
- Messages that only concatenate fields, error-code tables and the parameter scope table.
- SubgroupObject's own encoding and the SUBGROUP_HEADER: streams are sequences of Objects with their ID deltas.
- Delivery timeouts, priorities and Publisher timeouts within the fanout: a timed-out write is one of the arbitrary fates of an Object.
- A writer's stream cancelled by its subscriber while open: the model's FIN is the relay's decision to FIN.
- `prefixSet` and the rest of `handler_namespace.go`, `pickFetchUpstream`, `handleFetch` and the REQUEST_UPDATE of a FETCH.
- Location Filter matching (`Start`, `End`, `Matches`): it would add only easy members.
- A queue of the pool that was closed by hand, and pools too large to be kept.
- Ranking of relays by rendezvous hashing, and discovery.
- Histogram.DurationHistogram.Quantile: computes the rank over real numbers, not floating point, and the counters do not wrap at 2^64.
- FanoutWriters.JoinerCutOff: a joiner scan is a step of its own rather than part of a header read, which allows more runs than the original.
