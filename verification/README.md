# A verified model of bazel-mcp

bazel-mcp runs Bazel for a language model client and turns what Bazel produces into a
small, bounded summary. The risky part is in the middle. Bazel writes a stream of build
events, as length-prefixed frames, to a file or to a Build Event Service; the capture
pipeline makes every frame durable before anyone looks at it, survives a remote-cache
eviction that makes Bazel start over, and feeds a reducer that keeps a bounded amount of
state. This project models that path and the reducer in Dafny and proves what each is for.

- **Framing** (`Varint`, `Framing`, `FrameCodec`, `Streams`): the incremental decoder gives
  the same frames, counts and error for every way a stream is cut into chunks, encoded
  frames decode to their payloads exactly when they fit the limits, and the blocking reader
  agrees with it.
- **Capture** (`Writer`, `Capture`, `Trace`, `Runs`, `Evidence`, `PostHoc`, `LateRetries`,
  `Durability`, `Tail`): for every chunking and every script of failing system calls, what a
  run holds, keeps on disk and reports is a function of its input; frames are durable before
  they are observed; re-decoding the evidence agrees with the live run exactly when no frame
  was lost between an eviction and its retry.
- **Build Event Service** (`Bes`, `BesSafety`, `BesEvidence`, `BesBatches`, `BesProgress`,
  `BesServer`): whatever the client sends and whatever fails, sequence number n is
  acknowledged only after every event up to n was handed over in order and committed; until
  something fails the evidence file is the frames accepted since the last retry; without
  faults a capture completes exactly on well-formed message sequences, and otherwise reports
  the first fault in them.
- **Reduction** (`Events`, `Accumulator`, `Keeping`, `Charging`, `BepStream`, `Batch`,
  `Concluding`, `Finishing`, `Recovery`, `Refinement`, `Artifacts`, `Diagnostics`,
  `Finalize`): the streaming reducer holds no more than it paid for and refines the batch
  reducer; artifact resolution is exact on cyclic and dangling graphs; merging diagnostics
  conserves counts; finalization is ordered, bounded and idempotent.
- **What is reported** (`Telling`, `StreamTelling`, `ArtifactTelling`): tests, targets,
  counts, diagnostics, recovered tests, outcome and artifacts stated on the raw events, by
  Bazel's own status codes, flags, labels and texts.
- **Extensions and policy** (`Wildcard`, `Reducers`, `ReducerLaws`, `JsonText`, `JsonSize`,
  `JsonCycles`, `Redaction`): label patterns, custom reducers independent of registration
  order, the JSON size of possibly cyclic values, and redaction under a size limit.

`Base`, `Decimals`, `Sorting` and `Summary` hold shared types and facts.

Code that updates state in place is modelled by classes and loops, each proved against a
function on values; the theorems are about those functions. System calls, channel
hand-offs, client behaviour and poll results are scripts: finite lists of outcomes that the
theorems quantify over. Library code that is not part of this model is a parameter: the
protobuf decoder (`parse`), the digest, the text diagnostic parser, a reducer's `reduce`, a
pattern's matches. An exclusive borrow of a plain record is an argument and a result. A
`string` holds one character for each byte of the UTF-8 text it stands for. `usize` and
`u64` are 64 bits wide; saturating arithmetic is written out.

Three properties one might expect do not hold of the code, and have their exact conditions:

- Re-decoding evidence does not always agree with the live run: events between an evicting
  `Finished` and the retry's `Started` reach the live reduction but not the file
  (`LateRetries.LateRetryDisagrees`; `PostHoc.PostHocAgreesExactly` has the condition). The
  condition is exact unless a stream limit stopped the live run and the re-run, reading on,
  met another eviction; then they may agree by accident (`LateRetries.LimitedRerunAgrees`).
- The wildcard matcher takes a star in the value for a literal
  (`Wildcard.InnerStarMisses`; `Wildcard.MatchesExactly` has the condition, and
  `Wildcard.RecursiveExactly` the one for patterns that end in three dots).
- The streaming summary differs from the batch summary when a test is recovered from its
  attempts (`Refinement.RecoveredTestDiffers`; `Refinement.StreamingRefinesBatch` has the
  condition, `Recovery.NothingToRecover`: unless exit code and build event both say success,
  nothing is recovered; if they do, every successful attempt must have a test summary).

Every lemma on which Dafny would start an induction of its own is marked
`{:induction false}`: each induction in this project is written out.

## Model

| member | source | states |
|---|---|---|
| `Varint.WriteVarint` | crates/bazel-mcp-bep/src/framing.rs:623-629 | the bytes appended are the value's base-128 encoding, least significant group first |
| `Varint.EncodeVarint` | crates/bazel-mcp-bes/src/server.rs:706-715 | filling a ten-byte array in place writes the same encoding as the appending writer, and returns its length |
| `Varint.EncodeLength` | crates/bazel-mcp-bep/src/framing.rs:597-629 | a 64-bit value takes at most ten bytes, and the tenth is 0 or 1 |
| `Varint.PrefixFitsU64` | crates/bazel-mcp-bep/src/framing.rs:396-433 | a length prefix that is accepted fits 64 bits |
| `Varint.VarintRoundTrip` | crates/bazel-mcp-bep/src/framing.rs:597-629 | reading an encoded value gives the value and exactly its length, whatever follows |
| `Framing.InspectFrame` | crates/bazel-mcp-bep/src/framing.rs:396-433 | the loop over at most ten prefix bytes gives the verdict that the first stop byte and the base-128 value determine |
| `Framing.InspectAppend` | crates/bazel-mcp-bep/src/framing.rs:396-433 | more input changes only a verdict that asked for more input |
| `Framing.IncrementalStreamDecoder.constructor` | crates/bazel-mcp-bep/src/framing.rs:134-144 | a new decoder retains nothing, has counted nothing and has met no error |
| `Framing.IncrementalStreamDecoder.VisitDecodedFrame` | crates/bazel-mcp-bep/src/framing.rs:344-376 | stream limit, event limit, decoding, visitor and reset are applied in this order, with the counters each one leaves |
| `Framing.IncrementalStreamDecoder.TakePending` | crates/bazel-mcp-bep/src/framing.rs:256-267 | a retained frame that is complete is visited and nothing of it is retained, as if it had arrived whole |
| `Framing.IncrementalStreamDecoder.StepInput` | crates/bazel-mcp-bep/src/framing.rs:211-239 | one turn at a frame boundary makes progress and leaves the meaning of state and remaining input unchanged |
| `Framing.IncrementalStreamDecoder.StepPending` | crates/bazel-mcp-bep/src/framing.rs:241-272 | one turn with a partial frame makes progress, never retains a byte of the next frame, and leaves the meaning unchanged |
| `Framing.IncrementalStreamDecoder.SettlePending` | crates/bazel-mcp-bep/src/framing.rs:275-292 | a chunk that completes the retained frame has it visited now; what stays retained is a proper part of one frame |
| `Framing.IncrementalStreamDecoder.PushFrames` | crates/bazel-mcp-bep/src/framing.rs:202-293 | pushing a chunk through the loop gives the state that draining retained bytes and chunk in one go gives |
| `Framing.IncrementalStreamDecoder.Finish` | crates/bazel-mcp-bep/src/framing.rs:302-311 | a retained prefix or payload is reported as truncated; otherwise counts and error are unchanged |
| `Framing.ChunkInvariance` | crates/bazel-mcp-bep/src/framing.rs:202-311 | for every visitor and every way of cutting a byte string into chunks, the frames visited, the counts and the terminal error are those of one push |
| `FrameCodec.WriteFrame` | crates/bazel-mcp-bep/src/framing.rs:578-584 | a frame is the length prefix followed by the payload |
| `FrameCodec.FramesRoundTrip` | crates/bazel-mcp-bep/src/framing.rs:396-584 | a concatenation of encoded frames, cut anywhere, decodes without error exactly when the payloads fit the limits (the byte total saturating) and decode; then the payloads come back in order with their counts |
| `FrameCodec.FramesStop` | crates/bazel-mcp-bep/src/framing.rs:344-433 | otherwise the payloads before the first that does not fit come back, and the error names the limit that one exceeds, with both numbers |
| `Streams.StreamDecodes` | crates/bazel-mcp-bep/src/framing.rs:202-376 | encoded events within the limits decode to exactly those before the first that is no event, which is reported |
| `FrameCodec.Reader.ReadVarint` | crates/bazel-mcp-bep/src/framing.rs:597-621 | the blocking reader's loop agrees with the prefix inspection of the same bytes; a clean end, a cut prefix and a failing source are told apart |
| `FrameCodec.Reader.ReadFrame` | crates/bazel-mcp-bep/src/framing.rs:435-461 | one call gives the payload, the end or the error that inspection of the remaining bytes gives, failing source included, and consumes exactly the frame |
| `FrameCodec.ReaderAgrees` | crates/bazel-mcp-bep/src/framing.rs:396-461 | repeated reading and the incremental decoder give the same payloads and the same framing error on every byte string; where the decoder runs out of bytes, a reader whose source failed reports that |
| `Writer.CommitAppends` | crates/bazel-mcp-runner/src/capture.rs:455-472 | a commit that succeeds appends exactly its bytes to the hash and the file; one that fails leaves a prefix of them in the file and the hash as it was |
| `Writer.RetryEmpties` | crates/bazel-mcp-runner/src/capture.rs:474-488 | beginning a retry empties file, hash and count together; one that fails leaves hash, count and cursor, and has emptied the file just when only the rewind failed |
| `Capture.CapturePipeline.constructor` | crates/bazel-mcp-runner/src/capture.rs:529-543 | a new pipeline is at a frame boundary with nothing held |
| `Capture.CapturePipeline.Commit` | crates/bazel-mcp-runner/src/capture.rs:455-472 | a commit changes the writer, its log and the error, and nothing else |
| `Capture.CapturePipeline.Ingest` | crates/bazel-mcp-runner/src/capture.rs:545-623 | one ingest, decoder callback included, has the effect of the specification: the frames are absorbed in order and the rest is held or committed |
| `Capture.CapturePipeline.Finish` | crates/bazel-mcp-runner/src/capture.rs:629-654 | held bytes are committed, the writer flushed, and the saved attempt reported with its own counts when no event followed it |
| `Trace.FramesCoverStream` | crates/bazel-mcp-bep/src/framing.rs:202-293 | the frames visited, followed by the part of the stream not visited, are the stream: no byte is lost or repeated |
| `Trace.PipelineFollowsFrames` | crates/bazel-mcp-runner/src/capture.rs:564-614 | while the raw buffer holds what the decoder has yet to read, the callback finds every frame at its front and absorbs it; after an error it absorbs nothing more |
| `Runs.RunReaches` | crates/bazel-mcp-runner/src/capture.rs:545-623 | for every chunking and every script of system-call results, a run without error is in the state its concatenated input determines; an already persisted file never fails |
| `Runs.RunCloses` | crates/bazel-mcp-runner/src/capture.rs:545-654 | closing such a run makes exactly the undecoded rest durable |
| `Evidence.AbsorbSteps` | crates/bazel-mcp-runner/src/capture.rs:588-613 | what one absorbed frame does to evidence, retry flag, current and saved attempt |
| `Evidence.BuffersStayCoupled` | crates/bazel-mcp-runner/src/capture.rs:545-641 | between ingests the raw buffer equals the decoder's retained bytes, or is empty after a terminal error; the two mismatch errors never occur; an awaited retry has a saved attempt |
| `Evidence.EvidenceConserved` | crates/bazel-mcp-runner/src/capture.rs:455-654 | after a run without I/O error the appended file is the whole input, or its suffix from the last frame that started an expected retry; the persisted writer hashes the whole input |
| `Evidence.RunReports` | crates/bazel-mcp-runner/src/capture.rs:629-654 | what a run reports depends only on the concatenated input; it is the evicted attempt, with the number and saturated size of its payloads and no error, exactly when nothing followed the eviction |
| `Evidence.ReportedCounts` | crates/bazel-mcp-runner/src/capture.rs:404-425 | the counts reported are the number and size of the payloads of the reported attempt, evicted or not; only an event that did not decode adds its size |
| `PostHoc.PostHocAgrees` | crates/bazel-mcp-runner/src/capture.rs:474-654 | re-decoding the evidence gives the live run's observed events and outcome whenever no frame was lost between an eviction and its retry |
| `PostHoc.PostHocAgreesExactly` | crates/bazel-mcp-runner/src/capture.rs:474-654 | and only then, unless a stream limit stopped the live run and the re-run, reading on, met another eviction |
| `PostHoc.LostFramesDisagree` | crates/bazel-mcp-runner/src/capture.rs:588-613 | when frames were lost and the reports still agree, a stream limit stopped the live run and the re-run passed an eviction at or after its last frame |
| `PostHoc.RerunAgrees` | crates/bazel-mcp-runner/src/capture.rs:545-926 | the same for actual runs: any live chunking, any re-run chunking, any number of retries |
| `PostHoc.PromptRetriesLoseNothing` | crates/bazel-mcp-runner/src/capture.rs:588-613 | no frame is lost when every frame that directly follows an evicting one starts the retry |
| `LateRetries.LateRetryDisagrees` | crates/bazel-mcp-runner/src/capture.rs:588-613 | a concrete stream with one event between eviction and retry on which live run and re-run differ |
| `LateRetries.LimitedRerunAgrees` | crates/bazel-mcp-bep/src/framing.rs:344-376 | a concrete stream and event limit for which frames are lost and the two runs still report the same |
| `Durability.RunsAreSound` | crates/bazel-mcp-runner/src/capture.rs:545-623 | in every run with any failures: observed frames are committed first, nothing happens after a failure, and the log accounts for file, hash and observations |
| `Durability.DurableBeforeReduced` | crates/bazel-mcp-runner/src/capture.rs:564-617 | every observed frame was committed immediately before, byte for byte, and after a failed commit neither that frame nor a later one is observed |
| `Tail.ReduceBepFile` | crates/bazel-mcp-runner/src/capture.rs:897-926 | decoding a file in 64 KiB reads reports what the file's bytes determine; a missing file reports nothing |
| `Tail.Follow` | crates/bazel-mcp-runner/src/capture.rs:834-855 | the tail loop ingests exactly the bytes it read, up to the poll that finds the invocation over, and fails exactly when a read before that does |
| `Tail.TailBep` | crates/bazel-mcp-runner/src/capture.rs:834-869 | a live result is kept exactly when no open, read or hash failed and the tailed bytes are the final file; whatever is reported is the final file's |
| `Tail.FinishTail` | crates/bazel-mcp-runner/src/capture.rs:111-133 | a tail that failed or died is replaced by decoding the retained file; whatever is reported is that file's, and only a failing read of that decode leaves no report |
| `BesServer.FrameBepPayload` | crates/bazel-mcp-bes/src/server.rs:641-666 | a payload is framed exactly when frame, event and stream limits allow it, else refused with the first limit exceeded |
| `BesServer.BesReceiver.Accept` | crates/bazel-mcp-runner/src/capture.rs:730-755 | the receiver ingests a batch frame by frame, stops at the first failure, and reports it |
| `BesServer.BesReceiver.End` | crates/bazel-mcp-runner/src/capture.rs:730-738 | the end of stream finishes the pipeline and reports whether that succeeded |
| `BesServer.CaptureSession.ForwardCaptureEvent` | crates/bazel-mcp-bes/src/server.rs:668-683 | a batch counts as handed over only when the receiver acknowledged it |
| `BesSafety.HandoverFaults` | crates/bazel-mcp-bes/src/server.rs:668-683 | a hand-over fails exactly when nobody listens, the answer is lost or the receiver refuses, and says which |
| `BesSafety.ResponseFaults` | crates/bazel-mcp-bes/src/server.rs:685-704 | an acknowledgement fails exactly when the client has stopped |
| `BesServer.CaptureSession.FlushCaptureBatch` | crates/bazel-mcp-bes/src/server.rs:685-704 | frames are handed over before any of their sequence numbers is acknowledged, then those in order |
| `BesServer.CaptureSession.OnBazelEvent` | crates/bazel-mcp-bes/src/server.rs:504-529 | a Bazel event is checked, framed, counted, and joins the batch, which is flushed when full, as the step function says that the next rows state on raw values |
| `BesProgress.UrlAdmitted` | crates/bazel-mcp-bes/src/server.rs:505-510 | a type url is admitted if and only if it has at most 256 bytes and is empty or ends in "/build_event_stream.BuildEvent" |
| `BesProgress.PayloadAdmitted` | crates/bazel-mcp-bes/src/server.rs:641-666 | a payload is framed if and only if it has at most 64 MiB, the total at most 128 MiB and fewer than 1,000,000 came before; the error names the first limit exceeded |
| `BesBatches.BatchesExactly` | crates/bazel-mcp-bes/src/server.rs:516-529 | an admitted event waits without any hand-over unless it is the 64th or brings the waiting bytes to 1 MiB; then nothing is left waiting |
| `BesBatches.RunStaysSmall` | crates/bazel-mcp-bes/src/server.rs:435-581 | after every input fewer than 64 frames of less than 1 MiB are waiting |
| `BesServer.CaptureSession.OnFinished` | crates/bazel-mcp-bes/src/server.rs:530-551 | the end flushes, hands over the finish and acknowledges it, in this order |
| `BesServer.CaptureSession.OnOtherEvent` | crates/bazel-mcp-bes/src/server.rs:552-565 | any other event flushes and is acknowledged |
| `BesServer.CaptureSession.OnRequest` | crates/bazel-mcp-bes/src/server.rs:473-569 | identity, sequence, count and order are checked before the body is handled, with the first failing check's error |
| `BesServer.CaptureSession.Loop` | crates/bazel-mcp-bes/src/server.rs:435-581 | the receive loop refines the step function of the session state machine |
| `BesServer.RunCapture` | crates/bazel-mcp-bes/src/server.rs:423-582 | a whole capture answers the session's statistics or error |
| `BesSafety.IngestBatch` | crates/bazel-mcp-runner/src/capture.rs:744-752 | a batch of whole frames within the limits leaves the pipeline idle with all of it committed, or stops at an error |
| `BesSafety.RunKeeps` | crates/bazel-mcp-bes/src/server.rs:435-581 | the session invariant (pending responses are exactly the unacknowledged sequence numbers, their frames exactly the pending frames) is kept by every input |
| `BesSafety.AcknowledgementSafety` | crates/bazel-mcp-bes/src/server.rs:423-704 | at every position of the wire of every run: an acknowledgement has the next number and follows the acceptance of all Bazel events up to it in order; all accepted bytes are committed, with nothing held back and no framing or limit error downstream |
| `BesEvidence.RunFed` | crates/bazel-mcp-runner/src/capture.rs:730-755 | until something fails, the receiver's pipeline has ingested exactly the accepted frames |
| `BesEvidence.EvidenceHoldsAccepted` | crates/bazel-mcp-runner/src/capture.rs:545-755 | at every moment without an error the evidence file is, byte for byte, the frames of the accepted payloads from the last expected retry on, and so is what was hashed |
| `BesSafety.EndIsLast` | crates/bazel-mcp-bes/src/server.rs:530-551 | a completed wire has exactly one end of stream and no frame after it |
| `BesSafety.CompletedCapture` | crates/bazel-mcp-bes/src/server.rs:435-581 | a completed capture acknowledged every request, committed all payloads in order, handed over the end last, and its statistics are their count and size |
| `BesSafety.EventsFollowInputs` | crates/bazel-mcp-bes/src/server.rs:473-569 | the events of a run are what its messages carried, up to where it stopped |
| `BesProgress.StepExact` | crates/bazel-mcp-bes/src/server.rs:435-581 | without faults, one input moves the session exactly as a judgement on the raw message says, the first fault of a refused one included |
| `BesProgress.RunExact` | crates/bazel-mcp-bes/src/server.rs:435-581 | without faults, a run is where its messages lead: how far, completed, or refused with the first fault |
| `BesProgress.CompletesExactly` | crates/bazel-mcp-bes/src/server.rs:423-582 | without faults, a capture completes if and only if its messages are well formed: right identity, numbered from 1, admitted urls and payloads, one finish and nothing after it |
| `BesProgress.CaptureExactly` | crates/bazel-mcp-bes/src/server.rs:423-582 | from the first request on: it completes if and only if that request carries an identity with fields of at most 128 bytes and the stream is well formed under it |
| `Artifacts.Gather` | crates/bazel-mcp-reducer/src/build.rs:503-515 | the stack search ends on every graph and lists the direct files, then those of the sets in the order it finds them |
| `Artifacts.SearchOrder` | crates/bazel-mcp-reducer/src/build.rs:503-515 | the id named last is searched first, and its children before the ids named earlier |
| `Artifacts.VisitsExactly` | crates/bazel-mcp-reducer/src/build.rs:503-515 | the search finds a set exactly when it is defined and reachable from a root, cycles and dangling ids included |
| `Artifacts.Deduplicate` | crates/bazel-mcp-reducer/src/build.rs:516-520 | the first artifact of each name and uri is kept, in order |
| `Artifacts.DistinctFirst` | crates/bazel-mcp-reducer/src/build.rs:516-520 | of several with the same name and uri the first stays, in its place |
| `Artifacts.ResolveArtifacts` | crates/bazel-mcp-reducer/src/build.rs:503-521 | the result is the direct files and those of reachable sets, each name and uri once |
| `Artifacts.ResolvedExactly` | crates/bazel-mcp-reducer/src/build.rs:503-521 | the same for the specification: no other artifact, none missing |
| `Wildcard.WildcardMatch` | crates/bazel-mcp-reducer/src/extension.rs:108-131 | the index-updating loop decides what the one-star matcher decides |
| `Wildcard.LastStarSuffices` | crates/bazel-mcp-reducer/src/extension.rs:108-131 | when a new star is reached, stretching an earlier one is never needed again |
| `Wildcard.MatchesExactly` | crates/bazel-mcp-reducer/src/extension.rs:108-131 | a match is never wrong; the matcher agrees with the glob meaning for every pattern if and only if the value has no star before its last byte |
| `Wildcard.InnerStarMisses` | crates/bazel-mcp-reducer/src/extension.rs:108-131 | for a value with an inner star, the pattern that should match and does not |
| `Wildcard.RecursiveExactly` | crates/bazel-mcp-reducer/src/extension.rs:101-106 | a pattern ending in three dots means its prefix and anything after it, for every label, if and only if the prefix has no star |
| `Wildcard.LabelsExactly` | crates/bazel-mcp-reducer/src/extension.rs:101-106 | a pattern ending in three dots takes exactly the targets that start with the rest; any other takes only what the glob takes, and all of it when the target has no inner star |
| `Diagnostics.DeduplicateDiagnostics` | crates/bazel-mcp-reducer/src/build.rs:666-717 | one representative per key in first-occurrence order, with its group's saturated repetition count, its target cleared exactly when the group disagrees |
| `Diagnostics.DeduplicatedKeys` | crates/bazel-mcp-reducer/src/build.rs:666-717 | no two diagnostics of the result are alike (same severity, category, message, location, action and, except for actions, target), and it has one like each reported and no other |
| `Diagnostics.DeduplicatedExactly` | crates/bazel-mcp-reducer/src/build.rs:666-717 | each is the first of those alike, in the order of these firsts, with their repetitions added up to at most the largest 32-bit number and its target dropped when theirs differ |
| `Diagnostics.DistinctStays` | crates/bazel-mcp-reducer/src/build.rs:666-717 | a list with distinct keys is unchanged |
| `Diagnostics.CountsConserved` | crates/bazel-mcp-reducer/src/build.rs:688-698 | the repetition counts of the result add up to those of the input unless the counter saturates |
| `Finalize.PriorityOrder` | crates/bazel-mcp-reducer/src/build.rs:751-786 | the priority is a total preorder and puts errors before warnings before notes, then build categories, tests, workspace, Bazel, unknown and actions, then what names a place or a root cause, with bare commands and bare outcomes last |
| `Finalize.RetainWithin` | crates/bazel-mcp-reducer/src/build.rs:729-738 | a diagnostic is kept exactly when it still fits after those kept before it |
| `Finalize.FinalizeDiagnostics` | crates/bazel-mcp-reducer/src/build.rs:721-749 | merging, ranking, cutting and bounding give the specified summary, flags, hint and headline included |
| `Finalize.FinalizedLaws` | crates/bazel-mcp-reducer/src/build.rs:721-749 | the result is in that order, has no two alike, is within both limits (its true byte sum too), is marked truncated exactly when it was or something was left out, has the first message as a failure's headline, and is otherwise unchanged |
| `Finalize.RetainsExactly` | crates/bazel-mcp-reducer/src/build.rs:726-738 | of the first items in priority order each is kept exactly when its message still fits after those kept before; one that does not is passed over |
| `Finalize.FinalizedIdempotent` | crates/bazel-mcp-reducer/src/build.rs:719-749 | finalizing again with the same budget changes nothing |
| `Finalize.FinalizedComplete` | crates/bazel-mcp-reducer/src/build.rs:721-749 | everything is kept exactly when it fits both limits, and then only sorted |
| `Finalize.FinalizeWithCustomNotices` | crates/bazel-mcp-runner/src/execution.rs:1568-1606 | notices are bounded on their own, the summary within what they leave, and the notices come last |
| `Finalize.NoticesWithinBudget` | crates/bazel-mcp-runner/src/execution.rs:1568-1606 | with or without notices the result is within 20 items and 4 KiB of messages |
| `Finalize.NoticesComeLast` | crates/bazel-mcp-runner/src/execution.rs:1575-1605 | the notices end the list, all of them exactly when they are at most four of 1 KiB; the diagnostics get what they leave of 20 items and 4 KiB |
| `Finalize.NoticesMark` | crates/bazel-mcp-runner/src/execution.rs:1575-1605 | the summary is marked truncated exactly when it was or a diagnostic or notice was left out, and the headline is never a notice |
| `JsonSize.StringLenExact` | crates/bazel-mcp-reducer/src/starlark.rs:427-435 | the byte count of a string is the length of its quoted text with the escapes of section 7 of RFC 8259, saturated |
| `JsonSize.UnsignedDecimalLen` | crates/bazel-mcp-reducer/src/starlark.rs:442-449 | counting divisions by ten gives the length of the decimal text |
| `Decimals.DigitsRoundTrip` | crates/bazel-mcp-reducer/src/starlark.rs:442-449 | decimal text reads back as the number and has no leading zero |
| `Decimals.DecimalRoundTrip` | crates/bazel-mcp-reducer/src/build.rs:157-165 | so does that of a negative number after its minus sign |
| `JsonSize.Measurer.ValueLen` | crates/bazel-mcp-reducer/src/starlark.rs:359-411 | the recursive measurement with its ancestor stack gives the saturated length of the unfolded value's text, or the first error; after a success the stack is as before |
| `JsonSize.Measurer.SequenceLen` | crates/bazel-mcp-reducer/src/starlark.rs:413-425 | the same for the items of a list or tuple |
| `JsonSize.Measurer.DictLen` | crates/bazel-mcp-reducer/src/starlark.rs:391-405 | the same for the entries of a dictionary, keys included |
| `JsonSize.SerializedJsonLen` | crates/bazel-mcp-reducer/src/starlark.rs:355-357 | the whole measurement, on every heap |
| `JsonText.QuotedRoundTrip` | crates/bazel-mcp-reducer/src/starlark.rs:427-435 | a quoted string reads back as itself and ends at its closing quote |
| `JsonText.EscapeLengths` | crates/bazel-mcp-reducer/src/starlark.rs:427-435 | a character takes one byte, two with a short escape, six as any other control character |
| `JsonCycles.SizeOfTree` | crates/bazel-mcp-reducer/src/starlark.rs:355-449 | a value has a size exactly when it unfolds to a tree, and the size is the length of that tree's compact text |
| `JsonCycles.AcceptedExactly` | crates/bazel-mcp-reducer/src/starlark.rs:382-411 | a value is accepted if and only if no path from it reaches an unserializable value or returns to an object it went through; sharing is accepted |
| `JsonCycles.RefusalNamesCause` | crates/bazel-mcp-reducer/src/starlark.rs:378-409 | a refusal names what is wrong, and a path from the value ends there: a cycle, another kind of object, a key that is no string, a float without text |
| `Reducers.NewPipeline` | crates/bazel-mcp-reducer/src/extension.rs:194-208 | registration fails exactly when two reducers share a name; otherwise it keeps all of them, ordered by falling priority, then name |
| `Reducers.SuppressMatching` | crates/bazel-mcp-reducer/src/extension.rs:270-290 | the loop keeps the diagnostics the selector does not own |
| `Reducers.Apply` | crates/bazel-mcp-reducer/src/extension.rs:215-267 | the loop over matching reducers gives the specified summary and report |
| `ReducerLaws.OrderIndependent` | crates/bazel-mcp-reducer/src/extension.rs:193-268 | any permutation of uniquely named reducers gives the same summary and the same report |
| `ReducerLaws.AppliedMeaning` | crates/bazel-mcp-reducer/src/extension.rs:215-267 | names applied, headline, diagnostics, flags and hint are those the counting patches determine; nothing else changes |
| `ReducerLaws.ReportMeaning` | crates/bazel-mcp-reducer/src/extension.rs:228-260 | the report lists exactly the collisions with their owner and the failures, in order |
| `ReducerLaws.AtMostOneOverride` | crates/bazel-mcp-reducer/src/extension.rs:228-247 | at most one overriding reducer is applied |
| `ReducerLaws.HeadlineIsFirst` | crates/bazel-mcp-reducer/src/extension.rs:248-252 | the headline is that of the first applied patch that has one |
| `ReducerLaws.OthersHarmless` | crates/bazel-mcp-reducer/src/extension.rs:223-261 | without the reducers that fail, do not match, return an empty patch or collide, the summary is the same |
| `ReducerLaws.AugmentOnlyAdds` | crates/bazel-mcp-reducer/src/extension.rs:242-254 | patches that do not override remove nothing, whatever they ask for |
| `ReducerLaws.OverrideReplaces` | crates/bazel-mcp-reducer/src/extension.rs:242-254 | an overriding patch that asks for it filters what came before it and nothing that comes with it or later |
| `ReducerLaws.SuppressedExactly` | crates/bazel-mcp-reducer/src/extension.rs:270-290 | order and multiplicity stay: wherever a diagnostic stands, it goes exactly when it is about a matched label, a matching target or a selected action |
| `ReducerLaws.SelectsExactly` | crates/bazel-mcp-reducer/src/extension.rs:59-88 | a selector selects a build exactly when it lists the command or none, and lists the target, kind or action type of some event or nothing at all (targets without an inner star) |
| `ReducerLaws.OwnsExactly` | crates/bazel-mcp-reducer/src/extension.rs:270-290 | it owns a diagnostic exactly when it lists its action, takes its target or concerns an event of that target |
| `Redaction.Buffer.PushBounded` | crates/bazel-mcp-policy/src/redaction.rs:75-87 | what fits is appended, cut back to a character boundary |
| `Redaction.CutExactly` | crates/bazel-mcp-policy/src/redaction.rs:75-87 | a text that is too long keeps every character that fits whole, and no other |
| `Redaction.Buffer.ReplaceAllBounded` | crates/bazel-mcp-policy/src/redaction.rs:56-73 | the loop over matches gives the bounded replacement |
| `Redaction.RedactBoundedInto` | crates/bazel-mcp-policy/src/redaction.rs:40-53 | the patterns are applied in turn with two swapped buffers, each bounded, to what the one before left |
| `Redaction.OnePattern` | crates/bazel-mcp-policy/src/redaction.rs:45-46 | a single pattern replaces its matches in the text itself |
| `Redaction.PatternsInTurn` | crates/bazel-mcp-policy/src/redaction.rs:47-52 | redacting by two lists of patterns is redacting by the second what the first has left |
| `Redaction.NothingFromAnyTurn` | crates/bazel-mcp-policy/src/redaction.rs:40-73 | at every turn of every list, what is left is whole markers and text outside that pattern's matches |
| `Redaction.PiecesExactly` | crates/bazel-mcp-policy/src/redaction.rs:56-73 | the full replacement is exactly the texts before, between and after the matches with a marker for each match |
| `Redaction.MarkerReads` | crates/bazel-mcp-policy/src/redaction.rs:56-73 | the marker reads "[REDACTED]" |
| `Redaction.RedactedLaws` | crates/bazel-mcp-policy/src/redaction.rs:56-73 | the output is a prefix of the full replacement, within the limit, and is all of it exactly when that fits |
| `Redaction.RedactedBetweenCharacters` | crates/bazel-mcp-policy/src/redaction.rs:75-87 | the cut falls on a character boundary of the full replacement |
| `Redaction.FittedEnd` | crates/bazel-mcp-policy/src/redaction.rs:62-72 | the output ends inside a text piece, never inside a marker, and as late as it can: no further character fits, and if the piece fits whole the next marker does not |
| `Redaction.NothingFromMatches` | crates/bazel-mcp-policy/src/redaction.rs:56-73 | the output is whole pieces and part of a text that lies outside every match |
| `Redaction.RedactedByBound` | crates/bazel-mcp-policy/src/redaction.rs:40-53 | for every list of patterns the final length is at most the limit |
| `BepStream.BepAccumulator.TryReserve` | crates/bazel-mcp-reducer/src/build.rs:477-487 | a reservation is granted exactly when neither limit is exceeded; a refusal only marks the state truncated |
| `BepStream.BepAccumulator.PushRoot` | crates/bazel-mcp-reducer/src/build.rs:489-494 | a set id is bounded, paid for and kept, or refused |
| `BepStream.BepAccumulator.PushDirectArtifact` | crates/bazel-mcp-reducer/src/build.rs:496-501 | an artifact is paid for and kept, or refused |
| `BepStream.BepAccumulator.CountAttempt` | crates/bazel-mcp-reducer/src/build.rs:244-253 | a known test's attempts are updated without a reservation, a new test needs one |
| `BepStream.BepAccumulator.ObserveEvent` | crates/bazel-mcp-reducer/src/build.rs:131-312 | observing an event keeps the entries it holds, in order, each if there is room |
| `BepStream.BepAccumulator.Finish` | crates/bazel-mcp-reducer/src/build.rs:315-415 | finishing gives the specified summary, artifacts, arguments and outcome, recovered tests included |
| `Concluding.ByLabelLaws` | crates/bazel-mcp-reducer/src/build.rs:329-335 | results come in label order, one for every label observed and no other, and it is the one observed first |
| `Concluding.CountAllTests` | crates/bazel-mcp-reducer/src/build.rs:369-380 | the counting loop counts each status |
| `Concluding.TestsCountedOnce` | crates/bazel-mcp-reducer/src/build.rs:369-380 | every test is counted in exactly one field |
| `Finishing.RecoverTests` | crates/bazel-mcp-reducer/src/build.rs:336-359 | the loop recovers exactly the tests without a summary whose attempts end in success or flakiness, with that status and count |
| `Finishing.RecoveredExactly` | crates/bazel-mcp-reducer/src/build.rs:342-358 | a test is recovered if and only if some entry of the attempts has its name, no summary and a successful status, and it has that entry's status and count |
| `Finishing.RecoveredInOrder` | crates/bazel-mcp-reducer/src/build.rs:342-361 | from attempts in label order, recovered tests come in label order, each label once and none with a summary |
| `Recovery.StreamRecoversInOrder` | crates/bazel-mcp-reducer/src/build.rs:244-361 | that holds of the attempts of every stream, truncated or not |
| `Recovery.RecoversExactly` | crates/bazel-mcp-reducer/src/build.rs:131-361 | when no reservation was refused, nothing is recovered if and only if the exit code is not 0, the last finish is absent or no success, or every passed or flaky attempt has a test summary of its label |
| `StreamTelling.RecoveredIsTold` | crates/bazel-mcp-reducer/src/build.rs:72-98 | after a success, a test is recovered if and only if no summary event names it and some attempt has code 1 or 2; it is flaky if one has code 2 or some do not pass, and has the number of its attempts |
| `StreamTelling.StreamAttemptsTold` | crates/bazel-mcp-reducer/src/build.rs:244-253 | the attempts kept of a test are their number and whether some passed, some were flaky, some neither |
| `StreamTelling.OutcomeTold` | crates/bazel-mcp-reducer/src/build.rs:131-312 | of every stream, truncated or not, the outcome is the last finish, the last request to run and whether a test result was seen |
| `StreamTelling.StreamTold` | crates/bazel-mcp-reducer/src/build.rs:315-415 | with room and no text too long, the tests listed are those of the summary events and the recovered ones; targets and diagnostics are those the raw events tell |
| `Finishing.NothingRecovered` | crates/bazel-mcp-reducer/src/build.rs:360-361 | without recovered tests the second sort changes nothing |
| `Finishing.RecoveryShows` | crates/bazel-mcp-reducer/src/build.rs:336-361 | a recovered test makes the list of tests longer than the batch's |
| `Batch.ReduceInvocation` | crates/bazel-mcp-reducer/src/build.rs:542-655 | the batch pass gives the specified summary |
| `Telling.BatchTold` | crates/bazel-mcp-reducer/src/build.rs:542-655 | for every event list: one test per label with a summary event, with the status its first code stands for (1 passed, 2 flaky, 3 timed out, 4, 7 and 8 failed, 6 remote, else incomplete), its duration, attempts and shard; one target per completed label; each count the number of labels with those codes |
| `Telling.FailureReported` | crates/bazel-mcp-reducer/src/build.rs:796-826 | the error "Test failed: " and the label is collected if and only if some summary event of that label carries 4, 7 or 8 |
| `Telling.CollectedTold` | crates/bazel-mcp-reducer/src/build.rs:548-625 | the diagnostics collected are, in order, one for each abort, failed action and test summary that is no pass, with category, text, target and action stated on the raw event |
| `Telling.BatchReports` | crates/bazel-mcp-reducer/src/build.rs:626-655 | the diagnostics reported are the bounded choice from these and, after a failure, from stderr and then stdout; headline, mark and hint follow |
| `Telling.ArgumentsTold` | crates/bazel-mcp-reducer/src/build.rs:882-897 | the arguments are startup options and command line of the first event that has them |
| `Batch.ReduceArtifacts` | crates/bazel-mcp-reducer/src/build.rs:828-880 | the batch pass gives the specified artifacts in search order: the direct files and those of every reachable set, no other and none missing, each name and uri once |
| `Batch.BatchArtifactsExactly` | crates/bazel-mcp-reducer/src/build.rs:828-880 | the same for the specification, for every sequence of events |
| `ArtifactTelling.BatchArtifactsTold` | crates/bazel-mcp-reducer/src/build.rs:828-937 | on raw events: each name and location once, every artifact what is to be reported of an output file, every output file with a location or contents reported |
| `ArtifactTelling.FileExactly` | crates/bazel-mcp-reducer/src/build.rs:899-937 | a file gives an artifact unless it has neither location nor contents: its path parts joined by slashes, its location, kind, size and local availability |
| `ArtifactTelling.BoundedExactly` | crates/bazel-mcp-reducer/src/diagnostics/mod.rs:76-85 | a text that fits stays; a longer one is cut back to a character start at or before the limit and marked |
| `Batch.ExtractCanonicalArguments` | crates/bazel-mcp-reducer/src/build.rs:882-897 | the arguments are those of the first parsed options |
| `Keeping.KeepAllGranted` | crates/bazel-mcp-reducer/src/build.rs:477-487 | running out of room is never forgotten; without it everything was kept |
| `Refinement.ArtifactsAgree` | crates/bazel-mcp-reducer/src/build.rs:503-880 | searching the owned sets finds the files of the borrowed ones, in the same order |
| `Refinement.EventAgrees` | crates/bazel-mcp-reducer/src/build.rs:131-861 | one event keeps the streaming and the batch reducer in step |
| `Refinement.StreamAgrees` | crates/bazel-mcp-reducer/src/build.rs:131-861 | so does every sequence of events within the caps for which no reservation was refused |
| `Refinement.StreamingRefinesBatch` | crates/bazel-mcp-reducer/src/build.rs:131-897 | then artifacts (in order) and canonical arguments are the batch's, and the summary is the batch's if and only if the events and the exit code leave no test to recover |
| `Refinement.RecoveredTestDiffers` | crates/bazel-mcp-reducer/src/build.rs:336-361 | a passing attempt without a summary in a successful build makes the two summaries differ |
| `Keeping.StreamBounded` | crates/bazel-mcp-reducer/src/build.rs:477-487 | however long the stream, items and bytes held (named sets and arguments included) are at most what was reserved, and that is within the limits |
| `Charging.ReserveExactly` | crates/bazel-mcp-reducer/src/build.rs:477-487 | a reservation is refused exactly when it would exceed 250,000 items or 64 MiB, and then only marks the state |
| `Charging.StreamPaidExactly` | crates/bazel-mcp-reducer/src/build.rs:131-312 | when no set is defined twice, what is reserved is exactly what is held |
| `Charging.StreamShort` | crates/bazel-mcp-reducer/src/build.rs:255-300 | set ids kept have at most 4 KiB and arguments at most 64 KiB, but for the mark of a cut |

## Left out

- gRPC plumbing, codecs, TCP binding, task spawning and timeouts: library behaviour; the session is modelled at the level of messages, yields and hand-offs.
- FIFO creation, reconnection, process liveness, signals and cancellation: operating-system effects.
- Protobuf parsing, the text diagnostic parsers, regular expressions and the digest: parameters of the model.
- Tail.TailBep: takes the digest to be injective, since the model compares digests and not the probability that they collide.
- Writer.CommitAppends: the writer and its file are values that the pipeline object replaces, since nothing else refers to them; aliasing of the file by another process is not modelled.
- The reducer a subscriber feeds is, in the capture modules, the list of payloads it observed; `Accumulator` models the reducer itself, on decoded events.
- BepStream.BepAccumulator.ObserveEvent: does not model the collection of extension events and their ordinals, which only copies fields under a bound of its own.
- BepStream.BepAccumulator.Finish: does not return the extension events and their truncation flag, for the same reason.
- FrameCodec.Reader.ReadFrame: an I/O error of the source comes after its last byte; which error it is, is not told apart.
- Reusing the capacity of the decoder's buffer, and the stream helpers that wrap decoder and reader: no effect on what is decoded.
- A panic where an index or a subtraction is out of range: Dafny proves there is none in the modelled code.
- Collision texts of the reducer report: kept as the two names they are made from.
- Starlark evaluation, value allocation and patch validation: library wrappers and checks of single fields.
- `Redactor::redact` and `redact_bounded`: they only choose a limit or a buffer.
- Coverage, query and test-evidence reducers, policy lists, the store, benchmarks and scripts: single simple loops or I/O.
