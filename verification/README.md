# Verified model of an inspecting agent proxy

A Dafny model of the parts of the proxy whose correctness depends on many steps, many processes
or delicate index arithmetic, and machine-checked proofs about them. `dafny verify dfyconfig.toml`
checks everything.

Six areas are modelled, each in the form the program has: recursion and expressions as functions,
loops as methods tied to a specification function, objects as classes with their fields, processes
that interleave as a state machine over their steps.

- **Evidence spool** (`spool*.dfy`): append and rotation, the read pass with its (inode, offset)
  cursor and byte budget, commit, unlinks of overlapping calls, and crashes. Exactly-once delivery
  over every run, and how large the active file gets (`spool_size`).
- **Masking and redaction** (`spans`, `redact`, `lanes`, `json`, `redact_json`): interval merging,
  reverse splicing and left-to-right rebuilding against one-position-at-a-time references; masking
  of a lane however it is fragmented; redaction of JSON trees, and the field patterns that allow it
  (`field_pointer`).
- **Redacted event streams** (`sse*`, `stream_*`): framing and printing of server-sent events
  (section 9.2 of the WHATWG HTML Standard), the protocol automata, collection of string leaves
  into lanes, in-place rewriting, and the whole of `_redact_sse` put together;
  what the protocol checks accept, for every provider. `sse_client`, `sse_joined`, `sse_texts` and
  `sse_text_law` say it from the client's side: the texts that a client assembles from many events
  by plain lookups, defined without lanes, and what becomes of each.
- **Access Broker** (`access*`): the strict and the legacy verdict, the file store with its nested
  transactions, and any number of processes with stale caches and failing commits. `access_law` says
  in record fields what each answer requires, `access_settle` who decided on an approval.
- **Policy distribution** (`policy*`): publisher, last-known-good loading, worker polling, respawn.
- **Attestation, inspection stream, evidence, concurrency, check digits** (`attestation`,
  `ascii_json`, `digest`, `extproc*`, `evidence*`, `slots`, `check_digits`).

`wrappers.dfy` and `sequences.dfy` hold the two shared vocabularies.

## What the proofs found

Where a property that one would expect is false of the code, the model keeps the code and gives
the exact condition or a concrete counterexample.

- A printed event stream frames to one event more than it had exactly when its last event carries
  JSON, its block ended with a blank line and another line is kept (`Sse.PrintedBlankIff`,
  `SsePipeline.RedactedStreamFramesAgain`). One more newline at the end brings every redacted stream
  with such a last event there (`SseBreaking.OneMoreNewlineBreaks`); a whole body that does is
  `SseBreaking.RedactedReplyBreaks`.
- "A string that masking leaves unchanged had no findings" holds for every detector if and only if
  the string does not spell the mask text `[REDACTED]` (`Spans.UnchangedMeansCleanIff`). Then it
  also holds for a tree, for a string at any place in it, and for the JSON inside an arguments
  string (`RedactJson.UnchangedTreeIffClean`, `RedactJson.UnchangedLeafIffClean`; the latter assumes
  of the JSON parser, `RedactJson.ReadsBack`, that among values which differ in their strings only
  the encoding of one is not read as another).
- A streamed event that carries tool-call arguments may give a text as its content index, which is
  not checked and is then inspected itself. Every event of such a stream keeps carrying pieces of
  the same texts if and only if no such content index is starred (`SseTextLaw.TextsStayIff`).
- Replay protection holds in every run exactly when the clock never falls by more than six seconds;
  that covers the five seconds the verifier allows for (`Attestation.ReplaySafetyIff`).
- In inline mode a stream leaves two evidence records exactly when the append for the final reply
  reports an error after its line is already in the file, because the last attempt then writes
  again (`Evidence.RecordCount`).
- An event longer than the read limit holds its writer's evidence back until the limit is raised
  (`SpoolSystem.PassAdvancesIff`).
- Rotating onto a time stamp that exists destroys the older file, and a torn write also destroys
  the event after it (`SpoolWriter.PlaceKeepsFilesIff`, `SpoolWriter.TornWriteMergesLines`). A sealed
  file that ends in a torn line holds its writer back for good: in every run from then on the cursor
  stays in that file and no event of a later one is stored (`SpoolTorn.TornFileHoldsBack`,
  `SpoolTorn.TornFileIsSealed`).
- Drained files whose paths were lost, to a crash or a failing unlink, are listed again exactly when
  a later call comes to their writer within its budget and stores an event or moves a cursor
  (`SpoolSystem.LostPathsReturnIff`).
- In the legacy broker path an empty scope list admits everything, so narrowing a list gives some
  request a new allow if and only if the list is emptied while it said something
  (`Access.LegacyNarrowingIsSafeIff`; a concrete case is `Access.LegacyIsNotMonotone`).
- `evaluate` refreshes the cache that a later legacy decision reads. Every book that a later answer
  reads stays as it was if and only if that cache held the file already
  (`AccessRuns.MirrorIsInvisibleIff`); then, over a whole run, no other answer of any kind changes
  (`AccessRuns.FreshMirrorErasure`). Strict answers and answers to requests that name an approval
  never change (`AccessRuns.MirrorErasure`); a run in which another legacy answer does is
  `AccessRuns.MirrorChangesLegacy`.
- Not every refresh takes over a good file: after one failure to build, an unforced refresh that
  sees the current file takes it over if and only if it was in force already or its fingerprint is
  not the one on record (`PolicyRuns.GoodFileIsTakenIff`, `PolicyRuns.OneFailureBlocksTheFile`,
  `PolicyRuns.NotTakenStaysNotTaken`).
- Japan's check digit misses exactly the changes between remainders 0 and 1
  (`CheckDigits.JpSubstitution`, `CheckDigits.JpUndetectedChange`). The French key also covers the
  Corsican departments, and the Chinese one also swaps with the check character.

## Model

| member | source | states |
|---|---|---|
| Spool.CompleteLengthIsLastNewline | src/asr_proxy/selfhost/spool.py:99 | a chunk is cut right after its last newline, and no newline follows the cut |
| Spool.SplitLinesOfFlat | src/asr_proxy/selfhost/spool.py:100 | splitting whole appended lines gives back exactly these lines, for every list of lines |
| Spool.CutKeepsWholeLines | src/asr_proxy/selfhost/spool.py:96-100 | a budget-limited read cut at the last newline holds exactly the leading lines that fit, never part of a line |
| Spool.ReadFiles | src/asr_proxy/selfhost/spool.py:94-114 | the loop over one writer's files computes the specified scan: the lines that are events, last file, offset, drained files, remaining budget |
| Spool.ReadPending | src/asr_proxy/selfhost/spool.py:75-116 | the loop over the writers, sharing one byte budget and dropping lines that are not events, computes the specified pass |
| Spool.FileIsFinishedIff | src/asr_proxy/selfhost/spool.py:94-114 | some budget brings the reader to the end of a file if and only if nothing is left or the file ends with a newline |
| SpoolWriter.EventSpool.Append | src/asr_proxy/selfhost/spool.py:27-48 | directory, health flag and failure count after an append, for every system call that can fail, by the specification whose size rule is SpoolSize.AppendRotatesIff |
| SpoolWriter.EventSpool.TryAppend | src/asr_proxy/selfhost/spool.py:31-43 | rotation before the write, and which faults raise, by the same specification |
| SpoolSize.AppendRotatesIff | src/asr_proxy/selfhost/spool.py:31-43 | after an append whose record is written: if the record fits into the limit beside the active file, no file changes its name and the record follows what was there; if not, the old active file has a stamped name and the same bytes, and the active file holds this record alone |
| SpoolSize.AppendStaysInBounds | src/asr_proxy/selfhost/spool.py:33-40 | after such an append the active file is no longer than the limit, or holds exactly this record |
| SpoolSize.RotatesIff | src/asr_proxy/selfhost/spool.py:33-34 | whatever fails, an append gives a file the new stamp if and only if the active file plus the record exceeds the limit and the rename does not fail |
| SpoolSize.SilenceMeansWritten | src/asr_proxy/selfhost/spool.py:36-48 | an append that does not raise has its whole record at the end of the active file, and one that could not open, write or sync raises |
| SpoolSize.ActiveFilesAreBounded | src/asr_proxy/selfhost/spool.py:33-40 | in every reachable state the active file of every writer is within the limit, or holds one record that alone is larger |
| SpoolWriter.PlaceKeepsFilesIff | src/asr_proxy/selfhost/spool.py:33-34 | a rotation keeps every rotated file if and only if no other file already has its stamp |
| SpoolWriter.TornWriteMergesLines | src/asr_proxy/selfhost/spool.py:39-40 | after a short write the reader sees the torn line and the next event as one line |
| SpoolDelivery.WriterDelivers | src/asr_proxy/selfhost/spool.py:84-114 | from a cursor after n events a read returns events n, n+1, ... without gap or repeat, moves the cursor after them, drains only earlier files, and is empty only if the next event does not fit |
| SpoolDelivery.AppendKeeps | src/asr_proxy/selfhost/spool.py:27-48 | an append keeps the history sound and only extends it, whether or not it fails at rotation or open |
| SpoolDelivery.AppendKeepsNames | src/asr_proxy/selfhost/spool.py:31-37 | no later file gets the name of an earlier one, so a path that is gone stays gone |
| SpoolDelivery.AtIsStable | src/asr_proxy/selfhost/spool.py:83-93 | appends and rotations never move a committed cursor to another event |
| SpoolDelivery.UnlinkKeeps | src/asr_proxy/selfhost/runtime.py:120 | unlinking the oldest file leaves every cursor past it in place, and all its events were consumed |
| SpoolDelivery.UnlinkKeepsList | src/asr_proxy/selfhost/runtime.py:120 | when one call unlinks a file, every other call's list still names missing files and then the oldest ones |
| SpoolSystem.ReadIsSound | src/asr_proxy/selfhost/spool.py:82-116 | a pass over many writers treats each of them soundly |
| SpoolSystem.ReadAdvances | src/asr_proxy/selfhost/spool.py:82-116 | a pass delivers something if and only if some writer's next event fits the budget |
| SpoolSystem.StepKeepsInv | src/asr_proxy/selfhost/runtime.py:113-121 | every append, rotation, read, commit, failure, crash and unlink, of calls that overlap as the state lock allows, keeps stored events, cursor and every list of paths consistent |
| SpoolSystem.ExactlyOnce | src/asr_proxy/console/store.py:122-126 | after any run, overlapping calls included, the stored events of a writer are a prefix, in order and once each, of what it appended, and the rest is on disk |
| SpoolSystem.OnlyCommittedFilesAreDeleted | src/asr_proxy/selfhost/runtime.py:115-120 | in any run the next path of each call's list is missing, and unlinking it changes nothing, or is its writer's oldest file with every event in it stored |
| SpoolSystem.LostPathsReturnIff | src/asr_proxy/selfhost/runtime.py:113-121 | a file before the cursor whose path was lost is listed for unlinking again if and only if the call's pass comes to its writer within the budget and stores an event or moves a cursor |
| SpoolSystem.PassAdvancesIff | src/asr_proxy/selfhost/spool.py:94-116 | in any reachable state a pass delivers an event if and only if some unread next event fits the limit |
| SpoolSystem.NothingIsDropped | src/asr_proxy/selfhost/spool.py:100-105 | in any reachable state in which only events were appended, the reader drops no line |
| SpoolSystem.ControlPlane.InsertRows | src/asr_proxy/console/store.py:122-126 | rows and cursor are stored together or not at all |
| SpoolSystem.ControlPlane.IngestEvents | src/asr_proxy/selfhost/runtime.py:113-121 | one pass, one commit, and the paths to unlink only after it |
| SpoolTorn.TornFileIsSealed | src/asr_proxy/selfhost/spool.py:33-40 | a short write and the next rotation leave a sealed file that ends in a torn line |
| SpoolTorn.TornFileHoldsBack | src/asr_proxy/selfhost/spool.py:94-114 | from a cursor in such a file, over any further run with torn writes, failures and overlapping calls, the cursor stays before the torn line, the file stays, and only its own whole lines are stored |
| Spans.SortIsSorted | src/asr_proxy/inspection/engine.py:74 | the findings are sorted by start and end and none is lost |
| Spans.MergeIsUnion | src/asr_proxy/inspection/engine.py:73-78 | merged spans are sorted, apart from each other, and cover exactly what the findings cover |
| Spans.MergeSorted | src/asr_proxy/inspection/engine.py:73-78 | the merging loop computes that merge |
| Spans.SpliceBackwards | src/asr_proxy/inspection/engine.py:79-81 | splicing from the last span backwards equals rebuilding from left to right |
| Spans.MaskText | src/asr_proxy/inspection/engine.py:72-81 | the whole of _mask as the program runs it |
| Spans.MaskMeaning | src/asr_proxy/inspection/engine.py:72-81 | for findings in any order and overlap the result is the position-by-position reference: uncovered characters in order, one marker per maximal covered run |
| Spans.OneSpanMaskIsInvisibleIff | src/asr_proxy/inspection/engine.py:79-81 | masking one span leaves the text unchanged if and only if the span already spelled the marker |
| Spans.UnchangedIffNoFindings | src/asr_proxy/inspection/engine.py:72-81 | for findings in any number and overlap, a text that does not spell the marker is left unchanged if and only if there are none |
| Spans.UnchangedMeansCleanIff | src/asr_proxy/inspection/engine.py:72-81 | an unchanged text is free of findings for every possible list of findings if and only if it does not spell the marker |
| Redact.RedactText | src/asr_proxy/inspection/pii.py:363-384 | the scanner's redact as the program runs it, merging, labels and chunks |
| Redact.LabelsAreEntities | src/asr_proxy/inspection/pii.py:369-375 | every finding lies in one span whose label set is exactly the entities of the findings in it |
| Redact.MaskingDropsExactlyTheCovered | src/asr_proxy/inspection/pii.py:376-384 | mask and redact lose no uncovered character, keep their order, and let no covered one through |
| Lanes.RewriteFragment | src/asr_proxy/inspection/engine.py:595-603 | one fragment is starred at exactly the covered positions, and counted as changed if and only if a finding touches it |
| Lanes.RewriteLane | src/asr_proxy/inspection/engine.py:593-603 | the loop over a text lane stars every fragment at its own offset |
| Lanes.Redistribute | src/asr_proxy/inspection/engine.py:580-584 | the loop that cuts the re-encoded value into pieces |
| Lanes.FragmentsSpellStarredText | src/asr_proxy/inspection/engine.py:593-603 | however a lane is cut, each fragment keeps its length and together they spell the starred joined text |
| Lanes.CuttingDoesNotMatter | src/asr_proxy/inspection/engine.py:593-603 | two ways of cutting the same text are masked to the same text |
| Lanes.PiecesSpellReplacement | src/asr_proxy/inspection/engine.py:580-584 | the redistributed pieces spell the replacement, shorter or longer than the original |
| Json.EncodeIsPlain | src/asr_proxy/inspection/protocol.py:53-54 | encoded JSON holds no control character, so no raw line break |
| Json.PutElsewhere | src/asr_proxy/inspection/engine.py:583 | writing one string leaf leaves every other leaf alone |
| Json.PutKeepsShape | src/asr_proxy/inspection/engine.py:602 | writing a string leaf keeps keys, key order, list lengths and all other values |
| Json.LeavesAreComplete | src/asr_proxy/inspection/engine.py:384-412 | walking a tree reaches every string leaf |
| Json.LeavesAreDistinct | src/asr_proxy/inspection/engine.py:384-412 | and reaches each of them once |
| RedactJson.RedactedLeaf | src/asr_proxy/inspection/engine.py:126-145 | a leaf with findings is masked exactly, only at a configured path and under the redact action; any other leaf is unchanged; arguments strings are redacted inside their JSON |
| RedactJson.RedactionKeepsShape | src/asr_proxy/inspection/engine.py:114-145 | redaction keeps keys, key order, list lengths and every value that is not a string |
| RedactJson.BlockNeverRewrites | src/asr_proxy/inspection/engine.py:137-139 | under the block action a redaction that returns changes nothing |
| RedactJson.NumbersAreClean | src/asr_proxy/inspection/engine.py:143-144 | a redaction that returns met no number with findings |
| RedactJson.UnchangedTreeIffClean | src/asr_proxy/inspection/engine.py:114-145 | a tree whose strings do not spell the marker comes back unchanged if and only if no string in it has a finding |
| RedactJson.UnchangedLeafIffClean | src/asr_proxy/inspection/engine.py:122-145 | the same for the string at any place, and, with a parser that reads no encoding as another value of the same shape, for the JSON inside an arguments string |
| FieldPointer.PointerReadsBack | src/asr_proxy/inspection/engine.py:24-27 | spelling names as a pointer and reading it as a pattern gives back the names, for all characters in them |
| FieldPointer.FieldAllowedIff | src/asr_proxy/inspection/engine.py:24-30 | a path is allowed if and only if some pattern has as many names and each of them is the path's own or the wildcard |
| Sse.PrintStream | src/asr_proxy/inspection/engine.py:606-613 | the printing loop computes the specified stream |
| Sse.KeepLines | src/asr_proxy/inspection/engine.py:611 | exactly the lines that are not data are kept, in order |
| Sse.SplitOfJoinedPieces | src/asr_proxy/inspection/engine.py:421 | splitting on blank lines undoes joining with them |
| Sse.PrintedBlankIff | src/asr_proxy/inspection/engine.py:607-612 | a printed event contains a blank line if and only if it carries a payload, its block ended blank and another line is kept |
| Sse.PrintThenFrame | src/asr_proxy/inspection/engine.py:421-445 | a printed stream frames to the same events in the same order, with their lines other than data and the printed payloads |
| Sse.BrokenPrintGainsEvent | src/asr_proxy/inspection/engine.py:612-613 | when the last event breaks, the printed stream frames to exactly one event more |
| SseLanes.CollectListsLeaves | src/asr_proxy/inspection/engine.py:384-419 | collect lists the string leaves of an event, each once and in document order; in which lanes is SseTextLaw.LanesAreTexts |
| SseClient.CollectInLane | src/asr_proxy/inspection/engine.py:384-412 | every collected leaf is in the lane of its names, where elements of choices, tool_calls and candidates are named by their index and all others by key or position |
| SseClient.LaneIffCarries | src/asr_proxy/inspection/engine.py:345-382 | for each of the five protocols, a leaf is in the lane of a client's text, kind included, if and only if it carries a piece of that text |
| SseClient.KeysApart | src/asr_proxy/inspection/engine.py:345-382 | two different texts never share a lane |
| SseJoined.PiecesStay | src/asr_proxy/inspection/engine.py:571-603 | after redaction the pieces of a text are the same leaves as before, because types, item identifiers and indexes are left alone |
| SseTexts.AssembledIsJoined | src/asr_proxy/inspection/engine.py:384-412 | the text that a client assembles by lookups in one event after another is all its pieces joined in document order |
| SseTexts.CollectWellNamed | src/asr_proxy/inspection/engine.py:396-411 | in a collected event no two places have the same names, because repeated indexes are refused |
| SseTextLaw.ClientTextIsRedacted | src/asr_proxy/inspection/engine.py:317-613 | end to end and without lanes: for every text that a client of an accepted stream assembles by lookups (content and refusal per choice, function and tool call fields, Responses deltas per item, output and content index, Anthropic blocks, Gemini parts) the output spells the whole text starred at its findings, or its JSON redacted as one value, or, for structural text, the same text, which has no finding |
| SseTextLaw.ResultTextIsRedacted | src/asr_proxy/inspection/engine.py:377-378 | the same for all text items of one MCP result |
| SseTextLaw.LoneStringIsRedacted | src/asr_proxy/inspection/engine.py:345-382 | every other string of an accepted stream is inspected by itself: as JSON, as structural text or as text, by the last of its names |
| SseTextLaw.LanesAreTexts | src/asr_proxy/inspection/engine.py:345-412 | in an accepted stream the lane of a text holds all its pieces and nothing else |
| SseTextLaw.TextsStayIff | src/asr_proxy/inspection/engine.py:361-363 | in a Responses stream whose arguments have scalar content indexes every event carries pieces of the same texts before and after if and only if no such index is itself starred |
| SseRewrite.Group | src/asr_proxy/inspection/engine.py:412 | grouping keeps the order of first appearance of lanes and of entries in a lane |
| SseRewrite.WriteMany | src/asr_proxy/inspection/engine.py:581-584 | writing distinct leaves gives each its new text and touches nothing else |
| SseRewrite.LanesRewritten | src/asr_proxy/inspection/engine.py:571-603 | every lane ends as starred text or re-encoded JSON, findings in plain lanes only survive acceptance in text lanes under the redact action, and nothing but string leaves of lanes changes |
| SseRewrite.ChangedIffAnyHits | src/asr_proxy/inspection/engine.py:571-603 | a stream counts as changed if and only if some text lane has a finding in its joined text or some JSON lane is redacted to another value |
| SseRewrite.JsonLaneHitsIff | src/asr_proxy/inspection/engine.py:575-585 | a JSON lane that does not spell the marker has something to redact if and only if some string of its value has a finding |
| StreamWellFormed.TokensAccepted | src/asr_proxy/inspection/engine.py:493-529 | the Anthropic automaton accepts a trace if and only if it is well formed by an independent definition |
| StreamWellFormed.AnthropicAcceptedIff | src/asr_proxy/inspection/engine.py:493-529 | a stream of Anthropic events that pass their own checks is accepted if and only if its trace is well formed |
| StreamWellFormed.AcceptedAnthropicIsWellFormed | src/asr_proxy/inspection/engine.py:558-566 | a stream is accepted as an Anthropic one if and only if all its events are Anthropic and pass their own checks and its trace is well formed |
| StreamWellFormed.BlocksAreBracketed | src/asr_proxy/inspection/engine.py:506-517 | in a well-formed trace each block is opened once, closed once later, and its deltas lie in between |
| StreamWellFormed.GeminiAcceptedIff | src/asr_proxy/inspection/engine.py:530-553 | a Gemini stream is accepted if and only if it shows a candidate, all shown candidates finish, and none carries parts after finishing |
| StreamWellFormed.AcceptedGeminiIsWellFormed | src/asr_proxy/inspection/engine.py:558-569 | a stream is accepted as a Gemini one if and only if all its events are Gemini and pass their own checks and its candidates meet that condition |
| StreamWellFormed.AcceptedChatIff | src/asr_proxy/inspection/engine.py:558-566 | a stream is accepted as a chat stream if and only if it consists of chat chunks that pass their own checks and of one end marker, which comes last |
| StreamWellFormed.AcceptedResponsesIff | src/asr_proxy/inspection/engine.py:558-566 | a stream is accepted as a Responses stream if and only if all its events are of that family, pass their own checks, and exactly the last one completes or fails the response |
| StreamWellFormed.AcceptedIff | src/asr_proxy/inspection/engine.py:446-569 | the protocol checks accept nothing at all or one whole stream of one of the five protocols, and nothing else |
| SsePipeline.ReadLines | src/asr_proxy/inspection/engine.py:422-443 | the loop over an event's lines collects data and checks every other line |
| SsePipeline.GatherAll | src/asr_proxy/inspection/engine.py:421-564 | the loop over the events parses, checks and collects as specified |
| SsePipeline.RewriteAll | src/asr_proxy/inspection/engine.py:571-603 | the loop over the lanes rewrites as specified |
| SsePipeline.RewriteEvents | src/asr_proxy/inspection/engine.py:421-603 | from the framed events to the rewritten trees, as the program runs it |
| SsePipeline.RedactStream | src/asr_proxy/inspection/engine.py:317-613 | _redact_sse as the program runs it, by the specification whose meaning for a client is SseTextLaw.ClientTextIsRedacted |
| SsePipeline.DefaultedAddsOnlyIndexes | src/asr_proxy/inspection/engine.py:530-538 | the default adds an index of 0 to candidates that have none and changes no other place, so no string leaf |
| SsePipeline.GatherPartitions | src/asr_proxy/inspection/engine.py:384-419 | over a whole stream every string leaf of every event is in exactly one lane exactly once |
| SsePipeline.GatheredItems | src/asr_proxy/inspection/engine.py:421-445 | what the protocol checks see is exactly the stream's own events, in order |
| SsePipeline.AcceptedStream | src/asr_proxy/inspection/engine.py:317-613 | what an accepted stream is: the automaton accepted its own events, leaves partitioned into lanes, shape kept, every lane masked or re-encoded |
| SsePipeline.AcceptedStreamIsWhole | src/asr_proxy/inspection/engine.py:421-569 | the events of an accepted body are one whole stream of one protocol |
| SsePipeline.AcceptedAnthropicStream | src/asr_proxy/inspection/engine.py:446-566 | an accepted stream that begins with an Anthropic event is Anthropic throughout and its own events form a well-formed trace |
| SsePipeline.AcceptedGeminiStream | src/asr_proxy/inspection/engine.py:446-569 | an accepted stream that begins with a Gemini event is Gemini throughout, shows a candidate, and each one shown finishes and is then quiet |
| SsePipeline.BodyIsRedacted | src/asr_proxy/inspection/engine.py:317-323 | an accepted body comes back byte for byte if and only if no lane has anything to redact, or the print of the rewritten events happens to equal it |
| SsePipeline.RedactedStreamFramesAgain | src/asr_proxy/inspection/engine.py:604-613 | a client framing the redacted stream sees the same events with rewritten payloads, unless the last block breaks, and then exactly one event more |
| SseClean.MetadataIff | src/asr_proxy/inspection/engine.py:424-443 | the other lines of an event are accepted if and only if each passes the screen without a finding and has a known field with a numeric retry, and no field but the comment comes twice |
| SseClean.AcceptedIsClean | src/asr_proxy/inspection/engine.py:384-419 | in an accepted stream no key and no number has a finding, a provider's creation times apart, and no value carries an encoded payload or token bytes |
| SseClean.LineEnds | src/asr_proxy/inspection/engine.py:319 | a carriage return, with a line feed that follows it, becomes one line feed, and nothing else changes |
| SseBreaking.OneMoreNewlineBreaks | src/asr_proxy/inspection/engine.py:321-323 | when the screens pass an empty line, a redacted stream whose last event carries JSON beside another line is still accepted with one more newline, with the same events, but its print then frames to one event more |
| SseBreaking.RedactedReplyBreaks | src/asr_proxy/inspection/engine.py:606-613 | a concrete accepted and redacted body of one event whose print frames to two |
| Access.LegacyNeverSpendsBound | src/asr_proxy/access_broker/broker.py:412-420 | a legacy request never matches a digest-bound approval and strict evaluation blocks it |
| Access.StrictIsMonotone | src/asr_proxy/access_broker/broker.py:251-331 | direct from the verdict, whose transaction is AccessStore.Broker.Answer: shrinking scopes, disabling, raising the tier, shortening expiries or removing records never turns a strict refusal into an allow |
| Access.LegacyShrinkKeepsRefusalsIff | src/asr_proxy/access_broker/broker.py:131-145 | a narrower legacy list admits nothing new if and only if it is not emptied, was empty, or admitted everything |
| Access.LegacyIsMonotoneUnlessEmptied | src/asr_proxy/access_broker/broker.py:114-189 | as long as no list that decide reads is emptied, less privilege never yields a new legacy allow, for every request and time |
| Access.LegacyNarrowingIsSafeIff | src/asr_proxy/access_broker/broker.py:131-189 | narrowing one of the four lists gives no request on any book a new legacy allow if and only if the list is not emptied, was empty, or admitted everything |
| Access.LegacyIsNotMonotone | src/asr_proxy/access_broker/broker.py:131-137 | a concrete agent whose emptied tool list turns a legacy block into an allow |
| Access.GrantsStayInBounds | src/asr_proxy/access_broker/broker.py:213-243 | in both modes a token exists exactly on allow; it and a new approval name the request's digest and scope and end at their time to live or with the delegation of a request on a user's behalf, whichever is earlier |
| Access.LegacyTakesOnlyUnbound | src/asr_proxy/access_broker/broker.py:103-113 | decide judges a request itself if and only if it is on a user's behalf, has no digest and names no digest-bound approval |
| AccessLaw.AuthorizeIff | src/asr_proxy/access_broker/broker.py:251-331 | in record fields and literals: authorize allows if and only if tenant, digest, registered and enabled agent, tool, resource, and autonomous conditions or the whole delegation are in order, and a high tier or one of the six actions comes with a bound, matching, approved, unconsumed and unexpired approval; it asks for an approval if and only if only that is missing or still pending |
| AccessLaw.AuthorizeReason | src/asr_proxy/access_broker/broker.py:251-331 | the reason of a block is that of the first condition that fails, in the source's order, and each other answer has its own |
| AccessLaw.LegacyIff | src/asr_proxy/access_broker/broker.py:114-196 | the same for a legacy decision, whose approval needs neither to be unexpired nor unconsumed |
| AccessSettle.SettleIff | src/asr_proxy/access_broker/broker.py:362-381 | approve and deny return if and only if the approval exists and, if bound, is pending, unconsumed and unexpired; approve leaves it approved and deny denied, and nothing else changes |
| AccessSettle.StatusHasAuthor | src/asr_proxy/access_broker/broker.py:362-381 | over any run a bound approval that is not pending has the status that an effective approve, or deny, of it gave it |
| AccessSettle.SpentWasApproved | src/asr_proxy/access_broker/broker.py:204-249 | over any run a request let through on a bound approval means that an approve of it took effect before and no deny ever did |
| AccessSettle.DeniedIsNeverSpent | src/asr_proxy/access_broker/broker.py:362-381 | in every state after an effective deny of a bound approval nothing was let through on it and it stays denied |
| AccessRuns.TransactionKeeps | src/asr_proxy/access_broker/broker.py:204-249 | every store transaction keeps an approval's record and its audit trail in step, and only moves its life forward |
| AccessRuns.OneTimeUse | src/asr_proxy/access_broker/broker.py:204-249 | over any run of any number of processes a digest-bound approval lets at most one request through, the bound one, after its approval in the trail, with exactly one consumption in the durable trail; that this approval is an approve step is AccessSettle.SpentWasApproved |
| AccessRuns.DecidedIsFinal | src/asr_proxy/access_broker/broker.py:362-381 | denied and consumed approvals never change again, and a denied one never lets anything through |
| AccessRuns.MirrorErasure | src/asr_proxy/access_broker/broker.py:198-202 | deleting every evaluate from a run leaves the same file, the same strict answers, and the same legacy answers to requests that name an approval |
| AccessRuns.FreshMirrorErasure | src/asr_proxy/access_broker/broker.py:198-202 | when every evaluate comes with the file in its process's cache, deleting them leaves file, caches and all other answers of every kind the same |
| AccessRuns.MirrorIsInvisibleIff | src/asr_proxy/access_broker/broker.py:114-202 | an evaluate changes no book that any later answer reads if and only if the cache it refreshes held the file already |
| AccessRuns.MirrorForecasts | src/asr_proxy/access_broker/broker.py:198-209 | corollary of the definitions of evaluate and authorize, whose methods are AccessStore.Broker.EvaluateRequest and AuthorizeRequest: evaluate and authorize agree on action and reason on the same file at the same time, whatever the caches |
| AccessRuns.MirrorChangesLegacy | src/asr_proxy/access_broker/broker.py:114-162 | a concrete run in which an evaluate changes a later legacy answer through the cache |
| AccessStore.FileStore.Persist | src/asr_proxy/access_broker/store.py:192-227 | the disk is replaced as a whole or not at all, for each point of failure |
| AccessStore.FileStore.Begin | src/asr_proxy/access_broker/store.py:107-120 | an outer transaction starts from the disk, a nested one joins |
| AccessStore.FileStore.End | src/asr_proxy/access_broker/store.py:121-130 | an outer transaction commits when dirty, and after any failure the cache is the disk again |
| AccessStore.FileStore.UpsertApproval | src/asr_proxy/access_broker/store.py:155-159 | inside a transaction the record waits for the commit, alone it is a transaction of its own |
| AccessStore.FileStore.AppendAudit | src/asr_proxy/access_broker/store.py:161-165 | the same for an audit event |
| AccessStore.Broker.Answer | src/asr_proxy/access_broker/broker.py:206-249 | the body of authorize leaves exactly the specified pending records and answer; what the answer requires is AccessLaw.AuthorizeIff |
| AccessStore.Broker.AuthorizeRequest | src/asr_proxy/access_broker/broker.py:204-249 | authorize as a transaction is the step of the run model, for each fault; its answer is AccessLaw.AuthorizeIff |
| AccessStore.Broker.SettleApproval | src/asr_proxy/access_broker/broker.py:362-381 | approve and deny as a transaction are the step of the run model; refused ones change nothing; what it leaves is AccessSettle.SettleIff |
| AccessStore.Broker.EvaluateRequest | src/asr_proxy/access_broker/broker.py:198-202 | evaluate reloads, answers and writes nothing; its answer has the action that AccessLaw.AuthorizeIff gives |
| AccessStore.Broker.DecideLegacy | src/asr_proxy/access_broker/broker.py:103-196 | which requests decide hands to authorize, and on which book it judges the others; its own answers are AccessLaw.LegacyIff |
| Policy.SnapshotPublisher.HighestRevision | src/asr_proxy/selfhost/snapshot.py:88-90 | the loop finds the highest revision in history |
| Policy.SnapshotPublisher.Publish | src/asr_proxy/selfhost/snapshot.py:98-116 | history, pointer and answer after a publication, for each point at which it can stop |
| PolicyLaw.PublishIff | src/asr_proxy/selfhost/snapshot.py:98-116 | a publication changes something if and only if its content is not the readable current one; it then takes the least revision above all that were used, writes history first and the pointer second, and a stop in between leaves the pointer alone |
| PolicyLaw.PublishTwice | src/asr_proxy/selfhost/snapshot.py:104-105 | publishing the same content again changes nothing and answers the same revision |
| Policy.DataplaneRuntime.Refresh | src/asr_proxy/selfhost/dataplane.py:73-110 | all fields after a refresh, and it answers true exactly when the snapshot changed |
| PolicyLaw.RefreshFields | src/asr_proxy/selfhost/dataplane.py:73-110 | every field after a refresh: a file not looked at changes nothing; one that is looked at leaves its fingerprint, a rejection if and only if something stands in the way, a restart request if and only if the connection changed, and else the newer snapshot |
| Policy.AppliedIsMinimum | src/asr_proxy/selfhost/dataplane.py:161-166 | the applied revision is known if and only if every process reported, and is then their minimum |
| Policy.AppliedRevision | src/asr_proxy/selfhost/dataplane.py:161-166 | the computation in status |
| Policy.WaitApplied | src/asr_proxy/selfhost/runtime.py:95-101 | answers true if and only if some poll before the deadline reported at least the revision |
| PolicyRuns.PublishAnswers | src/asr_proxy/selfhost/snapshot.py:98-116 | an answered revision is current with exactly this content, and no revision is used for two contents |
| PolicyRuns.HalfPublicationIsHarmless | src/asr_proxy/selfhost/snapshot.py:113-115 | corollary of PublishAnswers: a publisher that stops between history and pointer changes no pointer, and its revision is not reused |
| PolicyRuns.StepKeepsInv | src/asr_proxy/selfhost/dataplane.py:73-115 | publishing, refreshing, crashing, respawning and polling one process at a time keep every member at or above what was reported of it |
| PolicyRuns.WaitedIsAcknowledged | src/asr_proxy/selfhost/runtime.py:95-101 | when wait_applied answers true to the applied revisions that the rounds of a run computed, the run has acknowledged the revision |
| PolicyRuns.ApplyThenEnforce | src/asr_proxy/selfhost/runtime.py:87-101 | once revision r is acknowledged, every later stream on any member, respawned ones included, is inspected under a published policy of revision at least r |
| PolicyRuns.WaitThenEnforce | src/asr_proxy/selfhost/runtime.py:87-101 | once wait_applied has answered true for r, every later stream is inspected under a published policy of revision at least r |
| PolicyRuns.AcknowledgedPolicyIsEnforced | src/asr_proxy/selfhost/runtime.py:87-93 | while the pointer stands at the acknowledged revision every member enforces exactly that policy |
| PolicyRuns.RevisionsOnlyGrow | src/asr_proxy/selfhost/dataplane.py:89-97 | until it is stopped a process keeps its snapshot or replaces it by a newer revision |
| PolicyRuns.SkippedRefreshMissesNothing | src/asr_proxy/selfhost/dataplane.py:75-80 | a refresh skipped on an unchanged fingerprint misses nothing: the file is held, or was looked at and refused |
| PolicyRuns.LoadTakesCurrentIff | src/asr_proxy/selfhost/dataplane.py:73-110 | a refresh ends with the current snapshot in force if and only if it was before, or the file is looked at, readable, of the same connection and buildable |
| PolicyRuns.GoodFileIsTakenIff | src/asr_proxy/selfhost/dataplane.py:75-80 | an unforced refresh that saw a good current file has it in force afterwards if and only if it had before, or the fingerprint on record is another |
| PolicyRuns.NotTakenStaysNotTaken | src/asr_proxy/selfhost/dataplane.py:77-102 | a file looked at and not taken over is not taken over later, until the pointer is written, a refresh is forced or the process restarts |
| PolicyRuns.OneFailureBlocksTheFile | src/asr_proxy/selfhost/dataplane.py:101-102 | a concrete run in which one failure to build keeps a good file out of force |
| Attestation.AttestationVerifier.Verify | src/asr_proxy/inspection/identity.py:66-100 | when an attestation is accepted, and the nonce table afterwards |
| Attestation.AcceptsIff | src/asr_proxy/inspection/identity.py:66-100 | an attestation is accepted if and only if it is authentic, its life is positive and no longer than the maximum age, the reading is before its expiry and at most five seconds before its issue, and no remembered nonce is its own; its nonce is then stored with its expiry, and of the others exactly those past their expiry and slack are purged |
| Attestation.AcceptedBriefly | src/asr_proxy/inspection/identity.py:85-88 | all readings at which one attestation is accepted lie within the maximum age plus five seconds |
| Attestation.NonceStays | src/asr_proxy/inspection/identity.py:93-97 | a consumed nonce stays until some reading is more than five seconds past its expiry |
| Attestation.NoReplay | src/asr_proxy/inspection/identity.py:66-100 | a clock that falls by at most six seconds never lets one attestation be consumed twice |
| Attestation.ReplaySafetyIff | src/asr_proxy/inspection/identity.py:85-97 | replay is impossible in every run if and only if the clock falls by at most six seconds |
| Attestation.OldNoncesAreGone | src/asr_proxy/inspection/identity.py:96 | after a consumption no nonce older than the slack is left |
| AsciiJson.EscapeSplits | src/asr_proxy/inspection/identity.py:38 | no character escape is the beginning of another, surrogate pairs included |
| AsciiJson.QuotedSplits | src/asr_proxy/inspection/identity.py:38 | a JSON string and what follows it can be told apart |
| AsciiJson.EscapedIsAscii | src/asr_proxy/inspection/identity.py:38 | the digested text is printable ASCII |
| Digest.SortedIsCanonical | src/asr_proxy/inspection/identity.py:38 | sorted keys make the text independent of header order |
| Digest.MembersSplit | src/asr_proxy/inspection/identity.py:32-38 | the headers object determines the sorted header list |
| Digest.IgnoredHeaderIsFree | src/asr_proxy/inspection/identity.py:17-29 | a transport, pseudo or reserved header may be inserted anywhere without effect |
| Digest.DigestBinds | src/asr_proxy/inspection/identity.py:21-38 | two messages share the digested text if and only if method, authority, path, body hash and all application headers agree |
| ExtProc.Process | src/asr_proxy/inspection/server.py:124-249 | the event loop gives exactly the specified replies, whose end is ExtProcEnd.FinalReplyIff |
| ExtProcEnd.FinalReplyIff | src/asr_proxy/inspection/server.py:124-249 | for every sequence of messages and every way in which the stream ends: each message up to the first that is not fine is answered in its kind, at most one reply follows, none if and only if the stream was cancelled or ended with both directions checked, and each kind of final reply exactly for its own cause: deadline, crash, early end, or a refusal, a blocking verdict or a message out of sequence |
| ExtProc.StreamIsSafe | src/asr_proxy/inspection/server.py:124-249 | replies come in the legal order, each answers its own message, none of the response phase precedes a verdict that let the request through, a final answer is last |
| ExtProc.CleanEndIff | src/asr_proxy/inspection/server.py:235-240 | a stream that is not cancelled and whose messages end by themselves closes without a final answer if and only if all messages were legal and both directions were checked |
| Evidence.StreamInspection.Persist | src/asr_proxy/console/dataplane.py:70-100 | the record that is appended and whether storing it raises, by mode |
| Evidence.StreamInspection.Note | src/asr_proxy/console/dataplane.py:33-61 | the verdicts noted after each message: judged, refused or out of sequence |
| Evidence.StreamInspection.Finish | src/asr_proxy/console/dataplane.py:63-68 | nothing more is stored once finished; an error leaves it unfinished |
| Evidence.StreamInspection.Serve | src/asr_proxy/console/dataplane.py:109-135 | the console's stream loop over the messages: verdicts, the no-body flag, the record before a terminal reply, for every place at which the caller goes away and every storage outcome |
| Evidence.KnownIsJudged | src/asr_proxy/console/dataplane.py:33-61 | a noted verdict other than a block is one the engine gave on a message that was read |
| Evidence.EvidenceBeforeFinalReply | src/asr_proxy/console/dataplane.py:127-132 | corollary of Evidence.StreamInspection.Serve: no terminal reply is handed on before completed evidence; in inline mode exactly one record is then stored |
| Evidence.RecordCount | src/asr_proxy/console/dataplane.py:63-68 | corollary of Evidence.StreamInspection.Serve: at most two records; two, none and one each under an exact condition; exactly one when storage works |
| Evidence.LenientRecordIsEarned | src/asr_proxy/console/dataplane.py:70-74 | an allow or redact record means a completed stream in which the engine gave that verdict on a message that was read |
| Evidence.ServedStreamHasEvidence | src/asr_proxy/console/dataplane.py:117-135 | over any inline stream a final reply, header-only responses included, implies one stored completed record of the verdicts so far and, in the response phase, an earlier verdict that let the request through |
| EvidenceLaw.JudgedTable | src/asr_proxy/console/dataplane.py:70-74 | the action on record by verdict: one of the response that is no allow comes first, then that of the request; allow and redact only for a completed stream, and unknown otherwise |
| EvidenceLaw.CompletedRecord | src/asr_proxy/console/dataplane.py:33-100 | the record of a completed inline stream in the outcomes of its messages: the verdict that ended it, block for a refusal or a message out of its place, redact for a redacted response, and else the verdict on the request |
| Slots.SlotsAreConserved | src/asr_proxy/inspection/server.py:72-95 | free slots plus running scans are the maximum in every run, and each slot taken is returned once |
| Slots.AbandonedScanKeepsItsSlot | src/asr_proxy/inspection/server.py:89-95 | a scan whose caller is gone keeps its slot until it ends |
| Slots.InspectionWorkers.Arrive | src/asr_proxy/inspection/server.py:77-79 | a caller that waits takes no slot yet |
| Slots.InspectionWorkers.Start | src/asr_proxy/inspection/server.py:79-89 | taking a slot and creating the task keep slots and scans balanced |
| Slots.InspectionWorkers.Cancel | src/asr_proxy/inspection/server.py:95 | cancelling a caller frees no slot and stops no scan |
| Slots.InspectionWorkers.Finished | src/asr_proxy/inspection/server.py:90-94 | the end of a scan returns its slot |
| Slots.AdmissionIsBalanced | src/asr_proxy/selfhost/gateway.py:43-64 | requests in flight and waiting stay within the limit each, and no slot or seat is lost or returned twice |
| Slots.RefusedIff | src/asr_proxy/selfhost/gateway.py:48-50 | a request is refused if and only if no slot is free at once and waiting is off or full |
| Slots.Admission.TryEnter | src/asr_proxy/selfhost/gateway.py:46-60 | admission up to the point where a request is in, waits or is refused |
| Slots.Admission.EndWait | src/asr_proxy/selfhost/gateway.py:52-58 | however a wait ends, its seat is given back |
| Slots.Admission.Exit | src/asr_proxy/selfhost/gateway.py:61-64 | however a request ends, its slot is given back |
| CheckDigits.CnDetectsSubstitution | src/asr_proxy/inspection/pii.py:30-44 | no single wrong character of a valid Chinese number stays valid |
| CheckDigits.CnDetectsTransposition | src/asr_proxy/inspection/pii.py:30-44 | no swap of unequal neighbours stays valid, check character included |
| CheckDigits.ValidJpMyNumber | src/asr_proxy/inspection/pii.py:47-58 | the loop that counts positions from the right computes the weighted check |
| CheckDigits.JpSubstitution | src/asr_proxy/inspection/pii.py:52-58 | every wrong base digit changes the remainder, and stays valid if and only if the remainder moves between 0 and 1 |
| CheckDigits.JpTransposition | src/asr_proxy/inspection/pii.py:52-58 | the same for a swap of unequal neighbours in the base |
| CheckDigits.JpDetectsCheckDigit | src/asr_proxy/inspection/pii.py:56-58 | a wrong check digit is always detected |
| CheckDigits.JpUndetectedChange | src/asr_proxy/inspection/pii.py:56-58 | two valid numbers that differ in one base digit |
| CheckDigits.NirDetectsSubstitution | src/asr_proxy/inspection/pii.py:61-73 | no single wrong character of a valid French number stays valid, Corsican departments included |
| CheckDigits.NirDetectsTransposition | src/asr_proxy/inspection/pii.py:61-73 | no swap of unequal neighbours stays valid, in the base, in the key or across them |

## Left out

Abstractions:

- An evidence event is identified with its JSON line; which lines parse as objects is a parameter of the reader.
- A read pass is one step: it is not interrupted by a rotation, and an unlink during it either touches files that it does not open or makes it raise.
- SpoolDelivery.AppendKeeps: rotation stamps of a writer increase and a line is written whole or not at all, because the file history is then a list of whole lines; what happens otherwise is shown by SpoolWriter.PlaceKeepsFilesIff, SpoolWriter.TornWriteMergesLines and SpoolTorn.TornFileHoldsBack.
- The detector, the JSON parser, and the signature and secret screens are parameters. Assumed is that findings lie inside the text and, only where arguments strings are compared, that the parser reads the encoding of a value as no other value of the same shape, and, where a client's lookups are concerned, that it refuses repeated keys (SseTexts.StrictParser).
- JSON trees are values with positional places; that the engine's references alias the parsed objects is the meaning given to writing at a place.
- The list of entity names collected for the audit record is not modelled.
- Error codes inside the protocol automata and lane selection are merged into one rejection; which of two errors is reported first is not captured.
- A content index that is not an integer is spelled as JSON in lane names; Python's text of such a value is not modelled.
- SseTextLaw.ClientTextIsRedacted: for tool-call arguments of the Responses protocol, content indexes that are lists or objects are excluded, because their text is not modelled, and so are those that are starred, by SseTextLaw.TextsStayIff.
- The text items of an MCP result are joined in document order (SseTextLaw.ResultTextIsRedacted) and not by lookups, because a result has any number of them.
- Float numbers keep their text; arithmetic on them does not occur.
- Text is a sequence of Unicode scalar values; decoding and encoding UTF-8 are not modelled.
- Signatures, HMAC and SHA-256 are taken as unforgeable and are represented by flags or by the text they cover; JWT, OAuth, SQLite and gRPC are reduced to the steps named in each module.
- Broker times are seconds of an aware clock; comments, display texts, decision and event identifiers and creation times of records are not modelled; new approval identifiers are assumed fresh.
- The two or three transactions of a legacy decision and of registering a record are separate steps of the run model; PutLegacyApproval and Note over-approximate them.
- Two writes of the policy pointer are assumed to differ in inode, size or time stamp; only the publisher writes it.
- Timeouts of wait_applied are represented by the list of polls made before the deadline.
- A scan that outlives its stream may still note a verdict before the incomplete record is built; such a record is never lenient.
- Semaphores are counters with the sets of their holders; the order in which waiters are served is not modelled.
- National identifiers are taken after separators are removed and letters are raised.

Parts of the repository without a model:

- The console, its locales, documentation scripts, examples and benchmarks.
- FastAPI and httpx plumbing, Docker and Envoy rendering, subprocess control and signals.
- Login, passwords, sessions, staged settings, URL egress checks, provider profiles and configuration validation.
- Presidio, regular expressions and secret heuristics.
- Latency metrics and supervisor back-off.
- The remaining validators of national identifiers, which have no check arithmetic of this kind.
