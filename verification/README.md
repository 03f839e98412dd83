# qwertty's sans-io core in Dafny

qwertty reads a terminal's byte stream, tokenizes it, turns tokens into key, paste and report
events, and matches replies to the queries a program has sent. This project models that core in
Dafny and proves what its documentation promises of it, over every input, every chunking and every
run.

## What is modelled

- **Tokenizer** (`src/syntax.rs`). `Grammar` is the reference: one step at a token boundary, runs
  over whole buffers, control strings and bracketed pastes. `SyntaxParser.dfy` is the streaming
  parser as the source writes it: accumulators, scanning loops, a state swapped on every `feed`.
  `SplitEquivalence`, `Reconstruction`, `Bounds` and `PasteExact` are the promises: any chunking, no
  byte lost, bounded memory, pastes that end at their first end bracket. `SequenceRoundTrips` and
  `StringFraming` say what complete sequences read back as, `Recovery` what interrupted ones come to.
- **Decoder** (`src/event.rs`, `src/event/`). `Events` and `Decoder` map tokens to events;
  `DrainBoundary` compares drivers that flush parked text at different read boundaries.
  `TextRoundTrips`, `KeyRoundTrips`, `PasteRoundTrip` and `Win32RoundTrip` take what is typed or
  pasted to the events it must come to, from the bytes.
- **Reports and correlator** (`src/report.rs`, `src/correlate.rs`). `Reports` parses replies;
  `CursorRoundTrip` and `ReportRoundTrips` read printed ones back, and `ReportExactness` says exactly
  what answers each question. `Correlate`, `CorrelatorTable`, `CorrelatorRuns` and `Answers` match
  replies to waiting queries; `Tallies` says which ids wait, what each was minted for and which have
  been answered.
- **From the wire to the caller.** `WireReports` prints every reply; `WireRuns` reads printed replies
  back across any reads, `WireQueries` through queries and `WireProbes` through probes, in both
  sessions.
- **Capability probe** (`src/caps.rs`). `Probe` is its bundle of expectations and what their replies
  record; `Gathering` compares it with a reference that only looks for first matches, from every
  table it can start on.
- **Blocking session** (`src/session.rs`). `OneByte` is the tokenizer lemma its byte attribution
  rests on; `SyncReads`, `SyncSession`, `SyncProbe` and `SyncRuns` specify reads, queries, probes and
  whole runs; `SyncDriver` is the session object, proved against them.
- **Asynchronous session** (`src/tokio_session.rs`). `ResizeQueue`, `EventFates` and `EventFeeds`
  account for queued events; `TokioSession` specifies each operation with every await free to end in
  bytes, an error, a deadline or a dropped future, and `TokioInputs` which reads it uses;
  `TokioConservation`, `TokioRuns`, `ProbeRuns` and `TokioHistory` prove conservation, the sweep
  invariant and first-match answers; `TokioDriver` is the session object, proved against them.
- **Counterexamples.** `DecoderCounterexamples`, `SyncCounterexamples` and `TokioCounterexamples` hold
  the concrete inputs named below.

A read is a byte chunk, and waiting ends in one of a few ways; both are parameters, so every theorem
is about every device and every schedule. The stateless CSI decoders (kitty keys, mouse, focus,
resize, arrows) and the named-key table are the parameter `Tables`: no general result depends on what
they recognize, and those about printed replies ask only that the replies are none of theirs. History
the source does not keep (spans, fates, inputs, the expectation every id was minted for) is carried
beside the state to state conservation, and in the session objects it is ghost.

## Where the code and its documentation part

The model follows the code. Each difference is proved, with the exact condition and an example.

- A string in progress can hold one byte more than its documented bound: a DCS prefix may fill the
  limit and still take its final byte (`Bounds.DocumentedStringBound`,
  `Bounds.DcsPrefixExceedsDocumentedBound`).
- `has_settled_text` and `has_pending_lone_escape` can hold inside a paste that has already delivered
  a segment; a flush there cuts the paste short (`Decoder.SettledTextExactly`,
  `Decoder.LoneEscapeExactly`; `DrainBoundary.ContinuedPasteLooksSettled`,
  `DecoderCounterexamples.EscapeInPasteLooksLone`).
- A boundary flush also releases a held high surrogate (`DrainBoundary.FlushIsHarmlessExactly`,
  `DecoderCounterexamples.BoundaryReleasesSurrogate`), and the flush at an ESC deadline discards the
  event it becomes (`TokioHistory.EveryRunConserves`,
  `TokioCounterexamples.DeadlineDiscardsSurrogate`).
- A stream that stops inside a character ends in different events for different reads of it
  (`DrainBoundary.FlushingDriversAgree`, `DecoderCounterexamples.MidCharacterDisagrees`).
- The bytes of a win32 key report that yields no event are dropped with a reply that follows it
  (`SyncReads.CompleteSpanExactly`, `SyncCounterexamples.SilentReportIsSwallowed`).
- A truncated reply string that is aborted takes the aborting bytes along, a typed Alt-a say, unless
  they open a sequence the decoder then holds (`SyncReads.StringSpanExactly`,
  `SyncCounterexamples.TruncatedReplyTakesKey`); one that has lost nothing never does
  (`SyncReads.UntruncatedSpan`).
- `read_input` goes to the device while the decoder still holds bytes read by a query, so those bytes
  come later than they arrived (`SyncRuns.OvertakenExactly`,
  `SyncCounterexamples.HeldEscapeIsOvertaken`).
- A blocking probe that ends in an I/O error leaves its unanswered expectations registered, one that a
  device's own end-of-input error ends does so and reports findings, and later probes join what was
  left (`SyncProbe.FoundLeavesNothingExactly`, `SyncProbe.ProbesLeaveNothingExactly`;
  `SyncCounterexamples.FailedProbeStaysRegistered`, `SyncCounterexamples.EofProbeStaysRegistered`).
- A late answer to the fence of a failed probe disarms the fence of the next one, which can then only
  run to its deadline (`SyncProbe.FenceEndsExactly`, `SyncCounterexamples.LateReplyDisarmsFence`).

## Model

| member | source | states |
|---|---|---|
| SyntaxParsing.SyntaxParser.FeedChunk | src/syntax.rs:213-283 | one `feed` leaves the state and returns the tokens of the reference function over the state and the chunk; termination is proved, so every step but "need more" advances |
| SyntaxParsing.SyntaxParser.StepAll | src/syntax.rs:223-283 | the `index`/`buffer` loop, held-ESC splice included, is the whole-buffer run |
| SyntaxParsing.SyntaxParser.Finish | src/syntax.rs:293-331 | flushing returns the end-of-input tokens of the state and leaves Ground |
| SyntaxParsing.SyntaxParser.GetPendingBytes | src/syntax.rs:199-206 | the retained bytes of each of the four states |
| SyntaxParsing.SyntaxParser.constructor | src/syntax.rs:178-183 | a new parser is in Ground |
| SyntaxParsing.StepAt | src/syntax.rs:708-726 | the byte dispatch at a token boundary is the reference step at that position |
| SyntaxParsing.ParseEscape | src/syntax.rs:728-743 | likewise after ESC |
| SyntaxParsing.ParseCsi | src/syntax.rs:745-778 | likewise for CSI, the paste start bracket included |
| SyntaxParsing.ParseString | src/syntax.rs:780-841 | likewise for the five string introducers, DCS with its prefix |
| SyntaxParsing.ScanControlPrefix | src/syntax.rs:843-888 | the capped single-byte scan loop is the reference scan: what the maximal runs of markers, parameters and intermediates, the cap and the byte after them decide; `SequenceRoundTrips.PrefixReadsBack` says which fields that gives |
| SyntaxParsing.SkipClass | src/syntax.rs:846-862 | a scanning loop stops after the longest run of its byte class |
| SyntaxParsing.ParseText | src/syntax.rs:890-937 | the text loop cuts at a boundary, at a spoiled character or at the limit, as the reference scan does |
| SyntaxParsing.ParsePlainEscape | src/syntax.rs:939-971 | the intermediate loop, its cap and its aborts |
| SyntaxParsing.ConsumeString | src/syntax.rs:378-463 | the loop stops where the reference scan does, with its token; it reports a re-read of a held ESC only if the ESC was held when it was entered |
| SyntaxParsing.ConsumePaste | src/syntax.rs:647-691 | the loop ends, segments and holds a candidate where the reference scan does |
| SyntaxParsing.StringAccum.PushPayloadByte | src/syntax.rs:474-481 | a byte is retained below the limit and counted above it |
| SyntaxParsing.StringAccum.EmitStringToken | src/syntax.rs:483-514 | the token of the accumulated string; the accumulator is emptied |
| SyntaxParsing.PasteAccum.AdvanceAfterBreak | src/syntax.rs:565-583 | the shift loop commits the bytes before the next live candidate |
| SyntaxParsing.PasteAccum.FlushPendingMatch | src/syntax.rs:585-590 | the held candidate becomes payload |
| SyntaxParsing.PasteAccum.EmitSegment | src/syntax.rs:596-609 | a segment token; the accumulator starts the next segment |
| SyntaxParsing.PasteAccum.IntoFinalToken | src/syntax.rs:611-626 | the final token, flagged as terminated or not |
| Bytes.SpanLenIsLongest | src/syntax.rs:1011-1021 | a class run is the longest prefix of its class |
| Grammar.StepInRange | src/syntax.rs:708-741 | every step that is not "need more" advances, within the buffer, and keeps exactly the bytes it passed, for every limit including 0 |
| Grammar.Shift | src/syntax.rs:565-583 | the least shift that leaves a live candidate: no smaller one does |
| PayloadScan.StringRunIsScan | src/syntax.rs:378-463 | reading inside a string is its scan and then an ordinary run of what is left or re-read |
| PayloadScan.PasteRunIsScan | src/syntax.rs:647-691 | the same inside a paste |
| SplitEquivalence.StepStable | src/syntax.rs:708-743 | a decided step stays decided, with the same result, whatever bytes follow |
| SplitEquivalence.ScanPrefixStable | src/syntax.rs:843-888 | the same for control prefixes |
| SplitEquivalence.ScanTextStable | src/syntax.rs:890-937 | the same for text |
| SplitEquivalence.FeedSplit | src/syntax.rs:213-283 | from any state, feeding two pieces is feeding their concatenation |
| SplitEquivalence.AnyChunking | src/syntax.rs:18-20 | for every input, limit and chunking: the tokens, the state and the flushed tail are those of one whole feed |
| Reconstruction.Lossless | src/syntax.rs:12-17 | over every chunking, emitted tokens stand for consecutive spans of the input and the state holds exactly the rest; after `finish`, nothing is left |
| Reconstruction.ReconstructsInput | src/syntax.rs:12-17 | raw bytes plus dropped counts are the input length, and with nothing dropped the raw bytes are the input |
| Reconstruction.StringPartitions | src/syntax.rs:378-512 | the running form inside a string past its bound, held ESC included |
| Reconstruction.PastePartitions | src/syntax.rs:596-624 | the running form inside a paste, held candidate included |
| Reconstruction.FinishCovers | src/syntax.rs:293-331 | the flush covers what the state held |
| Bounds.FeedIsGood | src/syntax.rs:21-31 | every feed from a reachable state leaves a reachable state and emits only well-bounded tokens; a string token without a terminator has lost bytes, because one aborted before that is malformed instead |
| Bounds.FinishIsGood | src/syntax.rs:973-982 | so does the flush |
| Bounds.MemoryIsBounded | src/syntax.rs:198-206 | pending bytes never exceed limit + 5 (limit + 3 outside a paste), and a held candidate 5 |
| Bounds.EveryRunIsGood | src/syntax.rs:684-686 | over every chunking: bounded state, and a non-final paste segment has between limit and limit + 5 payload bytes |
| Bounds.EveryTextTokenIsText | src/syntax.rs:890-936 | every text token, flushed ones included, is non-empty valid UTF-8 without C0 controls or DEL |
| Bounds.DocumentedStringBound | src/syntax.rs:468-474 | the documented bound, introducer plus limit, holds of a string in progress exactly when its parameter prefix leaves room for itself |
| Bounds.DcsPrefixExceedsDocumentedBound | src/syntax.rs:864-877 | a concrete DCS that exceeds it by one |
| Bounds.TextIsValidAndPrintable | src/event.rs:436-444 | text is valid UTF-8, so decoding a text token cannot fail |
| PasteExact.PasteEndsAtFirstBracket | src/syntax.rs:538-625 | for every body and every limit that admits a paste: the paste ends at the first end bracket, either spelling, and only there; segment payloads concatenate to the bytes before it; first, final and terminated flags are right |
| PasteExact.AdvanceTracks | src/syntax.rs:565-583 | the held candidate is always the longest suffix that begins an end bracket |
| StringFraming.Osc | src/escape.rs:41-50 | the bytes `osc` builds are the payload in the OSC frame |
| StringFraming.Apc | src/escape.rs:58-67 | the bytes `apc` builds are the payload in the APC frame |
| StringFraming.FramingRoundTrip | src/syntax.rs:378-502 | for all five kinds, seven- and eight-bit introducers, every terminator the kind allows and every DCS prefix, in any chunking: the framed payload reads back as one token with the prefix it spells, the payload bytes there is room for and the count of the others, exactly when the payload is free of ESC, CAN, SUB, 0x9c and, for OSC, BEL |
| StringFraming.PlainReadsBack | src/syntax.rs:378-502 | the same with arbitrary bytes behind the frame |
| Reports.ParseDecimalLoop | src/report.rs:1055-1068 | the checked multiply-and-add loop returns a value exactly when the field is non-empty, all digits and in range, and then its value |
| Reports.ParseOneBasedU16Loop | src/report.rs:1075-1091 | the one-based form refuses zero |
| Reports.ParseHexChannelLoop | src/report.rs:1033-1050 | a channel of one to four hex digits is its left-aligned high byte |
| Reports.TakePairsLoop | src/report.rs:721-757 | the key=value loop of a graphics response |
| Reports.DigitsSpell | src/escape.rs:17-27 | printed decimal digits have their value |
| Reports.SplitAtFirst | src/report.rs:1004-1010 | splitting at the first separator undoes joining |
| CursorRoundTrip.CsiCommand | src/escape.rs:17-27 | the bytes `csi` builds |
| CursorRoundTrip.CsiReadsBack | src/syntax.rs:745-778 | a control sequence with plain parameters reads back as itself exactly when the limit admits them |
| CursorRoundTrip.CursorReportRoundTrip | src/report.rs:104-121 | every printed report, in any chunking with limit at least 11, is one token that parses to its row and column and answers a cursor query exactly when the row is not 1 |
| CursorRoundTrip.RowOneNeverMatches | src/correlate.rs:819-833 | no spelling of a row-1 report answers a cursor query |
| ReportRoundTrips.ModeReportReadsBack | src/report.rs:379-398 | a printed DECRPM reports its mode and the state its value names; other values are refused |
| ReportRoundTrips.PixelsReadBack | src/report.rs:961-984 | a printed window report gives height and width in that order, trusted only when neither is zero |
| ReportRoundTrips.ColorReadsBack | src/report.rs:616-623 | a printed OSC 10/11 colour gives its selector and each channel's high byte |
| SequenceRoundTrips.PrefixReadsBack | src/syntax.rs:843-888 | whatever follows, printed markers, parameters, intermediates and final byte scan to exactly those four fields if and only if the limit admits them, and overflow otherwise |
| SequenceRoundTrips.CsiFormReadsBack | src/syntax.rs:745-778 | in either spelling of its introducer and any chunking, a control sequence is one token with exactly the fields printed if and only if the limit admits them |
| SequenceRoundTrips.EscapeReadsBack | src/syntax.rs:939-971 | likewise for ESC, intermediates and a final byte |
| Recovery.AbortResumes | src/syntax.rs:881-888 | CAN or SUB ends whatever is unfinished and belongs to what it ends, except that a string that has lost bytes is reported without it; reading resumes right after it, or then at it |
| Recovery.StrayResumes | src/syntax.rs:881-888 | any other byte foreign to sequences ends an unfinished control or escape sequence without belonging to it; reading resumes at that byte |
| Recovery.EscapeInString | src/syntax.rs:389-440 | what ESC and any byte but a backslash do to a string in progress, and where reading resumes |
| Recovery.EscapeRecovers | src/syntax.rs:12-20 | whatever is unfinished, a complete sequence that ESC opens is read whole, right after the one token of what it interrupts |
| Recovery.UnfinishedIsFlushed | src/syntax.rs:293-331 | at the end of input an unfinished sequence is one token: malformed, an escape without a final byte, or the string itself without a terminator |
| Recovery.StrayByteResumes | src/syntax.rs:708-726 | an abort, a string terminator without its string, or a byte that starts no character is malformed alone |
| Recovery.SpoiledCharacterResumes | src/syntax.rs:890-937 | bytes that are as many as their lead asks for but encode no character are malformed together |
| ReportRoundTrips.FlagsReadBack | src/event/kitty.rs:60-75 | printed kitty flags report themselves up to 255, and beyond that nothing |
| ReportRoundTrips.GraphicsReadsBack | src/report.rs:721-757 | a printed graphics response gives back its image id, number, placement and message, each in its own field |
| ReportExactness.ControlAnswersExactly | src/correlate.rs:217-266 | for every question and every control sequence: it answers with a reply if and only if its markers, intermediates, final byte and number of fields are the ones documented and its digits spell that reply |
| ReportExactness.StringAnswersExactly | src/correlate.rs:240-256 | likewise for every control string: the frame, the DCS prefix, the colour channels, and the graphics keys with the last pair of a key deciding |
| WireReports.ReplyRoundTrip | src/correlate.rs:217-266 | every reply a terminal can say, printed with either introducer and any terminator, cut in any chunks: one token, which answers its own question with exactly that reply, and no other question |
| WireReports.ModeAnswersExactly | src/report.rs:379-398 | the printed `CSI ? mode ; value $ y` answers the question for that mode, with the state the value names, if and only if the value is at most 4 |
| WireRuns.ReadsBeginWithReplies | src/session.rs:1529-1593 | however reads cut them, printed replies are the first events read, in order: no flush at a read boundary comes between |
| WireRuns.EachIsFirst | src/correlate.rs:622-645 | among printed replies to different questions each is the first match of its own question |
| WireRuns.UnitIsDelivered | src/event.rs:378-431 | between tokens, a complete sequence that is no win32 key is exactly one event: what the stateless decoders make of it, or else the sequence |
| WireQueries.SyncQueryHears | src/session.rs:1429-1493 | in every reachable state without partial input: when printed replies come first, however cut, a blocking query returns its own |
| WireQueries.TokioQueryHears | src/tokio_session.rs:1540-1600 | the same of the asynchronous query, for every question, when nothing queued answers already |
| WireQueries.StatusQueryReturns | src/session.rs:1246-1262 | a status query whose reads begin with `CSI 0 n` returns Ready, and with `CSI 3 n` Malfunction, in both sessions |
| WireProbes.SyncProbeSays | src/caps.rs:1120-1203 | in every reachable state: each field of a blocking probe that ends with findings says what the first answer to its question says; a mode field is on for a printed 1 or 3, off for 2 or 4, unknown for 0, with the evidence naming that mode |
| WireProbes.TokioProbeSays | src/caps.rs:1120-1203 | the same of the asynchronous probe |
| WireProbes.SyncProbeHears | src/session.rs:1327-1414 | from the bytes: with nothing left by earlier probes, when printed replies with DA1 last come first, however cut, the blocking probe ends and has recorded what each of them says |
| WireProbes.TokioProbeHears | src/tokio_session.rs:1255-1327 | the same of the asynchronous probe, when nothing is queued |
| TextRoundTrips.EncodedDecodes | src/event.rs:436-444 | every scalar value's UTF-8 encoding is one character that decodes to it |
| TextRoundTrips.DecodedEncodes | src/event.rs:436-444 | every character decodes to a scalar value and is that value's encoding |
| TextRoundTrips.SurrogatesRecombine | src/event/win32.rs:135-196 | the two halves of every supplementary character, reported by two key events, become that character, repeated between 1 and 32 times |
| TextRoundTrips.PasteTextIsSegmentationFree | src/event/paste.rs:133-162 | however a paste is segmented, its event data together is the whole payload with every CRLF, CR and LF as one LF |
| KeyRoundTrips.ControlByteIsKey | src/event.rs:452-460 | decoding any control byte but ESC, CAN and SUB between tokens gives exactly one key: Enter if and only if it is CR, Tab if and only if HT, Backspace if and only if BS or DEL, else its own control key |
| KeyRoundTrips.TypingReadsBack | src/event.rs:436-460 | any text typed, cut into reads and flushed at any of their ends, comes out as one key a scalar value, in order, controls as their keys and every other value as its own character |
| PasteRoundTrip.PasteReadsBack | src/event/paste.rs:133-172 | any body without an end bracket of its own, between either pair of brackets, in any chunking: one paste, flagged first once and final and terminated last, whose data is the body with every line ending as one LF |
| PasteRoundTrip.CutPasteReadsBack | src/event/paste.rs:133-172 | a paste the end of input cuts short is delivered with every byte read, final but not terminated |
| Win32RoundTrip.PlacesReadBack | src/event/win32.rs:198-218 | each field is the one in its place, whichever are empty or missing: a missing count is 1 and anything else missing 0 |
| Win32RoundTrip.ReportReadsBack | src/event/win32.rs:135-196 | what one key report alone comes to, by its unit: a character, a held half, a replacement, a named key or nothing, repeated as it says between 1 and 32 times |
| Win32RoundTrip.OrphanIsReplaced | src/event/win32.rs:166-170 | anything but its low half makes a held surrogate the replacement character, before its own events |
| Win32RoundTrip.TypingReadsBack | src/event/win32.rs:105-196 | any text reported key by key in UTF-16, in any chunking, comes out as its characters, repeated as reported, with nothing left behind |
| Events.OnlyWin32IsSilent | src/event.rs:378-431 | every token but a win32 key sequence yields at least one event |
| Events.MapTokensAppend | src/event.rs:369-376 | mapping tokens is sequential in the carried state |
| Decoder.SemanticDecoder.FeedBytes | src/event.rs:265-268 | decoding is tokenizing and mapping |
| Decoder.SemanticDecoder.Finish | src/event.rs:277-287 | flushing maps the flushed tokens and then releases a dangling surrogate |
| Decoder.SemanticDecoder.MapOne | src/event.rs:378-431 | one token by its kind, and the state it carries; which keys that makes is `KeyRoundTrips`, `PasteRoundTrip`, `Win32RoundTrip` and `WireRuns.UnitIsDelivered` |
| Decoder.SemanticDecoder.PushTextEvents | src/event.rs:436-444 | one key event a character |
| Decoder.SemanticDecoder.SettledText | src/event.rs:303-309 | the predicate over the pending bytes |
| Decoder.SemanticDecoder.PendingLoneEscape | src/event.rs:327-329 | the predicate over the pending bytes |
| Decoder.SemanticDecoder.FlushPendingEscape | src/event.rs:344-352 | the first event of a flush when a lone ESC is pending, the Escape key when the ESC is parked, and otherwise nothing changed |
| Decoder.SettledTextExactly | src/event.rs:303-309 | settled text is a parked run of complete characters or, the one other case, a continued paste whose payload looks like one |
| Decoder.LoneEscapeExactly | src/event.rs:327-329 | a pending lone ESC is a parked ESC or, again, a continued paste |
| Decoder.FlushOfSettled | src/event.rs:277-309 | what the flush yields in each of those cases; a continued paste is cut short |
| DrainBoundary.FlushingDriversAgree | src/tokio_session.rs:1710-1722 | two drivers that split the same bytes and flush them harmlessly in different ways deliver the same events by the end of the stream if and only if it does not stop inside a character or the same bytes are parked in both |
| DecoderCounterexamples.MidCharacterDisagrees | src/tokio_session.rs:1710-1722 | a concrete stream that stops inside a character, and two ways to read it that do not agree |
| DrainBoundary.ReadsSimulate | src/tokio_session.rs:1710-1722 | the running form: delivered events and still-parked characters are those of a tokenizer that never parks text |
| DrainBoundary.FlushIsHarmlessExactly | src/event.rs:303-309 | a boundary flush releases just the parked characters exactly when the state is not a continued paste and no surrogate is held |
| DrainBoundary.ContinuedPasteLooksSettled | src/event.rs:303-309 | a concrete input where it is not harmless: a continued paste |
| DecoderCounterexamples.BoundaryReleasesSurrogate | src/event.rs:277-309 | another: a held surrogate half, which the boundary turns into its replacement |
| DecoderCounterexamples.EscapeInPasteLooksLone | src/event.rs:327-329 | a concrete paste that reads as a pending lone ESC |
| DecoderCounterexamples.HighSurrogateIsSilent | src/event/win32.rs:135-196 | a concrete silent key report and the half it leaves held |
| Correlate.DistinguishedNeverBothMatch | src/correlate.rs:217-266 | no event answers two expectations that the static relation tells apart |
| Correlate.DistinguishesIsExact | src/correlate.rs:318-328 | and the relation holds of no other pairs: every expectation has an answering event |
| CorrelatorTable.RegisterJoinsOrMints | src/correlate.rs:587-617 | registering joins the identical expectation's slot or mints an id above all earlier ones; it never conflicts |
| CorrelatorTable.AcceptingSlotIsUnique | src/correlate.rs:622-645 | at most one slot accepts an event |
| CorrelatorTable.FeedIgnoresOrder | src/correlate.rs:622-645 | the outcome of a feed does not depend on slot order |
| CorrelatorTable.Correlator.RegisterExpectation | src/correlate.rs:587-617 | the slot loop: joins, or mints; the ambiguity branch is unreachable |
| CorrelatorTable.Correlator.Feed | src/correlate.rs:622-645 | the slot loop completes the first accepting slot or passes the event through |
| CorrelatorTable.Correlator.Take | src/correlate.rs:666-688 | a completed id's reply, one waiter fewer, the slot freed with the last |
| CorrelatorTable.Correlator.ResolveWaiter | src/correlate.rs:696-724 | one waiter gives up, as the table function says; which of the four outcomes that is over any run is `CorrelatorRuns.ResolutionIsExact` |
| CorrelatorRuns.EveryRunIsAccounted | src/correlate.rs:587-724 | over every sequence of operations: registrations = takes + effective resolves + outstanding; an id completes at most once; every reply taken is the one it completed with; ids at or above the next one are unused |
| CorrelatorRuns.ResolutionIsExact | src/correlate.rs:696-724 | over every run, by its history: resolving is unknown if and only if the id has no waiter, already-completed if and only if it has one and completed, removed if and only if it did not and this was the last, and else one of several; the number carried is the waiters left, one less than before |
| CorrelatorRuns.TakeIsExact | src/correlate.rs:666-688 | over every run: a take yields the reply the id completed with if and only if it completed and a waiter is left |
| CorrelatorRuns.AllTakersAgree | src/correlate.rs:666-688 | all takers of an id get the same reply |
| CorrelatorRuns.CompletionHasWaiter | src/correlate.rs:622-645 | an event completes only an id with a waiter registered before it and still outstanding, never twice |
| CorrelatorRuns.FreedForever | src/correlate.rs:666-724 | an id without waiters is never joined, completed or taken again |
| Answers.FeedSlotFor | src/correlate.rs:622-645 | what one event does to one slot, whatever the others are |
| OneByte.OneByteIsClean | src/session.rs:1560-1575 | a byte that completes a token leaves only plainly pending bytes or a freshly cut paste; only its first token can be a control sequence or a string, and one that has lost nothing, or that a terminator closed, is the only token and leaves Ground |
| OneByte.StringIsAloneExactly | src/syntax.rs:378-463 | a string is completed alone exactly when a terminator closed it, or when ESC and the byte that aborted it open a sequence, which the parser then holds |
| SyncReads.NeverSaturates | src/session.rs:1571-1572 | the span-length subtraction never saturates |
| SyncReads.ChunkAccounts | src/session.rs:1555-1592 | a read keeps the carry in step with the decoder; spans and carry concatenate to the earlier carry and the bytes read; every span is the bytes of silent key reports and then exactly what its tokens stand for; only its first token can be a reply, and an untruncated one is its only token |
| SyncReads.ChunkGains | src/session.rs:1597-1621 | the replies a read returns are those of the spans it logs; each is a token of its span, answers the expectation its id was minted for, and its id waited before and waits no more |
| SyncReads.AttributeServes | src/session.rs:1597-1621 | the same for one attribution, which takes replies for the ids it is given only |
| SyncReads.UntruncatedSpan | src/session.rs:1508-1522 | a control sequence or string that has lost nothing is alone in its span: the span is the bytes of silent key reports and then its raw bytes |
| SyncReads.CompleteSpanExactly | src/session.rs:1571-1574 | the span of a token that has lost nothing, or that a terminator closed, is that token's own bytes exactly when no silent key report came before it since the last attribution |
| SyncReads.StringSpanExactly | src/session.rs:1560-1575 | a string is alone in its span exactly when a terminator closed it, or when the bytes that aborted it are the ones the decoder then holds |
| SyncReads.ReplyIsHeld | src/session.rs:1597-1621 | the first token of a reply's span is the one matched, by the expectation its id was minted for; with nothing dropped the span holds it alone |
| SyncReads.ReplySpanExactly | src/session.rs:1571-1574 | for every reply that has lost nothing: its span is its raw bytes exactly when no silent key report came before it |
| SyncReads.SettledIsNeverReply | src/session.rs:1577-1587 | what the boundary flush releases is always typeahead |
| SyncReads.ChunkDecodesWhole | src/session.rs:1523-1526 | feeding a read byte by byte yields the events of decoding it whole, as the asynchronous driver does |
| SyncSession.QueryTakesFirstMatch | src/session.rs:1429-1493 | in every state a run reaches: a query answers with the first event decoded while it waited that matches, or not at all; the one span that is a reply holds that event, and without an answer none is; nothing of the query stays registered unless the device failed, and no other slot loses a waiter |
| SyncSession.QueryTakesFirstRead | src/session.rs:1429-1493 | in terms of the input: a query whose request was sent is answered by the first event to match among all its reads decode to, however they cut the bytes, and not answered if and only if none matches |
| SyncSession.InputIsGreedy | src/session.rs:649-666 | a read of input takes the front of the typeahead while there is any, of the device only when there is none, and comes back short only when it has taken all of that |
| SyncSession.QueryWithholdsItsReply | src/session.rs:1529-1621 | the typeahead grows by every byte in the spans read but those of one span, which holds the token that answered; without an answer, by all of them |
| SyncSession.QueryKeepsOrderly | src/session.rs:1429-1493 | it ends in a state where every slot is the active query's, alone, or one a failed probe left |
| SyncSession.BeginMints | src/session.rs:1429-1442 | a query joins no slot: it mints its own id, so its `expect` cannot fire |
| SyncSession.QueryAsks | src/session.rs:1429-1442 | and asks for its own expectation once |
| SyncSession.SweepFreesQuery | src/session.rs:1629-1633 | the sweep frees the last query's slot and touches no other; what is left are slots of failed probes |
| SyncSession.QueryAttributes | src/session.rs:1529-1621 | a query loses no byte it reads: the log and the carry account for each, the typeahead grows by the spans that are no reply, and no id is answered that did not wait |
| SyncSession.AwaitReads | src/session.rs:1454-1493 | the bytes a waiting query reads are those its polls offer, in order, up to the one that ends it |
| SyncRuns.EveryByteIsAccounted | src/session.rs:639-666 | over every run of queries, probes and reads, whatever failed: delivered bytes and typeahead are the input in order less reply spans and held bytes, provided no device read overtook held bytes; the span of a reply that has lost nothing is its raw bytes after those of silent key reports; the replies taken are exactly the answers queries returned and probes heard, each for its own expectation, no id twice |
| SyncRuns.RepliesAreAsked | src/session.rs:1429-1493 | every expectation asked is one an operation of the run asks for, and no more replies are taken than were asked for; a run of reads takes none |
| SyncRuns.ApplyTakes | src/session.rs:1529-1621 | what each operation takes from the bytes it logs: a query its answer, a probe what it heard, a read nothing |
| SyncRuns.RunFrom | src/session.rs:639-666 | every run of operations from a sound session ends in a sound one |
| SyncRuns.OvertakenExactly | src/session.rs:656-665 | the next device read keeps arrival order, whatever it returns, exactly when the carry is empty |
| SyncCounterexamples.HeldEscapeIsOvertaken | src/session.rs:656-665 | a concrete run in which it does not: an ESC read during a query comes after a later key |
| SyncCounterexamples.SilentReportIsSwallowed | src/session.rs:1561-1575 | for every silent key report and cursor report read together, the report's bytes are dropped with the reply |
| SyncCounterexamples.TruncatedReplyTakesKey | src/session.rs:1597-1621 | a concrete probe in which a truncated XTVERSION reply, aborted by Alt-a, takes that key with it |
| SyncCounterexamples.FailedProbeStaysRegistered | src/session.rs:1350-1400 | a concrete pair of probes: one that fails and leaves its twelve expectations, and one that ends with findings and leaves them too |
| SyncCounterexamples.EofProbeStaysRegistered | src/session.rs:1390-1399 | a concrete probe that an error-shaped end of input ends with findings and all twelve left |
| SyncCounterexamples.LateReplyDisarmsFence | src/session.rs:1359-1413 | a concrete run after which no DA1 reply ends a probe: the last probe failed, and a later query read the late answer to its fence |
| SyncDriver.TerminalSession.AttributeSpan | src/session.rs:1597-1621 | the event loop: every completion among the ids is taken, the span is typeahead otherwise |
| SyncDriver.TerminalSession.ReadAndMatch | src/session.rs:1529-1593 | one read against its specification; end of input gives up every id |
| SyncDriver.TerminalSession.FeedOne | src/session.rs:1557-1575 | the body of the byte loop, span draining included |
| SyncDriver.TerminalSession.SettleOnce | src/session.rs:1577-1587 | the flush at the end of a read |
| SyncDriver.TerminalSession.RunQuery | src/session.rs:1429-1493 | a whole query against its specification, which `SyncSession.QueryTakesFirstRead` states in terms of the bytes read and `WireQueries.StatusQueryReturns` for the status query |
| SyncDriver.TerminalSession.AwaitReply | src/session.rs:1454-1492 | the deadline loop |
| SyncDriver.TerminalSession.ReadInput | src/session.rs:649-666 | typeahead first, then the device |
| SyncDriver.TerminalSession.SweepActiveQuery | src/session.rs:1629-1633 | the sweep |
| SyncDriver.TerminalSession.ProbeCapabilities | src/session.rs:1327-1414 | the whole probe against its specification |
| SyncDriver.TerminalSession.AwaitFence | src/session.rs:1359-1413 | the probe's deadline loop, with the exits that clean nothing up: two errors, and the device's own end-of-input error, which still gives findings |
| SyncProbe.ProbeIsFirstMatch | src/session.rs:1327-1414 | in every state a run reaches: a probe with findings has recorded for each field the first answer to its own query up to the end of the first read with the DA1 reply, or to its deadline if its fence had already been answered; every exit leaves each of its slots as computed from what was heard and whether the bundle was given up; a request that cannot be written leaves all twelve; a skipped probe changes nothing |
| SyncProbe.FreshProbeHears | src/session.rs:1327-1414 | with nothing registered, what it hears are the first answers and the fence can fire |
| SyncProbe.FoundLeavesNothingExactly | src/session.rs:1359-1413 | a probe with findings leaves nothing registered if and only if no error-shaped end of input ended it and every slot a failed probe had left had one waiter and was answered |
| SyncProbe.ProbesLeaveNothingExactly | src/session.rs:1359-1413 | all probes with findings, error-shaped ends aside, leave nothing registered if and only if nothing is once the last query is swept |
| SyncProbe.FenceEndsExactly | src/session.rs:1400-1413 | the read with the DA1 reply is the last a probe makes if and only if no late reply had answered the fence a failed probe left |
| SyncProbe.ProbeAttributes | src/session.rs:1529-1621 | a probe loses no byte it reads |
| SyncProbe.AwaitFenceReads | src/session.rs:1359-1413 | the bytes it reads are those its polls offer, in order, up to the one that ends it |
| SyncProbe.ProbeWithholdsItsReplies | src/session.rs:1597-1621 | the replies taken from the spans it adds are exactly the first answers heard, each with the id it answers |
| SyncProbe.ProbeKeepsOrderly | src/session.rs:1327-1414 | it ends in a state such as it may start from |
| SyncProbe.AttributeIsBatch | src/session.rs:1597-1621 | attributing events to the bundle's ids is feeding them as one batch, and takes exactly what they newly answer |
| ResizeQueue.TakeCoalescedEvent | src/tokio_session.rs:2773-2781 | the pop loop passes over superseded resizes only |
| ResizeQueue.DrainDeliversSurvivors | src/tokio_session.rs:785-796 | draining any queue delivers exactly the events that are no resize or have no later one, in order |
| ResizeQueue.InterleavingKeeps | src/tokio_session.rs:712-720 | under any interleaving of arrivals and deliveries the non-resize events are untouched and the last resize is the last that arrived |
| ResizeQueue.LastResizeIsDelivered | src/tokio_session.rs:712-720 | and once drained, the last resize delivered is the last one pushed |
| EventFates.RefinedIsLegal | src/tokio_session.rs:1622-1689 | changing the fates of queued events legally keeps the whole history legal: only the reply to an id's own expectation answers it, only a resize with a later one gives way |
| TokioConservation.BufferFeeds | src/tokio_session.rs:1682-1689 | buffering removes only events that completed an id which waited, each id once, and marks each with that id and reply |
| TokioConservation.SeekFeeds | src/tokio_session.rs:1622-1673 | so does feeding a query, which stops at its own completion |
| EventFeeds.BatchFeeds | src/tokio_session.rs:1337-1361 | so does feeding a probe's batch |
| TokioInputs.NextReads | src/tokio_session.rs:748-782 | `next_event` gives the decoder exactly the reads of the entries it uses, in order, and an ESC deadline that ends it; it leaves no entry it could go on with |
| TokioInputs.QueryReads | src/tokio_session.rs:1540-1600 | so does a query whose request is written |
| TokioInputs.ProbeReads | src/tokio_session.rs:1255-1327 | and a probe |
| TokioConservation.NextKeeps | src/tokio_session.rs:748-782 | `next_event`, however its awaits end, keeps the conservation invariant, records exactly the reads it used, answers only ids that waited, and delivers exactly the event it returns |
| TokioConservation.FlushEscapeKeeps | src/tokio_session.rs:763-776 | the lone-ESC flush keeps order because the queue is empty, and discards its last event exactly when a surrogate is held |
| TokioCounterexamples.DeadlineDiscardsSurrogate | src/tokio_session.rs:763-776 | a concrete run in which it does: the replacement arrives and is neither delivered nor queued |
| TokioConservation.QueryKeeps | src/tokio_session.rs:1540-1600 | a query, from sweep to any exit, keeps the invariant, records exactly the reads it used and delivers nothing |
| TokioConservation.SeekKeeps | src/tokio_session.rs:1622-1673 | draining the queue or a read into a query keeps it: completed events leave, with their ids, and nothing is reordered |
| TokioConservation.ProbeKeeps | src/tokio_session.rs:1255-1327 | so does a probe |
| TokioConservation.QueueResizeKeeps | src/tokio_session.rs:1824-1829 | so does queueing a synthetic resize |
| TokioHistory.RunFrom | src/tokio_session.rs:748-782 | every run of operations from a sound session ends in a sound one: conservation and the sweep invariant together |
| TokioHistory.RunProgresses | src/tokio_session.rs:748-782 | along it history only grows, an id answered in between waited at the start or was asked for since, and what is given to the decoder, asked for and delivered is what the operations supply, ask and return |
| TokioHistory.EveryRunConserves | src/tokio_session.rs:748-782 | over any interleaving of operations, errors, deadlines and cancellations: the decoder was given exactly the reads the operations used; what the deliveries returned and then what is queued is what those decode to or was queued, in order, less replies to ids that queries and probes asked for, each to its own expectation and no id twice, superseded resizes, and the last event of exactly the ESC deadlines that found a half held |
| TokioHistory.AnswersAreAsked | src/tokio_session.rs:748-782 | no more events are removed as replies than expectations were asked for; a run without query or probe removes none |
| TokioHistory.DeliveryAnswersLeftovers | src/tokio_session.rs:1682-1689 | a delivery answers only ids that a cancelled query or probe left waiting |
| TokioHistory.EveryRunCanSweep | src/tokio_session.rs:1381-1385 | in every state so reached the two sweeps leave the table empty |
| TokioRuns.SweepsEmpty | src/tokio_session.rs:1609-1613 | every slot belongs to the active query or probe, so the sweeps free them all |
| TokioRuns.QueryMintsFresh | src/tokio_session.rs:1549-1558 | registration after the sweeps mints a fresh id; its `expect` cannot fire |
| TokioRuns.ProbeMintsFresh | src/tokio_session.rs:1260-1270 | likewise for the twelve ids of the bundle |
| TokioRuns.QueryTakesFirstMatch | src/tokio_session.rs:1540-1600 | a query ends with the first match among queued and newly arrived events, or with none; unless it was dropped, nothing stays registered |
| TokioRuns.QueryTakesFirstRead | src/tokio_session.rs:1540-1600 | in terms of the input: the first match among the queued events and all that its reads decode to, however they cut the bytes, and no reply if and only if none matches |
| TokioRuns.SeekFindsFirst | src/tokio_session.rs:1622-1673 | the event it removes is that first match, at its position |
| TokioRuns.QueryAnswersItsOwn | src/tokio_session.rs:1540-1600 | a query mints one id for its own expectation, answers it exactly when it finishes, with the reply it returns, and answers no other |
| TokioRuns.NextKeepsOwned | src/tokio_session.rs:748-782 | `next_event` keeps the sweep invariant |
| ProbeRuns.ProbeIsFirstMatch | src/tokio_session.rs:1255-1327 | a probe that finishes has recorded the first answers over everything up to the end of the first batch with the DA1 reply, has read no further, and leaves nothing registered; a DA1 reply always ends it |
| ProbeRuns.ProbeAnswersItsOwn | src/tokio_session.rs:1255-1361 | whatever ends a probe, each of its twelve ids is answered by its expectation's first match among the events it fed, and unanswered if there is none; no older id is answered |
| ProbeRuns.FencePositionIsIrrelevant | src/tokio_session.rs:1330-1336 | where in its batch the DA1 reply lies changes no other answer |
| Probe.RegisterBundleOnEmpty | src/caps.rs:995-1062 | on an empty table the bundle mints twelve consecutive ids, DA1 last |
| Answers.CompletionHasReply | src/tokio_session.rs:1347-1350 | a completion always has a reply to take: the `expect` cannot fire |
| Gathering.StoreRecords | src/caps.rs:1120-1203 | a reply changes the one field its own query answers, each mode its own; what the field then says is `WireProbes.SyncProbeSays` and `TokioProbeSays` |
| Gathering.BatchGathers | src/tokio_session.rs:1337-1361 | feeding a batch gathers the first answers of everything fed, wherever the fence is in it; the fence fires exactly when its slot waited and its first answer is there |
| Gathering.StartsBundle | src/caps.rs:995-1062 | whatever failed probes left, the bundle joins the slots of its own expectations and mints the rest: one more waiter each, and nothing else registered |
| Gathering.FinishedSlots | src/caps.rs:1090-1098 | resolving the bundle takes one waiter from each of its slots, beside the one an answer took |
| Gathering.FinishingEmpties | src/caps.rs:1090-1098 | so it leaves nothing registered when each slot had one, however much was answered |
| Probe.RegisterOn | src/caps.rs:995-1062 | the registrations in order |
| Probe.ResolveAll | src/caps.rs:1090-1098 | the resolving loop |
| TokioDriver.TokioTerminalSession.NextEvent | src/tokio_session.rs:748-782 | the delivery loop against its specification |
| TokioDriver.TokioTerminalSession.ReadEvents | src/tokio_session.rs:1696-1723 | one read and the boundary flush |
| TokioDriver.TokioTerminalSession.BufferEvents | src/tokio_session.rs:1682-1689 | passthroughs join the queue in order |
| TokioDriver.TokioTerminalSession.FeedUntil | src/tokio_session.rs:1622-1673 | the loop shared by the drain and the read: stops at the query's own completion and keeps everything else |
| TokioDriver.TokioTerminalSession.RunQuery | src/tokio_session.rs:1540-1600 | a whole query against its specification |
| TokioDriver.TokioTerminalSession.FeedBatchIntoBundle | src/tokio_session.rs:1337-1361 | the whole-batch loop of the probe |
| TokioDriver.TokioTerminalSession.ProbeOnce | src/tokio_session.rs:1255-1327 | a whole probe against its specification |
| TokioDriver.TokioTerminalSession.SweepActiveProbe | src/tokio_session.rs:1381-1385 | the probe sweep |
| TokioDriver.TokioTerminalSession.QueueSyntheticResize | src/tokio_session.rs:1824-1829 | a resize at the back of the queue |

## Left out

- Device I/O, `poll`, readiness, signals, PTY and Windows console code, job control: foreign calls, modelled as nondeterministic reads and outcomes.
- Clocks: deadlines and the lone-ESC delay are outcomes of an await, not durations.
- The kitty, mouse, focus, resize and arrow decoders and the win32 named-key table: parameters of the model.
- Key modifiers, key kinds and text payloads beyond the fields a win32 report carries: lookups that no property here depends on.
- Parameter fidelity of `ControlParams` beyond raw bytes, separators and 32-bit saturation of the fields the win32 decoder reads.
- Environment inference, terminal identity and the findings derived from it: the probe takes what the environment says as a seed and records the XTVERSION text.
- The mode ledger, restore handle, command encoders other than `csi`, `osc` and `apc`, width tables and policy gates: single-branch lookups or byte tables.
- The waiter count of a slot is unbounded here; the source's is 32 bits wide.
- Waiting on several sessions at once, and aliasing between sessions: each session owns its decoder and correlator.
- The asynchronous `synchronized_frame`, mouse and mode helpers: they write commands and touch none of the state modelled.
- `SyncReads.ChunkAccounts`: nothing is claimed of the bytes in a span that holds a segment of a paste, because the decoder's pending bytes leave out the part of a paste already delivered and any held end-bracket candidate; those bytes are typeahead all the same.
