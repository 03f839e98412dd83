/** Concrete runs: inputs at which the code departs from what is said of it, or at which a condition proved
    elsewhere fails. */
module SyncCounterexamples {
  import opened Bytes
  import opened Tokens
  import opened Grammar
  import opened SplitEquivalence
  import opened PayloadScan
  import opened Bounds
  import opened Events
  import opened Decoder
  import opened Reports
  import opened Correlate
  import opened CorrelatorTable
  import opened CorrelatorRuns
  import opened Answers
  import opened Tallies
  import opened Probe
  import opened Gathering
  import opened SequenceRoundTrips
  import opened CursorRoundTrip
  import opened OneByte
  import opened SyncReads
  import opened SyncSession
  import SyncProbe
  import opened SyncRuns
  import opened DrainBoundary
  import opened DecoderCounterexamples

  // ----- Held bytes overtaken -----

  /** An ESC read by a query that times out is held, and the next input overtakes it. */
  lemma HeldEscapeIsOvertaken(x: Queried, limit: nat, tables: Tables)
    ensures var h := SyncRuns.Run([DoQuery(x, true, [Readable([ESC])]), DoInput(1, [0x61])], limit, tables);
      h.arrived == [ESC, 0x61] && h.delivered == [0x61] && h.session.carry == [ESC]
  {
    hide Sound, SyncRuns.Apply;
    var ops := [DoQuery(x, true, [Readable([ESC])]), DoInput(1, [0x61])];
    SoundStart(limit);
    QueryHoldsEscape(x, limit, tables);
    var h := SyncRuns.Apply(START, ops[0], limit, tables);
    ApplyKeeps(START, ops[0], limit, tables);
    var rest := ops[1..];
    assert rest == [ops[1]] && rest[1..] == [];
    ApplyKeeps(h, ops[1], limit, tables);
    SoundIsValid(h, limit);
    InputOvertakes(h, limit, tables);
    var h' := SyncRuns.Apply(h, ops[1], limit, tables);
    assert RunFrom(h', [], limit, tables) == h';
    assert RunFrom(h, rest, limit, tables) == h';
  }

  lemma QueryHoldsEscape(x: Queried, limit: nat, tables: Tables)
    ensures var h := SyncRuns.Apply(START, DoQuery(x, true, [Readable([ESC])]), limit, tables);
      h.session.carry == [ESC] && h.arrived == [ESC] && h.session.typeahead == [] && h.delivered == []
  {
    hide Await, Consumed, Register, Resolve;
    var (begun, id) := Begin(NEW_SESSION, x);
    EscapeIsRead(begun, id, limit, tables);
    assert [] + [ESC] == [ESC];
  }

  lemma InputOvertakes(h: History, limit: nat, tables: Tables)
    requires h.session.decoder.parser.Valid()
    requires h.session.carry == [ESC] && h.arrived == [ESC] && h.session.typeahead == [] && h.delivered == []
    ensures var h' := SyncRuns.Apply(h, DoInput(1, [0x61]), limit, tables);
      h'.arrived == [ESC, 0x61] && h'.delivered == [0x61] && h'.session.carry == [ESC]
  {
    assert [0x61][..1] == [0x61];
  }

  lemma EscapeIsRead(s: Session, id: nat, limit: nat, tables: Tables)
    requires s.decoder == FRESH && s.carry == [] && s.typeahead == []
    ensures var polls := [Readable([ESC])];
      var s' := Await(s, id, polls, limit, tables).0;
      && s'.carry == [ESC] && s'.typeahead == []
      && Consumed(s, id, polls, limit, tables) == [ESC]
  {
    hide Resolve, Attribute;
    EscapeParks(limit);
    var m := ReadingOf(s);
    var chunk := [ESC];
    assert chunk[1..] == [];
    NoTokensNoEvents(FRESH.mapping, tables);
    var r := ReadByte(m, [id], ESC, limit, tables);
    assert r.unattributed == [ESC] && r.spans == [] && r.replies == [];
    assert ReadBytes(m, [id], chunk, limit, tables) == r;
    var read := SyncSession.Read(s, [id], chunk, limit, tables).0;
    NoSpans();
    assert read.typeahead == [];
    var none: seq<Poll> := [];
    var polls := [Readable(chunk)];
    assert polls[1..] == none;
    assert Await(read, id, none, limit, tables) == (Clear(read, id), NoAnswer);
    assert Consumed(read, id, none, limit, tables) == [];
  }

  // ----- Bytes swallowed with a reply -----

  lemma {:induction false} ReadSplit(m: Reading, ids: seq<nat>, a: Bytes, b: Bytes, limit: nat, tables: Tables)
    requires m.decoder.parser.Valid()
    ensures ReadBytes(m, ids, a + b, limit, tables)
         == ReadBytes(ReadBytes(m, ids, a, limit, tables), ids, b, limit, tables)
    decreases |a|
  {
    hide ReadByte;
    if a == [] {
      assert a + b == b;
    } else {
      assert (a + b)[1..] == a[1..] + b;
      ReadSplit(ReadByte(m, ids, a[0], limit, tables), ids, a[1..], b, limit, tables);
    }
  }

  /** Bytes that decode to no event only pile up. */
  lemma {:induction false} QuietBytesPileUp(m: Reading, ids: seq<nat>, a: Bytes, limit: nat, tables: Tables)
    requires m.decoder.parser.Valid() && Reachable(m.decoder.parser, limit)
    requires Decode(m.decoder, a, limit, tables).events == []
    ensures ReadBytes(m, ids, a, limit, tables) ==
      m.(decoder := Decode(m.decoder, a, limit, tables).state,
         unattributed := m.unattributed + a,
         silent := m.silent + Feed(m.decoder.parser, a, limit).tokens)
    decreases |a|
  {
    hide Feed, Decode, ReadByte, Reachable;
    if a == [] {
      QuietNothing(m, limit, tables);
      assert m.unattributed + a == m.unattributed && m.silent + [] == m.silent;
    } else {
      var head, rest := [a[0]], a[1..];
      assert head + rest == a;
      DecodeSplit(m.decoder, head, rest, limit, tables);
      QuietByte(m, ids, a[0], limit, tables);
      var m' := ReadByte(m, ids, a[0], limit, tables);
      QuietBytesPileUp(m', ids, rest, limit, tables);
      Associate(m.unattributed, head, rest);
      var ts, later := Feed(m.decoder.parser, head, limit).tokens, Feed(m'.decoder.parser, rest, limit).tokens;
      assert (m.silent + ts) + later == m.silent + (ts + later);
    }
  }

  lemma QuietNothing(m: Reading, limit: nat, tables: Tables)
    requires m.decoder.parser.Valid() && Reachable(m.decoder.parser, limit)
    ensures Decode(m.decoder, [], limit, tables) == Decoded(m.decoder, [])
    ensures Feed(m.decoder.parser, [], limit).tokens == []
  {
    hide FeedWith;
    FeedNothing(m.decoder.parser, limit);
    NoTokensNoEvents(m.decoder.mapping, tables);
  }

  lemma QuietByte(m: Reading, ids: seq<nat>, b: Byte, limit: nat, tables: Tables)
    requires m.decoder.parser.Valid() && Reachable(m.decoder.parser, limit)
    requires Decode(m.decoder, [b], limit, tables).events == []
    ensures var r := ReadByte(m, ids, b, limit, tables);
      var o := Decode(m.decoder, [b], limit, tables);
      && r == m.(decoder := o.state, unattributed := m.unattributed + [b],
                 silent := m.silent + Feed(m.decoder.parser, [b], limit).tokens)
      && o.state.parser == Feed(m.decoder.parser, [b], limit).state && Reachable(o.state.parser, limit)
  {
    hide FeedWith, MapTokens, Drain, Reachable;
    FeedIsGood(m.decoder.parser, [b], limit);
    GoodOf(Feed(m.decoder.parser, [b], limit), limit);
  }

  /** A control sequence with parameters only is starved until its final byte. */
  lemma CsiStarves(parameters: Bytes, limit: nat)
    requires AllIn(ParamByte, parameters) && |parameters| <= limit
    ensures Grammar.Run([ESC, 0x5b] + parameters, limit) == Outcome(Partial([ESC, 0x5b] + parameters), [])
  {
    hide RunWith, ScanPrefix;
    var buf := [ESC, 0x5b] + parameters;
    ParametersAreHungry(parameters, limit);
    assert buf[2..] == parameters && buf[0..] == buf;
    RunAt(buf, 0, limit);
  }

  lemma ParametersAreHungry(parameters: Bytes, limit: nat)
    requires AllIn(ParamByte, parameters) && |parameters| <= limit
    ensures ScanPrefix(parameters, limit) == Hungry
  {
    hide SpanLen;
    var nothing: Bytes := [];
    SpanLenUnique(PrivateMarker, parameters, 0);
    assert parameters[0..] == parameters;
    SpanLenUnique(ParamByte, parameters, |parameters|);
    assert parameters[|parameters|..] == nothing;
    SpanLenUnique(Intermediate, nothing, 0);
  }

  /** The last byte of a report that the typed decoders leave alone completes it alone. */
  lemma ReportCompletes(mapping: MapState, parameters: Bytes, final: Byte, limit: nat, tables: Tables)
    requires AllIn(ParamByte, parameters) && IsFinalByte(final) && |parameters| <= limit
    requires !IsPasteStart(ControlParams([], parameters, [], final)) && final != 0x5f
    requires tables.typed(CsiToken(parameters, final).csi) == None
    ensures Decode(DecoderState(Partial([ESC, 0x5b] + parameters), mapping), [final], limit, tables)
         == Decoded(DecoderState(Ground, mapping), [Syntax(CsiToken(parameters, final))])
    ensures Feed(Partial([ESC, 0x5b] + parameters), [final], limit).tokens == [CsiToken(parameters, final)]
  {
    hide RunWith, MapTokens;
    assert ([ESC, 0x5b] + parameters) + [final] == CsiBytes(parameters, final);
    CsiReadsBack(parameters, final, limit);
    MapOneToken(mapping, CsiToken(parameters, final), tables);
  }

  /** A silent report and then a reply short of its final byte decode to no event. */
  lemma QuietThenStarved(quiet: Bytes, parameters: Bytes, limit: nat, tables: Tables)
    requires AllIn(ParamByte, quiet) && |quiet| <= limit && AllIn(ParamByte, parameters) && |parameters| <= limit
    requires MapToken(FRESH.mapping, CsiToken(quiet, 0x5f), tables).events == []
    ensures var head := CsiBytes(quiet, 0x5f) + ([ESC, 0x5b] + parameters);
      && Decode(FRESH, head, limit, tables).events == []
      && Decode(FRESH, head, limit, tables).state.parser == Partial([ESC, 0x5b] + parameters)
      && Feed(Ground, head, limit).tokens == [CsiToken(quiet, 0x5f)]
  {
    hide RunWith, MapTokens, MapToken;
    var a, b := CsiBytes(quiet, 0x5f), [ESC, 0x5b] + parameters;
    CsiReadsBack(quiet, 0x5f, limit);
    CsiStarves(parameters, limit);
    MapOneToken(FRESH.mapping, CsiToken(quiet, 0x5f), tables);
    var first := Decode(FRESH, a, limit, tables);
    NoTokensNoEvents(first.state.mapping, tables);
    DecodeSplit(FRESH, a, b, limit, tables);
    assert [CsiToken(quiet, 0x5f)] + [] == [CsiToken(quiet, 0x5f)];
  }

  /** Reading a quiet run and then the byte that completes its first events attributes all of it to those events. */
  lemma LastByteRead(
      m: Reading, ids: seq<nat>, head: Bytes, b: Byte, events: seq<Event>, limit: nat, tables: Tables)
    requires m.decoder == FRESH && m.unattributed == [] && m.silent == [] && m.spans == [] && m.replies == []
    requires var d := Decode(FRESH, head, limit, tables);
      && d.events == []
      && events != [] && Decode(d.state, [b], limit, tables).events == events
      && Decode(d.state, [b], limit, tables).state.parser == Ground
    ensures var r := ReadChunk(m, ids, head + [b], limit, tables);
      var a := Attribute(m.table, ids, events);
      && r.unattributed == [] && r.silent == [] && r.table == a.table && r.replies == a.replies
      && r.decoder == Decode(Decode(FRESH, head, limit, tables).state, [b], limit, tables).state
      && |r.spans| == 1 && r.spans[0].isReply == a.isReply && r.spans[0].bytes == head + [b]
      && r.spans[0].silent == Feed(Ground, head, limit).tokens && r.spans[0].replies == a.replies
      && r.spans[0].tokens == Feed(Decode(FRESH, head, limit, tables).state.parser, [b], limit).tokens
  {
    hide Decode, Attribute, Feed, Match;
    var d := Decode(FRESH, head, limit, tables);
    GroundIsReachable(limit);
    QuietBytesPileUp(m, ids, head, limit, tables);
    ReadSplit(m, ids, head, [b], limit, tables);
    var piled := ReadBytes(m, ids, head, limit, tables);
    assert [] + head == head && [] + Feed(Ground, head, limit).tokens == Feed(Ground, head, limit).tokens;
    var chunk := [b];
    assert chunk[1..] == [];
    var r := ReadByte(piled, ids, b, limit, tables);
    assert ReadBytes(piled, ids, chunk, limit, tables) == r;
    var found := Attribute(m.table, ids, events).replies;
    assert [] + found == found;
  }

  /** The bytes of a silent key report that arrives before a reply are taken with it: the query
      answers, and they are no longer anywhere. Here for every silent report and cursor position. */
  lemma SilentReportIsSwallowed(quiet: Bytes, row: nat, column: nat, limit: nat, tables: Tables)
    requires AllIn(ParamByte, quiet) && |quiet| <= limit && limit >= 11
    requires MapToken(FRESH.mapping, CsiToken(quiet, 0x5f), tables).events == []
    requires 2 <= row <= U16_MAX && 1 <= column <= U16_MAX
    requires tables.typed(CsiToken(CursorParams(row, column), 0x52).csi) == None
    ensures var chunk := CsiBytes(quiet, 0x5f) + CursorBytes(row, column);
      var s := Query(NEW_SESSION, ExpectCursorPosition, true, [Readable(chunk)], limit, tables).0;
      && s.typeahead == [] && s.carry == []
      && |s.log| == 1 && s.log[0].isReply && s.log[0].bytes == chunk
      && s.log[0].silent == [CsiToken(quiet, 0x5f)]
  {
    hide Match, MapToken, ReadChunk, Query, CursorParams, CursorPositionReport, Begin, CsiBytes, SlotFor, Orderly,
      Sweep;
    var chunk := CsiBytes(quiet, 0x5f) + CursorBytes(row, column);
    var (begun, id) := Begin(NEW_SESSION, ExpectCursorPosition);
    SoundStart(limit);
    BeginMints(NEW_SESSION, ExpectCursorPosition);
    OrderlyIsValid(begun);
    BegunIsFresh(ExpectCursorPosition);
    ReadTakesQuiet(ReadingOf(begun), id, quiet, row, column, limit, tables);
    var r := ReadChunk(ReadingOf(begun), [id], chunk, limit, tables);
    AnsweredByOneRead(ExpectCursorPosition, chunk, limit, tables);
    var span := r.spans[0];
    assert r.spans == [span];
    OneSpan(span);
  }

  lemma BegunIsFresh(x: Expectation)
    ensures ReadingOf(Begin(NEW_SESSION, x).0) == Reading(FRESH, [], [], Begin(NEW_SESSION, x).0.table, [], [])
  {
    hide Register, Minted;
  }

  /** The one read of such a query. */
  lemma ReadTakesQuiet(m: Reading, id: nat, quiet: Bytes, row: nat, column: nat, limit: nat, tables: Tables)
    requires m == Reading(FRESH, [], [], m.table, [], [])
    requires Valid(m.table) && WaitsFor(m.table, id, ExpectCursorPosition)
    requires AllIn(ParamByte, quiet) && |quiet| <= limit && limit >= 11
    requires MapToken(FRESH.mapping, CsiToken(quiet, 0x5f), tables).events == []
    requires 2 <= row <= U16_MAX && 1 <= column <= U16_MAX
    requires tables.typed(CsiToken(CursorParams(row, column), 0x52).csi) == None
    ensures var chunk := CsiBytes(quiet, 0x5f) + CursorBytes(row, column);
      var r := ReadChunk(m, [id], chunk, limit, tables);
      && chunk != [] && r.replies != [] && r.unattributed == []
      && |r.spans| == 1 && r.spans[0].isReply && r.spans[0].bytes == chunk
      && r.spans[0].silent == [CsiToken(quiet, 0x5f)]
  {
    hide Decode, Feed, Match, MapToken, ReadChunk, Digits, CursorParams, CursorPositionReport, SlotFor, Valid,
      Attribute;
    var params := CursorParams(row, column);
    var head := CsiBytes(quiet, 0x5f) + ([ESC, 0x5b] + params);
    assert head + [0x52] == CsiBytes(quiet, 0x5f) + CursorBytes(row, column);
    CursorParamsFit(row, column);
    QuietThenStarved(quiet, params, limit, tables);
    var d := Decode(FRESH, head, limit, tables);
    ReportCompletes(d.state.mapping, params, 0x52, limit, tables);
    CursorReportAnswers(row, column, limit);
    LastByteRead(m, [id], head, 0x52, [Syntax(CsiToken(params, 0x52))], limit, tables);
    AttributeFirstMatch(m.table, id, ExpectCursorPosition, [Syntax(CsiToken(params, 0x52))], id);
    MatchOne(ExpectCursorPosition, Syntax(CsiToken(params, 0x52)));
  }

  lemma CursorReportAnswers(row: nat, column: nat, limit: nat)
    requires 2 <= row <= U16_MAX && 1 <= column <= U16_MAX && limit >= 11
    ensures Match(ExpectCursorPosition, Syntax(CsiToken(CursorParams(row, column), 0x52))).Some?
  {
    hide Match, Digits, CursorParams, CursorPositionReport;
    var whole := [CursorBytes(row, column)];
    assert Concat(whole) == CursorBytes(row, column) by { assert whole[1..] == []; }
    CursorReportRoundTrip(row, column, whole, limit);
  }

  /** A first query answered by its first read. */
  lemma AnsweredByOneRead(x: Expectation, chunk: Bytes, limit: nat, tables: Tables)
    requires chunk != []
    requires var (begun, id) := Begin(NEW_SESSION, x);
      ReadChunk(ReadingOf(begun), [id], chunk, limit, tables).replies != []
    ensures var (begun, id) := Begin(NEW_SESSION, x);
      var r := ReadChunk(ReadingOf(begun), [id], chunk, limit, tables);
      var s := Query(NEW_SESSION, x, true, [Readable(chunk)], limit, tables).0;
      s.typeahead == Kept(r.spans) && s.carry == r.unattributed && s.log == r.spans
  {
    hide ReadChunk, Register;
    var polls := [Readable(chunk)];
    assert polls != [] && polls[0] == Readable(chunk);
    var r := ReadChunk(ReadingOf(Begin(NEW_SESSION, x).0), [Begin(NEW_SESSION, x).1], chunk, limit, tables);
    assert [] + Kept(r.spans) == Kept(r.spans) && [] + r.spans == r.spans;
  }

  lemma CursorParamsFit(row: nat, column: nat)
    requires row <= U16_MAX && column <= U16_MAX
    ensures AllIn(ParamByte, CursorParams(row, column)) && |CursorParams(row, column)| <= 11
  {
    hide Digits;
    DigitsOfU16(row);
    DigitsOfU16(column);
    DigitsSpell(row);
    DigitsSpell(column);
  }

  // ----- A key swallowed with a truncated reply -----

  // `ESC P > | a b c ESC a`: under a limit of four, an XTVERSION reply that has lost its last byte when Alt-a aborts
  // it.
  const VERSION_HEAD: Bytes := [ESC, 0x50, 0x3e, 0x7c]
  const VERSION_CUT: Bytes := VERSION_HEAD + [0x61, 0x62, 0x63, ESC]
  const VERSION_PARAMS: ControlParams := ControlParams([0x3e], [], [], 0x7c)
  const VERSION_STATE: StringState :=
    StringState(KindDcs, VERSION_HEAD + [0x61, 0x62], 2, 4, 1, true, Some(VERSION_PARAMS))
  const VERSION_TOKEN: Token := Str(StringSequence(
    KindDcs, VERSION_HEAD + [0x61, 0x62], [0x61, 0x62], 1, Unterminated, Some(VERSION_PARAMS)))
  const ALT_A: Token := Esc([ESC, 0x61], [], Some(0x61))

  lemma VersionPrefix(rest: Bytes)
    ensures ScanPrefix([0x3e, 0x7c] + rest, 4) == Complete(VERSION_PARAMS, 2)
  {
    hide SpanLen;
    var buf := [0x3e, 0x7c] + rest;
    SpanLenUnique(PrivateMarker, buf, 1);
    SpanLenUnique(ParamByte, buf[1..], 0);
    SpanLenUnique(Intermediate, buf[1..], 0);
    assert buf[..1] == [0x3e] && buf[1..1] == [];
  }

  lemma StringStays(a: StringState, b: Byte, rest: Bytes, limit: nat)
    requires a.Valid() && StepInString(a, b, limit).Stay?
    ensures StringRunWith(a, [b] + rest, limit, limit) ==
      StringRunWith(StepInString(a, b, limit).str, rest, limit, limit)
  {
    hide RunWith, StepInString;
    var buf := [b] + rest;
    assert buf[0] == b && buf[1..] == rest;
  }

  lemma VersionIsHeld()
    ensures Grammar.Feed(Ground, VERSION_CUT, 4) == Outcome(InString(VERSION_STATE), [])
  {
    hide StringRunWith, ScanPrefix;
    var nothing: Bytes := [];
    var body: Bytes := [0x61, 0x62, 0x63, ESC];
    VersionPrefix(body);
    assert VERSION_CUT[2..] == [0x3e, 0x7c] + body && VERSION_CUT[..4] == VERSION_HEAD && VERSION_CUT[4..] == body;
    var a := StringState(KindDcs, VERSION_HEAD, 2, 4, 0, false, Some(VERSION_PARAMS));
    assert StepWith(VERSION_CUT, 4, 4) == EnterString(a, 4);
    VersionBody(a);
  }

  lemma VersionBody(a: StringState)
    requires a == StringState(KindDcs, VERSION_HEAD, 2, 4, 0, false, Some(VERSION_PARAMS))
    ensures StringRunWith(a, [0x61, 0x62, 0x63, ESC], 4, 4) == Outcome(InString(VERSION_STATE), [])
  {
    hide StringRunWith;
    var nothing: Bytes := [];
    var a1 := a.(retained := VERSION_HEAD + [0x61]);
    var a2 := a.(retained := VERSION_HEAD + [0x61, 0x62]);
    assert VERSION_HEAD + [0x61] + [0x62] == VERSION_HEAD + [0x61, 0x62];
    assert [0x61] + [0x62, 0x63, ESC] == [0x61, 0x62, 0x63, ESC] && [0x62] + [0x63, ESC] == [0x62, 0x63, ESC];
    assert [0x63] + [ESC] == [0x63, ESC] && [ESC] + nothing == [ESC];
    StringStays(a, 0x61, [0x62, 0x63, ESC], 4);
    StringStays(a1, 0x62, [0x63, ESC], 4);
    StringStays(a2, 0x63, [ESC], 4);
    StringStays(a2.(dropped := 1), ESC, nothing, 4);
    StringOfNothing(VERSION_STATE);
  }

  lemma StringOfNothing(a: StringState)
    requires a.Valid()
    ensures StringRunWith(a, [], 4, 4) == Outcome(InString(a), [])
  {
  }

  lemma VersionIsAborted()
    ensures Grammar.Feed(InString(VERSION_STATE), [0x61], 4) == Outcome(Ground, [VERSION_TOKEN, ALT_A])
  {
    hide RunWith, SpanLen;
    StringByte(VERSION_STATE, 0x61, 4);
    var buf := [ESC, 0x61];
    assert buf[0..] == buf && buf[1..] == [0x61] && buf[2..] == [] && buf[..2] == buf && buf[1..1] == [];
    SpanLenUnique(Intermediate, [0x61], 0);
    RunAt(buf, 0, 4);
    RunNothing(4);
    assert [ALT_A] + [] == [ALT_A] && [VERSION_TOKEN] + [ALT_A] == [VERSION_TOKEN, ALT_A];
    assert VERSION_STATE.retained + [] == VERSION_STATE.retained;
    assert VERSION_STATE.retained[4..] == [0x61, 0x62];
  }

  lemma VersionDecodes(tables: Tables)
    ensures Decode(FRESH, VERSION_CUT, 4, tables) == Decoded(DecoderState(InString(VERSION_STATE), FRESH.mapping), [])
    ensures Decode(DecoderState(InString(VERSION_STATE), FRESH.mapping), [0x61], 4, tables)
         == Decoded(FRESH, [Syntax(VERSION_TOKEN), Syntax(ALT_A)])
  {
    hide RunWith, StringRunWith;
    VersionIsHeld();
    VersionIsAborted();
    NoTokensNoEvents(FRESH.mapping, tables);
    var ts := [VERSION_TOKEN, ALT_A];
    assert ts[1..] == [ALT_A];
    MapOneToken(FRESH.mapping, ALT_A, tables);
    var es: seq<Event> := [Syntax(VERSION_TOKEN)];
    assert es + [Syntax(ALT_A)] == [Syntax(VERSION_TOKEN), Syntax(ALT_A)];
  }

  lemma VersionMatches()
    ensures Match(ExpectXtVersion, Syntax(VERSION_TOKEN)) == Some(VersionReply([0x61, 0x62]))
    ensures forall x :: Match(x, Syntax(ALT_A)).None?
  {
    var text: Bytes := [0x61, 0x62];
    assert text[..1] == [0x61] && text[1..] == [0x62] && [0x62][..1] == [0x62] && [0x62][1..] == [];
    assert ValidUtf8([0x62]) && ValidUtf8(text);
  }

  /** The bundle takes the reply; the Alt-a behind it completes nothing. */
  lemma VersionIsTaken(t: Table, ids: seq<nat>)
    requires Valid(t) && 0 in ids && SlotFor(t, 0) == Some(Slot(0, ExpectXtVersion, 1, None))
    ensures var a := Attribute(t, ids, [Syntax(VERSION_TOKEN), Syntax(ALT_A)]);
      a.isReply && a.replies == [(0, VersionReply([0x61, 0x62]))]
  {
    hide Match, FeedEvent, TakeReply, SlotFor, Valid;
    VersionMatches();
    var e, key := Syntax(VERSION_TOKEN), Syntax(ALT_A);
    var events := [e, key];
    assert events[1..] == [key] && [key][1..] == [];
    FeedSlotFor(t, e, 0);
    CompletionHasReply(t, e);
    var (fed, r) := FeedEvent(t, e);
    NothingAttributed(TakeReply(fed, 0).0, ids, [key]);
  }

  /** A probe that reads those bytes takes all of them for the reply: the Alt-a is no longer anywhere. */
  lemma TruncatedReplyTakesKey(seed: Capabilities, tables: Tables)
    ensures NEW_SESSION.decoder.parser.Valid()
    ensures var chunk := VERSION_CUT + [0x61];
      var (s, end) := SyncProbe.ProbeCapabilities(NEW_SESSION, None, seed, true, [Readable(chunk)], 4, tables);
      && end.Found? && s.typeahead == [] && s.carry == []
      && |s.log| == 1 && s.log[0].isReply && s.log[0].bytes == chunk && s.log[0].tokens == [VERSION_TOKEN, ALT_A]
  {
    hide Decode, Feed, Match, ReadChunk, RegisterBundle, ASKED, AskedTable, SyncProbe.StoreEach, ResolveEach, Attribute,
      SlotFor, Started, BundleAt;
    var chunk := VERSION_CUT + [0x61];
    var begun := SyncProbe.BeginProbe(NEW_SESSION).0;
    BundleStarts();
    VersionDecodes(tables);
    VersionFeeds();
    VersionIsTaken(begun.table, BundleAt(0).Ids());
    var events := [Syntax(VERSION_TOKEN), Syntax(ALT_A)];
    LastByteRead(ReadingOf(begun), BundleAt(0).Ids(), VERSION_CUT, 0x61, events, 4, tables);
    var r := ReadChunk(ReadingOf(begun), BundleAt(0).Ids(), chunk, 4, tables);
    var span := r.spans[0];
    assert r.spans == [span];
    OneSpan(span);
    VersionIsNoFence(BundleAt(0), r.replies);
    ProbeByOneRead(begun, BundleAt(0), seed, chunk, 4, tables);
    var read := SyncSession.Read(begun, BundleAt(0).Ids(), chunk, 4, tables).0;
    assert read.log == [span] && read.typeahead == [] by { assert [] + r.spans == r.spans; }
  }

  lemma VersionIsNoFence(b: Bundle, replies: seq<(nat, Reply)>)
    requires b.fence != 0 && |replies| == 1 && replies[0].0 == 0
    ensures !SyncProbe.Fences(b, replies)
  {
  }

  /** A probe whose only read does not hold the fence's answer. */
  lemma ProbeByOneRead(s: Session, b: Bundle, caps: Capabilities, chunk: Bytes, limit: nat, tables: Tables)
    requires s.decoder.parser.Valid() && chunk != []
    requires !SyncProbe.Fences(b, SyncSession.Read(s, b.Ids(), chunk, limit, tables).1)
    ensures var (read, replies) := SyncSession.Read(s, b.Ids(), chunk, limit, tables);
      SyncProbe.AwaitFence(s, b, caps, [Readable(chunk)], limit, tables)
        == (SyncProbe.Conclude(read, b), SyncProbe.Found(SyncProbe.StoreEach(b, replies, caps)))
  {
    hide ReadChunk, SyncProbe.Fences, SyncProbe.Conclude, SyncProbe.StoreEach;
    var polls := [Readable(chunk)];
    assert polls[1..] == [];
  }

  lemma VersionFeeds()
    ensures Grammar.Feed(InString(VERSION_STATE), [0x61], 4).tokens == [VERSION_TOKEN, ALT_A]
  {
    VersionIsAborted();
  }

  /** The bundle's ids on an empty table: the version query's is 0, the fence's is not. */
  lemma BundleStarts()
    ensures |ASKED| == 12
    ensures var (begun, b) := SyncProbe.BeginProbe(NEW_SESSION);
      && begun == NEW_SESSION.(table := AskedTable(0, 12), asked := begun.asked) && b == BundleAt(0)
      && Valid(begun.table) && SlotFor(begun.table, 0) == Some(Slot(0, ExpectXtVersion, 1, None))
      && 0 in b.Ids() && b.fence != 0
  {
    hide RegisterBundle, AskedTable, SlotFor, Valid, Minted;
    FenceIsAsked();
    RegisterBundleOnEmpty(NEW_SESSION.table);
    AskedTableWaits(0);
    assert FreshIds(0)[0] == 0;
    assert BundleAt(0).Ids()[1] == 0;
  }

  // ----- Probes left registered -----

  lemma StartIsOrderly(limit: nat)
    ensures Orderly(NEW_SESSION) && InOrder(NEW_SESSION, limit) && Sweep(NEW_SESSION) == NEW_SESSION
    ensures NEW_SESSION.decoder.parser.Valid() && Reachable(NEW_SESSION.decoder.parser, limit)
  {
    hide Reachable;
    SoundStart(limit);
    GroundIsReachable(limit);
  }

  /** The table of a first probe that an error ends. */
  lemma FirstProbeFails(seed: Capabilities, poll: Poll, limit: nat, tables: Tables)
    requires poll == ReadFailed || poll == ReadEof
    ensures NEW_SESSION.decoder.parser.Valid() && |ASKED| == 12
    ensures var (s, end) := SyncProbe.ProbeCapabilities(NEW_SESSION, None, seed, true, [poll], limit, tables);
      && end == (if poll == ReadEof then SyncProbe.Found(seed) else SyncProbe.Failed)
      && s.table == AskedTable(0, 12) && s.active == None && s.decoder == FRESH && s.carry == []
  {
    hide RegisterBundle, ASKED, AskedTable;
    FenceIsAsked();
    StartIsOrderly(limit);
    RegisterBundleOnEmpty(NEW_SESSION.table);
  }

  /** A probe that the device's error ends leaves its twelve expectations registered, and the next, over a silent
      terminal, finds nothing, ends well and leaves them registered too. */
  lemma FailedProbeStaysRegistered(seed: Capabilities, limit: nat, tables: Tables)
    ensures NEW_SESSION.decoder.parser.Valid() && |ASKED| == 12
    ensures var (s, end) := SyncProbe.ProbeCapabilities(NEW_SESSION, None, seed, true, [ReadFailed], limit, tables);
      && end == SyncProbe.Failed && s.table == AskedTable(0, 12) && s.decoder.parser.Valid()
      && var (s', end') := SyncProbe.ProbeCapabilities(s, None, seed, true, [], limit, tables);
         end' == SyncProbe.Found(seed) && s'.table.slots != []
  {
    hide Orderly, InOrder, SyncProbe.ProbeCapabilities, ASKED, Sweep, SyncProbe.StopsAtEof, SyncProbe.ProbeIds,
      Reachable, Awaits;
    StartIsOrderly(limit);
    FirstProbeFails(seed, ReadFailed, limit, tables);
    var s := SyncProbe.ProbeCapabilities(NEW_SESSION, None, seed, true, [ReadFailed], limit, tables).0;
    SyncProbe.ProbeKeepsOrderly(NEW_SESSION, None, seed, true, [ReadFailed], limit, tables);
    SweepOfQuiet(s);
    SyncProbe.SilentProbeLeavesSlots(s, seed, limit, tables);
  }

  lemma SweepOfQuiet(s: Session)
    ensures s.active == None ==> Sweep(s) == s
  {
  }

  /** A probe that an error-shaped end of input ends reports findings, and leaves them registered as well. */
  lemma EofProbeStaysRegistered(seed: Capabilities, limit: nat, tables: Tables)
    ensures NEW_SESSION.decoder.parser.Valid() && |ASKED| == 12
    ensures var (s, end) := SyncProbe.ProbeCapabilities(NEW_SESSION, None, seed, true, [ReadEof], limit, tables);
      end == SyncProbe.Found(seed) && s.table == AskedTable(0, 12)
  {
    hide SyncProbe.ProbeCapabilities, ASKED;
    FirstProbeFails(seed, ReadEof, limit, tables);
  }

  // ----- A fence that has already been answered -----

  // `ESC [ ? c`, a primary device attributes report without attributes.
  const DA1_HEAD: Bytes := [ESC, 0x5b, 0x3f]
  const DA1: Bytes := [ESC, 0x5b, 0x3f, 0x63]
  const DA1_TOKEN: Token := Csi(ControlSequence(DA1, ControlParams([0x3f], [], [], 0x63)))

  lemma Da1Prefix(limit: nat)
    requires limit > 0
    ensures ScanPrefix([0x3f], limit) == Hungry
    ensures ScanPrefix([0x3f, 0x63], limit) == Complete(DA1_TOKEN.csi.params, 2)
  {
    hide SpanLen;
    var nothing: Bytes := [];
    var one, two := [0x3f], [0x3f, 0x63];
    assert one[1..] == nothing && two[1..] == [0x63] && two[..1] == [0x3f] && two[1..1] == nothing;
    SpanLenUnique(PrivateMarker, one, 1);
    SpanLenUnique(ParamByte, nothing, 0);
    SpanLenUnique(Intermediate, nothing, 0);
    SpanLenUnique(PrivateMarker, two, 1);
    SpanLenUnique(ParamByte, [0x63], 0);
    SpanLenUnique(Intermediate, [0x63], 0);
  }

  lemma Da1Reads(limit: nat)
    requires limit > 0
    ensures Grammar.Feed(Ground, DA1_HEAD, limit) == Outcome(Partial(DA1_HEAD), [])
    ensures Grammar.Feed(Partial(DA1_HEAD), [0x63], limit) == Outcome(Ground, [DA1_TOKEN])
  {
    hide RunWith, ScanPrefix;
    Da1Prefix(limit);
    assert DA1_HEAD[2..] == [0x3f] && DA1_HEAD[0..] == DA1_HEAD;
    RunAt(DA1_HEAD, 0, limit);
    assert DA1_HEAD + [0x63] == DA1 && DA1[2..] == [0x3f, 0x63] && DA1[0..] == DA1 && DA1[..4] == DA1 && DA1[4..] == [];
    RunAt(DA1, 0, limit);
    RunNothing(limit);
    assert [DA1_TOKEN] + [] == [DA1_TOKEN];
  }

  lemma Da1Decodes(limit: nat, tables: Tables)
    requires limit > 0 && tables.typed(DA1_TOKEN.csi) == None
    ensures Decode(FRESH, DA1_HEAD, limit, tables) == Decoded(DecoderState(Partial(DA1_HEAD), FRESH.mapping), [])
    ensures Decode(DecoderState(Partial(DA1_HEAD), FRESH.mapping), [0x63], limit, tables)
         == Decoded(FRESH, [Syntax(DA1_TOKEN)])
    ensures DA1_HEAD + [0x63] == DA1
    ensures Match(ExpectPrimaryDeviceAttributes, Syntax(DA1_TOKEN)).Some?
    ensures Match(ExpectCursorPosition, Syntax(DA1_TOKEN)).None?
  {
    hide RunWith;
    Da1Reads(limit);
    NoTokensNoEvents(FRESH.mapping, tables);
    MapOneToken(FRESH.mapping, DA1_TOKEN, tables);
  }

  /** A late reply to a failed probe's fence, read while a query waits, answers the slot the probe left. */
  lemma LateReplyAnswersSlot(s: Session, x: Queried, limit: nat, tables: Tables)
    requires limit > 0 && tables.typed(DA1_TOKEN.csi) == None
    requires |ASKED| == 12 && s.table == AskedTable(0, 12) && s.active == None && s.decoder == FRESH && s.carry == []
    requires s.silent == [] && Orderly(s)
    ensures var (s', answer) := Query(s, x, true, [Readable(DA1)], limit, tables);
      && SlotFor(s'.table, FENCE).Some? && SlotFor(s'.table, FENCE).value.expectation == ExpectPrimaryDeviceAttributes
      && SlotFor(s'.table, FENCE).value.reply.Some?
      && s'.active == None && s'.decoder == FRESH
  {
    hide Match, Decode, ASKED, AskedTable, ReadChunk, Resolve, SlotFor, Register, Minted, FeedEvent, Orderly, Feed;
    FenceIsAsked();
    BeginMints(s, x);
    SweepOfQuiet(s);
    AskedTableWaits(0);
    var (begun, id) := Begin(s, x);
    AskedTableCounts();
    assert FreshIds(0)[FENCE] == FENCE;
    Da1Decodes(limit, tables);
    var e := Syntax(DA1_TOKEN);
    LastByteRead(ReadingOf(begun), [id], DA1_HEAD, 0x63, [e], limit, tables);
    OrderlyIsValid(begun);
    FeedSlotFor(begun.table, e, FENCE);
    var r := ReadChunk(ReadingOf(begun), [id], DA1, limit, tables);
    AttributeStray(begun.table, id, e);
    AwaitOneRead(begun, id, DA1, limit, tables);
    var read := SyncSession.Read(begun, [id], DA1, limit, tables).0;
    assert SlotFor(begun.table, FENCE) == Some(Slot(FENCE, ASKED[FENCE], 1, None));
    FeedKeepsValid(begun.table, e);
    ResolveSlotFor(read.table, id, FENCE);
  }

  /** A query whose only read does not answer it times out. */
  lemma AwaitOneRead(s: Session, id: nat, chunk: Bytes, limit: nat, tables: Tables)
    requires s.decoder.parser.Valid() && chunk != []
    requires SyncSession.Read(s, [id], chunk, limit, tables).1 == []
    ensures Await(s, id, [Readable(chunk)], limit, tables)
         == (Clear(SyncSession.Read(s, [id], chunk, limit, tables).0, id), NoAnswer)
  {
    hide ReadChunk, Resolve;
    var polls := [Readable(chunk)];
    assert polls[1..] == [];
  }

  lemma AskedTableCounts()
    ensures |ASKED| == 12 && AskedTable(0, 12).nextId == 12
  {
  }

  lemma AttributeStray(t: Table, id: nat, e: Event)
    requires FeedEvent(t, e).1.Completed? && FeedEvent(t, e).1.id != id
    ensures Attribute(t, [id], [e]) == Attribution(FeedEvent(t, e).0, [], false)
  {
    hide FeedEvent;
    assert [e][1..] == [];
  }

  /** So after a probe fails, and a later query reads the late answer to its fence, the next probe reads on past the
      answer to its own: it can only end by its deadline. */
  lemma LateReplyDisarmsFence(seed: Capabilities, x: Queried, more: seq<Poll>, limit: nat, tables: Tables)
    requires limit > 0 && tables.typed(DA1_TOKEN.csi) == None
    requires more != [] && SyncProbe.AllReads(more)
    ensures var s := SyncRuns.Run([DoProbe(None, seed, true, [ReadFailed]), DoQuery(x, true, [Readable(DA1)])],
                                  limit, tables).session;
      SyncProbe.ProbeReads(s, None, true, [Readable(DA1)] + more, limit, tables) != DA1
  {
    hide Sound, SyncRuns.Apply, Query, SyncProbe.ProbeCapabilities, SyncProbe.ProbeReads, AskedTable, ASKED, Match,
      Orderly, InOrder, SlotFor, Decode, HasFence, Reachable, Sweep;
    var ops := [DoProbe(None, seed, true, [ReadFailed]), DoQuery(x, true, [Readable(DA1)])];
    SoundStart(limit);
    var h := SyncRuns.Apply(START, ops[0], limit, tables);
    ApplyKeeps(START, ops[0], limit, tables);
    var rest := ops[1..];
    assert rest == [ops[1]] && rest[1..] == [];
    ApplyKeeps(h, ops[1], limit, tables);
    var h' := SyncRuns.Apply(h, ops[1], limit, tables);
    assert RunFrom(h', [], limit, tables) == h';
    assert RunFrom(h, rest, limit, tables) == h';
    SessionsOf(seed, x, limit, tables);
    SoundIsOrderly(h', limit);
    SweepOfQuiet(h'.session);
    Da1HasFence(limit, tables);
    assert SyncProbe.FenceAnswered(Sweep(h'.session).table);
    SyncProbe.FenceEndsExactly(h'.session, seed, DA1, more, limit, tables);
  }

  lemma SoundIsOrderly(h: History, limit: nat)
    requires Sound(h, limit)
    ensures Orderly(h.session) && InOrder(h.session, limit) && h.session.decoder.parser.Valid()
  {
  }

  lemma Da1HasFence(limit: nat, tables: Tables)
    requires limit > 0 && tables.typed(DA1_TOKEN.csi) == None
    ensures HasFence(ReadOnce(FRESH, DrainBoundary.Read(DA1, true), limit, tables).events)
  {
    hide Decode, Match;
    Da1Decodes(limit, tables);
    DecodeSplit(FRESH, DA1_HEAD, [0x63], limit, tables);
    assert [] + [Syntax(DA1_TOKEN)] == [Syntax(DA1_TOKEN)];
  }

  /** The states of that run. */
  lemma SessionsOf(seed: Capabilities, x: Queried, limit: nat, tables: Tables)
    requires limit > 0 && tables.typed(DA1_TOKEN.csi) == None
    ensures var h := SyncRuns.Apply(START, DoProbe(None, seed, true, [ReadFailed]), limit, tables);
      && h.session.decoder.parser.Valid()
      && var s := SyncRuns.Apply(h, DoQuery(x, true, [Readable(DA1)]), limit, tables).session;
         s.active == None && s.decoder == FRESH
         && exists k: nat ::
              SlotFor(s.table, k).Some? && SlotFor(s.table, k).value.expectation == ExpectPrimaryDeviceAttributes
              && SlotFor(s.table, k).value.reply.Some?
  {
    hide Sound, Query, SyncRuns.Apply, AskedTable, ASKED, Orderly, InOrder, SlotFor;
    SoundStart(limit);
    FirstProbeFails(seed, ReadFailed, limit, tables);
    var op := DoProbe(None, seed, true, [ReadFailed]);
    ApplyKeeps(START, op, limit, tables);
    var h := SyncRuns.Apply(START, op, limit, tables);
    SoundIsOrderly(h, limit);
    FirstProbeIsQuiet(seed, limit, tables);
    AppliedProbe(START, None, seed, true, [ReadFailed], limit, tables);
    LateReplyAnswersSlot(h.session, x, limit, tables);
    AppliedQuery(h, x, true, [Readable(DA1)], limit, tables);
  }

  lemma AppliedProbe(
      h: History, skip: Option<Capabilities>, seed: Capabilities, sent: bool, polls: seq<Poll>,
      limit: nat, tables: Tables)
    requires h.session.decoder.parser.Valid()
    ensures SyncRuns.Apply(h, DoProbe(skip, seed, sent, polls), limit, tables).session
         == SyncProbe.ProbeCapabilities(h.session, skip, seed, sent, polls, limit, tables).0
  {
    hide SyncProbe.ProbeCapabilities, SyncProbe.ProbeReads;
  }

  lemma AppliedQuery(h: History, x: Queried, sent: bool, polls: seq<Poll>, limit: nat, tables: Tables)
    requires h.session.decoder.parser.Valid()
    ensures SyncRuns.Apply(h, DoQuery(x, sent, polls), limit, tables).session
         == Query(h.session, x, sent, polls, limit, tables).0
  {
    hide Query, QueryReads;
  }

  lemma FirstProbeIsQuiet(seed: Capabilities, limit: nat, tables: Tables)
    ensures NEW_SESSION.decoder.parser.Valid()
    ensures SyncProbe.ProbeCapabilities(NEW_SESSION, None, seed, true, [ReadFailed], limit, tables).0.silent == []
  {
    hide RegisterBundle, Minted;
  }
}
