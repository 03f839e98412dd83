/** What a terminal prints is what a probe records, in both sessions. */
module WireProbes {
  import opened Bytes
  import opened Tokens
  import opened Bounds
  import opened Reports
  import opened Events
  import opened Decoder
  import opened Correlate
  import CorrelatorTable
  import SequenceRoundTrips
  import StringFraming
  import opened Answers
  import opened Tallies
  import opened DrainBoundary
  import opened Probe
  import opened Gathering
  import opened ReportRoundTrips
  import opened WireReports
  import opened WireRuns
  import SyncSession
  import SyncProbe
  import TokioSession
  import TokioRuns
  import ProbeRuns

  // ----- Fields -----

  predicate IsProbed(mode: nat) { mode == 2026 || mode == 2027 || mode == 2048 || mode == 2004 }

  function ModeField(caps: Capabilities, mode: nat): Finding<bool>
    requires IsProbed(mode)
  {
    if mode == 2026 then caps.synchronizedOutput
    else if mode == 2027 then caps.graphemeClustering
    else if mode == 2048 then caps.inBandResize
    else caps.bracketedPaste
  }

  /** Where the mode's question stands in the bundle. */
  function ModeIndex(mode: nat): (i: nat)
    requires IsProbed(mode)
    ensures i < |ASKED| && ASKED[i] == ExpectDecPrivateMode(mode)
  {
    if mode == 2026 then 7 else if mode == 2027 then 8 else if mode == 2048 then 9 else 10
  }

  /** What a field says after `CSI ? mode ; value $ y`: on for 1 and 3, off for 2 and 4, unknown for 0. */
  predicate SaysMode(field: Finding<bool>, mode: nat, value: nat)
    requires IsProbed(mode)
  {
    && (field.value == Some(true) <==> value == 1 || value == 3)
    && (field.value == Some(false) <==> value == 2 || value == 4)
    && (field.value == None <==> value == 0)
    && field.evidence == Probed(
         if mode == 2026 then "DECRQM 2026" else if mode == 2027 then "DECRQM 2027"
         else if mode == 2048 then "DECRQM 2048" else "DECRQM 2004")
  }

  function SizeOf(p: Pixels): Option<(nat, nat)> {
    if p.height > 0 && p.width > 0 then Some((p.width, p.height)) else None
  }

  /** The capabilities say what the reply says. */
  predicate Says(caps: Capabilities, r: Reply) {
    match r
    case VersionReply(version) => caps.version == Some(version)
    case FlagsReply(bits) => caps.kittyKeyboard == Finding(Some(bits), Probed("CSI ?u"))
    case GraphicsReply(g) =>
      caps.kittyGraphics == Finding(Some(g.message == [0x4f, 0x4b]), Probed("kitty graphics a=q"))
    case TextAreaReply(area) => caps.textAreaPixels == Finding(SizeOf(area), Probed("CSI 14 t"))
    case CellSizeReply(cell) => caps.cellSize == Finding(SizeOf(cell), Probed("CSI 16 t"))
    case ColorReply(c) =>
      if c.kind == Foreground then caps.foregroundColor == Finding(Some(c.rgb), Probed("OSC 10"))
      else caps.backgroundColor == Finding(Some(c.rgb), Probed("OSC 11"))
    case ModeReply(report) =>
      IsProbed(report.mode) && SaysMode(ModeField(caps, report.mode), report.mode, StateCode(report.state))
    case AttributesReply(params) => caps.primaryDeviceAttributes == Some(params)
    case CursorReply(_) => false
    case StatusReply(_) => false
  }

  /** The field of each answered question says what its reply says. */
  lemma RecordedSays(seed: Capabilities, a: seq<Option<Reply>>, i: nat, r: Reply)
    requires |a| == |ASKED| && i < |ASKED| && a[i] == Some(r)
    requires Sayable(r) && Question(r) == ASKED[i]
    ensures Says(Recorded(seed, a), r)
  {
    hide ValidUtf8, StringFraming.IsPlain, SequenceRoundTrips.AllIn;
  }

  // ----- The first answer of any probe -----

  /** `fed[j]` is the mode report `CSI ? mode ; value $ y`, and nothing before it answers the mode's question. */
  ghost predicate ReportsFirst(fed: seq<Event>, j: nat, mode: U16, value: U16) {
    && j < |fed| && fed[j].Syntax? && fed[j].token.Csi? && fed[j].token.csi.params == ModeForm(mode, value)
    && forall k :: 0 <= k < j ==> Match(ExpectDecPrivateMode(mode), fed[k]).None?
  }

  lemma FirstReportSays(seed: Capabilities, a: seq<Option<Reply>>, fed: seq<Event>, j: nat, mode: U16, value: U16)
    requires |a| == |ASKED| && IsProbed(mode) && value <= 4 && ReportsFirst(fed, j, mode, value)
    requires a[ModeIndex(mode)] == FirstMatch(ExpectDecPrivateMode(mode), fed)
    ensures SaysMode(ModeField(Recorded(seed, a), mode), mode, value)
  {
    hide ModeForm, FirstMatch, Match;
    ModeAnswersExactly(fed[j].token.csi, mode, mode, value);
    FirstMatchAt(ExpectDecPrivateMode(mode), fed, j);
  }

  /** The capabilities say what the first answer to the `i`th question says; the mode fields by the value printed. */
  ghost predicate SaysFirstAnswer(caps: Capabilities, fed: seq<Event>, i: nat)
    requires i < |ASKED|
  {
    && (forall r :: FirstMatch(ASKED[i], fed) == Some(r) && Sayable(r) && Question(r) == ASKED[i] ==> Says(caps, r))
    && forall j: nat, mode: U16, value: U16 ::
         IsProbed(mode) && i == ModeIndex(mode) && value <= 4 && ReportsFirst(fed, j, mode, value)
         ==> SaysMode(ModeField(caps, mode), mode, value)
  }

  lemma RecordedSaysFirstAnswer(seed: Capabilities, a: seq<Option<Reply>>, fed: seq<Event>, i: nat)
    requires |a| == |ASKED| && i < |ASKED| && a[i] == FirstMatch(ASKED[i], fed)
    ensures SaysFirstAnswer(Recorded(seed, a), fed, i)
  {
    hide FirstMatch, Says, SaysMode, ModeField, Recorded, Sayable, Question, ASKED, ReportsFirst, ModeIndex;
    forall r | FirstMatch(ASKED[i], fed) == Some(r) && Sayable(r) && Question(r) == ASKED[i]
      ensures Says(Recorded(seed, a), r)
    {
      RecordedSays(seed, a, i, r);
    }
    forall j: nat, mode: U16, value: U16
      | IsProbed(mode) && i == ModeIndex(mode) && value <= 4 && ReportsFirst(fed, j, mode, value)
      ensures SaysMode(ModeField(Recorded(seed, a), mode), mode, value)
    {
      FirstReportSays(seed, a, fed, j, mode, value);
    }
  }

  /** In the blocking session, in every state a run can reach: a probe that ends with findings has recorded the first
      answer to each question not already answered when it started. */
  lemma SyncProbeSays(
      s: SyncSession.Session, seed: Capabilities, polls: seq<SyncSession.Poll>, i: nat, limit: nat, tables: Tables)
    requires s.decoder.parser.Valid() && Reachable(s.decoder.parser, limit) && SyncSession.Orderly(s) && i < |ASKED|
    ensures |SyncProbe.ProbeIds(s)| == |ASKED|
    ensures var u, ids := SyncProbe.BeginProbe(s).0.table, SyncProbe.ProbeIds(s);
      var batches := Batches(s.decoder, SyncSession.LeadingReads(polls), limit, tables);
      var end := SyncProbe.ProbeCapabilities(s, None, seed, true, polls, limit, tables).1;
      end.Found? && Waiting(u, ids[i]) ==> SaysFirstAnswer(end.caps, FedTo(Awaits(u, ids, []), batches), i)
  {
    hide SaysFirstAnswer, Recorded, ASKED, FirstMatch, Batches, FedTo, Awaits, Waiting, SyncProbe.ProbeCapabilities,
      SyncProbe.ProbeIds, SyncProbe.BeginProbe, SyncProbe.Leaves, SyncProbe.StopsAtEof, SyncSession.Orderly, Reachable,
      HasFence;
    SyncProbe.ProbeIsFirstMatch(s, None, seed, true, polls, limit, tables);
    var u, ids := SyncProbe.BeginProbe(s).0.table, SyncProbe.ProbeIds(s);
    var fed := FedTo(Awaits(u, ids, []), Batches(s.decoder, SyncSession.LeadingReads(polls), limit, tables));
    assert [] + fed == fed;
    if Waiting(u, ids[i]) { RecordedSaysFirstAnswer(seed, Heard(u, ids, fed), fed, i); }
  }

  /** In the asynchronous session, from any state cancellations could have left: a probe that finishes has recorded
      the first answer to every one of its questions. */
  lemma TokioProbeSays(
      s: TokioSession.Session, seed: Capabilities, request: TokioSession.Request, script: seq<TokioSession.Awaited>,
      i: nat, limit: nat, tables: Tables)
    requires s.decoder.parser.Valid() && TokioRuns.Owned(s) && i < |ASKED|
    ensures CorrelatorTable.Valid(TokioSession.BeginProbe(s).0.table)
    ensures var batches := [s.pending] + Batches(s.decoder, TokioRuns.LeadingReads(script), limit, tables);
      var end := TokioSession.ProbeCapabilities(s, seed, request, script, limit, tables).1;
      end.Finished? ==> SaysFirstAnswer(end.value, FedTo(true, batches), i)
  {
    hide SaysFirstAnswer, Recorded, ASKED, FirstMatch, Batches, FedTo, TokioSession.ProbeCapabilities, TokioRuns.Owned,
      TokioSession.BeginProbe, HasFence, CorrelatorTable.Valid;
    ProbeRuns.ProbeIsFirstMatch(s, seed, request, script, limit, tables);
    var fed := FedTo(true, [s.pending] + Batches(s.decoder, TokioRuns.LeadingReads(script), limit, tables));
    RecordedSaysFirstAnswer(seed, FirstAnswers(fed), fed, i);
  }

  // ----- Whole probes, from the bytes -----

  lemma {:induction false} AllBatches(d: DecoderState, script: seq<Read>, limit: nat, tables: Tables)
    requires d.parser.Valid()
    ensures ReadAll(d, script, limit, tables).events == FedTo(false, Batches(d, script, limit, tables))
    decreases |script|
  {
    hide ReadOnce;
    if script != [] {
      var first := ReadOnce(d, script[0], limit, tables);
      AllBatches(first.state, script[1..], limit, tables);
      assert Batches(d, script, limit, tables)[1..] == Batches(first.state, script[1..], limit, tables);
    }
  }

  /** Two ways to cut the same events. */
  lemma Overlap(a: seq<Event>, b: seq<Event>, c: seq<Event>, d: seq<Event>)
    requires a + b == c + d && |a| <= |c|
    ensures a == c[..|a|] && b == c[|a|..] + d
  {
    assert a == (a + b)[..|a|] && c == (c + d)[..|c|];
    assert b == (a + b)[|a|..];
  }

  /** Events that only the last of them fences are all fed, and fence. */
  lemma {:induction false} FedPast(batches: seq<seq<Event>>, es: seq<Event>, tail: seq<Event>)
    requires FedTo(false, batches) == es + tail && es != [] && HasFence(es) && !HasFence(es[..|es| - 1])
    ensures es <= FedTo(true, batches) && HasFence(FedTo(true, batches))
    decreases |batches|
  {
    hide FirstMatch;
    var fence := ExpectPrimaryDeviceAttributes;
    var batch := batches[0];
    var later := FedTo(false, batches[1..]);
    if |batch| < |es| {
      var rest := es[|batch|..];
      Overlap(batch, later, es, tail);
      assert batch + rest == es && batch + rest[..|rest| - 1] == es[..|es| - 1];
      FirstMatchAppend(fence, batch, rest);
      FirstMatchAppend(fence, batch, rest[..|rest| - 1]);
      FedPast(batches[1..], rest, tail);
      FirstMatchAppend(fence, batch, FedTo(true, batches[1..]));
    } else {
      Overlap(es, tail, batch, later);
      assert batch == es + batch[|es|..];
      FirstMatchAppend(fence, es, batch[|es|..]);
    }
  }

  /** The printed replies of a probe: each to a question of the bundle, device attributes last. */
  predicate IsProbeReply(ps: seq<Printed>, limit: nat, tables: Tables) {
    && AllReadable(ps, limit, tables) && AskDifferently(ps, limit, tables)
    && ps != [] && ps[|ps| - 1].reply.AttributesReply?
    && forall i :: 0 <= i < |ps| ==> Question(ps[i].reply) in ASKED
  }

  lemma OnlyLastFences(ps: seq<Printed>, limit: nat, tables: Tables)
    requires IsProbeReply(ps, limit, tables)
    ensures var es := EventsOf(ps, limit, tables);
      HasFence(es) && !HasFence(es[..|es| - 1])
  {
    hide FormOf, Sayable, Admits, TokenOf, Match, FirstMatch, ASKED;
    var n := |ps| - 1;
    var es := EventsOf(ps, limit, tables);
    var x := ExpectPrimaryDeviceAttributes;
    forall j | 0 <= j <= n ensures Match(x, es[j]) == if j == n then Some(ps[n].reply) else None {
      PrintedAnswers(ps[j].reply, ps[j].spelling, x);
    }
    FirstMatchAt(x, es, n);
    NoFirstMatch(x, es[..n]);
  }

  lemma {:induction false} NoFirstMatch(x: Expectation, es: seq<Event>)
    requires forall i :: 0 <= i < |es| ==> Match(x, es[i]).None?
    ensures FirstMatch(x, es) == None
    decreases |es|
  {
    hide Match;
    if es != [] {
      assert forall i :: 0 <= i < |es[1..]| ==> es[1..][i] == es[i + 1];
      NoFirstMatch(x, es[1..]);
    }
  }

  lemma QuestionIndex(r: Reply) returns (i: nat)
    requires Sayable(r) && Question(r) in ASKED
    ensures i < |ASKED| && ASKED[i] == Question(r)
  {
    hide Question, ASKED, Sayable;
    i :| i < |ASKED| && ASKED[i] == Question(r);
  }

  /** The blocking probe from the bytes: with nothing left registered by earlier probes and no partial input held, when
      the replies come first, however the reads cut them, the probe ends and has recorded what each of them says. */
  lemma SyncProbeHears(
      s: SyncSession.Session, seed: Capabilities, ps: seq<Printed>, polls: seq<SyncSession.Poll>,
      limit: nat, tables: Tables)
    requires s.decoder.parser == Ground && SyncSession.Orderly(s) && SyncSession.Sweep(s).table.slots == []
    requires IsProbeReply(ps, limit, tables) && WireOf(ps, limit, tables) <= BytesOf(SyncSession.LeadingReads(polls))
    ensures var end := SyncProbe.ProbeCapabilities(s, None, seed, true, polls, limit, tables).1;
      end.Found? && forall i :: 0 <= i < |ps| ==> Says(end.caps, ps[i].reply)
  {
    hide Says, Recorded, ASKED, FirstMatch, Batches, FedTo, Awaits, SyncProbe.ProbeCapabilities, SyncProbe.ProbeIds,
      SyncProbe.BeginProbe, SyncProbe.Leaves, SyncProbe.StopsAtEof, SyncSession.Orderly, SyncSession.Sweep, Reachable,
      HasFence, Sayable, Question, AllReadable, AskDifferently, WireOf, ReadAll, Heard, FormOf, Admits, TokenOf;
    GroundIsReachable(limit);
    var script := SyncSession.LeadingReads(polls);
    var batches := Batches(s.decoder, script, limit, tables);
    var tail := ReadsBeginWithReplies(s.decoder, ps, script, limit, tables);
    AllBatches(s.decoder, script, limit, tables);
    OnlyLastFences(ps, limit, tables);
    FedPast(batches, EventsOf(ps, limit, tables), tail);
    var fed := FedTo(true, batches);
    assert [] + fed == fed;
    SyncProbe.ProbeIsFirstMatch(s, None, seed, true, polls, limit, tables);
    SyncProbe.FreshProbeHears(s, fed);
    FirstAnswersSay(seed, ps, fed, limit, tables);
  }

  lemma FirstAnswersSay(seed: Capabilities, ps: seq<Printed>, fed: seq<Event>, limit: nat, tables: Tables)
    requires IsProbeReply(ps, limit, tables) && EventsOf(ps, limit, tables) <= fed
    ensures forall i :: 0 <= i < |ps| ==> Says(Recorded(seed, FirstAnswers(fed)), ps[i].reply)
  {
    hide Says, Recorded, ASKED, FirstMatch, Sayable, Question, AskDifferently, FormOf, Admits, TokenOf;
    var es := EventsOf(ps, limit, tables);
    assert fed == es + fed[|es|..];
    forall i | 0 <= i < |ps| ensures Says(Recorded(seed, FirstAnswers(fed)), ps[i].reply) {
      EachIsFirst(ps, fed[|es|..], i, limit, tables);
      var k := QuestionIndex(ps[i].reply);
      RecordedSays(seed, FirstAnswers(fed), k, ps[i].reply);
    }
  }

  /** The asynchronous probe from the bytes, when nothing is queued. */
  lemma TokioProbeHears(
      s: TokioSession.Session, seed: Capabilities, ps: seq<Printed>, script: seq<TokioSession.Awaited>,
      limit: nat, tables: Tables)
    requires s.decoder.parser == Ground && TokioRuns.Owned(s) && s.pending == []
    requires IsProbeReply(ps, limit, tables) && WireOf(ps, limit, tables) <= BytesOf(TokioRuns.LeadingReads(script))
    ensures CorrelatorTable.Valid(TokioSession.BeginProbe(s).0.table)
    ensures var end := TokioSession.ProbeCapabilities(s, seed, TokioSession.Written, script, limit, tables).1;
      end.Finished? && forall i :: 0 <= i < |ps| ==> Says(end.value, ps[i].reply)
  {
    hide Says, Recorded, ASKED, FirstMatch, Batches, TokioSession.ProbeCapabilities, TokioRuns.Owned,
      TokioSession.BeginProbe, HasFence, CorrelatorTable.Valid, Sayable, Question, AllReadable, AskDifferently, WireOf,
      ReadAll, FormOf, Admits, TokenOf;
    var leading := TokioRuns.LeadingReads(script);
    var batches := Batches(s.decoder, leading, limit, tables);
    var tail := ReadsBeginWithReplies(s.decoder, ps, leading, limit, tables);
    AllBatches(s.decoder, leading, limit, tables);
    OnlyLastFences(ps, limit, tables);
    FedPast(batches, EventsOf(ps, limit, tables), tail);
    NoFence();
    var fed := FedTo(true, batches);
    assert ([s.pending] + batches)[1..] == batches && [] + fed == fed;
    assert FedTo(true, [s.pending] + batches) == fed;
    ProbeRuns.ProbeIsFirstMatch(s, seed, TokioSession.Written, script, limit, tables);
    FirstAnswersSay(seed, ps, fed, limit, tables);
  }
}
