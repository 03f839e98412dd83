/** Safety of the blocking session over every sequence of queries, probes and input reads. */
module SyncRuns {
  import opened Bytes
  import opened Bounds
  import opened Events
  import opened Correlate
  import opened CorrelatorTable
  import opened CorrelatorRuns
  import opened Answers
  import opened Tallies
  import opened Probe
  import opened Gathering
  import DrainBoundary
  import opened SyncReads
  import opened SyncSession
  import SyncProbe

  /** What the session's own queries ask for. */
  type Queried = x: Expectation | IsQueried(x) witness ExpectCursorPosition

  datatype Op =
    | DoQuery(x: Queried, sent: bool, polls: seq<Poll>)
    | DoProbe(skip: Option<Capabilities>, seed: Capabilities, sent: bool, polls: seq<Poll>)
    | DoInput(room: nat, device: Bytes)

  // A session, every byte that arrived from the device, and every byte `read_input` returned.
  datatype History = History(session: Session, arrived: Bytes, delivered: Bytes)

  const START := History(NEW_SESSION, [], [])

  /** Whether reading input would go to the device. */
  predicate ReadsDevice(s: Session, room: nat) { room > 0 && s.typeahead == [] }

  function Apply(h: History, op: Op, limit: nat, tables: Tables): History
    requires h.session.decoder.parser.Valid()
  {
    var s := h.session;
    match op
    case DoQuery(x, sent, polls) =>
      History(Query(s, x, sent, polls, limit, tables).0,
              h.arrived + QueryReads(s, x, sent, polls, limit, tables), h.delivered)
    case DoProbe(skip, seed, sent, polls) =>
      History(SyncProbe.ProbeCapabilities(s, skip, seed, sent, polls, limit, tables).0,
              h.arrived + SyncProbe.ProbeReads(s, skip, sent, polls, limit, tables), h.delivered)
    case DoInput(room, device) =>
      var (s', got) := Input(s, room, device);
      History(s', if ReadsDevice(s, room) then h.arrived + got else h.arrived, h.delivered + got)
  }

  /** What holds after every run: replies aside, the bytes delivered and the typeahead still buffered
      are the logged spans in order; every span is exact, and every reply is its own; the table holds only the
      active query's slot and what failed probes left. */
  ghost predicate Sound(h: History, limit: nat) {
    && InOrder(h.session, limit) && h.session.decoder.parser.Valid()
    && Orderly(h.session)
    && h.delivered + h.session.typeahead == Kept(h.session.log)
  }

  /** The bytes that arrived are the logged spans in order and then the bytes still held. */
  predicate InArrivalOrder(h: History) {
    SpanBytes(h.session.log) + h.session.carry == h.arrived
  }

  lemma SoundStart(limit: nat)
    ensures Sound(START, limit) && InArrivalOrder(START)
  {
  }

  lemma InputKeeps(h: History, room: nat, device: Bytes, limit: nat, tables: Tables)
    requires Sound(h, limit)
    ensures var h' := Apply(h, DoInput(room, device), limit, tables);
      && Sound(h', limit)
      && (InArrivalOrder(h) && (ReadsDevice(h.session, room) ==> h.session.carry == []) ==>
            InArrivalOrder(h'))
  {
    hide Orderly, InStep, IsExact, IsAnswered, AllSilent, Tallied, SpanReplies, ReplyIds, SpanBytes, Kept;
    var s := h.session;
    var (s', got) := Input(s, room, device);
    OrderlyOf(s, s');
    InStepOfParts(ReadingOf(s), ReadingOf(s'), limit);
    if ReadsDevice(s, room) {
      DirectInputKeeps(h, room, device, limit);
    } else if room > 0 {
      assert got + s'.typeahead == s.typeahead;
      Associate(h.delivered, got, s'.typeahead);
    } else {
      assert h.delivered + [] == h.delivered;
    }
  }

  /** What a read of the device adds to the log and to what was delivered. */
  lemma DirectInputKeeps(h: History, room: nat, device: Bytes, limit: nat)
    requires Sound(h, limit) && ReadsDevice(h.session, room)
    ensures var (s', got) := Input(h.session, room, device);
      && (h.delivered + got) + s'.typeahead == Kept(s'.log)
      && SpanBytes(s'.log) == SpanBytes(h.session.log) + got
      && SpanReplies(s'.log) == SpanReplies(h.session.log)
      && forall i :: 0 <= i < |s'.log| ==> IsExact(s'.log[i]) && IsAnswered(s'.asked, s'.log[i])
    ensures var (s', got) := Input(h.session, room, device);
      InArrivalOrder(h) && h.session.carry == [] ==> SpanBytes(s'.log) + s'.carry == h.arrived + got
  {
    hide Orderly, InStep, IsExact, IsAnswered, AllSilent, SpanBytes, Kept, SpanReplies, Tallied, ReplyIds;
    var s := h.session;
    var (s', got) := Input(s, room, device);
    var span := Span(got, [], [], [], false, []);
    SpansAppend(s.log, [span]);
    SpanRepliesAppend(s.log, [span]);
    OneSpan(span);
    OneSpanReplies(span);
    DirectSpanIsExact(span, s.asked);
    assert SpanReplies(s.log) + [] == SpanReplies(s.log);
    assert h.delivered + [] == h.delivered && (h.delivered + got) + [] == h.delivered + got;
    assert SpanBytes(s.log) + [] == SpanBytes(s.log) && SpanBytes(s'.log) + [] == SpanBytes(s'.log);
  }

  lemma OrderlyOf(s: Session, s': Session)
    requires Orderly(s) && s'.table == s.table && s'.active == s.active
    ensures Orderly(s')
  {
  }

  lemma DirectSpanIsExact(span: Span, asked: seq<Expectation>)
    requires span.silent == [] && span.tokens == [] && !span.isReply && span.replies == []
    ensures IsExact(span) && IsAnswered(asked, span)
  {
  }

  /** Attributing what was read, as a query or a probe does, keeps the accounts. */
  lemma AttributingKeeps(h: History, s': Session, fed: Bytes, limit: nat)
    requires Sound(h, limit) && Attributes(h.session, s', fed, limit) && Orderly(s')
    ensures var h' := History(s', h.arrived + fed, h.delivered);
      Sound(h', limit) && (InArrivalOrder(h) ==> InArrivalOrder(h'))
  {
    hide Orderly, InOrder, Kept, SpanBytes, Waiting, SpanReplies, ReplyIds;
    var s := h.session;
    InOrderIsValid(s', limit);
    SpansAppend(s.log, s'.log[|s.log|..]);
    assert s'.log == s.log + s'.log[|s.log|..];
    Associate(h.delivered, s.typeahead, Kept(s'.log[|s.log|..]));
  }

  lemma QueryKeeps(h: History, x: Queried, sent: bool, polls: seq<Poll>, limit: nat, tables: Tables)
    requires Sound(h, limit)
    ensures var h' := Apply(h, DoQuery(x, sent, polls), limit, tables);
      Sound(h', limit) && (InArrivalOrder(h) ==> InArrivalOrder(h'))
  {
    hide Orderly, InOrder, Query, QueryReads, Kept, Attributes, OnlyAsked, InArrivalOrder;
    var s := h.session;
    QueryKeepsOrderly(s, x, sent, polls, limit, tables);
    QueryAttributes(s, x, sent, polls, limit, tables);
    AttributingKeeps(
      h, Query(s, x, sent, polls, limit, tables).0, QueryReads(s, x, sent, polls, limit, tables), limit);
  }

  lemma ProbeKeeps(
      h: History, skip: Option<Capabilities>, seed: Capabilities, sent: bool, polls: seq<Poll>,
      limit: nat, tables: Tables)
    requires Sound(h, limit)
    ensures var h' := Apply(h, DoProbe(skip, seed, sent, polls), limit, tables);
      Sound(h', limit) && (InArrivalOrder(h) ==> InArrivalOrder(h'))
  {
    hide Orderly, InOrder, SyncProbe.ProbeCapabilities, SyncProbe.ProbeReads, Kept, Attributes, InArrivalOrder,
      Reachable;
    var s := h.session;
    SyncProbe.InOrderIsReachable(s, limit);
    SyncProbe.ProbeKeepsOrderly(s, skip, seed, sent, polls, limit, tables);
    SyncProbe.ProbeAttributes(s, skip, seed, sent, polls, limit, tables);
    AttributingKeeps(
      h, SyncProbe.ProbeCapabilities(s, skip, seed, sent, polls, limit, tables).0,
      SyncProbe.ProbeReads(s, skip, sent, polls, limit, tables), limit);
  }

  /** A run, from a new session. */
  function Run(ops: seq<Op>, limit: nat, tables: Tables): (h: History)
    ensures h.session.decoder.parser.Valid()
  {
    SoundStart(limit);
    RunFrom(START, ops, limit, tables)
  }

  function RunFrom(h: History, ops: seq<Op>, limit: nat, tables: Tables): (h': History)
    requires Sound(h, limit)
    ensures Sound(h', limit)
    decreases |ops|
  {
    if ops == [] then h
    else
      ApplyKeeps(h, ops[0], limit, tables);
      RunFrom(Apply(h, ops[0], limit, tables), ops[1..], limit, tables)
  }

  lemma ApplyKeeps(h: History, op: Op, limit: nat, tables: Tables)
    requires Sound(h, limit)
    ensures h.session.decoder.parser.Valid()
    ensures Sound(Apply(h, op, limit, tables), limit)
    ensures InArrivalOrder(h) && !Overtakes(h, op) ==> InArrivalOrder(Apply(h, op, limit, tables))
  {
    SoundIsValid(h, limit);
    hide Sound, Apply, InArrivalOrder;
    match op
    case DoQuery(x, sent, polls) => QueryKeeps(h, x, sent, polls, limit, tables);
    case DoProbe(skip, seed, sent, polls) => ProbeKeeps(h, skip, seed, sent, polls, limit, tables);
    case DoInput(room, device) => InputKeeps(h, room, device, limit, tables);
  }

  /** The operation reads the device while the decoder still holds bytes of an earlier read. */
  predicate Overtakes(h: History, op: Op) {
    op.DoInput? && ReadsDevice(h.session, op.room) && h.session.carry != []
  }

  predicate NeverOvertakes(h: History, ops: seq<Op>, limit: nat, tables: Tables)
    requires Sound(h, limit)
    decreases |ops|
  {
    ops == [] || (
      && !Overtakes(h, ops[0])
      && (ApplyKeeps(h, ops[0], limit, tables);
          NeverOvertakes(Apply(h, ops[0], limit, tables), ops[1..], limit, tables)))
  }

  lemma SoundIsValid(h: History, limit: nat)
    requires Sound(h, limit)
    ensures h.session.decoder.parser.Valid()
  {
  }

  lemma {:induction false} OrderFrom(h: History, ops: seq<Op>, limit: nat, tables: Tables)
    requires Sound(h, limit) && InArrivalOrder(h) && NeverOvertakes(h, ops, limit, tables)
    ensures InArrivalOrder(RunFrom(h, ops, limit, tables))
    decreases |ops|
  {
    hide Sound, Apply, InArrivalOrder, Overtakes;
    if ops != [] {
      ApplyKeeps(h, ops[0], limit, tables);
      OrderFrom(Apply(h, ops[0], limit, tables), ops[1..], limit, tables);
    }
  }

  // ----- Which replies a run takes, and what for -----

  /** The replies an operation takes: a query its answer, a probe what it heard. */
  function Taken(s: Session, op: Op, limit: nat, tables: Tables): set<(nat, Reply)>
    requires s.decoder.parser.Valid() && |SyncProbe.ProbeIds(s)| == |ASKED|
  {
    match op
    case DoQuery(x, sent, polls) =>
      var answer := Query(s, x, sent, polls, limit, tables).1;
      if answer.Answered? then {(s.table.nextId, answer.reply)} else {}
    case DoProbe(skip, seed, sent, polls) =>
      if skip.Some? || !sent then {}
      else
        var u, ids := SyncProbe.BeginProbe(s).0.table, SyncProbe.ProbeIds(s);
        var batches := DrainBoundary.Batches(s.decoder, LeadingReads(polls), limit, tables);
        SyncProbe.AllHeard(u, ids, FedTo(Awaits(u, ids, []), batches))
    case DoInput(_, _) => {}
  }

  lemma {:induction false} InputTakesNothing(spans: seq<Span>)
    requires AllInput(spans)
    ensures SpanReplies(spans) == []
    decreases |spans|
  {
    if spans != [] {
      assert IsInput(spans[0]);
      assert forall i :: 0 <= i < |spans[1..]| ==> spans[1..][i] == spans[i + 1];
      InputTakesNothing(spans[1..]);
    }
  }

  lemma AnsweredTakesOne(spans: seq<Span>, id: nat, x: Expectation, reply: Reply, j: nat)
    requires AnsweredAt(spans, id, x, reply, j)
    ensures SpanReplies(spans) == [(id, reply)]
  {
    hide FirstMatch, SpanEvents, SpanReplies;
    var before, after := spans[..j], spans[j + 1..];
    assert spans == before + ([spans[j]] + after);
    SpanRepliesAppend(before, [spans[j]] + after);
    SpanRepliesAppend([spans[j]], after);
    OneSpanReplies(spans[j]);
    assert forall i :: 0 <= i < |after| ==> after[i] == spans[i + j + 1];
    InputTakesNothing(before);
    InputTakesNothing(after);
  }

  lemma QueryTakes(s: Session, x: Queried, sent: bool, polls: seq<Poll>, limit: nat, tables: Tables)
    requires InOrder(s, limit) && s.decoder.parser.Valid() && Orderly(s) && |SyncProbe.ProbeIds(s)| == |ASKED|
    ensures var s' := Query(s, x, sent, polls, limit, tables).0;
      && s.log <= s'.log
      && SyncProbe.Elements(SpanReplies(s'.log[|s.log|..])) == Taken(s, DoQuery(x, sent, polls), limit, tables)
  {
    hide Query, FirstMatch, SpanEvents, Orderly, InOrder, Outstanding, Sweep, SpanReplies, SyncProbe.Elements, AllInput,
      AnsweredAt;
    QueryTakesFirstMatch(s, x, sent, polls, limit, tables);
    var (s', answer) := Query(s, x, sent, polls, limit, tables);
    var added := s'.log[|s.log|..];
    if answer.Answered? {
      var j: nat :| AnsweredAt(added, s.table.nextId, x, answer.reply, j);
      AnsweredTakesOne(added, s.table.nextId, x, answer.reply, j);
      SyncProbe.OneElement((s.table.nextId, answer.reply));
    } else {
      InputTakesNothing(added);
      SyncProbe.NoElements();
    }
  }

  lemma UnsentTakesNothing(
      s: Session, skip: Option<Capabilities>, seed: Capabilities, polls: seq<Poll>, limit: nat, tables: Tables)
    requires s.decoder.parser.Valid() && (skip.Some? || Orderly(s))
    ensures skip.Some? ==> SyncProbe.ProbeCapabilities(s, skip, seed, true, polls, limit, tables).0.log == s.log
    ensures SyncProbe.ProbeCapabilities(s, skip, seed, false, polls, limit, tables).0.log == s.log
  {
    hide Sweep, Orderly, SyncProbe.AwaitFence, RegisterBundle, Started, Widens, SlotFor;
    if skip.None? { SyncProbe.BeginProbeStarts(s); }
  }

  /** Every operation takes from the bytes it logs exactly those replies. */
  lemma ApplyTakes(h: History, op: Op, limit: nat, tables: Tables)
    requires Sound(h, limit) && h.session.decoder.parser.Valid()
    ensures |SyncProbe.ProbeIds(h.session)| == |ASKED|
    ensures var s' := Apply(h, op, limit, tables).session;
      && h.session.log <= s'.log
      && SyncProbe.Elements(SpanReplies(s'.log[|h.session.log|..])) == Taken(h.session, op, limit, tables)
  {
    hide Query, Orderly, InOrder, Sweep, SpanReplies, SyncProbe.Elements, SyncProbe.ProbeCapabilities,
      SyncProbe.BeginProbe, SyncProbe.ProbeIds, SyncProbe.AllHeard, FedTo, DrainBoundary.Batches, Started,
      Widens, SlotFor, Awaits, ASKED, QueryReads, SyncProbe.ProbeReads;
    var s := h.session;
    SyncProbe.BeginProbeStarts(s);
    match op
    case DoQuery(x, sent, polls) => QueryTakes(s, x, sent, polls, limit, tables);
    case DoProbe(skip, seed, sent, polls) =>
      if skip.None? && sent {
        SyncProbe.ProbeWithholdsItsReplies(s, seed, polls, limit, tables);
      } else {
        UnsentTakesNothing(s, skip, seed, polls, limit, tables);
        assert s.log[|s.log|..] == [];
        NoSpanReplies();
        SyncProbe.NoElements();
      }
    case DoInput(room, device) => InputTakes(s, room, device);
  }

  lemma InputTakes(s: Session, room: nat, device: Bytes)
    ensures var s' := Input(s, room, device).0;
      s.log <= s'.log && SyncProbe.Elements(SpanReplies(s'.log[|s.log|..])) == {}
  {
    hide SpanReplies;
    var s' := Input(s, room, device).0;
    var added := s'.log[|s.log|..];
    NoSpanReplies();
    if added != [] {
      assert added == [added[0]];
      OneSpanReplies(added[0]);
    }
  }

  function TakenBy(h: History, ops: seq<Op>, limit: nat, tables: Tables): set<(nat, Reply)>
    requires Sound(h, limit)
    decreases |ops|
  {
    if ops == [] then {}
    else
      ApplyKeeps(h, ops[0], limit, tables);
      ApplyTakes(h, ops[0], limit, tables);
      Taken(h.session, ops[0], limit, tables) + TakenBy(Apply(h, ops[0], limit, tables), ops[1..], limit, tables)
  }

  lemma {:induction false} RunTakes(h: History, ops: seq<Op>, limit: nat, tables: Tables)
    requires Sound(h, limit)
    ensures var s' := RunFrom(h, ops, limit, tables).session;
      && h.session.log <= s'.log
      && SyncProbe.Elements(SpanReplies(s'.log[|h.session.log|..])) == TakenBy(h, ops, limit, tables)
    decreases |ops|
  {
    hide Sound, Apply, Taken, SpanReplies, SyncProbe.Elements, SyncProbe.ProbeIds, ASKED;
    var s, s' := h.session, RunFrom(h, ops, limit, tables).session;
    if ops == [] {
      assert s.log[|s.log|..] == [];
      NoSpanReplies();
      SyncProbe.NoElements();
    } else {
      ApplyKeeps(h, ops[0], limit, tables);
      ApplyTakes(h, ops[0], limit, tables);
      var next := Apply(h, ops[0], limit, tables);
      RunTakes(next, ops[1..], limit, tables);
      var a, b := next.session.log[|s.log|..], s'.log[|next.session.log|..];
      assert s'.log[|s.log|..] == a + b;
      SpanRepliesAppend(a, b);
      SyncProbe.ElementsAppend(SpanReplies(a), SpanReplies(b));
    }
  }

  // ----- The main results -----

  /** Over every run of queries, probes and input reads, whatever failed: what was delivered and what is still
      buffered is what arrived, in arrival order, less the spans that were replies and the bytes still held. A span
      is exactly what its tokens stand for, after the bytes of silent key reports. The first token of a reply's span
      answers the expectation its id was minted for; with nothing dropped it is alone, and the span is its raw bytes.
      No id is answered twice. The replies are exactly the answers the queries returned and the probes heard. Arrival
      order needs that no read of the device overtook held bytes. */
  lemma EveryByteIsAccounted(ops: seq<Op>, limit: nat, tables: Tables)
    ensures Sound(START, limit)
    ensures var h := Run(ops, limit, tables);
      && h.delivered + h.session.typeahead == Kept(h.session.log)
      && (forall i :: 0 <= i < |h.session.log| ==>
            && IsExact(h.session.log[i]) && IsAnswered(h.session.asked, h.session.log[i])
            && HoldsItsReply(h.session.asked, h.session.log[i]))
      && (forall k: nat :: ReplyIds(SpanReplies(h.session.log))[k] <= 1)
      && SyncProbe.Elements(SpanReplies(h.session.log)) == TakenBy(START, ops, limit, tables)
      && Orderly(h.session)
    ensures NeverOvertakes(START, ops, limit, tables) ==>
      var h := Run(ops, limit, tables); SpanBytes(h.session.log) + h.session.carry == h.arrived
  {
    hide TakenBy, IsExact, IsAnswered, Orderly, InStep, AllSilent, Waiting, SpanReplies, ReplyIds, Kept, SpanBytes,
      SyncProbe.Elements, Tagged, Valid, RunFrom, HoldsItsReply;
    SoundStart(limit);
    RunTakes(START, ops, limit, tables);
    var s := Run(ops, limit, tables).session;
    assert s.log[0..] == s.log;
    forall i | 0 <= i < |s.log| ensures HoldsItsReply(s.asked, s.log[i]) { ReplyIsHeld(s.asked, s.log[i]); }
    if NeverOvertakes(START, ops, limit, tables) { OrderFrom(START, ops, limit, tables); }
  }

  /** Order is kept by the next read of the device, whatever it returns, exactly when no
      byte of an earlier read is held. */
  lemma OvertakenExactly(h: History, room: nat, limit: nat, tables: Tables)
    requires Sound(h, limit) && InArrivalOrder(h) && ReadsDevice(h.session, room)
    ensures (forall device :: InArrivalOrder(Apply(h, DoInput(room, device), limit, tables)))
       <==> h.session.carry == []
  {
    hide Sound, SpanBytes;
    SoundIsValid(h, limit);
    var s := h.session;
    if s.carry == [] {
      forall device ensures InArrivalOrder(Apply(h, DoInput(room, device), limit, tables)) {
        InputKeeps(h, room, device, limit, tables);
      }
    } else {
      var b: Byte := if s.carry[0] == 0 then 1 else 0;
      var h' := Apply(h, DoInput(room, [b]), limit, tables);
      var span := Span([b], [], [], [], false, []);
      SpansAppend(s.log, [span]);
      OneSpan(span);
      assert h'.session.log == s.log + [span];
      assert (SpanBytes(h'.session.log) + s.carry)[|SpanBytes(s.log)|] == b;
      assert h'.arrived[|SpanBytes(s.log)|] == s.carry[0];
      assert !InArrivalOrder(h');
    }
  }

  // ----- What a run asks for -----

  predicate AskedIn(op: Op, x: Expectation) {
    match op
    case DoQuery(y, _, _) => x == y
    case DoProbe(skip, _, _, _) => skip.None? && x in ASKED
    case DoInput(_, _) => false
  }

  function AskCount(op: Op): nat {
    match op
    case DoQuery(_, _, _) => 1
    case DoProbe(skip, _, _, _) => if skip.None? then 12 else 0
    case DoInput(_, _) => 0
  }

  function AskCounts(ops: seq<Op>): nat { if ops == [] then 0 else AskCount(ops[0]) + AskCounts(ops[1..]) }

  lemma {:induction false} AwaitFenceAsks(
      s: Session, b: Bundle, caps: Capabilities, polls: seq<Poll>, limit: nat, tables: Tables)
    requires s.decoder.parser.Valid()
    ensures SyncProbe.AwaitFence(s, b, caps, polls, limit, tables).0.asked == s.asked
    decreases |polls|
  {
    hide ReadChunk, ResolveEach, SyncProbe.StoreEach, SyncProbe.Fences;
    if polls != [] && polls[0].Readable? && polls[0].chunk != [] {
      var (read, replies) := SyncSession.Read(s, b.Ids(), polls[0].chunk, limit, tables);
      AwaitFenceAsks(read, b, SyncProbe.StoreEach(b, replies, caps), polls[1..], limit, tables);
    }
  }

  /** A probe asks only for expectations of its bundle, those that nothing waits for. */
  lemma BeginProbeAsks(s: Session, limit: nat)
    requires InOrder(s, limit) && Orderly(s)
    ensures var asked := SyncProbe.BeginProbe(s).0.asked;
      && s.asked <= asked && |asked| <= |s.asked| + |ASKED| == |s.asked| + 12
      && forall k: nat :: |s.asked| <= k < |asked| ==> asked[k] in ASKED
  {
    hide InStep, IsExact, IsAnswered, AllSilent, Sweep, RegisterEach, RegisterBundle, ASKED, SlotFor, Valid, Orderly,
      BundleOf;
    var t := Sweep(s).table;
    SweepFreesQuery(s);
    SweepAsks(s);
    BundleIsEach(t);
    RegisterEachMints(t, ASKED);
    FenceIsAsked();
    var begun := SyncProbe.BeginProbe(s).0;
    var minted := Minted(begun.table, |s.asked|);
    forall k: nat | |s.asked| <= k < |begun.asked| ensures begun.asked[k] in ASKED {
      assert SlotFor(begun.table, |s.asked| + (k - |s.asked|)).Some?;
      assert begun.asked[k] == minted[k - |s.asked|];
    }
  }

  ghost predicate AsksFor(s: Session, s': Session, op: Op) {
    && s.asked <= s'.asked && |s'.asked| <= |s.asked| + AskCount(op)
    && forall k: nat :: |s.asked| <= k < |s'.asked| ==> AskedIn(op, s'.asked[k])
  }

  lemma ApplyAsks(h: History, op: Op, limit: nat, tables: Tables)
    requires Sound(h, limit) && h.session.decoder.parser.Valid()
    ensures AsksFor(h.session, Apply(h, op, limit, tables).session, op)
  {
    hide Query, Orderly, InOrder, SyncProbe.AwaitFence, SyncProbe.BeginProbe, SyncProbe.ProbeIds, Started,
      Widens, SlotFor, ASKED, QueryReads, SyncProbe.ProbeReads, Sweep;
    var s := h.session;
    match op
    case DoQuery(x, sent, polls) => QueryAsks(s, x, sent, polls, limit, tables);
    case DoProbe(skip, seed, sent, polls) =>
      BeginProbeAsks(s, limit);
      SyncProbe.BeginProbeStarts(s);
      if skip.None? && sent {
        AwaitFenceAsks(SyncProbe.BeginProbe(s).0, SyncProbe.BeginProbe(s).1, seed, polls, limit, tables);
      }
    case DoInput(room, device) =>
  }

  lemma {:induction false} RunAsks(h: History, ops: seq<Op>, limit: nat, tables: Tables)
    requires Sound(h, limit)
    ensures var s, s' := h.session, RunFrom(h, ops, limit, tables).session;
      && s.asked <= s'.asked && |s'.asked| <= |s.asked| + AskCounts(ops)
      && forall k: nat :: |s.asked| <= k < |s'.asked| ==>
           exists i: nat :: i < |ops| && AskedIn(ops[i], s'.asked[k])
    decreases |ops|
  {
    hide Sound, Apply, AskedIn, AskCount;
    if ops != [] {
      ApplyKeeps(h, ops[0], limit, tables);
      ApplyAsks(h, ops[0], limit, tables);
      var next, rest := Apply(h, ops[0], limit, tables), ops[1..];
      RunAsks(next, rest, limit, tables);
      var s' := RunFrom(h, ops, limit, tables).session;
      forall k: nat | |h.session.asked| <= k < |s'.asked|
        ensures exists i: nat :: i < |ops| && AskedIn(ops[i], s'.asked[k])
      {
        if k < |next.session.asked| {
          assert AskedIn(ops[0], s'.asked[k]);
        } else {
          var i: nat :| i < |rest| && AskedIn(rest[i], s'.asked[k]);
          assert AskedIn(ops[i + 1], s'.asked[k]);
        }
      }
    }
  }

  lemma {:induction false} RepliesAreCounted(replies: seq<(nat, Reply)>)
    ensures |ReplyIds(replies)| == |replies|
    decreases |replies|
  {
    if replies != [] { RepliesAreCounted(replies[1..]); }
  }

  /** Every expectation asked is an operation's own, and no more replies are taken than were asked for; a run
      without query or probe takes none. */
  lemma RepliesAreAsked(ops: seq<Op>, limit: nat, tables: Tables)
    ensures Sound(START, limit)
    ensures var s := Run(ops, limit, tables).session;
      && |SpanReplies(s.log)| <= |s.asked| <= AskCounts(ops)
      && forall k: nat :: k < |s.asked| ==> exists i: nat :: i < |ops| && AskedIn(ops[i], s.asked[k])
    ensures (forall i :: 0 <= i < |ops| ==> ops[i].DoInput?) ==> AskCounts(ops) == 0
  {
    hide IsExact, IsAnswered, Orderly, InStep, AllSilent, Waiting, SpanReplies, ReplyIds, Kept, AskedIn, Tagged,
      RunFrom;
    SoundStart(limit);
    RunAsks(START, ops, limit, tables);
    var s := Run(ops, limit, tables).session;
    RepliesAreCounted(SpanReplies(s.log));
    Pigeonhole(ReplyIds(SpanReplies(s.log)), |s.asked|);
    if forall i :: 0 <= i < |ops| ==> ops[i].DoInput? { InputAsksNothing(ops); }
  }

  lemma {:induction false} InputAsksNothing(ops: seq<Op>)
    requires forall i :: 0 <= i < |ops| ==> ops[i].DoInput?
    ensures AskCounts(ops) == 0
    decreases |ops|
  {
    if ops != [] { InputAsksNothing(ops[1..]); }
  }
}
