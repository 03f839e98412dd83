/** The blocking session: queries, their cleanup, and the input they leave to be read. */
module SyncSession {
  import opened Bytes
  import opened Tokens
  import opened Grammar
  import opened Events
  import opened Decoder
  import opened Bounds
  import DrainBoundary
  import opened Correlate
  import opened CorrelatorTable
  import opened CorrelatorRuns
  import opened Answers
  import opened Tallies
  import opened Probe
  import opened Gathering
  import opened SyncReads

  // ----- The session as a value -----

  // `silent`, `asked` and `log` are history: the tokens behind the front of `carry`, the expectation every id
  // was minted for, and every attribution made.
  datatype Session = Session(
    decoder: DecoderState,
    carry: Bytes,
    silent: seq<Token>,
    table: Table,
    typeahead: Bytes,
    active: Option<nat>,
    asked: seq<Expectation>,
    log: seq<Span>)

  const NEW_SESSION := Session(FRESH, [], [], Table([], 0), [], None, [], [])

  // What waiting for the descriptor and reading it came to; the list ends when the deadline passes. The end of
  // input is an empty read, or an error of that kind from the device's own read, `ReadEof`.
  datatype Poll = NoDescriptor | PollFailed | ReadFailed | ReadEof | Readable(chunk: Bytes)

  datatype Answer = Answered(reply: Reply) | NoAnswer | Unsupported | IoError | EndOfInput

  function ReadingOf(s: Session): Reading {
    Reading(s.decoder, s.carry, s.silent, s.table, [], [])
  }

  function AfterReading(s: Session, r: Reading): Session {
    s.(decoder := r.decoder, carry := r.unattributed, silent := r.silent, table := r.table,
       typeahead := s.typeahead + Kept(r.spans), log := s.log + r.spans)
  }

  function Read(s: Session, ids: seq<nat>, chunk: Bytes, limit: nat, tables: Tables): (Session, seq<(nat, Reply)>)
    requires s.decoder.parser.Valid()
  {
    var r := ReadChunk(ReadingOf(s), ids, chunk, limit, tables);
    (AfterReading(s, r), r.replies)
  }

  /** Gives up the query's registration. */
  function Clear(s: Session, id: nat): Session {
    s.(table := Resolve(s.table, id).0, active := None)
  }

  function Sweep(s: Session): Session { if s.active.Some? then Clear(s, s.active.value) else s }

  function Await(s: Session, id: nat, polls: seq<Poll>, limit: nat, tables: Tables): (Session, Answer)
    requires s.decoder.parser.Valid()
    decreases |polls|
  {
    if polls == [] then (Clear(s, id), NoAnswer)
    else match polls[0]
      case NoDescriptor => (Clear(s, id), Unsupported)
      case PollFailed => (s, IoError)
      case ReadFailed => (s, IoError)
      case ReadEof => (s, IoError)
      case Readable(chunk) =>
        if chunk == [] then (Clear(s, id), EndOfInput)
        else
          var (read, replies) := Read(s, [id], chunk, limit, tables);
          if replies != [] then (read.(active := None), Answered(replies[0].1))
          else Await(read, id, polls[1..], limit, tables)
  }

  function Begin(s: Session, x: Expectation): (Session, nat) {
    var swept := Sweep(s);
    var (t, id) := Register(swept.table, x);
    (swept.(table := t, active := Some(id), asked := s.asked + Minted(t, |s.asked|)), id)
  }

  /** A whole query; `sent` says whether its request could be written. */
  function Query(
      s: Session, x: Expectation, sent: bool, polls: seq<Poll>, limit: nat, tables: Tables): (Session, Answer)
    requires s.decoder.parser.Valid()
  {
    var (begun, id) := Begin(s, x);
    if sent then Await(begun, id, polls, limit, tables) else (begun, IoError)
  }

  /** Reading input: buffered typeahead first, the device only when there is none. A direct read is an
      entry of the log like any other input. */
  function Input(s: Session, room: nat, device: Bytes): (Session, Bytes) {
    if room == 0 then (s, [])
    else if s.typeahead != [] then
      var n := if |s.typeahead| < room then |s.typeahead| else room;
      (s.(typeahead := s.typeahead[n..]), s.typeahead[..n])
    else
      var got := if |device| < room then device else device[..room];
      (s.(log := s.log + [Span(got, [], [], [], false, [])]), got)
  }

  /** A read of input is greedy and in order: it takes the front of the typeahead while there is any, and of the device
      only when there is none, and it comes back short only when it has taken all of that. */
  lemma InputIsGreedy(s: Session, room: nat, device: Bytes)
    ensures var (s', got) := Input(s, room, device);
      && |got| <= room
      && (if s.typeahead != [] then got + s'.typeahead == s.typeahead
          else got <= device && s'.typeahead == [])
      && (|got| < room ==> s'.typeahead == [] && (s.typeahead == [] ==> got == device))
  {
  }

  // ----- Attributing to one id -----

  lemma {:induction false} AttributeWhenDone(t: Table, id: nat, events: seq<Event>, other: nat)
    requires Valid(t) && IsDone(t, id)
    ensures var a := Attribute(t, [id], events);
      && Valid(a.table) && a.replies == [] && !a.isReply && IsDone(a.table, id)
      && Outstanding(a.table, other) == Outstanding(t, other)
    decreases |events|
  {
    hide Match, Find, FeedEvent, SlotFor, Valid, Outstanding;
    if events != [] {
      FeedSlotFor(t, events[0], id);
      FeedOutstanding(t, events[0], other);
      AttributeWhenDone(FeedEvent(t, events[0]).0, id, events[1..], other);
    }
  }

  /** Attributing events to a waiting id takes the first that answers it and no other. */
  lemma {:induction false} AttributeFirstMatch(t: Table, id: nat, x: Expectation, events: seq<Event>, other: nat)
    requires Valid(t) && WaitsFor(t, id, x)
    ensures var a := Attribute(t, [id], events);
      && Valid(a.table)
      && a.isReply == FirstMatch(x, events).Some?
      && (match FirstMatch(x, events)
          case None =>
            a.replies == [] && WaitsFor(a.table, id, x) && Outstanding(a.table, other) == Outstanding(t, other)
          case Some(reply) =>
            && a.replies == [(id, reply)] && IsDone(a.table, id)
            && Outstanding(a.table, other) == Outstanding(t, other) - (if other == id then 1 else 0))
    decreases |events|
  {
    hide Match, Find, FeedEvent, TakeReply, SlotFor, Valid, Outstanding;
    if events != [] {
      var (fed, r) := FeedEvent(t, events[0]);
      FeedSlotFor(t, events[0], id);
      FeedOutstanding(t, events[0], other);
      if r.Completed? && r.id == id {
        TakeSlotFor(fed, id, other);
        AttributeWhenDone(TakeReply(fed, id).0, id, events[1..], other);
      } else {
        AttributeFirstMatch(fed, id, x, events[1..], other);
      }
    }
  }

  // ----- A query takes the first event that answers it -----

  predicate IsInput(s: Span) { !s.isReply && s.replies == [] }

  predicate AllInput(spans: seq<Span>) { forall i :: 0 <= i < |spans| ==> IsInput(spans[i]) }

  /** Span `j` is the reply, and holds the first event that answers; every other span is input. */
  predicate AnsweredAt(spans: seq<Span>, id: nat, x: Expectation, reply: Reply, j: nat) {
    && j < |spans|
    && spans[j].isReply && spans[j].replies == [(id, reply)]
    && FirstMatch(x, SpanEvents(spans[..j])) == None && FirstMatch(x, spans[j].events) == Some(reply)
    && forall i :: 0 <= i < |spans| && i != j ==> IsInput(spans[i])
  }

  /** What the spans added while a query waited say of its answer. */
  ghost predicate AreAnswered(spans: seq<Span>, id: nat, x: Expectation) {
    match FirstMatch(x, SpanEvents(spans))
    case None => AllInput(spans)
    case Some(reply) => exists j: nat :: AnsweredAt(spans, id, x, reply, j)
  }

  /** One more span, with the replies its attribution took. */
  lemma OneMoreSpan(spans: seq<Span>, span: Span, id: nat, x: Expectation)
    requires AreAnswered(spans, id, x)
    requires match (if FirstMatch(x, SpanEvents(spans)).Some? then None else FirstMatch(x, span.events))
      case None => IsInput(span)
      case Some(reply) => span.isReply && span.replies == [(id, reply)]
    ensures AreAnswered(spans + [span], id, x)
    ensures FirstMatch(x, SpanEvents(spans + [span])) ==
      if FirstMatch(x, SpanEvents(spans)).Some? then FirstMatch(x, SpanEvents(spans))
      else FirstMatch(x, span.events)
  {
    hide FirstMatch, SpanEvents;
    var all := spans + [span];
    SpanEventsAppend(spans, [span]);
    OneSpanEvents(span);
    FirstMatchAppend(x, SpanEvents(spans), span.events);
    var before := FirstMatch(x, SpanEvents(spans));
    if before.Some? {
      var j: nat :| AnsweredAt(spans, id, x, before.value, j);
      assert all[..j] == spans[..j];
      assert AnsweredAt(all, id, x, before.value, j);
    } else if FirstMatch(x, span.events).Some? {
      assert all[..|spans|] == spans;
      assert AnsweredAt(all, id, x, FirstMatch(x, span.events).value, |spans|);
    }
  }

  /** More input before. */
  lemma InputBefore(added: seq<Span>, later: seq<Span>, id: nat, x: Expectation)
    requires AllInput(added) && FirstMatch(x, SpanEvents(added)) == None && AreAnswered(later, id, x)
    ensures FirstMatch(x, SpanEvents(added + later)) == FirstMatch(x, SpanEvents(later))
    ensures AreAnswered(added + later, id, x)
  {
    hide FirstMatch, SpanEvents;
    var all := added + later;
    SpanEventsAppend(added, later);
    FirstMatchAppend(x, SpanEvents(added), SpanEvents(later));
    var answer := FirstMatch(x, SpanEvents(later));
    if answer.Some? {
      var j: nat :| AnsweredAt(later, id, x, answer.value, j);
      var k := |added| + j;
      assert all[..k] == added + later[..j];
      SpanEventsAppend(added, later[..j]);
      FirstMatchAppend(x, SpanEvents(added), SpanEvents(later[..j]));
      forall i | 0 <= i < |all| && i != k ensures IsInput(all[i]) {
        if i < |added| { assert all[i] == added[i]; } else { assert all[i] == later[i - |added|]; }
      }
      assert AnsweredAt(all, id, x, answer.value, k);
    }
  }

  /** Where a query stands after the attributions `m` made since its table was `t`. */
  ghost predicate Stands(t: Table, m: Reading, id: nat, x: Expectation) {
    && Valid(m.table)
    && AreAnswered(m.spans, id, x)
    && match FirstMatch(x, SpanEvents(m.spans))
       case None =>
         m.replies == [] && WaitsFor(m.table, id, x)
         && forall k :: Outstanding(m.table, k) == Outstanding(t, k)
       case Some(reply) =>
         m.replies == [(id, reply)] && IsDone(m.table, id)
         && forall k :: Outstanding(m.table, k) == Outstanding(t, k) - (if k == id then 1 else 0)
  }

  lemma AttributeAll(t: Table, id: nat, x: Expectation, events: seq<Event>)
    requires Valid(t) && WaitsFor(t, id, x)
    ensures var a := Attribute(t, [id], events);
      && Valid(a.table) && (a.isReply <==> FirstMatch(x, events).Some?)
      && match FirstMatch(x, events)
         case None =>
           a.replies == [] && WaitsFor(a.table, id, x)
           && forall k :: Outstanding(a.table, k) == Outstanding(t, k)
         case Some(reply) =>
           a.replies == [(id, reply)] && IsDone(a.table, id)
           && forall k :: Outstanding(a.table, k) == Outstanding(t, k) - (if k == id then 1 else 0)
  {
    hide Attribute, Outstanding, WaitsFor, IsDone, Valid, FirstMatch;
    var a := Attribute(t, [id], events);
    AttributeFirstMatch(t, id, x, events, id);
    forall k
      ensures Outstanding(a.table, k) == Outstanding(t, k)
              - (if k == id && FirstMatch(x, events).Some? then 1 else 0)
    {
      AttributeFirstMatch(t, id, x, events, k);
    }
  }

  lemma AttributeNoMore(t: Table, id: nat, events: seq<Event>)
    requires Valid(t) && IsDone(t, id)
    ensures var a := Attribute(t, [id], events);
      && Valid(a.table) && a.replies == [] && !a.isReply && IsDone(a.table, id)
      && forall k :: Outstanding(a.table, k) == Outstanding(t, k)
  {
    hide Attribute, Outstanding, IsDone, Valid;
    AttributeWhenDone(t, id, events, id);
    forall k ensures Outstanding(Attribute(t, [id], events).table, k) == Outstanding(t, k) {
      AttributeWhenDone(t, id, events, k);
    }
  }

  lemma DrainStands(t: Table, m: Reading, id: nat, x: Expectation, tokens: seq<Token>, events: seq<Event>)
    requires Stands(t, m, id, x)
    ensures Stands(t, Drain(m, [id], tokens, events), id, x)
  {
    hide Attribute, Outstanding, WaitsFor, IsDone, Valid, FirstMatch, SpanEvents, AreAnswered;
    var r := Drain(m, [id], tokens, events);
    var span := r.spans[|m.spans|];
    if FirstMatch(x, SpanEvents(m.spans)).None? {
      AttributeAll(m.table, id, x, events);
    } else {
      AttributeNoMore(m.table, id, events);
    }
    OneMoreSpan(m.spans, span, id, x);
  }

  lemma ByteStands(t: Table, m: Reading, id: nat, x: Expectation, b: Byte, limit: nat, tables: Tables)
    requires m.decoder.parser.Valid() && Stands(t, m, id, x)
    ensures Stands(t, ReadByte(m, [id], b, limit, tables), id, x)
  {
    hide Drain, Outstanding, WaitsFor, IsDone, Valid, FirstMatch, SpanEvents, Feed, MapTokens, AreAnswered;
    var o := Decode(m.decoder, [b], limit, tables);
    var fed := m.(decoder := o.state, unattributed := m.unattributed + [b]);
    DrainStands(t, fed, id, x, Feed(m.decoder.parser, [b], limit).tokens, o.events);
  }

  lemma {:induction false} BytesStand(
      t: Table, m: Reading, id: nat, x: Expectation, chunk: Bytes, limit: nat, tables: Tables)
    requires m.decoder.parser.Valid() && Stands(t, m, id, x)
    ensures Stands(t, ReadBytes(m, [id], chunk, limit, tables), id, x)
    decreases |chunk|
  {
    hide Stands, ReadByte;
    if chunk != [] {
      ByteStands(t, m, id, x, chunk[0], limit, tables);
      BytesStand(t, ReadByte(m, [id], chunk[0], limit, tables), id, x, chunk[1..], limit, tables);
    }
  }

  lemma ChunkStands(t: Table, m: Reading, id: nat, x: Expectation, chunk: Bytes, limit: nat, tables: Tables)
    requires m.decoder.parser.Valid() && Stands(t, m, id, x)
    ensures Stands(t, ReadChunk(m, [id], chunk, limit, tables), id, x)
  {
    hide Stands, ReadBytes, Drain, Flush, HasSettledText, FinishTokens;
    BytesStand(t, m, id, x, chunk, limit, tables);
    var read := ReadBytes(m, [id], chunk, limit, tables);
    if HasSettledText(read.decoder.parser) {
      var o := Flush(read.decoder, limit, tables);
      DrainUnchanged(t, read, read.(decoder := o.state), id, x);
      DrainStands(t, read.(decoder := o.state), id, x, FinishTokens(read.decoder.parser, limit), o.events);
    }
  }

  lemma DrainUnchanged(t: Table, m: Reading, n: Reading, id: nat, x: Expectation)
    requires Stands(t, m, id, x) && n == m.(decoder := n.decoder)
    ensures Stands(t, n, id, x)
  {
  }

  /** What a query came to, over the spans it added to the log. */
  ghost predicate Concludes(before: Session, s: Session, answer: Answer, id: nat, x: Expectation) {
    && before.log <= s.log
    && Valid(s.table)
    && (var added := s.log[|before.log|..];
        && AreAnswered(added, id, x)
        && match FirstMatch(x, SpanEvents(added))
           case None => !answer.Answered?
           case Some(reply) => answer == Answered(reply))
    && s.active == (if answer == IoError then Some(id) else None)
    && forall k ::
         Outstanding(s.table, k) == Outstanding(before.table, k) - (if k == id && answer != IoError then 1 else 0)
  }

  lemma NoSpansAnswer(id: nat, x: Expectation)
    ensures AreAnswered([], id, x) && FirstMatch(x, SpanEvents([])) == None
  {
  }

  lemma ClearConcludes(s: Session, answer: Answer, id: nat, x: Expectation)
    requires Valid(s.table) && Outstanding(s.table, id) > 0
    requires !answer.Answered? && answer != IoError
    ensures Concludes(s, Clear(s, id), answer, id, x)
  {
    hide Outstanding, Release, Find, AreAnswered;
    assert s.log[|s.log|..] == [];
    NoSpansAnswer(id, x);
    ReleaseById(s.table, id, id);
    OutstandingHasSlot(s.table, id);
    forall k ensures Outstanding(Clear(s, id).table, k) == Outstanding(s.table, k) - (if k == id then 1 else 0) {
      ReleaseById(s.table, id, k);
    }
  }

  lemma ConcludesLater(
      s: Session, read: Session, added: seq<Span>, s': Session, answer: Answer, id: nat, x: Expectation)
    requires read.log == s.log + added
    requires AreAnswered(added, id, x) && FirstMatch(x, SpanEvents(added)) == None
    requires forall k :: Outstanding(read.table, k) == Outstanding(s.table, k)
    requires Concludes(read, s', answer, id, x)
    ensures Concludes(s, s', answer, id, x)
  {
    hide Outstanding, Valid, FirstMatch, SpanEvents;
    var later := s'.log[|read.log|..];
    assert s'.log[|s.log|..] == added + later;
    InputBefore(added, later, id, x);
  }

  lemma {:induction false} AwaitConcludes(
      s: Session, id: nat, x: Expectation, polls: seq<Poll>, limit: nat, tables: Tables)
    requires s.decoder.parser.Valid() && s.active == Some(id)
    requires Valid(s.table) && WaitsFor(s.table, id, x) && Outstanding(s.table, id) > 0
    ensures var (s', answer) := Await(s, id, polls, limit, tables);
      Concludes(s, s', answer, id, x)
    decreases |polls|
  {
    hide Outstanding, ReadChunk, Valid, WaitsFor, IsDone, Clear, FirstMatch, AreAnswered, SpanEvents;
    assert s.log[|s.log|..] == [];
    NoSpansAnswer(id, x);
    if polls == [] {
      ClearConcludes(s, NoAnswer, id, x);
    } else if polls[0].NoDescriptor? {
      ClearConcludes(s, Unsupported, id, x);
    } else if polls[0] == Readable([]) {
      ClearConcludes(s, EndOfInput, id, x);
    } else if polls[0].Readable? {
      var chunk := polls[0].chunk;
      var (read, replies) := Read(s, [id], chunk, limit, tables);
      ReadingStands(s, id, x);
      ChunkStands(s.table, ReadingOf(s), id, x, chunk, limit, tables);
      var added := ReadChunk(ReadingOf(s), [id], chunk, limit, tables).spans;
      assert read.log[|s.log|..] == added;
      if replies == [] {
        AwaitConcludes(read, id, x, polls[1..], limit, tables);
        var (s', answer) := Await(read, id, polls[1..], limit, tables);
        ConcludesLater(s, read, added, s', answer, id, x);
      }
    }
  }

  lemma ReadingStands(s: Session, id: nat, x: Expectation)
    requires Valid(s.table) && WaitsFor(s.table, id, x)
    ensures Stands(s.table, ReadingOf(s), id, x)
  {
    hide Valid, WaitsFor, Outstanding;
    NoSpansAnswer(id, x);
  }

  // ----- Whole queries -----

  /** The expectations the session queries for; the probe asks for neither. */
  predicate IsQueried(x: Expectation) { x == ExpectCursorPosition || x == ExpectTerminalStatus }

  /** Every registration is the active query's, alone on its slot, or what a failed probe left. */
  ghost predicate Orderly(s: Session) {
    && Valid(s.table)
    && (s.active.Some? ==> SlotFor(s.table, s.active.value).Some?)
    && forall k: nat :: SlotFor(s.table, k).Some? ==>
         if s.active == Some(k) then
           IsQueried(SlotFor(s.table, k).value.expectation) && SlotFor(s.table, k).value.outstanding == 1
         else SlotFor(s.table, k).value.expectation in ASKED
  }

  /** The sweep frees the slot of the query it gives up, and no other. */
  lemma SweepFreesQuery(s: Session)
    requires Orderly(s)
    ensures var swept := Sweep(s);
      && swept.active == None && OnlyAsked(swept.table) && Orderly(swept)
      && forall k: nat :: SlotFor(swept.table, k) == if s.active == Some(k) then None else SlotFor(s.table, k)
  {
    hide SlotFor, Valid, Resolve, ASKED;
    var swept := Sweep(s);
    if s.active.Some? { ResolveSlotFor(s.table, s.active.value, s.active.value); }
    forall k: nat
      ensures SlotFor(swept.table, k) == if s.active == Some(k) then None else SlotFor(s.table, k)
    {
      if s.active.Some? { ResolveSlotFor(s.table, s.active.value, k); }
    }
  }

  lemma AskedIsNotQueried(x: Expectation)
    ensures IsQueried(x) ==> x !in ASKED
  {
  }

  /** A query joins no slot: it mints its own id, and waits for its own reply. */
  lemma BeginMints(s: Session, x: Expectation)
    requires Orderly(s) && IsQueried(x)
    ensures var (begun, id) := Begin(s, x);
      && id == s.table.nextId && begun.active == Some(id) && Orderly(begun)
      && SlotFor(begun.table, id) == Some(Slot(id, x, 1, None)) && WaitsFor(begun.table, id, x)
      && forall k: nat :: k != id ==> SlotFor(begun.table, k) == SlotFor(Sweep(s).table, k)
  {
    hide SlotFor, Valid, Register, ASKED, Sweep, Minted;
    SweepFreesQuery(s);
    SweepKeepsNextId(s);
    AskedIsNotQueried(x);
    var t := Sweep(s).table;
    var (begun, id) := Begin(s, x);
    RegisterKeepsValid(t, x);
    RegisterJoinsOrMints(t, x);
    RegisterSlotFor(t, x, id);
    SlotIsBelowNext(t, id);
    forall k: nat | k != id ensures SlotFor(begun.table, k) == SlotFor(t, k) { RegisterSlotFor(t, x, k); }
  }

  lemma SweepKeepsNextId(s: Session)
    ensures Sweep(s).table.nextId == s.table.nextId && Sweep(s).log == s.log && Sweep(s).decoder == s.decoder
  {
    hide Find;
  }

  lemma OutstandingIs(t: Table, k: nat)
    ensures Outstanding(t, k) == if SlotFor(t, k).Some? then SlotFor(t, k).value.outstanding else 0
  {
  }

  /** In every state a run can reach: a query answers with the first event decoded while it waited that
      matches, or with nothing when none does. The one span withheld from typeahead is the one that event
      came from, and none is when there is no answer. Afterwards nothing of the query is registered, unless the
      device failed, when its id is what the next sweep gives up; the rest of the table has lost no waiter. */
  lemma QueryTakesFirstMatch(s: Session, x: Expectation, sent: bool, polls: seq<Poll>, limit: nat, tables: Tables)
    requires s.decoder.parser.Valid() && Orderly(s) && IsQueried(x)
    ensures var (s', answer) := Query(s, x, sent, polls, limit, tables);
      var id := s.table.nextId;
      && s.log <= s'.log
      && (var added := s'.log[|s.log|..];
          match FirstMatch(x, SpanEvents(added))
          case None => !answer.Answered? && AllInput(added)
          case Some(reply) => answer == Answered(reply) && exists j: nat :: AnsweredAt(added, id, x, reply, j))
      && s'.active == (if answer == IoError then Some(id) else None)
      && forall k: nat :: Outstanding(s'.table, k) ==
           if k == id then (if answer == IoError then 1 else 0) else Outstanding(Sweep(s).table, k)
  {
    hide Await, Outstanding, Valid, WaitsFor, FirstMatch, SpanEvents, SlotFor, Begin, Sweep, Orderly, AllInput,
      AnsweredAt;
    BeginMints(s, x);
    BeginKeepsLog(s, x);
    var (begun, id) := Begin(s, x);
    var (s', answer) := Query(s, x, sent, polls, limit, tables);
    OutstandingIs(begun.table, id);
    if sent {
      OrderlyIsValid(begun);
      AwaitConcludes(begun, id, x, polls, limit, tables);
    } else {
      assert s.log[|s.log|..] == [];
      NoSpansAnswer(id, x);
    }
    forall k: nat | k != id ensures Outstanding(begun.table, k) == Outstanding(Sweep(s).table, k) {
      OutstandingIs(begun.table, k);
      OutstandingIs(Sweep(s).table, k);
    }
  }

  lemma OrderlyIsValid(s: Session)
    requires Orderly(s)
    ensures Valid(s.table)
  {
  }

  lemma BeginKeepsLog(s: Session, x: Expectation)
    ensures var begun := Begin(s, x).0; begun.log == s.log && begun.decoder == s.decoder
  {
  }

  /** And the state it ends in is again such a state. */
  lemma QueryKeepsOrderly(s: Session, x: Expectation, sent: bool, polls: seq<Poll>, limit: nat, tables: Tables)
    requires s.decoder.parser.Valid() && Orderly(s) && IsQueried(x)
    ensures var (s', answer) := Query(s, x, sent, polls, limit, tables);
      Orderly(s') && (answer != IoError ==> OnlyAsked(s'.table))
  {
    hide Query, Outstanding, Valid, FirstMatch, SpanEvents, SlotFor, Begin, Sweep, ASKED, AllInput, AnsweredAt, Narrows;
    BeginMints(s, x);
    SweepFreesQuery(s);
    QueryTakesFirstMatch(s, x, sent, polls, limit, tables);
    QueryNarrows(s, x, sent, polls, limit, tables);
    var (begun, id) := Begin(s, x);
    var (s', answer) := Query(s, x, sent, polls, limit, tables);
    NarrowsIsValid(begun.table, s'.table);
    OutstandingIs(s'.table, id);
    forall k: nat | SlotFor(s'.table, k).Some?
      ensures if s'.active == Some(k) then
                IsQueried(SlotFor(s'.table, k).value.expectation) && SlotFor(s'.table, k).value.outstanding == 1
              else SlotFor(s'.table, k).value.expectation in ASKED
    {
      NarrowsAt(begun.table, s'.table, k);
      OutstandingIs(s'.table, k);
      SlotHasWaiter(s'.table, k);
    }
  }

  lemma {:induction false} AwaitNarrows(
      s: Session, id: nat, polls: seq<Poll>, limit: nat, tables: Tables, asked: seq<Expectation>)
    requires s.decoder.parser.Valid() && Valid(s.table) && Tagged(s.table, asked)
    ensures Narrows(s.table, Await(s, id, polls, limit, tables).0.table)
    decreases |polls|
  {
    hide Valid, ReadChunk, Resolve, Narrows, Tagged, SpanReplies, IsAnswered;
    NarrowsSelf(s.table);
    ResolveNarrows(s.table, id);
    if polls != [] && polls[0].Readable? && polls[0].chunk != [] {
      var chunk := polls[0].chunk;
      var (read, replies) := Read(s, [id], chunk, limit, tables);
      ChunkGains(ReadingOf(s), [id], chunk, limit, tables, asked);
      NarrowsIsValid(s.table, read.table);
      NarrowedTag(s.table, read.table, asked);
      if replies == [] {
        AwaitNarrows(read, id, polls[1..], limit, tables, asked);
        NarrowsThen(s.table, read.table, Await(read, id, polls[1..], limit, tables).0.table);
      }
    }
  }

  /** The expectations a table's slots were minted for, whatever its freed ids were. */
  lemma SomeTags(t: Table) returns (asked: seq<Expectation>)
    requires Valid(t)
    ensures Tagged(t, asked)
  {
    asked := Minted(t, 0);
    forall k: nat | SlotFor(t, k).Some? ensures k < |asked| && SlotFor(t, k).value.expectation == asked[k] {
      SlotIsBelowNext(t, k);
      assert SlotFor(t, 0 + k).Some?;
    }
  }

  lemma QueryNarrows(s: Session, x: Expectation, sent: bool, polls: seq<Poll>, limit: nat, tables: Tables)
    requires s.decoder.parser.Valid() && Valid(Begin(s, x).0.table)
    ensures Narrows(Begin(s, x).0.table, Query(s, x, sent, polls, limit, tables).0.table)
  {
    hide Valid, Await, Narrows, Begin, Tagged;
    BeginKeepsLog(s, x);
    var (begun, id) := Begin(s, x);
    NarrowsSelf(begun.table);
    if sent {
      var asked := SomeTags(begun.table);
      AwaitNarrows(begun, id, polls, limit, tables, asked);
    }
  }

  // ----- What a query is answered with, in terms of its reads -----

  /** The reads a list begins with: those until it holds something else. Each empties the device. */
  function LeadingReads(polls: seq<Poll>): seq<DrainBoundary.Read>
    decreases |polls|
  {
    if polls == [] || !polls[0].Readable? || polls[0].chunk == [] then []
    else [DrainBoundary.Read(polls[0].chunk, true)] + LeadingReads(polls[1..])
  }

  /** A waiting query is answered by the first event to match among all its leading reads decode to, and not answered
      if there is none. */
  lemma {:induction false} AwaitTakesFirstRead(
      s: Session, id: nat, x: Expectation, polls: seq<Poll>, limit: nat, tables: Tables)
    requires s.decoder.parser.Valid() && Reachable(s.decoder.parser, limit)
    requires Valid(s.table) && WaitsFor(s.table, id, x)
    ensures var answer := Await(s, id, polls, limit, tables).1;
      match FirstMatch(x, DrainBoundary.ReadAll(s.decoder, LeadingReads(polls), limit, tables).events)
      case None => !answer.Answered?
      case Some(reply) => answer == Answered(reply)
    decreases |polls|
  {
    hide Outstanding, ReadChunk, Valid, WaitsFor, IsDone, Clear, FirstMatch, AreAnswered, SpanEvents, Reachable,
      DrainBoundary.ReadOnce;
    if polls == [] || !polls[0].Readable? || polls[0].chunk == [] {
      NoSpansAnswer(id, x);
      NoSpanEvents();
    } else {
      var chunk := polls[0].chunk;
      var read := DrainBoundary.Read(chunk, true);
      var script := LeadingReads(polls);
      assert script[0] == read && script[1..] == LeadingReads(polls[1..]);
      var (after, replies) := Read(s, [id], chunk, limit, tables);
      ReadingStands(s, id, x);
      ChunkStands(s.table, ReadingOf(s), id, x, chunk, limit, tables);
      ChunkDecodesWhole(ReadingOf(s), [id], chunk, limit, tables);
      DrainBoundary.ReadOnceIsReachable(s.decoder, read, limit, tables);
      NoSpanEvents();
      var o := DrainBoundary.ReadOnce(s.decoder, read, limit, tables);
      assert [] + o.events == o.events;
      FirstMatchAppend(x, o.events, DrainBoundary.ReadAll(o.state, script[1..], limit, tables).events);
      if replies == [] { AwaitTakesFirstRead(after, id, x, polls[1..], limit, tables); }
    }
  }

  /** In every state a run can reach: a query whose request was sent is answered by the first event to match among all
      that its reads decode to, however they cut the input, and is not answered if and only if none matches. */
  lemma QueryTakesFirstRead(s: Session, x: Expectation, polls: seq<Poll>, limit: nat, tables: Tables)
    requires s.decoder.parser.Valid() && Reachable(s.decoder.parser, limit) && Orderly(s) && IsQueried(x)
    ensures var answer := Query(s, x, true, polls, limit, tables).1;
      match FirstMatch(x, DrainBoundary.ReadAll(s.decoder, LeadingReads(polls), limit, tables).events)
      case None => !answer.Answered?
      case Some(reply) => answer == Answered(reply)
  {
    hide Await, WaitsFor, SlotFor, Begin, Orderly, FirstMatch, Valid, Reachable, DrainBoundary.ReadAll;
    BeginMints(s, x);
    BeginKeepsLog(s, x);
    var (begun, id) := Begin(s, x);
    OrderlyIsValid(begun);
    AwaitTakesFirstRead(begun, id, x, polls, limit, tables);
  }

  // ----- Every byte is accounted for -----

  /** The bytes a waiting query reads. */
  function Consumed(s: Session, id: nat, polls: seq<Poll>, limit: nat, tables: Tables): Bytes
    requires s.decoder.parser.Valid()
    decreases |polls|
  {
    if polls == [] || !polls[0].Readable? || polls[0].chunk == [] then []
    else
      var (read, replies) := Read(s, [id], polls[0].chunk, limit, tables);
      polls[0].chunk + if replies != [] then [] else Consumed(read, id, polls[1..], limit, tables)
  }

  /** The bytes of the reads in a list of polls, in order. */
  function ChunksOf(polls: seq<Poll>): Bytes
    decreases |polls|
  {
    if polls == [] then [] else (if polls[0].Readable? then polls[0].chunk else []) + ChunksOf(polls[1..])
  }

  /** The query ended, and so left its polls, at entry `n`: it passed over nothing it could go on with. */
  ghost predicate StopsAt(polls: seq<Poll>, n: nat, answer: Answer) {
    && n <= |polls|
    && match answer
       case Answered(_) => true
       case NoAnswer => n == |polls|
       case Unsupported => n < |polls| && polls[n] == NoDescriptor
       case IoError => n < |polls| && (polls[n] == PollFailed || polls[n] == ReadFailed || polls[n] == ReadEof)
       case EndOfInput => n < |polls| && polls[n] == Readable([])
  }

  /** The bytes a waiting query reads are those of its polls up to where it ends. */
  lemma {:induction false} AwaitReads(
      s: Session, id: nat, polls: seq<Poll>, limit: nat, tables: Tables) returns (n: nat)
    requires s.decoder.parser.Valid()
    ensures StopsAt(polls, n, Await(s, id, polls, limit, tables).1)
    ensures Consumed(s, id, polls, limit, tables) == ChunksOf(polls[..n])
    decreases |polls|
  {
    hide ReadChunk, Resolve;
    n := 0;
    assert polls[..0] == [];
    if polls != [] && polls[0].Readable? && polls[0].chunk != [] {
      var (read, replies) := Read(s, [id], polls[0].chunk, limit, tables);
      if replies == [] { n := AwaitReads(read, id, polls[1..], limit, tables); }
      assert polls[..n + 1][1..] == polls[1..][..n];
      assert polls[1..][..0] == [];
      n := n + 1;
    }
  }

  /** The carry is what the decoder holds; every span logged is exact, and every reply taken from one is its
      own token, answering the expectation its id was minted for; no id is answered twice, or while it waits. */
  ghost predicate InOrder(s: Session, limit: nat) {
    && InStep(ReadingOf(s), limit) && AllSilent(s.silent)
    && (forall i :: 0 <= i < |s.log| ==> IsExact(s.log[i]) && IsAnswered(s.asked, s.log[i]))
    && Tallied(s.table, s.asked, ReplyIds(SpanReplies(s.log)))
  }

  /** From `s` to `s'`, reading `fed`: the log and the carry grew by the bytes read, and the typeahead by the
      spans that were no reply; no id of `s` was answered that did not wait, and none began to wait again. */
  ghost predicate Attributes(s: Session, s': Session, fed: Bytes, limit: nat) {
    && InOrder(s', limit)
    && s.log <= s'.log && s.asked <= s'.asked
    && SpanBytes(s'.log) + s'.carry == SpanBytes(s.log) + s.carry + fed
    && s'.typeahead == s.typeahead + Kept(s'.log[|s.log|..])
    && forall k: nat :: k < |s.asked| ==>
         && (Waiting(s'.table, k) ==> Waiting(s.table, k))
         && (ReplyIds(SpanReplies(s'.log[|s.log|..]))[k] > 0 ==> Waiting(s.table, k))
  }

  lemma ReadAttributes(s: Session, ids: seq<nat>, chunk: Bytes, limit: nat, tables: Tables)
    requires InOrder(s, limit)
    ensures s.decoder.parser.Valid()
    ensures Attributes(s, Read(s, ids, chunk, limit, tables).0, chunk, limit)
  {
    hide ReadChunk, InStep, AllSilent, IsExact, IsAnswered, Kept, SpanBytes, SpanReplies, Tagged, Narrows, Waiting,
      ReplyIds, Valid;
    var m := ReadingOf(s);
    InStepIsValid(m, limit);
    ChunkAccounts(m, ids, chunk, limit, tables);
    ChunkGains(m, ids, chunk, limit, tables, s.asked);
    var r := ReadChunk(m, ids, chunk, limit, tables);
    var s' := AfterReading(s, r);
    assert r.spans[0..] == r.spans;
    ReadBytesAccount(s, r, chunk);
    ReadLogs(s, r, limit);
    InStepOfParts(r, ReadingOf(s'), limit);
    SpanRepliesAppend(s.log, r.spans);
    ReplyIdsAppend(SpanReplies(s.log), SpanReplies(r.spans));
    AnsweredTally(s.table, r.table, s.asked, ReplyIds(SpanReplies(s.log)), ReplyIds(SpanReplies(r.spans)));
    forall k: nat ensures Waiting(s'.table, k) ==> Waiting(s.table, k) { NarrowsAt(s.table, s'.table, k); }
  }

  /** The log after a read. */
  lemma ReadLogs(s: Session, r: Reading, limit: nat)
    requires forall i :: 0 <= i < |s.log| ==> IsExact(s.log[i]) && IsAnswered(s.asked, s.log[i])
    requires forall i :: 0 <= i < |r.spans| ==> IsExact(r.spans[i]) && IsAnswered(s.asked, r.spans[i])
    ensures var all := s.log + r.spans;
      && all[|s.log|..] == r.spans
      && forall i :: 0 <= i < |all| ==> IsExact(all[i]) && IsAnswered(s.asked, all[i])
  {
    hide IsExact, IsAnswered;
  }

  lemma ReadBytesAccount(s: Session, r: Reading, chunk: Bytes)
    requires SpanBytes(r.spans) + r.unattributed == SpanBytes([]) + s.carry + chunk
    ensures var s' := AfterReading(s, r);
      SpanBytes(s'.log) + s'.carry == SpanBytes(s.log) + s.carry + chunk
  {
    hide SpanBytes, Kept;
    NoSpans();
    assert [] + s.carry + chunk == s.carry + chunk;
    SpansAppend(s.log, r.spans);
    Associate(SpanBytes(s.log), SpanBytes(r.spans), r.unattributed);
    Associate(SpanBytes(s.log), s.carry, chunk);
  }

  lemma InStepIsValid(m: Reading, limit: nat)
    requires InStep(m, limit)
    ensures m.decoder.parser.Valid()
  {
  }

  lemma InStepOfParts(m: Reading, n: Reading, limit: nat)
    requires InStep(m, limit)
    requires n.decoder == m.decoder && n.unattributed == m.unattributed && n.silent == m.silent
    ensures InStep(n, limit)
  {
  }

  lemma AttributesThen(s: Session, t: Session, u: Session, fed: Bytes, more: Bytes, limit: nat)
    requires Attributes(s, t, fed, limit) && Attributes(t, u, more, limit)
    ensures Attributes(s, u, fed + more, limit)
  {
    hide InOrder, Kept, SpanBytes, SpanReplies, ReplyIds, Waiting;
    var a, b := t.log[|s.log|..], u.log[|t.log|..];
    assert u.log[|s.log|..] == a + b;
    SpansAppend(a, b);
    var all := SpanBytes(s.log) + s.carry;
    assert (all + fed) + more == all + (fed + more);
    Associate(s.typeahead, Kept(a), Kept(b));
    SpanRepliesAppend(a, b);
    ReplyIdsAppend(SpanReplies(a), SpanReplies(b));
  }

  /** Dropping registrations reads nothing. */
  lemma NothingRead(s: Session, s': Session, limit: nat)
    requires InOrder(s, limit) && Narrows(s.table, s'.table)
    requires s' == s.(table := s'.table, active := s'.active)
    ensures Attributes(s, s', [], limit)
  {
    hide IsExact, IsAnswered, AllSilent, SpanBytes, Narrows, Waiting, Tallied, ReplyIds;
    assert s.log[|s.log|..] == [];
    NoSpans();
    NoReplies();
    InStepOfParts(ReadingOf(s), ReadingOf(s'), limit);
    NarrowedTally(s.table, s'.table, s.asked, ReplyIds(SpanReplies(s.log)));
    assert SpanBytes(s.log) + s.carry + [] == SpanBytes(s.log) + s.carry;
    forall k: nat ensures Waiting(s'.table, k) ==> Waiting(s.table, k) { NarrowsAt(s.table, s'.table, k); }
  }

  lemma NoReplies()
    ensures ReplyIds(SpanReplies([])) == multiset{}
  {
  }

  /** Nor does adding them. */
  lemma NothingReadBy(s: Session, s': Session, limit: nat)
    requires InOrder(s, limit) && Widens(s.table, s'.table)
    requires s' == s.(table := s'.table, active := s'.active, asked := s'.asked)
    requires s'.asked == s.asked + Minted(s'.table, |s.asked|)
    ensures Attributes(s, s', [], limit)
  {
    hide IsExact, IsAnswered, AllSilent, SpanBytes, Widens, Tallied, ReplyIds, Minted, Waiting;
    assert s.log[|s.log|..] == [];
    NoSpans();
    NoReplies();
    InStepOfParts(ReadingOf(s), ReadingOf(s'), limit);
    WidenedTally(s.table, s'.table, s.asked, ReplyIds(SpanReplies(s.log)));
    assert SpanBytes(s.log) + s.carry + [] == SpanBytes(s.log) + s.carry;
    forall i | 0 <= i < |s.log| ensures IsAnswered(s'.asked, s.log[i]) {
      AnsweredWhenAskedMore(s.asked, Minted(s'.table, |s.asked|), s.log[i]);
    }
    forall k: nat | k < |s.asked| ensures Waiting(s'.table, k) ==> Waiting(s.table, k) {
      WidensAt(s, s', k);
    }
  }

  lemma WidensAt(s: Session, s': Session, k: nat)
    requires Widens(s.table, s'.table) && Tallied(s.table, s.asked, ReplyIds(SpanReplies(s.log))) && k < |s.asked|
    ensures Waiting(s'.table, k) ==> Waiting(s.table, k)
  {
    hide SlotFor, Valid, ReplyIds, SpanReplies;
  }

  lemma AnsweredWhenAskedMore(asked: seq<Expectation>, more: seq<Expectation>, span: Span)
    requires IsAnswered(asked, span)
    ensures IsAnswered(asked + more, span)
  {
    hide Match;
    forall r | r in span.replies
      ensures exists t :: t in span.tokens && Replies(asked + more, r.0, r.1, Syntax(t))
    {
      var t :| t in span.tokens && Replies(asked, r.0, r.1, Syntax(t));
      assert Replies(asked + more, r.0, r.1, Syntax(t));
    }
  }

  lemma {:induction false} AwaitAttributes(s: Session, id: nat, polls: seq<Poll>, limit: nat, tables: Tables)
    requires InOrder(s, limit) && s.decoder.parser.Valid()
    ensures Attributes(s, Await(s, id, polls, limit, tables).0, Consumed(s, id, polls, limit, tables), limit)
    decreases |polls|
  {
    hide InOrder, Read, Clear, Narrows, Waiting;
    var end := Await(s, id, polls, limit, tables).0;
    if polls == [] || !polls[0].Readable? || polls[0].chunk == [] {
      ClearReadsNothing(s, id, limit);
      NothingRead(s, end, limit);
    } else {
      var chunk := polls[0].chunk;
      var (read, replies) := Read(s, [id], chunk, limit, tables);
      ReadAttributes(s, [id], chunk, limit, tables);
      if replies != [] {
        ClearReadsNothing(read, id, limit);
        NothingRead(read, end, limit);
        AttributesThen(s, read, end, chunk, [], limit);
      } else {
        InOrderIsValid(read, limit);
        AwaitAttributes(read, id, polls[1..], limit, tables);
        AttributesThen(s, read, end, chunk, Consumed(read, id, polls[1..], limit, tables), limit);
      }
    }
  }

  lemma InOrderIsValid(s: Session, limit: nat)
    requires InOrder(s, limit)
    ensures s.decoder.parser.Valid()
  {
  }

  lemma ClearReadsNothing(s: Session, id: nat, limit: nat)
    requires InOrder(s, limit)
    ensures Clear(s, id) == s.(table := Clear(s, id).table, active := None)
    ensures Narrows(s.table, Clear(s, id).table) && Narrows(s.table, s.table)
  {
    hide Narrows, IsExact, IsAnswered, SpanReplies, Resolve;
    ResolveNarrows(s.table, id);
    NarrowsSelf(s.table);
  }

  /** The bytes a whole query reads. */
  function QueryReads(s: Session, x: Expectation, sent: bool, polls: seq<Poll>, limit: nat, tables: Tables): Bytes
    requires s.decoder.parser.Valid()
  {
    var (begun, id) := Begin(s, x);
    if sent then Consumed(begun, id, polls, limit, tables) else []
  }

  lemma SweepReadsNothing(s: Session, limit: nat)
    requires InOrder(s, limit)
    ensures Attributes(s, Sweep(s), [], limit) && Valid(Sweep(s).table) && Sweep(s).asked == s.asked
  {
    hide InStep, IsExact, IsAnswered, Clear, Narrows, AllSilent, Tagged, Waiting;
    ClearReadsNothing(s, if s.active.Some? then s.active.value else 0, limit);
    NothingRead(s, Sweep(s), limit);
  }

  lemma BeginReadsNothing(s: Session, x: Expectation, limit: nat)
    requires InOrder(s, limit)
    ensures Attributes(s, Begin(s, x).0, [], limit)
  {
    hide InOrder, Sweep, Register, Minted, Widens, Waiting;
    var begun := Begin(s, x).0;
    SweepReadsNothing(s, limit);
    AttributesInOrder(s, Sweep(s), [], limit);
    RegisterWidens(Sweep(s).table, x);
    NothingReadBy(Sweep(s), begun, limit);
    AttributesThen(s, Sweep(s), begun, [], [], limit);
    var nothing: Bytes := [];
    assert nothing + [] == [];
  }

  /** A query loses no byte it reads: each is in a logged span or still held. With `QueryTakesFirstMatch`, the
      typeahead grows by every span but the one that answered. */
  lemma QueryAttributes(s: Session, x: Expectation, sent: bool, polls: seq<Poll>, limit: nat, tables: Tables)
    requires InOrder(s, limit) && s.decoder.parser.Valid()
    ensures Attributes(s, Query(s, x, sent, polls, limit, tables).0,
                       QueryReads(s, x, sent, polls, limit, tables), limit)
  {
    hide InOrder, Await, Consumed, Begin, Waiting;
    var (begun, id) := Begin(s, x);
    BeginReadsNothing(s, x, limit);
    if sent {
      AttributesInOrder(s, begun, [], limit);
      var end := Await(begun, id, polls, limit, tables).0;
      var read := Consumed(begun, id, polls, limit, tables);
      AwaitAttributes(begun, id, polls, limit, tables);
      AttributesThen(s, begun, end, [], read, limit);
      assert [] + read == read;
    }
  }

  lemma AttributesInOrder(s: Session, s': Session, fed: Bytes, limit: nat)
    requires Attributes(s, s', fed, limit)
    ensures InOrder(s', limit) && s'.decoder.parser.Valid()
  {
  }

  // ----- What a query withholds from typeahead -----

  lemma {:induction false} InputIsKept(spans: seq<Span>)
    requires AllInput(spans)
    ensures Kept(spans) == SpanBytes(spans)
    decreases |spans|
  {
    if spans != [] {
      assert IsInput(spans[0]);
      assert forall i :: 0 <= i < |spans[1..]| ==> spans[1..][i] == spans[i + 1];
      InputIsKept(spans[1..]);
    }
  }

  lemma AllButTheReply(spans: seq<Span>, id: nat, x: Expectation, reply: Reply, j: nat)
    requires AnsweredAt(spans, id, x, reply, j)
    ensures Kept(spans) == SpanBytes(spans[..j]) + SpanBytes(spans[j + 1..])
  {
    hide FirstMatch, SpanEvents, Kept, SpanBytes;
    var head, tail := spans[..j], spans[j + 1..];
    assert spans == head + ([spans[j]] + tail);
    assert AllInput(head);
    SpansAppend(head, [spans[j]] + tail);
    SpansAppend([spans[j]], tail);
    OneSpan(spans[j]);
    assert forall i :: 0 <= i < |tail| ==> tail[i] == spans[i + j + 1];
    InputIsKept(head);
    InputIsKept(tail);
    assert [] + Kept(tail) == Kept(tail);
  }

  /** The span at `j` is the reply: it holds the token that the query's own expectation matches, and everything
      else read is typeahead. */
  ghost predicate Withholds(was: Bytes, typeahead: Bytes, spans: seq<Span>, x: Expectation, reply: Reply, j: nat) {
    && j < |spans|
    && (exists t :: t in spans[j].tokens && Match(x, Syntax(t)) == Some(reply))
    && typeahead == was + (SpanBytes(spans[..j]) + SpanBytes(spans[j + 1..]))
  }

  /** An answered query withholds from typeahead the bytes of one span, its own reply's; any other withholds
      nothing. */
  lemma QueryWithholdsItsReply(s: Session, x: Expectation, sent: bool, polls: seq<Poll>, limit: nat, tables: Tables)
    requires InOrder(s, limit) && s.decoder.parser.Valid() && Orderly(s) && IsQueried(x)
    ensures var (s', answer) := Query(s, x, sent, polls, limit, tables);
      && s.log <= s'.log
      && var added := s'.log[|s.log|..];
         if answer.Answered? then exists j: nat :: Withholds(s.typeahead, s'.typeahead, added, x, answer.reply, j)
         else s'.typeahead == s.typeahead + SpanBytes(added)
  {
    hide Query, FirstMatch, SpanEvents, Kept, SpanBytes, Orderly, InStep, IsExact, AllSilent, SpanReplies, ReplyIds,
      Waiting, Tallied, Match, Outstanding, Sweep, QueryReads;
    var (s', answer) := Query(s, x, sent, polls, limit, tables);
    QueryTakesFirstMatch(s, x, sent, polls, limit, tables);
    QueryAttributes(s, x, sent, polls, limit, tables);
    var added := s'.log[|s.log|..];
    if answer.Answered? {
      var reply := answer.reply;
      var j: nat :| AnsweredAt(added, s.table.nextId, x, reply, j);
      AllButTheReply(added, s.table.nextId, x, reply, j);
      assert IsAnswered(s'.asked, s'.log[|s.log| + j]) && s'.log[|s.log| + j] == added[j];
      assert (s.table.nextId, reply) in added[j].replies;
      QueryAsks(s, x, sent, polls, limit, tables);
      var t :| t in added[j].tokens && Replies(s'.asked, s.table.nextId, reply, Syntax(t));
      assert Match(x, Syntax(t)) == Some(reply);
      assert Withholds(s.typeahead, s'.typeahead, added, x, reply, j);
    } else {
      InputIsKept(added);
    }
  }

  lemma {:induction false} AwaitAsks(s: Session, id: nat, polls: seq<Poll>, limit: nat, tables: Tables)
    requires s.decoder.parser.Valid()
    ensures Await(s, id, polls, limit, tables).0.asked == s.asked
    decreases |polls|
  {
    hide ReadChunk, Resolve;
    if polls != [] && polls[0].Readable? && polls[0].chunk != [] {
      AwaitAsks(Read(s, [id], polls[0].chunk, limit, tables).0, id, polls[1..], limit, tables);
    }
  }

  /** A query asks once, for its own id. */
  lemma QueryAsks(s: Session, x: Expectation, sent: bool, polls: seq<Poll>, limit: nat, tables: Tables)
    requires InOrder(s, limit) && s.decoder.parser.Valid() && Orderly(s) && IsQueried(x)
    ensures |s.asked| == s.table.nextId && Query(s, x, sent, polls, limit, tables).0.asked == s.asked + [x]
  {
    hide Await, Orderly, InStep, IsExact, IsAnswered, AllSilent, Sweep, Register, SlotFor, Valid;
    BeginMints(s, x);
    SweepFreesQuery(s);
    var (begun, id) := Begin(s, x);
    BeginKeepsLog(s, x);
    if sent { AwaitAsks(begun, id, polls, limit, tables); }
    SweepAsks(s);
    RegisterMintsNext(Sweep(s).table, x);
    assert SlotFor(begun.table, |s.asked| + 0).Some?;
    assert Minted(begun.table, |s.asked|) == [x];
  }

  lemma SweepAsks(s: Session)
    ensures Sweep(s).asked == s.asked && Sweep(s).table.nextId == s.table.nextId
  {
    hide Find;
  }

  lemma RegisterMintsNext(t: Table, x: Expectation)
    requires Valid(t)
    ensures var (u, id) := Register(t, x); id == t.nextId ==> u.nextId == id + 1
  {
  }
}
