/** The blocking session as the object that updates it (`src/session.rs`). */
module SyncDriver {
  import opened Bytes
  import opened Tokens
  import opened Grammar
  import opened Bounds
  import opened Events
  import opened Decoder
  import opened Correlate
  import opened CorrelatorTable
  import opened Answers
  import opened Tallies
  import opened Probe
  import opened SyncReads
  import opened SyncSession
  import SyncProbe

  /** One event of an attribution, in positions of the whole batch. */
  lemma AttributeAt(t: Table, ids: seq<nat>, events: seq<Event>, i: nat)
    requires i < |events|
    ensures var (fed, r) := FeedEvent(t, events[i]);
      if r.Completed? && r.id in ids then
        var (taken, reply) := TakeReply(fed, r.id);
        var rest := Attribute(taken, ids, events[i + 1..]);
        Attribute(t, ids, events[i..]) ==
          Attribution(rest.table, (if reply.Some? then [(r.id, reply.value)] else []) + rest.replies, true)
      else Attribute(t, ids, events[i..]) == Attribute(fed, ids, events[i + 1..])
  {
    assert events[i..][1..] == events[i + 1..];
  }

  lemma AttributeNothing(t: Table, ids: seq<nat>, events: seq<Event>)
    requires events == []
    ensures Attribute(t, ids, events) == Attribution(t, [], false)
  {
  }

  /** One byte of a read, in positions of the whole chunk. */
  lemma ReadBytesAt(m: Reading, ids: seq<nat>, chunk: Bytes, i: nat, limit: nat, tables: Tables)
    requires m.decoder.parser.Valid() && i <= |chunk|
    ensures ReadBytes(m, ids, chunk[i..], limit, tables) ==
      if i == |chunk| then m
      else ReadBytes(ReadByte(m, ids, chunk[i], limit, tables), ids, chunk[i + 1..], limit, tables)
  {
    if i < |chunk| { assert chunk[i..][1..] == chunk[i + 1..]; }
  }

  /** One turn of the deadline loop, in positions of the whole list. */
  lemma AwaitAt(s: Session, id: nat, polls: seq<Poll>, i: nat, limit: nat, tables: Tables)
    requires s.decoder.parser.Valid() && i <= |polls|
    ensures Await(s, id, polls[i..], limit, tables) ==
      if i == |polls| then (Clear(s, id), NoAnswer)
      else match polls[i]
        case NoDescriptor => (Clear(s, id), Unsupported)
        case PollFailed => (s, IoError)
        case ReadFailed => (s, IoError)
        case ReadEof => (s, IoError)
        case Readable(chunk) =>
          if chunk == [] then (Clear(s, id), EndOfInput)
          else
            var (read, replies) := SyncSession.Read(s, [id], chunk, limit, tables);
            if replies != [] then (read.(active := None), Answered(replies[0].1))
            else Await(read, id, polls[i + 1..], limit, tables)
  {
    if i < |polls| { assert polls[i..][1..] == polls[i + 1..]; }
  }

  lemma ClearIsResolving(s: Session, id: nat)
    ensures Clear(s, id) == s.(table := ResolveEach(s.table, [id]), active := None)
  {
    assert ResolveEach(s.table, [id]) == ResolveEach(Resolve(s.table, id).0, []);
  }

  /** One turn of the probe's deadline loop, in positions of the whole list. */
  lemma AwaitFenceAt(s: Session, b: Bundle, caps: Capabilities, polls: seq<Poll>, i: nat, limit: nat, tables: Tables)
    requires s.decoder.parser.Valid() && i <= |polls|
    ensures SyncProbe.AwaitFence(s, b, caps, polls[i..], limit, tables) ==
      if i == |polls| then (SyncProbe.Conclude(s, b), SyncProbe.Found(caps))
      else match polls[i]
        case NoDescriptor => (SyncProbe.Conclude(s, b), SyncProbe.NotSupported)
        case PollFailed => (s, SyncProbe.Failed)
        case ReadFailed => (s, SyncProbe.Failed)
        case ReadEof => (s, SyncProbe.Found(caps))
        case Readable(chunk) =>
          if chunk == [] then (SyncProbe.Conclude(s, b).(active := None), SyncProbe.Found(caps))
          else
            var (read, replies) := SyncSession.Read(s, b.Ids(), chunk, limit, tables);
            var stored := SyncProbe.StoreEach(b, replies, caps);
            if SyncProbe.Fences(b, replies) then (SyncProbe.Conclude(read, b), SyncProbe.Found(stored))
            else SyncProbe.AwaitFence(read, b, stored, polls[i + 1..], limit, tables)
  {
    hide SyncSession.Read, SyncProbe.Fences, SyncProbe.StoreEach, SyncProbe.Conclude;
    if i < |polls| { assert polls[i..][1..] == polls[i + 1..]; }
  }

  /** A read in one step. */
  lemma ReadIs(s: Session, ids: seq<nat>, chunk: Bytes, limit: nat, tables: Tables)
    requires s.decoder.parser.Valid()
    ensures var r := Settle(ReadBytes(ReadingOf(s), ids, chunk, limit, tables), ids, limit, tables);
      SyncSession.Read(s, ids, chunk, limit, tables) ==
        (s.(decoder := r.decoder, carry := r.unattributed, silent := r.silent, table := r.table,
            typeahead := s.typeahead + Kept(r.spans), log := s.log + r.spans), r.replies)
  {
    hide ReadBytes, Settle, Kept;
  }

  /** Logging one more span. */
  lemma OneMoreKept(start: Bytes, base: seq<Span>, log: seq<Span>, entry: Span)
    requires base <= log
    ensures (log + [entry])[|base|..] == log[|base|..] + [entry]
    ensures (start + Kept(log[|base|..])) + (if entry.isReply then [] else entry.bytes)
         == start + Kept((log + [entry])[|base|..])
  {
    hide Kept, SpanBytes;
    assert (log + [entry])[|base|..] == log[|base|..] + [entry];
    SpansAppend(log[|base|..], [entry]);
    OneSpan(entry);
    Associate(start, Kept(log[|base|..]), Kept([entry]));
  }

  class TerminalSession {
    const decoder: SemanticDecoder
    const correlator: Correlator
    var decoderCarry: Bytes
    var typeahead: Bytes
    var activeQuery: Option<nat>
    // History, as in the value of the session.
    ghost var silent: seq<Token>
    ghost var asked: seq<Expectation>
    ghost var log: seq<Span>

    ghost function Repr(): set<object>
      reads this, decoder, decoder.parser
    {
      {this, correlator} + decoder.Repr()
    }

    ghost predicate Valid()
      reads this, decoder, decoder.parser, Repr()
    {
      && decoder.Valid() && Reachable(decoder.parser.View(), decoder.parser.payloadLimit)
      && this !in decoder.Repr() && correlator !in decoder.Repr()
    }

    ghost function View(): Session
      reads this, decoder, decoder.parser, Repr()
    {
      Session(decoder.View(), decoderCarry, silent, correlator.View(), typeahead, activeQuery, asked, log)
    }

    ghost function Limit(): nat
      reads this, decoder, decoder.parser
    {
      decoder.parser.payloadLimit
    }

    constructor (payloadLimit: nat, tables: Tables)
      ensures Valid() && fresh(Repr())
      ensures View() == NEW_SESSION && decoder.tables == tables && decoder.parser.payloadLimit == payloadLimit
    {
      decoder := new SemanticDecoder(payloadLimit, tables);
      correlator := new Correlator();
      decoderCarry := [];
      typeahead := [];
      activeQuery := None;
      silent, asked, log := [], [], [];
    }

    /** Feeds one span's events to the correlator; the span is typeahead unless one of them answered. */
    method AttributeSpan(
        ids: seq<nat>, span: Bytes, events: seq<Event>) returns (replies: seq<(nat, Reply)>, isReply: bool)
      modifies this`typeahead, correlator
      ensures Attribution(correlator.View(), replies, isReply) == Attribute(old(correlator.View()), ids, events)
      ensures typeahead == old(typeahead) + if isReply then [] else span
    {
      hide Attribute, FeedEvent, TakeReply;
      replies := [];
      isReply := false;
      assert events[0..] == events;
      ghost var whole := Attribute(correlator.View(), ids, events);
      for i := 0 to |events|
        invariant typeahead == old(typeahead)
        invariant var rest := Attribute(correlator.View(), ids, events[i..]);
          whole == Attribution(rest.table, replies + rest.replies, isReply || rest.isReply)
      {
        AttributeAt(correlator.View(), ids, events, i);
        var r := correlator.Feed(events[i]);
        if r.Completed? && r.id in ids {
          var reply := correlator.Take(r.id);
          if reply.Some? {
            replies := replies + [(r.id, reply.value)];
          }
          isReply := true;
        }
      }
      AttributeNothing(correlator.View(), ids, events[|events|..]);
      if !isReply {
        typeahead := typeahead + span;
      }
    }

    /** The attributions since the log was `base`, as a reading in progress. */
    ghost function Progress(base: seq<Span>, unattributed: Bytes, replies: seq<(nat, Reply)>): Reading
      requires base <= log
      reads this, decoder, decoder.parser, Repr()
    {
      Reading(decoder.View(), unattributed, silent, correlator.View(), replies, log[|base|..])
    }

    /** Drains the bytes that are not pending in the decoder, as the span of `events`. */
    method DrainSpan(ids: seq<nat>, unattributed: Bytes, ghost tokens: seq<Token>, events: seq<Event>,
                     replies: seq<(nat, Reply)>, ghost base: seq<Span>, ghost start: Bytes)
      returns (rest: Bytes, more: seq<(nat, Reply)>)
      requires Valid() && base <= log && typeahead == start + Kept(log[|base|..])
      modifies this`typeahead, this`silent, this`log, correlator
      ensures Valid() && base <= log && decoder.View() == old(decoder.View())
      ensures Progress(base, rest, more) == Drain(old(Progress(base, unattributed, replies)), ids, tokens, events)
      ensures typeahead == start + Kept(log[|base|..])
    {
      hide Attribute, Kept, Reachable;
      var pending := decoder.parser.GetPendingBytes();
      var spanLen := if |unattributed| >= |pending| then |unattributed| - |pending| else 0;
      var span := unattributed[..spanLen];
      rest := unattributed[spanLen..];
      var found, isReply := AttributeSpan(ids, span, events);
      more := replies + found;
      ghost var entry := Span(span, silent, tokens, events, isReply, found);
      OneMoreKept(start, base, log, entry);
      log := log + [entry];
      silent := [];
    }

    /** One byte of a read. */
    method FeedOne(ids: seq<nat>, b: Byte, unattributed: Bytes, replies: seq<(nat, Reply)>,
                   ghost base: seq<Span>, ghost start: Bytes)
      returns (rest: Bytes, more: seq<(nat, Reply)>)
      requires Valid() && base <= log && typeahead == start + Kept(log[|base|..])
      modifies Repr() - {this}, this`typeahead, this`silent, this`log
      ensures Valid() && fresh(Repr() - old(Repr())) && base <= log
      ensures Progress(base, rest, more)
           == ReadByte(old(Progress(base, unattributed, replies)), ids, b, Limit(), decoder.tables)
      ensures typeahead == start + Kept(log[|base|..])
    {
      hide Reachable, Feed, MapTokens, Kept, Drain;
      ghost var tokens := Feed(decoder.parser.View(), [b], Limit()).tokens;
      ghost var read := Progress(base, unattributed + [b], replies);
      rest, more := unattributed + [b], replies;
      var events := decoder.FeedBytes([b]);
      if events == [] {
        silent := silent + tokens;
        return;
      }
      assert Progress(base, rest, more) == read.(decoder := decoder.View());
      rest, more := DrainSpan(ids, rest, tokens, events, more, base, start);
    }

    /** The flush at the end of a read. */
    method SettleOnce(
        ids: seq<nat>, unattributed: Bytes, replies: seq<(nat, Reply)>, ghost base: seq<Span>, ghost start: Bytes)
      returns (rest: Bytes, more: seq<(nat, Reply)>)
      requires Valid() && base <= log && typeahead == start + Kept(log[|base|..])
      modifies Repr() - {this}, this`typeahead, this`silent, this`log
      ensures Valid() && fresh(Repr() - old(Repr())) && base <= log
      ensures Progress(base, rest, more)
           == Settle(old(Progress(base, unattributed, replies)), ids, Limit(), decoder.tables)
      ensures typeahead == start + Kept(log[|base|..])
    {
      hide Reachable, Flush, FinishTokens, HasSettledText, Kept, Drain;
      rest, more := unattributed, replies;
      var settled := decoder.SettledText();
      if settled {
        ghost var tokens := FinishTokens(decoder.parser.View(), Limit());
        ghost var read := Progress(base, unattributed, replies);
        var events := decoder.Finish();
        assert Progress(base, rest, more) == read.(decoder := decoder.View());
        rest, more := DrainSpan(ids, rest, tokens, events, more, base, start);
      }
    }

    /** Every byte of a read through the decoder. */
    method FeedEach(ids: seq<nat>, chunk: Bytes, carried: Bytes, ghost base: seq<Span>, ghost start: Bytes)
      returns (unattributed: Bytes, replies: seq<(nat, Reply)>)
      requires Valid() && base <= log && typeahead == start + Kept(log[|base|..])
      modifies Repr() - {this}, this`typeahead, this`silent, this`log
      ensures Valid() && fresh(Repr() - old(Repr())) && base <= log
      ensures Progress(base, unattributed, replies)
           == ReadBytes(old(Progress(base, carried, [])), ids, chunk, Limit(), decoder.tables)
      ensures typeahead == start + Kept(log[|base|..])
    {
      hide ReadBytes, ReadByte, Reachable, Kept;
      unattributed, replies := carried, [];
      ghost var first := Progress(base, unattributed, replies);
      assert chunk[0..] == chunk;
      for i := 0 to |chunk|
        invariant Valid() && fresh(Repr() - old(Repr())) && base <= log
        invariant typeahead == start + Kept(log[|base|..])
        invariant ReadBytes(first, ids, chunk, Limit(), decoder.tables)
               == ReadBytes(Progress(base, unattributed, replies), ids, chunk[i..], Limit(), decoder.tables)
      {
        ReadBytesAt(Progress(base, unattributed, replies), ids, chunk, i, Limit(), decoder.tables);
        unattributed, replies := FeedOne(ids, chunk[i], unattributed, replies, base, start);
      }
      ReadBytesAt(Progress(base, unattributed, replies), ids, chunk, |chunk|, Limit(), decoder.tables);
    }

    /** A read that is not empty: every byte through the decoder, then the flush at its end. */
    method MatchChunk(ids: seq<nat>, chunk: Bytes) returns (replies: seq<(nat, Reply)>)
      requires Valid()
      modifies Repr()
      ensures Valid() && fresh(Repr() - old(Repr()))
      ensures (View(), replies) == SyncSession.Read(old(View()), ids, chunk, Limit(), decoder.tables)
    {
      hide ReadBytes, Reachable, Settle, Kept, SyncSession.Read;
      ghost var base, start := log, typeahead;
      assert log[|base|..] == [];
      NoSpans();
      ReadIs(View(), ids, chunk, Limit(), decoder.tables);
      var carried := decoderCarry;
      decoderCarry := [];
      var unattributed: Bytes;
      unattributed, replies := FeedEach(ids, chunk, carried, base, start);
      unattributed, replies := SettleOnce(ids, unattributed, replies, base, start);
      decoderCarry := unattributed;
      assert log == base + log[|base|..];
    }

    /** One read. An empty one is the terminal closing, which gives up every id. */
    method ReadAndMatch(ids: seq<nat>, chunk: Bytes) returns (result: Option<seq<(nat, Reply)>>)
      requires Valid()
      modifies Repr()
      ensures Valid() && fresh(Repr() - old(Repr()))
      ensures if chunk == [] then
                && result == None
                && View() == old(View()).(table := ResolveEach(old(correlator.View()), ids), active := None)
              else
                && result.Some?
                && (View(), result.value) == SyncSession.Read(old(View()), ids, chunk, Limit(), decoder.tables)
    {
      hide ReadChunk, Reachable, ResolveEach;
      if chunk == [] {
        ResolveAll(correlator, ids, Eof);
        activeQuery := None;
        return None;
      }
      var replies := MatchChunk(ids, chunk);
      result := Some(replies);
    }

    method SweepActiveQuery()
      requires Valid()
      modifies this`activeQuery, correlator
      ensures Valid() && View() == Sweep(old(View()))
    {
      if activeQuery.Some? {
        var _ := correlator.ResolveWaiter(activeQuery.value, Cancelled);
        activeQuery := None;
      }
    }

    /** Gives up the query's own registration. */
    method GiveUp(id: nat, resolution: Resolution)
      requires Valid()
      modifies this`activeQuery, correlator
      ensures Valid() && View() == Clear(old(View()), id)
    {
      var _ := correlator.ResolveWaiter(id, resolution);
      activeQuery := None;
    }

    /** The deadline loop. */
    method AwaitReply(id: nat, polls: seq<Poll>) returns (answer: Answer)
      requires Valid()
      modifies Repr()
      ensures Valid() && fresh(Repr() - old(Repr()))
      ensures (View(), answer) == Await(old(View()), id, polls, Limit(), decoder.tables)
    {
      hide SyncSession.Read, Clear, Reachable, Resolve;
      assert polls[0..] == polls;
      for i := 0 to |polls|
        invariant Valid() && fresh(Repr() - old(Repr()))
        invariant Await(old(View()), id, polls, Limit(), decoder.tables)
               == Await(View(), id, polls[i..], Limit(), decoder.tables)
      {
        AwaitAt(View(), id, polls, i, Limit(), decoder.tables);
        match polls[i]
        case NoDescriptor =>
          GiveUp(id, Cancelled);
          return Unsupported;
        case PollFailed => return IoError;
        case ReadFailed => return IoError;
        case ReadEof => return IoError;
        case Readable(chunk) =>
          ghost var before := View();
          var result := ReadAndMatch([id], chunk);
          if result.None? {
            ClearIsResolving(before, id);
            return EndOfInput;
          }
          if result.value != [] {
            activeQuery := None;
            return Answered(result.value[0].1);
          }
      }
      AwaitAt(View(), id, polls, |polls|, Limit(), decoder.tables);
      GiveUp(id, NoReply);
      answer := NoAnswer;
    }

    /** The sweep, and the query's own registration. */
    method RegisterQuery(x: Expectation) returns (id: nat)
      requires Valid()
      modifies this`activeQuery, this`asked, correlator
      ensures Valid() && (View(), id) == Begin(old(View()), x)
    {
      hide Reachable, Register, Sweep, Minted;
      SweepActiveQuery();
      var registered := correlator.RegisterExpectation(x);
      id := registered.id;
      activeQuery := Some(id);
      asked := asked + Minted(correlator.View(), |asked|);
    }

    method RunQuery(x: Expectation, sent: bool, polls: seq<Poll>) returns (answer: Answer)
      requires Valid()
      modifies Repr()
      ensures Valid() && fresh(Repr() - old(Repr()))
      ensures (View(), answer) == Query(old(View()), x, sent, polls, Limit(), decoder.tables)
    {
      hide Await, Reachable, Begin;
      var id := RegisterQuery(x);
      if !sent {
        return IoError;
      }
      answer := AwaitReply(id, polls);
    }

    /** Buffered typeahead first; the device, which offers `device`, only when there is none. */
    method ReadInput(room: nat, device: Bytes) returns (bytes: Bytes)
      requires Valid()
      modifies this`typeahead, this`log
      ensures Valid() && (View(), bytes) == Input(old(View()), room, device)
    {
      if room == 0 {
        return [];
      }
      if typeahead != [] {
        var take := if |typeahead| < room then |typeahead| else room;
        bytes := typeahead[..take];
        typeahead := typeahead[take..];
        return;
      }
      bytes := if |device| < room then device else device[..room];
      log := log + [Span(bytes, [], [], [], false, [])];
    }

    /** Stores the replies of one read, and says whether the fence is among them. */
    method StoreReplies(
        b: Bundle, replies: seq<(nat, Reply)>, seed: Capabilities) returns (caps: Capabilities, fenced: bool)
      ensures caps == SyncProbe.StoreEach(b, replies, seed) && fenced == SyncProbe.Fences(b, replies)
    {
      hide StoreBundleReply;
      caps, fenced := seed, false;
      assert replies[0..] == replies;
      for i := 0 to |replies|
        invariant SyncProbe.StoreEach(b, replies, seed) == SyncProbe.StoreEach(b, replies[i..], caps)
        invariant fenced <==> exists k :: 0 <= k < i && replies[k].0 == b.fence
      {
        assert replies[i..][1..] == replies[i + 1..];
        caps := StoreBundleReply(b, replies[i].0, replies[i].1, caps);
        if replies[i].0 == b.fence {
          fenced := true;
        }
      }
    }

    /** Gives up whatever of the bundle is still registered. */
    method EndProbe(b: Bundle, resolution: Resolution)
      requires Valid()
      modifies correlator
      ensures Valid() && View() == SyncProbe.Conclude(old(View()), b)
    {
      hide ResolveEach;
      ResolveAll(correlator, b.Ids(), resolution);
    }

    /** One read, its replies stored; the terminal closing gives the bundle up. */
    method ReadReplies(b: Bundle, seed: Capabilities, chunk: Bytes) returns (result: Option<(Capabilities, bool)>)
      requires Valid()
      modifies Repr()
      ensures Valid() && fresh(Repr() - old(Repr()))
      ensures if chunk == [] then
                result == None && View() == SyncProbe.Conclude(old(View()), b).(active := None)
              else
                var (read, replies) := SyncSession.Read(old(View()), b.Ids(), chunk, Limit(), decoder.tables);
                && result == Some((SyncProbe.StoreEach(b, replies, seed), SyncProbe.Fences(b, replies)))
                && View() == read
    {
      hide SyncSession.Read, SyncProbe.Fences, SyncProbe.StoreEach, Reachable, ResolveEach;
      var read := ReadAndMatch(b.Ids(), chunk);
      if read.None? {
        return None;
      }
      var caps, fenced := StoreReplies(b, read.value, seed);
      result := Some((caps, fenced));
    }

    method AwaitFence(b: Bundle, seed: Capabilities, polls: seq<Poll>) returns (end: SyncProbe.Outcome)
      requires Valid()
      modifies Repr()
      ensures Valid() && fresh(Repr() - old(Repr()))
      ensures (View(), end) == SyncProbe.AwaitFence(old(View()), b, seed, polls, Limit(), decoder.tables)
    {
      hide SyncSession.Read, SyncProbe.AwaitFence, SyncProbe.Fences, SyncProbe.StoreEach, Reachable, SyncProbe.Conclude;
      assert polls[0..] == polls;
      var caps := seed;
      for i := 0 to |polls|
        invariant Valid() && fresh(Repr() - old(Repr()))
        invariant SyncProbe.AwaitFence(old(View()), b, seed, polls, Limit(), decoder.tables)
               == SyncProbe.AwaitFence(View(), b, caps, polls[i..], Limit(), decoder.tables)
      {
        AwaitFenceAt(View(), b, caps, polls, i, Limit(), decoder.tables);
        match polls[i]
        case NoDescriptor =>
          EndProbe(b, Cancelled);
          return SyncProbe.NotSupported;
        case PollFailed => return SyncProbe.Failed;
        case ReadFailed => return SyncProbe.Failed;
        case ReadEof => return SyncProbe.Found(caps);
        case Readable(chunk) =>
          var result := ReadReplies(b, caps, chunk);
          if result.None? {
            return SyncProbe.Found(caps);
          }
          caps := result.value.0;
          if result.value.1 {
            EndProbe(b, NoReply);
            return SyncProbe.Found(caps);
          }
      }
      AwaitFenceAt(View(), b, caps, polls, |polls|, Limit(), decoder.tables);
      EndProbe(b, NoReply);
      end := SyncProbe.Found(caps);
    }

    /** The sweep, and the bundle's registration. */
    method RegisterAll() returns (b: Bundle)
      requires Valid()
      modifies this`activeQuery, this`asked, correlator
      ensures Valid() && (View(), b) == SyncProbe.BeginProbe(old(View()))
    {
      hide Reachable, RegisterBundle, Sweep, Minted;
      SweepActiveQuery();
      b := RegisterOn(correlator);
      asked := asked + Minted(correlator.View(), |asked|);
    }

    /** The probe; `skip` holds what a dumb terminal's environment gives, `seed` what any other's does. */
    method ProbeCapabilities(skip: Option<Capabilities>, seed: Capabilities, sent: bool, polls: seq<Poll>)
      returns (end: SyncProbe.Outcome)
      requires Valid()
      modifies Repr()
      ensures Valid() && fresh(Repr() - old(Repr()))
      ensures (View(), end)
           == SyncProbe.ProbeCapabilities(old(View()), skip, seed, sent, polls, Limit(), decoder.tables)
    {
      hide SyncProbe.AwaitFence, SyncProbe.BeginProbe, Reachable;
      if skip.Some? {
        return SyncProbe.Skipped(skip.value);
      }
      var b := RegisterAll();
      if !sent {
        return SyncProbe.Failed;
      }
      end := AwaitFence(b, seed, polls);
    }
  }
}
