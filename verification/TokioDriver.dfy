/** The asynchronous session as the object that updates it (`src/tokio_session.rs`). */
module TokioDriver {
  import opened Bytes
  import opened Bounds
  import opened Events
  import opened Decoder
  import opened DrainBoundary
  import opened Correlate
  import opened CorrelatorTable
  import opened Answers
  import opened Tallies
  import opened ResizeQueue
  import opened EventFates
  import opened Probe
  import opened TokioSession
  import opened TokioRuns

  // ----- Loops in positions of the whole batch -----

  lemma BufferAt(t: Table, events: seq<Event>, i: nat)
    requires i <= |events|
    ensures BufferFlags(t, events[i..]) ==
      if i == |events| then (t, [])
      else
        var (fed, r) := FeedEvent(t, events[i]);
        var (last, rest) := BufferFlags(fed, events[i + 1..]);
        (last, [if r.Completed? then Answered(r.id, r.reply) else Kept] + rest)
  {
    if i < |events| { assert events[i..][1..] == events[i + 1..]; }
  }

  lemma SeekAt(t: Table, id: nat, events: seq<Event>, i: nat)
    requires i <= |events|
    ensures SeekFlags(t, id, events[i..]) ==
      if i == |events| then Sought(t, [], None)
      else
        var (fed, r) := FeedEvent(t, events[i]);
        if r.Completed? && r.id == id then
          var (taken, reply) := TakeReply(fed, id);
          Sought(taken, [Answered(r.id, r.reply)] + AllKept(|events| - i - 1), reply)
        else
          var rest := SeekFlags(fed, id, events[i + 1..]);
          Sought(rest.table, [if r.Completed? then Answered(r.id, r.reply) else Kept] + rest.flags, rest.reply)
  {
    if i < |events| { assert events[i..][1..] == events[i + 1..]; }
  }

  lemma SelectOneMore(events: seq<Event>, flags: seq<Fate>, i: nat, fate: Fate)
    requires i < |events| && |flags| == i
    ensures Select(events[..i + 1], flags + [fate])
         == Select(events[..i], flags) + if fate.Kept? then [events[i]] else []
  {
    assert events[..i + 1] == events[..i] + [events[i]];
    SelectAppend(events[..i], flags, [events[i]], [fate]);
  }

  /** One turn of the delivery loop, in positions of the whole script. */
  lemma NextAt(s: Session, esc: bool, script: seq<Awaited>, i: nat, limit: nat, tables: Tables)
    requires s.decoder.parser.Valid() && i <= |script|
    ensures Next(s, esc, script[i..], limit, tables) ==
      if s.pending != [] then (Deliver(s), Finished(Taken(s.pending).value))
      else if i == |script| then (s, Abandoned)
      else match script[i]
        case Failed => (s, DeviceFailed)
        case Dropped => (s, Abandoned)
        case Elapsed =>
          (if esc && HasPendingLoneEscape(s.decoder.parser) then
             var (flushed, event) := FlushEscape(s, limit, tables);
             if event.Some? then (flushed, Finished(event.value))
               else Next(flushed, esc, script[i + 1..], limit, tables)
           else Next(s, esc, script[i + 1..], limit, tables))
        case Arrived(read) =>
          if read.bytes == [] then (s, Closed)
          else
            var received := Receive(s, read, limit, tables);
            var (t, flags) := BufferFlags(s.table, received.pending);
            Next(Sift(received, t, 0, flags), esc, script[i + 1..], limit, tables)
  {
    hide FlushEscape, Receive, BufferFlags, Sift, Deliver, HasPendingLoneEscape, Taken;
    if i < |script| { assert script[i..][1..] == script[i + 1..]; }
  }

  /** One turn of the query's deadline loop, in positions of the whole script. */
  lemma AwaitReplyAt(s: Session, id: nat, script: seq<Awaited>, i: nat, limit: nat, tables: Tables)
    requires s.decoder.parser.Valid() && i <= |script|
    ensures AwaitReply(s, id, script[i..], limit, tables) ==
      if i == |script| then (s, Abandoned)
      else match script[i]
        case Dropped => (s, Abandoned)
        case Failed => (GiveUp(s, id), DeviceFailed)
        case Elapsed => (GiveUp(s, id), TimedOut)
        case Arrived(read) =>
          if read.bytes == [] then (GiveUp(s, id), Closed)
          else
            var (sought, reply) := Seek(Receive(s, read, limit, tables), id, |s.pending|);
            if reply.Some? then (sought.(activeQuery := None), Finished(reply.value))
            else AwaitReply(sought, id, script[i + 1..], limit, tables)
  {
    hide Receive, Seek, GiveUp;
    if i < |script| { assert script[i..][1..] == script[i + 1..]; }
  }

  lemma BatchAt(t: Table, b: Bundle, events: seq<Event>, caps: Capabilities, i: nat)
    requires CorrelatorTable.Valid(t) && i <= |events|
    ensures i < |events| ==> CorrelatorTable.Valid(FeedEvent(t, events[i]).0)
    ensures i < |events| && FeedEvent(t, events[i]).1.Completed? ==>
      var (fed, r) := FeedEvent(t, events[i]);
      CorrelatorTable.Valid(TakeReply(fed, r.id).0) && TakeReply(fed, r.id).1 == Some(r.reply)
    ensures FeedBatch(t, b, events[i..], caps) ==
      if i == |events| then Batched(t, caps, [], false)
      else
        var (fed, r) := FeedEvent(t, events[i]);
        if r.Passthrough? then
          var rest := FeedBatch(fed, b, events[i + 1..], caps);
          rest.(flags := [Kept] + rest.flags)
        else
          var rest := FeedBatch(TakeReply(fed, r.id).0, b, events[i + 1..], StoreBundleReply(b, r.id, r.reply, caps));
          Batched(rest.table, rest.caps, [Answered(r.id, r.reply)] + rest.flags, rest.fenced || r.id == b.fence)
  {
    hide CorrelatorTable.Valid, FeedEvent, TakeReply, StoreBundleReply;
    if i < |events| {
      assert events[i..][1..] == events[i + 1..];
      FeedKeepsValid(t, events[i]);
      if FeedEvent(t, events[i]).1.Completed? { CompletionHasReply(t, events[i]); }
    }
  }

  /** One turn of the probe's deadline loop, in positions of the whole script. */
  lemma AwaitFenceAt(
      s: Session, b: Bundle, caps: Capabilities, script: seq<Awaited>, i: nat, limit: nat, tables: Tables)
    requires s.decoder.parser.Valid() && CorrelatorTable.Valid(s.table) && i <= |script|
    ensures AwaitFence(s, b, caps, script[i..], limit, tables) ==
      if i == |script| then (s, Abandoned)
      else match script[i]
        case Dropped => (s, Abandoned)
        case Failed => (FinishProbe(s, b), DeviceFailed)
        case Elapsed => (FinishProbe(s, b), Finished(caps))
        case Arrived(read) =>
          if read.bytes == [] then (FinishProbe(s, b), Finished(caps))
          else
            var g := Gather(Receive(s, read, limit, tables), b, caps, |s.pending|);
            if g.fenced then (FinishProbe(g.session, b), Finished(g.caps))
            else AwaitFence(g.session, b, g.caps, script[i + 1..], limit, tables)
  {
    hide CorrelatorTable.Valid, FeedBatch, FinishProbe, ReadOnce;
    if i < |script| { assert script[i..][1..] == script[i + 1..]; }
  }

  /** What stopping at a reply keeps: what passed before it, and everything behind it. */
  lemma SelectBehind(events: seq<Event>, flags: seq<Fate>, i: nat, answered: Fate)
    requires i < |events| && |flags| == i && answered.Answered?
    ensures Select(events, flags + ([answered] + AllKept(|events| - i - 1)))
         == Select(events[..i], flags) + events[i + 1..]
  {
    hide Select, AllKept;
    var behind := AllKept(|events| - i - 1);
    SelectOneMore(events, flags, i, answered);
    assert events == events[..i + 1] + events[i + 1..];
    assert flags + ([answered] + behind) == (flags + [answered]) + behind;
    SelectAppend(events[..i + 1], flags + [answered], events[i + 1..], behind);
    SelectAll(events[i + 1..]);
    assert Select(events[..i], flags) + [] == Select(events[..i], flags);
  }

  /** The fate a feed gives its event. */
  function FateOf(r: FeedResult): Fate { if r.Completed? then Answered(r.id, r.reply) else Kept }

  /** Receiving a read and sifting its own events, in one step. */
  lemma SiftOfRead(s: Session, read: Read, t: Table, flags: seq<Fate>, limit: nat, tables: Tables)
    requires s.decoder.parser.Valid() && |flags| == |ReadOnce(s.decoder, read, limit, tables).events|
    ensures var o := ReadOnce(s.decoder, read, limit, tables);
      var received := Receive(s, read, limit, tables);
      && received.table == s.table && received.pending == s.pending + o.events
      && |s.pending| + |flags| == |received.pending| && received.pending[|s.pending|..] == o.events
      && Sift(received, t, |s.pending|, flags) ==
           s.(decoder := o.state,
              table := t,
              pending := s.pending + Select(o.events, flags),
              inputs := s.inputs + [Chunk(read)],
              arrived := s.arrived + o.events,
              fates := Refine(s.fates + AllKept(|o.events|), |s.delivered| + |s.pending|, flags))
  {
    hide ReadOnce, Select, Refine, AllKept;
    var o := ReadOnce(s.decoder, read, limit, tables);
    assert (s.pending + o.events)[|s.pending|..] == o.events && (s.pending + o.events)[..|s.pending|] == s.pending;
  }

  class TokioTerminalSession {
    const decoder: SemanticDecoder
    const correlator: Correlator
    var pending: seq<Event>
    var activeQuery: Option<nat>
    var activeProbe: seq<nat>
    // History, as in the value of the session.
    ghost var asked: seq<Expectation>
    ghost var inputs: seq<Input>
    ghost var arrived: seq<Event>
    ghost var fates: seq<Fate>
    ghost var delivered: seq<Event>

    ghost function Repr(): set<object>
      reads this, decoder, decoder.parser
    {
      {this, correlator} + decoder.Repr()
    }

    ghost predicate Valid()
      reads this, decoder, decoder.parser, Repr()
    {
      && decoder.Valid() && Reachable(decoder.parser.View(), decoder.parser.payloadLimit)
      && this !in decoder.Repr() && correlator !in decoder.Repr()
    }

    ghost function View(): Session
      reads this, decoder, decoder.parser, Repr()
    {
      Session(decoder.View(), pending, correlator.View(), activeQuery, activeProbe, asked, inputs, arrived, fates,
              delivered)
    }

    ghost function Limit(): nat
      reads this, decoder, decoder.parser
    {
      decoder.parser.payloadLimit
    }

    constructor (payloadLimit: nat, tables: Tables)
      ensures Valid() && fresh(Repr())
      ensures View() == NEW_SESSION && decoder.tables == tables && decoder.parser.payloadLimit == payloadLimit
    {
      decoder := new SemanticDecoder(payloadLimit, tables);
      correlator := new Correlator();
      pending := [];
      activeQuery := None;
      activeProbe := [];
      asked, inputs, arrived, fates, delivered := [], [], [], [], [];
    }

    /** Decodes one read and, at a drained boundary, flushes settled text. */
    method ReadEvents(read: Read) returns (events: seq<Event>)
      requires Valid()
      modifies decoder.Repr()
      ensures Valid() && fresh(Repr() - old(Repr()))
      ensures Decoded(decoder.View(), events) == ReadOnce(old(decoder.View()), read, Limit(), decoder.tables)
      ensures correlator.View() == old(correlator.View())
    {
      hide Reachable, Decode, Flush, HasSettledText;
      events := decoder.FeedBytes(read.bytes);
      if read.drained {
        var settled := decoder.SettledText();
        if settled {
          var flushed := decoder.Finish();
          events := events + flushed;
        }
      }
    }

    /** The same, recorded. */
    method TakeRead(read: Read) returns (events: seq<Event>)
      requires Valid()
      modifies decoder.Repr(), this`inputs, this`arrived
      ensures Valid() && fresh(Repr() - old(Repr()))
      ensures var o := ReadOnce(old(decoder.View()), read, Limit(), decoder.tables);
        && events == o.events
        && View() == old(View()).(decoder := o.state,
                                  inputs := old(inputs) + [Chunk(read)],
                                  arrived := old(arrived) + o.events)
    {
      hide Reachable, ReadOnce;
      events := ReadEvents(read);
      inputs, arrived := inputs + [Chunk(read)], arrived + events;
    }

    /** Buffers what passes through; a completion with no one to take it is dropped. */
    method BufferEvents(events: seq<Event>) returns (ghost flags: seq<Fate>)
      modifies this`pending, correlator
      ensures (correlator.View(), flags) == BufferFlags(old(correlator.View()), events)
      ensures pending == old(pending) + Select(events, flags)
    {
      hide FeedEvent, BufferFlags, Select;
      flags := [];
      ghost var whole := BufferFlags(correlator.View(), events);
      assert events[0..] == events && events[..0] == [] && Select([], []) == [] by { SelectAll([]); }
      for i := 0 to |events|
        invariant |flags| == i && pending == old(pending) + Select(events[..i], flags)
        invariant var rest := BufferFlags(correlator.View(), events[i..]);
          whole.0 == rest.0 && whole.1 == flags + rest.1
      {
        ghost var before := correlator.View();
        BufferAt(before, events, i);
        var r := correlator.Feed(events[i]);
        ghost var fate := FateOf(r);
        SelectOneMore(events, flags, i, fate);
        PassthroughLeaves(before, events[i]);
        if r.Passthrough? {
          pending := pending + [r.event];
        }
        flags := flags + [fate];
      }
      BufferAt(correlator.View(), events, |events|);
      assert events[..|events|] == events && flags + [] == flags;
    }

    /** Feeds events until the query's own completion; what passed, and all behind it, is kept. */
    method FeedUntil(
        id: nat, events: seq<Event>) returns (kept: seq<Event>, reply: Option<Reply>, ghost flags: seq<Fate>)
      modifies correlator
      ensures Sought(correlator.View(), flags, reply) == SeekFlags(old(correlator.View()), id, events)
      ensures kept == Select(events, flags)
    {
      hide FeedEvent, SeekFlags, Select, TakeReply, AllKept;
      kept, reply, flags := [], None, [];
      ghost var whole := SeekFlags(correlator.View(), id, events);
      assert events[0..] == events && events[..0] == [] && Select([], []) == [] by { SelectAll([]); }
      for i := 0 to |events|
        invariant reply == None && |flags| == i && kept == Select(events[..i], flags)
        invariant var rest := SeekFlags(correlator.View(), id, events[i..]);
          whole.table == rest.table && whole.flags == flags + rest.flags && whole.reply == rest.reply
      {
        ghost var before := correlator.View();
        SeekAt(before, id, events, i);
        var r := correlator.Feed(events[i]);
        if r.Completed? && r.id == id {
          reply := correlator.Take(id);
          SelectBehind(events, flags, i, FateOf(r));
          kept := kept + events[i + 1..];
          flags := flags + ([FateOf(r)] + AllKept(|events| - i - 1));
          return;
        }
        ghost var fate := FateOf(r);
        SelectOneMore(events, flags, i, fate);
        PassthroughLeaves(before, events[i]);
        if r.Passthrough? {
          kept := kept + [r.event];
        }
        flags := flags + [fate];
      }
      SeekAt(correlator.View(), id, events, |events|);
      assert events[..|events|] == events && flags + [] == flags;
    }

    method SweepActiveQuery()
      requires Valid()
      modifies this`activeQuery, correlator
      ensures Valid() && View() == SweepQuery(old(View()))
    {
      if activeQuery.Some? {
        var _ := correlator.ResolveWaiter(activeQuery.value, Resolution.Cancelled);
        activeQuery := None;
      }
    }

    method SweepActiveProbe()
      requires Valid()
      modifies this`activeProbe, correlator
      ensures Valid() && View() == SweepProbe(old(View()))
    {
      hide ResolveEach;
      ResolveAll(correlator, activeProbe, Resolution.Cancelled);
      activeProbe := [];
    }

    /** Pops the next event; the superseded resizes before it are passed over. */
    method DeliverNext() returns (event: Event)
      requires Valid() && pending != []
      modifies this`pending, this`fates, this`delivered
      ensures Valid() && View() == Deliver(old(View())) && event == Taken(old(pending)).value
    {
      hide Skipped, SkipFront, Refine;
      ghost var flags := SkipFront(pending);
      var taken, rest := TakeCoalescedEvent(pending);
      event := taken.value;
      fates := Refine(fates, |delivered|, flags);
      delivered := delivered + [event];
      pending := rest;
    }

    method QueueSyntheticResize(g: Geometry)
      requires Valid()
      modifies this`pending, this`inputs, this`arrived, this`fates
      ensures Valid() && View() == QueueResize(old(View()), g)
    {
      pending := pending + [Resize(g)];
      inputs, arrived, fates := inputs + [Synthetic(g)], arrived + [Resize(g)], fates + [Kept];
    }

    /** One read's events, through the correlator into the empty queue. */
    method ReceiveNext(read: Read)
      requires Valid() && pending == []
      modifies Repr() - {this}, this`pending, this`inputs, this`arrived, this`fates
      ensures Valid() && fresh(Repr() - old(Repr()))
      ensures var received := Receive(old(View()), read, Limit(), decoder.tables);
        var (t, flags) := BufferFlags(old(correlator.View()), received.pending);
        View() == Sift(received, t, 0, flags)
    {
      hide Reachable, ReadOnce, BufferFlags, Select, Refine, AllKept, Receive, Sift;
      ghost var before := View();
      var events := TakeRead(read);
      assert [] + events == events;
      ghost var flags := BufferEvents(events);
      SiftOfRead(before, read, correlator.View(), flags, Limit(), decoder.tables);
      fates := Refine(fates + AllKept(|events|), |delivered|, flags);
    }

    /** Flushes a lone ESC: its first event is delivered, any other is discarded. */
    method FlushLoneEscape() returns (event: Option<Event>)
      requires Valid() && HasPendingLoneEscape(decoder.parser.View())
      modifies Repr() - {this}, this`inputs, this`arrived, this`fates, this`delivered
      ensures Valid() && fresh(Repr() - old(Repr()))
      ensures (View(), event) == FlushEscape(old(View()), Limit(), decoder.tables)
    {
      hide Reachable, Flush, HasPendingLoneEscape;
      ghost var events := Flush(decoder.View(), Limit(), decoder.tables).events;
      event := decoder.FlushPendingEscape();
      ghost var deadline := |inputs|;
      inputs, arrived := inputs + [EscapeDeadline], arrived + events;
      fates := fates + [Kept] + seq(|events| - 1, _ => Lost(deadline));
      delivered := delivered + [events[0]];
    }

    /** The deadline of a lone ESC, when one is armed. */
    method FlushIfLone(esc: bool) returns (event: Option<Event>)
      requires Valid()
      modifies Repr() - {this}, this`inputs, this`arrived, this`fates, this`delivered
      ensures Valid() && fresh(Repr() - old(Repr()))
      ensures (View(), event) ==
        if esc && HasPendingLoneEscape(old(decoder.View()).parser)
          then FlushEscape(old(View()), Limit(), decoder.tables)
        else (old(View()), None)
    {
      hide Reachable, FlushEscape, HasPendingLoneEscape;
      event := None;
      var lone := decoder.PendingLoneEscape();
      if esc && lone {
        event := FlushLoneEscape();
      }
    }

    /** Reads and delivers the next event. */
    method NextEvent(esc: bool, script: seq<Awaited>) returns (end: Ended<Event>)
      requires Valid()
      modifies Repr()
      ensures Valid() && fresh(Repr() - old(Repr()))
      ensures (View(), end) == Next(old(View()), esc, script, Limit(), decoder.tables)
    {
      hide Reachable, Next, Receive, BufferFlags, Sift, FlushEscape, Deliver, HasPendingLoneEscape;
      assert script[0..] == script;
      for i := 0 to |script|
        invariant Valid() && fresh(Repr() - old(Repr()))
        invariant Next(old(View()), esc, script, Limit(), decoder.tables)
               == Next(View(), esc, script[i..], Limit(), decoder.tables)
      {
        NextAt(View(), esc, script, i, Limit(), decoder.tables);
        if pending != [] {
          var event := DeliverNext();
          return Finished(event);
        }
        match script[i]
        case Failed => return DeviceFailed;
        case Dropped => return Abandoned;
        case Elapsed =>
          var event := FlushIfLone(esc);
          if event.Some? {
            return Finished(event.value);
          }
        case Arrived(read) =>
          if read.bytes == [] {
            return Closed;
          }
          ReceiveNext(read);
      }
      NextAt(View(), esc, script, |script|, Limit(), decoder.tables);
      if pending != [] {
        var event := DeliverNext();
        return Finished(event);
      }
      end := Abandoned;
    }

    /** Feeds what is already queued to the query before anything is read. */
    method DrainPendingIntoQuery(id: nat) returns (reply: Option<Reply>)
      requires Valid()
      modifies this`pending, this`fates, correlator
      ensures Valid() && (View(), reply) == Seek(old(View()), id, 0)
    {
      hide Reachable, SeekFlags, Select, Refine;
      assert pending[0..] == pending && pending[..0] == [];
      ghost var flags: seq<Fate>;
      var kept: seq<Event>;
      kept, reply, flags := FeedUntil(id, pending);
      assert [] + kept == kept;
      pending := kept;
      fates := Refine(fates, |delivered|, flags);
    }

    /** One read's events, to the query; what it leaves joins the queue. */
    method FeedReadIntoQuery(id: nat, read: Read) returns (reply: Option<Reply>)
      requires Valid()
      modifies Repr() - {this}, this`pending, this`inputs, this`arrived, this`fates
      ensures Valid() && fresh(Repr() - old(Repr()))
      ensures (View(), reply) == Seek(Receive(old(View()), read, Limit(), decoder.tables), id, |old(pending)|)
    {
      hide Reachable, ReadOnce, SeekFlags, Select, Refine, AllKept, Receive, Sift;
      ghost var before := View();
      var events := TakeRead(read);
      ghost var flags: seq<Fate>;
      var kept: seq<Event>;
      kept, reply, flags := FeedUntil(id, events);
      SiftOfRead(before, read, correlator.View(), flags, Limit(), decoder.tables);
      fates := Refine(fates + AllKept(|events|), |delivered| + |pending|, flags);
      pending := pending + kept;
    }

    method GiveUpQuery(id: nat, resolution: Resolution)
      requires Valid()
      modifies this`activeQuery, correlator
      ensures Valid() && View() == GiveUp(old(View()), id)
    {
      var _ := correlator.ResolveWaiter(id, resolution);
      activeQuery := None;
    }

    method AwaitQueryReply(id: nat, script: seq<Awaited>) returns (end: Ended<Reply>)
      requires Valid()
      modifies Repr()
      ensures Valid() && fresh(Repr() - old(Repr()))
      ensures (View(), end) == AwaitReply(old(View()), id, script, Limit(), decoder.tables)
    {
      hide Reachable, AwaitReply, Receive, Seek, GiveUp;
      assert script[0..] == script;
      for i := 0 to |script|
        invariant Valid() && fresh(Repr() - old(Repr()))
        invariant AwaitReply(old(View()), id, script, Limit(), decoder.tables)
               == AwaitReply(View(), id, script[i..], Limit(), decoder.tables)
      {
        AwaitReplyAt(View(), id, script, i, Limit(), decoder.tables);
        match script[i]
        case Dropped => return Abandoned;
        case Failed =>
          GiveUpQuery(id, Resolution.Cancelled);
          return DeviceFailed;
        case Elapsed =>
          GiveUpQuery(id, Timeout);
          return TimedOut;
        case Arrived(read) =>
          if read.bytes == [] {
            GiveUpQuery(id, Eof);
            return Closed;
          }
          var reply := FeedReadIntoQuery(id, read);
          if reply.Some? {
            activeQuery := None;
            return Finished(reply.value);
          }
      }
      AwaitReplyAt(View(), id, script, |script|, Limit(), decoder.tables);
      end := Abandoned;
    }

    method SweepBoth()
      requires Valid()
      modifies this`activeQuery, this`activeProbe, correlator
      ensures Valid() && View() == SweepProbe(SweepQuery(old(View())))
    {
      hide Reachable, SweepQuery, SweepProbe;
      SweepActiveQuery();
      SweepActiveProbe();
    }

    /** Both sweeps, and the query's own registration. */
    method Register(x: Expectation) returns (id: nat)
      requires Valid()
      modifies this`activeQuery, this`activeProbe, this`asked, correlator
      ensures Valid() && (View(), id) == BeginQuery(old(View()), x)
    {
      hide Reachable, CorrelatorTable.Register, SweepQuery, SweepProbe, Minted;
      SweepBoth();
      var registered := correlator.RegisterExpectation(x);
      id := registered.id;
      activeQuery := Some(id);
      asked := asked + Minted(correlator.View(), |asked|);
    }

    method RunQuery(x: Expectation, request: Request, script: seq<Awaited>) returns (end: Ended<Reply>)
      requires Valid()
      modifies Repr()
      ensures Valid() && fresh(Repr() - old(Repr()))
      ensures (View(), end) == Query(old(View()), x, request, script, Limit(), decoder.tables)
    {
      hide Reachable, AwaitReply, Seek, BeginQuery;
      var id := Register(x);
      if request == Unwritten {
        return DeviceFailed;
      }
      if request == WriteDropped {
        return Abandoned;
      }
      var reply := DrainPendingIntoQuery(id);
      if reply.Some? {
        activeQuery := None;
        return Finished(reply.value);
      }
      end := AwaitQueryReply(id, script);
    }

    /** Feeds a whole batch to the bundle before the fence is acted on. */
    method FeedBatchIntoBundle(b: Bundle, events: seq<Event>, seed: Capabilities)
      returns (fenced: bool, caps: Capabilities, ghost flags: seq<Fate>)
      requires CorrelatorTable.Valid(correlator.View())
      modifies this`pending, correlator
      ensures Batched(correlator.View(), caps, flags, fenced) == FeedBatch(old(correlator.View()), b, events, seed)
      ensures pending == old(pending) + Select(events, flags)
    {
      hide FeedEvent, FeedBatch, Select, TakeReply, StoreBundleReply, CorrelatorTable.Valid;
      fenced, caps, flags := false, seed, [];
      ghost var whole := FeedBatch(correlator.View(), b, events, seed);
      assert events[0..] == events && events[..0] == [] && Select([], []) == [] by { SelectAll([]); }
      for i := 0 to |events|
        invariant CorrelatorTable.Valid(correlator.View())
        invariant |flags| == i && pending == old(pending) + Select(events[..i], flags)
        invariant var rest := FeedBatch(correlator.View(), b, events[i..], caps);
          && whole.table == rest.table && whole.caps == rest.caps
          && whole.flags == flags + rest.flags && whole.fenced == (fenced || rest.fenced)
      {
        ghost var before := correlator.View();
        BatchAt(before, b, events, caps, i);
        var r := correlator.Feed(events[i]);
        PassthroughLeaves(before, events[i]);
        SelectOneMore(events, flags, i, FateOf(r));
        match r {
          case Completed(id, _) =>
            var reply := correlator.Take(id);
            caps := StoreBundleReply(b, id, reply.value, caps); // a completion always has a reply to take
            fenced := fenced || id == b.fence;
          case Passthrough(event) => pending := pending + [event];
        }
        Associate(flags, [FateOf(r)], FeedBatch(correlator.View(), b, events[i + 1..], caps).flags);
        flags := flags + [FateOf(r)];
      }
      BatchAt(correlator.View(), b, events, caps, |events|);
      assert events[..|events|] == events && flags + [] == flags;
    }

    /** Everything queued goes to the bundle before anything is read. */
    method GatherPending(b: Bundle, seed: Capabilities) returns (fenced: bool, caps: Capabilities)
      requires Valid() && CorrelatorTable.Valid(correlator.View())
      modifies this`pending, this`fates, correlator
      ensures Valid() && BatchFed(View(), caps, fenced) == Gather(old(View()), b, seed, 0)
      ensures CorrelatorTable.Valid(correlator.View())
    {
      hide Reachable, FeedBatch, Select, Refine, CorrelatorTable.Valid;
      var buffered := pending;
      assert buffered[0..] == buffered && buffered[..0] == [];
      pending := [];
      ghost var flags: seq<Fate>;
      fenced, caps, flags := FeedBatchIntoBundle(b, buffered, seed);
      fates := Refine(fates, |delivered|, flags);
    }

    method GatherRead(b: Bundle, seed: Capabilities, read: Read) returns (fenced: bool, caps: Capabilities)
      requires Valid() && CorrelatorTable.Valid(correlator.View())
      modifies Repr() - {this}, this`pending, this`inputs, this`arrived, this`fates
      ensures Valid() && fresh(Repr() - old(Repr()))
      ensures BatchFed(View(), caps, fenced)
           == Gather(Receive(old(View()), read, Limit(), decoder.tables), b, seed, |old(pending)|)
      ensures CorrelatorTable.Valid(correlator.View())
    {
      hide Reachable, ReadOnce, FeedBatch, Select, Refine, CorrelatorTable.Valid, AllKept, Receive, Sift;
      ghost var before := View();
      var events := TakeRead(read);
      ghost var from := |delivered| + |pending|;
      ghost var flags: seq<Fate>;
      fenced, caps, flags := FeedBatchIntoBundle(b, events, seed);
      SiftOfRead(before, read, correlator.View(), flags, Limit(), decoder.tables);
      fates := Refine(fates + AllKept(|events|), from, flags);
    }

    /** Gives up whatever of the bundle is still registered. */
    method EndProbe(b: Bundle, resolution: Resolution)
      requires Valid()
      modifies this`activeProbe, correlator
      ensures Valid() && View() == FinishProbe(old(View()), b)
    {
      hide ResolveEach;
      ResolveAll(correlator, b.Ids(), resolution);
      activeProbe := [];
    }

    method AwaitProbeFence(b: Bundle, seed: Capabilities, script: seq<Awaited>) returns (end: Ended<Capabilities>)
      requires Valid() && CorrelatorTable.Valid(correlator.View())
      modifies Repr()
      ensures Valid() && fresh(Repr() - old(Repr()))
      ensures (View(), end) == AwaitFence(old(View()), b, seed, script, Limit(), decoder.tables)
    {
      hide Reachable, AwaitFence, Receive, Gather, FinishProbe, CorrelatorTable.Valid;
      assert script[0..] == script;
      var caps := seed;
      for i := 0 to |script|
        invariant Valid() && CorrelatorTable.Valid(correlator.View()) && fresh(Repr() - old(Repr()))
        invariant AwaitFence(old(View()), b, seed, script, Limit(), decoder.tables)
               == AwaitFence(View(), b, caps, script[i..], Limit(), decoder.tables)
      {
        AwaitFenceAt(View(), b, caps, script, i, Limit(), decoder.tables);
        match script[i]
        case Dropped => return Abandoned;
        case Failed =>
          EndProbe(b, Resolution.Cancelled);
          return DeviceFailed;
        case Elapsed =>
          EndProbe(b, NoReply);
          return Finished(caps);
        case Arrived(read) =>
          if read.bytes == [] {
            EndProbe(b, NoReply);
            return Finished(caps);
          }
          var fenced: bool;
          fenced, caps := GatherRead(b, caps, read);
          if fenced {
            EndProbe(b, NoReply);
            return Finished(caps);
          }
      }
      AwaitFenceAt(View(), b, caps, script, |script|, Limit(), decoder.tables);
      end := Abandoned;
    }

    /** Both sweeps, and the bundle's registration. */
    method RegisterAll() returns (b: Bundle)
      requires Valid()
      modifies this`activeQuery, this`activeProbe, this`asked, correlator
      ensures Valid() && (View(), b) == BeginProbe(old(View()))
    {
      hide Reachable, RegisterBundle, SweepQuery, SweepProbe, Minted;
      SweepBoth();
      b := RegisterOn(correlator);
      activeProbe := activeProbe + b.Ids();
      asked := asked + Minted(correlator.View(), |asked|);
    }

    /** The probe. `seed` is what the environment alone says. */
    method ProbeOnce(seed: Capabilities, request: Request, script: seq<Awaited>) returns (end: Ended<Capabilities>)
      requires Valid() && Owned(View())
      modifies Repr()
      ensures CorrelatorTable.Valid(BeginProbe(old(View())).0.table)
      ensures Valid() && fresh(Repr() - old(Repr()))
      ensures (View(), end) == ProbeCapabilities(old(View()), seed, request, script, Limit(), decoder.tables)
    {
      hide Reachable, AwaitFence, Gather, BeginProbe, FinishProbe, CorrelatorTable.Valid, Owned;
      BegunIsValid(View());
      var b := RegisterAll();
      if request == Unwritten {
        return DeviceFailed;
      }
      if request == WriteDropped {
        return Abandoned;
      }
      var fenced, caps := GatherPending(b, seed);
      if fenced {
        EndProbe(b, NoReply);
        return Finished(caps);
      }
      end := AwaitProbeFence(b, caps, script);
    }
  }
}
