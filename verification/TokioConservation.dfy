/** No operation of the asynchronous session, however its awaits end, loses, reorders or misattributes
    an event. */
module TokioConservation {
  import opened Bytes
  import opened Tokens
  import opened Bounds
  import opened Events
  import opened Decoder
  import opened DrainBoundary
  import opened Correlate
  import opened CorrelatorTable
  import opened CorrelatorRuns
  import opened Answers
  import opened Tallies
  import opened ResizeQueue
  import opened EventFates
  import opened EventFeeds
  import opened Probe
  import opened Gathering
  import opened TokioSession
  import opened TokioInputs

  // ----- What the feeds of the session do -----

  lemma {:induction false} BufferFeeds(t: Table, events: seq<Event>, asked: seq<Expectation>)
    requires Valid(t) && Tagged(t, asked)
    ensures var (u, flags) := BufferFlags(t, events); Feeds(t, u, events, flags, asked)
    decreases |events|
  {
    hide Feeds, FeedEvent, Valid, Tagged;
    if events == [] {
      FeedsNothing(t, asked);
    } else {
      var e, rest := events[0], events[1..];
      assert events == [e] + rest;
      var (fed, r) := FeedEvent(t, e);
      EventNarrows(t, e);
      FeedKeepsValid(t, e);
      NarrowedTag(t, fed, asked);
      BufferFeeds(fed, rest, asked);
      var (u, flags) := BufferFlags(fed, rest);
      if r.Passthrough? {
        PassthroughLeaves(t, e);
        FeedsKept(t, u, e, rest, flags, asked);
      } else {
        NarrowsSelf(fed);
        FeedsAnswered(t, fed, u, e, rest, flags, asked);
      }
    }
  }

  lemma {:induction false} SeekFeeds(t: Table, id: nat, events: seq<Event>, asked: seq<Expectation>)
    requires Valid(t) && Tagged(t, asked)
    ensures var r := SeekFlags(t, id, events); Feeds(t, r.table, events, r.flags, asked)
    decreases |events|
  {
    hide Feeds, FeedEvent, TakeReply, Valid, Tagged, AllKept;
    if events == [] {
      FeedsNothing(t, asked);
    } else {
      var e, rest := events[0], events[1..];
      assert events == [e] + rest;
      var (fed, r) := FeedEvent(t, e);
      EventNarrows(t, e);
      FeedKeepsValid(t, e);
      NarrowedTag(t, fed, asked);
      if r.Passthrough? {
        PassthroughLeaves(t, e);
        SeekFeeds(fed, id, rest, asked);
        var more := SeekFlags(fed, id, rest);
        FeedsKept(t, more.table, e, rest, more.flags, asked);
      } else if r.id == id {
        var taken := TakeReply(fed, id).0;
        TakeNarrows(fed, id);
        NarrowsIsValid(fed, taken);
        FeedsNoMore(taken, rest, asked);
        FeedsAnswered(t, taken, taken, e, rest, AllKept(|rest|), asked);
      } else {
        SeekFeeds(fed, id, rest, asked);
        var more := SeekFlags(fed, id, rest);
        NarrowsSelf(fed);
        FeedsAnswered(t, fed, more.table, e, rest, more.flags, asked);
      }
    }
  }

  // ----- The decoder behind the events -----

  /** The decoder and the events it has produced after a list of inputs. */
  function DecodeInputs(inputs: seq<Input>, limit: nat, tables: Tables): (o: Decoded)
    ensures o.state.parser.Valid()
    decreases |inputs|
  {
    if inputs == [] then Decoded(FRESH, [])
    else
      var o := DecodeInputs(inputs[..|inputs| - 1], limit, tables);
      match inputs[|inputs| - 1]
      case Chunk(read) =>
        var more := ReadOnce(o.state, read, limit, tables); Decoded(more.state, o.events + more.events)
      case EscapeDeadline =>
        var more := Flush(o.state, limit, tables); Decoded(more.state, o.events + more.events)
      case Synthetic(g) => Decoded(o.state, o.events + [Resize(g)])
  }

  lemma DecodeOneMore(inputs: seq<Input>, input: Input, limit: nat, tables: Tables)
    ensures var o := DecodeInputs(inputs, limit, tables);
      DecodeInputs(inputs + [input], limit, tables) == match input
        case Chunk(read) =>
          (var more := ReadOnce(o.state, read, limit, tables); Decoded(more.state, o.events + more.events))
        case EscapeDeadline =>
          (var more := Flush(o.state, limit, tables); Decoded(more.state, o.events + more.events))
        case Synthetic(g) => Decoded(o.state, o.events + [Resize(g)])
  {
    assert (inputs + [input])[..|inputs|] == inputs;
  }

  lemma {:induction false} DecodeGrows(inputs: seq<Input>, n: nat, limit: nat, tables: Tables)
    requires n <= |inputs|
    ensures |DecodeInputs(inputs[..n], limit, tables).events| <= |DecodeInputs(inputs, limit, tables).events|
    decreases |inputs|
  {
    hide ReadOnce, Flush;
    if n == |inputs| {
      assert inputs[..n] == inputs;
    } else {
      var shorter := inputs[..|inputs| - 1];
      assert shorter[..n] == inputs[..n];
      DecodeGrows(shorter, n, limit, tables);
    }
  }

  // ----- What an ESC deadline discards -----

  /** Input `k` is an ESC deadline that found a high surrogate held, and event `i` is the last it gave. */
  ghost predicate Loses(inputs: seq<Input>, k: nat, i: nat, limit: nat, tables: Tables) {
    && k < |inputs| && inputs[k] == EscapeDeadline
    && DecodeInputs(inputs[..k], limit, tables).state.mapping.half.Some?
    && i + 1 == |DecodeInputs(inputs[..k + 1], limit, tables).events|
  }

  /** The events discarded are exactly those. */
  ghost predicate LosesExactly(inputs: seq<Input>, fates: seq<Fate>, limit: nat, tables: Tables) {
    && |fates| == |DecodeInputs(inputs, limit, tables).events|
    && forall i: nat, k: nat :: i < |fates| ==> (fates[i] == Lost(k) <==> Loses(inputs, k, i, limit, tables))
  }

  lemma LosesLater(inputs: seq<Input>, input: Input, k: nat, i: nat, limit: nat, tables: Tables)
    requires k < |inputs|
    ensures Loses(inputs + [input], k, i, limit, tables) <==> Loses(inputs, k, i, limit, tables)
    ensures Loses(inputs, k, i, limit, tables) ==> i < |DecodeInputs(inputs, limit, tables).events|
  {
    hide DecodeInputs;
    assert (inputs + [input])[..k] == inputs[..k] && (inputs + [input])[..k + 1] == inputs[..k + 1];
    DecodeGrows(inputs, k + 1, limit, tables);
  }

  /** An input that is no ESC deadline discards nothing. */
  lemma ArrivalLosesNothing(inputs: seq<Input>, input: Input, fates: seq<Fate>, n: nat, limit: nat, tables: Tables)
    requires LosesExactly(inputs, fates, limit, tables) && input != EscapeDeadline
    requires |fates| + n == |DecodeInputs(inputs + [input], limit, tables).events|
    ensures LosesExactly(inputs + [input], fates + AllKept(n), limit, tables)
  {
    hide DecodeInputs, Loses;
    var longer, more := inputs + [input], fates + AllKept(n);
    forall i: nat, k: nat | i < |more|
      ensures more[i] == Lost(k) <==> Loses(longer, k, i, limit, tables)
    {
      LosesOneMore(inputs, input, k, i, limit, tables);
      KeptAt(fates, n, i);
      if i < |fates| { assert fates[i] == Lost(k) <==> Loses(inputs, k, i, limit, tables); }
    }
  }

  lemma KeptAt(fates: seq<Fate>, n: nat, i: nat)
    requires i < |fates| + n
    ensures (fates + AllKept(n))[i] == if i < |fates| then fates[i] else Kept
  {
  }

  lemma LosesOneMore(inputs: seq<Input>, input: Input, k: nat, i: nat, limit: nat, tables: Tables)
    ensures Loses(inputs + [input], k, i, limit, tables) <==>
      if k == |inputs| then
        && input == EscapeDeadline
        && DecodeInputs(inputs, limit, tables).state.mapping.half.Some?
        && i + 1 == |DecodeInputs(inputs + [input], limit, tables).events|
      else Loses(inputs, k, i, limit, tables)
    ensures Loses(inputs, k, i, limit, tables) ==>
      k < |inputs| && i < |DecodeInputs(inputs, limit, tables).events|
  {
    hide DecodeInputs;
    var longer := inputs + [input];
    if k < |inputs| {
      LosesLater(inputs, input, k, i, limit, tables);
    } else if k == |inputs| {
      assert longer[..k] == inputs && longer[..k + 1] == longer;
    }
  }

  /** Changing the fates of kept events changes nothing about what was discarded. */
  lemma RefinedLosesExactly(
      inputs: seq<Input>, fates: seq<Fate>, skip: nat, flags: seq<Fate>, limit: nat, tables: Tables)
    requires LosesExactly(inputs, fates, limit, tables) && LosesNothing(flags)
    ensures LosesExactly(inputs, Refine(fates, skip, flags), limit, tables)
  {
    hide DecodeInputs, Loses, Refine;
    forall i: nat, k: nat | i < |fates|
      ensures Refine(fates, skip, flags)[i] == Lost(k) <==> Loses(inputs, k, i, limit, tables)
    {
      RefinedFates(fates, skip, flags, i);
    }
  }

  // ----- The invariant -----

  ghost predicate InStep(s: Session, limit: nat, tables: Tables) {
    && s.decoder.parser.Valid() && Reachable(s.decoder.parser, limit)
    && Decoded(s.decoder, s.arrived) == DecodeInputs(s.inputs, limit, tables)
  }

  ghost predicate Balanced(s: Session) {
    && |s.arrived| == |s.fates|
    && Legal(s.arrived, s.fates, s.asked)
    && Select(s.arrived, s.fates) == s.delivered + s.pending
  }

  /** What arrived is what the inputs decode to; with its fates, what is kept of it is what was delivered
      and then what is queued; what answered did so once for each id, with the reply that id was minted
      for, and never while the id still waits; and what was discarded is exactly what ESC deadlines
      discard. */
  ghost predicate Conserved(s: Session, limit: nat, tables: Tables) {
    && InStep(s, limit, tables)
    && Balanced(s)
    && LosesExactly(s.inputs, s.fates, limit, tables)
    && Tallied(s.table, s.asked, AnsweredIds(s.fates))
  }

  lemma NewIsConserved(limit: nat, tables: Tables)
    ensures Conserved(NEW_SESSION, limit, tables)
  {
  }

  /** From `s` to `s'`: history only grows, and an id of `s` is answered in between only if it waited in
      `s`; none begins to wait again. */
  ghost predicate Progresses(s: Session, s': Session) {
    && s.asked <= s'.asked && s.inputs <= s'.inputs && s.arrived <= s'.arrived && s.delivered <= s'.delivered
    && forall k: nat ::
         && AnsweredIds(s.fates)[k] <= AnsweredIds(s'.fates)[k]
         && (k < |s.asked| && Waiting(s'.table, k) ==> Waiting(s.table, k))
         && (k < |s.asked| && AnsweredIds(s.fates)[k] < AnsweredIds(s'.fates)[k] ==> Waiting(s.table, k))
  }

  lemma ProgressesSelf(s: Session)
    ensures Progresses(s, s)
  {
    hide Waiting, AnsweredIds;
  }

  lemma ProgressesThen(s: Session, t: Session, u: Session)
    requires Progresses(s, t) && Progresses(t, u)
    ensures Progresses(s, u)
  {
    hide Waiting, AnsweredIds;
  }

  ghost predicate Keeps(s: Session, s': Session, limit: nat, tables: Tables) {
    Conserved(s', limit, tables) && Progresses(s, s')
  }

  lemma KeepsSelf(s: Session, limit: nat, tables: Tables)
    requires Conserved(s, limit, tables)
    ensures Keeps(s, s, limit, tables)
  {
    hide Conserved, Progresses;
    ProgressesSelf(s);
  }

  lemma KeepsThen(s: Session, t: Session, u: Session, limit: nat, tables: Tables)
    requires Keeps(s, t, limit, tables) && Keeps(t, u, limit, tables)
    ensures Keeps(s, u, limit, tables)
  {
    hide Conserved, Progresses;
    ProgressesThen(s, t, u);
  }

  lemma ConservedIsValid(s: Session, limit: nat, tables: Tables)
    requires Conserved(s, limit, tables)
    ensures s.decoder.parser.Valid() && Reachable(s.decoder.parser, limit)
    ensures Valid(s.table) && Tagged(s.table, s.asked)
  {
    hide Reachable, DecodeInputs, Legal, Select, LosesExactly, AnsweredIds;
  }

  // ----- Events arriving -----

  /** Events that join the queue keep it balanced. */
  lemma ArrivalBalances(s: Session, s': Session, events: seq<Event>)
    requires Balanced(s)
    requires s'.arrived == s.arrived + events && s'.fates == s.fates + AllKept(|events|) && s'.asked == s.asked
    requires s'.delivered == s.delivered && s'.pending == s.pending + events
    ensures Balanced(s') && AnsweredIds(s'.fates) == AnsweredIds(s.fates)
  {
    hide Legal, Select, AnsweredIds;
    SelectAll(events);
    AllKeptIsLegal(events, s.asked);
    LegalAppend(s.arrived, s.fates, events, AllKept(|events|), s.asked);
    SelectAppend(s.arrived, s.fates, events, AllKept(|events|));
    Associate(s.delivered, s.pending, events);
    AnsweredIdsAppend(s.fates, AllKept(|events|));
    KeptAnswersNothing(|events|);
  }

  /** Nothing registered changes, and nothing is answered. */
  lemma QuietlyProgresses(s: Session, s': Session)
    requires s'.table == s.table && AnsweredIds(s'.fates) == AnsweredIds(s.fates)
    requires s.asked <= s'.asked && s.inputs <= s'.inputs && s.arrived <= s'.arrived && s.delivered <= s'.delivered
    ensures Progresses(s, s')
  {
    hide Waiting, AnsweredIds;
  }

  lemma ReceiveKeeps(s: Session, read: Read, limit: nat, tables: Tables)
    requires Conserved(s, limit, tables) && s.decoder.parser.Valid()
    ensures Keeps(s, Receive(s, read, limit, tables), limit, tables)
  {
    hide Reachable, ReadOnce, DecodeInputs, Balanced, LosesExactly, Tallied, AnsweredIds, Progresses;
    var s' := Receive(s, read, limit, tables);
    var events := ReadOnce(s.decoder, read, limit, tables).events;
    ReadOnceIsReachable(s.decoder, read, limit, tables);
    DecodeOneMore(s.inputs, Chunk(read), limit, tables);
    ArrivalBalances(s, s', events);
    LosesLength(s, limit, tables);
    ArrivalLosesNothing(s.inputs, Chunk(read), s.fates, |events|, limit, tables);
    QuietlyProgresses(s, s');
  }

  lemma LosesLength(s: Session, limit: nat, tables: Tables)
    requires LosesExactly(s.inputs, s.fates, limit, tables)
    ensures |s.fates| == |DecodeInputs(s.inputs, limit, tables).events|
  {
    hide DecodeInputs;
  }

  lemma QueueResizeKeeps(s: Session, g: Geometry, limit: nat, tables: Tables)
    requires Conserved(s, limit, tables)
    ensures Keeps(s, QueueResize(s, g), limit, tables)
  {
    hide Reachable, DecodeInputs, Balanced, LosesExactly, Tallied, AnsweredIds, Progresses;
    var s' := QueueResize(s, g);
    assert AllKept(1) == [Kept];
    DecodeOneMore(s.inputs, Synthetic(g), limit, tables);
    ArrivalBalances(s, s', [Resize(g)]);
    LosesLength(s, limit, tables);
    ArrivalLosesNothing(s.inputs, Synthetic(g), s.fates, 1, limit, tables);
    QuietlyProgresses(s, s');
  }

  // ----- Events leaving the queue -----

  /** Refining the queue from a position on leaves what was delivered and what is before it. */
  lemma RefineBalances(
      arrived: seq<Event>, fates: seq<Fate>, asked: seq<Expectation>, front: seq<Event>, q: seq<Event>,
      flags: seq<Fate>)
    requires |arrived| == |fates| && |flags| == |q|
    requires Legal(arrived, fates, asked) && Select(arrived, fates) == front + q && Legal(q, flags, asked)
    ensures Legal(arrived, Refine(fates, |front|, flags), asked)
    ensures Select(arrived, Refine(fates, |front|, flags)) == front + Select(q, flags)
    ensures AnsweredIds(Refine(fates, |front|, flags)) == AnsweredIds(fates) + AnsweredIds(flags)
  {
    hide Legal, Select, Refine, AnsweredIds;
    var kept := front + q;
    assert kept[|front|..] == q && kept[..|front|] == front;
    SelectRefined(arrived, fates, |front|, flags);
    RefinedIsLegal(arrived, fates, |front|, flags, asked);
    RefinedAnswers(arrived, fates, |front|, flags);
  }

  /** What a feed of the queue from a position on does to the accounts. */
  lemma SiftBalances(s: Session, t: Table, from: nat, flags: seq<Fate>)
    requires Balanced(s) && from + |flags| == |s.pending|
    requires Legal(s.pending[from..], flags, s.asked)
    ensures Balanced(Sift(s, t, from, flags))
    ensures AnsweredIds(Sift(s, t, from, flags).fates) == AnsweredIds(s.fates) + AnsweredIds(flags)
  {
    hide Legal, Select, Refine, AnsweredIds;
    var head, tail := s.pending[..from], s.pending[from..];
    Associate(s.delivered, head, tail);
    assert head + tail == s.pending;
    RefineBalances(s.arrived, s.fates, s.asked, s.delivered + head, tail, flags);
    Associate(s.delivered, head, Select(tail, flags));
  }

  /** Answering ids that waited progresses. */
  lemma AnsweringProgresses(s: Session, s': Session, flags: seq<Fate>)
    requires s'.asked == s.asked && s'.inputs == s.inputs && s'.arrived == s.arrived && s'.delivered == s.delivered
    requires Narrows(s.table, s'.table)
    requires AnsweredIds(s'.fates) == AnsweredIds(s.fates) + AnsweredIds(flags)
    requires forall k: nat :: AnsweredIds(flags)[k] > 0 ==> Waiting(s.table, k)
    ensures Progresses(s, s')
  {
    hide Waiting, AnsweredIds, Narrows;
    forall k: nat ensures Waiting(s'.table, k) ==> Waiting(s.table, k) { NarrowsAt(s.table, s'.table, k); }
  }

  lemma SiftKeeps(s: Session, t: Table, from: nat, flags: seq<Fate>, limit: nat, tables: Tables)
    requires Conserved(s, limit, tables) && from + |flags| == |s.pending|
    requires Feeds(s.table, t, s.pending[from..], flags, s.asked)
    ensures Keeps(s, Sift(s, t, from, flags), limit, tables)
  {
    hide Reachable, DecodeInputs, Balanced, LosesExactly, Tallied, AnsweredIds, Progresses, Legal, Refine, Select,
      Narrows, Waiting;
    var s' := Sift(s, t, from, flags);
    SiftBalances(s, t, from, flags);
    RefinedLosesExactly(s.inputs, s.fates, |s.delivered| + from, flags, limit, tables);
    AnsweredTally(s.table, t, s.asked, AnsweredIds(s.fates), AnsweredIds(flags));
    AnsweringProgresses(s, s', flags);
  }

  lemma DeliverKeeps(s: Session, limit: nat, tables: Tables)
    requires Conserved(s, limit, tables) && s.pending != []
    ensures Keeps(s, Deliver(s), limit, tables)
  {
    hide Reachable, DecodeInputs, Legal, LosesExactly, Tallied, AnsweredIds, Progresses, Refine, Select, Skipped,
      SkipFront;
    var q, s' := s.pending, Deliver(s);
    SkipFrontIsLegal(q, s.asked);
    assert q[Skipped(q)..] == [Taken(q).value] + Left(q);
    RefineBalances(s.arrived, s.fates, s.asked, s.delivered, q, SkipFront(q));
    Associate(s.delivered, [Taken(q).value], Left(q));
    RefinedLosesExactly(s.inputs, s.fates, |s.delivered|, SkipFront(q), limit, tables);
    QuietlyProgresses(s, s');
  }

  // ----- The lone-ESC flush -----

  lemma FlushLeavesGround(d: DecoderState, limit: nat, tables: Tables)
    requires d.parser.Valid()
    ensures Flush(d, limit, tables).state.parser == Ground
  {
  }

  /** The fates of a flush: its first event is delivered, its replacement discarded. */
  function EscapeFates(n: nat, input: nat): (fates: seq<Fate>)
    requires n > 0
    ensures |fates| == n && fates[0] == Kept && forall i :: 1 <= i < n ==> fates[i] == Lost(input)
  {
    [Kept] + seq(n - 1, _ => Lost(input))
  }

  lemma EscapeFatesAre(events: seq<Event>, input: nat, half: Option<nat>, asked: seq<Expectation>)
    requires events != [] && events[1..] == Orphan(half)
    ensures var fates := EscapeFates(|events|, input);
      && Legal(events, fates, asked) && Select(events, fates) == [events[0]]
      && AnsweredIds(fates) == multiset{}
      && |events| == if half.Some? then 2 else 1
  {
    hide Replies, HasResize;
    var fates := EscapeFates(|events|, input);
    var rest := fates[1..];
    if half.Some? {
      assert events[1..][1..] == [] && rest == [Lost(input)] && rest[1..] == [];
      assert Legal(events[1..], rest, asked);
      assert Select(events[1..], rest) == [];
      assert AnsweredIds(rest) == multiset{};
    } else {
      assert rest == [];
    }
  }

  /** The discarded event of a flush is the last it gave, and there is one exactly when a surrogate was
      held. */
  lemma FlushLosesExactly(inputs: seq<Input>, fates: seq<Fate>, n: nat, limit: nat, tables: Tables)
    requires LosesExactly(inputs, fates, limit, tables)
    requires n == (if DecodeInputs(inputs, limit, tables).state.mapping.half.Some? then 2 else 1)
    requires |fates| + n == |DecodeInputs(inputs + [EscapeDeadline], limit, tables).events|
    ensures LosesExactly(inputs + [EscapeDeadline], fates + EscapeFates(n, |inputs|), limit, tables)
  {
    hide DecodeInputs, Loses;
    var longer, more := inputs + [EscapeDeadline], fates + EscapeFates(n, |inputs|);
    forall i: nat, k: nat | i < |more|
      ensures more[i] == Lost(k) <==> Loses(longer, k, i, limit, tables)
    {
      LosesOneMore(inputs, EscapeDeadline, k, i, limit, tables);
      if i < |fates| { assert fates[i] == Lost(k) <==> Loses(inputs, k, i, limit, tables); }
    }
  }

  /** The flush keeps order because nothing is queued; it discards an event exactly when a surrogate
      is held. */
  lemma FlushEscapeKeeps(s: Session, limit: nat, tables: Tables)
    requires Conserved(s, limit, tables) && s.pending == []
    requires s.decoder.parser.Valid() && HasPendingLoneEscape(s.decoder.parser)
    ensures var (s', e) := FlushEscape(s, limit, tables);
      && e.Some? && Keeps(s, s', limit, tables)
      && s'.fates == s.fates + EscapeFates(if s.decoder.mapping.half.Some? then 2 else 1, |s.inputs|)
  {
    hide Reachable, DecodeInputs, Flush, HasPendingLoneEscape, Legal, LosesExactly, Tallied, AnsweredIds, Progresses,
      Select, EscapeFates;
    var s' := FlushEscape(s, limit, tables).0;
    var events := Flush(s.decoder, limit, tables).events;
    FlushOfLoneEscape(s.decoder, limit, tables);
    DecodeOneMore(s.inputs, EscapeDeadline, limit, tables);
    FlushLeavesGround(s.decoder, limit, tables);
    GroundIsReachable(limit);
    var fates := EscapeFates(|events|, |s.inputs|);
    EscapeFatesAre(events, |s.inputs|, s.decoder.mapping.half, s.asked);
    LegalAppend(s.arrived, s.fates, events, fates, s.asked);
    SelectAppend(s.arrived, s.fates, events, fates);
    AnsweredIdsAppend(s.fates, fates);
    FlushedFates(s, |events|);
    assert s'.fates == s.fates + fates;
    LosesLength(s, limit, tables);
    FlushLosesExactly(s.inputs, s.fates, |events|, limit, tables);
    assert s.delivered + [] == s.delivered && s'.delivered + [] == s'.delivered;
    QuietlyProgresses(s, s');
  }

  lemma FlushedFates(s: Session, n: nat)
    requires n > 0
    ensures s.fates + [Kept] + seq(n - 1, _ => Lost(|s.inputs|)) == s.fates + EscapeFates(n, |s.inputs|)
  {
    var lost := seq(n - 1, _ => Lost(|s.inputs|));
    assert s.fates + [Kept] + lost == s.fates + ([Kept] + lost);
  }

  // ----- Registrations -----

  /** Giving up registrations, or the note of which are active. */
  lemma ReleasingKeeps(s: Session, s': Session, limit: nat, tables: Tables)
    requires Conserved(s, limit, tables) && Narrows(s.table, s'.table)
    requires s' == s.(table := s'.table, activeQuery := s'.activeQuery, activeProbe := s'.activeProbe)
    ensures Keeps(s, s', limit, tables)
  {
    hide Reachable, DecodeInputs, Legal, LosesExactly, Tallied, AnsweredIds, Progresses, Select, Narrows;
    NarrowedTally(s.table, s'.table, s.asked, AnsweredIds(s.fates));
    NoAnswers();
    assert AnsweredIds(s.fates) == AnsweredIds(s.fates) + AnsweredIds([]);
    AnsweringProgresses(s, s', []);
  }

  lemma NoAnswers()
    ensures AnsweredIds([]) == multiset{}
  {
  }

  /** Registering, with the expectations of the ids minted. */
  lemma RegisteringKeeps(s: Session, s': Session, limit: nat, tables: Tables)
    requires Conserved(s, limit, tables) && Widens(s.table, s'.table)
    requires s' ==
      s.(table := s'.table, activeQuery := s'.activeQuery, activeProbe := s'.activeProbe, asked := s'.asked)
    requires s'.asked == s.asked + Minted(s'.table, |s.asked|)
    ensures Keeps(s, s', limit, tables)
  {
    hide Reachable, DecodeInputs, Legal, LosesExactly, AnsweredIds, Select, Widens, Minted, Progresses, Tallied;
    WidenedTally(s.table, s'.table, s.asked, AnsweredIds(s.fates));
    LegalWhenAskedMore(s.arrived, s.fates, s.asked, Minted(s'.table, |s.asked|));
    AskingProgresses(s, s');
  }

  lemma AskingProgresses(s: Session, s': Session)
    requires Widens(s.table, s'.table) && Tallied(s.table, s.asked, AnsweredIds(s.fates))
    requires s' ==
      s.(table := s'.table, activeQuery := s'.activeQuery, activeProbe := s'.activeProbe, asked := s'.asked)
    requires s.asked <= s'.asked
    ensures Progresses(s, s')
  {
    hide SlotFor, Valid, AnsweredIds;
  }

  // ----- The operations -----

  /** Delivering keeps the accounts, reads what its script offers until it ends, and delivers exactly the event it ends
      with. */
  lemma {:induction false} NextKeeps(s: Session, esc: bool, script: seq<Awaited>, limit: nat, tables: Tables)
    requires Conserved(s, limit, tables) && s.decoder.parser.Valid()
    ensures var (s', end) := Next(s, esc, script, limit, tables);
      && Keeps(s, s', limit, tables) && s'.asked == s.asked
      && s'.delivered == s.delivered + (if end.Finished? then [end.value] else [])
      && s'.inputs == s.inputs + NextInputs(script[..NextUses(s, esc, script, limit, tables)], end)
    decreases |script|
  {
    hide Conserved, Keeps, BufferFlags, ReadOnce, Flush, HasPendingLoneEscape, Feeds, Refine, Select, Skipped,
      SkipFront;
    hide NextUses, NextInputs;
    var s' := Next(s, esc, script, limit, tables).0;
    ConservedIsValid(s, limit, tables);
    NextReads(s, esc, script, limit, tables);
    KeepsSelf(s, limit, tables);
    assert s.delivered + [] == s.delivered;
    if s.pending != [] {
      DeliverKeeps(s, limit, tables);
    } else if script != [] {
      match script[0]
      case Failed =>
      case Dropped =>
      case Elapsed =>
        if esc && HasPendingLoneEscape(s.decoder.parser) {
          FlushEscapeKeeps(s, limit, tables);
        } else {
          NextKeeps(s, esc, script[1..], limit, tables);
        }
      case Arrived(read) =>
        if read.bytes != [] {
          var received := Receive(s, read, limit, tables);
          var (t, flags) := BufferFlags(s.table, received.pending);
          ReceiveKeeps(s, read, limit, tables);
          KeptIsConserved(s, received, limit, tables);
          ConservedIsValid(received, limit, tables);
          BufferFeeds(received.table, received.pending, received.asked);
          assert received.pending[0..] == received.pending;
          var sifted := Sift(received, t, 0, flags);
          SiftKeeps(received, t, 0, flags, limit, tables);
          KeptIsConserved(received, sifted, limit, tables);
          NextKeeps(sifted, esc, script[1..], limit, tables);
          KeepsThen(s, received, sifted, limit, tables);
          KeepsThen(s, sifted, s', limit, tables);
        }
    }
  }

  lemma KeptIsConserved(s: Session, s': Session, limit: nat, tables: Tables)
    requires Keeps(s, s', limit, tables)
    ensures Conserved(s', limit, tables)
  {
  }

  lemma SeekKeeps(s: Session, id: nat, from: nat, limit: nat, tables: Tables)
    requires Conserved(s, limit, tables) && from <= |s.pending|
    ensures var s' := Seek(s, id, from).0;
      && Keeps(s, s', limit, tables) && Conserved(s', limit, tables)
      && s'.asked == s.asked && s'.delivered == s.delivered
  {
    hide Conserved, Progresses, Feeds, Refine, Select, SeekFlags;
    var found := SeekFlags(s.table, id, s.pending[from..]);
    ConservedIsValid(s, limit, tables);
    SeekFeeds(s.table, id, s.pending[from..], s.asked);
    SiftKeeps(s, found.table, from, found.flags, limit, tables);
  }

  lemma GiveUpKeeps(s: Session, id: nat, limit: nat, tables: Tables)
    requires Conserved(s, limit, tables)
    ensures Keeps(s, GiveUp(s, id), limit, tables)
  {
    hide Conserved, Keeps, Resolve, Narrows;
    ConservedIsValid(s, limit, tables);
    ResolveNarrows(s.table, id);
    ReleasingKeeps(s, GiveUp(s, id), limit, tables);
  }

  lemma ForgettingQueryKeeps(s: Session, limit: nat, tables: Tables)
    requires Conserved(s, limit, tables)
    ensures Keeps(s, s.(activeQuery := None), limit, tables)
  {
    hide Conserved, Keeps, Narrows;
    ConservedIsValid(s, limit, tables);
    NarrowsSelf(s.table);
    ReleasingKeeps(s, s.(activeQuery := None), limit, tables);
  }

  lemma {:induction false} AwaitReplyKeeps(s: Session, id: nat, script: seq<Awaited>, limit: nat, tables: Tables)
    requires Conserved(s, limit, tables) && s.decoder.parser.Valid()
    ensures var s' := AwaitReply(s, id, script, limit, tables).0;
      Keeps(s, s', limit, tables) && s'.asked == s.asked && s'.delivered == s.delivered
    decreases |script|
  {
    hide Conserved, Keeps, Seek, Resolve, ReadOnce;
    var s' := AwaitReply(s, id, script, limit, tables).0;
    if script != [] && script[0].Arrived? && script[0].read.bytes != [] {
      var received := Receive(s, script[0].read, limit, tables);
      ReceiveKeeps(s, script[0].read, limit, tables);
      KeptIsConserved(s, received, limit, tables);
      var (sought, reply) := Seek(received, id, |s.pending|);
      SeekKeeps(received, id, |s.pending|, limit, tables);
      KeepsThen(s, received, sought, limit, tables);
      if reply.Some? {
        ForgettingQueryKeeps(sought, limit, tables);
      } else {
        ConservedIsValid(sought, limit, tables);
        AwaitReplyKeeps(sought, id, script[1..], limit, tables);
      }
      KeepsThen(s, sought, s', limit, tables);
    } else {
      KeepsSelf(s, limit, tables);
      GiveUpKeeps(s, id, limit, tables);
    }
  }

  /** Both sweeps give up registrations and nothing else. */
  lemma SweepsKeep(s: Session, limit: nat, tables: Tables)
    requires Conserved(s, limit, tables)
    ensures var swept := SweepProbe(SweepQuery(s));
      Keeps(s, swept, limit, tables) && Conserved(swept, limit, tables) && swept.asked == s.asked
  {
    hide Conserved, Resolve, ResolveEach, Narrows, Progresses;
    var once := SweepQuery(s);
    var swept := SweepProbe(once);
    ConservedIsValid(s, limit, tables);
    NarrowsSelf(s.table);
    if s.activeQuery.Some? { ResolveNarrows(s.table, s.activeQuery.value); }
    NarrowsIsValid(s.table, once.table);
    ResolveEachNarrows(once.table, s.activeProbe);
    NarrowsThen(s.table, once.table, swept.table);
    ReleasingKeeps(s, swept, limit, tables);
  }

  lemma BeginQueryKeeps(s: Session, x: Expectation, limit: nat, tables: Tables)
    requires Conserved(s, limit, tables)
    ensures var begun := BeginQuery(s, x).0;
      Keeps(s, begun, limit, tables) && Conserved(begun, limit, tables) && begun.delivered == s.delivered
  {
    hide Conserved, Register, ResolveEach, Resolve, Progresses, Widens, Minted;
    var swept := SweepProbe(SweepQuery(s));
    var begun := BeginQuery(s, x).0;
    SweepsKeep(s, limit, tables);
    ConservedIsValid(swept, limit, tables);
    RegisterWidens(swept.table, x);
    RegisteringKeeps(swept, begun, limit, tables);
    KeepsThen(s, swept, begun, limit, tables);
  }

  /** A query keeps the accounts, reads what its script offers until it ends, and delivers nothing; it asks once. */
  lemma QueryKeeps(s: Session, x: Expectation, request: Request, script: seq<Awaited>, limit: nat, tables: Tables)
    requires Conserved(s, limit, tables) && s.decoder.parser.Valid()
    ensures var (begun, s') := (BeginQuery(s, x).0, Query(s, x, request, script, limit, tables).0);
      && Keeps(s, s', limit, tables) && Keeps(begun, s', limit, tables) && Conserved(begun, limit, tables)
      && s'.delivered == s.delivered && s'.asked == begun.asked
      && s'.inputs == s.inputs + ReadsOf(script[..QueryUses(s, x, request, script, limit, tables)])
  {
    hide Conserved, Keeps, Seek, AwaitReply, BeginQuery, ReadsOf, QueryUses;
    QueryReads(s, x, request, script, limit, tables);
    var (begun, id) := BeginQuery(s, x);
    var s' := Query(s, x, request, script, limit, tables).0;
    BeginQueryKeeps(s, x, limit, tables);
    KeepsSelf(begun, limit, tables);
    if request == Written {
      var (sought, reply) := Seek(begun, id, 0);
      SeekKeeps(begun, id, 0, limit, tables);
      if reply.Some? {
        ForgettingQueryKeeps(sought, limit, tables);
      } else {
        ConservedIsValid(sought, limit, tables);
        AwaitReplyKeeps(sought, id, script, limit, tables);
      }
      KeepsThen(begun, sought, s', limit, tables);
    }
    KeepsThen(s, begun, s', limit, tables);
  }

  lemma GatherKeeps(s: Session, b: Bundle, caps: Capabilities, from: nat, limit: nat, tables: Tables)
    requires Conserved(s, limit, tables) && from <= |s.pending| && Valid(s.table)
    ensures var s' := Gather(s, b, caps, from).session;
      && Keeps(s, s', limit, tables) && Conserved(s', limit, tables)
      && s'.asked == s.asked && s'.delivered == s.delivered
  {
    hide Conserved, Progresses, Feeds, Refine, Select, FeedBatch, Valid;
    var r := FeedBatch(s.table, b, s.pending[from..], caps);
    ConservedIsValid(s, limit, tables);
    BatchFeeds(s.table, b, s.pending[from..], caps, s.asked);
    SiftKeeps(s, r.table, from, r.flags, limit, tables);
  }

  lemma FinishProbeKeeps(s: Session, b: Bundle, limit: nat, tables: Tables)
    requires Conserved(s, limit, tables)
    ensures Keeps(s, FinishProbe(s, b), limit, tables)
  {
    hide Conserved, Keeps, ResolveEach, Narrows;
    ConservedIsValid(s, limit, tables);
    ResolveEachNarrows(s.table, b.Ids());
    ReleasingKeeps(s, FinishProbe(s, b), limit, tables);
  }

  lemma {:induction false} AwaitFenceKeeps(
      s: Session, b: Bundle, caps: Capabilities, script: seq<Awaited>, limit: nat, tables: Tables)
    requires Conserved(s, limit, tables) && s.decoder.parser.Valid() && Valid(s.table)
    ensures var s' := AwaitFence(s, b, caps, script, limit, tables).0;
      Keeps(s, s', limit, tables) && s'.asked == s.asked && s'.delivered == s.delivered
    decreases |script|
  {
    hide Conserved, Keeps, Gather, ReadOnce, ResolveEach, Valid;
    var s' := AwaitFence(s, b, caps, script, limit, tables).0;
    if script != [] && script[0].Arrived? && script[0].read.bytes != [] {
      var received := Receive(s, script[0].read, limit, tables);
      ReceiveKeeps(s, script[0].read, limit, tables);
      KeptIsConserved(s, received, limit, tables);
      var g := Gather(received, b, caps, |s.pending|);
      GatherKeeps(received, b, caps, |s.pending|, limit, tables);
      KeepsThen(s, received, g.session, limit, tables);
      if g.fenced {
        FinishProbeKeeps(g.session, b, limit, tables);
      } else {
        ConservedIsValid(g.session, limit, tables);
        AwaitFenceKeeps(g.session, b, g.caps, script[1..], limit, tables);
      }
      KeepsThen(s, g.session, s', limit, tables);
    } else {
      KeepsSelf(s, limit, tables);
      FinishProbeKeeps(s, b, limit, tables);
    }
  }

  lemma BeginProbeKeeps(s: Session, limit: nat, tables: Tables)
    requires Conserved(s, limit, tables)
    ensures var begun := BeginProbe(s).0;
      Keeps(s, begun, limit, tables) && Conserved(begun, limit, tables) && begun.delivered == s.delivered
  {
    hide Conserved, RegisterBundle, RegisterEach, ResolveEach, Resolve, Progresses, Widens, Minted, BundleOf, Valid;
    var swept := SweepProbe(SweepQuery(s));
    var begun := BeginProbe(s).0;
    SweepsKeep(s, limit, tables);
    ConservedIsValid(swept, limit, tables);
    BundleIsEach(swept.table);
    RegisterEachWidens(swept.table, ASKED);
    RegisteringKeeps(swept, begun, limit, tables);
    KeepsThen(s, swept, begun, limit, tables);
  }

  /** A probe keeps the accounts and delivers nothing; it asks for its bundle once. */
  lemma ProbeKeeps(
      s: Session, seed: Capabilities, request: Request, script: seq<Awaited>, limit: nat, tables: Tables)
    requires Conserved(s, limit, tables) && s.decoder.parser.Valid() && Valid(BeginProbe(s).0.table)
    ensures var (begun, s') := (BeginProbe(s).0, ProbeCapabilities(s, seed, request, script, limit, tables).0);
      && Keeps(s, s', limit, tables) && Keeps(begun, s', limit, tables) && Conserved(begun, limit, tables)
      && s'.delivered == s.delivered && s'.asked == begun.asked
      && s'.inputs == s.inputs + ReadsOf(script[..ProbeUses(s, seed, request, script, limit, tables)])
  {
    hide Conserved, Keeps, Gather, AwaitFence, BeginProbe, FinishProbe, Valid, ReadsOf, ProbeUses;
    ProbeReads(s, seed, request, script, limit, tables);
    var (begun, b) := BeginProbe(s);
    var s' := ProbeCapabilities(s, seed, request, script, limit, tables).0;
    BeginProbeKeeps(s, limit, tables);
    ConservedIsValid(begun, limit, tables);
    KeepsSelf(begun, limit, tables);
    if request == Written {
      var g := Gather(begun, b, seed, 0);
      GatherKeeps(begun, b, seed, 0, limit, tables);
      ConservedIsValid(g.session, limit, tables);
      if g.fenced {
        FinishProbeKeeps(g.session, b, limit, tables);
        FinishKeepsHistory(g.session, b);
      } else {
        AwaitFenceKeeps(g.session, b, g.caps, script, limit, tables);
      }
      KeepsThen(begun, g.session, s', limit, tables);
    }
    KeepsThen(s, begun, s', limit, tables);
  }

  lemma FinishKeepsHistory(s: Session, b: Bundle)
    ensures var s' := FinishProbe(s, b);
      s'.asked == s.asked && s'.delivered == s.delivered && s'.fates == s.fates && s'.arrived == s.arrived
  {
  }
}
