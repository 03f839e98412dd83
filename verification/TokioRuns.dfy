/** Registrations and answers of the asynchronous session over whole runs, cancellations included. */
module TokioRuns {
  import opened Bytes
  import opened Events
  import opened Decoder
  import opened DrainBoundary
  import opened Correlate
  import opened CorrelatorTable
  import opened CorrelatorRuns
  import opened Answers
  import opened Tallies
  import opened EventFates
  import opened Probe
  import opened Gathering
  import opened TokioSession
  import opened TokioConservation

  // ----- The sweep invariant -----

  predicate Owns(s: Session, k: nat) { s.activeQuery == Some(k) || k in s.activeProbe }

  /** Every slot belongs to the active query or the active probe and has one waiter. */
  ghost predicate Owned(s: Session) {
    && Valid(s.table)
    && forall k: nat :: SlotFor(s.table, k).Some? ==> Owns(s, k) && SlotFor(s.table, k).value.outstanding == 1
  }

  lemma NewIsOwned()
    ensures Owned(NEW_SESSION)
  {
  }

  /** After both sweeps nothing is registered. */
  lemma SweepsEmpty(s: Session)
    requires Owned(s)
    ensures var swept := SweepProbe(SweepQuery(s));
      swept.table.slots == [] && swept.activeQuery == None && swept.activeProbe == [] && swept.pending == s.pending
  {
    hide SlotFor, Valid, Resolve, ResolveEach;
    var once := SweepQuery(s);
    var swept := SweepProbe(once);
    forall k: nat ensures Valid(once.table) && Valid(swept.table) && SlotFor(swept.table, k) == None {
      if s.activeQuery.Some? { ResolveSlotFor(s.table, s.activeQuery.value, k); }
      ResolveEachFrees(once.table, s.activeProbe, k);
    }
    assert Valid(swept.table) by { SweptIsValid(s); }
    NoSlots(swept.table);
  }

  lemma SweptIsValid(s: Session)
    requires Owned(s)
    ensures Valid(SweepProbe(SweepQuery(s)).table)
  {
    hide SlotFor, Valid, Resolve, ResolveEach;
    var n := s.table.nextId;
    var once := SweepQuery(s);
    if s.activeQuery.Some? { ResolveSlotFor(s.table, s.activeQuery.value, n); }
    ResolveEachFrees(once.table, s.activeProbe, n);
  }

  /** So a query always mints an id of its own, and neither registration can meet a conflict. */
  lemma QueryMintsFresh(s: Session, x: Expectation)
    requires Owned(s)
    ensures var (begun, id) := BeginQuery(s, x);
      && begun.table == Table([Slot(id, x, 1, None)], id + 1)
      && begun.activeQuery == Some(id) && begun.activeProbe == [] && begun.pending == s.pending
      && Owned(begun) && SlotFor(begun.table, id) == Some(Slot(id, x, 1, None))
  {
    hide SweepProbe, SweepQuery, Register, Owned;
    SweepsEmpty(s);
    RegisterOnEmpty(SweepProbe(SweepQuery(s)).table, x);
    OneSlotIsOwned(BeginQuery(s, x).0, BeginQuery(s, x).1, x);
  }

  lemma RegisterOnEmpty(t: Table, x: Expectation)
    requires t.slots == []
    ensures var (u, id) := Register(t, x); id == t.nextId && u == Table([Slot(id, x, 1, None)], id + 1)
  {
  }

  lemma OneSlotIsOwned(s: Session, id: nat, x: Expectation)
    requires s.table == Table([Slot(id, x, 1, None)], id + 1) && s.activeQuery == Some(id)
    ensures Owned(s) && SlotFor(s.table, id) == Some(Slot(id, x, 1, None))
  {
  }

  lemma ProbeMintsFresh(s: Session)
    requires Owned(s)
    ensures var (begun, b) := BeginProbe(s);
      var n := SweepProbe(SweepQuery(s)).table.nextId;
      && begun.table == AskedTable(n, |ASKED|) && b == BundleAt(n) == BundleOf(FreshIds(n))
      && begun.activeProbe == b.Ids() && begun.activeQuery == None && begun.pending == s.pending
      && AllWait(begun.table, FreshIds(n)) && Valid(begun.table) && Owned(begun)
  {
    hide SweepProbe, SweepQuery, RegisterBundle, AskedTable, ASKED, Started, Owned;
    SweepsEmpty(s);
    FenceIsAsked();
    var swept := SweepProbe(SweepQuery(s)).table;
    RegisterBundleOnEmpty(swept);
    var ids := BeginProbe(s).1.Ids();
    assert [] + ids == ids;
    AskedTableWaits(swept.nextId);
    BundleOfFreshIds(swept.nextId);
    StartedLength(BeginProbe(s).0.table, FreshIds(swept.nextId));
    WaitingBundleIsOwned(BeginProbe(s).0, FreshIds(swept.nextId));
  }

  lemma BegunIsValid(s: Session)
    requires Owned(s)
    ensures Valid(BeginProbe(s).0.table)
  {
    hide Owned, BeginProbe, Valid, AllWait, AskedTable, BundleAt, BundleOf, SweepProbe, SweepQuery;
    ProbeMintsFresh(s);
  }

  lemma WaitingBundleIsOwned(s: Session, ids: seq<nat>)
    requires AllWait(s.table, ids) && |ids| == 12 && s.activeProbe == BundleOf(ids).Ids()
    ensures Owned(s)
  {
    hide ASKED, SlotFor, Valid, BundleOf;
    BundleIdsAreDistinct(s.table, ids);
    forall k: nat | SlotFor(s.table, k).Some?
      ensures Owns(s, k) && SlotFor(s.table, k).value.outstanding == 1
    {
      var i :| 0 <= i < |ids| && ids[i] == k;
    }
  }

  // ----- Feeding keeps it -----

  ghost predicate SingleWaiters(t: Table) {
    Valid(t) && forall k: nat :: SlotFor(t, k).Some? ==> SlotFor(t, k).value.outstanding == 1
  }

  lemma {:induction false} BufferNarrows(t: Table, events: seq<Event>)
    requires Valid(t)
    ensures Narrows(t, BufferFlags(t, events).0)
    decreases |events|
  {
    hide Narrows, Valid, FeedEvent;
    NarrowsSelf(t);
    if events != [] {
      var fed := FeedEvent(t, events[0]).0;
      EventNarrows(t, events[0]);
      NarrowsIsValid(t, fed);
      BufferNarrows(fed, events[1..]);
      NarrowsThen(t, fed, BufferFlags(t, events).0);
    }
  }

  lemma OwnedAfter(s: Session, s': Session)
    requires Owned(s) && Narrows(s.table, s'.table)
    requires s'.activeQuery == s.activeQuery && s'.activeProbe == s.activeProbe
    ensures Owned(s')
  {
    hide SlotFor, Valid;
    forall k: nat ensures SlotFor(s'.table, k).Some? ==> SlotFor(s'.table, k).value.outstanding == 1 {
      SlotHasWaiter(s'.table, k);
    }
  }

  lemma {:induction false} NextKeepsOwned(s: Session, esc: bool, script: seq<Awaited>, limit: nat, tables: Tables)
    requires s.decoder.parser.Valid() && Owned(s)
    ensures Owned(Next(s, esc, script, limit, tables).0)
    decreases |script|
  {
    hide Owned, Receive, FlushEscape, HasPendingLoneEscape, BufferFlags, Refine, SkipFront;
    if s.pending != [] {
      SameRegistrations(s, Deliver(s));
    } else if script != [] {
      match script[0]
      case Failed =>
      case Dropped =>
      case Elapsed =>
        if esc && HasPendingLoneEscape(s.decoder.parser) {
          var (flushed, event) := FlushEscape(s, limit, tables);
          FlushKeepsRegistrations(s, limit, tables);
          SameRegistrations(s, flushed);
          if event.None? { NextKeepsOwned(flushed, esc, script[1..], limit, tables); }
        } else {
          NextKeepsOwned(s, esc, script[1..], limit, tables);
        }
      case Arrived(read) =>
        if read.bytes != [] {
          var received := Receive(s, read, limit, tables);
          ReceiveKeepsRegistrations(s, read, limit, tables);
          var (t, flags) := BufferFlags(s.table, received.pending);
          OwnedIsValid(s);
          BufferNarrows(s.table, received.pending);
          OwnedAfter(s, Sift(received, t, 0, flags));
          NextKeepsOwned(Sift(received, t, 0, flags), esc, script[1..], limit, tables);
        }
    }
  }

  lemma OwnedIsValid(s: Session)
    requires Owned(s)
    ensures Valid(s.table)
  {
  }

  lemma SameRegistrations(s: Session, s': Session)
    requires Owned(s)
    requires s'.table == s.table && s'.activeQuery == s.activeQuery && s'.activeProbe == s.activeProbe
    ensures Owned(s')
  {
  }

  lemma FlushKeepsRegistrations(s: Session, limit: nat, tables: Tables)
    requires s.decoder.parser.Valid()
    ensures var s' := FlushEscape(s, limit, tables).0;
      s'.table == s.table && s'.activeQuery == s.activeQuery && s'.activeProbe == s.activeProbe
  {
  }

  lemma ReceiveKeepsRegistrations(s: Session, read: Read, limit: nat, tables: Tables)
    requires s.decoder.parser.Valid()
    ensures var r := Receive(s, read, limit, tables);
      && r.table == s.table && r.activeQuery == s.activeQuery && r.activeProbe == s.activeProbe
      && r.delivered == s.delivered
      && r.decoder == ReadOnce(s.decoder, read, limit, tables).state
      && r.arrived == s.arrived + ReadOnce(s.decoder, read, limit, tables).events
      && r.pending == s.pending + ReadOnce(s.decoder, read, limit, tables).events
  {
  }

  // ----- A query takes the first event that answers it -----

  lemma TakeFrees(t: Table, id: nat)
    requires SingleWaiters(t) && SlotFor(t, id).Some? && SlotFor(t, id).value.reply.Some?
    ensures SlotFor(TakeReply(t, id).0, id) == None
    ensures TakeReply(t, id).1 == SlotFor(t, id).value.reply
  {
    hide Find, Release;
    var n := Find(t.slots, id);
    ReleaseOne(t, n, id);
  }

  lemma SingleAfter(t: Table, u: Table)
    requires SingleWaiters(t) && Narrows(t, u)
    ensures SingleWaiters(u)
  {
    hide SlotFor, Valid;
    forall k: nat ensures SlotFor(u, k).Some? ==> SlotFor(u, k).value.outstanding > 0 { SlotHasWaiter(u, k); }
  }

  /** Position `i` holds the answer to `id`, and nothing before it answers the same expectation. */
  ghost predicate AnswersAt(
      events: seq<Event>, flags: seq<Fate>, id: nat, x: Expectation, reply: Reply, i: nat)
  {
    && i < |events| == |flags|
    && flags[i] == Answered(id, reply) && Match(x, events[i]) == Some(reply)
    && FirstMatch(x, events[..i]) == None
  }

  /** Seeking a waiting id takes the first event that answers its expectation, or leaves it waiting. */
  lemma {:induction false} SeekFindsFirst(t: Table, id: nat, x: Expectation, events: seq<Event>)
    requires SingleWaiters(t) && SlotFor(t, id) == Some(Slot(id, x, 1, None))
    ensures var r := SeekFlags(t, id, events);
      && r.reply == FirstMatch(x, events)
      && Narrows(t, r.table)
      && SlotFor(r.table, id) == (if r.reply.Some? then None else Some(Slot(id, x, 1, None)))
      && (r.reply.Some? ==> exists i: nat :: AnswersAt(events, r.flags, id, x, r.reply.value, i))
    decreases |events|
  {
    hide SlotFor, Valid, FeedEvent, TakeReply, Match, AllKept, FirstMatch, Narrows, AnswersAt;
    NarrowsSelf(t);
    if events == [] {
      NothingMatches(x);
    } else {
      var (fed, r) := FeedEvent(t, events[0]);
      EventNarrows(t, events[0]);
      FeedSlotFor(t, events[0], id);
      SingleAfter(t, fed);
      FirstMatchHead(x, events);
      if r.Completed? && r.id == id {
        TakeFrees(fed, id);
        TakeNarrows(fed, id);
        NarrowsThen(t, fed, TakeReply(fed, id).0);
        AnswersHere(events, id, x, r.reply);
      } else {
        SeekFindsFirst(fed, id, x, events[1..]);
        var more := SeekFlags(fed, id, events[1..]);
        NarrowsThen(t, fed, more.table);
        if more.reply.Some? {
          var i: nat :| AnswersAt(events[1..], more.flags, id, x, more.reply.value, i);
          AnswersLater(events, more.flags, id, x, more.reply.value, i, SeekFlags(t, id, events).flags);
        }
      }
    }
  }

  lemma FirstMatchHead(x: Expectation, events: seq<Event>)
    requires events != []
    ensures FirstMatch(x, events) ==
      if Match(x, events[0]).Some? then Match(x, events[0]) else FirstMatch(x, events[1..])
  {
    hide Match;
  }

  lemma AnswersHere(events: seq<Event>, id: nat, x: Expectation, reply: Reply)
    requires events != [] && Match(x, events[0]) == Some(reply)
    ensures AnswersAt(events, [Answered(id, reply)] + AllKept(|events| - 1), id, x, reply, 0)
  {
    hide Match;
    assert events[..0] == [];
  }

  lemma AnswersLater(
      events: seq<Event>, flags: seq<Fate>, id: nat, x: Expectation, reply: Reply, i: nat, all: seq<Fate>)
    requires events != [] && AnswersAt(events[1..], flags, id, x, reply, i) && Match(x, events[0]) == None
    requires |all| == |events| && all[1..] == flags
    ensures AnswersAt(events, all, id, x, reply, i + 1)
  {
    hide Match;
    assert events[..i + 1][1..] == events[1..][..i];
    assert all[i + 1] == all[1..][i];
  }

  /** The query alone is registered, and still waits. */
  ghost predicate Waits(s: Session, id: nat, x: Expectation) {
    && s.activeQuery == Some(id) && s.activeProbe == []
    && SingleWaiters(s.table) && SlotFor(s.table, id) == Some(Slot(id, x, 1, None))
    && forall k: nat :: k != id ==> SlotFor(s.table, k) == None
  }

  lemma SeekSteps(s: Session, id: nat, x: Expectation, from: nat)
    requires Waits(s, id, x) && from <= |s.pending|
    ensures var (s', reply) := Seek(s, id, from);
      && reply == FirstMatch(x, s.pending[from..])
      && s'.arrived == s.arrived && s'.decoder == s.decoder
      && (reply.None? ==> Waits(s', id, x))
      && (reply.Some? ==> s'.table.slots == [] && s'.activeProbe == [])
  {
    hide SlotFor, Valid, FirstMatch, Narrows;
    SeekFindsFirst(s.table, id, x, s.pending[from..]);
    var t := SeekFlags(s.table, id, s.pending[from..]).table;
    SingleAfter(s.table, t);
    forall k: nat ensures SlotFor(t, k).Some? ==> SlotFor(s.table, k).Some? { NarrowsAt(s.table, t, k); }
    if Seek(s, id, from).1.Some? { NoSlots(t); }
  }

  lemma GivingUpEmpties(s: Session, id: nat, x: Expectation)
    requires Waits(s, id, x)
    ensures GiveUp(s, id).table.slots == []
  {
    hide SlotFor, Valid, Resolve;
    var t := Resolve(s.table, id).0;
    forall k: nat ensures Valid(t) && SlotFor(t, k) == None { ResolveSlotFor(s.table, id, k); }
    assert Valid(t) by { ResolveSlotFor(s.table, id, id); }
    NoSlots(t);
  }

  /** The query ended: with the first event that answered it, in which case, as after an error or a
      deadline, nothing is registered; or dropped, its id left for the next sweep. */
  ghost predicate QueryEnds(s': Session, end: Ended<Reply>, id: nat, x: Expectation, events: seq<Event>) {
    && (match FirstMatch(x, events)
        case None => !end.Finished?
        case Some(reply) => end == Finished(reply))
    && if end == Abandoned then Waits(s', id, x)
       else s'.table.slots == [] && s'.activeQuery == None && s'.activeProbe == []
  }

  lemma {:induction false} AwaitReplyEnds(
      s: Session, id: nat, x: Expectation, past: seq<Event>, script: seq<Awaited>, limit: nat, tables: Tables)
    requires s.decoder.parser.Valid() && Waits(s, id, x) && FirstMatch(x, past) == None
    ensures var (s', end) := AwaitReply(s, id, script, limit, tables);
      && s.arrived <= s'.arrived
      && QueryEnds(s', end, id, x, past + s'.arrived[|s.arrived|..])
    decreases |script|
  {
    hide Waits, Receive, Seek, FirstMatch, GiveUp, QueryEnds, ReadOnce;
    var (s', end) := AwaitReply(s, id, script, limit, tables);
    if script != [] && script[0].Arrived? && script[0].read.bytes != [] {
      var events := ReadForQuery(s, id, x, past, script[0].read, limit, tables);
      var (sought, reply) := Seek(Receive(s, script[0].read, limit, tables), id, |s.pending|);
      if reply.Some? {
        assert s'.arrived[|s.arrived|..] == events;
      } else {
        AwaitReplyEnds(sought, id, x, past + events, script[1..], limit, tables);
        assert s'.arrived[|s.arrived|..] == events + s'.arrived[|sought.arrived|..];
        assert (past + events) + s'.arrived[|sought.arrived|..] == past + (events + s'.arrived[|sought.arrived|..]);
      }
    } else {
      UnansweredEnds(s, id, x, past);
      GivingUpReadsNothing(s, id);
      assert s'.arrived[|s.arrived|..] == [] && past + [] == past;
    }
  }

  lemma GivingUpReadsNothing(s: Session, id: nat)
    ensures GiveUp(s, id).arrived == s.arrived
  {
  }

  /** Without a reply, a query ends dropped and still waiting, or given up. */
  lemma UnansweredEnds(s: Session, id: nat, x: Expectation, past: seq<Event>)
    requires Waits(s, id, x) && FirstMatch(x, past) == None
    ensures QueryEnds(s, Abandoned, id, x, past)
    ensures QueryEnds(GiveUp(s, id), DeviceFailed, id, x, past)
    ensures QueryEnds(GiveUp(s, id), TimedOut, id, x, past)
    ensures QueryEnds(GiveUp(s, id), Closed, id, x, past)
  {
    hide FirstMatch, SlotFor, Valid, Resolve;
    GivingUpEmpties(s, id, x);
  }

  /** One read of a waiting query. */
  lemma ReadForQuery(s: Session, id: nat, x: Expectation, past: seq<Event>, read: Read, limit: nat, tables: Tables)
    returns (events: seq<Event>)
    requires s.decoder.parser.Valid() && Waits(s, id, x) && FirstMatch(x, past) == None
    ensures |s.pending| <= |Receive(s, read, limit, tables).pending|
    ensures var (sought, reply) := Seek(Receive(s, read, limit, tables), id, |s.pending|);
      && sought.arrived == s.arrived + events
      && sought.decoder.parser.Valid()
      && events == ReadOnce(s.decoder, read, limit, tables).events
      && sought.decoder == ReadOnce(s.decoder, read, limit, tables).state
      && FirstMatch(x, past + events) == reply
      && (match reply
          case None => Waits(sought, id, x)
          case Some(r) => QueryEnds(sought.(activeQuery := None), Finished(r), id, x, past + events))
  {
    hide Waits, Receive, Seek, FirstMatch;
    var received := Receive(s, read, limit, tables);
    ReceiveKeepsRegistrations(s, read, limit, tables);
    events := ReadOnce(s.decoder, read, limit, tables).events;
    WaitsOnRegistrations(s, received, id, x);
    SeekSteps(received, id, x, |s.pending|);
    assert received.pending[|s.pending|..] == events;
    FirstMatchAppend(x, past, events);
  }

  lemma WaitsOnRegistrations(s: Session, s': Session, id: nat, x: Expectation)
    requires Waits(s, id, x)
    requires s'.table == s.table && s'.activeQuery == s.activeQuery && s'.activeProbe == s.activeProbe
    ensures Waits(s', id, x)
  {
  }

  lemma BegunWaits(s: Session, x: Expectation)
    requires Owned(s)
    ensures var (begun, id) := BeginQuery(s, x); Waits(begun, id, x)
  {
    hide SweepQuery, SweepProbe, Register;
    QueryMintsFresh(s, x);
  }

  /** From any state that cancellations could have left: a query whose request is written ends with
      the first event that answers it among those queued and those that arrived while it waited, and
      with no reply when there is none. */
  lemma QueryTakesFirstMatch(s: Session, x: Expectation, script: seq<Awaited>, limit: nat, tables: Tables)
    requires s.decoder.parser.Valid() && Owned(s)
    ensures var (s', end) := Query(s, x, Written, script, limit, tables);
      && s.arrived <= s'.arrived
      && QueryEnds(s', end, BeginQuery(s, x).1, x, s.pending + s'.arrived[|s.arrived|..])
      && Owned(s')
  {
    hide Waits, Seek, FirstMatch, Resolve, BeginQuery, AwaitReply, Owned;
    var (begun, id) := BeginQuery(s, x);
    BegunWaits(s, x);
    BeginKeepsHistory(s, x);
    SeekSteps(begun, id, x, 0);
    assert begun.pending[0..] == s.pending;
    var (sought, reply) := Seek(begun, id, 0);
    var (s', end) := Query(s, x, Written, script, limit, tables);
    if reply.Some? {
      assert s'.arrived[|s.arrived|..] == [];
      assert s.pending + [] == s.pending;
    } else {
      AwaitReplyEnds(sought, id, x, s.pending, script, limit, tables);
    }
    EndedIsOwned(s', end, id, x, s.pending + s'.arrived[|s.arrived|..]);
  }

  lemma BeginKeepsHistory(s: Session, x: Expectation)
    ensures var begun := BeginQuery(s, x).0;
      begun.arrived == s.arrived && begun.pending == s.pending && begun.decoder == s.decoder
  {
  }

  lemma EndedIsOwned(s: Session, end: Ended<Reply>, id: nat, x: Expectation, events: seq<Event>)
    requires QueryEnds(s, end, id, x, events)
    ensures Owned(s)
  {
    hide FirstMatch;
  }

  /** The reads a script begins with: those until it holds something else. */
  function LeadingReads(script: seq<Awaited>): seq<Read>
    decreases |script|
  {
    if script == [] || !script[0].Arrived? || script[0].read.bytes == [] then []
    else [script[0].read] + LeadingReads(script[1..])
  }

  lemma {:induction false} AwaitReplyTakesFirstRead(
      s: Session, id: nat, x: Expectation, script: seq<Awaited>, limit: nat, tables: Tables)
    requires s.decoder.parser.Valid() && Waits(s, id, x)
    ensures var end := AwaitReply(s, id, script, limit, tables).1;
      match FirstMatch(x, ReadAll(s.decoder, LeadingReads(script), limit, tables).events)
      case None => !end.Finished?
      case Some(reply) => end == Finished(reply)
    decreases |script|
  {
    hide Waits, Receive, Seek, FirstMatch, GiveUp, QueryEnds, ReadOnce;
    NothingMatches(x);
    if script != [] && script[0].Arrived? && script[0].read.bytes != [] {
      var read := script[0].read;
      var all := LeadingReads(script);
      assert all[0] == read && all[1..] == LeadingReads(script[1..]);
      var events := ReadForQuery(s, id, x, [], read, limit, tables);
      assert [] + events == events;
      var o := ReadOnce(s.decoder, read, limit, tables);
      FirstMatchAppend(x, o.events, ReadAll(o.state, all[1..], limit, tables).events);
      var (sought, reply) := Seek(Receive(s, read, limit, tables), id, |s.pending|);
      if reply.None? { AwaitReplyTakesFirstRead(sought, id, x, script[1..], limit, tables); }
    }
  }

  /** The same in terms of the input: a written query ends with the first event to match among those queued and all
      that its reads decode to, however they cut the input, and with no reply if and only if none matches. */
  lemma QueryTakesFirstRead(s: Session, x: Expectation, script: seq<Awaited>, limit: nat, tables: Tables)
    requires s.decoder.parser.Valid() && Owned(s)
    ensures var end := Query(s, x, Written, script, limit, tables).1;
      match FirstMatch(x, s.pending + ReadAll(s.decoder, LeadingReads(script), limit, tables).events)
      case None => !end.Finished?
      case Some(reply) => end == Finished(reply)
  {
    hide Waits, Seek, FirstMatch, BeginQuery, AwaitReply, Owned, ReadAll;
    var (begun, id) := BeginQuery(s, x);
    BegunWaits(s, x);
    BeginKeepsHistory(s, x);
    SeekSteps(begun, id, x, 0);
    assert begun.pending[0..] == s.pending;
    var (sought, reply) := Seek(begun, id, 0);
    FirstMatchAppend(x, s.pending, ReadAll(s.decoder, LeadingReads(script), limit, tables).events);
    if reply.None? { AwaitReplyTakesFirstRead(sought, id, x, script, limit, tables); }
  }

  /** A query whose request could not be written leaves its id for the next sweep. */
  lemma UnwrittenQueryIsOwned(
      s: Session, x: Expectation, request: Request, script: seq<Awaited>, limit: nat, tables: Tables)
    requires s.decoder.parser.Valid() && Owned(s) && request != Written
    ensures var (s', end) := Query(s, x, request, script, limit, tables); Owned(s') && !end.Finished?
  {
    hide BeginQuery;
    QueryMintsFresh(s, x);
  }

  // ----- What a query answers -----

  lemma WaitingIsUnanswered(s: Session, k: nat, limit: nat, tables: Tables)
    requires Conserved(s, limit, tables) && Waiting(s.table, k)
    ensures AnsweredIds(s.fates)[k] == 0
  {
    hide InStep, Balanced, LosesExactly, Waiting, AnsweredIds;
  }

  lemma SeekAnswers(s: Session, id: nat, x: Expectation, from: nat)
    requires Waits(s, id, x) && from <= |s.pending| && Balanced(s)
    ensures var (sought, reply) := Seek(s, id, from);
      reply.Some? ==> Answered(id, reply.value) in sought.fates
  {
    hide SlotFor, Valid, FirstMatch, Legal, Select, Refine, SeekFlags;
    var r := SeekFlags(s.table, id, s.pending[from..]);
    SeekFindsFirst(s.table, id, x, s.pending[from..]);
    if r.reply.Some? {
      var i: nat :| AnswersAt(s.pending[from..], r.flags, id, x, r.reply.value, i);
      FlagsAreRefined(s.arrived, s.fates, |s.delivered| + from, r.flags, r.flags[i]);
    }
  }

  lemma ConservedIsBalanced(s: Session, limit: nat, tables: Tables)
    requires Conserved(s, limit, tables)
    ensures Balanced(s)
  {
  }

  lemma WaitsIsWaiting(s: Session, id: nat, x: Expectation)
    requires Waits(s, id, x)
    ensures Waiting(s.table, id)
  {
    hide SlotFor, Valid;
  }

  /** A query that waits ends with its id answered by the reply it returns, or unanswered. */
  lemma {:induction false} AwaitReplyAnswers(
      s: Session, id: nat, x: Expectation, script: seq<Awaited>, limit: nat, tables: Tables)
    requires Conserved(s, limit, tables) && s.decoder.parser.Valid() && Waits(s, id, x)
    ensures var (s', end) := AwaitReply(s, id, script, limit, tables);
      if end.Finished? then Answered(id, end.value) in s'.fates else AnsweredIds(s'.fates)[id] == 0
    decreases |script|
  {
    hide Conserved, Waits, Receive, Seek, Keeps, Resolve, AnsweredIds, Balanced;
    WaitsIsWaiting(s, id, x);
    WaitingIsUnanswered(s, id, limit, tables);
    if script != [] && script[0].Arrived? && script[0].read.bytes != [] {
      var received := Receive(s, script[0].read, limit, tables);
      ReceiveKeeps(s, script[0].read, limit, tables);
      KeptIsConserved(s, received, limit, tables);
      ReceiveKeepsRegistrations(s, script[0].read, limit, tables);
      WaitsOnRegistrations(s, received, id, x);
      ConservedIsBalanced(received, limit, tables);
      SeekSteps(received, id, x, |s.pending|);
      SeekAnswers(received, id, x, |s.pending|);
      SeekKeeps(received, id, |s.pending|, limit, tables);
      var (sought, reply) := Seek(received, id, |s.pending|);
      if reply.None? { AwaitReplyAnswers(sought, id, x, script[1..], limit, tables); }
    }
  }

  /** A query mints one id for its expectation. It answers that id exactly when it finishes, with the
      reply it returns, and no other id. */
  lemma QueryAnswersItsOwn(
      s: Session, x: Expectation, request: Request, script: seq<Awaited>, limit: nat, tables: Tables)
    requires Conserved(s, limit, tables) && Owned(s) && s.decoder.parser.Valid()
    ensures var (s', end) := Query(s, x, request, script, limit, tables);
      && BeginQuery(s, x).1 == |s.asked| && s'.asked == s.asked + [x]
      && AnsweredIds(s'.fates) == AnsweredIds(s.fates) + (if end.Finished? then multiset{|s.asked|} else multiset{})
      && (end.Finished? ==> Answered(|s.asked|, end.value) in s'.fates)
  {
    hide Conserved, Owned, Waits, Seek, Keeps, BeginQuery, AwaitReply, AnsweredIds;
    var (begun, id) := BeginQuery(s, x);
    var (s', end) := Query(s, x, request, script, limit, tables);
    BegunWaits(s, x);
    BeginAsks(s, x, limit, tables);
    QueryKeeps(s, x, request, script, limit, tables);
    WaitsIsWaiting(begun, id, x);
    WaitingIsUnanswered(begun, id, limit, tables);
    if request == Written {
      ConservedIsBalanced(begun, limit, tables);
      SeekSteps(begun, id, x, 0);
      SeekAnswers(begun, id, x, 0);
      SeekKeeps(begun, id, 0, limit, tables);
      var (sought, reply) := Seek(begun, id, 0);
      if reply.None? {
        ConservedIsValid(sought, limit, tables);
        AwaitReplyAnswers(sought, id, x, script, limit, tables);
      }
    }
    OnlyWaitingIsAnswered(begun, s', id, x, end, limit, tables);
  }

  lemma BeginAsks(s: Session, x: Expectation, limit: nat, tables: Tables)
    requires Conserved(s, limit, tables) && Owned(s)
    ensures var (begun, id) := BeginQuery(s, x);
      id == |s.asked| && begun.asked == s.asked + [x] && begun.fates == s.fates
  {
    hide Conserved, Owned, SweepProbe, SweepQuery, Register;
    var (begun, id) := BeginQuery(s, x);
    QueryMintsFresh(s, x);
    SweepsKeep(s, limit, tables);
    var swept := SweepProbe(SweepQuery(s));
    ConservedIsValid(swept, limit, tables);
    RegisterNumbers(swept.table, x);
    SweepsKeepHistory(s);
    SweepsEmpty(s);
    assert |s.asked| == id && begun.table.nextId == id + 1;
    assert SlotFor(begun.table, |s.asked| + 0).Some?;
    assert Minted(begun.table, |s.asked|) == [x];
  }

  lemma RegisterNumbers(t: Table, x: Expectation)
    ensures var (u, id) := Register(t, x); t.slots == [] ==> id == t.nextId && u.nextId == id + 1
  {
  }

  lemma SweepsKeepHistory(s: Session)
    ensures var swept := SweepProbe(SweepQuery(s));
      && swept.asked == s.asked && swept.fates == s.fates && swept.arrived == s.arrived
      && swept.pending == s.pending && swept.delivered == s.delivered
  {
  }

  /** Where one id alone waited, it alone is answered. */
  lemma OnlyWaitingIsAnswered(
      s: Session, s': Session, id: nat, x: Expectation, end: Ended<Reply>, limit: nat, tables: Tables)
    requires Waits(s, id, x) && Keeps(s, s', limit, tables) && s'.asked == s.asked && id < |s.asked|
    requires Conserved(s, limit, tables)
    requires if end.Finished? then Answered(id, end.value) in s'.fates else AnsweredIds(s'.fates)[id] == 0
    ensures AnsweredIds(s'.fates) == AnsweredIds(s.fates) + if end.Finished? then multiset{id} else multiset{}
  {
    hide InStep, Balanced, LosesExactly, AnsweredIds, SlotFor, Valid;
    var was, now := AnsweredIds(s.fates), AnsweredIds(s'.fates);
    WaitingIsUnanswered(s, id, limit, tables);
    if end.Finished? {
      var i :| 0 <= i < |s'.fates| && s'.fates[i] == Answered(id, end.value);
      AnsweredIsCounted(s'.fates, i);
    }
    forall k: nat ensures now[k] == was[k] + if end.Finished? && k == id then 1 else 0 {}
  }
}
