/** The blocking probe against the same first-match reference (`src/session.rs`), from every table a run can
    leave it. */
module SyncProbe {
  import opened Bytes
  import opened Tokens
  import opened Grammar
  import opened Bounds
  import opened Events
  import opened Decoder
  import opened DrainBoundary
  import opened Correlate
  import opened CorrelatorTable
  import opened CorrelatorRuns
  import opened Answers
  import opened Tallies
  import opened Probe
  import opened Gathering
  import opened SyncReads
  import opened SyncSession

  // ----- The probe -----

  /** Stores the replies of one read, in completion order. */
  function StoreEach(b: Bundle, replies: seq<(nat, Reply)>, caps: Capabilities): Capabilities
    decreases |replies|
  {
    if replies == [] then caps
    else StoreEach(b, replies[1..], StoreBundleReply(b, replies[0].0, replies[0].1, caps))
  }

  predicate Fences(b: Bundle, replies: seq<(nat, Reply)>) { exists i :: 0 <= i < |replies| && replies[i].0 == b.fence }

  // A dumb terminal is skipped; otherwise the probe ends with its findings or with an error.
  datatype Outcome = Skipped(caps: Capabilities) | Found(caps: Capabilities) | NotSupported | Failed

  function Conclude(s: Session, b: Bundle): Session { s.(table := ResolveEach(s.table, b.Ids())) }

  /** An error of the end-of-input kind from the device's own read ends the probe like an empty read, but
      nothing has given the bundle up. */
  function AwaitFence(
      s: Session, b: Bundle, caps: Capabilities, polls: seq<Poll>, limit: nat, tables: Tables): (Session, Outcome)
    requires s.decoder.parser.Valid()
    decreases |polls|
  {
    if polls == [] then (Conclude(s, b), Found(caps))
    else match polls[0]
      case NoDescriptor => (Conclude(s, b), NotSupported)
      case PollFailed => (s, Failed)
      case ReadFailed => (s, Failed)
      case ReadEof => (s, Found(caps))
      case Readable(chunk) =>
        if chunk == [] then (Conclude(s, b).(active := None), Found(caps))
        else
          var (read, replies) := SyncSession.Read(s, b.Ids(), chunk, limit, tables);
          var stored := StoreEach(b, replies, caps);
          if Fences(b, replies) then (Conclude(read, b), Found(stored))
          else AwaitFence(read, b, stored, polls[1..], limit, tables)
  }

  function BeginProbe(s: Session): (Session, Bundle) {
    var (t, b) := RegisterBundle(Sweep(s).table);
    (Sweep(s).(table := t, asked := s.asked + Minted(t, |s.asked|)), b)
  }

  /** `skip` holds what a dumb terminal's environment gives, `seed` what any other's does. */
  function ProbeCapabilities(
      s: Session, skip: Option<Capabilities>, seed: Capabilities, sent: bool, polls: seq<Poll>,
      limit: nat, tables: Tables)
    : (Session, Outcome)
    requires s.decoder.parser.Valid()
  {
    if skip.Some? then (s, Skipped(skip.value))
    else
      var (begun, b) := BeginProbe(s);
      if sent then AwaitFence(begun, b, seed, polls, limit, tables) else (begun, Failed)
  }

  // ----- The replies a batch adds -----

  function Elements(replies: seq<(nat, Reply)>): set<(nat, Reply)> { set r | r in replies }

  lemma ElementsAppend(a: seq<(nat, Reply)>, b: seq<(nat, Reply)>)
    ensures Elements(a + b) == Elements(a) + Elements(b)
  {
  }

  /** What is heard of `fed` and `more` that was not heard of `fed` alone, each with the id it answers. */
  function NewlyHeard(u: Table, ids: seq<nat>, fed: seq<Event>, more: seq<Event>): set<(nat, Reply)>
    requires |ids| == |ASKED|
  {
    set i: nat | i < |ASKED| && Heard(u, ids, fed)[i].None? && Heard(u, ids, fed + more)[i].Some?
      :: (ids[i], Heard(u, ids, fed + more)[i].value)
  }

  lemma NewlyHeardAppend(u: Table, ids: seq<nat>, fed: seq<Event>, a: seq<Event>, b: seq<Event>)
    requires |ids| == |ASKED|
    ensures NewlyHeard(u, ids, fed, a + b) == NewlyHeard(u, ids, fed, a) + NewlyHeard(u, ids, fed + a, b)
  {
    hide ASKED, Heard;
    assert (fed + a) + b == fed + (a + b);
    forall i: nat | i < |ASKED|
      ensures Heard(u, ids, fed + a)[i].Some? ==> Heard(u, ids, fed + (a + b))[i] == Heard(u, ids, fed + a)[i]
      ensures Heard(u, ids, fed)[i].Some? ==> Heard(u, ids, fed + a)[i] == Heard(u, ids, fed)[i]
    {
      if Heard(u, ids, fed + a)[i].Some? { HeardStays(u, ids, fed + a, b, i); }
      if Heard(u, ids, fed)[i].Some? { HeardStays(u, ids, fed, a, i); }
    }
  }

  lemma NothingNewlyHeard(u: Table, ids: seq<nat>, fed: seq<Event>, more: seq<Event>)
    requires |ids| == |ASKED| && Heard(u, ids, fed + more) == Heard(u, ids, fed)
    ensures NewlyHeard(u, ids, fed, more) == {}
  {
    hide ASKED, Heard;
  }

  lemma OneNewlyHeard(u: Table, ids: seq<nat>, fed: seq<Event>, more: seq<Event>, i: nat, reply: Reply)
    requires |ids| == |ASKED| && i < |ASKED| && Heard(u, ids, fed)[i].None?
    requires Heard(u, ids, fed + more) == Heard(u, ids, fed)[i := Some(reply)]
    ensures NewlyHeard(u, ids, fed, more) == {(ids[i], reply)}
  {
    hide ASKED, Heard;
  }

  // ----- Attributing to the bundle is feeding the batch -----

  ghost predicate AllIn(t: Table, ids: seq<nat>) {
    Valid(t) && forall k: nat :: SlotFor(t, k).Some? ==> k in ids
  }

  lemma GatheredIsIn(t: Table, u: Table, ids: seq<nat>, seed: Capabilities, caps: Capabilities, fed: seq<Event>)
    requires Gathered(t, u, ids, seed, caps, fed)
    ensures |ids| == 12 == |ASKED| && AllIn(t, BundleOf(ids).Ids())
  {
    hide SlotFor, Valid, BundleOf, ASKED, Recorded, Heard;
    GatheredIsValid(t, u, ids, seed, caps, fed);
    BundleIdsAreDistinct(u, ids);
    FenceIsAsked();
    forall k: nat | SlotFor(t, k).Some? ensures k in BundleOf(ids).Ids() { NarrowsAt(u, t, k); }
  }

  lemma {:induction false} AttributeIsBatch(
      t: Table, u: Table, ids: seq<nat>, seed: Capabilities, caps: Capabilities, fed: seq<Event>, events: seq<Event>)
    requires Valid(t) && |ids| == 12 == |ASKED| && Gathered(t, u, ids, seed, caps, fed)
    ensures var b := BundleOf(ids);
      var a := Attribute(t, b.Ids(), events);
      var r := FeedBatch(t, b, events, caps);
      && a.table == r.table
      && StoreEach(b, a.replies, caps) == r.caps
      && Fences(b, a.replies) == r.fenced
      && Elements(a.replies) == NewlyHeard(u, ids, fed, events)
    decreases |events|
  {
    hide SlotFor, Valid, Gathered, BundleOf, ASKED, FeedEvent, TakeReply, StoreBundleReply, Match, Elements, NewlyHeard,
      Heard, IsFirstAnswer, AllIn;
    var b := BundleOf(ids);
    if events == [] {
      assert fed + events == fed;
      NothingNewlyHeard(u, ids, fed, events);
      NoElements();
    } else {
      var e, rest := events[0], events[1..];
      var (next, r) := FeedEvent(t, e);
      assert [e] + rest == events;
      NewlyHeardAppend(u, ids, fed, [e], rest);
      GatheredIsIn(t, u, ids, seed, caps, fed);
      if r.Passthrough? {
        PassedEventGathers(t, u, ids, seed, caps, fed, e);
        AttributeIsBatch(next, u, ids, seed, caps, fed + [e], rest);
        NothingNewlyHeard(u, ids, fed, [e]);
      } else {
        CompletedEventGathers(t, u, ids, seed, caps, fed, e);
        CompletionHasReply(t, e);
        CompletedIsIn(t, b.Ids(), e);
        var taken := TakeReply(next, r.id).0;
        var stored := StoreBundleReply(b, r.id, r.reply, caps);
        AttributeIsBatch(taken, u, ids, seed, stored, fed + [e], rest);
        FirstReply(b, (r.id, r.reply), Attribute(taken, b.Ids(), rest).replies, caps);
        var i := CompletedIsFirst(t, u, ids, seed, caps, fed, e);
        OneNewlyHeard(u, ids, fed, [e], i, r.reply);
        ElementsAppend([(r.id, r.reply)], Attribute(taken, b.Ids(), rest).replies);
        OneElement((r.id, r.reply));
      }
    }
  }

  lemma NoElements()
    ensures Elements([]) == {}
  {
  }

  lemma OneElement(r: (nat, Reply))
    ensures Elements([r]) == {r}
  {
  }

  lemma CompletedIsIn(t: Table, ids: seq<nat>, e: Event)
    requires AllIn(t, ids) && FeedEvent(t, e).1.Completed?
    ensures FeedEvent(t, e).1.id in ids
  {
    hide SlotFor, Valid, FeedEvent;
    FeedSlotFor(t, e, FeedEvent(t, e).1.id);
  }

  lemma FirstReply(b: Bundle, first: (nat, Reply), rest: seq<(nat, Reply)>, caps: Capabilities)
    ensures StoreEach(b, [first] + rest, caps) == StoreEach(b, rest, StoreBundleReply(b, first.0, first.1, caps))
    ensures Fences(b, [first] + rest) <==> first.0 == b.fence || Fences(b, rest)
  {
    hide StoreBundleReply;
    var all := [first] + rest;
    assert all[1..] == rest && all[0] == first;
    if Fences(b, rest) {
      var i :| 0 <= i < |rest| && rest[i].0 == b.fence;
      assert all[i + 1].0 == b.fence;
    }
    if Fences(b, all) && first.0 != b.fence {
      var i :| 0 <= i < |all| && all[i].0 == b.fence;
      assert rest[i - 1].0 == b.fence;
    }
  }

  lemma {:induction false} StoreAppend(b: Bundle, a: seq<(nat, Reply)>, more: seq<(nat, Reply)>, caps: Capabilities)
    ensures StoreEach(b, a + more, caps) == StoreEach(b, more, StoreEach(b, a, caps))
    ensures Fences(b, a + more) <==> Fences(b, a) || Fences(b, more)
    decreases |a|
  {
    hide StoreBundleReply, Fences;
    if a == [] {
      assert a + more == more;
      NoFences(b);
    } else {
      assert a + more == [a[0]] + (a[1..] + more) && a == [a[0]] + a[1..];
      FirstReply(b, a[0], a[1..] + more, caps);
      FirstReply(b, a[0], a[1..], caps);
      StoreAppend(b, a[1..], more, StoreBundleReply(b, a[0].0, a[0].1, caps));
    }
  }

  lemma NoFences(b: Bundle)
    ensures !Fences(b, [])
  {
  }

  // ----- One read -----

  /** Where the probe stands after the attributions of `m`: its replies are what is newly heard, and stored. */
  ghost predicate Standing(
      m: Reading, u: Table, ids: seq<nat>, seed: Capabilities, caps: Capabilities, fed: seq<Event>)
    requires |ids| == 12 == |ASKED|
  {
    && Valid(m.table)
    && Gathered(m.table, u, ids, seed, StoreEach(BundleOf(ids), m.replies, caps), fed + SpanEvents(m.spans))
    && (Fences(BundleOf(ids), m.replies) <==> Awaits(u, ids, fed) && HasFence(SpanEvents(m.spans)))
    && Elements(m.replies) == NewlyHeard(u, ids, fed, SpanEvents(m.spans))
  }

  lemma DrainStanding(
      m: Reading, u: Table, ids: seq<nat>, seed: Capabilities, caps: Capabilities, fed: seq<Event>,
      tokens: seq<Token>, events: seq<Event>)
    requires |ids| == 12 == |ASKED| && Standing(m, u, ids, seed, caps, fed)
    ensures Standing(Drain(m, BundleOf(ids).Ids(), tokens, events), u, ids, seed, caps, fed)
  {
    hide Gathered, Valid, Attribute, FeedBatch, StoreEach, Fences, SpanEvents, BundleOf, FirstMatch, Elements,
      NewlyHeard, ASKED, Waiting;
    var b := BundleOf(ids);
    var past := fed + SpanEvents(m.spans);
    var stored := StoreEach(b, m.replies, caps);
    AttributeIsBatch(m.table, u, ids, seed, stored, past, events);
    BatchGathers(m.table, u, ids, seed, stored, past, events);
    DrainAddsEvents(m, b.Ids(), tokens, events);
    assert past + events == fed + (SpanEvents(m.spans) + events);
    StoreAppend(b, m.replies, Attribute(m.table, b.Ids(), events).replies, caps);
    NewlyHeardAppend(u, ids, fed, SpanEvents(m.spans), events);
    ElementsAppend(m.replies, Attribute(m.table, b.Ids(), events).replies);
    FirstMatchAppend(ExpectPrimaryDeviceAttributes, fed, SpanEvents(m.spans));
    FirstMatchAppend(ExpectPrimaryDeviceAttributes, SpanEvents(m.spans), events);
  }

  lemma ByteStanding(
      m: Reading, u: Table, ids: seq<nat>, seed: Capabilities, caps: Capabilities, fed: seq<Event>, b: Byte,
      limit: nat, tables: Tables)
    requires |ids| == 12 == |ASKED| && m.decoder.parser.Valid() && Standing(m, u, ids, seed, caps, fed)
    ensures Standing(ReadByte(m, BundleOf(ids).Ids(), b, limit, tables), u, ids, seed, caps, fed)
  {
    hide Drain, Feed, Decode, Gathered, StoreEach, Fences, SpanEvents, BundleOf, Valid, FirstMatch, Elements,
      NewlyHeard, ASKED, Awaits, HasFence;
    var o := Decode(m.decoder, [b], limit, tables);
    var fedOne := m.(decoder := o.state, unattributed := m.unattributed + [b]);
    DrainStanding(fedOne, u, ids, seed, caps, fed, Feed(m.decoder.parser, [b], limit).tokens, o.events);
  }

  lemma {:induction false} BytesStanding(
      m: Reading, u: Table, ids: seq<nat>, seed: Capabilities, caps: Capabilities, fed: seq<Event>, chunk: Bytes,
      limit: nat, tables: Tables)
    requires |ids| == 12 == |ASKED| && m.decoder.parser.Valid() && Standing(m, u, ids, seed, caps, fed)
    ensures Standing(ReadBytes(m, BundleOf(ids).Ids(), chunk, limit, tables), u, ids, seed, caps, fed)
    decreases |chunk|
  {
    hide Standing, ReadByte, BundleOf, ASKED;
    if chunk != [] {
      ByteStanding(m, u, ids, seed, caps, fed, chunk[0], limit, tables);
      BytesStanding(ReadByte(m, BundleOf(ids).Ids(), chunk[0], limit, tables), u, ids, seed, caps,
        fed, chunk[1..], limit, tables);
    }
  }

  lemma ChunkStanding(
      m: Reading, u: Table, ids: seq<nat>, seed: Capabilities, caps: Capabilities, fed: seq<Event>, chunk: Bytes,
      limit: nat, tables: Tables)
    requires |ids| == 12 == |ASKED| && m.decoder.parser.Valid() && Standing(m, u, ids, seed, caps, fed)
    ensures Standing(ReadChunk(m, BundleOf(ids).Ids(), chunk, limit, tables), u, ids, seed, caps, fed)
  {
    hide ReadBytes, Drain, Flush, HasSettledText, FinishTokens, BundleOf, HasFence, Gathered, Valid, StoreEach, Fences,
      SpanEvents, Elements, NewlyHeard, ASKED, Awaits;
    BytesStanding(m, u, ids, seed, caps, fed, chunk, limit, tables);
    var read := ReadBytes(m, BundleOf(ids).Ids(), chunk, limit, tables);
    if HasSettledText(read.decoder.parser) {
      var o := Flush(read.decoder, limit, tables);
      DrainStanding(
        read.(decoder := o.state), u, ids, seed, caps, fed, FinishTokens(read.decoder.parser, limit), o.events);
    }
  }

  /** One read of a probe in progress. */
  lemma ReadStanding(
      s: Session, u: Table, ids: seq<nat>, seed: Capabilities, caps: Capabilities, fed: seq<Event>, chunk: Bytes,
      limit: nat, tables: Tables)
    requires |ids| == 12 == |ASKED| && s.decoder.parser.Valid() && Reachable(s.decoder.parser, limit)
    requires Valid(s.table) && Gathered(s.table, u, ids, seed, caps, fed)
    ensures var (read, replies) := SyncSession.Read(s, BundleOf(ids).Ids(), chunk, limit, tables);
      var o := ReadOnce(s.decoder, DrainBoundary.Read(chunk, true), limit, tables);
      && read.decoder == o.state && Valid(read.table)
      && Gathered(read.table, u, ids, seed, StoreEach(BundleOf(ids), replies, caps), fed + o.events)
      && (Fences(BundleOf(ids), replies) <==> Awaits(u, ids, fed) && HasFence(o.events))
      && Elements(replies) == NewlyHeard(u, ids, fed, o.events)
  {
    hide ReadChunk, Gathered, Valid, StoreEach, Fences, HasFence, BundleOf, ReadOnce, SpanEvents, Elements,
      NewlyHeard, ASKED, Awaits;
    var m := ReadingOf(s);
    StandingAtFirst(m, u, ids, seed, caps, fed);
    ChunkStanding(m, u, ids, seed, caps, fed, chunk, limit, tables);
    ChunkDecodesWhole(m, BundleOf(ids).Ids(), chunk, limit, tables);
    NoSpanEvents();
    NoFence();
    var o := ReadOnce(s.decoder, DrainBoundary.Read(chunk, true), limit, tables);
    assert [] + o.events == o.events;
  }

  lemma StandingAtFirst(
      m: Reading, u: Table, ids: seq<nat>, seed: Capabilities, caps: Capabilities, fed: seq<Event>)
    requires |ids| == 12 == |ASKED|
    requires Valid(m.table) && Gathered(m.table, u, ids, seed, caps, fed) && m.spans == [] && m.replies == []
    ensures Standing(m, u, ids, seed, caps, fed)
  {
    hide Gathered, Valid, HasFence, Elements, NewlyHeard, ASKED, Heard, Awaits, BundleOf;
    NoSpanEvents();
    NoFence();
    NoFences(BundleOf(ids));
    assert fed + [] == fed;
    NothingNewlyHeard(u, ids, fed, []);
    NoElements();
  }

  // ----- Whole probes -----

  /** The probe ends in an error of the end-of-input kind from the device's own read. */
  predicate StopsAtEof(d: DecoderState, fires: bool, polls: seq<Poll>, limit: nat, tables: Tables)
    requires d.parser.Valid()
    decreases |polls|
  {
    polls != [] && (
      || polls[0] == ReadEof
      || (polls[0].Readable? && polls[0].chunk != [] &&
            var o := ReadOnce(d, DrainBoundary.Read(polls[0].chunk, true), limit, tables);
            !(fires && HasFence(o.events)) && StopsAtEof(o.state, fires, polls[1..], limit, tables)))
  }

  /** The slot a probe leaves where the `i`th expectation was registered: less one waiter if its answer was
      taken, and less another if the bundle was given up. */
  function Left(u: Table, ids: seq<nat>, fed: seq<Event>, cleaned: bool, i: nat): Option<Slot>
    requires |ids| == |ASKED| && i < |ASKED| && SlotFor(u, ids[i]).Some?
  {
    var slot := Gathering.Settle(SlotFor(u, ids[i]).value, Heard(u, ids, fed)[i]);
    if cleaned then Dropped(slot) else slot
  }

  ghost predicate Leaves(s: Session, u: Table, ids: seq<nat>, fed: seq<Event>, cleaned: bool) {
    && Valid(s.table) && Started(u, ids)
    && (forall i: nat :: i < |ASKED| ==> SlotFor(s.table, ids[i]) == Left(u, ids, fed, cleaned, i))
    && forall k: nat :: k !in ids ==> SlotFor(s.table, k) == None
  }

  /** A probe that ended, from a point where `fed` had been fed and `batches` were still to come. */
  ghost predicate Ends(
      s: Session, end: Outcome, u: Table, ids: seq<nat>, seed: Capabilities, fed: seq<Event>,
      batches: seq<seq<Event>>, eof: bool)
    requires |ids| == |ASKED|
  {
    var fires := Awaits(u, ids, fed);
    var all := fed + FedTo(fires, batches);
    && (end.Found? ==> end.caps == Recorded(seed, Heard(u, ids, all)))
    && (fires && HasFence(FedTo(fires, batches)) ==> end.Found? && !eof)
    && !end.Skipped? && (eof ==> end.Found?)
    && s.active == None
    && Leaves(s, u, ids, all, end != Failed && !eof)
  }

  lemma NotGivenUp(s: Session, u: Table, ids: seq<nat>, seed: Capabilities, caps: Capabilities, fed: seq<Event>)
    requires Gathered(s.table, u, ids, seed, caps, fed)
    ensures Leaves(s, u, ids, fed, false)
  {
    hide SlotFor, Valid, Recorded, ASKED, Heard;
    GatheredIsValid(s.table, u, ids, seed, caps, fed);
    forall k: nat | k !in ids ensures SlotFor(s.table, k) == None { NarrowsAt(u, s.table, k); }
  }

  lemma GivenUp(s: Session, u: Table, ids: seq<nat>, seed: Capabilities, caps: Capabilities, fed: seq<Event>)
    requires |ids| == 12 && Gathered(s.table, u, ids, seed, caps, fed)
    ensures Leaves(Conclude(s, BundleOf(ids)), u, ids, fed, true)
  {
    hide SlotFor, Valid, Recorded, ASKED, Heard, BundleOf, ResolveEach, Gathered, Dropped;
    GatheredIsValid(s.table, u, ids, seed, caps, fed);
    StartedLength(u, ids);
    var s' := Conclude(s, BundleOf(ids));
    FinishedSlots(s.table, u, ids, seed, caps, fed, 0);
    forall i: nat | i < |ASKED|
      ensures SlotFor(u, ids[i]).Some? && SlotFor(s'.table, ids[i]) == Left(u, ids, fed, true, i)
    {
      FinishedSlots(s.table, u, ids, seed, caps, fed, ids[i]);
    }
    forall k: nat | k !in ids ensures SlotFor(s'.table, k) == None {
      FinishedSlots(s.table, u, ids, seed, caps, fed, k);
    }
  }

  lemma EndsWithoutReading(
      s: Session, end: Outcome, u: Table, ids: seq<nat>, seed: Capabilities, caps: Capabilities, fed: seq<Event>,
      eof: bool)
    requires |ids| == 12 == |ASKED| && Gathered(s.table, u, ids, seed, caps, fed) && s.active == None
    requires end == Found(caps) || end == NotSupported || end == Failed
    requires eof ==> end.Found?
    ensures Ends(if end == Failed || eof then s else Conclude(s, BundleOf(ids)), end, u, ids, seed, fed, [], eof)
  {
    hide SlotFor, Valid, HasFence, Recorded, ASKED, Heard, Gathered, ResolveEach, BundleOf, Leaves, Awaits;
    NoSpanEvents();
    NoFence();
    assert fed + [] == fed;
    GatheredIsValid(s.table, u, ids, seed, caps, fed);
    NotGivenUp(s, u, ids, seed, caps, fed);
    GivenUp(s, u, ids, seed, caps, fed);
  }

  lemma {:induction false} AwaitFenceEnds(
      s: Session, u: Table, ids: seq<nat>, seed: Capabilities, caps: Capabilities, fed: seq<Event>, polls: seq<Poll>,
      limit: nat, tables: Tables)
    requires |ids| == 12 == |ASKED| && s.decoder.parser.Valid() && Reachable(s.decoder.parser, limit)
    requires Valid(s.table) && Gathered(s.table, u, ids, seed, caps, fed) && s.active == None
    requires Waiting(u, ids[FENCE]) ==> !HasFence(fed)
    ensures var (s', end) := AwaitFence(s, BundleOf(ids), caps, polls, limit, tables);
      Ends(s', end, u, ids, seed, fed, Batches(s.decoder, LeadingReads(polls), limit, tables),
           StopsAtEof(s.decoder, Awaits(u, ids, fed), polls, limit, tables))
    decreases |polls|
  {
    hide SyncSession.Read, Gathered, ASKED, Elements, NewlyHeard, Waiting,
      Valid, StoreEach, Fences, HasFence, BundleOf, ReadOnce, Reachable, ResolveEach, Ends, Awaits;
    var b := BundleOf(ids);
    var batches := Batches(s.decoder, LeadingReads(polls), limit, tables);
    if batches != [] {
      var chunk := polls[0].chunk;
      var (read, replies) := SyncSession.Read(s, b.Ids(), chunk, limit, tables);
      var o := ReadOnce(s.decoder, DrainBoundary.Read(chunk, true), limit, tables);
      var stored := StoreEach(b, replies, caps);
      ReadStanding(s, u, ids, seed, caps, fed, chunk, limit, tables);
      ReadKeepsActive(s, b.Ids(), chunk, limit, tables);
      ReadOnceIsReachable(s.decoder, DrainBoundary.Read(chunk, true), limit, tables);
      AwaitsLater(u, ids, fed, o.events);
      assert batches[0] == o.events && batches[1..] == Batches(o.state, LeadingReads(polls[1..]), limit, tables);
      if Fences(b, replies) {
        EndsByFence(read, u, ids, seed, stored, fed, batches);
      } else {
        AwaitFenceEnds(read, u, ids, seed, stored, fed + o.events, polls[1..], limit, tables);
        var (s', end) := AwaitFence(read, b, stored, polls[1..], limit, tables);
        EndsLater(s', end, u, ids, seed, fed, batches,
                  StopsAtEof(o.state, Awaits(u, ids, fed), polls[1..], limit, tables));
      }
    } else {
      EndsWithoutReading(s, Found(caps), u, ids, seed, caps, fed, false);
      EndsWithoutReading(s, Found(caps), u, ids, seed, caps, fed, true);
      EndsWithoutReading(s, NotSupported, u, ids, seed, caps, fed, false);
      EndsWithoutReading(s, Failed, u, ids, seed, caps, fed, false);
    }
  }

  lemma ReadKeepsActive(s: Session, ids: seq<nat>, chunk: Bytes, limit: nat, tables: Tables)
    requires s.decoder.parser.Valid()
    ensures SyncSession.Read(s, ids, chunk, limit, tables).0.active == s.active
  {
    hide ReadChunk;
  }

  /** While the fence has not fired, whether it can does not change. */
  lemma AwaitsLater(u: Table, ids: seq<nat>, fed: seq<Event>, events: seq<Event>)
    requires |ids| == 12 == |ASKED| && (Waiting(u, ids[FENCE]) ==> !HasFence(fed))
    ensures Awaits(u, ids, fed) <==> Waiting(u, ids[FENCE])
    ensures !(Awaits(u, ids, fed) && HasFence(events)) ==>
      && (Waiting(u, ids[FENCE]) ==> !HasFence(fed + events))
      && (Awaits(u, ids, fed + events) <==> Awaits(u, ids, fed))
  {
    hide ASKED, Waiting, FirstMatch;
    FirstMatchAppend(ExpectPrimaryDeviceAttributes, fed, events);
  }

  lemma EndsByFence(
      s: Session, u: Table, ids: seq<nat>, seed: Capabilities, caps: Capabilities, fed: seq<Event>,
      batches: seq<seq<Event>>)
    requires |ids| == 12 == |ASKED| && batches != [] && Awaits(u, ids, fed) && HasFence(batches[0])
    requires Gathered(s.table, u, ids, seed, caps, fed + batches[0]) && s.active == None
    ensures Ends(Conclude(s, BundleOf(ids)), Found(caps), u, ids, seed, fed, batches, false)
  {
    hide SlotFor, Valid, HasFence, Recorded, ASKED, Heard, Gathered, ResolveEach, BundleOf, Leaves, Awaits;
    GatheredIsValid(s.table, u, ids, seed, caps, fed + batches[0]);
    GivenUp(s, u, ids, seed, caps, fed + batches[0]);
  }

  lemma EndsLater(
      s: Session, end: Outcome, u: Table, ids: seq<nat>, seed: Capabilities, fed: seq<Event>,
      batches: seq<seq<Event>>, eof: bool)
    requires |ids| == |ASKED| && batches != [] && !(Awaits(u, ids, fed) && HasFence(batches[0]))
    requires Awaits(u, ids, fed + batches[0]) == Awaits(u, ids, fed)
    requires Ends(s, end, u, ids, seed, fed + batches[0], batches[1..], eof)
    ensures Ends(s, end, u, ids, seed, fed, batches, eof)
  {
    hide Recorded, ASKED, Heard, Leaves, Awaits, FirstMatch;
    var fires := Awaits(u, ids, fed);
    assert (fed + batches[0]) + FedTo(fires, batches[1..]) == fed + FedTo(fires, batches);
    FirstMatchAppend(ExpectPrimaryDeviceAttributes, batches[0], FedTo(fires, batches[1..]));
  }

  // ----- From any state -----

  /** The ids a probe started in `s` registers. */
  function ProbeIds(s: Session): seq<nat> { RegisterEach(Sweep(s).table, ASKED).1 }

  lemma BeginProbeStarts(s: Session)
    requires Orderly(s)
    ensures var (begun, b) := BeginProbe(s);
      var ids := ProbeIds(s);
      && |ids| == 12 == |ASKED| && b == BundleOf(ids) && Started(begun.table, ids) && Valid(begun.table)
      && Widens(Sweep(s).table, begun.table)
      && begun.active == None && begun.decoder == s.decoder && begun.log == s.log
      && forall i :: 0 <= i < |ASKED| ==>
           IsRegistered(SlotFor(Sweep(s).table, ids[i]), SlotFor(begun.table, ids[i]), ids[i], ASKED[i])
  {
    hide Sweep, RegisterBundle, RegisterEach, Widens, Started, SlotFor, BundleOf, ASKED, IsRegistered, Valid, Minted;
    SweepFreesQuery(s);
    SweepKeepsNextId(s);
    FenceIsAsked();
    StartsBundle(Sweep(s).table);
    StartedLength(BeginProbe(s).0.table, ProbeIds(s));
  }

  /** In every state a run can reach, whatever failed probes left registered: a probe that ends with findings has
      recorded, for each field whose slot was not already answered when it started, the first answer to its own
      query over everything it fed; it fed everything it read up to the end of the read that holds the fence's
      answer, or to its deadline when the fence's own slot was already answered. Each of its slots is left as
      `Left` says. When the request cannot be written all of them stay registered. */
  lemma ProbeIsFirstMatch(
      s: Session, skip: Option<Capabilities>, seed: Capabilities, sent: bool, polls: seq<Poll>,
      limit: nat, tables: Tables)
    requires s.decoder.parser.Valid() && Reachable(s.decoder.parser, limit) && Orderly(s)
    ensures |ProbeIds(s)| == |ASKED|
    ensures var (s', end) := ProbeCapabilities(s, skip, seed, sent, polls, limit, tables);
      var u := BeginProbe(s).0.table;
      if skip.Some? then s' == s && end == Skipped(skip.value)
      else if sent then
        Ends(s', end, u, ProbeIds(s), seed, [], Batches(s.decoder, LeadingReads(polls), limit, tables),
             StopsAtEof(s.decoder, Awaits(u, ProbeIds(s), []), polls, limit, tables))
      else
        && end == Failed && s'.active == None && Leaves(s', u, ProbeIds(s), [], false)
        && forall i: nat :: i < |ASKED| ==>
             SlotFor(s'.table, ProbeIds(s)[i]).Some? && SlotFor(s'.table, ProbeIds(s)[i]).value.expectation == ASKED[i]
  {
    hide Gathered, Ends, BeginProbe, BundleOf, AwaitFence, Valid, ASKED, Sweep, ProbeIds, Started, SlotFor, Waiting,
      Widens, Leaves, StopsAtEof, Orderly, IsRegistered, HasFence;
    BeginProbeStarts(s);
    if skip.None? {
      var u, ids := BeginProbe(s).0.table, ProbeIds(s);
      GatheredAtFirst(u, ids, seed);
      NoSpanEvents();
      NoFence();
      if sent {
        AwaitFenceEnds(BeginProbe(s).0, u, ids, seed, seed, [], polls, limit, tables);
      } else {
        NotGivenUp(BeginProbe(s).0, u, ids, seed, seed, []);
        forall i: nat | i < |ASKED|
          ensures SlotFor(u, ids[i]).Some? && SlotFor(u, ids[i]).value.expectation == ASKED[i]
        {
          BundleSlot(u, ids, i);
        }
      }
    }
  }

  lemma BundleSlot(u: Table, ids: seq<nat>, i: nat)
    requires Started(u, ids) && i < |ASKED|
    ensures SlotFor(u, ids[i]).Some? && SlotFor(u, ids[i]).value.expectation == ASKED[i]
  {
    hide ASKED, SlotFor, Valid;
  }

  /** With nothing registered when it starts, every expectation hears its first match. */
  lemma FreshProbeHears(s: Session, fed: seq<Event>)
    requires Orderly(s) && Sweep(s).table.slots == []
    ensures |ProbeIds(s)| == |ASKED|
    ensures Heard(BeginProbe(s).0.table, ProbeIds(s), fed) == FirstAnswers(fed)
    ensures Awaits(BeginProbe(s).0.table, ProbeIds(s), [])
  {
    hide Sweep, RegisterEach, RegisterBundle, ASKED, FirstMatch, Started, Widens, Valid;
    BeginProbeStarts(s);
    var u, ids := BeginProbe(s).0.table, ProbeIds(s);
    FenceIsAsked();
    forall i | 0 <= i < |ASKED| ensures Waiting(u, ids[i]) {
      NoSlotFor(Sweep(s).table, ids[i]);
      assert IsRegistered(SlotFor(Sweep(s).table, ids[i]), SlotFor(u, ids[i]), ids[i], ASKED[i]);
    }
    NothingMatches(ExpectPrimaryDeviceAttributes);
  }

  lemma NoSlotFor(t: Table, k: nat)
    requires t.slots == []
    ensures SlotFor(t, k) == None
  {
  }

  /** A slot the probe leaves empty: it was alone on it, or it shared it with one waiter and took the answer. */
  lemma LeftNothingExactly(s: Session, fed: seq<Event>, i: nat)
    requires Orderly(s) && i < |ASKED|
    ensures |ProbeIds(s)| == |ASKED| && SlotFor(BeginProbe(s).0.table, ProbeIds(s)[i]).Some?
    ensures var was := SlotFor(Sweep(s).table, ProbeIds(s)[i]);
      Left(BeginProbe(s).0.table, ProbeIds(s), fed, true, i) == None <==>
        was.None? || (was.value.outstanding == 1 && Heard(BeginProbe(s).0.table, ProbeIds(s), fed)[i].Some?)
  {
    hide Sweep, RegisterEach, RegisterBundle, ASKED, Heard, Started, Widens, SlotFor, Orderly;
    BeginProbeStarts(s);
    SweepFreesQuery(s);
    SlotHasWaiter(Sweep(s).table, ProbeIds(s)[i]);
    assert IsRegistered(SlotFor(Sweep(s).table, ProbeIds(s)[i]), SlotFor(BeginProbe(s).0.table, ProbeIds(s)[i]),
                        ProbeIds(s)[i], ASKED[i]);
  }

  /** The probe clears what failed probes left: each slot they left had one waiter, and is answered. */
  ghost predicate Clears(s: Session, fed: seq<Event>)
    requires |ProbeIds(s)| == |ASKED|
  {
    forall i: nat :: i < |ASKED| ==>
      var was := SlotFor(Sweep(s).table, ProbeIds(s)[i]);
      was.None? || (was.value.outstanding == 1 && Heard(BeginProbe(s).0.table, ProbeIds(s), fed)[i].Some?)
  }

  lemma LeavesNothingExactly(s: Session, s': Session, fed: seq<Event>)
    requires Orderly(s) && |ProbeIds(s)| == |ASKED|
    requires Leaves(s', BeginProbe(s).0.table, ProbeIds(s), fed, true)
    ensures s'.table.slots == [] <==> Clears(s, fed)
  {
    hide Sweep, BeginProbe, ASKED, Heard, Started, SlotFor, Orderly, Left, Valid, ProbeIds;
    var u, ids := BeginProbe(s).0.table, ProbeIds(s);
    forall i: nat | i < |ASKED|
      ensures SlotFor(s'.table, ids[i]) == None <==>
        var was := SlotFor(Sweep(s).table, ids[i]);
        was.None? || (was.value.outstanding == 1 && Heard(u, ids, fed)[i].Some?)
    {
      LeftNothingExactly(s, fed, i);
    }
    if Clears(s, fed) {
      forall k: nat ensures SlotFor(s'.table, k) == None {
        if k in ids { var i: nat :| i < |ids| && ids[i] == k; }
      }
      NoSlots(s'.table);
    } else {
      var i: nat :| i < |ASKED| && SlotFor(s'.table, ids[i]).Some?;
      if s'.table.slots == [] { NoSlotFor(s'.table, ids[i]); }
    }
  }

  /** An error-shaped end of input always leaves something registered: the fence, for one. */
  lemma EofLeavesFence(
      s: Session, end: Outcome, u: Table, ids: seq<nat>, seed: Capabilities, batches: seq<seq<Event>>)
    requires |ids| == 12 == |ASKED| && Ends(s, end, u, ids, seed, [], batches, true)
    ensures s.table.slots != []
  {
    hide ASKED, SlotFor, Valid, Recorded, HasFence, Started;
    FenceIsAsked();
    var fires := Awaits(u, ids, []);
    var fed := FedTo(fires, batches);
    assert [] + fed == fed;
    FenceHeardOnly(u, ids, fed);
    SlotOfBundle(u, ids, FENCE);
    assert SlotFor(s.table, ids[FENCE]) == Left(u, ids, fed, false, FENCE);
    if s.table.slots == [] { NoSlotFor(s.table, ids[FENCE]); }
  }

  lemma FenceHeardOnly(u: Table, ids: seq<nat>, fed: seq<Event>)
    requires |ids| == 12 == |ASKED| && !(Awaits(u, ids, []) && HasFence(fed))
    ensures Heard(u, ids, fed)[FENCE] == None
  {
    hide SlotFor, FirstMatch;
    FenceIsAsked();
    NothingMatches(ExpectPrimaryDeviceAttributes);
  }

  /** A probe that ends with findings leaves nothing registered if and only if no error-shaped end of input ended it
      and it cleared all that failed probes had left. */
  lemma FoundLeavesNothingExactly(s: Session, seed: Capabilities, polls: seq<Poll>, limit: nat, tables: Tables)
    requires s.decoder.parser.Valid() && Reachable(s.decoder.parser, limit) && Orderly(s)
    ensures |ProbeIds(s)| == |ASKED|
    ensures var (s', end) := ProbeCapabilities(s, None, seed, true, polls, limit, tables);
      var fires := Awaits(BeginProbe(s).0.table, ProbeIds(s), []);
      end.Found? ==>
        (s'.table.slots == [] <==>
           && !StopsAtEof(s.decoder, fires, polls, limit, tables)
           && Clears(s, FedTo(fires, Batches(s.decoder, LeadingReads(polls), limit, tables))))
  {
    hide Sweep, BeginProbe, ASKED, Heard, Started, SlotFor, Orderly, Leaves, Valid, ProbeIds, ProbeCapabilities,
      StopsAtEof, Awaits, Recorded, HasFence, Batches, FedTo, Clears;
    FenceIsAsked();
    ProbeIsFirstMatch(s, None, seed, true, polls, limit, tables);
    var (s', end) := ProbeCapabilities(s, None, seed, true, polls, limit, tables);
    var u, ids := BeginProbe(s).0.table, ProbeIds(s);
    var fires := Awaits(u, ids, []);
    var fed := FedTo(fires, Batches(s.decoder, LeadingReads(polls), limit, tables));
    assert [] + fed == fed;
    if end.Found? {
      if StopsAtEof(s.decoder, fires, polls, limit, tables) {
        EofLeavesFence(s', end, u, ids, seed, Batches(s.decoder, LeadingReads(polls), limit, tables));
      } else {
        LeavesNothingExactly(s, s', fed);
      }
    }
  }

  lemma NothingToClear(s: Session, fed: seq<Event>)
    requires |ProbeIds(s)| == |ASKED| && Sweep(s).table.slots == []
    ensures Clears(s, fed)
  {
    hide Sweep, BeginProbe, ASKED, Heard, SlotFor, ProbeIds;
    forall i: nat | i < |ASKED| ensures SlotFor(Sweep(s).table, ProbeIds(s)[i]) == None {
      NoSlotFor(Sweep(s).table, ProbeIds(s)[i]);
    }
  }

  /** Whether probes leave nothing registered is known before they start: every probe that ends with findings, and
      not by an error-shaped end of input, leaves nothing registered if and only if nothing is once the last query
      is swept. */
  lemma ProbesLeaveNothingExactly(s: Session, seed: Capabilities, limit: nat, tables: Tables)
    requires s.decoder.parser.Valid() && Reachable(s.decoder.parser, limit) && Orderly(s)
    ensures |ProbeIds(s)| == |ASKED|
    ensures
      (forall polls ::
         var (s', end) := ProbeCapabilities(s, None, seed, true, polls, limit, tables);
         end.Found? && !StopsAtEof(s.decoder, Awaits(BeginProbe(s).0.table, ProbeIds(s), []), polls, limit, tables)
         ==> s'.table.slots == [])
      <==> Sweep(s).table.slots == []
  {
    hide Sweep, BeginProbe, ASKED, Heard, Started, SlotFor, Orderly, Leaves, Valid, ProbeIds, ProbeCapabilities,
      StopsAtEof, Awaits, Recorded, HasFence, Clears, Batches;
    BeginProbeStarts(s);
    if Sweep(s).table.slots == [] {
      forall polls
        ensures var (s', end) := ProbeCapabilities(s, None, seed, true, polls, limit, tables);
          end.Found? && !StopsAtEof(s.decoder, Awaits(BeginProbe(s).0.table, ProbeIds(s), []), polls, limit, tables)
          ==> s'.table.slots == []
      {
        FoundLeavesNothingExactly(s, seed, polls, limit, tables);
        NothingToClear(s, FedTo(Awaits(BeginProbe(s).0.table, ProbeIds(s), []),
                                Batches(s.decoder, LeadingReads(polls), limit, tables)));
      }
    } else {
      SilentProbeLeavesSlots(s, seed, limit, tables);
    }
  }

  /** A silent terminal clears nothing. */
  lemma SilentProbeLeavesSlots(s: Session, seed: Capabilities, limit: nat, tables: Tables)
    requires s.decoder.parser.Valid() && Reachable(s.decoder.parser, limit) && Orderly(s)
    requires Sweep(s).table.slots != []
    ensures |ProbeIds(s)| == |ASKED|
    ensures var (s', end) := ProbeCapabilities(s, None, seed, true, [], limit, tables);
      && end == Found(seed) && s'.table.slots != []
      && !StopsAtEof(s.decoder, Awaits(BeginProbe(s).0.table, ProbeIds(s), []), [], limit, tables)
  {
    hide Sweep, BeginProbe, ASKED, Heard, Started, SlotFor, Orderly, Valid, ProbeIds, Awaits, Recorded, Leaves,
      HasFence, ResolveEach, Widens;
    BeginProbeStarts(s);
    FoundLeavesNothingExactly(s, seed, [], limit, tables);
    var t := Sweep(s).table;
    SweepFreesQuery(s);
    var k := t.slots[0].id;
    SlotIsFound(t, 0);
    LeftoverIsJoined(s, k);
    var i: nat :| i < |ASKED| && ProbeIds(s)[i] == k;
    NothingHeard(BeginProbe(s).0.table, ProbeIds(s), seed);
    var fires := Awaits(BeginProbe(s).0.table, ProbeIds(s), []);
    assert FedTo(fires, Batches(s.decoder, LeadingReads([]), limit, tables)) == [];
    assert !Clears(s, []);
  }

  /** What a failed probe left is joined by the next. */
  lemma LeftoverIsJoined(s: Session, k: nat)
    requires Orderly(s) && SlotFor(Sweep(s).table, k).Some?
    ensures |ProbeIds(s)| == |ASKED| && exists i: nat :: i < |ASKED| && ProbeIds(s)[i] == k
  {
    hide Sweep, ASKED, SlotFor, Orderly, Valid, RegisterEach, RegisterBundle, IsRegistered, Widens;
    BeginProbeStarts(s);
    SweepFreesQuery(s);
    var t := Sweep(s).table;
    BundleIsEach(t);
    if k !in ProbeIds(s) {
      RegisterEachRest(t, ASKED, k);
      assert false;
    } else {
      var i :| 0 <= i < |ProbeIds(s)| && ProbeIds(s)[i] == k;
    }
  }

  // ----- The state it leaves -----

  /** What is left of a slot keeps its expectation. */
  lemma LeftKeepsExpectation(u: Table, ids: seq<nat>, fed: seq<Event>, cleaned: bool, i: nat)
    requires Started(u, ids) && i < |ASKED|
    ensures SlotFor(u, ids[i]).Some?
    ensures var left := Left(u, ids, fed, cleaned, i);
      left.Some? ==> left.value.expectation == ASKED[i]
  {
    hide ASKED, SlotFor, Valid, Heard;
  }

  lemma LeavesOrderly(s: Session, u: Table, ids: seq<nat>, fed: seq<Event>, cleaned: bool)
    requires Leaves(s, u, ids, fed, cleaned) && s.active == None
    ensures Orderly(s)
  {
    hide ASKED, SlotFor, Valid, Heard, Started, Left;
    StartedLength(u, ids);
    forall k: nat | SlotFor(s.table, k).Some? ensures SlotFor(s.table, k).value.expectation in ASKED {
      assert k in ids;
      var i: nat :| i < |ids| && ids[i] == k;
      LeftKeepsExpectation(u, ids, fed, cleaned, i);
      assert SlotFor(s.table, ids[i]) == Left(u, ids, fed, cleaned, i);
    }
  }

  /** A probe leaves a state such as it started from. */
  lemma ProbeKeepsOrderly(
      s: Session, skip: Option<Capabilities>, seed: Capabilities, sent: bool, polls: seq<Poll>,
      limit: nat, tables: Tables)
    requires s.decoder.parser.Valid() && Reachable(s.decoder.parser, limit) && Orderly(s)
    ensures Orderly(ProbeCapabilities(s, skip, seed, sent, polls, limit, tables).0)
  {
    hide BeginProbe, ASKED, Leaves, Valid, ProbeIds, ProbeCapabilities, StopsAtEof, Awaits, Recorded, HasFence,
      Batches, FedTo, Heard, SlotFor, Orderly;
    ProbeIsFirstMatch(s, skip, seed, sent, polls, limit, tables);
    var (s', end) := ProbeCapabilities(s, skip, seed, sent, polls, limit, tables);
    if skip.None? {
      var u, ids := BeginProbe(s).0.table, ProbeIds(s);
      var fires := Awaits(u, ids, []);
      var eof := StopsAtEof(s.decoder, fires, polls, limit, tables);
      var fed := [] + FedTo(fires, Batches(s.decoder, LeadingReads(polls), limit, tables));
      LeavesOrderly(s', u, ids, if sent then fed else [], sent && end != Failed && !eof);
    }
  }

  // ----- Every byte is accounted for -----

  /** The bytes a probe in progress reads. */
  function Consumed(s: Session, b: Bundle, polls: seq<Poll>, limit: nat, tables: Tables): Bytes
    requires s.decoder.parser.Valid()
    decreases |polls|
  {
    if polls == [] || !polls[0].Readable? || polls[0].chunk == [] then []
    else
      var (read, replies) := SyncSession.Read(s, b.Ids(), polls[0].chunk, limit, tables);
      polls[0].chunk + if Fences(b, replies) then [] else Consumed(read, b, polls[1..], limit, tables)
  }

  /** The probe ended, and so left its polls, at entry `n`. */
  ghost predicate StopsAt(polls: seq<Poll>, n: nat, end: Outcome) {
    && n <= |polls|
    && match end
       case Found(_) => true
       case NotSupported => n < |polls| && polls[n] == NoDescriptor
       case Failed => n < |polls| && (polls[n] == PollFailed || polls[n] == ReadFailed)
       case Skipped(_) => false
  }

  /** The bytes a probe reads are those of its polls up to where it ends. */
  lemma {:induction false} AwaitFenceReads(
      s: Session, b: Bundle, caps: Capabilities, polls: seq<Poll>, limit: nat, tables: Tables) returns (n: nat)
    requires s.decoder.parser.Valid()
    ensures StopsAt(polls, n, AwaitFence(s, b, caps, polls, limit, tables).1)
    ensures Consumed(s, b, polls, limit, tables) == ChunksOf(polls[..n])
    decreases |polls|
  {
    hide ReadChunk, Conclude, StoreEach, Fences;
    n := 0;
    assert polls[..0] == [];
    if polls != [] && polls[0].Readable? && polls[0].chunk != [] {
      var (read, replies) := SyncSession.Read(s, b.Ids(), polls[0].chunk, limit, tables);
      if !Fences(b, replies) {
        n := AwaitFenceReads(read, b, StoreEach(b, replies, caps), polls[1..], limit, tables);
      }
      assert polls[..n + 1][1..] == polls[1..][..n];
      assert polls[1..][..0] == [];
      n := n + 1;
    }
  }

  function ProbeReads(
      s: Session, skip: Option<Capabilities>, sent: bool, polls: seq<Poll>, limit: nat, tables: Tables): Bytes
    requires s.decoder.parser.Valid()
  {
    if skip.Some? || !sent then [] else Consumed(BeginProbe(s).0, BeginProbe(s).1, polls, limit, tables)
  }

  lemma ConcludingReadsNothing(s: Session, b: Bundle, limit: nat)
    requires InOrder(s, limit)
    ensures Attributes(s, s, [], limit) && Attributes(s, Conclude(s, b), [], limit)
    ensures Attributes(s, Conclude(s, b).(active := None), [], limit)
  {
    hide Narrows, IsExact, IsAnswered, SpanReplies, ResolveEach, Attributes, InStep, AllSilent;
    ResolveEachNarrows(s.table, b.Ids());
    NarrowsSelf(s.table);
    NothingRead(s, s, limit);
    NothingRead(s, Conclude(s, b), limit);
    NothingRead(s, Conclude(s, b).(active := None), limit);
  }

  lemma {:induction false} AwaitFenceAttributes(
      s: Session, b: Bundle, caps: Capabilities, polls: seq<Poll>, limit: nat, tables: Tables)
    requires InOrder(s, limit) && s.decoder.parser.Valid()
    ensures Attributes(s, AwaitFence(s, b, caps, polls, limit, tables).0, Consumed(s, b, polls, limit, tables), limit)
    decreases |polls|
  {
    hide InOrder, SyncSession.Read, Conclude, Attributes, StoreEach, Fences;
    var end := AwaitFence(s, b, caps, polls, limit, tables).0;
    if polls == [] || !polls[0].Readable? || polls[0].chunk == [] {
      ConcludingReadsNothing(s, b, limit);
    } else {
      var chunk := polls[0].chunk;
      var (read, replies) := SyncSession.Read(s, b.Ids(), chunk, limit, tables);
      ReadAttributes(s, b.Ids(), chunk, limit, tables);
      AttributesInOrder(s, read, chunk, limit);
      if Fences(b, replies) {
        ConcludingReadsNothing(read, b, limit);
        AttributesThen(s, read, end, chunk, [], limit);
      } else {
        AwaitFenceAttributes(read, b, StoreEach(b, replies, caps), polls[1..], limit, tables);
        AttributesThen(s, read, end, chunk, Consumed(read, b, polls[1..], limit, tables), limit);
      }
    }
  }

  lemma BeginProbeReadsNothing(s: Session, limit: nat)
    requires InOrder(s, limit)
    ensures Attributes(s, BeginProbe(s).0, [], limit)
  {
    hide InOrder, Sweep, RegisterBundle, RegisterEach, BundleOf, Minted, Widens, Waiting, Attributes, ASKED, Valid;
    SweepReadsNothing(s, limit);
    AttributesInOrder(s, Sweep(s), [], limit);
    BundleIsEach(Sweep(s).table);
    RegisterEachWidens(Sweep(s).table, ASKED);
    NothingReadBy(Sweep(s), BeginProbe(s).0, limit);
    AttributesThen(s, Sweep(s), BeginProbe(s).0, [], [], limit);
    var nothing: Bytes := [];
    assert nothing + [] == [];
  }

  /** A probe loses no byte it reads. */
  lemma ProbeAttributes(
      s: Session, skip: Option<Capabilities>, seed: Capabilities, sent: bool, polls: seq<Poll>,
      limit: nat, tables: Tables)
    requires InOrder(s, limit) && s.decoder.parser.Valid()
    ensures Attributes(s, ProbeCapabilities(s, skip, seed, sent, polls, limit, tables).0,
                       ProbeReads(s, skip, sent, polls, limit, tables), limit)
  {
    hide InOrder, AwaitFence, Consumed, BeginProbe, Attributes;
    var s' := ProbeCapabilities(s, skip, seed, sent, polls, limit, tables).0;
    ConcludingReadsNothing(s, BeginProbe(s).1, limit);
    BeginProbeReadsNothing(s, limit);
    var begun := BeginProbe(s).0;
    AttributesInOrder(s, begun, [], limit);
    if skip.None? && sent {
      AwaitFenceAttributes(begun, BeginProbe(s).1, seed, polls, limit, tables);
      var read := Consumed(begun, BeginProbe(s).1, polls, limit, tables);
      AttributesThen(s, begun, s', [], read, limit);
      assert [] + read == read;
    }
  }

  // ----- When the fence ends the probe -----

  predicate AllReads(polls: seq<Poll>) {
    forall i :: 0 <= i < |polls| ==> polls[i].Readable? && polls[i].chunk != []
  }

  /** A late reply has answered the fence's slot that a failed probe left. */
  ghost predicate FenceAnswered(t: Table) {
    exists k: nat ::
      && SlotFor(t, k).Some? && SlotFor(t, k).value.expectation == ExpectPrimaryDeviceAttributes
      && SlotFor(t, k).value.reply.Some?
  }

  /** The fence's slot waits unless that is what it joined. */
  lemma FenceWaitsExactly(s: Session)
    requires Orderly(s)
    ensures |ProbeIds(s)| == |ASKED| == 12
    ensures Waiting(BeginProbe(s).0.table, ProbeIds(s)[FENCE]) <==> !FenceAnswered(Sweep(s).table)
  {
    hide Sweep, RegisterEach, RegisterBundle, ASKED, Started, Widens, SlotFor, Orderly, Minted;
    BeginProbeStarts(s);
    FenceIsAsked();
    SweepFreesQuery(s);
    var t, u, ids := Sweep(s).table, BeginProbe(s).0.table, ProbeIds(s);
    assert IsRegistered(SlotFor(t, ids[FENCE]), SlotFor(u, ids[FENCE]), ids[FENCE], ASKED[FENCE]);
    BundleSlot(u, ids, FENCE);
    if FenceAnswered(t) {
      var k: nat :| SlotFor(t, k).Some? && SlotFor(t, k).value.expectation == ExpectPrimaryDeviceAttributes
        && SlotFor(t, k).value.reply.Some?;
      JoinedSlotIs(s, k);
    }
  }

  /** The fence of a probe that starts beside a slot for the same expectation is that slot. */
  lemma JoinedSlotIs(s: Session, k: nat)
    requires Orderly(s) && SlotFor(Sweep(s).table, k).Some?
    requires SlotFor(Sweep(s).table, k).value.expectation == ExpectPrimaryDeviceAttributes
    ensures |ProbeIds(s)| == |ASKED| == 12 && ProbeIds(s)[FENCE] == k
  {
    hide Sweep, RegisterEach, RegisterBundle, ASKED, Started, Widens, SlotFor, Orderly, Minted, Valid;
    BeginProbeStarts(s);
    FenceIsAsked();
    LeftoverIsJoined(s, k);
    var t, u, ids := Sweep(s).table, BeginProbe(s).0.table, ProbeIds(s);
    var i: nat :| i < |ASKED| && ids[i] == k;
    assert IsRegistered(SlotFor(t, ids[i]), SlotFor(u, ids[i]), ids[i], ASKED[i]);
    BundleSlot(u, ids, i);
    if i < FENCE { AskedAreDistinct(i, FENCE); }
  }

  lemma {:induction false} UnfencedReadsAll(
      s: Session, u: Table, ids: seq<nat>, seed: Capabilities, caps: Capabilities, fed: seq<Event>, polls: seq<Poll>,
      limit: nat, tables: Tables)
    requires |ids| == 12 == |ASKED| && InOrder(s, limit) && s.decoder.parser.Valid()
    requires Gathered(s.table, u, ids, seed, caps, fed) && !Waiting(u, ids[FENCE]) && AllReads(polls)
    ensures Consumed(s, BundleOf(ids), polls, limit, tables) == ChunksOf(polls)
    decreases |polls|
  {
    hide SyncSession.Read, Gathered, ASKED, Waiting, InOrder, StoreEach, Fences, HasFence, BundleOf, ReadOnce,
      Elements, NewlyHeard, Attributes;
    if polls != [] {
      var b, chunk := BundleOf(ids), polls[0].chunk;
      var (read, replies) := SyncSession.Read(s, b.Ids(), chunk, limit, tables);
      var o := ReadOnce(s.decoder, DrainBoundary.Read(chunk, true), limit, tables);
      InOrderIsReachable(s, limit);
      ReadStanding(s, u, ids, seed, caps, fed, chunk, limit, tables);
      ReadAttributes(s, b.Ids(), chunk, limit, tables);
      AttributesInOrder(s, read, chunk, limit);
      UnfencedReadsAll(read, u, ids, seed, StoreEach(b, replies, caps), fed + o.events, polls[1..], limit, tables);
    }
  }

  /** The read that holds the fence's answer is the last a probe makes if and only if no late reply had answered the
      fence that a failed probe left; if one had, the probe reads on to its deadline. */
  lemma FenceEndsExactly(
      s: Session, seed: Capabilities, chunk: Bytes, more: seq<Poll>, limit: nat, tables: Tables)
    requires InOrder(s, limit) && s.decoder.parser.Valid() && Orderly(s)
    requires chunk != [] && more != [] && AllReads(more)
    requires HasFence(ReadOnce(s.decoder, DrainBoundary.Read(chunk, true), limit, tables).events)
    ensures ProbeReads(s, None, true, [Readable(chunk)] + more, limit, tables) == chunk
       <==> !FenceAnswered(Sweep(s).table)
  {
    hide SyncSession.Read, Gathered, ASKED, Waiting, InOrder, StoreEach, Fences, HasFence, BundleOf, ReadOnce,
      Elements, NewlyHeard, Attributes, Orderly, BeginProbe, ProbeIds, FenceAnswered, SlotFor, Started, Widens, Sweep,
      IsRegistered, Valid;
    BeginProbeStarts(s);
    FenceWaitsExactly(s);
    BeginProbeReadsNothing(s, limit);
    var (begun, b) := BeginProbe(s);
    var u, ids := begun.table, ProbeIds(s);
    AttributesInOrder(s, begun, [], limit);
    GatheredAtFirst(u, ids, seed);
    var polls := [Readable(chunk)] + more;
    assert polls[1..] == more;
    InOrderIsReachable(begun, limit);
    ReadStanding(begun, u, ids, seed, seed, [], chunk, limit, tables);
    NoSpanEvents();
    NoFence();
    AwaitsLater(u, ids, [], []);
    if FenceAnswered(Sweep(s).table) {
      assert AllReads(polls);
      UnfencedReadsAll(begun, u, ids, seed, seed, [], polls, limit, tables);
      assert ChunksOf(polls) == chunk + ChunksOf(more) && |ChunksOf(more)| > 0;
    }
  }

  // ----- What a probe withholds from typeahead -----

  lemma {:induction false} AwaitFenceReplies(
      s: Session, u: Table, ids: seq<nat>, seed: Capabilities, caps: Capabilities, fed: seq<Event>, polls: seq<Poll>,
      limit: nat, tables: Tables)
    requires |ids| == 12 == |ASKED| && InOrder(s, limit) && s.decoder.parser.Valid()
    requires Gathered(s.table, u, ids, seed, caps, fed) && (Waiting(u, ids[FENCE]) ==> !HasFence(fed))
    ensures var s' := AwaitFence(s, BundleOf(ids), caps, polls, limit, tables).0;
      && s.log <= s'.log
      && Elements(SpanReplies(s'.log[|s.log|..]))
           == NewlyHeard(
                u, ids, fed, FedTo(Awaits(u, ids, fed), Batches(s.decoder, LeadingReads(polls), limit, tables)))
    decreases |polls|
  {
    hide SyncSession.Read, Gathered, ASKED, Elements, NewlyHeard, Waiting, InOrder,
      StoreEach, Fences, HasFence, BundleOf, ReadOnce, ResolveEach, Awaits, SpanReplies;
    var b := BundleOf(ids);
    var batches := Batches(s.decoder, LeadingReads(polls), limit, tables);
    var fires := Awaits(u, ids, fed);
    var s' := AwaitFence(s, b, caps, polls, limit, tables).0;
    assert s.log[|s.log|..] == [];
    if batches != [] {
      var chunk := polls[0].chunk;
      var (read, replies) := SyncSession.Read(s, b.Ids(), chunk, limit, tables);
      var o := ReadOnce(s.decoder, DrainBoundary.Read(chunk, true), limit, tables);
      InOrderIsReachable(s, limit);
      ReadStanding(s, u, ids, seed, caps, fed, chunk, limit, tables);
      ReadLogsReplies(s, b.Ids(), chunk, limit, tables);
      ReadAttributes(s, b.Ids(), chunk, limit, tables);
      AttributesInOrder(s, read, chunk, limit);
      AwaitsLater(u, ids, fed, o.events);
      assert batches[0] == o.events && batches[1..] == Batches(o.state, LeadingReads(polls[1..]), limit, tables);
      if !Fences(b, replies) {
        AwaitFenceReplies(
          read, u, ids, seed, StoreEach(b, replies, caps), fed + o.events, polls[1..], limit, tables);
        var added, later := read.log[|s.log|..], s'.log[|read.log|..];
        assert s'.log[|s.log|..] == added + later;
        SpanRepliesAppend(added, later);
        ElementsAppend(SpanReplies(added), SpanReplies(later));
        NewlyHeardAppend(u, ids, fed, o.events, FedTo(fires, batches[1..]));
      }
    } else {
      assert fed + [] == fed;
      NothingNewlyHeard(u, ids, fed, []);
      NoElements();
      NoSpanReplies();
    }
  }

  lemma InOrderIsReachable(s: Session, limit: nat)
    requires InOrder(s, limit)
    ensures s.decoder.parser.Valid() && Reachable(s.decoder.parser, limit) && Valid(s.table)
  {
    hide IsExact, IsAnswered, Reachable;
  }

  /** The replies a read returns are those of the spans it logged. */
  lemma ReadLogsReplies(s: Session, ids: seq<nat>, chunk: Bytes, limit: nat, tables: Tables)
    requires InOrder(s, limit) && s.decoder.parser.Valid()
    ensures var (read, replies) := SyncSession.Read(s, ids, chunk, limit, tables);
      s.log <= read.log && SpanReplies(read.log[|s.log|..]) == replies
  {
    hide ReadChunk, IsExact, IsAnswered, InStep, AllSilent, SpanReplies, Serves;
    ChunkGains(ReadingOf(s), ids, chunk, limit, tables, s.asked);
    var r := ReadChunk(ReadingOf(s), ids, chunk, limit, tables);
    assert r.spans[0..] == r.spans && [] + SpanReplies(r.spans) == SpanReplies(r.spans);
    assert (s.log + r.spans)[|s.log|..] == r.spans;
  }

  /** The first answer heard to each expectation, with the id it answers. */
  function AllHeard(u: Table, ids: seq<nat>, fed: seq<Event>): set<(nat, Reply)>
    requires |ids| == |ASKED|
  {
    set i: nat | i < |ASKED| && Heard(u, ids, fed)[i].Some? :: (ids[i], Heard(u, ids, fed)[i].value)
  }

  /** The replies taken from the spans a probe adds are exactly the answers it heard, each with the id it answers;
      every other span is typeahead. */
  lemma ProbeWithholdsItsReplies(
      s: Session, seed: Capabilities, polls: seq<Poll>, limit: nat, tables: Tables)
    requires InOrder(s, limit) && s.decoder.parser.Valid() && Orderly(s)
    ensures |ProbeIds(s)| == |ASKED|
    ensures var (begun, s') := (BeginProbe(s).0, ProbeCapabilities(s, None, seed, true, polls, limit, tables).0);
      var fires := Awaits(begun.table, ProbeIds(s), []);
      && s.log <= s'.log
      && Elements(SpanReplies(s'.log[|s.log|..]))
           == AllHeard(begun.table, ProbeIds(s), FedTo(fires, Batches(s.decoder, LeadingReads(polls), limit, tables)))
  {
    hide InOrder, AwaitFence, BeginProbe, Gathered, ASKED, Elements, Heard, Waiting, BundleOf, Awaits, HasFence,
      SpanReplies, Batches, FedTo, Orderly, Sweep, Started, Widens, SlotFor, Valid, IsRegistered, ProbeIds;
    BeginProbeStarts(s);
    BeginProbeReadsNothing(s, limit);
    var (begun, b) := BeginProbe(s);
    var ids := ProbeIds(s);
    AttributesInOrder(s, begun, [], limit);
    GatheredAtFirst(begun.table, ids, seed);
    NoSpanEvents();
    NoFence();
    AwaitFenceReplies(begun, begun.table, ids, seed, seed, [], polls, limit, tables);
    var fed := FedTo(Awaits(begun.table, ids, []), Batches(s.decoder, LeadingReads(polls), limit, tables));
    NothingHeard(begun.table, ids, seed);
    assert [] + fed == fed;
    assert NewlyHeard(begun.table, ids, [], fed) == AllHeard(begun.table, ids, fed);
  }
}
