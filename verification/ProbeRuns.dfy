/** The asynchronous probe against a reference that only looks for first matches. */
module ProbeRuns {
  import opened Bytes
  import opened Events
  import opened DrainBoundary
  import opened Correlate
  import opened CorrelatorTable
  import opened CorrelatorRuns
  import opened Answers
  import opened Tallies
  import opened EventFates
  import opened EventFeeds
  import opened Probe
  import opened Gathering
  import opened TokioSession
  import opened TokioConservation
  import opened TokioRuns

  // ----- The reference -----

  /** What the probe concludes from those events: each field from its own query's first answer. */
  function Concluded(seed: Capabilities, batches: seq<seq<Event>>): Capabilities {
    Recorded(seed, FirstAnswers(FedTo(true, batches)))
  }

  // ----- The probe -----

  /** A probe in progress: its bundle alone is registered, less what has been answered. */
  ghost predicate Probing(
      s: Session, u: Table, ids: seq<nat>, seed: Capabilities, caps: Capabilities, fed: seq<Event>) {
    && |ids| == 12 && AllWait(u, ids) && Gathered(s.table, u, ids, seed, caps, fed)
    && s.activeQuery == None && s.activeProbe == BundleOf(ids).Ids()
  }

  lemma GatherSteps(
      s: Session, u: Table, ids: seq<nat>, seed: Capabilities, caps: Capabilities, fed: seq<Event>, from: nat)
    requires Probing(s, u, ids, seed, caps, fed) && !HasFence(fed) && from <= |s.pending| && Valid(s.table)
    ensures var g := Gather(s, BundleOf(ids), caps, from);
      var all := fed + s.pending[from..];
      && Probing(g.session, u, ids, seed, g.caps, all)
      && g.session.decoder == s.decoder && g.session.arrived == s.arrived
      && g.fenced == HasFence(s.pending[from..]) == HasFence(all)
  {
    hide Gathered, FirstMatch, Valid, FeedBatch, BundleOf, AllWait;
    BatchGathers(s.table, u, ids, seed, caps, fed, s.pending[from..]);
    FirstMatchAppend(ExpectPrimaryDeviceAttributes, fed, s.pending[from..]);
    FenceWaits(u, ids);
  }

  lemma FenceWaits(u: Table, ids: seq<nat>)
    requires AllWait(u, ids)
    ensures |ids| == 12 && Waiting(u, ids[FENCE])
  {
    hide ASKED;
    FenceIsAsked();
  }

  /** A probe that ended, from a point where `fed` had been fed and `batches` were still to come. */
  ghost predicate ProbeEnds(
      s: Session, s': Session, end: Ended<Capabilities>, seed: Capabilities, fed: seq<Event>,
      batches: seq<seq<Event>>) {
    && Owned(s') && s.arrived <= s'.arrived
    && (end.Finished? ==>
          && fed + s'.arrived[|s.arrived|..] == fed + FedTo(true, batches)
          && end.value == Recorded(seed, FirstAnswers(fed + FedTo(true, batches))))
    && (HasFence(FedTo(true, batches)) ==> end.Finished?)
    && (end != Abandoned ==> s'.table.slots == [] && s'.activeQuery == None && s'.activeProbe == [])
  }

  lemma FinishedIsOwned(s: Session)
    requires s.table.slots == [] && s.activeQuery == None && s.activeProbe == []
    ensures Owned(s)
  {
  }

  lemma ProbingIsOwned(
      s: Session, u: Table, ids: seq<nat>, seed: Capabilities, caps: Capabilities, fed: seq<Event>)
    requires Probing(s, u, ids, seed, caps, fed)
    ensures Owned(s)
  {
    hide SlotFor, Valid, BundleOf, ASKED, Recorded, Heard, Started;
    GatheredIsValid(s.table, u, ids, seed, caps, fed);
    BundleIdsAreDistinct(u, ids);
    forall k: nat | SlotFor(s.table, k).Some?
      ensures Owns(s, k) && SlotFor(s.table, k).value.outstanding == 1
    {
      NarrowsAt(u, s.table, k);
      SlotIsOfBundle(u, ids, k);
      SlotHasWaiter(s.table, k);
    }
  }

  lemma SlotIsOfBundle(u: Table, ids: seq<nat>, k: nat)
    requires AllWait(u, ids)
    ensures SlotFor(u, k).Some? ==> k in ids && SlotFor(u, k).value.outstanding == 1
  {
    hide ASKED, SlotFor, Valid;
    if SlotFor(u, k).Some? { var i :| 0 <= i < |ids| && ids[i] == k; }
  }

  lemma FinishEnds(s: Session, u: Table, ids: seq<nat>, seed: Capabilities, caps: Capabilities, fed: seq<Event>)
    requires Probing(s, u, ids, seed, caps, fed)
    ensures var s' := FinishProbe(s, BundleOf(ids));
      && s'.table.slots == [] && s'.activeQuery == None && s'.activeProbe == [] && Owned(s')
      && s'.arrived == s.arrived && s'.fates == s.fates
  {
    hide Gathered, ResolveEach, BundleOf, Owned, SlotFor, ASKED, Started;
    GatheredIsValid(s.table, u, ids, seed, caps, fed);
    StartedLength(u, ids);
    FinishingEmpties(s.table, u, ids, seed, caps, fed);
    FinishedIsOwned(FinishProbe(s, BundleOf(ids)));
  }

  lemma CapsAreRecorded(s: Session, u: Table, ids: seq<nat>, seed: Capabilities, caps: Capabilities, fed: seq<Event>)
    requires Probing(s, u, ids, seed, caps, fed)
    ensures caps == Recorded(seed, FirstAnswers(fed)) && Valid(s.table)
  {
    hide Gathered, Recorded, AllWait;
    HeardWhenAllWait(u, ids, fed);
    GatheredIsValid(s.table, u, ids, seed, caps, fed);
  }

  lemma {:induction false} AwaitFenceEnds(
      s: Session, u: Table, ids: seq<nat>, seed: Capabilities, caps: Capabilities, fed: seq<Event>,
      script: seq<Awaited>, limit: nat, tables: Tables)
    requires |ids| == 12 && s.decoder.parser.Valid() && Valid(s.table)
    requires Probing(s, u, ids, seed, caps, fed) && !HasFence(fed)
    ensures var (s', end) := AwaitFence(s, BundleOf(ids), caps, script, limit, tables);
      ProbeEnds(s, s', end, seed, fed, Batches(s.decoder, LeadingReads(script), limit, tables))
    decreases |script|
  {
    hide Receive, Gather, FirstMatch, Probing, Owned, FinishProbe, BundleOf, Recorded, FirstAnswers, Valid;
    var (s', end) := AwaitFence(s, BundleOf(ids), caps, script, limit, tables);
    var batches := Batches(s.decoder, LeadingReads(script), limit, tables);
    if batches != [] {
      var read := script[0].read;
      var received := Receive(s, read, limit, tables);
      var o := ReadOnce(s.decoder, read, limit, tables);
      ReceiveKeepsRegistrations(s, read, limit, tables);
      ProbingOnRegistrations(s, received, u, ids, seed, caps, fed);
      assert received.pending[|s.pending|..] == o.events;
      GatherSteps(received, u, ids, seed, caps, fed, |s.pending|);
      var g := Gather(received, BundleOf(ids), caps, |s.pending|);
      CapsAreRecorded(g.session, u, ids, seed, g.caps, fed + o.events);
      assert batches[0] == o.events && batches[1..] == Batches(o.state, LeadingReads(script[1..]), limit, tables);
      if g.fenced {
        FinishEnds(g.session, u, ids, seed, g.caps, fed + o.events);
        assert s'.arrived[|s.arrived|..] == o.events;
      } else {
        AwaitFenceEnds(g.session, u, ids, seed, g.caps, fed + o.events, script[1..], limit, tables);
        FirstMatchAppend(ExpectPrimaryDeviceAttributes, o.events, FedTo(true, batches[1..]));
        BatchThenRest(s.arrived, o.events, s'.arrived, fed, FedTo(true, batches[1..]));
      }
    } else {
      NoFence();
      assert fed + FedTo(true, batches) == fed;
      CapsAreRecorded(s, u, ids, seed, caps, fed);
      FinishEnds(s, u, ids, seed, caps, fed);
      ProbingIsOwned(s, u, ids, seed, caps, fed);
      assert s'.arrived[|s.arrived|..] == [];
    }
  }

  lemma BatchThenRest(arrived: seq<Event>, events: seq<Event>, all: seq<Event>, fed: seq<Event>, rest: seq<Event>)
    requires arrived + events <= all
    ensures arrived <= all && all[|arrived|..] == events + all[|arrived + events|..]
    ensures (fed + events) + rest == fed + (events + rest)
    ensures (fed + events) + all[|arrived + events|..] == fed + all[|arrived|..]
  {
    assert all[|arrived|..] == events + all[|arrived + events|..];
  }

  lemma ProbingOnRegistrations(
      s: Session, s': Session, u: Table, ids: seq<nat>, seed: Capabilities, caps: Capabilities, fed: seq<Event>)
    requires Probing(s, u, ids, seed, caps, fed)
    requires s'.table == s.table && s'.activeQuery == s.activeQuery && s'.activeProbe == s.activeProbe
    ensures Probing(s', u, ids, seed, caps, fed)
  {
    hide Gathered, AllWait, BundleOf;
  }

  /** A probe that begins on a table cancellations could have left. */
  lemma BegunProbes(s: Session, seed: Capabilities)
    requires Owned(s)
    ensures var (begun, b) := BeginProbe(s);
      var ids := FreshIds(SweepProbe(SweepQuery(s)).table.nextId);
      && b == BundleOf(ids) && Probing(begun, begun.table, ids, seed, seed, []) && Valid(begun.table)
      && begun.arrived == s.arrived && begun.pending == s.pending && begun.decoder == s.decoder
      && begun.fates == s.fates
  {
    hide Gathered, Owned, BundleOf, BeginProbe, Valid, AskedTable, SweepProbe, SweepQuery;
    ProbeMintsFresh(s);
    ProbeKeepsHistory(s);
    GatheredAtFirst(BeginProbe(s).0.table, FreshIds(SweepProbe(SweepQuery(s)).table.nextId), seed);
  }

  lemma ProbeKeepsHistory(s: Session)
    ensures var begun := BeginProbe(s).0;
      && begun.arrived == s.arrived && begun.pending == s.pending && begun.decoder == s.decoder
      && begun.fates == s.fates
  {
  }

  /** From any state cancellations could have left, a probe that finishes has recorded for each field
      the first answer to its own query over everything up to the end of the first batch with the
      fence's answer, it has read no further, and nothing of the bundle stays registered. */
  lemma ProbeIsFirstMatch(
      s: Session, seed: Capabilities, request: Request, script: seq<Awaited>, limit: nat, tables: Tables)
    requires s.decoder.parser.Valid() && Owned(s)
    ensures Valid(BeginProbe(s).0.table)
    ensures var (s', end) := ProbeCapabilities(s, seed, request, script, limit, tables);
      var batches := [s.pending] + Batches(s.decoder, LeadingReads(script), limit, tables);
      && Owned(s') && s.arrived <= s'.arrived
      && (end.Finished? ==>
            && end.value == Concluded(seed, batches)
            && s.pending + s'.arrived[|s.arrived|..] == FedTo(true, batches)
            && s'.table.slots == [] && s'.activeQuery == None && s'.activeProbe == [])
      && (request == Written && HasFence(FedTo(true, batches)) ==> end.Finished?)
  {
    hide Gather, FirstMatch, Probing, Owned, FinishProbe, BundleOf, Recorded, FirstAnswers, AwaitFence, BeginProbe,
      Valid, Batches, SweepProbe, SweepQuery;
    var (begun, b) := BeginProbe(s);
    var ids := FreshIds(SweepProbe(SweepQuery(s)).table.nextId);
    BegunProbes(s, seed);
    NoFence();
    ProbingIsOwned(begun, begun.table, ids, seed, seed, []);
    if request == Written {
      var later := Batches(s.decoder, LeadingReads(script), limit, tables);
      var batches := [s.pending] + later;
      assert batches[1..] == later && batches[0] == s.pending;
      GatherSteps(begun, begun.table, ids, seed, seed, [], 0);
      assert [] + begun.pending[0..] == s.pending && s.arrived[|s.arrived|..] == [] && s.pending + [] == s.pending;
      var g := Gather(begun, b, seed, 0);
      CapsAreRecorded(g.session, begun.table, ids, seed, g.caps, s.pending);
      if g.fenced {
        FinishEnds(g.session, begun.table, ids, seed, g.caps, s.pending);
      } else {
        AwaitFenceEnds(g.session, begun.table, ids, seed, g.caps, s.pending, script, limit, tables);
        FirstMatchAppend(ExpectPrimaryDeviceAttributes, s.pending, FedTo(true, later));
      }
    }
  }

  // ----- What a probe answers -----

  /** After the events fed, each id of the bundle is answered by its expectation's first match, and is
      unanswered if there is none. */
  ghost predicate Accounted(fates: seq<Fate>, ids: seq<nat>, fed: seq<Event>) {
    && |ids| == |ASKED|
    && forall i: nat :: i < |ASKED| ==>
         match FirstMatch(ASKED[i], fed)
         case Some(reply) => Answered(ids[i], reply) in fates
         case None => AnsweredIds(fates)[ids[i]] == 0
  }

  lemma ProbingWaits(
      s: Session, u: Table, ids: seq<nat>, seed: Capabilities, caps: Capabilities, fed: seq<Event>, i: nat)
    requires Probing(s, u, ids, seed, caps, fed) && i < |ASKED|
    ensures |ids| == 12 == |ASKED|
    ensures FirstMatch(ASKED[i], fed).None? ==> Waiting(s.table, ids[i])
    ensures Heard(u, ids, fed)[i] == FirstMatch(ASKED[i], fed)
  {
    hide Gathered, AllWait, ASKED, BundleOf, FirstMatch, SlotFor, Waiting, Match;
    FenceIsAsked();
    HeardWhenAllWait(u, ids, fed);
    StillWaiting(s.table, u, ids, seed, caps, fed, i);
    EveryIdWaits(u, ids, i);
  }

  lemma EveryIdWaits(u: Table, ids: seq<nat>, i: nat)
    requires AllWait(u, ids) && i < |ASKED|
    ensures |ids| == |ASKED| && Waiting(u, ids[i])
  {
    hide ASKED;
  }

  lemma NothingAccounted(
      s: Session, u: Table, ids: seq<nat>, seed: Capabilities, caps: Capabilities, limit: nat, tables: Tables)
    requires Probing(s, u, ids, seed, caps, []) && Conserved(s, limit, tables)
    ensures Accounted(s.fates, ids, [])
  {
    hide Probing, Conserved, ASKED, FirstMatch, AnsweredIds, Waiting;
    FenceIsAsked();
    if |ASKED| > 0 { ProbingWaits(s, u, ids, seed, caps, [], 0); }
    forall i: nat | i < |ASKED| ensures FirstMatch(ASKED[i], []).None? && AnsweredIds(s.fates)[ids[i]] == 0 {
      NothingMatches(ASKED[i]);
      ProbingWaits(s, u, ids, seed, caps, [], i);
      WaitingIsUnanswered(s, ids[i], limit, tables);
    }
  }

  lemma RefineKeepsAnswers(fates: seq<Fate>, skip: nat, flags: seq<Fate>, f: Fate)
    requires LosesNothing(flags) && f in fates && !f.Kept?
    ensures f in Refine(fates, skip, flags)
  {
    hide Refine, LosesNothing;
    var i :| 0 <= i < |fates| && fates[i] == f;
    RefinedFates(fates, skip, flags, i);
  }

  lemma GatherFlags(s: Session, b: Bundle, caps: Capabilities, from: nat, f: Fate, limit: nat, tables: Tables)
    requires Conserved(s, limit, tables) && from <= |s.pending| && Valid(s.table)
    ensures var flags := FeedBatch(s.table, b, s.pending[from..], caps).flags;
      var g := Gather(s, b, caps, from);
      && g.session.fates == Refine(s.fates, |s.delivered| + from, flags)
      && (f in flags ==> f in g.session.fates)
      && (f in s.fates && !f.Kept? ==> f in g.session.fates)
  {
    hide Refine, FeedBatch, Valid, Select, Legal, LosesExactly, InStep, Tallied, AnsweredIds, Narrows, Waiting;
    var flags := FeedBatch(s.table, b, s.pending[from..], caps).flags;
    ConservedIsValid(s, limit, tables);
    BatchFeeds(s.table, b, s.pending[from..], caps, s.asked);
    var skip := |s.delivered| + from;
    if f in flags { FlagsAreRefined(s.arrived, s.fates, skip, flags, f); }
    if f in s.fates && !f.Kept? { RefineKeepsAnswers(s.fates, skip, flags, f); }
  }

  lemma GatherAccounts(
      s: Session, u: Table, ids: seq<nat>, seed: Capabilities, caps: Capabilities, fed: seq<Event>, from: nat,
      limit: nat, tables: Tables)
    requires Probing(s, u, ids, seed, caps, fed) && !HasFence(fed) && from <= |s.pending| && Valid(s.table)
    requires Conserved(s, limit, tables) && Accounted(s.fates, ids, fed)
    ensures Accounted(Gather(s, BundleOf(ids), caps, from).session.fates, ids, fed + s.pending[from..])
  {
    hide Probing, Conserved, ASKED, FirstMatch, AnsweredIds, Waiting, Gather, FeedBatch, Valid, BundleOf, HasFence,
      Keeps;
    FenceIsAsked();
    GatherSteps(s, u, ids, seed, caps, fed, from);
    GatherKeeps(s, BundleOf(ids), caps, from, limit, tables);
    var g := Gather(s, BundleOf(ids), caps, from);
    var all := fed + s.pending[from..];
    forall i: nat | i < |ASKED|
      ensures match FirstMatch(ASKED[i], all)
              case Some(reply) => Answered(ids[i], reply) in g.session.fates
              case None => AnsweredIds(g.session.fates)[ids[i]] == 0
    {
      ProbingWaits(g.session, u, ids, seed, g.caps, all, i);
      ProbingWaits(s, u, ids, seed, caps, fed, i);
      FirstMatchAppend(ASKED[i], fed, s.pending[from..]);
      match FirstMatch(ASKED[i], all)
      case None => WaitingIsUnanswered(g.session, ids[i], limit, tables);
      case Some(reply) =>
        GatherFlags(s, BundleOf(ids), caps, from, Answered(ids[i], reply), limit, tables);
        if FirstMatch(ASKED[i], fed).None? {
          ProbingIsGathered(s, u, ids, seed, caps, fed);
          BatchAnswers(s.table, u, ids, seed, caps, fed, s.pending[from..], i);
        }
    }
  }

  lemma ProbingIsGathered(
      s: Session, u: Table, ids: seq<nat>, seed: Capabilities, caps: Capabilities, fed: seq<Event>)
    requires Probing(s, u, ids, seed, caps, fed)
    ensures Gathered(s.table, u, ids, seed, caps, fed)
  {
  }

  /** One read of a probe in progress. */
  lemma ReadAccounts(
      s: Session, u: Table, ids: seq<nat>, seed: Capabilities, caps: Capabilities, fed: seq<Event>,
      read: Read, limit: nat, tables: Tables) returns (events: seq<Event>)
    requires |ids| == 12 && s.decoder.parser.Valid() && Valid(s.table)
    requires Probing(s, u, ids, seed, caps, fed) && !HasFence(fed)
    requires Conserved(s, limit, tables) && Accounted(s.fates, ids, fed)
    ensures var received := Receive(s, read, limit, tables);
      && |s.pending| <= |received.pending| && Valid(received.table)
      && var g := Gather(received, BundleOf(ids), caps, |s.pending|);
      && g.session.arrived == s.arrived + events
      && g.session.decoder.parser.Valid() && Valid(g.session.table)
      && Accounted(g.session.fates, ids, fed + events) && Conserved(g.session, limit, tables)
      && (!g.fenced ==> Probing(g.session, u, ids, seed, g.caps, fed + events) && !HasFence(fed + events))
  {
    hide Receive, Gather, FirstMatch, Probing, BundleOf, Valid, Accounted, Conserved, HasFence, Keeps, ReadOnce;
    var received := Receive(s, read, limit, tables);
    events := ReadOnce(s.decoder, read, limit, tables).events;
    ReceiveKeepsRegistrations(s, read, limit, tables);
    ReceiveKeeps(s, read, limit, tables);
    KeptIsConserved(s, received, limit, tables);
    ProbingOnRegistrations(s, received, u, ids, seed, caps, fed);
    AllKeptAccounts(s, read, ids, fed, limit, tables);
    assert received.pending[|s.pending|..] == events;
    GatherSteps(received, u, ids, seed, caps, fed, |s.pending|);
    GatherAccounts(received, u, ids, seed, caps, fed, |s.pending|, limit, tables);
    GatherKeeps(received, BundleOf(ids), caps, |s.pending|, limit, tables);
    ConservedIsValid(Gather(received, BundleOf(ids), caps, |s.pending|).session, limit, tables);
  }

  lemma {:induction false} AwaitFenceAccounts(
      s: Session, u: Table, ids: seq<nat>, seed: Capabilities, caps: Capabilities, fed: seq<Event>,
      script: seq<Awaited>, limit: nat, tables: Tables)
    requires |ids| == 12 && s.decoder.parser.Valid() && Valid(s.table)
    requires Probing(s, u, ids, seed, caps, fed) && !HasFence(fed)
    requires Conserved(s, limit, tables) && Accounted(s.fates, ids, fed)
    ensures var s' := AwaitFence(s, BundleOf(ids), caps, script, limit, tables).0;
      s.arrived <= s'.arrived && Accounted(s'.fates, ids, fed + s'.arrived[|s.arrived|..])
    decreases |script|
  {
    hide Receive, Gather, FirstMatch, Probing, FinishProbe, BundleOf, Valid, Accounted, Conserved, HasFence, Keeps;
    var s' := AwaitFence(s, BundleOf(ids), caps, script, limit, tables).0;
    if script != [] && script[0].Arrived? && script[0].read.bytes != [] {
      var read := script[0].read;
      var received := Receive(s, read, limit, tables);
      var events := ReadAccounts(s, u, ids, seed, caps, fed, read, limit, tables);
      var g := Gather(received, BundleOf(ids), caps, |s.pending|);
      if g.fenced {
        FinishKeepsHistory(g.session, BundleOf(ids));
        assert s'.arrived[|s.arrived|..] == events;
      } else {
        AwaitFenceAccounts(g.session, u, ids, seed, g.caps, fed + events, script[1..], limit, tables);
        BatchThenRest(s.arrived, events, s'.arrived, fed, []);
      }
    } else {
      FinishKeepsHistory(s, BundleOf(ids));
      assert s'.arrived[|s.arrived|..] == [] && fed + [] == fed;
    }
  }

  /** A read answers nothing by itself. */
  lemma AllKeptAccounts(s: Session, read: Read, ids: seq<nat>, fed: seq<Event>, limit: nat, tables: Tables)
    requires s.decoder.parser.Valid() && Accounted(s.fates, ids, fed)
    ensures Accounted(Receive(s, read, limit, tables).fates, ids, fed)
  {
    hide ReadOnce, FirstMatch, ASKED, AnsweredIds, AllKept;
    var n := |ReadOnce(s.decoder, read, limit, tables).events|;
    AnsweredIdsAppend(s.fates, AllKept(n));
    KeptAnswersNothing(n);
  }

  /** A probe asks for its twelve expectations. Whatever ended it, each of its ids is answered by the first
      match among the events queued before it and those that arrived while it waited, and unanswered if
      there is none; no id minted before it is answered. */
  lemma ProbeAnswersItsOwn(
      s: Session, seed: Capabilities, request: Request, script: seq<Awaited>, limit: nat, tables: Tables)
    requires Conserved(s, limit, tables) && Owned(s) && s.decoder.parser.Valid() && Valid(BeginProbe(s).0.table)
    ensures var s' := ProbeCapabilities(s, seed, request, script, limit, tables).0;
      && s'.asked == s.asked + ASKED && s.arrived <= s'.arrived
      && Accounted(s'.fates, FreshIds(|s.asked|),
                   if request == Written then s.pending + s'.arrived[|s.arrived|..] else [])
      && forall k: nat :: k < |s.asked| ==> AnsweredIds(s'.fates)[k] == AnsweredIds(s.fates)[k]
  {
    hide Gather, FirstMatch, Probing, Owned, FinishProbe, BundleOf, AwaitFence, BeginProbe, Valid, Accounted, Conserved,
      HasFence, Keeps, SweepProbe, SweepQuery, AnsweredIds, FreshIds, ASKED;
    var s' := ProbeCapabilities(s, seed, request, script, limit, tables).0;
    var (begun, b) := BeginProbe(s);
    var ids := FreshIds(|s.asked|);
    NoFence();
    BegunProbes(s, seed);
    BeginProbeAsks(s, limit, tables);
    BeginProbeKeeps(s, limit, tables);
    ProbeKeeps(s, seed, request, script, limit, tables);
    NothingAccounted(begun, begun.table, ids, seed, seed, limit, tables);
    OnlyBundleIsAnswered(s, s', ids, seed, limit, tables);
    if request == Written {
      GatherSteps(begun, begun.table, ids, seed, seed, [], 0);
      assert [] + begun.pending[0..] == s.pending;
      GatherAccounts(begun, begun.table, ids, seed, seed, [], 0, limit, tables);
      GatherKeeps(begun, b, seed, 0, limit, tables);
      var g := Gather(begun, b, seed, 0);
      if g.fenced {
        FinishKeepsHistory(g.session, b);
        assert s'.arrived[|s.arrived|..] == [] && s.pending + [] == s.pending;
      } else {
        ConservedIsValid(g.session, limit, tables);
        AwaitFenceAccounts(g.session, begun.table, ids, seed, g.caps, s.pending, script, limit, tables);
      }
    }
  }

  lemma BeginProbeAsks(s: Session, limit: nat, tables: Tables)
    requires Conserved(s, limit, tables) && Owned(s)
    ensures var begun := BeginProbe(s).0;
      && SweepProbe(SweepQuery(s)).table.nextId == |s.asked| && begun.asked == s.asked + ASKED
  {
    hide Conserved, Owned, SweepProbe, SweepQuery, RegisterBundle, AskedTable, ASKED, Keeps, BundleOf, Started, SlotFor;
    var begun := BeginProbe(s).0;
    FenceIsAsked();
    ProbeMintsFresh(s);
    SweepsKeep(s, limit, tables);
    SweepsKeepHistory(s);
    var swept := SweepProbe(SweepQuery(s));
    ConservedIsValid(swept, limit, tables);
    var n := |s.asked|;
    AskedTableCounts(n);
    forall i: nat | i < 12 ensures Minted(begun.table, n)[i] == ASKED[i] {
      assert SlotFor(begun.table, FreshIds(n)[i]).Some?;
      assert SlotFor(begun.table, n + i).Some?;
    }
    assert Minted(begun.table, n) == ASKED;
  }

  lemma AskedTableCounts(n: nat)
    ensures |ASKED| == 12 && AskedTable(n, 12).nextId == n + 12
  {
  }

  /** Nothing that was registered before the probe waits once it has begun. */
  lemma OnlyBundleIsAnswered(s: Session, s': Session, ids: seq<nat>, seed: Capabilities, limit: nat, tables: Tables)
    requires Owned(s) && Keeps(BeginProbe(s).0, s', limit, tables)
    requires ids == FreshIds(|s.asked|) && BeginProbe(s).0.asked == s.asked + ASKED
    requires |ids| == 12 && Probing(BeginProbe(s).0, BeginProbe(s).0.table, ids, seed, seed, [])
    requires BeginProbe(s).0.fates == s.fates
    ensures forall k: nat :: k < |s.asked| ==> AnsweredIds(s'.fates)[k] == AnsweredIds(s.fates)[k]
  {
    hide Conserved, Owned, BeginProbe, AnsweredIds, ASKED, BundleOf, SlotFor, Started, Gathered;
    var begun := BeginProbe(s).0;
    forall k: nat | k < |s.asked| ensures !Waiting(begun.table, k) { SlotIsOfBundle(begun.table, ids, k); }
  }

  /** Where in its batch the fence's answer lies changes no other answer. */
  lemma FencePositionIsIrrelevant(before: seq<Event>, a: seq<Event>, fence: Event, b: seq<Event>, i: nat)
    requires i < |ASKED| && i != FENCE && Match(ExpectPrimaryDeviceAttributes, fence).Some?
    ensures FirstAnswers(before + (a + [fence] + b))[i] == FirstAnswers(before + (a + b + [fence]))[i]
  {
    hide Match, ASKED, FirstMatch;
    FenceIsAsked();
    var x := ASKED[i];
    if i < FENCE { AskedAreDistinct(i, FENCE); }
    DistinguishedNeverBothMatch(x, ExpectPrimaryDeviceAttributes, fence);
    MatchOne(x, fence);
    FirstMatchAppend(x, before, a + [fence] + b);
    FirstMatchAppend(x, before, a + b + [fence]);
    FirstMatchAppend(x, a + [fence], b);
    FirstMatchAppend(x, a, [fence]);
    FirstMatchAppend(x, a + b, [fence]);
    FirstMatchAppend(x, a, b);
  }
}
