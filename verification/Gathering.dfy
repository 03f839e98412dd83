/** A probe's replies against a reference that only looks for first matches, whatever was registered
    before it. */
module Gathering {
  import opened Bytes
  import opened Events
  import opened Reports
  import opened Correlate
  import opened CorrelatorTable
  import opened CorrelatorRuns
  import opened Answers
  import opened Tallies
  import opened EventFates
  import opened Probe

  // ----- Registering several expectations -----

  function RegisterEach(t: Table, xs: seq<Expectation>): (r: (Table, seq<nat>))
    ensures |r.1| == |xs|
    decreases |xs|
  {
    if xs == [] then (t, [])
    else
      var (u, id) := Register(t, xs[0]);
      var (v, ids) := RegisterEach(u, xs[1..]);
      (v, [id] + ids)
  }

  /** The bundle with these ids, in the order of registration. */
  function BundleOf(ids: seq<nat>): Bundle
    requires |ids| == 12
  {
    Bundle(ids[11], ids[0], ids[1], ids[2], ids[3], ids[4], ids[5], ids[6],
           [(ids[7], SynchronizedOutput), (ids[8], GraphemeClustering), (ids[9], InBandResize),
            (ids[10], BracketedPaste)])
  }

  lemma RegisterEachStep(t: Table, i: nat)
    requires i < |ASKED|
    ensures var (u, id) := Register(t, ASKED[i]);
      var (v, ids) := RegisterEach(u, ASKED[i + 1..]);
      RegisterEach(t, ASKED[i..]) == (v, [id] + ids)
  {
    hide Register, ASKED;
    assert ASKED[i..][0] == ASKED[i] && ASKED[i..][1..] == ASKED[i + 1..];
  }

  lemma ModeIdsStep(id: nat, field: Field, rest: seq<(nat, Field)>, fence: nat)
    ensures ModeIds([(id, field)] + rest) + [fence] == [id] + (ModeIds(rest) + [fence])
  {
    assert ModeIds([(id, field)] + rest) == [id] + ModeIds(rest);
  }

  lemma RegisterModesStep(t: Table, k: nat)
    requires k < 4
    ensures var m := PROBE_MODES;
      var (u, id) := Register(t, ExpectDecPrivateMode(m[k].mode));
      var (v, rest) := RegisterModes(u, m[k + 1..]);
      ASKED[7 + k] == ExpectDecPrivateMode(m[k].mode)
      && RegisterModes(t, m[k..]) == (v, [(id, m[k].field)] + rest)
  {
    hide Register;
    var m := PROBE_MODES;
    assert m[k..][0] == m[k] && m[k..][1..] == m[k + 1..];
  }

  lemma OnlyFence(t: Table)
    ensures |ASKED| == 12
    ensures var (v, fence) := Register(t, ExpectPrimaryDeviceAttributes); RegisterEach(t, ASKED[11..]) == (v, [fence])
  {
    hide Register;
    assert ASKED[11..] == [ExpectPrimaryDeviceAttributes] && ASKED[11..][1..] == [];
    var (v, fence) := Register(t, ExpectPrimaryDeviceAttributes);
    assert RegisterEach(v, []) == (v, []) && [fence] + [] == [fence];
  }

  /** The four mode registrations and then the fence. */
  lemma {:induction false} ModesThenFence(t: Table, k: nat)
    requires k <= 4
    ensures |ASKED| == 12
    ensures var (u, modes) := RegisterModes(t, PROBE_MODES[k..]);
      var (v, fence) := Register(u, ExpectPrimaryDeviceAttributes);
      && RegisterEach(t, ASKED[7 + k..]) == (v, ModeIds(modes) + [fence])
      && |modes| == 4 - k && forall i :: 0 <= i < 4 - k ==> modes[i].1 == PROBE_MODES[k + i].field
    decreases 4 - k
  {
    hide Register, ASKED, RegisterEach, RegisterModes;
    OnlyFence(t);
    if k == 4 {
      NoModes(t);
      var fence := Register(t, ExpectPrimaryDeviceAttributes).1;
      assert [] + [fence] == [fence];
    } else {
      var id := Register(t, ExpectDecPrivateMode(PROBE_MODES[k].mode)).1;
      var u := Register(t, ExpectDecPrivateMode(PROBE_MODES[k].mode)).0;
      RegisterModesStep(t, k);
      RegisterEachStep(t, 7 + k);
      ModesThenFence(u, k + 1);
      var (w, rest) := RegisterModes(u, PROBE_MODES[k + 1..]);
      ModeIdsStep(id, PROBE_MODES[k].field, rest, Register(w, ExpectPrimaryDeviceAttributes).1);
    }
  }

  lemma NoModes(t: Table)
    ensures RegisterModes(t, PROBE_MODES[4..]) == (t, []) && ModeIds([]) == []
  {
    assert PROBE_MODES[4..] == [];
  }

  /** Registering the bundle is registering its expectations in order. */
  lemma BundleIsEach(t: Table)
    ensures var (u, ids) := RegisterEach(t, ASKED); RegisterBundle(t) == (u, BundleOf(ids))
  {
    hide Register, RegisterEach, RegisterModes;
    var t1 := Register(t, ASKED[0]).0;
    var t2 := Register(t1, ASKED[1]).0;
    var t3 := Register(t2, ASKED[2]).0;
    var t4 := Register(t3, ASKED[3]).0;
    var t5 := Register(t4, ASKED[4]).0;
    var t6 := Register(t5, ASKED[5]).0;
    var t7 := Register(t6, ASKED[6]).0;
    assert ASKED[0..] == ASKED;
    RegisterEachStep(t, 0);
    RegisterEachStep(t1, 1);
    RegisterEachStep(t2, 2);
    RegisterEachStep(t3, 3);
    RegisterEachStep(t4, 4);
    RegisterEachStep(t5, 5);
    RegisterEachStep(t6, 6);
    assert PROBE_MODES[0..] == PROBE_MODES;
    ModesThenFence(t7, 0);
    var (u, modes) := RegisterModes(t7, PROBE_MODES);
    assert modes == [(modes[0].0, SynchronizedOutput), (modes[1].0, GraphemeClustering), (modes[2].0, InBandResize),
                     (modes[3].0, BracketedPaste)];
  }

  // ----- The slots a registered bundle has -----

  /** A slot of another expectation is left alone. */
  lemma {:induction false} RegisterEachOther(t: Table, xs: seq<Expectation>, k: nat)
    requires Valid(t) && SlotFor(t, k).Some? && SlotFor(t, k).value.expectation !in xs
    ensures SlotFor(RegisterEach(t, xs).0, k) == SlotFor(t, k)
    decreases |xs|
  {
    hide SlotFor, Register, Valid;
    if xs != [] {
      RegisterSlotFor(t, xs[0], k);
      SlotIsBelowNext(t, k);
      RegisterJoinsOrMints(t, xs[0]);
      RegisterKeepsValid(t, xs[0]);
      RegisterEachOther(Register(t, xs[0]).0, xs[1..], k);
    }
  }

  lemma {:induction false} RegisterEachWidens(t: Table, xs: seq<Expectation>)
    requires Valid(t)
    ensures Widens(t, RegisterEach(t, xs).0) && Valid(RegisterEach(t, xs).0)
    decreases |xs|
  {
    hide SlotFor, Register, Valid, Widens;
    if xs == [] {
      WidensSelf(t);
    } else {
      var u := Register(t, xs[0]).0;
      RegisterWidens(t, xs[0]);
      RegisterKeepsValid(t, xs[0]);
      RegisterEachWidens(u, xs[1..]);
      WidensThen(t, u, RegisterEach(t, xs).0);
    }
  }

  predicate AreDistinct(xs: seq<Expectation>) { forall i, j :: 0 <= i < j < |xs| ==> xs[i] != xs[j] }

  /** The slot of a registration: one more waiter on the slot it joined, or a new one. */
  predicate IsRegistered(was: Option<Slot>, slot: Option<Slot>, id: nat, x: Expectation) {
    slot == match was
      case None => Some(Slot(id, x, 1, None))
      case Some(s) => Some(s.(outstanding := s.outstanding + 1))
  }

  /** The slots after registering distinct expectations. */
  lemma {:induction false} RegisterEachSlots(t: Table, xs: seq<Expectation>, i: nat)
    requires Valid(t) && AreDistinct(xs) && i < |xs|
    ensures var (u, ids) := RegisterEach(t, xs);
      && IsRegistered(SlotFor(t, ids[i]), SlotFor(u, ids[i]), ids[i], xs[i])
      && SlotFor(u, ids[i]).Some? && SlotFor(u, ids[i]).value.expectation == xs[i]
    decreases |xs|
  {
    hide SlotFor, Register, Valid;
    var (u, id) := Register(t, xs[0]);
    var (v, ids) := RegisterEach(u, xs[1..]);
    RegisterKeepsValid(t, xs[0]);
    RegisterSlotFor(t, xs[0], id);
    NewIdHasNoSlot(t, id);
    assert xs[0] !in xs[1..];
    RegisterEachOther(u, xs[1..], id);
    if i > 0 {
      assert AreDistinct(xs[1..]);
      RegisterEachSlots(u, xs[1..], i - 1);
      RegisterSlotFor(t, xs[0], ids[i - 1]);
    }
  }

  lemma NewIdHasNoSlot(t: Table, id: nat)
    requires Valid(t)
    ensures id >= t.nextId ==> SlotFor(t, id) == None
  {
    SlotIsBelowNext(t, id);
  }

  /** And nothing else changes. */
  lemma {:induction false} RegisterEachRest(t: Table, xs: seq<Expectation>, k: nat)
    requires Valid(t) && k !in RegisterEach(t, xs).1
    ensures SlotFor(RegisterEach(t, xs).0, k) == SlotFor(t, k)
    decreases |xs|
  {
    hide SlotFor, Register, Valid;
    if xs != [] {
      var (u, id) := Register(t, xs[0]);
      RegisterKeepsValid(t, xs[0]);
      RegisterSlotFor(t, xs[0], k);
      assert k !in RegisterEach(u, xs[1..]).1;
      RegisterEachRest(u, xs[1..], k);
    }
  }

  /** Every id a registration of several expectations mints is registered, and there are no more of them. */
  lemma {:induction false} RegisterEachMints(t: Table, xs: seq<Expectation>)
    requires Valid(t)
    ensures var u := RegisterEach(t, xs).0;
      && t.nextId <= u.nextId <= t.nextId + |xs|
      && forall k: nat :: t.nextId <= k < u.nextId ==> SlotFor(u, k).Some? && SlotFor(u, k).value.expectation in xs
    decreases |xs|
  {
    hide SlotFor, Register, Valid;
    if xs != [] {
      var (u, id) := Register(t, xs[0]);
      var rest := xs[1..];
      RegisterKeepsValid(t, xs[0]);
      RegisterJoinsOrMints(t, xs[0]);
      RegisterOneMints(t, xs[0]);
      RegisterEachMints(u, rest);
      var v := RegisterEach(u, rest).0;
      forall k: nat | t.nextId <= k < v.nextId
        ensures SlotFor(v, k).Some? && SlotFor(v, k).value.expectation in xs
      {
        if k < u.nextId {
          RegisterEachKeeps(u, rest, k);
        } else {
          assert SlotFor(v, k).value.expectation in rest;
        }
      }
    }
  }

  lemma RegisterOneMints(t: Table, x: Expectation)
    requires Valid(t)
    ensures var (u, id) := Register(t, x);
      && t.nextId <= u.nextId <= t.nextId + 1
      && (t.nextId < u.nextId ==> SlotFor(u, t.nextId).Some? && SlotFor(u, t.nextId).value.expectation == x)
  {
    hide SlotFor;
    RegisterSlotFor(t, x, t.nextId);
  }

  lemma {:induction false} RegisterEachKeeps(t: Table, xs: seq<Expectation>, k: nat)
    requires Valid(t) && SlotFor(t, k).Some?
    ensures var slot := SlotFor(RegisterEach(t, xs).0, k);
      slot.Some? && slot.value.expectation == SlotFor(t, k).value.expectation
    decreases |xs|
  {
    hide SlotFor, Register, Valid;
    if xs != [] {
      SlotIsBelowNext(t, k);
      RegisterSlotFor(t, xs[0], k);
      RegisterKeepsValid(t, xs[0]);
      RegisterEachKeeps(Register(t, xs[0]).0, xs[1..], k);
    }
  }

  // ----- A probe from its start -----

  /** Where a probe starts: `ids` are registered for the bundle's expectations, and nothing else is. */
  ghost predicate Started(u: Table, ids: seq<nat>) {
    && Valid(u) && |ids| == |ASKED|
    && (forall i :: 0 <= i < |ASKED| ==> SlotFor(u, ids[i]).Some? && SlotFor(u, ids[i]).value.expectation == ASKED[i])
    && forall k: nat :: SlotFor(u, k).Some? ==> k in ids
  }

  /** Every slot is one of the bundle's. */
  ghost predicate OnlyAsked(t: Table) {
    Valid(t) && forall k: nat :: SlotFor(t, k).Some? ==> SlotFor(t, k).value.expectation in ASKED
  }

  lemma StartsBundle(t: Table)
    requires OnlyAsked(t)
    ensures var (u, b) := RegisterBundle(t);
      var ids := RegisterEach(t, ASKED).1;
      && b == BundleOf(ids) && Started(u, ids) && Widens(t, u)
      && forall i :: 0 <= i < |ASKED| ==> IsRegistered(SlotFor(t, ids[i]), SlotFor(u, ids[i]), ids[i], ASKED[i])
  {
    hide ASKED, SlotFor, RegisterEach, RegisterBundle, Valid, Widens, BundleOf;
    BundleIsEach(t);
    FenceIsAsked();
    var (u, ids) := RegisterEach(t, ASKED);
    RegisterEachWidens(t, ASKED);
    AskedIsDistinct();
    forall i | 0 <= i < |ASKED|
      ensures IsRegistered(SlotFor(t, ids[i]), SlotFor(u, ids[i]), ids[i], ASKED[i])
      ensures SlotFor(u, ids[i]).Some? && SlotFor(u, ids[i]).value.expectation == ASKED[i]
    {
      RegisterEachSlots(t, ASKED, i);
    }
    forall k: nat | SlotFor(u, k).Some? ensures k in ids {
      if k !in ids {
        RegisterEachRest(t, ASKED, k);
        var i :| 0 <= i < |ASKED| && ASKED[i] == SlotFor(t, k).value.expectation;
        SameExpectationSameSlot(u, k, ids[i]);
      }
    }
  }

  lemma AskedIsDistinct()
    ensures AreDistinct(ASKED)
  {
    hide ASKED;
    forall i, j | 0 <= i < j < |ASKED| ensures ASKED[i] != ASKED[j] { AskedAreDistinct(i, j); }
  }

  lemma FenceIsAsked()
    ensures |ASKED| == 12 && ASKED[FENCE] == ExpectPrimaryDeviceAttributes
  {
  }

  lemma SameExpectationSameSlot(t: Table, j: nat, k: nat)
    requires Valid(t) && SlotFor(t, j).Some? && SlotFor(t, k).Some?
    requires SlotFor(t, j).value.expectation == SlotFor(t, k).value.expectation
    ensures j == k
  {
  }

  lemma StartedIdsAreDistinct(u: Table, ids: seq<nat>, i: nat, j: nat)
    requires Started(u, ids) && i < j < |ASKED|
    ensures ids[i] != ids[j]
  {
    hide ASKED, SlotFor, Valid;
    AskedAreDistinct(i, j);
  }

  // ----- The first-match reference -----

  /** What each expectation is answered by: the first match, unless its slot had already been answered
      when the probe started. */
  function Heard(u: Table, ids: seq<nat>, events: seq<Event>): (a: seq<Option<Reply>>)
    requires |ids| == |ASKED|
    ensures |a| == |ASKED|
    ensures forall i :: 0 <= i < |ASKED| ==> a[i] == if Waiting(u, ids[i]) then FirstMatch(ASKED[i], events) else None
  {
    seq(|ASKED|, i requires 0 <= i < |ASKED| => if Waiting(u, ids[i]) then FirstMatch(ASKED[i], events) else None)
  }

  /** A slot of the bundle once its expectation has, or has not, been answered. */
  function Settle(slot: Slot, answer: Option<Reply>): Option<Slot> {
    if answer.None? then Some(slot)
    else if slot.outstanding <= 1 then None
    else Some(slot.(outstanding := slot.outstanding - 1, reply := answer))
  }

  /** After the events `fed`: each expectation has been answered by its first match or still waits, and
      the capabilities are the recorded answers. */
  ghost predicate Gathered(
      t: Table, u: Table, ids: seq<nat>, seed: Capabilities, caps: Capabilities, fed: seq<Event>) {
    && Started(u, ids) && Narrows(u, t)
    && (forall i :: 0 <= i < |ASKED| ==>
          SlotFor(t, ids[i]) == Settle(SlotFor(u, ids[i]).value, Heard(u, ids, fed)[i]))
    && caps == Recorded(seed, Heard(u, ids, fed))
  }

  lemma NothingHeard(u: Table, ids: seq<nat>, seed: Capabilities)
    requires |ids| == |ASKED|
    ensures Recorded(seed, Heard(u, ids, [])) == seed
    ensures forall i :: 0 <= i < |ASKED| ==> Heard(u, ids, [])[i] == None
  {
    hide SlotFor;
    var none := Heard(u, ids, []);
    forall i | 0 <= i < |ASKED| ensures none[i] == None { NothingMatches(ASKED[i]); }
    assert forall i :: 0 <= i < 12 ==> none[i] == None;
  }

  lemma NothingMatches(x: Expectation)
    ensures FirstMatch(x, []) == None
  {
  }

  lemma GatheredAtFirst(u: Table, ids: seq<nat>, seed: Capabilities)
    requires Started(u, ids)
    ensures Gathered(u, u, ids, seed, seed, [])
  {
    hide ASKED, Recorded, SlotFor, Valid, Heard, Narrows;
    NothingHeard(u, ids, seed);
    NarrowsSelf(u);
  }

  lemma GatheredIsValid(t: Table, u: Table, ids: seq<nat>, seed: Capabilities, caps: Capabilities, fed: seq<Event>)
    requires Gathered(t, u, ids, seed, caps, fed)
    ensures Valid(t) && Started(u, ids) && caps == Recorded(seed, Heard(u, ids, fed))
  {
    hide ASKED, Recorded, SlotFor, Heard;
  }

  // ----- One event -----

  lemma HeardGrows(u: Table, ids: seq<nat>, fed: seq<Event>, e: Event, i: nat)
    requires |ids| == |ASKED| && i < |ASKED|
    ensures Heard(u, ids, fed + [e])[i] ==
      if Heard(u, ids, fed)[i].Some? then Heard(u, ids, fed)[i]
      else if Waiting(u, ids[i]) then Match(ASKED[i], e)
      else None
  {
    hide Match, ASKED, SlotFor;
    FirstMatchAppend(ASKED[i], fed, [e]);
    MatchOne(ASKED[i], e);
  }

  lemma MatchOne(x: Expectation, e: Event)
    ensures FirstMatch(x, [e]) == Match(x, e)
  {
    hide Match;
    assert FirstMatch(x, [e][1..]) == None;
  }

  /** What waits after the events fed is what waited at the start and has not been answered. */
  lemma StillWaiting(t: Table, u: Table, ids: seq<nat>, seed: Capabilities, caps: Capabilities, fed: seq<Event>, i: nat)
    requires Gathered(t, u, ids, seed, caps, fed) && i < |ASKED|
    ensures Waiting(t, ids[i]) <==> Waiting(u, ids[i]) && Heard(u, ids, fed)[i] == None
    ensures Waiting(t, ids[i]) ==> SlotFor(t, ids[i]).value.expectation == ASKED[i]
  {
    hide ASKED, Recorded, SlotFor, Valid, Narrows, FirstMatch;
  }

  /** The event is the first answer to an expectation that still waits. */
  ghost predicate IsFirstAnswer(u: Table, ids: seq<nat>, fed: seq<Event>, e: Event)
    requires |ids| == |ASKED|
  {
    exists i :: 0 <= i < |ASKED| && Waiting(u, ids[i]) && Heard(u, ids, fed)[i].None? && Match(ASKED[i], e).Some?
  }

  lemma PassedEventGathers(
      t: Table, u: Table, ids: seq<nat>, seed: Capabilities, caps: Capabilities, fed: seq<Event>, e: Event)
    requires Gathered(t, u, ids, seed, caps, fed) && FeedEvent(t, e).1.Passthrough?
    ensures FeedEvent(t, e).0 == t && Gathered(t, u, ids, seed, caps, fed + [e])
    ensures Heard(u, ids, fed + [e]) == Heard(u, ids, fed) && !IsFirstAnswer(u, ids, fed, e)
  {
    hide ASKED, Match, FirstMatch, Recorded, SlotFor, Valid, FeedEvent, Narrows;
    PassthroughLeaves(t, e);
    GatheredIsValid(t, u, ids, seed, caps, fed);
    var before, after := Heard(u, ids, fed), Heard(u, ids, fed + [e]);
    forall i | 0 <= i < |ASKED|
      ensures after[i] == before[i] && !(Waiting(u, ids[i]) && before[i].None? && Match(ASKED[i], e).Some?)
    {
      FeedSlotFor(t, e, ids[i]);
      StillWaiting(t, u, ids, seed, caps, fed, i);
      HeardGrows(u, ids, fed, e, i);
    }
    assert after == before;
  }

  /** A completed event is the first answer to one expectation, and to no other. */
  lemma CompletedIsFirst(
      t: Table, u: Table, ids: seq<nat>, seed: Capabilities, caps: Capabilities, fed: seq<Event>, e: Event)
    returns (i: nat)
    requires Gathered(t, u, ids, seed, caps, fed) && FeedEvent(t, e).1.Completed?
    ensures var r := FeedEvent(t, e).1;
      && i < |ASKED| && r.id == ids[i] && Waiting(t, r.id)
      && Waiting(u, ids[i]) && Heard(u, ids, fed)[i].None? && Match(ASKED[i], e) == Some(r.reply)
      && Heard(u, ids, fed + [e]) == Heard(u, ids, fed)[i := Some(r.reply)]
  {
    hide ASKED, Match, FirstMatch, Recorded, SlotFor, Valid, FeedEvent, Heard;
    var r := FeedEvent(t, e).1;
    GatheredIsValid(t, u, ids, seed, caps, fed);
    FeedSlotFor(t, e, r.id);
    NarrowsAt(u, t, r.id);
    assert r.id in ids;
    i :| 0 <= i < |ids| && ids[i] == r.id;
    StillWaiting(t, u, ids, seed, caps, fed, i);
    var before, after := Heard(u, ids, fed), Heard(u, ids, fed + [e]);
    forall j | 0 <= j < |ASKED| ensures after[j] == before[i := Some(r.reply)][j] {
      HeardGrows(u, ids, fed, e, j);
      if j < i { AskedAreDistinct(j, i); }
      if i < j { AskedAreDistinct(i, j); }
      if j != i { DistinguishedNeverBothMatch(ASKED[i], ASKED[j], e); }
    }
  }

  /** Taking a completed reply releases one waiter of its slot and touches no other. */
  lemma TakenSlots(t: Table, e: Event, k: nat)
    requires Valid(t) && FeedEvent(t, e).1.Completed?
    ensures var (fed, r) := FeedEvent(t, e);
      && SlotFor(t, r.id).Some?
      && SlotFor(TakeReply(fed, r.id).0, k)
           == if k == r.id then Settle(SlotFor(t, k).value, Some(r.reply)) else SlotFor(t, k)
  {
    hide Match, Find, Release;
    var (fed, r) := FeedEvent(t, e);
    CompletionHasReply(t, e);
    FeedSlotFor(t, e, k);
    FeedSlotFor(t, e, r.id);
    ReleaseOne(fed, Find(fed.slots, r.id), k);
    SlotHasWaiter(fed, r.id);
  }

  lemma SlotHasWaiter(t: Table, k: nat)
    requires Valid(t)
    ensures SlotFor(t, k).Some? ==> SlotFor(t, k).value.outstanding > 0
  {
  }

  /** The reply is one that answers the `i`th expectation. */
  predicate Fits(i: nat, reply: Reply) {
    if i == 0 then reply.VersionReply?
    else if i == 1 then reply.FlagsReply?
    else if i == 2 then reply.GraphicsReply?
    else if i == 3 then reply.TextAreaReply?
    else if i == 4 then reply.CellSizeReply?
    else if i == 5 then reply.ColorReply? && reply.color.kind == Foreground
    else if i == 6 then reply.ColorReply? && reply.color.kind == Background
    else if i == 7 then reply.ModeReply? && reply.report.mode == 2026
    else if i == 8 then reply.ModeReply? && reply.report.mode == 2027
    else if i == 9 then reply.ModeReply? && reply.report.mode == 2048
    else if i == 10 then reply.ModeReply? && reply.report.mode == 2004
    else reply.AttributesReply?
  }

  lemma MatchedReplyFits(i: nat, e: Event)
    requires i < |ASKED| && Match(ASKED[i], e).Some?
    ensures Fits(i, Match(ASKED[i], e).value)
  {
    hide XtVersionReport, OscColorReport, KittyGraphicsReport, TextAreaPixelsReport, CellSizeReport,
      DecPrivateModeReport, KittyFlagsReport;
  }

  /** Storing a reply changes the one field its expectation answers. */
  lemma StoreRecords(ids: seq<nat>, seed: Capabilities, a: seq<Option<Reply>>, i: nat, reply: Reply)
    requires |ids| == 12 && forall j, k :: 0 <= j < k < 12 ==> ids[j] != ids[k]
    requires |a| == |ASKED| && i < |ASKED| && a[i] == None && Fits(i, reply)
    ensures StoreBundleReply(BundleOf(ids), ids[i], reply, Recorded(seed, a)) == Recorded(seed, a[i := Some(reply)])
  {
    if 7 <= i <= 10 { FieldAt(BundleOf(ids).modes, i - 7); }
  }

  lemma {:induction false} FieldAt(modes: seq<(nat, Field)>, k: nat)
    requires k < |modes| && forall j :: 0 <= j < k ==> modes[j].0 != modes[k].0
    ensures FieldOf(modes, modes[k].0) == Some(modes[k].1)
    decreases k
  {
    if k > 0 { FieldAt(modes[1..], k - 1); }
  }

  lemma DistinctIds(u: Table, ids: seq<nat>)
    requires Started(u, ids)
    ensures |ids| == 12 && forall j, k :: 0 <= j < k < 12 ==> ids[j] != ids[k]
  {
    hide ASKED, Started;
    FenceIsAsked();
    StartedLength(u, ids);
    forall j, k | 0 <= j < k < 12 ensures ids[j] != ids[k] { StartedIdsAreDistinct(u, ids, j, k); }
  }

  lemma StartedLength(u: Table, ids: seq<nat>)
    requires Started(u, ids)
    ensures |ids| == |ASKED| && Valid(u)
  {
    hide ASKED;
  }

  lemma CompletedEventGathers(
      t: Table, u: Table, ids: seq<nat>, seed: Capabilities, caps: Capabilities, fed: seq<Event>, e: Event)
    requires Gathered(t, u, ids, seed, caps, fed) && FeedEvent(t, e).1.Completed?
    ensures |ids| == 12
    ensures var (next, r) := FeedEvent(t, e);
      var taken := TakeReply(next, r.id).0;
      && Valid(next) && Valid(taken) && Waiting(t, r.id) && !Waiting(taken, r.id)
      && Gathered(taken, u, ids, seed, StoreBundleReply(BundleOf(ids), r.id, r.reply, caps), fed + [e])
      && IsFirstAnswer(u, ids, fed, e)
      && (r.id == ids[FENCE] <==>
            Waiting(u, ids[FENCE]) && Heard(u, ids, fed)[FENCE].None? && Match(ASKED[FENCE], e).Some?)
  {
    hide Match, FirstMatch, Recorded, SlotFor, Valid, FeedEvent, TakeReply, StoreBundleReply, BundleOf, ASKED, Heard,
      Narrows, Waiting, Started;
    FenceIsAsked();
    GatheredIsValid(t, u, ids, seed, caps, fed);
    DistinctIds(u, ids);
    var (next, r) := FeedEvent(t, e);
    var i := CompletedIsFirst(t, u, ids, seed, caps, fed, e);
    CompletionHasReply(t, e);
    var a, b := Heard(u, ids, fed), Heard(u, ids, fed + [e]);
    MatchedReplyFits(i, e);
    StoreRecords(ids, seed, a, i, r.reply);
    HeardGrows(u, ids, fed, e, FENCE);
    var taken := TakeReply(next, r.id).0;
    TakenIsSettled(t, e);
    TakenNarrows(t, u, e);
    forall j | 0 <= j < |ASKED| ensures SlotFor(u, ids[j]).Some? { SlotOfBundle(u, ids, j); }
    forall j | 0 <= j < |ASKED|
      ensures SlotFor(taken, ids[j]) == Settle(SlotFor(u, ids[j]).value, b[j])
    {
      TakenSlots(t, e, ids[j]);
      if j != i { assert b[j] == a[j]; }
    }
  }

  lemma SlotOfBundle(u: Table, ids: seq<nat>, j: nat)
    requires Started(u, ids) && j < |ASKED|
    ensures SlotFor(u, ids[j]).Some?
  {
    hide ASKED, SlotFor, Valid;
  }

  lemma TakenIsSettled(t: Table, e: Event)
    requires Valid(t) && FeedEvent(t, e).1.Completed?
    ensures var (next, r) := FeedEvent(t, e); !Waiting(TakeReply(next, r.id).0, r.id)
  {
    hide Match, FeedEvent, TakeReply, SlotFor;
    TakenSlots(t, e, FeedEvent(t, e).1.id);
  }

  lemma TakenNarrows(t: Table, u: Table, e: Event)
    requires Valid(t) && Narrows(u, t)
    ensures var (next, r) := FeedEvent(t, e); r.Completed? ==> Narrows(u, TakeReply(next, r.id).0)
  {
    hide Match, FeedEvent, TakeReply, SlotFor, Narrows, Valid;
    var (next, r) := FeedEvent(t, e);
    EventNarrows(t, e);
    NarrowsThen(u, t, next);
    if r.Completed? {
      NarrowsIsValid(t, next);
      TakeNarrows(next, r.id);
      NarrowsThen(u, next, TakeReply(next, r.id).0);
    }
  }

  // ----- A whole batch -----

  /** The fence can still fire: its slot waited at the start and nothing fed has answered it. */
  predicate Awaits(u: Table, ids: seq<nat>, fed: seq<Event>)
    requires |ids| == |ASKED|
  {
    Waiting(u, ids[FENCE]) && FirstMatch(ExpectPrimaryDeviceAttributes, fed).None?
  }

  /** Feeding a batch gathers exactly the first answers of everything fed, fence or no fence, and the
      fence is reported exactly when its own first answer is in the batch, wherever in it. */
  lemma {:induction false} BatchGathers(
      t: Table, u: Table, ids: seq<nat>, seed: Capabilities, caps: Capabilities, fed: seq<Event>, events: seq<Event>)
    requires |ids| == 12 && Valid(t) && Gathered(t, u, ids, seed, caps, fed)
    ensures var r := FeedBatch(t, BundleOf(ids), events, caps);
      && Gathered(r.table, u, ids, seed, r.caps, fed + events)
      && (r.fenced <==> Awaits(u, ids, fed) && FirstMatch(ExpectPrimaryDeviceAttributes, events).Some?)
    decreases |events|
  {
    hide Gathered, Match, FeedEvent, TakeReply, StoreBundleReply, Valid, IsFirstAnswer, ASKED, Heard, Waiting, BundleOf;
    FenceIsAsked();
    if events == [] {
      assert fed + events == fed;
    } else {
      var e, rest := events[0], events[1..];
      var (next, r) := FeedEvent(t, e);
      assert (fed + [e]) + rest == fed + events;
      FirstMatchAppend(ExpectPrimaryDeviceAttributes, fed, [e]);
      MatchOne(ExpectPrimaryDeviceAttributes, e);
      FenceHeard(u, ids, fed);
      if r.Passthrough? {
        PassedEventGathers(t, u, ids, seed, caps, fed, e);
        FenceHeard(u, ids, fed + [e]);
        BatchGathers(next, u, ids, seed, caps, fed + [e], rest);
      } else {
        CompletedEventGathers(t, u, ids, seed, caps, fed, e);
        CompletionHasReply(t, e);
        FenceOf(ids);
        BatchGathers(
          TakeReply(next, r.id).0, u, ids, seed, StoreBundleReply(BundleOf(ids), r.id, r.reply, caps), fed + [e], rest);
      }
    }
  }

  lemma FenceOf(ids: seq<nat>)
    requires |ids| == 12
    ensures BundleOf(ids).fence == ids[FENCE]
  {
  }

  lemma FenceHeard(u: Table, ids: seq<nat>, fed: seq<Event>)
    requires |ids| == |ASKED|
    ensures Waiting(u, ids[FENCE]) ==>
      Heard(u, ids, fed)[FENCE] == FirstMatch(ExpectPrimaryDeviceAttributes, fed)
  {
    hide SlotFor, FirstMatch;
  }

  // ----- Ending the probe -----

  /** One waiter fewer. */
  function Dropped(slot: Option<Slot>): Option<Slot> {
    if slot.None? || slot.value.outstanding <= 1 then None
    else Some(slot.value.(outstanding := slot.value.outstanding - 1))
  }

  predicate NoRepeats(ids: seq<nat>) { forall i, j :: 0 <= i < j < |ids| ==> ids[i] != ids[j] }

  lemma ResolveDrops(t: Table, id: nat, k: nat)
    requires Valid(t)
    ensures var t' := Resolve(t, id).0;
      Valid(t') && SlotFor(t', k) == if k == id then Dropped(SlotFor(t, k)) else SlotFor(t, k)
  {
    hide Find, Release;
    var n := Find(t.slots, id);
    if n < |t.slots| {
      ReleaseKeepsValid(t, n);
      ReleaseOne(t, n, k);
    }
  }

  /** Giving up distinct ids takes one waiter from the slot of each. */
  lemma {:induction false} ResolveEachDrops(t: Table, ids: seq<nat>, k: nat)
    requires Valid(t) && NoRepeats(ids)
    ensures var t' := ResolveEach(t, ids);
      Valid(t') && SlotFor(t', k) == if k in ids then Dropped(SlotFor(t, k)) else SlotFor(t, k)
    decreases |ids|
  {
    hide SlotFor, Resolve, Valid;
    if ids != [] {
      ResolveDrops(t, ids[0], k);
      assert NoRepeats(ids[1..]);
      ResolveEachDrops(Resolve(t, ids[0]).0, ids[1..], k);
      assert k == ids[0] ==> k !in ids[1..];
    }
  }

  /** The bundle's ids, as they are resolved: the fence first, each once. */
  lemma BundleIdsAre(ids: seq<nat>)
    requires |ids| == 12
    ensures BundleOf(ids).Ids() == [ids[11]] + ids[..11]
  {
    var b := BundleOf(ids);
    assert b.Ids() == [ids[11], ids[0], ids[1], ids[2], ids[3], ids[4], ids[5], ids[6]] + ModeIds(b.modes);
  }

  lemma BundleIdsAreDistinct(u: Table, ids: seq<nat>)
    requires Started(u, ids)
    ensures |ids| == 12 && NoRepeats(BundleOf(ids).Ids())
    ensures forall k :: k in BundleOf(ids).Ids() <==> k in ids
  {
    hide Started, BundleOf;
    DistinctIds(u, ids);
    BundleIdsAre(ids);
    var all := BundleOf(ids).Ids();
    assert forall i :: 1 <= i < 12 ==> all[i] == ids[i - 1];
    assert ids == ids[..11] + [ids[11]];
    forall k | k in ids ensures k in all {
      var i :| 0 <= i < 12 && ids[i] == k;
      assert all[if i == 11 then 0 else i + 1] == k;
    }
    forall k | k in all ensures k in ids {
      var i :| 0 <= i < 12 && all[i] == k;
      assert ids[if i == 0 then 11 else i - 1] == k;
    }
  }

  /** Once the bundle is given up, each of its slots has lost a waiter, and a second one if the probe
      took its answer; nothing else was registered. */
  lemma FinishedSlots(
      t: Table, u: Table, ids: seq<nat>, seed: Capabilities, caps: Capabilities, fed: seq<Event>, k: nat)
    requires Gathered(t, u, ids, seed, caps, fed)
    ensures |ids| == 12
    ensures var end := ResolveEach(t, BundleOf(ids).Ids());
      && Valid(end)
      && (k !in ids ==> SlotFor(end, k) == None)
      && forall i :: 0 <= i < |ASKED| && k == ids[i] ==>
           SlotFor(u, k).Some? && SlotFor(end, k) == Dropped(Settle(SlotFor(u, k).value, Heard(u, ids, fed)[i]))
  {
    hide SlotFor, Valid, ResolveEach, Recorded, ASKED, BundleOf, Heard, Narrows;
    GatheredIsValid(t, u, ids, seed, caps, fed);
    BundleIdsAreDistinct(u, ids);
    ResolveEachDrops(t, BundleOf(ids).Ids(), k);
    NarrowsAt(u, t, k);
  }

  /** A bundle that was alone from the start leaves nothing registered, however much was answered. */
  lemma FinishingEmpties(t: Table, u: Table, ids: seq<nat>, seed: Capabilities, caps: Capabilities, fed: seq<Event>)
    requires Gathered(t, u, ids, seed, caps, fed)
    requires forall i :: 0 <= i < |ids| ==> SlotFor(u, ids[i]).Some? && SlotFor(u, ids[i]).value.outstanding == 1
    ensures |ids| == 12 && ResolveEach(t, BundleOf(ids).Ids()).slots == []
  {
    hide SlotFor, Valid, ResolveEach, Recorded, ASKED, BundleOf, Heard, Gathered;
    FinishedSlots(t, u, ids, seed, caps, fed, 0);
    var end := ResolveEach(t, BundleOf(ids).Ids());
    GatheredIsValid(t, u, ids, seed, caps, fed);
    StartedLength(u, ids);
    forall k: nat ensures SlotFor(end, k) == None {
      FinishedSlots(t, u, ids, seed, caps, fed, k);
      if k in ids { var i :| 0 <= i < |ids| && ids[i] == k; }
    }
    NoSlots(end);
  }

  // ----- Batches -----

  predicate HasFence(events: seq<Event>) { FirstMatch(ExpectPrimaryDeviceAttributes, events).Some? }

  /** The events a probe feeds of one batch a read: every batch or, when the fence can fire, those up to the end of the
      first that holds its answer. */
  function FedTo(fires: bool, batches: seq<seq<Event>>): seq<Event>
    decreases |batches|
  {
    if batches == [] then []
    else if fires && HasFence(batches[0]) then batches[0]
    else batches[0] + FedTo(fires, batches[1..])
  }

  lemma NoFence()
    ensures !HasFence([]) && FedTo(true, []) == [] && FedTo(false, []) == []
  {
  }

  // ----- A bundle on an empty table -----

  /** The ids a bundle registered on an empty table gets. */
  function FreshIds(n: nat): (ids: seq<nat>)
    ensures |ids| == 12 && forall i :: 0 <= i < 12 ==> ids[i] == n + i
  {
    seq(12, i requires 0 <= i => n + i)
  }

  /** Every one of the bundle's ids is new, waits, and has one waiter. */
  ghost predicate AllWait(u: Table, ids: seq<nat>) {
    && Started(u, ids)
    && forall i :: 0 <= i < |ASKED| ==> SlotFor(u, ids[i]) == Some(Slot(ids[i], ASKED[i], 1, None))
  }

  lemma BundleOfFreshIds(n: nat)
    ensures BundleOf(FreshIds(n)) == BundleAt(n)
  {
  }

  lemma AskedTableWaits(n: nat)
    ensures |ASKED| == 12 && AllWait(AskedTable(n, 12), FreshIds(n))
  {
    hide ASKED, SlotFor, Find;
    FenceIsAsked();
    var t, ids := AskedTable(n, 12), FreshIds(n);
    forall i, j | 0 <= i < j < 12 ensures ASKED[i] != ASKED[j] { AskedAreDistinct(i, j); }
    assert Valid(t);
    forall i | 0 <= i < 12 ensures SlotFor(t, ids[i]) == Some(t.slots[i]) { SlotIsFound(t, i); }
    forall k: nat | SlotFor(t, k).Some? ensures k in ids { FoundSlot(t, k); assert ids[k - n] == k; }
  }

  lemma FoundSlot(t: Table, k: nat)
    requires SlotFor(t, k).Some?
    ensures exists i :: 0 <= i < |t.slots| && t.slots[i].id == k
  {
    var n := Find(t.slots, k);
    assert 0 <= n < |t.slots| && t.slots[n].id == k;
  }

  /** Then every expectation hears its first match. */
  lemma HeardWhenAllWait(u: Table, ids: seq<nat>, fed: seq<Event>)
    requires AllWait(u, ids)
    ensures |ids| == 12 && Heard(u, ids, fed) == FirstAnswers(fed)
  {
    hide ASKED, SlotFor, Valid, FirstMatch;
    FenceIsAsked();
    forall i | 0 <= i < |ASKED| ensures Waiting(u, ids[i]) {}
  }

  // ----- The fates of the answers -----

  /** What a batch adds to what is heard, it marks answered with the reply heard. */
  lemma {:induction false} BatchAnswers(
      t: Table, u: Table, ids: seq<nat>, seed: Capabilities, caps: Capabilities, fed: seq<Event>, events: seq<Event>,
      i: nat)
    requires |ids| == 12 && Valid(t) && Gathered(t, u, ids, seed, caps, fed) && i < |ASKED|
    requires Heard(u, ids, fed)[i].None? && Heard(u, ids, fed + events)[i].Some?
    ensures Answered(ids[i], Heard(u, ids, fed + events)[i].value) in FeedBatch(t, BundleOf(ids), events, caps).flags
    decreases |events|
  {
    hide Gathered, Match, FeedEvent, TakeReply, StoreBundleReply, Valid, ASKED, Heard, Waiting, BundleOf;
    FenceIsAsked();
    if events == [] {
      NothingMore(fed);
    } else {
      var e, rest := events[0], events[1..];
      var (next, r) := FeedEvent(t, e);
      assert (fed + [e]) + rest == fed + events;
      if r.Passthrough? {
        PassedEventGathers(t, u, ids, seed, caps, fed, e);
        BatchAnswers(next, u, ids, seed, caps, fed + [e], rest, i);
      } else {
        CompletedEventGathers(t, u, ids, seed, caps, fed, e);
        CompletionHasReply(t, e);
        var j := CompletedIsFirst(t, u, ids, seed, caps, fed, e);
        if i == j {
          HeardStays(u, ids, fed + [e], rest, i);
        } else {
          BatchAnswers(
            TakeReply(next, r.id).0, u, ids, seed, StoreBundleReply(BundleOf(ids), r.id, r.reply, caps),
            fed + [e], rest, i);
        }
      }
    }
  }

  lemma NothingMore(fed: seq<Event>)
    ensures fed + [] == fed
  {
  }

  lemma HeardStays(u: Table, ids: seq<nat>, fed: seq<Event>, more: seq<Event>, i: nat)
    requires |ids| == |ASKED| && i < |ASKED| && Heard(u, ids, fed)[i].Some?
    ensures Heard(u, ids, fed + more)[i] == Heard(u, ids, fed)[i]
  {
    hide ASKED, SlotFor, FirstMatch;
    FirstMatchAppend(ASKED[i], fed, more);
  }
}
