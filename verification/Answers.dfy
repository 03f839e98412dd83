/** Waiting ids: what one event does to a slot, and which event of many answers an expectation. */
module Answers {
  import opened Bytes
  import opened Events
  import opened Correlate
  import opened CorrelatorTable
  import opened CorrelatorRuns

  // ----- The first event that answers -----

  function FirstMatch(x: Expectation, events: seq<Event>): Option<Reply> {
    if events == [] then None
    else if Match(x, events[0]).Some? then Match(x, events[0])
    else FirstMatch(x, events[1..])
  }

  lemma {:induction false} FirstMatchAppend(x: Expectation, a: seq<Event>, b: seq<Event>)
    ensures FirstMatch(x, a + b) == if FirstMatch(x, a).Some? then FirstMatch(x, a) else FirstMatch(x, b)
    decreases |a|
  {
    hide Match;
    if a == [] {
      assert a + b == b;
    } else {
      assert (a + b)[1..] == a[1..] + b;
      FirstMatchAppend(x, a[1..], b);
    }
  }

  // ----- One slot, seen through a run of events -----

  /** The slot an event leaves, and whether the event completed it. */
  function AfterEvent(slot: Slot, e: Event): Slot {
    if Accepts(slot, e) then slot.(reply := Match(slot.expectation, e)) else slot
  }

  lemma FeedSlotFor(t: Table, e: Event, id: nat)
    requires Valid(t)
    ensures var (t', r) := FeedEvent(t, e);
      && Valid(t')
      && (match SlotFor(t, id)
          case None => SlotFor(t', id) == None && !(r.Completed? && r.id == id)
          case Some(slot) =>
            && SlotFor(t', id) == Some(AfterEvent(slot, e))
            && (Accepts(slot, e) <==> r.Completed? && r.id == id)
            && (Accepts(slot, e) ==> r.reply == Match(slot.expectation, e).value))
  {
    hide Match, Find;
    var (t', r) := FeedEvent(t, e);
    FeedKeepsValid(t, e);
    SlotOf(t, id);
    SlotOf(t', id);
    var k := Find(t.slots, id);
    if k < |t.slots| { FindUnique(t', k); }
    var n := FindAccepting(t.slots, e);
    if n < |t.slots| { FindUnique(t, n); FindUnique(t', n); }
    if k < |t.slots| && Accepts(t.slots[k], e) { AcceptingSlotIsUnique(t, e, k); }
  }

  lemma PassthroughLeaves(t: Table, e: Event)
    ensures FeedEvent(t, e).1.Passthrough? ==> FeedEvent(t, e).0 == t && FeedEvent(t, e).1.event == e
  {
  }

  /** The id still waits for a reply to `x`. */
  predicate WaitsFor(t: Table, id: nat, x: Expectation) {
    var slot := SlotFor(t, id);
    slot.Some? && slot.value.expectation == x && slot.value.reply == None
  }

  /** No event can complete the id any more. */
  predicate IsDone(t: Table, id: nat) {
    var slot := SlotFor(t, id);
    slot.Some? ==> slot.value.reply.Some?
  }

  lemma TakeSlotFor(t: Table, id: nat, other: nat)
    requires Valid(t)
    requires SlotFor(t, id).Some? && SlotFor(t, id).value.reply.Some?
    ensures var (t', reply) := TakeReply(t, id);
      && Valid(t') && reply == SlotFor(t, id).value.reply
      && Outstanding(t', other) == Outstanding(t, other) - (if other == id then 1 else 0)
      && IsDone(t', id)
  {
    hide Find, Release;
    var n := Find(t.slots, id);
    ReleaseKeepsValid(t, n);
    ReleaseById(t, id, other);
    ReleaseOne(t, n, id);
  }

  lemma FeedOutstanding(t: Table, e: Event, id: nat)
    requires Valid(t)
    ensures Outstanding(FeedEvent(t, e).0, id) == Outstanding(t, id)
  {
    FeedSlots(t, e, id);
  }

  lemma OutstandingHasSlot(t: Table, id: nat)
    requires Outstanding(t, id) > 0
    ensures Find(t.slots, id) < |t.slots|
  {
  }

  /** What a completion is always followed by: its reply is there to take. */
  lemma CompletionHasReply(t: Table, e: Event)
    requires Valid(t) && FeedEvent(t, e).1.Completed?
    ensures var (fed, r) := FeedEvent(t, e);
      && Valid(fed) && TakeReply(fed, r.id).1 == Some(r.reply)
      && Valid(TakeReply(fed, r.id).0)
      && Find(t.slots, r.id) < |t.slots| && Accepts(t.slots[Find(t.slots, r.id)], e)
  {
    hide Match;
    var (fed, r) := FeedEvent(t, e);
    var n := FindAccepting(t.slots, e);
    FeedKeepsValid(t, e);
    FindUnique(t, n);
    FindUnique(fed, n);
    ReleaseKeepsValid(fed, n);
  }

  // ----- Giving up several ids -----

  function ResolveEach(t: Table, ids: seq<nat>): Table
    decreases |ids|
  {
    if ids == [] then t else ResolveEach(Resolve(t, ids[0]).0, ids[1..])
  }

  lemma ResolveSlotFor(t: Table, id: nat, k: nat)
    requires Valid(t)
    ensures var t' := Resolve(t, id).0;
      && Valid(t')
      && (SlotFor(t, k) == None ==> SlotFor(t', k) == None)
      && (k != id ==> SlotFor(t', k) == SlotFor(t, k))
      && (k == id && SlotFor(t, k).Some? && SlotFor(t, k).value.outstanding == 1 ==> SlotFor(t', k) == None)
  {
    hide Find, Release;
    var n := Find(t.slots, id);
    if n < |t.slots| {
      ReleaseKeepsValid(t, n);
      ReleaseOne(t, n, k);
    }
  }

  /** Resolving ids one by one frees every one of them that had one waiter, and touches no other. */
  lemma {:induction false} ResolveEachFrees(t: Table, ids: seq<nat>, k: nat)
    requires Valid(t)
    requires SlotFor(t, k).Some? ==> SlotFor(t, k).value.outstanding == 1
    ensures var t' := ResolveEach(t, ids);
      && Valid(t')
      && SlotFor(t', k) == if k in ids then None else SlotFor(t, k)
    decreases |ids|
  {
    hide SlotFor, Resolve, Valid;
    if ids != [] {
      ResolveSlotFor(t, ids[0], k);
      ResolveEachFrees(Resolve(t, ids[0]).0, ids[1..], k);
    }
  }

  lemma NoSlots(t: Table)
    requires Valid(t) && forall k: nat :: SlotFor(t, k) == None
    ensures t.slots == []
  {
    assert t.slots != [] ==> SlotFor(t, t.slots[0].id).Some? by {
      if t.slots != [] { FindUnique(t, 0); }
    }
  }
}
