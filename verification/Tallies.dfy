/** Which ids still wait, which expectation each was minted for, and which have been answered. */
module Tallies {
  import opened Bytes
  import opened Events
  import opened Correlate
  import opened CorrelatorTable
  import opened CorrelatorRuns
  import opened Answers

  /** The id has a slot, and no reply yet. */
  predicate Waiting(t: Table, k: nat) {
    var slot := SlotFor(t, k);
    slot.Some? && slot.value.reply.None?
  }

  // ----- Tables that only lose registrations and gain replies -----

  predicate SlotNarrows(was: Option<Slot>, slot: Slot) {
    && was.Some?
    && slot.expectation == was.value.expectation
    && slot.outstanding <= was.value.outstanding
    && (was.value.reply.Some? ==> slot.reply == was.value.reply)
  }

  ghost predicate Narrows(t: Table, u: Table) {
    && Valid(u) && u.nextId == t.nextId
    && forall k: nat :: SlotFor(u, k).Some? ==> SlotNarrows(SlotFor(t, k), SlotFor(u, k).value)
  }

  lemma NarrowsSelf(t: Table)
    requires Valid(t)
    ensures Narrows(t, t)
  {
    hide SlotFor, Valid;
  }

  lemma NarrowsThen(t: Table, u: Table, v: Table)
    requires Narrows(t, u) && Narrows(u, v)
    ensures Narrows(t, v)
  {
    hide SlotFor, Valid;
  }

  lemma NarrowsAt(t: Table, u: Table, k: nat)
    requires Narrows(t, u)
    ensures SlotFor(u, k).Some? ==> SlotNarrows(SlotFor(t, k), SlotFor(u, k).value)
    ensures Waiting(u, k) ==> Waiting(t, k)
  {
    hide SlotFor, Valid;
  }

  lemma EventNarrows(t: Table, e: Event)
    requires Valid(t)
    ensures Narrows(t, FeedEvent(t, e).0)
  {
    hide SlotFor, Valid, FeedEvent, Match;
    var u := FeedEvent(t, e).0;
    FeedKeepsValid(t, e);
    FeedKeepsNextId(t, e);
    forall k: nat ensures SlotFor(u, k).Some? ==> SlotNarrows(SlotFor(t, k), SlotFor(u, k).value) {
      FeedSlotFor(t, e, k);
    }
  }

  lemma ReleaseNarrows(t: Table, n: nat)
    requires Valid(t) && n < |t.slots|
    ensures Narrows(t, Release(t, n))
  {
    hide SlotFor, Release, Find;
    var u := Release(t, n);
    ReleaseKeepsValid(t, n);
    ReleaseKeepsNextId(t, n);
    SlotIsFound(t, n);
    forall k: nat ensures SlotFor(u, k).Some? ==> SlotNarrows(SlotFor(t, k), SlotFor(u, k).value) {
      ReleaseOne(t, n, k);
    }
  }

  lemma SlotIsFound(t: Table, n: nat)
    requires Valid(t) && n < |t.slots|
    ensures SlotFor(t, t.slots[n].id) == Some(t.slots[n])
  {
    FindUnique(t, n);
  }

  lemma TakeNarrows(t: Table, id: nat)
    requires Valid(t)
    ensures Narrows(t, TakeReply(t, id).0)
  {
    hide SlotFor, Valid, Release;
    var n := Find(t.slots, id);
    NarrowsSelf(t);
    if n < |t.slots| { ReleaseNarrows(t, n); }
  }

  lemma ResolveNarrows(t: Table, id: nat)
    requires Valid(t)
    ensures Narrows(t, Resolve(t, id).0)
  {
    hide SlotFor, Valid, Release;
    var n := Find(t.slots, id);
    NarrowsSelf(t);
    if n < |t.slots| { ReleaseNarrows(t, n); }
  }

  lemma {:induction false} ResolveEachNarrows(t: Table, ids: seq<nat>)
    requires Valid(t)
    ensures Narrows(t, ResolveEach(t, ids))
    decreases |ids|
  {
    hide Narrows, Resolve;
    if ids == [] {
      NarrowsSelf(t);
    } else {
      ResolveNarrows(t, ids[0]);
      var u := Resolve(t, ids[0]).0;
      NarrowsIsValid(t, u);
      ResolveEachNarrows(u, ids[1..]);
      NarrowsThen(t, u, ResolveEach(t, ids));
    }
  }

  lemma NarrowsIsValid(t: Table, u: Table)
    requires Narrows(t, u)
    ensures Valid(u) && u.nextId == t.nextId
  {
  }

  // ----- Tables that gain registrations -----

  ghost predicate Widens(t: Table, u: Table) {
    && Valid(u) && t.nextId <= u.nextId
    && (forall k: nat :: k < t.nextId && SlotFor(u, k).Some? ==>
          && SlotFor(t, k).Some?
          && SlotFor(u, k).value.expectation == SlotFor(t, k).value.expectation
          && SlotFor(u, k).value.reply == SlotFor(t, k).value.reply)
    && forall k: nat :: t.nextId <= k && SlotFor(u, k).Some? ==> SlotFor(u, k).value.reply == None
  }

  lemma WidensSelf(t: Table)
    requires Valid(t)
    ensures Widens(t, t)
  {
    forall k: nat | t.nextId <= k ensures SlotFor(t, k) == None { SlotIsBelowNext(t, k); }
  }

  lemma SlotIsBelowNext(t: Table, k: nat)
    requires Valid(t)
    ensures SlotFor(t, k).Some? ==> k < t.nextId
  {
  }

  lemma WidensThen(t: Table, u: Table, v: Table)
    requires Widens(t, u) && Widens(u, v)
    ensures Widens(t, v)
  {
    hide SlotFor, Valid;
  }

  /** What registering does to each slot. */
  lemma RegisterSlotFor(t: Table, x: Expectation, k: nat)
    requires Valid(t)
    ensures var (t', id) := Register(t, x);
      SlotFor(t', k) ==
        if k != id then SlotFor(t, k)
        else if id < t.nextId then
          (match SlotFor(t, k)
           case None => None
           case Some(slot) => Some(slot.(outstanding := slot.outstanding + 1)))
        else Some(Slot(id, x, 1, None))
    ensures Register(t, x).1 < t.nextId ==>
      SlotFor(t, Register(t, x).1).Some? && SlotFor(t, Register(t, x).1).value.expectation == x
  {
    var (t', id) := Register(t, x);
    RegisterKeepsValid(t, x);
    RegisterJoinsOrMints(t, x);
    SlotOf(t, k);
    SlotOf(t', k);
    var n := FindExpectation(t.slots, x);
    var j := Find(t.slots, k);
    if j < |t.slots| { FindUnique(t', j); }
    if n < |t.slots| { FindUnique(t, n); }
    FindUnique(t', n);
  }

  lemma RegisterWidens(t: Table, x: Expectation)
    requires Valid(t)
    ensures Widens(t, Register(t, x).0)
  {
    hide SlotFor, Register, Valid;
    var (u, id) := Register(t, x);
    RegisterKeepsValid(t, x);
    RegisterJoinsOrMints(t, x);
    forall k: nat
      ensures k < t.nextId && SlotFor(u, k).Some? ==>
                && SlotFor(t, k).Some?
                && SlotFor(u, k).value.expectation == SlotFor(t, k).value.expectation
                && SlotFor(u, k).value.reply == SlotFor(t, k).value.reply
      ensures t.nextId <= k && SlotFor(u, k).Some? ==> SlotFor(u, k).value.reply == None
    {
      RegisterSlotFor(t, x, k);
      SlotIsBelowNext(t, k);
    }
  }

  // ----- What every id was minted for -----

  /** The expectations of the ids from `from` on, in minting order, while all are registered. */
  function Minted(t: Table, from: nat): (xs: seq<Expectation>)
    ensures |xs| == if from <= t.nextId then t.nextId - from else 0
    ensures forall i :: 0 <= i < |xs| && SlotFor(t, from + i).Some? ==>
              xs[i] == SlotFor(t, from + i).value.expectation
  {
    seq(if from <= t.nextId then t.nextId - from else 0,
        i requires 0 <= i =>
          var slot := SlotFor(t, from + i);
          if slot.Some? then slot.value.expectation else ExpectCursorPosition)
  }

  /** The event is the reply to the expectation that the id was minted for. */
  predicate Replies(asked: seq<Expectation>, id: nat, reply: Reply, e: Event) {
    id < |asked| && Match(asked[id], e) == Some(reply)
  }

  /** `asked` lists the expectation of every id ever minted; slots agree with it. */
  ghost predicate Tagged(t: Table, asked: seq<Expectation>) {
    && |asked| == t.nextId
    && forall k: nat :: SlotFor(t, k).Some? ==> k < |asked| && SlotFor(t, k).value.expectation == asked[k]
  }

  /** No id is answered twice, or without having been minted, or while it still waits. */
  ghost predicate Tallied(t: Table, asked: seq<Expectation>, answered: multiset<nat>) {
    && Valid(t) && Tagged(t, asked)
    && forall k: nat ::
         && answered[k] <= 1
         && (answered[k] > 0 ==> k < |asked| && !Waiting(t, k))
  }

  lemma NarrowedTally(t: Table, u: Table, asked: seq<Expectation>, answered: multiset<nat>)
    requires Tallied(t, asked, answered) && Narrows(t, u)
    ensures Tallied(u, asked, answered)
  {
    hide SlotFor, Valid;
  }

  lemma WidenedTally(t: Table, u: Table, asked: seq<Expectation>, answered: multiset<nat>)
    requires Tallied(t, asked, answered) && Widens(t, u)
    ensures Tallied(u, asked + Minted(u, |asked|), answered)
  {
    hide SlotFor, Valid, Minted;
    var more := Minted(u, |asked|);
    forall k: nat | SlotFor(u, k).Some?
      ensures k < |asked + more| && SlotFor(u, k).value.expectation == (asked + more)[k]
    {
      SlotIsBelowNext(u, k);
      if k >= |asked| { assert SlotFor(u, |asked| + (k - |asked|)).Some?; }
    }
  }

  /** Answers to ids that waited and wait no more are tallied with the rest. */
  lemma AnsweredTally(t: Table, u: Table, asked: seq<Expectation>, answered: multiset<nat>, more: multiset<nat>)
    requires Tallied(t, asked, answered) && Narrows(t, u)
    requires forall k: nat :: more[k] <= 1 && (more[k] > 0 ==> Waiting(t, k) && !Waiting(u, k))
    ensures Tallied(u, asked, answered + more)
  {
    hide SlotFor, Valid;
  }

  /** A completion answers an id that waited, with the reply its own expectation matches. */
  lemma CompletedReplies(t: Table, e: Event, asked: seq<Expectation>)
    requires Valid(t) && Tagged(t, asked) && FeedEvent(t, e).1.Completed?
    ensures var (fed, r) := FeedEvent(t, e);
      Replies(asked, r.id, r.reply, e) && Waiting(t, r.id) && !Waiting(fed, r.id)
  {
    hide SlotFor, Valid, FeedEvent, Match;
    FeedSlotFor(t, e, FeedEvent(t, e).1.id);
  }

  lemma NarrowedTag(t: Table, u: Table, asked: seq<Expectation>)
    requires Tagged(t, asked) && Narrows(t, u)
    ensures Tagged(u, asked)
  {
    hide SlotFor, Valid;
  }

  // ----- Replies taken, each with the id it answers -----

  function ReplyIds(replies: seq<(nat, Reply)>): multiset<nat>
    decreases |replies|
  {
    if replies == [] then multiset{} else multiset{replies[0].0} + ReplyIds(replies[1..])
  }

  lemma AssociateIds(a: multiset<nat>, b: multiset<nat>, c: multiset<nat>)
    ensures a + (b + c) == (a + b) + c
  {
  }

  lemma {:induction false} ReplyIdsAppend(a: seq<(nat, Reply)>, b: seq<(nat, Reply)>)
    ensures ReplyIds(a + b) == ReplyIds(a) + ReplyIds(b)
    decreases |a|
  {
    if a == [] {
      assert a + b == b;
    } else {
      assert (a + b)[1..] == a[1..] + b && (a + b)[0] == a[0];
      ReplyIdsAppend(a[1..], b);
      AssociateIds(multiset{a[0].0}, ReplyIds(a[1..]), ReplyIds(b));
    }
  }

  /** From `t` to `u` the replies answered ids that waited, each once, and that wait no more. */
  ghost predicate Serves(t: Table, u: Table, replies: seq<(nat, Reply)>) {
    && Narrows(t, u)
    && forall k: nat ::
         && ReplyIds(replies)[k] <= 1
         && (ReplyIds(replies)[k] > 0 ==> Waiting(t, k) && !Waiting(u, k))
  }

  lemma ServesNothing(t: Table, u: Table)
    requires Narrows(t, u)
    ensures Serves(t, u, [])
  {
    hide Narrows;
  }

  lemma ServesThen(t: Table, u: Table, v: Table, a: seq<(nat, Reply)>, b: seq<(nat, Reply)>)
    requires Serves(t, u, a) && Serves(u, v, b)
    ensures Serves(t, v, a + b)
  {
    hide Narrows, Waiting, ReplyIds;
    ReplyIdsAppend(a, b);
    NarrowsThen(t, u, v);
    forall k: nat
      ensures ReplyIds(a + b)[k] <= 1 && (ReplyIds(a + b)[k] > 0 ==> Waiting(t, k) && !Waiting(v, k))
    {
      NarrowsAt(t, u, k);
      NarrowsAt(u, v, k);
    }
  }

  // ----- At most one answer for every id minted -----

  lemma {:induction false} Pigeonhole(answered: multiset<nat>, n: nat)
    requires forall k: nat :: answered[k] <= 1 && (answered[k] > 0 ==> k < n)
    ensures |answered| <= n
    decreases n
  {
    if n == 0 {
      assert answered == multiset{};
    } else {
      Pigeonhole(answered[n - 1 := 0], n - 1);
    }
  }
}
