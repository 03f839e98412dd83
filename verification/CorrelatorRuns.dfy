/** Safety of the correlator over every sequence of operations. */
module CorrelatorRuns {
  import opened Bytes
  import opened Events
  import opened Correlate
  import opened CorrelatorTable

  datatype Op =
    | DoRegister(x: Expectation)
    | DoFeed(e: Event)
    | DoTake(id: nat)
    | DoResolve(id: nat, resolution: Resolution)

  // What an operation did, in terms of the id it concerned.
  datatype Did =
    | Joined(id: nat)
    | CompletedId(id: nat, reply: Reply)
    | Passed(e: Event)
    | Took(id: nat, reply: Reply)
    | Released(id: nat)
    | Nothing

  function Apply(t: Table, op: Op): (Table, Did) {
    match op
    case DoRegister(x) => var (t', id) := Register(t, x); (t', Joined(id))
    case DoFeed(e) =>
      var (t', r) := FeedEvent(t, e);
      (t', match r case Completed(id, reply) => CompletedId(id, reply) case Passthrough(e') => Passed(e'))
    case DoTake(id) =>
      var (t', r) := TakeReply(t, id);
      (t', match r case Some(reply) => Took(id, reply) case None => Nothing)
    case DoResolve(id, _) =>
      var (t', r) := Resolve(t, id);
      (t', if r.Unknown? then Nothing else Released(id))
  }

  /** The table and the history after `ops`, from an empty correlator. */
  function Run(ops: seq<Op>): (Table, seq<Did>) {
    if ops == [] then (Table([], 0), [])
    else
      var (t, h) := Run(ops[..|ops| - 1]);
      var (t', did) := Apply(t, ops[|ops| - 1]);
      (t', h + [did])
  }

  // ----- Counting a history -----

  function Registrations(h: seq<Did>, id: nat): nat {
    if h == [] then 0
    else Registrations(h[..|h| - 1], id) + if h[|h| - 1] == Joined(id) then 1 else 0
  }

  function Takes(h: seq<Did>, id: nat): nat {
    if h == [] then 0
    else
      var d := h[|h| - 1];
      Takes(h[..|h| - 1], id) + if d.Took? && d.id == id then 1 else 0
  }

  function Releases(h: seq<Did>, id: nat): nat {
    if h == [] then 0
    else Releases(h[..|h| - 1], id) + if h[|h| - 1] == Released(id) then 1 else 0
  }

  function Completions(h: seq<Did>, id: nat): nat {
    if h == [] then 0
    else
      var d := h[|h| - 1];
      Completions(h[..|h| - 1], id) + if d.CompletedId? && d.id == id then 1 else 0
  }

  function Outstanding(t: Table, id: nat): nat {
    var n := Find(t.slots, id);
    if n < |t.slots| then t.slots[n].outstanding else 0
  }

  function ReplyHeld(t: Table, id: nat): Option<Reply> {
    var n := Find(t.slots, id);
    if n < |t.slots| then t.slots[n].reply else None
  }

  // ----- One operation, seen from one id -----

  /** The waiters of an id go up by a registration and down by a take or an effective resolve. */
  lemma ApplyCounts(t: Table, op: Op, id: nat)
    requires Valid(t)
    ensures var (t', did) := Apply(t, op);
      && Valid(t')
      && Outstanding(t', id) + (if did.Took? && did.id == id then 1 else 0)
                             + (if did == Released(id) then 1 else 0)
         == Outstanding(t, id) + (if did == Joined(id) then 1 else 0)
  {
    hide Register, FeedEvent, Release, Valid, Outstanding, Find;
    match op
    case DoRegister(x) =>
      RegisterKeepsValid(t, x);
      RegisterOutstanding(t, x, id);
    case DoFeed(e) =>
      FeedKeepsValid(t, e);
      FeedSlots(t, e, id);
    case DoTake(other) => ReleaseById(t, other, id);
    case DoResolve(other, _) => ReleaseById(t, other, id);
  }

  lemma RegisterOutstanding(t: Table, x: Expectation, id: nat)
    requires Valid(t)
    ensures var (t', joined) := Register(t, x);
      && Outstanding(t', id) == Outstanding(t, id) + (if joined == id then 1 else 0)
      && ReplyHeld(t', id) == ReplyHeld(t, id)
  {
    var (t', joined) := Register(t, x);
    RegisterKeepsValid(t, x);
    SlotOf(t, id);
    SlotOf(t', id);
    var n := FindExpectation(t.slots, x);
    var k := Find(t.slots, id);
    if k < |t.slots| { FindUnique(t', k); }
    if n < |t.slots| { FindUnique(t, n); }
    if n == |t.slots| { FindUnique(t', n); }
  }

  /** A found position is the only slot with the id. */
  lemma SlotOf(t: Table, id: nat)
    requires Valid(t)
    ensures forall i :: 0 <= i < |t.slots| && t.slots[i].id == id ==> i == Find(t.slots, id)
  {
  }

  lemma FeedSlots(t: Table, e: Event, id: nat)
    requires Valid(t)
    ensures var (t', r) := FeedEvent(t, e);
      && Outstanding(t', id) == Outstanding(t, id)
      && (if r.Completed? && r.id == id then
            ReplyHeld(t, id) == None && ReplyHeld(t', id) == Some(r.reply) && Outstanding(t, id) > 0
          else ReplyHeld(t', id) == ReplyHeld(t, id))
  {
    var (t', r) := FeedEvent(t, e);
    FeedKeepsValid(t, e);
    SlotOf(t, id);
    SlotOf(t', id);
    var k := Find(t.slots, id);
    if k < |t.slots| { FindUnique(t', k); }
    var n := FindAccepting(t.slots, e);
    if n < |t.slots| { FindUnique(t, n); FindUnique(t', n); }
  }

  function SlotFor(t: Table, id: nat): Option<Slot> {
    var n := Find(t.slots, id);
    if n < |t.slots| then Some(t.slots[n]) else None
  }

  lemma ReleaseOne(t: Table, n: nat, id: nat)
    requires Valid(t) && n < |t.slots|
    ensures var slot := t.slots[n];
      SlotFor(Release(t, n), id) ==
        if id != slot.id then SlotFor(t, id)
        else if slot.outstanding == 1 then None
        else Some(slot.(outstanding := slot.outstanding - 1))
  {
    hide Release, SlotFor;
    if t.slots[n].outstanding == 1 { ReleaseTheLast(t, n, id); } else { ReleaseOneOfMany(t, n, id); }
  }

  lemma ReleaseOneOfMany(t: Table, n: nat, id: nat)
    requires Valid(t) && n < |t.slots| && t.slots[n].outstanding != 1
    ensures var slot := t.slots[n];
      SlotFor(Release(t, n), id) ==
        if id != slot.id then SlotFor(t, id) else Some(slot.(outstanding := slot.outstanding - 1))
  {
    hide Find;
    var t' := Release(t, n);
    var k := Find(t.slots, id);
    ReleaseKeepsValid(t, n);
    FindUnique(t, n);
    if k < |t.slots| { FindUnique(t', k); }
  }

  lemma ReleaseTheLast(t: Table, n: nat, id: nat)
    requires Valid(t) && n < |t.slots| && t.slots[n].outstanding == 1
    ensures SlotFor(Release(t, n), id) == if id != t.slots[n].id then SlotFor(t, id) else None
  {
    hide Find;
    var t' := Release(t, n);
    var k := Find(t.slots, id);
    ReleaseKeepsValid(t, n);
    FindUnique(t, n);
    assert forall i :: 0 <= i < n ==> t'.slots[i] == t.slots[i];
    assert forall i :: n <= i < |t'.slots| ==> t'.slots[i] == t.slots[i + 1];
    if k < n { FindUnique(t', k); }
    if n < k < |t.slots| { FindUnique(t', k - 1); }
  }

  lemma ReleaseById(t: Table, other: nat, id: nat)
    requires Valid(t)
    ensures var n := Find(t.slots, other);
      n < |t.slots| ==>
        var t' := Release(t, n);
        && Valid(t')
        && Outstanding(t', id) == Outstanding(t, id) - (if other == id then 1 else 0)
        && (Outstanding(t', id) > 0 ==> ReplyHeld(t', id) == ReplyHeld(t, id))
        && (Outstanding(t', id) == 0 ==> ReplyHeld(t', id) == None)
  {
    hide Release;
    var n := Find(t.slots, other);
    if n < |t.slots| {
      ReleaseKeepsValid(t, n);
      ReleaseOne(t, n, id);
    }
  }

  // ----- Every run -----

  /** What holds of every id after every run. */
  ghost predicate Accounted(t: Table, h: seq<Did>, id: nat) {
    && Registrations(h, id) == Takes(h, id) + Releases(h, id) + Outstanding(t, id)
    && Completions(h, id) <= 1
    && (ReplyHeld(t, id).Some? ==> Completions(h, id) == 1 && CompletedId(id, ReplyHeld(t, id).value) in h)
    && (Outstanding(t, id) > 0 && ReplyHeld(t, id).None? ==> Completions(h, id) == 0)
    && (id >= t.nextId ==> Registrations(h, id) == 0 && Completions(h, id) == 0)
    && (forall r :: Took(id, r) in h ==> CompletedId(id, r) in h)
  }

  lemma HistoryGrows(h: seq<Did>, did: Did, id: nat)
    ensures Registrations(h + [did], id) == Registrations(h, id) + (if did == Joined(id) then 1 else 0)
    ensures Takes(h + [did], id) == Takes(h, id) + (if did.Took? && did.id == id then 1 else 0)
    ensures Releases(h + [did], id) == Releases(h, id) + (if did == Released(id) then 1 else 0)
    ensures Completions(h + [did], id)
         == Completions(h, id) + (if did.CompletedId? && did.id == id then 1 else 0)
  {
    assert (h + [did])[..|h|] == h;
  }

  lemma ApplyReplies(t: Table, op: Op, id: nat)
    requires Valid(t)
    ensures var (t', did) := Apply(t, op);
      && t.nextId <= t'.nextId
      && (did.Took? && did.id == id ==> ReplyHeld(t, id) == Some(did.reply))
      && (if did.CompletedId? && did.id == id then
            ReplyHeld(t, id) == None && ReplyHeld(t', id) == Some(did.reply) && Outstanding(t, id) > 0
          else
            ReplyHeld(t', id) == ReplyHeld(t, id) || (ReplyHeld(t', id) == None && Outstanding(t', id) == 0))
      && (did == Joined(id) ==> id < t'.nextId && (id >= t.nextId || Outstanding(t, id) > 0))
  {
    hide Register, FeedEvent, Valid, Outstanding, Release;
    match op
    case DoRegister(x) =>
      RegisterOutstanding(t, x, id);
      RegisterJoinsOrMints(t, x);
      RegisteredIsOutstanding(t, x);
    case DoFeed(e) =>
      FeedSlots(t, e, id);
      FeedKeepsNextId(t, e);
    case DoTake(other) =>
      ReleaseById(t, other, id);
      if Find(t.slots, other) < |t.slots| { ReleaseKeepsNextId(t, Find(t.slots, other)); }
    case DoResolve(other, _) =>
      ReleaseById(t, other, id);
      if Find(t.slots, other) < |t.slots| { ReleaseKeepsNextId(t, Find(t.slots, other)); }
  }

  lemma FeedKeepsNextId(t: Table, e: Event)
    ensures FeedEvent(t, e).0.nextId == t.nextId
  {
  }

  lemma ReleaseKeepsNextId(t: Table, n: nat)
    requires n < |t.slots|
    ensures Release(t, n).nextId == t.nextId
  {
  }

  /** An id joined already had a waiter. */
  lemma RegisteredIsOutstanding(t: Table, x: Expectation)
    requires Valid(t)
    ensures var id := Register(t, x).1; id < t.nextId ==> Outstanding(t, id) > 0
  {
    var n := FindExpectation(t.slots, x);
    if n < |t.slots| { FindUnique(t, n); }
  }

  lemma FreshIdsHaveNoSlot(t: Table, id: nat)
    requires Valid(t) && id >= t.nextId
    ensures Outstanding(t, id) == 0 && ReplyHeld(t, id) == None
  {
  }

  lemma OutstandingMeansSlot(t: Table, id: nat)
    requires Valid(t)
    ensures ReplyHeld(t, id).Some? ==> Outstanding(t, id) > 0
  {
  }

  lemma ApplyAccounts(t: Table, h: seq<Did>, op: Op, id: nat)
    requires Valid(t) && Accounted(t, h, id)
    ensures var (t', did) := Apply(t, op); Accounted(t', h + [did], id)
  {
    hide Registrations, Takes, Releases, Completions, Outstanding, ReplyHeld, Apply, Valid;
    var (t', did) := Apply(t, op);
    HistoryGrows(h, did, id);
    ApplyCounts(t, op, id);
    ApplyReplies(t, op, id);
    OutstandingMeansSlot(t', id);
    if id >= t.nextId { FreshIdsHaveNoSlot(t, id); }
    if id >= t'.nextId { FreshIdsHaveNoSlot(t', id); }
    if did.CompletedId? && did.id == id { assert did in h + [did]; }
    assert forall d :: d in h + [did] <==> d in h || d == did;
  }

  /** Over every sequence of operations and for every id: registrations are takes plus effective
      resolves plus waiters still outstanding, the id completes at most once, and every waiter that
      took a reply took the one it completed with. */
  lemma {:induction false} EveryRunIsAccounted(ops: seq<Op>, id: nat)
    ensures var (t, h) := Run(ops); Valid(t) && Accounted(t, h, id)
    decreases |ops|
  {
    if ops != [] {
      EveryRunIsAccounted(ops[..|ops| - 1], id);
      var (t, h) := Run(ops[..|ops| - 1]);
      ApplyCounts(t, ops[|ops| - 1], id);
      ApplyAccounts(t, h, ops[|ops| - 1], id);
    }
  }

  /** Two waiters of one id always take the same reply. */
  lemma AllTakersAgree(ops: seq<Op>, id: nat, r: Reply, s: Reply)
    requires Took(id, r) in Run(ops).1 && Took(id, s) in Run(ops).1
    ensures r == s
  {
    EveryRunIsAccounted(ops, id);
    OneCompletion(Run(ops).1, id, r, s);
  }

  lemma {:induction false} OneCompletion(h: seq<Did>, id: nat, r: Reply, s: Reply)
    requires CompletedId(id, r) in h && CompletedId(id, s) in h && Completions(h, id) <= 1
    ensures r == s
    decreases |h|
  {
    var last, rest := h[|h| - 1], h[..|h| - 1];
    assert h == rest + [last];
    if last.CompletedId? && last.id == id {
      if CompletedId(id, r) in rest { SomeCompletion(rest, id, r); }
      if CompletedId(id, s) in rest { SomeCompletion(rest, id, s); }
    } else {
      OneCompletion(rest, id, r, s);
    }
  }

  lemma {:induction false} SomeCompletion(h: seq<Did>, id: nat, r: Reply)
    requires CompletedId(id, r) in h
    ensures Completions(h, id) > 0
    decreases |h|
  {
    var last, rest := h[|h| - 1], h[..|h| - 1];
    assert h == rest + [last];
    if CompletedId(id, r) in rest { SomeCompletion(rest, id, r); }
  }

  /** Who still waits for an id, by the history. */
  function Waiters(h: seq<Did>, id: nat): int { Registrations(h, id) - Takes(h, id) - Releases(h, id) }

  /** What resolving reports, by the history of any run: an id without a waiter is unknown; one that completed says so;
      one that did not was removed with its last waiter, or lost one of several. The number carried is how many waiters
      the table is left with, one less than before. */
  lemma ResolutionIsExact(ops: seq<Op>, id: nat)
    ensures var (t, h) := Run(ops);
      var (t', r) := Resolve(t, id);
      && (r == Unknown <==> Waiters(h, id) == 0)
      && (r.AlreadyCompleted? <==> Waiters(h, id) > 0 && Completions(h, id) > 0)
      && (r == Removed <==> Waiters(h, id) == 1 && Completions(h, id) == 0)
      && (r.WaiterRemoved? <==> Waiters(h, id) > 1 && Completions(h, id) == 0)
      && (r != Unknown ==> Outstanding(t', id) == Waiters(h, id) - 1)
      && (r.AlreadyCompleted? ==> r.unread == Outstanding(t', id))
      && (r.WaiterRemoved? ==> r.remaining == Outstanding(t', id))
  {
    hide Release, Registrations, Takes, Releases, Completions;
    EveryRunIsAccounted(ops, id);
    ReleaseById(Run(ops).0, id, id);
  }

  /** A take yields the reply the id completed with if and only if it completed and has a waiter left. */
  lemma TakeIsExact(ops: seq<Op>, id: nat)
    ensures var (t, h) := Run(ops);
      var (t', r) := TakeReply(t, id);
      && (r.Some? <==> Waiters(h, id) > 0 && Completions(h, id) > 0)
      && (r.Some? ==> CompletedId(id, r.value) in h && Outstanding(t', id) == Waiters(h, id) - 1)
      && (r.None? ==> t' == t)
  {
    hide Release, Registrations, Takes, Releases, Completions;
    EveryRunIsAccounted(ops, id);
    ReleaseById(Run(ops).0, id, id);
  }

  /** An event completes an id only while a waiter registered before it is still outstanding: never
      one registered later, and never one already taken or given up by all. */
  lemma CompletionHasWaiter(ops: seq<Op>, e: Event)
    ensures var (t, h) := Run(ops);
      var (_, did) := Apply(t, DoFeed(e));
      match did
      case CompletedId(id, reply) =>
        && Registrations(h, id) > Takes(h, id) + Releases(h, id)
        && Completions(h, id) == 0
      case Passed(e') => e' == e && forall i :: 0 <= i < |t.slots| ==> !Accepts(t.slots[i], e)
      case _ => false
  {
    var (t, h) := Run(ops);
    var (t', r) := FeedEvent(t, e);
    if r.Completed? {
      EveryRunIsAccounted(ops, r.id);
      FeedSlots(t, e, r.id);
    } else {
      EveryRunIsAccounted(ops, 0);
    }
  }

  /** An id whose waiters are all gone stays gone: no later operation completes, takes or joins it. */
  lemma {:induction false} FreedForever(ops: seq<Op>, more: seq<Op>, id: nat)
    requires var (t, h) := Run(ops); Registrations(h, id) > 0 && Outstanding(t, id) == 0
    ensures var (t, h) := Run(ops);
      var (t', h') := Run(ops + more);
      && Outstanding(t', id) == 0
      && |h| <= |h'| && h'[..|h|] == h
      && forall k :: |h| <= k < |h'| ==>
           h'[k] != Joined(id) && h'[k] != Released(id)
           && !(h'[k].CompletedId? && h'[k].id == id) && !(h'[k].Took? && h'[k].id == id)
    decreases |more|
  {
    hide Registrations, Outstanding, Apply, Accounted;
    if more == [] {
      assert ops + more == ops;
    } else {
      var n := |more| - 1;
      FreedForever(ops, more[..n], id);
      assert (ops + more)[..|ops| + n] == ops + more[..n];
      var (t, h) := Run(ops + more[..n]);
      EveryRunIsAccounted(ops, id);
      EveryRunIsAccounted(ops + more[..n], id);
      NextIdGrows(ops, more[..n]);
      UsedIdIsBelowNext(ops, id);
      FreedStep(t, more[n], id);
      assert (ops + more)[|ops + more| - 1] == more[n];
    }
  }

  lemma UsedIdIsBelowNext(ops: seq<Op>, id: nat)
    requires Registrations(Run(ops).1, id) > 0
    ensures id < Run(ops).0.nextId
  {
    EveryRunIsAccounted(ops, id);
  }

  lemma FreedStep(t: Table, op: Op, id: nat)
    requires Valid(t) && Outstanding(t, id) == 0 && id < t.nextId
    ensures var (t', did) := Apply(t, op);
      && Outstanding(t', id) == 0
      && did != Joined(id) && did != Released(id)
      && !(did.CompletedId? && did.id == id) && !(did.Took? && did.id == id)
  {
    ApplyCounts(t, op, id);
    ApplyReplies(t, op, id);
    OutstandingMeansSlot(t, id);
    SlotOf(t, id);
    match op
    case DoRegister(x) => RegisterJoinsOrMints(t, x);
    case _ =>
  }

  lemma {:induction false} NextIdGrows(ops: seq<Op>, more: seq<Op>)
    ensures Run(ops).0.nextId <= Run(ops + more).0.nextId
    decreases |more|
  {
    hide Apply, Accounted;
    if more == [] {
      assert ops + more == ops;
    } else {
      var n := |more| - 1;
      NextIdGrows(ops, more[..n]);
      assert (ops + more)[..|ops| + n] == ops + more[..n];
      EveryRunIsAccounted(ops + more[..n], 0);
      ApplyReplies(Run(ops + more[..n]).0, more[n], 0);
    }
  }
}
