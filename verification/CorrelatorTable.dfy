/** The correlator's slot table: its operations as functions, and as the object that updates it. */
module CorrelatorTable {
  import opened Bytes
  import opened Events
  import opened Correlate

  datatype Slot = Slot(id: nat, expectation: Expectation, outstanding: nat, reply: Option<Reply>)

  datatype Table = Table(slots: seq<Slot>, nextId: nat)

  datatype Registered = Accepted(id: nat) | Ambiguous(conflicting: nat)

  datatype FeedResult = Completed(id: nat, reply: Reply) | Passthrough(event: Event)

  datatype Resolution = Timeout | Eof | Cancelled | NoReply

  datatype Resolved =
    | WaiterRemoved(remaining: nat)
    | Removed
    | AlreadyCompleted(unread: nat)
    | Unknown

  // ----- What each operation does -----

  /** The position of the slot with this id, or the number of slots. */
  function Find(slots: seq<Slot>, id: nat): (n: nat)
    ensures n <= |slots|
    ensures n < |slots| ==> slots[n].id == id
    ensures forall i :: 0 <= i < n ==> slots[i].id != id
  {
    if slots == [] || slots[0].id == id then 0 else 1 + Find(slots[1..], id)
  }

  /** The position of the slot with this expectation, or the number of slots. */
  function FindExpectation(slots: seq<Slot>, x: Expectation): (n: nat)
    ensures n <= |slots|
    ensures n < |slots| ==> slots[n].expectation == x
    ensures forall i :: 0 <= i < n ==> slots[i].expectation != x
  {
    if slots == [] || slots[0].expectation == x then 0 else 1 + FindExpectation(slots[1..], x)
  }

  predicate Accepts(slot: Slot, e: Event) { slot.reply.None? && Match(slot.expectation, e).Some? }

  /** The position of the first slot that still waits and accepts `e`, or the number of slots. */
  function FindAccepting(slots: seq<Slot>, e: Event): (n: nat)
    ensures n <= |slots|
    ensures n < |slots| ==> Accepts(slots[n], e)
    ensures forall i :: 0 <= i < n ==> !Accepts(slots[i], e)
  {
    if slots == [] || Accepts(slots[0], e) then 0 else 1 + FindAccepting(slots[1..], e)
  }

  function Register(t: Table, x: Expectation): (Table, nat) {
    var n := FindExpectation(t.slots, x);
    if n < |t.slots| then
      var slot := t.slots[n];
      (t.(slots := t.slots[n := slot.(outstanding := slot.outstanding + 1)]), slot.id)
    else
      (Table(t.slots + [Slot(t.nextId, x, 1, None)], t.nextId + 1), t.nextId)
  }

  function FeedEvent(t: Table, e: Event): (Table, FeedResult) {
    var n := FindAccepting(t.slots, e);
    if n < |t.slots| then
      var reply := Match(t.slots[n].expectation, e).value;
      (t.(slots := t.slots[n := t.slots[n].(reply := Some(reply))]), Completed(t.slots[n].id, reply))
    else (t, Passthrough(e))
  }

  /** One waiter of slot `n` is done; the slot is freed with its last waiter. */
  function Release(t: Table, n: nat): Table
    requires n < |t.slots|
  {
    var left := if t.slots[n].outstanding > 0 then t.slots[n].outstanding - 1 else 0;
    if left == 0 then t.(slots := t.slots[..n] + t.slots[n + 1..])
    else t.(slots := t.slots[n := t.slots[n].(outstanding := left)])
  }

  function TakeReply(t: Table, id: nat): (Table, Option<Reply>) {
    var n := Find(t.slots, id);
    if n < |t.slots| && t.slots[n].reply.Some? then (Release(t, n), t.slots[n].reply) else (t, None)
  }

  function Resolve(t: Table, id: nat): (Table, Resolved) {
    var n := Find(t.slots, id);
    if n == |t.slots| then (t, Unknown)
    else
      var left := if t.slots[n].outstanding > 0 then t.slots[n].outstanding - 1 else 0;
      (Release(t, n),
       if t.slots[n].reply.Some? then AlreadyCompleted(left)
       else if left == 0 then Removed
       else WaiterRemoved(left))
  }

  // ----- The table's invariant -----

  predicate Sorted(slots: seq<Slot>) {
    forall i, j :: 0 <= i < j < |slots| ==> slots[i].id < slots[j].id
  }

  predicate Distinct(slots: seq<Slot>) {
    forall i, j :: 0 <= i < j < |slots| ==> slots[i].expectation != slots[j].expectation
  }

  /** Ids are in minting order and below the next one, expectations are pairwise told apart, and every
      slot has a waiter. */
  predicate Valid(t: Table) {
    && Sorted(t.slots)
    && Distinct(t.slots)
    && forall i :: 0 <= i < |t.slots| ==> t.slots[i].id < t.nextId && t.slots[i].outstanding > 0
  }

  lemma FindUnique(t: Table, n: nat)
    requires Valid(t) && n < |t.slots|
    ensures Find(t.slots, t.slots[n].id) == n
  {
  }

  lemma RegisterKeepsValid(t: Table, x: Expectation)
    requires Valid(t)
    ensures Valid(Register(t, x).0)
  {
    hide FindExpectation, Sorted;
    var u := Register(t, x).0;
    RegisterKeepsSorted(t, x);
    assert forall i :: 0 <= i < |t.slots| ==> u.slots[i].expectation == t.slots[i].expectation;
  }

  lemma RegisterKeepsSorted(t: Table, x: Expectation)
    requires Valid(t)
    ensures Sorted(Register(t, x).0.slots)
  {
    hide FindExpectation, Distinct;
    var u := Register(t, x).0;
    assert forall i :: 0 <= i < |t.slots| ==> u.slots[i].id == t.slots[i].id;
  }

  lemma FeedKeepsValid(t: Table, e: Event)
    requires Valid(t)
    ensures Valid(FeedEvent(t, e).0)
  {
  }

  lemma ReleaseKeepsValid(t: Table, n: nat)
    requires Valid(t) && n < |t.slots|
    ensures Valid(Release(t, n))
  {
  }

  /** Registering never meets an ambiguity: it joins the slot of an identical expectation, which keeps
      its id, or mints an id above every one used before. */
  lemma RegisterJoinsOrMints(t: Table, x: Expectation)
    requires Valid(t)
    ensures var (t', id) := Register(t, x);
      var n := Find(t'.slots, id);
      && n < |t'.slots| && t'.slots[n].expectation == x
      && (if id < t.nextId then
            && t'.nextId == t.nextId && n < |t.slots| && t.slots[n].id == id
            && t.slots[n].expectation == x
            && t'.slots[n].outstanding == t.slots[n].outstanding + 1
          else
            && id == t.nextId && t'.nextId == id + 1
            && t'.slots[n].outstanding == 1 && t'.slots[n].reply == None
            && forall i :: 0 <= i < |t.slots| ==> t.slots[i].expectation != x)
  {
    var (t', id) := Register(t, x);
    RegisterKeepsValid(t, x);
    FindUnique(t', FindExpectation(t.slots, x));
  }

  /** At most one slot can accept an event, so which slot completes does not depend on their order. */
  lemma AcceptingSlotIsUnique(t: Table, e: Event, n: nat)
    requires Valid(t) && n < |t.slots| && Accepts(t.slots[n], e)
    ensures FindAccepting(t.slots, e) == n
    ensures FeedEvent(t, e).1 == Completed(t.slots[n].id, Match(t.slots[n].expectation, e).value)
  {
    var m := FindAccepting(t.slots, e);
    if m < n {
      DistinguishedNeverBothMatch(t.slots[m].expectation, t.slots[n].expectation, e);
    }
  }

  /** Feeding any reordering of a table completes the same id with the same reply. */
  lemma FeedIgnoresOrder(t: Table, u: Table, e: Event)
    requires Valid(t)
    requires multiset(t.slots) == multiset(u.slots)
    ensures FeedEvent(u, e).1 == FeedEvent(t, e).1
  {
    var m := FindAccepting(u.slots, e);
    forall i | 0 <= i < |t.slots| ensures m == |u.slots| ==> !Accepts(t.slots[i], e) {
      assert t.slots[i] in multiset(t.slots);
      var k :| 0 <= k < |u.slots| && u.slots[k] == t.slots[i];
      assert m == |u.slots| ==> !Accepts(u.slots[k], e);
    }
    if m < |u.slots| {
      assert u.slots[m] in multiset(u.slots);
      var n :| 0 <= n < |t.slots| && t.slots[n] == u.slots[m];
      AcceptingSlotIsUnique(t, e, n);
    }
  }

  // ----- The object -----

  class Correlator {
    var slots: seq<Slot>
    var nextId: nat

    function View(): Table
      reads this
    {
      Table(slots, nextId)
    }

    constructor ()
      ensures View() == Table([], 0)
    {
      slots := [];
      nextId := 0;
    }

    /** Joins an identical expectation, reports a conflict with one that does not distinguish, or mints
        a fresh id. The conflict never arises. */
    method RegisterExpectation(x: Expectation) returns (r: Registered)
      modifies this
      ensures r.Accepted?
      ensures (View(), r.id) == Register(old(View()), x)
    {
      for i := 0 to |slots|
        invariant forall k :: 0 <= k < i ==> slots[k].expectation != x
        invariant View() == old(View())
      {
        var slot := slots[i];
        if slot.expectation == x {
          slots := slots[i := slot.(outstanding := slot.outstanding + 1)];
          return Accepted(slot.id);
        }
        if !Distinguishes(slot.expectation, x) {
          assert false; // an identical expectation has been joined above
        }
      }
      var id := nextId;
      nextId := nextId + 1;
      slots := slots + [Slot(id, x, 1, None)];
      r := Accepted(id);
    }

    method Feed(e: Event) returns (r: FeedResult)
      modifies this
      ensures (View(), r) == FeedEvent(old(View()), e)
    {
      for i := 0 to |slots|
        invariant forall k :: 0 <= k < i ==> !Accepts(slots[k], e)
        invariant View() == old(View())
      {
        var slot := slots[i];
        if slot.reply.Some? {
          continue;
        }
        var reply := Match(slot.expectation, e);
        if reply.Some? {
          slots := slots[i := slot.(reply := reply)];
          return Completed(slot.id, reply.value);
        }
      }
      r := Passthrough(e);
    }

    method Position(id: nat) returns (n: nat)
      ensures n == Find(slots, id)
    {
      n := 0;
      while n < |slots| && slots[n].id != id
        invariant n <= |slots|
        invariant forall k :: 0 <= k < n ==> slots[k].id != id
      {
        n := n + 1;
      }
    }

    method Take(id: nat) returns (reply: Option<Reply>)
      modifies this
      ensures (View(), reply) == TakeReply(old(View()), id)
    {
      var index := Position(id);
      if index == |slots| || slots[index].reply.None? {
        return None;
      }
      reply := slots[index].reply;
      var slot := slots[index];
      var left := if slot.outstanding > 0 then slot.outstanding - 1 else 0;
      if left == 0 {
        slots := slots[..index] + slots[index + 1..];
      } else {
        slots := slots[index := slot.(outstanding := left)];
      }
    }

    method ResolveWaiter(id: nat, resolution: Resolution) returns (r: Resolved)
      modifies this
      ensures (View(), r) == Resolve(old(View()), id)
    {
      var index := Position(id);
      if index == |slots| {
        return Unknown;
      }
      var slot := slots[index];
      var left := if slot.outstanding > 0 then slot.outstanding - 1 else 0;
      if left == 0 {
        slots := slots[..index] + slots[index + 1..];
      } else {
        slots := slots[index := slot.(outstanding := left)];
      }
      if slot.reply.Some? {
        r := AlreadyCompleted(left);
      } else if left == 0 {
        r := Removed;
      } else {
        r := WaiterRemoved(left);
      }
    }
  }
}
