/** Delivery from the pending queue: a resize gives way to a later one still queued. */
module ResizeQueue {
  import opened Bytes
  import opened Events

  predicate HasResize(q: seq<Event>) { exists i :: 0 <= i < |q| && q[i].Resize? }

  /** How many queued events are passed over before one is delivered. */
  function Skipped(q: seq<Event>): (n: nat)
    ensures n <= |q| && (n == |q| <==> q == [])
    ensures forall i :: 0 <= i < n ==> q[i].Resize?
    ensures n > 0 ==> HasResize(q[n..])
  {
    if q != [] && q[0].Resize? && HasResize(q[1..]) then
      assert q[1..] != [];
      1 + Skipped(q[1..])
    else 0
  }

  method AnyResize(q: seq<Event>) returns (found: bool)
    ensures found == HasResize(q)
  {
    found := false;
    for i := 0 to |q|
      invariant !HasResize(q[..i])
    {
      if q[i].Resize? {
        return true;
      }
    }
    assert q[..|q|] == q;
  }

  /** Pops the next event, passing over every resize that a later one supersedes. */
  method TakeCoalescedEvent(pending: seq<Event>) returns (event: Option<Event>, rest: seq<Event>)
    ensures event == Taken(pending) && rest == Left(pending)
  {
    rest := pending;
    while rest != []
      invariant Taken(rest) == Taken(pending) && Left(rest) == Left(pending)
      decreases |rest|
    {
      var front := rest[0];
      rest := rest[1..];
      var superseded := front.Resize?;
      if superseded {
        superseded := AnyResize(rest);
      }
      if !superseded {
        return Some(front), rest;
      }
    }
    event := None;
  }

  function Taken(q: seq<Event>): Option<Event> {
    if q == [] then None else Some(q[Skipped(q)])
  }

  function Left(q: seq<Event>): seq<Event> { if q == [] then [] else q[Skipped(q) + 1..] }

  // ----- Draining a queue -----

  function DrainAll(q: seq<Event>): seq<Event>
    decreases |q|
  {
    if q == [] then [] else [Taken(q).value] + DrainAll(Left(q))
  }

  /** Position `i` is not a resize that a later one supersedes. */
  predicate Survives(q: seq<Event>, i: nat)
    requires i < |q|
  {
    q[i].Resize? ==> forall j :: i < j < |q| ==> !q[j].Resize?
  }

  /** The surviving events from position `i` on, in order. */
  function Survivors(q: seq<Event>, i: nat): seq<Event>
    requires i <= |q|
    decreases |q| - i
  {
    if i == |q| then [] else (if Survives(q, i) then [q[i]] else []) + Survivors(q, i + 1)
  }

  /** Draining any queue delivers exactly the events that are no resize or have no later one, in
      order. */
  lemma {:induction false} DrainDeliversSurvivors(q: seq<Event>, i: nat)
    requires i <= |q|
    ensures DrainAll(q[i..]) == Survivors(q, i)
    decreases |q| - i
  {
    hide HasResize, Survives, Skipped, Taken, Left;
    if i == |q| {
      assert q[i..] == [];
    } else {
      var end := i + Skipped(q[i..]);
      DeliveredSurvives(q, i);
      SkippedDoNotSurvive(q, i, end);
      DrainDeliversSurvivors(q, end + 1);
    }
  }

  /** The event delivered from position `i` on survives. */
  lemma DeliveredSurvives(q: seq<Event>, i: nat)
    requires i < |q|
    ensures var end := i + Skipped(q[i..]);
      end < |q| && Taken(q[i..]) == Some(q[end]) && Left(q[i..]) == q[end + 1..] && Survives(q, end)
  {
    var rest := q[i..];
    var n := Skipped(rest);
    SkippedStops(rest);
    forall j | i + n < j < |q| && q[j].Resize? ensures HasResize(rest[n + 1..]) {
      assert rest[n + 1..][j - i - n - 1].Resize?;
    }
  }

  lemma {:induction false} SkippedStops(q: seq<Event>)
    requires q != []
    ensures q[Skipped(q)].Resize? ==> !HasResize(q[Skipped(q) + 1..])
  {
    if q[0].Resize? && HasResize(q[1..]) {
      SkippedStops(q[1..]);
      assert q[1..][Skipped(q[1..]) + 1..] == q[Skipped(q) + 1..];
    }
  }

  lemma {:induction false} SkippedDoNotSurvive(q: seq<Event>, i: nat, end: nat)
    requires i <= end < |q| && end == i + Skipped(q[i..])
    ensures Survivors(q, i) == Survivors(q, end)
    decreases end - i
  {
    if i < end {
      var rest := q[i..];
      assert rest[1..] == q[i + 1..];
      var k :| 0 <= k < |rest[1..]| && rest[1..][k].Resize?;
      assert q[i + 1 + k].Resize? && !Survives(q, i);
      SkippedDoNotSurvive(q, i + 1, end);
    }
  }

  // ----- Deliveries between arrivals -----

  datatype Op = Push(event: Event) | Take

  datatype Flow = Flow(pushed: seq<Event>, delivered: seq<Event>, queue: seq<Event>)

  function Apply(f: Flow, op: Op): Flow {
    match op
    case Push(e) => f.(pushed := f.pushed + [e], queue := f.queue + [e])
    case Take =>
      match Taken(f.queue)
      case None => f
      case Some(e) => f.(delivered := f.delivered + [e], queue := Left(f.queue))
  }

  function Run(ops: seq<Op>): Flow
    decreases |ops|
  {
    if ops == [] then Flow([], [], []) else Apply(Run(ops[..|ops| - 1]), ops[|ops| - 1])
  }

  function NonResize(q: seq<Event>): seq<Event>
    decreases |q|
  {
    if q == [] then []
    else NonResize(q[..|q| - 1]) + if q[|q| - 1].Resize? then [] else [q[|q| - 1]]
  }

  function LastResize(q: seq<Event>): Option<Event>
    decreases |q|
  {
    if q == [] then None
    else if q[|q| - 1].Resize? then Some(q[|q| - 1])
    else LastResize(q[..|q| - 1])
  }

  lemma {:induction false} ProjectionsAppend(a: seq<Event>, b: seq<Event>)
    ensures NonResize(a + b) == NonResize(a) + NonResize(b)
    ensures LastResize(a + b) == if LastResize(b).Some? then LastResize(b) else LastResize(a)
    decreases |b|
  {
    if b == [] {
      assert a + b == a;
    } else {
      assert (a + b)[..|a + b| - 1] == a + b[..|b| - 1];
      ProjectionsAppend(a, b[..|b| - 1]);
    }
  }

  lemma {:induction false} OnlyResizes(q: seq<Event>)
    requires forall i :: 0 <= i < |q| ==> q[i].Resize?
    ensures NonResize(q) == []
    decreases |q|
  {
    if q != [] { OnlyResizes(q[..|q| - 1]); }
  }

  lemma {:induction false} ResizeIsLast(q: seq<Event>)
    ensures LastResize(q).Some? <==> HasResize(q)
    decreases |q|
  {
    if q != [] {
      ResizeIsLast(q[..|q| - 1]);
      var n := |q| - 1;
      assert HasResize(q[..n]) ==> HasResize(q) by {
        if HasResize(q[..n]) {
          var i :| 0 <= i < |q[..n]| && q[..n][i].Resize?;
          assert q[i].Resize?;
        }
      }
      assert HasResize(q) && !q[n].Resize? ==> HasResize(q[..n]) by {
        if HasResize(q) && !q[n].Resize? {
          var i :| 0 <= i < |q| && q[i].Resize?;
          assert q[..n][i].Resize?;
        }
      }
    }
  }

  /** A delivery takes nothing but superseded resizes out of what is to be delivered. */
  lemma TakeKeeps(q: seq<Event>)
    requires q != []
    ensures var later := [Taken(q).value] + Left(q);
      NonResize(later) == NonResize(q) && LastResize(later) == LastResize(q)
  {
    var n := Skipped(q);
    var later := q[n..];
    assert later == [Taken(q).value] + Left(q);
    assert q == q[..n] + later;
    ProjectionsAppend(q[..n], later);
    OnlyResizes(q[..n]);
    ResizeIsLast(later);
    if n == 0 { assert q[..n] == []; }
    assert [] + NonResize(later) == NonResize(later);
  }

  /** Over any interleaving of arrivals and deliveries, every event that is no resize is delivered or
      queued, in arrival order, and the last resize delivered or queued is the last that arrived. */
  lemma {:induction false} InterleavingKeeps(ops: seq<Op>)
    ensures var f := Run(ops);
      && NonResize(f.delivered + f.queue) == NonResize(f.pushed)
      && LastResize(f.delivered + f.queue) == LastResize(f.pushed)
    decreases |ops|
  {
    if ops != [] {
      InterleavingKeeps(ops[..|ops| - 1]);
      var f := Run(ops[..|ops| - 1]);
      var op := ops[|ops| - 1];
      if op.Push? {
        ProjectionsAppend(f.pushed, [op.event]);
        ProjectionsAppend(f.delivered + f.queue, [op.event]);
        assert (f.delivered + f.queue) + [op.event] == f.delivered + (f.queue + [op.event]);
      } else if f.queue != [] {
        var later := [Taken(f.queue).value] + Left(f.queue);
        TakeKeeps(f.queue);
        ProjectionsAppend(f.delivered, f.queue);
        ProjectionsAppend(f.delivered, later);
        assert f.delivered + later == (f.delivered + [Taken(f.queue).value]) + Left(f.queue);
      }
    }
  }

  /** So once the queue is drained too, the last resize delivered is the last one pushed. */
  lemma LastResizeIsDelivered(ops: seq<Op>)
    ensures var f := Run(ops);
      && NonResize(f.delivered + DrainAll(f.queue)) == NonResize(f.pushed)
      && LastResize(f.delivered + DrainAll(f.queue)) == LastResize(f.pushed)
  {
    InterleavingKeeps(ops);
    var f := Run(ops);
    DrainKeeps(f.queue);
    ProjectionsAppend(f.delivered, f.queue);
    ProjectionsAppend(f.delivered, DrainAll(f.queue));
  }

  lemma {:induction false} DrainKeeps(q: seq<Event>)
    ensures NonResize(DrainAll(q)) == NonResize(q) && LastResize(DrainAll(q)) == LastResize(q)
    decreases |q|
  {
    if q != [] {
      TakeKeeps(q);
      DrainKeeps(Left(q));
      var head := [Taken(q).value];
      ProjectionsAppend(head, Left(q));
      ProjectionsAppend(head, DrainAll(Left(q)));
    }
  }
}
