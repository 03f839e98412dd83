/** The asynchronous session over every interleaving of its operations. */
module TokioHistory {
  import opened Bytes
  import opened Events
  import opened Correlate
  import opened CorrelatorTable
  import opened Tallies
  import opened EventFates
  import opened Probe
  import opened Gathering
  import opened TokioSession
  import opened TokioInputs
  import opened TokioConservation
  import opened TokioRuns
  import opened ProbeRuns

  datatype Op =
    | DoNext(esc: bool, script: seq<Awaited>)
    | DoQuery(x: Expectation, request: Request, script: seq<Awaited>)
    | DoProbe(seed: Capabilities, request: Request, script: seq<Awaited>)
    | DoResize(geometry: Geometry)

  ghost predicate Sound(s: Session, limit: nat, tables: Tables) { Conserved(s, limit, tables) && Owned(s) }

  function Apply(s: Session, op: Op, limit: nat, tables: Tables): Session
    requires s.decoder.parser.Valid() && (op.DoProbe? ==> Valid(BeginProbe(s).0.table))
  {
    match op
    case DoNext(esc, script) => Next(s, esc, script, limit, tables).0
    case DoQuery(x, request, script) => Query(s, x, request, script, limit, tables).0
    case DoProbe(seed, request, script) => ProbeCapabilities(s, seed, request, script, limit, tables).0
    case DoResize(g) => QueueResize(s, g)
  }

  /** The expectations an operation asks for. */
  function Asks(op: Op): seq<Expectation> {
    match op
    case DoQuery(x, _, _) => [x]
    case DoProbe(_, _, _) => ASKED
    case _ => []
  }

  /** The event an operation returns to its caller. */
  function Returns(s: Session, op: Op, limit: nat, tables: Tables): seq<Event>
    requires s.decoder.parser.Valid()
  {
    match op
    case DoNext(esc, script) =>
      var end := Next(s, esc, script, limit, tables).1;
      if end.Finished? then [end.value] else []
    case _ => []
  }

  /** What an operation gives the decoder: the reads of the script entries it uses, an ESC deadline that ended it, or
      the resize it queues. */
  function Supplies(s: Session, op: Op, limit: nat, tables: Tables): seq<Input>
    requires s.decoder.parser.Valid() && (op.DoProbe? ==> Valid(BeginProbe(s).0.table))
  {
    match op
    case DoNext(esc, script) =>
      NextInputs(script[..NextUses(s, esc, script, limit, tables)], Next(s, esc, script, limit, tables).1)
    case DoQuery(x, request, script) => ReadsOf(script[..QueryUses(s, x, request, script, limit, tables)])
    case DoProbe(seed, request, script) => ReadsOf(script[..ProbeUses(s, seed, request, script, limit, tables)])
    case DoResize(g) => [Synthetic(g)]
  }

  lemma ApplyIsAllowed(s: Session, limit: nat, tables: Tables)
    requires Sound(s, limit, tables)
    ensures s.decoder.parser.Valid() && Valid(BeginProbe(s).0.table)
  {
    hide Owned, BeginProbe, Valid, InStep, Balanced, LosesExactly, Tallied;
    ConservedIsValid(s, limit, tables);
    BegunIsValid(s);
  }

  /** Every operation keeps both invariants, asks for what is its own to ask, and delivers exactly what it
      returns. */
  lemma ApplyKeeps(s: Session, op: Op, limit: nat, tables: Tables)
    requires Sound(s, limit, tables) && s.decoder.parser.Valid() && Valid(BeginProbe(s).0.table)
    ensures var s' := Apply(s, op, limit, tables);
      && Keeps(s, s', limit, tables) && Owned(s')
      && s'.asked == s.asked + Asks(op) && s'.delivered == s.delivered + Returns(s, op, limit, tables)
      && s'.inputs == s.inputs + Supplies(s, op, limit, tables)
  {
    hide NextUses, NextInputs, ReadsOf, QueryUses, ProbeUses;
    hide Conserved, Owned, Keeps, Next, Query, ProbeCapabilities, BeginProbe, BeginQuery, QueueResize, Valid, ASKED,
      QueryEnds, AllWait, LeadingReads, Concluded;
    match op
    case DoNext(esc, script) =>
      NextKeeps(s, esc, script, limit, tables);
      NextKeepsOwned(s, esc, script, limit, tables);
      assert s.asked + [] == s.asked;
    case DoQuery(x, request, script) =>
      QueryKeeps(s, x, request, script, limit, tables);
      BeginAsks(s, x, limit, tables);
      assert s.delivered + [] == s.delivered;
      if request == Written {
        QueryTakesFirstMatch(s, x, script, limit, tables);
      } else {
        UnwrittenQueryIsOwned(s, x, request, script, limit, tables);
      }
    case DoProbe(seed, request, script) =>
      ProbeKeeps(s, seed, request, script, limit, tables);
      BeginProbeAsks(s, limit, tables);
      ProbeIsFirstMatch(s, seed, request, script, limit, tables);
      assert s.delivered + [] == s.delivered;
    case DoResize(g) =>
      QueueResizeKeeps(s, g, limit, tables);
      QueuedIsOwned(s, g);
  }

  lemma QueuedIsOwned(s: Session, g: Geometry)
    requires Owned(s)
    ensures var s' := QueueResize(s, g);
      && Owned(s') && s'.asked == s.asked + [] && s'.delivered == s.delivered + []
      && s'.inputs == s.inputs + [Synthetic(g)]
  {
    SameRegistrations(s, QueueResize(s, g));
  }

  lemma KeptIsSound(s: Session, s': Session, limit: nat, tables: Tables)
    requires Keeps(s, s', limit, tables) && Owned(s')
    ensures Sound(s', limit, tables)
  {
  }

  /** A run of operations from a sound session. */
  function RunFrom(s: Session, ops: seq<Op>, limit: nat, tables: Tables): (s': Session)
    requires Sound(s, limit, tables)
    ensures Sound(s', limit, tables)
    decreases |ops|
  {
    if ops == [] then s
    else
      ApplyIsAllowed(s, limit, tables);
      ApplyKeeps(s, ops[0], limit, tables);
      KeptIsSound(s, Apply(s, ops[0], limit, tables), limit, tables);
      RunFrom(Apply(s, ops[0], limit, tables), ops[1..], limit, tables)
  }

  function AskedBy(ops: seq<Op>): seq<Expectation>
    decreases |ops|
  {
    if ops == [] then [] else Asks(ops[0]) + AskedBy(ops[1..])
  }

  /** The events the operations of a run return, in order. */
  function ReturnedBy(s: Session, ops: seq<Op>, limit: nat, tables: Tables): seq<Event>
    requires Sound(s, limit, tables)
    decreases |ops|
  {
    if ops == [] then []
    else
      ApplyIsAllowed(s, limit, tables);
      ApplyKeeps(s, ops[0], limit, tables);
      KeptIsSound(s, Apply(s, ops[0], limit, tables), limit, tables);
      Returns(s, ops[0], limit, tables) + ReturnedBy(Apply(s, ops[0], limit, tables), ops[1..], limit, tables)
  }

  /** What the operations of a run give the decoder, in order. */
  function SuppliedBy(s: Session, ops: seq<Op>, limit: nat, tables: Tables): seq<Input>
    requires Sound(s, limit, tables)
    decreases |ops|
  {
    if ops == [] then []
    else
      ApplyIsAllowed(s, limit, tables);
      ApplyKeeps(s, ops[0], limit, tables);
      KeptIsSound(s, Apply(s, ops[0], limit, tables), limit, tables);
      Supplies(s, ops[0], limit, tables) + SuppliedBy(Apply(s, ops[0], limit, tables), ops[1..], limit, tables)
  }

  /** A run progresses from its start: no id answered before is answered again, and none that had
      stopped waiting is answered. */
  lemma {:induction false} RunProgresses(s: Session, ops: seq<Op>, limit: nat, tables: Tables)
    requires Sound(s, limit, tables)
    ensures var s' := RunFrom(s, ops, limit, tables);
      && Keeps(s, s', limit, tables)
      && s'.asked == s.asked + AskedBy(ops)
      && s'.delivered == s.delivered + ReturnedBy(s, ops, limit, tables)
      && s'.inputs == s.inputs + SuppliedBy(s, ops, limit, tables)
    decreases |ops|
  {
    hide Conserved, Owned, Keeps, Apply, Returns, Asks, Supplies, BeginProbe, Valid;
    if ops == [] {
      SoundIsConserved(s, limit, tables);
      KeepsSelf(s, limit, tables);
    } else {
      ApplyIsAllowed(s, limit, tables);
      ApplyKeeps(s, ops[0], limit, tables);
      var next := Apply(s, ops[0], limit, tables);
      KeptIsSound(s, next, limit, tables);
      RunProgresses(next, ops[1..], limit, tables);
      KeepsThen(s, next, RunFrom(next, ops[1..], limit, tables), limit, tables);
      Associate(s.asked, Asks(ops[0]), AskedBy(ops[1..]));
      Associate(
        s.delivered, Returns(s, ops[0], limit, tables), ReturnedBy(next, ops[1..], limit, tables));
      Associate(s.inputs, Supplies(s, ops[0], limit, tables), SuppliedBy(next, ops[1..], limit, tables));
    }
  }

  lemma SoundIsConserved(s: Session, limit: nat, tables: Tables)
    requires Sound(s, limit, tables)
    ensures Conserved(s, limit, tables) && Owned(s)
  {
  }

  lemma NewIsSound(limit: nat, tables: Tables)
    ensures Sound(NEW_SESSION, limit, tables)
  {
    NewIsConserved(limit, tables);
    NewIsOwned();
  }

  /** Over any interleaving of deliveries, queries, probes, handoff resizes, errors, deadlines and
      cancellations: the decoder was given exactly the reads the operations used, in order, with the ESC
      deadlines that ended deliveries and the resizes queued. What the deliveries returned and then what is
      queued is, in order, every event that was so decoded or queued, less those with another fate. Each of
      these answered an id that an earlier query or probe had asked for, with the reply to that id's own
      expectation and no id twice; or is a resize with a later one behind it; or is the last event of an ESC
      deadline that found a high surrogate held, and every such deadline discards it. */
  lemma EveryRunConserves(ops: seq<Op>, limit: nat, tables: Tables)
    ensures Sound(NEW_SESSION, limit, tables)
    ensures var s := RunFrom(NEW_SESSION, ops, limit, tables);
      && s.inputs == SuppliedBy(NEW_SESSION, ops, limit, tables)
      && s.arrived == DecodeInputs(s.inputs, limit, tables).events
      && Legal(s.arrived, s.fates, AskedBy(ops))
      && Select(s.arrived, s.fates) == ReturnedBy(NEW_SESSION, ops, limit, tables) + s.pending
      && (forall k: nat :: AnsweredIds(s.fates)[k] <= 1)
      && LosesExactly(s.inputs, s.fates, limit, tables)
  {
    hide Owned, DecodeInputs, Select, Legal, AnsweredIds, Waiting, Valid, LosesExactly, RunFrom, Progresses;
    NewIsSound(limit, tables);
    RunProgresses(NEW_SESSION, ops, limit, tables);
    assert [] + AskedBy(ops) == AskedBy(ops);
    var returned := ReturnedBy(NEW_SESSION, ops, limit, tables);
    assert [] + returned == returned;
    var supplied := SuppliedBy(NEW_SESSION, ops, limit, tables);
    assert [] + supplied == supplied;
  }

  /** No more events answer than there are ids asked for; without a query or a probe, none does. */
  lemma AnswersAreAsked(ops: seq<Op>, limit: nat, tables: Tables)
    ensures Sound(NEW_SESSION, limit, tables)
    ensures AnswerCount(RunFrom(NEW_SESSION, ops, limit, tables).fates) <= |AskedBy(ops)|
    ensures (forall i :: 0 <= i < |ops| ==> !ops[i].DoQuery? && !ops[i].DoProbe?) ==> AskedBy(ops) == []
  {
    hide Owned, AnsweredIds, Waiting, InStep, Balanced, LosesExactly, RunFrom, Progresses;
    NewIsSound(limit, tables);
    RunProgresses(NEW_SESSION, ops, limit, tables);
    var s := RunFrom(NEW_SESSION, ops, limit, tables);
    assert [] + AskedBy(ops) == AskedBy(ops);
    Pigeonhole(AnsweredIds(s.fates), |s.asked|);
    AnswersAreCounted(s.fates);
    if forall i :: 0 <= i < |ops| ==> !ops[i].DoQuery? && !ops[i].DoProbe? { NothingAsked(ops); }
  }

  lemma {:induction false} NothingAsked(ops: seq<Op>)
    requires forall i :: 0 <= i < |ops| ==> !ops[i].DoQuery? && !ops[i].DoProbe?
    ensures AskedBy(ops) == []
    decreases |ops|
  {
    if ops != [] { NothingAsked(ops[1..]); }
  }

  /** A delivery answers only ids a cancelled query or probe left behind. */
  lemma DeliveryAnswersLeftovers(
      s: Session, esc: bool, script: seq<Awaited>, k: nat, limit: nat, tables: Tables)
    requires Sound(s, limit, tables) && s.decoder.parser.Valid()
    ensures var s' := Next(s, esc, script, limit, tables).0;
      AnsweredIds(s.fates)[k] < AnsweredIds(s'.fates)[k] ==> Owns(s, k) && Waiting(s.table, k)
  {
    hide Next, AnsweredIds, InStep, Balanced, LosesExactly;
    NextKeeps(s, esc, script, limit, tables);
  }

  /** And in every state so reached a query or a probe starts on an empty table, whatever was dropped
      before it. */
  lemma EveryRunCanSweep(ops: seq<Op>, limit: nat, tables: Tables)
    ensures Sound(NEW_SESSION, limit, tables)
    ensures SweepProbe(SweepQuery(RunFrom(NEW_SESSION, ops, limit, tables))).table.slots == []
  {
    hide Conserved, Owned, SweepProbe, SweepQuery;
    NewIsSound(limit, tables);
    SweepsEmpty(RunFrom(NEW_SESSION, ops, limit, tables));
  }
}
