/** The asynchronous session as a value: every operation as what it does to the queue, the table and
    the history, with every await free to end in bytes, an error, a deadline or a dropped future. */
module TokioSession {
  import opened Bytes
  import opened Events
  import opened Decoder
  import opened DrainBoundary
  import opened Correlate
  import opened CorrelatorTable
  import opened Answers
  import opened Tallies
  import opened ResizeQueue
  import opened EventFates
  import opened Probe

  // What the decoder was given: a read, the deadline of a lone ESC, or nothing but a synthetic event.
  datatype Input = Chunk(read: Read) | EscapeDeadline | Synthetic(geometry: Geometry)

  // The last five fields are history: the expectation every id was minted for, the inputs, every event
  // that arrived, its fate, and the events delivered.
  datatype Session = Session(
    decoder: DecoderState,
    pending: seq<Event>,
    table: Table,
    activeQuery: Option<nat>,
    activeProbe: seq<nat>,
    asked: seq<Expectation>,
    inputs: seq<Input>,
    arrived: seq<Event>,
    fates: seq<Fate>,
    delivered: seq<Event>)

  const NEW_SESSION := Session(FRESH, [], Table([], 0), None, [], [], [], [], [], [])

  // How awaiting a read can end. `Failed` is any error but the end of input, which is an empty read however the
  // device signals it. A script that runs out is a future that is dropped.
  datatype Awaited = Arrived(read: Read) | Failed | Elapsed | Dropped

  // How awaiting the write of a request can end.
  datatype Request = Written | Unwritten | WriteDropped

  datatype Ended<T> = Finished(value: T) | DeviceFailed | Closed | TimedOut | Abandoned

  // ----- Events arriving and leaving -----

  /** One read: its events join the queue. */
  function Receive(s: Session, read: Read, limit: nat, tables: Tables): (r: Session)
    requires s.decoder.parser.Valid()
    ensures r.decoder.parser.Valid()
  {
    var o := ReadOnce(s.decoder, read, limit, tables);
    s.(decoder := o.state,
       pending := s.pending + o.events,
       inputs := s.inputs + [Chunk(read)],
       arrived := s.arrived + o.events,
       fates := s.fates + AllKept(|o.events|))
  }

  /** The queue from position `from` on keeps only what `flags` keep. */
  function Sift(s: Session, t: Table, from: nat, flags: seq<Fate>): Session
    requires from + |flags| == |s.pending|
  {
    s.(table := t,
       pending := s.pending[..from] + Select(s.pending[from..], flags),
       fates := Refine(s.fates, |s.delivered| + from, flags))
  }

  function Deliver(s: Session): Session
    requires s.pending != []
  {
    s.(pending := Left(s.pending),
       fates := Refine(s.fates, |s.delivered|, SkipFront(s.pending)),
       delivered := s.delivered + [Taken(s.pending).value])
  }

  /** Flushing a lone ESC delivers the first event of the flush and discards the rest. */
  function FlushEscape(s: Session, limit: nat, tables: Tables): (r: (Session, Option<Event>))
    requires s.decoder.parser.Valid()
    ensures r.0.decoder.parser.Valid()
  {
    var o := Flush(s.decoder, limit, tables);
    var flushed := s.(decoder := o.state, inputs := s.inputs + [EscapeDeadline], arrived := s.arrived + o.events);
    if o.events == [] then (flushed, None)
    else
      (flushed.(fates := s.fates + [Kept] + seq(|o.events| - 1, _ => Lost(|s.inputs|)),
                delivered := s.delivered + [o.events[0]]),
       Some(o.events[0]))
  }

  function QueueResize(s: Session, g: Geometry): Session {
    s.(pending := s.pending + [Resize(g)],
       inputs := s.inputs + [Synthetic(g)],
       arrived := s.arrived + [Resize(g)],
       fates := s.fates + [Kept])
  }

  // ----- Events through the correlator -----

  /** With no one to take a reply, a completing event is dropped. */
  function BufferFlags(t: Table, events: seq<Event>): (r: (Table, seq<Fate>))
    ensures |r.1| == |events|
    decreases |events|
  {
    if events == [] then (t, [])
    else
      var (fed, r) := FeedEvent(t, events[0]);
      var (last, rest) := BufferFlags(fed, events[1..]);
      (last, [if r.Completed? then Answered(r.id, r.reply) else Kept] + rest)
  }

  datatype Sought = Sought(table: Table, flags: seq<Fate>, reply: Option<Reply>)

  /** Feeding stops at the query's own completion; the events behind it are left as they are. */
  function SeekFlags(t: Table, id: nat, events: seq<Event>): (r: Sought)
    ensures |r.flags| == |events|
    decreases |events|
  {
    if events == [] then Sought(t, [], None)
    else
      var (fed, r) := FeedEvent(t, events[0]);
      if r.Completed? && r.id == id then
        var (taken, reply) := TakeReply(fed, id);
        Sought(taken, [Answered(r.id, r.reply)] + AllKept(|events| - 1), reply)
      else
        var rest := SeekFlags(fed, id, events[1..]);
        Sought(rest.table, [if r.Completed? then Answered(r.id, r.reply) else Kept] + rest.flags, rest.reply)
  }

  // ----- Sweeps -----

  function SweepQuery(s: Session): Session {
    if s.activeQuery.Some? then s.(table := Resolve(s.table, s.activeQuery.value).0, activeQuery := None) else s
  }

  function SweepProbe(s: Session): Session {
    s.(table := ResolveEach(s.table, s.activeProbe), activeProbe := [])
  }

  // ----- The three operations -----

  /** `next_event`; `esc` says whether the lone-ESC deadline is configured. */
  function Next(s: Session, esc: bool, script: seq<Awaited>, limit: nat, tables: Tables): (Session, Ended<Event>)
    requires s.decoder.parser.Valid()
    decreases |script|
  {
    if s.pending != [] then (Deliver(s), Finished(Taken(s.pending).value))
    else if script == [] then (s, Abandoned)
    else match script[0]
      case Failed => (s, DeviceFailed)
      case Dropped => (s, Abandoned)
      case Elapsed =>
        if esc && HasPendingLoneEscape(s.decoder.parser) then
          var (flushed, event) := FlushEscape(s, limit, tables);
          if event.Some? then (flushed, Finished(event.value)) else Next(flushed, esc, script[1..], limit, tables)
        else Next(s, esc, script[1..], limit, tables)
      case Arrived(read) =>
        if read.bytes == [] then (s, Closed)
        else
          var received := Receive(s, read, limit, tables);
          var (t, flags) := BufferFlags(s.table, received.pending);
          Next(Sift(received, t, 0, flags), esc, script[1..], limit, tables)
  }

  /** Feeds the queue from position `from` on to the query `id`. */
  function Seek(s: Session, id: nat, from: nat): (Session, Option<Reply>)
    requires from <= |s.pending|
  {
    var found := SeekFlags(s.table, id, s.pending[from..]);
    (Sift(s, found.table, from, found.flags), found.reply)
  }

  function GiveUp(s: Session, id: nat): Session {
    s.(table := Resolve(s.table, id).0, activeQuery := None)
  }

  function AwaitReply(s: Session, id: nat, script: seq<Awaited>, limit: nat, tables: Tables): (Session, Ended<Reply>)
    requires s.decoder.parser.Valid()
    decreases |script|
  {
    if script == [] then (s, Abandoned)
    else match script[0]
      case Dropped => (s, Abandoned)
      case Failed => (GiveUp(s, id), DeviceFailed)
      case Elapsed => (GiveUp(s, id), TimedOut)
      case Arrived(read) =>
        if read.bytes == [] then (GiveUp(s, id), Closed)
        else
          var (sought, reply) := Seek(Receive(s, read, limit, tables), id, |s.pending|);
          if reply.Some? then (sought.(activeQuery := None), Finished(reply.value))
          else AwaitReply(sought, id, script[1..], limit, tables)
  }

  function BeginQuery(s: Session, x: Expectation): (Session, nat) {
    var swept := SweepProbe(SweepQuery(s));
    var (t, id) := Register(swept.table, x);
    (swept.(table := t, activeQuery := Some(id), asked := s.asked + Minted(t, |s.asked|)), id)
  }

  function Query(
      s: Session, x: Expectation, request: Request, script: seq<Awaited>,
      limit: nat, tables: Tables): (Session, Ended<Reply>)
    requires s.decoder.parser.Valid()
  {
    var (begun, id) := BeginQuery(s, x);
    if request == Unwritten then (begun, DeviceFailed)
    else if request == WriteDropped then (begun, Abandoned)
    else
      var (sought, reply) := Seek(begun, id, 0);
      if reply.Some? then (sought.(activeQuery := None), Finished(reply.value))
      else AwaitReply(sought, id, script, limit, tables)
  }

  // What the whole-batch feed of a probe leaves.
  datatype BatchFed = BatchFed(session: Session, caps: Capabilities, fenced: bool)

  function Gather(s: Session, b: Bundle, caps: Capabilities, from: nat): BatchFed
    requires from <= |s.pending| && Valid(s.table)
  {
    var r := FeedBatch(s.table, b, s.pending[from..], caps);
    BatchFed(Sift(s, r.table, from, r.flags), r.caps, r.fenced)
  }

  function FinishProbe(s: Session, b: Bundle): Session {
    s.(table := ResolveEach(s.table, b.Ids()), activeProbe := [])
  }

  function AwaitFence(
      s: Session, b: Bundle, caps: Capabilities, script: seq<Awaited>,
      limit: nat, tables: Tables): (Session, Ended<Capabilities>)
    requires s.decoder.parser.Valid() && Valid(s.table)
    decreases |script|
  {
    if script == [] then (s, Abandoned)
    else match script[0]
      case Dropped => (s, Abandoned)
      case Failed => (FinishProbe(s, b), DeviceFailed)
      case Elapsed => (FinishProbe(s, b), Finished(caps))
      case Arrived(read) =>
        if read.bytes == [] then (FinishProbe(s, b), Finished(caps))
        else
          var g := Gather(Receive(s, read, limit, tables), b, caps, |s.pending|);
          if g.fenced then (FinishProbe(g.session, b), Finished(g.caps))
          else AwaitFence(g.session, b, g.caps, script[1..], limit, tables)
  }

  function BeginProbe(s: Session): (Session, Bundle) {
    var swept := SweepProbe(SweepQuery(s));
    var (t, b) := RegisterBundle(swept.table);
    (swept.(table := t, activeProbe := swept.activeProbe + b.Ids(), asked := s.asked + Minted(t, |s.asked|)), b)
  }

  /** `seed` is what the environment alone says. */
  function ProbeCapabilities(
      s: Session, seed: Capabilities, request: Request, script: seq<Awaited>,
      limit: nat, tables: Tables): (Session, Ended<Capabilities>)
    requires s.decoder.parser.Valid() && Valid(BeginProbe(s).0.table)
  {
    var (begun, b) := BeginProbe(s);
    if request == Unwritten then (begun, DeviceFailed)
    else if request == WriteDropped then (begun, Abandoned)
    else
      var g := Gather(begun, b, seed, 0);
      if g.fenced then (FinishProbe(g.session, b), Finished(g.caps))
      else AwaitFence(g.session, b, g.caps, script, limit, tables)
  }
}
