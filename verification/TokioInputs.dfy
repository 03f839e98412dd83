/** Which reads an operation of the asynchronous session consumes: all its script offers, in order, until it ends. */
module TokioInputs {
  import opened Bytes
  import opened Bounds
  import opened Events
  import opened Decoder
  import opened DrainBoundary
  import opened Correlate
  import opened CorrelatorTable
  import opened ResizeQueue
  import opened EventFates
  import opened Answers
  import opened Tallies
  import opened Probe
  import opened TokioSession

  /** The reads among the entries of a script, in order. */
  function ReadsOf(script: seq<Awaited>): seq<Input>
    decreases |script|
  {
    if script == [] then []
    else (if script[0].Arrived? then [Chunk(script[0].read)] else []) + ReadsOf(script[1..])
  }

  /** The operation ended, and so left its script, at entry `n`: it passed over nothing it could go on with. */
  ghost predicate Stops<T>(script: seq<Awaited>, n: nat, end: Ended<T>) {
    && n <= |script|
    && match end
       case Finished(_) => true
       case DeviceFailed => n < |script| && script[n] == Failed
       case Closed => n < |script| && script[n].Arrived? && script[n].read.bytes == []
       case TimedOut => n < |script| && script[n] == Elapsed
       case Abandoned => n == |script| || script[n] == Dropped
  }

  lemma StopsLater<T>(script: seq<Awaited>, n: nat, end: Ended<T>)
    requires script != [] && Stops(script[1..], n, end)
    ensures Stops(script, n + 1, end)
    ensures script[..n + 1] == [script[0]] + script[1..][..n]
    ensures ReadsOf(script[..n + 1]) ==
      (if script[0].Arrived? then [Chunk(script[0].read)] else []) + ReadsOf(script[1..][..n])
  {
    assert script[..n + 1][1..] == script[1..][..n];
  }

  // ----- Deliveries -----

  /** How many entries of its script `next_event` uses. */
  function NextUses(s: Session, esc: bool, script: seq<Awaited>, limit: nat, tables: Tables): (n: nat)
    requires s.decoder.parser.Valid()
    ensures n <= |script|
    decreases |script|
  {
    if s.pending != [] || script == [] then 0
    else match script[0]
      case Failed => 0
      case Dropped => 0
      case Elapsed =>
        if esc && HasPendingLoneEscape(s.decoder.parser) then 1
        else 1 + NextUses(s, esc, script[1..], limit, tables)
      case Arrived(read) =>
        if read.bytes == [] then 0
        else
          var received := Receive(s, read, limit, tables);
          var (t, flags) := BufferFlags(s.table, received.pending);
          1 + NextUses(Sift(received, t, 0, flags), esc, script[1..], limit, tables)
  }

  /** What the entries it used gave the decoder: their reads and, when an ESC deadline ended it, that deadline. */
  function NextInputs(used: seq<Awaited>, end: Ended<Event>): seq<Input> {
    ReadsOf(used) + if used != [] && used[|used| - 1] == Elapsed && end.Finished? then [EscapeDeadline] else []
  }

  /** The inputs recorded are those of the entries used, and none was left while it could go on. */
  lemma {:induction false} NextReads(s: Session, esc: bool, script: seq<Awaited>, limit: nat, tables: Tables)
    requires s.decoder.parser.Valid() && Reachable(s.decoder.parser, limit)
    ensures var (s', end) := Next(s, esc, script, limit, tables);
      var n := NextUses(s, esc, script, limit, tables);
      && Stops(script, n, end)
      && s'.inputs == s.inputs + NextInputs(script[..n], end)
      && (end.Finished? && n == 0 ==> s.pending != [])
    decreases |script|
  {
    hide Reachable, ReadOnce, Flush, BufferFlags, HasPendingLoneEscape, Refine, Select, Skipped, SkipFront, AllKept,
      ReadsOf, NextInputs;
    NothingUsed(Next(s, esc, script, limit, tables).1);
    assert s.inputs + [] == s.inputs && script[..0] == [];
    if s.pending == [] && script != [] {
      var rest := script[1..];
      match script[0]
      case Failed =>
      case Dropped =>
      case Elapsed =>
        if esc && HasPendingLoneEscape(s.decoder.parser) {
          FlushOfLoneEscape(s.decoder, limit, tables);
          assert script[..1] == [Elapsed];
          DeadlineUsed(Next(s, esc, script, limit, tables).1);
        } else {
          NextReads(s, esc, rest, limit, tables);
          var n := NextUses(s, esc, rest, limit, tables);
          var end := Next(s, esc, rest, limit, tables).1;
          StopsLater(script, n, end);
          ElapsedFirst(rest[..n], end);
        }
      case Arrived(read) =>
        if read.bytes != [] {
          var received := Receive(s, read, limit, tables);
          var (t, flags) := BufferFlags(s.table, received.pending);
          var sifted := Sift(received, t, 0, flags);
          ReadOnceIsReachable(s.decoder, read, limit, tables);
          NextReads(sifted, esc, rest, limit, tables);
          var n := NextUses(sifted, esc, rest, limit, tables);
          var end := Next(sifted, esc, rest, limit, tables).1;
          StopsLater(script, n, end);
          ReadFirst(s.inputs, read, rest[..n], end);
        }
    }
  }

  lemma NothingRead()
    ensures ReadsOf([]) == []
  {
  }

  lemma NothingUsed(end: Ended<Event>)
    ensures NextInputs([], end) == []
  {
  }

  lemma DeadlineUsed(end: Ended<Event>)
    ensures end.Finished? ==> NextInputs([Elapsed], end) == [EscapeDeadline]
  {
    assert [Elapsed][1..] == [];
  }

  /** A deadline passed over gives the decoder nothing. */
  lemma ElapsedFirst(rest: seq<Awaited>, end: Ended<Event>)
    requires rest != [] || !end.Finished?
    ensures NextInputs([Elapsed] + rest, end) == NextInputs(rest, end)
  {
    var used := [Elapsed] + rest;
    assert used[1..] == rest && [] + ReadsOf(rest) == ReadsOf(rest);
    if rest != [] { assert used[|used| - 1] == rest[|rest| - 1]; }
  }

  lemma ReadFirst(inputs: seq<Input>, read: Read, rest: seq<Awaited>, end: Ended<Event>)
    ensures inputs + NextInputs([Arrived(read)] + rest, end) == (inputs + [Chunk(read)]) + NextInputs(rest, end)
  {
    var used := [Arrived(read)] + rest;
    assert used[1..] == rest;
    if rest != [] { assert used[|used| - 1] == rest[|rest| - 1]; }
    assert NextInputs(used, end) == [Chunk(read)] + NextInputs(rest, end);
    Associate(inputs, [Chunk(read)], NextInputs(rest, end));
  }

  // ----- Queries and probes -----

  predicate AllArrive(script: seq<Awaited>) { forall i :: 0 <= i < |script| ==> script[i].Arrived? }

  function AwaitReplyUses(s: Session, id: nat, script: seq<Awaited>, limit: nat, tables: Tables): (n: nat)
    requires s.decoder.parser.Valid()
    ensures n <= |script|
    decreases |script|
  {
    if script == [] || !script[0].Arrived? || script[0].read.bytes == [] then 0
    else
      var (sought, reply) := Seek(Receive(s, script[0].read, limit, tables), id, |s.pending|);
      1 + if reply.Some? then 0 else AwaitReplyUses(sought, id, script[1..], limit, tables)
  }

  lemma {:induction false} AwaitReplyReads(s: Session, id: nat, script: seq<Awaited>, limit: nat, tables: Tables)
    requires s.decoder.parser.Valid()
    ensures var (s', end) := AwaitReply(s, id, script, limit, tables);
      var n := AwaitReplyUses(s, id, script, limit, tables);
      && Stops(script, n, end) && AllArrive(script[..n])
      && s'.inputs == s.inputs + ReadsOf(script[..n])
    decreases |script|
  {
    hide ReadOnce, SeekFlags, Refine, Select, AllKept, ReadsOf, Resolve;
    NothingRead();
    assert s.inputs + [] == s.inputs && script[..0] == [];
    if script != [] && script[0].Arrived? && script[0].read.bytes != [] {
      var read, rest := script[0].read, script[1..];
      var (sought, reply) := Seek(Receive(s, read, limit, tables), id, |s.pending|);
      if reply.None? {
        AwaitReplyReads(sought, id, rest, limit, tables);
        var n := AwaitReplyUses(sought, id, rest, limit, tables);
        StopsLater(script, n, AwaitReply(sought, id, rest, limit, tables).1);
        Associate(s.inputs, [Chunk(read)], ReadsOf(rest[..n]));
      } else {
        var end: Ended<Reply> := Finished(reply.value);
        StopsLater(script, 0, end);
        assert rest[..0] == [] && [Chunk(read)] + [] == [Chunk(read)];
      }
    }
  }

  function QueryUses(
      s: Session, x: Expectation, request: Request, script: seq<Awaited>, limit: nat, tables: Tables): (n: nat)
    requires s.decoder.parser.Valid()
    ensures n <= |script|
  {
    var (begun, id) := BeginQuery(s, x);
    if request != Written then 0
    else
      var (sought, reply) := Seek(begun, id, 0);
      if reply.Some? then 0 else AwaitReplyUses(sought, id, script, limit, tables)
  }

  /** A query's inputs are the reads it used; once its request is written it leaves none it could go on with. */
  lemma QueryReads(
      s: Session, x: Expectation, request: Request, script: seq<Awaited>, limit: nat, tables: Tables)
    requires s.decoder.parser.Valid()
    ensures var (s', end) := Query(s, x, request, script, limit, tables);
      var n := QueryUses(s, x, request, script, limit, tables);
      && (request == Written ==> Stops(script, n, end)) && AllArrive(script[..n])
      && s'.inputs == s.inputs + ReadsOf(script[..n])
  {
    hide SeekFlags, Refine, Select, ReadsOf, AwaitReply, Register, Resolve, ResolveEach, Minted;
    NothingRead();
    assert s.inputs + [] == s.inputs && script[..0] == [];
    var (begun, id) := BeginQuery(s, x);
    if request == Written {
      var (sought, reply) := Seek(begun, id, 0);
      if reply.None? { AwaitReplyReads(sought, id, script, limit, tables); }
    }
  }

  function AwaitFenceUses(
      s: Session, b: Bundle, caps: Capabilities, script: seq<Awaited>, limit: nat, tables: Tables): (n: nat)
    requires s.decoder.parser.Valid() && Valid(s.table)
    ensures n <= |script|
    decreases |script|
  {
    if script == [] || !script[0].Arrived? || script[0].read.bytes == [] then 0
    else
      var g := Gather(Receive(s, script[0].read, limit, tables), b, caps, |s.pending|);
      1 + if g.fenced then 0 else AwaitFenceUses(g.session, b, g.caps, script[1..], limit, tables)
  }

  lemma {:induction false} AwaitFenceReads(
      s: Session, b: Bundle, caps: Capabilities, script: seq<Awaited>, limit: nat, tables: Tables)
    requires s.decoder.parser.Valid() && Valid(s.table)
    ensures var (s', end) := AwaitFence(s, b, caps, script, limit, tables);
      var n := AwaitFenceUses(s, b, caps, script, limit, tables);
      && Stops(script, n, end) && AllArrive(script[..n])
      && s'.inputs == s.inputs + ReadsOf(script[..n])
    decreases |script|
  {
    hide ReadOnce, FeedBatch, Refine, Select, AllKept, ReadsOf, ResolveEach, Valid;
    NothingRead();
    assert s.inputs + [] == s.inputs && script[..0] == [];
    if script != [] && script[0].Arrived? && script[0].read.bytes != [] {
      var read, rest := script[0].read, script[1..];
      var g := Gather(Receive(s, read, limit, tables), b, caps, |s.pending|);
      if !g.fenced {
        AwaitFenceReads(g.session, b, g.caps, rest, limit, tables);
        var n := AwaitFenceUses(g.session, b, g.caps, rest, limit, tables);
        StopsLater(script, n, AwaitFence(g.session, b, g.caps, rest, limit, tables).1);
        Associate(s.inputs, [Chunk(read)], ReadsOf(rest[..n]));
      } else {
        var end: Ended<Capabilities> := Finished(g.caps);
        StopsLater(script, 0, end);
        assert rest[..0] == [] && [Chunk(read)] + [] == [Chunk(read)];
      }
    }
  }

  function ProbeUses(
      s: Session, seed: Capabilities, request: Request, script: seq<Awaited>, limit: nat, tables: Tables): (n: nat)
    requires s.decoder.parser.Valid() && Valid(BeginProbe(s).0.table)
    ensures n <= |script|
  {
    var (begun, b) := BeginProbe(s);
    if request != Written then 0
    else
      var g := Gather(begun, b, seed, 0);
      if g.fenced then 0 else AwaitFenceUses(g.session, b, g.caps, script, limit, tables)
  }

  /** And so are a probe's. */
  lemma ProbeReads(
      s: Session, seed: Capabilities, request: Request, script: seq<Awaited>, limit: nat, tables: Tables)
    requires s.decoder.parser.Valid() && Valid(BeginProbe(s).0.table)
    ensures var (s', end) := ProbeCapabilities(s, seed, request, script, limit, tables);
      var n := ProbeUses(s, seed, request, script, limit, tables);
      && (request == Written ==> Stops(script, n, end)) && AllArrive(script[..n])
      && s'.inputs == s.inputs + ReadsOf(script[..n])
  {
    hide FeedBatch, Refine, Select, ReadsOf, AwaitFence, RegisterBundle, Resolve, ResolveEach, Minted, Valid;
    NothingRead();
    assert s.inputs + [] == s.inputs && script[..0] == [];
    var (begun, b) := BeginProbe(s);
    if request == Written {
      var g := Gather(begun, b, seed, 0);
      if !g.fenced { AwaitFenceReads(g.session, b, g.caps, script, limit, tables); }
    }
  }
}
