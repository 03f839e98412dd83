/** A concrete run of the asynchronous session in which an event that arrived is discarded. */
module TokioCounterexamples {
  import opened Bytes
  import opened Tokens
  import opened Bounds
  import opened Events
  import opened Decoder
  import opened DrainBoundary
  import opened EventFates
  import opened TokioSession
  import opened DecoderCounterexamples

  /** One read of the high half of a surrogate pair and an ESC, and then the ESC deadline: the ESC is delivered, and
      the replacement of the held half is gone. */
  lemma DeadlineDiscardsSurrogate(drained: bool, limit: nat, tables: Tables)
    requires limit >= 7
    ensures NEW_SESSION.decoder.parser.Valid()
    ensures var script := [Arrived(Read(HIGH_REPORT + [ESC], drained)), Elapsed];
      var (s, end) := Next(NEW_SESSION, true, script, limit, tables);
      && end == Finished(Key(Escape)) && s.arrived == [Key(Escape), REPLACEMENT_KEY]
      && s.delivered == [Key(Escape)] && s.pending == [] && s.fates == [Kept, Lost(1)]
  {
    hide FlushEscape, ReadOnce, BufferFlags, HasPendingLoneEscape;
    var read := Read(HIGH_REPORT + [ESC], drained);
    var script := [Arrived(read), Elapsed];
    var held := NEW_SESSION.(decoder := HeldEscape(), inputs := [Chunk(read)]);
    EscapeIsHeld(drained, limit, tables);
    NothingToFeed(held, read, limit, tables);
    assert script[1..] == [Elapsed];
    assert Next(NEW_SESSION, true, script, limit, tables) == Next(held, true, [Elapsed], limit, tables);
    FlushDiscards(held, limit, tables);
  }

  function HeldEscape(): DecoderState { DecoderState(Partial([ESC]), MapState(false, Some(55296))) }

  lemma EscapeIsHeld(drained: bool, limit: nat, tables: Tables)
    requires limit >= 7
    ensures ReadOnce(FRESH, Read(HIGH_REPORT + [ESC], drained), limit, tables) == Decoded(HeldEscape(), [])
    ensures HasPendingLoneEscape(HeldEscape().parser)
  {
    hide Decode;
    EscapeParks(limit);
    HeldAfterHigh([ESC], limit, tables);
  }

  /** A read that decodes to nothing leaves nothing to feed. */
  lemma NothingToFeed(held: Session, read: Read, limit: nat, tables: Tables)
    requires held.decoder.parser.Valid()
    requires ReadOnce(FRESH, read, limit, tables) == Decoded(held.decoder, [])
    requires held == NEW_SESSION.(decoder := held.decoder, inputs := [Chunk(read)])
    ensures var received := Receive(NEW_SESSION, read, limit, tables);
      var (t, flags) := BufferFlags(NEW_SESSION.table, received.pending);
      received.pending == [] && flags == [] && Sift(received, t, 0, flags) == held
  {
    hide ReadOnce;
    assert AllKept(0) == [] && Refine([], 0, []) == [] && Select([], []) == [];
  }

  lemma FlushDiscards(held: Session, limit: nat, tables: Tables)
    requires held.decoder == HeldEscape() && held.arrived == [] && held.fates == [] && held.delivered == []
    requires |held.inputs| == 1
    ensures var (s, event) := FlushEscape(held, limit, tables);
      && event == Some(Key(Escape)) && s.arrived == [Key(Escape), REPLACEMENT_KEY] && s.pending == held.pending
      && s.delivered == [Key(Escape)] && s.fates == [Kept, Lost(1)]
  {
    hide Flush;
    EscapeIsReachable(limit);
    FlushOfSettled(Partial([ESC]), held.decoder.mapping, limit, tables);
  }

  lemma EscapeIsReachable(limit: nat)
    ensures Reachable(Partial([ESC]), limit) && HasPendingLoneEscape(Partial([ESC]))
  {
    hide Reachable;
    EscapeParks(limit);
    GroundIsReachable(limit);
    FeedIsGood(Ground, [ESC], limit);
  }
}
