/** Losslessness: the emitted tokens and what the parser holds partition the input, in order. */
module Reconstruction {
  import opened Bytes
  import opened Tokens
  import opened Grammar
  import opened SplitEquivalence

  /** How many input bytes a token stands for. */
  function Extent(t: Token): nat { |t.Raw()| + t.Dropped() }

  /** `t` stands for exactly `span`: its raw bytes are the span, except that a truncated string keeps
      the head and the terminator and has lost the `dropped` bytes between them. */
  ghost predicate Covers(t: Token, span: Bytes) {
    if t.Dropped() == 0 then span == t.Raw()
    else
      var term := t.body.terminator.Raw();
      && |span| == Extent(t)
      && |term| <= |t.Raw()|
      && term == t.Raw()[|t.Raw()| - |term|..]
      && span[..|t.Raw()| - |term|] == t.Raw()[..|t.Raw()| - |term|]
      && span[|span| - |term|..] == term
  }

  /** The bytes a parser in state `s` has read and not yet emitted are exactly `span`. */
  ghost predicate Holds(s: ParserState, span: Bytes) {
    match s
    case Ground => span == []
    case Partial(p) => span == p
    case InString(a) =>
      && |span| == |a.retained| + a.dropped + Held(a)
      && span[..|a.retained|] == a.retained
      && (a.escHeld ==> span[|span| - 1] == ESC)
    case InPaste(a) => span == a.retained + a.pendingMatch
  }

  /** Once a payload byte has been dropped, every later one is. */
  predicate FullIfDropping(a: StringState, limit: nat) {
    a.dropped > 0 ==> |a.retained| >= a.introducerLen + limit
  }

  predicate Settled(s: ParserState, limit: nat) {
    s.Valid() && (s.InString? ==> FullIfDropping(s.str, limit))
  }

  /** `tokens` stand for consecutive spans of `input`, and state `s` holds what is left. */
  ghost predicate Partitions(input: Bytes, tokens: seq<Token>, s: ParserState)
    decreases |tokens|
  {
    if tokens == [] then Holds(s, input)
    else
      && Extent(tokens[0]) <= |input|
      && Covers(tokens[0], input[..Extent(tokens[0])])
      && Partitions(input[Extent(tokens[0])..], tokens[1..], s)
  }

  lemma PartitionsPrepend(span: Bytes, t: Token, input: Bytes, o: Outcome)
    requires Covers(t, span)
    requires Partitions(input, o.tokens, o.state)
    ensures Partitions(span + input, Prepend([t], o).tokens, o.state)
  {
    var all := span + input;
    assert all[..|span|] == span && all[|span|..] == input;
    assert ([t] + o.tokens)[1..] == o.tokens;
  }

  /** What closing a string leaves: its token for a span, then the bytes to read again. */
  lemma CloseCovers(a: StringState, past: Bytes, b: Byte, limit: nat) returns (span: Bytes)
    requires a.Valid() && Holds(InString(a), past)
    requires StepInString(a, b, limit).Close?
    ensures var r := StepInString(a, b, limit);
      && Covers(r.token, span) && past + [b] == span + r.reread && |r.reread| <= 1 + Held(a)
  {
    if a.dropped == 0 {
      span := WholeCloseCovers(a, past, b, limit);
    } else {
      span := TruncatedCloseCovers(a, past, b, limit);
    }
  }

  lemma WholeCloseCovers(a: StringState, past: Bytes, b: Byte, limit: nat) returns (span: Bytes)
    requires a.Valid() && a.dropped == 0 && Holds(InString(a), past)
    requires StepInString(a, b, limit).Close?
    ensures var r := StepInString(a, b, limit);
      && Covers(r.token, span) && past + [b] == span + r.reread && |r.reread| <= 1 + Held(a)
  {
    var r := StepInString(a, b, limit);
    span := r.token.Raw();
    assert past[..|a.retained|] == a.retained;
    assert past == if a.escHeld then a.retained + [ESC] else a.retained;
  }

  lemma TruncatedCloseCovers(a: StringState, past: Bytes, b: Byte, limit: nat) returns (span: Bytes)
    requires a.Valid() && a.dropped > 0 && Holds(InString(a), past)
    requires StepInString(a, b, limit).Close?
    ensures var r := StepInString(a, b, limit);
      && Covers(r.token, span) && past + [b] == span + r.reread && |r.reread| <= 1 + Held(a)
  {
    var r := StepInString(a, b, limit);
    span := (past + [b])[..|past| + 1 - |r.reread|];
    assert past[..|a.retained|] == a.retained;
    if r.reread == [] { assert span == past + [b]; }
  }

  lemma StayHolds(a: StringState, past: Bytes, b: Byte, limit: nat)
    requires a.Valid() && Holds(InString(a), past) && FullIfDropping(a, limit)
    requires StepInString(a, b, limit).Stay?
    ensures var a' := StepInString(a, b, limit).str;
      && a'.Valid() && Holds(InString(a'), past + [b]) && FullIfDropping(a', limit)
  {
  }

  lemma {:induction false} RunPartitions(buf: Bytes, limit: nat)
    ensures Partitions(buf, Run(buf, limit).tokens, Run(buf, limit).state)
    ensures Settled(Run(buf, limit).state, limit)
    decreases |buf|, 0
  {
    hide StepWith;
    if buf != [] {
      StepInRange(buf, limit, limit);
      var step := Step(buf, limit);
      if !step.NeedMore? { assert buf == buf[..step.next] + buf[step.next..]; }
      match step
      case NeedMore =>
      case Emit(token, next) =>
        RunPartitions(buf[next..], limit);
        PartitionsPrepend(buf[..next], token, buf[next..], Run(buf[next..], limit));
      case EnterString(a, next) => StringPartitions(a, buf[..next], buf[next..], limit);
      case EnterPaste(p, next) => PastePartitions(p, buf[..next], buf[next..], limit);
    }
  }

  lemma {:induction false} StringPartitions(a: StringState, past: Bytes, buf: Bytes, limit: nat)
    requires a.Valid() && Holds(InString(a), past) && FullIfDropping(a, limit)
    ensures var o := StringRunWith(a, buf, limit, limit);
      Partitions(past + buf, o.tokens, o.state) && Settled(o.state, limit)
    decreases |buf| + Held(a), |buf|
  {
    hide StepInString;
    if buf == [] {
      assert past + buf == past;
    } else {
      assert past + buf == (past + [buf[0]]) + buf[1..];
      match StepInString(a, buf[0], limit)
      case Stay(a') =>
        StayHolds(a, past, buf[0], limit);
        StringPartitions(a', past + [buf[0]], buf[1..], limit);
      case Close(token, reread) =>
        var span := CloseCovers(a, past, buf[0], limit);
        assert (span + reread) + buf[1..] == span + (reread + buf[1..]);
        RunPartitions(reread + buf[1..], limit);
        PartitionsPrepend(span, token, reread + buf[1..], Run(reread + buf[1..], limit));
    }
  }

  /** Advancing moves bytes from the candidate to the payload and loses none. */
  lemma AdvanceKeeps(p: PasteState, b: Byte, past: Bytes)
    requires p.Valid() && Holds(InPaste(p), past)
    ensures past + [b] == Advance(p, b).retained + Advance(p, b).pendingMatch
    ensures Advance(p, b).retained + Advance(p, b).pendingMatch
         == p.retained + p.pendingMatch + [b]
  {
    var candidate := p.pendingMatch + [b];
    if !IsPasteEndPrefix(candidate) {
      var n := Shift(candidate, 1);
      assert candidate[..n] + candidate[n..] == candidate;
    }
  }

  lemma EndCandidateHeld(p: PasteState, b: Byte, past: Bytes)
    requires Holds(InPaste(p), past)
    ensures past + [b] == p.retained + (p.pendingMatch + [b])
  {
  }

  /** A final token covers all a paste holds; a segment covers the payload and leaves the candidate. */
  lemma PasteTokensCover(p: PasteState, past: Bytes)
    requires p.Valid() && past == p.retained + p.pendingMatch
    ensures Holds(InPaste(p), past)
    ensures Covers(FinalToken(p, true), past)
    ensures Covers(SegmentToken(p), p.retained)
    ensures Holds(InPaste(AfterSegment(p)), p.pendingMatch)
  {
    assert AfterSegment(p).retained + p.pendingMatch == p.pendingMatch;
  }

  lemma PartitionsNothing(input: Bytes, s: ParserState)
    requires Holds(s, input)
    ensures Partitions(input, [], s)
  {
  }

  lemma {:induction false} PastePartitions(p: PasteState, past: Bytes, buf: Bytes, limit: nat)
    requires p.Valid() && Holds(InPaste(p), past)
    ensures var o := PasteRunWith(p, buf, limit, limit);
      Partitions(past + buf, o.tokens, o.state) && Settled(o.state, limit)
    decreases |buf|, |buf|
  {
    hide Advance, IsPasteEnd, RunWith, Partitions, SegmentToken, FinalToken, Holds, Covers;
    if buf == [] {
      assert past + buf == past;
      PartitionsNothing(past, InPaste(p));
    } else {
      assert past + buf == (past + [buf[0]]) + buf[1..];
      if IsPasteEnd(p.pendingMatch + [buf[0]]) {
        var q := p.(pendingMatch := p.pendingMatch + [buf[0]]);
        EndCandidateHeld(p, buf[0], past);
        PasteTokensCover(q, past + [buf[0]]);
        RunPartitions(buf[1..], limit);
        PartitionsPrepend(past + [buf[0]], FinalToken(q, true), buf[1..], Run(buf[1..], limit));
      } else {
        AdvanceKeeps(p, buf[0], past);
        var p' := Advance(p, buf[0]);
        PasteTokensCover(p', past + [buf[0]]);
        if |p'.retained| - p'.payloadStart >= limit {
          var q := AfterSegment(p');
          PastePartitions(q, p'.pendingMatch, buf[1..], limit);
          assert past + buf == p'.retained + (p'.pendingMatch + buf[1..]);
          PartitionsPrepend(p'.retained, SegmentToken(p'), p'.pendingMatch + buf[1..],
                            PasteRunWith(q, buf[1..], limit, limit));
        } else {
          PastePartitions(p', past + [buf[0]], buf[1..], limit);
        }
      }
    }
  }

  // ----- Through the end of input -----

  lemma FinishCovers(s: ParserState, span: Bytes, limit: nat)
    requires Settled(s, limit) && Holds(s, span)
    ensures Partitions(span, FinishTokens(s, limit), Ground)
  {
    var ts := FinishTokens(s, limit);
    if ts != [] {
      if s.InString? {
        var a := s.str;
        assert span[..|a.retained|] == a.retained;
        assert a.retained + Unterminated.Raw() == a.retained;
      } else if s.InPaste? {
        var p := s.paste;
        assert (p.retained + p.pendingMatch) + [] == span;
      }
      assert Covers(ts[0], span);
      assert Extent(ts[0]) == |span|;
      assert span[..|span|] == span && span[|span|..] == [];
      assert ts[1..] == [];
    }
  }

  lemma {:induction false} PartitionsThenFinish(input: Bytes, tokens: seq<Token>, s: ParserState, limit: nat)
    requires Settled(s, limit) && Partitions(input, tokens, s)
    ensures Partitions(input, tokens + FinishTokens(s, limit), Ground)
    decreases |tokens|
  {
    hide FinishTokens, Covers;
    var ts := FinishTokens(s, limit);
    if tokens == [] {
      FinishCovers(s, input, limit);
      assert tokens + ts == ts;
    } else {
      PartitionsThenFinish(input[Extent(tokens[0])..], tokens[1..], s, limit);
      assert (tokens + ts)[1..] == tokens[1..] + ts;
    }
  }

  /** Every token of a whole run, flush included. */
  function AllTokens(chunks: seq<Bytes>, limit: nat): seq<Token> {
    var o := FeedAll(Ground, chunks, limit);
    o.tokens + FinishTokens(o.state, limit)
  }

  /** Reconstruction: for every input, limit and chunking, the tokens stand for consecutive spans
      that make up the input, both while reading and once flushed. */
  lemma Lossless(chunks: seq<Bytes>, limit: nat)
    ensures var o := FeedAll(Ground, chunks, limit);
      Partitions(Concat(chunks), o.tokens, o.state)
    ensures Partitions(Concat(chunks), AllTokens(chunks, limit), Ground)
  {
    AnyChunking(chunks, limit);
    RunPartitions(Concat(chunks), limit);
    var o := FeedAll(Ground, chunks, limit);
    PartitionsThenFinish(Concat(chunks), o.tokens, o.state, limit);
  }

  // ----- The two forms the documentation promises -----

  function RawBytes(tokens: seq<Token>): Bytes {
    if tokens == [] then [] else tokens[0].Raw() + RawBytes(tokens[1..])
  }

  function DroppedBytes(tokens: seq<Token>): nat {
    if tokens == [] then 0 else tokens[0].Dropped() + DroppedBytes(tokens[1..])
  }

  lemma CoveredBytes(t: Token, span: Bytes)
    requires Covers(t, span)
    ensures |span| == |t.Raw()| + t.Dropped()
    ensures t.Dropped() == 0 ==> span == t.Raw()
  {
  }

  lemma {:induction false} PartitionAccounts(input: Bytes, tokens: seq<Token>)
    requires Partitions(input, tokens, Ground)
    ensures |RawBytes(tokens)| + DroppedBytes(tokens) == |input|
    ensures DroppedBytes(tokens) == 0 ==> RawBytes(tokens) == input
    decreases |tokens|
  {
    hide Covers, Extent;
    if tokens != [] {
      var n := Extent(tokens[0]);
      PartitionAccounts(input[n..], tokens[1..]);
      CoveredBytes(tokens[0], input[..n]);
      assert input == input[..n] + input[n..];
    }
  }

  /** Retained bytes and recorded drops account for every input byte, and with nothing dropped the
      raw bytes are the input. */
  lemma ReconstructsInput(chunks: seq<Bytes>, limit: nat)
    ensures var ts := AllTokens(chunks, limit);
      && |RawBytes(ts)| + DroppedBytes(ts) == |Concat(chunks)|
      && (DroppedBytes(ts) == 0 ==> RawBytes(ts) == Concat(chunks))
  {
    Lossless(chunks, limit);
    PartitionAccounts(Concat(chunks), AllTokens(chunks, limit));
  }
}
