/** Byte attribution in the blocking driver: which raw bytes of a read were a reply, which were
    typeahead, and which the decoder still holds. */
module SyncReads {
  import opened Bytes
  import opened Tokens
  import opened Grammar
  import opened SplitEquivalence
  import opened Reconstruction
  import opened Bounds
  import opened Events
  import opened Decoder
  import opened OneByte
  import opened DrainBoundary
  import opened Correlate
  import opened CorrelatorTable
  import opened CorrelatorRuns
  import opened Answers
  import opened Tallies

  // ----- What a read does -----

  // The raw bytes one attribution drained, what they decoded to, and the replies taken from them. `silent`
  // are the tokens since the last attribution that produced no event: their bytes are at the front of the
  // span.
  datatype Span = Span(
    bytes: Bytes,
    silent: seq<Token>,
    tokens: seq<Token>,
    events: seq<Event>,
    isReply: bool,
    replies: seq<(nat, Reply)>)

  datatype Reading = Reading(
    decoder: DecoderState,
    unattributed: Bytes,
    silent: seq<Token>,
    table: Table,
    replies: seq<(nat, Reply)>,
    spans: seq<Span>)

  datatype Attribution = Attribution(table: Table, replies: seq<(nat, Reply)>, isReply: bool)

  /** Feeds one span's events to the correlator. */
  function Attribute(t: Table, ids: seq<nat>, events: seq<Event>): Attribution
    decreases |events|
  {
    if events == [] then Attribution(t, [], false)
    else
      var (fed, r) := FeedEvent(t, events[0]);
      if r.Completed? && r.id in ids then
        var (taken, reply) := TakeReply(fed, r.id);
        var rest := Attribute(taken, ids, events[1..]);
        Attribution(rest.table, (if reply.Some? then [(r.id, reply.value)] else []) + rest.replies, true)
      else Attribute(fed, ids, events[1..])
  }

  /** `saturating_sub` on lengths. */
  function SaturatingSub(a: nat, b: nat): nat { if a >= b then a - b else 0 }

  /** Drains the bytes that are not pending in the decoder and attributes them. */
  function Drain(m: Reading, ids: seq<nat>, tokens: seq<Token>, events: seq<Event>): Reading {
    var n := SaturatingSub(|m.unattributed|, |m.decoder.parser.PendingBytes()|);
    var a := Attribute(m.table, ids, events);
    Reading(m.decoder, m.unattributed[n..], [], a.table, m.replies + a.replies,
            m.spans + [Span(m.unattributed[..n], m.silent, tokens, events, a.isReply, a.replies)])
  }

  function ReadByte(m: Reading, ids: seq<nat>, b: Byte, limit: nat, tables: Tables): (r: Reading)
    requires m.decoder.parser.Valid()
    ensures r.decoder.parser.Valid()
  {
    var tokens := Feed(m.decoder.parser, [b], limit).tokens;
    var o := Decode(m.decoder, [b], limit, tables);
    var fed := m.(decoder := o.state, unattributed := m.unattributed + [b]);
    if o.events == [] then fed.(silent := m.silent + tokens)
    else Drain(fed, ids, tokens, o.events)
  }

  function ReadBytes(m: Reading, ids: seq<nat>, chunk: Bytes, limit: nat, tables: Tables): (r: Reading)
    requires m.decoder.parser.Valid()
    ensures r.decoder.parser.Valid()
    decreases |chunk|
  {
    if chunk == [] then m
    else ReadBytes(ReadByte(m, ids, chunk[0], limit, tables), ids, chunk[1..], limit, tables)
  }

  /** The flush at the end of a read that left only complete text pending. */
  function Settle(m: Reading, ids: seq<nat>, limit: nat, tables: Tables): (r: Reading)
    requires m.decoder.parser.Valid()
    ensures r.decoder.parser.Valid()
  {
    if !HasSettledText(m.decoder.parser) then m
    else
      var o := Flush(m.decoder, limit, tables);
      Drain(m.(decoder := o.state), ids, FinishTokens(m.decoder.parser, limit), o.events)
  }

  function ReadChunk(m: Reading, ids: seq<nat>, chunk: Bytes, limit: nat, tables: Tables): (r: Reading)
    requires m.decoder.parser.Valid()
    ensures r.decoder.parser.Valid()
  {
    Settle(ReadBytes(m, ids, chunk, limit, tables), ids, limit, tables)
  }

  // ----- Byte accounts -----

  function SpanBytes(spans: seq<Span>): Bytes {
    if spans == [] then [] else spans[0].bytes + SpanBytes(spans[1..])
  }

  /** The bytes of the spans that were not replies: the typeahead. */
  function Kept(spans: seq<Span>): Bytes {
    if spans == [] then []
    else (if spans[0].isReply then [] else spans[0].bytes) + Kept(spans[1..])
  }

  lemma SpansHead(spans: seq<Span>)
    requires spans != []
    ensures SpanBytes(spans) == spans[0].bytes + SpanBytes(spans[1..])
    ensures Kept(spans) == (if spans[0].isReply then [] else spans[0].bytes) + Kept(spans[1..])
  {
  }

  lemma NoSpans()
    ensures SpanBytes([]) == [] && Kept([]) == []
  {
  }

  lemma {:induction false} SpansAppend(a: seq<Span>, b: seq<Span>)
    ensures SpanBytes(a + b) == SpanBytes(a) + SpanBytes(b)
    ensures Kept(a + b) == Kept(a) + Kept(b)
    decreases |a|
  {
    hide SpanBytes, Kept;
    if a == [] {
      NoSpans();
      assert a + b == b;
      assert [] + SpanBytes(b) == SpanBytes(b) && [] + Kept(b) == Kept(b);
    } else {
      assert (a + b)[1..] == a[1..] + b && (a + b)[0] == a[0];
      SpansHead(a);
      SpansHead(a + b);
      SpansAppend(a[1..], b);
      Associate(a[0].bytes, SpanBytes(a[1..]), SpanBytes(b));
      Associate(if a[0].isReply then [] else a[0].bytes, Kept(a[1..]), Kept(b));
    }
  }

  lemma OneSpan(s: Span)
    ensures SpanBytes([s]) == s.bytes
    ensures Kept([s]) == if s.isReply then [] else s.bytes
  {
    assert s.bytes + [] == s.bytes;
  }

  // ----- The driver's bytes stay in step with the decoder's -----

  /** The unattributed bytes are those of the silent tokens and then those the decoder holds; only
      inside a paste that has delivered a segment do the two part. */
  ghost predicate InStep(m: Reading, limit: nat) {
    var s := m.decoder.parser;
    var n := |RawBytes(m.silent)|;
    && s.Valid() && Reachable(s, limit)
    && (IsContinuedPaste(s)
        || (n <= |m.unattributed|
            && m.unattributed[..n] == RawBytes(m.silent)
            && Holds(s, m.unattributed[n..])))
  }

  /** Tokens with bytes of their own and no event. */
  predicate AllSilent(ts: seq<Token>) {
    forall i :: 0 <= i < |ts| ==> IsSilent(ts[i]) && ts[i].Raw() != []
  }

  /** What holds of every span: it is the silent tokens' bytes and then exactly what its tokens stand for, unless one
      of them is a segment of a paste; only its first token can be a reply, and is its only token if it has lost
      nothing or a terminator closed it. */
  ghost predicate IsExact(s: Span) {
    && AllSilent(s.silent)
    && (forall i :: 1 <= i < |s.tokens| ==> !IsSequence(s.tokens[i]))
    && (s.tokens != [] && IsComplete(s.tokens[0]) ==> |s.tokens| == 1)
    && (s.tokens != [] && !HasSegment(s.tokens) ==> IsPartitioned(s))
  }

  ghost predicate IsPartitioned(s: Span) {
    var n := |RawBytes(s.silent)|;
    n <= |s.bytes| && s.bytes[..n] == RawBytes(s.silent) && Partitions(s.bytes[n..], s.tokens, Ground)
  }

  /** A complete token's span is the silent tokens' bytes and then its own. */
  lemma CompleteSpan(s: Span)
    requires IsExact(s) && s.tokens != [] && IsComplete(s.tokens[0])
    ensures s.tokens == [s.tokens[0]]
    ensures var n := |RawBytes(s.silent)|;
      && n <= |s.bytes| && s.bytes[..n] == RawBytes(s.silent)
      && Covers(s.tokens[0], s.bytes[n..])
  {
    var n := |RawBytes(s.silent)|;
    var t := s.tokens[0];
    assert s.tokens[1..] == [];
    var rest := s.bytes[n..];
    assert Partitions(rest, s.tokens, Ground);
    assert Partitions(rest[Extent(t)..], [], Ground);
    assert rest[..Extent(t)] == rest;
  }

  /** So it is the token's own bytes exactly when no silent token came before it since the last attribution. */
  lemma CompleteSpanExactly(s: Span)
    requires IsExact(s) && s.tokens != [] && IsComplete(s.tokens[0])
    ensures Covers(s.tokens[0], s.bytes) <==> s.silent == []
  {
    CompleteSpan(s);
    var t := s.tokens[0];
    if s.silent == [] {
      assert s.bytes[0..] == s.bytes;
    } else {
      assert |RawBytes(s.silent)| >= |s.silent[0].Raw()| > 0;
      assert |s.bytes| != Extent(t);
    }
  }

  /** A control sequence or string that has lost nothing is alone in its span: the span is the silent tokens' bytes and
      then its raw bytes. */
  lemma UntruncatedSpan(s: Span)
    requires IsExact(s) && s.tokens != [] && IsSequence(s.tokens[0]) && s.tokens[0].Dropped() == 0
    ensures s.tokens == [s.tokens[0]] && s.bytes == RawBytes(s.silent) + s.tokens[0].Raw()
  {
    CompleteSpan(s);
    var n := |RawBytes(s.silent)|;
    assert s.bytes == s.bytes[..n] + s.bytes[n..];
  }

  /** So the span is the reply's own raw bytes exactly when no silent token came before it. */
  lemma ReplySpanExactly(s: Span)
    requires IsExact(s) && s.tokens != [] && IsSequence(s.tokens[0]) && s.tokens[0].Dropped() == 0
    ensures s.bytes == s.tokens[0].Raw() <==> s.silent == []
  {
    hide IsExact, AllSilent;
    UntruncatedSpan(s);
    CompleteSpanExactly(s);
  }

  lemma {:induction false} RawAppend(a: seq<Token>, b: seq<Token>)
    ensures RawBytes(a + b) == RawBytes(a) + RawBytes(b)
    decreases |a|
  {
    if a == [] {
      assert a + b == b;
    } else {
      assert (a + b)[1..] == a[1..] + b && (a + b)[0] == a[0];
      RawAppend(a[1..], b);
      Associate(a[0].Raw(), RawBytes(a[1..]), RawBytes(b));
    }
  }

  /** Feeding a state that holds `past` partitions `past` and the bytes fed. */
  lemma FeedPartitions(s: ParserState, past: Bytes, buf: Bytes, limit: nat)
    requires s.Valid() && Reachable(s, limit) && Holds(s, past)
    ensures Partitions(past + buf, Feed(s, buf, limit).tokens, Feed(s, buf, limit).state)
  {
    hide RunWith, StringRunWith, PasteRunWith, Partitions;
    match s
    case Ground =>
      assert past + buf == buf;
      RunPartitions(buf, limit);
    case Partial(p) => RunPartitions(past + buf, limit);
    case InString(a) => StringPartitions(a, past, buf, limit);
    case InPaste(p) => PastePartitions(p, past, buf, limit);
  }

  /** What is left of a partition is what the state holds. */
  lemma {:induction false} PartitionTail(input: Bytes, tokens: seq<Token>, s: ParserState) returns (n: nat)
    requires Partitions(input, tokens, s)
    ensures n <= |input| && Holds(s, input[n..]) && Partitions(input[..n], tokens, Ground)
    ensures tokens == [] ==> n == 0
    decreases |tokens|
  {
    hide Covers;
    if tokens == [] {
      n := 0;
      assert input[0..] == input;
    } else {
      var k := Extent(tokens[0]);
      var m := PartitionTail(input[k..], tokens[1..], s);
      n := k + m;
      assert input[k..][m..] == input[n..];
      assert input[..n][k..] == input[k..][..m] && input[..n][..k] == input[..k];
    }
  }

  lemma PlainlyHeldIsPending(s: ParserState, span: Bytes)
    requires IsPlainlyHeld(s) && Holds(s, span)
    ensures span == s.PendingBytes()
  {
  }

  // ----- Which events are replies -----

  /** Only a control sequence or a string is ever matched. */
  lemma MatchedEventIsSyntax(x: Expectation, e: Event)
    requires Match(x, e).Some?
    ensures e.Syntax? && (e.token.Csi? || e.token.Str?)
  {
    hide MatchCsi, MatchString;
  }

  /** What attributing events takes: replies among `ids`, each to an event that its own expectation matches. */
  lemma {:induction false} AttributeServes(t: Table, ids: seq<nat>, events: seq<Event>, asked: seq<Expectation>)
    requires Valid(t) && Tagged(t, asked)
    ensures var a := Attribute(t, ids, events);
      && Serves(t, a.table, a.replies) && (a.isReply <==> a.replies != [])
      && forall r :: r in a.replies ==> r.0 in ids && exists e :: e in events && Replies(asked, r.0, r.1, e)
    decreases |events|
  {
    hide FeedEvent, TakeReply, Valid, SlotFor, Narrows, Match, Tagged, ReplyIds;
    if events == [] {
      NarrowsSelf(t);
      ServesNothing(t, t);
    } else {
      var e, rest := events[0], events[1..];
      var (fed, r) := FeedEvent(t, e);
      EventNarrows(t, e);
      NarrowsIsValid(t, fed);
      NarrowedTag(t, fed, asked);
      if r.Completed? && r.id in ids {
        TakenServes(t, e, asked);
        var taken := TakeReply(fed, r.id).0;
        AttributeServes(taken, ids, rest, asked);
        ServesThen(t, taken, Attribute(taken, ids, rest).table, [(r.id, r.reply)], Attribute(taken, ids, rest).replies);
        assert e in events;
      } else {
        AttributeServes(fed, ids, rest, asked);
        ServesNothing(t, fed);
        var more := Attribute(fed, ids, rest);
        ServesThen(t, fed, more.table, [], more.replies);
        assert [] + more.replies == more.replies;
      }
    }
  }

  /** A completion answers an id that waited, and taking its reply leaves it waiting no more. */
  lemma TakenServes(t: Table, e: Event, asked: seq<Expectation>)
    requires Valid(t) && Tagged(t, asked) && FeedEvent(t, e).1.Completed?
    ensures var (fed, r) := FeedEvent(t, e);
      var (taken, reply) := TakeReply(fed, r.id);
      && reply == Some(r.reply) && Valid(taken) && Tagged(taken, asked)
      && Serves(t, taken, [(r.id, r.reply)]) && Replies(asked, r.id, r.reply, e)
  {
    hide SlotFor, Valid, FeedEvent, Match, TakeReply, Narrows, Tagged;
    var (fed, r) := FeedEvent(t, e);
    var taken := TakeReply(fed, r.id).0;
    EventNarrows(t, e);
    NarrowsIsValid(t, fed);
    CompletedReplies(t, e, asked);
    TakeNarrows(fed, r.id);
    CompletionHasReply(t, e);
    TakenWaitsNoMore(t, e);
    NarrowsThen(t, fed, taken);
    NarrowsIsValid(t, taken);
    NarrowedTag(t, taken, asked);
    forall k: nat
      ensures ReplyIds([(r.id, r.reply)])[k] <= 1
      ensures ReplyIds([(r.id, r.reply)])[k] > 0 ==> Waiting(t, k) && !Waiting(taken, k)
    {
      OneReplyId(r.id, r.reply);
      NarrowsAt(fed, taken, k);
    }
  }

  lemma TakenWaitsNoMore(t: Table, e: Event)
    requires Valid(t) && FeedEvent(t, e).1.Completed?
    ensures var (fed, r) := FeedEvent(t, e); !Waiting(TakeReply(fed, r.id).0, r.id)
  {
    hide SlotFor, FeedEvent, TakeReply, Match;
    var (fed, r) := FeedEvent(t, e);
    FeedKeepsValid(t, e);
    FeedSlotFor(t, e, r.id);
    TakeNarrows(fed, r.id);
    NarrowsAt(fed, TakeReply(fed, r.id).0, r.id);
  }

  lemma OneReplyId(id: nat, reply: Reply)
    ensures ReplyIds([(id, reply)]) == multiset{id}
  {
    assert ReplyIds([(id, reply)][1..]) == multiset{};
  }

  /** An event of syntax is the token itself. */
  lemma SyntaxEventOfToken(m: MapState, t: Token, tables: Tables, i: nat)
    requires i < |MapToken(m, t, tables).events| && MapToken(m, t, tables).events[i].Syntax?
    ensures MapToken(m, t, tables).events[i] == Syntax(t)
  {
    hide Win32FieldsOf;
    if t.Text? { CharEventsAreKeys(t.text, i); }
  }

  lemma {:induction false} CharEventsAreKeys(s: Bytes, i: nat)
    requires i < |CharEvents(s)|
    ensures CharEvents(s)[i].Key?
    decreases |s|
  {
    if i > 0 { CharEventsAreKeys(s[CharWidth(s).value..], i - 1); }
  }

  lemma {:induction false} SyntaxEventHasToken(m: MapState, ts: seq<Token>, tables: Tables, i: nat)
    requires i < |MapTokens(m, ts, tables).events| && MapTokens(m, ts, tables).events[i].Syntax?
    ensures exists k :: 0 <= k < |ts| && Syntax(ts[k]) == MapTokens(m, ts, tables).events[i]
    decreases |ts|
  {
    hide MapToken;
    var first := MapToken(m, ts[0], tables);
    if i < |first.events| {
      SyntaxEventOfToken(m, ts[0], tables, i);
    } else {
      SyntaxEventHasToken(first.mapping, ts[1..], tables, i - |first.events|);
      var e := MapTokens(m, ts, tables).events[i];
      var k :| 0 <= k < |ts[1..]| && Syntax(ts[1..][k]) == e;
      assert Syntax(ts[k + 1]) == e;
    }
  }

  /** The replies taken from a span answer expectations that its own tokens match. */
  lemma ReplyHasToken(
      asked: seq<Expectation>, id: nat, reply: Reply, e: Event, m: MapState, ts: seq<Token>, tail: seq<Event>,
      tables: Tables)
    requires forall i :: 0 <= i < |tail| ==> tail[i].Key?
    requires e in MapTokens(m, ts, tables).events + tail && Replies(asked, id, reply, e)
    ensures exists t :: t in ts && Replies(asked, id, reply, Syntax(t))
  {
    hide Match, MapTokens;
    var events := MapTokens(m, ts, tables).events;
    MatchedEventIsSyntax(asked[id], e);
    var i :| 0 <= i < |events + tail| && (events + tail)[i] == e;
    SyntaxEventHasToken(m, ts, tables, i);
    var k :| 0 <= k < |ts| && Syntax(ts[k]) == events[i];
    assert ts[k] in ts && Replies(asked, id, reply, Syntax(ts[k]));
  }

  /** Every reply taken from the span is one of its tokens, answering the expectation its id was minted for. */
  ghost predicate IsAnswered(asked: seq<Expectation>, s: Span) {
    && (s.isReply <==> s.replies != [])
    && forall r :: r in s.replies ==> exists t :: t in s.tokens && Replies(asked, r.0, r.1, Syntax(t))
  }

  /** A reply span's first token is what was matched; with nothing dropped it is alone, and the span is its raw bytes
      after those of silent key reports. */
  ghost predicate HoldsItsReply(asked: seq<Expectation>, s: Span) {
    s.isReply ==>
      && s.replies != [] && s.tokens != [] && IsSequence(s.tokens[0])
      && (forall r :: r in s.replies ==> Replies(asked, r.0, r.1, Syntax(s.tokens[0])))
      && (IsComplete(s.tokens[0]) ==> s.tokens == [s.tokens[0]])
      && (s.tokens[0].Dropped() == 0 ==>
            s.tokens == [s.tokens[0]] && s.bytes == RawBytes(s.silent) + s.tokens[0].Raw())
  }

  lemma ReplyIsHeld(asked: seq<Expectation>, s: Span)
    requires IsExact(s) && IsAnswered(asked, s)
    ensures HoldsItsReply(asked, s)
  {
    hide Match, AllSilent, IsPartitioned, HasSegment;
    if s.isReply {
      forall r | r in s.replies
        ensures s.tokens != [] && IsSequence(s.tokens[0]) && Replies(asked, r.0, r.1, Syntax(s.tokens[0]))
      {
        var t :| t in s.tokens && Replies(asked, r.0, r.1, Syntax(t));
        MatchedEventIsSyntax(asked[r.0], Syntax(t));
        var i :| 0 <= i < |s.tokens| && s.tokens[i] == t;
      }
      assert s.replies[0] in s.replies;
      if IsComplete(s.tokens[0]) { CompleteSpan(s); }
      if s.tokens[0].Dropped() == 0 { UntruncatedSpan(s); }
    }
  }

  // ----- One byte -----

  lemma SilentHasBytes(t: Token, limit: nat)
    requires GoodToken(t, limit)
    ensures IsSilent(t) ==> t.Raw() != []
  {
  }

  /** Tokens that give no event are silent ones. */
  lemma {:induction false} QuietTokensAreSilent(m: MapState, ts: seq<Token>, limit: nat, tables: Tables)
    requires GoodTokens(ts, limit) && MapTokens(m, ts, tables).events == []
    ensures AllSilent(ts)
    decreases |ts|
  {
    hide MapToken, GoodToken, IsSilent;
    if ts != [] {
      TextIsPrintable(ts[0], limit);
      OnlyWin32IsSilent(m, ts[0], tables);
      SilentHasBytes(ts[0], limit);
      var first := MapToken(m, ts[0], tables);
      assert MapTokens(m, ts, tables).events == first.events + MapTokens(first.mapping, ts[1..], tables).events;
      QuietTokensAreSilent(first.mapping, ts[1..], limit, tables);
      assert forall i :: 1 <= i < |ts| ==> ts[i] == ts[1..][i - 1];
    }
  }

  /** What one byte does inside a paste that has delivered a segment. */
  lemma ContinuedPasteByte(p: PasteState, b: Byte, limit: nat)
    requires BoundedPaste(p, limit) && !p.isFirst
    ensures var o := Feed(InPaste(p), [b], limit);
      if o.tokens == [] then IsContinuedPaste(o.state)
      else
        && o.state.PendingBytes() == [] && (o.state == Ground || IsContinuedPaste(o.state))
        && |o.tokens| == 1 && IsSegment(o.tokens[0])
  {
    hide PasteRunWith, IsPasteEnd, Shift;
    PasteByte(p, b, limit);
  }

  /** The tokens one byte completes, and where the bytes it leaves pending begin. `n` is how many of
      the bytes read since the last silent token have become tokens. */
  lemma ByteAccounts(s: ParserState, past: Bytes, b: Byte, limit: nat) returns (n: nat)
    requires s.Valid() && Reachable(s, limit) && !IsContinuedPaste(s) && Holds(s, past)
    ensures var o := Feed(s, [b], limit);
      && Reachable(o.state, limit) && GoodTokens(o.tokens, limit) && CompletesCleanly(o)
      && n <= |past| + 1
      && (o.tokens == [] ==> n == 0)
      && (IsContinuedPaste(o.state) || Holds(o.state, (past + [b])[n..]))
      && (o.tokens != [] ==> |o.state.PendingBytes()| <= |past| + 1)
      && (o.tokens != [] && !IsContinuedPaste(o.state) ==> n == |past| + 1 - |o.state.PendingBytes()|)
      && Partitions((past + [b])[..n], o.tokens, Ground)
  {
    hide Reachable, RunWith, StringRunWith, PasteRunWith, GoodTokens, Partitions;
    var o := Feed(s, [b], limit);
    FeedIsGood(s, [b], limit);
    OneByteIsClean(s, b, limit);
    FeedPartitions(s, past, [b], limit);
    n := PartitionTail(past + [b], o.tokens, o.state);
    if o.tokens != [] && !IsContinuedPaste(o.state) {
      PlainlyHeldIsPending(o.state, (past + [b])[n..]);
    }
  }

  /** What one read byte, or the flush after a read, does to the accounts. */
  ghost predicate Accounts(m: Reading, r: Reading, fed: Bytes, limit: nat) {
    && InStep(r, limit) && AllSilent(r.silent)
    && m.spans <= r.spans
    && SpanBytes(r.spans) + r.unattributed == SpanBytes(m.spans) + m.unattributed + fed
    && forall i :: |m.spans| <= i < |r.spans| ==> IsExact(r.spans[i])
  }

  lemma DrainAccounts(m: Reading, ids: seq<nat>, tokens: seq<Token>, events: seq<Event>)
    ensures var r := Drain(m, ids, tokens, events);
      && SpanBytes(r.spans) + r.unattributed == SpanBytes(m.spans) + m.unattributed
      && r.silent == [] && |r.spans| == |m.spans| + 1
  {
    hide Attribute, SpanBytes, Kept;
    var n := SaturatingSub(|m.unattributed|, |m.decoder.parser.PendingBytes()|);
    var span := Drain(m, ids, tokens, events).spans[|m.spans|];
    SpansAppend(m.spans, [span]);
    OneSpan(span);
    assert m.unattributed[..n] + m.unattributed[n..] == m.unattributed;
    Associate(SpanBytes(m.spans), m.unattributed[..n], m.unattributed[n..]);
  }

  /** The subtraction that finds a span's length never saturates. */
  lemma NeverSaturates(m: Reading, b: Byte, limit: nat)
    requires InStep(m, limit)
    ensures var o := Feed(m.decoder.parser, [b], limit);
      o.tokens != [] ==> |o.state.PendingBytes()| <= |m.unattributed + [b]|
  {
    hide Reachable, Feed, Holds;
    var s := m.decoder.parser;
    if IsContinuedPaste(s) {
      ContinuedPasteByteOf(s, b, limit);
    } else {
      var k := ByteAccounts(s, m.unattributed[|RawBytes(m.silent)|..], b, limit);
    }
  }

  lemma ContinuedPasteByteOf(s: ParserState, b: Byte, limit: nat)
    requires s.Valid() && Reachable(s, limit) && IsContinuedPaste(s)
    ensures var o := Feed(s, [b], limit);
      if o.tokens == [] then IsContinuedPaste(o.state)
      else
        && o.state.PendingBytes() == [] && (o.state == Ground || IsContinuedPaste(o.state))
        && |o.tokens| == 1 && IsSegment(o.tokens[0])
  {
    ContinuedPasteByte(s.paste, b, limit);
  }

  /** The bytes held after a byte that completes no event are still those of the silent tokens and then the
      decoder's. */
  lemma QuietByteInStep(s: ParserState, silent: seq<Token>, unattributed: Bytes, b: Byte, limit: nat)
    requires s.Valid() && Reachable(s, limit) && !IsContinuedPaste(s)
    requires var n := |RawBytes(silent)|;
      n <= |unattributed| && unattributed[..n] == RawBytes(silent) && Holds(s, unattributed[n..])
    requires AllSilent(Feed(s, [b], limit).tokens)
    ensures var o := Feed(s, [b], limit);
      var n := |RawBytes(silent + o.tokens)|;
      var all := unattributed + [b];
      && n <= |all|
      && (IsContinuedPaste(o.state) || (all[..n] == RawBytes(silent + o.tokens) && Holds(o.state, all[n..])))
  {
    hide Reachable, Feed, Holds, GoodTokens, Partitions, IsSilent;
    var o := Feed(s, [b], limit);
    var n := |RawBytes(silent)|;
    var past, all := unattributed[n..], unattributed + [b];
    var _ := ByteAccounts(s, past, b, limit);
    assert all[n..] == past + [b] && all[..n] == RawBytes(silent);
    if o.tokens == [] {
      assert silent + o.tokens == silent;
      assert (past + [b])[0..] == past + [b];
    } else {
      SilentByte(s, past, b, limit);
      RawAppend(silent, o.tokens);
      Associate(RawBytes(silent), past, [b]);
      assert RawBytes(silent + o.tokens) == all && all[|all|..] == [];
      HoldsNothing();
    }
  }

  /** A byte that completes no event. */
  lemma QuietByteAccounts(m: Reading, ids: seq<nat>, b: Byte, limit: nat, tables: Tables)
    requires InStep(m, limit) && AllSilent(m.silent)
    requires Decode(m.decoder, [b], limit, tables).events == []
    ensures Accounts(m, ReadByte(m, ids, b, limit, tables), [b], limit)
  {
    hide Reachable, Feed, Holds, GoodTokens, MapTokens, Drain, IsSilent, IsExact, SpanBytes;
    var s := m.decoder.parser;
    var o := Feed(s, [b], limit);
    Associate(SpanBytes(m.spans), m.unattributed, [b]);
    FeedIsGood(s, [b], limit);
    GoodOf(o, limit);
    QuietTokensAreSilent(m.decoder.mapping, o.tokens, limit, tables);
    if IsContinuedPaste(s) {
      ContinuedPasteByteOf(s, b, limit);
      PasteIsNotSilent(o.tokens);
    } else {
      QuietByteInStep(s, m.silent, m.unattributed, b, limit);
    }
  }

  /** A byte that completes only silent tokens completes one, and with it everything held. */
  lemma SilentByte(s: ParserState, past: Bytes, b: Byte, limit: nat)
    requires s.Valid() && Reachable(s, limit) && !IsContinuedPaste(s) && Holds(s, past)
    requires Feed(s, [b], limit).tokens != [] && AllSilent(Feed(s, [b], limit).tokens)
    ensures Feed(s, [b], limit).state == Ground
    ensures RawBytes(Feed(s, [b], limit).tokens) == past + [b]
  {
    hide Reachable, Feed, Holds, GoodTokens, Partitions, IsSilent;
    var o := Feed(s, [b], limit);
    var k := ByteAccounts(s, past, b, limit);
    SilentIsAlone(o);
    assert o.tokens == [o.tokens[0]];
    assert (past + [b])[..k] == past + [b];
    assert IsSilent(o.tokens[0]);
    SilentRaw(o.tokens[0], past + [b]);
    OneRaw(o.tokens[0]);
  }

  lemma SilentRaw(t: Token, span: Bytes)
    requires IsSilent(t) && Partitions(span, [t], Ground)
    ensures span == t.Raw()
  {
    assert Partitions(span[Extent(t)..], [], Ground);
    assert span[..Extent(t)] == span;
  }

  lemma HoldsNothing()
    ensures Holds(Ground, [])
  {
  }

  lemma OneRaw(t: Token)
    ensures RawBytes([t]) == t.Raw()
  {
    assert [t][1..] == [];
    assert t.Raw() + [] == t.Raw();
  }

  lemma GoodOf(o: Outcome, limit: nat)
    requires Good(o, limit)
    ensures Reachable(o.state, limit) && GoodTokens(o.tokens, limit)
  {
  }

  lemma SilentIsAlone(o: Outcome)
    requires CompletesCleanly(o) && o.tokens != [] && AllSilent(o.tokens)
    ensures |o.tokens| == 1 && IsComplete(o.tokens[0]) && o.state == Ground
  {
    assert IsSilent(o.tokens[0]);
    assert IsComplete(o.tokens[0]);
  }

  lemma PasteIsNotSilent(ts: seq<Token>)
    ensures |ts| == 1 && ts[0].Paste? ==> !AllSilent(ts)
  {
    assert |ts| == 1 && ts[0].Paste? ==> !IsSilent(ts[0]);
  }

  /** The span of a byte that completes an event. */
  lemma SpanIsExact(m: Reading, b: Byte, limit: nat, s: Span)
    requires InStep(m, limit) && AllSilent(m.silent)
    requires var o := Feed(m.decoder.parser, [b], limit);
      var un := m.unattributed + [b];
      && o.tokens != [] && s.silent == m.silent && s.tokens == o.tokens
      && s.bytes == un[..SaturatingSub(|un|, |o.state.PendingBytes()|)]
    ensures IsExact(s)
  {
    hide Reachable, Feed, Holds, GoodTokens, IsSilent, Partitions;
    var d := m.decoder.parser;
    var o := Feed(d, [b], limit);
    if IsContinuedPaste(d) {
      ContinuedPasteByteOf(d, b, limit);
    } else {
      var un := m.unattributed + [b];
      var k := |RawBytes(m.silent)|;
      var past := m.unattributed[k..];
      var n := ByteAccounts(d, past, b, limit);
      if IsContinuedPaste(o.state) {
        CompleteIsAlone(o);
      } else {
        assert un == RawBytes(m.silent) + (past + [b]);
        assert s.bytes == un[..k + n];
        assert s.bytes[k..] == (past + [b])[..n] && s.bytes[..k] == RawBytes(m.silent);
        CompleteIsAlone(o);
      }
    }
  }

  lemma CompleteIsAlone(o: Outcome)
    requires CompletesCleanly(o) && o.tokens != []
    ensures forall i :: 1 <= i < |o.tokens| ==> !IsSequence(o.tokens[i])
    ensures IsComplete(o.tokens[0]) ==> |o.tokens| == 1 && o.state == Ground
    ensures IsContinuedPaste(o.state) ==> HasSegment(o.tokens)
  {
  }

  /** A string that a byte completes is alone in its span exactly when a terminator closed it, or when ESC and the byte
      that aborted it open a sequence, whose bytes are then the ones held. */
  lemma StringSpanExactly(m: Reading, ids: seq<nat>, b: Byte, limit: nat, tables: Tables)
    requires InStep(m, limit) && Decode(m.decoder, [b], limit, tables).events != []
    requires var ts := Feed(m.decoder.parser, [b], limit).tokens; ts != [] && ts[0].Str?
    ensures m.decoder.parser.InString? && |ReadByte(m, ids, b, limit, tables).spans| == |m.spans| + 1
    ensures var r := ReadByte(m, ids, b, limit, tables);
      var s := r.spans[|m.spans|];
      var closed := s.tokens != [] && s.tokens[0].Str? && s.tokens[0].body.terminator != Unterminated;
      && s.tokens != [] && s.tokens[0].Str?
      && (|s.tokens| == 1 <==> closed || (m.decoder.parser.str.escHeld && OpensSequence(b, limit)))
      && (|s.tokens| == 1 && !closed ==> r.decoder.parser.PendingBytes() == [ESC, b])
  {
    hide Reachable, Feed, Holds, MapTokens, Attribute, OpensSequence;
    StringIsAloneExactly(m.decoder.parser, b, limit);
  }

  /** The bytes left after a drain are the ones the decoder holds. */
  lemma DrainInStep(m: Reading, b: Byte, limit: nat)
    requires InStep(m, limit)
    ensures var o := Feed(m.decoder.parser, [b], limit);
      var un := m.unattributed + [b];
      && Reachable(o.state, limit)
      && (o.tokens != [] ==>
            IsContinuedPaste(o.state) || Holds(o.state, un[SaturatingSub(|un|, |o.state.PendingBytes()|)..]))
  {
    hide Reachable, Feed, Holds, GoodTokens;
    var s := m.decoder.parser;
    var o := Feed(s, [b], limit);
    var un := m.unattributed + [b];
    FeedIsGood(s, [b], limit);
    GoodOf(o, limit);
    if IsContinuedPaste(s) {
      ContinuedPasteByteOf(s, b, limit);
      assert un[|un|..] == [];
      HoldsNothing();
    } else {
      var k := |RawBytes(m.silent)|;
      var past := m.unattributed[k..];
      var n := ByteAccounts(s, past, b, limit);
      assert un[k..] == past + [b];
      assert un[k + n..] == (past + [b])[n..];
    }
  }

  lemma EventByteAccounts(m: Reading, ids: seq<nat>, b: Byte, limit: nat, tables: Tables)
    requires InStep(m, limit) && AllSilent(m.silent)
    requires Decode(m.decoder, [b], limit, tables).events != []
    ensures Accounts(m, ReadByte(m, ids, b, limit, tables), [b], limit)
  {
    hide Reachable, Feed, Holds, MapTokens, Attribute, IsExact, IsSilent;
    var o := Feed(m.decoder.parser, [b], limit);
    var d := Decode(m.decoder, [b], limit, tables);
    var fed := m.(decoder := d.state, unattributed := m.unattributed + [b]);
    NoTokensNoEvents(m.decoder.mapping, tables);
    DrainInStep(m, b, limit);
    DrainAccounts(fed, ids, o.tokens, d.events);
    assert SpanBytes(m.spans) + fed.unattributed == SpanBytes(m.spans) + m.unattributed + [b];
    NoRaw();
    var r := Drain(fed, ids, o.tokens, d.events);
    SpanIsExact(m, b, limit, r.spans[|m.spans|]);
    assert r.unattributed[0..] == r.unattributed;
  }

  lemma NoRaw()
    ensures RawBytes([]) == []
  {
  }

  lemma ByteAccountsFor(m: Reading, ids: seq<nat>, b: Byte, limit: nat, tables: Tables)
    requires InStep(m, limit) && AllSilent(m.silent)
    ensures Accounts(m, ReadByte(m, ids, b, limit, tables), [b], limit)
  {
    hide Accounts, ReadByte, AllSilent, Reachable, Holds;
    if Decode(m.decoder, [b], limit, tables).events == [] {
      QuietByteAccounts(m, ids, b, limit, tables);
    } else {
      EventByteAccounts(m, ids, b, limit, tables);
    }
  }

  // ----- The flush at the end of a read -----

  lemma SettledTokens(s: ParserState, limit: nat)
    requires s.Valid() && Reachable(s, limit) && HasSettledText(s)
    ensures var ts := FinishTokens(s, limit); |ts| == 1 && (ts[0].Text? || ts[0].Paste?)
  {
    SettledTextExactly(s, limit);
    if s.Partial? { TextIsValidAndPrintable(s.pending); }
  }

  lemma {:induction false} NothingAttributed(t: Table, ids: seq<nat>, events: seq<Event>)
    requires forall i, x :: 0 <= i < |events| ==> Match(x, events[i]).None?
    ensures !Attribute(t, ids, events).isReply && Attribute(t, ids, events).replies == []
    decreases |events|
  {
    hide Match, Release;
    if events != [] {
      NothingCompletes(t, events[0]);
      NothingAttributed(FeedEvent(t, events[0]).0, ids, events[1..]);
    }
  }

  lemma NothingCompletes(t: Table, e: Event)
    requires forall x :: Match(x, e).None?
    ensures FeedEvent(t, e).1.Passthrough?
  {
    hide Match;
    forall i | 0 <= i < |t.slots| ensures !Accepts(t.slots[i], e) {
      assert Match(t.slots[i].expectation, e).None?;
    }
  }

  /** What the flush releases is never taken for a reply: its bytes are typeahead. */
  lemma SettledIsNeverReply(t: Table, ids: seq<nat>, d: DecoderState, limit: nat, tables: Tables)
    requires d.parser.Valid() && Reachable(d.parser, limit) && HasSettledText(d.parser)
    ensures var a := Attribute(t, ids, Flush(d, limit, tables).events); !a.isReply && a.replies == []
  {
    hide Reachable, Match, Attribute, MapTokens, HasSettledText, FinishTokens;
    SettledTokens(d.parser, limit);
    var ts := FinishTokens(d.parser, limit);
    var mapped := MapTokens(d.mapping, ts, tables);
    var events := Flush(d, limit, tables).events;
    forall i, x | 0 <= i < |events| ensures Match(x, events[i]).None? {
      if Match(x, events[i]).Some? {
        MatchedEventIsSyntax(x, events[i]);
        SyntaxEventHasToken(d.mapping, ts, tables, i);
        TextNeverMatches(x, ts[0]);
      }
    }
    NothingAttributed(t, ids, events);
  }

  lemma TextNeverMatches(x: Expectation, t: Token)
    ensures t.Text? || t.Paste? ==> Match(x, Syntax(t)).None?
  {
    hide MatchCsi, MatchString;
  }

  /** The span of the flush. */
  lemma SettledSpanIsExact(m: Reading, limit: nat, s: Span)
    requires InStep(m, limit) && AllSilent(m.silent) && HasSettledText(m.decoder.parser)
    requires s.bytes == m.unattributed && s.silent == m.silent && s.tokens == FinishTokens(m.decoder.parser, limit)
    ensures IsExact(s)
  {
    hide Reachable, Holds, HasSettledText, IsSilent, Partitions;
    var p := m.decoder.parser;
    SettledTokens(p, limit);
    SettledTextExactly(p, limit);
    if !IsContinuedPaste(p) {
      assert Settled(p, limit);
      FinishCovers(p, m.unattributed[|RawBytes(m.silent)|..], limit);
    } else {
      assert IsSegment(s.tokens[0]);
    }
  }

  lemma SettleAccounts(m: Reading, ids: seq<nat>, limit: nat, tables: Tables)
    requires InStep(m, limit) && AllSilent(m.silent)
    ensures Accounts(m, Settle(m, ids, limit, tables), [], limit)
  {
    hide Reachable, Holds, MapTokens, Attribute, HasSettledText, FinishTokens, IsExact, IsSilent;
    var r := Settle(m, ids, limit, tables);
    assert SpanBytes(m.spans) + m.unattributed + [] == SpanBytes(m.spans) + m.unattributed;
    if HasSettledText(m.decoder.parser) {
      var o := Flush(m.decoder, limit, tables);
      var ts := FinishTokens(m.decoder.parser, limit);
      DrainAccounts(m.(decoder := o.state), ids, ts, o.events);
      GroundIsReachable(limit);
      HoldsNothing();
      NoRaw();
      assert r.unattributed[0..] == [];
      var n := |m.unattributed|;
      assert m.unattributed[..n] == m.unattributed;
      SettledSpanIsExact(m, limit, r.spans[|m.spans|]);
    }
  }

  // ----- Whole reads -----

  lemma AccountsThen(m: Reading, a: Reading, b: Reading, fed: Bytes, more: Bytes, limit: nat)
    requires Accounts(m, a, fed, limit) && Accounts(a, b, more, limit)
    ensures Accounts(m, b, fed + more, limit)
  {
    hide InStep, IsExact, AllSilent, SpanBytes;
    var all := SpanBytes(m.spans) + m.unattributed;
    assert SpanBytes(b.spans) + b.unattributed == (all + fed) + more == all + (fed + more);
    forall i | |m.spans| <= i < |b.spans| ensures IsExact(b.spans[i]) {
      if i < |a.spans| { assert b.spans[i] == a.spans[i]; }
    }
  }

  lemma AccountsNothing(m: Reading, limit: nat)
    requires InStep(m, limit) && AllSilent(m.silent)
    ensures Accounts(m, m, [], limit)
  {
    hide InStep, IsExact, SpanBytes;
    assert SpanBytes(m.spans) + m.unattributed + [] == SpanBytes(m.spans) + m.unattributed;
  }

  lemma {:induction false} BytesAccount(m: Reading, ids: seq<nat>, chunk: Bytes, limit: nat, tables: Tables)
    requires InStep(m, limit) && AllSilent(m.silent)
    ensures Accounts(m, ReadBytes(m, ids, chunk, limit, tables), chunk, limit)
    decreases |chunk|
  {
    hide Reachable, Holds, AllSilent, ReadByte;
    if chunk == [] {
      AccountsNothing(m, limit);
    } else {
      ByteAccountsFor(m, ids, chunk[0], limit, tables);
      var next := ReadByte(m, ids, chunk[0], limit, tables);
      BytesAccount(next, ids, chunk[1..], limit, tables);
      AccountsThen(m, next, ReadBytes(m, ids, chunk, limit, tables), [chunk[0]], chunk[1..], limit);
      assert [chunk[0]] + chunk[1..] == chunk;
    }
  }

  lemma ChunkAccounts(m: Reading, ids: seq<nat>, chunk: Bytes, limit: nat, tables: Tables)
    requires InStep(m, limit) && AllSilent(m.silent)
    ensures Accounts(m, ReadChunk(m, ids, chunk, limit, tables), chunk, limit)
  {
    hide Reachable, Holds, AllSilent, ReadBytes, Settle;
    BytesAccount(m, ids, chunk, limit, tables);
    var read := ReadBytes(m, ids, chunk, limit, tables);
    SettleAccounts(read, ids, limit, tables);
    AccountsThen(m, read, ReadChunk(m, ids, chunk, limit, tables), chunk, [], limit);
    assert chunk + [] == chunk;
  }

  // ----- The replies of a read -----

  function SpanReplies(spans: seq<Span>): seq<(nat, Reply)>
    decreases |spans|
  {
    if spans == [] then [] else spans[0].replies + SpanReplies(spans[1..])
  }

  lemma SpanRepliesHead(spans: seq<Span>)
    requires spans != []
    ensures SpanReplies(spans) == spans[0].replies + SpanReplies(spans[1..])
  {
  }

  lemma NoSpanReplies()
    ensures SpanReplies([]) == []
  {
  }

  lemma {:induction false} SpanRepliesAppend(a: seq<Span>, b: seq<Span>)
    ensures SpanReplies(a + b) == SpanReplies(a) + SpanReplies(b)
    decreases |a|
  {
    hide SpanReplies;
    if a == [] {
      NoSpanReplies();
      assert a + b == b && [] + SpanReplies(b) == SpanReplies(b);
    } else {
      assert (a + b)[1..] == a[1..] + b && (a + b)[0] == a[0];
      SpanRepliesHead(a);
      SpanRepliesHead(a + b);
      SpanRepliesAppend(a[1..], b);
      Associate(a[0].replies, SpanReplies(a[1..]), SpanReplies(b));
    }
  }

  lemma OneSpanReplies(s: Span)
    ensures SpanReplies([s]) == s.replies && SpanReplies([]) == []
  {
    assert s.replies + [] == s.replies;
  }

  /** From `m` to `r`, the replies taken are those of the spans added; each is a token of its span and answers
      an id that waited, once. */
  ghost predicate Gains(m: Reading, r: Reading, asked: seq<Expectation>) {
    && m.spans <= r.spans
    && (var more := r.spans[|m.spans|..];
        && r.replies == m.replies + SpanReplies(more)
        && Serves(m.table, r.table, SpanReplies(more))
        && forall i :: 0 <= i < |more| ==> IsAnswered(asked, more[i]))
  }

  lemma GainsNothing(m: Reading, r: Reading, asked: seq<Expectation>)
    requires Valid(m.table) && r.table == m.table && r.replies == m.replies && r.spans == m.spans
    ensures Gains(m, r, asked)
  {
    hide Valid, Serves;
    assert r.spans[|m.spans|..] == [] && m.replies + [] == m.replies;
    NarrowsSelf(m.table);
    ServesNothing(m.table, m.table);
  }

  lemma GainsThen(m: Reading, a: Reading, b: Reading, asked: seq<Expectation>)
    requires Gains(m, a, asked) && Gains(a, b, asked)
    ensures Gains(m, b, asked)
  {
    hide Serves, IsAnswered, SpanReplies;
    var first, second, more := a.spans[|m.spans|..], b.spans[|a.spans|..], b.spans[|m.spans|..];
    assert more == first + second;
    SpanRepliesAppend(first, second);
    ServesThen(m.table, a.table, b.table, SpanReplies(first), SpanReplies(second));
    Associate(m.replies, SpanReplies(first), SpanReplies(second));
    forall i | 0 <= i < |more| ensures IsAnswered(asked, more[i]) {
      if i < |first| { assert more[i] == first[i]; } else { assert more[i] == second[i - |first|]; }
    }
  }

  lemma GainsIsTagged(m: Reading, r: Reading, asked: seq<Expectation>)
    requires Gains(m, r, asked) && Tagged(m.table, asked)
    ensures Valid(r.table) && Tagged(r.table, asked)
  {
    hide Valid, Tagged, IsAnswered, SpanReplies;
    NarrowedTag(m.table, r.table, asked);
    NarrowsIsValid(m.table, r.table);
  }

  lemma DrainGains(
      m: Reading, ids: seq<nat>, mapping: MapState, tokens: seq<Token>, tail: seq<Event>, tables: Tables,
      asked: seq<Expectation>)
    requires Valid(m.table) && Tagged(m.table, asked)
    requires forall i :: 0 <= i < |tail| ==> tail[i].Key?
    ensures Gains(m, Drain(m, ids, tokens, MapTokens(mapping, tokens, tables).events + tail), asked)
  {
    hide Valid, Tagged, Attribute, MapTokens, SpanReplies, Serves, Replies;
    var events := MapTokens(mapping, tokens, tables).events + tail;
    var r := Drain(m, ids, tokens, events);
    var span := r.spans[|m.spans|];
    assert r.spans[|m.spans|..] == [span];
    OneSpanReplies(span);
    AttributeServes(m.table, ids, events, asked);
    forall reply | reply in span.replies
      ensures exists t :: t in tokens && Replies(asked, reply.0, reply.1, Syntax(t))
    {
      var e :| e in events && Replies(asked, reply.0, reply.1, e);
      ReplyHasToken(asked, reply.0, reply.1, e, mapping, tokens, tail, tables);
    }
  }

  lemma ByteGains(m: Reading, ids: seq<nat>, b: Byte, limit: nat, tables: Tables, asked: seq<Expectation>)
    requires m.decoder.parser.Valid() && Valid(m.table) && Tagged(m.table, asked)
    ensures Gains(m, ReadByte(m, ids, b, limit, tables), asked)
  {
    hide Valid, Tagged, Drain, MapTokens, Feed, SpanReplies, Serves, IsAnswered;
    var tokens := Feed(m.decoder.parser, [b], limit).tokens;
    var o := Decode(m.decoder, [b], limit, tables);
    var fed := m.(decoder := o.state, unattributed := m.unattributed + [b]);
    if o.events == [] {
      GainsNothing(m, ReadByte(m, ids, b, limit, tables), asked);
    } else {
      assert o.events + [] == o.events;
      DrainGains(fed, ids, m.decoder.mapping, tokens, [], tables, asked);
    }
  }

  lemma {:induction false} BytesGain(
      m: Reading, ids: seq<nat>, chunk: Bytes, limit: nat, tables: Tables, asked: seq<Expectation>)
    requires m.decoder.parser.Valid() && Valid(m.table) && Tagged(m.table, asked)
    ensures Gains(m, ReadBytes(m, ids, chunk, limit, tables), asked)
    decreases |chunk|
  {
    hide Valid, Tagged, ReadByte, Gains;
    if chunk == [] {
      GainsNothing(m, m, asked);
    } else {
      var next := ReadByte(m, ids, chunk[0], limit, tables);
      ByteGains(m, ids, chunk[0], limit, tables, asked);
      GainsIsTagged(m, next, asked);
      BytesGain(next, ids, chunk[1..], limit, tables, asked);
      GainsThen(m, next, ReadBytes(m, ids, chunk, limit, tables), asked);
    }
  }

  /** A whole read, the flush at its end included. */
  lemma ChunkGains(m: Reading, ids: seq<nat>, chunk: Bytes, limit: nat, tables: Tables, asked: seq<Expectation>)
    requires m.decoder.parser.Valid() && Valid(m.table) && Tagged(m.table, asked)
    ensures Gains(m, ReadChunk(m, ids, chunk, limit, tables), asked)
  {
    hide Valid, Tagged, Gains, ReadBytes, Drain, MapTokens, HasSettledText, FinishTokens;
    var read := ReadBytes(m, ids, chunk, limit, tables);
    BytesGain(m, ids, chunk, limit, tables, asked);
    if HasSettledText(read.decoder.parser) {
      var o := Flush(read.decoder, limit, tables);
      var ts := FinishTokens(read.decoder.parser, limit);
      var settled := read.(decoder := o.state);
      GainsIsTagged(m, read, asked);
      GainsOf(m, read, settled, asked);
      DrainGains(
        settled, ids, read.decoder.mapping, ts, Orphan(MapTokens(read.decoder.mapping, ts, tables).mapping.half),
        tables, asked);
      GainsThen(m, settled, ReadChunk(m, ids, chunk, limit, tables), asked);
    }
  }

  lemma GainsOf(m: Reading, r: Reading, same: Reading, asked: seq<Expectation>)
    requires Gains(m, r, asked) && same == r.(decoder := same.decoder)
    ensures Gains(m, same, asked)
  {
  }

  // ----- A read decodes as one piece -----

  function SpanEvents(spans: seq<Span>): seq<Event> {
    if spans == [] then [] else spans[0].events + SpanEvents(spans[1..])
  }

  lemma SpanEventsHead(spans: seq<Span>)
    requires spans != []
    ensures SpanEvents(spans) == spans[0].events + SpanEvents(spans[1..])
  {
  }

  lemma NoSpanEvents()
    ensures SpanEvents([]) == []
  {
  }

  lemma {:induction false} SpanEventsAppend(a: seq<Span>, b: seq<Span>)
    ensures SpanEvents(a + b) == SpanEvents(a) + SpanEvents(b)
    decreases |a|
  {
    hide SpanEvents;
    if a == [] {
      NoSpanEvents();
      assert a + b == b && [] + SpanEvents(b) == SpanEvents(b);
    } else {
      assert (a + b)[1..] == a[1..] + b && (a + b)[0] == a[0];
      SpanEventsHead(a);
      SpanEventsHead(a + b);
      SpanEventsAppend(a[1..], b);
      Associate(a[0].events, SpanEvents(a[1..]), SpanEvents(b));
    }
  }

  lemma OneSpanEvents(s: Span)
    ensures SpanEvents([s]) == s.events
  {
    assert s.events + [] == s.events;
  }

  lemma DrainAddsEvents(m: Reading, ids: seq<nat>, tokens: seq<Token>, events: seq<Event>)
    ensures var r := Drain(m, ids, tokens, events);
      SpanEvents(r.spans) == SpanEvents(m.spans) + events && r.decoder == m.decoder
  {
    hide Attribute, SpanEvents;
    var span := Drain(m, ids, tokens, events).spans[|m.spans|];
    SpanEventsAppend(m.spans, [span]);
    OneSpanEvents(span);
  }

  lemma ByteAddsEvents(m: Reading, ids: seq<nat>, b: Byte, limit: nat, tables: Tables)
    requires m.decoder.parser.Valid()
    ensures var r := ReadByte(m, ids, b, limit, tables);
      var o := Decode(m.decoder, [b], limit, tables);
      SpanEvents(r.spans) == SpanEvents(m.spans) + o.events && r.decoder == o.state
  {
    hide Attribute, SpanEvents, Decode, Feed, Drain;
    var o := Decode(m.decoder, [b], limit, tables);
    if o.events == [] {
      assert SpanEvents(m.spans) + o.events == SpanEvents(m.spans);
    } else {
      DrainAddsEvents(m.(decoder := o.state, unattributed := m.unattributed + [b]), ids,
                      Feed(m.decoder.parser, [b], limit).tokens, o.events);
    }
  }

  /** Reading byte by byte yields the events, and the decoder, of decoding the bytes whole. */
  lemma {:induction false} BytesDecodeWhole(m: Reading, ids: seq<nat>, chunk: Bytes, limit: nat, tables: Tables)
    requires m.decoder.parser.Valid() && Reachable(m.decoder.parser, limit)
    ensures var r := ReadBytes(m, ids, chunk, limit, tables);
      var o := Decode(m.decoder, chunk, limit, tables);
      SpanEvents(r.spans) == SpanEvents(m.spans) + o.events && r.decoder == o.state
    decreases |chunk|
  {
    hide Attribute, SpanEvents, FeedWith, Drain, MapTokens, ReadByte;
    if chunk == [] {
      FeedNothing(m.decoder.parser, limit);
      NoTokensNoEvents(m.decoder.mapping, tables);
      assert SpanEvents(m.spans) + [] == SpanEvents(m.spans);
    } else {
      var head, rest := [chunk[0]], chunk[1..];
      assert head + rest == chunk;
      DecodeSplit(m.decoder, head, rest, limit, tables);
      ByteAddsEvents(m, ids, chunk[0], limit, tables);
      FeedIsGood(m.decoder.parser, head, limit);
      BytesDecodeWhole(ReadByte(m, ids, chunk[0], limit, tables), ids, rest, limit, tables);
      var first := Decode(m.decoder, head, limit, tables);
      var later := Decode(first.state, rest, limit, tables);
      assert SpanEvents(m.spans) + (first.events + later.events) == (SpanEvents(m.spans) + first.events) + later.events;
    }
  }

  /** So a blocking read yields the events of the same read in the asynchronous driver. */
  lemma ChunkDecodesWhole(m: Reading, ids: seq<nat>, chunk: Bytes, limit: nat, tables: Tables)
    requires m.decoder.parser.Valid() && Reachable(m.decoder.parser, limit)
    ensures var r := ReadChunk(m, ids, chunk, limit, tables);
      var o := ReadOnce(m.decoder, DrainBoundary.Read(chunk, true), limit, tables);
      SpanEvents(r.spans) == SpanEvents(m.spans) + o.events && r.decoder == o.state
  {
    hide Attribute, SpanEvents, Decode, Drain, Flush, ReadBytes, HasSettledText, FinishTokens;
    BytesDecodeWhole(m, ids, chunk, limit, tables);
    var read := ReadBytes(m, ids, chunk, limit, tables);
    var o := Decode(m.decoder, chunk, limit, tables);
    if HasSettledText(read.decoder.parser) {
      var f := Flush(read.decoder, limit, tables);
      DrainAddsEvents(read.(decoder := f.state), ids, FinishTokens(read.decoder.parser, limit), f.events);
      assert SpanEvents(m.spans) + (o.events + f.events) == (SpanEvents(m.spans) + o.events) + f.events;
    }
  }
}
