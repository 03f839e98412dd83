/** Sequences of printed replies on the wire, however the reads cut them: their events come first, in order, and no
    flush comes between. */
module WireRuns {
  import opened Bytes
  import opened Tokens
  import opened Grammar
  import opened SplitEquivalence
  import opened PayloadScan
  import opened Reconstruction
  import opened Bounds
  import opened Events
  import opened Decoder
  import opened DrainBoundary
  import opened Reports
  import opened Correlate
  import opened Answers
  import ReportRoundTrips
  import opened WireReports

  // ----- Tokens that read back -----

  /** The token's own bytes, opened by `ESC` or a C1 introducer, are read as the token alone. */
  predicate IsUnit(t: Token, limit: nat) {
    && t.Raw() != [] && t.Dropped() == 0
    && (t.Raw()[0] == ESC || IsC1Introducer(t.Raw()[0]))
    && Run(t.Raw(), limit) == Outcome(Ground, [t])
  }

  predicate AreUnits(ts: seq<Token>, limit: nat) { forall i :: 0 <= i < |ts| ==> IsUnit(ts[i], limit) }

  /** Whatever follows, units are read as themselves. */
  lemma {:induction false} UnitsRead(ts: seq<Token>, rest: Bytes, limit: nat)
    requires AreUnits(ts, limit)
    ensures Run(RawBytes(ts) + rest, limit) == Prepend(ts, Run(rest, limit))
    decreases |ts|
  {
    hide RunWith;
    if ts == [] {
      assert RawBytes(ts) + rest == rest && [] + Run(rest, limit).tokens == Run(rest, limit).tokens;
    } else {
      var raw, more := ts[0].Raw(), RawBytes(ts[1..]);
      assert raw + more + rest == raw + (more + rest);
      FeedSplit(Ground, raw, more + rest, limit, limit);
      UnitsRead(ts[1..], rest, limit);
      assert [ts[0]] + (ts[1..] + Run(rest, limit).tokens) == ts + Run(rest, limit).tokens;
    }
  }

  /** Short of its end, a unit is only held. */
  lemma UnitIsHeld(t: Token, n: nat, limit: nat)
    requires IsUnit(t, limit) && n < |t.Raw()|
    ensures var o := Run(t.Raw()[..n], limit);
      o.tokens == [] && Holds(o.state, t.Raw()[..n])
  {
    hide RunWith;
    var head, tail := t.Raw()[..n], t.Raw()[n..];
    assert head + tail == t.Raw();
    FeedSplit(Ground, head, tail, limit, limit);
    RunPartitions(head, limit);
    var o := Run(head, limit);
    assert o.tokens <= Run(t.Raw(), limit).tokens;
  }

  lemma HeldIsNotSettled(s: ParserState, span: Bytes)
    requires Holds(s, span) && (span != [] ==> span[0] == ESC || IsC1Introducer(span[0]))
    ensures !HasSettledText(s)
  {
    var p := s.PendingBytes();
    if p != [] { assert p[0] == span[0]; }
  }

  /** No point within units is one where a driver flushes. */
  lemma {:induction false} NeverSettled(ts: seq<Token>, u: Bytes, limit: nat)
    requires AreUnits(ts, limit) && u <= RawBytes(ts)
    ensures !HasSettledText(Run(u, limit).state)
    decreases |ts|
  {
    hide RunWith, HasSettledText;
    if ts == [] {
      RunNothing(limit);
      HeldIsNotSettled(Ground, []);
    } else if |u| < |ts[0].Raw()| {
      assert u == ts[0].Raw()[..|u|];
      UnitIsHeld(ts[0], |u|, limit);
      HeldIsNotSettled(Run(u, limit).state, u);
    } else {
      var rest := u[|ts[0].Raw()|..];
      assert u == ts[0].Raw() + rest;
      assert RawBytes(ts)[|ts[0].Raw()|..] == RawBytes(ts[1..]);
      FeedSplit(Ground, ts[0].Raw(), rest, limit, limit);
      NeverSettled(ts[1..], rest, limit);
    }
  }

  /** Between tokens, a unit that is no win32 key is exactly one event: what the stateless decoders make of it, and
      else the sequence itself. */
  lemma UnitIsDelivered(d: DecoderState, t: Token, limit: nat, tables: Tables)
    requires d.parser == Ground && IsUnit(t, limit) && (t.Csi? || t.Str? || (t.Esc? && t.finalByte.Some?))
    requires t.Csi? ==> Win32FieldsOf(t.csi).None?
    ensures Decode(d, t.Raw(), limit, tables) == Decoded(d, [
        if t.Csi? && tables.typed(t.csi).Some? then tables.typed(t.csi).value else Syntax(t)])
  {
    hide RunWith, Win32FieldsOf;
    MapOneToken(d.mapping, t, tables);
  }

  // ----- Reads that begin with units -----

  /** Reads that go on from `past` through the rest of the units yield first the events of that rest. */
  lemma {:induction false} ReadsBegin(
      d: DecoderState, ts: seq<Token>, past: Bytes, script: seq<Read>, limit: nat, tables: Tables)
      returns (tail: seq<Event>)
    requires AreUnits(ts, limit) && past <= RawBytes(ts) && d.parser == Run(past, limit).state
    requires Reachable(d.parser, limit)
    requires RawBytes(ts) <= past + BytesOf(script)
    ensures var rest := Decode(d, RawBytes(ts)[|past|..], limit, tables).events;
      ReadAll(d, script, limit, tables).events == rest + tail
    decreases |script|
  {
    hide RunWith, FeedWith, MapTokens, HasSettledText, RawBytes, AreUnits, Reachable;
    var raw := RawBytes(ts);
    var rest := raw[|past|..];
    if rest == [] {
      DecodeNothing(d, limit, tables);
      tail := ReadAll(d, script, limit, tables).events;
      assert [] + tail == tail;
    } else {
      assert BytesOf(script) != [];
      var c, later := script[0].bytes, BytesOf(script[1..]);
      assert past + (c + later) == (past + c) + later;
      var first := ReadOnce(d, script[0], limit, tables);
      if |past + c| <= |raw| {
        assert past + c == raw[..|past + c|];
        NeverSettled(ts, past + c, limit);
        RunSplit(past, c, limit, limit);
        assert first == Decode(d, c, limit, tables);
        assert rest == c + raw[|past + c|..];
        DecodeSplit(d, c, raw[|past + c|..], limit, tables);
        ReadOnceIsReachable(d, script[0], limit, tables);
        tail := ReadsBegin(first.state, ts, past + c, script[1..], limit, tables);
        Associate(first.events, Decode(first.state, raw[|past + c|..], limit, tables).events, tail);
      } else {
        assert rest == (past + c)[|past|..|raw|] && c == rest + c[|rest|..];
        DecodeSplit(d, rest, c[|rest|..], limit, tables);
        var begun := Decode(d, rest, limit, tables).events;
        assert first.events[..|begun|] == begun;
        tail := first.events[|begun|..] + ReadAll(first.state, script[1..], limit, tables).events;
        assert first.events == begun + first.events[|begun|..];
        Associate(begun, first.events[|begun|..], ReadAll(first.state, script[1..], limit, tables).events);
      }
    }
  }

  lemma DecodeNothing(d: DecoderState, limit: nat, tables: Tables)
    requires d.parser.Valid() && Reachable(d.parser, limit)
    ensures Decode(d, [], limit, tables).events == []
  {
    hide FeedWith;
    FeedNothing(d.parser, limit);
  }

  // ----- Printed replies -----

  // A reply and how it is spelled.
  datatype Printed = Printed(reply: Reply, spelling: Spelling) {
    function Token(): Token
      requires Sayable(reply)
    {
      TokenOf(FormOf(reply), spelling)
    }

    /** It can be said and read back, and the stateless CSI decoders leave it alone. */
    predicate Readable(limit: nat, tables: Tables) {
      && Sayable(reply) && Admits(limit, FormOf(reply), spelling)
      && (Token().Csi? ==> tables.typed(Token().csi).None?)
    }
  }

  predicate AllReadable(ps: seq<Printed>, limit: nat, tables: Tables) {
    forall i :: 0 <= i < |ps| ==> ps[i].Readable(limit, tables)
  }

  function TokensOf(ps: seq<Printed>, limit: nat, tables: Tables): (ts: seq<Token>)
    requires AllReadable(ps, limit, tables)
    ensures |ts| == |ps| && forall i :: 0 <= i < |ps| ==> ts[i] == ps[i].Token()
  {
    seq(|ps|, i requires 0 <= i < |ps| => ps[i].Token())
  }

  function EventsOf(ps: seq<Printed>, limit: nat, tables: Tables): (es: seq<Event>)
    requires AllReadable(ps, limit, tables)
    ensures |es| == |ps| && forall i :: 0 <= i < |ps| ==> es[i] == Syntax(ps[i].Token())
  {
    seq(|ps|, i requires 0 <= i < |ps| => Syntax(ps[i].Token()))
  }

  /** The bytes of printed replies, one after the other. */
  function WireOf(ps: seq<Printed>, limit: nat, tables: Tables): Bytes
    requires AllReadable(ps, limit, tables)
  {
    RawBytes(TokensOf(ps, limit, tables))
  }

  lemma FormIsUnit(p: Printed, limit: nat, tables: Tables)
    requires p.Readable(limit, tables)
    ensures IsUnit(p.Token(), limit) && p.Token().Raw() == Spelled(FormOf(p.reply), p.spelling)
  {
    hide RunWith, FormOf, Sayable, Admits;
    var raw := Spelled(FormOf(p.reply), p.spelling);
    assert Concat([raw]) == raw + [] == raw;
    AnyChunking([raw], limit);
    FormReadsBack(FormOf(p.reply), p.spelling, [raw], limit);
  }

  lemma TokenIsSyntax(m: MapState, p: Printed, limit: nat, tables: Tables)
    requires p.Readable(limit, tables)
    ensures MapToken(m, p.Token(), tables) == Mapped(m, [Syntax(p.Token())])
  {
    hide Digits, ParamsOf, Admits, ReportRoundTrips.ColorPayload, ReportRoundTrips.GraphicsPayload;
  }

  lemma {:induction false} TokensAreSyntax(m: MapState, ps: seq<Printed>, limit: nat, tables: Tables)
    requires AllReadable(ps, limit, tables)
    ensures MapTokens(m, TokensOf(ps, limit, tables), tables) == Mapped(m, EventsOf(ps, limit, tables))
    decreases |ps|
  {
    hide MapToken, FormOf, Sayable, Admits, TokenOf;
    if ps != [] {
      var rest := ps[1..];
      assert forall i :: 0 <= i < |rest| ==> rest[i] == ps[i + 1];
      TokenIsSyntax(m, ps[0], limit, tables);
      TokensAreSyntax(m, rest, limit, tables);
      assert TokensOf(ps, limit, tables)[1..] == TokensOf(rest, limit, tables);
      assert EventsOf(ps, limit, tables) == [Syntax(ps[0].Token())] + EventsOf(rest, limit, tables);
    }
  }

  /** However reads cut them, printed replies are the first events read, in order. */
  lemma ReadsBeginWithReplies(d: DecoderState, ps: seq<Printed>, script: seq<Read>, limit: nat, tables: Tables)
      returns (tail: seq<Event>)
    requires AllReadable(ps, limit, tables) && d.parser == Ground && WireOf(ps, limit, tables) <= BytesOf(script)
    ensures ReadAll(d, script, limit, tables).events == EventsOf(ps, limit, tables) + tail
  {
    hide RunWith, MapTokens, RawBytes, ReadAll, IsUnit, Reachable, FormOf, Sayable, Admits, TokenOf;
    var ts := TokensOf(ps, limit, tables);
    var raw := RawBytes(ts);
    forall i | 0 <= i < |ts| ensures IsUnit(ts[i], limit) { FormIsUnit(ps[i], limit, tables); }
    RunNothing(limit);
    GroundIsReachable(limit);
    tail := ReadsBegin(d, ts, [], script, limit, tables);
    UnitsRead(ts, [], limit);
    assert raw[0..] == raw == raw + [];
    assert ts + [] == ts;
    TokensAreSyntax(d.mapping, ps, limit, tables);
  }

  // ----- What they answer -----

  /** `es[i]` is the first to answer. */
  lemma {:induction false} FirstMatchAt(x: Expectation, es: seq<Event>, i: nat)
    requires i < |es| && Match(x, es[i]).Some? && forall j :: 0 <= j < i ==> Match(x, es[j]).None?
    ensures FirstMatch(x, es) == Match(x, es[i])
    decreases i
  {
    hide Match;
    if i > 0 {
      assert forall j :: 0 <= j < i - 1 ==> es[1..][j] == es[j + 1];
      FirstMatchAt(x, es[1..], i - 1);
    }
  }

  /** No two of the replies are to the same question. */
  predicate AskDifferently(ps: seq<Printed>, limit: nat, tables: Tables)
    requires AllReadable(ps, limit, tables)
  {
    forall i, j :: 0 <= i < j < |ps| ==> Question(ps[i].reply) != Question(ps[j].reply)
  }

  /** Whatever follows them, the question of each reply is first answered by that reply. */
  lemma EachIsFirst(ps: seq<Printed>, tail: seq<Event>, i: nat, limit: nat, tables: Tables)
    requires AllReadable(ps, limit, tables) && AskDifferently(ps, limit, tables) && i < |ps|
    ensures FirstMatch(Question(ps[i].reply), EventsOf(ps, limit, tables) + tail) == Some(ps[i].reply)
  {
    hide FormOf, Sayable, Admits, TokenOf, Match, FirstMatch, Question;
    var x := Question(ps[i].reply);
    var es := EventsOf(ps, limit, tables) + tail;
    forall j | 0 <= j <= i ensures Match(x, es[j]) == if j == i then Some(ps[i].reply) else None {
      PrintedAnswers(ps[j].reply, ps[j].spelling, x);
    }
    FirstMatchAt(x, es, i);
  }
}
