/** Flushing settled text when the input has drained does not change the decoded events.

    The proof compares the tokenizer with an eager one that never parks a complete character: the same
    grammar with a text cap of 0, so that every character is a token of its own. Whatever the chunks
    and wherever settled text is flushed, the characters emitted so far and those still parked are
    together what the eager tokenizer has emitted. */
module DrainBoundary {
  import opened Bytes
  import opened Tokens
  import opened Grammar
  import opened SplitEquivalence
  import opened Bounds
  import opened Events
  import opened Decoder
  import opened PasteExact

  // ----- Text cut into characters -----

  function CharTokens(s: Bytes): seq<Token> {
    match CharWidth(s)
    case None => []
    case Some(w) => [Text(s[..w])] + CharTokens(s[w..])
  }

  /** Tokens with every text run cut into single characters. */
  function Flat(ts: seq<Token>): seq<Token>
    decreases |ts|
  {
    if ts == [] then []
    else (if ts[0].Text? then CharTokens(ts[0].text) else [ts[0]]) + Flat(ts[1..])
  }

  lemma {:induction false} FlatAppend(a: seq<Token>, b: seq<Token>)
    ensures Flat(a + b) == Flat(a) + Flat(b)
    decreases |a|
  {
    if a == [] {
      assert a + b == b;
    } else {
      assert (a + b)[1..] == a[1..] + b;
      FlatAppend(a[1..], b);
    }
  }

  lemma CharOfChar(c: Bytes)
    requires IsChar(c)
    ensures CharTokens(c) == [Text(c)]
    ensures CharEvents(c) == [Key(Char(Scalar(c)))]
  {
    assert c[..|c|] == c;
    assert c[|c|..] == [];
  }

  /** Cutting text into characters changes no event. */
  lemma {:induction false} FlatKeepsEvents(m: MapState, ts: seq<Token>, tables: Tables)
    ensures MapTokens(m, Flat(ts), tables) == MapTokens(m, ts, tables)
    decreases |ts|
  {
    if ts != [] {
      var first := MapToken(m, ts[0], tables);
      FlatKeepsEvents(first.mapping, ts[1..], tables);
      var head := if ts[0].Text? then CharTokens(ts[0].text) else [ts[0]];
      MapTokensAppend(m, head, Flat(ts[1..]), tables);
      if ts[0].Text? {
        CharsKeepEvents(m, ts[0].text, tables);
      } else {
        MapOneToken(m, ts[0], tables);
      }
    }
  }

  lemma {:induction false} CharsKeepEvents(m: MapState, s: Bytes, tables: Tables)
    ensures MapTokens(m, CharTokens(s), tables) == Mapped(m, CharEvents(s))
    decreases |s|
  {
    match CharWidth(s)
    case None =>
    case Some(w) =>
      CharsKeepEvents(m, s[w..], tables);
      CharOfChar(s[..w]);
      assert CharTokens(s)[1..] == CharTokens(s[w..]);
  }

  // ----- What a parser has parked -----

  /** How much of `s` is complete characters of text. */
  function TextPrefix(s: Bytes): (n: nat)
    ensures n <= |s|
  {
    if s == [] || IsTextBoundary(s[0]) || CharWidth(s).None? then 0
    else CharWidth(s).value + TextPrefix(s[CharWidth(s).value..])
  }

  /** The complete characters a state holds back. */
  function Parked(s: ParserState): Bytes {
    if s.Partial? then s.pending[..TextPrefix(s.pending)] else []
  }

  /** The state without them: the eager tokenizer's. */
  function Eager(s: ParserState): ParserState {
    if !s.Partial? then s
    else
      var rest := s.pending[TextPrefix(s.pending)..];
      if rest == [] then Ground else Partial(rest)
  }

  // ----- The eager tokenizer -----

  function EagerRun(buf: Bytes, cap: nat): (o: Outcome)
    ensures o.state.Valid()
  {
    RunWith(buf, cap, 0)
  }

  function EagerFeed(s: ParserState, buf: Bytes, cap: nat): (o: Outcome)
    requires s.Valid()
    ensures o.state.Valid()
  {
    FeedWith(s, buf, cap, 0)
  }

  /** `lazy` is `eager` with some complete characters still parked. */
  predicate Simulates(lazy: Outcome, eager: Outcome) {
    && eager.state == Eager(lazy.state)
    && eager.tokens == Flat(lazy.tokens) + CharTokens(Parked(lazy.state))
  }

  lemma SimulatesPrepend(ts: seq<Token>, lazy: Outcome, eager: Outcome)
    requires Simulates(lazy, eager)
    ensures Simulates(Prepend(ts, lazy), Prepend(Flat(ts), eager))
  {
    hide Flat, CharTokens, Parked, Eager;
    FlatAppend(ts, lazy.tokens);
    var parked := CharTokens(Parked(lazy.state));
    assert Flat(ts) + (Flat(lazy.tokens) + parked) == (Flat(ts) + Flat(lazy.tokens)) + parked;
  }

  lemma EagerStepOnChar(buf: Bytes, cap: nat)
    requires buf != [] && !IsTextBoundary(buf[0]) && CharWidth(buf).Some?
    ensures StepWith(buf, cap, 0) == Emit(Text(buf[..CharWidth(buf).value]), CharWidth(buf).value)
  {
    var w := CharWidth(buf).value;
    assert buf[0..0 + w] == buf[..w];
    assert ScanText(buf, 0, 0) == Cut(w);
  }

  /** The eager tokenizer reads text one character at a time. */
  lemma {:induction false} EagerRunOnText(text: Bytes, rest: Bytes, cap: nat)
    requires IsText(text)
    ensures EagerRun(text + rest, cap) == Prepend(CharTokens(text), EagerRun(rest, cap))
    decreases |text|
  {
    hide StepWith, IsChar;
    if text == [] {
      assert text + rest == rest;
      assert [] + EagerRun(rest, cap).tokens == EagerRun(rest, cap).tokens;
    } else {
      var buf := text + rest;
      var w := CharWidth(text).value;
      CharWidthOfPrefix(text, rest);
      assert buf[..w] == text[..w] && buf[w..] == text[w..] + rest;
      EagerStepOnChar(buf, cap);
      EagerRunOnText(text[w..], rest, cap);
      var more := EagerRun(rest, cap).tokens;
      assert [Text(text[..w])] + (CharTokens(text[w..]) + more) == CharTokens(text) + more;
    }
  }

  lemma CharWidthOfPrefix(a: Bytes, b: Bytes)
    requires CharWidth(a).Some?
    ensures CharWidth(a + b) == CharWidth(a)
  {
    var w := CharWidth(a).value;
    assert (a + b)[..w] == a[..w];
  }

  // ----- Text steps of the two tokenizers -----

  lemma {:induction false} TextPrefixOfText(text: Bytes, rest: Bytes)
    requires IsText(text)
    ensures TextPrefix(text + rest) == |text| + TextPrefix(rest)
    decreases |text|
  {
    if text == [] {
      assert text + rest == rest;
    } else {
      var w := CharWidth(text).value;
      CharWidthOfPrefix(text, rest);
      assert (text + rest)[w..] == text[w..] + rest;
      TextPrefixOfText(text[w..], rest);
    }
  }

  lemma {:induction false} TextPrefixIsText(s: Bytes)
    ensures IsText(s[..TextPrefix(s)])
    decreases |s|
  {
    if !(s == [] || IsTextBoundary(s[0]) || CharWidth(s).None?) {
      var w := CharWidth(s).value;
      var n := TextPrefix(s);
      TextPrefixIsText(s[w..]);
      assert s[..n][..w] == s[..w];
      assert s[..n][w..] == s[w..][..n - w];
    }
  }

  /** Where a starved scan stops for want of bytes, the eager one is starved too. */
  lemma {:induction false} StarvedRest(buf: Bytes, cursor: nat, cap: nat)
    requires cursor <= |buf| && ScanText(buf, cursor, cap).Starved?
    ensures var rest := buf[cursor + TextPrefix(buf[cursor..])..];
      rest == [] || (!IsTextBoundary(rest[0]) && ScanText(rest, 0, 0).Starved?)
    decreases |buf| - cursor
  {
    hide IsChar, TextPrefix;
    var here := buf[cursor..];
    if cursor == |buf| {
      TextPrefixStops(here);
    } else {
      var w := Utf8Width(buf[cursor]).value;
      if cursor + w <= |buf| {
        assert here[..w] == buf[cursor..cursor + w];
        assert here[w..] == buf[cursor + w..];
        TextPrefixSteps(here, w);
        StarvedRest(buf, cursor + w, cap);
        assert cursor + (w + TextPrefix(here[w..])) == cursor + w + TextPrefix(here[w..]);
      } else {
        TextPrefixStops(here);
        assert here[0..] == here && ScanText(here, 0, 0).Starved?;
      }
    }
  }

  /** A character at the front is part of the prefix. */
  lemma TextPrefixSteps(s: Bytes, w: nat)
    requires 0 < w <= |s| && !IsTextBoundary(s[0]) && Utf8Width(s[0]) == Some(w) && IsChar(s[..w])
    ensures TextPrefix(s) == w + TextPrefix(s[w..])
  {
  }

  lemma TextPrefixStops(s: Bytes)
    requires s == [] || (Utf8Width(s[0]).Some? && Utf8Width(s[0]).value > |s|)
    ensures TextPrefix(s) == 0
  {
  }

  lemma BadIsBad(buf: Bytes, cap: nat)
    requires buf != [] && !IsTextBoundary(buf[0]) && ScanText(buf, 0, cap).Bad?
    ensures ScanText(buf, 0, 0) == ScanText(buf, 0, cap)
  {
    if Utf8Width(buf[0]).Some? {
      var w := Utf8Width(buf[0]).value;
      if w <= |buf| { NeverBadLater(buf, w, cap); }
    }
  }

  /** A scan that has passed its first character never reports a bad one. */
  lemma {:induction false} NeverBadLater(buf: Bytes, cursor: nat, cap: nat)
    requires 0 < cursor <= |buf|
    ensures !ScanText(buf, cursor, cap).Bad?
    decreases |buf| - cursor
  {
    if cursor < |buf| && Utf8Width(buf[cursor]).Some? {
      var next := cursor + Utf8Width(buf[cursor]).value;
      if next <= |buf| { NeverBadLater(buf, next, cap); }
    }
  }

  lemma CutIsText(buf: Bytes, cap: nat)
    requires buf != [] && !IsTextBoundary(buf[0]) && ScanText(buf, 0, cap).Cut?
    ensures var n := ScanText(buf, 0, cap).end; 0 < n <= |buf| && IsText(buf[..n])
  {
    assert buf[..0] == [];
    ScanTextGood(buf, 0, cap);
    ScanTextInRange(buf, 0, cap);
  }

  /** Outside text the two tokenizers take the same step. */
  lemma SameStep(buf: Bytes, cap: nat)
    requires buf != []
    requires IsTextBoundary(buf[0]) || ScanText(buf, 0, cap).Bad?
    ensures StepWith(buf, cap, 0) == StepWith(buf, cap, cap)
    ensures !StepWith(buf, cap, cap).Emit? || !StepWith(buf, cap, cap).token.Text?
    ensures StepWith(buf, cap, cap).NeedMore? ==> IsTextBoundary(buf[0])
  {
    hide ScanPrefix, SpanLen;
    if !IsTextBoundary(buf[0]) {
      BadIsBad(buf, cap);
      ScanTextInRange(buf, 0, cap);
    }
  }

  lemma ParkedRun(buf: Bytes, cap: nat)
    requires buf != [] && !IsTextBoundary(buf[0]) && ScanText(buf, 0, cap).Starved?
    ensures Simulates(Outcome(Partial(buf), []), EagerRun(buf, cap))
  {
    hide StepWith, IsText, ScanText, CharTokens, TextPrefix;
    var n := TextPrefix(buf);
    var text, rest := buf[..n], buf[n..];
    assert buf == text + rest;
    assert buf[0..] == buf;
    TextPrefixIsText(buf);
    StarvedRest(buf, 0, cap);
    EagerRunOnText(text, rest, cap);
    if rest != [] { TextStep0(rest, cap); }
    assert CharTokens(text) + [] == [] + CharTokens(text);
  }

  lemma TextStep0(buf: Bytes, cap: nat)
    requires buf != [] && !IsTextBoundary(buf[0]) && ScanText(buf, 0, 0).Starved?
    ensures StepWith(buf, cap, 0) == NeedMore
  {
  }

  // ----- The simulation -----

  lemma {:induction false} RunSimulates(buf: Bytes, cap: nat)
    ensures Simulates(RunWith(buf, cap, cap), EagerRun(buf, cap))
    decreases |buf|, 0
  {
    hide StepWith, ScanText, CharTokens, IsText;
    if buf != [] {
      StepInRange(buf, cap, cap);
      if !IsTextBoundary(buf[0]) && ScanText(buf, 0, cap).Starved? {
        TextStep(buf, cap);
        ParkedRun(buf, cap);
      } else if !IsTextBoundary(buf[0]) && ScanText(buf, 0, cap).Cut? {
        TextStep(buf, cap);
        CutIsText(buf, cap);
        var n := ScanText(buf, 0, cap).end;
        RunSimulates(buf[n..], cap);
        assert buf == buf[..n] + buf[n..];
        EagerRunOnText(buf[..n], buf[n..], cap);
        FlatOne(Text(buf[..n]));
        SimulatesPrepend([Text(buf[..n])], RunWith(buf[n..], cap, cap), EagerRun(buf[n..], cap));
      } else {
        SameStep(buf, cap);
        match StepWith(buf, cap, cap)
        case NeedMore => BoundaryIsNotParked(buf);
        case Emit(token, next) =>
          RunSimulates(buf[next..], cap);
          FlatOne(token);
          SimulatesPrepend([token], RunWith(buf[next..], cap, cap), EagerRun(buf[next..], cap));
        case EnterString(a, next) => StringSimulates(a, buf[next..], cap);
        case EnterPaste(p, next) => PasteSimulates(p, buf[next..], cap);
      }
    } else {
      BoundaryIsNotParked(buf);
    }
  }

  lemma TextStep(buf: Bytes, cap: nat)
    requires buf != [] && !IsTextBoundary(buf[0]) && !ScanText(buf, 0, cap).Bad?
    ensures StepWith(buf, cap, cap) == match ScanText(buf, 0, cap)
      case Cut(n) => if n <= |buf| then Emit(Text(buf[..n]), n) else NeedMore
      case _ => NeedMore
  {
  }

  lemma BoundaryIsNotParked(buf: Bytes)
    requires buf != [] ==> IsTextBoundary(buf[0])
    ensures CharTokens([]) == [] && Flat([]) == []
    ensures TextPrefix(buf) == 0 && buf[..0] == [] && buf[0..] == buf
  {
  }

  lemma FlatOne(t: Token)
    ensures Flat([t]) == if t.Text? then CharTokens(t.text) else [t]
  {
    assert Flat([t][1..]) == [];
    assert CharTokens([]) == [];
  }

  lemma {:induction false} StringSimulates(a: StringState, buf: Bytes, cap: nat)
    requires a.Valid()
    ensures Simulates(StringRunWith(a, buf, cap, cap), StringRunWith(a, buf, cap, 0))
    decreases |buf| + Held(a), |buf|
  {
    hide RunWith;
    if buf == [] {
      BoundaryIsNotParked([]);
    } else {
      match StepInString(a, buf[0], cap)
      case Stay(a') => StringSimulates(a', buf[1..], cap);
      case Close(token, reread) =>
        RunSimulates(reread + buf[1..], cap);
        FlatOne(token);
        SimulatesPrepend([token], RunWith(reread + buf[1..], cap, cap), EagerRun(reread + buf[1..], cap));
    }
  }

  lemma {:induction false} PasteSimulates(p: PasteState, buf: Bytes, cap: nat)
    requires p.Valid()
    ensures Simulates(PasteRunWith(p, buf, cap, cap), PasteRunWith(p, buf, cap, 0))
    decreases |buf|, |buf|
  {
    hide RunWith, Advance, IsPasteEnd, Simulates;
    if buf == [] {
      BoundaryIsNotParked([]);
      assert Simulates(Outcome(InPaste(p), []), Outcome(InPaste(p), [])) by { PasteIsNotParked(p); }
    } else if IsPasteEnd(p.pendingMatch + [buf[0]]) {
      var token := FinalToken(p.(pendingMatch := p.pendingMatch + [buf[0]]), true);
      RunSimulates(buf[1..], cap);
      FlatOne(token);
      SimulatesPrepend([token], RunWith(buf[1..], cap, cap), EagerRun(buf[1..], cap));
    } else {
      var p' := Advance(p, buf[0]);
      if |p'.retained| - p'.payloadStart >= cap {
        var s := AfterSegment(p');
        PasteSimulates(s, buf[1..], cap);
        FlatOne(SegmentToken(p'));
        SimulatesPrepend([SegmentToken(p')], PasteRunWith(s, buf[1..], cap, cap),
                         PasteRunWith(s, buf[1..], cap, 0));
      } else {
        PasteSimulates(p', buf[1..], cap);
      }
    }
  }

  lemma PasteIsNotParked(p: PasteState)
    ensures Simulates(Outcome(InPaste(p), []), Outcome(InPaste(p), []))
  {
    BoundaryIsNotParked([]);
  }

  /** Feeding a chunk keeps the simulation: parked characters come out, new ones are parked. */
  lemma FeedSimulates(s: ParserState, buf: Bytes, cap: nat)
    requires s.Valid() && Reachable(s, cap)
    ensures Eager(s).Valid()
    ensures var lazy := Feed(s, buf, cap);
      var eager := EagerFeed(Eager(s), buf, cap);
      && eager.state == Eager(lazy.state)
      && CharTokens(Parked(s)) + eager.tokens == Flat(lazy.tokens) + CharTokens(Parked(lazy.state))
  {
    hide RunWith, StepWith;
    BoundaryIsNotParked([]);
    match s
    case Ground => RunSimulates(buf, cap);
    case InString(a) => StringSimulates(a, buf, cap);
    case InPaste(p) => PasteSimulates(p, buf, cap);
    case Partial(p) =>
      var n := TextPrefix(p);
      var text, rest := p[..n], p[n..];
      RunSimulates(p + buf, cap);
      TextPrefixIsText(p);
      assert p + buf == text + (rest + buf);
      EagerRunOnText(text, rest + buf, cap);
      assert rest == [] ==> rest + buf == buf;
  }

  // ----- Drivers that flush -----

  // A read, and whether the driver found the input drained after it.
  datatype Read = Read(bytes: Bytes, drained: bool)

  function BytesOf(script: seq<Read>): Bytes {
    if script == [] then [] else script[0].bytes + BytesOf(script[1..])
  }

  /** One read: feed it and, with the input drained and text settled, flush. */
  function ReadOnce(d: DecoderState, r: Read, limit: nat, tables: Tables): (o: Decoded)
    requires d.parser.Valid()
    ensures o.state.parser.Valid()
  {
    var fed := Decode(d, r.bytes, limit, tables);
    if r.drained && HasSettledText(fed.state.parser) then
      var flushed := Flush(fed.state, limit, tables);
      Decoded(flushed.state, fed.events + flushed.events)
    else fed
  }

  /** Decoding is sequential in its bytes. */
  lemma DecodeSplit(d: DecoderState, a: Bytes, b: Bytes, limit: nat, tables: Tables)
    requires d.parser.Valid()
    ensures var first := Decode(d, a, limit, tables);
      var rest := Decode(first.state, b, limit, tables);
      && Decode(d, a + b, limit, tables) == Decoded(rest.state, first.events + rest.events)
      && Feed(d.parser, a + b, limit).tokens
           == Feed(d.parser, a, limit).tokens + Feed(first.state.parser, b, limit).tokens
  {
    hide FeedWith, MapTokens;
    FeedSplit(d.parser, a, b, limit, limit);
    var o := Feed(d.parser, a, limit);
    MapTokensAppend(d.mapping, o.tokens, Feed(o.state, b, limit).tokens, tables);
  }

  lemma ReadOnceIsReachable(d: DecoderState, read: Read, limit: nat, tables: Tables)
    requires d.parser.Valid() && Reachable(d.parser, limit)
    ensures Reachable(ReadOnce(d, read, limit, tables).state.parser, limit)
  {
    hide Reachable, Feed, MapTokens, HasSettledText;
    FeedIsGood(d.parser, read.bytes, limit);
    GroundIsReachable(limit);
  }

  function ReadAll(d: DecoderState, script: seq<Read>, limit: nat, tables: Tables): (o: Decoded)
    requires d.parser.Valid()
    ensures o.state.parser.Valid()
    decreases |script|
  {
    if script == [] then Decoded(d, [])
    else
      var first := ReadOnce(d, script[0], limit, tables);
      var rest := ReadAll(first.state, script[1..], limit, tables);
      Decoded(rest.state, first.events + rest.events)
  }

  /** The same, the events of each read apart. */
  function Batches(d: DecoderState, script: seq<Read>, limit: nat, tables: Tables): seq<seq<Event>>
    requires d.parser.Valid()
    decreases |script|
  {
    if script == [] then []
    else
      var first := ReadOnce(d, script[0], limit, tables);
      [first.events] + Batches(first.state, script[1..], limit, tables)
  }

  /** A flush here is harmless: it would neither cut a continued paste nor orphan a surrogate. */
  predicate Harmless(d: DecoderState) { !IsContinuedPaste(d.parser) && d.mapping.half == None }

  /** Every flush of this script happens where it is harmless. */
  predicate FlushesHarmlessly(d: DecoderState, script: seq<Read>, limit: nat, tables: Tables)
    requires d.parser.Valid()
    decreases |script|
  {
    script == [] || (
      var fed := Decode(d, script[0].bytes, limit, tables);
      && (script[0].drained && HasSettledText(fed.state.parser) ==> Harmless(fed.state))
      && FlushesHarmlessly(ReadOnce(d, script[0], limit, tables).state, script[1..], limit, tables))
  }

  /** What the eager decoder makes of the same bytes, from the same point. */
  function EagerDecode(d: DecoderState, bytes: Bytes, limit: nat, tables: Tables): (o: Decoded)
    requires d.parser.Valid()
    ensures o.state.parser.Valid()
  {
    var o := EagerFeed(d.parser, bytes, limit);
    var mapped := MapTokens(d.mapping, o.tokens, tables);
    Decoded(DecoderState(o.state, mapped.mapping), mapped.events)
  }

  function EagerOf(d: DecoderState): DecoderState { d.(parser := Eager(d.parser)) }

  /** The events of the characters a decoder holds back. */
  function ParkedEvents(d: DecoderState): seq<Event> { CharEvents(Parked(d.parser)) }

  lemma DecodeSimulates(d: DecoderState, bytes: Bytes, limit: nat, tables: Tables)
    requires d.parser.Valid() && Reachable(d.parser, limit)
    ensures Eager(d.parser).Valid()
    ensures var lazy := Decode(d, bytes, limit, tables);
      var eager := EagerDecode(EagerOf(d), bytes, limit, tables);
      && Reachable(lazy.state.parser, limit)
      && eager.state == EagerOf(lazy.state)
      && ParkedEvents(d) + eager.events == lazy.events + ParkedEvents(lazy.state)
  {
    hide FeedWith, Reachable, MapTokens, Parked, Eager, Flat, CharTokens;
    FeedIsGood(d.parser, bytes, limit);
    FeedSimulates(d.parser, bytes, limit);
    var lazy := Grammar.Feed(d.parser, bytes, limit);
    var eager := EagerFeed(Eager(d.parser), bytes, limit);
    var m := d.mapping;
    CharsKeepEvents(m, Parked(d.parser), tables);
    MapTokensAppend(m, CharTokens(Parked(d.parser)), eager.tokens, tables);
    FlatKeepsEvents(m, lazy.tokens, tables);
    MapTokensAppend(m, Flat(lazy.tokens), CharTokens(Parked(lazy.state)), tables);
    CharsKeepEvents(MapTokens(m, lazy.tokens, tables).mapping, Parked(lazy.state), tables);
  }

  /** A harmless flush of settled text emits exactly the parked characters. */
  lemma FlushEmitsParked(d: DecoderState, limit: nat, tables: Tables)
    requires d.parser.Valid() && Reachable(d.parser, limit)
    requires HasSettledText(d.parser) && Harmless(d)
    ensures var r := Flush(d, limit, tables);
      && r.events == ParkedEvents(d)
      && r.state == EagerOf(d) && EagerOf(r.state) == r.state && ParkedEvents(r.state) == []
  {
    SettledTextExactly(d.parser, limit);
    var p := d.parser.pending;
    TextIsValidAndPrintable(p);
    TextPrefixOfText(p, []);
    assert p + [] == p && p[..|p|] == p;
    MapOneToken(d.mapping, Text(p), tables);
    assert CharEvents(p) + [] == CharEvents(p);
  }

  /** One read of a flushing driver, against the eager decoder. */
  lemma ReadOnceSimulates(d: DecoderState, r: Read, limit: nat, tables: Tables)
    requires d.parser.Valid() && Reachable(d.parser, limit)
    requires var fed := Decode(d, r.bytes, limit, tables);
      r.drained && HasSettledText(fed.state.parser) ==> Harmless(fed.state)
    ensures Eager(d.parser).Valid()
    ensures var lazy := ReadOnce(d, r, limit, tables);
      var eager := EagerDecode(EagerOf(d), r.bytes, limit, tables);
      && Reachable(lazy.state.parser, limit)
      && eager.state == EagerOf(lazy.state)
      && ParkedEvents(d) + eager.events == lazy.events + ParkedEvents(lazy.state)
  {
    hide Decode, EagerDecode, HasSettledText, Flush, Harmless, ParkedEvents, Parked, EagerOf;
    DecodeSimulates(d, r.bytes, limit, tables);
    var fed := Decode(d, r.bytes, limit, tables);
    if r.drained && HasSettledText(fed.state.parser) {
      FlushEmitsParked(fed.state, limit, tables);
      var out := ReadOnce(d, r, limit, tables);
      assert fed.events + ParkedEvents(fed.state) == out.events + ParkedEvents(out.state);
    }
  }

  lemma EagerDecodeSplit(d: DecoderState, a: Bytes, b: Bytes, limit: nat, tables: Tables)
    requires d.parser.Valid()
    ensures var first := EagerDecode(d, a, limit, tables);
      var rest := EagerDecode(first.state, b, limit, tables);
      EagerDecode(d, a + b, limit, tables) == Decoded(rest.state, first.events + rest.events)
  {
    hide FeedWith, MapTokens;
    FeedSplit(d.parser, a, b, limit, 0);
    var first := EagerFeed(d.parser, a, limit);
    MapTokensAppend(d.mapping, first.tokens, EagerFeed(first.state, b, limit).tokens, tables);
  }

  /** However the bytes are split into reads and wherever settled text is flushed, what has been
      delivered and the characters still parked are the eager decoder's events. */
  lemma {:induction false} ReadsSimulate(d: DecoderState, script: seq<Read>, limit: nat, tables: Tables)
    requires d.parser.Valid() && Reachable(d.parser, limit) && script != []
    requires FlushesHarmlessly(d, script, limit, tables)
    ensures Eager(d.parser).Valid()
    ensures var lazy := ReadAll(d, script, limit, tables);
      var eager := EagerDecode(EagerOf(d), BytesOf(script), limit, tables);
      && Reachable(lazy.state.parser, limit)
      && eager.state == EagerOf(lazy.state)
      && ParkedEvents(d) + eager.events == lazy.events + ParkedEvents(lazy.state)
    decreases |script|
  {
    hide Decode, EagerDecode, HasSettledText, Flush, Harmless, ParkedEvents, Eager, ReadOnce, Reachable;
    ReadOnceSimulates(d, script[0], limit, tables);
    var first := ReadOnce(d, script[0], limit, tables);
    if |script| == 1 {
      assert BytesOf(script) == script[0].bytes + [];
      assert BytesOf(script) == script[0].bytes;
      assert first.events + [] == first.events;
    } else {
      ReadsSimulate(first.state, script[1..], limit, tables);
      var eager := EagerOf(d);
      EagerDecodeSplit(eager, script[0].bytes, BytesOf(script[1..]), limit, tables);
      var e1 := EagerDecode(eager, script[0].bytes, limit, tables);
      var e2 := EagerDecode(e1.state, BytesOf(script[1..]), limit, tables);
      var rest := ReadAll(first.state, script[1..], limit, tables);
      assert ParkedEvents(d) + (e1.events + e2.events) == (ParkedEvents(d) + e1.events) + e2.events;
      assert (first.events + ParkedEvents(first.state)) + e2.events
          == first.events + (ParkedEvents(first.state) + e2.events);
      assert first.events + (rest.events + ParkedEvents(rest.state))
          == (first.events + rest.events) + ParkedEvents(rest.state);
    }
  }

  // ----- Whole streams -----

  /** The stream stops inside a character of a text run. */
  predicate EndsMidCharacter(s: ParserState) {
    Eager(s).Partial? && Eager(s).pending != [] && IsTextStart(Eager(s).pending[0])
  }

  lemma FlushAtEnd(d: DecoderState, limit: nat, tables: Tables)
    requires d.parser.Valid() && Reachable(d.parser, limit) && !EndsMidCharacter(d.parser)
    ensures Eager(d.parser).Valid()
    ensures Flush(d, limit, tables).events == ParkedEvents(d) + Flush(EagerOf(d), limit, tables).events
  {
    hide StepWith, IsText;
    if d.parser.Partial? && TextPrefix(d.parser.pending) > 0 {
      var p := d.parser.pending;
      if TextPrefix(p) == |p| {
        assert p[..|p|] == p;
        TextPrefixIsText(p);
        TextIsValidAndPrintable(p);
        assert FinishTokens(d.parser, limit) == [Text(p)];
        MapOneToken(d.mapping, Text(p), tables);
        assert Flush(EagerOf(d), limit, tables).events == [] + Orphan(d.mapping.half);
      } else {
        MidRunIsMidCharacter(p, limit);
      }
    } else {
      BoundaryIsNotParked([]);
      if d.parser.Partial? { assert d.parser.pending[0..] == d.parser.pending; }
      var r := Flush(d, limit, tables).events;
      assert EagerOf(d) == d && ParkedEvents(d) + r == r;
    }
  }

  lemma MidRunIsMidCharacter(p: Bytes, limit: nat)
    requires p != [] && Step(p, limit).NeedMore? && 0 < TextPrefix(p) < |p|
    ensures IsTextStart(p[TextPrefix(p)])
  {
    hide StepCsi, StepString, StepPlainEscape;
    assert p[0..] == p;
    ScanTextInRange(p, 0, limit);
    StarvedRest(p, 0, limit);
  }

  /** What a flushing driver has delivered at the end of a stream is what the eager decoder has. */
  lemma WholeStream(script: seq<Read>, limit: nat, tables: Tables)
    requires script != [] && FlushesHarmlessly(FRESH, script, limit, tables)
    ensures Eager(Ground).Valid()
    ensures var x := ReadAll(FRESH, script, limit, tables);
      var e := EagerDecode(EagerOf(FRESH), BytesOf(script), limit, tables);
      && e.state == EagerOf(x.state)
      && (!EndsMidCharacter(x.state.parser) ==>
            x.events + Flush(x.state, limit, tables).events
              == (ParkedEvents(FRESH) + e.events) + Flush(e.state, limit, tables).events)
  {
    hide ReadAll, EagerDecode, FlushesHarmlessly, Flush, ParkedEvents, Eager, BytesOf, EndsMidCharacter;
    ReadsSimulate(FRESH, script, limit, tables);
    var x := ReadAll(FRESH, script, limit, tables);
    if !EndsMidCharacter(x.state.parser) {
      FlushAtEnd(x.state, limit, tables);
      var last := Flush(EagerOf(x.state), limit, tables).events;
      assert x.events + (ParkedEvents(x.state) + last) == (x.events + ParkedEvents(x.state)) + last;
    }
  }

  /** Text that is well-formed as far as its last, incomplete character is not well-formed. */
  lemma {:induction false} IncompleteIsNotUtf8(p: Bytes)
    requires TextPrefix(p) < |p| && IsTextStart(p[TextPrefix(p)])
    ensures !ValidUtf8(p) && IsTextStart(p[0])
    decreases |p|
  {
    hide IsChar;
    if TextPrefix(p) > 0 {
      var w := CharWidth(p).value;
      assert p[w..][TextPrefix(p[w..])] == p[TextPrefix(p)];
      IncompleteIsNotUtf8(p[w..]);
    }
  }

  /** Flushed in the middle of a character, the whole parked run is one malformed token. */
  lemma FlushMidCharacter(d: DecoderState, limit: nat, tables: Tables)
    requires d.parser.Valid() && Reachable(d.parser, limit) && EndsMidCharacter(d.parser)
    ensures d.parser.Partial?
    ensures Flush(d, limit, tables).events == [Syntax(Malformed(d.parser.pending))] + Orphan(d.mapping.half)
  {
    hide StepWith, ValidUtf8;
    var p := d.parser.pending;
    IncompleteIsNotUtf8(p);
    assert FinishTokens(d.parser, limit) == [Malformed(p)];
    MapOneToken(d.mapping, Malformed(p), tables);
  }

  /** Two ways to cut the same events, each followed by one malformed run, are the same only where both hold back
      as much. */
  lemma SameCut(
      x: seq<Event>, px: seq<Event>, y: seq<Event>, py: seq<Event>, ex: Event, ey: Event, last: seq<Event>)
    requires x + px == y + py
    ensures x + ([ex] + last) == y + ([ey] + last) <==> ex == ey && |px| == |py|
  {
    if x + ([ex] + last) == y + ([ey] + last) {
      assert |x| == |y|;
      assert (x + ([ex] + last))[|x|] == ex;
    }
    if |px| == |py| {
      assert x == (x + px)[..|x|] && y == (y + py)[..|y|];
      assert x == y;
    }
  }

  /** Two drivers reading the same bytes, split and flushed harmlessly in different ways, deliver the same events by
      the end of the stream, the final flush included, if and only if the stream does not stop inside a character of
      a text run or it stops with the same bytes parked in both. */
  lemma FlushingDriversAgree(a: seq<Read>, b: seq<Read>, limit: nat, tables: Tables)
    requires a != [] && b != [] && BytesOf(a) == BytesOf(b)
    requires FlushesHarmlessly(FRESH, a, limit, tables) && FlushesHarmlessly(FRESH, b, limit, tables)
    ensures var x := ReadAll(FRESH, a, limit, tables);
      var y := ReadAll(FRESH, b, limit, tables);
      (x.events + Flush(x.state, limit, tables).events == y.events + Flush(y.state, limit, tables).events)
        <==> (!EndsMidCharacter(x.state.parser) || x.state.parser == y.state.parser)
  {
    hide ReadAll, EagerDecode, FlushesHarmlessly, Flush, ParkedEvents, Eager, BytesOf, EndsMidCharacter, Reachable;
    WholeStream(a, limit, tables);
    WholeStream(b, limit, tables);
    var x := ReadAll(FRESH, a, limit, tables);
    var y := ReadAll(FRESH, b, limit, tables);
    assert EagerOf(x.state) == EagerOf(y.state);
    SameEagerEnds(x.state.parser, y.state.parser);
    if EndsMidCharacter(x.state.parser) {
      GroundIsReachable(limit);
      ReadsSimulate(FRESH, a, limit, tables);
      ReadsSimulate(FRESH, b, limit, tables);
      FlushMidCharacter(x.state, limit, tables);
      FlushMidCharacter(y.state, limit, tables);
      SameCut(x.events, ParkedEvents(x.state), y.events, ParkedEvents(y.state),
              Syntax(Malformed(x.state.parser.pending)), Syntax(Malformed(y.state.parser.pending)),
              Orphan(x.state.mapping.half));
    }
  }

  lemma SameEagerEnds(s: ParserState, t: ParserState)
    requires Eager(s) == Eager(t)
    ensures EndsMidCharacter(s) <==> EndsMidCharacter(t)
  {
  }

  // ----- Where a flush is not harmless -----

  /** The flush a driver makes at a drained boundary emits the parked characters and leaves everything
      else alone exactly where it is harmless. */
  lemma FlushIsHarmlessExactly(d: DecoderState, limit: nat, tables: Tables)
    requires d.parser.Valid() && Reachable(d.parser, limit) && HasSettledText(d.parser)
    ensures var r := Flush(d, limit, tables);
      r.events == ParkedEvents(d) && r.state == EagerOf(d) <==> Harmless(d)
  {
    hide Eager;
    if Harmless(d) {
      FlushEmitsParked(d, limit, tables);
    } else {
      FlushOfSettled(d.parser, d.mapping, limit, tables);
      BoundaryIsNotParked([]);
    }
  }

  lemma AdvancePlain(p: PasteState, b: Byte)
    requires p.Valid() && p.pendingMatch == [] && b != ESC && b != 0x9b
    ensures !IsPasteEnd(p.pendingMatch + [b])
    ensures Advance(p, b) == p.(retained := p.retained + [b])
  {
    var candidate := p.pendingMatch + [b];
    assert candidate == [b];
    assert PASTE_END_7BIT[0] == ESC && PASTE_END_8BIT[0] == 0x9b;
    assert !IsPasteEndPrefix(candidate);
    assert Shift(candidate, 1) == 1;
    assert candidate[..1] == [b] && candidate[1..] == [];
  }

  /** One plain byte of a paste that fills no segment. */
  lemma PlainByte(p: PasteState, b: Byte, rest: Bytes, limit: nat)
    requires p.Valid() && p.pendingMatch == [] && b != ESC && b != 0x9b
    ensures var p' := p.(retained := p.retained + [b]);
      PasteRunWith(p, [b] + rest, limit, limit) ==
        if |p'.retained| - p'.payloadStart >= limit then
          Prepend([SegmentToken(p')], PasteRunWith(AfterSegment(p'), rest, limit, limit))
        else PasteRunWith(p', rest, limit, limit)
  {
    hide Advance, IsPasteEnd, RunWith, SegmentToken;
    var buf := [b] + rest;
    assert buf[0] == b && buf[1..] == rest;
    AdvancePlain(p, b);
  }

  /** A continued paste with settled-looking payload is reached: `ESC [ 200 ~ a b c d` under a limit of
      three, where a drained read would close the paste before its end bracket. */
  lemma ContinuedPasteLooksSettled(tables: Tables)
    ensures var s := Grammar.Feed(Ground, [0x1b, 0x5b, 0x32, 0x30, 0x30, 0x7e] + [0x61, 0x62, 0x63, 0x64], 3).state;
      && Reachable(s, 3) && IsContinuedPaste(s) && HasSettledText(s)
      && Flush(DecoderState(s, MapState(false, None)), 3, tables).state.parser == Ground
  {
    hide StepWith, PasteRunWith, Flush, Reachable;
    var intro: Bytes := [0x1b, 0x5b, 0x32, 0x30, 0x30, 0x7e];
    var body: Bytes := [0x61, 0x62, 0x63, 0x64];
    IntroEntersPaste(intro, body, 3);
    assert (intro + body)[6..] == body;
    StepInRange(intro + body, 3, 3);
    var q := SegmentThenByte(intro);
    RunIsGood(intro + body, 3);
    PlainIsSettled(q);
  }

  lemma PlainIsSettled(p: PasteState)
    requires p.retained == [0x64]
    ensures HasSettledText(InPaste(p))
  {
    assert [0x64][..1] == [0x64] && [0x64][1..] == [];
    assert ValidUtf8([0x64]);
  }

  lemma SegmentThenByte(intro: Bytes) returns (q: PasteState)
    requires |intro| == 6
    ensures PasteRunWith(PasteState(intro, 6, true, []), [0x61, 0x62, 0x63, 0x64], 3, 3).state == InPaste(q)
    ensures q == PasteState([0x64], 0, false, [])
  {
    hide PasteRunWith, SegmentToken;
    var p0 := PasteState(intro, 6, true, []);
    var p1 := p0.(retained := intro + [0x61]);
    var p2 := p0.(retained := intro + [0x61] + [0x62]);
    var p3 := p0.(retained := intro + [0x61] + [0x62] + [0x63]);
    var q0 := AfterSegment(p3);
    var nothing: Bytes := [];
    assert [0x61] + [0x62, 0x63, 0x64] == [0x61, 0x62, 0x63, 0x64];
    assert [0x62] + [0x63, 0x64] == [0x62, 0x63, 0x64];
    assert [0x63] + [0x64] == [0x63, 0x64] && [0x64] + nothing == [0x64] && nothing + [0x64] == [0x64];
    PlainByte(p0, 0x61, [0x62, 0x63, 0x64], 3);
    PlainByte(p1, 0x62, [0x63, 0x64], 3);
    PlainByte(p2, 0x63, [0x64], 3);
    PlainByte(q0, 0x64, nothing, 3);
    q := q0.(retained := [0x64]);
    PasteOfNothing(q, 3);
  }

  lemma PasteOfNothing(p: PasteState, limit: nat)
    requires p.Valid()
    ensures PasteRunWith(p, [], limit, limit) == Outcome(InPaste(p), [])
  {
  }
}
