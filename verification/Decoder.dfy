/** The semantic decoder: a tokenizer, its token mapping, and the two questions drivers ask of what it
    still holds. */
module Decoder {
  import opened Bytes
  import opened Tokens
  import opened Grammar
  import opened Bounds
  import opened SyntaxParsing
  import opened Events

  datatype DecoderState = DecoderState(parser: ParserState, mapping: MapState)

  datatype Decoded = Decoded(state: DecoderState, events: seq<Event>)

  const FRESH := DecoderState(Ground, MapState(false, None))

  function Decode(d: DecoderState, bytes: Bytes, limit: nat, tables: Tables): (r: Decoded)
    requires d.parser.Valid()
    ensures r.state.parser.Valid()
  {
    var o := Grammar.Feed(d.parser, bytes, limit);
    var mapped := MapTokens(d.mapping, o.tokens, tables);
    Decoded(DecoderState(o.state, mapped.mapping), mapped.events)
  }

  /** End of input: the parser's flush, then a dangling high surrogate. */
  function Flush(d: DecoderState, limit: nat, tables: Tables): (r: Decoded)
    requires d.parser.Valid()
    ensures r.state.parser == Ground && r.state.mapping.half == None
  {
    var mapped := MapTokens(d.mapping, FinishTokens(d.parser, limit), tables);
    Decoded(DecoderState(Ground, mapped.mapping.(half := None)), mapped.events + Orphan(mapped.mapping.half))
  }

  predicate HasSettledText(s: ParserState) {
    var p := s.PendingBytes();
    p != [] && p[0] >= 0x20 && p[0] != DEL && ValidUtf8(p)
  }

  predicate HasPendingLoneEscape(s: ParserState) { s.PendingBytes() == [ESC] }

  // ----- When the two predicates hold -----

  /** A paste that has already delivered a segment, so that only payload is pending. */
  predicate IsContinuedPaste(s: ParserState) { s.InPaste? && !s.paste.isFirst }

  lemma StarvedIsTextStart(p: Bytes, limit: nat)
    requires p != [] && Step(p, limit).NeedMore? && !IsTextStart(p[0])
    ensures p[0] == ESC || IsC1Introducer(p[0])
  {
  }

  /** Settled text is a parked run of complete characters, or, the one other state, a continued paste
      whose pending payload looks like one. */
  lemma SettledTextExactly(s: ParserState, limit: nat)
    requires s.Valid() && Reachable(s, limit)
    ensures HasSettledText(s) <==>
      || (s.Partial? && IsText(s.pending))
      || (IsContinuedPaste(s) && s.paste.retained != [] && s.paste.retained[0] >= 0x20
          && s.paste.retained[0] != DEL && ValidUtf8(s.paste.retained))
  {
    match s
    case Ground =>
    case Partial(p) =>
      if IsTextStart(p[0]) {
        assert p[0..] == p;
        hide StepCsi, StepString, StepPlainEscape;
        if ValidUtf8(p) { ParkedTextIsText(p, limit); }
        if IsText(p) { TextIsValidAndPrintable(p); }
      } else {
        StarvedIsTextStart(p, limit);
      }
    case InString(a) =>
    case InPaste(a) =>
  }

  lemma ParkedTextIsText(p: Bytes, limit: nat)
    requires p != [] && IsTextStart(p[0]) && Step(p, limit).NeedMore? && ValidUtf8(p)
    ensures IsText(p)
  {
    hide StepCsi, StepString, StepPlainEscape, IsText, ValidUtf8;
    assert p[0..] == p;
    ScanTextInRange(p, 0, limit);
    StarvedValidIsText(p, 0, limit);
  }

  /** A lone pending ESC is a parked ESC, or the same exception. */
  lemma LoneEscapeExactly(s: ParserState, limit: nat)
    requires s.Valid() && Reachable(s, limit)
    ensures HasPendingLoneEscape(s) <==>
      s == Partial([ESC]) || (IsContinuedPaste(s) && s.paste.retained == [ESC])
  {
  }

  /** What a flush does there: a parked run becomes its characters and a parked ESC the Escape key,
      while a continued paste is cut short, its remaining bytes left to be read as syntax. */
  lemma FlushOfSettled(s: ParserState, m: MapState, limit: nat, tables: Tables)
    requires s.Valid() && Reachable(s, limit)
    requires HasSettledText(s) || HasPendingLoneEscape(s)
    ensures var r := Flush(DecoderState(s, m), limit, tables);
      if s == Partial([ESC]) then r.events == [Key(Escape)] + Orphan(m.half)
      else if s.Partial? then r.events == CharEvents(s.pending) + Orphan(m.half) && r.events != []
      else
        && IsContinuedPaste(s) && |r.events| == 1 + |Orphan(m.half)|
        && r.events[0].Pasted? && r.events[0].isFinal && !r.events[0].terminated
  {
    SettledTextExactly(s, limit);
    LoneEscapeExactly(s, limit);
    var ts := FinishTokens(s, limit);
    MapOneToken(m, ts[0], tables);
    assert ts == [ts[0]];
    if s.Partial? && s != Partial([ESC]) {
      TextIsValidAndPrintable(s.pending);
    }
  }

  // ----- The object -----

  /** One character, in positions of the whole text. */
  lemma CharEventsAt(text: Bytes, index: nat)
    requires index <= |text| && ValidUtf8(text[index..])
    ensures index == |text| ==> CharEvents(text[index..]) == []
    ensures index < |text| ==>
      && CharWidth(text[index..]).Some?
      && var next := index + CharWidth(text[index..]).value;
      && index < next <= |text| && IsChar(text[index..next]) && ValidUtf8(text[next..])
      && CharEvents(text[index..]) == [Key(Char(Scalar(text[index..next])))] + CharEvents(text[next..])
  {
    hide Scalar, IsChar;
    if index < |text| {
      var w := CharWidth(text[index..]).value;
      assert text[index..][..w] == text[index..index + w] && text[index..][w..] == text[index + w..];
    }
  }

  class SemanticDecoder {
    const parser: SyntaxParser
    var pastePendingCr: bool
    var half: Option<nat>
    const tables: Tables

    ghost function Repr(): set<object>
      reads this, parser
    {
      {this, parser} + parser.Owned()
    }

    ghost predicate Valid()
      reads this, parser, Repr()
    {
      parser.Valid()
    }

    ghost function View(): DecoderState
      reads this, parser, Repr()
    {
      DecoderState(parser.View(), MapState(pastePendingCr, half))
    }

    constructor (payloadLimit: nat, tables: Tables)
      ensures Valid() && fresh(Repr())
      ensures View() == FRESH && this.tables == tables && parser.payloadLimit == payloadLimit
    {
      this.parser := new SyntaxParser(payloadLimit);
      this.pastePendingCr := false;
      this.half := None;
      this.tables := tables;
    }

    /** One event a character of a text token. */
    method PushTextEvents(text: Bytes) returns (events: seq<Event>)
      requires ValidUtf8(text)
      ensures events == CharEvents(text)
    {
      hide CharEvents, CharWidth, ValidUtf8, Scalar;
      assert text[0..] == text;
      events := [];
      var index := 0;
      while index < |text|
        invariant index <= |text| && ValidUtf8(text[index..])
        invariant CharEvents(text) == events + CharEvents(text[index..])
      {
        CharEventsAt(text, index);
        var w := CharWidth(text[index..]).value;
        var c := text[index..index + w];
        Associate(events, [Key(Char(Scalar(c)))], CharEvents(text[index + w..]));
        events := events + [Key(Char(Scalar(c)))];
        index := index + w;
      }
      CharEventsAt(text, |text|);
      assert events + [] == events;
    }

    method MapOne(token: Token) returns (events: seq<Event>)
      requires token.Text? ==> ValidUtf8(token.text)
      modifies this
      ensures MapToken(old(MapState(pastePendingCr, half)), token, tables)
           == Mapped(MapState(pastePendingCr, half), events)
    {
      match token
      case Text(text) => events := PushTextEvents(text);
      case Control(b) => events := [ControlKeyEvent(b)];
      case Csi(csi) =>
        var mapped := MapCsi(MapState(pastePendingCr, half), csi, tables);
        half := mapped.mapping.half;
        events := mapped.events;
      case Paste(p) =>
        var (data, carry) := Normalize(p.payload, pastePendingCr);
        pastePendingCr := if p.isFinal then false else carry;
        events := [Pasted(data, p.isFirst, p.isFinal, p.terminated)];
      case Esc(_, _, final) => events := [if final.None? then Key(Escape) else Syntax(token)];
      case Str(_) => events := [Syntax(token)];
      case Malformed(_) => events := [Syntax(token)];
    }

    method MapAll(tokens: seq<Token>) returns (events: seq<Event>)
      requires GoodTokens(tokens, parser.payloadLimit)
      modifies this
      ensures MapTokens(old(MapState(pastePendingCr, half)), tokens, tables)
           == Mapped(MapState(pastePendingCr, half), events)
    {
      events := [];
      ghost var start := MapState(pastePendingCr, half);
      for i := 0 to |tokens|
        invariant MapTokens(start, tokens[..i], tables) == Mapped(MapState(pastePendingCr, half), events)
      {
        TextIsPrintable(tokens[i], parser.payloadLimit);
        var more := MapOne(tokens[i]);
        assert tokens[..i + 1] == tokens[..i] + [tokens[i]];
        MapTokensAppend(start, tokens[..i], [tokens[i]], tables);
        MapOneToken(MapTokens(start, tokens[..i], tables).mapping, tokens[i], tables);
        events := events + more;
      }
      assert tokens[..|tokens|] == tokens;
    }

    method FeedBytes(bytes: Bytes) returns (events: seq<Event>)
      requires Valid() && Reachable(parser.View(), parser.payloadLimit)
      modifies Repr()
      ensures Valid() && fresh(Repr() - old(Repr()))
      ensures Reachable(parser.View(), parser.payloadLimit)
      ensures Decoded(View(), events) == Decode(old(View()), bytes, parser.payloadLimit, tables)
    {
      hide Reachable, MapTokens, FeedWith, GoodTokens;
      FeedIsGood(parser.View(), bytes, parser.payloadLimit);
      var tokens := parser.FeedChunk(bytes);
      events := MapAll(tokens);
    }

    method Finish() returns (events: seq<Event>)
      requires Valid() && Reachable(parser.View(), parser.payloadLimit)
      modifies Repr()
      ensures Valid() && fresh(Repr() - old(Repr()))
      ensures Reachable(parser.View(), parser.payloadLimit)
      ensures Decoded(View(), events) == Flush(old(View()), parser.payloadLimit, tables)
    {
      FinishIsGood(parser.View(), parser.payloadLimit);
      var tokens := parser.Finish();
      events := MapAll(tokens);
      if half.Some? {
        half := None;
        events := events + [REPLACEMENT_KEY];
      } else {
        assert events + [] == events;
      }
    }

    method SettledText() returns (settled: bool)
      requires Valid()
      ensures settled == HasSettledText(View().parser)
    {
      var pending := parser.GetPendingBytes();
      settled := pending != [] && pending[0] >= 0x20 && pending[0] != DEL && ValidUtf8(pending);
    }

    method PendingLoneEscape() returns (lone: bool)
      requires Valid()
      ensures lone == HasPendingLoneEscape(View().parser)
    {
      var pending := parser.GetPendingBytes();
      lone := pending == [ESC];
    }

    /** The first event of flushing, when a lone ESC is pending, and otherwise nothing at all. */
    method FlushPendingEscape() returns (e: Option<Event>)
      requires Valid() && Reachable(parser.View(), parser.payloadLimit)
      modifies Repr()
      ensures Valid() && fresh(Repr() - old(Repr()))
      ensures Reachable(parser.View(), parser.payloadLimit)
      ensures if HasPendingLoneEscape(old(View()).parser) then
                var r := Flush(old(View()), parser.payloadLimit, tables);
                View() == r.state && r.events != [] && e == Some(r.events[0])
              else View() == old(View()) && e == None
      ensures old(View()).parser == Partial([ESC]) ==> e == Some(Key(Escape))
    {
      var lone := PendingLoneEscape();
      if !lone {
        return None;
      }
      FlushOfSettled(View().parser, View().mapping, parser.payloadLimit, tables);
      var events := Finish();
      e := Some(events[0]);
    }
  }

  lemma TextIsPrintable(t: Token, limit: nat)
    requires GoodToken(t, limit)
    ensures t.Text? ==> t.text != [] && ValidUtf8(t.text)
  {
    if t.Text? { TextIsValidAndPrintable(t.text); }
  }

  lemma MapOneToken(m: MapState, t: Token, tables: Tables)
    ensures MapTokens(m, [t], tables) == MapToken(m, t, tables)
  {
    var first := MapToken(m, t, tables);
    assert first.events + [] == first.events;
  }

  /** Flushing a lone ESC yields one event and then at most the replacement of a held surrogate. */
  lemma FlushOfLoneEscape(d: DecoderState, limit: nat, tables: Tables)
    requires d.parser.Valid() && Reachable(d.parser, limit) && HasPendingLoneEscape(d.parser)
    ensures var events := Flush(d, limit, tables).events;
      events != [] && events[1..] == Orphan(d.mapping.half)
  {
    LoneEscapeExactly(d.parser, limit);
    var ts := FinishTokens(d.parser, limit);
    MapOneToken(d.mapping, ts[0], tables);
    assert ts == [ts[0]];
  }
}
