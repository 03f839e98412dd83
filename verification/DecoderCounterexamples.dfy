/** Concrete inputs at which the decoder's boundary predicates and flushes do not do what their names say. */
module DecoderCounterexamples {
  import opened Bytes
  import opened Tokens
  import opened Grammar
  import opened Bounds
  import opened Events
  import opened Decoder
  import opened DrainBoundary
  import opened SequenceRoundTrips
  import opened CursorRoundTrip
  import opened PasteExact

  lemma EscapeParks(limit: nat)
    ensures Grammar.Feed(Ground, [ESC], limit) == Outcome(Partial([ESC]), [])
  {
    var buf := [ESC];
    assert StepWith(buf, limit, limit) == NeedMore;
  }

  // ----- A held high surrogate -----

  // `ESC [ ; ; 55296 _`, a win32 key report of the first half of a surrogate pair.
  const HIGH_PARAMS: Bytes := [0x3b, 0x3b, 0x35, 0x35, 0x32, 0x39, 0x36]
  const HIGH_REPORT: Bytes := CsiBytes(HIGH_PARAMS, 0x5f)

  /** Whatever the key tables, the report decodes to nothing and its half is held. */
  lemma HighSurrogateIsSilent(tables: Tables)
    ensures AllIn(ParamByte, HIGH_PARAMS)
    ensures MapToken(FRESH.mapping, CsiToken(HIGH_PARAMS, 0x5f), tables) == Mapped(MapState(false, Some(55296)), [])
  {
    var n := Param(false, None);
    assert HIGH_PARAMS[1..] == [0x3b, 0x35, 0x35, 0x32, 0x39, 0x36];
    assert HIGH_PARAMS[1..][1..] == [0x35, 0x35, 0x32, 0x39, 0x36];
    DigitsParam([0x35, 0x35, 0x32, 0x39, 0x36]);
    assert ParamsFrom(HIGH_PARAMS, false, None) == [n, n, Param(false, Some(55296))];
  }

  lemma DigitsParam(s: Bytes)
    requires s == [0x35, 0x35, 0x32, 0x39, 0x36]
    ensures ParamsFrom(s, false, None) == [Param(false, Some(55296))]
  {
    var nothing: Bytes := [];
    assert s[1..] == [0x35, 0x32, 0x39, 0x36] && s[1..][1..] == [0x32, 0x39, 0x36];
    var t: Bytes := [0x32, 0x39, 0x36];
    assert t[1..] == [0x39, 0x36] && t[1..][1..] == [0x36] && t[1..][1..][1..] == nothing;
    assert ParamsFrom(nothing, false, Some(55296)) == [Param(false, Some(55296))];
    var u: Bytes := [0x36];
    assert ParamsFrom(u, false, Some(5529)) == [Param(false, Some(55296))];
    assert ParamsFrom(t, false, Some(55)) == [Param(false, Some(55296))];
  }

  lemma HighReportDecodes(limit: nat, tables: Tables)
    requires limit >= 7
    ensures Decode(FRESH, HIGH_REPORT, limit, tables) == Decoded(DecoderState(Ground, MapState(false, Some(55296))), [])
  {
    hide RunWith, MapToken;
    HighSurrogateIsSilent(tables);
    CsiReadsBack(HIGH_PARAMS, 0x5f, limit);
    MapOneToken(FRESH.mapping, CsiToken(HIGH_PARAMS, 0x5f), tables);
  }

  /** Bytes after the report that complete no token leave it silent. */
  lemma HeldAfterHigh(rest: Bytes, limit: nat, tables: Tables)
    requires limit >= 7 && rest != [] && Grammar.Feed(Ground, rest, limit) == Outcome(Partial(rest), [])
    ensures Decode(FRESH, HIGH_REPORT + rest, limit, tables)
         == Decoded(DecoderState(Partial(rest), MapState(false, Some(55296))), [])
  {
    hide RunWith, MapToken;
    HighReportDecodes(limit, tables);
    DecodeSplit(FRESH, HIGH_REPORT, rest, limit, tables);
    NoTokensNoEvents(MapState(false, Some(55296)), tables);
  }

  lemma LetterParks(limit: nat)
    requires limit >= 2
    ensures Grammar.Feed(Ground, [0x61], limit) == Outcome(Partial([0x61]), [])
  {
    var buf := [0x61];
    assert buf[0..0 + 1] == [0x61] && IsChar([0x61]);
    assert ScanText(buf, 0, limit) == Starved;
  }

  /** A boundary flush releases a held half with the text: read after the report, `a` and a drained boundary give
      its replacement, and the second half, read next, finds nothing to pair with. Without the boundary the half
      stays held. */
  lemma BoundaryReleasesSurrogate(limit: nat, tables: Tables)
    requires limit >= 7
    ensures var o := ReadOnce(FRESH, Read(HIGH_REPORT + [0x61], true), limit, tables);
      o.events == [Key(Char(0x61)), REPLACEMENT_KEY] && o.state.mapping.half == None
    ensures var o := ReadOnce(FRESH, Read(HIGH_REPORT + [0x61], false), limit, tables);
      o.events == [] && o.state.mapping.half == Some(55296)
  {
    hide RunWith, MapTokens, Decode, FinishTokens;
    LetterParks(limit);
    HeldAfterHigh([0x61], limit, tables);
    var d := DecoderState(Partial([0x61]), MapState(false, Some(55296)));
    assert HasSettledText(d.parser) by { assert [0x61][..1] == [0x61] && [0x61][1..] == []; }
    GroundIsReachable(limit);
    LetterIsReachable(limit);
    FlushOfSettled(d.parser, d.mapping, limit, tables);
    OneLetter();
  }

  lemma LetterIsReachable(limit: nat)
    requires limit >= 2
    ensures Reachable(Partial([0x61]), limit)
  {
    hide Reachable, RunWith;
    LetterParks(limit);
    GroundIsReachable(limit);
    FeedIsGood(Ground, [0x61], limit);
  }

  lemma OneLetter()
    ensures CharEvents([0x61]) == [Key(Char(0x61))]
  {
    assert [0x61][..1] == [0x61] && [0x61][1..] == [];
  }

  // ----- A lone ESC that is not one -----

  /** `ESC [ 200 ~ a b c ESC ESC` under a limit of three: a paste that has delivered its first segment reads as a
      lone ESC, and flushing it would close the paste before its end bracket. */
  lemma EscapeInPasteLooksLone()
    ensures var s := Grammar.Feed(Ground, [0x1b, 0x5b, 0x32, 0x30, 0x30, 0x7e] + [0x61, 0x62, 0x63, ESC, ESC], 3).state;
      s == InPaste(PasteState([ESC], 0, false, [ESC])) && HasPendingLoneEscape(s)
  {
    hide StepWith, PasteRunWith;
    var intro: Bytes := [0x1b, 0x5b, 0x32, 0x30, 0x30, 0x7e];
    var body: Bytes := [0x61, 0x62, 0x63, ESC, ESC];
    IntroEntersPaste(intro, body, 3);
    assert (intro + body)[6..] == body;
    StepInRange(intro + body, 3, 3);
    SegmentThenEscapes(intro);
  }

  lemma SegmentThenEscapes(intro: Bytes)
    requires |intro| == 6
    ensures PasteRunWith(PasteState(intro, 6, true, []), [0x61, 0x62, 0x63, ESC, ESC], 3, 3).state
         == InPaste(PasteState([ESC], 0, false, [ESC]))
  {
    hide PasteRunWith, SegmentToken;
    var p0 := PasteState(intro, 6, true, []);
    var p1 := p0.(retained := intro + [0x61]);
    var p2 := p0.(retained := intro + [0x61] + [0x62]);
    var p3 := p0.(retained := intro + [0x61] + [0x62] + [0x63]);
    assert [0x61] + [0x62, 0x63, ESC, ESC] == [0x61, 0x62, 0x63, ESC, ESC];
    assert [0x62] + [0x63, ESC, ESC] == [0x62, 0x63, ESC, ESC];
    assert [0x63] + [ESC, ESC] == [0x63, ESC, ESC];
    PlainByte(p0, 0x61, [0x62, 0x63, ESC, ESC], 3);
    PlainByte(p1, 0x62, [0x63, ESC, ESC], 3);
    PlainByte(p2, 0x63, [ESC, ESC], 3);
    TwoEscapes(AfterSegment(p3), 3);
  }

  lemma TwoEscapes(p: PasteState, limit: nat)
    requires p == PasteState([], 0, false, []) && limit >= 2
    ensures PasteRunWith(p, [ESC, ESC], limit, limit).state == InPaste(PasteState([ESC], 0, false, [ESC]))
  {
    var nothing: Bytes := [];
    var two := [ESC, ESC];
    assert two[1..] == [ESC] && [ESC][1..] == nothing && nothing + [ESC] == [ESC];
    assert IsPasteEndPrefix([ESC]) by { assert PASTE_END_7BIT[..1] == [ESC]; }
    assert Advance(p, ESC) == p.(pendingMatch := [ESC]);
    assert PASTE_END_7BIT[1] == 0x5b && PASTE_END_8BIT[0] == 0x9b;
    assert [ESC] + [ESC] == two && !IsPasteEndPrefix(two);
    assert two[1..] == [ESC] && Shift(two, 1) == 1 && two[..1] == [ESC];
    var held := p.(pendingMatch := [ESC]);
    assert Advance(held, ESC) == PasteState([ESC], 0, false, [ESC]);
    PasteOfNothing(Advance(held, ESC), limit);
    assert PasteRunWith(held, [ESC], limit, limit) == PasteRunWith(Advance(held, ESC), nothing, limit, limit);
    assert PasteRunWith(p, two, limit, limit) == PasteRunWith(held, [ESC], limit, limit);
  }

  // ----- A stream that stops inside a character -----

  lemma HalfCharacterParks(limit: nat)
    requires limit >= 2
    ensures Grammar.Feed(Ground, [0x61, 0xc3], limit) == Outcome(Partial([0x61, 0xc3]), [])
    ensures Grammar.Feed(Ground, [0xc3], limit) == Outcome(Partial([0xc3]), [])
  {
    var two, one := [0x61, 0xc3], [0xc3];
    assert two[0..1] == [0x61] && IsChar([0x61]);
    assert ScanText(two, 1, limit) == Starved && ScanText(two, 0, limit) == Starved;
    assert ScanText(one, 0, limit) == Starved;
  }

  /** `a` and the first byte of a two-byte character, read at once or with a drained boundary between them: the final
      flush makes one malformed run of both, or a key and a malformed byte. */
  lemma MidCharacterDisagrees(limit: nat, tables: Tables)
    requires limit >= 2
    ensures var x := ReadAll(FRESH, [Read([0x61, 0xc3], false)], limit, tables);
      x.events + Flush(x.state, limit, tables).events == [Syntax(Malformed([0x61, 0xc3]))]
    ensures var y := ReadAll(FRESH, [Read([0x61], true), Read([0xc3], false)], limit, tables);
      y.events + Flush(y.state, limit, tables).events == [Key(Char(0x61)), Syntax(Malformed([0xc3]))]
  {
    hide RunWith, MapTokens, Flush, CharEvents;
    HalfCharacterParks(limit);
    LetterParks(limit);
    NoTokensNoEvents(FRESH.mapping, tables);
    var whole, letter, rest := Read([0x61, 0xc3], false), Read([0x61], true), Read([0xc3], false);
    var parked := DecoderState(Partial([0x61]), FRESH.mapping);
    assert HasSettledText(parked.parser) by { assert [0x61][..1] == [0x61] && [0x61][1..] == []; }
    LetterIsReachable(limit);
    FlushOfSettled(parked.parser, parked.mapping, limit, tables);
    OneLetter();
    FlushOfHalf([0x61, 0xc3], limit, tables);
    FlushOfHalf([0xc3], limit, tables);
    LetterFlushes(limit, tables);
    ReadTwo(letter, rest, limit, tables);
    var nothing: seq<Event> := [];
    assert [Key(Char(0x61))] + nothing == [Key(Char(0x61))];
    assert [Key(Char(0x61))] + [Syntax(Malformed([0xc3]))] == [Key(Char(0x61)), Syntax(Malformed([0xc3]))];
  }

  lemma FlushOfHalf(p: Bytes, limit: nat, tables: Tables)
    requires p == [0x61, 0xc3] || p == [0xc3]
    ensures Flush(DecoderState(Partial(p), FRESH.mapping), limit, tables)
         == Decoded(FRESH, [Syntax(Malformed(p))])
  {
    assert !ValidUtf8(p) by {
      assert CharWidth([0xc3]).None?;
      if p[0] == 0x61 { assert p[..1] == [0x61] && p[1..] == [0xc3]; }
    }
    MapOneToken(FRESH.mapping, Malformed(p), tables);
  }

  lemma LetterFlushes(limit: nat, tables: Tables)
    ensures Flush(DecoderState(Partial([0x61]), FRESH.mapping), limit, tables).state == FRESH
  {
    assert ValidUtf8([0x61]) by { assert [0x61][..1] == [0x61] && [0x61][1..] == []; }
    MapOneToken(FRESH.mapping, Text([0x61]), tables);
  }

  lemma ReadTwo(a: Read, b: Read, limit: nat, tables: Tables)
    ensures var first := ReadOnce(FRESH, a, limit, tables);
      var second := ReadOnce(first.state, b, limit, tables);
      ReadAll(FRESH, [a, b], limit, tables) == Decoded(second.state, first.events + second.events)
  {
    hide ReadOnce;
    var nothing: seq<Read> := [];
    assert [a, b][1..] == [b] && [b][1..] == nothing;
    var first := ReadOnce(FRESH, a, limit, tables);
    var second := ReadOnce(first.state, b, limit, tables);
    assert second.events + [] == second.events;
    assert ReadAll(second.state, nothing, limit, tables) == Decoded(second.state, []);
    assert ReadAll(first.state, [b], limit, tables) == second;
  }
}
