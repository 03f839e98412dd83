/** What the tokenizer computes, as functions of the bytes still to read.

    `Step` classifies the bytes at a token boundary. `Run` drives `Step` over a buffer, `StringRun`
    and `PasteRun` continue inside a control string or a bracketed paste, and `Feed` dispatches on
    the parser state. The functions take the unread suffix, so positions are relative to it. */
module Grammar {
  import opened Bytes
  import opened Tokens

  // ----- Control prefixes, shared by CSI and DCS -----

  datatype Prefix =
    | Complete(params: ControlParams, end: nat)
    | Hungry
    | Aborted(end: nat)
    | Overflow(end: nat)

  // Where the private markers, the parameter bytes and the intermediates of a prefix end.
  datatype Marks = Marks(markers: nat, params: nat, all: nat)

  function PrefixMarks(buf: Bytes): (k: Marks)
    ensures k.markers <= k.params <= k.all <= |buf|
  {
    var m := SpanLen(PrivateMarker, buf);
    var p := m + SpanLen(ParamByte, buf[m..]);
    Marks(m, p, p + SpanLen(Intermediate, buf[p..]))
  }

  function ScanPrefix(buf: Bytes, cap: nat): (r: Prefix)
    ensures !r.Hungry? ==> r.end <= |buf|
  {
    var k := PrefixMarks(buf);
    var n := k.all;
    if n > cap then Overflow(cap)
    else if n == |buf| then Hungry
    else if IsFinalByte(buf[n]) then
      Complete(ControlParams(buf[..k.markers], buf[k.markers..k.params], buf[k.params..n], buf[n]), n + 1)
    else if IsAbort(buf[n]) then Aborted(n + 1)
    else Aborted(n)
  }

  // ----- Text -----

  datatype TextScan = Cut(end: nat) | Bad(end: nat) | Starved

  /** Scans text from `cursor`; everything before `cursor` is complete characters of the run. */
  function ScanText(buf: Bytes, cursor: nat, cap: nat): TextScan
    requires cursor <= |buf|
    decreases |buf| - cursor
  {
    if cursor == |buf| then Starved
    else if IsTextBoundary(buf[cursor]) then Cut(cursor)
    else match Utf8Width(buf[cursor])
      case None => if cursor > 0 then Cut(cursor) else Bad(1)
      case Some(w) =>
        if cursor + w > |buf| then Starved
        else if !IsChar(buf[cursor..cursor + w]) then
          if cursor > 0 then Cut(cursor) else Bad(w)
        else if cursor + w >= cap then Cut(cursor + w)
        else ScanText(buf, cursor + w, cap)
  }

  // ----- One step at a token boundary -----

  datatype StepResult =
    | Emit(token: Token, next: nat)
    | NeedMore
    | EnterString(str: StringState, next: nat)
    | EnterPaste(paste: PasteState, next: nat)

  const PASTE_PARAM: Bytes := [0x32, 0x30, 0x30]

  predicate IsPasteStart(params: ControlParams) {
    && params.privateMarkers == []
    && params.intermediates == []
    && params.paramBytes == PASTE_PARAM
    && params.finalByte == 0x7e
  }

  /** A control sequence whose introducer is the first `intro` bytes of `buf`. */
  function StepCsi(buf: Bytes, intro: nat, cap: nat): StepResult
    requires intro <= |buf|
  {
    match ScanPrefix(buf[intro..], cap)
    case Hungry => NeedMore
    case Aborted(end) => Emit(Malformed(buf[..intro + end]), intro + end)
    case Overflow(end) => Emit(Malformed(buf[..intro + end]), intro + end)
    case Complete(params, end) =>
      if IsPasteStart(params) then
        EnterPaste(PasteState(buf[..intro + end], intro + end, true, []), intro + end)
      else
        Emit(Csi(ControlSequence(buf[..intro + end], params)), intro + end)
  }

  function StepString(buf: Bytes, kind: StringKind, intro: nat, cap: nat): StepResult
    requires intro <= |buf|
  {
    if kind == KindDcs then
      match ScanPrefix(buf[intro..], cap)
      case Hungry => NeedMore
      case Aborted(end) => Emit(Malformed(buf[..intro + end]), intro + end)
      case Overflow(end) => Emit(Malformed(buf[..intro + end]), intro + end)
      case Complete(params, end) =>
        EnterString(
          StringState(kind, buf[..intro + end], intro, intro + end, 0, false, Some(params)),
          intro + end)
    else
      EnterString(StringState(kind, buf[..intro], intro, intro, 0, false, None), intro)
  }

  function StepPlainEscape(buf: Bytes, cap: nat): StepResult
    requires |buf| > 0
  {
    var n := SpanLen(Intermediate, buf[1..]);
    if n > cap then Emit(Malformed(buf[..1 + cap]), 1 + cap)
    else if 1 + n == |buf| then NeedMore
    else
      var b := buf[1 + n];
      if IsEscapeFinalByte(b) then Emit(Esc(buf[..n + 2], buf[1..1 + n], Some(b)), n + 2)
      else if IsAbort(b) then Emit(Malformed(buf[..n + 2]), n + 2)
      else Emit(Malformed(buf[..n + 1]), n + 1)
  }

  function StepText(buf: Bytes, cap: nat): StepResult
    requires |buf| > 0
  {
    match ScanText(buf, 0, cap)
    case Starved => NeedMore
    case Cut(end) => if end <= |buf| then Emit(Text(buf[..end]), end) else NeedMore
    case Bad(end) => if end <= |buf| then Emit(Malformed(buf[..end]), end) else NeedMore
  }

  function StepEscape(buf: Bytes, cap: nat): StepResult
    requires |buf| > 0
  {
    if |buf| == 1 then NeedMore
    else
      var b := buf[1];
      if b == 0x5b then StepCsi(buf, 2, cap)
      else if b == 0x50 then StepString(buf, KindDcs, 2, cap)
      else if b == 0x5d then StepString(buf, KindOsc, 2, cap)
      else if b == 0x5f then StepString(buf, KindApc, 2, cap)
      else if b == 0x5e then StepString(buf, KindPm, 2, cap)
      else if b == 0x58 then StepString(buf, KindSos, 2, cap)
      else if IsAbort(b) then Emit(Malformed([ESC, b]), 2)
      else StepPlainEscape(buf, cap)
  }

  /** `textCap` bounds text slices and `cap` everything else; the parser uses one limit for both. */
  function StepWith(buf: Bytes, cap: nat, textCap: nat): StepResult
    requires |buf| > 0
  {
    var b := buf[0];
    if b == ESC then StepEscape(buf, cap)
    else if b == C1_CSI then StepCsi(buf, 1, cap)
    else if b == 0x90 then StepString(buf, KindDcs, 1, cap)
    else if b == 0x9d then StepString(buf, KindOsc, 1, cap)
    else if b == 0x9f then StepString(buf, KindApc, 1, cap)
    else if b == 0x9e then StepString(buf, KindPm, 1, cap)
    else if b == 0x98 then StepString(buf, KindSos, 1, cap)
    else if IsAbort(b) then Emit(Malformed([b]), 1)
    else if IsControl(b) then Emit(Control(b), 1)
    else if b == C1_ST then Emit(Malformed([b]), 1)
    else StepText(buf, textCap)
  }

  // ----- Inside a control string -----

  function PushPayload(a: StringState, b: Byte, limit: nat): StringState
    requires a.Valid()
  {
    if |a.retained| - a.introducerLen < limit then a.(retained := a.retained + [b])
    else a.(dropped := a.dropped + 1)
  }

  function StringToken(a: StringState, terminator: Terminator): Token
    requires a.Valid()
  {
    Str(StringSequence(
      a.kind, a.retained + terminator.Raw(), a.retained[a.payloadStart..],
      a.dropped, terminator, a.controlParams))
  }

  // `Close` carries the token and the bytes of the string's own tail that are read again.
  datatype StringStep = Stay(str: StringState) | Close(token: Token, reread: Bytes)

  function StepInString(a: StringState, b: Byte, limit: nat): StringStep
    requires a.Valid()
  {
    if a.escHeld then
      if b == 0x5c then Close(StringToken(a, EscBackslash), [])
      else if a.dropped > 0 then Close(StringToken(a, Unterminated), [ESC, b])
      else if IsAbort(b) then Close(Malformed(a.retained + [ESC, b]), [])
      else Close(Malformed(a.retained), [ESC, b])
    else if b == BEL && a.kind == KindOsc then Close(StringToken(a, Bel), [])
    else if b == C1_ST then Close(StringToken(a, C1), [])
    else if b == ESC then Stay(a.(escHeld := true))
    else if IsAbort(b) then
      if a.dropped == 0 then Close(Malformed(a.retained + [b]), [])
      else Close(StringToken(a, Unterminated), [b])
    else Stay(PushPayload(a, b, limit))
  }

  // ----- Inside a bracketed paste -----

  const PASTE_END_7BIT: Bytes := [0x1b, 0x5b, 0x32, 0x30, 0x31, 0x7e]
  const PASTE_END_8BIT: Bytes := [0x9b, 0x32, 0x30, 0x31, 0x7e]

  predicate IsPasteEnd(s: Bytes) { s == PASTE_END_7BIT || s == PASTE_END_8BIT }

  predicate IsPasteEndPrefix(s: Bytes) { s <= PASTE_END_7BIT || s <= PASTE_END_8BIT }

  /** The least shift at or after `from` that leaves `candidate` a live end-bracket candidate. */
  function Shift(candidate: Bytes, from: nat): (n: nat)
    requires from <= |candidate|
    ensures from <= n <= |candidate|
    ensures IsPasteEndPrefix(candidate[n..])
    ensures forall k :: from <= k < n ==> !IsPasteEndPrefix(candidate[k..])
    decreases |candidate| - from
  {
    if IsPasteEndPrefix(candidate[from..]) then from else Shift(candidate, from + 1)
  }

  /** Holds `b` or, when it breaks the held candidate, commits the bytes before the next one. */
  function Advance(a: PasteState, b: Byte): (r: PasteState)
    ensures a.Valid() ==> r.Valid()
  {
    var candidate := a.pendingMatch + [b];
    if IsPasteEndPrefix(candidate) then a.(pendingMatch := candidate)
    else
      var n := Shift(candidate, 1);
      a.(retained := a.retained + candidate[..n], pendingMatch := candidate[n..])
  }

  function SegmentToken(a: PasteState): Token
    requires a.Valid()
  {
    Paste(PasteSequence(a.retained, a.retained[a.payloadStart..], a.isFirst, false, false))
  }

  function AfterSegment(a: PasteState): PasteState {
    a.(retained := [], payloadStart := 0, isFirst := false)
  }

  function FinalToken(a: PasteState, terminated: bool): Token
    requires a.Valid()
  {
    Paste(PasteSequence(
      a.retained + if terminated then a.pendingMatch else [],
      a.retained[a.payloadStart..], a.isFirst, true, terminated))
  }

  // ----- Whole buffers -----

  datatype Outcome = Outcome(state: ParserState, tokens: seq<Token>)

  function Prepend(tokens: seq<Token>, o: Outcome): Outcome {
    Outcome(o.state, tokens + o.tokens)
  }

  function Held(a: StringState): nat { if a.escHeld then 1 else 0 }

  function RunWith(buf: Bytes, cap: nat, textCap: nat): (o: Outcome)
    ensures o.state.Valid()
    decreases |buf|, 0
  {
    if buf == [] then Outcome(Ground, [])
    else
      var step := StepWith(buf, cap, textCap);
      StepInRange(buf, cap, textCap);
      match step
      case Emit(token, next) => Prepend([token], RunWith(buf[next..], cap, textCap))
      case NeedMore => Outcome(Partial(buf), [])
      case EnterString(a, next) => StringRunWith(a, buf[next..], cap, textCap)
      case EnterPaste(a, next) => PasteRunWith(a, buf[next..], cap, textCap)
  }

  function StringRunWith(a: StringState, buf: Bytes, cap: nat, textCap: nat): (o: Outcome)
    requires a.Valid()
    ensures o.state.Valid()
    decreases |buf| + Held(a), |buf|
  {
    if buf == [] then Outcome(InString(a), [])
    else match StepInString(a, buf[0], cap)
      case Stay(a') => StringRunWith(a', buf[1..], cap, textCap)
      case Close(token, reread) => Prepend([token], RunWith(reread + buf[1..], cap, textCap))
  }

  function PasteRunWith(a: PasteState, buf: Bytes, cap: nat, textCap: nat): (o: Outcome)
    requires a.Valid()
    ensures o.state.Valid()
    decreases |buf|, |buf|
  {
    if buf == [] then Outcome(InPaste(a), [])
    else if IsPasteEnd(a.pendingMatch + [buf[0]]) then
      Prepend(
        [FinalToken(a.(pendingMatch := a.pendingMatch + [buf[0]]), true)],
        RunWith(buf[1..], cap, textCap))
    else
      var a' := Advance(a, buf[0]);
      if |a'.retained| - a'.payloadStart >= cap then
        Prepend([SegmentToken(a')], PasteRunWith(AfterSegment(a'), buf[1..], cap, textCap))
      else PasteRunWith(a', buf[1..], cap, textCap)
  }

  function FeedWith(s: ParserState, buf: Bytes, cap: nat, textCap: nat): (o: Outcome)
    requires s.Valid()
    ensures o.state.Valid()
  {
    match s
    case Ground => RunWith(buf, cap, textCap)
    case Partial(p) => RunWith(p + buf, cap, textCap)
    case InString(a) => StringRunWith(a, buf, cap, textCap)
    case InPaste(a) => PasteRunWith(a, buf, cap, textCap)
  }

  // The tokenizer itself: one limit for everything.
  function Step(buf: Bytes, limit: nat): StepResult
    requires |buf| > 0
  {
    StepWith(buf, limit, limit)
  }

  function Run(buf: Bytes, limit: nat): Outcome { RunWith(buf, limit, limit) }

  function Feed(s: ParserState, buf: Bytes, limit: nat): (o: Outcome)
    requires s.Valid()
    ensures o.state.Valid()
  {
    FeedWith(s, buf, limit, limit)
  }

  // ----- End of input -----

  predicate AllIntermediate(s: Bytes) { forall i :: 0 <= i < |s| ==> InClass(Intermediate, s[i]) }

  function FinishPending(p: Bytes): Token
    requires |p| > 0
  {
    if IsTextStart(p[0]) then if ValidUtf8(p) then Text(p) else Malformed(p)
    else if p[0] == ESC && AllIntermediate(p[1..]) then Esc(p, p[1..], None)
    else Malformed(p)
  }

  function FinishTokens(s: ParserState, limit: nat): seq<Token>
    requires s.Valid()
  {
    match s
    case Ground => []
    case Partial(p) => [FinishPending(p)]
    case InString(a) =>
      [StringToken(if a.escHeld then PushPayload(a, ESC, limit) else a, Unterminated)]
    case InPaste(a) => [FinalToken(a.(retained := a.retained + a.pendingMatch), false)]
  }

  // ----- Progress: every step but `NeedMore` advances within the buffer -----

  lemma ScanTextInRange(buf: Bytes, cursor: nat, cap: nat)
    requires cursor <= |buf|
    requires cursor == 0 ==> |buf| > 0 && !IsTextBoundary(buf[0])
    ensures ScanText(buf, cursor, cap).Cut? ==> 0 < ScanText(buf, cursor, cap).end <= |buf|
    ensures ScanText(buf, cursor, cap).Bad? ==> 0 < ScanText(buf, cursor, cap).end <= |buf|
    decreases |buf| - cursor
  {
  }

  /** What a step that advances leaves behind: `next` bytes read, and all of them kept. */
  predicate Advances(r: StepResult, buf: Bytes) {
    && (!r.NeedMore? ==> 0 < r.next <= |buf|)
    && (r.Emit? ==> r.token.Raw() == buf[..r.next] && r.token.Dropped() == 0)
    && (r.EnterString? ==>
          && r.str.Valid() && !r.str.escHeld && r.str.dropped == 0
          && r.str.retained == buf[..r.next])
    && (r.EnterPaste? ==>
          r.paste.Valid() && r.paste.pendingMatch == [] && r.paste.retained == buf[..r.next])
  }

  lemma StepCsiAdvances(buf: Bytes, intro: nat, cap: nat)
    requires 0 < intro <= |buf|
    ensures Advances(StepCsi(buf, intro, cap), buf)
  {
  }

  lemma StepStringAdvances(buf: Bytes, kind: StringKind, intro: nat, cap: nat)
    requires 0 < intro <= |buf|
    ensures Advances(StepString(buf, kind, intro, cap), buf)
  {
  }

  lemma StepPlainEscapeAdvances(buf: Bytes, cap: nat)
    requires |buf| > 0
    ensures Advances(StepPlainEscape(buf, cap), buf)
  {
  }

  lemma StepEscapeAdvances(buf: Bytes, cap: nat)
    requires |buf| > 0 && buf[0] == ESC
    ensures Advances(StepEscape(buf, cap), buf)
  {
    if |buf| > 1 {
      StepCsiAdvances(buf, 2, cap);
      StepPlainEscapeAdvances(buf, cap);
      forall kind { StepStringAdvances(buf, kind, 2, cap); }
      assert buf[..2] == [ESC, buf[1]];
    }
  }

  lemma StepInRange(buf: Bytes, cap: nat, textCap: nat)
    requires |buf| > 0
    ensures Advances(StepWith(buf, cap, textCap), buf)
  {
    assert buf[..1] == [buf[0]];
    if buf[0] == ESC {
      StepEscapeAdvances(buf, cap);
    } else if buf[0] == C1_CSI {
      StepCsiAdvances(buf, 1, cap);
    } else if IsC1Introducer(buf[0]) {
      forall kind { StepStringAdvances(buf, kind, 1, cap); }
    } else if !IsTextBoundary(buf[0]) {
      ScanTextInRange(buf, 0, textCap);
    }
  }
}
