/** The tokenizer as `src/syntax.rs` writes it: scanners over an index, accumulators updated in
    place, and a parser that keeps its state between reads. Every method is proved against the
    functions of `Grammar`. */
module SyntaxParsing {
  import opened Bytes
  import opened Tokens
  import opened Grammar
  import opened PayloadScan

  class StringAccum {
    const kind: StringKind
    var retained: Bytes
    const introducerLen: nat
    const payloadStart: nat
    var dropped: nat
    var escHeld: bool
    const controlParams: Option<ControlParams>

    function View(): StringState
      reads this
    {
      StringState(kind, retained, introducerLen, payloadStart, dropped, escHeld, controlParams)
    }

    constructor (kind: StringKind, retained: Bytes, introducerLen: nat, payloadStart: nat,
                 controlParams: Option<ControlParams>)
      ensures View() == StringState(kind, retained, introducerLen, payloadStart, 0, false, controlParams)
    {
      this.kind := kind;
      this.retained := retained;
      this.introducerLen := introducerLen;
      this.payloadStart := payloadStart;
      this.dropped := 0;
      this.escHeld := false;
      this.controlParams := controlParams;
    }

    method PushPayloadByte(b: Byte, limit: nat)
      requires View().Valid()
      modifies this
      ensures View() == PushPayload(old(View()), b, limit)
    {
      if |retained| - introducerLen < limit {
        retained := retained + [b];
      } else {
        dropped := dropped + 1;
      }
    }

    /** Builds the string's token and empties the accumulator. */
    method EmitStringToken(terminator: Terminator) returns (token: Token)
      requires View().Valid()
      modifies this
      ensures token == StringToken(old(View()), terminator)
    {
      var payload := retained[payloadStart..];
      var raw := retained + terminator.Raw();
      retained := [];
      token := Str(StringSequence(kind, raw, payload, dropped, terminator, controlParams));
    }
  }

  lemma ShiftHere(candidate: Bytes, from: nat)
    requires from <= |candidate|
    ensures Shift(candidate, from) ==
      if IsPasteEndPrefix(candidate[from..]) then from else Shift(candidate, from + 1)
    ensures from == |candidate| ==> IsPasteEndPrefix(candidate[from..])
  {
  }

  class PasteAccum {
    var retained: Bytes
    var payloadStart: nat
    var isFirst: bool
    var pendingMatch: Bytes

    function View(): PasteState
      reads this
    {
      PasteState(retained, payloadStart, isFirst, pendingMatch)
    }

    constructor (startBracket: Bytes)
      ensures View() == PasteState(startBracket, |startBracket|, true, [])
    {
      retained := startBracket;
      payloadStart := |startBracket|;
      isFirst := true;
      pendingMatch := [];
    }

    function SegmentPayloadLen(): nat
      requires View().Valid()
      reads this
    {
      |retained| - payloadStart
    }

    /** The shift-and-retest step after `b` broke the held end-bracket candidate. */
    method AdvanceAfterBreak(b: Byte)
      requires !IsPasteEndPrefix(pendingMatch + [b])
      modifies this
      ensures View() == Advance(old(View()), b)
    {
      hide IsPasteEndPrefix, Shift;
      var candidate := pendingMatch + [b];
      pendingMatch := [];
      var start := 1;
      while true
        invariant 1 <= start <= |candidate|
        invariant retained == old(retained) + candidate[..start - 1]
        invariant payloadStart == old(payloadStart) && isFirst == old(isFirst)
        invariant Shift(candidate, start) == Shift(candidate, 1)
        decreases |candidate| - start
      {
        retained := retained + [candidate[start - 1]];
        assert candidate[..start - 1] + [candidate[start - 1]] == candidate[..start];
        ShiftHere(candidate, start);
        var suffix := candidate[start..];
        if IsPasteEndPrefix(suffix) {
          pendingMatch := suffix;
          return;
        }
        if start == |candidate| {
          assert false;
        }
        start := start + 1;
      }
    }

    /** A byte that does not end the paste: held with the candidate, or the candidate is broken. */
    method HoldOrAdvance(b: Byte)
      modifies this
      ensures View() == Advance(old(View()), b)
    {
      hide Shift;
      var candidate := pendingMatch + [b];
      if IsPasteEndPrefix(candidate) {
        pendingMatch := candidate;
      } else {
        AdvanceAfterBreak(b);
      }
    }

    /** A segment, once the payload has reached the limit. */
    method EmitIfFull(limit: nat) returns (tokens: seq<Token>)
      requires View().Valid()
      modifies this
      ensures var was := old(View());
        if |was.retained| - was.payloadStart >= limit then tokens == [SegmentToken(was)] && View() == AfterSegment(was)
        else tokens == [] && View() == was
    {
      hide SegmentToken;
      tokens := [];
      if SegmentPayloadLen() >= limit {
        var token := EmitSegment();
        tokens := [token];
      }
    }

    method FlushPendingMatch()
      modifies this
      ensures View() == old(View()).(retained := old(retained + pendingMatch), pendingMatch := [])
    {
      var held := pendingMatch;
      pendingMatch := [];
      for i := 0 to |held|
        invariant retained == old(retained) + held[..i]
        invariant pendingMatch == [] && payloadStart == old(payloadStart) && isFirst == old(isFirst)
      {
        retained := retained + [held[i]];
        assert held[..i] + [held[i]] == held[..i + 1];
      }
      assert held[..|held|] == held;
    }

    method EmitSegment() returns (token: Token)
      requires View().Valid()
      modifies this
      ensures token == SegmentToken(old(View()))
      ensures View() == AfterSegment(old(View()))
    {
      token := Paste(PasteSequence(retained, retained[payloadStart..], isFirst, false, false));
      retained := [];
      isFirst := false;
      payloadStart := 0;
    }

    method IntoFinalToken(terminated: bool) returns (token: Token)
      requires View().Valid()
      modifies this
      ensures token == FinalToken(old(View()), terminated)
    {
      var payload := retained[payloadStart..];
      if terminated {
        retained := retained + pendingMatch;
      } else {
        assert retained + [] == retained;
      }
      token := Paste(PasteSequence(retained, payload, isFirst, true, terminated));
    }
  }

  // ----- Scanners -----

  method SkipClass(c: Class, bytes: Bytes, start: nat) returns (index: nat)
    requires start <= |bytes|
    ensures index == start + SpanLen(c, bytes[start..])
  {
    index := start;
    while index < |bytes| && InClass(c, bytes[index])
      invariant start <= index <= |bytes|
      invariant SpanLen(c, bytes[start..]) == index - start + SpanLen(c, bytes[index..])
    {
      assert bytes[index..][1..] == bytes[index + 1..];
      index := index + 1;
    }
  }

  function ShiftPrefix(p: Prefix, n: nat): Prefix {
    match p
    case Complete(params, end) => Complete(params, n + end)
    case Hungry => Hungry
    case Aborted(end) => Aborted(n + end)
    case Overflow(end) => Overflow(n + end)
  }

  lemma PrefixMarksAt(bytes: Bytes, start: nat, p: nat, i: nat, n: nat)
    requires start <= |bytes|
    requires p == start + SpanLen(PrivateMarker, bytes[start..])
    requires i == p + SpanLen(ParamByte, bytes[p..])
    requires n == i + SpanLen(Intermediate, bytes[i..])
    ensures PrefixMarks(bytes[start..]) == Marks(p - start, i - start, n - start)
  {
    hide SpanLen;
    var rest := bytes[start..];
    assert rest[p - start..] == bytes[p..];
    assert rest[i - start..] == bytes[i..];
  }

  /** `ScanPrefix` of a suffix, in positions of the whole buffer. */
  lemma ScanPrefixAt(bytes: Bytes, start: nat, p: nat, i: nat, n: nat, cap: nat)
    requires start <= |bytes|
    requires p == start + SpanLen(PrivateMarker, bytes[start..])
    requires i == p + SpanLen(ParamByte, bytes[p..])
    requires n == i + SpanLen(Intermediate, bytes[i..])
    ensures ShiftPrefix(ScanPrefix(bytes[start..], cap), start) ==
      if n - start > cap then Overflow(start + cap)
      else if n == |bytes| then Hungry
      else if IsFinalByte(bytes[n]) then
        Complete(ControlParams(bytes[start..p], bytes[p..i], bytes[i..n], bytes[n]), n + 1)
      else if IsAbort(bytes[n]) then Aborted(n + 1)
      else Aborted(n)
  {
    hide SpanLen, PrefixMarks, InClass;
    var rest := bytes[start..];
    PrefixMarksAt(bytes, start, p, i, n);
    assert rest[..p - start] == bytes[start..p];
    assert rest[p - start..i - start] == bytes[p..i];
    assert rest[i - start..n - start] == bytes[i..n];
    if n < |bytes| { assert rest[n - start] == bytes[n]; }
  }

  method ScanControlPrefix(bytes: Bytes, start: nat, cap: nat) returns (r: Prefix)
    requires start <= |bytes|
    ensures r == ShiftPrefix(ScanPrefix(bytes[start..], cap), start)
  {
    var paramStart := SkipClass(PrivateMarker, bytes, start);
    var privateMarkers := bytes[start..paramStart];
    var intermediateStart := SkipClass(ParamByte, bytes, paramStart);
    var paramBytes := bytes[paramStart..intermediateStart];
    var index := SkipClass(Intermediate, bytes, intermediateStart);
    var intermediates := bytes[intermediateStart..index];
    ScanPrefixAt(bytes, start, paramStart, intermediateStart, index, cap);
    if index - start > cap {
      r := Overflow(start + cap);
    } else if index == |bytes| {
      r := Hungry;
    } else if IsFinalByte(bytes[index]) {
      r := Complete(
        ControlParams(privateMarkers, paramBytes, intermediates, bytes[index]), index + 1);
    } else if IsAbort(bytes[index]) {
      r := Aborted(index + 1);
    } else {
      r := Aborted(index);
    }
  }

  // A step's result with positions in the whole buffer and accumulators as objects.
  datatype StepOut =
    | OutEmit(token: Token, next: nat)
    | OutNeedMore
    | OutEnterString(str: StringAccum, next: nat)
    | OutEnterPaste(paste: PasteAccum, next: nat)
  {
    ghost predicate Realizes(r: StepResult, index: nat)
      reads if OutEnterString? then {str} else {}, if OutEnterPaste? then {paste} else {}
    {
      match r
      case Emit(token, next) => this == OutEmit(token, index + next)
      case NeedMore => this == OutNeedMore
      case EnterString(a, next) => OutEnterString? && this.next == index + next && str.View() == a
      case EnterPaste(a, next) => OutEnterPaste? && this.next == index + next && paste.View() == a
    }

    ghost function Objects(): set<object> {
      match this
      case OutEnterString(a, _) => {a}
      case OutEnterPaste(a, _) => {a}
      case _ => {}
    }
  }

  method ParseCsi(bytes: Bytes, start: nat, prefixLen: nat, cap: nat) returns (r: StepOut)
    requires start + prefixLen <= |bytes|
    ensures r.Realizes(StepCsi(bytes[start..], prefixLen, cap), start)
    ensures fresh(r.Objects())
  {
    hide ScanPrefix;
    ghost var rest := bytes[start..];
    assert rest[prefixLen..] == bytes[start + prefixLen..];
    var prefix := ScanControlPrefix(bytes, start + prefixLen, cap);
    match prefix
    case Hungry => r := OutNeedMore;
    case Aborted(end) =>
      assert rest[..end - start] == bytes[start..end];
      r := OutEmit(Malformed(bytes[start..end]), end);
    case Overflow(end) =>
      assert rest[..end - start] == bytes[start..end];
      r := OutEmit(Malformed(bytes[start..end]), end);
    case Complete(params, end) =>
      assert rest[..end - start] == bytes[start..end];
      if IsPasteStart(params) {
        var accum := new PasteAccum(bytes[start..end]);
        r := OutEnterPaste(accum, end);
      } else {
        r := OutEmit(Csi(ControlSequence(bytes[start..end], params)), end);
      }
  }

  method ParseString(bytes: Bytes, start: nat, kind: StringKind, prefixLen: nat, cap: nat)
    returns (r: StepOut)
    requires start + prefixLen <= |bytes|
    ensures r.Realizes(StepString(bytes[start..], kind, prefixLen, cap), start)
    ensures fresh(r.Objects())
  {
    hide ScanPrefix;
    ghost var rest := bytes[start..];
    var cursor := start + prefixLen;
    assert rest[prefixLen..] == bytes[cursor..];
    var controlParams: Option<ControlParams> := None;
    if kind == KindDcs {
      var prefix := ScanControlPrefix(bytes, cursor, cap);
      match prefix
      case Hungry => return OutNeedMore;
      case Aborted(end) =>
        assert rest[..end - start] == bytes[start..end];
        return OutEmit(Malformed(bytes[start..end]), end);
      case Overflow(end) =>
        assert rest[..end - start] == bytes[start..end];
        return OutEmit(Malformed(bytes[start..end]), end);
      case Complete(params, end) =>
        cursor := end;
        controlParams := Some(params);
    }
    assert rest[..cursor - start] == bytes[start..cursor];
    var accum := new StringAccum(kind, bytes[start..cursor], prefixLen, cursor - start, controlParams);
    r := OutEnterString(accum, cursor);
  }

  /** What a scan of `bytes` from `index` says of the step there. */
  function TextOut(bytes: Bytes, index: nat, scan: TextScan): StepOut
    requires index <= |bytes| && (!scan.Starved? ==> index + scan.end <= |bytes|)
  {
    match scan
    case Starved => OutNeedMore
    case Cut(end) => OutEmit(Text(bytes[index..index + end]), index + end)
    case Bad(end) => OutEmit(Malformed(bytes[index..index + end]), index + end)
  }

  lemma TextOutRealizes(bytes: Bytes, index: nat, cap: nat)
    requires index < |bytes| && !IsTextBoundary(bytes[index])
    ensures var scan := ScanText(bytes[index..], 0, cap);
      && (!scan.Starved? ==> index + scan.end <= |bytes|)
      && TextOut(bytes, index, scan).Realizes(StepText(bytes[index..], cap), index)
      && TextOut(bytes, index, scan).Objects() == {}
  {
    hide ScanText;
    var rest := bytes[index..];
    ScanTextInRange(rest, 0, cap);
    var scan := ScanText(rest, 0, cap);
    if !scan.Starved? { assert rest[..scan.end] == bytes[index..index + scan.end]; }
  }

  /** One turn of the scan, in positions of the whole buffer. */
  lemma ScanTextAt(bytes: Bytes, index: nat, cursor: nat, cap: nat)
    requires index <= cursor < |bytes|
    ensures ScanText(bytes[index..], cursor - index, cap) ==
      if IsTextBoundary(bytes[cursor]) then Cut(cursor - index)
      else match Utf8Width(bytes[cursor])
        case None => if cursor > index then Cut(cursor - index) else Bad(1)
        case Some(w) =>
          if cursor + w > |bytes| then Starved
          else if !IsChar(bytes[cursor..cursor + w]) then
            if cursor > index then Cut(cursor - index) else Bad(w)
          else if cursor + w - index >= cap then Cut(cursor + w - index)
          else ScanText(bytes[index..], cursor + w - index, cap)
  {
    hide IsChar;
    var rest := bytes[index..];
    assert rest[cursor - index] == bytes[cursor];
    var w := Utf8Width(bytes[cursor]);
    if w.Some? && cursor + w.value <= |bytes| {
      assert rest[cursor - index..cursor + w.value - index] == bytes[cursor..cursor + w.value];
    }
  }

  method ParseText(bytes: Bytes, index: nat, cap: nat) returns (r: StepOut)
    requires index < |bytes| && !IsTextBoundary(bytes[index])
    ensures r.Realizes(StepText(bytes[index..], cap), index)
    ensures r.Objects() == {}
  {
    hide ScanText, IsChar, StepText;
    ghost var rest := bytes[index..];
    TextOutRealizes(bytes, index, cap);
    var cursor := index;
    while cursor < |bytes|
      invariant index <= cursor <= |bytes|
      invariant ScanText(rest, cursor - index, cap) == ScanText(rest, 0, cap)
    {
      ScanTextAt(bytes, index, cursor, cap);
      var b := bytes[cursor];
      if IsTextBoundary(b) {
        return OutEmit(Text(bytes[index..cursor]), cursor);
      }
      var width := Utf8Width(b);
      if width.None? {
        if cursor > index {
          return OutEmit(Text(bytes[index..cursor]), cursor);
        }
        assert bytes[index..index + 1] == [b];
        return OutEmit(Malformed([b]), cursor + 1);
      }
      var charEnd := cursor + width.value;
      if charEnd > |bytes| {
        return OutNeedMore;
      }
      if !IsChar(bytes[cursor..charEnd]) {
        if cursor > index {
          return OutEmit(Text(bytes[index..cursor]), cursor);
        }
        return OutEmit(Malformed(bytes[cursor..charEnd]), charEnd);
      }
      cursor := charEnd;
      if cursor - index >= cap {
        return OutEmit(Text(bytes[index..cursor]), cursor);
      }
    }
    ScanTextStarves(rest, cap);
    r := OutNeedMore;
  }

  lemma ScanTextStarves(rest: Bytes, cap: nat)
    ensures ScanText(rest, |rest|, cap) == Starved
  {
  }

  method ParsePlainEscape(bytes: Bytes, start: nat, cap: nat) returns (r: StepOut)
    requires start < |bytes|
    ensures r.Realizes(StepPlainEscape(bytes[start..], cap), start)
    ensures r.Objects() == {}
  {
    ghost var rest := bytes[start..];
    assert rest[1..] == bytes[start + 1..];
    var intermediateStart := start + 1;
    var index := SkipClass(Intermediate, bytes, intermediateStart);
    if index - intermediateStart > cap {
      var end := intermediateStart + cap;
      assert rest[..end - start] == bytes[start..end];
      return OutEmit(Malformed(bytes[start..end]), end);
    }
    var intermediates := bytes[intermediateStart..index];
    assert rest[1..index - start] == intermediates;
    if index == |bytes| {
      return OutNeedMore;
    }
    var b := bytes[index];
    assert rest[index - start] == b;
    assert rest[..index - start] == bytes[start..index];
    assert rest[..index + 1 - start] == bytes[start..index + 1];
    if IsEscapeFinalByte(b) {
      r := OutEmit(Esc(bytes[start..index + 1], intermediates, Some(b)), index + 1);
    } else if IsAbort(b) {
      r := OutEmit(Malformed(bytes[start..index + 1]), index + 1);
    } else {
      r := OutEmit(Malformed(bytes[start..index]), index);
    }
  }

  method ParseEscape(bytes: Bytes, index: nat, cap: nat) returns (r: StepOut)
    requires index < |bytes|
    ensures r.Realizes(StepEscape(bytes[index..], cap), index)
    ensures fresh(r.Objects())
  {
    if index + 1 == |bytes| {
      return OutNeedMore;
    }
    var second := bytes[index + 1];
    if second == 0x5b { r := ParseCsi(bytes, index, 2, cap); }
    else if second == 0x50 { r := ParseString(bytes, index, KindDcs, 2, cap); }
    else if second == 0x5d { r := ParseString(bytes, index, KindOsc, 2, cap); }
    else if second == 0x5f { r := ParseString(bytes, index, KindApc, 2, cap); }
    else if second == 0x5e { r := ParseString(bytes, index, KindPm, 2, cap); }
    else if second == 0x58 { r := ParseString(bytes, index, KindSos, 2, cap); }
    else if IsAbort(second) { r := OutEmit(Malformed([ESC, second]), index + 2); }
    else { r := ParsePlainEscape(bytes, index, cap); }
  }

  method StepAt(bytes: Bytes, index: nat, cap: nat) returns (r: StepOut)
    requires index < |bytes|
    ensures r.Realizes(Step(bytes[index..], cap), index)
    ensures fresh(r.Objects())
  {
    var b := bytes[index];
    if b == ESC { r := ParseEscape(bytes, index, cap); }
    else if b == C1_CSI { r := ParseCsi(bytes, index, 1, cap); }
    else if b == 0x90 { r := ParseString(bytes, index, KindDcs, 1, cap); }
    else if b == 0x9d { r := ParseString(bytes, index, KindOsc, 1, cap); }
    else if b == 0x9f { r := ParseString(bytes, index, KindApc, 1, cap); }
    else if b == 0x9e { r := ParseString(bytes, index, KindPm, 1, cap); }
    else if b == 0x98 { r := ParseString(bytes, index, KindSos, 1, cap); }
    else if IsAbort(b) { r := OutEmit(Malformed([b]), index + 1); }
    else if IsControl(b) { r := OutEmit(Control(b), index + 1); }
    else if b == C1_ST { r := OutEmit(Malformed([b]), index + 1); }
    else { r := ParseText(bytes, index, cap); }
  }

  // ----- Consuming string and paste payload -----

  datatype StringOutcome = Exhausted | Done(next: nat) | DoneWithHeldEsc(next: nat)

  /** What an outcome says about `scan`, a scan of `bytes[start..]`. A held ESC can only come back
      for re-reading when it was held on entry. */
  ghost predicate StringOutcomeIs(outcome: StringOutcome, scan: StringEnd, bytes: Bytes, start: nat,
                                  heldOnEntry: bool)
    requires start <= |bytes|
  {
    match outcome
    case Exhausted => scan.StillOpen?
    case Done(next) =>
      && scan.Closed? && start <= next <= |bytes| && start + scan.read <= |bytes|
      && bytes[next..] == scan.reread + bytes[start + scan.read..]
    case DoneWithHeldEsc(next) =>
      && heldOnEntry
      && scan.Closed? && start <= next <= |bytes| && start + scan.read <= |bytes|
      && [ESC] + bytes[next..] == scan.reread + bytes[start + scan.read..]
  }

  /** The ways the bytes of a scan closed at `index` come back to be read again. */
  lemma ClosedAt(scan: StringEnd, reread: Bytes, bytes: Bytes, start: nat, index: nat, held: bool)
    requires start <= index < |bytes|
    requires scan.Closed? && scan.reread == reread && scan.read == index - start + 1
    ensures reread == [] ==> StringOutcomeIs(Done(index + 1), scan, bytes, start, held)
    ensures reread == [bytes[index]] ==> StringOutcomeIs(Done(index), scan, bytes, start, held)
    ensures reread == [ESC, bytes[index]] && start < index && bytes[index - 1] == ESC ==>
              StringOutcomeIs(Done(index - 1), scan, bytes, start, held)
    ensures reread == [ESC, bytes[index]] && held ==>
              StringOutcomeIs(DoneWithHeldEsc(index), scan, bytes, start, held)
  {
    var rest := bytes[index + 1..];
    assert bytes[index..] == [bytes[index]] + rest;
    assert [ESC] + bytes[index..] == [ESC, bytes[index]] + rest;
    assert start < index && bytes[index - 1] == ESC ==>
             bytes[index - 1..] == [ESC, bytes[index]] + rest;
    assert rest == [] + rest;
  }

  lemma StillOpenIsExhausted(scan: StringEnd, bytes: Bytes, start: nat, held: bool)
    requires scan.StillOpen? && start <= |bytes|
    ensures StringOutcomeIs(Exhausted, scan, bytes, start, held)
  {
  }

  /** Closes a string whose held ESC is followed by `b`. `whole` says both bytes are in the token or
      its terminator; otherwise both are read again. */
  method CloseHeld(accum: StringAccum, b: Byte, limit: nat, ghost view: StringState)
    returns (token: Token, whole: bool)
    requires view == accum.View().(escHeld := true) && view.Valid()
    modifies accum
    ensures StepInString(view, b, limit) == Close(token, if whole then [] else [ESC, b])
  {
    HeldEscIsNotShown(view);
    if b == 0x5c {
      token := accum.EmitStringToken(EscBackslash);
      whole := true;
    } else if IsAbort(b) && accum.dropped == 0 {
      token := Malformed(accum.retained + [ESC, b]);
      whole := true;
    } else if accum.dropped == 0 {
      token := Malformed(accum.retained);
      whole := false;
    } else {
      token := accum.EmitStringToken(Unterminated);
      whole := false;
    }
  }

  // What one byte does while no ESC is held: closes the string, with the byte or before it, starts a
  // possible terminator, or is payload.
  datatype Unheld = Ended(token: Token, whole: bool) | EscSeen | Kept

  method TakeUnheld(accum: StringAccum, b: Byte, limit: nat) returns (r: Unheld)
    requires accum.View().Valid() && !accum.escHeld
    modifies accum
    ensures match StepInString(old(accum.View()), b, limit)
      case Close(token, reread) => r.Ended? && r.token == token && reread == if r.whole then [] else [b]
      case Stay(a) => !r.Ended? && accum.View() == a.(escHeld := false) && (r.EscSeen? <==> a.escHeld)
    ensures r.EscSeen? ==> b == ESC
    ensures !r.Ended? ==> accum.View().Valid()
  {
    if b == BEL && accum.kind == KindOsc {
      var token := accum.EmitStringToken(Bel);
      r := Ended(token, true);
    } else if b == C1_ST {
      var token := accum.EmitStringToken(C1);
      r := Ended(token, true);
    } else if b == ESC {
      r := EscSeen;
    } else if IsAbort(b) && accum.dropped == 0 {
      r := Ended(Malformed(accum.retained + [b]), true);
    } else if IsAbort(b) {
      var token := accum.EmitStringToken(Unterminated);
      r := Ended(token, false);
    } else {
      accum.PushPayloadByte(b, limit);
      r := Kept;
    }
  }

  lemma HeldEscIsNotShown(a: StringState)
    requires a.Valid()
    ensures forall t: Terminator :: StringToken(a.(escHeld := false), t) == StringToken(a, t)
  {
  }

  method ConsumeString(accum: StringAccum, bytes: Bytes, start: nat, limit: nat)
    returns (outcome: StringOutcome, tokens: seq<Token>)
    requires accum.View().Valid() && start <= |bytes|
    modifies accum
    ensures var scan := StringScan(old(accum.View()), bytes[start..], limit);
      && StringOutcomeIs(outcome, scan, bytes, start, old(accum.escHeld))
      && (scan.StillOpen? ==> accum.View() == scan.str && tokens == [])
      && (scan.Closed? ==> tokens == [scan.token])
  {
    hide StringScan, StepInString, StringOutcomeIs;
    tokens := [];
    var escHeld := accum.escHeld;
    var escPos: Option<nat> := None;
    accum.escHeld := false;
    ghost var scan := StringScan(old(accum.View()), bytes[start..], limit);
    var index := start;
    while index < |bytes|
      invariant start <= index <= |bytes|
      invariant !accum.escHeld && accum.View().Valid() && tokens == []
      invariant escHeld && escPos.None? ==> index == start && old(accum.escHeld)
      invariant escHeld && escPos.Some? ==>
                  start < index && escPos.value == index - 1 && bytes[index - 1] == ESC
      invariant scan == Later(
                  StringScan(accum.View().(escHeld := escHeld), bytes[index..], limit), index - start)
    {
      ghost var view := accum.View().(escHeld := escHeld);
      var b := bytes[index];
      StringScanAt(view, bytes, index, limit);
      if scan.Closed? && scan.read == index - start + 1 {
        ClosedAt(scan, scan.reread, bytes, start, index, old(accum.escHeld));
      }
      if escHeld {
        var token, whole := CloseHeld(accum, b, limit, view);
        if whole {
          return Done(index + 1), [token];
        }
        tokens := [token];
        match escPos
        case Some(position) => return Done(position), tokens;
        case None => return DoneWithHeldEsc(index), tokens;
      }

      var plain := TakeUnheld(accum, b, limit);
      match plain {
        case Ended(token, whole) =>
          return Done(if whole then index + 1 else index), [token];
        case EscSeen =>
          escHeld := true;
          escPos := Some(index);
        case Kept =>
      }
      index := index + 1;
    }
    accum.escHeld := escHeld;
    assert bytes[index..] == [];
    StringScanNothing(accum.View(), limit);
    StillOpenIsExhausted(scan, bytes, start, old(accum.escHeld));
    outcome := Exhausted;
  }

  datatype PasteOutcome = PasteExhausted | PasteDone(next: nat)

  method ConsumePaste(accum: PasteAccum, bytes: Bytes, start: nat, limit: nat)
    returns (outcome: PasteOutcome, tokens: seq<Token>)
    requires accum.View().Valid() && start <= |bytes|
    modifies accum
    ensures match PasteScan(old(accum.View()), bytes[start..], limit)
      case PasteOpen(ts, a) => outcome == PasteExhausted && tokens == ts && accum.View() == a
      case PasteClosed(ts, read) => outcome == PasteDone(start + read) && tokens == ts
  {
    hide PasteScan, SegmentToken, FinalToken, IsPasteEnd, Advance;
    tokens := [];
    ghost var scan := PasteScan(accum.View(), bytes[start..], limit);
    var index := start;
    while index < |bytes|
      invariant start <= index <= |bytes|
      invariant accum.View().Valid()
      invariant scan == PasteLater(tokens, PasteScan(accum.View(), bytes[index..], limit), index - start)
    {
      ghost var view := accum.View();
      ghost var before := tokens;
      var b := bytes[index];
      PasteScanAt(view, bytes, index, limit);
      var candidate := accum.pendingMatch + [b];
      if IsPasteEnd(candidate) {
        accum.pendingMatch := candidate;
        var token := accum.IntoFinalToken(true);
        return PasteDone(index + 1), tokens + [token];
      }
      accum.HoldOrAdvance(b);
      var segment := accum.EmitIfFull(limit);
      tokens := tokens + segment;
      index := index + 1;
      ghost var later := PasteScan(accum.View(), bytes[index..], limit);
      PasteLaterTwice(before, segment, later, index - 1 - start);
    }
    assert bytes[index..] == [];
    PasteScanNothing(accum.View(), limit);
    assert tokens + [] == tokens;
    outcome := PasteExhausted;
  }

  lemma PasteLaterTwice(a: seq<Token>, b: seq<Token>, r: PasteEnd, n: nat)
    ensures PasteLater(a, PasteLater(b, r, 1), n) == PasteLater(a + b, r, n + 1)
  {
    assert a + (b + r.tokens) == (a + b) + r.tokens;
  }

  // ----- The parser -----

  datatype State =
    | StateGround
    | StatePartial(pending: Bytes)
    | StateInString(str: StringAccum)
    | StateInPaste(paste: PasteAccum)

  class SyntaxParser {
    var state: State
    const payloadLimit: nat

    /** The accumulator the parser owns between reads, if it is inside a string or a paste. */
    ghost function Owned(): set<object>
      reads this
    {
      match state
      case StateInString(a) => {a}
      case StateInPaste(a) => {a}
      case _ => {}
    }

    ghost function View(): ParserState
      reads this, Owned()
    {
      match state
      case StateGround => Ground
      case StatePartial(p) => Partial(p)
      case StateInString(a) => InString(a.View())
      case StateInPaste(a) => InPaste(a.View())
    }

    ghost predicate Valid()
      reads this, Owned()
    {
      View().Valid()
    }

    constructor (payloadLimit: nat)
      ensures Valid() && View() == Ground && Owned() == {}
      ensures this.payloadLimit == payloadLimit
    {
      this.state := StateGround;
      this.payloadLimit := payloadLimit;
    }

    method GetPendingBytes() returns (pending: Bytes)
      requires Valid()
      ensures pending == View().PendingBytes()
    {
      match state
      case StateGround => pending := [];
      case StatePartial(p) => pending := p;
      case StateInString(a) => pending := a.retained;
      case StateInPaste(a) => pending := a.retained;
    }

    /** Steps through `buffer` from the ground state, adding to the tokens `already` complete. */
    method StepAll(buffer: Bytes, already: seq<Token>) returns (tokens: seq<Token>)
      requires state == StateGround
      modifies this
      ensures Valid() && fresh(Owned())
      ensures Outcome(View(), tokens) == Prepend(already, Run(buffer, payloadLimit))
    {
      hide RunWith, StepWith, StringRunWith, PasteRunWith, StringScan, PasteScan;
      tokens := already;
      var index := 0;
      assert buffer[0..] == buffer;
      while index < |buffer|
        invariant index <= |buffer|
        invariant state == StateGround
        invariant Prepend(already, Run(buffer, payloadLimit)) == Prepend(tokens, Run(buffer[index..], payloadLimit))
      {
        ghost var before := tokens;
        RunAt(buffer, index, payloadLimit);
        var step := StepAt(buffer, index, payloadLimit);
        match step {
          case OutEmit(token, next) =>
            PrependTwice(before, [token], Run(buffer[next..], payloadLimit));
            tokens := tokens + [token];
            index := next;
          case OutNeedMore =>
            state := StatePartial(buffer[index..]);
            assert tokens + [] == tokens;
            return;
          case OutEnterString(accum, next) =>
            var outcome, more := ConsumeString(accum, buffer, next, payloadLimit);
            tokens := tokens + more;
            match outcome {
              case Exhausted =>
                state := StateInString(accum);
                return;
              case Done(after) =>
                PrependTwice(before, more, Run(buffer[after..], payloadLimit));
                index := after;
              case DoneWithHeldEsc(after) => assert false;
            }
          case OutEnterPaste(accum, next) =>
            var outcome, more := ConsumePaste(accum, buffer, next, payloadLimit);
            tokens := tokens + more;
            match outcome {
              case PasteExhausted =>
                state := StateInPaste(accum);
                return;
              case PasteDone(after) =>
                assert buffer[next..][after - next..] == buffer[after..];
                PrependTwice(before, more, Run(buffer[after..], payloadLimit));
                index := after;
            }
        }
      }
      assert buffer[index..] == [];
      RunNothing(payloadLimit);
      assert tokens + [] == tokens;
    }

    /** Feeds one chunk; the tokens and the new state are those of `Grammar.Feed`. */
    method FeedChunk(bytes: Bytes) returns (tokens: seq<Token>)
      requires Valid()
      modifies this, Owned()
      ensures Valid() && fresh(Owned() - old(Owned()))
      ensures Outcome(View(), tokens) == Feed(old(View()), bytes, payloadLimit)
    {
      hide RunWith, StepWith, StringRunWith, PasteRunWith, StringScan, PasteScan;
      tokens := [];
      var buffer := bytes;
      var taken := state;
      state := StateGround;
      match taken {
        case StateGround =>
        case StatePartial(pending) => buffer := pending + bytes;
        case StateInString(accum) =>
          ghost var view := accum.View();
          StringRunIsScan(view, bytes, payloadLimit, payloadLimit);
          assert bytes[0..] == bytes;
          var outcome;
          outcome, tokens := ConsumeString(accum, bytes, 0, payloadLimit);
          match outcome {
            case Exhausted =>
              state := StateInString(accum);
              return;
            case Done(next) => buffer := bytes[next..];
            case DoneWithHeldEsc(next) => buffer := [ESC] + bytes[next..];
          }
        case StateInPaste(accum) =>
          PasteRunIsScan(accum.View(), bytes, payloadLimit, payloadLimit);
          assert bytes[0..] == bytes;
          var outcome;
          outcome, tokens := ConsumePaste(accum, bytes, 0, payloadLimit);
          match outcome {
            case PasteExhausted =>
              state := StateInPaste(accum);
              return;
            case PasteDone(next) => buffer := bytes[next..];
          }
      }

      tokens := StepAll(buffer, tokens);
    }

    /** Flushes what is pending as its honest token. */
    method Finish() returns (tokens: seq<Token>)
      requires Valid()
      modifies this, Owned()
      ensures Valid() && View() == Ground && Owned() == {}
      ensures tokens == FinishTokens(old(View()), payloadLimit)
    {
      tokens := [];
      var taken := state;
      state := StateGround;
      match taken
      case StateGround =>
      case StatePartial(pending) => tokens := [FinishPending(pending)];
      case StateInString(accum) =>
        if accum.escHeld {
          accum.PushPayloadByte(ESC, payloadLimit);
        }
        var token := accum.EmitStringToken(Unterminated);
        tokens := [token];
      case StateInPaste(accum) =>
        accum.FlushPendingMatch();
        var token := accum.IntoFinalToken(false);
        tokens := [token];
    }
  }

  lemma PrependTwice(a: seq<Token>, b: seq<Token>, o: Outcome)
    ensures Prepend(a, Prepend(b, o)) == Prepend(a + b, o)
  {
    assert a + (b + o.tokens) == (a + b) + o.tokens;
  }
}
