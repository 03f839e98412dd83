/** Feeding a single byte: what a byte that completes a token can leave behind. */
module OneByte {
  import opened Bytes
  import opened Tokens
  import opened Grammar
  import opened PayloadScan
  import opened SplitEquivalence
  import opened Bounds
  import opened Decoder

  /** A control sequence or a string: what a query can match. */
  predicate IsSequence(t: Token) { t.Csi? || t.Str? }

  /** A control sequence, or a string that has lost nothing or that a terminator closed. */
  predicate IsComplete(t: Token) {
    t.Csi? || (t.Str? && (t.body.dropped == 0 || t.body.terminator != Unterminated))
  }

  /** Everything read and not emitted is in the pending bytes: no drops, no held ESC, no candidate. */
  predicate IsPlainlyHeld(s: ParserState) {
    match s
    case Ground => true
    case Partial(_) => true
    case InString(a) => a.dropped == 0 && !a.escHeld
    case InPaste(p) => false
  }

  /** What is true of a run over the few bytes a completing byte leaves to read. */
  predicate IsShortTail(o: Outcome) {
    IsPlainlyHeld(o.state) && forall i :: 0 <= i < |o.tokens| ==> !IsSequence(o.tokens[i])
  }

  lemma SingleByte(b: Byte, limit: nat)
    ensures IsShortTail(Run([b], limit))
  {
    hide RunWith, ScanPrefix;
    var buf := [b];
    assert buf[0..] == buf && buf[1..] == [];
    PrefixOfNothing(limit);
    if !IsTextBoundary(b) { ScanTextInRange(buf, 0, limit); }
    RunAt(buf, 0, limit);
    RunNothing(limit);
  }

  lemma TwoBytes(b: Byte, limit: nat)
    ensures IsShortTail(Run([ESC, b], limit))
  {
    hide RunWith;
    var buf := [ESC, b];
    assert buf[0..] == buf && buf[2..] == [] && buf[1..] == [b];
    RunAt(buf, 0, limit);
    RunNothing(limit);
    SingleByte(b, limit);
    PrefixOfNothing(limit);
  }

  /** A step one more byte decides either reads that byte, leaves only it, or, when it spoils a
      character, leaves that character. */
  predicate LeavesLittle(p: Bytes, b: Byte, r: StepResult, limit: nat) {
    r.Emit? ==>
      var buf := p + [b];
      && r.next <= |buf| && !r.token.Str?
      && (r.next == |buf|
          || (!r.token.Csi? && r.next == |p|)
          || (!r.token.Csi? && Step(buf[r.next..], limit) == Emit(Malformed(buf[r.next..]), |buf| - r.next)))
  }

  lemma {:induction false} MarksGrowByOne(p: Bytes, b: Byte)
    requires PrefixMarks(p).all == |p|
    ensures PrefixMarks(p + [b]).all >= |p|
  {
    PrefixMarksStable(p, [b]);
  }

  lemma PrefixOneMore(p: Bytes, b: Byte, limit: nat)
    requires ScanPrefix(p, limit).Hungry?
    ensures match ScanPrefix(p + [b], limit)
      case Complete(_, end) => end == |p| + 1
      case Hungry => true
      case Aborted(end) => end == |p| + 1 || end == |p|
      case Overflow(end) => end == |p|
  {
    MarksGrowByOne(p, b);
  }

  lemma StepCsiOneMore(p: Bytes, b: Byte, intro: nat, limit: nat)
    requires intro <= |p| && StepCsi(p, intro, limit).NeedMore?
    ensures LeavesLittle(p, b, StepCsi(p + [b], intro, limit), limit)
  {
    hide ScanPrefix, StepWith;
    assert (p + [b])[intro..] == p[intro..] + [b];
    PrefixOneMore(p[intro..], b, limit);
  }

  lemma StepStringOneMore(p: Bytes, b: Byte, kind: StringKind, intro: nat, limit: nat)
    requires intro <= |p| && StepString(p, kind, intro, limit).NeedMore?
    ensures LeavesLittle(p, b, StepString(p + [b], kind, intro, limit), limit)
  {
    hide ScanPrefix, StepWith;
    assert (p + [b])[intro..] == p[intro..] + [b];
    PrefixOneMore(p[intro..], b, limit);
  }

  lemma StepPlainEscapeOneMore(p: Bytes, b: Byte, limit: nat)
    requires |p| > 0 && StepPlainEscape(p, limit).NeedMore?
    ensures LeavesLittle(p, b, StepPlainEscape(p + [b], limit), limit)
  {
    hide SpanLen, StepWith;
    assert (p + [b])[1..] == p[1..] + [b];
    SpanLenAppend(Intermediate, p[1..], [b]);
  }

  /** The bytes of one character, complete in number and not well-formed. */
  predicate IsSpoiled(c: Bytes) {
    c != [] && !IsTextBoundary(c[0]) && Utf8Width(c[0]) == Some(|c|) && !IsChar(c)
  }

  /** Where a starved scan resumes with one more byte: at the byte, or at the character it ends. */
  lemma {:induction false} ScanTextOneMore(p: Bytes, b: Byte, cursor: nat, cap: nat)
    requires cursor <= |p| && ScanText(p, cursor, cap).Starved?
    ensures var buf := p + [b];
      match ScanText(buf, cursor, cap)
      case Starved => true
      case Bad(end) => cursor == 0 && end == |buf|
      case Cut(end) => end == |buf| || end == |p| || (end < |p| && IsSpoiled(buf[end..]))
    decreases |p| - cursor
  {
    hide IsChar;
    var buf := p + [b];
    if cursor < |p| {
      var w := Utf8Width(p[cursor]).value;
      if cursor + w <= |p| {
        assert buf[cursor..cursor + w] == p[cursor..cursor + w];
        ScanTextOneMore(p, b, cursor + w, cap);
      } else if cursor + w == |buf| {
        assert buf[cursor..cursor + w] == buf[cursor..];
      }
    } else {
      ScanTextLast(buf, cap);
    }
  }

  /** Scanning from the last byte. */
  lemma ScanTextLast(buf: Bytes, cap: nat)
    requires buf != []
    ensures var cursor := |buf| - 1;
      match ScanText(buf, cursor, cap)
      case Starved => true
      case Bad(end) => cursor == 0 && end == 1
      case Cut(end) => end == cursor || end == |buf|
  {
    hide IsChar;
    var cursor := |buf| - 1;
    var b := buf[cursor];
    assert buf[cursor..cursor + 1] == [b];
    if Utf8Width(b) == Some(1) { AsciiIsChar(b); }
    assert ScanText(buf, |buf|, cap).Starved?;
  }

  lemma AsciiIsChar(b: Byte)
    requires Utf8Width(b) == Some(1)
    ensures IsChar([b])
  {
  }

  lemma SpoiledCharacter(c: Bytes, limit: nat)
    requires IsSpoiled(c)
    ensures Step(c, limit) == Emit(Malformed(c), |c|)
  {
    assert c[0..0 + |c|] == c;
    assert ScanText(c, 0, limit) == Bad(|c|);
    assert c[..|c|] == c;
  }

  lemma StepTextOneMore(p: Bytes, b: Byte, limit: nat)
    requires |p| > 0 && !IsTextBoundary(p[0]) && StepText(p, limit).NeedMore?
    ensures LeavesLittle(p, b, StepText(p + [b], limit), limit)
  {
    hide StepWith, IsChar;
    var buf := p + [b];
    ScanTextInRange(p, 0, limit);
    ScanTextOneMore(p, b, 0, limit);
    ScanTextInRange(buf, 0, limit);
    var r := ScanText(buf, 0, limit);
    if r.Cut? && r.end < |p| { SpoiledCharacter(buf[r.end..], limit); }
  }

  lemma StepOneMore(p: Bytes, b: Byte, limit: nat)
    requires |p| > 0 && Step(p, limit).NeedMore?
    ensures LeavesLittle(p, b, Step(p + [b], limit), limit)
  {
    hide StepCsi, StepString, StepPlainEscape, StepText, LeavesLittle;
    if p[0] == ESC {
      if |p| == 1 {
        EscapeOneMore(b, limit);
        assert p + [b] == [ESC, b];
        assert p == [ESC];
      } else if p[1] == 0x5b {
        StepCsiOneMore(p, b, 2, limit);
      } else if p[1] in {0x50, 0x5d, 0x5f, 0x5e, 0x58} {
        var kind := if p[1] == 0x50 then KindDcs else if p[1] == 0x5d then KindOsc
                    else if p[1] == 0x5f then KindApc else if p[1] == 0x5e then KindPm else KindSos;
        StepStringOneMore(p, b, kind, 2, limit);
      } else {
        StepPlainEscapeOneMore(p, b, limit);
      }
    } else if p[0] == C1_CSI {
      StepCsiOneMore(p, b, 1, limit);
    } else if IsC1Introducer(p[0]) {
      var kind := if p[0] == 0x90 then KindDcs else if p[0] == 0x9d then KindOsc
                  else if p[0] == 0x9f then KindApc else if p[0] == 0x9e then KindPm else KindSos;
      StepStringOneMore(p, b, kind, 1, limit);
    } else {
      StepTextOneMore(p, b, limit);
    }
  }

  lemma EscapeOneMore(b: Byte, limit: nat)
    ensures LeavesLittle([ESC], b, Step([ESC, b], limit), limit)
  {
    hide ScanPrefix;
    var buf := [ESC, b];
    assert [ESC] + [b] == buf && buf[2..] == [] && buf[1..] == [b];
    PrefixOfNothing(limit);
    if InClass(Intermediate, b) {
      SpanLenUnique(Intermediate, [b], 1);
    } else {
      SpanLenUnique(Intermediate, [b], 0);
    }
  }

  // ----- The lemma -----

  /** A paste that has just delivered a segment. */
  predicate IsCutPaste(s: ParserState) { IsContinuedPaste(s) && s.paste.retained == [] }

  /** Part of a paste that was cut into segments. */
  predicate IsSegment(t: Token) { t.Paste? && !(t.paste.isFirst && t.paste.isFinal) }

  predicate HasSegment(ts: seq<Token>) { exists i :: 0 <= i < |ts| && IsSegment(ts[i]) }

  /** A byte that completes a token leaves nothing behind but plainly held bytes, unless it cut a segment of a
      paste. Only the first token can be one a query matches, and a complete one is the only token and leaves
      nothing. */
  predicate CompletesCleanly(o: Outcome) {
    o.tokens != [] ==>
      && (IsPlainlyHeld(o.state) || (IsCutPaste(o.state) && HasSegment(o.tokens)))
      && (forall i :: 1 <= i < |o.tokens| ==> !IsSequence(o.tokens[i]))
      && (IsComplete(o.tokens[0]) ==> |o.tokens| == 1 && o.state == Ground)
  }

  /** Only a string in progress can be completed as a string. */
  predicate NoString(ts: seq<Token>) { forall i :: 0 <= i < |ts| ==> !ts[i].Str? }

  lemma ShortTailIsClean(t: Token, o: Outcome)
    requires IsShortTail(o)
    requires IsComplete(t) ==> o == Outcome(Ground, [])
    ensures CompletesCleanly(Prepend([t], o)) && (!t.Str? ==> NoString(Prepend([t], o).tokens))
  {
  }

  lemma RunOneMore(p: Bytes, b: Byte, limit: nat)
    requires p != [] && Step(p, limit).NeedMore?
    ensures CompletesCleanly(Run(p + [b], limit)) && NoString(Run(p + [b], limit).tokens)
  {
    hide StepWith, RunWith;
    var buf := p + [b];
    assert buf[0..] == buf;
    StepOneMore(p, b, limit);
    RunAt(buf, 0, limit);
    RunNothing(limit);
    var r := Step(buf, limit);
    match r
    case NeedMore =>
    case EnterString(a, n) =>
      StepEntersAtEnd(p, b, limit);
      assert buf[n..] == [];
    case EnterPaste(a, n) =>
      StepEntersAtEnd(p, b, limit);
      assert buf[n..] == [];
    case Emit(t, n) =>
      var rest := buf[n..];
      if n == |buf| {
        assert rest == [];
        ShortTailIsClean(t, Run(rest, limit));
      } else if n == |p| {
        assert rest == [b];
        SingleByte(b, limit);
        ShortTailIsClean(t, Run(rest, limit));
      } else {
        assert rest[0..] == rest && rest[|rest|..] == [];
        RunAt(rest, 0, limit);
        ShortTailIsClean(t, Run(rest, limit));
      }
  }

  /** A string or paste is entered by the byte that completes its introducer or prefix. */
  lemma StepEntersAtEnd(p: Bytes, b: Byte, limit: nat)
    requires p != [] && Step(p, limit).NeedMore?
    ensures EntersAtEnd(p, b, Step(p + [b], limit))
  {
    hide StepCsi, StepString, StepPlainEscape, StepText, EntersAtEnd;
    var buf := p + [b];
    if p[0] == ESC {
      if |p| == 1 {
        assert buf == [ESC, b] && p == [ESC];
        EscapeEntersAtEnd(b, limit);
      } else if p[1] == 0x5b {
        CsiEntersAtEnd(p, b, 2, limit);
      } else if p[1] in {0x50, 0x5d, 0x5f, 0x5e, 0x58} {
        var kind := if p[1] == 0x50 then KindDcs else if p[1] == 0x5d then KindOsc
                    else if p[1] == 0x5f then KindApc else if p[1] == 0x5e then KindPm else KindSos;
        StringEntersAtEnd(p, b, kind, 2, limit);
      } else {
        NeverEnters(p, b, limit);
      }
    } else if p[0] == C1_CSI {
      CsiEntersAtEnd(p, b, 1, limit);
    } else if IsC1Introducer(p[0]) {
      var kind := if p[0] == 0x90 then KindDcs else if p[0] == 0x9d then KindOsc
                  else if p[0] == 0x9f then KindApc else if p[0] == 0x9e then KindPm else KindSos;
      StringEntersAtEnd(p, b, kind, 1, limit);
    } else {
      NeverEnters(p, b, limit);
    }
  }

  predicate EntersAtEnd(p: Bytes, b: Byte, r: StepResult) {
    r.EnterString? || r.EnterPaste? ==> r.next == |p| + 1
  }

  lemma NeverEnters(p: Bytes, b: Byte, limit: nat)
    requires p != []
    ensures EntersAtEnd(p, b, StepPlainEscape(p + [b], limit))
    ensures EntersAtEnd(p, b, StepText(p + [b], limit))
  {
  }

  lemma CsiEntersAtEnd(p: Bytes, b: Byte, intro: nat, limit: nat)
    requires intro <= |p| && StepCsi(p, intro, limit).NeedMore?
    ensures EntersAtEnd(p, b, StepCsi(p + [b], intro, limit))
  {
    hide ScanPrefix;
    assert (p + [b])[intro..] == p[intro..] + [b];
    PrefixOneMore(p[intro..], b, limit);
  }

  lemma StringEntersAtEnd(p: Bytes, b: Byte, kind: StringKind, intro: nat, limit: nat)
    requires intro <= |p| && StepString(p, kind, intro, limit).NeedMore?
    ensures EntersAtEnd(p, b, StepString(p + [b], kind, intro, limit))
  {
    hide ScanPrefix;
    assert (p + [b])[intro..] == p[intro..] + [b];
    PrefixOneMore(p[intro..], b, limit);
  }

  lemma EscapeEntersAtEnd(b: Byte, limit: nat)
    ensures EntersAtEnd([ESC], b, Step([ESC, b], limit))
  {
    hide ScanPrefix;
    var buf := [ESC, b];
    assert buf[2..] == [];
    PrefixOfNothing(limit);
  }

  lemma PrefixOfNothing(limit: nat)
    ensures ScanPrefix([], limit).Hungry?
  {
    var nothing: Bytes := [];
    SpanLenUnique(PrivateMarker, nothing, 0);
    assert nothing[0..] == nothing;
    SpanLenUnique(ParamByte, nothing, 0);
    SpanLenUnique(Intermediate, nothing, 0);
  }

  lemma StringOneMore(a: StringState, b: Byte, limit: nat)
    requires a.Valid()
    ensures CompletesCleanly(StringRunWith(a, [b], limit, limit))
  {
    hide RunWith;
    RunNothing(limit);
    SingleByte(b, limit);
    TwoBytes(b, limit);
    var buf := [b];
    assert buf[1..] == [];
    match StepInString(a, b, limit)
    case Stay(a') =>
    case Close(token, reread) =>
      assert reread + [] == reread;
      ShortTailIsClean(token, Run(reread, limit));
  }

  /** One byte inside a paste ends it, cuts a segment or is taken in. */
  lemma PasteByte(p: PasteState, b: Byte, limit: nat)
    requires p.Valid()
    ensures var candidate := p.pendingMatch + [b];
      var a := Advance(p, b);
      PasteRunWith(p, [b], limit, limit) ==
        if IsPasteEnd(candidate) then
          Outcome(Ground, [FinalToken(p.(pendingMatch := candidate), true)])
        else if |a.retained| - a.payloadStart >= limit then
          Outcome(InPaste(AfterSegment(a)), [SegmentToken(a)])
        else Outcome(InPaste(a), [])
  {
    hide Advance, IsPasteEnd, FinalToken, SegmentToken;
    var buf, nothing: Bytes := [b], [];
    assert buf[1..] == nothing;
    RunNothing(limit);
    var a := Advance(p, b);
    assert PasteRunWith(AfterSegment(a), nothing, limit, limit) == Outcome(InPaste(AfterSegment(a)), []);
    assert PasteRunWith(a, nothing, limit, limit) == Outcome(InPaste(a), []);
  }

  lemma PasteOneMore(p: PasteState, b: Byte, limit: nat)
    requires p.Valid()
    ensures CompletesCleanly(PasteRunWith(p, [b], limit, limit)) && NoString(PasteRunWith(p, [b], limit, limit).tokens)
  {
    hide PasteRunWith, Advance, IsPasteEnd;
    PasteByte(p, b, limit);
    var o := PasteRunWith(p, [b], limit, limit);
    if o.tokens != [] && o.state.InPaste? { assert IsSegment(o.tokens[0]); }
  }

  /** For every reachable state and every byte. */
  lemma OneByteIsClean(s: ParserState, b: Byte, limit: nat)
    requires s.Valid() && Reachable(s, limit)
    ensures CompletesCleanly(Feed(s, [b], limit))
    ensures !s.InString? ==> NoString(Feed(s, [b], limit).tokens)
  {
    match s
    case Ground =>
      SingleByte(b, limit);
      FirstByte(b, limit);
    case Partial(p) => RunOneMore(p, b, limit);
    case InString(a) => StringOneMore(a, b, limit);
    case InPaste(p) => PasteOneMore(p, b, limit);
  }

  lemma FirstByte(b: Byte, limit: nat)
    ensures CompletesCleanly(Run([b], limit)) && NoString(Run([b], limit).tokens)
  {
    SingleByte(b, limit);
  }

  // ----- What a truncated string takes with it -----

  /** After ESC, the byte opens a sequence that needs more bytes. */
  predicate OpensSequence(b: Byte, limit: nat) {
    || b == 0x5b || b == 0x50 || b == 0x5d || b == 0x5f || b == 0x5e || b == 0x58
    || (InClass(Intermediate, b) && limit > 0)
  }

  lemma OpensExactly(b: Byte, limit: nat)
    ensures var o := Run([ESC, b], limit);
      && (o.tokens == [] <==> OpensSequence(b, limit))
      && (OpensSequence(b, limit) ==> o.state.PendingBytes() == [ESC, b])
  {
    hide RunWith, ScanPrefix, SpanLen;
    var buf := [ESC, b];
    assert buf[0..] == buf && buf[2..] == [] && buf[1..] == [b];
    SpanLenUnique(Intermediate, [b], if InClass(Intermediate, b) then 1 else 0);
    PrefixOfNothing(limit);
    RunAt(buf, 0, limit);
    RunNothing(limit);
  }

  /** A string is completed alone exactly when a terminator closed it, or ESC and the byte that aborted it open a
      sequence, which the parser then holds. The byte that aborts it in any other way completes a token too. */
  lemma StringIsAloneExactly(s: ParserState, b: Byte, limit: nat)
    requires s.Valid() && Reachable(s, limit)
    requires var ts := Feed(s, [b], limit).tokens; ts != [] && ts[0].Str?
    ensures s.InString?
    ensures var o := Feed(s, [b], limit);
      var closed := o.tokens[0].body.terminator != Unterminated;
      && (|o.tokens| == 1 <==> closed || (s.str.escHeld && OpensSequence(b, limit)))
      && (|o.tokens| == 1 && !closed ==> o.state.PendingBytes() == [ESC, b])
  {
    hide RunWith, PasteRunWith, OpensSequence;
    OneByteIsClean(s, b, limit);
    var a := s.str;
    StringByte(a, b, limit);
    OpensExactly(b, limit);
    AbortIsMalformed(b, limit);
  }

  lemma StringByte(a: StringState, b: Byte, limit: nat)
    requires a.Valid()
    ensures var step := StepInString(a, b, limit);
      step.Close? ==> StringRunWith(a, [b], limit, limit) == Prepend([step.token], Run(step.reread, limit))
    ensures StepInString(a, b, limit).Stay? ==> StringRunWith(a, [b], limit, limit).tokens == []
  {
    hide RunWith, StepInString;
    var buf := [b];
    var step := StepInString(a, b, limit);
    assert buf[1..] == [];
    if step.Close? { assert step.reread + [] == step.reread; }
  }

  lemma AbortIsMalformed(b: Byte, limit: nat)
    ensures IsAbort(b) ==> Run([b], limit).tokens == [Malformed([b])]
    ensures Run([], limit) == Outcome(Ground, [])
  {
    hide RunWith;
    var buf := [b];
    assert buf[0..] == buf && buf[1..] == [];
    RunAt(buf, 0, limit);
    RunNothing(limit);
    if IsAbort(b) { assert [Malformed([b])] + [] == [Malformed([b])]; }
  }
}
