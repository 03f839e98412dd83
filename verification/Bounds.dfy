/** What every reachable parser state and every emitted token satisfies: bounded memory, well-formed
    text, bounded paste segments. */
module Bounds {
  import opened Bytes
  import opened Tokens
  import opened Grammar
  import opened SplitEquivalence
  import opened Reconstruction

  function AtLeastOne(limit: nat): nat { if limit == 0 then 1 else limit }

  // ----- Well-formed text -----

  lemma {:induction false} TextAppendChar(a: Bytes, c: Bytes)
    requires IsText(a) && IsChar(c) && !IsTextBoundary(c[0])
    ensures IsText(a + c)
    decreases |a|
  {
    if a == [] {
      assert a + c == c && c[..|c|] == c;
      assert c[|c|..] == [];
    } else {
      var w := CharWidth(a).value;
      assert (a + c)[..w] == a[..w];
      assert (a + c)[w..] == a[w..] + c;
      TextAppendChar(a[w..], c);
    }
  }

  /** Text is valid UTF-8 and has no C0 control or DEL anywhere in it. */
  lemma {:induction false} TextIsValidAndPrintable(s: Bytes)
    requires IsText(s)
    ensures ValidUtf8(s)
    ensures forall i :: 0 <= i < |s| ==> !IsControl(s[i])
    decreases |s|
  {
    if s != [] {
      var w := CharWidth(s).value;
      assert forall i :: 0 <= i < w ==> s[..w][i] == s[i];
      assert forall i :: w <= i < |s| ==> s[i] == s[w..][i - w];
      TextIsValidAndPrintable(s[w..]);
    }
  }

  lemma {:induction false} ScanTextGood(buf: Bytes, cursor: nat, cap: nat)
    requires cursor <= |buf| && IsText(buf[..cursor]) && (cursor == 0 || cursor < cap)
    ensures var r := ScanText(buf, cursor, cap);
      && (r.Cut? ==> r.end <= |buf| && IsText(buf[..r.end]) && r.end <= AtLeastOne(cap) + 3)
      && (r.Starved? ==> |buf| <= AtLeastOne(cap) + 2)
    decreases |buf| - cursor
  {
    if cursor < |buf| && !IsTextBoundary(buf[cursor]) && Utf8Width(buf[cursor]).Some? {
      var next := cursor + Utf8Width(buf[cursor]).value;
      if next <= |buf| && IsChar(buf[cursor..next]) {
        assert buf[..cursor] + buf[cursor..next] == buf[..next];
        TextAppendChar(buf[..cursor], buf[cursor..next]);
        if next < cap { ScanTextGood(buf, next, cap); }
      }
    }
  }

  /** A run parked at the end of a chunk is text as soon as it is valid UTF-8. */
  lemma {:induction false} StarvedValidIsText(buf: Bytes, cursor: nat, cap: nat)
    requires cursor <= |buf|
    requires ScanText(buf, cursor, cap).Starved? && ValidUtf8(buf[cursor..])
    ensures IsText(buf[cursor..])
    decreases |buf| - cursor
  {
    if cursor < |buf| {
      var rest := buf[cursor..];
      var next := cursor + CharWidth(rest).value;
      assert rest[next - cursor..] == buf[next..];
      assert buf[cursor..next] == rest[..next - cursor];
      StarvedValidIsText(buf, next, cap);
    }
  }

  // ----- The invariant -----

  predicate StartsWithIntroducer(s: Bytes) {
    s != [] && (s[0] == ESC || (IsC1Introducer(s[0]) && s[0] != C1_ST))
  }

  predicate BoundedString(a: StringState, limit: nat) {
    && a.Valid()
    && StartsWithIntroducer(a.retained)
    && FullIfDropping(a, limit)
    && a.introducerLen == (if a.retained[0] == ESC then 2 else 1)
    && a.payloadStart <= a.introducerLen + limit + 1
    && (|a.retained| <= a.introducerLen + limit || |a.retained| == a.payloadStart)
  }

  predicate BoundedPaste(p: PasteState, limit: nat) {
    && p.Valid()
    && |p.retained| - p.payloadStart < limit
    && p.payloadStart <= 6
    && (if p.isFirst then p.payloadStart >= 5 && StartsWithIntroducer(p.retained) else p.payloadStart == 0)
    && IsPasteEndPrefix(p.pendingMatch) && !IsPasteEnd(p.pendingMatch)
  }

  /** Every state the parser is ever left in. */
  predicate Reachable(s: ParserState, limit: nat) {
    match s
    case Ground => true
    case Partial(p) => p != [] && Step(p, limit).NeedMore?
    case InString(a) => BoundedString(a, limit)
    case InPaste(p) => BoundedPaste(p, limit)
  }

  lemma GroundIsReachable(limit: nat)
    ensures Reachable(Ground, limit)
  {
  }

  predicate GoodToken(t: Token, limit: nat) {
    match t
    case Text(b) => b != [] && IsText(b) && |b| <= AtLeastOne(limit) + 3
    case Csi(c) => c.bytes != []
    case Str(s) => |s.bytes| <= limit + 5 && (s.dropped > 0 ==> |s.bytes| >= limit)
    case Paste(p) => |p.payload| <= limit + 5 && (!p.isFinal ==> limit <= |p.payload|)
    case _ => true
  }

  predicate GoodTokens(ts: seq<Token>, limit: nat) {
    forall i :: 0 <= i < |ts| ==> GoodToken(ts[i], limit)
  }

  /** A string without a terminator is truncated: aborted before it loses a byte, it is malformed instead. */
  predicate EndsOrLoses(t: Token) { t.Str? && t.body.terminator.Unterminated? ==> t.body.dropped > 0 }

  predicate EachEndsOrLoses(ts: seq<Token>) { forall i :: 0 <= i < |ts| ==> EndsOrLoses(ts[i]) }

  predicate Good(o: Outcome, limit: nat) {
    GoodTokens(o.tokens, limit) && EachEndsOrLoses(o.tokens) && Reachable(o.state, limit)
  }

  lemma StepPlainEscapeIsGood(buf: Bytes, limit: nat)
    requires |buf| > 0
    ensures StepPlainEscape(buf, limit).NeedMore? ==> |buf| <= limit + 1
    ensures !StepPlainEscape(buf, limit).EnterString? && !StepPlainEscape(buf, limit).EnterPaste?
    ensures var r := StepPlainEscape(buf, limit);
      r.Emit? ==> GoodToken(r.token, limit) && EndsOrLoses(r.token)
  {
  }

  lemma PrefixIsBounded(buf: Bytes, limit: nat)
    ensures var r := ScanPrefix(buf, limit);
      && (r.Hungry? ==> |buf| <= limit)
      && (r.Complete? ==> r.end <= limit + 1)
      && (r.Complete? && IsPasteStart(r.params) ==> r.end == 4 && limit >= 3)
  {
  }

  lemma StepCsiIsGood(buf: Bytes, intro: nat, limit: nat)
    requires StartsWithIntroducer(buf) && intro == (if buf[0] == ESC then 2 else 1) && intro <= |buf|
    ensures var r := StepCsi(buf, intro, limit);
      && (r.NeedMore? ==> |buf| <= limit + 2)
      && !r.EnterString?
      && (r.EnterPaste? ==> BoundedPaste(r.paste, limit))
      && (r.Emit? ==> GoodToken(r.token, limit) && EndsOrLoses(r.token))
  {
    hide ScanPrefix;
    PrefixIsBounded(buf[intro..], limit);
  }

  lemma StepStringIsGood(buf: Bytes, kind: StringKind, intro: nat, limit: nat)
    requires StartsWithIntroducer(buf) && intro == (if buf[0] == ESC then 2 else 1) && intro <= |buf|
    ensures var r := StepString(buf, kind, intro, limit);
      && (r.NeedMore? ==> |buf| <= limit + 2)
      && !r.EnterPaste?
      && (r.EnterString? ==> BoundedString(r.str, limit))
      && (r.Emit? ==> GoodToken(r.token, limit) && EndsOrLoses(r.token))
  {
    hide ScanPrefix;
    PrefixIsBounded(buf[intro..], limit);
  }

  lemma StepTextIsGood(buf: Bytes, limit: nat)
    requires |buf| > 0 && !IsTextBoundary(buf[0])
    ensures var r := StepText(buf, limit);
      && (r.NeedMore? ==> |buf| <= AtLeastOne(limit) + 2)
      && !r.EnterString? && !r.EnterPaste?
      && (r.Emit? ==> GoodToken(r.token, limit) && EndsOrLoses(r.token))
  {
    assert buf[..0] == [];
    ScanTextGood(buf, 0, limit);
    ScanTextInRange(buf, 0, limit);
  }

  lemma StepIsGood(buf: Bytes, limit: nat)
    requires |buf| > 0
    ensures var r := Step(buf, limit);
      && (r.NeedMore? ==> |buf| <= limit + 3)
      && (r.EnterString? ==> BoundedString(r.str, limit))
      && (r.EnterPaste? ==> BoundedPaste(r.paste, limit))
      && (r.Emit? ==> GoodToken(r.token, limit) && EndsOrLoses(r.token))
  {
    hide StepCsi, StepString, StepPlainEscape, StepText, IsText;
    if buf[0] == ESC {
      if |buf| > 1 {
        StepCsiIsGood(buf, 2, limit);
        forall kind { StepStringIsGood(buf, kind, 2, limit); }
        StepPlainEscapeIsGood(buf, limit);
      }
    } else if !IsTextBoundary(buf[0]) {
      StepTextIsGood(buf, limit);
    } else if StartsWithIntroducer(buf) {
      StepCsiIsGood(buf, 1, limit);
      forall kind { StepStringIsGood(buf, kind, 1, limit); }
    }
  }

  lemma StepInStringIsGood(a: StringState, b: Byte, limit: nat)
    requires BoundedString(a, limit)
    ensures match StepInString(a, b, limit)
      case Stay(a') => a'.Valid() && BoundedString(a', limit)
      case Close(token, _) => GoodToken(token, limit) && EndsOrLoses(token)
  {
  }

  lemma AdvanceIsGood(p: PasteState, b: Byte, limit: nat)
    requires BoundedPaste(p, limit) && !IsPasteEnd(p.pendingMatch + [b])
    ensures var q := Advance(p, b);
      && q.Valid() && q.payloadStart == p.payloadStart && q.isFirst == p.isFirst
      && p.retained <= q.retained
      && |q.retained| - q.payloadStart <= limit + 5
      && IsPasteEndPrefix(q.pendingMatch) && !IsPasteEnd(q.pendingMatch)
  {
    hide SpanLen;
    var candidate := p.pendingMatch + [b];
    assert |candidate| <= 6;
    if !IsPasteEndPrefix(candidate) {
      var n := Shift(candidate, 1);
      assert |candidate[n..]| < |candidate|;
      ShiftedIsNotEnd(p.pendingMatch, b, n);
    }
  }

  /** A candidate's proper suffix cannot complete an end bracket. */
  lemma ShiftedIsNotEnd(m: Bytes, b: Byte, n: nat)
    requires IsPasteEndPrefix(m) && 1 <= n <= |m| + 1
    ensures !IsPasteEnd((m + [b])[n..])
  {
    var s := (m + [b])[n..];
    if n <= |m| { assert s[0] == (if n < |m| then m[n] else b); }
  }

  lemma GoodPrepend(t: Token, o: Outcome, limit: nat)
    requires GoodToken(t, limit) && EndsOrLoses(t) && Good(o, limit)
    ensures Good(Prepend([t], o), limit)
  {
  }

  lemma {:induction false} RunIsGood(buf: Bytes, limit: nat)
    ensures Good(Run(buf, limit), limit)
    decreases |buf|, 0
  {
    hide StepWith, GoodToken, EndsOrLoses;
    if buf != [] {
      StepInRange(buf, limit, limit);
      StepIsGood(buf, limit);
      match Step(buf, limit)
      case NeedMore =>
      case Emit(token, next) =>
        RunIsGood(buf[next..], limit);
        GoodPrepend(token, Run(buf[next..], limit), limit);
      case EnterString(a, next) => StringRunIsGood(a, buf[next..], limit);
      case EnterPaste(p, next) => PasteRunIsGood(p, buf[next..], limit);
    }
  }

  lemma {:induction false} StringRunIsGood(a: StringState, buf: Bytes, limit: nat)
    requires a.Valid() && BoundedString(a, limit)
    ensures Good(StringRunWith(a, buf, limit, limit), limit)
    decreases |buf| + Held(a), |buf|
  {
    hide RunWith, GoodToken, BoundedString, EndsOrLoses;
    if buf != [] {
      StepInStringIsGood(a, buf[0], limit);
      match StepInString(a, buf[0], limit)
      case Stay(a') => StringRunIsGood(a', buf[1..], limit);
      case Close(token, reread) =>
        RunIsGood(reread + buf[1..], limit);
        GoodPrepend(token, Run(reread + buf[1..], limit), limit);
    }
  }

  lemma {:induction false} PasteRunIsGood(p: PasteState, buf: Bytes, limit: nat)
    requires BoundedPaste(p, limit)
    ensures Good(PasteRunWith(p, buf, limit, limit), limit)
    decreases |buf|, |buf|
  {
    hide RunWith, Advance, IsPasteEnd, IsPasteEndPrefix;
    if buf != [] {
      if IsPasteEnd(p.pendingMatch + [buf[0]]) {
        RunIsGood(buf[1..], limit);
        GoodPrepend(FinalToken(p.(pendingMatch := p.pendingMatch + [buf[0]]), true),
                    Run(buf[1..], limit), limit);
      } else {
        AdvanceIsGood(p, buf[0], limit);
        var p' := Advance(p, buf[0]);
        if |p'.retained| - p'.payloadStart >= limit {
          PasteRunIsGood(AfterSegment(p'), buf[1..], limit);
          GoodPrepend(SegmentToken(p'), PasteRunWith(AfterSegment(p'), buf[1..], limit, limit), limit);
        } else {
          PasteRunIsGood(p', buf[1..], limit);
        }
      }
    }
  }

  /** `feed` keeps the invariant and emits only good tokens; a string among them ends or has lost bytes. */
  lemma FeedIsGood(s: ParserState, buf: Bytes, limit: nat)
    requires s.Valid() && Reachable(s, limit)
    ensures Good(Feed(s, buf, limit), limit)
  {
    match s
    case Ground => RunIsGood(buf, limit);
    case Partial(p) => RunIsGood(p + buf, limit);
    case InString(a) => StringRunIsGood(a, buf, limit);
    case InPaste(p) => PasteRunIsGood(p, buf, limit);
  }

  /** `finish` emits only good tokens too. */
  lemma FinishIsGood(s: ParserState, limit: nat)
    requires s.Valid() && Reachable(s, limit)
    ensures GoodTokens(FinishTokens(s, limit), limit)
  {
    hide StepCsi, StepString, StepPlainEscape, IsText;
    match s
    case Ground =>
    case Partial(p) =>
      StepIsGood(p, limit);
      if IsTextStart(p[0]) && ValidUtf8(p) {
        assert p[0..] == p;
        ScanTextInRange(p, 0, limit);
        StarvedValidIsText(p, 0, limit);
      }
    case InString(a) =>
    case InPaste(p) =>
  }

  /** Bounded memory: in every reachable state the bytes held stay within the limit and a constant,
      whatever the input and however long it goes unterminated. */
  lemma MemoryIsBounded(s: ParserState, limit: nat)
    requires s.Valid() && Reachable(s, limit)
    ensures |s.PendingBytes()| <= limit + 5
    ensures !s.InPaste? ==> |s.PendingBytes()| <= limit + 3
    ensures s.InPaste? ==> |s.paste.pendingMatch| <= 5
  {
    match s
    case Ground =>
    case Partial(p) => StepIsGood(p, limit);
    case InString(a) =>
    case InPaste(p) =>
  }

  /** Over every chunking of every input: the state stays bounded, and every token, flushed ones
      included, is good. */
  lemma EveryRunIsGood(chunks: seq<Bytes>, limit: nat)
    ensures Reachable(FeedAll(Ground, chunks, limit).state, limit)
    ensures |FeedAll(Ground, chunks, limit).state.PendingBytes()| <= limit + 5
    ensures GoodTokens(AllTokens(chunks, limit), limit)
  {
    AnyChunking(chunks, limit);
    RunIsGood(Concat(chunks), limit);
    var o := FeedAll(Ground, chunks, limit);
    MemoryIsBounded(o.state, limit);
    FinishIsGood(o.state, limit);
  }

  /** Every text token of every run is non-empty, valid UTF-8 and free of C0 controls and DEL. */
  lemma EveryTextTokenIsText(chunks: seq<Bytes>, limit: nat, i: nat)
    requires i < |AllTokens(chunks, limit)| && AllTokens(chunks, limit)[i].Text?
    ensures var b := AllTokens(chunks, limit)[i].text;
      && b != [] && ValidUtf8(b)
      && forall k :: 0 <= k < |b| ==> !IsControl(b[k])
  {
    EveryRunIsGood(chunks, limit);
    TextIsValidAndPrintable(AllTokens(chunks, limit)[i].text);
  }

  /** The documented bound, introducer plus limit, holds of a string in progress exactly when its
      parameter prefix leaves room for itself. */
  lemma DocumentedStringBound(a: StringState, limit: nat)
    requires BoundedString(a, limit)
    ensures |a.retained| <= a.introducerLen + limit <==> a.payloadStart <= a.introducerLen + limit
  {
  }

  /** It is exceeded by a DCS whose prefix fills the limit: `ESC P 1 q` with limit 1. */
  lemma DcsPrefixExceedsDocumentedBound()
    ensures var s := Run([ESC, 0x50, 0x31, 0x71], 1).state;
      s.InString? && |s.str.retained| == s.str.introducerLen + 1 + 1
  {
    var buf: Bytes := [ESC, 0x50, 0x31, 0x71];
    var rest := buf[2..];
    assert rest == [0x31, 0x71];
    assert rest[1..] == [0x71];
    SpanLenUnique(PrivateMarker, rest, 0);
    assert rest[0..] == rest;
    SpanLenUnique(ParamByte, rest, 1);
    SpanLenUnique(Intermediate, rest[1..], 0);
    assert PrefixMarks(rest) == Marks(0, 1, 1);
    assert ScanPrefix(rest, 1).Complete? && ScanPrefix(rest, 1).end == 2;
    assert buf[4..] == [] && buf[..4] == buf;
    assert StepString(buf, KindDcs, 2, 1).EnterString?;
    assert Step(buf, 1) == StepString(buf, KindDcs, 2, 1);
    var a := Step(buf, 1).str;
    assert StringRunWith(a, [], 1, 1) == Outcome(InString(a), []);
  }
}
