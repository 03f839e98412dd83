/** Any chunking of the input gives the same tokens and the same parser state. */
module SplitEquivalence {
  import opened Bytes
  import opened Tokens
  import opened Grammar

  lemma PrefixMarksStable(a: Bytes, b: Bytes)
    ensures PrefixMarks(a).all < |a| ==> PrefixMarks(a + b) == PrefixMarks(a)
    ensures PrefixMarks(a).all == |a| ==> PrefixMarks(a + b).all >= |a|
  {
    hide SpanLen;
    var m := SpanLen(PrivateMarker, a);
    var p := m + SpanLen(ParamByte, a[m..]);
    SpanLenAppend(PrivateMarker, a, b);
    if m < |a| {
      assert (a + b)[m..] == a[m..] + b;
      SpanLenAppend(ParamByte, a[m..], b);
      if p < |a| {
        assert (a + b)[p..] == a[p..] + b;
        SpanLenAppend(Intermediate, a[p..], b);
      }
    }
  }

  lemma ScanPrefixStable(a: Bytes, b: Bytes, cap: nat)
    requires !ScanPrefix(a, cap).Hungry?
    ensures ScanPrefix(a + b, cap) == ScanPrefix(a, cap)
  {
    hide PrefixMarks;
    PrefixMarksStable(a, b);
    var k := PrefixMarks(a);
    if k.all < |a| {
      assert (a + b)[..k.markers] == a[..k.markers];
      assert (a + b)[k.markers..k.params] == a[k.markers..k.params];
      assert (a + b)[k.params..k.all] == a[k.params..k.all];
    }
  }

  lemma {:induction false} ScanTextStable(a: Bytes, b: Bytes, cursor: nat, cap: nat)
    requires cursor <= |a|
    requires !ScanText(a, cursor, cap).Starved?
    ensures ScanText(a + b, cursor, cap) == ScanText(a, cursor, cap)
    decreases |a| - cursor
  {
    if !IsTextBoundary(a[cursor]) && Utf8Width(a[cursor]).Some? {
      var w := Utf8Width(a[cursor]).value;
      assert (a + b)[cursor..cursor + w] == a[cursor..cursor + w];
      if IsChar(a[cursor..cursor + w]) && cursor + w < cap {
        ScanTextStable(a, b, cursor + w, cap);
      }
    }
  }

  lemma StepCsiStable(a: Bytes, b: Bytes, intro: nat, cap: nat)
    requires 0 < intro <= |a|
    requires !StepCsi(a, intro, cap).NeedMore?
    ensures StepCsi(a + b, intro, cap) == StepCsi(a, intro, cap)
  {
    hide ScanPrefix;
    ScanPrefixStable(a[intro..], b, cap);
    assert (a + b)[intro..] == a[intro..] + b;
    var n := StepCsi(a, intro, cap).next;
    StepCsiAdvances(a, intro, cap);
    assert (a + b)[..n] == a[..n];
  }

  lemma StepStringStable(a: Bytes, b: Bytes, kind: StringKind, intro: nat, cap: nat)
    requires 0 < intro <= |a|
    requires !StepString(a, kind, intro, cap).NeedMore?
    ensures StepString(a + b, kind, intro, cap) == StepString(a, kind, intro, cap)
  {
    hide ScanPrefix;
    if kind == KindDcs { ScanPrefixStable(a[intro..], b, cap); }
    assert (a + b)[intro..] == a[intro..] + b;
    var n := StepString(a, kind, intro, cap).next;
    StepStringAdvances(a, kind, intro, cap);
    assert (a + b)[..n] == a[..n];
  }

  lemma StepPlainEscapeStable(a: Bytes, b: Bytes, cap: nat)
    requires |a| > 0
    requires !StepPlainEscape(a, cap).NeedMore?
    ensures StepPlainEscape(a + b, cap) == StepPlainEscape(a, cap)
  {
    hide SpanLen;
    SpanLenAppend(Intermediate, a[1..], b);
    assert (a + b)[1..] == a[1..] + b;
    var n := StepPlainEscape(a, cap).next;
    StepPlainEscapeAdvances(a, cap);
    assert (a + b)[..n] == a[..n];
    var k := SpanLen(Intermediate, a[1..]);
    assert 1 + k <= |a| ==> (a + b)[1..1 + k] == a[1..1 + k];
  }

  /** A step that is decided stays decided whatever bytes follow. */
  lemma StepStable(a: Bytes, b: Bytes, cap: nat, textCap: nat)
    requires |a| > 0
    requires !StepWith(a, cap, textCap).NeedMore?
    ensures StepWith(a + b, cap, textCap) == StepWith(a, cap, textCap)
  {
    hide StepCsi, StepString, StepPlainEscape, ScanText;
    if a[0] == ESC {
      var c := a[1];
      if c == 0x5b {
        StepCsiStable(a, b, 2, cap);
      } else if c in {0x50, 0x5d, 0x5f, 0x5e, 0x58} {
        var kind := if c == 0x50 then KindDcs else if c == 0x5d then KindOsc
                    else if c == 0x5f then KindApc else if c == 0x5e then KindPm else KindSos;
        StepStringStable(a, b, kind, 2, cap);
      } else if !IsAbort(c) {
        StepPlainEscapeStable(a, b, cap);
      }
    } else if a[0] == C1_CSI {
      StepCsiStable(a, b, 1, cap);
    } else if IsC1Introducer(a[0]) && a[0] != C1_ST {
      var kind := if a[0] == 0x90 then KindDcs else if a[0] == 0x9d then KindOsc
                  else if a[0] == 0x9f then KindApc else if a[0] == 0x9e then KindPm else KindSos;
      StepStringStable(a, b, kind, 1, cap);
    } else if !IsTextBoundary(a[0]) {
      ScanTextStable(a, b, 0, textCap);
      ScanTextInRange(a, 0, textCap);
      var n := StepText(a, textCap).next;
      assert (a + b)[..n] == a[..n];
    }
  }

  /** Tokens of `o` followed by those of reading `more` from `o`'s state. */
  function Then(o: Outcome, more: Bytes, cap: nat, textCap: nat): Outcome
    requires o.state.Valid()
  {
    Prepend(o.tokens, FeedWith(o.state, more, cap, textCap))
  }

  lemma ThenPrepend(ts: seq<Token>, o: Outcome, more: Bytes, cap: nat, textCap: nat)
    requires o.state.Valid()
    ensures Then(Prepend(ts, o), more, cap, textCap) == Prepend(ts, Then(o, more, cap, textCap))
  {
    var r := FeedWith(o.state, more, cap, textCap);
    assert (ts + o.tokens) + r.tokens == ts + (o.tokens + r.tokens);
  }

  lemma {:induction false} RunSplit(a: Bytes, b: Bytes, cap: nat, textCap: nat)
    ensures RunWith(a + b, cap, textCap) == Then(RunWith(a, cap, textCap), b, cap, textCap)
    decreases |a|, 0
  {
    hide StepWith, StepInString, Advance;
    if a == [] {
      assert a + b == b;
      assert [] + RunWith(b, cap, textCap).tokens == RunWith(b, cap, textCap).tokens;
    } else {
      StepInRange(a, cap, textCap);
      var step := StepWith(a, cap, textCap);
      if step.NeedMore? {
        var r := RunWith(a + b, cap, textCap);
        assert [] + r.tokens == r.tokens;
      } else {
        StepStable(a, b, cap, textCap);
        assert (a + b)[step.next..] == a[step.next..] + b;
        match step
        case Emit(token, next) =>
          RunSplit(a[next..], b, cap, textCap);
          ThenPrepend([token], RunWith(a[next..], cap, textCap), b, cap, textCap);
        case EnterString(s, next) => StringSplit(s, a[next..], b, cap, textCap);
        case EnterPaste(p, next) => PasteSplit(p, a[next..], b, cap, textCap);
      }
    }
  }

  lemma {:induction false} StringSplit(s: StringState, a: Bytes, b: Bytes, cap: nat, textCap: nat)
    requires s.Valid()
    ensures StringRunWith(s, a + b, cap, textCap)
         == Then(StringRunWith(s, a, cap, textCap), b, cap, textCap)
    decreases |a| + Held(s), |a|
  {
    hide StepWith;
    if a == [] {
      assert a + b == b;
      var r := StringRunWith(s, b, cap, textCap);
      assert [] + r.tokens == r.tokens;
    } else {
      assert (a + b)[1..] == a[1..] + b;
      match StepInString(s, a[0], cap)
      case Stay(s') => StringSplit(s', a[1..], b, cap, textCap);
      case Close(token, reread) =>
        assert reread + (a[1..] + b) == (reread + a[1..]) + b;
        RunSplit(reread + a[1..], b, cap, textCap);
        ThenPrepend([token], RunWith(reread + a[1..], cap, textCap), b, cap, textCap);
    }
  }

  lemma {:induction false} PasteSplit(p: PasteState, a: Bytes, b: Bytes, cap: nat, textCap: nat)
    requires p.Valid()
    ensures PasteRunWith(p, a + b, cap, textCap)
         == Then(PasteRunWith(p, a, cap, textCap), b, cap, textCap)
    decreases |a|, |a|
  {
    hide StepWith, Advance, FinalToken, SegmentToken;
    if a == [] {
      assert a + b == b;
      var r := PasteRunWith(p, b, cap, textCap);
      assert [] + r.tokens == r.tokens;
    } else {
      assert (a + b)[1..] == a[1..] + b;
      if IsPasteEnd(p.pendingMatch + [a[0]]) {
        RunSplit(a[1..], b, cap, textCap);
        ThenPrepend([FinalToken(p.(pendingMatch := p.pendingMatch + [a[0]]), true)],
                    RunWith(a[1..], cap, textCap), b, cap, textCap);
      } else {
        var p' := Advance(p, a[0]);
        if |p'.retained| - p'.payloadStart >= cap {
          PasteSplit(AfterSegment(p'), a[1..], b, cap, textCap);
          ThenPrepend([SegmentToken(p')],
                      PasteRunWith(AfterSegment(p'), a[1..], cap, textCap), b, cap, textCap);
        } else {
          PasteSplit(p', a[1..], b, cap, textCap);
        }
      }
    }
  }

  /** Feeding `a + b` from any state is feeding `a` and then `b`. */
  lemma FeedSplit(s: ParserState, a: Bytes, b: Bytes, cap: nat, textCap: nat)
    requires s.Valid()
    ensures FeedWith(s, a + b, cap, textCap) == Then(FeedWith(s, a, cap, textCap), b, cap, textCap)
  {
    match s
    case Ground => RunSplit(a, b, cap, textCap);
    case Partial(p) =>
      assert p + (a + b) == (p + a) + b;
      RunSplit(p + a, b, cap, textCap);
    case InString(str) => StringSplit(str, a, b, cap, textCap);
    case InPaste(paste) => PasteSplit(paste, a, b, cap, textCap);
  }

  // ----- Chunk lists -----

  function Concat(chunks: seq<Bytes>): Bytes {
    if chunks == [] then [] else chunks[0] + Concat(chunks[1..])
  }

  /** Successive `feed` calls, one a chunk. */
  function FeedAll(s: ParserState, chunks: seq<Bytes>, limit: nat): (o: Outcome)
    requires s.Valid()
    ensures o.state.Valid()
    decreases |chunks|
  {
    if chunks == [] then Outcome(s, [])
    else
      var first := Feed(s, chunks[0], limit);
      Prepend(first.tokens, FeedAll(first.state, chunks[1..], limit))
  }

  /** The state a parser is left in when nothing more is read. */
  lemma FeedNothing(s: ParserState, limit: nat)
    requires s.Valid()
    requires s.Partial? ==> Step(s.pending, limit).NeedMore?
    ensures Feed(s, [], limit) == Outcome(s, [])
  {
    if s.Partial? { assert s.pending + [] == s.pending; }
  }

  lemma {:induction false} FeedAllIsFeed(s: ParserState, chunks: seq<Bytes>, limit: nat)
    requires s.Valid()
    requires chunks != []
    ensures FeedAll(s, chunks, limit) == Feed(s, Concat(chunks), limit)
    decreases |chunks|
  {
    var first := Feed(s, chunks[0], limit);
    if |chunks| == 1 {
      assert chunks[0] + [] == chunks[0];
      assert Concat(chunks) == chunks[0];
      assert first.tokens + [] == first.tokens;
    } else {
      FeedAllIsFeed(first.state, chunks[1..], limit);
      FeedSplit(s, chunks[0], Concat(chunks[1..]), limit, limit);
    }
  }

  /** Split-equivalence: from a fresh parser, every chunking of the same bytes gives the tokens,
      the state and the flushed tail of feeding them whole. */
  lemma AnyChunking(chunks: seq<Bytes>, limit: nat)
    ensures FeedAll(Ground, chunks, limit) == Run(Concat(chunks), limit)
    ensures FeedAll(Ground, chunks, limit).tokens
              + FinishTokens(FeedAll(Ground, chunks, limit).state, limit)
         == Run(Concat(chunks), limit).tokens
              + FinishTokens(Run(Concat(chunks), limit).state, limit)
  {
    if chunks != [] { FeedAllIsFeed(Ground, chunks, limit); }
  }
}
