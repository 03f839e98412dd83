/** A bracketed paste reads back: one paste, with exactly the text between its brackets. */
module PasteRoundTrip {
  import opened Bytes
  import opened Tokens
  import opened Grammar
  import opened SplitEquivalence
  import opened PayloadScan
  import opened Events
  import opened Reconstruction
  import opened PasteExact
  import opened TextRoundTrips

  // ----- Where the body's own end bracket is -----

  /** Only the first byte of an end bracket is an introducer. */
  lemma BracketStarts(s: Bytes, i: nat)
    requires IsPasteEnd(s) && i < |s|
    ensures s[i] == 0x1b || s[i] == 0x9b <==> i == 0
  {
  }

  /** No end bracket begins another. */
  lemma BracketsAreWhole(a: Bytes, b: Bytes)
    requires IsPasteEnd(a) && IsPasteEnd(b) && a <= b
    ensures a == b
  {
    assert a[0] == b[0];
  }

  /** After a body without an end bracket, the first one is its own. */
  lemma OwnBracket(body: Bytes, end: Bytes)
    requires NoBracket(body) && IsPasteEnd(end)
    ensures FirstBracket(body + end, |body| + |end|)
    ensures BracketLen(body + end, |body| + |end|) == |end|
  {
    hide BracketLen, IsPasteEnd;
    var all := body + end;
    assert all[|all| - |end|..|all|] == end;
    BracketLenIs(all, |all|, |end|);
    BracketIsLong(end);
    var before := all[..|all| - 1];
    forall k | 0 <= k <= |before| ensures BracketLen(before, k) == 0 {
      if BracketLen(before, k) > 0 { NoneEarlier(body, end, before, k - BracketLen(before, k), k); }
    }
  }

  /** A stretch of the two together lies in the first, across the join, or in the second. */
  lemma Stretch(body: Bytes, end: Bytes, before: Bytes, start: nat, k: nat)
    requires |before| <= |body| + |end| && before == (body + end)[..|before|] && start <= k <= |before|
    ensures k <= |body| ==> before[start..k] == body[start..k]
    ensures start < |body| < k ==> before[start..k][|body| - start] == end[0]
    ensures |body| <= start ==> before[start..k] == end[start - |body|..k - |body|]
  {
    var stretch := before[start..k];
    assert forall j :: 0 <= j < |stretch| ==> stretch[j] == (body + end)[start + j];
  }

  lemma NoneEarlier(body: Bytes, end: Bytes, before: Bytes, start: nat, k: nat)
    requires NoBracket(body) && IsPasteEnd(end)
    requires |before| < |body| + |end| && before == (body + end)[..|before|] && start <= k <= |before|
    ensures !IsPasteEnd(before[start..k])
  {
    hide BracketLen, IsPasteEnd;
    var bracket := before[start..k];
    Stretch(body, end, before, start, k);
    BracketIsLong(end);
    if IsPasteEnd(bracket) {
      BracketIsLong(bracket);
      if k <= |body| {
        BracketLenIs(body, k, k - start);
      } else if start < |body| {
        BracketStarts(end, 0);
        BracketStarts(bracket, |body| - start);
      } else {
        BracketStarts(bracket, 0);
        BracketStarts(end, start - |body|);
        BracketsAreWhole(bracket, end);
      }
    }
  }

  lemma BracketIsLong(s: Bytes)
    requires IsPasteEnd(s)
    ensures |s| > 1
  {
  }

  // ----- The events of a paste -----

  /** Pastes alone: only the first is flagged first, only the last final, and that one terminated or not. */
  ghost predicate AreOnePaste(events: seq<Event>, terminated: bool) {
    && events != []
    && forall i :: 0 <= i < |events| ==>
         && events[i].Pasted?
         && (events[i].isFirst <==> i == 0)
         && (events[i].isFinal <==> i == |events| - 1)
         && (events[i].terminated <==> terminated && i == |events| - 1)
  }

  lemma {:induction false} FlagsCarryOver(m: MapState, ts: seq<Token>, tables: Tables)
    requires IsOnePaste(ts) && ts != [] && ts[|ts| - 1].paste.isFinal
    ensures var r := MapTokens(m, ts, tables);
      && |r.events| == |ts| && r.mapping == m.(pastePendingCr := false)
      && forall i :: 0 <= i < |ts| ==>
           && r.events[i].Pasted?
           && r.events[i].isFirst == ts[i].paste.isFirst
           && r.events[i].isFinal == ts[i].paste.isFinal
           && r.events[i].terminated == ts[i].paste.terminated
    decreases |ts|
  {
    hide Normalize;
    var first := MapToken(m, ts[0], tables);
    var rest := ts[1..];
    if rest == [] {
      NoTokensNoEvents(first.mapping, tables);
    } else {
      assert forall i :: 0 <= i < |rest| ==> rest[i] == ts[i + 1];
      FlagsCarryOver(first.mapping, rest, tables);
    }
  }

  /** Any body without an end bracket of its own, between either start bracket and either end bracket, cut in any
      chunks and under any limit that admits a paste: its events are one paste, whose data together are the body with
      every line ending as one LF, and nothing is left behind. */
  lemma PasteReadsBack(
      intro: Bytes, body: Bytes, end: Bytes, chunks: seq<Bytes>, limit: nat, half: Option<nat>, tables: Tables)
    requires IsPasteIntro(intro) && IsPasteEnd(end) && NoBracket(body) && limit >= 3
    requires Concat(chunks) == intro + body + end
    ensures var o := FeedAll(Ground, chunks, limit);
      var r := MapTokens(MapState(false, half), o.tokens, tables);
      && o.state == Ground && r.mapping == MapState(false, half)
      && AreOnePaste(r.events, true) && PastedData(r.events) == LineFeeds(body)
  {
    hide RunWith, FeedAll, NoBracket, Normalize, BracketLen, IsPasteEnd, IsPasteIntro, MapTokens, LineFeeds, Tracks,
      FirstBracket, PastedData, PastePayload;
    var all := body + end;
    assert intro + body + end == intro + all;
    AnyChunking(chunks, limit);
    OwnBracket(body, end);
    var r := PasteEndsAtFirstBracket(intro, all, limit);
    OnlyFirst(all, |all|);
    assert r.PasteClosed?;
    FirstIsUnique(all, r.read, |all|);
    assert all[|all|..] == [] && all[..|body|] == body;
    RunNothing(limit);
    assert r.tokens + [] == r.tokens && [] + PastePayload(r.tokens) == PastePayload(r.tokens);
    FlagsCarryOver(MapState(false, half), r.tokens, tables);
    PasteTextIsSegmentationFree(r.tokens, half, tables);
  }

  lemma {:induction false} PayloadAppend(a: seq<Token>, b: seq<Token>)
    ensures PastePayload(a + b) == PastePayload(a) + PastePayload(b)
    decreases |a|
  {
    if a == [] {
      assert a + b == b;
    } else {
      assert (a + b)[1..] == a[1..] + b;
      PayloadAppend(a[1..], b);
    }
  }

  lemma LastPayload(p: PasteState)
    requires p.Valid()
    ensures PastePayload([FinalToken(p.(retained := p.retained + p.pendingMatch), false)])
         == Payload(p) + p.pendingMatch
  {
    var t := FinalToken(p.(retained := p.retained + p.pendingMatch), false);
    assert [t][1..] == [];
    assert t.paste.payload == Payload(p) + p.pendingMatch;
  }

  /** A body that the end of input cuts short, the start of an end bracket included, is delivered all the same, as one
      paste that is not terminated. */
  lemma CutPasteReadsBack(
      intro: Bytes, body: Bytes, chunks: seq<Bytes>, limit: nat, half: Option<nat>, tables: Tables)
    requires IsPasteIntro(intro) && NoBracket(body) && limit >= 3 && Concat(chunks) == intro + body
    ensures var r := MapTokens(MapState(false, half), AllTokens(chunks, limit), tables);
      && r.mapping == MapState(false, half)
      && AreOnePaste(r.events, false) && PastedData(r.events) == LineFeeds(body)
  {
    hide RunWith, FeedAll, NoBracket, Normalize, IsPasteIntro, MapTokens, LineFeeds, PastedData, PastePayload,
      IsPasteEndPrefix;
    AnyChunking(chunks, limit);
    var r := PasteEndsAtFirstBracket(intro, body, limit);
    var p := r.paste;
    var last := FinalToken(p.(retained := p.retained + p.pendingMatch), false);
    var ts := r.tokens + [last];
    assert AllTokens(chunks, limit) == ts;
    PayloadAppend(r.tokens, [last]);
    LastPayload(p);
    assert [] + PastePayload(r.tokens) + Payload(p) + p.pendingMatch == PastePayload(ts);
    FlagsCarryOver(MapState(false, half), ts, tables);
    PasteTextIsSegmentationFree(ts, half, tables);
  }

  lemma OnlyFirst(s: Bytes, k: nat)
    requires FirstBracket(s, k)
    ensures !NoBracket(s)
  {
  }

  lemma FirstIsUnique(s: Bytes, i: nat, j: nat)
    requires FirstBracket(s, i) && FirstBracket(s, j)
    ensures i == j
  {
    if i < j { BracketIn(s, i, j); }
    if j < i { BracketIn(s, j, i); }
  }

  lemma BracketIn(s: Bytes, i: nat, j: nat)
    requires i < j <= |s| && BracketLen(s, i) > 0
    ensures !NoBracket(s[..j - 1])
  {
    BracketLenOfPrefix(s[..j - 1], s, i);
  }
}
