/** A bracketed paste ends at the first end bracket, and its segments carry every byte before it. */
module PasteExact {
  import opened Bytes
  import opened Tokens
  import opened Grammar
  import opened PayloadScan
  import opened Bounds

  // ----- The reference: where the first end bracket of a stream ends -----

  /** The length of the end bracket that ends at position `k` of `s`; 0 when none does. */
  function BracketLen(s: Bytes, k: nat): (n: nat)
    requires k <= |s|
    ensures n <= k && (n > 0 <==> exists i :: 0 <= i <= k && IsPasteEnd(s[i..k]))
    ensures n > 0 ==> IsPasteEnd(s[k - n..k])
  {
    if k >= 6 && s[k - 6..k] == PASTE_END_7BIT then 6
    else if k >= 5 && s[k - 5..k] == PASTE_END_8BIT then 5
    else 0
  }

  predicate NoBracket(s: Bytes) { forall k :: 0 <= k <= |s| ==> BracketLen(s, k) == 0 }

  /** Position `k` is where the first end bracket of `s` ends. */
  predicate FirstBracket(s: Bytes, k: nat) {
    0 < k <= |s| && BracketLen(s, k) > 0 && NoBracket(s[..k - 1])
  }

  function PastePayload(tokens: seq<Token>): Bytes {
    if tokens == [] then []
    else (if tokens[0].Paste? then tokens[0].paste.payload else []) + PastePayload(tokens[1..])
  }

  /** Only the first token is flagged first, only the last of a closed paste final and terminated. */
  ghost predicate Flagged(tokens: seq<Token>, first: bool, closed: bool) {
    forall i :: 0 <= i < |tokens| ==>
      && tokens[i].Paste?
      && (tokens[i].paste.isFirst <==> first && i == 0)
      && (tokens[i].paste.isFinal <==> closed && i == |tokens| - 1)
      && (tokens[i].paste.terminated <==> tokens[i].paste.isFinal)
  }

  // ----- The matcher's invariant -----

  /** After `past`, of which `payload` is committed, the candidate held is the longest suffix of
      `past` that begins an end bracket, and no end bracket has been read. */
  ghost predicate Tracks(past: Bytes, payload: Bytes, held: Bytes) {
    && past == payload + held
    && IsPasteEndPrefix(held)
    && (forall i :: 0 <= i < |payload| ==> !IsPasteEndPrefix(past[i..]))
    && NoBracket(past)
  }

  function Payload(p: PasteState): Bytes
    requires p.Valid()
  {
    p.retained[p.payloadStart..]
  }

  /** A suffix of the longer stream that begins a bracket starts within the held candidate. */
  lemma LiveSuffixIsInCandidate(past: Bytes, payload: Bytes, held: Bytes, b: Byte, i: nat)
    requires Tracks(past, payload, held) && i < |payload|
    ensures !IsPasteEndPrefix((past + [b])[i..])
  {
    var s := (past + [b])[i..];
    assert past[i..] == s[..|past| - i];
    PrefixOfLiveIsLive(past[i..], s);
  }

  lemma PrefixOfLiveIsLive(a: Bytes, b: Bytes)
    requires a <= b
    ensures IsPasteEndPrefix(b) ==> IsPasteEndPrefix(a)
  {
  }

  lemma CandidateSuffix(past: Bytes, payload: Bytes, held: Bytes, b: Byte, i: nat)
    requires past == payload + held && |payload| <= i <= |past| + 1
    ensures (past + [b])[i..] == (held + [b])[i - |payload|..]
  {
  }

  /** Unless `b` completes the candidate, no end bracket ends with it. */
  lemma NoBracketAtEnd(past: Bytes, payload: Bytes, held: Bytes, b: Byte, i: nat)
    requires Tracks(past, payload, held) && !IsPasteEnd(held + [b])
    requires i <= |past| + 1
    ensures !IsPasteEnd((past + [b])[i..])
  {
    if i < |payload| {
      LiveSuffixIsInCandidate(past, payload, held, b, i);
    } else {
      CandidateSuffix(past, payload, held, b, i);
      if |payload| < i {
        ShiftedIsNotEnd(held, b, i - |payload|);
      } else {
        assert (held + [b])[0..] == held + [b];
      }
    }
  }

  lemma NoBracketExtends(past: Bytes, payload: Bytes, held: Bytes, b: Byte)
    requires Tracks(past, payload, held) && !IsPasteEnd(held + [b])
    ensures NoBracket(past + [b])
  {
    var all := past + [b];
    forall k | 0 <= k <= |all| ensures BracketLen(all, k) == 0 {
      if k < |all| {
        BracketLenOfPrefix(past, all, k);
      } else {
        forall i | 0 <= i <= k ensures !IsPasteEnd(all[i..k]) {
          assert all[i..k] == all[i..];
          NoBracketAtEnd(past, payload, held, b, i);
        }
      }
    }
  }

  lemma BracketLenOfPrefix(a: Bytes, b: Bytes, k: nat)
    requires k <= |a| <= |b| && b[..|a|] == a
    ensures BracketLen(b, k) == BracketLen(a, k)
  {
    assert k >= 6 ==> b[k - 6..k] == a[k - 6..k];
    assert k >= 5 ==> b[k - 5..k] == a[k - 5..k];
  }

  /** `Advance` commits exactly the bytes before the longest live suffix. */
  lemma AdvanceTracks(p: PasteState, past: Bytes, payload: Bytes, b: Byte)
    requires p.Valid() && Tracks(past, payload, p.pendingMatch)
    requires !IsPasteEnd(p.pendingMatch + [b])
    ensures var q := Advance(p, b);
      && |p.retained| <= |q.retained| && q.retained[..|p.retained|] == p.retained
      && Tracks(past + [b], payload + q.retained[|p.retained|..], q.pendingMatch)
  {
    hide NoBracket, IsPasteEnd, BracketLen, Advance, IsPasteEndPrefix;
    var held := p.pendingMatch;
    var candidate := held + [b];
    var q := Advance(p, b);
    var n := AdvanceCommits(p, b);
    assert q.retained[|p.retained|..] == candidate[..n];
    assert past + [b] == (payload + candidate[..n]) + candidate[n..];
    forall i | 0 <= i < |payload + candidate[..n]| ensures !IsPasteEndPrefix((past + [b])[i..]) {
      if i < |payload| {
        LiveSuffixIsInCandidate(past, payload, held, b, i);
      } else {
        CandidateSuffix(past, payload, held, b, i);
      }
    }
    NoBracketExtends(past, payload, held, b);
  }

  /** The bytes of the candidate that `Advance` commits: those no live suffix starts at. */
  lemma AdvanceCommits(p: PasteState, b: Byte) returns (n: nat)
    ensures var candidate := p.pendingMatch + [b];
      var q := Advance(p, b);
      && n <= |candidate|
      && q.retained == p.retained + candidate[..n] && q.pendingMatch == candidate[n..]
      && IsPasteEndPrefix(candidate[n..])
      && forall k :: 0 <= k < n ==> !IsPasteEndPrefix(candidate[k..])
  {
    var candidate := p.pendingMatch + [b];
    hide IsPasteEndPrefix;
    assert candidate[0..] == candidate;
    n := if IsPasteEndPrefix(candidate) then 0 else Shift(candidate, 1);
    assert p.retained + candidate[..0] == p.retained;
  }

  /** What a paste scan means for the stream: `emitted` is payload already delivered in earlier
      segments of the same paste. */
  ghost predicate ScanIsExact(r: PasteEnd, all: Bytes, from: nat, emitted: Bytes, first: bool) {
    match r
    case PasteOpen(ts, p) =>
      && p.Valid()
      && Tracks(all, emitted + PastePayload(ts) + Payload(p), p.pendingMatch)
      && Flagged(ts, first, false)
      && (p.isFirst <==> first && ts == [])
    case PasteClosed(ts, read) =>
      && ts != [] && Flagged(ts, first, true)
      && FirstBracket(all, from + read)
      && emitted + PastePayload(ts) == all[..from + read - BracketLen(all, from + read)]
  }

  lemma ClosingIsExact(p: PasteState, past: Bytes, buf: Bytes, emitted: Bytes)
    requires p.Valid() && buf != []
    requires Tracks(past, emitted + Payload(p), p.pendingMatch)
    requires IsPasteEnd(p.pendingMatch + [buf[0]])
    ensures ScanIsExact(
      PasteClosed([FinalToken(p.(pendingMatch := p.pendingMatch + [buf[0]]), true)], 1),
      past + buf, |past|, emitted, p.isFirst)
  {
    hide Tracks, NoBracket, BracketLen;
    var candidate := p.pendingMatch + [buf[0]];
    var all := past + buf;
    CompletedCandidate(past, emitted + Payload(p), p.pendingMatch, buf);
    var ts := [FinalToken(p.(pendingMatch := candidate), true)];
    assert ts[1..] == [];
    assert PastePayload(ts) == Payload(p) + [];
    assert emitted + PastePayload(ts) == emitted + Payload(p);
  }

  lemma CandidateIsLast(payload: Bytes, held: Bytes, buf: Bytes)
    requires buf != []
    ensures var all := payload + held + buf;
      all[..|payload|] == payload && all[|payload|..|payload + held| + 1] == held + [buf[0]]
  {
  }

  /** A bracket that ends here is the one `BracketLen` finds. */
  lemma BracketLenIs(s: Bytes, k: nat, n: nat)
    requires n <= k <= |s| && IsPasteEnd(s[k - n..k])
    ensures BracketLen(s, k) == n
  {
    var candidate := s[k - n..k];
    assert |candidate| == n && (n == 6 || n == 5);
    if n == 5 {
      assert s[k - 5] == candidate[0] == 0x9b;
      assert k >= 6 ==> s[k - 6..k][1] == s[k - 5] != PASTE_END_7BIT[1];
    }
  }

  lemma CompletedCandidate(past: Bytes, payload: Bytes, held: Bytes, buf: Bytes)
    requires buf != [] && Tracks(past, payload, held) && IsPasteEnd(held + [buf[0]])
    ensures var all := past + buf;
      && FirstBracket(all, |past| + 1)
      && payload == all[..|past| + 1 - BracketLen(all, |past| + 1)]
  {
    hide BracketLen, IsPasteEnd, IsPasteEndPrefix, NoBracket;
    var all := past + buf;
    CandidateIsLast(payload, held, buf);
    BracketLenIs(all, |past| + 1, |held| + 1);
    assert all[..|past|] == past;
  }

  lemma LaterIsExact(ts: seq<Token>, r: PasteEnd, all: Bytes, from: nat, emitted: Bytes, first: bool)
    requires |ts| <= 1 && Flagged(ts, first, false)
    requires ScanIsExact(r, all, from + 1, emitted + PastePayload(ts), first && ts == [])
    ensures ScanIsExact(PasteLater(ts, r, 1), all, from, emitted, first)
  {
    hide Tracks, PastePayload, NoBracket, BracketLen, Flagged;
    PayloadAppends(ts, r.tokens);
    FlagsAppend(ts, r.tokens, first, r.PasteClosed?);
    assert emitted + PastePayload(ts) + PastePayload(r.tokens)
        == emitted + PastePayload(ts + r.tokens);
    if r.PasteClosed? { assert from + 1 + r.read == from + (1 + r.read); }
  }

  lemma FlagsAppend(a: seq<Token>, b: seq<Token>, first: bool, closed: bool)
    requires |a| <= 1 && Flagged(a, first, false) && Flagged(b, first && a == [], closed)
    requires closed ==> b != []
    ensures Flagged(a + b, first, closed)
  {
  }

  lemma {:induction false} PayloadAppends(a: seq<Token>, b: seq<Token>)
    ensures PastePayload(a + b) == PastePayload(a) + PastePayload(b)
  {
    if a == [] {
      assert a + b == b;
    } else {
      assert (a + b)[1..] == a[1..] + b;
      PayloadAppends(a[1..], b);
    }
  }

  lemma {:induction false} PasteScanIsExact(p: PasteState, past: Bytes, buf: Bytes, emitted: Bytes, limit: nat)
    requires p.Valid() && Tracks(past, emitted + Payload(p), p.pendingMatch)
    ensures ScanIsExact(PasteScan(p, buf, limit), past + buf, |past|, emitted, p.isFirst)
    decreases |buf|
  {
    hide Advance, Tracks, ScanIsExact, IsPasteEnd;
    if buf == [] {
      NothingIsExact(p, past, emitted);
      assert past + buf == past;
    } else if IsPasteEnd(p.pendingMatch + [buf[0]]) {
      ClosingIsExact(p, past, buf, emitted);
    } else {
      AdvanceTracks(p, past, emitted + Payload(p), buf[0]);
      var q := Advance(p, buf[0]);
      AdvanceKeepsShape(p, buf[0]);
      assert Payload(q) == Payload(p) + q.retained[|p.retained|..];
      assert emitted + Payload(p) + q.retained[|p.retained|..] == emitted + Payload(q);
      assert (past + [buf[0]]) + buf[1..] == past + buf;
      if |q.retained| - q.payloadStart >= limit {
        var s := AfterSegment(q);
        SegmentIsFlagged(q);
        assert (emitted + Payload(q)) + Payload(s) == emitted + Payload(q);
        PasteScanIsExact(s, past + [buf[0]], buf[1..], emitted + Payload(q), limit);
        LaterIsExact([SegmentToken(q)], PasteScan(s, buf[1..], limit), past + buf, |past|, emitted, p.isFirst);
      } else {
        assert emitted + PastePayload([]) == emitted;
        PasteScanIsExact(q, past + [buf[0]], buf[1..], emitted, limit);
        LaterIsExact([], PasteScan(q, buf[1..], limit), past + buf, |past|, emitted, p.isFirst);
      }
    }
  }

  lemma AdvanceKeepsShape(p: PasteState, b: Byte)
    requires p.Valid()
    ensures Advance(p, b).payloadStart == p.payloadStart && Advance(p, b).isFirst == p.isFirst
  {
  }

  lemma SegmentIsFlagged(q: PasteState)
    requires q.Valid()
    ensures Flagged([SegmentToken(q)], q.isFirst, false)
    ensures PastePayload([SegmentToken(q)]) == Payload(q)
  {
  }

  lemma NothingIsExact(p: PasteState, past: Bytes, emitted: Bytes)
    requires p.Valid() && Tracks(past, emitted + Payload(p), p.pendingMatch)
    ensures ScanIsExact(PasteOpen([], p), past, |past|, emitted, p.isFirst)
  {
    assert emitted + PastePayload([]) + Payload(p) == emitted + Payload(p);
  }

  // ----- From the start bracket -----

  predicate IsPasteIntro(intro: Bytes) {
    intro == [0x1b, 0x5b, 0x32, 0x30, 0x30, 0x7e] || intro == [0x9b, 0x32, 0x30, 0x30, 0x7e]
  }

  lemma PasteStartPrefix(body: Bytes, limit: nat)
    requires limit >= 3
    ensures ScanPrefix([0x32, 0x30, 0x30, 0x7e] + body, limit)
         == Complete(ControlParams([], PASTE_PARAM, [], 0x7e), 4)
  {
    hide SpanLen;
    var rest := [0x32, 0x30, 0x30, 0x7e] + body;
    SpanLenUnique(PrivateMarker, rest, 0);
    assert rest[0..] == rest;
    SpanLenUnique(ParamByte, rest, 3);
    SpanLenUnique(Intermediate, rest[3..], 0);
    assert PrefixMarks(rest) == Marks(0, 3, 3);
    assert rest[0..3] == PASTE_PARAM && rest[..0] == [] && rest[3..3] == [];
  }

  lemma IntroEntersPaste(intro: Bytes, body: Bytes, limit: nat)
    requires IsPasteIntro(intro) && limit >= 3
    ensures Step(intro + body, limit) == EnterPaste(PasteState(intro, |intro|, true, []), |intro|)
  {
    hide ScanPrefix;
    var buf := intro + body;
    var k := |intro| - 4;
    assert buf[k..] == [0x32, 0x30, 0x30, 0x7e] + body;
    PasteStartPrefix(body, limit);
    assert buf[..|intro|] == intro;
  }

  /** For every limit that admits a paste and every body: the paste is over at the body's first end
      bracket and only there, its segments' payloads together are the bytes before that bracket, and
      reading resumes right after it. */
  lemma PasteEndsAtFirstBracket(intro: Bytes, body: Bytes, limit: nat)
    returns (r: PasteEnd)
    requires IsPasteIntro(intro) && limit >= 3
    ensures ScanIsExact(r, body, 0, [], true)
    ensures r.PasteClosed? ==> r.read <= |body|
    ensures Run(intro + body, limit) == PasteContinue(r, body, limit, limit)
    ensures r.PasteOpen? <==> NoBracket(body)
  {
    hide StepWith, PasteScan;
    var p := PasteState(intro, |intro|, true, []);
    r := PasteScan(p, body, limit);
    IntroEntersPaste(intro, body, limit);
    assert (intro + body)[|intro|..] == body;
    PasteRunIsScan(p, body, limit, limit);
    assert [] + Payload(p) == [];
    assert Tracks([], [], []);
    assert [] + body == body;
    PasteScanIsExact(p, [], body, [], limit);
  }
}
