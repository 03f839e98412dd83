/** Control strings read back: every kind, both spellings of its introducer and every terminator; among them what the
    OSC and APC byte builders (`src/escape.rs`) print. */
module StringFraming {
  import opened Bytes
  import opened Tokens
  import opened Grammar
  import opened PayloadScan
  import opened SplitEquivalence
  import opened SequenceRoundTrips

  // ----- The form of a string (section 5.6 of ECMA-48) -----

  function Introducer(kind: StringKind, eightBit: bool): Bytes {
    match kind
    case KindOsc => if eightBit then [0x9d] else [ESC, 0x5d]
    case KindDcs => if eightBit then [0x90] else [ESC, 0x50]
    case KindApc => if eightBit then [0x9f] else [ESC, 0x5f]
    case KindPm => if eightBit then [0x9e] else [ESC, 0x5e]
    case KindSos => if eightBit then [0x98] else [ESC, 0x58]
  }

  // The head of a string; only a DCS has a prefix.
  datatype Head = Head(kind: StringKind, eightBit: bool, prefix: Option<ControlParams>) {
    predicate Fits(limit: nat) {
      && (prefix.Some? <==> kind == KindDcs)
      && (prefix.Some? ==> IsPrefix(prefix.value) && PrefixSize(prefix.value) <= limit)
    }

    function Bytes(): Bytes {
      Introducer(kind, eightBit) + if prefix.Some? then PrefixBytes(prefix.value) else []
    }

    /** How many payload bytes the limit leaves room for. */
    function Room(limit: nat): nat {
      var used := if prefix.Some? then PrefixSize(prefix.value) + 1 else 0;
      if used < limit then limit - used else 0
    }

    /** The string in progress once its head has been read. */
    function Opened(): (a: StringState)
      ensures a.Valid()
    {
      var intro := Introducer(kind, eightBit);
      StringState(kind, Bytes(), |intro|, |Bytes()|, 0, false, prefix)
    }
  }

  function Framed(head: Head, payload: Bytes, end: Terminator): Bytes { head.Bytes() + payload + end.Raw() }

  predicate Closes(kind: StringKind, end: Terminator) { end != Unterminated && (end == Bel ==> kind == KindOsc) }

  function Min(a: nat, b: nat): nat { if a < b then a else b }

  /** The one token a framed payload reads back as: the bytes there is room for kept, the rest counted. */
  function ReadBack(head: Head, payload: Bytes, end: Terminator, limit: nat): Token {
    var kept := payload[..Min(|payload|, head.Room(limit))];
    Str(StringSequence(head.kind, Framed(head, kept, end), kept, |payload| - |kept|, end, head.prefix))
  }

  /** `b` neither ends nor aborts a control string of this kind. */
  predicate IsPlainByte(kind: StringKind, b: Byte) {
    b != ESC && b != C1_ST && !IsAbort(b) && !(kind == KindOsc && b == BEL)
  }

  predicate IsPlain(kind: StringKind, s: Bytes) {
    forall i :: 0 <= i < |s| ==> IsPlainByte(kind, s[i])
  }

  // ----- What the byte builders print -----

  const OSC_HEAD := Head(KindOsc, false, None)
  const APC_HEAD := Head(KindApc, false, None)

  method Osc(payload: Bytes) returns (bytes: Bytes)
    ensures bytes == Framed(OSC_HEAD, payload, EscBackslash)
  {
    bytes := [];
    bytes := bytes + [ESC];
    bytes := bytes + [0x5d];
    bytes := bytes + payload;
    bytes := bytes + [ESC];
    bytes := bytes + [0x5c];
  }

  method Apc(payload: Bytes) returns (bytes: Bytes)
    ensures bytes == Framed(APC_HEAD, payload, EscBackslash)
  {
    bytes := [];
    bytes := bytes + [ESC];
    bytes := bytes + [0x5f];
    bytes := bytes + payload;
    bytes := bytes + [ESC];
    bytes := bytes + [0x5c];
  }

  // ----- Reading the head -----

  lemma HeadOpens(head: Head, rest: Bytes, limit: nat)
    requires head.Fits(limit)
    ensures Step(head.Bytes() + rest, limit) == EnterString(head.Opened(), |head.Bytes()|)
  {
    hide ScanPrefix, PrefixBytes, PrefixSize;
    var intro := Introducer(head.kind, head.eightBit);
    var buf := head.Bytes() + rest;
    assert buf[..|head.Bytes()|] == head.Bytes() && buf[..|intro|] == intro;
    if head.prefix.Some? {
      assert buf[|intro|..] == PrefixBytes(head.prefix.value) + rest;
      PrefixReadsBack(head.prefix.value, rest, limit);
    } else {
      assert head.Bytes() == intro;
    }
    assert Step(buf, limit) == StepString(buf, head.kind, |intro|, limit);
  }

  // ----- Reading the payload -----

  /** The accumulator after `s` plain payload bytes. */
  function Absorbed(head: Head, s: Bytes, limit: nat): (a: StringState)
    ensures a.Valid()
  {
    var kept := s[..Min(|s|, head.Room(limit))];
    var a := head.Opened();
    a.(retained := a.retained + kept, dropped := |s| - |kept|)
  }

  lemma AbsorbOne(head: Head, s: Bytes, b: Byte, limit: nat)
    requires head.Fits(limit) && IsPlainByte(head.kind, b)
    ensures StepInString(Absorbed(head, s, limit), b, limit) == Stay(Absorbed(head, s + [b], limit))
  {
    hide PrefixBytes;
    var a := Absorbed(head, s, limit);
    var room := head.Room(limit);
    if |s| < room {
      assert (s + [b])[..|s| + 1] == s[..|s|] + [b];
      assert a.retained + [b] == head.Opened().retained + (s[..|s|] + [b]);
    } else {
      assert (s + [b])[..room] == s[..room];
    }
  }

  /** Reading a plain prefix only absorbs it. */
  lemma {:induction false} PlainPrefix(head: Head, before: Bytes, s: Bytes, more: Bytes, limit: nat)
    requires head.Fits(limit) && IsPlain(head.kind, s)
    ensures StringScan(Absorbed(head, before, limit), s + more, limit)
         == PayloadScan.Later(StringScan(Absorbed(head, before + s, limit), more, limit), |s|)
    decreases |s|
  {
    hide Absorbed, StepInString;
    if s == [] {
      assert before + s == before && s + more == more;
    } else {
      AbsorbOne(head, before, s[0], limit);
      assert (s + more)[0] == s[0] && (s + more)[1..] == s[1..] + more;
      assert (before + [s[0]]) + s[1..] == before + s;
      PlainPrefix(head, before + [s[0]], s[1..], more, limit);
    }
  }

  lemma FramedRun(head: Head, payload: Bytes, end: Terminator, rest: Bytes, limit: nat)
    requires head.Fits(limit)
    ensures var tail := payload + (end.Raw() + rest);
      Run(Framed(head, payload, end) + rest, limit)
        == Continue(StringScan(Absorbed(head, [], limit), tail, limit), tail, limit, limit)
  {
    hide RunWith, StepWith, StringRunWith, StringScan;
    var buf := Framed(head, payload, end) + rest;
    var tail := payload + (end.Raw() + rest);
    var a := head.Opened();
    assert buf == head.Bytes() + tail && buf[|head.Bytes()|..] == tail && buf[0..] == buf;
    HeadOpens(head, tail, limit);
    assert a.retained + [] == a.retained && Absorbed(head, [], limit) == a;
    RunAt(buf, 0, limit);
  }

  lemma ClosesWithToken(a: StringState, end: Terminator, rest: Bytes, limit: nat)
    requires a.Valid() && !a.escHeld && Closes(a.kind, end)
    ensures StringScan(a, end.Raw() + rest, limit) == Closed(StringToken(a, end), [], |end.Raw()|)
  {
    var buf := end.Raw() + rest;
    if end == EscBackslash {
      var held := a.(escHeld := true);
      assert buf[1..] == [0x5c] + rest;
      assert StringScan(held, buf[1..], limit) == Closed(StringToken(held, EscBackslash), [], 1);
    }
  }

  lemma AbsorbedToken(head: Head, s: Bytes, end: Terminator, limit: nat)
    ensures StringToken(Absorbed(head, s, limit), end) == ReadBack(head, s, end, limit)
  {
    var a := Absorbed(head, s, limit);
    var kept := s[..Min(|s|, head.Room(limit))];
    assert a.retained[a.payloadStart..] == kept;
  }

  /** A plain payload reads back as exactly one token, whatever follows it. */
  lemma PlainReadsBack(head: Head, payload: Bytes, end: Terminator, rest: Bytes, limit: nat)
    requires head.Fits(limit) && Closes(head.kind, end) && IsPlain(head.kind, payload)
    ensures Run(Framed(head, payload, end) + rest, limit)
         == Prepend([ReadBack(head, payload, end, limit)], Run(rest, limit))
  {
    hide RunWith, StringScan, StringRunWith, ReadBack;
    FramedRun(head, payload, end, rest, limit);
    var close := end.Raw() + rest;
    var tail := payload + close;
    PlainPrefix(head, [], payload, close, limit);
    assert [] + payload == payload;
    var a := Absorbed(head, payload, limit);
    ClosesWithToken(a, end, rest, limit);
    AbsorbedToken(head, payload, end, limit);
    assert tail[|payload| + |end.Raw()|..] == rest && [] + rest == rest;
  }

  // ----- The converse: nothing else survives the frame -----

  /** Where the first byte that is not plain stands. */
  function FirstBreak(kind: StringKind, s: Bytes): (n: nat)
    requires !IsPlain(kind, s)
    ensures n < |s| && !IsPlainByte(kind, s[n]) && IsPlain(kind, s[..n])
  {
    if !IsPlainByte(kind, s[0]) then 0
    else
      assert forall i :: 1 <= i < |s| ==> s[i] == s[1..][i - 1];
      1 + FirstBreak(kind, s[1..])
  }

  /** A payload that is not plain does not read back: its first token is another. */
  lemma BrokenDoesNotReadBack(head: Head, payload: Bytes, end: Terminator, rest: Bytes, limit: nat)
    requires head.Fits(limit) && Closes(head.kind, end) && !IsPlain(head.kind, payload)
    ensures var ts := Run(Framed(head, payload, end) + rest, limit).tokens;
      ts == [] || ts[0] != ReadBack(head, payload, end, limit)
  {
    hide RunWith, StringScan, StringRunWith, ReadBack;
    FramedRun(head, payload, end, rest, limit);
    var n := FirstBreak(head.kind, payload);
    var before := payload[..n];
    var more := payload[n..] + (end.Raw() + rest);
    assert payload + (end.Raw() + rest) == before + more;
    PlainPrefix(head, [], before, more, limit);
    assert [] + before == before;
    BreakClosesOtherwise(head, payload, end, before, more, limit);
  }

  lemma BreakClosesOtherwise(head: Head, payload: Bytes, end: Terminator, before: Bytes, more: Bytes, limit: nat)
    requires head.Fits(limit) && Closes(head.kind, end)
    requires |before| < |payload| && |more| >= 2 && !IsPlainByte(head.kind, more[0])
    ensures var r := StringScan(Absorbed(head, before, limit), more, limit);
      r.Closed? ==> r.token != ReadBack(head, payload, end, limit)
  {
    var a := Absorbed(head, before, limit);
    var other := ReadBack(head, payload, end, limit);
    assert other.body.dropped + |other.body.payload| == |payload|;
    assert a.dropped + (|a.retained| - a.payloadStart) == |before|;
    if more[0] == ESC {
      var held := a.(escHeld := true);
      assert more[1..][0] == more[1];
      assert StepInString(a, ESC, limit) == Stay(held);
      assert StepInString(held, more[1], limit).Close?;
    }
  }

  /** For every kind, introducer, prefix and terminator: the framed payload reads back, in every chunking and with exact
      truncation, as the one token that spells it, exactly when the payload is plain. */
  lemma FramingRoundTrip(head: Head, payload: Bytes, end: Terminator, chunks: seq<Bytes>, limit: nat)
    requires head.Fits(limit) && Closes(head.kind, end)
    requires Concat(chunks) == Framed(head, payload, end)
    ensures FeedAll(Ground, chunks, limit) == Outcome(Ground, [ReadBack(head, payload, end, limit)])
       <==> IsPlain(head.kind, payload)
  {
    hide RunWith, ReadBack;
    AnyChunking(chunks, limit);
    var frame := Framed(head, payload, end);
    assert frame + [] == frame;
    if IsPlain(head.kind, payload) {
      PlainReadsBack(head, payload, end, [], limit);
      RunNothing(limit);
      var t := ReadBack(head, payload, end, limit);
      assert [t] + [] == [t];
    } else {
      BrokenDoesNotReadBack(head, payload, end, [], limit);
    }
  }
}
