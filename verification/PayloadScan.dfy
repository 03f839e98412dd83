/** The part of a read that lies inside one control string or one paste, cut loose from what follows.

    `StringScan` and `PasteScan` are what `consume_string` and `consume_paste` compute; `Grammar`'s
    whole-buffer functions are these followed by an ordinary run. */
module PayloadScan {
  import opened Bytes
  import opened Tokens
  import opened Grammar

  // `read` counts the bytes consumed, the closing one included.
  datatype StringEnd = StillOpen(str: StringState) | Closed(token: Token, reread: Bytes, read: nat)

  function StringScan(a: StringState, buf: Bytes, limit: nat): (r: StringEnd)
    requires a.Valid()
    ensures r.StillOpen? ==> r.str.Valid()
    ensures r.Closed? ==> 0 < r.read <= |buf|
    decreases |buf|
  {
    if buf == [] then StillOpen(a)
    else match StepInString(a, buf[0], limit)
      case Close(token, reread) => Closed(token, reread, 1)
      case Stay(a') => Later(StringScan(a', buf[1..], limit), 1)
  }

  function Later(r: StringEnd, n: nat): StringEnd {
    match r
    case StillOpen(a) => r
    case Closed(token, reread, read) => Closed(token, reread, n + read)
  }

  function Continue(r: StringEnd, buf: Bytes, cap: nat, textCap: nat): Outcome
    requires r.StillOpen? ==> r.str.Valid()
    requires r.Closed? ==> r.read <= |buf|
  {
    match r
    case StillOpen(a) => Outcome(InString(a), [])
    case Closed(token, reread, read) =>
      Prepend([token], RunWith(reread + buf[read..], cap, textCap))
  }

  lemma {:induction false} StringRunIsScan(a: StringState, buf: Bytes, cap: nat, textCap: nat)
    requires a.Valid()
    ensures StringRunWith(a, buf, cap, textCap)
         == Continue(StringScan(a, buf, cap), buf, cap, textCap)
    decreases |buf|
  {
    if buf != [] {
      match StepInString(a, buf[0], cap)
      case Close(token, reread) =>
      case Stay(a') =>
        StringRunIsScan(a', buf[1..], cap, textCap);
        var r := StringScan(a', buf[1..], cap);
        if r.Closed? { assert buf[1..][r.read..] == buf[1 + r.read..]; }
    }
  }

  /** One byte of a scan, in positions of the whole buffer. */
  lemma StringScanAt(a: StringState, bytes: Bytes, index: nat, limit: nat)
    requires a.Valid() && index < |bytes|
    ensures StringScan(a, bytes[index..], limit) == match StepInString(a, bytes[index], limit)
      case Close(token, reread) => Closed(token, reread, 1)
      case Stay(a') => Later(StringScan(a', bytes[index + 1..], limit), 1)
  {
    assert bytes[index..][1..] == bytes[index + 1..];
  }

  datatype PasteEnd =
    | PasteOpen(tokens: seq<Token>, paste: PasteState)
    | PasteClosed(tokens: seq<Token>, read: nat)

  function PasteScan(a: PasteState, buf: Bytes, limit: nat): (r: PasteEnd)
    requires a.Valid()
    ensures r.PasteOpen? ==> r.paste.Valid()
    ensures r.PasteClosed? ==> 0 < r.read <= |buf|
    decreases |buf|
  {
    if buf == [] then PasteOpen([], a)
    else if IsPasteEnd(a.pendingMatch + [buf[0]]) then
      PasteClosed([FinalToken(a.(pendingMatch := a.pendingMatch + [buf[0]]), true)], 1)
    else
      var a' := Advance(a, buf[0]);
      if |a'.retained| - a'.payloadStart >= limit then
        PasteLater([SegmentToken(a')], PasteScan(AfterSegment(a'), buf[1..], limit), 1)
      else PasteLater([], PasteScan(a', buf[1..], limit), 1)
  }

  function PasteLater(tokens: seq<Token>, r: PasteEnd, n: nat): PasteEnd {
    match r
    case PasteOpen(ts, a) => PasteOpen(tokens + ts, a)
    case PasteClosed(ts, read) => PasteClosed(tokens + ts, n + read)
  }

  function PasteContinue(r: PasteEnd, buf: Bytes, cap: nat, textCap: nat): Outcome
    requires r.PasteClosed? ==> r.read <= |buf|
  {
    match r
    case PasteOpen(ts, a) => Outcome(InPaste(a), ts)
    case PasteClosed(ts, read) => Prepend(ts, RunWith(buf[read..], cap, textCap))
  }

  lemma {:induction false} PasteRunIsScan(a: PasteState, buf: Bytes, cap: nat, textCap: nat)
    requires a.Valid()
    ensures PasteRunWith(a, buf, cap, textCap)
         == PasteContinue(PasteScan(a, buf, cap), buf, cap, textCap)
    decreases |buf|
  {
    hide RunWith, Advance, FinalToken, SegmentToken;
    if buf != [] && !IsPasteEnd(a.pendingMatch + [buf[0]]) {
      var a' := Advance(a, buf[0]);
      var full := |a'.retained| - a'.payloadStart >= cap;
      var ts := if full then [SegmentToken(a')] else [];
      var next := if full then AfterSegment(a') else a';
      PasteRunIsScan(next, buf[1..], cap, textCap);
      var r := PasteScan(next, buf[1..], cap);
      var o := PasteContinue(r, buf[1..], cap, textCap);
      assert [] + o.tokens == o.tokens;
      if r.PasteClosed? {
        assert buf[1..][r.read..] == buf[1 + r.read..];
        var rest := RunWith(buf[1 + r.read..], cap, textCap).tokens;
        assert ts + (r.tokens + rest) == (ts + r.tokens) + rest;
      }
    }
  }

  lemma PasteScanAt(a: PasteState, bytes: Bytes, index: nat, limit: nat)
    requires a.Valid() && index < |bytes|
    ensures
      var candidate := a.pendingMatch + [bytes[index]];
      var a' := Advance(a, bytes[index]);
      PasteScan(a, bytes[index..], limit) ==
        if IsPasteEnd(candidate) then
          PasteClosed([FinalToken(a.(pendingMatch := candidate), true)], 1)
        else if |a'.retained| - a'.payloadStart >= limit then
          PasteLater([SegmentToken(a')], PasteScan(AfterSegment(a'), bytes[index + 1..], limit), 1)
        else
          PasteLater([], PasteScan(a', bytes[index + 1..], limit), 1)
  {
    assert bytes[index..][1..] == bytes[index + 1..];
  }

  lemma StringScanNothing(a: StringState, limit: nat)
    requires a.Valid()
    ensures StringScan(a, [], limit) == StillOpen(a)
  {
  }

  lemma PasteScanNothing(a: PasteState, limit: nat)
    requires a.Valid()
    ensures PasteScan(a, [], limit) == PasteOpen([], a)
  {
  }

  /** One step of a run, in positions of the whole buffer. */
  lemma RunAt(buffer: Bytes, index: nat, limit: nat)
    requires index < |buffer|
    ensures
      var rest := buffer[index..];
      var step := Step(rest, limit);
      && Advances(step, rest)
      && Run(rest, limit) == match step
           case NeedMore => Outcome(Partial(rest), [])
           case Emit(token, n) => Prepend([token], Run(buffer[index + n..], limit))
           case EnterString(a, n) =>
             Continue(StringScan(a, buffer[index + n..], limit), buffer[index + n..], limit, limit)
           case EnterPaste(a, n) =>
             PasteContinue(PasteScan(a, buffer[index + n..], limit), buffer[index + n..], limit, limit)
  {
    hide StepWith;
    var rest := buffer[index..];
    StepInRange(rest, limit, limit);
    var step := Step(rest, limit);
    if !step.NeedMore? { assert rest[step.next..] == buffer[index + step.next..]; }
    match step
    case EnterString(a, n) => StringRunIsScan(a, rest[n..], limit, limit);
    case EnterPaste(a, n) => PasteRunIsScan(a, rest[n..], limit, limit);
    case _ =>
  }

  lemma RunNothing(limit: nat)
    ensures Run([], limit) == Outcome(Ground, [])
  {
  }
}
