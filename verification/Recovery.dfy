/** Recovery: what an interrupted sequence comes to, and where exactly reading resumes. */
module Recovery {
  import opened Bytes
  import opened Tokens
  import opened Grammar
  import opened PayloadScan
  import opened Reconstruction
  import opened SequenceRoundTrips
  import opened StringFraming
  import opened WireRuns

  // Input that stops before its sequence is complete: within the prefix of a control sequence or of a DCS, within the
  // intermediates of an escape sequence, or within the payload of a string.
  datatype Unfinished =
    | InControl(dcs: bool, eightBit: bool, head: ControlParams)
    | InEscape(intermediates: Bytes)
    | InText(start: Head, payload: Bytes)
  {
    predicate Fits(limit: nat) {
      match this
      case InControl(_, _, head) => IsHead(head) && PrefixSize(head) <= limit
      case InEscape(intermediates) => AllIn(Intermediate, intermediates) && |intermediates| <= limit
      case InText(start, payload) => start.Fits(limit) && IsPlain(start.kind, payload)
    }

    function Bytes(): Bytes {
      match this
      case InControl(dcs, eightBit, head) => ControlIntroducer(dcs, eightBit) + HeadBytes(head)
      case InEscape(intermediates) => [ESC] + intermediates
      case InText(start, payload) => start.Bytes() + payload
    }

    /** The payload no longer fits, so that bytes of it have been dropped. */
    predicate Overflows(limit: nat) { InText? && |payload| > start.Room(limit) }

    /** The token it comes to when a byte interrupts it, and `last` is part of what was interrupted: a string that has
        lost bytes is reported with their count, and anything else as malformed, whole. */
    function Interrupted(last: Bytes, limit: nat): Token {
      if Overflows(limit) then ReadBack(start, payload, Unterminated, limit) else Malformed(Bytes() + last)
    }
  }

  function ControlIntroducer(dcs: bool, eightBit: bool): Bytes {
    if dcs then Introducer(KindDcs, eightBit) else CsiIntroducer(eightBit)
  }

  /** A byte that neither continues nor completes any control or escape sequence. */
  predicate IsStray(b: Byte) { b < 0x20 || b >= 0x7f }

  // ----- Within a prefix -----

  lemma StrayInPrefix(head: ControlParams, b: Byte, rest: Bytes, limit: nat)
    requires IsHead(head) && PrefixSize(head) <= limit && IsStray(b)
    ensures ScanPrefix(HeadBytes(head) + ([b] + rest), limit)
         == Aborted(if IsAbort(b) then PrefixSize(head) + 1 else PrefixSize(head))
  {
    hide PrefixMarks, HeadBytes;
    MarksOfHead(head, [b] + rest);
  }

  /** The introducer decides what is read. */
  lemma IntroducerDispatches(dcs: bool, eightBit: bool, tail: Bytes, limit: nat)
    ensures var intro := ControlIntroducer(dcs, eightBit);
      var buf := intro + tail;
      && buf[|intro|..] == tail
      && Step(buf, limit) == if dcs then StepString(buf, KindDcs, |intro|, limit) else StepCsi(buf, |intro|, limit)
  {
    hide StepString, StepCsi, StepText, StepPlainEscape;
  }

  lemma StrayInControl(u: Unfinished, b: Byte, rest: Bytes, limit: nat)
    requires u.InControl? && u.Fits(limit) && IsStray(b)
    ensures var step := Step(u.Bytes() + ([b] + rest), limit);
      if IsAbort(b) then step == Emit(Malformed(u.Bytes() + [b]), |u.Bytes()| + 1)
      else step == Emit(Malformed(u.Bytes()), |u.Bytes()|)
  {
    hide ScanPrefix, HeadBytes, StepWith, ControlIntroducer, AllIn;
    var intro := ControlIntroducer(u.dcs, u.eightBit);
    var tail := HeadBytes(u.head) + ([b] + rest);
    var buf := u.Bytes() + ([b] + rest);
    assert buf == intro + tail;
    IntroducerDispatches(u.dcs, u.eightBit, tail, limit);
    StrayInPrefix(u.head, b, rest, limit);
    assert buf[..|u.Bytes()|] == u.Bytes() && buf[..|u.Bytes()| + 1] == u.Bytes() + [b];
  }

  lemma StrayInEscape(u: Unfinished, b: Byte, rest: Bytes, limit: nat)
    requires u.InEscape? && u.Fits(limit) && IsStray(b)
    ensures var step := Step(u.Bytes() + ([b] + rest), limit);
      if IsAbort(b) then step == Emit(Malformed(u.Bytes() + [b]), |u.Bytes()| + 1)
      else step == Emit(Malformed(u.Bytes()), |u.Bytes()|)
  {
    hide SpanLen, StepCsi, StepString, StepText;
    var n := |u.intermediates|;
    var buf := u.Bytes() + ([b] + rest);
    assert buf[1..] == u.intermediates + ([b] + rest);
    SpanLenUnique(Intermediate, buf[1..], n);
    assert buf[1] == if n == 0 then b else u.intermediates[0];
    assert n == 0 ==> u.Bytes() + [b] == [ESC, b];
    assert buf[1 + n] == b && buf[..n + 1] == u.Bytes() && buf[..n + 2] == u.Bytes() + [b];
  }

  // ----- Within a string -----

  lemma InStringRun(u: Unfinished, tail: Bytes, limit: nat)
    requires u.InText? && u.Fits(limit)
    ensures Run(u.Bytes() + tail, limit)
         == Continue(PayloadScan.Later(StringScan(Absorbed(u.start, u.payload, limit), tail, limit), |u.payload|),
                     u.payload + tail, limit, limit)
  {
    hide RunWith, StringScan, Absorbed, IsPlain;
    FramedRun(u.start, u.payload, Unterminated, tail, limit);
    assert Framed(u.start, u.payload, Unterminated) == u.Bytes() && [] + tail == tail;
    PlainPrefix(u.start, [], u.payload, tail, limit);
    assert [] + u.payload == u.payload;
  }

  lemma HeldString(u: Unfinished, limit: nat)
    requires u.InText? && u.Fits(limit)
    ensures var a := Absorbed(u.start, u.payload, limit);
      && !a.escHeld && (a.dropped > 0 <==> u.Overflows(limit))
      && (!u.Overflows(limit) ==> a.retained == u.Bytes())
      && StringToken(a, Unterminated) == ReadBack(u.start, u.payload, Unterminated, limit)
  {
    hide IsPlain, PrefixBytes;
    AbsorbedToken(u.start, u.payload, Unterminated, limit);
    if !u.Overflows(limit) { assert u.payload[..|u.payload|] == u.payload; }
  }

  lemma AbortInString(u: Unfinished, b: Byte, rest: Bytes, limit: nat)
    requires u.InText? && u.Fits(limit) && IsAbort(b)
    ensures Run(u.Bytes() + ([b] + rest), limit) ==
      if u.Overflows(limit) then Prepend([u.Interrupted([], limit)], Run([b] + rest, limit))
      else Prepend([u.Interrupted([b], limit)], Run(rest, limit))
  {
    hide RunWith, Absorbed, IsPlain, ReadBack;
    var tail := [b] + rest;
    InStringRun(u, tail, limit);
    HeldString(u, limit);
    var all := u.payload + tail;
    assert all[|u.payload| + 1..] == rest && [] + rest == rest;
    assert tail[0] == b;
  }

  lemma EscapeInString(u: Unfinished, x: Byte, rest: Bytes, limit: nat)
    requires u.InText? && u.Fits(limit) && x != 0x5c
    ensures Run(u.Bytes() + ([ESC, x] + rest), limit) ==
      if IsAbort(x) && !u.Overflows(limit) then Prepend([u.Interrupted([ESC, x], limit)], Run(rest, limit))
      else Prepend([u.Interrupted([], limit)], Run([ESC, x] + rest, limit))
  {
    hide RunWith, Absorbed, IsPlain, ReadBack, PrefixBytes;
    var tail := [ESC, x] + rest;
    InStringRun(u, tail, limit);
    HeldString(u, limit);
    var a := Absorbed(u.start, u.payload, limit);
    var held := a.(escHeld := true);
    assert tail[0] == ESC && tail[1..] == [x] + rest && tail[1..][0] == x;
    HeldIsUnterminated(a);
    var all := u.payload + tail;
    assert all[|u.payload| + 2..] == rest && [] + rest == rest;
    if !u.Overflows(limit) { assert u.Bytes() + [] == u.Bytes(); }
    assert StringScan(a, tail, limit) == PayloadScan.Later(StringScan(held, tail[1..], limit), 1);
  }

  lemma HeldIsUnterminated(a: StringState)
    requires a.Valid()
    ensures StringToken(a.(escHeld := true), Unterminated) == StringToken(a, Unterminated)
  {
  }

  // ----- What interrupts -----

  /** CAN or SUB ends whatever is unfinished and is part of what it ends, except that a string that has lost bytes is
      reported without it; reading resumes after it, or, then, at it. */
  lemma AbortResumes(u: Unfinished, b: Byte, rest: Bytes, limit: nat)
    requires u.Fits(limit) && IsAbort(b)
    ensures Run(u.Bytes() + ([b] + rest), limit) ==
      if u.Overflows(limit) then Prepend([u.Interrupted([], limit)], Run([b] + rest, limit))
      else Prepend([u.Interrupted([b], limit)], Run(rest, limit))
  {
    hide RunWith, StepWith, HeadBytes, AllIn;
    if u.InText? {
      AbortInString(u, b, rest, limit);
    } else {
      if u.InControl? { StrayInControl(u, b, rest, limit); } else { StrayInEscape(u, b, rest, limit); }
      var buf := u.Bytes() + ([b] + rest);
      assert buf[0..] == buf && buf[|u.Bytes()| + 1..] == rest;
      RunAt(buf, 0, limit);
    }
  }

  /** Any other byte that belongs to no sequence ends an unfinished control or escape sequence, without being part of
      it: reading resumes at that byte. */
  lemma StrayResumes(u: Unfinished, b: Byte, rest: Bytes, limit: nat)
    requires u.Fits(limit) && !u.InText? && IsStray(b) && !IsAbort(b)
    ensures Run(u.Bytes() + ([b] + rest), limit) == Prepend([u.Interrupted([], limit)], Run([b] + rest, limit))
  {
    hide RunWith, StepWith, HeadBytes, AllIn;
    if u.InControl? { StrayInControl(u, b, rest, limit); } else { StrayInEscape(u, b, rest, limit); }
    var buf := u.Bytes() + ([b] + rest);
    assert buf[0..] == buf && buf[|u.Bytes()|..] == [b] + rest;
    assert u.Bytes() + [] == u.Bytes();
    RunAt(buf, 0, limit);
  }

  /** Whatever is unfinished, a new sequence that `ESC` opens is read whole: the unfinished one is reported, and the
      new one is the next token. */
  lemma EscapeRecovers(u: Unfinished, t: Token, rest: Bytes, limit: nat)
    requires u.Fits(limit) && IsUnit(t, limit)
    requires |t.Raw()| > 1 && t.Raw()[0] == ESC && t.Raw()[1] != 0x5c && !IsAbort(t.Raw()[1])
    ensures Run(u.Bytes() + (t.Raw() + rest), limit) == Prepend([u.Interrupted([], limit), t], Run(rest, limit))
  {
    hide RunWith, IsPlain, HeadBytes, AllIn, ReadBack;
    var raw := t.Raw();
    if u.InText? {
      assert raw + rest == [ESC, raw[1]] + (raw[2..] + rest);
      EscapeInString(u, raw[1], raw[2..] + rest, limit);
    } else {
      assert raw + rest == [ESC] + (raw[1..] + rest);
      StrayResumes(u, ESC, raw[1..] + rest, limit);
    }
    assert RawBytes([t]) == raw + [] == raw;
    UnitsRead([t], rest, limit);
    var m := u.Interrupted([], limit);
    assert [m] + ([t] + Run(rest, limit).tokens) == [m, t] + Run(rest, limit).tokens;
  }

  // ----- The end of input -----

  lemma HungryControl(u: Unfinished, limit: nat)
    requires u.InControl? && u.Fits(limit)
    ensures Step(u.Bytes(), limit) == NeedMore && FinishPending(u.Bytes()) == Malformed(u.Bytes())
  {
    hide HeadBytes, PrefixMarks, StepWith, ValidUtf8;
    var intro := ControlIntroducer(u.dcs, u.eightBit);
    IntroducerDispatches(u.dcs, u.eightBit, HeadBytes(u.head), limit);
    assert HeadBytes(u.head) + [] == HeadBytes(u.head);
    MarksOfHead(u.head, []);
    assert |intro| == 2 ==> u.Bytes()[1..][0] == intro[1];
  }

  lemma HungryEscape(u: Unfinished, limit: nat)
    requires u.InEscape? && u.Fits(limit)
    ensures Step(u.Bytes(), limit) == NeedMore && FinishPending(u.Bytes()) == Esc(u.Bytes(), u.intermediates, None)
  {
    hide SpanLen, StepCsi, StepString, StepText;
    var buf := u.Bytes();
    assert buf[1..] == u.intermediates;
    SpanLenUnique(Intermediate, buf[1..], |u.intermediates|);
    if |buf| > 1 { assert buf[1] == u.intermediates[0]; }
  }

  lemma HeldIsFlushed(u: Unfinished, limit: nat)
    requires u.InText? && u.Fits(limit)
    ensures var o := Run(u.Bytes(), limit);
      o.tokens == [] && FinishTokens(o.state, limit) == [ReadBack(u.start, u.payload, Unterminated, limit)]
  {
    hide RunWith, Absorbed, IsPlain, ReadBack;
    assert u.Bytes() + [] == u.Bytes();
    InStringRun(u, [], limit);
    HeldString(u, limit);
  }

  /** At the end of input nothing unfinished is lost: a control sequence is malformed, `ESC` and intermediates are an
      escape sequence without a final byte, and a string is itself, unterminated. */
  lemma UnfinishedIsFlushed(u: Unfinished, limit: nat)
    requires u.Fits(limit)
    ensures var o := Run(u.Bytes(), limit);
      && o.tokens == []
      && FinishTokens(o.state, limit) == [
           match u
           case InControl(_, _, _) => Malformed(u.Bytes())
           case InEscape(intermediates) => Esc(u.Bytes(), intermediates, None)
           case InText(start, payload) => ReadBack(start, payload, Unterminated, limit)]
  {
    hide StepWith, FinishPending, IsPlain, HeadBytes, AllIn, ReadBack;
    match u
    case InText(_, _) => HeldIsFlushed(u, limit);
    case InControl(_, _, _) => HungryControl(u, limit);
    case InEscape(_) => HungryEscape(u, limit);
  }

  // ----- Between sequences -----

  /** An abort, a string terminator without its string, or a byte that starts no character is malformed alone. */
  lemma StrayByteResumes(b: Byte, rest: Bytes, limit: nat)
    requires IsAbort(b) || b == C1_ST || (Utf8Width(b).None? && !IsC1Introducer(b))
    ensures Run([b] + rest, limit) == Prepend([Malformed([b])], Run(rest, limit))
  {
    hide RunWith;
    var buf := [b] + rest;
    assert buf[0..] == buf && buf[1..] == rest && buf[..1] == [b];
    RunAt(buf, 0, limit);
  }

  /** The bytes of a character that are complete in number but encode none are malformed together. */
  lemma SpoiledCharacterResumes(c: Bytes, rest: Bytes, limit: nat)
    requires c != [] && !IsTextBoundary(c[0]) && Utf8Width(c[0]) == Some(|c|) && !IsChar(c)
    ensures Run(c + rest, limit) == Prepend([Malformed(c)], Run(rest, limit))
  {
    hide RunWith, IsChar;
    var buf := c + rest;
    assert buf[0..] == buf && buf[|c|..] == rest && buf[0..|c|] == c && buf[..|c|] == c;
    RunAt(buf, 0, limit);
  }
}
