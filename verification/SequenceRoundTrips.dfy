/** Printed sequences read back: control sequences and escape sequences give back exactly the fields they spell. */
module SequenceRoundTrips {
  import opened Bytes
  import opened Tokens
  import opened Grammar
  import opened SplitEquivalence
  import opened PayloadScan

  // ----- Prefixes: markers, parameters, intermediates and a final byte (section 5.4 of ECMA-48) -----

  predicate AllIn(c: Class, s: Bytes) { forall i :: 0 <= i < |s| ==> InClass(c, s[i]) }

  predicate IsPrefix(p: ControlParams) { IsHead(p) && IsFinalByte(p.finalByte) }

  predicate IsHead(p: ControlParams) {
    AllIn(PrivateMarker, p.privateMarkers) && AllIn(ParamByte, p.paramBytes) && AllIn(Intermediate, p.intermediates)
  }

  function PrefixSize(p: ControlParams): nat { |p.privateMarkers| + |p.paramBytes| + |p.intermediates| }

  /** The prefix up to its final byte. */
  function HeadBytes(p: ControlParams): (s: Bytes)
    ensures |s| == PrefixSize(p)
  {
    p.privateMarkers + p.paramBytes + p.intermediates
  }

  function PrefixBytes(p: ControlParams): (s: Bytes)
    ensures |s| == PrefixSize(p) + 1
  {
    HeadBytes(p) + [p.finalByte]
  }

  /** A byte that cannot go on with any of the three fields. */
  predicate EndsHead(b: Byte) { b < 0x20 || b >= 0x40 }

  lemma SpanOfRun(c: Class, run: Bytes, tail: Bytes)
    requires AllIn(c, run) && (tail != [] ==> !InClass(c, tail[0]))
    ensures SpanLen(c, run + tail) == |run|
  {
    hide SpanLen;
    SpanLenUnique(c, run + tail, |run|);
  }

  /** The maximal runs of the three classes in a printed prefix are its three fields. */
  lemma MarksOfHead(p: ControlParams, tail: Bytes)
    requires IsHead(p) && (tail != [] ==> EndsHead(tail[0]))
    ensures var m := |p.privateMarkers|;
      PrefixMarks(HeadBytes(p) + tail) == Marks(m, m + |p.paramBytes|, PrefixSize(p))
  {
    hide SpanLen;
    var buf := HeadBytes(p) + tail;
    var m := |p.privateMarkers|;
    var last := p.intermediates + tail;
    var more := p.paramBytes + last;
    assert buf == p.privateMarkers + more;
    assert buf[m..] == more && buf[m + |p.paramBytes|..] == last;
    SpanOfRun(Intermediate, p.intermediates, tail);
    SpanOfRun(ParamByte, p.paramBytes, last);
    SpanOfRun(PrivateMarker, p.privateMarkers, more);
  }

  lemma FieldsOfPrefix(p: ControlParams, rest: Bytes)
    ensures var buf := PrefixBytes(p) + rest;
      var m := |p.privateMarkers|;
      var k, n := m + |p.paramBytes|, PrefixSize(p);
      && buf[..m] == p.privateMarkers && buf[m..k] == p.paramBytes && buf[k..n] == p.intermediates
      && buf[n] == p.finalByte
  {
  }

  /** A printed prefix scans to exactly its fields if and only if the limit admits it. */
  lemma PrefixReadsBack(p: ControlParams, rest: Bytes, limit: nat)
    requires IsPrefix(p)
    ensures ScanPrefix(PrefixBytes(p) + rest, limit) ==
      if PrefixSize(p) <= limit then Complete(p, PrefixSize(p) + 1) else Overflow(limit)
  {
    hide PrefixMarks, HeadBytes;
    var tail := [p.finalByte] + rest;
    assert PrefixBytes(p) + rest == HeadBytes(p) + tail;
    MarksOfHead(p, tail);
    FieldsOfPrefix(p, rest);
  }

  // ----- Control sequences -----

  function CsiIntroducer(eightBit: bool): Bytes { if eightBit then [0x9b] else [ESC, 0x5b] }

  function CsiForm(eightBit: bool, p: ControlParams): Bytes { CsiIntroducer(eightBit) + PrefixBytes(p) }

  function CsiOf(eightBit: bool, p: ControlParams): Token { Csi(ControlSequence(CsiForm(eightBit, p), p)) }

  lemma CsiSteps(eightBit: bool, p: ControlParams, rest: Bytes, limit: nat)
    requires IsPrefix(p) && !IsPasteStart(p)
    ensures var form := CsiForm(eightBit, p);
      if PrefixSize(p) <= limit then Step(form + rest, limit) == Emit(CsiOf(eightBit, p), |form|)
      else Step(form + rest, limit).Emit? && Step(form + rest, limit).token.Malformed?
  {
    hide ScanPrefix, PrefixBytes;
    var form := CsiForm(eightBit, p);
    var intro := CsiIntroducer(eightBit);
    var buf := form + rest;
    assert buf[|intro|..] == PrefixBytes(p) + rest && buf[..|form|] == form;
    PrefixReadsBack(p, rest, limit);
    assert Step(buf, limit) == StepCsi(buf, |intro|, limit);
  }

  /** In either spelling of its introducer and in any chunking, a control sequence is one token with exactly the
      markers, parameters, intermediates and final byte printed, if and only if the limit admits them. */
  lemma CsiFormReadsBack(eightBit: bool, p: ControlParams, chunks: seq<Bytes>, limit: nat)
    requires IsPrefix(p) && !IsPasteStart(p) && Concat(chunks) == CsiForm(eightBit, p)
    ensures FeedAll(Ground, chunks, limit) == Outcome(Ground, [CsiOf(eightBit, p)]) <==> PrefixSize(p) <= limit
  {
    hide RunWith, StepWith, PrefixBytes, FeedAll;
    AnyChunking(chunks, limit);
    var form := CsiForm(eightBit, p);
    assert form + [] == form;
    CsiSteps(eightBit, p, [], limit);
    OneStepRuns(form, limit);
  }

  /** A run is its first step and then the rest. */
  lemma OneStepRuns(w: Bytes, limit: nat)
    requires w != [] && Step(w, limit).Emit?
    ensures var step := Step(w, limit);
      && Run(w, limit).tokens != [] && Run(w, limit).tokens[0] == step.token
      && (step.next == |w| ==> Run(w, limit) == Outcome(Ground, [step.token]))
  {
    hide RunWith, StepWith;
    assert w[0..] == w;
    RunAt(w, 0, limit);
    RunNothing(limit);
    assert w[|w|..] == [] && [Step(w, limit).token] + [] == [Step(w, limit).token];
  }

  // ----- Escape sequences -----

  /** Final bytes that open a longer sequence when nothing comes before them. */
  predicate OpensLonger(b: Byte) {
    b == 0x5b || b == 0x50 || b == 0x5d || b == 0x5f || b == 0x5e || b == 0x58
  }

  lemma EscapeSteps(intermediates: Bytes, final: Byte, rest: Bytes, limit: nat)
    requires AllIn(Intermediate, intermediates) && IsEscapeFinalByte(final)
    requires intermediates == [] ==> !OpensLonger(final)
    ensures var w := [ESC] + intermediates + [final];
      if |intermediates| <= limit then Step(w + rest, limit) == Emit(Esc(w, intermediates, Some(final)), |w|)
      else Step(w + rest, limit).Emit? && Step(w + rest, limit).token.Malformed?
  {
    hide SpanLen, StepCsi, StepString, StepText;
    var n := |intermediates|;
    var w := [ESC] + intermediates + [final];
    var buf := w + rest;
    assert buf[1..] == intermediates + ([final] + rest);
    SpanLenUnique(Intermediate, buf[1..], n);
    assert buf[1] == if n == 0 then final else intermediates[0];
    assert Step(buf, limit) == StepPlainEscape(buf, limit);
    assert buf[1..1 + n] == intermediates && buf[1 + n] == final && buf[..n + 2] == w;
  }

  /** `ESC`, intermediates and a final byte are one token with exactly those, if and only if the limit admits them. */
  lemma EscapeReadsBack(intermediates: Bytes, final: Byte, chunks: seq<Bytes>, limit: nat)
    requires AllIn(Intermediate, intermediates) && IsEscapeFinalByte(final)
    requires intermediates == [] ==> !OpensLonger(final)
    requires Concat(chunks) == [ESC] + intermediates + [final]
    ensures FeedAll(Ground, chunks, limit)
         == Outcome(Ground, [Esc([ESC] + intermediates + [final], intermediates, Some(final))])
       <==> |intermediates| <= limit
  {
    hide RunWith, FeedAll, StepWith;
    AnyChunking(chunks, limit);
    var w := [ESC] + intermediates + [final];
    assert w + [] == w;
    EscapeSteps(intermediates, final, [], limit);
    OneStepRuns(w, limit);
  }
}
