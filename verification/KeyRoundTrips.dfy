/** Typing reads back: whatever is typed comes out as its keys, however reads and flushes cut it. */
module KeyRoundTrips {
  import opened Bytes
  import opened Tokens
  import opened Grammar
  import opened PayloadScan
  import opened SplitEquivalence
  import opened Bounds
  import opened Events
  import opened Decoder
  import opened DrainBoundary
  import opened TextRoundTrips

  /** A scalar value that is typed as itself: not ESC, which may open a sequence, and neither abort. */
  predicate IsTypable(n: nat) { IsScalar(n) && n != 0x1b && n != 0x18 && n != 0x1a }

  predicate AreTypable(ns: seq<nat>) { forall i :: 0 <= i < |ns| ==> IsTypable(ns[i]) }

  /** The key that types it. */
  function KeyOf(n: nat): Key
    requires IsTypable(n)
  {
    if n == 0x0d then Enter
    else if n == 0x09 then Tab
    else if n == 0x08 || n == 0x7f then Backspace
    else if n < 0x20 then ControlKey(n)
    else Char(n)
  }

  function KeysOf(ns: seq<nat>): (events: seq<Event>)
    requires AreTypable(ns)
    ensures |events| == |ns| && forall i :: 0 <= i < |ns| ==> events[i] == Key(KeyOf(ns[i]))
  {
    seq(|ns|, i requires 0 <= i < |ns| => Key(KeyOf(ns[i])))
  }

  function EncodeAll(ns: seq<nat>): Bytes
    requires AreTypable(ns)
  {
    if ns == [] then [] else Encode(ns[0]) + EncodeAll(ns[1..])
  }

  // ----- Control bytes -----

  /** Every control byte but ESC and the two aborts is exactly one key, from any point between tokens: Enter if and
      only if it is CR, Tab if and only if HT, Backspace if and only if BS or DEL, and else its own control key. */
  lemma ControlByteIsKey(d: DecoderState, b: Byte, limit: nat, tables: Tables)
    requires d.parser == Ground && IsControl(b) && b != ESC && !IsAbort(b)
    ensures var o := Decode(d, [b], limit, tables);
      && o.state == d && |o.events| == 1 && o.events[0].Key?
      && var key := o.events[0].key;
      && (key == Enter <==> b == 0x0d)
      && (key == Tab <==> b == 0x09)
      && (key == Backspace <==> b == 0x08 || b == 0x7f)
      && (b != 0x0d && b != 0x09 && b != 0x08 && b != 0x7f ==> key == ControlKey(b))
  {
    var buf := [b];
    assert buf[0..] == buf && buf[1..] == [];
    RunAt(buf, 0, limit);
    RunNothing(limit);
    assert [Control(b)] + [] == [Control(b)];
    MapOneToken(d.mapping, Control(b), tables);
  }

  // ----- One character at a time -----

  function TypedToken(n: nat): Token
    requires IsTypable(n)
  {
    if n < 0x20 || n == 0x7f then Control(n) else Text(Encode(n))
  }

  lemma TypedIsRead(n: nat, rest: Bytes, cap: nat)
    requires IsTypable(n)
    ensures EagerRun(Encode(n) + rest, cap) == Prepend([TypedToken(n)], EagerRun(rest, cap))
  {
    hide StepText, StepEscape, StepCsi, StepString, IsChar, Scalar;
    var c := Encode(n);
    var buf := c + rest;
    assert buf[|c|..] == rest && buf[..|c|] == c;
    if !(n < 0x20 || n == 0x7f) {
      EncodedDecodes(n);
      EncodedWidth(n);
      EagerStepOnChar(buf, cap);
    }
  }

  lemma EncodedWidth(n: nat)
    requires IsScalar(n)
    ensures Utf8Width(Encode(n)[0]) == Some(|Encode(n)|)
    ensures n >= 0x20 && n != 0x7f ==> !IsTextBoundary(Encode(n)[0])
  {
    EncodedDecodes(n);
  }

  lemma TypedIsKey(m: MapState, n: nat, tables: Tables)
    requires IsTypable(n)
    ensures MapToken(m, TypedToken(n), tables) == Mapped(m, [Key(KeyOf(n))])
  {
    hide IsChar, Scalar;
    EncodedDecodes(n);
    CharOfChar(Encode(n));
  }

  /** Part of a character is held. */
  lemma PartIsHeld(n: nat, k: nat, cap: nat)
    requires IsTypable(n) && 0 < k < |Encode(n)|
    ensures EagerRun(Encode(n)[..k], cap) == Outcome(Partial(Encode(n)[..k]), [])
  {
    hide StepEscape, StepCsi, StepString, IsChar;
    EncodedWidth(n);
    var buf := Encode(n)[..k];
    assert ScanText(buf, 0, 0) == Starved;
  }

  // ----- Whole texts -----

  predicate IsTypedToken(t: Token) { t.Text? || t.Control? }

  predicate AreTyped(ts: seq<Token>) { forall i :: 0 <= i < |ts| ==> IsTypedToken(ts[i]) }

  /** Reading typed bytes never enters a paste, and emits only text and controls. */
  lemma {:induction false} TypedRun(ns: seq<nat>, u: Bytes, cap: nat)
    requires AreTypable(ns) && u <= EncodeAll(ns)
    ensures !EagerRun(u, cap).state.InPaste? && AreTyped(EagerRun(u, cap).tokens)
    decreases |ns|
  {
    hide StepWith, Encode;
    if u != [] {
      var c := Encode(ns[0]);
      if |u| < |c| {
        assert u == c[..|u|];
        PartIsHeld(ns[0], |u|, cap);
      } else {
        var rest := u[|c|..];
        assert u == c + rest && EncodeAll(ns)[|c|..] == EncodeAll(ns[1..]);
        TypedIsRead(ns[0], rest, cap);
        TypedRun(ns[1..], rest, cap);
      }
    }
  }

  lemma {:induction false} TypedKeepsMapping(m: MapState, ts: seq<Token>, tables: Tables)
    requires AreTyped(ts)
    ensures MapTokens(m, ts, tables).mapping == m
    decreases |ts|
  {
    if ts != [] { TypedKeepsMapping(m, ts[1..], tables); }
  }

  const IDLE := MapState(false, None)

  /** Where the bytes so far leave a decoder that has read typed bytes only, flushed or not. */
  ghost predicate HasRead(d: DecoderState, past: Bytes, limit: nat) {
    && Reachable(d.parser, limit) && d.parser.Valid() && d.mapping == IDLE
    && Eager(d.parser) == EagerRun(past, limit).state
  }

  lemma ReadMore(d: DecoderState, past: Bytes, c: Bytes, ns: seq<nat>, limit: nat, tables: Tables)
    requires HasRead(d, past, limit) && AreTypable(ns) && past + c <= EncodeAll(ns)
    ensures var fed := Decode(d, c, limit, tables).state;
      HasRead(fed, past + c, limit) && Harmless(fed)
  {
    hide RunWith, Reachable, EncodeAll, IsTypable, MapTokens, Eager, Parked;
    DecodeSimulates(d, c, limit, tables);
    RunSplit(past, c, limit, 0);
    TypedRun(ns, past + c, limit);
    var tokens := EagerFeed(Eager(d.parser), c, limit).tokens;
    var all := EagerRun(past + c, limit).tokens;
    assert all == EagerRun(past, limit).tokens + tokens;
    forall i | 0 <= i < |tokens| ensures IsTypedToken(tokens[i]) {
      assert tokens[i] == all[|all| - |tokens| + i];
    }
    TypedKeepsMapping(d.mapping, tokens, tables);
    PasteIsItself(Decode(d, c, limit, tables).state.parser);
  }

  lemma PasteIsItself(s: ParserState)
    ensures s.InPaste? ==> Eager(s) == s
  {
  }

  lemma {:induction false} TypingIsHarmless(
      d: DecoderState, past: Bytes, ns: seq<nat>, script: seq<Read>, limit: nat, tables: Tables)
    requires HasRead(d, past, limit) && AreTypable(ns) && past + BytesOf(script) == EncodeAll(ns)
    ensures FlushesHarmlessly(d, script, limit, tables)
    decreases |script|
  {
    hide RunWith, Decode, Flush, Reachable, Eager, EncodeAll, IsTypable, HasSettledText;
    if script != [] {
      var c := script[0].bytes;
      assert past + (c + BytesOf(script[1..])) == (past + c) + BytesOf(script[1..]);
      ReadMore(d, past, c, ns, limit, tables);
      var fed := Decode(d, c, limit, tables).state;
      if script[0].drained && HasSettledText(fed.parser) {
        FlushEmitsParked(fed, limit, tables);
        GroundIsReachable(limit);
      }
      TypingIsHarmless(ReadOnce(d, script[0], limit, tables).state, past + c, ns, script[1..], limit, tables);
    }
  }

  function TypedTokens(ns: seq<nat>): (ts: seq<Token>)
    requires AreTypable(ns)
    ensures |ts| == |ns| && forall i :: 0 <= i < |ns| ==> ts[i] == TypedToken(ns[i])
  {
    seq(|ns|, i requires 0 <= i < |ns| => TypedToken(ns[i]))
  }

  lemma {:induction false} AllTyped(ns: seq<nat>, limit: nat)
    requires AreTypable(ns)
    ensures EagerRun(EncodeAll(ns), limit) == Outcome(Ground, TypedTokens(ns))
    decreases |ns|
  {
    hide StepWith, Encode, IsTypable, TypedToken;
    if ns != [] {
      TypedIsRead(ns[0], EncodeAll(ns[1..]), limit);
      AllTyped(ns[1..], limit);
      assert [TypedToken(ns[0])] + TypedTokens(ns[1..]) == TypedTokens(ns);
    }
  }

  lemma {:induction false} TypedKeys(m: MapState, ns: seq<nat>, tables: Tables)
    requires AreTypable(ns)
    ensures MapTokens(m, TypedTokens(ns), tables) == Mapped(m, KeysOf(ns))
    decreases |ns|
  {
    hide MapToken, IsTypable, TypedToken, KeyOf;
    if ns != [] {
      TypedIsKey(m, ns[0], tables);
      TypedKeys(m, ns[1..], tables);
      assert TypedTokens(ns)[1..] == TypedTokens(ns[1..]);
      assert [Key(KeyOf(ns[0]))] + KeysOf(ns[1..]) == KeysOf(ns);
    }
  }

  /** Any text typed, cut into reads and flushed in any way, comes out as one key a scalar value, in order: the
      controls as their keys and every other value as its own character. */
  lemma TypingReadsBack(ns: seq<nat>, script: seq<Read>, limit: nat, tables: Tables)
    requires script != [] && AreTypable(ns) && BytesOf(script) == EncodeAll(ns)
    ensures var x := ReadAll(FRESH, script, limit, tables);
      x.events + Flush(x.state, limit, tables).events == KeysOf(ns)
  {
    hide EncodeAll, RunWith, ReadAll, MapTokens, IsTypable, FlushesHarmlessly, Reachable, BytesOf;
    GroundIsReachable(limit);
    BoundaryIsNotParked([]);
    EagerRunNothing(limit);
    assert [] + BytesOf(script) == BytesOf(script);
    TypingIsHarmless(FRESH, [], ns, script, limit, tables);
    WholeStream(script, limit, tables);
    AllTyped(ns, limit);
    TypedKeys(IDLE, ns, tables);
    GroundFlushesNothing(limit, tables);
    var x := ReadAll(FRESH, script, limit, tables);
    var keys := KeysOf(ns);
    assert ([] + keys) + [] == keys;
  }

  lemma EagerRunNothing(limit: nat)
    ensures EagerRun([], limit) == Outcome(Ground, [])
  {
  }

  lemma GroundFlushesNothing(limit: nat, tables: Tables)
    ensures Flush(DecoderState(Ground, IDLE), limit, tables).events == []
  {
  }
}
