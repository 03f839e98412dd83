/** The semantic event vocabulary and how tokens map onto it (`src/event.rs`). */
module Events {
  import opened Bytes
  import opened Tokens

  datatype Key =
    | Char(scalar: nat)
    | Enter
    | Tab
    | Backspace
    | ControlKey(control: Byte)
    | Escape
    | Functional(sequence: ControlSequence)
    | Win32Char(scalar: nat, state: nat, pressed: bool)
    | Win32Named(virtualKey: nat, state: nat, pressed: bool)

  datatype Geometry = Geometry(columns: nat, rows: nat, pixels: Option<(nat, nat)>)

  datatype Event =
    | Key(key: Key)
    | Mouse(report: ControlSequence)
    | Focus(gained: bool)
    | Resize(geometry: Geometry)
    | Pasted(data: Bytes, isFirst: bool, isFinal: bool, terminated: bool)
    | Syntax(token: Token)

  type TypedEvent = e: Event | !e.Syntax? witness Focus(true)

  // The stateless CSI decoders (kitty keys, SGR mouse, focus, resize, arrows) and the table of named
  // virtual keys are parameters: everything below holds whatever they recognize.
  datatype Tables = Tables(typed: ControlSequence -> Option<TypedEvent>, named: nat -> bool)

  // ----- Text -----

  function Tail(c: Byte): nat
    requires IsContinuation(c)
  {
    c as int - 0x80
  }

  /** The code point a complete character encodes. */
  function Scalar(c: Bytes): nat
    requires IsChar(c)
  {
    var lead: int := c[0];
    if |c| == 1 then lead
    else if |c| == 2 then (lead - 0xc0) * 64 + Tail(c[1])
    else if |c| == 3 then ((lead - 0xe0) * 64 + Tail(c[1])) * 64 + Tail(c[2])
    else (((lead - 0xf0) * 64 + Tail(c[1])) * 64 + Tail(c[2])) * 64 + Tail(c[3])
  }

  /** One key event a character. */
  function CharEvents(s: Bytes): (events: seq<Event>)
    ensures s != [] && ValidUtf8(s) ==> |events| > 0
  {
    match CharWidth(s)
    case None => []
    case Some(w) => [Key(Char(Scalar(s[..w])))] + CharEvents(s[w..])
  }

  function ControlKeyEvent(b: Byte): Event {
    Key(if b == 0x0d then Enter
        else if b == 0x09 then Tab
        else if b == DEL || b == 0x08 then Backspace
        else ControlKey(b))
  }

  // ----- Numeric parameters -----

  datatype Param = Param(colon: bool, value: Option<nat>)

  const PARAM_LIMIT := 32
  const PARAM_MAX := 4294967295

  /** The fields of parameter bytes, saturating at 32 bits, each with whether `:` preceded it. */
  function ParamsFrom(s: Bytes, colon: bool, value: Option<nat>): seq<Param> {
    if s == [] then [Param(colon, value)]
    else if s[0] == 0x3b || s[0] == 0x3a then
      [Param(colon, value)] + ParamsFrom(s[1..], s[0] == 0x3a, None)
    else if 0x30 <= s[0] <= 0x39 then
      var v := (if value.Some? then value.value else 0) * 10 + (s[0] - 0x30);
      ParamsFrom(s[1..], colon, Some(if v > PARAM_MAX then PARAM_MAX else v))
    else ParamsFrom(s[1..], colon, value)
  }

  function ParamsOf(p: ControlParams): seq<Param> {
    if p.paramBytes == [] then []
    else
      var all := ParamsFrom(p.paramBytes, false, None);
      if |all| > PARAM_LIMIT then all[..PARAM_LIMIT] else all
  }

  // ----- Win32 input mode -----

  datatype Win32Fields = Win32Fields(vk: nat, uc: nat, kd: nat, cs: nat, rc: nat)

  function FieldOr(ps: seq<Param>, i: nat, default: nat): nat {
    if i < |ps| && ps[i].value.Some? then ps[i].value.value else default
  }

  /** The fields of a win32 key sequence, or `None` when the sequence is not one. */
  function Win32FieldsOf(csi: ControlSequence): Option<Win32Fields> {
    var p := csi.params;
    var ps := ParamsOf(p);
    if p.finalByte != 0x5f || p.privateMarkers != [] || p.intermediates != [] then None
    else if exists i :: 0 <= i < |ps| && ps[i].colon then None
    else Some(Win32Fields(
      FieldOr(ps, 0, 0), FieldOr(ps, 2, 0), FieldOr(ps, 3, 0), FieldOr(ps, 4, 0), FieldOr(ps, 5, 1)))
  }

  const REPLACEMENT: nat := 0xfffd

  const REPLACEMENT_KEY: Event := Key(Char(REPLACEMENT))

  predicate IsHighSurrogate(n: nat) { 0xd800 <= n <= 0xdbff }

  predicate IsLowSurrogate(n: nat) { 0xdc00 <= n <= 0xdfff }

  predicate IsTextScalar(n: nat) {
    0x20 <= n <= 0x10ffff && n != 0x7f && !(0x80 <= n <= 0x9f) && !(0xd800 <= n <= 0xdfff)
  }

  function Repeat(e: Event, count: nat): (events: seq<Event>)
    ensures |events| == count
  {
    seq(count, _ => e)
  }

  function RepeatCount(rc: nat): nat { if rc < 1 then 1 else if rc > 32 then 32 else rc }

  function Orphan(half: Option<nat>): seq<Event> { if half.Some? then [REPLACEMENT_KEY] else [] }

  /** The events of one win32 sequence and the high surrogate held after it. */
  function Win32Step(half: Option<nat>, f: Win32Fields, tables: Tables): (Option<nat>, seq<Event>) {
    var n := RepeatCount(f.rc);
    var pressed := f.kd != 0;
    if IsHighSurrogate(f.uc) then (Some(f.uc), Orphan(half))
    else if IsLowSurrogate(f.uc) then
      var scalar := if half.Some? && half.value >= 0xd800
                    then 0x10000 + (half.value - 0xd800) * 1024 + (f.uc - 0xdc00) else REPLACEMENT;
      (None, Repeat(Key(Win32Char(scalar, f.cs, pressed)), n))
    else if IsTextScalar(f.uc) then
      (None, Orphan(half) + Repeat(Key(Win32Char(f.uc, f.cs, pressed)), n))
    else if tables.named(f.vk) then
      (None, Orphan(half) + Repeat(Key(Win32Named(f.vk, f.cs, pressed)), n))
    else (None, Orphan(half))
  }

  // ----- Pastes -----

  /** A segment's bytes with CR and CRLF turned into LF, and whether it ends in an open CR. */
  function Normalize(payload: Bytes, pendingCr: bool): (Bytes, bool) {
    if payload == [] then ([], pendingCr)
    else
      var b := payload[0];
      if pendingCr && b == 0x0a then Normalize(payload[1..], false)
      else
        var rest := Normalize(payload[1..], b == 0x0d);
        ([if b == 0x0d then 0x0a else b] + rest.0, rest.1)
  }

  // ----- Tokens to events -----

  // What the mapping carries from token to token.
  datatype MapState = MapState(pastePendingCr: bool, half: Option<nat>)

  datatype Mapped = Mapped(mapping: MapState, events: seq<Event>)

  function MapCsi(m: MapState, csi: ControlSequence, tables: Tables): Mapped {
    match Win32FieldsOf(csi)
    case Some(f) =>
      var (half, events) := Win32Step(m.half, f, tables);
      Mapped(m.(half := half), events)
    case None =>
      match tables.typed(csi)
      case Some(e) => Mapped(m, [e])
      case None => Mapped(m, [Syntax(Csi(csi))])
  }

  function MapToken(m: MapState, t: Token, tables: Tables): Mapped {
    match t
    case Text(b) => Mapped(m, CharEvents(b))
    case Control(b) => Mapped(m, [ControlKeyEvent(b)])
    case Csi(csi) => MapCsi(m, csi, tables)
    case Paste(p) =>
      var (data, carry) := Normalize(p.payload, m.pastePendingCr);
      Mapped(m.(pastePendingCr := carry && !p.isFinal),
             [Pasted(data, p.isFirst, p.isFinal, p.terminated)])
    case Esc(_, _, final) => Mapped(m, [if final.None? then Key(Escape) else Syntax(t)])
    case Str(_) => Mapped(m, [Syntax(t)])
    case Malformed(_) => Mapped(m, [Syntax(t)])
  }

  function MapTokens(m: MapState, ts: seq<Token>, tables: Tables): Mapped
    decreases |ts|
  {
    if ts == [] then Mapped(m, [])
    else
      var first := MapToken(m, ts[0], tables);
      var rest := MapTokens(first.mapping, ts[1..], tables);
      Mapped(rest.mapping, first.events + rest.events)
  }

  lemma NoTokensNoEvents(m: MapState, tables: Tables)
    ensures MapTokens(m, [], tables) == Mapped(m, [])
  {
  }

  lemma {:induction false} MapTokensAppend(m: MapState, a: seq<Token>, b: seq<Token>, tables: Tables)
    ensures var first := MapTokens(m, a, tables);
      var rest := MapTokens(first.mapping, b, tables);
      MapTokens(m, a + b, tables) == Mapped(rest.mapping, first.events + rest.events)
    decreases |a|
  {
    hide MapToken;
    if a == [] {
      assert a + b == b;
    } else {
      assert (a + b)[1..] == a[1..] + b;
      MapTokensAppend(MapToken(m, a[0], tables).mapping, a[1..], b, tables);
    }
  }

  /** Which tokens may map to no event at all: win32 sequences without a key of their own. */
  predicate IsSilent(t: Token) { t.Csi? && Win32FieldsOf(t.csi).Some? }

  lemma OnlyWin32IsSilent(m: MapState, t: Token, tables: Tables)
    requires t.Text? ==> t.text != [] && ValidUtf8(t.text)
    ensures !IsSilent(t) ==> |MapToken(m, t, tables).events| > 0
  {
  }
}
