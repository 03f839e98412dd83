/** Expectations, replies and the correlator's table as a value (`src/correlate.rs`). */
module Correlate {
  import opened Bytes
  import opened Tokens
  import opened Events
  import opened Reports

  // ----- Matching one event -----

  datatype Expectation =
    | ExpectCursorPosition
    | ExpectTerminalStatus
    | ExpectPrimaryDeviceAttributes
    | ExpectKittyKeyboardFlags
    | ExpectDecPrivateMode(mode: U16)
    | ExpectXtVersion
    | ExpectOscColor(which: ColorKind)
    | ExpectKittyGraphics(imageId: U32)
    | ExpectTextAreaPixels
    | ExpectCellSize

  datatype Reply =
    | CursorReply(position: CursorPosition)
    | StatusReply(status: Status)
    | AttributesReply(params: Bytes)
    | FlagsReply(bits: nat)
    | ModeReply(report: ModeReport)
    | VersionReply(version: Bytes)
    | ColorReply(color: ColorReport)
    | GraphicsReply(graphics: GraphicsReport)
    | TextAreaReply(area: Pixels)
    | CellSizeReply(cell: Pixels)

  function ControlSequenceOf(e: Event): Option<ControlSequence> {
    if e.Syntax? && e.token.Csi? then Some(e.token.csi) else None
  }

  function StringOf(e: Event, kind: StringKind): Option<StringSequence> {
    if e.Syntax? && e.token.Str? && e.token.body.kind == kind then Some(e.token.body) else None
  }

  /** A two-parameter report of row 1 could be a modified F3 key and is refused. */
  function MatchCursorPosition(csi: ControlSequence): Option<CursorPosition> {
    match CursorPositionReport(csi)
    case None => None
    case Some(p) => if p.row == 1 && SEMICOLON in csi.params.paramBytes then None else Some(p)
  }

  function MatchPrimaryDeviceAttributes(csi: ControlSequence): Option<Bytes> {
    if Shape(csi.params, [0x3f], [], 0x63) then Some(csi.params.paramBytes) else None
  }

  function MatchCsi(x: Expectation, csi: ControlSequence): Option<Reply> {
    match x
    case ExpectCursorPosition =>
      var r := MatchCursorPosition(csi);
      if r.Some? then Some(CursorReply(r.value)) else None
    case ExpectTerminalStatus =>
      var r := TerminalStatusReport(csi);
      if r.Some? then Some(StatusReply(r.value)) else None
    case ExpectPrimaryDeviceAttributes =>
      var r := MatchPrimaryDeviceAttributes(csi);
      if r.Some? then Some(AttributesReply(r.value)) else None
    case ExpectKittyKeyboardFlags =>
      var r := KittyFlagsReport(csi);
      if r.Some? then Some(FlagsReply(r.value)) else None
    case ExpectDecPrivateMode(mode) =>
      var r := DecPrivateModeReport(csi);
      if r.Some? && r.value.mode == mode then Some(ModeReply(r.value)) else None
    case ExpectTextAreaPixels =>
      var r := TextAreaPixelsReport(csi);
      if r.Some? then Some(TextAreaReply(r.value)) else None
    case ExpectCellSize =>
      var r := CellSizeReport(csi);
      if r.Some? then Some(CellSizeReply(r.value)) else None
    case _ => None
  }

  function MatchString(x: Expectation, s: StringSequence): Option<Reply> {
    match x
    case ExpectXtVersion =>
      var r := XtVersionReport(s);
      if r.Some? then Some(VersionReply(r.value)) else None
    case ExpectOscColor(which) =>
      var r := OscColorReport(s.payload);
      if r.Some? && r.value.kind == which then Some(ColorReply(r.value)) else None
    case ExpectKittyGraphics(id) =>
      var r := KittyGraphicsReport(s);
      if r.Some? && r.value.ids.image == Some(id) then Some(GraphicsReply(r.value)) else None
    case _ => None
  }

  /** The frame an expectation's reply comes in; `None` for CSI. */
  function FrameOf(x: Expectation): Option<StringKind> {
    match x
    case ExpectXtVersion => Some(KindDcs)
    case ExpectOscColor(_) => Some(KindOsc)
    case ExpectKittyGraphics(_) => Some(KindApc)
    case _ => None
  }

  function Match(x: Expectation, e: Event): Option<Reply> {
    match FrameOf(x)
    case None =>
      (match ControlSequenceOf(e)
       case None => None
       case Some(csi) => MatchCsi(x, csi))
    case Some(kind) =>
      match StringOf(e, kind)
      case None => None
      case Some(s) => MatchString(x, s)
  }

  predicate Distinguishes(a: Expectation, b: Expectation) { a != b }

  lemma CsiMatchesOne(a: Expectation, b: Expectation, csi: ControlSequence)
    requires a != b
    ensures MatchCsi(a, csi).None? || MatchCsi(b, csi).None?
  {
    hide Split, ParseU16, ParseOneBasedU16, ParseDecimal, ModeStateOf;
  }

  /** The static relation is sound: expectations that distinguish are never completed by one event. */
  lemma DistinguishedNeverBothMatch(a: Expectation, b: Expectation, e: Event)
    requires Distinguishes(a, b)
    ensures Match(a, e).None? || Match(b, e).None?
  {
    hide MatchCsi, XtVersionReport, OscColorReport, KittyGraphicsReport;
    if e.Syntax? && e.token.Csi? { CsiMatchesOne(a, b, e.token.csi); }
  }

  /** The static relation is exact: it holds of the pairs no event could complete together and of no
      others. */
  lemma DistinguishesIsExact(a: Expectation, b: Expectation)
    ensures Distinguishes(a, b) <==> forall e :: Match(a, e).None? || Match(b, e).None?
  {
    if Distinguishes(a, b) {
      forall e ensures Match(a, e).None? || Match(b, e).None? {
        DistinguishedNeverBothMatch(a, b, e);
      }
    } else {
      var e := EveryExpectationHasAReply(a);
    }
  }

  lemma EveryExpectationHasAReply(x: Expectation) returns (e: Event)
    ensures Match(x, e).Some?
  {
    match x
    case ExpectCursorPosition => e := CursorEvent();
    case ExpectTerminalStatus => e := Report([], [0x30], [], 0x6e);
    case ExpectPrimaryDeviceAttributes => e := Report([0x3f], [], [], 0x63);
    case ExpectKittyKeyboardFlags => e := Report([0x3f], [], [], 0x75);
    case ExpectDecPrivateMode(mode) => e := ModeEvent(mode);
    case ExpectXtVersion =>
      e := Syntax(Str(StringSequence(
        KindDcs, [], [], 0, C1, Some(ControlParams([0x3e], [], [], 0x7c)))));
    case ExpectOscColor(which) => e := ColorEvent(which);
    case ExpectKittyGraphics(id) => e := GraphicsEvent(id);
    case ExpectTextAreaPixels => e := PixelsEvent([0x34]);
    case ExpectCellSize => e := PixelsEvent([0x36]);
  }

  function Report(markers: Bytes, params: Bytes, intermediates: Bytes, final: Byte): Event {
    Syntax(Csi(ControlSequence([], ControlParams(markers, params, intermediates, final))))
  }

  lemma CursorEvent() returns (e: Event)
    ensures Match(ExpectCursorPosition, e).Some?
  {
    SplitAtFirst([0x32], SEMICOLON, [0x31]);
    SplitWithout([0x31], SEMICOLON);
    OneDigit(0x32);
    OneDigit(0x31);
    e := Report([], [0x32] + [SEMICOLON] + [0x31], [], 0x52);
  }

  lemma OneDigit(b: Byte)
    requires IsDigit(b)
    ensures DecimalValue([b]) == b - 0x30
  {
    assert [b][..0] == [];
  }

  lemma ModeEvent(mode: U16) returns (e: Event)
    ensures Match(ExpectDecPrivateMode(mode), e).Some?
  {
    hide Digits, DecimalValue;
    var digits := Digits(mode);
    DigitsSpell(mode);
    SplitAtFirst(digits, SEMICOLON, [0x31]);
    SplitWithout([0x31], SEMICOLON);
    OneDigit(0x31);
    e := Report([0x3f], digits + [SEMICOLON] + [0x31], [0x24], 0x79);
  }

  lemma PixelsEvent(op: Bytes) returns (e: Event)
    requires |op| == 1 && op[0] != SEMICOLON
    ensures e.Syntax? && e.token.Csi? && XtwinopsReport(e.token.csi, op).Some?
  {
    SplitWithout([0x31], SEMICOLON);
    SplitAtFirst([0x31], SEMICOLON, [0x31]);
    SplitAtFirst(op, SEMICOLON, [0x31] + [SEMICOLON] + [0x31]);
    OneDigit(0x31);
    e := Report([], op + [SEMICOLON] + ([0x31] + [SEMICOLON] + [0x31]), [], 0x74);
  }

  lemma ColorEvent(which: ColorKind) returns (e: Event)
    ensures Match(ExpectOscColor(which), e).Some?
  {
    var selector: Bytes := if which == Foreground then [0x31, 0x30] else [0x31, 0x31];
    var channels: Bytes := [0x30] + [0x2f] + ([0x30] + [0x2f] + [0x30]);
    SplitWithout([0x30], 0x2f);
    SplitAtFirst([0x30], 0x2f, [0x30]);
    SplitAtFirst([0x30], 0x2f, [0x30] + [0x2f] + [0x30]);
    var rgb: Bytes := [0x72, 0x67, 0x62, 0x3a] + channels;
    assert rgb[4..] == channels;
    SplitAtFirst(selector, SEMICOLON, rgb);
    e := Syntax(Str(StringSequence(KindOsc, [], selector + [SEMICOLON] + rgb, 0, C1, None)));
  }

  lemma GraphicsEvent(id: U32) returns (e: Event)
    ensures Match(ExpectKittyGraphics(id), e).Some?
  {
    hide Digits, DecimalValue, Split, SplitOnce, TakePair;
    var pair := [0x69] + [0x3d] + Digits(id);
    var ids := GraphicsIds(None, None, None);
    ImagePair(ids, id);
    SplitWithout(pair, 0x2c);
    SplitAtFirst(pair, SEMICOLON, [0x4f, 0x4b]);
    assert TakePairs(ids, [pair]) == Some(ids.(image := Some(id))) by {
      assert TakePairs(ids.(image := Some(id)), [pair][1..]) == Some(ids.(image := Some(id)));
    }
    var payload := [0x47] + (pair + [SEMICOLON] + [0x4f, 0x4b]);
    assert payload[1..] == pair + [SEMICOLON] + [0x4f, 0x4b];
    e := Syntax(Str(StringSequence(KindApc, [], payload, 0, C1, None)));
  }

  lemma ImagePair(ids: GraphicsIds, id: U32)
    ensures TakePair(ids, [0x69] + [0x3d] + Digits(id)) == Some(ids.(image := Some(id)))
  {
    hide Digits, DecimalValue;
    DigitsSpell(id);
    SplitAtFirst([0x69], 0x3d, Digits(id));
  }
}
