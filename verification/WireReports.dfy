/** Replies on the wire: what a terminal prints for each reply, and which question the printed bytes answer. */
module WireReports {
  import opened Bytes
  import opened Tokens
  import opened Grammar
  import opened SplitEquivalence
  import opened Reports
  import opened Events
  import opened Correlate
  import opened SequenceRoundTrips
  import opened StringFraming
  import opened ReportRoundTrips
  import opened CursorRoundTrip

  // ----- Forms -----

  // What is printed, but for how a string is closed and how introducers are spelled.
  datatype Form =
    | ControlForm(params: ControlParams)
    | StringForm(kind: StringKind, prefix: Option<ControlParams>, payload: Bytes)

  // Eight-bit or seven-bit introducers, and the terminator of strings.
  datatype Spelling = Spelling(eightBit: bool, end: Terminator)

  function HeadOf(f: Form, eightBit: bool): Head
    requires f.StringForm?
  {
    Head(f.kind, eightBit, f.prefix)
  }

  function Spelled(f: Form, w: Spelling): Bytes {
    if f.ControlForm? then CsiForm(w.eightBit, f.params) else Framed(HeadOf(f, w.eightBit), f.payload, w.end)
  }

  /** The form can be read back: its strings are closed as their kind allows, and the limit admits it. */
  predicate Admits(limit: nat, f: Form, w: Spelling) {
    if f.ControlForm? then IsPrefix(f.params) && !IsPasteStart(f.params) && PrefixSize(f.params) <= limit
    else
      && HeadOf(f, w.eightBit).Fits(limit) && Closes(f.kind, w.end) && IsPlain(f.kind, f.payload)
      && |f.payload| <= HeadOf(f, w.eightBit).Room(limit)
  }

  function TokenOf(f: Form, w: Spelling): Token {
    if f.ControlForm? then CsiOf(w.eightBit, f.params)
    else Str(StringSequence(f.kind, Spelled(f, w), f.payload, 0, w.end, f.prefix))
  }

  /** However it is spelled and cut, an admitted form is one token that has lost nothing. */
  lemma FormReadsBack(f: Form, w: Spelling, chunks: seq<Bytes>, limit: nat)
    requires Admits(limit, f, w) && Concat(chunks) == Spelled(f, w)
    ensures FeedAll(Ground, chunks, limit) == Outcome(Ground, [TokenOf(f, w)])
  {
    hide FeedAll, CsiForm, Framed, CsiOf;
    if f.ControlForm? {
      CsiFormReadsBack(w.eightBit, f.params, chunks, limit);
    } else {
      FramingRoundTrip(HeadOf(f, w.eightBit), f.payload, w.end, chunks, limit);
      assert f.payload[..|f.payload|] == f.payload;
    }
  }

  // ----- What a terminal prints -----

  /** The expectation a reply answers. */
  function Question(r: Reply): Expectation
    requires Sayable(r)
  {
    match r
    case CursorReply(_) => ExpectCursorPosition
    case StatusReply(_) => ExpectTerminalStatus
    case AttributesReply(_) => ExpectPrimaryDeviceAttributes
    case FlagsReply(_) => ExpectKittyKeyboardFlags
    case ModeReply(report) => ExpectDecPrivateMode(report.mode)
    case VersionReply(_) => ExpectXtVersion
    case ColorReply(color) => ExpectOscColor(color.kind)
    case GraphicsReply(graphics) => ExpectKittyGraphics(graphics.ids.image.value)
    case TextAreaReply(_) => ExpectTextAreaPixels
    case CellSizeReply(_) => ExpectCellSize
  }

  predicate IsPixels(p: Pixels) { p.height <= U16_MAX && p.width <= U16_MAX }

  predicate IsChannel(v: nat) { v <= 255 }

  predicate IsId(id: Option<nat>) { id.Some? ==> id.value <= U32_MAX }

  /** What a terminal can say, and be understood: numbers fit their fields, a cursor report is of no row 1, a
      graphics response names its image, and texts stay inside their frame. */
  predicate Sayable(r: Reply) {
    match r
    case CursorReply(p) => 2 <= p.row <= U16_MAX && 1 <= p.column <= U16_MAX
    case StatusReply(_) => true
    case AttributesReply(params) => AllIn(ParamByte, params)
    case FlagsReply(bits) => bits <= 255
    case ModeReply(report) => report.mode <= U16_MAX
    case VersionReply(version) => ValidUtf8(version) && IsPlain(KindDcs, version)
    case ColorReply(c) => IsChannel(c.rgb.red) && IsChannel(c.rgb.green) && IsChannel(c.rgb.blue)
    case GraphicsReply(g) =>
      g.ids.image.Some? && IsId(g.ids.image) && IsId(g.ids.number) && IsId(g.ids.placement) && IsMessage(g.message)
    case TextAreaReply(area) => IsPixels(area)
    case CellSizeReply(cell) => IsPixels(cell)
  }

  function StateCode(state: ModeState): U16 {
    match state
    case NotRecognized => 0
    case Set => 1
    case Reset => 2
    case PermanentlySet => 3
    case PermanentlyReset => 4
  }

  function StatusCode(status: Status): Bytes { if status == Ready then [0x30] else [0x33] }

  const VERSION_PREFIX := ControlParams([0x3e], [], [], 0x7c)

  /** The form of a reply: `CSI row ; column R`, `CSI 0 n` or `CSI 3 n`, `CSI ? params c`, `CSI ? flags u`,
      `CSI ? mode ; state $ y`, `DCS > | version`, `OSC 10` or `11 ; rgb:R/G/B`, `APC G i=... ; message`,
      `CSI 4 ; height ; width t` and `CSI 6 ; height ; width t`. A channel is printed twice over in 16 bits. */
  function FormOf(r: Reply): Form
    requires Sayable(r)
  {
    match r
    case CursorReply(p) => ControlForm(ControlParams([], CursorParams(p.row, p.column), [], 0x52))
    case StatusReply(status) => ControlForm(ControlParams([], StatusCode(status), [], 0x6e))
    case AttributesReply(params) => ControlForm(ControlParams([0x3f], params, [], 0x63))
    case FlagsReply(bits) => ControlForm(ControlParams([0x3f], Digits(bits), [], 0x75))
    case ModeReply(report) => ControlForm(ModeForm(report.mode, StateCode(report.state)))
    case VersionReply(version) => StringForm(KindDcs, Some(VERSION_PREFIX), version)
    case ColorReply(c) =>
      StringForm(KindOsc, None, ColorPayload(c.kind, c.rgb.red * 257, c.rgb.green * 257, c.rgb.blue * 257))
    case GraphicsReply(g) =>
      StringForm(KindApc, None, GraphicsPayload(g.ids.image.value, g.ids.number, g.ids.placement, g.message))
    case TextAreaReply(area) => ControlForm(PixelsForm([0x34], area.height, area.width))
    case CellSizeReply(cell) => ControlForm(PixelsForm([0x36], cell.height, cell.width))
  }

  lemma ControlAnswers(r: Reply, csi: ControlSequence)
    requires Sayable(r) && FormOf(r) == ControlForm(csi.params)
    ensures Match(Question(r), Syntax(Csi(csi))) == Some(r)
  {
    hide Digits, ParseDecimal, Split, ModeForm, PixelsForm, XtwinopsReport, DecPrivateModeReport, KittyFlagsReport,
      CursorPositionReport, CursorParams;
    match r
    case CursorReply(p) =>
      CursorParamsParse(p.row, p.column, csi.bytes);
    case ModeReply(report) =>
      ModeReportReadsBack(csi, report.mode, StateCode(report.state));
    case FlagsReply(bits) =>
      FlagsReadBack(csi, bits);
    case TextAreaReply(area) =>
      PixelsReadBack(csi, [0x34], area.height, area.width);
    case CellSizeReply(cell) =>
      PixelsReadBack(csi, [0x36], cell.height, cell.width);
    case _ =>
  }

  lemma StringAnswers(r: Reply, s: StringSequence)
    requires Sayable(r) && FormOf(r) == StringForm(s.kind, s.controlParams, s.payload)
    ensures Match(Question(r), Syntax(Str(s))) == Some(r)
  {
    hide ColorPayload, GraphicsPayload, OscColorReport, KittyGraphicsReport, ValidUtf8;
    match r
    case ColorReply(c) =>
      ColorReadsBack(c.kind, c.rgb.red * 257, c.rgb.green * 257, c.rgb.blue * 257);
    case GraphicsReply(g) =>
      GraphicsReadsBack(s, g.ids.image.value, g.ids.number, g.ids.placement, g.message);
    case _ =>
  }

  /** The token of a printed reply answers the question the reply is for, with exactly the reply, and no other. */
  lemma PrintedAnswers(r: Reply, w: Spelling, x: Expectation)
    requires Sayable(r)
    ensures Match(x, Syntax(TokenOf(FormOf(r), w))) == if x == Question(r) then Some(r) else None
  {
    hide FormOf, Match, Sayable, Question;
    var f := FormOf(r);
    if f.ControlForm? { ControlAnswers(r, TokenOf(f, w).csi); } else { StringAnswers(r, TokenOf(f, w).body); }
    if x != Question(r) { DistinguishedNeverBothMatch(x, Question(r), Syntax(TokenOf(f, w))); }
  }

  /** Every reply a terminal can say, printed with either introducer and any terminator its kind allows, cut in any
      chunks: one token, which answers the reply's own question with exactly that reply, and no other question. */
  lemma ReplyRoundTrip(r: Reply, w: Spelling, chunks: seq<Bytes>, limit: nat)
    requires Sayable(r) && Admits(limit, FormOf(r), w) && Concat(chunks) == Spelled(FormOf(r), w)
    ensures var token := TokenOf(FormOf(r), w);
      && FeedAll(Ground, chunks, limit) == Outcome(Ground, [token])
      && forall x :: Match(x, Syntax(token)) == if x == Question(r) then Some(r) else None
  {
    hide FormOf, Match, Sayable, Question, FeedAll, TokenOf, Admits;
    FormReadsBack(FormOf(r), w, chunks, limit);
    forall x ensures Match(x, Syntax(TokenOf(FormOf(r), w))) == if x == Question(r) then Some(r) else None {
      PrintedAnswers(r, w, x);
    }
  }

  // ----- Printed mode reports -----

  /** A printed mode report answers the question for its mode, with the state its value names, if and only if the
      value is one of the five. */
  lemma ModeAnswersExactly(csi: ControlSequence, asked: U16, mode: U16, value: U16)
    requires csi.params == ModeForm(mode, value)
    ensures Match(ExpectDecPrivateMode(asked), Syntax(Csi(csi)))
         == if asked == mode && value <= 4 then Some(ModeReply(ModeReport(mode, STATES[value]))) else None
  {
    hide ModeForm, DecPrivateModeReport;
    ModeReportReadsBack(csi, mode, value);
  }
}
