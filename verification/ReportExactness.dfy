/** Exactly what answers: each question is answered by the reports of its own shape, up to how their numbers are
    spelled, and by nothing else. */
module ReportExactness {
  import opened Bytes
  import opened Tokens
  import opened Reports
  import opened Events
  import opened Correlate
  import opened ReportRoundTrips

  // ----- The shapes -----

  /** `s` is decimal digits, leading zeros allowed, of the number `n`. */
  predicate Spells(s: Bytes, n: nat) { s != [] && AllDigits(s) && DecimalValue(s) == n }

  /** One to four hexadecimal digits whose first two, or whose only one and a zero, spell the byte. */
  predicate Channel(s: Bytes, v: nat) {
    && 1 <= |s| <= 4 && (forall i :: 0 <= i < |s| ==> HexDigit(s[i]).Some?)
    && v == 16 * HexDigit(s[0]).value + if |s| > 1 then HexDigit(s[1]).value else 0
  }

  /** `rgb:` and three channels. */
  ghost predicate IsRgbText(s: Bytes, c: Rgb) {
    exists a, b, d {:trigger Channel(a, c.red), Channel(b, c.green), Channel(d, c.blue)} ::
      && Channel(a, c.red) && Channel(b, c.green) && Channel(d, c.blue)
      && s == [0x72, 0x67, 0x62, 0x3a] + (a + [0x2f] + (b + [0x2f] + d))
  }

  ghost predicate SpellsPair(s: Bytes, m: nat, n: nat) {
    exists a, b {:trigger Spells(a, m), Spells(b, n)} :: Spells(a, m) && Spells(b, n) && s == a + [SEMICOLON] + b
  }

  /** The sequences that answer `x`, and with what. */
  ghost predicate Answers(x: Expectation, p: ControlParams, r: Reply) {
    match x
    case ExpectCursorPosition =>
      && r.CursorReply? && 2 <= r.position.row <= 65535 && 1 <= r.position.column <= 65535
      && p == ControlParams([], p.paramBytes, [], 0x52) && SpellsPair(p.paramBytes, r.position.row, r.position.column)
    case ExpectTerminalStatus =>
      r.StatusReply? && p == ControlParams([], if r.status == Ready then [0x30] else [0x33], [], 0x6e)
    case ExpectPrimaryDeviceAttributes =>
      r.AttributesReply? && p == ControlParams([0x3f], r.params, [], 0x63)
    case ExpectKittyKeyboardFlags =>
      && r.FlagsReply? && r.bits <= 255 && p == ControlParams([0x3f], p.paramBytes, [], 0x75)
      && (if p.paramBytes == [] then r.bits == 0 else Spells(p.paramBytes, r.bits))
    case ExpectDecPrivateMode(mode) =>
      && r.ModeReply? && r.report.mode == mode
      && p == ControlParams([0x3f], p.paramBytes, [0x24], 0x79)
      && SpellsPair(p.paramBytes, mode, match r.report.state
                                  case NotRecognized => 0
                                  case Set => 1
                                  case Reset => 2
                                  case PermanentlySet => 3
                                  case PermanentlyReset => 4)
    case ExpectTextAreaPixels => r.TextAreaReply? && IsPixels(p, 0x34, r.area)
    case ExpectCellSize => r.CellSizeReply? && IsPixels(p, 0x36, r.cell)
    case _ => false
  }

  ghost predicate IsPixels(p: ControlParams, op: Byte, size: Pixels) {
    && size.height <= 65535 && size.width <= 65535
    && p == ControlParams([], p.paramBytes, [], 0x74)
    && p.paramBytes != [] && p.paramBytes[0] == op && |p.paramBytes| > 1 && p.paramBytes[1] == SEMICOLON
    && SpellsPair(p.paramBytes[2..], size.height, size.width)
  }

  // ----- Two numbers -----

  lemma SpellsParses(s: Bytes, n: nat, max: nat)
    ensures ParseDecimal(s, max) == Some(n) <==> Spells(s, n) && n <= max
    ensures Spells(s, n) ==> SEMICOLON !in s
  {
  }

  /** Two fields that parse as `m` and `n`: the shape of a pair. */
  lemma PairExactly(s: Bytes, m: nat, n: nat, max: nat)
    ensures var fields := Split(s, SEMICOLON);
      && |fields| == 2 && ParseDecimal(fields[0], max) == Some(m) && ParseDecimal(fields[1], max) == Some(n)
      <==> m <= max && n <= max && SpellsPair(s, m, n)
  {
    hide Split, Join, ParseDecimal, Spells;
    var fields := Split(s, SEMICOLON);
    if |fields| == 2 && ParseDecimal(fields[0], max) == Some(m) && ParseDecimal(fields[1], max) == Some(n) {
      TwoFields(s);
      SpellsParses(fields[0], m, max);
      SpellsParses(fields[1], n, max);
      assert SpellsPair(s, m, n);
    }
    if m <= max && n <= max && SpellsPair(s, m, n) {
      var a, b :| Spells(a, m) && Spells(b, n) && s == a + [SEMICOLON] + b;
      SpellsParses(a, m, max);
      SpellsParses(b, n, max);
      SplitAtFirst(a, SEMICOLON, b);
      SplitWithout(b, SEMICOLON);
    }
  }

  lemma TwoFields(s: Bytes)
    ensures var fields := Split(s, SEMICOLON);
      |fields| == 2 ==> s == fields[0] + [SEMICOLON] + fields[1]
  {
    hide Split, Join;
    var fields := Split(s, SEMICOLON);
    JoinSplit(s, SEMICOLON);
    if |fields| == 2 {
      MoreFields(fields, SEMICOLON);
      OneField(fields[1], SEMICOLON);
      assert fields[1..] == [fields[1]];
    }
  }

  /** Three fields, the first `op`: `op ;` and two fields more. */
  lemma OpThenTwo(s: Bytes, op: Byte)
    requires op != SEMICOLON
    ensures var fields := Split(s, SEMICOLON);
      |fields| == 3 && fields[0] == [op] <==>
        |s| > 1 && s[0] == op && s[1] == SEMICOLON && |Split(s[2..], SEMICOLON)| == 2
    ensures |s| > 1 && s[0] == op && s[1] == SEMICOLON ==>
      Split(s, SEMICOLON) == [[op]] + Split(s[2..], SEMICOLON)
  {
    hide Split, Join;
    var fields := Split(s, SEMICOLON);
    if |s| > 1 && s[0] == op && s[1] == SEMICOLON {
      assert s == [op] + [SEMICOLON] + s[2..];
      SplitAtFirst([op], SEMICOLON, s[2..]);
    }
    JoinSplit(s, SEMICOLON);
    if |fields| > 1 { MoreFields(fields, SEMICOLON); }
  }

  lemma PixelsExactly(csi: ControlSequence, op: Byte, size: Pixels)
    requires op != SEMICOLON
    ensures XtwinopsReport(csi, [op]) == Some(size) <==> IsPixels(csi.params, op, size)
  {
    hide Split, SpellsPair, ParseDecimal;
    var s := csi.params.paramBytes;
    OpThenTwo(s, op);
    if |s| > 1 && s[0] == op && s[1] == SEMICOLON { PairExactly(s[2..], size.height, size.width, U16_MAX); }
  }

  // ----- Every question -----

  lemma CursorExactly(csi: ControlSequence, r: Reply)
    ensures Match(ExpectCursorPosition, Syntax(Csi(csi))) == Some(r) <==> Answers(ExpectCursorPosition, csi.params, r)
  {
    hide Split, ParseDecimal, SpellsPair;
    var s := csi.params.paramBytes;
    if SEMICOLON !in s { SplitWithout(s, SEMICOLON); }
    if r.CursorReply? { PairExactly(s, r.position.row, r.position.column, U16_MAX); }
  }

  lemma ModeExactly(mode: U16, csi: ControlSequence, r: Reply)
    ensures Match(ExpectDecPrivateMode(mode), Syntax(Csi(csi))) == Some(r)
       <==> Answers(ExpectDecPrivateMode(mode), csi.params, r)
  {
    hide Split, ParseDecimal, SpellsPair;
    if r.ModeReply? {
      var code := match r.report.state
        case NotRecognized => 0
        case Set => 1
        case Reset => 2
        case PermanentlySet => 3
        case PermanentlyReset => 4;
      PairExactly(csi.params.paramBytes, mode, code, U16_MAX);
    }
  }

  /** A control sequence answers a question with a reply if and only if it has that question's shape and spells that
      reply. */
  lemma ControlAnswersExactly(x: Expectation, csi: ControlSequence, r: Reply)
    ensures Match(x, Syntax(Csi(csi))) == Some(r) <==> Answers(x, csi.params, r)
  {
    hide CursorPositionReport, DecPrivateModeReport, XtwinopsReport, SpellsPair, IsPixels, Spells, ParseDecimal;
    match x
    case ExpectCursorPosition =>
      CursorExactly(csi, r);
    case ExpectDecPrivateMode(mode) =>
      ModeExactly(mode, csi, r);
    case ExpectTextAreaPixels =>
      if r.TextAreaReply? { PixelsExactly(csi, 0x34, r.area); }
    case ExpectCellSize =>
      if r.CellSizeReply? { PixelsExactly(csi, 0x36, r.cell); }
    case ExpectKittyKeyboardFlags =>
      if r.FlagsReply? { SpellsParses(csi.params.paramBytes, r.bits, 255); }
    case _ =>
  }

  // ----- Colours -----

  lemma ChannelParses(s: Bytes, v: nat)
    ensures ParseHexChannel(s) == Some(v) <==> Channel(s, v)
    ensures Channel(s, v) ==> 0x2f !in s
  {
    assert HexDigit(0x2f).None?;
  }

  lemma ThreeFields(s: Bytes)
    ensures var fields := Split(s, 0x2f);
      |fields| == 3 ==> s == fields[0] + [0x2f] + (fields[1] + [0x2f] + fields[2])
  {
    hide Split, Join;
    var fields := Split(s, 0x2f);
    JoinSplit(s, 0x2f);
    if |fields| == 3 {
      MoreFields(fields, 0x2f);
      MoreFields(fields[1..], 0x2f);
      OneField(fields[2], 0x2f);
      assert fields[1..][1..] == [fields[2]];
    }
  }

  lemma RgbExactly(s: Bytes, c: Rgb)
    ensures ParseX11Rgb(s) == Some(c) <==> IsRgbText(s, c)
  {
    hide Split, ParseHexChannel, Channel;
    if ParseX11Rgb(s) == Some(c) {
      var fields := Split(s[4..], 0x2f);
      ThreeFields(s[4..]);
      ChannelParses(fields[0], c.red);
      ChannelParses(fields[1], c.green);
      ChannelParses(fields[2], c.blue);
      assert s == s[..4] + s[4..];
    }
    if IsRgbText(s, c) {
      var a, b, d :| Channel(a, c.red) && Channel(b, c.green) && Channel(d, c.blue)
        && s == [0x72, 0x67, 0x62, 0x3a] + (a + [0x2f] + (b + [0x2f] + d));
      ChannelParses(a, c.red);
      ChannelParses(b, c.green);
      ChannelParses(d, c.blue);
      assert s[4..] == a + [0x2f] + (b + [0x2f] + d);
      SplitAtFirst(a, 0x2f, b + [0x2f] + d);
      SplitAtFirst(b, 0x2f, d);
      SplitWithout(d, 0x2f);
    }
  }

  lemma {:induction false} SplitOnceJoins(s: Bytes, sep: Byte)
    ensures match SplitOnce(s, sep)
      case None => true
      case Some(p) => s == p.0 + [sep] + p.1
    decreases |s|
  {
    if s != [] && s[0] != sep { SplitOnceJoins(s[1..], sep); }
  }

  /** The selector of the colour, `;` and its channels. */
  ghost predicate IsColorText(payload: Bytes, c: ColorReport) {
    var selector: Bytes := if c.kind == Foreground then [0x31, 0x30] else [0x31, 0x31];
    |payload| > 2 && payload[..2] == selector && payload[2] == SEMICOLON && IsRgbText(payload[3..], c.rgb)
  }

  lemma ColorExactly(payload: Bytes, c: ColorReport)
    ensures OscColorReport(payload) == Some(c) <==> IsColorText(payload, c)
  {
    hide ParseX11Rgb, IsRgbText, SplitOnce;
    SplitOnceJoins(payload, SEMICOLON);
    var split := SplitOnce(payload, SEMICOLON);
    if split.Some? { RgbExactly(split.value.1, c.rgb); }
    if |payload| > 2 && SEMICOLON !in payload[..2] && payload[2] == SEMICOLON {
      assert payload == payload[..2] + [SEMICOLON] + payload[3..];
      SplitAtFirst(payload[..2], SEMICOLON, payload[3..]);
    }
  }

  // ----- Graphics responses -----

  /** `key=value`; the three known keys need a number of 32 bits. */
  predicate IsPair(pair: Bytes) {
    var p := SplitOnce(pair, 0x3d);
    p.Some? && (p.value.0 in {[0x69], [0x49], [0x70]} ==> ParseU32(p.value.1).Some?)
  }

  predicate ArePairs(pairs: seq<Bytes>) { forall i :: 0 <= i < |pairs| ==> IsPair(pairs[i]) }

  function PairsIn(control: Bytes): seq<Bytes> { if control == [] then [] else Split(control, 0x2c) }

  /** The number the last pair with the key gives it. */
  function LastId(pairs: seq<Bytes>, key: Byte): Option<nat> {
    if pairs == [] then None
    else
      var p := SplitOnce(pairs[|pairs| - 1], 0x3d);
      if p.Some? && p.value.0 == [key] then ParseU32(p.value.1) else LastId(pairs[..|pairs| - 1], key)
  }

  lemma {:induction false} PairsExactly(pairs: seq<Bytes>)
    ensures TakePairs(GraphicsIds(None, None, None), pairs) ==
      if ArePairs(pairs) then
        Some(GraphicsIds(LastId(pairs, 0x69), LastId(pairs, 0x49), LastId(pairs, 0x70)))
      else None
    decreases |pairs|
  {
    hide SplitOnce, ParseDecimal, TakePairs;
    var none := GraphicsIds(None, None, None);
    if pairs == [] {
      NoPairs(none);
    } else {
      var before, last := pairs[..|pairs| - 1], pairs[|pairs| - 1];
      assert pairs == before + [last];
      PairsExactly(before);
      TakePairsAppend(none, before, [last]);
      if TakePairs(none, before).Some? { OnePair(TakePairs(none, before).value, last); }
    }
  }

  lemma NoPairs(ids: GraphicsIds)
    ensures TakePairs(ids, []) == Some(ids)
  {
  }

  /** `G`, pairs, `;` and a printable message; each id is the one its last pair gives. */
  predicate IsGraphicsText(payload: Bytes, g: GraphicsReport) {
    && |payload| > 0 && payload[0] == 0x47
    && var split := SplitOnce(payload[1..], SEMICOLON);
    && split.Some? && g.message == split.value.1
    && g.message != [] && (forall i :: 0 <= i < |g.message| ==> 0x20 <= g.message[i] <= 0x7e)
    && var pairs := PairsIn(split.value.0);
    && ArePairs(pairs)
    && g.ids == GraphicsIds(LastId(pairs, 0x69), LastId(pairs, 0x49), LastId(pairs, 0x70))
  }

  lemma GraphicsExactly(apc: StringSequence, g: GraphicsReport)
    ensures KittyGraphicsReport(apc) == Some(g) <==> apc.kind == KindApc && IsGraphicsText(apc.payload, g)
  {
    hide SplitOnce, Split, TakePairs, ArePairs, LastId;
    if |apc.payload| > 0 {
      var split := SplitOnce(apc.payload[1..], SEMICOLON);
      if split.Some? {
        NoPairs(GraphicsIds(None, None, None));
        PairsExactly(PairsIn(split.value.0));
      }
    }
  }

  // ----- Every string -----

  ghost predicate StringAnswers(x: Expectation, s: StringSequence, r: Reply) {
    match x
    case ExpectXtVersion =>
      && s.kind == KindDcs && s.controlParams == Some(ControlParams([0x3e], [], [], 0x7c))
      && ValidUtf8(s.payload) && r == VersionReply(s.payload)
    case ExpectOscColor(which) =>
      s.kind == KindOsc && r.ColorReply? && r.color.kind == which && IsColorText(s.payload, r.color)
    case ExpectKittyGraphics(id) =>
      && s.kind == KindApc && r.GraphicsReply? && r.graphics.ids.image == Some(id)
      && IsGraphicsText(s.payload, r.graphics)
    case _ => false
  }

  /** A control string answers a question with a reply if and only if it has that question's frame and spells that
      reply. */
  lemma StringAnswersExactly(x: Expectation, s: StringSequence, r: Reply)
    ensures Match(x, Syntax(Str(s))) == Some(r) <==> StringAnswers(x, s, r)
  {
    hide OscColorReport, KittyGraphicsReport, IsColorText, IsGraphicsText, ValidUtf8;
    match x
    case ExpectOscColor(which) =>
      if r.ColorReply? { ColorExactly(s.payload, r.color); }
    case ExpectKittyGraphics(id) =>
      if r.GraphicsReply? { GraphicsExactly(s, r.graphics); }
    case _ =>
  }
}
