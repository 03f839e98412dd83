/** The other printed reports parse back to exactly what they say. */
module ReportRoundTrips {
  import opened Bytes
  import opened Tokens
  import opened Reports

  const STATES: seq<ModeState> := [NotRecognized, Set, Reset, PermanentlySet, PermanentlyReset]

  function ModeForm(mode: U16, value: U16): ControlParams {
    ControlParams([0x3f], Digits(mode) + [SEMICOLON] + Digits(value), [0x24], 0x79)
  }

  /** `CSI ? mode ; value $ y` reports its mode and the state its value names; other values are no
      report. */
  lemma ModeReportReadsBack(csi: ControlSequence, mode: U16, value: U16)
    requires csi.params == ModeForm(mode, value)
    ensures DecPrivateModeReport(csi) == if value <= 4 then Some(ModeReport(mode, STATES[value])) else None
  {
    hide Digits, DecimalValue;
    DigitsSpell(mode);
    DigitsSpell(value);
    SplitAtFirst(Digits(mode), SEMICOLON, Digits(value));
    SplitWithout(Digits(value), SEMICOLON);
  }

  function PixelsForm(op: Bytes, height: U16, width: U16): ControlParams {
    ControlParams([], op + [SEMICOLON] + (Digits(height) + [SEMICOLON] + Digits(width)), [], 0x74)
  }

  /** `CSI op ; height ; width t` reports height and width in that order, and sizes that are trusted
      only when neither is zero. */
  lemma PixelsReadBack(csi: ControlSequence, op: Bytes, height: U16, width: U16)
    requires |op| == 1 && op[0] != SEMICOLON && csi.params == PixelsForm(op, height, width)
    ensures var report := XtwinopsReport(csi, op);
      && report == Some(Pixels(height, width))
      && report.value.Size() == if height > 0 && width > 0 then Some((width, height)) else None
  {
    hide Digits, DecimalValue;
    DigitsSpell(height);
    DigitsSpell(width);
    SplitAtFirst(Digits(height), SEMICOLON, Digits(width));
    SplitWithout(Digits(width), SEMICOLON);
    SplitAtFirst(op, SEMICOLON, Digits(height) + [SEMICOLON] + Digits(width));
  }

  function HexByte(n: nat): Byte
    requires n < 16
  {
    if n < 10 then 0x30 + n else 0x61 + n - 10
  }

  /** A 16-bit channel as four hexadecimal digits. */
  function Hex(v: U16): Bytes {
    [HexByte(v / 4096), HexByte(v / 256 % 16), HexByte(v / 16 % 16), HexByte(v % 16)]
  }

  lemma HexParses(v: U16)
    ensures ParseHexChannel(Hex(v)) == Some(v / 256) && 0x2f !in Hex(v)
  {
    assert v / 256 == v / 4096 * 16 + v / 256 % 16;
    var s := Hex(v);
    assert forall i :: 0 <= i < 4 ==> HexDigit(s[i]).Some?;
  }

  function ColorPayload(kind: ColorKind, red: U16, green: U16, blue: U16): Bytes {
    var selector: Bytes := if kind == Foreground then [0x31, 0x30] else [0x31, 0x31];
    var rgb: Bytes := [0x72, 0x67, 0x62, 0x3a] + (Hex(red) + [0x2f] + (Hex(green) + [0x2f] + Hex(blue)));
    selector + [SEMICOLON] + rgb
  }

  /** `selector ; rgb:R/G/B` with 16-bit channels reports the colour the selector names, each channel
      by its high byte. */
  lemma ColorReadsBack(kind: ColorKind, red: U16, green: U16, blue: U16)
    ensures OscColorReport(ColorPayload(kind, red, green, blue))
        == Some(ColorReport(kind, Rgb(red / 256, green / 256, blue / 256)))
  {
    hide Hex, ParseHexChannel;
    HexParses(red);
    HexParses(green);
    HexParses(blue);
    var selector: Bytes := if kind == Foreground then [0x31, 0x30] else [0x31, 0x31];
    var channels := Hex(red) + [0x2f] + (Hex(green) + [0x2f] + Hex(blue));
    var rgb: Bytes := [0x72, 0x67, 0x62, 0x3a] + channels;
    assert rgb[4..] == channels;
    SplitAtFirst(Hex(red), 0x2f, Hex(green) + [0x2f] + Hex(blue));
    SplitAtFirst(Hex(green), 0x2f, Hex(blue));
    SplitWithout(Hex(blue), 0x2f);
    SplitAtFirst(selector, SEMICOLON, rgb);
  }

  /** `CSI ? flags u` reports its flags; beyond eight bits there is no report, and without digits there are none. */
  lemma FlagsReadBack(csi: ControlSequence, flags: nat)
    requires csi.params == ControlParams([0x3f], Digits(flags), [], 0x75)
    ensures KittyFlagsReport(csi) == if flags <= 255 then Some(flags) else None
  {
    hide Digits, DecimalValue;
    DigitsSpell(flags);
  }

  // ----- Kitty graphics responses -----

  const EQUALS: Byte := 0x3d
  const COMMA: Byte := 0x2c

  function Pair(key: Byte, value: U32): Bytes { [key] + [EQUALS] + Digits(value) }

  function PairOf(key: Byte, value: Option<U32>): seq<Bytes> {
    if value.Some? then [Pair(key, value.value)] else []
  }

  /** `G i=image,I=number,p=placement;message`, with the ids there are. */
  function GraphicsPayload(image: U32, number: Option<U32>, placement: Option<U32>, message: Bytes): Bytes {
    [0x47] + (Join(PairsOf(image, number, placement), COMMA) + [SEMICOLON] + message)
  }

  function PairsOf(image: U32, number: Option<U32>, placement: Option<U32>): seq<Bytes> {
    [Pair(0x69, image)] + PairOf(0x49, number) + PairOf(0x70, placement)
  }

  lemma PairReadsBack(ids: GraphicsIds, key: Byte, value: U32)
    requires key != EQUALS
    ensures TakePair(ids, Pair(key, value)) == Some(
        if key == 0x69 then ids.(image := Some(value))
        else if key == 0x49 then ids.(number := Some(value))
        else if key == 0x70 then ids.(placement := Some(value))
        else ids)
  {
    hide Digits, DecimalValue;
    DigitsSpell(value);
    SplitAtFirst([key], EQUALS, Digits(value));
  }

  lemma {:induction false} TakePairsAppend(ids: GraphicsIds, a: seq<Bytes>, b: seq<Bytes>)
    ensures TakePairs(ids, a + b)
         == if TakePairs(ids, a).None? then None else TakePairs(TakePairs(ids, a).value, b)
    decreases |a|
  {
    hide TakePair;
    if a == [] {
      assert a + b == b;
    } else {
      assert (a + b)[1..] == a[1..] + b;
      if TakePair(ids, a[0]).Some? { TakePairsAppend(TakePair(ids, a[0]).value, a[1..], b); }
    }
  }

  lemma OptionalPair(ids: GraphicsIds, key: Byte, value: Option<U32>)
    requires key == 0x49 || key == 0x70
    ensures TakePairs(ids, PairOf(key, value)) == Some(
        if value.None? then ids
        else if key == 0x49 then ids.(number := value)
        else ids.(placement := value))
  {
    hide TakePair, Pair;
    if value.Some? {
      PairReadsBack(ids, key, value.value);
      assert PairOf(key, value)[1..] == [];
    }
  }

  lemma PairsReadBack(image: U32, number: Option<U32>, placement: Option<U32>)
    ensures TakePairs(GraphicsIds(None, None, None), PairsOf(image, number, placement))
         == Some(GraphicsIds(Some(image), number, placement))
  {
    hide TakePair, Pair, PairOf, TakePairs;
    var ids := GraphicsIds(Some(image), None, None);
    PairReadsBack(GraphicsIds(None, None, None), 0x69, image);
    OnePair(GraphicsIds(None, None, None), Pair(0x69, image));
    OptionalPair(ids, 0x49, number);
    OptionalPair(ids.(number := number), 0x70, placement);
    TakePairsAppend(GraphicsIds(None, None, None), [Pair(0x69, image)] + PairOf(0x49, number), PairOf(0x70, placement));
    TakePairsAppend(GraphicsIds(None, None, None), [Pair(0x69, image)], PairOf(0x49, number));
  }

  lemma OnePair(ids: GraphicsIds, pair: Bytes)
    ensures TakePairs(ids, [pair]) == TakePair(ids, pair)
  {
    hide TakePair;
    var taken := TakePair(ids, pair);
    assert [pair][1..] == [];
    if taken.Some? { assert TakePairs(taken.value, []) == taken; }
  }

  /** A graphics response gives back each of its ids and its message. */
  lemma GraphicsReadsBack(
      apc: StringSequence, image: U32, number: Option<U32>, placement: Option<U32>, message: Bytes)
    requires apc.kind == KindApc && IsMessage(message)
    requires apc.payload == GraphicsPayload(image, number, placement, message)
    ensures KittyGraphicsReport(apc)
         == Some(GraphicsReport(GraphicsIds(Some(image), number, placement), message))
  {
    hide Digits, TakePairs, Split, SplitOnce, Join;
    var pairs := PairsOf(image, number, placement);
    var joined := Join(pairs, COMMA);
    SplitJoin(pairs, COMMA);
    JoinLacks(pairs, COMMA, SEMICOLON);
    PairsReadBack(image, number, placement);
    SplitAtFirst(joined, SEMICOLON, message);
    assert apc.payload[1..] == joined + [SEMICOLON] + message;
    SplitWithout([], COMMA);
    assert pairs[0] != [];
  }
}
