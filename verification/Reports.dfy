/** Terminal reports (`src/report.rs`): the number loops and the shape each report must have. */
module Reports {
  import opened Bytes
  import opened Tokens

  const SEMICOLON: Byte := 0x3b
  const U16_MAX := 65535
  const U32_MAX := 4294967295

  type U16 = n: nat | n <= 65535
  type U32 = n: nat | n <= 4294967295

  // ----- Decimal fields -----

  predicate IsDigit(b: Byte) { 0x30 <= b <= 0x39 }

  predicate AllDigits(s: Bytes) { forall i :: 0 <= i < |s| ==> IsDigit(s[i]) }

  /** The number a run of digits spells, most significant digit first. */
  function DecimalValue(s: Bytes): (v: nat)
    requires AllDigits(s)
  {
    if s == [] then 0 else DecimalValue(s[..|s| - 1]) * 10 + (s[|s| - 1] - 0x30)
  }

  /** A non-empty run of digits whose value is at most `max`, and nothing else, is a number. */
  function ParseDecimal(s: Bytes, max: nat): Option<nat> {
    if s != [] && AllDigits(s) && DecimalValue(s) <= max then Some(DecimalValue(s)) else None
  }

  function ParseU16(s: Bytes): Option<nat> { ParseDecimal(s, U16_MAX) }

  function ParseU32(s: Bytes): Option<nat> { ParseDecimal(s, U32_MAX) }

  function ParseOneBasedU16(s: Bytes): Option<nat> {
    if ParseU16(s) == Some(0) then None else ParseU16(s)
  }

  lemma {:induction false} DecimalValueGrows(s: Bytes, n: nat)
    requires AllDigits(s) && n <= |s|
    ensures DecimalValue(s[..n]) <= DecimalValue(s)
    decreases |s|
  {
    if n == |s| {
      assert s[..n] == s;
    } else {
      DecimalValueGrows(s[..|s| - 1], n);
      assert s[..|s| - 1][..n] == s[..n];
    }
  }

  /** The digit loop with checked arithmetic: giving up at the first overflow gives up exactly on the
      values that do not fit. */
  method ParseDecimalLoop(s: Bytes, max: nat) returns (r: Option<nat>)
    ensures r == ParseDecimal(s, max)
  {
    if s == [] {
      return None;
    }
    var value := 0;
    for i := 0 to |s|
      invariant AllDigits(s[..i])
      invariant value == DecimalValue(s[..i]) && value <= max
    {
      if !IsDigit(s[i]) {
        return None;
      }
      assert s[..i + 1][..i] == s[..i];
      var digit := s[i] - 0x30;
      if value * 10 > max || value * 10 + digit > max {
        if AllDigits(s) { DecimalValueGrows(s, i + 1); }
        return None;
      }
      value := value * 10 + digit;
    }
    assert s[..|s|] == s;
    return Some(value);
  }

  method ParseOneBasedU16Loop(s: Bytes) returns (r: Option<nat>)
    ensures r == ParseOneBasedU16(s)
  {
    var value := ParseDecimalLoop(s, U16_MAX);
    if value == Some(0) {
      r := None;
    } else {
      r := value;
    }
  }

  /** Decimal digits of `n`, without leading zeros. */
  function Digits(n: nat): (s: Bytes)
    ensures s != [] && AllDigits(s)
    decreases n
  {
    if n < 10 then [0x30 + n] else Digits(n / 10) + [0x30 + n % 10]
  }

  lemma {:induction false} DigitsSpell(n: nat)
    ensures DecimalValue(Digits(n)) == n
    decreases n
  {
    if n >= 10 {
      DigitsSpell(n / 10);
      assert Digits(n)[..|Digits(n)| - 1] == Digits(n / 10);
    } else {
      assert Digits(n)[..0] == [];
    }
  }

  lemma DigitsOfU16(n: nat)
    requires n <= U16_MAX
    ensures |Digits(n)| <= 5
  {
    assert n / 10 <= 6553 && n / 10 / 10 <= 655 && n / 10 / 10 / 10 <= 65 && n / 10 / 10 / 10 / 10 <= 6;
    assert |Digits(n / 10 / 10 / 10 / 10)| == 1;
    assert |Digits(n / 10 / 10 / 10)| <= 2;
    assert |Digits(n / 10 / 10)| <= 3;
    assert |Digits(n / 10)| <= 4;
  }

  // ----- Hexadecimal colour channels -----

  function HexDigit(b: Byte): Option<nat> {
    if 0x30 <= b <= 0x39 then Some(b - 0x30)
    else if 0x61 <= b <= 0x66 then Some(b - 0x61 + 10)
    else if 0x41 <= b <= 0x46 then Some(b - 0x41 + 10)
    else None
  }

  predicate AllHex(s: Bytes) { forall i :: 0 <= i < |s| ==> HexDigit(s[i]).Some? }

  /** The high byte of a channel of one to four hex digits, left-aligned: its first two digits. */
  function ParseHexChannel(s: Bytes): Option<nat> {
    if 1 <= |s| <= 4 && AllHex(s) then
      Some(HexDigit(s[0]).value * 16 + if |s| == 1 then 0 else HexDigit(s[1]).value)
    else None
  }

  method ParseHexChannelLoop(s: Bytes) returns (r: Option<nat>)
    ensures r == ParseHexChannel(s)
    ensures r.Some? ==> r.value <= 255
  {
    if s == [] || |s| > 4 {
      return None;
    }
    var value := 0;
    for i := 0 to |s|
      invariant AllHex(s[..i])
      invariant i == 0 ==> value == 0
      invariant i == 1 ==> value == HexDigit(s[0]).value
      invariant i >= 2 ==> value / (if i == 2 then 1 else if i == 3 then 16 else 256)
                             == HexDigit(s[0]).value * 16 + HexDigit(s[1]).value
    {
      var digit := HexDigit(s[i]);
      if digit.None? {
        return None;
      }
      assert AllHex(s[..i + 1]) by { assert s[..i + 1] == s[..i] + [s[i]]; }
      value := value * 16 + digit.value;
    }
    assert s[..|s|] == s;
    // `value << (16 - 4 * len) >> 8`, written with the powers of two.
    var aligned := value * (if |s| == 1 then 4096 else if |s| == 2 then 256 else if |s| == 3 then 16 else 1);
    return Some(aligned / 256);
  }

  // ----- Fields -----

  /** The fields of `s` between separators; at least one, as a slice `split` yields. */
  function Split(s: Bytes, sep: Byte): (fields: seq<Bytes>)
    ensures |fields| > 0
  {
    if s == [] then [[]]
    else
      var rest := Split(s[1..], sep);
      if s[0] == sep then [[]] + rest else [[s[0]] + rest[0]] + rest[1..]
  }

  function SplitOnce(s: Bytes, sep: Byte): Option<(Bytes, Bytes)> {
    if s == [] then None
    else if s[0] == sep then Some(([], s[1..]))
    else match SplitOnce(s[1..], sep)
      case None => None
      case Some(p) => Some(([s[0]] + p.0, p.1))
  }

  lemma {:induction false} SplitAtFirst(a: Bytes, sep: Byte, b: Bytes)
    requires sep !in a
    ensures Split(a + [sep] + b, sep) == [a] + Split(b, sep)
    ensures SplitOnce(a + [sep] + b, sep) == Some((a, b))
  {
    var s := a + [sep] + b;
    if a == [] {
      assert s[1..] == b;
    } else {
      assert s[1..] == a[1..] + [sep] + b;
      SplitAtFirst(a[1..], sep, b);
      assert [a[0]] + a[1..] == a;
      var rest := [a[1..]] + Split(b, sep);
      assert rest[1..] == Split(b, sep);
    }
  }

  lemma {:induction false} SplitWithout(s: Bytes, sep: Byte)
    requires sep !in s
    ensures Split(s, sep) == [s]
    ensures SplitOnce(s, sep) == None
  {
    if s != [] {
      SplitWithout(s[1..], sep);
      assert [s[0]] + s[1..] == s;
    }
  }

  /** Fields with separators between them. */
  function Join(fields: seq<Bytes>, sep: Byte): Bytes {
    if fields == [] then [] else if |fields| == 1 then fields[0] else fields[0] + [sep] + Join(fields[1..], sep)
  }

  predicate Lack(fields: seq<Bytes>, b: Byte) { forall i :: 0 <= i < |fields| ==> b !in fields[i] }

  /** Splitting undoes joining fields without a separator. */
  lemma {:induction false} SplitJoin(fields: seq<Bytes>, sep: Byte)
    requires fields != [] && Lack(fields, sep)
    ensures Split(Join(fields, sep), sep) == fields
    decreases |fields|
  {
    hide Split;
    if |fields| == 1 {
      SplitWithout(fields[0], sep);
    } else {
      SplitJoin(fields[1..], sep);
      SplitAtFirst(fields[0], sep, Join(fields[1..], sep));
      assert [fields[0]] + fields[1..] == fields;
    }
  }

  /** And joining undoes splitting, whose fields have no separator. */
  lemma {:induction false} JoinSplit(s: Bytes, sep: Byte)
    ensures Lack(Split(s, sep), sep) && Join(Split(s, sep), sep) == s
    decreases |s|
  {
    hide Join;
    if s == [] {
      OneField([], sep);
    } else {
      JoinSplit(s[1..], sep);
      var rest := Split(s[1..], sep);
      if s[0] == sep {
        MoreFields([[]] + rest, sep);
        assert ([[]] + rest)[1..] == rest;
        assert s == [] + [sep] + s[1..];
      } else {
        var all := [[s[0]] + rest[0]] + rest[1..];
        assert s == [s[0]] + s[1..];
        assert all[1..] == rest[1..];
        if |rest| == 1 {
          OneField(rest[0], sep);
          OneField(all[0], sep);
          assert rest == [rest[0]] && all == [all[0]];
        } else {
          MoreFields(rest, sep);
          MoreFields(all, sep);
          Associate([s[0]], rest[0] + [sep], Join(rest[1..], sep));
          Associate([s[0]], rest[0], [sep]);
        }
      }
    }
  }

  lemma OneField(field: Bytes, sep: Byte)
    ensures Join([field], sep) == field
  {
  }

  lemma MoreFields(fields: seq<Bytes>, sep: Byte)
    requires |fields| > 1
    ensures Join(fields, sep) == fields[0] + [sep] + Join(fields[1..], sep)
  {
  }

  lemma {:induction false} JoinLacks(fields: seq<Bytes>, sep: Byte, b: Byte)
    requires b != sep && Lack(fields, b)
    ensures b !in Join(fields, sep)
    decreases |fields|
  {
    if |fields| > 1 { JoinLacks(fields[1..], sep, b); }
  }

  // ----- CSI reports -----

  predicate Shape(p: ControlParams, markers: Bytes, intermediates: Bytes, final: Byte) {
    p.finalByte == final && p.privateMarkers == markers && p.intermediates == intermediates
  }

  datatype CursorPosition = CursorPosition(row: nat, column: nat)

  function CursorPositionReport(csi: ControlSequence): Option<CursorPosition> {
    var fields := Split(csi.params.paramBytes, SEMICOLON);
    if !Shape(csi.params, [], [], 0x52) || |fields| != 2 then None
    else
      var row := ParseOneBasedU16(fields[0]);
      var column := ParseOneBasedU16(fields[1]);
      if row.Some? && column.Some? then Some(CursorPosition(row.value, column.value)) else None
  }

  datatype Status = Ready | Malfunction

  function TerminalStatusReport(csi: ControlSequence): Option<Status> {
    if !Shape(csi.params, [], [], 0x6e) then None
    else if csi.params.paramBytes == [0x30] then Some(Ready)
    else if csi.params.paramBytes == [0x33] then Some(Malfunction)
    else None
  }

  datatype ModeState = NotRecognized | Set | Reset | PermanentlySet | PermanentlyReset {
    function Enabled(): Option<bool> {
      match this
      case NotRecognized => None
      case Set => Some(true)
      case PermanentlySet => Some(true)
      case Reset => Some(false)
      case PermanentlyReset => Some(false)
    }
  }

  function ModeStateOf(value: nat): Option<ModeState> {
    if value == 0 then Some(NotRecognized)
    else if value == 1 then Some(Set)
    else if value == 2 then Some(Reset)
    else if value == 3 then Some(PermanentlySet)
    else if value == 4 then Some(PermanentlyReset)
    else None
  }

  datatype ModeReport = ModeReport(mode: nat, state: ModeState)

  function DecPrivateModeReport(csi: ControlSequence): Option<ModeReport> {
    var fields := Split(csi.params.paramBytes, SEMICOLON);
    if !Shape(csi.params, [0x3f], [0x24], 0x79) || |fields| != 2 then None
    else
      var mode := ParseU16(fields[0]);
      var value := ParseU16(fields[1]);
      if mode.None? || value.None? then None
      else match ModeStateOf(value.value)
        case None => None
        case Some(state) => Some(ModeReport(mode.value, state))
  }

  datatype Pixels = Pixels(height: nat, width: nat) {
    /** Zero dimensions are reported but never trusted. */
    function Size(): Option<(nat, nat)> {
      if height == 0 || width == 0 then None else Some((width, height))
    }
  }

  /** `CSI op ; height ; width t`. */
  function XtwinopsReport(csi: ControlSequence, op: Bytes): Option<Pixels> {
    var fields := Split(csi.params.paramBytes, SEMICOLON);
    if !Shape(csi.params, [], [], 0x74) || |fields| != 3 || fields[0] != op then None
    else
      var height := ParseU16(fields[1]);
      var width := ParseU16(fields[2]);
      if height.Some? && width.Some? then Some(Pixels(height.value, width.value)) else None
  }

  function TextAreaPixelsReport(csi: ControlSequence): Option<Pixels> { XtwinopsReport(csi, [0x34]) }

  function CellSizeReport(csi: ControlSequence): Option<Pixels> { XtwinopsReport(csi, [0x36]) }

  function KittyFlagsReport(csi: ControlSequence): Option<nat> {
    if !Shape(csi.params, [0x3f], [], 0x75) then None
    else if csi.params.paramBytes == [] then Some(0)
    else ParseDecimal(csi.params.paramBytes, 255)
  }

  // ----- String reports -----

  function XtVersionReport(dcs: StringSequence): Option<Bytes> {
    match dcs.controlParams
    case None => None
    case Some(p) =>
      if Shape(p, [0x3e], [], 0x7c) && p.paramBytes == [] && ValidUtf8(dcs.payload) then
        Some(dcs.payload)
      else None
  }

  datatype ColorKind = Foreground | Background

  datatype Rgb = Rgb(red: nat, green: nat, blue: nat)

  datatype ColorReport = ColorReport(kind: ColorKind, rgb: Rgb)

  function ColorKindOf(selector: Bytes): Option<ColorKind> {
    if selector == [0x31, 0x30] then Some(Foreground)
    else if selector == [0x31, 0x31] then Some(Background)
    else None
  }

  function ParseX11Rgb(s: Bytes): Option<Rgb> {
    if !([0x72, 0x67, 0x62, 0x3a] <= s) then None
    else
      var channels := Split(s[4..], 0x2f);
      if |channels| != 3 then None
      else
        var red := ParseHexChannel(channels[0]);
        var green := ParseHexChannel(channels[1]);
        var blue := ParseHexChannel(channels[2]);
        if red.Some? && green.Some? && blue.Some? then Some(Rgb(red.value, green.value, blue.value))
        else None
  }

  function OscColorReport(payload: Bytes): Option<ColorReport> {
    match SplitOnce(payload, SEMICOLON)
    case None => None
    case Some(p) =>
      var kind := ColorKindOf(p.0);
      var rgb := ParseX11Rgb(p.1);
      if kind.Some? && rgb.Some? then Some(ColorReport(kind.value, rgb.value)) else None
  }

  datatype GraphicsIds = GraphicsIds(image: Option<nat>, number: Option<nat>, placement: Option<nat>)

  datatype GraphicsReport = GraphicsReport(ids: GraphicsIds, message: Bytes) {
    predicate IsOk() { message == [0x4f, 0x4b] }
  }

  /** Takes one `key=value` pair into the ids; unknown keys are tolerated. */
  function TakePair(ids: GraphicsIds, pair: Bytes): Option<GraphicsIds> {
    match SplitOnce(pair, 0x3d)
    case None => None
    case Some(p) =>
      if p.0 !in {[0x69], [0x49], [0x70]} then Some(ids)
      else
        var value := ParseU32(p.1);
        if value.None? then None
        else if p.0 == [0x69] then Some(ids.(image := value))
        else if p.0 == [0x49] then Some(ids.(number := value))
        else Some(ids.(placement := value))
  }

  function TakePairs(ids: GraphicsIds, pairs: seq<Bytes>): Option<GraphicsIds>
    decreases |pairs|
  {
    if pairs == [] then Some(ids)
    else match TakePair(ids, pairs[0])
      case None => None
      case Some(more) => TakePairs(more, pairs[1..])
  }

  predicate IsMessage(s: Bytes) { s != [] && forall i :: 0 <= i < |s| ==> 0x20 <= s[i] <= 0x7e }

  function KittyGraphicsReport(apc: StringSequence): Option<GraphicsReport> {
    if apc.kind != KindApc || !([0x47] <= apc.payload) then None
    else match SplitOnce(apc.payload[1..], SEMICOLON)
      case None => None
      case Some(p) =>
        var none := GraphicsIds(None, None, None);
        var ids := if p.0 == [] then Some(none) else TakePairs(none, Split(p.0, 0x2c));
        if ids.Some? && IsMessage(p.1) then Some(GraphicsReport(ids.value, p.1)) else None
  }

  /** The loop over the key pairs, leaving at the first malformed one. */
  method TakePairsLoop(ids: GraphicsIds, pairs: seq<Bytes>) returns (r: Option<GraphicsIds>)
    ensures r == TakePairs(ids, pairs)
  {
    var now := ids;
    for i := 0 to |pairs|
      invariant TakePairs(ids, pairs) == TakePairs(now, pairs[i..])
    {
      assert pairs[i..][1..] == pairs[i + 1..];
      var taken := TakePair(now, pairs[i]);
      if taken.None? {
        return None;
      }
      now := taken.value;
    }
    return Some(now);
  }
}
