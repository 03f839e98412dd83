/** The syntax-token vocabulary (`src/syntax/token.rs`) and the parser's accumulators as values. */
module Tokens {
  import opened Bytes

  datatype StringKind = KindOsc | KindDcs | KindApc | KindPm | KindSos

  datatype Terminator = Bel | EscBackslash | C1 | Unterminated {
    function Raw(): Bytes {
      match this
      case Bel => [BEL]
      case EscBackslash => [ESC, 0x5c]
      case C1 => [C1_ST]
      case Unterminated => []
    }
  }

  datatype ControlParams = ControlParams(
    privateMarkers: Bytes,
    paramBytes: Bytes,
    intermediates: Bytes,
    finalByte: Byte)

  datatype ControlSequence = ControlSequence(bytes: Bytes, params: ControlParams)

  datatype StringSequence = StringSequence(
    kind: StringKind,
    bytes: Bytes,
    payload: Bytes,
    dropped: nat,
    terminator: Terminator,
    controlParams: Option<ControlParams>)

  datatype PasteSequence = PasteSequence(
    bytes: Bytes,
    payload: Bytes,
    isFirst: bool,
    isFinal: bool,
    terminated: bool)

  // OSC, DCS, APC, PM and SOS tokens are one constructor here, told apart by the sequence's kind.
  datatype Token =
    | Text(text: Bytes)
    | Control(control: Byte)
    | Csi(csi: ControlSequence)
    | Str(body: StringSequence)
    | Paste(paste: PasteSequence)
    | Esc(escape: Bytes, intermediates: Bytes, finalByte: Option<Byte>)
    | Malformed(bad: Bytes)
  {
    /** The raw bytes the token retains. */
    function Raw(): Bytes {
      match this
      case Text(b) => b
      case Control(b) => [b]
      case Csi(c) => c.bytes
      case Str(s) => s.bytes
      case Paste(p) => p.bytes
      case Esc(b, _, _) => b
      case Malformed(b) => b
    }

    function Dropped(): nat { if Str? then body.dropped else 0 }
  }

  /** A control string in progress. `retained` starts with the introducer. */
  datatype StringState = StringState(
    kind: StringKind,
    retained: Bytes,
    introducerLen: nat,
    payloadStart: nat,
    dropped: nat,
    escHeld: bool,
    controlParams: Option<ControlParams>)
  {
    predicate Valid() { introducerLen <= payloadStart <= |retained| }
  }

  /** A bracketed paste in progress. `pendingMatch` is the held end-bracket candidate. */
  datatype PasteState = PasteState(
    retained: Bytes,
    payloadStart: nat,
    isFirst: bool,
    pendingMatch: Bytes)
  {
    predicate Valid() { payloadStart <= |retained| }
  }

  datatype ParserState =
    | Ground
    | Partial(pending: Bytes)
    | InString(str: StringState)
    | InPaste(paste: PasteState)
  {
    predicate Valid() {
      && (Partial? ==> pending != [])
      && (InString? ==> str.Valid())
      && (InPaste? ==> paste.Valid())
    }

    /** The bytes `pending_bytes` reports. */
    function PendingBytes(): Bytes {
      match this
      case Ground => []
      case Partial(p) => p
      case InString(a) => a.retained
      case InPaste(a) => a.retained
    }
  }
}
