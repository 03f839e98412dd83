/** A printed cursor position report, tokenized in any chunking, parses back to itself. */
module CursorRoundTrip {
  import opened Bytes
  import opened Tokens
  import opened Grammar
  import opened SplitEquivalence
  import opened SequenceRoundTrips
  import opened Reports
  import opened Events
  import opened Correlate

  /** The `csi` byte builder: `ESC [`, the parameters and one ASCII final byte. */
  method CsiCommand(parameters: Bytes, final: Byte) returns (bytes: Bytes)
    ensures bytes == CsiBytes(parameters, final)
  {
    bytes := [];
    bytes := bytes + [ESC];
    bytes := bytes + [0x5b];
    bytes := bytes + parameters;
    bytes := bytes + [final];
  }

  function CsiBytes(parameters: Bytes, final: Byte): Bytes { [ESC, 0x5b] + parameters + [final] }

  function CsiToken(parameters: Bytes, final: Byte): Token {
    Csi(ControlSequence(CsiBytes(parameters, final), ControlParams([], parameters, [], final)))
  }

  /** A control sequence with plain parameters reads back as itself exactly when the limit admits
      them. */
  lemma CsiReadsBack(parameters: Bytes, final: Byte, limit: nat)
    requires AllIn(ParamByte, parameters) && IsFinalByte(final)
    requires !IsPasteStart(ControlParams([], parameters, [], final))
    ensures Run(CsiBytes(parameters, final), limit) == Outcome(Ground, [CsiToken(parameters, final)])
       <==> |parameters| <= limit
  {
    hide RunWith, FeedAll;
    var p := ControlParams([], parameters, [], final);
    var form := CsiBytes(parameters, final);
    assert form == CsiForm(false, p);
    assert [form[0]] + form[1..] == form;
    assert Concat([form]) == form + [];
    AnyChunking([form], limit);
    CsiFormReadsBack(false, p, [form], limit);
  }

  function CursorParams(row: nat, column: nat): Bytes { Digits(row) + [SEMICOLON] + Digits(column) }

  /** The report `CSI row ; column R`. */
  function CursorBytes(row: nat, column: nat): Bytes { CsiBytes(CursorParams(row, column), 0x52) }

  lemma CursorParamsParse(row: nat, column: nat, raw: Bytes)
    ensures CursorPositionReport(
              ControlSequence(raw, ControlParams([], CursorParams(row, column), [], 0x52)))
         == if 1 <= row <= U16_MAX && 1 <= column <= U16_MAX then Some(CursorPosition(row, column))
            else None
  {
    DigitsSpell(row);
    DigitsSpell(column);
    SplitAtFirst(Digits(row), SEMICOLON, Digits(column));
    SplitWithout(Digits(column), SEMICOLON);
  }

  /** Any chunking of a printed report, under any limit of at least eleven, is one token; it parses
      back to its row and column, and it answers a cursor query exactly when the row is not 1. */
  lemma CursorReportRoundTrip(row: nat, column: nat, chunks: seq<Bytes>, limit: nat)
    requires 1 <= row <= U16_MAX && 1 <= column <= U16_MAX && limit >= 11
    requires Concat(chunks) == CursorBytes(row, column)
    ensures var token := CsiToken(CursorParams(row, column), 0x52);
      && FeedAll(Ground, chunks, limit) == Outcome(Ground, [token])
      && CursorPositionReport(token.csi) == Some(CursorPosition(row, column))
      && Match(ExpectCursorPosition, Syntax(token))
           == if row == 1 then None else Some(CursorReply(CursorPosition(row, column)))
  {
    hide RunWith, Digits;
    AnyChunking(chunks, limit);
    var params := CursorParams(row, column);
    DigitsOfU16(row);
    DigitsOfU16(column);
    CsiReadsBack(params, 0x52, limit);
    CursorParamsParse(row, column, CursorBytes(row, column));
    assert params[|Digits(row)|] == SEMICOLON;
  }

  /** No report of row 1 answers a cursor query, however it is spelled. */
  lemma RowOneNeverMatches(csi: ControlSequence)
    requires CursorPositionReport(csi).Some? && CursorPositionReport(csi).value.row == 1
    ensures Match(ExpectCursorPosition, Syntax(Csi(csi))) == None
  {
    var s := csi.params.paramBytes;
    if SEMICOLON !in s { SplitWithout(s, SEMICOLON); }
  }
}
