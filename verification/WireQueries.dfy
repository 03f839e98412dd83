/** What a terminal prints is what a query returns, in both sessions. */
module WireQueries {
  import opened Bytes
  import opened Tokens
  import opened Bounds
  import opened Reconstruction
  import opened Reports
  import opened Events
  import opened Correlate
  import opened Answers
  import opened DrainBoundary
  import opened WireReports
  import opened WireRuns
  import SyncSession
  import TokioSession
  import TokioRuns

  /** The blocking session, in every state a run can reach in which it holds no partial input: among replies that come
      first, however its reads cut them, a query returns its own. */
  lemma SyncQueryHears(
      s: SyncSession.Session, ps: seq<Printed>, i: nat, polls: seq<SyncSession.Poll>, limit: nat, tables: Tables)
    requires s.decoder.parser == Ground && SyncSession.Orderly(s)
    requires AllReadable(ps, limit, tables) && AskDifferently(ps, limit, tables) && i < |ps|
    requires SyncSession.IsQueried(Question(ps[i].reply))
    requires WireOf(ps, limit, tables) <= BytesOf(SyncSession.LeadingReads(polls))
    ensures SyncSession.Query(s, Question(ps[i].reply), true, polls, limit, tables).1
         == SyncSession.Answered(ps[i].reply)
  {
    hide FirstMatch, WireOf, ReadAll, SyncSession.Query, SyncSession.Orderly, Reachable, AskDifferently, FormOf,
      Sayable, Admits, TokenOf;
    GroundIsReachable(limit);
    var tail := ReadsBeginWithReplies(s.decoder, ps, SyncSession.LeadingReads(polls), limit, tables);
    EachIsFirst(ps, tail, i, limit, tables);
    SyncSession.QueryTakesFirstRead(s, Question(ps[i].reply), polls, limit, tables);
  }

  /** The asynchronous session, likewise, when nothing queued answers already; and whatever the question. */
  lemma TokioQueryHears(
      s: TokioSession.Session, ps: seq<Printed>, i: nat, script: seq<TokioSession.Awaited>, limit: nat, tables: Tables)
    requires s.decoder.parser == Ground && TokioRuns.Owned(s)
    requires AllReadable(ps, limit, tables) && AskDifferently(ps, limit, tables) && i < |ps|
    requires FirstMatch(Question(ps[i].reply), s.pending) == None
    requires WireOf(ps, limit, tables) <= BytesOf(TokioRuns.LeadingReads(script))
    ensures TokioSession.Query(s, Question(ps[i].reply), TokioSession.Written, script, limit, tables).1
         == TokioSession.Finished(ps[i].reply)
  {
    hide FirstMatch, WireOf, ReadAll, TokioSession.Query, TokioRuns.Owned, AskDifferently, FormOf, Sayable,
      Admits, TokenOf;
    var x := Question(ps[i].reply);
    var tail := ReadsBeginWithReplies(s.decoder, ps, TokioRuns.LeadingReads(script), limit, tables);
    EachIsFirst(ps, tail, i, limit, tables);
    FirstMatchAppend(x, s.pending, EventsOf(ps, limit, tables) + tail);
    TokioRuns.QueryTakesFirstRead(s, x, script, limit, tables);
  }

  // ----- The status query -----

  /** `CSI 0 n` or `CSI 3 n`. */
  function StatusBytes(status: Status, eightBit: bool): Bytes {
    (if eightBit then [0x9b] else [ESC, 0x5b]) + [if status == Ready then 0x30 else 0x33, 0x6e]
  }

  function PrintedStatus(status: Status, eightBit: bool): Printed {
    Printed(StatusReply(status), Spelling(eightBit, C1))
  }

  lemma StatusIsPrinted(status: Status, eightBit: bool, limit: nat, tables: Tables)
    requires limit >= 1
    requires forall csi: ControlSequence :: csi.bytes == StatusBytes(status, eightBit) ==> tables.typed(csi).None?
    ensures AllReadable([PrintedStatus(status, eightBit)], limit, tables)
    ensures WireOf([PrintedStatus(status, eightBit)], limit, tables) == StatusBytes(status, eightBit)
  {
    var p := PrintedStatus(status, eightBit);
    var form := StatusBytes(status, eightBit);
    assert FormOf(p.reply) == ControlForm(ControlParams([], [form[|form| - 2]], [], 0x6e));
    assert p.Token().csi.bytes == form;
    var ts := TokensOf([p], limit, tables);
    assert ts == [p.Token()] && ts[1..] == [] && RawBytes(ts[1..]) == [];
    assert RawBytes(ts) == form + [] == form;
  }

  /** A status query whose reads deliver `CSI 0 n` or `CSI 3 n` first returns that status, in both sessions. */
  lemma StatusQueryReturns(
      s: SyncSession.Session, polls: seq<SyncSession.Poll>, t: TokioSession.Session,
      script: seq<TokioSession.Awaited>, status: Status, eightBit: bool, limit: nat, tables: Tables)
    requires limit >= 1
    requires forall csi: ControlSequence :: csi.bytes == StatusBytes(status, eightBit) ==> tables.typed(csi).None?
    ensures
      && s.decoder.parser == Ground && SyncSession.Orderly(s)
      && StatusBytes(status, eightBit) <= BytesOf(SyncSession.LeadingReads(polls))
      ==> SyncSession.Query(s, ExpectTerminalStatus, true, polls, limit, tables).1
            == SyncSession.Answered(StatusReply(status))
    ensures
      && t.decoder.parser == Ground && TokioRuns.Owned(t) && FirstMatch(ExpectTerminalStatus, t.pending) == None
      && StatusBytes(status, eightBit) <= BytesOf(TokioRuns.LeadingReads(script))
      ==> TokioSession.Query(t, ExpectTerminalStatus, TokioSession.Written, script, limit, tables).1
            == TokioSession.Finished(StatusReply(status))
  {
    hide FirstMatch, WireOf, SyncSession.Query, SyncSession.Orderly, TokioSession.Query, TokioRuns.Owned, StatusBytes;
    var ps := [PrintedStatus(status, eightBit)];
    StatusIsPrinted(status, eightBit, limit, tables);
    if s.decoder.parser == Ground && SyncSession.Orderly(s)
      && StatusBytes(status, eightBit) <= BytesOf(SyncSession.LeadingReads(polls))
    {
      SyncQueryHears(s, ps, 0, polls, limit, tables);
    }
    if t.decoder.parser == Ground && TokioRuns.Owned(t) && FirstMatch(ExpectTerminalStatus, t.pending) == None
      && StatusBytes(status, eightBit) <= BytesOf(TokioRuns.LeadingReads(script))
    {
      TokioQueryHears(t, ps, 0, script, limit, tables);
    }
  }
}
