/** Keys reported in win32 input mode read back: field by field, and as the text they type in UTF-16. */
module Win32RoundTrip {
  import opened Bytes
  import opened Tokens
  import opened Grammar
  import opened SplitEquivalence
  import opened PayloadScan
  import opened Reconstruction
  import opened Reports
  import opened Events
  import opened Decoder
  import opened TextRoundTrips
  import opened SequenceRoundTrips
  import opened WireRuns

  // ----- Numeric parameters -----

  function Saturated(n: nat): nat { if n > 4294967295 then 4294967295 else n }

  /** A printed number is its value, at most what 32 bits hold. */
  lemma {:induction false} ParamReadsBack(n: nat, rest: Bytes, colon: bool)
    ensures ParamsFrom(Digits(n) + rest, colon, None) == ParamsFrom(rest, colon, Some(Saturated(n)))
    decreases n
  {
    var last := [0x30 + n % 10];
    assert (last + rest)[1..] == rest;
    if n >= 10 {
      assert Digits(n) + rest == Digits(n / 10) + (last + rest);
      ParamReadsBack(n / 10, last + rest, colon);
    }
  }

  /** Fields separated by `;`, the ones without a value empty. */
  function Fields(vs: seq<Option<nat>>): Bytes {
    if vs == [] then []
    else Field(vs[0]) + if |vs| == 1 then [] else [SEMICOLON] + Fields(vs[1..])
  }

  function Field(v: Option<nat>): Bytes { if v.Some? then Digits(v.value) else [] }

  lemma FieldReadsBack(v: Option<nat>, rest: Bytes)
    requires rest == [] || rest[0] == SEMICOLON
    ensures var value := if v.Some? then Some(Saturated(v.value)) else None;
      ParamsFrom(Field(v) + rest, false, None)
        == [Param(false, value)] + if rest == [] then [] else ParamsFrom(rest[1..], false, None)
  {
    hide Digits;
    if v.Some? { ParamReadsBack(v.value, rest, false); } else { assert [] + rest == rest; }
  }

  lemma {:induction false} FieldsReadBack(vs: seq<Option<nat>>)
    requires vs != []
    ensures var ps := ParamsFrom(Fields(vs), false, None);
      |ps| == |vs| && forall i :: 0 <= i < |vs| ==>
        ps[i] == Param(false, if vs[i].Some? then Some(Saturated(vs[i].value)) else None)
    decreases |vs|
  {
    hide Digits, Field, ParamsFrom;
    if |vs| == 1 {
      FieldReadsBack(vs[0], []);
    } else {
      var more := [SEMICOLON] + Fields(vs[1..]);
      FieldReadsBack(vs[0], more);
      assert more[1..] == Fields(vs[1..]);
      FieldsReadBack(vs[1..]);
    }
  }

  lemma {:induction false} FieldsAreParams(vs: seq<Option<nat>>)
    ensures AllIn(ParamByte, Fields(vs))
    decreases |vs|
  {
    hide Digits;
    if vs != [] { FieldsAreParams(vs[1..]); }
  }

  // ----- One report -----

  /** `CSI fields _`. */
  function KeyForm(vs: seq<Option<nat>>): ControlParams { ControlParams([], Fields(vs), [], 0x5f) }

  /** The value printed in a place, and `default` where none is. */
  function At(vs: seq<Option<nat>>, i: nat, default: nat): nat {
    if i < |vs| && vs[i].Some? then Saturated(vs[i].value) else default
  }

  /** However many fields are printed, and whichever are left empty: virtual key, UTF-16 unit, key-down flag, modifier
      state and repeat count are those in the first, third, fourth, fifth and sixth place; a missing count is 1, and
      anything else missing 0. */
  lemma PlacesReadBack(csi: ControlSequence, vs: seq<Option<nat>>)
    requires csi.params == KeyForm(vs) && |vs| <= 32
    ensures Win32FieldsOf(csi)
         == Some(Win32Fields(At(vs, 0, 0), At(vs, 2, 0), At(vs, 3, 0), At(vs, 4, 0), At(vs, 5, 1)))
  {
    hide Fields, ParamsFrom;
    if Fields(vs) == [] { EmptyFields(vs); } else { NotEmpty(vs); FieldsReadBack(vs); }
  }

  lemma NotEmpty(vs: seq<Option<nat>>)
    requires Fields(vs) != []
    ensures vs != []
  {
  }

  lemma EmptyFields(vs: seq<Option<nat>>)
    requires Fields(vs) == []
    ensures vs == [] || vs == [None]
  {
    hide Digits;
  }

  // A key event: virtual key, scan code, UTF-16 unit, key-down flag, modifier state and repeat count.
  datatype Report = Report(vk: U32, sc: U32, unit: U32, down: U32, state: U32, count: U32) {
    function Printed(): seq<Option<nat>> { [Some(vk), Some(sc), Some(unit), Some(down), Some(state), Some(count)] }

    function Form(): ControlParams { KeyForm(Printed()) }
  }

  /** Each field is the one printed in its place; the scan code alone is not kept. */
  lemma ReportPlaces(r: Report, csi: ControlSequence)
    requires csi.params == r.Form()
    ensures Win32FieldsOf(csi) == Some(Win32Fields(r.vk, r.unit, r.down, r.state, r.count))
  {
    hide Fields, Win32FieldsOf;
    PlacesReadBack(csi, r.Printed());
  }

  /** How often a report repeats its key: as it says, but once at least and 32 times at most. */
  function Copies(count: nat): nat { if count == 0 then 1 else if count > 32 then 32 else count }

  /** `events` are `n` times this one. */
  predicate AreCopies(events: seq<Event>, n: nat, e: Event) {
    |events| == n && forall i :: 0 <= i < n ==> events[i] == e
  }

  /** What a report alone comes to: a printable unit is its character, a high surrogate is held without an event, a low
      one with nothing held is the replacement character, and any other unit is the named key, if there is one. */
  lemma ReportReadsBack(r: Report, csi: ControlSequence, m: MapState, tables: Tables)
    requires csi.params == r.Form() && m.half == None
    ensures var o := MapToken(m, Csi(csi), tables);
      if 0xd800 <= r.unit <= 0xdbff then o == Mapped(m.(half := Some(r.unit)), [])
      else
        && o.mapping == m
        && if 0xdc00 <= r.unit <= 0xdfff then
             AreCopies(o.events, Copies(r.count), Key(Win32Char(0xfffd, r.state, r.down != 0)))
           else if 0x20 <= r.unit <= 0x7e || 0xa0 <= r.unit <= 0x10ffff then
             AreCopies(o.events, Copies(r.count), Key(Win32Char(r.unit, r.state, r.down != 0)))
           else if tables.named(r.vk) then
             AreCopies(o.events, Copies(r.count), Key(Win32Named(r.vk, r.state, r.down != 0)))
           else o.events == []
  {
    hide Fields;
    ReportPlaces(r, csi);
  }

  /** Anything but its low half makes a held surrogate the replacement character, before its own events. */
  lemma OrphanIsReplaced(r: Report, csi: ControlSequence, m: MapState, tables: Tables)
    requires csi.params == r.Form() && m.half.Some? && !(0xdc00 <= r.unit <= 0xdfff)
    ensures var alone := MapToken(m.(half := None), Csi(csi), tables);
      MapToken(m, Csi(csi), tables) == Mapped(alone.mapping, [Key(Char(0xfffd))] + alone.events)
  {
    hide Fields;
    ReportPlaces(r, csi);
    var none: seq<Event> := [];
    assert forall es: seq<Event> :: none + es == es;
  }

  // ----- Typed text -----

  // A character typed: its scalar value and the rest of its reports.
  datatype Stroke = Stroke(scalar: nat, vk: U32, sc: U32, down: U32, state: U32, count: U32) {
    predicate IsText() { 0x20 <= scalar <= 0x7e || (IsScalar(scalar) && scalar >= 0xa0) }

    function ReportOf(unit: U32): Report { Report(vk, sc, unit, down, state, count) }

    /** One report for each UTF-16 unit (section 3 of RFC 2781). */
    function Reports(): seq<Report>
      requires IsText()
    {
      if scalar < 0x10000 then [ReportOf(scalar)]
      else [ReportOf(0xd800 + (scalar - 0x10000) / 1024), ReportOf(0xdc00 + (scalar - 0x10000) % 1024)]
    }

    function Typed(): Event { Key(Win32Char(scalar, state, down != 0)) }
  }

  function TokensOf(rs: seq<Report>): (ts: seq<Token>)
    ensures |ts| == |rs| && forall i :: 0 <= i < |rs| ==> ts[i] == CsiOf(false, rs[i].Form())
  {
    seq(|rs|, i requires 0 <= i < |rs| => CsiOf(false, rs[i].Form()))
  }

  /** All reports of the strokes, in order. */
  function AllReports(ks: seq<Stroke>): seq<Report>
    requires forall i :: 0 <= i < |ks| ==> ks[i].IsText()
  {
    if ks == [] then [] else ks[0].Reports() + AllReports(ks[1..])
  }

  /** Each stroke's key, as often as it says. */
  function KeysOf(ks: seq<Stroke>): seq<Event> {
    if ks == [] then [] else seq(Copies(ks[0].count), _ => ks[0].Typed()) + KeysOf(ks[1..])
  }

  lemma StrokeReadsBack(m: MapState, k: Stroke, tables: Tables)
    requires k.IsText() && m.half == None
    ensures MapTokens(m, TokensOf(k.Reports()), tables) == Mapped(m, seq(Copies(k.count), _ => k.Typed()))
  {
    hide Fields;
    var rs, ts := k.Reports(), TokensOf(k.Reports());
    var keys := seq(Copies(k.count), _ => k.Typed());
    if k.scalar < 0x10000 {
      ReportReadsBack(rs[0], ts[0].csi, m, tables);
      MapOneToken(m, ts[0], tables);
      assert ts == [ts[0]] && MapToken(m, ts[0], tables).events == keys;
    } else {
      PairReadsBack(m, k, tables);
    }
  }

  lemma PairReadsBack(m: MapState, k: Stroke, tables: Tables)
    requires k.IsText() && k.scalar >= 0x10000 && m.half == None
    ensures MapTokens(m, TokensOf(k.Reports()), tables) == Mapped(m, seq(Copies(k.count), _ => k.Typed()))
  {
    hide Fields;
    var rs, ts := k.Reports(), TokensOf(k.Reports());
    var keys := seq(Copies(k.count), _ => k.Typed());
    ReportPlaces(rs[0], ts[0].csi);
    ReportPlaces(rs[1], ts[1].csi);
    var first := Win32FieldsOf(ts[0].csi).value;
    SurrogatesRecombine(k.scalar, first, Win32FieldsOf(ts[1].csi).value, tables);
    var held := MapToken(m, ts[0], tables).mapping;
    assert ts == [ts[0], ts[1]] && ts[1..] == [ts[1]];
    MapOneToken(held, ts[1], tables);
    assert MapToken(held, ts[1], tables).events == keys && [] + keys == keys;
  }

  lemma {:induction false} StrokesReadBack(m: MapState, ks: seq<Stroke>, tables: Tables)
    requires m.half == None && forall i :: 0 <= i < |ks| ==> ks[i].IsText()
    ensures MapTokens(m, TokensOf(AllReports(ks)), tables) == Mapped(m, KeysOf(ks))
    decreases |ks|
  {
    hide Fields, MapTokens;
    if ks == [] {
      NoTokensNoEvents(m, tables);
      assert TokensOf([]) == [];
    } else {
      assert TokensOf(AllReports(ks)) == TokensOf(ks[0].Reports()) + TokensOf(AllReports(ks[1..]));
      MapTokensAppend(m, TokensOf(ks[0].Reports()), TokensOf(AllReports(ks[1..])), tables);
      StrokeReadsBack(m, ks[0], tables);
      StrokesReadBack(m, ks[1..], tables);
    }
  }

  lemma ReportIsUnit(r: Report, limit: nat)
    requires PrefixSize(r.Form()) <= limit
    ensures IsUnit(CsiOf(false, r.Form()), limit)
  {
    hide Fields, RunWith, PrefixBytes;
    FieldsAreParams(r.Printed());
    var raw := CsiForm(false, r.Form());
    assert Concat([raw]) == raw + [] == raw;
    AnyChunking([raw], limit);
    CsiFormReadsBack(false, r.Form(), [raw], limit);
  }

  /** Any text typed in win32 input mode, cut in any chunks, comes out as one key a character, repeated as reported,
      whatever its characters' planes; nothing is left behind. */
  lemma TypingReadsBack(ks: seq<Stroke>, chunks: seq<Bytes>, limit: nat, m: MapState, tables: Tables)
    requires m.half == None && forall i :: 0 <= i < |ks| ==> ks[i].IsText()
    requires forall i :: 0 <= i < |AllReports(ks)| ==> PrefixSize(AllReports(ks)[i].Form()) <= limit
    requires Concat(chunks) == RawBytes(TokensOf(AllReports(ks)))
    ensures var o := FeedAll(Ground, chunks, limit);
      o.state == Ground && MapTokens(m, o.tokens, tables) == Mapped(m, KeysOf(ks))
  {
    hide RunWith, FeedAll, MapTokens, RawBytes, IsUnit, PrefixSize, AllReports;
    AnyChunking(chunks, limit);
    var ts := TokensOf(AllReports(ks));
    forall i | 0 <= i < |ts| ensures IsUnit(ts[i], limit) { ReportIsUnit(AllReports(ks)[i], limit); }
    UnitsRead(ts, [], limit);
    RunNothing(limit);
    assert RawBytes(ts) + [] == RawBytes(ts) && ts + [] == ts;
    StrokesReadBack(m, ks, tables);
  }
}
