/** The capability probe: its bundle of expectations, and what its replies record (`src/caps.rs`). */
module Probe {
  import opened Bytes
  import opened Events
  import opened Reports
  import opened Correlate
  import opened CorrelatorTable
  import opened Answers
  import opened EventFates

  // ----- The bundle -----

  datatype Field = SynchronizedOutput | GraphemeClustering | InBandResize | BracketedPaste

  datatype ProbeMode = ProbeMode(mode: U16, field: Field)

  const PROBE_MODES: seq<ProbeMode> := [
    ProbeMode(2026, SynchronizedOutput),
    ProbeMode(2027, GraphemeClustering),
    ProbeMode(2048, InBandResize),
    ProbeMode(2004, BracketedPaste)]

  const GRAPHICS_PROBE_IMAGE_ID: U32 := 4294967295

  datatype Bundle = Bundle(
    fence: nat, xtversion: nat, kitty: nat, graphics: nat, textAreaPixels: nat, cellSize: nat,
    foreground: nat, background: nat, modes: seq<(nat, Field)>)
  {
    function Ids(): seq<nat> {
      [fence, xtversion, kitty, graphics, textAreaPixels, cellSize, foreground, background] + ModeIds(modes)
    }
  }

  function ModeIds(modes: seq<(nat, Field)>): (ids: seq<nat>)
    ensures |ids| == |modes| && forall i :: 0 <= i < |modes| ==> ids[i] == modes[i].0
  {
    seq(|modes|, i requires 0 <= i < |modes| => modes[i].0)
  }

  function RegisterModes(t: Table, probes: seq<ProbeMode>): (Table, seq<(nat, Field)>)
    decreases |probes|
  {
    if probes == [] then (t, [])
    else
      var (first, id) := Register(t, ExpectDecPrivateMode(probes[0].mode));
      var (last, rest) := RegisterModes(first, probes[1..]);
      (last, [(id, probes[0].field)] + rest)
  }

  /** Registers every expectation of the bundle, primary device attributes last. */
  function RegisterBundle(t0: Table): (Table, Bundle) {
    var (t1, xtversion) := Register(t0, ExpectXtVersion);
    var (t2, kitty) := Register(t1, ExpectKittyKeyboardFlags);
    var (t3, graphics) := Register(t2, ExpectKittyGraphics(GRAPHICS_PROBE_IMAGE_ID));
    var (t4, textAreaPixels) := Register(t3, ExpectTextAreaPixels);
    var (t5, cellSize) := Register(t4, ExpectCellSize);
    var (t6, foreground) := Register(t5, ExpectOscColor(Foreground));
    var (t7, background) := Register(t6, ExpectOscColor(Background));
    var (t8, modes) := RegisterModes(t7, PROBE_MODES);
    var (t9, fence) := Register(t8, ExpectPrimaryDeviceAttributes);
    (t9, Bundle(fence, xtversion, kitty, graphics, textAreaPixels, cellSize, foreground, background, modes))
  }

  method RegisterModesOn(correlator: Correlator, probes: seq<ProbeMode>) returns (modes: seq<(nat, Field)>)
    modifies correlator
    ensures (correlator.View(), modes) == RegisterModes(old(correlator.View()), probes)
  {
    hide Register;
    modes := [];
    ghost var whole := RegisterModes(correlator.View(), probes);
    assert probes[0..] == probes;
    for i := 0 to |probes|
      invariant var rest := RegisterModes(correlator.View(), probes[i..]);
        whole.0 == rest.0 && whole.1 == modes + rest.1
    {
      assert probes[i..][1..] == probes[i + 1..];
      var registered := correlator.RegisterExpectation(ExpectDecPrivateMode(probes[i].mode));
      modes := modes + [(registered.id, probes[i].field)];
    }
    assert modes + [] == modes;
  }

  method RegisterOn(correlator: Correlator) returns (b: Bundle)
    modifies correlator
    ensures (correlator.View(), b) == RegisterBundle(old(correlator.View()))
  {
    hide Register;
    var xtversion := correlator.RegisterExpectation(ExpectXtVersion);
    var kitty := correlator.RegisterExpectation(ExpectKittyKeyboardFlags);
    var graphics := correlator.RegisterExpectation(ExpectKittyGraphics(GRAPHICS_PROBE_IMAGE_ID));
    var textAreaPixels := correlator.RegisterExpectation(ExpectTextAreaPixels);
    var cellSize := correlator.RegisterExpectation(ExpectCellSize);
    var foreground := correlator.RegisterExpectation(ExpectOscColor(Foreground));
    var background := correlator.RegisterExpectation(ExpectOscColor(Background));
    var modes := RegisterModesOn(correlator, PROBE_MODES);
    var fence := correlator.RegisterExpectation(ExpectPrimaryDeviceAttributes);
    b := Bundle(fence.id, xtversion.id, kitty.id, graphics.id, textAreaPixels.id, cellSize.id, foreground.id,
                background.id, modes);
  }

  /** Gives up every id. */
  method ResolveAll(correlator: Correlator, ids: seq<nat>, resolution: Resolution)
    modifies correlator
    ensures correlator.View() == ResolveEach(old(correlator.View()), ids)
  {
    hide Resolve;
    assert ids[0..] == ids;
    for i := 0 to |ids|
      invariant ResolveEach(old(correlator.View()), ids) == ResolveEach(correlator.View(), ids[i..])
    {
      assert ids[i..][1..] == ids[i + 1..];
      var _ := correlator.ResolveWaiter(ids[i], resolution);
    }
  }

  // ----- What replies record -----

  datatype Evidence = Unknown | Inferred(via: string) | Probed(via: string)

  datatype Finding<T> = Finding(value: Option<T>, evidence: Evidence)

  // The wire-backed fields. `version` is what identity and the findings derived from it start from.
  datatype Capabilities = Capabilities(
    synchronizedOutput: Finding<bool>,
    graphemeClustering: Finding<bool>,
    inBandResize: Finding<bool>,
    bracketedPaste: Finding<bool>,
    kittyKeyboard: Finding<nat>,
    primaryDeviceAttributes: Option<Bytes>,
    foregroundColor: Finding<Rgb>,
    backgroundColor: Finding<Rgb>,
    kittyGraphics: Finding<bool>,
    textAreaPixels: Finding<(nat, nat)>,
    cellSize: Finding<(nat, nat)>,
    version: Option<Bytes>)

  function DecrqmEvidence(mode: nat): string {
    if mode == 2026 then "DECRQM 2026"
    else if mode == 2027 then "DECRQM 2027"
    else if mode == 2048 then "DECRQM 2048"
    else if mode == 2004 then "DECRQM 2004"
    else "DECRQM"
  }

  function FieldOf(modes: seq<(nat, Field)>, id: nat): Option<Field> {
    if modes == [] then None
    else if modes[0].0 == id then Some(modes[0].1)
    else FieldOf(modes[1..], id)
  }

  function StoreModeReply(b: Bundle, id: nat, report: ModeReport, caps: Capabilities): Capabilities {
    var finding := Finding(report.state.Enabled(), Probed(DecrqmEvidence(report.mode)));
    match FieldOf(b.modes, id)
    case None => caps
    case Some(SynchronizedOutput) => caps.(synchronizedOutput := finding)
    case Some(GraphemeClustering) => caps.(graphemeClustering := finding)
    case Some(InBandResize) => caps.(inBandResize := finding)
    case Some(BracketedPaste) => caps.(bracketedPaste := finding)
  }

  function StoreBundleReply(b: Bundle, id: nat, reply: Reply, caps: Capabilities): Capabilities {
    match reply
    case VersionReply(version) => caps.(version := Some(version))
    case FlagsReply(bits) => caps.(kittyKeyboard := Finding(Some(bits), Probed("CSI ?u")))
    case ColorReply(c) =>
      if c.kind == Foreground then caps.(foregroundColor := Finding(Some(c.rgb), Probed("OSC 10")))
      else caps.(backgroundColor := Finding(Some(c.rgb), Probed("OSC 11")))
    case ModeReply(report) => StoreModeReply(b, id, report, caps)
    case AttributesReply(params) => caps.(primaryDeviceAttributes := Some(params))
    case GraphicsReply(g) => caps.(kittyGraphics := Finding(Some(g.IsOk()), Probed("kitty graphics a=q")))
    case TextAreaReply(p) => caps.(textAreaPixels := Finding(p.Size(), Probed("CSI 14 t")))
    case CellSizeReply(p) => caps.(cellSize := Finding(p.Size(), Probed("CSI 16 t")))
    case CursorReply(_) => caps
    case StatusReply(_) => caps
  }

  // ----- Registering on an empty table -----

  /** The bundle's expectations in the order they are registered. */
  const ASKED: seq<Expectation> := [
    ExpectXtVersion, ExpectKittyKeyboardFlags, ExpectKittyGraphics(GRAPHICS_PROBE_IMAGE_ID),
    ExpectTextAreaPixels, ExpectCellSize, ExpectOscColor(Foreground), ExpectOscColor(Background),
    ExpectDecPrivateMode(2026), ExpectDecPrivateMode(2027), ExpectDecPrivateMode(2048),
    ExpectDecPrivateMode(2004), ExpectPrimaryDeviceAttributes]

  const FENCE := 11

  lemma AskedAreDistinct(i: nat, j: nat)
    requires i < j < |ASKED|
    ensures ASKED[i] != ASKED[j]
  {
  }

  /** The table after the first `k` of the bundle have been registered with ids from `n`. */
  function AskedTable(n: nat, k: nat): (t: Table)
    requires k <= |ASKED|
    ensures |t.slots| == k && forall i :: 0 <= i < k ==> t.slots[i] == Slot(n + i, ASKED[i], 1, None)
  {
    Table(seq(k, i requires 0 <= i < |ASKED| => Slot(n + i, ASKED[i], 1, None)), n + k)
  }

  lemma RegisterNext(n: nat, k: nat)
    requires k < |ASKED|
    ensures Register(AskedTable(n, k), ASKED[k]) == (AskedTable(n, k + 1), n + k)
  {
    hide ASKED;
    var t := AskedTable(n, k);
    forall i | 0 <= i < k ensures t.slots[i].expectation != ASKED[k] { AskedAreDistinct(i, k); }
    assert t.slots + [Slot(n + k, ASKED[k], 1, None)] == AskedTable(n, k + 1).slots;
  }

  /** The bundle whose ids start at `n`. */
  function BundleAt(n: nat): Bundle {
    Bundle(n + 11, n, n + 1, n + 2, n + 3, n + 4, n + 5, n + 6,
           [(n + 7, SynchronizedOutput), (n + 8, GraphemeClustering), (n + 9, InBandResize), (n + 10, BracketedPaste)])
  }

  lemma {:induction false} RegisterModesOnAsked(n: nat, k: nat)
    requires k <= 4
    ensures RegisterModes(AskedTable(n, 7 + k), PROBE_MODES[k..]) == (AskedTable(n, 11), BundleAt(n).modes[k..])
    decreases 4 - k
  {
    hide Register, AskedTable;
    var m := PROBE_MODES;
    if k == 4 {
      assert m[k..] == [] && BundleAt(n).modes[k..] == [];
    } else {
      RegisterNext(n, 7 + k);
      assert m[k..][0] == m[k] && m[k..][1..] == m[k + 1..];
      assert ASKED[7 + k] == ExpectDecPrivateMode(m[k].mode);
      RegisterModesOnAsked(n, k + 1);
      assert BundleAt(n).modes[k..] == [(n + 7 + k, m[k].field)] + BundleAt(n).modes[k + 1..];
    }
  }

  /** On an empty table the bundle mints twelve consecutive ids, one for each expectation. */
  lemma RegisterBundleOnEmpty(t: Table)
    requires t.slots == []
    ensures RegisterBundle(t) == (AskedTable(t.nextId, 12), BundleAt(t.nextId))
  {
    hide Register, AskedTable, RegisterModes;
    var n := t.nextId;
    EmptyIsAsked(t);
    RegisterNext(n, 0);
    RegisterNext(n, 1);
    RegisterNext(n, 2);
    RegisterNext(n, 3);
    RegisterNext(n, 4);
    RegisterNext(n, 5);
    RegisterNext(n, 6);
    RegisterModesOnAsked(n, 0);
    assert PROBE_MODES[0..] == PROBE_MODES && BundleAt(n).modes[0..] == BundleAt(n).modes;
    RegisterNext(n, 11);
  }

  lemma EmptyIsAsked(t: Table)
    requires t.slots == []
    ensures t == AskedTable(t.nextId, 0)
  {
  }

  // ----- The first-match reference -----

  /** What each expectation of the bundle is answered by, over events in the order they were fed. */
  function FirstAnswers(events: seq<Event>): (a: seq<Option<Reply>>)
    ensures |a| == |ASKED| && forall i :: 0 <= i < |ASKED| ==> a[i] == FirstMatch(ASKED[i], events)
  {
    seq(|ASKED|, i requires 0 <= i < |ASKED| => FirstMatch(ASKED[i], events))
  }

  function ModeFinding(mode: nat, answer: Option<Reply>, otherwise: Finding<bool>): Finding<bool> {
    if answer.Some? && answer.value.ModeReply? then
      Finding(answer.value.report.state.Enabled(), Probed(DecrqmEvidence(mode)))
    else otherwise
  }

  function ColorFinding(via: string, answer: Option<Reply>, otherwise: Finding<Rgb>): Finding<Rgb> {
    if answer.Some? && answer.value.ColorReply? then Finding(Some(answer.value.color.rgb), Probed(via)) else otherwise
  }

  function TextAreaFinding(answer: Option<Reply>, otherwise: Finding<(nat, nat)>): Finding<(nat, nat)> {
    if answer.Some? && answer.value.TextAreaReply? then Finding(answer.value.area.Size(), Probed("CSI 14 t"))
    else otherwise
  }

  function CellFinding(answer: Option<Reply>, otherwise: Finding<(nat, nat)>): Finding<(nat, nat)> {
    if answer.Some? && answer.value.CellSizeReply? then Finding(answer.value.cell.Size(), Probed("CSI 16 t"))
    else otherwise
  }

  /** The capabilities whose every wire-backed field is its own query's answer, or the seed's. */
  function Recorded(seed: Capabilities, a: seq<Option<Reply>>): Capabilities
    requires |a| == |ASKED|
  {
    Capabilities(
      ModeFinding(2026, a[7], seed.synchronizedOutput),
      ModeFinding(2027, a[8], seed.graphemeClustering),
      ModeFinding(2048, a[9], seed.inBandResize),
      ModeFinding(2004, a[10], seed.bracketedPaste),
      if a[1].Some? && a[1].value.FlagsReply? then Finding(Some(a[1].value.bits), Probed("CSI ?u"))
      else seed.kittyKeyboard,
      if a[11].Some? && a[11].value.AttributesReply? then Some(a[11].value.params)
      else seed.primaryDeviceAttributes,
      ColorFinding("OSC 10", a[5], seed.foregroundColor),
      ColorFinding("OSC 11", a[6], seed.backgroundColor),
      if a[2].Some? && a[2].value.GraphicsReply? then
        Finding(Some(a[2].value.graphics.IsOk()), Probed("kitty graphics a=q"))
      else seed.kittyGraphics,
      TextAreaFinding(a[3], seed.textAreaPixels),
      CellFinding(a[4], seed.cellSize),
      if a[0].Some? && a[0].value.VersionReply? then Some(a[0].value.version) else seed.version)
  }

  // ----- Feeding a whole batch -----

  // `flags` are the fates the feed gives the events of the batch.
  datatype Batched = Batched(table: Table, caps: Capabilities, flags: seq<Fate>, fenced: bool)

  /** Feeds every event before acting on the fence. */
  function FeedBatch(t: Table, b: Bundle, events: seq<Event>, caps: Capabilities): (r: Batched)
    requires Valid(t)
    ensures Valid(r.table) && |r.flags| == |events|
    decreases |events|
  {
    if events == [] then Batched(t, caps, [], false)
    else
      var (fed, r) := FeedEvent(t, events[0]);
      FeedKeepsValid(t, events[0]);
      if r.Passthrough? then
        var rest := FeedBatch(fed, b, events[1..], caps);
        rest.(flags := [Kept] + rest.flags)
      else
        CompletionHasReply(t, events[0]);
        var (taken, reply) := TakeReply(fed, r.id);
        var rest := FeedBatch(taken, b, events[1..], StoreBundleReply(b, r.id, reply.value, caps));
        Batched(rest.table, rest.caps, [Answered(r.id, r.reply)] + rest.flags, rest.fenced || r.id == b.fence)
  }
}
