/** What the decoder's text and paste payloads mean: characters decode as they encode, and line endings
    are normalized as if a paste had come in one piece. */
module TextRoundTrips {
  import opened Bytes
  import opened Tokens
  import opened Events
  import opened PasteExact

  // ----- Characters -----

  /** The scalar values: what a character can encode. */
  predicate IsScalar(n: nat) { n <= 0x10ffff && !(0xd800 <= n <= 0xdfff) }

  /** The encoding of a scalar value (section 3 of RFC 3629). */
  function Encode(n: nat): Bytes
    requires IsScalar(n)
  {
    if n < 0x80 then [n]
    else if n < 0x800 then [0xc0 + n / 64, 0x80 + n % 64]
    else if n < 0x10000 then [0xe0 + n / 4096, 0x80 + n / 64 % 64, 0x80 + n % 64]
    else [0xf0 + n / 262144, 0x80 + n / 4096 % 64, 0x80 + n / 64 % 64, 0x80 + n % 64]
  }

  /** Every scalar value's encoding is one character, and decodes to it. */
  lemma EncodedDecodes(n: nat)
    requires IsScalar(n)
    ensures IsChar(Encode(n)) && Scalar(Encode(n)) == n
  {
    var c := Encode(n);
    assert Utf8Width(c[0]) == Some(|c|);
    if |c| == 2 {
      assert n == n / 64 * 64 + n % 64;
    } else if |c| == 3 {
      assert n == n / 64 * 64 + n % 64 && n / 64 == n / 4096 * 64 + n / 64 % 64;
    } else if |c| == 4 {
      EncodedFour(n);
    }
  }

  lemma EncodedFour(n: nat)
    requires 0x10000 <= n <= 0x10ffff
    ensures IsChar(Encode(n)) && Scalar(Encode(n)) == n
  {
    var c := Encode(n);
    assert n == n / 64 * 64 + n % 64 && n / 64 == n / 4096 * 64 + n / 64 % 64;
    assert n / 4096 == n / 262144 * 64 + n / 4096 % 64;
    assert Utf8Width(c[0]) == Some(|c|);
  }

  /** Every character decodes to a scalar value, and is its encoding. */
  lemma DecodedEncodes(c: Bytes)
    requires IsChar(c)
    ensures IsScalar(Scalar(c)) && Encode(Scalar(c)) == c
  {
    var n, lead: int := Scalar(c), c[0];
    if |c| == 2 {
      assert n / 64 == lead - 0xc0 && n % 64 == Tail(c[1]);
    } else if |c| == 3 {
      var high := (lead - 0xe0) * 64 + Tail(c[1]);
      assert n / 64 == high && n % 64 == Tail(c[2]);
      assert high / 64 == lead - 0xe0 && high % 64 == Tail(c[1]);
      assert n / 4096 == high / 64;
    } else if |c| == 4 {
      FourByteScalar(c);
    }
  }

  lemma FourByteScalar(c: Bytes)
    requires IsChar(c) && |c| == 4
    ensures IsScalar(Scalar(c)) && Encode(Scalar(c)) == c
  {
    var n, lead: int := Scalar(c), c[0];
    var top := (lead - 0xf0) * 64 + Tail(c[1]);
    var high := top * 64 + Tail(c[2]);
    assert n / 64 == high && n % 64 == Tail(c[3]);
    assert high / 64 == top && high % 64 == Tail(c[2]);
    assert top / 64 == lead - 0xf0 && top % 64 == Tail(c[1]);
    assert n / 4096 == top && n / 262144 == top / 64;
  }

  /** A surrogate pair reported by two key events is the scalar value it encodes in UTF-16, for every
      value beyond the basic plane. */
  lemma SurrogatesRecombine(n: nat, first: Win32Fields, second: Win32Fields, tables: Tables)
    requires 0x10000 <= n <= 0x10ffff
    requires first.uc == 0xd800 + (n - 0x10000) / 1024 && second.uc == 0xdc00 + (n - 0x10000) % 1024
    ensures var (held, none) := Win32Step(None, first, tables);
      var (after, events) := Win32Step(held, second, tables);
      && none == [] && after == None
      && |events| == RepeatCount(second.rc) && 1 <= |events| <= 32
      && forall i :: 0 <= i < |events| ==> events[i] == Key(Win32Char(n, second.cs, second.kd != 0))
  {
    var m := n - 0x10000;
    assert m == m / 1024 * 1024 + m % 1024;
  }

  // ----- Pastes -----

  const CR: Byte := 0x0d
  const LF: Byte := 0x0a

  /** Every line ending of a whole text as one LF. */
  function LineFeeds(s: Bytes): Bytes
    decreases |s|
  {
    if s == [] then []
    else if s[0] != CR then [s[0]] + LineFeeds(s[1..])
    else if |s| > 1 && s[1] == LF then [LF] + LineFeeds(s[2..])
    else [LF] + LineFeeds(s[1..])
  }

  lemma {:induction false} NormalizeSplit(a: Bytes, b: Bytes, cr: bool)
    ensures var first := Normalize(a, cr);
      var rest := Normalize(b, first.1);
      Normalize(a + b, cr) == (first.0 + rest.0, rest.1)
    decreases |a|
  {
    if a == [] {
      assert a + b == b;
      assert [] + Normalize(b, cr).0 == Normalize(b, cr).0;
    } else {
      assert (a + b)[0] == a[0] && (a + b)[1..] == a[1..] + b;
      var swallowed := cr && a[0] == LF;
      var next := if swallowed then false else a[0] == CR;
      NormalizeSplit(a[1..], b, next);
      var head: Bytes := if swallowed then [] else [if a[0] == CR then LF else a[0]];
      var first := Normalize(a[1..], next);
      assert swallowed ==> head + first.0 == first.0;
      assert Normalize(a, cr) == (head + first.0, first.1);
      assert head + (first.0 + Normalize(b, first.1).0) == (head + first.0) + Normalize(b, first.1).0;
    }
  }

  /** Normalizing byte by byte with an open CR carried along is normalizing the whole text. */
  lemma {:induction false} NormalizeIsLineFeeds(s: Bytes, cr: bool)
    ensures Normalize(s, cr).0 == LineFeeds(if cr && s != [] && s[0] == LF then s[1..] else s)
    decreases |s|
  {
    if s != [] {
      if cr && s[0] == LF {
        NormalizeIsLineFeeds(s[1..], false);
      } else if s[0] == CR {
        NormalizeIsLineFeeds(s[1..], true);
        if |s| > 1 && s[1] == LF { assert s[1..][1..] == s[2..]; }
      } else {
        NormalizeIsLineFeeds(s[1..], false);
      }
    }
  }

  function PastedData(events: seq<Event>): Bytes {
    if events == [] then [] else (if events[0].Pasted? then events[0].data else []) + PastedData(events[1..])
  }

  /** The segments of one paste: only the last can be final. */
  predicate IsOnePaste(ts: seq<Token>) {
    && (forall i :: 0 <= i < |ts| ==> ts[i].Paste?)
    && forall i :: 0 <= i < |ts| - 1 ==> !ts[i].paste.isFinal
  }

  lemma {:induction false} SegmentsCarryOn(m: MapState, ts: seq<Token>, tables: Tables)
    requires IsOnePaste(ts)
    ensures PastedData(MapTokens(m, ts, tables).events) == Normalize(PastePayload(ts), m.pastePendingCr).0
    decreases |ts|
  {
    hide Normalize;
    if ts == [] {
      NormalizeNothing(m.pastePendingCr);
    } else {
      var first := MapToken(m, ts[0], tables);
      var rest := MapTokens(first.mapping, ts[1..], tables);
      var payload := ts[0].paste.payload;
      SegmentsCarryOn(first.mapping, ts[1..], tables);
      NormalizeSplit(payload, PastePayload(ts[1..]), m.pastePendingCr);
      assert first.events + rest.events == [first.events[0]] + rest.events;
      assert ([first.events[0]] + rest.events)[1..] == rest.events;
      if ts[1..] == [] {
        NormalizeNothing(Normalize(payload, m.pastePendingCr).1);
        NormalizeNothing(first.mapping.pastePendingCr);
      }
    }
  }

  lemma NormalizeNothing(cr: bool)
    ensures Normalize([], cr).0 == []
  {
  }

  /** However a paste is cut into segments, the data of its events together is its whole payload with
      every line ending as one LF. */
  lemma PasteTextIsSegmentationFree(ts: seq<Token>, half: Option<nat>, tables: Tables)
    requires IsOnePaste(ts)
    ensures PastedData(MapTokens(MapState(false, half), ts, tables).events) == LineFeeds(PastePayload(ts))
  {
    SegmentsCarryOn(MapState(false, half), ts, tables);
    NormalizeIsLineFeeds(PastePayload(ts), false);
  }
}
