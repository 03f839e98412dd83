/** Bytes, byte classes and UTF-8 well-formedness, the alphabet every other module works over. */
module Bytes {

  type Byte = b: int | 0 <= b < 256

  type Bytes = seq<Byte>

  datatype Option<+T> = None | Some(value: T)

  const ESC: Byte := 0x1b
  const BEL: Byte := 0x07
  const CAN: Byte := 0x18
  const SUB: Byte := 0x1a
  const DEL: Byte := 0x7f
  const C1_ST: Byte := 0x9c
  const C1_CSI: Byte := 0x9b

  // The three byte classes of a control-sequence prefix (section 5.4 of ECMA-48).
  datatype Class = PrivateMarker | ParamByte | Intermediate

  predicate InClass(c: Class, b: Byte) {
    match c
    case PrivateMarker => 0x3c <= b <= 0x3f
    case ParamByte => 0x30 <= b <= 0x3b
    case Intermediate => 0x20 <= b <= 0x2f
  }

  predicate IsFinalByte(b: Byte) { 0x40 <= b <= 0x7e }

  predicate IsEscapeFinalByte(b: Byte) { 0x30 <= b <= 0x7e }

  predicate IsAbort(b: Byte) { b == CAN || b == SUB }

  predicate IsControl(b: Byte) { b <= 0x1f || b == DEL }

  predicate IsC1Introducer(b: Byte) {
    b == 0x90 || b == 0x98 || b == 0x9b || b == 0x9c || b == 0x9d || b == 0x9e || b == 0x9f
  }

  predicate IsTextBoundary(b: Byte) { IsControl(b) || IsC1Introducer(b) }

  predicate IsTextStart(b: Byte) { !IsTextBoundary(b) && b != C1_ST }

  // ----- UTF-8 (section 4 of RFC 3629) -----

  function Utf8Width(b: Byte): Option<nat> {
    if b <= 0x7f then Some(1)
    else if 0xc2 <= b <= 0xdf then Some(2)
    else if 0xe0 <= b <= 0xef then Some(3)
    else if 0xf0 <= b <= 0xf4 then Some(4)
    else None
  }

  predicate IsContinuation(b: Byte) { 0x80 <= b <= 0xbf }

  /** `s` is the encoding of exactly one character. */
  predicate IsChar(s: Bytes) {
    && |s| > 0
    && Utf8Width(s[0]) == Some(|s|)
    && (forall i :: 1 <= i < |s| ==> IsContinuation(s[i]))
    && (s[0] == 0xe0 ==> s[1] >= 0xa0)
    && (s[0] == 0xed ==> s[1] <= 0x9f)
    && (s[0] == 0xf0 ==> s[1] >= 0x90)
    && (s[0] == 0xf4 ==> s[1] <= 0x8f)
  }

  /** The width of the complete character that `s` begins with, if it begins with one. */
  function CharWidth(s: Bytes): (w: Option<nat>)
    ensures w.Some? ==> 0 < w.value <= |s| && w.value <= 4 && IsChar(s[..w.value])
  {
    if s == [] then None
    else match Utf8Width(s[0])
      case None => None
      case Some(n) => if n <= |s| && IsChar(s[..n]) then Some(n) else None
  }

  /** `s` is a concatenation of complete characters: what `str::from_utf8` accepts. */
  predicate ValidUtf8(s: Bytes) {
    s == [] || (CharWidth(s).Some? && ValidUtf8(s[CharWidth(s).value..]))
  }

  /** `s` is well-formed text without a C0 control, DEL, or a C1 byte where a character starts. */
  predicate IsText(s: Bytes) {
    s == [] || (
      && !IsTextBoundary(s[0])
      && CharWidth(s).Some?
      && IsText(s[CharWidth(s).value..]))
  }

  // ----- Runs of one class -----

  /** How many leading bytes of `s` are in class `c`. */
  function SpanLen(c: Class, s: Bytes): (n: nat)
    ensures n <= |s|
  {
    if s == [] || !InClass(c, s[0]) then 0 else 1 + SpanLen(c, s[1..])
  }

  lemma {:induction false} SpanLenIsLongest(c: Class, s: Bytes)
    ensures forall i :: 0 <= i < SpanLen(c, s) ==> InClass(c, s[i])
    ensures SpanLen(c, s) < |s| ==> !InClass(c, s[SpanLen(c, s)])
  {
    if s != [] && InClass(c, s[0]) {
      SpanLenIsLongest(c, s[1..]);
      assert forall i :: 1 <= i < |s| ==> s[i] == s[1..][i - 1];
    }
  }

  lemma SpanLenUnique(c: Class, s: Bytes, n: nat)
    requires n <= |s|
    requires forall i :: 0 <= i < n ==> InClass(c, s[i])
    requires n < |s| ==> !InClass(c, s[n])
    ensures SpanLen(c, s) == n
  {
    SpanLenIsLongest(c, s);
  }

  lemma {:induction false} SpanLenAppend(c: Class, a: Bytes, b: Bytes)
    ensures SpanLen(c, a + b) == if SpanLen(c, a) < |a| then SpanLen(c, a) else |a| + SpanLen(c, b)
  {
    if a == [] {
      assert a + b == b;
    } else if InClass(c, a[0]) {
      assert (a + b)[1..] == a[1..] + b;
      SpanLenAppend(c, a[1..], b);
    }
  }

  // ----- Sequences -----

  lemma Associate<T>(a: seq<T>, b: seq<T>, c: seq<T>)
    ensures a + (b + c) == (a + b) + c
  {
  }
}
