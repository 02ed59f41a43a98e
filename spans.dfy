/** The span records the printer consumes: identifiers, their canonical
    string form, attribute values and the span stub itself. */
module Spans {

  type Byte = b: int | 0 <= b < 256

  /** An OpenTelemetry span identifier: eight bytes. */
  type SpanId = s: seq<Byte> | |s| == 8 witness [0, 0, 0, 0, 0, 0, 0, 0]

  /** An OpenTelemetry trace identifier: sixteen bytes. */
  type TraceId = s: seq<Byte> | |s| == 16 witness [0, 0, 0, 0, 0, 0, 0, 0, 0, 0, 0, 0, 0, 0, 0, 0]

  /** The all-zero span identifier, which OpenTelemetry treats as absent. */
  const NilSpanId: SpanId := [0, 0, 0, 0, 0, 0, 0, 0]

  /** SpanID.IsValid: an identifier is valid when it is not all zero, that
      is, when one of its eight bytes is non-zero. */
  predicate IsValid(id: SpanId)
    ensures IsValid(id) <==> exists i :: 0 <= i < 8 && id[i] != 0
  {
    id != NilSpanId
  }

  /** One lower-case hexadecimal digit. */
  function HexDigit(n: int): (c: char)
    requires 0 <= n < 16
    ensures '0' <= c <= '9' || 'a' <= c <= 'f'
  {
    if n < 10 then ('0' as int + n) as char else ('a' as int + n - 10) as char
  }

  /** The value of a digit produced by HexDigit: its left inverse. */
  function DigitValue(c: char): int
  {
    if '0' <= c <= '9' then c as int - '0' as int
    else if 'a' <= c <= 'f' then c as int - 'a' as int + 10
    else -1
  }

  lemma DigitRoundTrip(n: int)
    requires 0 <= n < 16
    ensures DigitValue(HexDigit(n)) == n
  {
  }

  /** The canonical string form of an identifier (SpanID.String and
      TraceID.String): two lower-case hex digits per byte, most significant
      nibble first. */
  function Hex(bytes: seq<Byte>): (r: string)
    ensures |r| == 2 * |bytes|
    ensures forall i :: 0 <= i < |r| ==> '0' <= r[i] <= '9' || 'a' <= r[i] <= 'f'
  {
    if bytes == [] then ""
    else [HexDigit(bytes[0] / 16), HexDigit(bytes[0] % 16)] + Hex(bytes[1..])
  }

  /** Decoding the hex form gives back the bytes. */
  function Unhex(s: string): (r: seq<int>)
    ensures |r| == |s| / 2
  {
    if |s| < 2 then [] else [16 * DigitValue(s[0]) + DigitValue(s[1])] + Unhex(s[2..])
  }

  lemma {:induction false} HexRoundTrip(bytes: seq<Byte>)
    ensures Unhex(Hex(bytes)) == bytes
  {
    if bytes != [] {
      var b := bytes[0];
      DigitRoundTrip(b / 16);
      DigitRoundTrip(b % 16);
      var h := Hex(bytes);
      assert h[2..] == Hex(bytes[1..]);
      HexRoundTrip(bytes[1..]);
    }
  }

  /** Distinct identifiers have distinct string forms, so keying a map by
      the string form (as the printer keys childrenMap) is the same as
      keying it by the identifier. */
  lemma HexInjective(a: seq<Byte>, b: seq<Byte>)
    ensures Hex(a) == Hex(b) <==> a == b
  {
    if Hex(a) == Hex(b) {
      HexRoundTrip(a);
      HexRoundTrip(b);
    }
  }

  /** An attribute value: the string, integer and boolean kinds. */
  datatype Value = Str(s: string) | Int(i: int) | Bool(b: bool)

  datatype Attribute = Attribute(key: string, value: Value)

  /** The fields of a tracetest span stub the printer reads. Times are
      nanoseconds on one clock; `parent` is the span ID of the parent
      span context (NilSpanId for a root). */
  datatype Span = Span(
    name: string,
    traceId: TraceId,
    id: SpanId,
    parent: SpanId,
    start: int,
    end: int,
    attrs: seq<Attribute>)
}
