/**
 * HTTP-level values the middleware reads from a request or response: the
 * status code and its label text, the protocol version and its label text,
 * and the best-effort parse of the `content-length` header.
 */
module Http {

  datatype Option<+T> = None | Some(value: T) {
    function GetOr(default: T): (r: T)
      ensures Some? ==> r == value
      ensures None? ==> r == default
    {
      match this
      case Some(v) => v
      case None => default
    }
  }

  newtype byte = x: int | 0 <= x < 256

  /** The largest value of a 64-bit `usize`. */
  const USIZE_MAX: nat := 0xFFFF_FFFF_FFFF_FFFF

  /** A status code as the HTTP library admits it: three decimal digits, 100 to 999. */
  newtype StatusCode = x: int | 100 <= x < 1000 witness 200

  /** The protocol versions the HTTP library knows; `Unrecognized` stands for the catch-all arm. */
  datatype HttpVersion = Http09 | Http10 | Http11 | Http2 | Http3 | Unrecognized

  // ---------------------------------------------------------------------------
  // Decimal digits
  // ---------------------------------------------------------------------------

  predicate IsDigit(c: char) {
    '0' <= c <= '9'
  }

  predicate AllDigits(s: string) {
    forall i :: 0 <= i < |s| ==> IsDigit(s[i])
  }

  function DigitChar(d: nat): (c: char)
    requires d < 10
    ensures IsDigit(c) && c as int - '0' as int == d
  {
    ('0' as int + d) as char
  }

  /** The value of a string of decimal digits, most significant first. */
  function DigitsValue(s: string): nat
    requires AllDigits(s)
    decreases |s|
  {
    if s == [] then 0
    else 10 * DigitsValue(s[..|s| - 1]) + (s[|s| - 1] as int - '0' as int)
  }

  /** The canonical decimal rendering of `n` (no sign, no leading zeros). */
  function Decimal(n: nat): (s: string)
    ensures 0 < |s| && AllDigits(s)
    ensures n >= 10 <==> s[0] != '0' && |s| > 1
    decreases n
  {
    if n < 10 then [DigitChar(n)] else Decimal(n / 10) + [DigitChar(n % 10)]
  }

  lemma {:induction false} DecimalValue(n: nat)
    ensures DigitsValue(Decimal(n)) == n
    decreases n
  {
    var s := Decimal(n);
    if n >= 10 {
      DecimalValue(n / 10);
      assert s[..|s| - 1] == Decimal(n / 10);
    }
  }

  // ---------------------------------------------------------------------------
  // Label texts (src/lib.rs: status.as_str() and http_version_label)
  // ---------------------------------------------------------------------------

  /** The three-digit text of a status code, as used for the status label. */
  function StatusText(status: StatusCode): (r: string)
    ensures |r| == 3 && AllDigits(r)
    ensures DigitsValue(r) == status as int
  {
    var n := status as int;
    var tens := n / 10;
    var r := [DigitChar(tens / 10), DigitChar(tens % 10), DigitChar(n % 10)];
    assert n == 10 * tens + n % 10;
    assert tens == 10 * (tens / 10) + tens % 10;
    assert r[..2][..1] == r[..1] && r[..1][..0] == [];
    assert DigitsValue(r[..1]) == tens / 10;
    assert DigitsValue(r[..2]) == tens;
    r
  }

  lemma StatusTextInjective(s: StatusCode, t: StatusCode)
    ensures StatusText(s) == StatusText(t) ==> s == t
  {
  }

  /** The value of the version label for a protocol version. */
  function VersionLabel(v: HttpVersion): (r: string)
    ensures v.Unrecognized? <==> r == "<unrecognized>"
    ensures !v.Unrecognized? ==> |r| == 8 && r[..5] == "HTTP/"
  {
    match v
    case Http09 => "HTTP/0.9"
    case Http10 => "HTTP/1.0"
    case Http11 => "HTTP/1.1"
    case Http2 => "HTTP/2.0"
    case Http3 => "HTTP/3.0"
    case Unrecognized => "<unrecognized>"
  }

  /** Reads a version label back; the partner of VersionLabel. */
  function ParseVersionLabel(s: string): (r: Option<HttpVersion>)
    ensures r.Some? ==> VersionLabel(r.value) == s
  {
    if s == "HTTP/0.9" then Some(Http09)
    else if s == "HTTP/1.0" then Some(Http10)
    else if s == "HTTP/1.1" then Some(Http11)
    else if s == "HTTP/2.0" then Some(Http2)
    else if s == "HTTP/3.0" then Some(Http3)
    else if s == "<unrecognized>" then Some(Unrecognized)
    else None
  }

  lemma VersionLabelRoundTrip(v: HttpVersion)
    ensures ParseVersionLabel(VersionLabel(v)) == Some(v)
  {
  }

  lemma VersionLabelInjective(v: HttpVersion, w: HttpVersion)
    ensures VersionLabel(v) == VersionLabel(w) ==> v == w
  {
  }

  // ---------------------------------------------------------------------------
  // content-length (src/lib.rs:718-724)
  // ---------------------------------------------------------------------------

  /** The header library's notion of a printable header byte: visible ASCII or tab. */
  predicate IsVisibleAscii(b: byte) {
    (32 <= b < 127) || b == 9
  }

  /** `HeaderValue::to_str`: the value as text when every byte is visible ASCII. */
  function ToStr(v: seq<byte>): (r: Option<string>)
    ensures r.Some? <==> forall i :: 0 <= i < |v| ==> IsVisibleAscii(v[i])
    ensures r.Some? ==> |r.value| == |v| && forall i :: 0 <= i < |v| ==> r.value[i] as int == v[i] as int
  {
    if forall i :: 0 <= i < |v| ==> IsVisibleAscii(v[i]) then
      Some(seq(|v|, i requires 0 <= i < |v| => v[i] as int as char))
    else
      None
  }

  /** The digits after an optional leading `+`, which is all an unsigned parse admits as a sign. */
  function UnsignedDigits(s: string): (d: string)
    ensures |d| <= |s|
  {
    if 0 < |s| && s[0] == '+' then s[1..] else s
  }

  /** `str::parse::<usize>`: fails on an empty digit string, on any non-digit, and on overflow. */
  function ParseUsize(s: string): (r: Option<nat>)
    ensures r.Some? <==> var d := UnsignedDigits(s);
      0 < |d| && AllDigits(d) && DigitsValue(d) <= USIZE_MAX
    ensures r.Some? ==> r.value <= USIZE_MAX && r.value == DigitsValue(UnsignedDigits(s))
  {
    var d := UnsignedDigits(s);
    if |d| == 0 || !AllDigits(d) then None
    else if DigitsValue(d) <= USIZE_MAX then Some(DigitsValue(d))
    else None
  }

  /** The request size: the parsed `content-length` header, or 0 when it is absent or unusable. */
  function RequestSize(header: Option<seq<byte>>): (n: nat)
    ensures n <= USIZE_MAX
    ensures header.None? ==> n == 0
    ensures header.Some? && ToStr(header.value).None? ==> n == 0
    ensures header.Some? && ToStr(header.value).Some? ==>
      n == ParseUsize(ToStr(header.value).value).GetOr(0)
  {
    match header
    case None => 0
    case Some(v) =>
      match ToStr(v)
      case None => 0
      case Some(s) => ParseUsize(s).GetOr(0)
  }

  /** The bytes of an ASCII string, as a client would send them. */
  function AsciiBytes(s: string): (v: seq<byte>)
    requires forall i :: 0 <= i < |s| ==> s[i] as int < 128
    ensures |v| == |s| && forall i :: 0 <= i < |s| ==> v[i] as int == s[i] as int
  {
    seq(|s|, i requires 0 <= i < |s| => s[i] as int as byte)
  }

  lemma {:induction false} ParseDecimal(n: nat)
    requires n <= USIZE_MAX
    ensures ParseUsize(Decimal(n)) == Some(n)
  {
    DecimalValue(n);
  }

  /** A `content-length` header carrying the decimal rendering of `n` yields `n` when it fits a usize, and 0 when it overflows. */
  lemma {:induction false} RequestSizeOfDecimal(n: nat)
    ensures forall i :: 0 <= i < |Decimal(n)| ==> Decimal(n)[i] as int < 128
    ensures RequestSize(Some(AsciiBytes(Decimal(n)))) == if n <= USIZE_MAX then n else 0
  {
    var s := Decimal(n);
    var v := AsciiBytes(s);
    forall i | 0 <= i < |v| ensures IsVisibleAscii(v[i]) {
      assert IsDigit(s[i]);
    }
    assert ToStr(v).value == s;
    DecimalValue(n);
  }
}
