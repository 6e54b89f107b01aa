/** Text encodings the client produces: decimal numbers (`strconv.FormatUint`,
    `fmt.Sprintf("%d")`), lowercase hexadecimal (`hex.EncodeToString`), the UTF-8
    bytes of a Go string, and padded base64 (`base64.StdEncoding`, section 4 of
    RFC 4648). Each encoder is paired with a decoder and a round-trip lemma. */
module Encoding {
  import opened Base

  // ---------------------------------------------------------------- decimal

  predicate IsDigit(c: char) { '0' <= c <= '9' }

  predicate AllDigits(s: string) { forall k :: 0 <= k < |s| ==> IsDigit(s[k]) }

  function DigitChar(d: nat): (c: char)
    requires d < 10
    ensures IsDigit(c) && (c as int) - ('0' as int) == d
  {
    ('0' as int + d) as char
  }

  /** The base-10 text of `n`, most significant digit first, no leading zeros. */
  function Decimal(n: nat): (s: string)
    ensures |s| > 0 && AllDigits(s)
    ensures |s| > 1 ==> s[0] != '0'
    decreases n
  {
    if n < 10 then [DigitChar(n)] else Decimal(n / 10) + [DigitChar(n % 10)]
  }

  /** The number a string of digits denotes. */
  function DecimalValue(s: string): nat
    requires AllDigits(s)
  {
    if s == [] then 0
    else DecimalValue(s[..|s| - 1]) * 10 + ((s[|s| - 1] as int) - ('0' as int))
  }

  lemma {:induction false} DecimalRoundTrip(n: nat)
    ensures DecimalValue(Decimal(n)) == n
    decreases n
  {
    if n >= 10 {
      var s := Decimal(n);
      assert s[..|s| - 1] == Decimal(n / 10);
      DecimalRoundTrip(n / 10);
    }
  }

  /** Different numbers never print the same. */
  lemma DecimalInjective(m: nat, n: nat)
    requires m != n
    ensures Decimal(m) != Decimal(n)
  {
    DecimalRoundTrip(m);
    DecimalRoundTrip(n);
  }

  /** `fmt.Sprintf("%d", x)` for a signed integer. */
  function FormatInt(x: int): (s: string)
    ensures |s| > 0
  {
    if x < 0 then "-" + Decimal(-x) else Decimal(x)
  }

  /** Reads back what `FormatInt` prints; `None` for anything else. */
  function ParseInt(s: string): Option<int>
  {
    if |s| > 1 && s[0] == '-' && AllDigits(s[1..]) then
      var magnitude: int := DecimalValue(s[1..]);
      Some(-magnitude)
    else if |s| > 0 && AllDigits(s) then Some(DecimalValue(s))
    else None
  }

  lemma FormatIntRoundTrip(x: int)
    ensures ParseInt(FormatInt(x)) == Some(x)
  {
    if x < 0 {
      var s := FormatInt(x);
      assert s[1..] == Decimal(-x);
      DecimalRoundTrip(-x);
    } else {
      DecimalRoundTrip(x);
    }
  }

  // ------------------------------------------------------------ hexadecimal

  predicate IsLowerHexChar(c: char) { '0' <= c <= '9' || 'a' <= c <= 'f' }

  predicate IsLowerHex(s: string) { forall k :: 0 <= k < |s| ==> IsLowerHexChar(s[k]) }

  function HexChar(d: nat): (c: char)
    requires d < 16
    ensures IsLowerHexChar(c)
  {
    if d < 10 then ('0' as int + d) as char else ('a' as int + d - 10) as char
  }

  function HexCharValue(c: char): (d: nat)
    requires IsLowerHexChar(c)
    ensures d < 16
  {
    if c <= '9' then (c as int) - ('0' as int) else (c as int) - ('a' as int) + 10
  }

  /** `hex.EncodeToString`: two lowercase digits per byte, high nibble first. */
  function HexEncode(b: seq<byte>): (s: string)
    ensures |s| == 2 * |b| && IsLowerHex(s)
  {
    if b == [] then ""
    else [HexChar(b[0] / 16), HexChar(b[0] % 16)] + HexEncode(b[1..])
  }

  function HexDecode(s: string): (b: seq<byte>)
    requires |s| % 2 == 0 && IsLowerHex(s)
    ensures 2 * |b| == |s|
  {
    if s == [] then []
    else [HexCharValue(s[0]) * 16 + HexCharValue(s[1])] + HexDecode(s[2..])
  }

  lemma {:induction false} HexRoundTrip(b: seq<byte>)
    ensures HexDecode(HexEncode(b)) == b
  {
    if b != [] {
      var s := HexEncode(b);
      assert s[2..] == HexEncode(b[1..]);
      HexRoundTrip(b[1..]);
    }
  }

  // ------------------------------------------------------------------ UTF-8

  /** The UTF-8 bytes of one Unicode scalar value. */
  function Utf8Char(c: char): (b: seq<byte>)
    ensures 1 <= |b| <= 4
    ensures (c as int) < 0x80 ==> b == [c as int]
    ensures (c as int) >= 0x80 ==> forall k :: 0 <= k < |b| ==> b[k] >= 0x80
  {
    var n := c as int;
    if n < 0x80 then [n]
    else if n < 0x800 then [0xC0 + n / 64, 0x80 + n % 64]
    else if n < 0x1_0000 then [0xE0 + n / 4096, 0x80 + (n / 64) % 64, 0x80 + n % 64]
    else [0xF0 + n / 262144, 0x80 + (n / 4096) % 64, 0x80 + (n / 64) % 64, 0x80 + n % 64]
  }

  /** `[]byte(s)` for a Go string holding the text `s`. */
  function Utf8(s: string): (b: seq<byte>)
    ensures |b| >= |s|
  {
    if s == [] then [] else Utf8Char(s[0]) + Utf8(s[1..])
  }

  lemma {:induction false} Utf8Append(a: string, b: string)
    ensures Utf8(a + b) == Utf8(a) + Utf8(b)
  {
    if a == [] {
      assert a + b == b;
    } else {
      assert (a + b)[1..] == a[1..] + b;
      Utf8Append(a[1..], b);
    }
  }

  /** An ASCII character occurs in the text exactly when its code occurs in the bytes:
      multi-byte sequences use only bytes of 0x80 and above. */
  lemma {:induction false} Utf8AsciiOccurs(s: string, c: char)
    requires (c as int) < 0x80
    ensures (c in s) <==> ((c as int) in Utf8(s))
  {
    if s != [] {
      Utf8AsciiOccurs(s[1..], c);
      assert s == [s[0]] + s[1..];
    }
  }

  // ----------------------------------------------------------------- base64

  /** Letter `k` of the standard alphabet of section 4 of RFC 4648:
      A-Z, a-z, 0-9, '+', '/'. */
  function Base64Char(k: nat): (c: char)
    requires k < 64
  {
    if k < 26 then ('A' as int + k) as char
    else if k < 52 then ('a' as int + k - 26) as char
    else if k < 62 then ('0' as int + k - 52) as char
    else if k == 62 then '+'
    else '/'
  }

  /** The position of `c` in the standard alphabet, or -1 (also for the pad '='). */
  function Base64Index(c: char): (k: int)
    ensures -1 <= k < 64
    ensures 0 <= k ==> Base64Char(k) == c
  {
    if 'A' <= c <= 'Z' then (c as int) - ('A' as int)
    else if 'a' <= c <= 'z' then (c as int) - ('a' as int) + 26
    else if '0' <= c <= '9' then (c as int) - ('0' as int) + 52
    else if c == '+' then 62
    else if c == '/' then 63
    else -1
  }

  lemma Base64IndexOfChar(k: nat)
    requires k < 64
    ensures Base64Index(Base64Char(k)) == k
  {
  }

  /** `base64.StdEncoding.EncodeToString`: each group of three bytes becomes four
      letters; a final group of one or two bytes is padded with '='. */
  function Base64Encode(b: seq<byte>): (s: string)
    ensures |s| == 4 * ((|b| + 2) / 3)
  {
    if |b| == 0 then ""
    else if |b| == 1 then Base64One(b[0])
    else if |b| == 2 then Base64Two(b[0], b[1])
    else Base64Three(b[0], b[1], b[2]) + Base64Encode(b[3..])
  }

  /** A last group of one byte: two letters and two pads. */
  function Base64One(b0: byte): (s: string)
    ensures |s| == 4
  {
    [Base64Char(b0 / 4), Base64Char((b0 % 4) * 16), '=', '=']
  }

  /** A last group of two bytes: three letters and one pad. */
  function Base64Two(b0: byte, b1: byte): (s: string)
    ensures |s| == 4
  {
    [Base64Char(b0 / 4), Base64Char((b0 % 4) * 16 + b1 / 16), Base64Char((b1 % 16) * 4), '=']
  }

  /** A full group of three bytes: four letters, six bits each. */
  function Base64Three(b0: byte, b1: byte, b2: byte): (s: string)
    ensures |s| == 4
  {
    [Base64Char(b0 / 4), Base64Char((b0 % 4) * 16 + b1 / 16),
     Base64Char((b1 % 16) * 4 + b2 / 64), Base64Char(b2 % 64)]
  }

  function Base64Decode(s: string): Option<seq<byte>>
    decreases |s|
  {
    if |s| == 0 then Some([])
    else if |s| < 4 then None
    else
      var i0, i1, i2, i3 := Base64Index(s[0]), Base64Index(s[1]), Base64Index(s[2]), Base64Index(s[3]);
      if i0 < 0 || i1 < 0 then None
      else if |s| == 4 && s[2] == '=' && s[3] == '=' then
        Some([i0 * 4 + i1 / 16])
      else if i2 < 0 then None
      else if |s| == 4 && s[3] == '=' then
        Some([i0 * 4 + i1 / 16, (i1 % 16) * 16 + i2 / 4])
      else if i3 < 0 then None
      else
        match Base64Decode(s[4..])
        case None => None
        case Some(rest) =>
          Some([i0 * 4 + i1 / 16, (i1 % 16) * 16 + i2 / 4, (i2 % 4) * 64 + i3] + rest)
  }

  lemma Base64LastOne(b0: byte)
    ensures Base64Decode(Base64One(b0)) == Some([b0])
  {
    Base64IndexOfChar(b0 / 4);
    Base64IndexOfChar((b0 % 4) * 16);
  }

  lemma Base64LastTwo(b0: byte, b1: byte)
    ensures Base64Decode(Base64Two(b0, b1)) == Some([b0, b1])
  {
    var c1, c2 := (b0 % 4) * 16 + b1 / 16, (b1 % 16) * 4;
    Base64IndexOfChar(b0 / 4);
    Base64IndexOfChar(c1);
    Base64IndexOfChar(c2);
    assert c1 % 16 == b1 / 16 && c1 / 16 == b0 % 4 && c2 / 4 == b1 % 16;
  }

  /** The four letters of a full group name its three bytes. */
  lemma Base64ThreeIndices(b0: byte, b1: byte, b2: byte)
    ensures var q := Base64Three(b0, b1, b2);
      var i0, i1, i2, i3 := Base64Index(q[0]), Base64Index(q[1]), Base64Index(q[2]), Base64Index(q[3]);
      && 0 <= i0 && 0 <= i1 && 0 <= i2 && 0 <= i3 && q[3] != '='
      && i0 * 4 + i1 / 16 == b0 as int
      && (i1 % 16) * 16 + i2 / 4 == b1 as int
      && (i2 % 4) * 64 + i3 == b2 as int
  {
    var c0, c1 := b0 / 4, (b0 % 4) * 16 + b1 / 16;
    var c2, c3 := (b1 % 16) * 4 + b2 / 64, b2 % 64;
    Base64IndexOfChar(c0);
    Base64IndexOfChar(c1);
    Base64IndexOfChar(c2);
    Base64IndexOfChar(c3);
    assert c1 % 16 == b1 / 16 && c1 / 16 == b0 % 4;
    assert c2 % 4 == b2 / 64 && c2 / 4 == b1 % 16;
  }

  lemma Base64Group(b: seq<byte>, rest: string)
    requires |b| >= 3 && Base64Decode(rest) == Some(b[3..])
    ensures Base64Decode(Base64Three(b[0], b[1], b[2]) + rest) == Some(b)
  {
    var b0, b1, b2 := b[0], b[1], b[2];
    var q := Base64Three(b0, b1, b2);
    var s := q + rest;
    assert s[0] == q[0] && s[1] == q[1] && s[2] == q[2] && s[3] == q[3];
    assert s[4..] == rest;
    Base64ThreeIndices(b0, b1, b2);
    assert b == [b0, b1, b2] + b[3..];
  }

  lemma {:induction false} Base64RoundTrip(b: seq<byte>)
    ensures Base64Decode(Base64Encode(b)) == Some(b)
    decreases |b|
  {
    if |b| == 1 {
      Base64LastOne(b[0]);
      assert b == [b[0]];
    } else if |b| == 2 {
      Base64LastTwo(b[0], b[1]);
      assert b == [b[0], b[1]];
    } else if |b| >= 3 {
      Base64RoundTrip(b[3..]);
      Base64Group(b, Base64Encode(b[3..]));
    }
  }



  // ------------------------------------------------ fixed JSON text templates

  /** A request body written as string concatenation, `lits[0] + vals[0] + lits[1] + ...`. */
  function Fill(lits: seq<string>, vals: seq<string>): string
    requires |lits| == |vals| + 1
  {
    if vals == [] then lits[0] else lits[0] + vals[0] + Fill(lits[1..], vals[1..])
  }

  /** A template whose every literal after the first begins with the closing quote
      of the value before it. */
  predicate Delimited(lits: seq<string>)
  {
    forall k :: 1 <= k < |lits| ==> |lits[k]| > 0 && lits[k][0] == '"'
  }

  predicate QuoteFree(s: string) { '"' !in s }

  /** The longest prefix of `s` without a double quote. */
  function UntilQuote(s: string): (v: string)
    ensures |v| <= |s| && v == s[..|v|] && QuoteFree(v)
    ensures |v| < |s| ==> s[|v|] == '"'
  {
    if s == [] || s[0] == '"' then [] else [s[0]] + UntilQuote(s[1..])
  }

  lemma {:induction false} UntilQuoteOf(v: string, rest: string)
    requires QuoteFree(v) && |rest| > 0 && rest[0] == '"'
    ensures UntilQuote(v + rest) == v
  {
    if v != [] {
      assert (v + rest)[1..] == v[1..] + rest;
      UntilQuoteOf(v[1..], rest);
    }
  }

  /** A filled template begins with its first literal. */
  lemma FillStartsWithLiteral(lits: seq<string>, vals: seq<string>)
    requires |lits| == |vals| + 1
    ensures lits[0] <= Fill(lits, vals)
  {
    if vals != [] {
      assert Fill(lits, vals) == lits[0] + (vals[0] + Fill(lits[1..], vals[1..]));
    }
  }

  /** Reads the values back out of a filled template. */
  function Unfill(lits: seq<string>, s: string): Option<seq<string>>
    requires |lits| >= 1
    decreases |lits|
  {
    if |lits| == 1 then (if s == lits[0] then Some([]) else None)
    else if !(lits[0] <= s) then None
    else
      var rest := s[|lits[0]|..];
      var v := UntilQuote(rest);
      match Unfill(lits[1..], rest[|v|..])
      case None => None
      case Some(vs) => Some([v] + vs)
  }

  /** A filled template determines its values, provided none holds a double quote. */
  lemma {:induction false} UnfillFill(lits: seq<string>, vals: seq<string>)
    requires |lits| == |vals| + 1 && Delimited(lits)
    requires forall k :: 0 <= k < |vals| ==> QuoteFree(vals[k])
    ensures Unfill(lits, Fill(lits, vals)) == Some(vals)
    decreases |vals|
  {
    if vals != [] {
      var s := Fill(lits, vals);
      var tail := Fill(lits[1..], vals[1..]);
      assert s == lits[0] + (vals[0] + tail);
      assert s[|lits[0]|..] == vals[0] + tail;
      FillStartsWithLiteral(lits[1..], vals[1..]);
      assert tail[0] == lits[1][0] == '"';
      UntilQuoteOf(vals[0], tail);
      assert (vals[0] + tail)[|vals[0]|..] == tail;
      UnfillFill(lits[1..], vals[1..]);
      assert [vals[0]] + vals[1..] == vals;
    }
  }
}
