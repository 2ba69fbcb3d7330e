/** 128-bit identifiers (github.com/google/uuid's `UUID`, a `[16]byte`) with their
    text forms. `Format` renders the canonical lower-case form of section 3 of
    RFC 4122 (also what the engine's BIN_TO_UUID produces); `Parse` accepts what
    `uuid.Parse` accepts: the 36-character dashed form, the same wrapped in any two
    characters (meant for braces), prefixed by "urn:uuid:" in any case, or 32 bare
    hexadecimal digits, with hexadecimal digits of either case. `MarshalBinary` is
    the 16 bytes themselves, so a `Uuid` is also its storage form. */
module UuidCodec {
  import opened Wrappers
  import Strings

  type Byte = x: int | 0 <= x < 256

  type Uuid = b: seq<Byte> | |b| == 16 witness [0, 0, 0, 0, 0, 0, 0, 0, 0, 0, 0, 0, 0, 0, 0, 0]

  /** The three ways `uuid.Parse` fails. */
  datatype UuidError = InvalidLength(length: nat) | InvalidUrnPrefix | InvalidFormat

  /** The characters of canonical text other than '-'. */
  predicate IsLowerHex(c: char)
  {
    '0' <= c <= '9' || 'a' <= c <= 'f'
  }

  function HexDigit(d: nat): (c: char)
    requires d < 16
    ensures IsLowerHex(c)
  {
    if d < 10 then ('0' as int + d) as char else ('a' as int + d - 10) as char
  }

  function HexValue(c: char): (r: Option<nat>)
    ensures r.Some? ==> r.value < 16
  {
    if '0' <= c <= '9' then Some(c as int - '0' as int)
    else if 'a' <= c <= 'f' then Some(c as int - 'a' as int + 10)
    else if 'A' <= c <= 'F' then Some(c as int - 'A' as int + 10)
    else None
  }

  /** Two lower-case hexadecimal digits per byte, high nibble first. */
  function EncodeHex(bs: seq<Byte>): (s: string)
    ensures |s| == 2 * |bs|
    ensures forall i :: 0 <= i < |s| ==> IsLowerHex(s[i])
    decreases |bs|
  {
    if bs == [] then ""
    else [HexDigit(bs[0] / 16), HexDigit(bs[0] % 16)] + EncodeHex(bs[1..])
  }

  /** Pairs of hexadecimal digits of either case to bytes; None on any other character. */
  function DecodeHex(s: string): (r: Option<seq<Byte>>)
    ensures r.Some? ==> 2 * |r.value| == |s|
    ensures r.Some? <==> |s| % 2 == 0 && forall i :: 0 <= i < |s| ==> HexValue(s[i]).Some?
    decreases |s|
  {
    if |s| == 0 then Some([])
    else if |s| == 1 then None
    else
      assert forall i :: 2 <= i < |s| ==> s[i] == s[2..][i - 2];
      match (HexValue(s[0]), HexValue(s[1]), DecodeHex(s[2..]))
      case (Some(hi), Some(lo), Some(rest)) => Some([hi * 16 + lo] + rest)
      case _ => None
  }

  /** The hexadecimal digits of a dashed form, dashes removed. */
  function DashedDigits(s: string): string
    requires |s| >= 36
  {
    s[..8] + s[9..13] + s[14..18] + s[19..23] + s[24..36]
  }

  /** The check `uuid.Parse` applies to the first 36 characters of a dashed form:
      dashes at 8, 13, 18 and 23, hexadecimal digits elsewhere. */
  function ParseDashed(s: string): Result<Uuid, UuidError>
    requires |s| >= 36
  {
    if s[8] != '-' || s[13] != '-' || s[18] != '-' || s[23] != '-' then Err(InvalidFormat)
    else
      match DecodeHex(DashedDigits(s))
      case Some(b) => Ok(b)
      case None => Err(InvalidFormat)
  }

  /** uuid.Parse. The length selects the form; in the 38-character form the first
      character is dropped unchecked and the last one is never looked at. */
  function Parse(s: string): (r: Result<Uuid, UuidError>)
    ensures r == Err(InvalidLength(|s|)) <==> |s| != 32 && |s| != 36 && |s| != 38 && |s| != 45
    ensures r == Err(InvalidUrnPrefix) <==> |s| == 45 && !Strings.EqualFold(s[..9], "urn:uuid:")
    ensures r.Ok? && |s| == 36 ==> s[8] == '-' && s[13] == '-' && s[18] == '-' && s[23] == '-'
    ensures r.Ok? && |s| == 32 ==> forall i :: 0 <= i < |s| ==> HexValue(s[i]).Some?
  {
    if |s| == 36 then ParseDashed(s)
    else if |s| == 36 + 9 then
      if Strings.EqualFold(s[..9], "urn:uuid:") then ParseDashed(s[9..]) else Err(InvalidUrnPrefix)
    else if |s| == 36 + 2 then ParseDashed(s[1..])
    else if |s| == 32 then
      match DecodeHex(s)
      case Some(b) => Ok(b)
      case None => Err(InvalidFormat)
    else Err(InvalidLength(|s|))
  }

  /** UUID.String and BIN_TO_UUID: xxxxxxxx-xxxx-xxxx-xxxx-xxxxxxxxxxxx in lower case. */
  function Format(u: Uuid): (s: string)
    ensures |s| == 36
    ensures forall i :: 0 <= i < |s| ==> s[i] == '-' || IsLowerHex(s[i])
  {
    var h := EncodeHex(u);
    h[..8] + "-" + h[8..12] + "-" + h[12..16] + "-" + h[16..20] + "-" + h[20..]
  }

  lemma {:induction false} DecodeEncodeHex(bs: seq<Byte>)
    ensures DecodeHex(EncodeHex(bs)) == Some(bs)
    decreases |bs|
  {
    if bs != [] {
      var s := EncodeHex(bs);
      var hi, lo := bs[0] / 16, bs[0] % 16;
      assert HexValue(s[0]) == Some(hi) && HexValue(s[1]) == Some(lo);
      assert s[2..] == EncodeHex(bs[1..]);
      DecodeEncodeHex(bs[1..]);
      assert bs == [hi * 16 + lo] + bs[1..];
    }
  }

  /** Parsing the canonical text of any identifier gives that identifier back. */
  lemma ParseFormat(u: Uuid)
    ensures Parse(Format(u)) == Ok(u)
  {
    var h := EncodeHex(u);
    var s := Format(u);
    assert s[8] == '-' && s[13] == '-' && s[18] == '-' && s[23] == '-';
    var d := DashedDigits(s);
    forall k | 0 <= k < 32
      ensures d[k] == h[k]
    {
      assert d[k] == s[if k < 8 then k else if k < 12 then k + 1 else if k < 16 then k + 2 else if k < 20 then k + 3 else k + 4];
    }
    assert d == h;
    DecodeEncodeHex(u);
  }

  lemma HexValueUpper(c: char)
    ensures HexValue(Strings.UpperChar(c)) == HexValue(c)
  {
  }

  lemma {:induction false} DecodeHexUpper(s: string)
    ensures DecodeHex(Strings.ToUpper(s)) == DecodeHex(s)
    decreases |s|
  {
    if |s| >= 2 {
      HexValueUpper(s[0]);
      HexValueUpper(s[1]);
      assert Strings.ToUpper(s)[2..] == Strings.ToUpper(s[2..]);
      DecodeHexUpper(s[2..]);
    }
  }

  lemma ParseDashedUpper(s: string)
    requires |s| >= 36
    ensures ParseDashed(Strings.ToUpper(s)) == ParseDashed(s)
  {
    var t := Strings.ToUpper(s);
    assert DashedDigits(t) == Strings.ToUpper(DashedDigits(s));
    DecodeHexUpper(DashedDigits(s));
  }

  /** `uuid.Parse` ignores letter case: an upper-case spelling denotes the same
      identifier, and is rejected with the same error. */
  lemma ParseIgnoresCase(s: string)
    ensures Parse(Strings.ToUpper(s)) == Parse(s)
  {
    var t := Strings.ToUpper(s);
    if |s| == 36 {
      ParseDashedUpper(s);
    } else if |s| == 45 {
      assert Strings.ToLower(t[..9]) == Strings.ToLower(s[..9]);
      assert t[9..] == Strings.ToUpper(s[9..]);
      ParseDashedUpper(s[9..]);
    } else if |s| == 38 {
      assert t[1..] == Strings.ToUpper(s[1..]);
      ParseDashedUpper(s[1..]);
    } else if |s| == 32 {
      DecodeHexUpper(s);
    }
  }

  lemma HexDigitValue(c: char)
    requires HexValue(c).Some?
    ensures HexDigit(HexValue(c).value) == Strings.LowerChar(c)
  {
  }

  lemma {:induction false} EncodeDecodeHex(s: string)
    requires DecodeHex(s).Some?
    ensures EncodeHex(DecodeHex(s).value) == Strings.ToLower(s)
    decreases |s|
  {
    if |s| >= 2 {
      var hi, lo := HexValue(s[0]).value, HexValue(s[1]).value;
      var b := DecodeHex(s).value;
      assert b == [hi * 16 + lo] + DecodeHex(s[2..]).value;
      assert b[0] / 16 == hi && b[0] % 16 == lo;
      assert b[1..] == DecodeHex(s[2..]).value;
      HexDigitValue(s[0]);
      HexDigitValue(s[1]);
      EncodeDecodeHex(s[2..]);
      assert Strings.ToLower(s) == [Strings.LowerChar(s[0]), Strings.LowerChar(s[1])] + Strings.ToLower(s[2..]);
    }
  }

  /** A 36-character text that parses is the canonical text of its identifier up
      to letter case: formatting the parsed identifier gives the text in lower case. */
  lemma FormatParse(s: string)
    requires |s| == 36 && Parse(s).Ok?
    ensures Format(Parse(s).value) == Strings.ToLower(s)
  {
    var d := DashedDigits(s);
    EncodeDecodeHex(d);
    var h := EncodeHex(Parse(s).value);
    assert h == Strings.ToLower(d);
    var l := Strings.ToLower(s);
    forall k | 0 <= k < 32
      ensures h[k] == l[if k < 8 then k else if k < 12 then k + 1 else if k < 16 then k + 2 else if k < 20 then k + 3 else k + 4]
    {
      assert d[k] == s[if k < 8 then k else if k < 12 then k + 1 else if k < 16 then k + 2 else if k < 20 then k + 3 else k + 4];
    }
    assert h[..8] == l[..8];
    assert h[8..12] == l[9..13];
    assert h[12..16] == l[14..18];
    assert h[16..20] == l[19..23];
    assert h[20..] == l[24..];
    assert l[8] == '-' && l[13] == '-' && l[18] == '-' && l[23] == '-';
    assert l == l[..8] + "-" + l[9..13] + "-" + l[14..18] + "-" + l[19..23] + "-" + l[24..];
  }
}
