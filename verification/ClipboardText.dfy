/** Reading clipboard text: a scan that stops early, and the lossy decoding of UTF-16. */
module ClipboardText {
  import opened Prelude

  type Unit = n: nat | n < 0x1_0000

  const USIZE_MAX: nat := 0xffff_ffff_ffff_ffff
  const REPLACEMENT: char := '\U{FFFD}'

  predicate IsHigh(u: Unit) {
    0xD800 <= u <= 0xDBFF
  }

  predicate IsLow(u: Unit) {
    0xDC00 <= u <= 0xDFFF
  }

  /** The code point of a surrogate pair (section 2.2 of RFC 2781). */
  function FromPair(high: Unit, low: Unit): (r: char)
    requires IsHigh(high) && IsLow(low)
    ensures 0x1_0000 <= r as int
  {
    (0x1_0000 + (high - 0xD800) * 0x400 + (low - 0xDC00)) as char
  }

  /** How many units the first character takes. */
  function FirstWidth(units: seq<Unit>): (n: nat)
    requires units != []
    ensures 1 <= n <= 2 && n <= |units|
  {
    if |units| > 1 && IsHigh(units[0]) && IsLow(units[1]) then 2 else 1
  }

  function FirstChar(units: seq<Unit>): char
    requires units != []
  {
    if FirstWidth(units) == 2 then FromPair(units[0], units[1])
    else if IsHigh(units[0]) || IsLow(units[0]) then REPLACEMENT
    else units[0] as char
  }

  /** Surrogates without a partner become replacement characters. */
  function LossyDecode(units: seq<Unit>): string {
    if units == [] then "" else [FirstChar(units)] + LossyDecode(units[FirstWidth(units)..])
  }

  /** Unit by unit: a pair is one character, a surrogate alone becomes U+FFFD and takes nothing with it, and
      every other unit is the character of its number. */
  lemma DecodeStep(units: seq<Unit>)
    requires units != []
    ensures var text, lone := LossyDecode(units), 0xD800 <= units[0] <= 0xDFFF;
      if |units| > 1 && 0xD800 <= units[0] <= 0xDBFF && 0xDC00 <= units[1] <= 0xDFFF then
        && text[1..] == LossyDecode(units[2..])
        && text[0] as int == 0x1_0000 + 1024 * (units[0] as int - 0xD800) + (units[1] as int - 0xDC00)
      else text[1..] == LossyDecode(units[1..]) && text[0] as int == if lone then 0xFFFD else units[0]
  {
  }

  function Encode(c: char): (r: seq<Unit>)
    ensures 1 <= |r| <= 2
  {
    var n := c as int;
    if n < 0x1_0000 then [n] else [0xD800 + (n - 0x1_0000) / 0x400, 0xDC00 + (n - 0x1_0000) % 0x400]
  }

  function EncodeAll(text: string): seq<Unit> {
    if text == "" then [] else Encode(text[0]) + EncodeAll(text[1..])
  }

  /** Text that was encoded properly comes back unchanged. */
  lemma {:induction false} DecodeInvertsEncode(text: string)
    ensures LossyDecode(EncodeAll(text)) == text
  {
    if text != "" {
      var units := EncodeAll(text);
      assert units[|Encode(text[0])|..] == EncodeAll(text[1..]);
      FirstOfEncoding(text[0], EncodeAll(text[1..]));
      DecodeInvertsEncode(text[1..]);
    }
  }

  lemma FirstOfEncoding(c: char, rest: seq<Unit>)
    ensures FirstWidth(Encode(c) + rest) == |Encode(c)| && FirstChar(Encode(c) + rest) == c
  {
    var n := c as int;
    if n >= 0x1_0000 {
      assert n == 0x1_0000 + (n - 0x1_0000) / 0x400 * 0x400 + (n - 0x1_0000) % 0x400;
    }
  }

  /** A character takes one unit or two, also where the text is damaged. */
  lemma {:induction false} CharsAndUnits(units: seq<Unit>)
    ensures |LossyDecode(units)| <= |units| <= 2 * |LossyDecode(units)|
  {
    if units != [] {
      CharsAndUnits(units[FirstWidth(units)..]);
    }
  }

  /** The units in front of the terminator, or all of them if there is none. */
  function UntilNul(buffer: seq<Unit>): (r: seq<Unit>)
    ensures r <= buffer && 0 !in r && (|r| < |buffer| ==> buffer[|r|] == 0)
  {
    if buffer == [] || buffer[0] == 0 then [] else [buffer[0]] + UntilNul(buffer[1..])
  }

  function SaturatingDouble(n: nat): nat {
    Min(2 * n, USIZE_MAX)
  }

  function Utf16ScanLimit(maxLen: nat, maxWords: nat): nat {
    if maxLen == 0 then maxWords else Min(Min(SaturatingDouble(maxLen) + 1, USIZE_MAX), maxWords)
  }

  datatype TextRead = Text(text: string) | TooLong

  /** Reads at most `2 * maxLen + 1` units, and decodes only what may still be short enough. */
  method GetText(buffer: seq<Unit>, maxLen: nat) returns (r: TextRead, scanned: nat)
    requires 2 * |buffer| <= USIZE_MAX
    ensures scanned <= |buffer| && (maxLen > 0 ==> scanned <= 2 * maxLen + 1)
    ensures r == if maxLen > 0 && |UntilNul(buffer)| > 2 * maxLen then TooLong else Text(LossyDecode(UntilNul(buffer)))
  {
    var limit := Utf16ScanLimit(maxLen, |buffer|);
    var len := 0;
    while len < limit && buffer[len] != 0
      invariant len <= limit && len <= |UntilNul(buffer)|
    {
      NotNulYet(buffer, len);
      len := len + 1;
    }
    scanned := len;
    assert len < limit ==> len == |UntilNul(buffer)|;
    if maxLen > 0 && len > SaturatingDouble(maxLen) {
      return TooLong, scanned;
    }
    assert buffer[..len] == UntilNul(buffer);
    return Text(LossyDecode(buffer[..len])), scanned;
  }

  lemma NotNulYet(buffer: seq<Unit>, len: nat)
    requires len < |buffer| && len <= |UntilNul(buffer)| && buffer[len] != 0
    ensures len < |UntilNul(buffer)|
  {
  }

  /** The text that a clipboard change leads to, if any: exactly what a scan without a bound accepts. */
  method AcceptClipboardText(buffer: seq<Unit>, maxLen: nat) returns (accepted: Option<string>)
    requires 2 * |buffer| <= USIZE_MAX
    ensures var text := LossyDecode(UntilNul(buffer));
            accepted == if maxLen == 0 || |text| <= maxLen then Some(text) else None
  {
    CharsAndUnits(UntilNul(buffer));
    var read, _ := GetText(buffer, maxLen);
    match read {
      case TooLong => return None;
      case Text(text) =>
        if maxLen > 0 && |text| > maxLen {
          return None;
        }
        return Some(text);
    }
  }

  function Pairs(count: nat): (r: seq<Unit>)
    ensures |r| == 2 * count && 0 !in r
  {
    if count == 0 then [] else [0xD800, 0xDC00] + Pairs(count - 1)
  }

  /** The bound cannot be lower: `2 * maxLen` units may be a text of `maxLen` characters. */
  lemma {:induction false} BoundIsTight(maxLen: nat)
    ensures |Pairs(maxLen)| == 2 * maxLen && |LossyDecode(Pairs(maxLen))| == maxLen
  {
    if maxLen > 0 {
      assert Pairs(maxLen)[2..] == Pairs(maxLen - 1);
      BoundIsTight(maxLen - 1);
    }
  }
}
