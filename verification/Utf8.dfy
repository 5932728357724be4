/** UTF-8 as a scanner over bytes (what `std::str::from_utf8` reports), anchored to the encoding
    of section 3 of RFC 3629 and the byte table of its section 4. */
module Utf8 {
  import opened Prelude

  type byte = b: int | 0 <= b < 256

  /** A `char` is a Unicode scalar value, so a `string` is what Rust calls a `str`. */
  function Encode(ch: char): seq<byte> {
    var c := ch as int;
    if c < 0x80 then [c]
    else if c < 0x800 then [0xC0 + c / 64, 0x80 + c % 64]
    else if c < 0x1_0000 then [0xE0 + c / 4096, 0x80 + c / 64 % 64, 0x80 + c % 64]
    else [0xF0 + c / 262144, 0x80 + c / 4096 % 64, 0x80 + c / 64 % 64, 0x80 + c % 64]
  }

  function EncodeAll(text: string): seq<byte> {
    if text == [] then [] else Encode(text[0]) + EncodeAll(text[1..])
  }

  /** What stands at the front of a byte string. */
  datatype Head = Char(len: nat) | NeedMore | Bad

  function Width(lead: byte): nat {
    if lead < 0x80 then 1
    else if 0xC2 <= lead <= 0xDF then 2
    else if 0xE0 <= lead <= 0xEF then 3
    else if 0xF0 <= lead <= 0xF4 then 4
    else 0
  }

  predicate Tail(b: byte) {
    0x80 <= b <= 0xBF
  }

  predicate SecondByte(lead: byte, b: byte) {
    if lead == 0xE0 then 0xA0 <= b <= 0xBF
    else if lead == 0xED then 0x80 <= b <= 0x9F
    else if lead == 0xF0 then 0x90 <= b <= 0xBF
    else if lead == 0xF4 then 0x80 <= b <= 0x8F
    else Tail(b)
  }

  function HeadOf(b: seq<byte>): (h: Head)
    requires b != []
    ensures h.Char? ==> 0 < h.len <= |b|
  {
    var w := Width(b[0]);
    if w == 0 then Bad
    else if w == 1 then Char(1)
    else if |b| < 2 then NeedMore
    else if !SecondByte(b[0], b[1]) then Bad
    else if w == 2 then Char(2)
    else if |b| < 3 then NeedMore
    else if !Tail(b[2]) then Bad
    else if w == 3 then Char(3)
    else if |b| < 4 then NeedMore
    else if !Tail(b[3]) then Bad
    else Char(4)
  }

  /** `Incomplete` is the error whose `error_len` is `None`: the input ends inside a sequence. */
  datatype Scan = Valid | Incomplete(validUpTo: nat) | Invalid(validUpTo: nat) {
    function Shift(n: nat): Scan {
      match this
      case Valid => Valid
      case Incomplete(k) => Incomplete(n + k)
      case Invalid(k) => Invalid(n + k)
    }
  }

  function FromUtf8(b: seq<byte>): (r: Scan)
    ensures !r.Valid? ==> r.validUpTo < |b|
  {
    if b == [] then Valid
    else match HeadOf(b)
      case Char(n) => FromUtf8(b[n..]).Shift(n)
      case NeedMore => Incomplete(0)
      case Bad => Invalid(0)
  }

  predicate WellFormed(b: seq<byte>) {
    FromUtf8(b).Valid?
  }

  // ---- the scanner accepts exactly the encodings ----

  lemma EncodingMatchesTable(c: char)
    ensures 1 <= |Encode(c)| <= 4 && Width(Encode(c)[0]) == |Encode(c)|
    ensures |Encode(c)| >= 2 ==> SecondByte(Encode(c)[0], Encode(c)[1])
    ensures forall i :: 2 <= i < |Encode(c)| ==> Tail(Encode(c)[i])
  {
    var x := c as int;
    if 0x800 <= x < 0x1_0000 {
      DivideTwice(x);
    } else if 0x1_0000 <= x {
      DivideThrice(x);
    }
  }

  lemma HeadOfEncoding(c: char, rest: seq<byte>)
    ensures HeadOf(Encode(c) + rest) == Char(|Encode(c)|)
  {
    hide Encode, Width, SecondByte, Tail;
    EncodingMatchesTable(c);
    var e := Encode(c);
    assert forall i :: 0 <= i < |e| ==> (e + rest)[i] == e[i];
  }

  lemma Sextet(q: nat, r: nat)
    requires r < 64
    ensures (q * 64 + r) / 64 == q && (q * 64 + r) % 64 == r
  {
  }

  lemma DivideTwice(x: nat)
    ensures x / 64 / 64 == x / 4096
  {
  }

  lemma DivideThrice(x: nat)
    ensures x / 64 / 4096 == x / 262144
  {
  }

  /** The number whose base-64 digits are `high`, `b`, `c` and `d`. */
  function FromSextets(high: nat, b: nat, c: nat, d: nat): (x: nat)
    requires b < 64 && c < 64 && d < 64
    ensures x / 262144 == high && x / 4096 % 64 == b && x / 64 % 64 == c && x % 64 == d
    ensures high == 0 ==> x / 4096 == b
    ensures high == 0 && b == 0 ==> x / 64 == c
  {
    var y := high * 64 + b;
    var z := y * 64 + c;
    var x := z * 64 + d;
    Sextet(high, b);
    Sextet(y, c);
    Sextet(z, d);
    DivideTwice(x);
    DivideTwice(z);
    x
  }

  function DecodeHead(b: seq<byte>): (c: char)
    requires b != [] && HeadOf(b).Char?
    ensures Encode(c) == b[..HeadOf(b).len]
  {
    var n := HeadOf(b).len;
    if n == 1 then b[0] as char
    else if n == 2 then FromSextets(0, 0, b[0] - 0xC0, b[1] - 0x80) as char
    else if n == 3 then FromSextets(0, b[0] - 0xE0, b[1] - 0x80, b[2] - 0x80) as char
    else DecodeFour(b)
  }

  function DecodeFour(b: seq<byte>): (c: char)
    requires b != [] && HeadOf(b) == Char(4)
    ensures Encode(c) == b[..4]
  {
    FromSextets(b[0] - 0xF0, b[1] - 0x80, b[2] - 0x80, b[3] - 0x80) as char
  }

  /** `String::from_utf8` on well-formed bytes. */
  function Decode(b: seq<byte>): (text: string)
    requires WellFormed(b)
    ensures EncodeAll(text) == b
  {
    if b == [] then [] else
      var n := HeadOf(b).len;
      EncodeCons(DecodeHead(b), Decode(b[n..]), b, n);
      [DecodeHead(b)] + Decode(b[n..])
  }

  lemma EncodeCons(c: char, rest: string, b: seq<byte>, n: nat)
    requires n <= |b| && Encode(c) == b[..n] && EncodeAll(rest) == b[n..]
    ensures EncodeAll([c] + rest) == b
  {
    assert ([c] + rest)[1..] == rest;
  }

  lemma {:induction false} EncodingIsWellFormed(text: string)
    ensures WellFormed(EncodeAll(text))
  {
    if text != [] {
      var b := EncodeAll(text);
      HeadOfEncoding(text[0], EncodeAll(text[1..]));
      assert b[|Encode(text[0])|..] == EncodeAll(text[1..]);
      EncodingIsWellFormed(text[1..]);
    }
  }

  /** The scanner accepts exactly the byte strings that encode some text. */
  lemma WellFormedIffEncoding(b: seq<byte>)
    ensures WellFormed(b) <==> exists text :: EncodeAll(text) == b
  {
    if WellFormed(b) {
      assert EncodeAll(Decode(b)) == b;
    }
    forall text | EncodeAll(text) == b
      ensures WellFormed(b)
    {
      EncodingIsWellFormed(text);
    }
  }

  lemma Recompose(x: nat)
    ensures x == x / 262144 * 262144 + x / 4096 % 64 * 4096 + x / 64 % 64 * 64 + x % 64
  {
    var y := x / 64;
    var z := y / 64;
    DivideTwice(x);
    DivideTwice(y);
    DivideThrice(x);
    assert y == z * 64 + y % 64 && z == z / 64 * 64 + z % 64;
  }

  lemma EncodeIsInjective(c: char, d: char)
    requires Encode(c) == Encode(d)
    ensures c == d
  {
    hide Encode, CodePoint;
    EncodedCodePoint(c);
    EncodedCodePoint(d);
  }

  /** The number that the bytes of one character stand for. */
  function CodePoint(e: seq<int>): int
    requires 1 <= |e| <= 4
  {
    if |e| == 1 then e[0]
    else if |e| == 2 then (e[0] - 0xC0) * 64 + (e[1] - 0x80)
    else if |e| == 3 then (e[0] - 0xE0) * 4096 + (e[1] - 0x80) * 64 + (e[2] - 0x80)
    else (e[0] - 0xF0) * 262144 + (e[1] - 0x80) * 4096 + (e[2] - 0x80) * 64 + (e[3] - 0x80)
  }

  lemma EncodedCodePoint(c: char)
    ensures 1 <= |Encode(c)| <= 4 && CodePoint(Encode(c)) == c as int
  {
    var x := c as int;
    Recompose(x);
  }

  lemma {:induction false} DecodeInvertsEncode(text: string)
    ensures WellFormed(EncodeAll(text)) && Decode(EncodeAll(text)) == text
  {
    EncodingIsWellFormed(text);
    if text != [] {
      var b := EncodeAll(text);
      HeadOfEncoding(text[0], EncodeAll(text[1..]));
      var n := |Encode(text[0])|;
      assert b[..n] == Encode(text[0]) && b[n..] == EncodeAll(text[1..]);
      EncodeIsInjective(DecodeHead(b), text[0]);
      DecodeInvertsEncode(text[1..]);
    }
  }

  lemma {:induction false} EncodeConcat(a: string, b: string)
    ensures EncodeAll(a + b) == EncodeAll(a) + EncodeAll(b)
  {
    if a == [] {
      assert a + b == b;
    } else {
      EncodeConcat(a[1..], b);
      assert (a + b)[1..] == a[1..] + b;
      Associate(Encode(a[0]), EncodeAll(a[1..]), EncodeAll(b));
    }
  }

  /** The scanner asks for more bytes exactly on the proper, non-empty prefixes of one encoding. */
  lemma NeedMoreIsProperPrefix(b: seq<byte>)
    requires b != []
    ensures HeadOf(b).NeedMore? <==> exists c: char :: b < Encode(c)
  {
    hide HeadOf, Encode;
    if HeadOf(b).NeedMore? {
      var c := Completion(b);
      assert b < Encode(c);
    }
    forall c: char | b < Encode(c)
      ensures HeadOf(b).NeedMore?
    {
      PrefixNeedsMore(b, c);
    }
  }

  lemma PrefixNeedsMore(b: seq<byte>, c: char)
    requires b != [] && b < Encode(c)
    ensures HeadOf(b).NeedMore?
  {
    hide Encode, Width, SecondByte, Tail;
    EncodingMatchesTable(c);
    var e := Encode(c);
    assert |b| < |e| && forall i :: 0 <= i < |b| ==> b[i] == e[i];
  }

  lemma Completion(b: seq<byte>) returns (c: char)
    requires b != [] && HeadOf(b).NeedMore?
    ensures b < Encode(c)
  {
    var second := if |b| > 1 then b[1]
                  else if b[0] == 0xE0 then 0xA0 else if b[0] == 0xF0 then 0x90 else 0x80;
    var third := if |b| > 2 then b[2] else 0x80;
    var full: seq<byte> := match Width(b[0])
                           case 2 => [b[0], second]
                           case 3 => [b[0], second, third]
                           case _ => [b[0], second, third, 0x80];
    c := DecodeHead(full);
    assert full[..|full|] == full;
  }

  // ---- how the scanner behaves on pieces ----

  lemma HeadIsStable(a: seq<byte>, b: seq<byte>)
    requires a != [] && !HeadOf(a).NeedMore?
    ensures HeadOf(a + b) == HeadOf(a)
  {
  }

  lemma {:induction false} ScanAfterValid(a: seq<byte>, b: seq<byte>)
    requires WellFormed(a)
    ensures FromUtf8(a + b) == FromUtf8(b).Shift(|a|)
  {
    if a == [] {
      assert a + b == b;
    } else {
      var n := HeadOf(a).len;
      HeadIsStable(a, b);
      assert (a + b)[n..] == a[n..] + b;
      ScanAfterValid(a[n..], b);
    }
  }

  lemma {:induction false} InvalidIsFinal(a: seq<byte>, b: seq<byte>)
    requires FromUtf8(a).Invalid?
    ensures FromUtf8(a + b) == FromUtf8(a)
  {
    HeadIsStable(a, b);
    if HeadOf(a).Char? {
      var n := HeadOf(a).len;
      assert (a + b)[n..] == a[n..] + b;
      InvalidIsFinal(a[n..], b);
    }
  }

  /** The bytes before the reported offset are well formed; what follows is the error itself. */
  lemma {:induction false} SplitAtError(b: seq<byte>)
    requires !WellFormed(b)
    ensures WellFormed(b[..FromUtf8(b).validUpTo])
    ensures FromUtf8(b[FromUtf8(b).validUpTo..]) == (if FromUtf8(b).Invalid? then Invalid(0) else Incomplete(0))
    ensures FromUtf8(b).Incomplete? ==> HeadOf(b[FromUtf8(b).validUpTo..]).NeedMore?
  {
    hide HeadOf;
    if HeadOf(b).Char? {
      var n := HeadOf(b).len;
      SplitAtError(b[n..]);
      OneCharIsWellFormed(b, n);
      JoinSplit(b[..n], b[n..], FromUtf8(b[n..]).validUpTo);
      assert b == b[..n] + b[n..];
    } else {
      assert b[0..] == b;
    }
  }

  lemma JoinSplit(a: seq<byte>, b: seq<byte>, k: nat)
    requires k <= |b| && WellFormed(a) && WellFormed(b[..k])
    ensures WellFormed((a + b)[..|a| + k]) && (a + b)[|a| + k..] == b[k..]
  {
    ScanAfterValid(a, b[..k]);
    assert (a + b)[..|a| + k] == a + b[..k];
  }

  lemma OneCharIsWellFormed(b: seq<byte>, n: nat)
    requires b != [] && HeadOf(b) == Char(n)
    ensures WellFormed(b[..n])
  {
    assert HeadOf(b[..n]) == Char(n);
    assert b[..n][n..] == [];
  }

  /** The reported offset is the length of the longest well-formed prefix. */
  lemma ErrorOffsetIsLongestPrefix(b: seq<byte>, j: nat)
    requires !WellFormed(b) && FromUtf8(b).validUpTo < j <= |b|
    ensures !WellFormed(b[..j])
  {
    if WellFormed(b[..j]) {
      WellFormedPrefixIsShort(b[..j], b[j..], b);
    }
  }

  lemma WellFormedPrefixIsShort(a: seq<byte>, rest: seq<byte>, b: seq<byte>)
    requires a + rest == b && WellFormed(a) && !WellFormed(b)
    ensures |a| <= FromUtf8(b).validUpTo
  {
    ScanAfterValid(a, rest);
  }
}
