/** Taking the answer for a batch apart again: EzTrans puts a space on either side of a line break
    unless the original already had white space there, and only added spaces are removed. */
module EzTransSplit {
  import opened Prelude
  import opened EzTransWindow

  /** `str::split('\n')`. */
  function SplitLf(text: string): (r: seq<string>)
    ensures |r| >= 1
  {
    if text == [] then [[]]
    else if text[0] == '\n' then [[]] + SplitLf(text[1..])
    else [[text[0]] + SplitLf(text[1..])[0]] + SplitLf(text[1..])[1..]
  }

  predicate EndsWith(text: string, c: char) {
    text != [] && text[|text| - 1] == c
  }

  function StripSuffix(text: string, c: char): string {
    if EndsWith(text, c) then text[..|text| - 1] else text
  }

  function StripPrefix(text: string, c: char): string {
    if text != [] && text[0] == c then text[1..] else text
  }

  predicate StartsBlank(text: string) {
    text != [] && IsWhitespace(text[0])
  }

  predicate EndsBlank(text: string) {
    text != [] && IsWhitespace(text[|text| - 1])
  }

  /** Removes from piece `i` of `n` the spaces that were not in the original. */
  function Restore(piece: string, original: string, i: nat, n: nat): string {
    var head := if i > 0 && !StartsBlank(original) then StripPrefix(piece, ' ') else piece;
    if i + 1 < n && !EndsBlank(original) then StripSuffix(head, ' ') else head
  }

  /** What is taken from a piece: a carriage return before the line break is not part of it. */
  function PartOf(piece: string, original: string, i: nat, n: nat): string {
    Restore(StripSuffix(piece, '\r'), original, i, n)
  }

  /** One part per original, or nothing when the numbers differ. */
  function PartsOf(translated: string, originals: seq<string>): Option<seq<string>> {
    var pieces := SplitLf(translated);
    if |pieces| != |originals| then None
    else Some(seq(|pieces|, i requires 0 <= i < |pieces| => PartOf(pieces[i], originals[i], i, |pieces|)))
  }

  method SplitBatch(translated: string, originals: seq<string>) returns (r: Option<seq<string>>)
    ensures r == PartsOf(translated, originals)
  {
    hide PartOf, SplitLf;
    var pieces := SplitLf(translated);
    if |pieces| != |originals| {
      return None;
    }
    var parts: seq<string> := [];
    for i := 0 to |pieces|
      invariant |parts| == i
      invariant forall k :: 0 <= k < i ==> parts[k] == PartOf(pieces[k], originals[k], k, |pieces|)
    {
      var part := TakePart(pieces[i], originals[i], i, |pieces|);
      parts := parts + [part];
    }
    assert parts == PartsOf(translated, originals).value;
    return Some(parts);
  }

  /** The body of the loop. */
  method TakePart(piece: string, original: string, i: nat, n: nat) returns (part: string)
    requires i < n
    ensures part == PartOf(piece, original, i, n)
  {
    part := StripSuffix(piece, '\r');
    if i > 0 && !StartsBlank(original) {
      part := StripPrefix(part, ' ');
    }
    if i < n - 1 && !EndsBlank(original) {
      part := StripSuffix(part, ' ');
    }
  }

  // ---- what EzTrans does to a batch ----

  function Spaced(part: string, original: string, i: nat, n: nat): string {
    (if i > 0 && !StartsBlank(original) then " " else "") + part
    + (if i + 1 < n && !EndsBlank(original) then " " else "")
  }

  /** EzTrans adds one space on a side of the piece that faces a line break, exactly if the original is empty or
      has no white space at that end; nothing else is added. */
  lemma SpacesAdded(part: string, original: string, i: nat, n: nat) returns (lead: string, tail: string)
    ensures Spaced(part, original, i, n) == lead + part + tail
    ensures lead == if i > 0 && (original == "" || original[0] as int !in WHITE_SPACE) then " " else ""
    ensures tail ==
      if i + 1 < n && (original == "" || original[|original| - 1] as int !in WHITE_SPACE) then " " else ""
  {
    if original != "" {
      WhitespaceIsListed(original[0]);
      WhitespaceIsListed(original[|original| - 1]);
    }
    hide IsWhitespace;
    lead := if i > 0 && !StartsBlank(original) then " " else "";
    tail := if i + 1 < n && !EndsBlank(original) then " " else "";
  }

  function LineBreak(crlf: bool): string {
    if crlf then "\r\n" else "\n"
  }

  /** The pieces from number `i` on, put together with line breaks. */
  function Joined(parts: seq<string>, originals: seq<string>, crlf: bool, i: nat): string
    requires |parts| == |originals| && i < |parts|
    decreases |parts| - i
  {
    var piece := Spaced(parts[i], originals[i], i, |parts|);
    if i + 1 == |parts| then piece else piece + LineBreak(crlf) + Joined(parts, originals, crlf, i + 1)
  }

  /** A piece as it stands between two line feeds. */
  function Shown(part: string, original: string, i: nat, n: nat, crlf: bool): string {
    if crlf && i + 1 < n then Spaced(part, original, i, n) + "\r" else Spaced(part, original, i, n)
  }

  /** The translation does not look like a line break: it holds no line feed, and a carriage return at its
      end is followed by that of the line break. */
  predicate Clean(part: string, original: string, i: nat, n: nat, crlf: bool) {
    '\n' !in part && ((crlf && i + 1 < n) || !EndsWith(Spaced(part, original, i, n), '\r'))
  }

  lemma {:induction false} SplitAcross(a: string, b: string)
    requires '\n' !in a
    ensures SplitLf(a + "\n" + b) == [a] + SplitLf(b)
  {
    if a == [] {
      assert a + "\n" + b == "\n" + b;
      assert ("\n" + b)[1..] == b;
    } else {
      SplitAcross(a[1..], b);
      assert (a + "\n" + b)[1..] == a[1..] + "\n" + b;
      assert [a[0]] + a[1..] == a;
    }
  }

  lemma {:induction false} SplitOne(a: string)
    requires '\n' !in a
    ensures SplitLf(a) == [a]
  {
    if a != [] {
      SplitOne(a[1..]);
      assert [a[0]] + a[1..] == a;
    }
  }

  lemma RestoreSpaced(part: string, original: string, i: nat, n: nat)
    ensures Restore(Spaced(part, original, i, n), original, i, n) == part
  {
    var lead := if i > 0 && !StartsBlank(original) then " " else "";
    var tail := if i + 1 < n && !EndsBlank(original) then " " else "";
    assert lead + part + tail == lead + (part + tail);
    assert lead == " " ==> (lead + (part + tail))[1..] == part + tail;
    assert (part + tail)[..|part|] == part;
  }

  lemma {:induction false} SplitCount(a: string, b: string)
    ensures |SplitLf(a + "\n" + b)| == |SplitLf(a)| + |SplitLf(b)|
  {
    if a == [] {
      assert a + "\n" + b == "\n" + b;
      assert ("\n" + b)[1..] == b;
    } else {
      SplitCount(a[1..], b);
      assert (a + "\n" + b)[1..] == a[1..] + "\n" + b;
    }
  }

  lemma {:induction false} SplitWithLf(a: string)
    requires '\n' in a
    ensures |SplitLf(a)| >= 2
  {
    if a[0] != '\n' {
      assert a == [a[0]] + a[1..];
      SplitWithLf(a[1..]);
    }
  }

  lemma ShownHasLf(part: string, original: string, i: nat, n: nat, crlf: bool)
    ensures '\n' in part <==> '\n' in Shown(part, original, i, n, crlf)
  {
  }

  lemma JoinedStep(parts: seq<string>, originals: seq<string>, crlf: bool, i: nat)
    requires |parts| == |originals| && i < |parts|
    ensures var piece := Shown(parts[i], originals[i], i, |parts|, crlf);
      Joined(parts, originals, crlf, i) ==
        if i + 1 == |parts| then piece else piece + "\n" + Joined(parts, originals, crlf, i + 1)
  {
    hide Spaced;
  }

  /** A stray line feed in any part makes the numbers differ. */
  lemma {:induction false} StrayLfIsNoticed(parts: seq<string>, originals: seq<string>, crlf: bool, i: nat)
    requires |parts| == |originals| && i < |parts|
    ensures |SplitLf(Joined(parts, originals, crlf, i))| >= |parts| - i
    ensures (exists k :: i <= k < |parts| && '\n' in parts[k])
      ==> |SplitLf(Joined(parts, originals, crlf, i))| > |parts| - i
    decreases |parts| - i
  {
    hide SplitLf, Shown, Joined;
    var piece := Shown(parts[i], originals[i], i, |parts|, crlf);
    ShownHasLf(parts[i], originals[i], i, |parts|, crlf);
    JoinedStep(parts, originals, crlf, i);
    if '\n' in parts[i] {
      SplitWithLf(piece);
    }
    if i + 1 < |parts| {
      StrayLfIsNoticed(parts, originals, crlf, i + 1);
      SplitCount(piece, Joined(parts, originals, crlf, i + 1));
    }
  }

  lemma {:induction false} PiecesWithoutLf(parts: seq<string>, originals: seq<string>, crlf: bool, i: nat)
    requires |parts| == |originals| && i < |parts|
    requires forall k :: 0 <= k < |parts| ==> '\n' !in parts[k]
    ensures |SplitLf(Joined(parts, originals, crlf, i))| == |parts| - i
    ensures forall k :: i <= k < |parts| ==>
      SplitLf(Joined(parts, originals, crlf, i))[k - i] == Shown(parts[k], originals[k], k, |parts|, crlf)
    decreases |parts| - i
  {
    hide SplitLf, Shown, Joined;
    var piece := Shown(parts[i], originals[i], i, |parts|, crlf);
    ShownHasLf(parts[i], originals[i], i, |parts|, crlf);
    JoinedStep(parts, originals, crlf, i);
    if i + 1 == |parts| {
      SplitOne(piece);
    } else {
      PiecesWithoutLf(parts, originals, crlf, i + 1);
      SplitAcross(piece, Joined(parts, originals, crlf, i + 1));
    }
  }

  lemma StripsTooMuch(part: string, original: string, i: nat, n: nat)
    requires EndsWith(Spaced(part, original, i, n), '\r')
    ensures Restore(StripSuffix(Spaced(part, original, i, n), '\r'), original, i, n) != part
  {
    var lead := if i > 0 && !StartsBlank(original) then " " else "";
    var whole := Spaced(part, original, i, n);
    assert whole == lead + part;
    assert whole[..|whole| - 1] == lead + part[..|part| - 1];
    assert lead == " " ==> whole[..|whole| - 1][1..] == part[..|part| - 1];
  }

  lemma PieceRecovered(part: string, original: string, i: nat, n: nat, crlf: bool)
    requires '\n' !in part
    ensures PartOf(Shown(part, original, i, n, crlf), original, i, n) == part <==> Clean(part, original, i, n, crlf)
  {
    hide Restore, Spaced;
    RestoreSpaced(part, original, i, n);
    var piece := Spaced(part, original, i, n);
    if crlf && i + 1 < n {
      assert StripSuffix(piece + "\r", '\r') == piece;
    } else if EndsWith(piece, '\r') {
      StripsTooMuch(part, original, i, n);
    }
  }

  /** The batch EzTrans returns is taken apart into exactly the translations it was made of, if and only if
      none of them looks like a line break. */
  lemma RecoveredIffClean(parts: seq<string>, originals: seq<string>, crlf: bool)
    requires 0 < |parts| == |originals|
    ensures PartsOf(Joined(parts, originals, crlf, 0), originals) == Some(parts)
        <==> forall k :: 0 <= k < |parts| ==> Clean(parts[k], originals[k], k, |parts|, crlf)
  {
    if exists k :: 0 <= k < |parts| && '\n' in parts[k] {
      StrayLfIsNoticed(parts, originals, crlf, 0);
    } else {
      RecoveredWithoutLf(parts, originals, crlf);
    }
  }

  lemma RecoveredWithoutLf(parts: seq<string>, originals: seq<string>, crlf: bool)
    requires 0 < |parts| == |originals|
    requires forall k :: 0 <= k < |parts| ==> '\n' !in parts[k]
    ensures PartsOf(Joined(parts, originals, crlf, 0), originals) == Some(parts)
        <==> forall k :: 0 <= k < |parts| ==> Clean(parts[k], originals[k], k, |parts|, crlf)
  {
    hide SplitLf, Joined, PartOf, Shown, Clean;
    PiecesWithoutLf(parts, originals, crlf, 0);
    var pieces, n := SplitLf(Joined(parts, originals, crlf, 0)), |parts|;
    var r := PartsOf(Joined(parts, originals, crlf, 0), originals).value;
    forall k | 0 <= k < n
      ensures r[k] == parts[k] <==> Clean(parts[k], originals[k], k, n, crlf)
    {
      assert pieces[k - 0] == pieces[k];
      PieceRecovered(parts[k], originals[k], k, n, crlf);
    }
    assert r == parts <==> forall k :: 0 <= k < n ==> r[k] == parts[k];
  }
}
