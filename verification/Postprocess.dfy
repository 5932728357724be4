/** Rewriting a translation with a dictionary, in one pass from left to right. */
module Postprocess {
  import opened Prelude
  import opened Utf8

  // ---- searching ----

  /** The source that is taken where `text` begins: the longest one, the earliest among equals. */
  function Best<T(==)>(sources: seq<seq<T>>, text: seq<T>): (r: Option<nat>)
    ensures r.Some? ==>
      && r.value < |sources| && sources[r.value] <= text
      && forall k :: 0 <= k < |sources| && sources[k] <= text ==>
           |sources[k]| < |sources[r.value]| || (|sources[k]| == |sources[r.value]| && r.value <= k)
    ensures r.None? ==> forall k :: 0 <= k < |sources| ==> !(sources[k] <= text)
  {
    if sources == [] then None else
      var n := |sources| - 1;
      var before := Best(sources[..n], text);
      assert forall k :: 0 <= k < n ==> sources[..n][k] == sources[k];
      if sources[n] <= text && (before.None? || |sources[before.value]| < |sources[n]|) then Some(n) else before
  }

  datatype Match = Match(start: nat, pattern: nat) {
    function Shift(n: nat): Match {
      Match(start + n, pattern)
    }
  }

  /** The leftmost-longest match that the automaton reports. */
  function Find<T(==)>(sources: seq<seq<T>>, text: seq<T>): (r: Option<Match>) {
    var here := Best(sources, text);
    if here.Some? then Some(Match(0, here.value))
    else if text == [] then None
    else
      var later := Find(sources, text[1..]);
      if later.Some? then Some(later.value.Shift(1)) else None
  }

  /** The match starts as early as any source occurs, and is the best one there. */
  lemma {:induction false} FindIsLeftmost<T>(sources: seq<seq<T>>, text: seq<T>)
    ensures var r := Find(sources, text);
      && (r.Some? ==> r.value.start <= |text| && Best(sources, text[r.value.start..]) == Some(r.value.pattern))
      && (r.Some? ==> forall i :: 0 <= i < r.value.start ==> Best(sources, text[i..]) == None)
      && (r.None? ==> forall i :: 0 <= i <= |text| ==> Best(sources, text[i..]) == None)
  {
    hide Best;
    assert text[0..] == text;
    if text != [] {
      FindIsLeftmost(sources, text[1..]);
      forall i | 0 < i <= |text|
        ensures text[i..] == text[1..][i - 1..]
      {
      }
    }
  }

  lemma FindStep<T>(sources: seq<seq<T>>, text: seq<T>)
    ensures Best(sources, text).Some? ==> Find(sources, text) == Some(Match(0, Best(sources, text).value))
    ensures Best(sources, text).None? && text == [] ==> Find(sources, text) == None
    ensures Best(sources, text).None? && text != [] ==>
      Find(sources, text) == if Find(sources, text[1..]).Some? then Some(Find(sources, text[1..]).value.Shift(1))
                             else None
  {
    hide Best;
  }

  // ---- the matcher ----

  datatype Entry<T> = Entry(source: seq<T>, target: seq<T>)

  function Sources<T>(dictionary: seq<Entry<T>>): (r: seq<seq<T>>)
    ensures |r| == |dictionary|
    ensures forall i :: 0 <= i < |r| ==> r[i] == dictionary[i].source
  {
    Map((e: Entry<T>) => e.source, dictionary)
  }

  /** `patternToEntry` leads from the patterns of the automaton to the entries of the dictionary. */
  datatype Matcher<T> = Matcher(dictionary: seq<Entry<T>>, patterns: seq<seq<T>>, patternToEntry: seq<nat>) {
    ghost predicate Valid() {
      && |patterns| == |patternToEntry| > 0
      && (forall i :: 0 <= i < |patterns| ==>
           patternToEntry[i] < |dictionary| && patterns[i] == dictionary[patternToEntry[i]].source != [])
      && (forall i, j :: 0 <= i < j < |patterns| ==> patternToEntry[i] < patternToEntry[j])
      && (forall k :: 0 <= k < |dictionary| && dictionary[k].source != [] ==> k in patternToEntry)
    }
  }

  /** There is no matcher if no entry has a source, or if the automaton cannot be built. */
  method NewMatcher<T(==)>(dictionary: seq<Entry<T>>, built: bool) returns (r: Option<Matcher<T>>)
    ensures r.Some? ==> r.value.Valid() && r.value.dictionary == dictionary
    ensures r.None? <==> !built || forall k :: 0 <= k < |dictionary| ==> dictionary[k].source == []
  {
    var patterns: seq<seq<T>>, patternToEntry: seq<nat> := [], [];
    for n := 0 to |dictionary|
      invariant |patterns| == |patternToEntry|
      invariant forall i :: 0 <= i < |patterns| ==>
        patternToEntry[i] < n && patterns[i] == dictionary[patternToEntry[i]].source != []
      invariant forall i, j :: 0 <= i < j < |patterns| ==> patternToEntry[i] < patternToEntry[j]
      invariant forall k :: 0 <= k < n && dictionary[k].source != [] ==> k in patternToEntry
      invariant patterns == [] <==> forall k :: 0 <= k < n ==> dictionary[k].source == []
    {
      if dictionary[n].source != [] {
        ghost var before := patternToEntry;
        patterns, patternToEntry := patterns + [dictionary[n].source], patternToEntry + [n];
        assert patternToEntry[|before|] == n;
      }
    }
    if patterns == [] || !built {
      return None;
    }
    r := Some(Matcher(dictionary, patterns, patternToEntry));
  }

  /** The entry that applies where `text` begins; entries without a source never do. */
  function EntryHere<T(==)>(dictionary: seq<Entry<T>>, text: seq<T>): (r: Option<nat>)
    ensures r.Some? ==>
      && r.value < |dictionary| && dictionary[r.value].source != [] && dictionary[r.value].source <= text
      && forall k :: 0 <= k < |dictionary| && dictionary[k].source <= text ==>
           |dictionary[k].source| < |dictionary[r.value].source|
           || (|dictionary[k].source| == |dictionary[r.value].source| && r.value <= k)
    ensures r.None? ==> forall k :: 0 <= k < |dictionary| && dictionary[k].source != [] ==>
      !(dictionary[k].source <= text)
  {
    var best := Best(Sources(dictionary), text);
    if best.Some? && dictionary[best.value].source != [] then best else None
  }

  /** The reference: at every place the applicable entry, or one character as it is. */
  function Rewrite<T(==)>(dictionary: seq<Entry<T>>, text: seq<T>): seq<T>
    decreases |text|
  {
    match EntryHere(dictionary, text)
    case Some(k) => dictionary[k].target + Rewrite(dictionary, text[|dictionary[k].source|..])
    case None => if text == [] then [] else [text[0]] + Rewrite(dictionary, text[1..])
  }

  lemma RewriteStep<T>(dictionary: seq<Entry<T>>, text: seq<T>)
    ensures EntryHere(dictionary, text).Some? ==>
      var k := EntryHere(dictionary, text).value;
      Rewrite(dictionary, text) == dictionary[k].target + Rewrite(dictionary, text[|dictionary[k].source|..])
    ensures EntryHere(dictionary, text).None? ==>
      Rewrite(dictionary, text) == if text == [] then [] else [text[0]] + Rewrite(dictionary, text[1..])
  {
    hide EntryHere;
  }

  /** The automaton without the empty sources picks the same entry. */
  lemma PatternsAreEnough<T>(m: Matcher<T>, text: seq<T>)
    requires m.Valid()
    ensures EntryHere(m.dictionary, text)
         == match Best(m.patterns, text) case None => None case Some(p) => Some(m.patternToEntry[p])
  {
    hide Best;
    var best, here := Best(m.patterns, text), EntryHere(m.dictionary, text);
    if here.Some? {
      var p :| 0 <= p < |m.patternToEntry| && m.patternToEntry[p] == here.value;
      assert m.patterns[p] <= text;
      assert best.Some?;
      var q := best.value;
      assert m.dictionary[m.patternToEntry[q]].source <= text;
      assert |m.patterns[q]| == |m.patterns[p]|;
    }
  }

  /** Up to the next match everything stays as it is. */
  lemma {:induction false} RewriteToMatch<T>(m: Matcher<T>, text: seq<T>)
    requires m.Valid()
    ensures Find(m.patterns, text).None? ==> Rewrite(m.dictionary, text) == text
    ensures Find(m.patterns, text).Some? ==>
      var f := Find(m.patterns, text).value;
      && f.pattern < |m.patterns| && f.start + |m.patterns[f.pattern]| <= |text|
      && Rewrite(m.dictionary, text)
         == text[..f.start] + m.dictionary[m.patternToEntry[f.pattern]].target
           + Rewrite(m.dictionary, text[f.start + |m.patterns[f.pattern]|..])
    decreases |text|
  {
    hide Best, EntryHere, Find, Rewrite;
    PatternsAreEnough(m, text);
    PatternFits(m, text);
    FindStep(m.patterns, text);
    RewriteStep(m.dictionary, text);
    if Best(m.patterns, text).Some? {
      assert text[..0] == [];
      var target := m.dictionary[m.patternToEntry[Best(m.patterns, text).value]].target;
      assert [] + target == target;
    } else if text != [] {
      RewriteToMatch(m, text[1..]);
      assert [text[0]] + text[1..] == text;
      if Find(m.patterns, text[1..]).Some? {
        var f := Find(m.patterns, text[1..]).value;
        PutInFront(m, text, f.start, f.start + |m.patterns[f.pattern]|,
                   m.dictionary[m.patternToEntry[f.pattern]].target);
      }
    }
  }

  lemma PatternFits<T>(m: Matcher<T>, text: seq<T>)
    requires m.Valid()
    ensures Best(m.patterns, text).Some? ==>
      Best(m.patterns, text).value < |m.patterns| && |m.patterns[Best(m.patterns, text).value]| <= |text|
  {
  }

  lemma PutInFront<T>(m: Matcher<T>, text: seq<T>, start: nat, end: nat, target: seq<T>)
    requires start <= end < |text|
    ensures [text[0]] + (text[1..][..start] + target + Rewrite(m.dictionary, text[1..][end..]))
         == text[..start + 1] + target + Rewrite(m.dictionary, text[end + 1..])
  {
    hide Rewrite;
    assert text[1..][end..] == text[end + 1..];
    assert [text[0]] + text[1..][..start] == text[..start + 1];
    Associate([text[0]], text[1..][..start] + target, Rewrite(m.dictionary, text[end + 1..]));
    Associate([text[0]], text[1..][..start], target);
  }

  /** Replaces every match, going on behind it, so that no replacement is looked at again. */
  method Apply<T(==)>(m: Matcher<T>, translated: seq<T>) returns (output: seq<T>)
    requires m.Valid()
    ensures output == Rewrite(m.dictionary, translated)
  {
    hide Rewrite, Best, Find;
    RewriteOfNothing(m);
    if translated == [] {
      return translated;
    }
    output := [];
    var cursor := 0;
    assert translated[0..] == translated;
    while cursor < |translated|
      invariant cursor <= |translated|
      invariant Rewrite(m.dictionary, translated) == output + Rewrite(m.dictionary, translated[cursor..])
    {
      var remaining := translated[cursor..];
      var matched := Find(m.patterns, remaining);
      RewriteToMatch(m, remaining);
      if matched.None? {
        output := output + remaining;
        return;
      }
      var start, source := matched.value.start, m.patterns[matched.value.pattern];
      var entry := m.dictionary[m.patternToEntry[matched.value.pattern]];
      assert remaining[start + |source|..] == translated[cursor + start + |source|..];
      Associate(output, remaining[..start] + entry.target, Rewrite(m.dictionary, remaining[start + |source|..]));
      Associate(output, remaining[..start], entry.target);
      output := output + remaining[..start];
      output := output + entry.target;
      cursor := cursor + start + |source|;
    }
    assert translated[|translated|..] == [];
  }

  lemma RewriteOfNothing<T>(m: Matcher<T>)
    requires m.Valid()
    ensures Rewrite(m.dictionary, []) == []
  {
  }

  /** Without a matcher the text is left alone, and that is the same thing. */
  lemma {:induction false} NoSourcesNoChange<T>(dictionary: seq<Entry<T>>, text: seq<T>)
    requires forall k :: 0 <= k < |dictionary| ==> dictionary[k].source == []
    ensures Rewrite(dictionary, text) == text
  {
    if text != [] {
      NoSourcesNoChange(dictionary, text[1..]);
    }
  }

  // ---- one pass, no rescanning ----

  datatype Piece<T> = Kept(element: T) | Replaced(entry: nat)

  function Pieces<T(==)>(dictionary: seq<Entry<T>>, text: seq<T>): (r: seq<Piece<T>>)
    ensures forall i :: 0 <= i < |r| && r[i].Replaced? ==> r[i].entry < |dictionary|
    decreases |text|
  {
    match EntryHere(dictionary, text)
    case Some(k) => [Replaced(k)] + Pieces(dictionary, text[|dictionary[k].source|..])
    case None => if text == [] then [] else [Kept(text[0])] + Pieces(dictionary, text[1..])
  }

  function Source<T>(dictionary: seq<Entry<T>>, piece: Piece<T>): seq<T>
    requires piece.Replaced? ==> piece.entry < |dictionary|
  {
    if piece.Kept? then [piece.element] else dictionary[piece.entry].source
  }

  function Target<T>(dictionary: seq<Entry<T>>, piece: Piece<T>): seq<T>
    requires piece.Replaced? ==> piece.entry < |dictionary|
  {
    if piece.Kept? then [piece.element] else dictionary[piece.entry].target
  }

  function Before<T>(dictionary: seq<Entry<T>>, pieces: seq<Piece<T>>): seq<T>
    requires forall i :: 0 <= i < |pieces| && pieces[i].Replaced? ==> pieces[i].entry < |dictionary|
  {
    if pieces == [] then [] else Source(dictionary, pieces[0]) + Before(dictionary, pieces[1..])
  }

  function After<T>(dictionary: seq<Entry<T>>, pieces: seq<Piece<T>>): seq<T>
    requires forall i :: 0 <= i < |pieces| && pieces[i].Replaced? ==> pieces[i].entry < |dictionary|
  {
    if pieces == [] then [] else Target(dictionary, pieces[0]) + After(dictionary, pieces[1..])
  }

  /** The text falls into kept characters and sources; only the sources are exchanged, and every piece
      is the one that the dictionary asks for at its place in the text. */
  lemma {:induction false} OnePass<T>(dictionary: seq<Entry<T>>, text: seq<T>)
    ensures var pieces := Pieces(dictionary, text);
      && Before(dictionary, pieces) == text
      && After(dictionary, pieces) == Rewrite(dictionary, text)
    decreases |text|
  {
    hide EntryHere, Rewrite, Before, After;
    RewriteStep(dictionary, text);
    match EntryHere(dictionary, text) {
      case Some(k) =>
        var source := dictionary[k].source;
        OnePass(dictionary, text[|source|..]);
        assert text == source + text[|source|..];
        OnePiece(dictionary, Replaced(k), Pieces(dictionary, text[|source|..]));
      case None =>
        if text != [] {
          OnePass(dictionary, text[1..]);
          assert text == [text[0]] + text[1..];
          OnePiece(dictionary, Kept(text[0]), Pieces(dictionary, text[1..]));
        } else {
          NoPieces(dictionary);
        }
    }
  }

  lemma OnePiece<T>(dictionary: seq<Entry<T>>, piece: Piece<T>, rest: seq<Piece<T>>)
    requires piece.Replaced? ==> piece.entry < |dictionary|
    requires forall i :: 0 <= i < |rest| && rest[i].Replaced? ==> rest[i].entry < |dictionary|
    ensures Before(dictionary, [piece] + rest) == Source(dictionary, piece) + Before(dictionary, rest)
    ensures After(dictionary, [piece] + rest) == Target(dictionary, piece) + After(dictionary, rest)
  {
    assert ([piece] + rest)[1..] == rest;
  }

  lemma NoPieces<T>(dictionary: seq<Entry<T>>)
    ensures Before(dictionary, []) == [] && After(dictionary, []) == []
  {
  }

  // ---- characters and bytes ----

  /** No code point begins inside another one, and no encoding begins with another one. */
  lemma {:induction false} PrefixOfEncoding(p: string, text: string)
    ensures EncodeAll(p) <= EncodeAll(text) <==> p <= text
  {
    if p != "" && text != "" {
      hide Encode;
      PrefixOfEncoding(p[1..], text[1..]);
      assert p <= text <==> p[0] == text[0] && p[1..] <= text[1..];
      if p[0] == text[0] {
        PrefixBehind(Encode(p[0]), EncodeAll(p[1..]), EncodeAll(text[1..]));
      } else if EncodeAll(p) <= EncodeAll(text) {
        SameFirstCharacter(p[0], EncodeAll(p[1..]), text[0], EncodeAll(text[1..]));
      }
    }
  }

  lemma PrefixBehind<T>(a: seq<T>, b: seq<T>, c: seq<T>)
    ensures a + b <= a + c <==> b <= c
  {
    assert (a + b)[|a|..] == b && (a + c)[|a|..] == c;
    if a + b <= a + c {
      assert a + c == (a + b) + (a + c)[|a + b|..];
      assert c == b + (a + c)[|a + b|..];
    }
  }

  lemma SameFirstCharacter(c: char, rest: seq<byte>, d: char, rest': seq<byte>)
    requires Encode(c) + rest <= Encode(d) + rest'
    ensures c == d
  {
    hide HeadOf, Encode;
    var a, b := Encode(c) + rest, Encode(d) + rest';
    HeadOfEncoding(c, rest);
    HeadOfEncoding(d, rest');
    EncodeIsNotEmpty(c);
    assert b == a + b[|a|..];
    HeadIsStable(a, b[|a|..]);
    assert Encode(c) == a[..|Encode(c)|] == b[..|Encode(d)|] == Encode(d);
    EncodeIsInjective(c, d);
  }

  lemma EncodeIsNotEmpty(c: char)
    ensures Encode(c) != []
  {
  }

  function Encoded(sources: seq<string>): (r: seq<seq<byte>>)
    ensures |r| == |sources| && forall i :: 0 <= i < |r| ==> r[i] == EncodeAll(sources[i])
  {
    Map(EncodeAll, sources)
  }

  lemma EncodedLength(p: string, q: string)
    requires p <= q
    ensures |EncodeAll(p)| <= |EncodeAll(q)|
    ensures |EncodeAll(p)| == |EncodeAll(q)| ==> p == q
  {
    assert q == p + q[|p|..];
    EncodeConcat(p, q[|p|..]);
    if p != q {
      assert q[|p|..] != "";
    }
  }

  lemma BothPrefixes(p: string, q: string, text: string)
    requires p <= text && q <= text
    ensures |EncodeAll(p)| < |EncodeAll(q)| <==> |p| < |q|
  {
    hide EncodeAll;
    if |p| == |q| {
      assert p == text[..|p|] == q;
    } else if |p| < |q| {
      EncodedLength(p, q);
    } else {
      EncodedLength(q, p);
    }
  }

  /** Bytes and characters agree on the best source. */
  lemma {:induction false} BestEncoded(sources: seq<string>, text: string)
    ensures Best(Encoded(sources), EncodeAll(text)) == Best(sources, text)
  {
    hide EncodeAll;
    if sources != [] {
      var n := |sources| - 1;
      BestEncoded(sources[..n], text);
      assert Encoded(sources)[..n] == Encoded(sources[..n]);
      PrefixOfEncoding(sources[n], text);
      var before := Best(sources[..n], text);
      if before.Some? && sources[n] <= text {
        var b := sources[before.value];
        assert sources[..n][before.value] == b && Encoded(sources)[before.value] == EncodeAll(b);
        BothPrefixes(b, sources[n], text);
        assert |EncodeAll(b)| < |EncodeAll(sources[n])| <==> |b| < |sources[n]|;
      }
    }
  }

  /** An encoding does not begin inside a code point. */
  lemma NotInside(source: string, bytes: seq<byte>)
    requires source != "" && bytes != [] && Tail(bytes[0])
    ensures !(EncodeAll(source) <= bytes)
  {
    assert EncodeAll(source)[0] == Encode(source[0])[0];
    assert !Tail(Encode(source[0])[0]);
  }

  lemma NoSourceInside(sources: seq<string>, bytes: seq<byte>)
    requires forall i :: 0 <= i < |sources| ==> sources[i] != ""
    requires bytes != [] && Tail(bytes[0])
    ensures Best(Encoded(sources), bytes) == None
  {
    hide Best, EncodeAll;
    forall i | 0 <= i < |sources|
      ensures !(EncodeAll(sources[i]) <= bytes)
    {
      NotInside(sources[i], bytes);
    }
  }

  /** From inside a code point the search goes on to the next one. */
  lemma {:induction false} FindSkipsTail(sources: seq<string>, tail: seq<byte>, rest: seq<byte>)
    requires forall i :: 0 <= i < |sources| ==> sources[i] != ""
    requires forall i :: 0 <= i < |tail| ==> Tail(tail[i])
    ensures Find(Encoded(sources), tail + rest)
         == match Find(Encoded(sources), rest) case None => None case Some(f) => Some(f.Shift(|tail|))
  {
    hide Best;
    if tail == [] {
      assert tail + rest == rest;
    } else {
      NoSourceInside(sources, tail + rest);
      assert (tail + rest)[1..] == tail[1..] + rest;
      FindSkipsTail(sources, tail[1..], rest);
    }
  }

  lemma LeadAndTail(c: char)
    ensures Encode(c) != [] && forall i :: 0 < i < |Encode(c)| ==> Tail(Encode(c)[i])
  {
  }

  lemma EncodeStart(text: string, n: nat)
    requires n <= |text|
    ensures n == 0 ==> EncodeAll(text[..n]) == []
    ensures n > 0 ==> EncodeAll(text[..n]) == Encode(text[0]) + EncodeAll(text[1..][..n - 1])
    ensures text != "" ==> EncodeAll(text) == Encode(text[0]) + EncodeAll(text[1..])
    ensures text == "" ==> EncodeAll(text) == []
  {
    hide Encode;
    if n > 0 {
      assert text[..n][1..] == text[1..][..n - 1];
    }
  }

  /** A search in the bytes finds what the search in the characters finds: matches begin and end
      between characters, so cutting the text there is always possible. */
  lemma {:induction false} FindEncoded(sources: seq<string>, text: string)
    requires forall i :: 0 <= i < |sources| ==> sources[i] != ""
    ensures Find(sources, text).Some? ==> Find(sources, text).value.start <= |text|
    ensures Find(Encoded(sources), EncodeAll(text))
         == match Find(sources, text)
            case None => None
            case Some(f) => if f.start <= |text| then Some(Match(|EncodeAll(text[..f.start])|, f.pattern)) else None
  {
    hide Best, Find, EncodeAll, Encode;
    BestEncoded(sources, text);
    FindStep(sources, text);
    FindStep(Encoded(sources), EncodeAll(text));
    EncodeStart(text, 0);
    if Best(sources, text).None? && text != "" {
      var lead, rest := Encode(text[0]), EncodeAll(text[1..]);
      FindEncoded(sources, text[1..]);
      LeadAndTail(text[0]);
      assert EncodeAll(text)[1..] == lead[1..] + rest;
      FindSkipsTail(sources, lead[1..], rest);
      if Find(sources, text[1..]).Some? {
        EncodeStart(text, Find(sources, text[1..]).value.start + 1);
      }
    }
  }

  function EncodedDictionary(dictionary: seq<Entry<char>>): (r: seq<Entry<byte>>)
    ensures |r| == |dictionary|
    ensures forall i :: 0 <= i < |r| ==> r[i] == Entry(EncodeAll(dictionary[i].source), EncodeAll(dictionary[i].target))
  {
    Map((e: Entry<char>) => Entry(EncodeAll(e.source), EncodeAll(e.target)), dictionary)
  }

  lemma EntryEncoded(dictionary: seq<Entry<char>>, text: string)
    ensures EntryHere(EncodedDictionary(dictionary), EncodeAll(text)) == EntryHere(dictionary, text)
  {
    hide Best;
    BestEncoded(Sources(dictionary), text);
    assert Sources(EncodedDictionary(dictionary)) == Encoded(Sources(dictionary));
  }

  lemma {:induction false} RewriteSkipsTail(dictionary: seq<Entry<char>>, tail: seq<byte>, rest: seq<byte>)
    requires forall i :: 0 <= i < |tail| ==> Tail(tail[i])
    ensures Rewrite(EncodedDictionary(dictionary), tail + rest) == tail + Rewrite(EncodedDictionary(dictionary), rest)
  {
    hide EntryHere;
    if tail == [] {
      assert tail + rest == rest;
    } else {
      NoEntryInside(dictionary, tail + rest);
      assert (tail + rest)[1..] == tail[1..] + rest;
      RewriteSkipsTail(dictionary, tail[1..], rest);
      assert [tail[0]] + tail[1..] == tail;
      Associate([tail[0]], tail[1..], Rewrite(EncodedDictionary(dictionary), rest));
    }
  }

  lemma NoEntryInside(dictionary: seq<Entry<char>>, bytes: seq<byte>)
    requires bytes != [] && Tail(bytes[0])
    ensures EntryHere(EncodedDictionary(dictionary), bytes) == None
  {
    hide EncodeAll;
    var here := EntryHere(EncodedDictionary(dictionary), bytes);
    if here.Some? {
      EncodeStart(dictionary[here.value].source, 0);
      NotInside(dictionary[here.value].source, bytes);
    }
  }

  /** Rewriting the bytes of a text is rewriting its characters. */
  lemma {:induction false} RewriteEncoded(dictionary: seq<Entry<char>>, text: string)
    ensures Rewrite(EncodedDictionary(dictionary), EncodeAll(text)) == EncodeAll(Rewrite(dictionary, text))
    decreases |text|
  {
    hide EntryHere, Encode;
    EntryEncoded(dictionary, text);
    match EntryHere(dictionary, text) {
      case Some(k) =>
        var source, rest := dictionary[k].source, text[|dictionary[k].source|..];
        assert text == source + rest;
        EncodeConcat(source, rest);
        assert EncodeAll(text)[|EncodeAll(source)|..] == EncodeAll(rest);
        RewriteEncoded(dictionary, rest);
        EncodeConcat(dictionary[k].target, Rewrite(dictionary, rest));
      case None =>
        if text != "" {
          RewriteEncoded(dictionary, text[1..]);
          StepOverCharacter(dictionary, text[0], EncodeAll(text[1..]), Rewrite(dictionary, text[1..]));
        }
    }
  }

  lemma StepOverCharacter(dictionary: seq<Entry<char>>, c: char, rest: seq<byte>, rewritten: string)
    requires EntryHere(EncodedDictionary(dictionary), Encode(c) + rest) == None
    requires Rewrite(EncodedDictionary(dictionary), rest) == EncodeAll(rewritten)
    ensures Rewrite(EncodedDictionary(dictionary), Encode(c) + rest) == EncodeAll([c] + rewritten)
  {
    hide EntryHere, Encode, EncodeAll, Rewrite;
    LeadAndTail(c);
    RewriteStep(EncodedDictionary(dictionary), Encode(c) + rest);
    EncodeStart([c] + rewritten, 0);
    assert (Encode(c) + rest)[1..] == Encode(c)[1..] + rest;
    RewriteSkipsTail(dictionary, Encode(c)[1..], rest);
    assert ([c] + rewritten)[1..] == rewritten;
    assert [Encode(c)[0]] + Encode(c)[1..] == Encode(c);
    Associate([Encode(c)[0]], Encode(c)[1..], EncodeAll(rewritten));
  }
}
