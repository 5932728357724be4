/** Translating one window of lines with EzTrans: a cache, deduplication, batches. */
module EzTransWindow {
  import opened Prelude
  import opened EzTransBatches

  /** The White_Space property of Unicode, which `trim` uses. */
  predicate IsWhitespace(ch: char) {
    var c := ch as int;
    0x9 <= c <= 0xD || c == 0x20 || c == 0x85 || c == 0xA0 || c == 0x1680 || 0x2000 <= c <= 0x200A
    || c == 0x2028 || c == 0x2029 || c == 0x202F || c == 0x205F || c == 0x3000
  }

  predicate IsBlank(text: string) {
    forall i :: 0 <= i < |text| ==> IsWhitespace(text[i])
  }

  predicate ShouldTranslate(text: string, noTransLinefeed: bool) {
    text != [] && !(noTransLinefeed && IsBlank(text))
  }

  /** A bounded cache: an insert may be refused, and may push out any other entry. */
  class BoundedTranslationCache {
    var entries: map<string, string>

    constructor ()
      ensures entries == map[]
    {
      entries := map[];
    }

    method Get(original: string) returns (r: Option<string>)
      ensures r == if original in entries then Some(entries[original]) else None
    {
      r := if original in entries then Some(entries[original]) else None;
    }

    method Insert(original: string, translated: string)
      modifies this
      ensures Submap(entries, old(entries)[original := translated])
    {
      var evicted: set<string> :| true;
      entries := map k | k in entries[original := translated] && k !in evicted :: entries[original := translated][k];
    }
  }

  /** What the helper pool replies to a list of batches, `None` being an error. */
  type Reply = Option<seq<seq<string>>>

  /** The helper pool. `answer` is how it replies to each call, counted from zero: the same batches may
      fail once and be answered later. */
  class BatchTranslator {
    const processCount: nat
    const answer: (nat, seq<seq<string>>) -> Reply
    var sent: seq<seq<seq<string>>>

    constructor (processCount: nat, answer: (nat, seq<seq<string>>) -> Reply)
      ensures sent == [] && this.processCount == processCount && this.answer == answer
    {
      this.processCount, this.answer, sent := processCount, answer, [];
    }

    method TranslateBatches(batches: seq<seq<string>>) returns (r: Reply)
      modifies this
      ensures r == answer(|old(sent)|, batches) && sent == old(sent) + [batches]
    {
      r := answer(|sent|, batches);
      sent := sent + [batches];
    }
  }

  datatype Outcome = Translated(lines: seq<string>) | BackendFailed | CountMismatch

  /** Texts to be translated that are not in `known`, each once, in order of first appearance. */
  function Misses(texts: seq<string>, noTransLinefeed: bool, known: set<string>): (r: seq<string>)
    ensures HasNoDuplicates(r)
    ensures forall t :: t in r <==> t in texts && ShouldTranslate(t, noTransLinefeed) && t !in known
  {
    if texts == [] then [] else
      var last := texts[|texts| - 1];
      var before := Misses(texts[..|texts| - 1], noTransLinefeed, known);
      assert forall t :: t in texts <==> t in texts[..|texts| - 1] || t == last;
      if ShouldTranslate(last, noTransLinefeed) && last !in known && last !in before then before + [last] else before
  }

  lemma MissesSnoc(texts: seq<string>, text: string, noTransLinefeed: bool, known: set<string>)
    ensures Misses(texts + [text], noTransLinefeed, known) ==
      var before := Misses(texts, noTransLinefeed, known);
      if ShouldTranslate(text, noTransLinefeed) && text !in known && text !in before then before + [text] else before
  {
    assert (texts + [text])[..|texts|] == texts;
  }

  /** `r` is the translation of `text`: from the cache, or the answer for the miss of the same text. */
  predicate ResolvesTo(text: string, noTransLinefeed: bool, cached: map<string, string>,
                       misses: seq<string>, answers: seq<string>, r: string)
    requires |misses| == |answers|
  {
    if !ShouldTranslate(text, noTransLinefeed) then r == text
    else if text in cached then r == cached[text]
    else exists j :: 0 <= j < |misses| && misses[j] == text && r == answers[j]
  }

  /** Every entry is an old one, or one of the new pairs. */
  predicate GrowsBy(entries: map<string, string>, before: map<string, string>, misses: seq<string>,
                    answers: seq<string>)
    requires |misses| == |answers|
  {
    forall k :: k in entries ==>
      || (k in before && entries[k] == before[k])
      || exists j :: 0 <= j < |misses| && misses[j] == k && entries[k] == answers[j]
  }

  /** Where line `i` finds its text after the scan: the cached text, a miss number, or neither. */
  datatype Slot = Untouched | Cached(text: string) | Miss(index: nat)

  predicate SlotOf(text: string, noTransLinefeed: bool, cached: map<string, string>, misses: seq<string>, slot: Slot) {
    if !ShouldTranslate(text, noTransLinefeed) then slot == Untouched
    else if text in cached then slot == Cached(cached[text])
    else slot.Miss? && slot.index < |misses| && misses[slot.index] == text
  }

  predicate SlotsOf(texts: seq<string>, noTransLinefeed: bool, cached: map<string, string>, misses: seq<string>,
                    slots: seq<Slot>) {
    && |slots| == |texts|
    && forall i :: 0 <= i < |texts| ==> SlotOf(texts[i], noTransLinefeed, cached, misses, slots[i])
  }

  lemma AddSlot(texts: seq<string>, text: string, noTransLinefeed: bool, cached: map<string, string>,
                misses: seq<string>, more: seq<string>, slots: seq<Slot>, slot: Slot)
    requires SlotsOf(texts, noTransLinefeed, cached, misses, slots)
    requires SlotOf(text, noTransLinefeed, cached, misses + more, slot)
    ensures SlotsOf(texts + [text], noTransLinefeed, cached, misses + more, slots + [slot])
  {
    hide ShouldTranslate;
    forall i | 0 <= i < |texts|
      ensures SlotOf(texts[i], noTransLinefeed, cached, misses + more, slots[i])
    {
      assert SlotOf(texts[i], noTransLinefeed, cached, misses, slots[i]);
    }
  }

  method ScanWindow(texts: seq<string>, noTransLinefeed: bool, cache: BoundedTranslationCache)
    returns (slots: seq<Slot>, misses: seq<string>)
    ensures misses == Misses(texts, noTransLinefeed, cache.entries.Keys)
    ensures SlotsOf(texts, noTransLinefeed, cache.entries, misses, slots)
  {
    hide Misses, SlotsOf, ShouldTranslate;
    slots, misses := [], [];
    var missByText: map<string, nat> := map[];
    NothingScanned(noTransLinefeed, cache.entries);
    for i := 0 to |texts|
      invariant misses == Misses(texts[..i], noTransLinefeed, cache.entries.Keys)
      invariant SlotsOf(texts[..i], noTransLinefeed, cache.entries, misses, slots)
      invariant forall t :: t in missByText <==> t in misses
      invariant forall t :: t in missByText ==> missByText[t] < |misses| && misses[missByText[t]] == t
    {
      var text := texts[i];
      assert texts[..i + 1] == texts[..i] + [text];
      MissesSnoc(texts[..i], text, noTransLinefeed, cache.entries.Keys);
      var cached := cache.Get(text);
      var slot, more: seq<string> := Untouched, [];
      if ShouldTranslate(text, noTransLinefeed) {
        if cached.Some? {
          slot := Cached(cached.value);
        } else if text in missByText {
          slot := Miss(missByText[text]);
        } else {
          missByText := missByText[text := |misses|];
          slot, more := Miss(|misses|), [text];
        }
      }
      assert more == [] ==> misses + more == misses;
      AddSlot(texts[..i], text, noTransLinefeed, cache.entries, misses, more, slots, slot);
      slots, misses := slots + [slot], misses + more;
    }
    assert texts[..|texts|] == texts;
  }

  lemma NothingScanned(noTransLinefeed: bool, cached: map<string, string>)
    ensures Misses([], noTransLinefeed, cached.Keys) == [] && SlotsOf([], noTransLinefeed, cached, [], [])
  {
  }

  method StoreMisses(misses: seq<string>, answers: seq<string>, cache: BoundedTranslationCache)
    requires |misses| == |answers|
    modifies cache
    ensures GrowsBy(cache.entries, old(cache.entries), misses, answers)
  {
    for i := 0 to |misses|
      invariant GrowsBy(cache.entries, old(cache.entries), misses, answers)
    {
      cache.Insert(misses[i], answers[i]);
    }
  }

  method FillUntranslated(texts: seq<string>, slots: seq<Slot>, answers: seq<string>,
                          noTransLinefeed: bool, ghost cached: map<string, string>, ghost misses: seq<string>)
    returns (results: seq<string>)
    requires |misses| == |answers| && SlotsOf(texts, noTransLinefeed, cached, misses, slots)
    ensures |results| == |texts|
    ensures forall i :: 0 <= i < |texts| ==> ResolvesTo(texts[i], noTransLinefeed, cached, misses, answers, results[i])
  {
    results := [];
    for i := 0 to |texts|
      invariant |results| == i
      invariant forall k :: 0 <= k < i ==> ResolvesTo(texts[k], noTransLinefeed, cached, misses, answers, results[k])
    {
      var result := match slots[i]
        case Untouched => texts[i]
        case Cached(text) => text
        case Miss(index) => answers[index];
      results := results + [result];
    }
  }

  method TranslateWindow(texts: seq<string>, noTransLinefeed: bool, translator: BatchTranslator,
                         postprocess: string -> string, cache: BoundedTranslationCache)
    returns (r: Outcome, ghost batches: seq<seq<string>>)
    modifies translator, cache
    ensures WindowContract(texts, noTransLinefeed, translator.processCount, postprocess, old(cache.entries),
                           cache.entries, batches, translator.answer(|old(translator.sent)|, batches), r)
    ensures translator.sent == old(translator.sent)
      + if Misses(texts, noTransLinefeed, old(cache.entries.Keys)) == [] then [] else [batches]
  {
    ghost var cached := cache.entries;
    var slots, misses := ScanWindow(texts, noTransLinefeed, cache);
    batches := [];
    if misses == [] {
      var results := FillUntranslated(texts, slots, [], noTransLinefeed, cached, misses);
      return Translated(results), [];
    }
    var parts := PartitionBatches(misses, translator.processCount);
    batches := parts;
    var reply := translator.TranslateBatches(parts);
    if reply.None? {
      return BackendFailed, batches;
    }
    var answers := Map(postprocess, Flatten(reply.value));
    if |answers| != |misses| {
      return CountMismatch, batches;
    }
    StoreMisses(misses, answers, cache);
    var results := FillUntranslated(texts, slots, answers, noTransLinefeed, cached, misses);
    return Translated(results), batches;
  }

  /** Everything a window promises about its outcome, the batches it sent and the cache it leaves. */
  ghost predicate WindowContract(
    texts: seq<string>, noTransLinefeed: bool, processCount: nat, postprocess: string -> string,
    before: map<string, string>, after: map<string, string>, batches: seq<seq<string>>, reply: Reply, r: Outcome)
  {
    var misses := Misses(texts, noTransLinefeed, before.Keys);
    if misses == [] then
      && after == before
      && r.Translated? && |r.lines| == |texts|
      && forall i :: 0 <= i < |texts| ==> ResolvesTo(texts[i], noTransLinefeed, before, [], [], r.lines[i])
    else
      && IsPartition(misses, processCount, batches)
      && match reply
         case None => r == BackendFailed && after == before
         case Some(translated) =>
           var answers := Map(postprocess, Flatten(translated));
           if |answers| != |misses| then r == CountMismatch && after == before
           else
             && GrowsBy(after, before, misses, answers)
             && r.Translated? && |r.lines| == |texts|
             && forall i :: 0 <= i < |texts| ==>
                  ResolvesTo(texts[i], noTransLinefeed, before, misses, answers, r.lines[i])
  }

  // ---- a window is a map over its lines ----

  /** What one line should become, with no window in sight. */
  function LineMap(text: string, noTransLinefeed: bool, translate: string -> string,
                   postprocess: string -> string): string {
    if ShouldTranslate(text, noTransLinefeed) then postprocess(translate(text)) else text
  }

  /** The reply translates text by text. */
  ghost predicate FaithfulReply(batches: seq<seq<string>>, reply: Reply, translate: string -> string) {
    reply.Some? ==> Flatten(reply.value) == Map(translate, Flatten(batches))
  }

  /** In every call the pool fails or translates text by text, whatever the batches. */
  ghost predicate Faithful(answer: (nat, seq<seq<string>>) -> Reply, translate: string -> string) {
    forall call: nat, batches: seq<seq<string>> :: FaithfulReply(batches, answer(call, batches), translate)
  }

  /** The pool never fails. */
  ghost predicate AlwaysAnswers(answer: (nat, seq<seq<string>>) -> Reply) {
    forall call: nat, batches: seq<seq<string>> :: answer(call, batches).Some?
  }

  /** Every cached text is a translation made with the same translator and dictionary. */
  ghost predicate Sound(entries: map<string, string>, translate: string -> string, postprocess: string -> string) {
    forall k :: k in entries ==> entries[k] == postprocess(translate(k))
  }

  /** With a faithful reply and a sound cache a window maps each line on its own, unless it needed the pool
      and the pool failed, and the cache stays sound: neither the cache, nor duplicates, nor batching can
      be seen. */
  lemma WindowIsLineMap(
    texts: seq<string>, noTransLinefeed: bool, processCount: nat, translate: string -> string,
    postprocess: string -> string, before: map<string, string>, after: map<string, string>,
    batches: seq<seq<string>>, reply: Reply, r: Outcome)
    requires WindowContract(texts, noTransLinefeed, processCount, postprocess, before, after, batches, reply, r)
    requires FaithfulReply(batches, reply, translate) && Sound(before, translate, postprocess)
    ensures Sound(after, translate, postprocess)
    ensures r == if Misses(texts, noTransLinefeed, before.Keys) != [] && reply.None? then BackendFailed
                 else Translated(Map(t => LineMap(t, noTransLinefeed, translate, postprocess), texts))
  {
    hide Misses;
    var misses := Misses(texts, noTransLinefeed, before.Keys);
    if r.Translated? {
      var expected := Map(t => LineMap(t, noTransLinefeed, translate, postprocess), texts);
      forall i | 0 <= i < |texts|
        ensures r.lines[i] == expected[i]
      {
        assert ResolvesTo(texts[i], noTransLinefeed, before, misses,
                          if misses == [] then [] else Map(postprocess, Flatten(reply.value)), r.lines[i]);
      }
      assert r.lines == expected;
    }
  }

  /** White space, code point by code point. */
  const WHITE_SPACE: seq<int> := [
    0x9, 0xA, 0xB, 0xC, 0xD, 0x20, 0x85, 0xA0, 0x1680,
    0x2000, 0x2001, 0x2002, 0x2003, 0x2004, 0x2005, 0x2006, 0x2007, 0x2008, 0x2009, 0x200A,
    0x2028, 0x2029, 0x202F, 0x205F, 0x3000]

  lemma WhitespaceIsListed(c: char)
    ensures IsWhitespace(c) <==> c as int in WHITE_SPACE
  {
  }

  /** The text is not empty, and has something but white space if blank lines are to be left alone. */
  predicate NeedsTranslation(text: string, noTransLinefeed: bool) {
    text != "" && (noTransLinefeed ==> exists i :: 0 <= i < |text| && text[i] as int !in WHITE_SPACE)
  }

  lemma NeedsTranslationIff(text: string, noTransLinefeed: bool)
    ensures ShouldTranslate(text, noTransLinefeed) <==> NeedsTranslation(text, noTransLinefeed)
  {
    forall i | 0 <= i < |text|
      ensures IsWhitespace(text[i]) <==> text[i] as int in WHITE_SPACE
    {
      WhitespaceIsListed(text[i]);
    }
    hide IsWhitespace;
  }

  /** What a line becomes: its translation, rewritten, or itself. */
  predicate IsLineResult(text: string, noTransLinefeed: bool, translate: string -> string,
                         postprocess: string -> string, r: string) {
    r == if NeedsTranslation(text, noTransLinefeed) then postprocess(translate(text)) else text
  }

  /** A window, line by line: what happens to each of its lines, if it does not need the pool or the pool
      answers. */
  method TranslateLines(texts: seq<string>, noTransLinefeed: bool, translator: BatchTranslator,
                        ghost translate: string -> string, postprocess: string -> string,
                        cache: BoundedTranslationCache)
    returns (r: Outcome)
    requires Faithful(translator.answer, translate) && Sound(cache.entries, translate, postprocess)
    modifies translator, cache
    ensures Sound(cache.entries, translate, postprocess)
    ensures AlwaysAnswers(translator.answer) ==> r.Translated?
    ensures r.Translated? || r == BackendFailed
    ensures r.Translated? ==>
      && |r.lines| == |texts|
      && forall i :: 0 <= i < |texts| ==> IsLineResult(texts[i], noTransLinefeed, translate, postprocess, r.lines[i])
  {
    hide FaithfulReply, Sound, WindowContract, Misses, ShouldTranslate, NeedsTranslation;
    ghost var before, call := cache.entries, |translator.sent|;
    var outcome, batches := TranslateWindow(texts, noTransLinefeed, translator, postprocess, cache);
    WindowIsLineMap(texts, noTransLinefeed, translator.processCount, translate, postprocess, before,
                    cache.entries, batches, translator.answer(call, batches), outcome);
    r := outcome;
    if r.Translated? {
      forall i | 0 <= i < |texts|
        ensures IsLineResult(texts[i], noTransLinefeed, translate, postprocess, r.lines[i])
      {
        NeedsTranslationIff(texts[i], noTransLinefeed);
      }
    }
  }

  /** The text at `k` needs a translation, is not known and did not occur before. */
  predicate FirstMiss(texts: seq<string>, k: nat, noTransLinefeed: bool, known: set<string>)
    requires k < |texts|
  {
    NeedsTranslation(texts[k], noTransLinefeed) && texts[k] !in known && texts[k] !in texts[..k]
  }

  /** `at` are the places of the misses, in increasing order, and no other text is a first miss. */
  predicate ArePlaces(at: seq<nat>, misses: seq<string>, texts: seq<string>, noTransLinefeed: bool,
                      known: set<string>) {
    && |at| == |misses| && (forall i, j :: 0 <= i < j < |at| ==> at[i] < at[j])
    && (forall i :: 0 <= i < |at| ==> at[i] < |texts| && misses[i] == texts[at[i]])
    && (forall k :: 0 <= k < |texts| ==> (k in at <==> FirstMiss(texts, k, noTransLinefeed, known)))
  }

  /** The misses are the first occurrences of the unknown texts, in the order of the window. */
  lemma {:induction false} MissesInOrder(texts: seq<string>, noTransLinefeed: bool, known: set<string>)
    returns (at: seq<nat>)
    ensures ArePlaces(at, Misses(texts, noTransLinefeed, known), texts, noTransLinefeed, known)
    decreases |texts|
  {
    at := [];
    if texts != [] {
      hide ArePlaces, Misses, FirstMiss, ShouldTranslate;
      var n := |texts| - 1;
      at := MissesInOrder(texts[..n], noTransLinefeed, known);
      var before := Misses(texts[..n], noTransLinefeed, known);
      assert texts == texts[..n] + [texts[n]];
      MissesSnoc(texts[..n], texts[n], noTransLinefeed, known);
      LastMiss(texts, noTransLinefeed, known);
      OneMorePlace(at, before, texts, noTransLinefeed, known);
      if FirstMiss(texts, n, noTransLinefeed, known) {
        at := at + [n];
      }
    }
  }

  lemma OneMorePlace(at: seq<nat>, misses: seq<string>, texts: seq<string>, noTransLinefeed: bool, known: set<string>)
    requires texts != [] && ArePlaces(at, misses, texts[..|texts| - 1], noTransLinefeed, known)
    ensures var n := |texts| - 1;
      if FirstMiss(texts, n, noTransLinefeed, known) then
        ArePlaces(at + [n], misses + [texts[n]], texts, noTransLinefeed, known)
      else ArePlaces(at, misses, texts, noTransLinefeed, known)
  {
    var n := |texts| - 1;
    forall k | 0 <= k < n
      ensures FirstMiss(texts[..n], k, noTransLinefeed, known) == FirstMiss(texts, k, noTransLinefeed, known)
    {
      assert texts[..n][..k] == texts[..k];
    }
    hide FirstMiss;
  }

  lemma LastMiss(texts: seq<string>, noTransLinefeed: bool, known: set<string>)
    requires texts != []
    ensures var n := |texts| - 1;
      FirstMiss(texts, n, noTransLinefeed, known)
      <==> && ShouldTranslate(texts[n], noTransLinefeed) && texts[n] !in known
           && texts[n] !in Misses(texts[..n], noTransLinefeed, known)
  {
    NeedsTranslationIff(texts[|texts| - 1], noTransLinefeed);
    hide ShouldTranslate, NeedsTranslation;
  }

  /** Each missing text reaches the translator exactly once per window, however often it occurs. */
  lemma SentExactlyOnce(
    texts: seq<string>, noTransLinefeed: bool, processCount: nat, known: set<string>, batches: seq<seq<string>>,
    text: string)
    requires IsPartition(Misses(texts, noTransLinefeed, known), processCount, batches)
    ensures multiset(Flatten(batches))[text]
         == if text in texts && NeedsTranslation(text, noTransLinefeed) && text !in known then 1 else 0
  {
    NeedsTranslationIff(text, noTransLinefeed);
    CountInDistinct(Misses(texts, noTransLinefeed, known), text);
  }

  lemma {:induction false} CountInDistinct(s: seq<string>, text: string)
    requires HasNoDuplicates(s)
    ensures multiset(s)[text] == if text in s then 1 else 0
  {
    if s != [] {
      CountInDistinct(s[1..], text);
      assert s == [s[0]] + s[1..];
    }
  }
}
