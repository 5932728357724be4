/** Whether a text that stays the same comes back from direct drawing to its cached bitmap. */
module OverloadRecovery {
  import opened Prelude
  import opened CacheTrackers

  // ---- one slot under draws of any texts ----

  /** What a slot remembers: its results since the last reset, newest first, the text whose bitmap it
      holds and the text drawn last. `K` are the keys by which texts are told apart. */
  datatype SlotState<K> = SlotState(history: seq<bool>, bitmap: Option<K>, last: Option<K>)

  /** A draw of one text; building its bitmap and drawing from geometry may fail. */
  datatype Draw<K> = Draw(text: K, builds: bool, draws: bool)

  function FreshSlot<K>(): SlotState<K> {
    SlotState([], None, None)
  }

  function Drawn<K(==)>(s: SlotState<K>, d: Draw<K>, threshold: nat): SlotState<K> {
    if Overloaded(s.history, threshold) then
      SlotState([s.last != Some(d.text)] + s.history, None, if d.draws then Some(d.text) else s.last)
    else if s.bitmap == Some(d.text) then SlotState([false] + s.history, s.bitmap, Some(d.text))
    else if d.builds then SlotState([true] + s.history, Some(d.text), Some(d.text))
    else SlotState([true] + s.history, None, if d.draws then Some(d.text) else s.last)
  }

  function DrawnAll<K(==)>(s: SlotState<K>, draws: seq<Draw<K>>, threshold: nat): SlotState<K> {
    if draws == [] then s else Drawn(DrawnAll(s, draws[..|draws| - 1], threshold), draws[|draws| - 1], threshold)
  }

  /** A slot that some draws lead to from an empty one. */
  ghost predicate Occurs<K(!new)>(s: SlotState<K>, threshold: nat) {
    exists draws: seq<Draw<K>> :: s == DrawnAll(FreshSlot(), draws, threshold)
  }

  lemma FreshOccurs<K(!new)>(threshold: nat)
    ensures Occurs<K>(FreshSlot(), threshold)
  {
    assert DrawnAll<K>(FreshSlot(), [], threshold) == FreshSlot();
  }

  /** One draw of a text leads from one state to the other; if nothing can fail, a successful one. */
  ghost predicate IsDraw<K>(before: SlotState<K>, after: SlotState<K>, text: K, threshold: nat, reliable: bool) {
    exists builds, draws ::
      after == Drawn(before, Draw(text, builds, draws), threshold) && (reliable ==> builds && draws)
  }

  /** States that occur lead to states that occur. */
  lemma DrawnOccurs<K(!new)>(before: SlotState<K>, after: SlotState<K>, text: K, threshold: nat, reliable: bool)
    requires Occurs(before, threshold) && IsDraw(before, after, text, threshold, reliable)
    ensures Occurs(after, threshold)
  {
    hide Drawn;
    var draws: seq<Draw<K>> :| before == DrawnAll(FreshSlot(), draws, threshold);
    var builds, works :| after == Drawn(before, Draw(text, builds, works), threshold) && (reliable ==> builds && works);
    var more := draws + [Draw(text, builds, works)];
    assert more[..|draws|] == draws;
    assert after == DrawnAll(FreshSlot(), more, threshold);
  }

  /** The slot as further draws of its last text see it. */
  function View<K(==)>(s: SlotState<K>): Repaint {
    Repaint(s.history, s.bitmap == s.last)
  }

  /** The first result of a slot is always a miss. */
  lemma {:induction false} OldestIsMiss<K>(draws: seq<Draw<K>>, threshold: nat)
    requires threshold >= 1
    ensures var s := DrawnAll(FreshSlot(), draws, threshold);
            |s.history| == |draws| && (draws != [] ==> s.history[|draws| - 1])
  {
    if draws != [] {
      hide Overloaded;
      OldestIsMiss(draws[..|draws| - 1], threshold);
      if |draws| == 1 {
        NothingIsOverloaded(threshold);
      }
    }
  }

  lemma NothingIsOverloaded(threshold: nat)
    ensures !Overloaded([], threshold)
  {
  }

  function LastText<K>(last: Option<K>, draws: seq<Draw<K>>): Option<K> {
    if draws == [] then last else Some(draws[|draws| - 1].text)
  }

  /** Each of the draws is of another text than the one before it, and none fails. */
  predicate Changes<K(==)>(last: Option<K>, draws: seq<Draw<K>>) {
    draws == [] ||
    (var before, draw := draws[..|draws| - 1], draws[|draws| - 1];
     Changes(last, before) && draw.builds && draw.draws && LastText(last, before) != Some(draw.text))
  }

  /** A slot whose text keeps changing stays overloaded, without a bitmap: every draw counts as a miss. */
  lemma {:induction false} ChangingTextsStayOverloaded<K>(s: SlotState<K>, draws: seq<Draw<K>>, threshold: nat)
    requires Overloaded(s.history, threshold) && Changes(s.last, draws)
    ensures var t := DrawnAll(s, draws, threshold);
      && Overloaded(t.history, threshold) && (draws != [] ==> t.bitmap.None? && t.history[0])
      && t.last == LastText(s.last, draws)
    decreases |draws|
  {
    hide Overloaded;
    if draws != [] {
      var before := draws[..|draws| - 1];
      ChangingTextsStayOverloaded(s, before, threshold);
      MissKeepsOverload(DrawnAll(s, before, threshold).history, threshold);
    }
  }

  lemma MissKeepsOverload(history: seq<bool>, threshold: nat)
    requires Overloaded(history, threshold)
    ensures Overloaded([true] + history, threshold)
  {
    var window, next := history[..WINDOW], ([true] + history)[..WINDOW];
    var kept, last := window[..WINDOW - 1], window[WINDOW - 1];
    assert window == kept + [last] && next == [true] + kept;
    MissesAreTrues(window);
    MissesAreTrues(next);
  }

  // ---- drawing one text again and again ----

  /** The slot of a text that was drawn last: its results, and whether it holds that text's bitmap. */
  datatype Repaint = Repaint(history: seq<bool>, cached: bool)

  /** One more draw, without a failure. An overloaded slot drops its bitmap and counts a hit on the known
      text; otherwise a missing bitmap is built, which counts as a miss. */
  function Redraw(s: Repaint, threshold: nat): Repaint {
    if Overloaded(s.history, threshold) then Repaint([false] + s.history, false)
    else Repaint([!s.cached] + s.history, true)
  }

  function Redraws(s: Repaint, threshold: nat, count: nat): Repaint {
    if count == 0 then s else Redraw(Redraws(s, threshold, count - 1), threshold)
  }

  /** A draw of the text drawn last that cannot fail is one step of `Redraw`. */
  lemma RedrawIsDraw<K>(before: SlotState<K>, after: SlotState<K>, text: K, threshold: nat)
    requires IsDraw(before, after, text, threshold, true) && before.last == Some(text)
    ensures View(after) == Redraw(View(before), threshold) && after.last == Some(text)
  {
    hide Overloaded;
  }

  /** The bitmap is there, and too few results of the window are misses for an overload to come. */
  predicate IsSettled(s: Repaint, threshold: nat) {
    s.cached && Misses(LastEight(s.history)) < threshold
  }

  /** A draw that uses the cached bitmap. */
  predicate UsesBitmap(s: Repaint, threshold: nat) {
    s.cached && !Overloaded(s.history, threshold)
  }

  lemma OverloadedMeansMisses(history: seq<bool>, threshold: nat)
    ensures Overloaded(history, threshold) ==> Misses(LastEight(history)) >= threshold
    ensures |history| >= WINDOW ==> (Overloaded(history, threshold) <==> Misses(LastEight(history)) >= threshold)
  {
    hide Misses;
    if |history| >= WINDOW {
      assert LastEight(history) == history[..WINDOW];
    }
  }

  lemma HitLowersMisses(history: seq<bool>)
    ensures Misses(LastEight([false] + history)) <= Misses(LastEight(history))
    ensures |history| < WINDOW ==> Misses(LastEight([false] + history)) == Misses(LastEight(history))
  {
    hide Misses;
    var w := LastEight(history);
    var front, oldest := w[..WINDOW - 1], w[WINDOW - 1];
    PushLastEight(history, false);
    MissesCons(false, front);
    assert w == front + [oldest];
    MissesConcat(front, [oldest]);
    MissesCons(oldest, []);
    assert [oldest] + [] == [oldest];
  }

  /** Settled is for good: it means exactly that every further draw uses the bitmap. */
  lemma SettledIff(s: Repaint, threshold: nat)
    ensures IsSettled(s, threshold) <==> forall count: nat :: UsesBitmap(Redraws(s, threshold, count), threshold)
  {
    if IsSettled(s, threshold) {
      forall count: nat
        ensures UsesBitmap(Redraws(s, threshold, count), threshold)
      {
        SettledStays(s, threshold, count);
        OverloadedMeansMisses(Redraws(s, threshold, count).history, threshold);
      }
    } else {
      OverloadComes(s, threshold);
    }
  }

  lemma {:induction false} SettledStays(s: Repaint, threshold: nat, count: nat)
    requires IsSettled(s, threshold)
    ensures IsSettled(Redraws(s, threshold, count), threshold)
  {
    if count > 0 {
      hide Overloaded, Misses, LastEight;
      SettledStays(s, threshold, count - 1);
      var before := Redraws(s, threshold, count - 1);
      OverloadedMeansMisses(before.history, threshold);
      HitLowersMisses(before.history);
    }
  }

  lemma {:induction false} HitsOnly(s: Repaint, threshold: nat, count: nat)
    requires forall k: nat :: UsesBitmap(Redraws(s, threshold, k), threshold)
    ensures var r := Redraws(s, threshold, count);
      && |r.history| == |s.history| + count
      && (|s.history| + count <= WINDOW ==> Misses(LastEight(r.history)) == Misses(LastEight(s.history)))
  {
    if count > 0 {
      hide Overloaded, Misses, LastEight;
      HitsOnly(s, threshold, count - 1);
      var before := Redraws(s, threshold, count - 1);
      assert UsesBitmap(before, threshold);
      HitLowersMisses(before.history);
    }
  }

  /** Misses enough for an overload bring it about as soon as the window is full. */
  lemma OverloadComes(s: Repaint, threshold: nat)
    requires !IsSettled(s, threshold)
    ensures !(forall k: nat :: UsesBitmap(Redraws(s, threshold, k), threshold))
  {
    hide Overloaded, Misses, LastEight;
    if forall k: nat :: UsesBitmap(Redraws(s, threshold, k), threshold) {
      var n: nat := if |s.history| < WINDOW then WINDOW - |s.history| else 0;
      assert UsesBitmap(Redraws(s, threshold, 0), threshold);
      assert UsesBitmap(Redraws(s, threshold, n), threshold);
      HitsOnly(s, threshold, n);
      OverloadedMeansMisses(Redraws(s, threshold, n).history, threshold);
    }
  }

  // ---- five and more ----

  /** After a build the bitmap is there or the text is known: the next draw counts a hit. */
  lemma MissThenHit(s: Repaint, threshold: nat)
    ensures Redraw(s, threshold).history[0] ==> !Redraw(Redraw(s, threshold), threshold).history[0]
  {
  }

  lemma {:induction false} NoNeighbours(s: Repaint, threshold: nat, count: nat)
    ensures var r := Redraws(s, threshold, count);
            && |r.history| == |s.history| + count
            && forall i :: 0 <= i < count - 1 ==> !(r.history[i] && r.history[i + 1])
  {
    hide Overloaded;
    if count > 0 {
      NoNeighbours(s, threshold, count - 1);
      if count > 1 {
        MissThenHit(Redraws(s, threshold, count - 2), threshold);
      }
    }
  }

  /** Without two misses in a row a window holds at most four. */
  lemma SparseWindow(w: seq<bool>)
    requires |w| == WINDOW && forall i :: 0 <= i < WINDOW - 1 ==> !(w[i] && w[i + 1])
    ensures Misses(w) <= 4
  {
    hide Misses;
    MissesOfEight(w);
    assert !(w[0] && w[1]) && !(w[2] && w[3]) && !(w[4] && w[5]) && !(w[6] && w[7]);
  }

  lemma SparseHistory(history: seq<bool>)
    requires |history| >= WINDOW && forall i :: 0 <= i < WINDOW - 1 ==> !(history[i] && history[i + 1])
    ensures Misses(LastEight(history)) <= 4
  {
    hide Misses;
    SparseWindow(LastEight(history));
  }

  /** With a threshold of five or more, nine draws of the same text bring its bitmap back for good. */
  lemma SettledAfterNine(s: Repaint, threshold: nat)
    requires threshold >= 5
    ensures IsSettled(Redraws(s, threshold, 9), threshold)
  {
    hide Misses, LastEight, Overloaded;
    NoNeighbours(s, threshold, 8);
    NoNeighbours(s, threshold, 9);
    var eight, nine := Redraws(s, threshold, 8), Redraws(s, threshold, 9);
    SparseHistory(eight.history);
    SparseHistory(nine.history);
    OverloadedMeansMisses(eight.history, threshold);
  }

  // ---- smaller thresholds ----

  /** Results that repeat every nine draws, with `threshold` misses that are never neighbours. */
  predicate IsMiss(threshold: nat, draw: nat) {
    draw % 9 % 2 == 0 && draw % 9 < 2 * threshold
  }

  /** Before draw number `draw` the slot has seen the eight results before it. */
  ghost predicate InCycle(s: Repaint, threshold: nat, draw: nat) {
    && |s.history| >= WINDOW
    && s.cached == IsMiss(threshold, draw + 8)
    && forall i :: 0 <= i < WINDOW ==> s.history[i] == IsMiss(threshold, draw + 8 - i)
  }

  /** The window misses exactly one of the nine draws: the one that comes next. */
  lemma {:induction false} MissesInCycle(threshold: nat, draw: nat)
    requires 1 <= threshold <= 4
    ensures One(IsMiss(threshold, draw + 8)) + One(IsMiss(threshold, draw + 7)) + One(IsMiss(threshold, draw + 6))
            + One(IsMiss(threshold, draw + 5)) + One(IsMiss(threshold, draw + 4)) + One(IsMiss(threshold, draw + 3))
            + One(IsMiss(threshold, draw + 2)) + One(IsMiss(threshold, draw + 1))
         == threshold - One(IsMiss(threshold, draw))
  {
    hide IsMiss;
    if draw == 0 {
      FirstNine(threshold);
    } else {
      SameMissNineLater(threshold, draw - 1);
      MissesInCycle(threshold, draw - 1);
    }
  }

  lemma FirstNine(threshold: nat)
    requires 1 <= threshold <= 4
    ensures IsMiss(threshold, 0) && (IsMiss(threshold, 2) <==> threshold > 1)
    ensures (IsMiss(threshold, 4) <==> threshold > 2) && (IsMiss(threshold, 6) <==> threshold > 3)
    ensures !IsMiss(threshold, 1) && !IsMiss(threshold, 3) && !IsMiss(threshold, 5)
    ensures !IsMiss(threshold, 7) && !IsMiss(threshold, 8)
  {
  }

  lemma SameMissNineLater(threshold: nat, draw: nat)
    ensures IsMiss(threshold, draw + 9) == IsMiss(threshold, draw)
  {
  }

  lemma OverloadedInCycle(s: Repaint, threshold: nat, draw: nat)
    requires 1 <= threshold <= 4 && InCycle(s, threshold, draw)
    ensures Overloaded(s.history, threshold) <==> !IsMiss(threshold, draw)
    ensures IsMiss(threshold, draw) ==> !s.cached
  {
    hide Misses;
    assert IsMiss(threshold, draw) ==> !IsMiss(threshold, draw + 8);
    hide IsMiss;
    var w := s.history[..WINDOW];
    assert forall i :: 0 <= i < WINDOW ==> w[i] == IsMiss(threshold, draw + 8 - i);
    MissesOfEight(w);
    MissesInCycle(threshold, draw);
  }

  lemma CycleStep(s: Repaint, threshold: nat, draw: nat)
    requires 1 <= threshold <= 4 && InCycle(s, threshold, draw)
    ensures InCycle(Redraw(s, threshold), threshold, draw + 1)
  {
    hide Overloaded, IsMiss;
    OverloadedInCycle(s, threshold, draw);
    SameMissNineLater(threshold, draw);
  }

  lemma {:induction false} CycleGoesOn(s: Repaint, threshold: nat, count: nat)
    requires 1 <= threshold <= 4 && InCycle(s, threshold, 0)
    ensures InCycle(Redraws(s, threshold, count), threshold, count)
    ensures !UsesBitmap(Redraws(s, threshold, count), threshold)
  {
    hide IsMiss, Overloaded;
    if count > 0 {
      CycleGoesOn(s, threshold, count - 1);
      CycleStep(Redraws(s, threshold, count - 1), threshold, count - 1);
    }
    OverloadedInCycle(Redraws(s, threshold, count), threshold, count);
  }

  /** Nine draws of an empty slot: `threshold` texts, each drawn twice and the last one to the end. */
  function TextAt(threshold: nat, draw: nat): nat
    requires threshold > 0
  {
    Min(draw / 2, threshold - 1)
  }

  function NineDraws(threshold: nat, count: nat): (r: seq<Draw<nat>>)
    requires threshold > 0
    ensures |r| == count
  {
    if count == 0 then [] else NineDraws(threshold, count - 1) + [Draw(TextAt(threshold, count - 1), true, true)]
  }

  /** The slot after the first `count` of these draws. */
  ghost predicate AfterFirst(s: SlotState<nat>, threshold: nat, count: nat)
    requires threshold > 0
  {
    && |s.history| == count
    && s.bitmap == s.last == (if count == 0 then None else Some(TextAt(threshold, count - 1)))
    && forall i :: 0 <= i < count ==> s.history[i] == IsMiss(threshold, count - 1 - i)
  }

  /** While the window fills, each new text is a miss and each repetition a hit. */
  lemma {:induction false} FirstDraws(threshold: nat, count: nat)
    requires 1 <= threshold <= 4 && count <= 8
    ensures AfterFirst(DrawnAll(FreshSlot(), NineDraws(threshold, count), threshold), threshold, count)
  {
    if count > 0 {
      hide AfterFirst, Drawn, DrawnAll, NineDraws;
      FirstDraws(threshold, count - 1);
      NextDraw(threshold, count - 1);
      FirstStep(DrawnAll(FreshSlot(), NineDraws(threshold, count - 1), threshold), threshold, count - 1);
    }
  }

  lemma FirstStep(s: SlotState<nat>, threshold: nat, count: nat)
    requires 1 <= threshold <= 4 && count < 8 && AfterFirst(s, threshold, count)
    ensures AfterFirst(Drawn(s, Draw(TextAt(threshold, count), true, true), threshold), threshold, count + 1)
  {
    NewTextIsMiss(threshold, count);
    hide IsMiss, TextAt, Misses;
    var next := Drawn(s, Draw(TextAt(threshold, count), true, true), threshold);
    assert next.history == [IsMiss(threshold, count)] + s.history;
  }

  lemma NewTextIsMiss(threshold: nat, draw: nat)
    requires 1 <= threshold <= 4 && draw < 8
    ensures IsMiss(threshold, draw) <==> draw == 0 || TextAt(threshold, draw) != TextAt(threshold, draw - 1)
  {
  }

  lemma NextDraw(threshold: nat, count: nat)
    requires threshold > 0
    ensures DrawnAll(FreshSlot(), NineDraws(threshold, count + 1), threshold)
      == Drawn(DrawnAll(FreshSlot(), NineDraws(threshold, count), threshold),
               Draw(TextAt(threshold, count), true, true), threshold)
  {
    hide Drawn, TextAt;
    assert NineDraws(threshold, count + 1)[..count] == NineDraws(threshold, count);
  }

  /** The ninth draw meets an overload, and the slot has entered the cycle. */
  lemma NinthDraw(threshold: nat) returns (s: SlotState<nat>)
    requires 1 <= threshold <= 4
    ensures s == DrawnAll(FreshSlot(), NineDraws(threshold, 9), threshold) && Occurs(s, threshold)
    ensures s.last == Some(threshold - 1) && InCycle(View(s), threshold, 0)
  {
    hide DrawnAll, NineDraws, AfterFirst, InCycle;
    var eight := DrawnAll(FreshSlot(), NineDraws(threshold, 8), threshold);
    FirstDraws(threshold, 8);
    NextDraw(threshold, 8);
    EntersCycle(eight, threshold);
    s := DrawnAll(FreshSlot(), NineDraws(threshold, 9), threshold);
  }

  lemma EntersCycle(eight: SlotState<nat>, threshold: nat)
    requires 1 <= threshold <= 4 && AfterFirst(eight, threshold, 8)
    ensures var s := Drawn(eight, Draw(TextAt(threshold, 8), true, true), threshold);
      s.last == Some(threshold - 1) && InCycle(View(s), threshold, 0)
  {
    hide Misses;
    EightAreOverloaded(eight.history, threshold);
    assert TextAt(threshold, 8) == TextAt(threshold, 7) == threshold - 1;
    FirstNine(threshold);
    hide IsMiss, Overloaded;
    var s := Drawn(eight, Draw(TextAt(threshold, 8), true, true), threshold);
    assert s == SlotState([false] + eight.history, None, Some(threshold - 1));
  }

  lemma EightAreOverloaded(history: seq<bool>, threshold: nat)
    requires 1 <= threshold <= 4 && |history| == WINDOW
    requires forall i :: 0 <= i < WINDOW ==> history[i] == IsMiss(threshold, 7 - i)
    ensures Overloaded(history, threshold)
  {
    hide Misses, IsMiss;
    MissesOfEight(history);
    FirstNine(threshold);
    assert history[..WINDOW] == history;
  }

  /** With a threshold of four or less, nine draws of a few texts lead an empty slot into a state from which
      repeating the last text never finds its bitmap cached: each one that is built is dropped again. */
  lemma NeverSettles(threshold: nat) returns (s: SlotState<nat>)
    requires 1 <= threshold <= 4
    ensures s == DrawnAll(FreshSlot(), NineDraws(threshold, 9), threshold) && Occurs(s, threshold)
    ensures s.last == Some(threshold - 1)
    ensures forall count: nat :: !UsesBitmap(Redraws(View(s), threshold, count), threshold)
  {
    s := NinthDraw(threshold);
    forall count: nat
      ensures !UsesBitmap(Redraws(View(s), threshold, count), threshold)
    {
      CycleGoesOn(View(s), threshold, count);
    }
  }

  // ---- the same with other names for the texts ----

  ghost predicate Injective<K(!new)>(name: nat -> K) {
    forall m, n :: name(m) == name(n) ==> m == n
  }

  function Renamed<K>(s: SlotState<nat>, name: nat -> K): SlotState<K> {
    SlotState(s.history, if s.bitmap.Some? then Some(name(s.bitmap.value)) else None,
              if s.last.Some? then Some(name(s.last.value)) else None)
  }

  lemma RenamedDraw<K(!new)>(s: SlotState<nat>, text: nat, name: nat -> K, threshold: nat)
    requires Injective(name)
    ensures Renamed(Drawn(s, Draw(text, true, true), threshold), name)
         == Drawn(Renamed(s, name), Draw(name(text), true, true), threshold)
  {
    hide Overloaded;
  }

  lemma RenamedView<K(!new)>(s: SlotState<nat>, name: nat -> K)
    requires Injective(name) && s.last.Some?
    ensures View(Renamed(s, name)) == View(s)
  {
  }

  /** Repeating the last text ends with its bitmap in use for good. */
  ghost predicate Settles<K>(s: SlotState<K>, threshold: nat) {
    exists count: nat :: IsSettled(Redraws(View(s), threshold, count), threshold)
  }

  /** The default threshold of five is the smallest with which repainting always settles. */
  lemma SettlingThresholds(threshold: nat)
    requires 1 <= threshold <= WINDOW
    ensures (forall s: SlotState<nat> :: Occurs(s, threshold) && s.last.Some? ==> Settles(s, threshold))
      <==> threshold >= 5
  {
    hide IsSettled, UsesBitmap, Redraws, Occurs;
    if threshold >= DEFAULT_THRESHOLD {
      forall s: SlotState<nat>
        ensures Settles(s, threshold)
      {
        SettledAfterNine(View(s), threshold);
      }
    } else {
      var s := NeverSettles(threshold);
      forall count: nat
        ensures !IsSettled(Redraws(View(s), threshold, count), threshold)
      {
        SettledUses(Redraws(View(s), threshold, count), threshold);
      }
    }
  }

  lemma SettledUses(s: Repaint, threshold: nat)
    ensures IsSettled(s, threshold) ==> UsesBitmap(s, threshold)
  {
    OverloadedMeansMisses(s.history, threshold);
  }
}
