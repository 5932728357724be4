/** Counting cache misses and unused slots of the text renderer. */
module CacheTrackers {
  import opened Prelude

  datatype Slot = Name | Original | Translation | Notice {
    function Index(): (r: nat)
      ensures r < SLOT_COUNT
    {
      match this
      case Name => 0
      case Original => 1
      case Translation => 2
      case Notice => 3
    }
  }

  const SLOT_COUNT: nat := 4
  const ALL_SLOTS := [Name, Original, Translation, Notice]
  const WINDOW: nat := 8
  const DEFAULT_THRESHOLD: nat := 5
  const RING_MASK: bv16 := 0xFF
  const GRACE: nat := 16

  // ---- bit rings ----

  function Bit(ring: bv16, mask: bv16): (r: bool) {
    ring & mask != 0
  }

  function MaskOf(age: nat): bv16
    requires age < WINDOW
  {
    if age == 0 then 1 else if age == 1 then 2 else if age == 2 then 4 else if age == 3 then 8
    else if age == 4 then 16 else if age == 5 then 32 else if age == 6 then 64 else 128
  }

  /** The window of a ring, newest result first; the newest result is the lowest bit. */
  function Bits(ring: bv16): (r: seq<bool>)
    ensures |r| == WINDOW
  {
    seq(WINDOW, age requires 0 <= age < WINDOW => Bit(ring, MaskOf(age)))
  }

  function AsBit(miss: bool): bv16 {
    if miss then 1 else 0
  }

  function Pushed(ring: bv16, miss: bool): bv16 {
    ((ring << 1) & RING_MASK) | AsBit(miss)
  }

  lemma PushBits(ring: bv16, miss: bool)
    ensures var next := Pushed(ring, miss);
      && Bit(next, 1) == miss && Bit(next, 2) == Bit(ring, 1) && Bit(next, 4) == Bit(ring, 2)
      && Bit(next, 8) == Bit(ring, 4) && Bit(next, 16) == Bit(ring, 8) && Bit(next, 32) == Bit(ring, 16)
      && Bit(next, 64) == Bit(ring, 32) && Bit(next, 128) == Bit(ring, 64)
      && next & !RING_MASK == 0
  {
  }

  /** Pushing moves every result up by one and drops the oldest of the window. */
  lemma PushShifts(ring: bv16, miss: bool)
    ensures Bits(Pushed(ring, miss)) == [miss] + Bits(ring)[..WINDOW - 1]
    ensures Pushed(ring, miss) & !RING_MASK == 0
  {
    hide Bit, Pushed;
    PushBits(ring, miss);
    forall age: nat | age < WINDOW
      ensures Bits(Pushed(ring, miss))[age] == ([miss] + Bits(ring)[..WINDOW - 1])[age]
    {
      assert age > 0 ==> Bit(Pushed(ring, miss), MaskOf(age)) == Bit(ring, MaskOf(age - 1));
    }
  }

  function Ones(ring: bv16, mask: bv16): nat {
    One(Bit(ring, mask))
  }

  /** `count_ones` on all sixteen bits. */
  function CountOnes(ring: bv16): nat {
    Ones(ring, 1) + Ones(ring, 2) + Ones(ring, 4) + Ones(ring, 8)
    + Ones(ring, 16) + Ones(ring, 32) + Ones(ring, 64) + Ones(ring, 128)
    + Ones(ring, 256) + Ones(ring, 512) + Ones(ring, 1024) + Ones(ring, 2048)
    + Ones(ring, 4096) + Ones(ring, 8192) + Ones(ring, 16384) + Ones(ring, 32768)
  }

  function Misses(results: seq<bool>): (r: nat)
    ensures r <= |results|
  {
    if results == [] then 0 else One(results[0]) + Misses(results[1..])
  }

  lemma OnesAreMisses(ring: bv16)
    requires ring & !RING_MASK == 0
    ensures CountOnes(ring) == Misses(Bits(ring))
  {
    hide Bit;
    HighBitsAreClear(ring);
    MissesOfEight(Bits(ring));
  }

  lemma HighBitsAreClear(ring: bv16)
    requires ring & !RING_MASK == 0
    ensures !Bit(ring, 256) && !Bit(ring, 512) && !Bit(ring, 1024) && !Bit(ring, 2048)
        && !Bit(ring, 4096) && !Bit(ring, 8192) && !Bit(ring, 16384) && !Bit(ring, 32768)
  {
  }

  function One(miss: bool): nat {
    if miss then 1 else 0
  }

  lemma MissesOfEight(w: seq<bool>)
    requires |w| == WINDOW
    ensures Misses(w) == One(w[0]) + One(w[1]) + One(w[2]) + One(w[3]) + One(w[4]) + One(w[5]) + One(w[6]) + One(w[7])
  {
    hide Misses;
    assert w[0..] == w;
    MissesAt(w, 0);
    MissesAt(w, 1);
    MissesAt(w, 2);
    MissesAt(w, 3);
    MissesAt(w, 4);
    MissesAt(w, 5);
    MissesAt(w, 6);
    MissesAt(w, 7);
    MissesOfHits(w[8..]);
  }

  lemma MissesAt(w: seq<bool>, i: nat)
    requires i < |w|
    ensures Misses(w[i..]) == One(w[i]) + Misses(w[i + 1..])
  {
    assert w[i..][1..] == w[i + 1..];
  }

  lemma MissesCons(first: bool, rest: seq<bool>)
    ensures Misses([first] + rest) == One(first) + Misses(rest)
  {
    assert ([first] + rest)[1..] == rest;
  }

  // ---- misses ----

  /** The last eight results, `false` where there are fewer. */
  function LastEight(history: seq<bool>): (r: seq<bool>)
    ensures |r| == WINDOW
  {
    (history + seq(WINDOW, _ => false))[..WINDOW]
  }

  /** What overload means for the full list of results since the last reset, newest first. */
  predicate Overloaded(history: seq<bool>, threshold: nat) {
    |history| >= WINDOW && Misses(history[..WINDOW]) >= threshold
  }

  /** Eight results, and as many misses among them as the threshold says. */
  lemma OverloadedIff(history: seq<bool>, threshold: nat)
    ensures Overloaded(history, threshold) <==> |history| >= 8 && multiset(history[..8])[true] >= threshold
  {
    if |history| >= 8 {
      MissesAreTrues(history[..8]);
    }
  }

  lemma {:induction false} MissesAreTrues(results: seq<bool>)
    ensures Misses(results) == multiset(results)[true]
  {
    if results != [] {
      MissesAreTrues(results[1..]);
      assert results == [results[0]] + results[1..];
    }
  }

  /** A ring and its fill count stand for the results of one slot. */
  ghost predicate Tracks(ring: bv16, filled: nat, history: seq<bool>) {
    ring & !RING_MASK == 0 && Bits(ring) == LastEight(history) && filled == Min(|history|, WINDOW)
  }

  lemma NothingTracked()
    ensures Tracks(0, 0, [])
  {
  }

  lemma PushTracks(ring: bv16, filled: nat, history: seq<bool>, miss: bool)
    requires Tracks(ring, filled, history)
    ensures Tracks(Pushed(ring, miss), if filled < WINDOW then filled + 1 else filled, [miss] + history)
  {
    hide Bits, LastEight, Pushed;
    PushShifts(ring, miss);
    PushLastEight(history, miss);
  }

  /** The eight-bit window answers the question about the whole history. */
  lemma WindowDecides(ring: bv16, filled: nat, history: seq<bool>, threshold: nat)
    requires Tracks(ring, filled, history)
    ensures filled >= WINDOW && CountOnes(ring) >= threshold <==> Overloaded(history, threshold)
  {
    hide Bits, CountOnes, Misses;
    OnesAreMisses(ring);
    if filled >= WINDOW {
      assert LastEight(history) == history[..WINDOW];
    }
  }

  class MissTracker<K(==)> {
    const rings: array<bv16>
    const filled: array<nat>
    const lastKeys: array<Option<K>>
    const threshold: nat
    /** Every result recorded for a slot since its last reset, newest first. */
    ghost var history: seq<seq<bool>>

    ghost predicate Valid()
      reads this, rings, filled
    {
      && rings.Length == filled.Length == lastKeys.Length == |history| == SLOT_COUNT
      && 1 <= threshold <= WINDOW
      && (rings as object) != filled && (rings as object) != lastKeys && (filled as object) != lastKeys
      && forall i :: 0 <= i < SLOT_COUNT ==> Tracks(rings[i], filled[i], history[i])
    }

    /** `setting` is the parsed environment variable, if there is one. */
    constructor (setting: Option<nat>)
      ensures Valid() && fresh(rings) && fresh(filled) && fresh(lastKeys)
      ensures threshold == if setting.Some? && 1 <= setting.value <= 8 then setting.value else 5
      ensures forall i :: 0 <= i < SLOT_COUNT ==> history[i] == [] && lastKeys[i] == None
    {
      hide Tracks;
      NothingTracked();
      rings, filled := new bv16[SLOT_COUNT](_ => 0), new nat[SLOT_COUNT](_ => 0);
      lastKeys := new Option<K>[SLOT_COUNT](_ => None);
      threshold := if setting.Some? && 1 <= setting.value <= WINDOW then setting.value else DEFAULT_THRESHOLD;
      history := [[], [], [], []];
    }

    method LastKey(slot: Slot) returns (key: Option<K>)
      requires Valid()
      ensures key == lastKeys[slot.Index()]
    {
      key := lastKeys[slot.Index()];
    }

    method SetLastKey(slot: Slot, key: Option<K>)
      requires Valid()
      modifies lastKeys
      ensures Valid() && lastKeys[..] == old(lastKeys[..])[slot.Index() := key]
    {
      hide Tracks;
      lastKeys[slot.Index()] := key;
    }

    method Reset(slot: Slot)
      requires Valid()
      modifies this, rings, filled, lastKeys
      ensures Valid() && history == old(history)[slot.Index() := []]
      ensures lastKeys[..] == old(lastKeys[..])[slot.Index() := None]
    {
      hide Tracks;
      NothingTracked();
      rings[slot.Index()] := 0;
      filled[slot.Index()] := 0;
      lastKeys[slot.Index()] := None;
      history := history[slot.Index() := []];
    }

    method Record(slot: Slot, miss: bool)
      requires Valid()
      modifies this, rings, filled
      ensures Valid() && history == old(history)[slot.Index() := [miss] + old(history[slot.Index()])]
    {
      hide Tracks, Pushed;
      var i := slot.Index();
      PushTracks(rings[i], filled[i], history[i], miss);
      rings[i] := Pushed(rings[i], miss);
      if filled[i] < WINDOW {
        filled[i] := filled[i] + 1;
      }
      history := history[i := [miss] + history[i]];
    }

    method IsOverloaded(slot: Slot) returns (overloaded: bool)
      requires Valid()
      ensures overloaded <==> Overloaded(history[slot.Index()], threshold)
    {
      hide Tracks, CountOnes, Overloaded;
      var i := slot.Index();
      WindowDecides(rings[i], filled[i], history[i], threshold);
      overloaded := filled[i] >= WINDOW && CountOnes(rings[i]) >= threshold;
    }
  }

  lemma PushLastEight(history: seq<bool>, miss: bool)
    ensures LastEight([miss] + history) == [miss] + LastEight(history)[..WINDOW - 1]
  {
  }

  lemma {:induction false} MissesConcat(a: seq<bool>, b: seq<bool>)
    ensures Misses(a + b) == Misses(a) + Misses(b)
  {
    if a == [] {
      assert a + b == b;
    } else {
      assert (a + b)[1..] == a[1..] + b;
      MissesConcat(a[1..], b);
    }
  }

  lemma {:induction false} MissesOfHits(results: seq<bool>)
    requires forall i :: 0 <= i < |results| ==> !results[i]
    ensures Misses(results) == 0
  {
    if results != [] {
      MissesOfHits(results[1..]);
    }
  }

  lemma {:induction false} MissesOfMisses(results: seq<bool>)
    requires forall i :: 0 <= i < |results| ==> results[i]
    ensures Misses(results) == |results|
  {
    if results != [] {
      MissesOfMisses(results[1..]);
    }
  }

  /** That many hits in a row always lead back to the bitmap path. */
  lemma HitsEndOverload(history: seq<bool>, threshold: nat)
    requires 1 <= threshold <= WINDOW && |history| >= WINDOW - threshold + 1
    requires forall i :: 0 <= i < WINDOW - threshold + 1 ==> !history[i]
    ensures !Overloaded(history, threshold)
  {
    var hits := WINDOW - threshold + 1;
    if |history| >= WINDOW {
      var window := history[..WINDOW];
      assert window == window[..hits] + window[hits..];
      MissesConcat(window[..hits], window[hits..]);
      MissesOfHits(window[..hits]);
    }
  }

  /** One hit fewer is not enough after a full window of misses. */
  lemma FewerHitsDoNot(history: seq<bool>, hits: nat, threshold: nat)
    requires 1 <= threshold <= WINDOW && hits <= WINDOW - threshold
    requires |history| >= WINDOW && forall i :: 0 <= i < |history| ==> (history[i] <==> i >= hits)
    ensures Overloaded(history, threshold)
  {
    var window := history[..WINDOW];
    assert window == window[..hits] + window[hits..];
    MissesConcat(window[..hits], window[hits..]);
    MissesOfMisses(window[hits..]);
  }

  /** Overload is entered only by a miss and left only by a hit. */
  lemma OverloadChanges(history: seq<bool>, miss: bool, threshold: nat)
    requires 1 <= threshold <= WINDOW && |history| >= WINDOW
    ensures Overloaded([miss] + history, threshold) && !Overloaded(history, threshold) ==> miss
    ensures !Overloaded([miss] + history, threshold) && Overloaded(history, threshold) ==> !miss
  {
    var window, last := history[..WINDOW - 1], history[WINDOW - 1];
    assert history[..WINDOW] == window + [last];
    assert ([miss] + history)[..WINDOW] == [miss] + window;
    MissesConcat(window, [last]);
    MissesCons(miss, window);
    MissesCons(last, []);
    assert [last] + [] == [last];
  }

  // ---- unused slots ----

  /** How many paints in a row, up to the newest, did not use the slot. */
  function UnusedPaints(history: seq<bool>): (r: nat)
    ensures r <= |history| && forall i :: 0 <= i < r ==> !history[i]
    ensures r < |history| ==> history[r]
  {
    if history == [] || history[0] then 0 else 1 + UnusedPaints(history[1..])
  }

  class UnusedSlotTracker {
    const paints: array<nat>
    /** Whether each paint used the slot, newest first. */
    ghost var history: seq<seq<bool>>

    ghost predicate Valid()
      reads this, paints
    {
      && paints.Length == |history| == SLOT_COUNT
      && forall i :: 0 <= i < SLOT_COUNT ==> Counts(paints[i], history[i])
    }

    constructor ()
      ensures Valid() && fresh(paints) && history == [[], [], [], []]
    {
      paints := new nat[SLOT_COUNT](_ => 0);
      history := [[], [], [], []];
    }

    /** A slot is reported exactly at every sixteenth paint in a row that does not use it. */
    method Record(used: seq<bool>) returns (toPrune: seq<bool>)
      requires Valid() && |used| == SLOT_COUNT
      modifies this, paints
      ensures Valid() && |toPrune| == SLOT_COUNT
      ensures forall i :: 0 <= i < SLOT_COUNT ==>
        history[i] == [used[i]] + old(history[i]) && (toPrune[i] <==> IsDue(history[i]))
    {
      hide Counts, IsDue;
      toPrune := [false, false, false, false];
      ghost var before := history;
      for i := 0 to SLOT_COUNT
        invariant |toPrune| == SLOT_COUNT && Valid()
        invariant forall j :: 0 <= j < i ==> history[j] == [used[j]] + before[j] && (toPrune[j] <==> IsDue(history[j]))
        invariant forall j :: i <= j < SLOT_COUNT ==> history[j] == before[j] && !toPrune[j]
      {
        PaintStep(paints[i], history[i], used[i]);
        history := history[i := [used[i]] + history[i]];
        if used[i] {
          paints[i] := 0;
          continue;
        }
        paints[i] := Min(paints[i] + 1, 0xFF);
        if paints[i] >= GRACE {
          paints[i] := 0;
          toPrune := toPrune[i := true];
        }
      }
    }
  }

  ghost predicate Counts(paints: nat, history: seq<bool>) {
    paints == UnusedPaints(history) % GRACE
  }

  /** The newest paint is the sixteenth, thirty-second, … in a row without the slot. */
  ghost predicate IsDue(history: seq<bool>) {
    UnusedPaints(history) > 0 && UnusedPaints(history) % 16 == 0
  }

  lemma PaintStep(paints: nat, history: seq<bool>, used: bool)
    requires Counts(paints, history)
    ensures paints < GRACE
    ensures used ==> Counts(0, [used] + history) && !IsDue([used] + history)
    ensures !used && paints + 1 < GRACE ==> Counts(paints + 1, [used] + history) && !IsDue([used] + history)
    ensures !used && paints + 1 == GRACE ==> Counts(0, [used] + history) && IsDue([used] + history)
  {
    assert ([used] + history)[1..] == history;
  }

  /** How often a slot has been reported when its history is `history`. */
  ghost function Prunes(history: seq<bool>): nat {
    if history == [] then 0 else Prunes(history[1..]) + (if IsDue(history) then 1 else 0)
  }

  /** Over a stretch without use a slot is dropped once per sixteen paints, never sooner. */
  lemma {:induction false} PruneRate(history: seq<bool>, count: nat)
    requires count == UnusedPaints(history)
    ensures Prunes(history) == Prunes(history[count..]) + count / 16
  {
    if count > 0 {
      PruneRate(history[1..], count - 1);
      assert history[1..][count - 1..] == history[count..];
    }
  }
}
