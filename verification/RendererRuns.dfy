/** Whole runs of the renderer: what they draw, and the states in which they leave the slots. */
module RendererRuns {
  import opened Prelude
  import opened CacheTrackers
  import opened OverloadRecovery
  import opened TextStyle
  import opened Renderer

  datatype Call =
    | DrawCall(slot: Slot, text: string, box: TextBox, style: TextRenderStyle)
    | PruneCall(used: seq<bool>)
    | DeviceLost(setting: Option<nat>)

  predicate WellFormedCall(call: Call) {
    call.PruneCall? ==> |call.used| == SLOT_COUNT
  }

  /** What one call adds to the picture. */
  function Shown(call: Call): seq<Layer> {
    if call.DrawCall? then Reference(call.text, call.style, call.box.x, call.box.y, call.box.maxWidth) else []
  }

  /** What the calls draw, said without any cache. */
  function Picture(calls: seq<Call>): seq<Layer> {
    if calls == [] then [] else Picture(calls[..|calls| - 1]) + Shown(calls[|calls| - 1])
  }

  lemma NothingDrawn(layers: seq<Layer>)
    ensures layers + Picture([]) == layers
  {
  }

  lemma PictureStep(layers: seq<Layer>, calls: seq<Call>, n: nat)
    requires n < |calls|
    ensures layers + Picture(calls[..n + 1]) == layers + Picture(calls[..n]) + Shown(calls[n])
  {
    assert calls[..n + 1][..n] == calls[..n];
    Associate(layers, Picture(calls[..n]), Shown(calls[n]));
  }

  ghost function Footprint(r: D2DRenderer): set<object>
    reads r
  {
    r.Tracker() + {r.unusedSlots, r.unusedSlots.paints}
  }

  /** The renderer can be called, and every slot is in a state that draws lead to from an empty one. */
  ghost predicate Ready(r: D2DRenderer, target: RenderTarget)
    reads r, Footprint(r), target
  {
    r.Valid() && r.AllOccur() && target.AtIdentity()
  }

  /** Any run of draws, prunes and device losses: the slots are always in states that draws lead to, and the
      picture is that of the calls, unless a draw fails. */
  method RunCalls(r: D2DRenderer, target: RenderTarget, calls: seq<Call>) returns (allDrawn: bool)
    requires Ready(r, target)
    requires forall i :: 0 <= i < |calls| ==> WellFormedCall(calls[i])
    modifies r, Footprint(r), target
    ensures Ready(r, target)
    ensures allDrawn ==> target.layers == old(target.layers) + Picture(calls)
    ensures r.reliable && target.reliable ==> allDrawn
  {
    NothingDrawn(target.layers);
    hide Picture, Shown, Ready, WellFormedCall;
    allDrawn := true;
    for n := 0 to |calls|
      invariant Ready(r, target)
      invariant forall o :: o in Footprint(r) ==> o in old(Footprint(r)) || fresh(o)
      invariant allDrawn ==> target.layers == old(target.layers) + Picture(calls[..n])
      invariant r.reliable && target.reliable ==> allDrawn
    {
      var drawn := RunCall(r, target, calls[n]);
      PictureStep(old(target.layers), calls, n);
      allDrawn := allDrawn && drawn;
    }
    assert calls[..|calls|] == calls;
  }

  method RunCall(r: D2DRenderer, target: RenderTarget, call: Call) returns (drawn: bool)
    requires Ready(r, target) && WellFormedCall(call)
    modifies r, Footprint(r), target
    ensures Ready(r, target)
    ensures forall o :: o in Footprint(r) ==> o in old(Footprint(r)) || fresh(o)
    ensures drawn ==> target.layers == old(target.layers) + Shown(call)
    ensures r.reliable && target.reliable ==> drawn
  {
    hide Reference, AllStatesOccur;
    drawn := true;
    match call {
      case DrawCall(slot, text, box, style) => drawn := r.DrawText(target, slot, text, box, style);
      case PruneCall(used) => r.PruneUnusedSlots(used);
      case DeviceLost(setting) => r.InvalidateDeviceCaches(setting);
    }
    assert !call.DrawCall? ==> target.layers == target.layers + [];
  }

  // ---- a run that never comes back to a bitmap ----

  /** Texts that differ. */
  function Letters(n: nat): string {
    seq(n + 1, _ => 'a')
  }

  function LetterKey(style: TextRenderStyle, box: TextBox): nat -> OutlineBitmapKey {
    (n: nat) => BitmapKeyOf(Letters(n), style, box.maxWidth, box.maxHeight)
  }

  lemma LettersDiffer(style: TextRenderStyle, box: TextBox)
    ensures Injective(LetterKey(style, box))
  {
    forall m: nat, n: nat | LetterKey(style, box)(m) == LetterKey(style, box)(n)
      ensures m == n
    {
      assert Letters(m) == Letters(n);
      assert |Letters(m)| == m + 1 && |Letters(n)| == n + 1;
    }
  }

  method DrawLetters(r: D2DRenderer, target: RenderTarget, slot: Slot, n: nat, box: TextBox, style: TextRenderStyle)
    requires r.Valid() && target.AtIdentity() && r.reliable && target.reliable && HasEffects(style)
    modifies r, Footprint(r), target
    ensures r.Valid() && target.AtIdentity() && r.missTracker == old(r.missTracker)
    ensures Footprint(r) == old(Footprint(r))
    ensures r.StateOf(slot)
         == Drawn(old(r.StateOf(slot)), Draw(LetterKey(style, box)(n), true, true), r.missTracker.threshold)
  {
    hide BitmapKeyOf, Drawn, Reference, AllStatesOccur;
    var _ := r.DrawText(target, slot, Letters(n), box, style);
  }

  /** The nine draws of `NineDraws`, made by the renderer. */
  method DrawNine(r: D2DRenderer, target: RenderTarget, slot: Slot, box: TextBox, style: TextRenderStyle)
    requires r.Valid() && target.AtIdentity() && r.reliable && target.reliable && HasEffects(style)
    requires r.StateOf(slot) == FreshSlot()
    modifies r, Footprint(r), target
    ensures r.Valid() && target.AtIdentity() && r.missTracker == old(r.missTracker)
    ensures Footprint(r) == old(Footprint(r))
    ensures var threshold := r.missTracker.threshold;
      r.StateOf(slot) == Renamed(DrawnAll(FreshSlot(), NineDraws(threshold, 9), threshold), LetterKey(style, box))
  {
    hide BitmapKeyOf, Drawn, Reference, TextAt, AllStatesOccur;
    ghost var name, threshold := LetterKey(style, box), r.missTracker.threshold;
    LettersDiffer(style, box);
    for i := 0 to 9
      invariant r.Valid() && target.AtIdentity() && r.missTracker == old(r.missTracker)
      invariant Footprint(r) == old(Footprint(r))
      invariant r.StateOf(slot) == Renamed(DrawnAll(FreshSlot(), NineDraws(threshold, i), threshold), name)
    {
      ghost var s := DrawnAll(FreshSlot(), NineDraws(threshold, i), threshold);
      var n := TextAt(r.missTracker.threshold, i);
      DrawLetters(r, target, slot, n, box, style);
      RenamedDraw(s, n, name, threshold);
      NextDraw(threshold, i);
    }
  }

  /** With a threshold of four or less, draws of at most four texts, with nothing failing, lead a fresh slot to
      where the last of them can be drawn any number of times more: its bitmap is never found cached. */
  method NeverCached(r: D2DRenderer, target: RenderTarget, slot: Slot, box: TextBox, style: TextRenderStyle,
                     repeats: nat)
    requires r.Valid() && target.AtIdentity() && r.reliable && target.reliable && HasEffects(style)
    requires r.StateOf(slot) == FreshSlot() && r.missTracker.threshold <= 4
    modifies r, Footprint(r), target
    ensures r.Valid() && target.AtIdentity()
    ensures r.StateOf(slot).last ==
      Some(BitmapKeyOf(Letters(r.missTracker.threshold - 1), style, box.maxWidth, box.maxHeight))
    ensures !UsesBitmap(View(r.StateOf(slot)), r.missTracker.threshold)
  {
    hide BitmapKeyOf, Drawn, Reference, UsesBitmap, Redraws, AllStatesOccur;
    DrawNine(r, target, slot, box, style);
    LettersDiffer(style, box);
    ghost var s := NeverSettles(r.missTracker.threshold);
    RenamedView(s, LetterKey(style, box));
    r.Repeat(target, slot, Letters(r.missTracker.threshold - 1), box, style, repeats);
  }
}
