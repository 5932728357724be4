/** The cached text renderer: two drawing paths and four kinds of caches, one picture. */
module Renderer {
  import opened Prelude
  import opened CacheTrackers
  import opened OverloadRecovery
  import opened TextStyle

  /** A render target; `layers` is what has been drawn on it. If it is `reliable`, it can always
      create brushes and bitmaps. */
  class RenderTarget {
    const reliable: bool
    var layers: seq<Layer>
    var originX: real
    var originY: real

    /** Between calls of the renderer the transform is the identity. */
    ghost predicate AtIdentity()
      reads this
    {
      originX == 0.0 && originY == 0.0
    }

    constructor (reliable: bool)
      ensures this.reliable == reliable && layers == [] && AtIdentity()
    {
      this.reliable, layers, originX, originY := reliable, [], 0.0, 0.0;
    }

    method SetTransform(dx: real, dy: real)
      modifies this
      ensures layers == old(layers) && originX == dx && originY == dy
    {
      originX, originY := dx, dy;
    }

    method DrawGeometry(geometry: Geometry, brush: Brush, width: int)
      modifies this`layers
      ensures layers == old(layers) + [Stroke(geometry, originX, originY, width, brush.color)]
    {
      layers := layers + [Stroke(geometry, originX, originY, width, brush.color)];
    }

    method FillGeometry(geometry: Geometry, brush: Brush)
      modifies this`layers
      ensures layers == old(layers) + [Fill(geometry, originX, originY, brush.color)]
    {
      layers := layers + [Fill(geometry, originX, originY, brush.color)];
    }

    method DrawTextLayout(x: real, y: real, layout: Layout, brush: Brush, colorFont: bool)
      modifies this`layers
      ensures layers == old(layers) + [Glyphs(layout, originX + x, originY + y, brush.color, colorFont)]
    {
      layers := layers + [Glyphs(layout, originX + x, originY + y, brush.color, colorFont)];
    }

    /** A bitmap shows the layers that were drawn on it, moved to where it is put. */
    method DrawBitmap(bitmap: seq<Layer>, left: real, top: real)
      modifies this`layers
      ensures layers == old(layers) + Moved(bitmap, originX + left, originY + top)
    {
      layers := layers + Moved(bitmap, originX + left, originY + top);
    }

    method CreateSolidColorBrush(color: Color) returns (brush: Option<Brush>)
      ensures brush.Some? ==> brush.value == SolidColor(color)
      ensures reliable ==> brush.Some?
    {
      var created: bool := *;
      brush := if created || reliable then Some(SolidColor(color)) else None;
    }

    method CreateCompatibleRenderTarget() returns (inner: RenderTarget, ok: bool)
      ensures fresh(inner) && inner.layers == [] && inner.AtIdentity() && inner.reliable == reliable
      ensures reliable ==> ok
    {
      inner := new RenderTarget(reliable);
      ok := *;
      ok := ok || reliable;
    }
  }

  datatype TextLayoutCache = TextLayoutCache(key: LayoutKey, layout: Layout, outline: Option<Geometry>) {
    /** The entry holds what its key asks for. */
    predicate Belongs() {
      layout == LayoutOf(key) && (outline.Some? ==> outline.value == OutlineOf(layout))
    }
  }

  datatype OutlineBitmap = OutlineBitmap(
    key: OutlineBitmapKey, bitmap: seq<Layer>, layout: Layout, padLeft: real, padTop: real) {
    predicate Belongs() {
      && layout == LayoutOf(key.LayoutPart(MEASURE_MAX_HEIGHT))
      && bitmap == EffectLayers(EffectsOf(key), layout, padLeft, padTop)
    }
  }

  /** The effect values that a key stands for. */
  function EffectsOf(key: OutlineBitmapKey): EffectiveOutlineStyle {
    EffectiveOutlineStyle(
      key.outline1Size, key.outline1Color, key.outline2Size, key.outline2Color,
      Min(key.outline1Size + key.outline2Size, I32_MAX),
      key.shadowEnabled, key.shadowColor, key.shadowOffsetX, key.shadowOffsetY)
  }

  lemma KeyKeepsStyle(text: string, style: TextRenderStyle, maxWidth: real, maxHeight: real)
    ensures EffectsOf(BitmapKeyOf(text, style, maxWidth, maxHeight)) == FromStyle(style)
    ensures BitmapKeyOf(text, style, maxWidth, maxHeight).maxHeight == maxHeight
    ensures BitmapKeyOf(text, style, maxWidth, maxHeight).LayoutPart(MEASURE_MAX_HEIGHT)
         == LayoutKeyOf(text, style, maxWidth, MEASURE_MAX_HEIGHT)
  {
  }

  datatype TextBox = TextBox(x: real, y: real, maxWidth: real, maxHeight: real)

  datatype Bounds = Bounds(width: real, height: real, originX: real, originY: real)

  datatype Overhang = Overhang(left: real, top: real, right: real, bottom: real)

  function MaxReal(a: real, b: real): real {
    if a < b then b else a
  }

  function Ceiling(a: real): real {
    -((-a).Floor as real)
  }

  /** The bitmap holds the text box, its overhang, both outlines and the shadow in any direction. */
  function ComputeOutlineBitmapBounds(contentWidth: real, contentHeight: real, overhang: Overhang,
                                      outlineTotal: real, shadowDx: real, shadowDy: real): (r: Bounds)
    requires outlineTotal >= 0.0
    ensures r.originX - outlineTotal - MaxReal(overhang.left, 0.0) >= 0.0
    ensures r.originX + shadowDx - outlineTotal - MaxReal(overhang.left, 0.0) >= 0.0
    ensures r.originY - outlineTotal - MaxReal(overhang.top, 0.0) >= 0.0
    ensures r.originY + shadowDy - outlineTotal - MaxReal(overhang.top, 0.0) >= 0.0
    ensures r.originX + contentWidth + MaxReal(overhang.right, 0.0) + outlineTotal <= r.width
    ensures r.originX + shadowDx + contentWidth + MaxReal(overhang.right, 0.0) + outlineTotal <= r.width
    ensures r.originY + contentHeight + MaxReal(overhang.bottom, 0.0) + outlineTotal <= r.height
    ensures r.originY + shadowDy + contentHeight + MaxReal(overhang.bottom, 0.0) + outlineTotal <= r.height
    ensures r.width >= 1.0 && r.height >= 1.0
  {
    var originX := outlineTotal + MaxReal(-shadowDx, 0.0) + MaxReal(overhang.left, 0.0);
    var originY := outlineTotal + MaxReal(-shadowDy, 0.0) + MaxReal(overhang.top, 0.0);
    Bounds(
      MaxReal(Ceiling(originX + MaxReal(contentWidth, 0.0) + MaxReal(overhang.right, 0.0)
                      + outlineTotal + MaxReal(shadowDx, 0.0)), 1.0),
      MaxReal(Ceiling(originY + MaxReal(contentHeight, 0.0) + MaxReal(overhang.bottom, 0.0)
                      + outlineTotal + MaxReal(shadowDy, 0.0)), 1.0),
      originX, originY)
  }

  /** The renderer. If it is `reliable`, DirectWrite and the factory never fail. */
  class D2DRenderer {
    const reliable: bool
    var brushCache: map<Color, Brush>
    var textCache: seq<Option<TextLayoutCache>>
    var outlineBitmap: seq<Option<OutlineBitmap>>
    var missTracker: MissTracker<OutlineBitmapKey>
    var unusedSlots: UnusedSlotTracker

    ghost function Tracker(): set<object>
      reads this
    {
      {missTracker, missTracker.rings, missTracker.filled, missTracker.lastKeys}
    }

    /** Every cached thing belongs to the key it is stored under. */
    ghost predicate CachesBelong()
      reads this
    {
      && |textCache| == |outlineBitmap| == SLOT_COUNT
      && (forall i :: 0 <= i < SLOT_COUNT && textCache[i].Some? ==> textCache[i].value.Belongs())
      && (forall i :: 0 <= i < SLOT_COUNT && outlineBitmap[i].Some? ==> outlineBitmap[i].value.Belongs())
      && (forall color :: color in brushCache ==> brushCache[color] == SolidColor(color))
    }

    ghost predicate Valid()
      reads this, Tracker(), unusedSlots, unusedSlots.paints
    {
      && CachesBelong() && missTracker.Valid() && unusedSlots.Valid()
      && (unusedSlots.paints as object) !in Tracker()
    }

    constructor (setting: Option<nat>, reliable: bool)
      ensures this.reliable == reliable
      ensures Valid() && fresh(Tracker()) && fresh(unusedSlots) && fresh(unusedSlots.paints)
      ensures textCache == [None, None, None, None] && outlineBitmap == [None, None, None, None] && brushCache == map[]
      ensures (forall slot: Slot :: StateOf(slot) == FreshSlot()) && AllOccur()
    {
      this.reliable, brushCache := reliable, map[];
      textCache, outlineBitmap := [None, None, None, None], [None, None, None, None];
      missTracker := new MissTracker(setting);
      unusedSlots := new UnusedSlotTracker();
      new;
      EmptyOccurs(missTracker.history, outlineBitmap, missTracker.lastKeys[..], missTracker.threshold);
    }

    method GetOrCreateBrush(target: RenderTarget, color: Color) returns (brush: Option<Brush>)
      requires CachesBelong()
      modifies this`brushCache
      ensures CachesBelong() && (target.reliable ==> brush.Some?)
      ensures brush.Some? ==> brush.value == SolidColor(color)
      ensures brushCache == if brush.Some? then old(brushCache)[color := SolidColor(color)] else old(brushCache)
    {
      if color in brushCache {
        return Some(brushCache[color]);
      }
      brush := target.CreateSolidColorBrush(color);
      if brush.Some? {
        brushCache := brushCache[color := brush.value];
      }
    }

    method CreateTextLayoutUncached(text: string, style: TextRenderStyle, maxWidth: real, maxHeight: real)
      returns (layout: Option<Layout>)
      ensures layout.Some? ==> layout.value == LayoutOf(LayoutKeyOf(text, style, maxWidth, maxHeight))
      ensures reliable ==> layout.Some?
    {
      var created: bool := *;
      if !created && !reliable {
        return None;
      }
      return Some(Layout(text, style.fontFace, style.fontSize, style.fontStyle & 1 != 0, style.fontStyle & 2 != 0,
                         style.textAlign, maxWidth, maxHeight));
    }

    method GetOrCreateLayout(slot: Slot, text: string, style: TextRenderStyle, maxWidth: real, maxHeight: real)
      returns (layout: Option<Layout>)
      requires CachesBelong()
      modifies this`textCache
      ensures CachesBelong() && Others(slot, old(textCache), textCache)
      ensures layout.Some? ==>
        && layout.value == LayoutOf(LayoutKeyOf(text, style, maxWidth, maxHeight))
        && textCache[slot.Index()].Some?
        && textCache[slot.Index()].value.key == LayoutKeyOf(text, style, maxWidth, maxHeight)
      ensures layout.None? ==> textCache == old(textCache) && !reliable
      ensures old(textCache)[slot.Index()].Some?
        && old(textCache)[slot.Index()].value.key == LayoutKeyOf(text, style, maxWidth, maxHeight)
        ==> layout.Some? && textCache == old(textCache)
    {
      var key := LayoutKeyOf(text, style, maxWidth, maxHeight);
      var cached := textCache[slot.Index()];
      if cached.Some? && key.Matches(cached.value.key) {
        return Some(cached.value.layout);
      }
      layout := CreateTextLayoutUncached(text, style, maxWidth, maxHeight);
      if layout.Some? {
        textCache := textCache[slot.Index() := Some(TextLayoutCache(key, layout.value, None))];
      }
    }

    method GetOrCreateOutlineGeometry(slot: Slot, text: string, style: TextRenderStyle, maxWidth: real, maxHeight: real)
      returns (geometry: Option<Geometry>)
      requires CachesBelong()
      modifies this`textCache
      ensures CachesBelong() && Others(slot, old(textCache), textCache)
      ensures geometry.Some? ==>
        && geometry.value == OutlineOf(LayoutOf(LayoutKeyOf(text, style, maxWidth, maxHeight)))
        && textCache[slot.Index()].Some?
        && textCache[slot.Index()].value.key == LayoutKeyOf(text, style, maxWidth, maxHeight)
        && textCache[slot.Index()].value.outline.Some?
      ensures reliable ==> geometry.Some?
    {
      var layout := GetOrCreateLayout(slot, text, style, maxWidth, maxHeight);
      if layout.None? {
        return None;
      }
      var cached := textCache[slot.Index()].value;
      if cached.outline.Some? {
        return cached.outline;
      }
      var drawn: bool := *;
      if !drawn && !reliable {
        return None;
      }
      geometry := Some(OutlineOf(cached.layout));
      textCache := textCache[slot.Index() := Some(cached.(outline := geometry))];
    }

    /** The geometry of the slot, stroked twice as wide as the outline is thick, and filled. */
    method StrokeFillOutlineAt(slot: Slot, target: RenderTarget, x: real, y: real, thickness: int, brush: Brush)
      requires CachesBelong() && target.AtIdentity()
      requires textCache[slot.Index()].Some? && textCache[slot.Index()].value.outline.Some?
      modifies target
      ensures target.AtIdentity()
      ensures target.layers == old(target.layers)
        + Outline(textCache[slot.Index()].value.layout, x, y, thickness, brush.color)
    {
      StrokeFill(target, textCache[slot.Index()].value.outline.value, x, y, thickness, brush);
    }

    static method StrokeFill(target: RenderTarget, geometry: Geometry, x: real, y: real, thickness: int, brush: Brush)
      modifies target
      ensures target.AtIdentity()
      ensures target.layers == old(target.layers) + Outline(geometry.layout, x, y, thickness, brush.color)
    {
      target.SetTransform(x, y);
      target.DrawGeometry(geometry, brush, thickness * 2);
      target.FillGeometry(geometry, brush);
      target.SetTransform(0.0, 0.0);
    }

    /** Draws without a bitmap. A failure leaves the first layers of the picture behind. */
    method DrawTextDirect(target: RenderTarget, slot: Slot, text: string, box: TextBox, style: TextRenderStyle)
      returns (ok: bool)
      requires CachesBelong() && target.AtIdentity()
      modifies this`brushCache, this`textCache, target
      ensures reliable && target.reliable ==> ok
      ensures CachesBelong() && Others(slot, old(textCache), textCache) && target.AtIdentity()
      ensures ok ==>
        && target.layers == old(target.layers) + Reference(text, style, box.x, box.y, box.maxWidth)
        && textCache[slot.Index()].Some?
        && textCache[slot.Index()].value.key == LayoutKeyOf(text, style, box.maxWidth, MEASURE_MAX_HEIGHT)
      ensures old(target.layers) <= target.layers <= old(target.layers)
        + Reference(text, style, box.x, box.y, box.maxWidth)
    {
      hide ShadowLayers, OuterLayers, InnerLayers, TextLayoutCache.Belongs, LayoutOf, FromStyle;
      var effects := FromStyle(style);
      var geometry := GetOrCreateOutlineGeometry(slot, text, style, box.maxWidth, MEASURE_MAX_HEIGHT);
      if geometry.None? {
        return false;
      }
      CachedLayout(textCache[slot.Index()].value);
      var layout := textCache[slot.Index()].value.layout;
      ok := DrawShadow(target, slot, effects, layout, box.x, box.y);
      if !ok {
        return;
      }
      ok := DrawOutlines(target, slot, effects, layout, box.x, box.y);
      if !ok {
        return;
      }
      var textBrush := GetOrCreateBrush(target, style.color);
      if textBrush.None? {
        return false;
      }
      target.DrawTextLayout(box.x, box.y, layout, textBrush.value, true);
    }

    method DrawOutlines(target: RenderTarget, slot: Slot, effects: EffectiveOutlineStyle, layout: Layout, x: real,
                        y: real)
      returns (ok: bool)
      requires CachesBelong() && target.AtIdentity()
      requires textCache[slot.Index()].Some? && textCache[slot.Index()].value.outline.Some?
        && textCache[slot.Index()].value.layout == layout
      modifies this`brushCache, target
      ensures reliable && target.reliable ==> ok
      ensures CachesBelong() && target.AtIdentity()
      ensures var layers := OuterLayers(effects, layout, x, y) + InnerLayers(effects, layout, x, y);
              old(target.layers) <= target.layers <= old(target.layers) + layers
              && (ok ==> target.layers == old(target.layers) + layers)
    {
      hide TextLayoutCache.Belongs, Outline;
      if effects.outline2Size > 0 && effects.outlineTotal > 0 {
        var brush := GetOrCreateBrush(target, effects.outline2Color);
        if brush.None? {
          return false;
        }
        StrokeFillOutlineAt(slot, target, x, y, effects.outlineTotal, brush.value);
      }
      assert target.layers == old(target.layers) + OuterLayers(effects, layout, x, y);
      if effects.outline1Size > 0 {
        var brush := GetOrCreateBrush(target, effects.outline1Color);
        if brush.None? {
          return false;
        }
        StrokeFillOutlineAt(slot, target, x, y, effects.outline1Size, brush.value);
      }
      ok := true;
    }

    method DrawShadow(target: RenderTarget, slot: Slot, effects: EffectiveOutlineStyle, layout: Layout, x: real,
                      y: real)
      returns (ok: bool)
      requires CachesBelong() && target.AtIdentity()
      requires textCache[slot.Index()].Some? && textCache[slot.Index()].value.outline.Some?
        && textCache[slot.Index()].value.layout == layout
      modifies this`brushCache, target
      ensures reliable && target.reliable ==> ok
      ensures CachesBelong() && target.AtIdentity()
      ensures target.layers == old(target.layers) + (if ok then ShadowLayers(effects, layout, x, y) else [])
    {
      if effects.hasShadow {
        var sx, sy := x + effects.shadowOffsetX as real, y + effects.shadowOffsetY as real;
        var brush := GetOrCreateBrush(target, effects.shadowColor);
        if brush.None? {
          return false;
        }
        if effects.outlineTotal > 0 {
          StrokeFillOutlineAt(slot, target, sx, sy, effects.outlineTotal, brush.value);
        }
        target.DrawTextLayout(sx, sy, layout, brush.value, false);
      }
      ok := true;
    }

    lemma CachedLayout(entry: TextLayoutCache)
      requires entry.Belongs()
      ensures entry.layout == LayoutOf(entry.key)
      ensures entry.outline.Some? ==> entry.outline.value == OutlineOf(entry.layout)
    {
    }

    method DrawOutlineOnly(slot: Slot, target: RenderTarget, text: string, style: TextRenderStyle, maxWidth: real,
                           maxHeight: real,
                           x: real, y: real, thickness: int, brush: Brush) returns (ok: bool)
      requires CachesBelong() && target.AtIdentity()
      modifies this`textCache, target
      ensures reliable ==> ok
      ensures CachesBelong() && Others(slot, old(textCache), textCache) && target.AtIdentity()
      ensures ok ==>
        target.layers == old(target.layers)
          + Outline(LayoutOf(LayoutKeyOf(text, style, maxWidth, maxHeight)), x, y, thickness, brush.color)
    {
      var geometry := GetOrCreateOutlineGeometry(slot, text, style, maxWidth, maxHeight);
      if geometry.None? {
        return false;
      }
      StrokeFill(target, geometry.value, x, y, thickness, brush);
      ok := true;
    }

    method PaintOutlineBitmapLayers(inner: RenderTarget, slot: Slot, text: string, style: TextRenderStyle,
                                    maxWidth: real,
                                    layout: Layout, effects: EffectiveOutlineStyle, originX: real, originY: real)
      returns (ok: bool)
      requires CachesBelong() && inner.AtIdentity()
      requires layout == LayoutOf(LayoutKeyOf(text, style, maxWidth, MEASURE_MAX_HEIGHT))
      modifies this`textCache, inner
      ensures reliable && inner.reliable ==> ok
      ensures CachesBelong() && Others(slot, old(textCache), textCache)
      ensures ok ==> inner.layers == old(inner.layers) + EffectLayers(effects, layout, originX, originY)
    {
      hide Outline, TextLayoutCache.Belongs, LayoutOf, ShadowLayers, OuterLayers, InnerLayers;
      ghost var start := inner.layers;
      ghost var shadow, outer, innerOutline := ShadowLayers(effects, layout, originX, originY),
        OuterLayers(effects, layout, originX, originY), InnerLayers(effects, layout, originX, originY);
      ok := PaintBitmapShadow(inner, slot, text, style, maxWidth, layout, effects, originX, originY);
      if ok {
        ok := PaintBitmapOutlines(inner, slot, text, style, maxWidth, layout, effects, originX, originY);
        Associate(start, shadow, outer);
        Associate(start, shadow + outer, innerOutline);
      }
    }

    method PaintBitmapOutlines(inner: RenderTarget, slot: Slot, text: string, style: TextRenderStyle, maxWidth: real,
                               layout: Layout, effects: EffectiveOutlineStyle, originX: real, originY: real)
      returns (ok: bool)
      requires CachesBelong() && inner.AtIdentity()
      requires layout == LayoutOf(LayoutKeyOf(text, style, maxWidth, MEASURE_MAX_HEIGHT))
      modifies this`textCache, inner
      ensures reliable && inner.reliable ==> ok
      ensures CachesBelong() && Others(slot, old(textCache), textCache)
      ensures ok ==>
        inner.layers == old(inner.layers) + OuterLayers(effects, layout, originX, originY)
          + InnerLayers(effects, layout, originX, originY)
    {
      hide Outline, TextLayoutCache.Belongs, LayoutOf;
      if effects.outline2Size > 0 && effects.outlineTotal > 0 {
        var brush := inner.CreateSolidColorBrush(effects.outline2Color);
        if brush.None? {
          return false;
        }
        ok := DrawOutlineOnly(slot, inner, text, style, maxWidth, MEASURE_MAX_HEIGHT, originX, originY,
                              effects.outlineTotal, brush.value);
        if !ok {
          return;
        }
      }
      if effects.outline1Size > 0 {
        var brush := inner.CreateSolidColorBrush(effects.outline1Color);
        if brush.None? {
          return false;
        }
        ok := DrawOutlineOnly(slot, inner, text, style, maxWidth, MEASURE_MAX_HEIGHT, originX, originY,
                              effects.outline1Size, brush.value);
        if !ok {
          return;
        }
      }
      ok := true;
    }

    method PaintBitmapShadow(inner: RenderTarget, slot: Slot, text: string, style: TextRenderStyle, maxWidth: real,
                             layout: Layout, effects: EffectiveOutlineStyle, originX: real, originY: real)
      returns (ok: bool)
      requires CachesBelong() && inner.AtIdentity()
      requires layout == LayoutOf(LayoutKeyOf(text, style, maxWidth, MEASURE_MAX_HEIGHT))
      modifies this`textCache, inner
      ensures reliable && inner.reliable ==> ok
      ensures CachesBelong() && Others(slot, old(textCache), textCache) && inner.AtIdentity()
      ensures ok ==> inner.layers == old(inner.layers) + ShadowLayers(effects, layout, originX, originY)
    {
      hide Outline, TextLayoutCache.Belongs, LayoutOf;
      if effects.hasShadow {
        var sx, sy := originX + effects.shadowOffsetX as real, originY + effects.shadowOffsetY as real;
        var brush := inner.CreateSolidColorBrush(effects.shadowColor);
        if brush.None? {
          return false;
        }
        if effects.outlineTotal > 0 {
          ok := DrawOutlineOnly(slot, inner, text, style, maxWidth, MEASURE_MAX_HEIGHT, sx, sy, effects.outlineTotal,
                                brush.value);
          if !ok {
            return;
          }
        }
        inner.DrawTextLayout(sx, sy, layout, brush.value, false);
      }
      ok := true;
    }

    /** Draws the effects on a bitmap of their own; `metrics` are the sizes DirectWrite reports. */
    method BuildOutlineBitmap(slot: Slot, target: RenderTarget, style: TextRenderStyle, key: OutlineBitmapKey,
                              layout: Layout)
      returns (r: Option<OutlineBitmap>)
      requires CachesBelong()
      requires key == BitmapKeyOf(key.text, style, key.maxWidth, key.maxHeight)
      requires layout == LayoutOf(LayoutKeyOf(key.text, style, key.maxWidth, MEASURE_MAX_HEIGHT))
      modifies this`textCache
      ensures reliable && target.reliable ==> r.Some?
      ensures CachesBelong() && Others(slot, old(textCache), textCache)
      ensures r.Some? ==> r.value.key == key && r.value.Belongs()
    {
      hide EffectLayers, LayoutOf, TextLayoutCache.Belongs, ComputeOutlineBitmapBounds;
      var effects := FromStyle(style);
      KeyKeepsStyle(key.text, style, key.maxWidth, key.maxHeight);
      var width: real, height: real, overhang: Overhang, measured: bool := *, *, *, *;
      if !measured && !reliable {
        return None;
      }
      var bounds := ComputeOutlineBitmapBounds(
        width, height, overhang, effects.outlineTotal as real, effects.shadowOffsetX as real,
        effects.shadowOffsetY as real);
      var inner, ok := target.CreateCompatibleRenderTarget();
      if !ok {
        return None;
      }
      ok := PaintOutlineBitmapLayers(inner, slot, key.text, style, key.maxWidth, layout, effects, bounds.originX,
                                     bounds.originY);
      var ended: bool := *;
      if !ok || (!ended && !target.reliable) {
        return None;
      }
      r := Some(OutlineBitmap(key, inner.layers, layout, bounds.originX, bounds.originY));
    }

    /** Finds or builds the effect bitmap of a text: `(hit, layout)`, or nothing on a failure. */
    method EnsureOutlineBitmap(slot: Slot, target: RenderTarget, key: OutlineBitmapKey, text: string,
                               style: TextRenderStyle, maxWidth: real)
      returns (r: Option<(bool, Layout)>)
      requires CachesBelong() && key == BitmapKeyOf(text, style, maxWidth, key.maxHeight)
      modifies this`textCache, this`outlineBitmap
      ensures reliable && target.reliable ==> r.Some?
      ensures CachesBelong() && Others(slot, old(textCache), textCache)
        && Others(slot, old(outlineBitmap), outlineBitmap)
      ensures Holds(old(outlineBitmap), slot, key) ==> r.Some? && r.value.0 && outlineBitmap == old(outlineBitmap)
      ensures r.Some? ==>
        && r.value.0 == Holds(old(outlineBitmap), slot, key)
        && r.value.1 == LayoutOf(LayoutKeyOf(text, style, maxWidth, MEASURE_MAX_HEIGHT))
        && Holds(outlineBitmap, slot, key)
    {
      hide LayoutOf, EffectLayers, TextLayoutCache.Belongs;
      KeyKeepsStyle(text, style, maxWidth, key.maxHeight);
      var i := slot.Index();
      if outlineBitmap[i].Some? && key.Matches(outlineBitmap[i].value.key) {
        return Some((true, outlineBitmap[i].value.layout));
      }
      var layout := GetOrCreateLayout(slot, text, style, maxWidth, MEASURE_MAX_HEIGHT);
      if layout.None? {
        return None;
      }
      var owned := key.ToOwnedReusingLayout(textCache[i].value.key);
      var built := BuildOutlineBitmap(slot, target, style, owned, layout.value);
      if built.None? {
        return None;
      }
      outlineBitmap := outlineBitmap[i := built];
      r := Some((false, layout.value));
    }

    method DrawPlain(target: RenderTarget, slot: Slot, text: string, box: TextBox, style: TextRenderStyle)
      returns (ok: bool)
      requires CachesBelong() && target.AtIdentity()
      modifies this`brushCache, this`textCache, target
      ensures reliable && target.reliable ==> ok
      ensures CachesBelong() && Others(slot, old(textCache), textCache) && target.AtIdentity()
      ensures target.layers == old(target.layers) + (if ok then
        [Glyphs(LayoutOf(LayoutKeyOf(text, style, box.maxWidth, MEASURE_MAX_HEIGHT)), box.x, box.y, style.color, true)]
        else [])
    {
      var layout := GetOrCreateLayout(slot, text, style, box.maxWidth, MEASURE_MAX_HEIGHT);
      if layout.None? {
        return false;
      }
      var brush := GetOrCreateBrush(target, style.color);
      if brush.None? {
        return false;
      }
      target.DrawTextLayout(box.x, box.y, layout.value, brush.value, true);
      ok := true;
    }

    /** Whether the next draw of `key` counts as a miss. */
    ghost predicate WillMiss(slot: Slot, key: OutlineBitmapKey)
      requires Valid()
      reads this, Tracker(), unusedSlots, unusedSlots.paints
    {
      if Overloaded(missTracker.history[slot.Index()], missTracker.threshold) then
        missTracker.lastKeys[slot.Index()] != Some(key)
      else !Holds(outlineBitmap, slot, key)
    }

    /** What the slot remembers between draws. */
    ghost function StateOf(slot: Slot): SlotState<OutlineBitmapKey>
      requires Valid()
      reads this, Tracker(), unusedSlots, unusedSlots.paints
    {
      SlotStateOf(slot, missTracker.history, outlineBitmap, missTracker.lastKeys[..])
    }

    /** Every slot is in a state that draws lead to from an empty one. */
    ghost predicate AllOccur()
      requires Valid()
      reads this, Tracker(), unusedSlots, unusedSlots.paints
    {
      AllStatesOccur(missTracker.history, outlineBitmap, missTracker.lastKeys[..], missTracker.threshold)
    }

    /** Draws a text with its effects. Which path is taken cannot be seen on the target. */
    method DrawText(target: RenderTarget, slot: Slot, text: string, box: TextBox, style: TextRenderStyle)
      returns (ok: bool)
      requires Valid() && target.AtIdentity()
      modifies this`brushCache, this`textCache, this`outlineBitmap, Tracker(), target
      ensures reliable && target.reliable ==> ok
      ensures Valid() && target.AtIdentity()
      ensures ok ==> target.layers == old(target.layers) + Reference(text, style, box.x, box.y, box.maxWidth)
      ensures old(target.layers) <= target.layers <= old(target.layers)
        + Reference(text, style, box.x, box.y, box.maxWidth)
      ensures Others(slot, old(textCache), textCache)
      ensures var key := BitmapKeyOf(text, style, box.maxWidth, box.maxHeight);
        if HasEffects(style) then
          Counted(slot, key, reliable && target.reliable,
                  old(Overloaded(missTracker.history[slot.Index()], missTracker.threshold)), old(WillMiss(slot, key)),
                  old(outlineBitmap), outlineBitmap, old(missTracker.history), missTracker.history)
          && Others(slot, old(missTracker.lastKeys[..]), missTracker.lastKeys[..])
          && (ok ==> missTracker.lastKeys[slot.Index()] == Some(key))
          && IsDraw(old(StateOf(slot)), StateOf(slot), key, missTracker.threshold, reliable && target.reliable)
        else
          outlineBitmap == old(outlineBitmap) && missTracker.history == old(missTracker.history)
          && missTracker.lastKeys[..] == old(missTracker.lastKeys[..])
      ensures old(AllOccur()) ==> AllOccur()
    {
      hide LayoutOf, EffectLayers, CachesBelong, FromStyle, BitmapKeyOf, Overloaded, IsDraw, AllStatesOccur;
      PlainReference(text, style, box.x, box.y, box.maxWidth);
      if !HasEffects(style) {
        ok := DrawPlain(target, slot, text, box, style);
        return;
      }
      var key := BitmapKeyOf(text, style, box.maxWidth, box.maxHeight);
      ghost var history, bitmaps, lastKeys := missTracker.history, outlineBitmap, missTracker.lastKeys[..];
      ok := DrawWithEffects(target, slot, text, box, style, key);
      DrawIsDrawn(slot, key, missTracker.threshold, ok, reliable && target.reliable, history, missTracker.history,
                  bitmaps, outlineBitmap, lastKeys, missTracker.lastKeys[..]);
      if old(AllOccur()) {
        DrawKeepsOccurring(slot, key, missTracker.threshold, reliable && target.reliable, history, missTracker.history,
                           bitmaps, outlineBitmap, lastKeys, missTracker.lastKeys[..]);
      }
    }

    method DrawWithEffects(target: RenderTarget, slot: Slot, text: string, box: TextBox, style: TextRenderStyle,
                           key: OutlineBitmapKey)
      returns (ok: bool)
      requires Valid() && target.AtIdentity() && key == BitmapKeyOf(text, style, box.maxWidth, box.maxHeight)
      modifies this`brushCache, this`textCache, this`outlineBitmap, Tracker(), target
      ensures reliable && target.reliable ==> ok
      ensures Valid() && target.AtIdentity()
      ensures ok ==> target.layers == old(target.layers) + Reference(text, style, box.x, box.y, box.maxWidth)
      ensures old(target.layers) <= target.layers <= old(target.layers)
        + Reference(text, style, box.x, box.y, box.maxWidth)
      ensures Others(slot, old(textCache), textCache)
        && Others(slot, old(missTracker.lastKeys[..]), missTracker.lastKeys[..])
      ensures var overloaded := old(Overloaded(missTracker.history[slot.Index()], missTracker.threshold));
        && Counted(slot, key, reliable && target.reliable, overloaded, old(WillMiss(slot, key)),
                   old(outlineBitmap), outlineBitmap,
                   old(missTracker.history), missTracker.history)
        && missTracker.lastKeys[slot.Index()] ==
             if ok || (!overloaded && Holds(outlineBitmap, slot, key)) then Some(key)
             else old(missTracker.lastKeys[slot.Index()])
    {
      hide Reference, TextLayoutCache.Belongs, OutlineBitmap.Belongs, BitmapKeyOf, Overloaded;
      var overloaded := missTracker.IsOverloaded(slot);
      if overloaded {
        ok := DrawOverloaded(target, slot, text, box, style, key);
      } else {
        ok := DrawWithBitmap(target, slot, text, box, style, key);
      }
    }

    method DrawOverloaded(target: RenderTarget, slot: Slot, text: string, box: TextBox, style: TextRenderStyle,
                          key: OutlineBitmapKey)
      returns (ok: bool)
      requires Valid() && target.AtIdentity() && key == BitmapKeyOf(text, style, box.maxWidth, box.maxHeight)
      modifies this`brushCache, this`textCache, this`outlineBitmap, Tracker(), target
      ensures reliable && target.reliable ==> ok
      ensures Valid() && target.AtIdentity()
      ensures ok ==> target.layers == old(target.layers) + Reference(text, style, box.x, box.y, box.maxWidth)
      ensures old(target.layers) <= target.layers <= old(target.layers)
        + Reference(text, style, box.x, box.y, box.maxWidth)
      ensures Others(slot, old(textCache), textCache) && outlineBitmap == old(outlineBitmap)[slot.Index() := None]
      ensures missTracker.history ==
        old(missTracker.history)[slot.Index() :=
          [old(missTracker.lastKeys[slot.Index()]) != Some(key)] + old(missTracker.history[slot.Index()])]
      ensures Others(slot, old(missTracker.lastKeys[..]), missTracker.lastKeys[..])
      ensures missTracker.lastKeys[slot.Index()] == if ok then Some(key) else old(missTracker.lastKeys[slot.Index()])
    {
      hide LayoutOf, Reference, TextLayoutCache.Belongs, OutlineBitmap.Belongs, FromStyle, BitmapKeyOf, Tracks, Counts;
      outlineBitmap := outlineBitmap[slot.Index() := None];
      var last := missTracker.LastKey(slot);
      var hit := last.Some? && key.Matches(last.value);
      missTracker.Record(slot, !hit);
      ok := DrawTextDirect(target, slot, text, box, style);
      if !hit && ok {
        missTracker.SetLastKey(slot, Some(OwnedKey(slot, key, text, style, box)));
      }
    }

    method DrawWithBitmap(target: RenderTarget, slot: Slot, text: string, box: TextBox, style: TextRenderStyle,
                          key: OutlineBitmapKey)
      returns (ok: bool)
      requires Valid() && target.AtIdentity() && key == BitmapKeyOf(text, style, box.maxWidth, box.maxHeight)
      modifies this`brushCache, this`textCache, this`outlineBitmap, Tracker(), target
      ensures reliable && target.reliable ==> ok
      ensures Valid() && target.AtIdentity()
      ensures ok ==> target.layers == old(target.layers) + Reference(text, style, box.x, box.y, box.maxWidth)
      ensures old(target.layers) <= target.layers <= old(target.layers)
        + Reference(text, style, box.x, box.y, box.maxWidth)
      ensures Others(slot, old(textCache), textCache) && Others(slot, old(outlineBitmap), outlineBitmap)
      ensures Holds(outlineBitmap, slot, key) || (outlineBitmap[slot.Index()].None? && !(reliable && target.reliable))
      ensures Holds(old(outlineBitmap), slot, key) ==> outlineBitmap == old(outlineBitmap)
      ensures missTracker.history ==
        old(missTracker.history)[slot.Index() :=
          [!Holds(old(outlineBitmap), slot, key)] + old(missTracker.history[slot.Index()])]
      ensures Others(slot, old(missTracker.lastKeys[..]), missTracker.lastKeys[..])
      ensures missTracker.lastKeys[slot.Index()] ==
        if ok || Holds(outlineBitmap, slot, key) then Some(key) else old(missTracker.lastKeys[slot.Index()])
    {
      hide LayoutOf, Reference, TextLayoutCache.Belongs, OutlineBitmap.Belongs, FromStyle, BitmapKeyOf, Tracks, Counts;
      KeyKeepsStyle(text, style, box.maxWidth, box.maxHeight);
      var i := slot.Index();
      var ensured := EnsureOutlineBitmap(slot, target, key, text, style, box.maxWidth);
      if ensured.None? {
        ok := DrawInstead(target, slot, text, box, style, key);
        return;
      }
      var (hit, layout) := ensured.value;
      CountResult(slot, key, hit, outlineBitmap[i].value.key);
      ok := PaintBitmap(target, outlineBitmap[i].value, text, box, style, layout);
    }

    /** Counts a result of the bitmap path and remembers the key, which is copied only if it is new. */
    method CountResult(slot: Slot, key: OutlineBitmapKey, hit: bool, bitmapKey: OutlineBitmapKey)
      requires missTracker.Valid() && bitmapKey == key
      modifies Tracker()
      ensures missTracker.Valid()
      ensures missTracker.history ==
        old(missTracker.history)[slot.Index() := [!hit] + old(missTracker.history[slot.Index()])]
      ensures Others(slot, old(missTracker.lastKeys[..]), missTracker.lastKeys[..])
      ensures missTracker.lastKeys[slot.Index()] == Some(key)
    {
      hide Tracks;
      missTracker.Record(slot, !hit);
      var last := missTracker.LastKey(slot);
      if last.None? || !key.Matches(last.value) {
        missTracker.SetLastKey(slot, Some(bitmapKey));
      }
    }

    /** A bitmap that cannot be built must not take the text with it. */
    method DrawInstead(target: RenderTarget, slot: Slot, text: string, box: TextBox, style: TextRenderStyle,
                       key: OutlineBitmapKey)
      returns (ok: bool)
      requires Valid() && target.AtIdentity() && key == BitmapKeyOf(text, style, box.maxWidth, box.maxHeight)
      modifies this`brushCache, this`textCache, this`outlineBitmap, Tracker(), target
      ensures reliable && target.reliable ==> ok
      ensures Valid() && target.AtIdentity()
      ensures ok ==> target.layers == old(target.layers) + Reference(text, style, box.x, box.y, box.maxWidth)
      ensures old(target.layers) <= target.layers <= old(target.layers)
        + Reference(text, style, box.x, box.y, box.maxWidth)
      ensures Others(slot, old(textCache), textCache) && outlineBitmap == old(outlineBitmap)[slot.Index() := None]
      ensures missTracker.history ==
        old(missTracker.history)[slot.Index() := [true] + old(missTracker.history[slot.Index()])]
      ensures Others(slot, old(missTracker.lastKeys[..]), missTracker.lastKeys[..])
      ensures missTracker.lastKeys[slot.Index()] == if ok then Some(key) else old(missTracker.lastKeys[slot.Index()])
    {
      hide LayoutOf, Reference, TextLayoutCache.Belongs, OutlineBitmap.Belongs, FromStyle, BitmapKeyOf, Tracks, Counts;
      outlineBitmap := outlineBitmap[slot.Index() := None];
      missTracker.Record(slot, true);
      ok := DrawTextDirect(target, slot, text, box, style);
      if ok {
        missTracker.SetLastKey(slot, Some(OwnedKey(slot, key, text, style, box)));
      }
    }

    /** The key of the last draw shares the strings of the layout that the draw left in the slot. */
    function OwnedKey(slot: Slot, key: OutlineBitmapKey, text: string, style: TextRenderStyle,
                      box: TextBox): (r: OutlineBitmapKey)
      requires slot.Index() < |textCache| && textCache[slot.Index()].Some?
      requires key == BitmapKeyOf(text, style, box.maxWidth, box.maxHeight)
      requires textCache[slot.Index()].value.key == LayoutKeyOf(text, style, box.maxWidth, MEASURE_MAX_HEIGHT)
      reads this
      ensures r == key
    {
      key.ToOwnedReusingLayout(textCache[slot.Index()].value.key)
    }

    method PaintBitmap(target: RenderTarget, bitmap: OutlineBitmap, text: string, box: TextBox,
                       style: TextRenderStyle, layout: Layout)
      returns (ok: bool)
      requires CachesBelong() && target.AtIdentity() && bitmap.Belongs()
      requires bitmap.key == BitmapKeyOf(text, style, box.maxWidth, box.maxHeight)
      requires layout == LayoutOf(LayoutKeyOf(text, style, box.maxWidth, MEASURE_MAX_HEIGHT))
      modifies this`brushCache, target
      ensures reliable && target.reliable ==> ok
      ensures CachesBelong() && target.AtIdentity()
      ensures ok ==> target.layers == old(target.layers) + Reference(text, style, box.x, box.y, box.maxWidth)
      ensures old(target.layers) <= target.layers <= old(target.layers)
        + Reference(text, style, box.x, box.y, box.maxWidth)
    {
      hide EffectLayers, LayoutOf, TextLayoutCache.Belongs, Moved;
      KeyKeepsStyle(text, style, box.maxWidth, box.maxHeight);
      EffectsMove(FromStyle(style), layout, bitmap.padLeft, bitmap.padTop, box.x - bitmap.padLeft,
                  box.y - bitmap.padTop);
      target.DrawBitmap(bitmap.bitmap, box.x - bitmap.padLeft, box.y - bitmap.padTop);
      var brush := GetOrCreateBrush(target, style.color);
      if brush.None? {
        return false;
      }
      target.DrawTextLayout(box.x, box.y, layout, brush.value, true);
      ok := true;
    }

    /** Draws the text that was drawn last again and again, with nothing failing. */
    method Repeat(target: RenderTarget, slot: Slot, text: string, box: TextBox, style: TextRenderStyle, count: nat)
      requires Valid() && target.AtIdentity() && reliable && target.reliable && HasEffects(style)
      requires StateOf(slot).last == Some(BitmapKeyOf(text, style, box.maxWidth, box.maxHeight))
      modifies this`brushCache, this`textCache, this`outlineBitmap, Tracker(), target
      ensures Valid() && target.AtIdentity() && StateOf(slot).last == old(StateOf(slot).last)
      ensures View(StateOf(slot)) == Redraws(View(old(StateOf(slot))), missTracker.threshold, count)
      ensures old(AllOccur()) ==> AllOccur()
    {
      hide FromStyle, BitmapKeyOf, Overloaded, Reference, Redraw, CachesBelong, Tracks, Counts, HasEffects, Drawn;
      ghost var key := BitmapKeyOf(text, style, box.maxWidth, box.maxHeight);
      ghost var start := View(StateOf(slot));
      for i := 0 to count
        invariant Valid() && target.AtIdentity() && StateOf(slot).last == Some(key)
        invariant View(StateOf(slot)) == Redraws(start, missTracker.threshold, i)
        invariant old(AllOccur()) ==> AllOccur()
      {
        ghost var before := StateOf(slot);
        var _ := DrawText(target, slot, text, box, style);
        RedrawIsDraw(before, StateOf(slot), key, missTracker.threshold);
      }
    }

    /** Nine draws of the text that was drawn last, with nothing failing, end with its bitmap in use for
        good, if the threshold is five or more. */
    method RepaintNineTimes(target: RenderTarget, slot: Slot, text: string, box: TextBox, style: TextRenderStyle)
      requires Valid() && target.AtIdentity() && reliable && target.reliable
      requires HasEffects(style) && missTracker.threshold >= 5
      requires StateOf(slot).last == Some(BitmapKeyOf(text, style, box.maxWidth, box.maxHeight))
      modifies this`brushCache, this`textCache, this`outlineBitmap, Tracker(), target
      ensures Valid() && target.AtIdentity()
      ensures Holds(outlineBitmap, slot, BitmapKeyOf(text, style, box.maxWidth, box.maxHeight))
      ensures IsSettled(View(StateOf(slot)), missTracker.threshold)
    {
      hide FromStyle, BitmapKeyOf, Overloaded, Reference, Redraws, HasEffects;
      ghost var start := View(StateOf(slot));
      Repeat(target, slot, text, box, style, 9);
      SettledAfterNine(start, missTracker.threshold);
    }

    /** From any state of the slot, ten such draws of one text are enough. */
    method RepaintTenTimes(target: RenderTarget, slot: Slot, text: string, box: TextBox, style: TextRenderStyle)
      requires Valid() && target.AtIdentity() && reliable && target.reliable
      requires HasEffects(style) && missTracker.threshold >= 5
      modifies this`brushCache, this`textCache, this`outlineBitmap, Tracker(), target
      ensures Valid() && target.AtIdentity()
      ensures Holds(outlineBitmap, slot, BitmapKeyOf(text, style, box.maxWidth, box.maxHeight))
      ensures IsSettled(View(StateOf(slot)), missTracker.threshold)
    {
      hide FromStyle, BitmapKeyOf, Overloaded, Reference, IsSettled;
      var _ := DrawText(target, slot, text, box, style);
      RepaintNineTimes(target, slot, text, box, style);
    }

    /** Forgets everything that belongs to the device. */
    method InvalidateDeviceCaches(setting: Option<nat>)
      requires Valid()
      modifies this
      ensures Valid() && fresh(Tracker()) && fresh(unusedSlots) && fresh(unusedSlots.paints)
      ensures textCache == [None, None, None, None] && outlineBitmap == [None, None, None, None] && brushCache == map[]
      ensures missTracker.history == unusedSlots.history == [[], [], [], []]
      ensures (forall slot: Slot :: StateOf(slot) == FreshSlot()) && AllOccur()
    {
      hide Tracks, Counts, AllStatesOccur, TextLayoutCache.Belongs, OutlineBitmap.Belongs;
      brushCache := map[];
      textCache, outlineBitmap := [None, None, None, None], [None, None, None, None];
      unusedSlots := new UnusedSlotTracker();
      missTracker := new MissTracker(setting);
      EmptyOccurs(missTracker.history, outlineBitmap, missTracker.lastKeys[..], missTracker.threshold);
    }

    /** Everything kept for the slot is gone. */
    ghost predicate Dropped(i: nat)
      requires Valid() && i < SLOT_COUNT
      reads this, Tracker(), unusedSlots, unusedSlots.paints
    {
      textCache[i].None? && outlineBitmap[i].None? && missTracker.history[i] == [] && missTracker.lastKeys[i].None?
    }

    /** Drops exactly the slots that the last sixteen paints, or a multiple of them, did not use. */
    method PruneUnusedSlots(used: seq<bool>)
      requires Valid() && |used| == SLOT_COUNT
      modifies this`textCache, this`outlineBitmap, Tracker(), unusedSlots, unusedSlots.paints
      ensures Valid()
      ensures forall i :: 0 <= i < SLOT_COUNT ==> unusedSlots.history[i] == [used[i]] + old(unusedSlots.history[i])
      ensures forall i :: 0 <= i < SLOT_COUNT ==> if IsDue(unusedSlots.history[i]) then Dropped(i)
        else textCache[i] == old(textCache[i]) && outlineBitmap[i] == old(outlineBitmap[i])
             && missTracker.history[i] == old(missTracker.history[i])
             && missTracker.lastKeys[i] == old(missTracker.lastKeys[i])
      ensures old(AllOccur()) ==> AllOccur()
    {
      hide IsDue, Tracks, Counts, TextLayoutCache.Belongs, OutlineBitmap.Belongs, AllStatesOccur;
      ghost var threshold := missTracker.threshold;
      ghost var history, bitmaps, lastKeys := missTracker.history, outlineBitmap, missTracker.lastKeys[..];
      var toPrune := unusedSlots.Record(used);
      DropSlots(toPrune);
      if old(AllOccur()) {
        DropsKeepOccurring(threshold, toPrune, history, missTracker.history, bitmaps, outlineBitmap, lastKeys,
                           missTracker.lastKeys[..]);
      }
    }

    method DropSlots(toPrune: seq<bool>)
      requires Valid() && |toPrune| == SLOT_COUNT
      modifies this`textCache, this`outlineBitmap, Tracker()
      ensures Valid()
      ensures forall i :: 0 <= i < SLOT_COUNT ==> if toPrune[i] then Dropped(i)
        else textCache[i] == old(textCache[i]) && outlineBitmap[i] == old(outlineBitmap[i])
             && missTracker.history[i] == old(missTracker.history[i])
             && missTracker.lastKeys[i] == old(missTracker.lastKeys[i])
    {
      hide Tracks, Counts, TextLayoutCache.Belongs, OutlineBitmap.Belongs;
      for n := 0 to SLOT_COUNT
        invariant Valid() && missTracker == old(missTracker) && unusedSlots == old(unusedSlots)
        invariant forall i :: 0 <= i < SLOT_COUNT ==> if i < n && toPrune[i] then Dropped(i)
          else textCache[i] == old(textCache[i]) && outlineBitmap[i] == old(outlineBitmap[i])
               && missTracker.history[i] == old(missTracker.history[i])
               && missTracker.lastKeys[i] == old(missTracker.lastKeys[i])
      {
        if toPrune[n] {
          outlineBitmap := outlineBitmap[n := None];
          textCache := textCache[n := None];
          missTracker.Reset(ALL_SLOTS[n]);
        }
      }
    }
  }

  /** What one draw with effects does to the bitmap and the count of its slot, and to no other. */
  ghost predicate Counted(slot: Slot, key: OutlineBitmapKey, reliable: bool, overloaded: bool, miss: bool,
                          before: seq<Option<OutlineBitmap>>, after: seq<Option<OutlineBitmap>>,
                          history: seq<seq<bool>>, history': seq<seq<bool>>) {
    var i := slot.Index();
    && |history| == SLOT_COUNT && history' == history[i := [miss] + history[i]]
    && Others(slot, before, after) && |after| == SLOT_COUNT
    && if overloaded then after[i].None? else
         (Holds(after, slot, key) || (after[i].None? && !reliable)) && (Holds(before, slot, key) ==> after == before)
  }

  function SlotStateOf(slot: Slot, history: seq<seq<bool>>, bitmaps: seq<Option<OutlineBitmap>>,
                       lastKeys: seq<Option<OutlineBitmapKey>>): SlotState<OutlineBitmapKey>
    requires |history| == |bitmaps| == |lastKeys| == SLOT_COUNT
  {
    var i := slot.Index();
    SlotState(history[i], if bitmaps[i].Some? then Some(bitmaps[i].value.key) else None, lastKeys[i])
  }

  /** Whatever fails, a draw is one of those that the study of repainting starts from. */
  lemma DrawIsDrawn(slot: Slot, key: OutlineBitmapKey, threshold: nat, ok: bool, reliable: bool,
                    history: seq<seq<bool>>, history': seq<seq<bool>>,
                    before: seq<Option<OutlineBitmap>>, after: seq<Option<OutlineBitmap>>,
                    lastKeys: seq<Option<OutlineBitmapKey>>, lastKeys': seq<Option<OutlineBitmapKey>>)
    requires |history| == |before| == |lastKeys| == |lastKeys'| == SLOT_COUNT && (reliable ==> ok)
    requires var i, overloaded := slot.Index(), Overloaded(history[slot.Index()], threshold);
      && Counted(slot, key, reliable, overloaded,
                 if overloaded then lastKeys[i] != Some(key) else !Holds(before, slot, key),
                 before, after, history, history')
      && lastKeys'[i] == if ok || (!overloaded && Holds(after, slot, key)) then Some(key) else lastKeys[i]
    ensures IsDraw(SlotStateOf(slot, history, before, lastKeys), SlotStateOf(slot, history', after, lastKeys'), key,
                   threshold, reliable)
  {
    hide Overloaded;
    var s, s' := SlotStateOf(slot, history, before, lastKeys), SlotStateOf(slot, history', after, lastKeys');
    var builds := Overloaded(s.history, threshold) || Holds(after, slot, key);
    assert s' == Drawn(s, Draw(key, builds, ok), threshold);
  }

  ghost predicate AllStatesOccur(history: seq<seq<bool>>, bitmaps: seq<Option<OutlineBitmap>>,
                                 lastKeys: seq<Option<OutlineBitmapKey>>, threshold: nat)
    requires |history| == |bitmaps| == |lastKeys| == SLOT_COUNT
  {
    forall s: Slot :: Occurs(SlotStateOf(s, history, bitmaps, lastKeys), threshold)
  }

  lemma DrawKeepsOccurring(slot: Slot, key: OutlineBitmapKey, threshold: nat, reliable: bool,
                           history: seq<seq<bool>>, history': seq<seq<bool>>,
                           before: seq<Option<OutlineBitmap>>, after: seq<Option<OutlineBitmap>>,
                           lastKeys: seq<Option<OutlineBitmapKey>>, lastKeys': seq<Option<OutlineBitmapKey>>)
    requires |history| == |before| == |lastKeys| == |lastKeys'| == |history'| == |after| == SLOT_COUNT
    requires IsDraw(SlotStateOf(slot, history, before, lastKeys), SlotStateOf(slot, history', after, lastKeys'), key,
                    threshold, reliable)
    requires Others(slot, history, history') && Others(slot, before, after) && Others(slot, lastKeys, lastKeys')
    requires AllStatesOccur(history, before, lastKeys, threshold)
    ensures AllStatesOccur(history', after, lastKeys', threshold)
  {
    hide Occurs, IsDraw;
    forall s: Slot
      ensures Occurs(SlotStateOf(s, history', after, lastKeys'), threshold)
    {
      if s == slot {
        DrawnOccurs(SlotStateOf(s, history, before, lastKeys), SlotStateOf(s, history', after, lastKeys'), key,
                    threshold, reliable);
      } else {
        assert Occurs(SlotStateOf(s, history, before, lastKeys), threshold);
      }
    }
  }

  lemma EmptyOccurs(history: seq<seq<bool>>, bitmaps: seq<Option<OutlineBitmap>>,
                    lastKeys: seq<Option<OutlineBitmapKey>>, threshold: nat)
    requires |history| == |bitmaps| == |lastKeys| == SLOT_COUNT
    requires forall i :: 0 <= i < SLOT_COUNT ==> history[i] == [] && bitmaps[i].None? && lastKeys[i].None?
    ensures forall s: Slot :: SlotStateOf(s, history, bitmaps, lastKeys) == FreshSlot()
    ensures AllStatesOccur(history, bitmaps, lastKeys, threshold)
  {
    hide Occurs;
    FreshOccurs<OutlineBitmapKey>(threshold);
  }

  lemma DropsKeepOccurring(threshold: nat, dropped: seq<bool>, history: seq<seq<bool>>, history': seq<seq<bool>>,
                           before: seq<Option<OutlineBitmap>>, after: seq<Option<OutlineBitmap>>,
                           lastKeys: seq<Option<OutlineBitmapKey>>, lastKeys': seq<Option<OutlineBitmapKey>>)
    requires |history| == |before| == |lastKeys| == |lastKeys'| == |history'| == |after| == |dropped| == SLOT_COUNT
    requires forall i :: 0 <= i < SLOT_COUNT ==>
      if dropped[i] then history'[i] == [] && after[i].None? && lastKeys'[i].None?
      else history'[i] == history[i] && after[i] == before[i] && lastKeys'[i] == lastKeys[i]
    requires AllStatesOccur(history, before, lastKeys, threshold)
    ensures AllStatesOccur(history', after, lastKeys', threshold)
  {
    hide Occurs;
    FreshOccurs<OutlineBitmapKey>(threshold);
    forall s: Slot
      ensures Occurs(SlotStateOf(s, history', after, lastKeys'), threshold)
    {
      assert Occurs(SlotStateOf(s, history, before, lastKeys), threshold);
    }
  }

  lemma PlainReference(text: string, style: TextRenderStyle, x: real, y: real, maxWidth: real)
    ensures !HasEffects(style) ==>
      Reference(text, style, x, y, maxWidth) ==
        [Glyphs(LayoutOf(LayoutKeyOf(text, style, maxWidth, MEASURE_MAX_HEIGHT)), x, y, style.color, true)]
  {
    NoEffectIff(style, LayoutOf(LayoutKeyOf(text, style, maxWidth, MEASURE_MAX_HEIGHT)), x, y);
  }

  /** Nothing changed outside of one slot. */
  predicate Others<T(==)>(slot: Slot, before: seq<T>, after: seq<T>) {
    |after| == |before| && forall i :: 0 <= i < |before| && i != slot.Index() ==> after[i] == before[i]
  }

  /** The slot holds the bitmap of a key. */
  predicate Holds(bitmaps: seq<Option<OutlineBitmap>>, slot: Slot, key: OutlineBitmapKey) {
    slot.Index() < |bitmaps| && bitmaps[slot.Index()].Some? && bitmaps[slot.Index()].value.key == key
  }

  /** The short way out of drawing is taken by the styles without a positive outline or a visible shadow. */
  lemma HasEffectsIff(style: TextRenderStyle)
    ensures HasEffects(style) <==>
      || style.outline1Size > 0 || style.outline2Size > 0
      || (style.shadowEnabled && !(style.shadowOffsetX == 0 && style.shadowOffsetY == 0))
  {
    EffectiveValues(style);
  }

  predicate HasEffects(style: TextRenderStyle) {
    FromStyle(style).outlineTotal > 0 || FromStyle(style).hasShadow
  }
}
