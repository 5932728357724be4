/** Text styles, what of them is visible, and the cache keys made from them. */
module TextStyle {
  import opened Prelude

  newtype Color = x: int | 0 <= x < 0x1_0000_0000

  datatype TextAlign = Left | Center | Right

  datatype TextRenderStyle = TextRenderStyle(
    fontSize: int, fontFace: string, fontStyle: bv8, textAlign: TextAlign, color: Color,
    outline1Size: int, outline1Color: Color, outline2Size: int, outline2Color: Color,
    shadowEnabled: bool, shadowColor: Color, shadowOffsetX: int, shadowOffsetY: int)

  const I32_MAX: int := 0x7fff_ffff

  /** The outline and shadow values that reach the screen; the others are zero. */
  datatype EffectiveOutlineStyle = EffectiveOutlineStyle(
    outline1Size: int, outline1Color: Color, outline2Size: int, outline2Color: Color, outlineTotal: int,
    hasShadow: bool, shadowColor: Color, shadowOffsetX: int, shadowOffsetY: int)

  function FromStyle(style: TextRenderStyle): EffectiveOutlineStyle {
    var outline1Size, outline2Size := Max(style.outline1Size, 0), Max(style.outline2Size, 0);
    var hasShadow := style.shadowEnabled && (style.shadowOffsetX != 0 || style.shadowOffsetY != 0);
    EffectiveOutlineStyle(
      outline1Size, if outline1Size > 0 then style.outline1Color else 0,
      outline2Size, if outline2Size > 0 then style.outline2Color else 0,
      Min(outline1Size + outline2Size, I32_MAX),
      hasShadow, if hasShadow then style.shadowColor else 0,
      if hasShadow then style.shadowOffsetX else 0, if hasShadow then style.shadowOffsetY else 0)
  }

  datatype LayoutKey = LayoutKey(
    text: string, fontFace: string, fontSize: int, fontStyle: bv8, textAlign: TextAlign, maxWidth: real,
    maxHeight: real) {
    predicate Matches(key: LayoutKey)
      ensures Matches(key) <==> this == key
    {
      fontSize == key.fontSize && fontStyle == key.fontStyle && textAlign == key.textAlign
      && maxWidth == key.maxWidth && maxHeight == key.maxHeight && text == key.text && fontFace == key.fontFace
    }

    predicate MatchesIgnoringMaxHeight(key: LayoutKey)
      ensures MatchesIgnoringMaxHeight(key) <==> this.(maxHeight := key.maxHeight) == key
    {
      fontSize == key.fontSize && fontStyle == key.fontStyle && textAlign == key.textAlign
      && maxWidth == key.maxWidth && text == key.text && fontFace == key.fontFace
    }
  }

  function LayoutKeyOf(text: string, style: TextRenderStyle, maxWidth: real, maxHeight: real): LayoutKey {
    LayoutKey(text, style.fontFace, style.fontSize, style.fontStyle, style.textAlign, maxWidth, maxHeight)
  }

  datatype OutlineBitmapKey = OutlineBitmapKey(
    text: string, fontFace: string, fontSize: int, fontStyle: bv8, textAlign: TextAlign, maxWidth: real,
    maxHeight: real,
    outline1Size: int, outline1Color: Color, outline2Size: int, outline2Color: Color,
    shadowEnabled: bool, shadowColor: Color, shadowOffsetX: int, shadowOffsetY: int) {
    predicate Matches(key: OutlineBitmapKey)
      ensures Matches(key) <==> this == key
    {
      fontSize == key.fontSize && fontStyle == key.fontStyle && textAlign == key.textAlign
      && maxWidth == key.maxWidth && maxHeight == key.maxHeight
      && outline1Size == key.outline1Size && outline1Color == key.outline1Color
      && outline2Size == key.outline2Size && outline2Color == key.outline2Color
      && shadowEnabled == key.shadowEnabled && shadowColor == key.shadowColor
      && shadowOffsetX == key.shadowOffsetX && shadowOffsetY == key.shadowOffsetY
      && text == key.text && fontFace == key.fontFace
    }

    function LayoutPart(height: real): LayoutKey {
      LayoutKey(text, fontFace, fontSize, fontStyle, textAlign, maxWidth, height)
    }

    /** The key again, with the strings of a layout key that has the same text and font. */
    function ToOwnedReusingLayout(layoutKey: LayoutKey): (r: OutlineBitmapKey)
      requires LayoutPart(maxHeight).MatchesIgnoringMaxHeight(layoutKey)
      ensures r == this
    {
      this.(text := layoutKey.text, fontFace := layoutKey.fontFace)
    }
  }

  function BitmapKeyOf(text: string, style: TextRenderStyle, maxWidth: real, maxHeight: real): OutlineBitmapKey {
    var e := FromStyle(style);
    OutlineBitmapKey(
      text, style.fontFace, style.fontSize, style.fontStyle, style.textAlign, maxWidth, maxHeight,
      e.outline1Size, e.outline1Color, e.outline2Size, e.outline2Color,
      e.hasShadow, e.shadowColor, e.shadowOffsetX, e.shadowOffsetY)
  }

  // ---- drawings ----

  /** What DirectWrite makes of a text; bit 0 of the font style is bold, bit 1 italic. */
  datatype Layout = Layout(
    text: string, fontFace: string, fontSize: int, bold: bool, italic: bool, align: TextAlign, maxWidth: real,
    maxHeight: real)

  datatype Geometry = OutlineOf(layout: Layout)

  datatype Brush = SolidColor(color: Color)

  /** One drawing operation on a target, with absolute coordinates. */
  datatype Layer =
    | Stroke(geometry: Geometry, x: real, y: real, width: int, color: Color)
    | Fill(geometry: Geometry, x: real, y: real, color: Color)
    | Glyphs(layout: Layout, x: real, y: real, color: Color, colorFont: bool)

  const MEASURE_MAX_HEIGHT: real := 1_000_000.0

  function LayoutOf(key: LayoutKey): Layout {
    Layout(key.text, key.fontFace, key.fontSize, key.fontStyle & 1 != 0, key.fontStyle & 2 != 0,
           key.textAlign, key.maxWidth, key.maxHeight)
  }

  function Outline(layout: Layout, x: real, y: real, thickness: int, color: Color): seq<Layer> {
    [Stroke(OutlineOf(layout), x, y, 2 * thickness, color), Fill(OutlineOf(layout), x, y, color)]
  }

  function ShadowLayers(e: EffectiveOutlineStyle, layout: Layout, x: real, y: real): seq<Layer> {
    if !e.hasShadow then [] else
      var sx, sy := x + e.shadowOffsetX as real, y + e.shadowOffsetY as real;
      (if e.outlineTotal > 0 then Outline(layout, sx, sy, e.outlineTotal, e.shadowColor) else [])
      + [Glyphs(layout, sx, sy, e.shadowColor, false)]
  }

  function OuterLayers(e: EffectiveOutlineStyle, layout: Layout, x: real, y: real): seq<Layer> {
    if e.outline2Size > 0 && e.outlineTotal > 0 then Outline(layout, x, y, e.outlineTotal, e.outline2Color) else []
  }

  function InnerLayers(e: EffectiveOutlineStyle, layout: Layout, x: real, y: real): seq<Layer> {
    if e.outline1Size > 0 then Outline(layout, x, y, e.outline1Size, e.outline1Color) else []
  }

  /** Shadow, then the outer outline, then the inner one. */
  function EffectLayers(e: EffectiveOutlineStyle, layout: Layout, x: real, y: real): seq<Layer> {
    ShadowLayers(e, layout, x, y) + OuterLayers(e, layout, x, y) + InnerLayers(e, layout, x, y)
  }

  /** What a text looks like, said without any cache: its effects and then the text itself. */
  function Reference(text: string, style: TextRenderStyle, x: real, y: real, maxWidth: real): seq<Layer> {
    var layout := LayoutOf(LayoutKeyOf(text, style, maxWidth, MEASURE_MAX_HEIGHT));
    EffectLayers(FromStyle(style), layout, x, y) + [Glyphs(layout, x, y, style.color, true)]
  }

  /** The style asks for a shadow that can be seen. */
  predicate CastsShadow(style: TextRenderStyle) {
    style.shadowEnabled && !(style.shadowOffsetX == 0 && style.shadowOffsetY == 0)
  }

  /** The size of both outlines together, as far as they are positive. */
  function OutlineWidth(style: TextRenderStyle): int {
    var both :=
      if style.outline1Size <= 0 then style.outline2Size
      else if style.outline2Size <= 0 then style.outline1Size
      else style.outline1Size + style.outline2Size;
    if both > 0x7fff_ffff then 0x7fff_ffff else both
  }

  /** A text with its outline of some width, around the text and in the color of both. */
  ghost predicate IsOutline(layers: seq<Layer>, geometry: Geometry, x: real, y: real, size: int, color: Color) {
    && |layers| == 2
    && layers[0] == Stroke(geometry, x, y, size + size, color)
    && layers[1] == Fill(geometry, x, y, color)
  }

  ghost predicate IsShadow(layers: seq<Layer>, layout: Layout, style: TextRenderStyle, x: real, y: real) {
    var sx, sy := x + style.shadowOffsetX as real, y + style.shadowOffsetY as real;
    && layers != [] && layers[|layers| - 1] == Glyphs(layout, sx, sy, style.shadowColor, false)
    && if OutlineWidth(style) > 0 then
         IsOutline(layers[..|layers| - 1], OutlineOf(layout), sx, sy, OutlineWidth(style), style.shadowColor)
       else |layers| == 1
  }

  /** What is drawn for a style, in terms of its own fields: the shadow at its offset exactly if there is one
      to be seen, then the outer outline exactly if its size is positive, around both, then the inner one
      exactly if its size is positive, then the text. */
  lemma ReferenceLayers(text: string, style: TextRenderStyle, x: real, y: real, maxWidth: real)
    returns (shadow: seq<Layer>, outer: seq<Layer>, innerOutline: seq<Layer>)
    ensures var layout := Layout(text, style.fontFace, style.fontSize, style.fontStyle & 1 == 1,
                                 style.fontStyle & 2 == 2, style.textAlign, maxWidth, 1_000_000.0);
      && Reference(text, style, x, y, maxWidth) ==
           shadow + outer + innerOutline + [Glyphs(layout, x, y, style.color, true)]
      && (if CastsShadow(style) then IsShadow(shadow, layout, style, x, y) else shadow == [])
      && (if style.outline2Size > 0 then
            IsOutline(outer, OutlineOf(layout), x, y, OutlineWidth(style), style.outline2Color)
          else outer == [])
      && (if style.outline1Size > 0 then
            IsOutline(innerOutline, OutlineOf(layout), x, y, style.outline1Size, style.outline1Color)
          else innerOutline == [])
  {
    var e := FromStyle(style);
    var layout := LayoutOf(LayoutKeyOf(text, style, maxWidth, MEASURE_MAX_HEIGHT));
    FontBits(style.fontStyle);
    EffectiveValues(style);
    shadow, outer, innerOutline :=
      ShadowLayers(e, layout, x, y), OuterLayers(e, layout, x, y), InnerLayers(e, layout, x, y);
    hide FromStyle, OutlineWidth, CastsShadow;
    if CastsShadow(style) && OutlineWidth(style) > 0 {
      var sx, sy := x + style.shadowOffsetX as real, y + style.shadowOffsetY as real;
      var outline := Outline(layout, sx, sy, OutlineWidth(style), style.shadowColor);
      assert shadow[..|shadow| - 1] == outline;
    }
  }

  lemma FontBits(fontStyle: bv8)
    ensures (fontStyle & 1 != 0) == (fontStyle & 1 == 1) && (fontStyle & 2 != 0) == (fontStyle & 2 == 2)
  {
  }

  lemma EffectiveValues(style: TextRenderStyle)
    ensures var e := FromStyle(style);
      && (e.hasShadow <==> CastsShadow(style))
      && (e.hasShadow ==>
            e.shadowColor == style.shadowColor && e.shadowOffsetX == style.shadowOffsetX
            && e.shadowOffsetY == style.shadowOffsetY)
      && (e.outlineTotal > 0 <==> OutlineWidth(style) > 0)
      && (e.outlineTotal > 0 ==> e.outlineTotal == OutlineWidth(style))
      && (e.outline1Size > 0 <==> style.outline1Size > 0)
      && (e.outline1Size > 0 ==> e.outline1Size == style.outline1Size && e.outline1Color == style.outline1Color)
      && (e.outline2Size > 0 <==> style.outline2Size > 0)
      && (e.outline2Size > 0 ==> e.outline2Color == style.outline2Color && e.outlineTotal > 0)
  {
  }

  function Moved(layers: seq<Layer>, dx: real, dy: real): (r: seq<Layer>)
    ensures |r| == |layers|
  {
    seq(|layers|, i requires 0 <= i < |layers| => layers[i].(x := layers[i].x + dx, y := layers[i].y + dy))
  }

  lemma MovedConcat(a: seq<Layer>, b: seq<Layer>, dx: real, dy: real)
    ensures Moved(a + b, dx, dy) == Moved(a, dx, dy) + Moved(b, dx, dy)
  {
  }

  lemma MovedParts(e: EffectiveOutlineStyle, layout: Layout, x: real, y: real, dx: real, dy: real)
    ensures Moved(ShadowLayers(e, layout, x, y), dx, dy) == ShadowLayers(e, layout, x + dx, y + dy)
    ensures Moved(OuterLayers(e, layout, x, y), dx, dy) == OuterLayers(e, layout, x + dx, y + dy)
    ensures Moved(InnerLayers(e, layout, x, y), dx, dy) == InnerLayers(e, layout, x + dx, y + dy)
  {
  }

  /** Effects drawn elsewhere and moved are the effects drawn in place. */
  lemma EffectsMove(e: EffectiveOutlineStyle, layout: Layout, x: real, y: real, dx: real, dy: real)
    ensures Moved(EffectLayers(e, layout, x, y), dx, dy) == EffectLayers(e, layout, x + dx, y + dy)
  {
    MovedParts(e, layout, x, y, dx, dy);
    hide ShadowLayers, OuterLayers, InnerLayers, Moved;
    var a, b, c := ShadowLayers(e, layout, x, y), OuterLayers(e, layout, x, y), InnerLayers(e, layout, x, y);
    MovedConcat(a + b, c, dx, dy);
    MovedConcat(a, b, dx, dy);
  }

  /** A bitmap key decides everything the bitmap shows: equal keys, equal effect layers. */
  lemma EqualKeysEqualEffects(text: string, style: TextRenderStyle, text': string, style': TextRenderStyle, w: real,
                              w': real, h: real, h': real, x: real, y: real)
    requires BitmapKeyOf(text, style, w, h) == BitmapKeyOf(text', style', w', h')
    ensures FromStyle(style) == FromStyle(style')
    ensures LayoutKeyOf(text, style, w, MEASURE_MAX_HEIGHT) == LayoutKeyOf(text', style', w', MEASURE_MAX_HEIGHT)
    ensures Reference(text, style, x, y, w)[..|Reference(text, style, x, y, w)| - 1]
         == Reference(text', style', x, y, w')[..|Reference(text', style', x, y, w')| - 1]
  {
    hide EffectLayers, LayoutOf;
    assert FromStyle(style) == FromStyle(style');
    var layout := LayoutOf(LayoutKeyOf(text, style, w, MEASURE_MAX_HEIGHT));
    var effects := EffectLayers(FromStyle(style), layout, x, y);
    assert Reference(text, style, x, y, w)[..|effects|] == effects;
    assert Reference(text', style', x, y, w')[..|effects|] == effects;
  }

  /** The short way out of drawing is taken exactly by the styles without a visible effect. */
  lemma NoEffectIff(style: TextRenderStyle, layout: Layout, x: real, y: real)
    ensures var e := FromStyle(style);
            EffectLayers(e, layout, x, y) == [] <==> !(e.outlineTotal > 0) && !e.hasShadow
  {
  }
}
