/**
 * The canvas palette: the 22 colours of the drawing site, the 768-value
 * palette list handed to the quantizer, and where each colour's swatch sits
 * relative to the calibrated top-left corner of the colour area.
 */
module Palette {
  import opened Raster
  import opened Pointer

  /** The values of the upper swatch row (11 colours, r, g, b each). */
  const UpperRow: seq<int> := [
    255, 255, 255,  193, 193, 193,  239, 19, 11,  255, 115, 0,  255, 228, 0,  0, 204, 0,
    0, 178, 255,  35, 31, 211,  163, 0, 186,  211, 124, 170,  160, 82, 45]

  /** The values of the lower swatch row. */
  const LowerRow: seq<int> := [
    0, 0, 0,  76, 76, 76,  116, 11, 7,  194, 56, 0,  232, 162, 0,  0, 85, 16,
    0, 86, 158,  14, 8, 101,  85, 0, 105,  167, 85, 116,  99, 48, 13]

  /** The 22 colours as one flat list of 66 values (r, g, b, r, g, b, ...). */
  const AvailableColors: seq<int> := UpperRow + LowerRow

  /** Number of swatches and swatches per row on the site. */
  const SwatchCount: nat := 22
  const SwatchesPerRow: nat := 11

  /** Width and height of one swatch, in physical units. */
  const SwatchSize: int := 24

  /** The length a palette list must have for the quantizer. */
  const PaletteLength: nat := 768

  /**
   * Builds the padded palette list: the 66 colour values followed by zeros
   * up to 768 entries.
   */
  method PaddedPalette() returns (palette: seq<int>)
    ensures |palette| == PaletteLength
    ensures palette[..|AvailableColors|] == AvailableColors
    ensures forall i :: |AvailableColors| <= i < |palette| ==> palette[i] == 0
  {
    palette := AvailableColors;
    var t := 0;
    while t < PaletteLength - |AvailableColors|
      invariant 0 <= t <= PaletteLength - |AvailableColors|
      invariant |palette| == |AvailableColors| + t
      invariant palette[..|AvailableColors|] == AvailableColors
      invariant forall i :: |AvailableColors| <= i < |palette| ==> palette[i] == 0
    {
      palette := palette + [0];
      t := t + 1;
    }
  }

  /** The k-th colour triple of the flat list. */
  function Swatch(k: nat): (c: Rgb)
    requires k < SwatchCount
    ensures c == Swatches[k]
  {
    assert k < SwatchesPerRow ==>
      k == 0 || k == 1 || k == 2 || k == 3 || k == 4 || k == 5 || k == 6 || k == 7
      || k == 8 || k == 9 || k == 10;
    assert SwatchesPerRow <= k ==>
      k == 11 || k == 12 || k == 13 || k == 14 || k == 15
      || k == 16 || k == 17 || k == 18 || k == 19 || k == 20 || k == 21;
    Rgb(AvailableColors[3 * k], AvailableColors[3 * k + 1], AvailableColors[3 * k + 2])
  }

  /** The hit point of swatch k: 24 units per swatch, 11 per row, centred 12 units in. */
  function SwatchOffset(k: nat): (off: Point)
    requires k < SwatchCount
    ensures 0 < off.x < SwatchSize * SwatchesPerRow && 0 < off.y < SwatchSize * 2
  {
    Point(SwatchSize * (k % SwatchesPerRow) + 12, SwatchSize * (k / SwatchesPerRow) + 12)
  }

  /** Where the brush-size button sits relative to the colour area's corner. */
  const BrushOffset: Point := Point(492, 24)

  /**
   * The colour test chain of `set_color`: the relative move taken from the
   * colour area's corner for a known colour, None for any other triple.
   */
  function SwatchFor(c: Rgb): Option<Point>
  {
    if c == Rgb(255, 255, 255) then Some(Point(12, 12))
    else if c == Rgb(193, 193, 193) then Some(Point(24 + 12, 12))
    else if c == Rgb(239, 19, 11) then Some(Point(24 * 2 + 12, 12))
    else if c == Rgb(255, 115, 0) then Some(Point(24 * 3 + 12, 12))
    else if c == Rgb(255, 228, 0) then Some(Point(24 * 4 + 12, 12))
    else if c == Rgb(0, 204, 0) then Some(Point(24 * 5 + 12, 12))
    else if c == Rgb(0, 178, 255) then Some(Point(24 * 6 + 12, 12))
    else if c == Rgb(35, 31, 211) then Some(Point(24 * 7 + 12, 12))
    else if c == Rgb(163, 0, 186) then Some(Point(24 * 8 + 12, 12))
    else if c == Rgb(211, 124, 170) then Some(Point(24 * 9 + 12, 12))
    else if c == Rgb(160, 82, 45) then Some(Point(24 * 10 + 12, 12))
    else if c == Rgb(0, 0, 0) then Some(Point(12, 24 + 12))
    else if c == Rgb(76, 76, 76) then Some(Point(24 * 1 + 12, 24 + 12))
    else if c == Rgb(116, 11, 7) then Some(Point(24 * 2 + 12, 24 + 12))
    else if c == Rgb(194, 56, 0) then Some(Point(24 * 3 + 12, 24 + 12))
    else if c == Rgb(232, 162, 0) then Some(Point(24 * 4 + 12, 24 + 12))
    else if c == Rgb(0, 85, 16) then Some(Point(24 * 5 + 12, 24 + 12))
    else if c == Rgb(0, 86, 158) then Some(Point(24 * 6 + 12, 24 + 12))
    else if c == Rgb(14, 8, 101) then Some(Point(24 * 7 + 12, 24 + 12))
    else if c == Rgb(85, 0, 105) then Some(Point(24 * 8 + 12, 24 + 12))
    else if c == Rgb(167, 85, 116) then Some(Point(24 * 9 + 12, 24 + 12))
    else if c == Rgb(99, 48, 13) then Some(Point(24 * 10 + 12, 24 + 12))
    else None
  }

  /** The 22 triples of the palette list, in list order. */
  const Swatches: seq<Rgb> := [
    Rgb(255, 255, 255), Rgb(193, 193, 193), Rgb(239, 19, 11), Rgb(255, 115, 0),
    Rgb(255, 228, 0), Rgb(0, 204, 0), Rgb(0, 178, 255), Rgb(35, 31, 211),
    Rgb(163, 0, 186), Rgb(211, 124, 170), Rgb(160, 82, 45), Rgb(0, 0, 0),
    Rgb(76, 76, 76), Rgb(116, 11, 7), Rgb(194, 56, 0), Rgb(232, 162, 0),
    Rgb(0, 85, 16), Rgb(0, 86, 158), Rgb(14, 8, 101), Rgb(85, 0, 105),
    Rgb(167, 85, 116), Rgb(99, 48, 13)]

  /** The hand-written chain sends the k-th triple of the palette list to swatch k. */
  lemma SwatchTable()
    ensures forall k :: 0 <= k < SwatchCount ==> SwatchFor(Swatch(k)) == Some(SwatchOffset(k))
  {
    forall k | 0 <= k < SwatchesPerRow
      ensures SwatchFor(Swatches[k]) == Some(SwatchOffset(k))
    {
      assert k == 0 || k == 1 || k == 2 || k == 3 || k == 4 || k == 5 || k == 6 || k == 7
        || k == 8 || k == 9 || k == 10;
    }
    forall k | SwatchesPerRow <= k < SwatchCount
      ensures SwatchFor(Swatches[k]) == Some(SwatchOffset(k))
    {
      assert k == 11 || k == 12 || k == 13 || k == 14 || k == 15
        || k == 16 || k == 17 || k == 18 || k == 19 || k == 20 || k == 21;
    }
  }

  /** Exactly the triples of the palette list are found; every other one is not. */
  lemma UnknownColor(c: Rgb)
    ensures SwatchFor(c).None? <==> forall k :: 0 <= k < SwatchCount ==> c != Swatch(k)
  {
    SwatchTable();
    if SwatchFor(c).Some? {
      assert c in Swatches;
      var k :| 0 <= k < |Swatches| && Swatches[k] == c;
      assert c == Swatch(k);
    }
  }
}
