/**
 * Values shared by the whole drawing engine: RGB triples, logical pixel
 * coordinates, row-major order and the quantized image that a drawing job
 * receives (a width x height grid of RGB triples).
 */
module Raster {

  datatype Option<T> = None | Some(value: T)

  /** An RGB triple as the quantized image yields it. */
  datatype Rgb = Rgb(r: int, g: int, b: int)

  /** The canvas background; pixels of this colour are never drawn. */
  const White: Rgb := Rgb(255, 255, 255)

  /** A logical pixel coordinate, as produced by `range(width)` / `range(height)`. */
  datatype Pixel = Pixel(x: nat, y: nat)

  /** The pixel one column to the right on the same row. */
  function RightOf(p: Pixel): Pixel
  {
    Pixel(p.x + 1, p.y)
  }

  /** Strict row-major order: earlier row first, then earlier column. */
  predicate Before(p: Pixel, q: Pixel)
  {
    p.y < q.y || (p.y == q.y && p.x < q.x)
  }

  /** Strictly increasing in row-major order (so, in particular, no repeats). */
  predicate Sorted(g: seq<Pixel>)
  {
    forall i, j :: 0 <= i < j < |g| ==> Before(g[i], g[j])
  }

  /** No element occurs twice. */
  predicate Distinct<T(==)>(s: seq<T>)
  {
    forall i, j :: 0 <= i < j < |s| ==> s[i] != s[j]
  }

  lemma SortedIsDistinct(g: seq<Pixel>)
    requires Sorted(g)
    ensures Distinct(g)
  {
    forall i, j | 0 <= i < j < |g|
      ensures g[i] != g[j]
    {
      assert Before(g[i], g[j]);
    }
  }

  /** A quantized image: `rows[y][x]` is the colour of pixel (x, y). */
  datatype Image = Image(width: nat, height: nat, rows: seq<seq<Rgb>>)
  {
    predicate Valid()
    {
      |rows| == height && forall y :: 0 <= y < height ==> |rows[y]| == width
    }

    predicate Contains(p: Pixel)
    {
      p.x < width && p.y < height
    }

    function At(p: Pixel): Rgb
      requires Valid() && Contains(p)
    {
      rows[p.y][p.x]
    }
  }
}
