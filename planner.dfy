/**
 * Run planning over one colour's pixel list: every entry that is not skipped
 * becomes either a single dot or the start of a horizontal run, and the run's
 * length is the number of following entries skipped.
 */
module Planner {
  import opened Raster
  import opened Grouping

  /** `has_neighbor`: the pixel one column to the right is in the same colour's list. */
  predicate HasNeighbor(p: Pixel, group: seq<Pixel>)
  {
    RightOf(p) in group
  }

  /** One more than the largest column in g (0 for an empty list). */
  function Bound(g: seq<Pixel>): (b: nat)
    ensures forall q :: q in g ==> q.x < b
  {
    if g == [] then 0
    else
      var rest := Bound(g[1..]);
      assert forall q :: q in g ==> q == g[0] || q in g[1..];
      if g[0].x + 1 < rest then rest else g[0].x + 1
  }

  /** The pixel j columns to the right of p. */
  function Shifted(p: Pixel, j: nat): Pixel
  {
    Pixel(p.x + j, p.y)
  }

  /**
   * How far the virtual pixel walks right from p: the number of steps taken
   * while the current column still has a neighbour in g.
   */
  function RunLength(g: seq<Pixel>, p: Pixel): (k: nat)
    ensures forall j :: 1 <= j <= k ==> Shifted(p, j) in g
    ensures !HasNeighbor(Shifted(p, k), g)
    decreases Bound(g) - p.x
  {
    if HasNeighbor(p, g) then
      var q := RightOf(p);
      var k' := RunLength(g, q);
      assert forall j :: 1 <= j <= k' + 1 ==> Shifted(p, j) == q || Shifted(p, j) == Shifted(q, j - 1);
      1 + k'
    else 0
  }

  /** A planned stroke: one click, or a press-drag-release over steps + 1 columns. */
  datatype Stroke = Dot(at: Pixel) | Run(start: Pixel, steps: nat)

  /**
   * The strokes for the entries of g from index i on, skipping after a run
   * exactly as many entries as the run took steps.
   */
  function StrokesFrom(g: seq<Pixel>, i: nat): seq<Stroke>
    decreases |g| - i
  {
    if i >= |g| then []
    else
      var k := RunLength(g, g[i]);
      if k == 0 then [Dot(g[i])] + StrokesFrom(g, i + 1)
      else [Run(g[i], k)] + StrokesFrom(g, i + k + 1)
  }

  /** The strokes for a whole colour list. */
  function Plan(g: seq<Pixel>): seq<Stroke>
  {
    StrokesFrom(g, 0)
  }

  /** The pixels a stroke covers, left to right. */
  function Span(s: Stroke): seq<Pixel>
  {
    match s
    case Dot(p) => [p]
    case Run(p, k) => seq(k + 1, j requires 0 <= j <= k => Shifted(p, j))
  }

  /** The pixels covered by a list of strokes, in stroke order. */
  function Flatten(strokes: seq<Stroke>): seq<Pixel>
  {
    if strokes == [] then [] else Span(strokes[0]) + Flatten(strokes[1..])
  }

  /** In a row-major list, position order and row-major order agree. */
  lemma IndexOrder(g: seq<Pixel>, a: nat, b: nat)
    requires Sorted(g) && a < |g| && b < |g|
    ensures a < b <==> Before(g[a], g[b])
  {
  }

  /** In a row-major list, the right neighbour of an entry, if present, is the next entry. */
  lemma NextInRow(g: seq<Pixel>, i: nat)
    requires Sorted(g) && i < |g| && HasNeighbor(g[i], g)
    ensures i + 1 < |g| && g[i + 1] == RightOf(g[i])
  {
    var m :| 0 <= m < |g| && g[m] == RightOf(g[i]);
    IndexOrder(g, i, m);
    IndexOrder(g, i, i + 1);
    IndexOrder(g, i + 1, m);
  }

  /**
   * The run started at entry i covers exactly the next RunLength entries,
   * which are the pixels (x+1, y) .. (x+k, y).
   */
  lemma {:induction false} RunIsNextEntries(g: seq<Pixel>, i: nat)
    requires Sorted(g) && i < |g|
    ensures i + RunLength(g, g[i]) < |g|
    ensures forall j :: 0 <= j <= RunLength(g, g[i]) ==> g[i + j] == Shifted(g[i], j)
    decreases |g| - i
  {
    if HasNeighbor(g[i], g) {
      NextInRow(g, i);
      RunIsNextEntries(g, i + 1);
      var k := RunLength(g, g[i]);
      assert k == 1 + RunLength(g, g[i + 1]);
      forall j | 0 <= j <= k
        ensures g[i + j] == Shifted(g[i], j)
      {
        if j > 0 {
          assert g[(i + 1) + (j - 1)] == Shifted(g[i + 1], j - 1);
        }
      }
    }
  }

  /** So the run's span is the slice of g that the walk then skips. */
  lemma RunSpanIsSlice(g: seq<Pixel>, i: nat)
    requires Sorted(g) && i < |g|
    ensures i + RunLength(g, g[i]) < |g|
    ensures Span(Run(g[i], RunLength(g, g[i]))) == g[i..i + RunLength(g, g[i]) + 1]
  {
    RunIsNextEntries(g, i);
  }

  /** Where the walk goes on after the stroke planned at entry i. */
  function After(g: seq<Pixel>, i: nat): nat
    requires i < |g|
  {
    i + RunLength(g, g[i]) + 1
  }

  /** The stroke planned at entry i: a run when the entry has a right neighbour, a dot otherwise. */
  function StrokeAt(g: seq<Pixel>, i: nat): (s: Stroke)
    requires i < |g|
    ensures s == (if HasNeighbor(g[i], g) then Run(g[i], RunLength(g, g[i])) else Dot(g[i]))
  {
    var k := RunLength(g, g[i]);
    if k == 0 then Dot(g[i]) else Run(g[i], k)
  }

  /** The plan from entry i is the stroke at i, then the plan from after the skipped entries. */
  lemma PlanStep(g: seq<Pixel>, i: nat)
    requires i < |g|
    ensures StrokesFrom(g, i) == [StrokeAt(g, i)] + StrokesFrom(g, After(g, i))
  {
  }

  /** On a row-major list, the stroke at entry i covers the entries up to where the walk goes on. */
  lemma StrokeAtSpan(g: seq<Pixel>, i: nat)
    requires Sorted(g) && i < |g|
    ensures i < After(g, i) <= |g|
    ensures Span(StrokeAt(g, i)) == g[i..After(g, i)]
  {
    if RunLength(g, g[i]) == 0 {
      assert g[i..i + 1] == [g[i]];
    } else {
      RunSpanIsSlice(g, i);
    }
  }

  /** The strokes from entry i on cover the remaining entries exactly, in order. */
  lemma {:induction false} StrokesCover(g: seq<Pixel>, i: nat)
    requires Sorted(g) && i <= |g|
    ensures Flatten(StrokesFrom(g, i)) == g[i..]
    decreases |g| - i
  {
    if i < |g| {
      var next := After(g, i);
      var strokes := StrokesFrom(g, i);
      StrokeAtSpan(g, i);
      StrokesCover(g, next);
      assert strokes[1..] == StrokesFrom(g, next);
      assert Flatten(strokes) == Span(strokes[0]) + Flatten(strokes[1..]);
      assert g[i..] == g[i..next] + g[next..];
    }
  }

  /** The skip-count walk covers every entry of a row-major colour list exactly once, in order. */
  lemma PlanCoversGroup(g: seq<Pixel>)
    requires Sorted(g)
    ensures Flatten(Plan(g)) == g
  {
    StrokesCover(g, 0);
  }

  /**
   * A stroke is maximal in g: all its pixels are in g, and neither the
   * column left of its start nor the column right of its end is.
   */
  predicate Maximal(s: Stroke, g: seq<Pixel>)
  {
    match s
    case Dot(p) =>
      p in g && !HasNeighbor(p, g) && (p.x == 0 || Pixel(p.x - 1, p.y) !in g)
    case Run(p, k) =>
      && k >= 1
      && (forall j :: 0 <= j <= k ==> Shifted(p, j) in g)
      && !HasNeighbor(Shifted(p, k), g)
      && (p.x == 0 || Pixel(p.x - 1, p.y) !in g)
  }

  /** Entry i is where the walk may start a stroke: it does not continue the entry before it. */
  predicate StartsStroke(g: seq<Pixel>, i: nat)
  {
    i == 0 || i >= |g| || g[i] != RightOf(g[i - 1])
  }

  lemma NoLeftNeighbor(g: seq<Pixel>, i: nat)
    requires Sorted(g) && i < |g| && StartsStroke(g, i) && g[i].x > 0
    ensures Pixel(g[i].x - 1, g[i].y) !in g
  {
    var left := Pixel(g[i].x - 1, g[i].y);
    assert RightOf(left) == g[i];
    forall m | 0 <= m < |g|
      ensures g[m] != left
    {
      if HasNeighbor(g[m], g) {
        NextInRow(g, m);
      }
      assert m + 1 < i ==> Before(g[m + 1], g[i]);
      assert m + 1 > i && m + 1 < |g| ==> Before(g[i], g[m + 1]);
    }
  }

  /** The stroke at a stroke start is maximal, and the walk goes on at another stroke start. */
  lemma StrokeAtMaximal(g: seq<Pixel>, i: nat)
    requires Sorted(g) && i < |g| && StartsStroke(g, i)
    ensures Maximal(StrokeAt(g, i), g) && StartsStroke(g, After(g, i))
  {
    var k := RunLength(g, g[i]);
    if g[i].x > 0 {
      NoLeftNeighbor(g, i);
    }
    assert g[i] in g;
    if k == 0 {
      assert i + 1 < |g| ==> g[i + 1] != RightOf(g[i]);
    } else {
      RunIsNextEntries(g, i);
      assert g[i + k] == Shifted(g[i], k);
      assert i + k + 1 < |g| ==> g[i + k + 1] != RightOf(g[i + k]);
    }
  }

  lemma {:induction false} StrokesMaximal(g: seq<Pixel>, i: nat)
    requires Sorted(g) && StartsStroke(g, i)
    ensures forall s :: s in StrokesFrom(g, i) ==> Maximal(s, g)
    decreases |g| - i
  {
    if i < |g| {
      PlanStep(g, i);
      StrokeAtMaximal(g, i);
      StrokesMaximal(g, After(g, i));
    }
  }

  /**
   * Every stroke planned for a row-major colour list is a maximal horizontal
   * span: dots are pixels with neither horizontal neighbour, and a run from
   * (x, y) of k steps covers (x..x+k, y) with (x-1, y) and (x+k+1, y) absent.
   */
  lemma PlanIsMaximal(g: seq<Pixel>)
    requires Sorted(g)
    ensures forall s :: s in Plan(g) ==> Maximal(s, g)
  {
    StrokesMaximal(g, 0);
  }

  /**
   * On the lists built from an image, `has_neighbor` only looks at the one
   * colour's list, and that is the same as asking whether the pixel to the
   * right in the image has this colour.
   */
  lemma NeighborInImage(img: Image, c: Rgb, p: Pixel)
    requires img.Valid() && c in Groups(Scan(img))
    ensures HasNeighbor(p, Groups(Scan(img))[c]) <==>
      img.Contains(RightOf(p)) && img.At(RightOf(p)) == c
  {
    GroupingCorrect(img);
  }

  /** The pixels covered by the strokes of every colour, colour after colour. */
  function JobPixels(keys: seq<Rgb>, groups: map<Rgb, seq<Pixel>>): seq<Pixel>
    requires forall i :: 0 <= i < |keys| ==> keys[i] in groups
  {
    if keys == [] then [] else Flatten(Plan(groups[keys[0]])) + JobPixels(keys[1..], groups)
  }

  lemma DistinctConcat<T>(a: seq<T>, b: seq<T>)
    requires Distinct(a) && Distinct(b)
    requires forall x :: x in a ==> x !in b
    ensures Distinct(a + b)
  {
    var s := a + b;
    forall i, j | 0 <= i < j < |s|
      ensures s[i] != s[j]
    {
      if i < |a| && j >= |a| {
        assert s[i] == a[i] && a[i] in a;
        assert s[j] == b[j - |a|] && b[j - |a|] in b;
      } else if i >= |a| {
        assert s[i] == b[i - |a|] && s[j] == b[j - |a|];
      } else {
        assert s[i] == a[i] && s[j] == a[j];
      }
    }
  }

  lemma {:induction false} JobPixelsFacts(keys: seq<Rgb>, groups: map<Rgb, seq<Pixel>>)
    requires forall i :: 0 <= i < |keys| ==> keys[i] in groups
    requires forall c :: c in groups ==> Sorted(groups[c])
    requires Distinct(keys)
    requires forall c, d, p :: c in groups && d in groups && p in groups[c] && p in groups[d] ==> c == d
    ensures forall p :: p in JobPixels(keys, groups) <==>
      exists i :: 0 <= i < |keys| && p in groups[keys[i]]
    ensures Distinct(JobPixels(keys, groups))
  {
    if keys != [] {
      var c, rest := keys[0], keys[1..];
      assert Distinct(rest) by {
        forall i, j | 0 <= i < j < |rest| ensures rest[i] != rest[j] {
          assert rest[i] == keys[i + 1] && rest[j] == keys[j + 1];
        }
      }
      JobPixelsFacts(rest, groups);
      PlanCoversGroup(groups[c]);
      SortedIsDistinct(groups[c]);
      forall p | p in groups[c]
        ensures p !in JobPixels(rest, groups)
      {
        forall i | 0 <= i < |rest|
          ensures p !in groups[rest[i]]
        {
          assert rest[i] == keys[i + 1] && keys[0] != keys[i + 1];
        }
      }
      DistinctConcat(groups[c], JobPixels(rest, groups));
      forall p
        ensures p in JobPixels(keys, groups) <==> exists i :: 0 <= i < |keys| && p in groups[keys[i]]
      {
        if exists i :: 0 <= i < |keys| && p in groups[keys[i]] {
          var i :| 0 <= i < |keys| && p in groups[keys[i]];
          if i > 0 {
            assert keys[i] == rest[i - 1];
          }
        }
        if p in JobPixels(rest, groups) {
          var i :| 0 <= i < |rest| && p in groups[rest[i]];
          assert rest[i] == keys[i + 1];
        }
      }
    }
  }

  /** Two colours' lists of the same image never share a pixel. */
  lemma GroupsDisjoint(img: Image)
    requires img.Valid()
    ensures forall c, d, p ::
      (c in Groups(Scan(img)) && d in Groups(Scan(img)) &&
       p in Groups(Scan(img))[c] && p in Groups(Scan(img))[d]) ==> c == d
  {
    var groups := Groups(Scan(img));
    GroupingCorrect(img);
    forall c, d, p | c in groups && d in groups && p in groups[c] && p in groups[d]
      ensures c == d
    {
      assert img.Contains(p) && img.At(p) == c;
      assert img.Contains(p) && img.At(p) == d;
    }
  }

  /** Every non-white pixel of the image is in the list of some key. */
  lemma PixelHasKey(img: Image, p: Pixel)
    requires img.Valid() && img.Contains(p) && img.At(p) != White
    ensures exists i ::
      0 <= i < |Keys(Scan(img))| && Keys(Scan(img))[i] in Groups(Scan(img)) &&
      p in Groups(Scan(img))[Keys(Scan(img))[i]]
  {
    GroupingCorrect(img);
    var keys := Keys(Scan(img));
    var c := img.At(p);
    assert c in Groups(Scan(img));
    assert c in keys;
    var i :| 0 <= i < |keys| && keys[i] == c;
  }

  /** The facts about the lists of an image that the whole-job coverage needs. */
  lemma JobShape(img: Image)
    requires img.Valid()
    ensures forall i :: 0 <= i < |Keys(Scan(img))| ==> Keys(Scan(img))[i] in Groups(Scan(img))
    ensures forall c :: c in Groups(Scan(img)) ==> Sorted(Groups(Scan(img))[c])
    ensures Distinct(Keys(Scan(img)))
  {
    GroupingCorrect(img);
  }

  /** A pixel in some colour's list is a pixel of the image, and not white. */
  lemma MemberIsForeground(img: Image, c: Rgb, p: Pixel)
    requires img.Valid() && c in Groups(Scan(img)) && p in Groups(Scan(img))[c]
    ensures img.Contains(p) && img.At(p) == c && c != White
  {
    GroupingCorrect(img);
  }

  /**
   * Across the whole drawing job, the strokes of all colours together cover
   * every non-white pixel of the image exactly once, and no white pixel.
   */
  lemma ImagePlanCovers(img: Image)
    requires img.Valid()
    ensures forall i :: 0 <= i < |Keys(Scan(img))| ==> Keys(Scan(img))[i] in Groups(Scan(img))
    ensures forall p :: p in JobPixels(Keys(Scan(img)), Groups(Scan(img))) <==>
      img.Contains(p) && img.At(p) != White
    ensures Distinct(JobPixels(Keys(Scan(img)), Groups(Scan(img))))
  {
    var keys, groups := Keys(Scan(img)), Groups(Scan(img));
    JobShape(img);
    GroupsDisjoint(img);
    JobPixelsFacts(keys, groups);
    forall p
      ensures p in JobPixels(keys, groups) <==> img.Contains(p) && img.At(p) != White
    {
      if img.Contains(p) && img.At(p) != White {
        PixelHasKey(img, p);
      }
      if p in JobPixels(keys, groups) {
        var i :| 0 <= i < |keys| && p in groups[keys[i]];
        MemberIsForeground(img, keys[i], p);
      }
    }
  }
}
