/**
 * Colour grouping: the row-major scan of the quantized image that collects,
 * for every non-white colour, the list of its pixels, with the colours kept
 * in the order in which they are first seen.
 */
module Grouping {
  import opened Raster

  /** One visited pixel together with its colour. */
  datatype Cell = Cell(at: Pixel, color: Rgb)

  /** The first x cells of row y, left to right. */
  function RowPrefix(img: Image, y: nat, x: nat): (s: seq<Cell>)
    requires img.Valid() && y < img.height && x <= img.width
    ensures |s| == x
  {
    if x == 0 then [] else RowPrefix(img, y, x - 1) + [Cell(Pixel(x - 1, y), img.rows[y][x - 1])]
  }

  /** All cells of the first y rows, in scan order. */
  function ScanRows(img: Image, y: nat): seq<Cell>
    requires img.Valid() && y <= img.height
  {
    if y == 0 then [] else ScanRows(img, y - 1) + RowPrefix(img, y - 1, img.width)
  }

  /** The whole image in the order of the nested `for y` / `for x` loops. */
  function Scan(img: Image): seq<Cell>
    requires img.Valid()
  {
    ScanRows(img, img.height)
  }

  predicate CellsSorted(s: seq<Cell>)
  {
    forall i, j :: 0 <= i < j < |s| ==> Before(s[i].at, s[j].at)
  }

  /**
   * The colour keys after visiting s: every non-white colour, appended the
   * first time it is met (dictionary insertion order).
   */
  function Keys(s: seq<Cell>): (r: seq<Rgb>)
    ensures White !in r && |r| <= |s|
  {
    if s == [] then []
    else
      var keys := Keys(s[..|s| - 1]);
      var c := s[|s| - 1].color;
      if c == White || c in keys then keys else keys + [c]
  }

  /** The per-colour pixel lists after visiting s: white is skipped, others appended. */
  function Groups(s: seq<Cell>): (r: map<Rgb, seq<Pixel>>)
    ensures White !in r
  {
    if s == [] then map[]
    else
      var groups := Groups(s[..|s| - 1]);
      var cell := s[|s| - 1];
      if cell.color == White then groups
      else groups[cell.color := (if cell.color in groups then groups[cell.color] else []) + [cell.at]]
  }

  /**
   * The colour-grouping loop of the drawing job: scans the image row by row,
   * skips white and appends every other pixel to the list of its colour,
   * creating the list (and the key) the first time the colour is seen.
   */
  method GroupByColor(img: Image) returns (keys: seq<Rgb>, groups: map<Rgb, seq<Pixel>>)
    requires img.Valid()
    ensures keys == Keys(Scan(img)) && groups == Groups(Scan(img))
  {
    keys, groups := [], map[];
    var y := 0;
    while y < img.height
      invariant y <= img.height
      invariant keys == Keys(ScanRows(img, y)) && groups == Groups(ScanRows(img, y))
    {
      keys, groups := GroupRow(img, y, keys, groups);
      y := y + 1;
    }
  }

  /** The inner loop of the grouping: adds the cells of row y, left to right. */
  method GroupRow(img: Image, y: nat, keys: seq<Rgb>, groups: map<Rgb, seq<Pixel>>)
    returns (keys': seq<Rgb>, groups': map<Rgb, seq<Pixel>>)
    requires img.Valid() && y < img.height
    requires keys == Keys(ScanRows(img, y)) && groups == Groups(ScanRows(img, y))
    ensures keys' == Keys(ScanRows(img, y + 1)) && groups' == Groups(ScanRows(img, y + 1))
  {
    keys', groups' := keys, groups;
    var x := 0;
    ghost var visited := ScanRows(img, y);  // the cells scanned so far
    assert visited == ScanRows(img, y) + RowPrefix(img, y, 0);
    while x < img.width
      invariant x <= img.width && visited == ScanRows(img, y) + RowPrefix(img, y, x)
      invariant keys' == Keys(visited) && groups' == Groups(visited)
    {
      var cell := Cell(Pixel(x, y), img.rows[y][x]);
      RowPrefixStep(img, y, x);
      keys', groups' := AddCell(keys', groups', cell, visited);
      visited := visited + [cell];
      x := x + 1;
    }
    assert ScanRows(img, y + 1) == ScanRows(img, y) + RowPrefix(img, y, img.width);
  }

  /**
   * The body of the inner loop: a white cell is skipped; any other colour
   * gets a list (and a key) the first time it is seen, then the pixel is
   * appended to its list.
   */
  method AddCell(keys: seq<Rgb>, groups: map<Rgb, seq<Pixel>>, cell: Cell, ghost visited: seq<Cell>)
    returns (keys': seq<Rgb>, groups': map<Rgb, seq<Pixel>>)
    requires keys == Keys(visited) && groups == Groups(visited)
    ensures keys' == Keys(visited + [cell]) && groups' == Groups(visited + [cell])
  {
    VisitOne(visited, cell);
    keys', groups' := keys, groups;
    var color := cell.color;
    if color != White {
      if color !in groups' {
        groups' := groups'[color := []];
        keys' := keys' + [color];
      }
      groups' := groups'[color := groups'[color] + [cell.at]];
    }
  }

  /** Scanning one more pixel of row y appends its cell. */
  lemma RowPrefixStep(img: Image, y: nat, x: nat)
    requires img.Valid() && y < img.height && x < img.width
    ensures ScanRows(img, y) + RowPrefix(img, y, x + 1) ==
      ScanRows(img, y) + RowPrefix(img, y, x) + [Cell(Pixel(x, y), img.rows[y][x])]
  {
  }

  /** What visiting one more cell does to the keys and the lists. */
  lemma VisitOne(visited: seq<Cell>, cell: Cell)
    ensures Keys(visited + [cell]) ==
      if cell.color == White || cell.color in Groups(visited) then Keys(visited)
      else Keys(visited) + [cell.color]
    ensures Groups(visited + [cell]) ==
      if cell.color == White then Groups(visited)
      else if cell.color in Groups(visited) then
        Groups(visited)[cell.color := Groups(visited)[cell.color] + [cell.at]]
      else Groups(visited)[cell.color := [cell.at]]
  {
    assert (visited + [cell])[..|visited|] == visited;
    assert [] + [cell.at] == [cell.at];
    KeysMatchGroups(visited);
  }

  /** Some cell of s has colour c. */
  ghost predicate HasColor(s: seq<Cell>, c: Rgb)
  {
    exists p :: Cell(p, c) in s
  }

  /** The keys are exactly the colours that have a list, and those are the non-white colours met. */
  lemma {:induction false} KeysMatchGroups(s: seq<Cell>)
    ensures forall c :: c in Keys(s) <==> c in Groups(s)
    ensures forall c :: c in Groups(s) <==> c != White && HasColor(s, c)
  {
    if s != [] {
      var init, last := s[..|s| - 1], s[|s| - 1];
      assert s == init + [last];
      KeysMatchGroups(init);
      forall c
        ensures HasColor(s, c) <==> HasColor(init, c) || last.color == c
      {
        if last.color == c {
          assert Cell(last.at, c) in s;
        }
      }
    }
  }

  /**
   * On a scan in row-major order, each colour's list holds exactly the pixels
   * of that colour, in row-major order.
   */
  lemma {:induction false} GroupMembers(s: seq<Cell>)
    requires CellsSorted(s)
    ensures forall c, p :: c in Groups(s) ==> (p in Groups(s)[c] <==> Cell(p, c) in s)
    ensures forall c :: c in Groups(s) ==> |Groups(s)[c]| > 0 && Sorted(Groups(s)[c])
  {
    if s != [] {
      var init, last := s[..|s| - 1], s[|s| - 1];
      assert s == init + [last];
      GroupMembers(init);
      KeysMatchGroups(init);
      VisitOne(init, last);
      GroupMembersStep(init, last, Groups(init), Groups(s));
    }
  }

  /** One step of `GroupMembers`: the lists stay exact and sorted when a later cell is visited. */
  lemma GroupMembersStep(init: seq<Cell>, last: Cell, g: map<Rgb, seq<Pixel>>, g': map<Rgb, seq<Pixel>>)
    requires CellsSorted(init + [last])
    requires forall c, p :: c in g ==> (p in g[c] <==> Cell(p, c) in init)
    requires forall c :: c in g ==> |g[c]| > 0 && Sorted(g[c])
    requires White !in g && forall p, c :: Cell(p, c) in init && c != White ==> c in g
    requires g' ==
      if last.color == White then g
      else if last.color in g then g[last.color := g[last.color] + [last.at]]
      else g[last.color := [last.at]]
    ensures forall c, p :: c in g' ==> (p in g'[c] <==> Cell(p, c) in init + [last])
    ensures forall c :: c in g' ==> |g'[c]| > 0 && Sorted(g'[c])
  {
    var s := init + [last];
    if last.color != White {
      var d := last.color;
      var old_d := if d in g then g[d] else [];
      forall p | p in old_d
        ensures Before(p, last.at)
      {
        assert d in g && Cell(p, d) in init;
        var i :| 0 <= i < |init| && init[i] == Cell(p, d);
        assert s[i] == init[i] && s[|init|] == last;
      }
      assert g'[d] == old_d + [last.at];
      forall p
        ensures p in g'[d] <==> Cell(p, d) in s
      {
        assert Cell(p, d) in s <==> Cell(p, d) in init || Cell(p, d) == last;
        if d in g {
          assert p in g[d] <==> Cell(p, d) in init;
        }
      }
    }
    forall c, p | c in g' && c != last.color
      ensures p in g'[c] <==> Cell(p, c) in s
    {
      assert Cell(p, c) in s <==> Cell(p, c) in init || Cell(p, c) == last;
    }
  }

  /**
   * The keys have no repeats, and they are ordered by first occurrence: the
   * first pixel of an earlier key comes before the first pixel of a later key.
   */
  lemma {:induction false} KeyOrder(s: seq<Cell>)
    requires CellsSorted(s)
    ensures Distinct(Keys(s))
    ensures forall c :: c in Keys(s) ==> c in Groups(s) && |Groups(s)[c]| > 0
    ensures forall a, b :: 0 <= a < b < |Keys(s)| ==>
      Before(Groups(s)[Keys(s)[a]][0], Groups(s)[Keys(s)[b]][0])
  {
    if s != [] {
      var init, last := s[..|s| - 1], s[|s| - 1];
      assert s == init + [last];
      FirstPixelsStay(init, last);
      KeyOrder(init);
      KeysMatchGroups(init);
      VisitOne(init, last);
      KeyOrderStep(Keys(init), Groups(init), Keys(s), Groups(s), last);
    }
  }

  /** One step of `KeyOrder`: the orders of the keys and of their first pixels survive one more cell. */
  lemma KeyOrderStep(k: seq<Rgb>, g: map<Rgb, seq<Pixel>>, k': seq<Rgb>, g': map<Rgb, seq<Pixel>>, last: Cell)
    requires Distinct(k) && forall c :: c in k <==> c in g
    requires forall c :: c in g ==> |g[c]| > 0
    requires forall a, b :: 0 <= a < b < |k| ==> Before(g[k[a]][0], g[k[b]][0])
    requires forall c :: c in g ==> c in g' && |g'[c]| > 0 && g'[c][0] == g[c][0] && Before(g[c][0], last.at)
    requires k' == if last.color == White || last.color in g then k else k + [last.color]
    requires last.color != White && last.color !in g ==> last.color in g' && g'[last.color] == [last.at]
    ensures Distinct(k')
    ensures forall c :: c in k' ==> c in g' && |g'[c]| > 0
    ensures forall a, b :: 0 <= a < b < |k'| ==> Before(g'[k'[a]][0], g'[k'[b]][0])
  {
    if last.color == White || last.color in g {
      forall a, b | 0 <= a < b < |k'|
        ensures Before(g'[k'[a]][0], g'[k'[b]][0])
      {
        assert k'[a] in g && k'[b] in g;
      }
    } else {
      var d := last.color;
      forall a, b | 0 <= a < b < |k'|
        ensures Before(g'[k'[a]][0], g'[k'[b]][0])
      {
        if b < |k| {
          assert k'[a] == k[a] && k'[b] == k[b];
          assert k[a] in g && k[b] in g;
        } else {
          assert k'[a] == k[a] && k'[b] == d;
          assert k[a] in g;
        }
      }
    }
  }

  /** Appending a later cell leaves the first pixel of every existing list alone. */
  lemma FirstPixelsStay(init: seq<Cell>, last: Cell)
    requires CellsSorted(init + [last])
    ensures forall c :: c in Groups(init) ==>
      (c in Groups(init + [last]) && |Groups(init)[c]| > 0 && |Groups(init + [last])[c]| > 0)
    ensures forall c :: c in Groups(init) ==>
      (Groups(init + [last])[c][0] == Groups(init)[c][0] && Before(Groups(init)[c][0], last.at))
  {
    var s := init + [last];
    assert CellsSorted(init) by {
      forall i, j | 0 <= i < j < |init| ensures Before(init[i].at, init[j].at) {
        assert s[i] == init[i] && s[j] == init[j];
      }
    }
    GroupMembers(init);
    VisitOne(init, last);
    forall c | c in Groups(init)
      ensures Before(Groups(init)[c][0], last.at)
    {
      var i :| 0 <= i < |init| && init[i] == Cell(Groups(init)[c][0], c);
      assert s[i] == init[i];
    }
  }

  lemma {:induction false} RowPrefixFacts(img: Image, y: nat, x: nat)
    requires img.Valid() && y < img.height && x <= img.width
    ensures CellsSorted(RowPrefix(img, y, x))
    ensures forall c :: c in RowPrefix(img, y, x) <==>
      c.at.y == y && c.at.x < x && c.color == img.At(c.at)
  {
    if x > 0 {
      RowPrefixFacts(img, y, x - 1);
      var init, last := RowPrefix(img, y, x - 1), Cell(Pixel(x - 1, y), img.rows[y][x - 1]);
      var s := init + [last];
      forall i, j | 0 <= i < j < |s|
        ensures Before(s[i].at, s[j].at)
      {
        if j < |init| {
          assert s[i] == init[i] && s[j] == init[j];
        } else {
          assert s[i] == init[i] && init[i] in init;
        }
      }
    }
  }

  /** The scan of the first y rows visits each pixel of those rows once, in row-major order. */
  lemma {:induction false} ScanRowsFacts(img: Image, y: nat)
    requires img.Valid() && y <= img.height
    ensures CellsSorted(ScanRows(img, y))
    ensures forall c :: c in ScanRows(img, y) <==>
      c.at.y < y && c.at.x < img.width && c.color == img.At(c.at)
  {
    if y > 0 {
      ScanRowsFacts(img, y - 1);
      RowPrefixFacts(img, y - 1, img.width);
      var a, b := ScanRows(img, y - 1), RowPrefix(img, y - 1, img.width);
      var s := a + b;
      forall i, j | 0 <= i < j < |s|
        ensures Before(s[i].at, s[j].at)
      {
        if j < |a| {
          assert s[i] == a[i] && s[j] == a[j];
        } else if i >= |a| {
          assert s[i] == b[i - |a|] && s[j] == b[j - |a|];
        } else {
          assert s[i] == a[i] && a[i] in a;
          assert s[j] == b[j - |a|] && b[j - |a|] in b;
        }
      }
    }
  }

  /**
   * What the grouping produces for a whole image: a key for exactly the
   * non-white colours present; each colour's list holds exactly the pixels of
   * that colour, each once and in row-major order; keys are distinct and in
   * order of first occurrence.
   */
  lemma GroupingCorrect(img: Image)
    requires img.Valid()
    ensures forall c :: c in Keys(Scan(img)) <==> c in Groups(Scan(img))
    ensures forall c :: c in Groups(Scan(img)) <==>
      c != White && exists p :: img.Contains(p) && img.At(p) == c
    ensures forall c, p :: c in Groups(Scan(img)) ==>
      (p in Groups(Scan(img))[c] <==> img.Contains(p) && img.At(p) == c)
    ensures forall c :: c in Groups(Scan(img)) ==>
      |Groups(Scan(img))[c]| > 0 && Sorted(Groups(Scan(img))[c])
    ensures Distinct(Keys(Scan(img)))
    ensures forall a, b :: 0 <= a < b < |Keys(Scan(img))| ==>
      Before(Groups(Scan(img))[Keys(Scan(img))[a]][0], Groups(Scan(img))[Keys(Scan(img))[b]][0])
  {
    var s := Scan(img);
    ScanRowsFacts(img, img.height);
    KeysMatchGroups(s);
    GroupMembers(s);
    KeyOrder(s);
    forall c
      ensures HasColor(s, c) <==> exists p :: img.Contains(p) && img.At(p) == c
    {
      if exists p :: img.Contains(p) && img.At(p) == c {
        var p :| img.Contains(p) && img.At(p) == c;
        assert Cell(p, c) in s;
      }
    }
  }
}
