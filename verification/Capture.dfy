/**
 The area-average downscale of a captured frame: its boxes, its arithmetic, and the loops that
 fill the smaller frame. The three bytes of a pixel are kept together.
 */
module Capture {
  import opened Common

  const MAX_PIXELS: nat := 40_000_000
  const U32_LIMIT: nat := 0x1_0000_0000

  datatype Channel = Red | Green | Blue

  datatype Pixel = Pixel(red: nat, green: nat, blue: nat) {
    function Get(c: Channel): nat {
      match c
      case Red => red
      case Green => green
      case Blue => blue
    }
  }

  datatype Frame = Frame(width: nat, height: nat, pixels: seq<Pixel>) {
    predicate NonEmpty() {
      width > 0 && height > 0 && |pixels| == width * height
    }

    function At(x: nat, y: nat): Pixel
      requires NonEmpty() && x < width && y < height
    {
      InFrame(x, y, width, height);
      pixels[y * width + x]
    }
  }

  function Max(a: nat, b: nat): nat {
    if a < b then b else a
  }

  function ScaledEdge(edge: nat, longest: nat, maxEdge: nat): nat
    requires longest > 0
  {
    Max(edge * maxEdge / longest, 1)
  }

  function SourceStart(target: nat, targetEdge: nat, sourceEdge: nat): nat
    requires targetEdge > 0
  {
    target * sourceEdge / targetEdge
  }

  function SourceEnd(target: nat, targetEdge: nat, sourceEdge: nat): nat
    requires targetEdge > 0
  {
    Min(Max((target + 1) * sourceEdge / targetEdge, SourceStart(target, targetEdge, sourceEdge) + 1), sourceEdge)
  }

  // Division.

  lemma InFrame(x: nat, y: nat, width: nat, height: nat)
    requires x < width && y < height
    ensures y * width + x < width * height
  {
    assert (y + 1) * width <= height * width;
  }

  lemma Quotient(a: nat, d: nat)
    requires d > 0
    ensures a / d * d <= a < (a / d + 1) * d
  {
    assert a == a / d * d + a % d;
  }

  lemma QuotientBelow(a: nat, d: nat, k: nat)
    requires d > 0
    ensures a / d < k <==> a < k * d
  {
    Quotient(a, d);
    var q := a / d;
    if q < k {
      assert (q + 1) * d <= k * d;
    } else {
      assert k * d <= q * d;
    }
  }

  // Edges and boxes.

  lemma MulMonotonic(a: nat, b: nat, c: nat)
    requires a <= b
    ensures a * c <= b * c
  {
  }

  /** No edge grows, none is lost, and the longest becomes exactly the cap. */
  lemma EdgesShrink(edge: nat, longest: nat, maxEdge: nat)
    requires 0 < edge <= longest && 0 < maxEdge < longest
    ensures 1 <= ScaledEdge(edge, longest, maxEdge) <= Min(edge, maxEdge)
    ensures edge == longest ==> ScaledEdge(edge, longest, maxEdge) == maxEdge
  {
    ProductBelow(edge, maxEdge, longest);
    ProductBelow(maxEdge, edge, longest);
    QuotientBelow(edge * maxEdge, longest, edge + 1);
    QuotientBelow(edge * maxEdge, longest, maxEdge + 1);
    if edge == longest {
      QuotientBelow(edge * maxEdge, longest, maxEdge);
      assert edge * maxEdge == maxEdge * longest;
    }
  }

  lemma ProductBelow(a: nat, b: nat, c: nat)
    requires b <= c && 0 < c
    ensures a * b < (a + 1) * c && b * a < (a + 1) * c
  {
    MulMonotonic(b, c, a);
    assert (a + 1) * c == a * c + c && a * b == b * a && a * c == c * a;
  }

  lemma StartsAscend(t: nat, n: nat, edge: nat)
    requires 0 < n <= edge
    ensures SourceStart(t, n, edge) + 1 <= SourceStart(t + 1, n, edge)
  {
    var start := SourceStart(t, n, edge);
    Quotient(t * edge, n);
    assert (t + 1) * edge == t * edge + edge;
    assert (start + 1) * n == start * n + n;
    QuotientBelow((t + 1) * edge, n, start + 1);
  }

  lemma StartsEndAtEdge(t: nat, n: nat, edge: nat)
    requires 0 < n && t <= n
    ensures SourceStart(t, n, edge) <= edge && SourceStart(n, n, edge) == edge
  {
    MulMonotonic(t, n, edge);
    assert n * edge < (edge + 1) * n by {
      assert (edge + 1) * n == n * edge + n;
    }
    QuotientBelow(t * edge, n, edge + 1);
    QuotientBelow(n * edge, n, edge);
    QuotientBelow(n * edge, n, edge + 1);
  }

  /** Consecutive boxes touch, none is empty, and the clamps change nothing. */
  lemma BoxesTouch(t: nat, n: nat, edge: nat)
    requires 0 < n <= edge && t < n
    ensures SourceEnd(t, n, edge) == SourceStart(t + 1, n, edge)
    ensures SourceStart(t, n, edge) < SourceEnd(t, n, edge) <= edge
    ensures SourceStart(0, n, edge) == 0 && SourceStart(n, n, edge) == edge
  {
    StartsAscend(t, n, edge);
    StartsEndAtEdge(t + 1, n, edge);
  }

  /** The box a source index falls in. */
  function BoxOf(x: nat, n: nat, edge: nat): nat
    requires edge > 0 && n > 0
  {
    ((x + 1) * n - 1) / edge
  }

  lemma LastInBox(x: nat, n: nat, edge: nat, k: nat)
    requires n > 0 && edge > 0
    ensures k * edge / n <= x <==> k <= BoxOf(x, n, edge)
  {
    QuotientBelow(k * edge, n, x + 1);
    QuotientBelow((x + 1) * n - 1, edge, k);
  }

  /** The boxes partition the source: every index is in exactly one. */
  lemma InExactlyOneBox(x: nat, t: nat, n: nat, edge: nat)
    requires 0 < n <= edge && x < edge && t < n
    ensures SourceStart(t, n, edge) <= x < SourceEnd(t, n, edge) <==> t == BoxOf(x, n, edge)
    ensures BoxOf(x, n, edge) < n
  {
    BoxesTouch(t, n, edge);
    LastInBox(x, n, edge, t);
    LastInBox(x, n, edge, t + 1);
    LastInBox(x, n, edge, n);
  }

  // Sums over boxes of one channel, given as a function of the coordinates.

  type Plane = (nat, nat) -> nat

  function PlaneOf(f: Frame, c: Channel): Plane
    requires f.NonEmpty()
  {
    (x: nat, y: nat) => if x < f.width && y < f.height then f.At(x, y).Get(c) else 0
  }

  function RowSum(p: Plane, y: nat, x0: nat, x1: nat): nat
    decreases x1
  {
    if x1 <= x0 then 0 else RowSum(p, y, x0, x1 - 1) + p(x1 - 1, y)
  }

  function BoxSum(p: Plane, x0: nat, x1: nat, y0: nat, y1: nat): nat
    decreases y1
  {
    if y1 <= y0 then 0 else BoxSum(p, x0, x1, y0, y1 - 1) + RowSum(p, y1 - 1, x0, x1)
  }

  lemma {:induction false} RowSumSplits(p: Plane, y: nat, x0: nat, x1: nat, x2: nat)
    requires x0 <= x1 <= x2
    ensures RowSum(p, y, x0, x2) == RowSum(p, y, x0, x1) + RowSum(p, y, x1, x2)
    decreases x2
  {
    if x1 < x2 {
      RowSumSplits(p, y, x0, x1, x2 - 1);
    }
  }

  lemma {:induction false} BoxSumSplitsAcross(p: Plane, x0: nat, x1: nat, x2: nat, y0: nat, y1: nat)
    requires x0 <= x1 <= x2
    ensures BoxSum(p, x0, x2, y0, y1) == BoxSum(p, x0, x1, y0, y1) + BoxSum(p, x1, x2, y0, y1)
    decreases y1
  {
    if y0 < y1 {
      BoxSumSplitsAcross(p, x0, x1, x2, y0, y1 - 1);
      RowSumSplits(p, y1 - 1, x0, x1, x2);
    }
  }

  lemma {:induction false} BoxSumSplitsDown(p: Plane, x0: nat, x1: nat, y0: nat, y1: nat, y2: nat)
    requires y0 <= y1 <= y2
    ensures BoxSum(p, x0, x1, y0, y2) == BoxSum(p, x0, x1, y0, y1) + BoxSum(p, x0, x1, y1, y2)
    decreases y2
  {
    if y1 < y2 {
      BoxSumSplitsDown(p, x0, x1, y0, y1, y2 - 1);
    }
  }

  lemma {:induction false} EmptyBox(p: Plane, y0: nat, y1: nat)
    ensures BoxSum(p, 0, 0, y0, y1) == 0
    decreases y1
  {
    if y0 < y1 {
      EmptyBox(p, y0, y1 - 1);
    }
  }

  // Conservation: the boxes together hold every pixel once.

  /** The sum of the first `k` of the `n` boxes between two rows of a plane of some width. */
  function StripSum(p: Plane, width: nat, n: nat, k: nat, y0: nat, y1: nat): nat
    requires 0 < n
    decreases k
  {
    if k == 0 then 0
    else
      StripSum(p, width, n, k - 1, y0, y1)
      + BoxSum(p, SourceStart(k - 1, n, width), SourceEnd(k - 1, n, width), y0, y1)
  }

  /** The sum of the first `k` of `m` strips of `n` boxes each. */
  function TotalOfBoxes(p: Plane, width: nat, height: nat, n: nat, m: nat, k: nat): nat
    requires 0 < n && 0 < m
    decreases k
  {
    if k == 0 then 0
    else
      TotalOfBoxes(p, width, height, n, m, k - 1)
      + StripSum(p, width, n, n, SourceStart(k - 1, m, height), SourceEnd(k - 1, m, height))
  }

  lemma {:induction false} StripIsWhole(p: Plane, width: nat, n: nat, k: nat, y0: nat, y1: nat)
    requires 0 < n <= width && k <= n
    ensures StripSum(p, width, n, k, y0, y1) == BoxSum(p, 0, SourceStart(k, n, width), y0, y1)
    decreases k
  {
    if k == 0 {
      BoxesTouch(0, n, width);
      EmptyBox(p, y0, y1);
    } else {
      BoxesTouch(k - 1, n, width);
      StripIsWhole(p, width, n, k - 1, y0, y1);
      BoxSumSplitsAcross(p, 0, SourceStart(k - 1, n, width), SourceStart(k, n, width), y0, y1);
    }
  }

  lemma {:induction false} StripsAddUp(p: Plane, width: nat, height: nat, n: nat, m: nat, k: nat)
    requires 0 < n <= width && 0 < m <= height && k <= m
    ensures TotalOfBoxes(p, width, height, n, m, k) == BoxSum(p, 0, width, 0, SourceStart(k, m, height))
    decreases k
  {
    BoxesTouch(0, m, height);
    if k > 0 {
      BoxesTouch(k - 1, m, height);
      StripsAddUp(p, width, height, n, m, k - 1);
      var y0, y1 := SourceStart(k - 1, m, height), SourceStart(k, m, height);
      StripIsWhole(p, width, n, n, y0, y1);
      BoxesTouch(0, n, width);
      BoxSumSplitsDown(p, 0, width, 0, y0, y1);
    }
  }

  /** Every pixel is summed exactly once: the box sums add up to the sum of the whole plane. */
  lemma BoxesConserveTheSum(p: Plane, width: nat, height: nat, n: nat, m: nat)
    requires 0 < n <= width && 0 < m <= height
    ensures TotalOfBoxes(p, width, height, n, m, m) == BoxSum(p, 0, width, 0, height)
  {
    StripsAddUp(p, width, height, n, m, m);
    BoxesTouch(0, m, height);
  }

  // Bounds.

  ghost predicate BoxWithin(p: Plane, x0: nat, x1: nat, y0: nat, y1: nat, low: nat, high: nat) {
    forall x: nat, y: nat :: x0 <= x < x1 && y0 <= y < y1 ==> low <= p(x, y) <= high
  }

  lemma {:induction false} RowSumBounds(p: Plane, y: nat, x0: nat, x1: nat, low: nat, high: nat)
    requires x0 <= x1 && BoxWithin(p, x0, x1, y, y + 1, low, high)
    ensures low * (x1 - x0) <= RowSum(p, y, x0, x1) <= high * (x1 - x0)
    decreases x1
  {
    if x0 < x1 {
      RowSumBounds(p, y, x0, x1 - 1, low, high);
      assert low * (x1 - x0) == low * (x1 - 1 - x0) + low;
      assert high * (x1 - x0) == high * (x1 - 1 - x0) + high;
    }
  }

  lemma OneMoreRow(width: nat, rows: nat, sum: nat, row: nat, low: nat, high: nat)
    requires rows > 0
    requires low * (width * (rows - 1)) <= sum <= high * (width * (rows - 1))
    requires low * width <= row <= high * width
    ensures low * (width * rows) <= sum + row <= high * (width * rows)
  {
    var before := width * (rows - 1);
    assert width * rows == before + width;
    assert low * (before + width) == low * before + low * width;
    assert high * (before + width) == high * before + high * width;
  }

  lemma {:induction false} BoxSumBounds(p: Plane, x0: nat, x1: nat, y0: nat, y1: nat, low: nat, high: nat)
    requires x0 <= x1 && y0 <= y1 && BoxWithin(p, x0, x1, y0, y1, low, high)
    ensures low * ((x1 - x0) * (y1 - y0)) <= BoxSum(p, x0, x1, y0, y1) <= high * ((x1 - x0) * (y1 - y0))
    decreases y1
  {
    if y0 < y1 {
      BoxSumBounds(p, x0, x1, y0, y1 - 1, low, high);
      RowSumBounds(p, y1 - 1, x0, x1, low, high);
      OneMoreRow(x1 - x0, y1 - y0, BoxSum(p, x0, x1, y0, y1 - 1), RowSum(p, y1 - 1, x0, x1), low, high);
    } else {
      assert (x1 - x0) * (y1 - y0) == 0;
    }
  }

  lemma Positive(a: nat, b: nat)
    requires a > 0 && b > 0
    ensures a * b > 0
  {
  }

  function Area(x0: nat, x1: nat, y0: nat, y1: nat): (area: nat)
    requires x0 < x1 && y0 < y1
    ensures area > 0
  {
    Positive(x1 - x0, y1 - y0);
    (x1 - x0) * (y1 - y0)
  }

  /** What a box becomes in one channel. */
  function Average(p: Plane, x0: nat, x1: nat, y0: nat, y1: nat): nat
    requires x0 < x1 && y0 < y1
  {
    BoxSum(p, x0, x1, y0, y1) / Area(x0, x1, y0, y1)
  }

  /** An average lies between the smallest and the largest value of its box. */
  lemma AverageIsBetween(p: Plane, x0: nat, x1: nat, y0: nat, y1: nat, low: nat, high: nat)
    requires x0 < x1 && y0 < y1 && BoxWithin(p, x0, x1, y0, y1, low, high)
    ensures low <= Average(p, x0, x1, y0, y1) <= high
  {
    var count, sum := (x1 - x0) * (y1 - y0), BoxSum(p, x0, x1, y0, y1);
    Positive(x1 - x0, y1 - y0);
    BoxSumBounds(p, x0, x1, y0, y1, low, high);
    QuotientBelow(sum, count, low);
    assert sum < high * count + count == (high + 1) * count;
    QuotientBelow(sum, count, high + 1);
  }

  // The 32-bit sums.

  /** The sum of box `(tx, ty)` of `n` by `m` boxes. */
  function TileSum(p: Plane, width: nat, height: nat, n: nat, m: nat, tx: nat, ty: nat): nat
    requires n > 0 && m > 0
  {
    BoxSum(p, SourceStart(tx, n, width), SourceEnd(tx, n, width), SourceStart(ty, m, height), SourceEnd(ty, m, height))
  }

  /** A box is at most one longer than its share of the edge. */
  lemma BoxIsShort(t: nat, n: nat, edge: nat)
    requires 3 <= n <= edge && t < n
    ensures 3 * (SourceEnd(t, n, edge) - SourceStart(t, n, edge)) < edge + 3
  {
    BoxesTouch(t, n, edge);
    Quotient(t * edge, n);
    Quotient((t + 1) * edge, n);
    assert (t + 1) * edge == t * edge + edge;
    ShortStep(SourceStart(t, n, edge), SourceEnd(t, n, edge) - SourceStart(t, n, edge), n, t * edge, edge);
  }

  lemma ShortStep(start: nat, size: nat, n: nat, at: nat, edge: nat)
    requires 3 <= n && 0 < size
    requires at < (start + 1) * n && (start + size) * n <= at + edge
    ensures 3 * size < edge + 3
  {
    assert (start + size) * n == (start + 1) * n + (size - 1) * n;
    MulMonotonic(3, n, size - 1);
    assert n * (size - 1) == (size - 1) * n;
  }

  lemma ShortEdge(short: nat, long: nat)
    requires short <= long && short * long <= MAX_PIXELS
    ensures short < 6400
  {
    MulMonotonic(short, long, short);
    if short >= 6400 {
      MulMonotonic(6400, short, 6400);
      MulMonotonic(6400, short, short);
    }
  }

  /** A box of less than a third of the long edge and at most the short edge is small. */
  lemma AreaIsSmall(a: nat, b: nat, long: nat, short: nat)
    requires short <= long && short * long <= MAX_PIXELS && 3 * a < long + 3 && b <= short
    ensures 255 * (a * b) < U32_LIMIT
  {
    ShortEdge(short, long);
    MulMonotonic(b, short, a);
    MulMonotonic(3 * a, long + 3, short);
    assert a * b <= a * short;
    assert 3 * (a * short) <= long * short + 3 * short;
  }

  lemma BoxFits(p: Plane, x0: nat, x1: nat, y0: nat, y1: nat, long: nat, short: nat)
    requires x0 <= x1 && y0 <= y1 && BoxWithin(p, x0, x1, y0, y1, 0, 255)
    requires short <= long && short * long <= MAX_PIXELS
    requires (3 * (x1 - x0) < long + 3 && y1 - y0 <= short) || (3 * (y1 - y0) < long + 3 && x1 - x0 <= short)
    ensures BoxSum(p, x0, x1, y0, y1) < U32_LIMIT
  {
    BoxSumBounds(p, x0, x1, y0, y1, 0, 255);
    if 3 * (x1 - x0) < long + 3 && y1 - y0 <= short {
      AreaIsSmall(x1 - x0, y1 - y0, long, short);
    } else {
      AreaIsSmall(y1 - y0, x1 - x0, long, short);
      assert (x1 - x0) * (y1 - y0) == (y1 - y0) * (x1 - x0);
    }
  }

  lemma TileSumFits(p: Plane, width: nat, height: nat, n: nat, m: nat, tx: nat, ty: nat)
    requires tx < n <= width && ty < m <= height && width * height <= MAX_PIXELS
    requires BoxWithin(p, 0, width, 0, height, 0, 255)
    requires if height <= width then 3 <= n else 3 <= m
    ensures TileSum(p, width, height, n, m, tx, ty) < U32_LIMIT
  {
    BoxesTouch(tx, n, width);
    BoxesTouch(ty, m, height);
    if height <= width {
      BoxIsShort(tx, n, width);
    } else {
      BoxIsShort(ty, m, height);
    }
    BoxFits(p, SourceStart(tx, n, width), SourceEnd(tx, n, width),
      SourceStart(ty, m, height), SourceEnd(ty, m, height), Max(width, height), Min(width, height));
  }

  /** A frame that may be captured and is larger than the cap. */
  ghost predicate Scales(p: Plane, width: nat, height: nat, maxEdge: nat) {
    && 0 < width && 0 < height && width * height <= MAX_PIXELS
    && 0 < maxEdge < Max(width, height) && BoxWithin(p, 0, width, 0, height, 0, 255)
  }

  /** No box sum of any such frame needs more than 32 bits. */
  ghost predicate SumsAlwaysFit(maxEdge: nat) {
    forall p: Plane, width: nat, height: nat, tx: nat, ty: nat :: Scales(p, width, height, maxEdge) ==>
      var n := ScaledEdge(width, Max(width, height), maxEdge);
      var m := ScaledEdge(height, Max(width, height), maxEdge);
      tx < n && ty < m ==> TileSum(p, width, height, n, m, tx, ty) < U32_LIMIT
  }

  lemma FirstOfFew(width: nat, maxEdge: nat)
    requires 1 <= maxEdge <= 2 && width == MAX_PIXELS
    ensures ScaledEdge(width, width, maxEdge) == maxEdge && ScaledEdge(1, width, maxEdge) == 1
    ensures SourceEnd(0, maxEdge, width) >= 20_000_000
  {
    if maxEdge == 1 {
      assert width * 1 / width == 1;
    } else {
      assert width * 2 / width == 2;
    }
  }

  lemma WhiteTile(white: Plane, width: nat, height: nat, n: nat, m: nat, t: nat)
    requires n > 0 && m == height == 1 && t == 0 && SourceEnd(t, n, width) >= 20_000_000
    requires forall x: nat, y: nat :: white(x, y) == 255
    ensures TileSum(white, width, height, n, m, t, t) >= U32_LIMIT
  {
    var x0, x1 := SourceStart(t, n, width), SourceEnd(t, n, width);
    var y0, y1 := SourceStart(t, m, height), SourceEnd(t, m, height);
    assert x0 == 0 && y0 == 0 && y1 == 1;
    BoxSumBounds(white, x0, x1, y0, y1, 255, 255);
    assert (x1 - x0) * (y1 - y0) == x1;
  }

  /** A white line of the largest size has a box that is too big. */
  lemma SmallCapOverflows(white: Plane, width: nat, height: nat, maxEdge: nat, t: nat)
    requires 1 <= maxEdge <= 2 && width == MAX_PIXELS && height == 1 && t == 0
    requires forall x: nat, y: nat :: white(x, y) == 255
    ensures !SumsAlwaysFit(maxEdge)
  {
    FirstOfFew(width, maxEdge);
    WhiteTile(white, width, height, maxEdge, height, t);
    assert Scales(white, width, height, maxEdge);
  }

  /** The 32-bit sums are enough for every capture exactly when the cap is at least three. */
  lemma SumsFitExactly(maxEdge: nat)
    requires maxEdge > 0
    ensures SumsAlwaysFit(maxEdge) <==> maxEdge >= 3
  {
    if maxEdge >= 3 {
      forall p: Plane, width: nat, height: nat, tx: nat, ty: nat | Scales(p, width, height, maxEdge)
        ensures
          var n := ScaledEdge(width, Max(width, height), maxEdge);
          var m := ScaledEdge(height, Max(width, height), maxEdge);
          tx < n && ty < m ==> TileSum(p, width, height, n, m, tx, ty) < U32_LIMIT
      {
        EdgesShrink(width, Max(width, height), maxEdge);
        EdgesShrink(height, Max(width, height), maxEdge);
        var n := ScaledEdge(width, Max(width, height), maxEdge);
        var m := ScaledEdge(height, Max(width, height), maxEdge);
        if tx < n && ty < m {
          TileSumFits(p, width, height, n, m, tx, ty);
        }
      }
    } else {
      SmallCapOverflows((x: nat, y: nat) => 255, MAX_PIXELS, 1, maxEdge, 0);
    }
  }

  // The loops. The sums are unbounded here; `SumsFitExactly` says when 32 bits hold them.

  function Shade(red: nat, green: nat, blue: nat, count: nat): Pixel
    requires count > 0
  {
    Pixel(red / count, green / count, blue / count)
  }

  function BoxPixel(f: Frame, x0: nat, x1: nat, y0: nat, y1: nat): Pixel
    requires f.NonEmpty() && x0 < x1 <= f.width && y0 < y1 <= f.height
  {
    Shade(BoxSum(PlaneOf(f, Red), x0, x1, y0, y1), BoxSum(PlaneOf(f, Green), x0, x1, y0, y1),
      BoxSum(PlaneOf(f, Blue), x0, x1, y0, y1), Area(x0, x1, y0, y1))
  }

  /** Each channel of the pixel a box becomes lies between the extremes of that channel in the box. */
  lemma PixelIsBetween(f: Frame, c: Channel, x0: nat, x1: nat, y0: nat, y1: nat, low: nat, high: nat)
    requires f.NonEmpty() && x0 < x1 <= f.width && y0 < y1 <= f.height
    requires BoxWithin(PlaneOf(f, c), x0, x1, y0, y1, low, high)
    ensures low <= BoxPixel(f, x0, x1, y0, y1).Get(c) <= high
  {
    AverageIsBetween(PlaneOf(f, c), x0, x1, y0, y1, low, high);
  }

  /** The pixel of box `(tx, ty)`. */
  function Tile(f: Frame, n: nat, m: nat, tx: nat, ty: nat): Pixel
    requires f.NonEmpty() && tx < n <= f.width && ty < m <= f.height
  {
    BoxesTouch(tx, n, f.width);
    BoxesTouch(ty, m, f.height);
    BoxPixel(f, SourceStart(tx, n, f.width), SourceEnd(tx, n, f.width),
      SourceStart(ty, m, f.height), SourceEnd(ty, m, f.height))
  }

  ghost predicate IsTileRow(f: Frame, n: nat, m: nat, ty: nat, row: seq<Pixel>)
    requires f.NonEmpty() && n <= f.width && ty < m <= f.height
  {
    |row| == n && forall tx: nat :: tx < n ==> row[tx] == Tile(f, n, m, tx, ty)
  }

  /** Rows laid end to end. */
  function Stacked(rows: seq<seq<Pixel>>): seq<Pixel> {
    if rows == [] then [] else Stacked(rows[..|rows| - 1]) + rows[|rows| - 1]
  }

  /** They hold pixel `tx` of row `ty` where a frame looks for it. */
  lemma {:induction false} StackedAt(rows: seq<seq<Pixel>>, n: nat, tx: nat, ty: nat)
    requires forall y :: 0 <= y < |rows| ==> |rows[y]| == n
    ensures |Stacked(rows)| == |rows| * n
    ensures tx < n && ty < |rows| ==>
      ty * n + tx < |rows| * n && Stacked(rows)[ty * n + tx] == rows[ty][tx]
  {
    if rows != [] {
      var k := |rows| - 1;
      StackedAt(rows[..k], n, tx, ty);
      assert |rows| * n == k * n + n;
      if tx < n && ty < k {
        InFrame(tx, ty, n, k);
      }
    }
  }

  /** One row of a box. */
  method SumRow(f: Frame, y: nat, x0: nat, x1: nat) returns (red: nat, green: nat, blue: nat)
    requires f.NonEmpty() && y < f.height && x0 <= x1 <= f.width
    ensures red == RowSum(PlaneOf(f, Red), y, x0, x1)
    ensures green == RowSum(PlaneOf(f, Green), y, x0, x1)
    ensures blue == RowSum(PlaneOf(f, Blue), y, x0, x1)
  {
    red, green, blue := 0, 0, 0;
    for x := x0 to x1
      invariant red == RowSum(PlaneOf(f, Red), y, x0, x)
      invariant green == RowSum(PlaneOf(f, Green), y, x0, x)
      invariant blue == RowSum(PlaneOf(f, Blue), y, x0, x)
    {
      var pixel := f.At(x, y);
      red, green, blue := red + pixel.red, green + pixel.green, blue + pixel.blue;
    }
  }

  /** All rows of a box, and the number of pixels in it. */
  method SumBox(f: Frame, x0: nat, x1: nat, y0: nat, y1: nat)
    returns (red: nat, green: nat, blue: nat, count: nat)
    requires f.NonEmpty() && x0 < x1 <= f.width && y0 < y1 <= f.height
    ensures red == BoxSum(PlaneOf(f, Red), x0, x1, y0, y1)
    ensures green == BoxSum(PlaneOf(f, Green), x0, x1, y0, y1)
    ensures blue == BoxSum(PlaneOf(f, Blue), x0, x1, y0, y1)
    ensures count == Area(x0, x1, y0, y1)
  {
    red, green, blue, count := 0, 0, 0, 0;
    for y := y0 to y1
      invariant red == BoxSum(PlaneOf(f, Red), x0, x1, y0, y)
      invariant green == BoxSum(PlaneOf(f, Green), x0, x1, y0, y)
      invariant blue == BoxSum(PlaneOf(f, Blue), x0, x1, y0, y)
      invariant count == (x1 - x0) * (y - y0)
    {
      var r, g, b := SumRow(f, y, x0, x1);
      red, green, blue := red + r, green + g, blue + b;
      assert (x1 - x0) * (y + 1 - y0) == (x1 - x0) * (y - y0) + (x1 - x0);
      count := count + (x1 - x0);
    }
    Positive(x1 - x0, y1 - y0);
  }

  method AverageBox(f: Frame, x0: nat, x1: nat, y0: nat, y1: nat) returns (pixel: Pixel)
    requires f.NonEmpty() && x0 < x1 <= f.width && y0 < y1 <= f.height
    ensures pixel == BoxPixel(f, x0, x1, y0, y1)
  {
    var red, green, blue, count := SumBox(f, x0, x1, y0, y1);
    pixel := Shade(red, green, blue, count);
  }

  method MakeTile(f: Frame, n: nat, m: nat, tx: nat, ty: nat) returns (pixel: Pixel)
    requires f.NonEmpty() && tx < n <= f.width && ty < m <= f.height
    ensures pixel == Tile(f, n, m, tx, ty)
  {
    BoxesTouch(tx, n, f.width);
    BoxesTouch(ty, m, f.height);
    var y0 := SourceStart(ty, m, f.height);
    var y1 := SourceEnd(ty, m, f.height);
    var x0 := SourceStart(tx, n, f.width);
    var x1 := SourceEnd(tx, n, f.width);
    pixel := AverageBox(f, x0, x1, y0, y1);
  }

  /** A frame that fits is returned as it is; a larger one becomes the averages of its boxes. */
  method DownscaleToMax(f: Frame, maxEdge: nat) returns (r: Frame)
    requires f.NonEmpty()
    ensures r.NonEmpty()
    ensures maxEdge == 0 || Max(f.width, f.height) <= maxEdge ==> r == f
    ensures 0 < maxEdge < Max(f.width, f.height) ==>
      && Max(r.width, r.height) == maxEdge && r.width <= f.width && r.height <= f.height
      && forall tx: nat, ty: nat :: tx < r.width && ty < r.height ==>
           r.At(tx, ty) == Tile(f, r.width, r.height, tx, ty)
  {
    var longest := Max(f.width, f.height);
    if maxEdge == 0 || longest <= maxEdge {
      return f;
    }
    EdgesShrink(f.width, longest, maxEdge);
    EdgesShrink(f.height, longest, maxEdge);
    var n := ScaledEdge(f.width, longest, maxEdge);
    var m := ScaledEdge(f.height, longest, maxEdge);
    ghost var rows: seq<seq<Pixel>>;
    var pixels;
    pixels, rows := MakeTiles(f, n, m);
    r := Frame(n, m, pixels);
    StackedAt(rows, n, 0, 0);
    assert n * m == m * n;
    forall tx: nat, ty: nat | tx < n && ty < m ensures r.At(tx, ty) == Tile(f, n, m, tx, ty) {
      StackedAt(rows, n, tx, ty);
      assert IsTileRow(f, n, m, ty, rows[ty]);
    }
  }

  method MakeRow(f: Frame, n: nat, m: nat, ty: nat) returns (row: seq<Pixel>)
    requires f.NonEmpty() && n <= f.width && ty < m <= f.height
    ensures IsTileRow(f, n, m, ty, row)
  {
    row := [];
    for tx := 0 to n
      invariant |row| == tx && forall x: nat :: x < tx ==> row[x] == Tile(f, n, m, x, ty)
    {
      var pixel := MakeTile(f, n, m, tx, ty);
      row := row + [pixel];
    }
  }

  method MakeTiles(f: Frame, n: nat, m: nat) returns (pixels: seq<Pixel>, ghost rows: seq<seq<Pixel>>)
    requires f.NonEmpty() && 0 < n <= f.width && 0 < m <= f.height
    ensures pixels == Stacked(rows) && |rows| == m
    ensures forall ty: nat :: ty < m ==> IsTileRow(f, n, m, ty, rows[ty])
  {
    pixels, rows := [], [];
    for ty := 0 to m
      invariant pixels == Stacked(rows) && |rows| == ty
      invariant forall y: nat :: y < ty ==> IsTileRow(f, n, m, y, rows[y])
    {
      var row := MakeRow(f, n, m, ty);
      assert (rows + [row])[..ty] == rows;
      pixels, rows := pixels + row, rows + [row];
    }
  }
}
