/** Sampling an image on a grid (src/commands/catalogCapture.ts, `pixelStats`). Luminance is kept exact,
    in units of 1/2550000: the weights 0.2126, 0.7152 and 0.0722 over 255. */
module PixelStats {
  const MAX_SAMPLES: nat := 200000

  const WHITE: nat := 2550000

  // ---------------------------------------------------------------- the step

  /** The least step from `s` on whose square, times the cap, covers the area. */
  function LeastStep(area: nat, s: nat): (step: nat)
    requires s >= 1
    ensures step >= s
    decreases if s * s * MAX_SAMPLES >= area then 0 else area - s
  {
    if s * s * MAX_SAMPLES >= area then s
    else
      StepStaysBelow(area, s);
      LeastStep(area, s + 1)
  }

  lemma {:induction false} LeastStepIsLeast(area: nat, s: nat)
    requires s >= 1
    ensures LeastStep(area, s) * LeastStep(area, s) * MAX_SAMPLES >= area
    ensures forall t :: s <= t < LeastStep(area, s) ==> t * t * MAX_SAMPLES < area
    decreases if s * s * MAX_SAMPLES >= area then 0 else area - s
  {
    if area <= s * s * MAX_SAMPLES {
    } else {
      StepStaysBelow(area, s);
      LeastStepIsLeast(area, s + 1);
    }
  }

  lemma StepStaysBelow(area: nat, s: nat)
    requires s >= 1 && s * s * MAX_SAMPLES < area
    ensures s + 1 < area
  {
    assert s * s >= s by { assert s * (s - 1) >= 0; }
  }

  /** `Math.max(1, Math.ceil(Math.sqrt(area / MAX_SAMPLES)))`, over the reals: the least whole number whose
      square reaches `area / MAX_SAMPLES`. */
  function GridStep(w: nat, h: nat): (s: nat)
    ensures s >= 1
  {
    LeastStep(w * h, 1)
  }

  // ---------------------------------------------------------------- the samples

  /** Grid points 0, s, 2s, ... below `length`. */
  function Points(length: nat, s: nat): nat
    requires s >= 1
  {
    (length + s - 1) / s
  }

  lemma {:induction false} PointsBound(length: nat, s: nat)
    requires s >= 1
    ensures Points(length, s) * s <= length + s - 1
    ensures forall k: nat :: k * s < length <==> k < Points(length, s)
  {
    var p := Points(length, s);
    assert p * s <= length + s - 1 < p * s + s;
    forall k: nat ensures k * s < length <==> k < p {
      if k < p {
        MulUp(k + 1, p, s);
      } else {
        MulUp(p, k, s);
      }
    }
  }

  lemma MulUp(a: nat, b: nat, s: nat)
    requires a <= b
    ensures a * s <= b * s
  {
  }

  predicate Bytes(data: seq<nat>) {
    forall i :: 0 <= i < |data| ==> data[i] <= 255
  }

  datatype Pixel = Pixel(r: nat, g: nat, b: nat)

  function Luminance(p: Pixel): nat {
    2126 * p.r + 7152 * p.g + 722 * p.b
  }

  /** The weighted brightness of the bytes as fractions of 255, in units of 1/2550000. */
  lemma LuminanceIsWeighted(p: Pixel)
    ensures Luminance(p) as real / 2550000.0 ==
            0.2126 * (p.r as real / 255.0) + 0.7152 * (p.g as real / 255.0) + 0.0722 * (p.b as real / 255.0)
  {
  }

  lemma {:induction false} PixelInside(w: nat, h: nat, x: nat, y: nat)
    requires x < w && y < h
    ensures (y * w + x) * 4 + 3 < w * h * 4
  {
    MulUp(y + 1, h, w);
    assert (y + 1) * w == y * w + w;
  }

  function PixelAt(w: nat, h: nat, data: seq<nat>, x: nat, y: nat): Pixel
    requires |data| == w * h * 4 && x < w && y < h
  {
    PixelInside(w, h, x, y);
    var i := (y * w + x) * 4;
    Pixel(data[i], data[i + 1], data[i + 2])
  }

  /** Channel 0 to 3 of one pixel: red, green, blue, alpha, line by line. */
  function ByteAt(w: nat, h: nat, data: seq<nat>, x: nat, y: nat, channel: nat): nat
    requires |data| == w * h * 4 && x < w && y < h && channel < 4
  {
    PixelInside(w, h, x, y);
    data[4 * (x + w * y) + channel]
  }

  /** The data is this image. */
  ghost predicate Encodes(w: nat, h: nat, data: seq<nat>, image: (nat, nat) -> Pixel)
    requires |data| == w * h * 4
  {
    forall x: nat, y: nat :: x < w && y < h ==>
      image(x, y) == Pixel(ByteAt(w, h, data, x, y, 0), ByteAt(w, h, data, x, y, 1), ByteAt(w, h, data, x, y, 2))
  }

  /** What is read at a point is the image there. */
  lemma ReadsTheImage(w: nat, h: nat, data: seq<nat>, image: (nat, nat) -> Pixel, x: nat, y: nat)
    requires |data| == w * h * 4 && Encodes(w, h, data, image) && x < w && y < h
    ensures PixelAt(w, h, data, x, y) == image(x, y)
  {
    assert image(x, y).r == ByteAt(w, h, data, x, y, 0);
  }

  /** The first `n` grid points of line `y`. */
  function Row(w: nat, h: nat, data: seq<nat>, step: nat, y: nat, n: nat): (row: seq<Pixel>)
    requires |data| == w * h * 4 && step >= 1 && y < h && n <= Points(w, step)
    ensures |row| == n
  {
    if n == 0 then []
    else
      PointsBound(w, step);
      Row(w, h, data, step, y, n - 1) + [PixelAt(w, h, data, (n - 1) * step, y)]
  }

  /** The grid points of the first `n` grid lines. */
  function Grid(w: nat, h: nat, data: seq<nat>, step: nat, n: nat): (grid: seq<Pixel>)
    requires |data| == w * h * 4 && step >= 1 && n <= Points(h, step)
    ensures |grid| == n * Points(w, step)
  {
    if n == 0 then []
    else
      PointsBound(h, step);
      NextMultiple(n - 1, Points(w, step));
      Grid(w, h, data, step, n - 1) + Row(w, h, data, step, (n - 1) * step, Points(w, step))
  }

  lemma {:induction false} RowAt(w: nat, h: nat, data: seq<nat>, step: nat, y: nat, n: nat, c: nat)
    requires |data| == w * h * 4 && step >= 1 && y < h && c < n <= Points(w, step)
    ensures c * step < w
    ensures Row(w, h, data, step, y, n)[c] == PixelAt(w, h, data, c * step, y)
  {
    PointsBound(w, step);
    if c == n - 1 {
    } else {
      RowAt(w, h, data, step, y, n - 1, c);
    }
  }

  lemma IndexInside(r: nat, c: nat, n: nat, width: nat)
    requires r < n && c < width
    ensures r * width + c < n * width
  {
    MulUp(r + 1, n, width);
    NextMultiple(r, width);
  }

  /** The grid is that of one line less, and a line. */
  lemma {:induction false} GridSplits(w: nat, h: nat, data: seq<nat>, step: nat, n: nat)
    requires |data| == w * h * 4 && step >= 1 && 0 < n <= Points(h, step)
    ensures (n - 1) * step < h
    ensures Grid(w, h, data, step, n)
         == Grid(w, h, data, step, n - 1) + Row(w, h, data, step, (n - 1) * step, Points(w, step))
  {
    PointsBound(h, step);
  }

  /** Every grid point is there, line by line, and nothing else. */
  lemma {:induction false} GridAt(w: nat, h: nat, data: seq<nat>, step: nat, n: nat, r: nat, c: nat)
    requires |data| == w * h * 4 && step >= 1 && r < n <= Points(h, step) && c < Points(w, step)
    ensures c * step < w && r * step < h && r * Points(w, step) + c < n * Points(w, step)
    ensures Grid(w, h, data, step, n)[r * Points(w, step) + c] == PixelAt(w, h, data, c * step, r * step)
  {
    IndexInside(r, c, n, Points(w, step));
    GridSplits(w, h, data, step, n);
    if r < n - 1 {
      GridAt(w, h, data, step, n - 1, r, c);
    } else {
      RowAt(w, h, data, step, r * step, Points(w, step), c);
    }
  }

  // ---------------------------------------------------------------- the totals

  datatype Stats = Stats(samples: nat, red: nat, green: nat, blue: nat, min: nat, max: nat)

  function WithSample(s: Stats, p: Pixel): Stats {
    var l := Luminance(p);
    Stats(s.samples + 1, s.red + p.r, s.green + p.g, s.blue + p.b,
          if l < s.min then l else s.min, if l > s.max then l else s.max)
  }

  function Summary(pixels: seq<Pixel>): Stats {
    if |pixels| == 0 then Stats(0, 0, 0, 0, WHITE, 0)
    else WithSample(Summary(pixels[..|pixels| - 1]), pixels[|pixels| - 1])
  }

  lemma SummaryOneMore(pixels: seq<Pixel>, p: Pixel)
    ensures Summary(pixels + [p]) == WithSample(Summary(pixels), p)
  {
    assert (pixels + [p])[..|pixels|] == pixels;
  }

  ghost predicate Dim(pixels: seq<Pixel>) {
    forall p :: p in pixels ==> Luminance(p) <= WHITE
  }

  /** `min` and `max` are the least and the greatest luminance seen. */
  lemma {:induction false} SummaryExtremes(pixels: seq<Pixel>)
    requires Dim(pixels) && |pixels| > 0
    ensures forall p :: p in pixels ==> Summary(pixels).min <= Luminance(p) <= Summary(pixels).max
    ensures exists p, q :: p in pixels && q in pixels
              && Luminance(p) == Summary(pixels).min && Luminance(q) == Summary(pixels).max
  {
    var before, last := pixels[..|pixels| - 1], pixels[|pixels| - 1];
    assert pixels == before + [last];
    if |before| == 0 {
      assert Summary(before) == Stats(0, 0, 0, 0, WHITE, 0);
      assert last in pixels;
    } else {
      SummaryExtremes(before);
      var p, q :| p in before && q in before
        && Luminance(p) == Summary(before).min && Luminance(q) == Summary(before).max;
      var low := if Luminance(last) < Luminance(p) then last else p;
      var high := if Luminance(last) > Luminance(q) then last else q;
      assert low in pixels && high in pixels;
    }
  }

  ghost predicate MeanBetween(s: Stats) {
    && s.min * s.samples <= 2126 * s.red + 7152 * s.green + 722 * s.blue
    && 2126 * s.red + 7152 * s.green + 722 * s.blue <= s.max * s.samples
  }

  lemma LowMean(min: nat, n: nat, sum: nat, low: nat, l: nat)
    requires min * n <= sum && low <= min && low <= l
    ensures low * (n + 1) <= sum + l
  {
    MulUp(low, min, n);
    NextMultiple(n, low);
    assert n * low == low * n && (n + 1) * low == low * (n + 1);
  }

  lemma HighMean(max: nat, n: nat, sum: nat, high: nat, l: nat)
    requires sum <= max * n && max <= high && l <= high
    ensures sum + l <= high * (n + 1)
  {
    MulUp(max, high, n);
    NextMultiple(n, high);
    assert n * high == high * n && (n + 1) * high == high * (n + 1);
  }

  lemma {:induction false} SampleKeepsMean(s: Stats, p: Pixel)
    requires MeanBetween(s)
    ensures MeanBetween(WithSample(s, p))
  {
    var t, l, sum := WithSample(s, p), Luminance(p), 2126 * s.red + 7152 * s.green + 722 * s.blue;
    LowMean(s.min, s.samples, sum, t.min, l);
    HighMean(s.max, s.samples, sum, t.max, l);
  }

  /** As many samples as pixels, and the mean luminance between the extremes, in exact weights. */
  lemma {:induction false} SummaryMean(pixels: seq<Pixel>)
    ensures Summary(pixels).samples == |pixels| && MeanBetween(Summary(pixels))
  {
    if |pixels| == 0 {
    } else {
      SummaryMean(pixels[..|pixels| - 1]);
      SampleKeepsMean(Summary(pixels[..|pixels| - 1]), pixels[|pixels| - 1]);
    }
  }

  lemma NextMultiple(k: nat, s: nat)
    ensures (k + 1) * s == k * s + s
  {
  }

  // ---------------------------------------------------------------- the loops

  /** The inner loop: one line of the grid. */
  method SampleRow(w: nat, h: nat, data: seq<nat>, y: nat, step: nat, ghost seen: seq<Pixel>, before: Stats)
    returns (stats: Stats)
    requires |data| == w * h * 4 && y < h && step >= 1 && before == Summary(seen)
    ensures stats == Summary(seen + Row(w, h, data, step, y, Points(w, step)))
  {
    stats := before;
    PointsBound(w, step);
    var x := 0;
    ghost var col: nat := 0;
    assert seen + [] == seen;
    while x < w
      invariant x == col * step && col <= Points(w, step)
      invariant stats == Summary(seen + Row(w, h, data, step, y, col))
      decreases if x < w then w - x else 0
    {
      var p := PixelAt(w, h, data, x, y);
      SummaryOneMore(seen + Row(w, h, data, step, y, col), p);
      assert seen + Row(w, h, data, step, y, col + 1) == seen + Row(w, h, data, step, y, col) + [p];
      stats := WithSample(stats, p);
      NextMultiple(col, step);
      x := x + step;
      col := col + 1;
    }
  }

  /** `pixelStats`, without its rounding: the summary of exactly the grid points. */
  method Sample(w: nat, h: nat, data: seq<nat>) returns (stats: Stats, step: nat)
    requires |data| == w * h * 4
    ensures step == GridStep(w, h)
    ensures stats == Summary(Grid(w, h, data, step, Points(h, step)))
  {
    step := GridStep(w, h);
    stats := Stats(0, 0, 0, 0, WHITE, 0);
    PointsBound(h, step);
    var y := 0;
    ghost var row: nat := 0;
    while y < h
      invariant y == row * step && row <= Points(h, step)
      invariant stats == Summary(Grid(w, h, data, step, row))
      decreases if y < h then h - y else 0
    {
      stats := SampleRow(w, h, data, y, step, Grid(w, h, data, step, row), stats);
      NextMultiple(row, step);
      y := y + step;
      row := row + 1;
    }
  }

  /** A grid over bytes is dim, so its extremes are those of the sampled pixels. */
  lemma {:induction false} GridIsDim(w: nat, h: nat, data: seq<nat>, step: nat, n: nat)
    requires |data| == w * h * 4 && Bytes(data) && step >= 1 && n <= Points(h, step)
    ensures Dim(Grid(w, h, data, step, n))
  {
    if n == 0 {
    } else {
      GridIsDim(w, h, data, step, n - 1);
      PointsBound(h, step);
      var row := Row(w, h, data, step, (n - 1) * step, Points(w, step));
      forall p | p in row ensures Luminance(p) <= WHITE {
        var c :| 0 <= c < |row| && row[c] == p;
        RowAt(w, h, data, step, (n - 1) * step, Points(w, step), c);
        PixelIsDim(w, h, data, c * step, (n - 1) * step);
      }
    }
  }

  /** What the sampled totals mean, for any image. */
  lemma {:induction false} TotalsMeanTheGrid(w: nat, h: nat, data: seq<nat>, step: nat)
    requires |data| == w * h * 4 && Bytes(data) && step >= 1
    ensures var grid := Grid(w, h, data, step, Points(h, step));
      && Summary(grid).samples == Points(h, step) * Points(w, step)
      && MeanBetween(Summary(grid))
      && (forall p :: p in grid ==> Summary(grid).min <= Luminance(p) <= Summary(grid).max)
  {
    var grid := Grid(w, h, data, step, Points(h, step));
    SummaryMean(grid);
    GridIsDim(w, h, data, step, Points(h, step));
    if |grid| > 0 { SummaryExtremes(grid); }
  }

  lemma PixelIsDim(w: nat, h: nat, data: seq<nat>, x: nat, y: nat)
    requires |data| == w * h * 4 && Bytes(data) && x < w && y < h
    ensures Luminance(PixelAt(w, h, data, x, y)) <= WHITE
  {
    PixelInside(w, h, x, y);
  }

  // ---------------------------------------------------------------- how many samples

  lemma Regroup(p: nat, q: nat, s: nat)
    ensures p * q * (s * s) == (p * s) * (q * s)
  {
    assert q * (s * s) == s * (q * s);
    assert p * (q * (s * s)) == p * (s * (q * s));
  }

  lemma MulBoth(a: nat, b: nat, c: nat, d: nat)
    requires a <= b && c <= d
    ensures a * c <= b * d
  {
    MulUp(a, b, c);
    assert b * c <= b * d by { MulUp(c, d, b); }
  }

  lemma {:induction false} BoundForStep(w: nat, h: nat, s: nat)
    requires s >= 1
    ensures Points(h, s) * Points(w, s) * (s * s) <= (h + s - 1) * (w + s - 1)
  {
    PointsBound(w, s);
    PointsBound(h, s);
    Regroup(Points(h, s), Points(w, s), s);
    MulBoth(Points(h, s) * s, h + s - 1, Points(w, s) * s, w + s - 1);
  }

  /** The step is the least that fits the cap, and the grid spends one step-sized cell a sample, the edge
      cells perhaps in part. */
  lemma {:induction false} SamplesBound(w: nat, h: nat)
    ensures var s := GridStep(w, h);
      && s * s * MAX_SAMPLES >= w * h
      && (forall t :: 1 <= t < s ==> t * t * MAX_SAMPLES < w * h)
      && Points(h, s) * Points(w, s) * (s * s) <= (h + s - 1) * (w + s - 1)
  {
    LeastStepIsLeast(w * h, 1);
    BoundForStep(w, h, GridStep(w, h));
  }

  /** `length` rounded up to whole steps. */
  function Padded(length: nat, s: nat): nat
    requires s >= 1
  {
    if length % s == 0 then length else length + s - length % s
  }

  lemma {:induction false} PaddedIsWhole(length: nat, s: nat)
    requires s >= 1
    ensures Points(length, s) * s == Padded(length, s)
  {
    var k := length / s;
    assert length == k * s + length % s;
    PointsBound(length, s);
    assert k < Points(length, s) <==> k * s < length;
    NextMultiple(k, s);
    assert k + 1 < Points(length, s) <==> (k + 1) * s < length;
    if k > 0 {
      NextMultiple(k - 1, s);
      assert k - 1 < Points(length, s) <==> (k - 1) * s < length;
    }
  }

  lemma MulCancel(a: nat, b: nat, c: nat)
    requires c >= 1
    ensures a <= b <==> a * c <= b * c
  {
    if a <= b {
      MulUp(a, b, c);
    } else {
      MulUp(b + 1, a, c);
      NextMultiple(b, c);
    }
  }

  /** The step is chosen so that the area fits the cap; the cap holds exactly when the area padded out to
      whole steps fits as well. */
  lemma {:induction false} CapHoldsIffPaddedAreaFits(w: nat, h: nat)
    ensures var s := GridStep(w, h);
      Points(h, s) * Points(w, s) <= MAX_SAMPLES <==> Padded(h, s) * Padded(w, s) <= MAX_SAMPLES * (s * s)
  {
    var s := GridStep(w, h);
    PaddedIsWhole(h, s);
    PaddedIsWhole(w, s);
    Regroup(Points(h, s), Points(w, s), s);
    MulBoth(1, s, 1, s);
    MulCancel(Points(h, s) * Points(w, s), MAX_SAMPLES, s * s);
  }

  /** An ordinary image does not fit: 895 by 893 pixels are sampled 200256 times. */
  lemma OrdinaryImageBreaksCap()
    ensures GridStep(895, 893) == 2 && Points(893, 2) * Points(895, 2) == 200256 > MAX_SAMPLES
  {
    assert LeastStep(799235, 2) == 2;
    assert LeastStep(799235, 1) == LeastStep(799235, 2);
  }
}
