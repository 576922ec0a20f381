/**
 * The region detector: a full row-major scan of one captured frame that
 * converts every pixel to HSV, keeps the pixels inside an inclusive HSV
 * window, and returns the truncated mean position of those pixels, or
 * nothing when no pixel matches.
 */
module Detector {
  import opened Color

  datatype Option<T> = None | Some(value: T)

  /** An RGB image as the capture delivers it: `rows[y][x]` is the pixel at column x of row y. */
  datatype Image = Image(width: nat, height: nat, rows: seq<seq<Rgb>>)
  {
    predicate WellFormed()
    {
      |rows| == height && forall y :: 0 <= y < |rows| ==> |rows[y]| == width
    }
  }

  /** A frame always has `height` rows of `width` pixels. */
  type Frame = f: Image | f.WellFormed() witness Image(0, 0, [])

  /** Inclusive membership of all three components in the window [lo, hi]. */
  predicate InWindow(c: Hsv, lo: Hsv, hi: Hsv)
  {
    lo.h <= c.h <= hi.h && lo.s <= c.s <= hi.s && lo.v <= c.v <= hi.v
  }

  /** A pixel matches when its HSV conversion lies in the window. */
  predicate Matches(p: Rgb, lo: Hsv, hi: Hsv)
  {
    InWindow(RgbToHsv(p), lo, hi)
  }

  /** No pixel of the frame matches the window. */
  predicate NoMatch(f: Frame, lo: Hsv, hi: Hsv)
  {
    forall y, x :: 0 <= y < f.height && 0 <= x < f.width ==> !Matches(f.rows[y][x], lo, hi)
  }

  /** Running sums of the coordinates of matching pixels, and their number. */
  datatype Tally = Tally(sumX: int, sumY: int, count: int)
  {
    function Plus(t: Tally): Tally
    {
      Tally(sumX + t.sumX, sumY + t.sumY, count + t.count)
    }
  }

  /** The window test of one pixel, as a classifier over pixels. */
  function WindowTest(lo: Hsv, hi: Hsv): Rgb -> bool
  {
    p => Matches(p, lo, hi)
  }

  /** The tally of the first n pixels of row y, counting the pixels that `keep` accepts. */
  function RowTally(row: seq<Rgb>, y: nat, n: nat, keep: Rgb -> bool): Tally
    requires n <= |row|
  {
    if n == 0 then Tally(0, 0, 0)
    else
      var t := RowTally(row, y, n - 1, keep);
      if keep(row[n - 1]) then Tally(t.sumX + (n - 1), t.sumY + y, t.count + 1) else t
  }

  /** The tally of the first m complete rows of the frame. */
  function FrameTally(f: Frame, m: nat, keep: Rgb -> bool): Tally
    requires m <= f.height
  {
    if m == 0 then Tally(0, 0, 0)
    else FrameTally(f, m - 1, keep).Plus(RowTally(f.rows[m - 1], m - 1, f.width, keep))
  }

  /** The conversion `n as i32` of a 64-bit integer: the low 32 bits, read as two's complement. */
  function AsI32(n: int): (r: int)
    ensures -0x8000_0000 <= r < 0x8000_0000
    ensures (n - r) % 0x1_0000_0000 == 0
  {
    var low := n % 0x1_0000_0000;
    if low < 0x8000_0000 then low else low - 0x1_0000_0000
  }

  /**
   * The detector's answer: the mean matching position, each coordinate
   * divided with truncation (both sums are non-negative, see FrameBounds, so
   * Dafny's division agrees with the source's) and cast to 32 bits.
   */
  function Centroid(f: Frame, lo: Hsv, hi: Hsv): Option<(int, int)>
  {
    var t := FrameTally(f, f.height, WindowTest(lo, hi));
    if t.count > 0 then Some((AsI32(t.sumX / t.count), AsI32(t.sumY / t.count))) else None
  }

  /** The scan itself: nested loops over rows and columns accumulating the tally. */
  method FindTargetHsv(f: Frame, lo: Hsv, hi: Hsv) returns (target: Option<(int, int)>)
    ensures target == Centroid(f, lo, hi)
    ensures target.None? <==> NoMatch(f, lo, hi)
  {
    var totalX, totalY, count := 0, 0, 0;
    for y := 0 to f.height
      invariant Tally(totalX, totalY, count) == FrameTally(f, y, WindowTest(lo, hi))
    {
      var rowX, rowY, rowCount := ScanRow(f, y, lo, hi);
      totalX, totalY, count := totalX + rowX, totalY + rowY, count + rowCount;
    }
    if count > 0 {
      target := Some((AsI32(totalX / count), AsI32(totalY / count)));
    } else {
      target := None;
    }
    NoneIffNoMatch(f, lo, hi);
  }

  /** The inner loop of the scan: the tally of the matching pixels of row y. */
  method ScanRow(f: Frame, y: nat, lo: Hsv, hi: Hsv) returns (sumX: int, sumY: int, count: int)
    requires y < f.height
    ensures Tally(sumX, sumY, count) == RowTally(f.rows[y], y, f.width, WindowTest(lo, hi))
  {
    ghost var keep := WindowTest(lo, hi);
    sumX, sumY, count := 0, 0, 0;
    for x := 0 to f.width
      invariant Tally(sumX, sumY, count) == RowTally(f.rows[y], y, x, keep)
    {
      var c := RgbToHsv(f.rows[y][x]);
      if InWindow(c, lo, hi) {
        sumX := sumX + x;
        sumY := sumY + y;
        count := count + 1;
      }
    }
  }

  // ---------------------------------------------------------------------
  // Properties of the tallies, for any pixel classifier

  /** The tally of a row prefix: the y-sum is y per kept pixel, the x-sum is bounded by the last column. */
  lemma {:induction false} RowBounds(row: seq<Rgb>, y: nat, n: nat, keep: Rgb -> bool)
    requires n <= |row|
    ensures var t := RowTally(row, y, n, keep);
      && 0 <= t.count <= n
      && t.sumY == y * t.count
      && 0 <= t.sumX
      && (n > 0 ==> t.sumX <= (n - 1) * t.count)
  {
    if n > 0 {
      RowBounds(row, y, n - 1, keep);
      var t := RowTally(row, y, n - 1, keep);
      MulStep(y, t.count);
      MulStep(n - 1, t.count);
      if n > 1 {
        MulMono(n - 2, n - 1, t.count);
      }
    }
  }

  /** The tally of the first m rows: both sums are bounded by the frame. */
  lemma {:induction false} FrameBounds(f: Frame, m: nat, keep: Rgb -> bool)
    requires m <= f.height
    ensures var t := FrameTally(f, m, keep);
      && 0 <= t.count
      && 0 <= t.sumX && (f.width > 0 ==> t.sumX <= (f.width - 1) * t.count)
      && 0 <= t.sumY && (m > 0 ==> t.sumY <= (m - 1) * t.count)
  {
    if m > 0 {
      FrameBounds(f, m - 1, keep);
      RowBounds(f.rows[m - 1], m - 1, f.width, keep);
      var t := FrameTally(f, m - 1, keep);
      var r := RowTally(f.rows[m - 1], m - 1, f.width, keep);
      assert FrameTally(f, m, keep) == t.Plus(r);
      BoundsStep(t, r, f.width, m - 1);
    }
  }

  /**
   * Adding row k's tally to the tally of the rows above it keeps the x-sum
   * within (w - 1) per pixel and the y-sum within k per pixel.
   */
  lemma BoundsStep(t: Tally, r: Tally, w: int, k: nat)
    requires 0 <= t.count && 0 <= t.sumX && 0 <= t.sumY
    requires w > 0 ==> t.sumX <= (w - 1) * t.count
    requires k > 0 ==> t.sumY <= (k - 1) * t.count
    requires k == 0 ==> t.count == 0 && t.sumY == 0
    requires 0 <= r.count && 0 <= r.sumX && r.sumY == k * r.count
    requires w > 0 ==> r.sumX <= (w - 1) * r.count
    ensures var s := t.Plus(r);
      && 0 <= s.count && 0 <= s.sumX && 0 <= s.sumY
      && (w > 0 ==> s.sumX <= (w - 1) * s.count)
      && s.sumY <= k * s.count
  {
    if k > 0 {
      MulMono(k - 1, k, t.count);
    }
    SumBound(t.sumY, r.sumY, t.count, r.count, k);
    if w > 0 {
      SumBound(t.sumX, r.sumX, t.count, r.count, w - 1);
    }
  }

  /** The count over a row prefix is zero exactly when no pixel of the prefix is kept. */
  lemma {:induction false} RowCountZero(row: seq<Rgb>, y: nat, n: nat, keep: Rgb -> bool)
    requires n <= |row|
    ensures RowTally(row, y, n, keep).count >= 0
    ensures RowTally(row, y, n, keep).count == 0 <==> forall x :: 0 <= x < n ==> !keep(row[x])
  {
    if n > 0 {
      RowCountZero(row, y, n - 1, keep);
    }
  }

  /** The count over the first m rows is zero exactly when no pixel of those rows is kept. */
  lemma {:induction false} FrameCountZero(f: Frame, m: nat, keep: Rgb -> bool)
    requires m <= f.height
    ensures FrameTally(f, m, keep).count >= 0
    ensures FrameTally(f, m, keep).count == 0 <==>
      forall y, x :: 0 <= y < m && 0 <= x < f.width ==> !keep(f.rows[y][x])
  {
    if m > 0 {
      FrameCountZero(f, m - 1, keep);
      RowCountZero(f.rows[m - 1], m - 1, f.width, keep);
      if FrameTally(f, m, keep).count == 0 {
        forall y, x | 0 <= y < m && 0 <= x < f.width
          ensures !keep(f.rows[y][x])
        {
          if y == m - 1 {
            assert !keep(f.rows[m - 1][x]);
          }
        }
      }
    }
  }

  /** Two sums each bounded by k per element give a total bounded by k per element. */
  lemma SumBound(a: int, b: int, c: int, d: int, k: int)
    requires a <= k * c && b <= k * d
    ensures a + b <= k * (c + d)
  {
    MulAdd(k, c, d);
  }

  lemma MulStep(k: int, c: int)
    ensures k * (c + 1) == k * c + k
  {
  }

  lemma MulAdd(k: int, c: int, d: int)
    ensures k * (c + d) == k * c + k * d
  {
  }

  lemma MulMono(a: int, b: int, c: int)
    requires a <= b && c >= 0
    ensures a * c <= b * c
  {
  }

  /** A sum of count values each below n has a truncated mean below n. */
  lemma MeanBelow(sum: int, count: int, n: int)
    requires count > 0 && n > 0 && 0 <= sum <= (n - 1) * count
    ensures 0 <= sum / count < n
  {
    var q := sum / count;
    assert q * count <= sum;
  }

  // ---------------------------------------------------------------------
  // Properties of the detector's answer

  /** The answer is empty exactly when no pixel of the frame matches. */
  lemma NoneIffNoMatch(f: Frame, lo: Hsv, hi: Hsv)
    ensures Centroid(f, lo, hi).None? <==> NoMatch(f, lo, hi)
  {
    var keep := WindowTest(lo, hi);
    FrameCountZero(f, f.height, keep);
    assert NoMatch(f, lo, hi) <==> forall y, x :: 0 <= y < f.height && 0 <= x < f.width ==> !keep(f.rows[y][x]);
  }

  /** A window that is empty in some component never finds a target. */
  lemma InvertedWindowFindsNothing(f: Frame, lo: Hsv, hi: Hsv)
    requires lo.h > hi.h || lo.s > hi.s || lo.v > hi.v
    ensures Centroid(f, lo, hi) == None
  {
    NoneIffNoMatch(f, lo, hi);
  }

  /** A matching pixel always yields a target. */
  lemma MatchFindsTarget(f: Frame, lo: Hsv, hi: Hsv, x: nat, y: nat)
    requires y < f.height && x < f.width && Matches(f.rows[y][x], lo, hi)
    ensures Centroid(f, lo, hi).Some?
  {
    NoneIffNoMatch(f, lo, hi);
  }

  /**
   * For frames whose sides fit in a signed 32-bit integer, the target is the
   * truncated mean of the matching coordinates and lies inside the frame.
   */
  lemma CentroidInFrame(f: Frame, lo: Hsv, hi: Hsv)
    requires f.width <= 0x8000_0000 && f.height <= 0x8000_0000
    requires Centroid(f, lo, hi).Some?
    ensures var t := FrameTally(f, f.height, WindowTest(lo, hi));
      var (cx, cy) := Centroid(f, lo, hi).value;
      && t.count > 0
      && cx == t.sumX / t.count && cy == t.sumY / t.count
      && 0 <= cx < f.width && 0 <= cy < f.height
  {
    var t := FrameTally(f, f.height, WindowTest(lo, hi));
    FrameBounds(f, f.height, WindowTest(lo, hi));
    FrameCountZero(f, f.height, WindowTest(lo, hi));
    MeanBelow(t.sumX, t.count, f.width);
    MeanBelow(t.sumY, t.count, f.height);
    AsI32Small(t.sumX / t.count);
    AsI32Small(t.sumY / t.count);
  }

  /** The 32-bit cast leaves values in [0, 2^31) unchanged. */
  lemma AsI32Small(n: int)
    requires 0 <= n < 0x8000_0000
    ensures AsI32(n) == n
  {
  }
}
