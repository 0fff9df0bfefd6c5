/**
 * One display tick of the waterfall, as a function from the canvas before
 * the tick to the canvas after it, built from the same canvas operations
 * the tick performs, and what that means pixel by pixel.
 *
 * Canvas coordinates: x grows to the right, y grows downward. The plot's
 * row i (frequency i * bandWidth) is drawn on canvas line y = h - OffsetV - i,
 * and the newest column is x = w - OffsetH.
 */
module Compositor {
  import opened Canvas
  import opened Gridlines
  import opened Axis

  /** One analyser frame: a magnitude 0..255 per frequency bin. */
  type Frame = seq<byte>

  /**
   * What a tick depends on besides the canvas: the canvas size, the audio
   * sample rate and the 256-colour palette indexed by magnitude.
   */
  datatype Setup = Setup(width: nat, height: nat, sampleRate: nat, palette: seq<Color>) {

    /**
     * The canvas leaves room for a plot of non-zero size (getImageData
     * refuses a zero-sized rectangle), the sample rate is positive and the
     * palette has one colour per magnitude.
     */
    predicate Valid() {
      2 * OffsetH < width && 2 * OffsetV + 2 < height && 0 < sampleRate && |palette| == 256
    }

    /** The number of plot rows: the canvas height less both vertical margins. */
    function PlotHeight(): int {
      height - 2 * OffsetV
    }

    /** The x of the newest column, at the right edge of the plot. */
    function ColumnX(): int {
      width - OffsetH
    }

    /** The canvas line on which plot row i is drawn. */
    function RowY(i: int): int {
      height - OffsetV - i
    }

    predicate Fits(img: ImageData) {
      img.Valid() && img.width == width && img.height == height
    }

    /** A frame as the analyser delivers it, with a bin for every plot row. */
    predicate Accepts(frame: Frame) {
      |frame| == FrequencyBinCount && PlotHeight() <= |frame|
    }

    /** The pixels the new column paints: rows 0 .. PlotHeight()-1 at x = ColumnX(). */
    predicate InNewColumn(x: int, y: int) {
      x == ColumnX() && RowY(PlotHeight()) < y <= RowY(0)
    }

    /** The destination of the shifted plot history. */
    predicate InScrolled(x: int, y: int) {
      Covers(OffsetH + 1, OffsetV, width - 2 * OffsetH, height - 2 * OffsetV - 2, x, y)
    }
  }

  /**
   * The colour of plot row i in the new column: white on a gridline,
   * otherwise the palette entry for the row's magnitude (always in range,
   * since magnitudes are bytes and the palette has 256 entries).
   */
  function RowColor(s: Setup, frame: Frame, i: nat): Color
    requires s.Valid() && i < |frame|
  {
    if IsGridLine(s.sampleRate, i) then White else s.palette[frame[i]]
  }

  /** The canvas after the column loop has painted rows 0 .. n-1 of the new column. */
  function PaintRows(s: Setup, img: ImageData, frame: Frame, n: nat): (r: ImageData)
    requires s.Valid() && s.Fits(img) && n <= s.PlotHeight() && n <= |frame|
    ensures s.Fits(r)
  {
    if n == 0 then img
    else FillPixel(PaintRows(s, img, frame, n - 1), s.ColumnX(), s.RowY(n - 1), RowColor(s, frame, n - 1))
  }

  /**
   * Painting rows 0 .. n-1 sets exactly the n lowest pixels of the new
   * column, each to its row's colour; every other pixel is kept.
   */
  lemma {:induction false} PaintRowsAt(s: Setup, img: ImageData, frame: Frame, n: nat, x: int, y: int)
    requires s.Valid() && s.Fits(img) && n <= s.PlotHeight() && n <= |frame|
    requires 0 <= x < s.width && 0 <= y < s.height
    ensures PaintRows(s, img, frame, n).At(x, y) ==
              if x == s.ColumnX() && s.RowY(n) < y <= s.RowY(0)
              then RowColor(s, frame, s.RowY(0) - y) else img.At(x, y)
  {
    if n > 0 {
      PaintRowsAt(s, img, frame, n - 1, x, y);
    }
  }

  /**
   * The canvas after one recording tick: a copy of the whole canvas and a
   * copy of the plot shifted right by two columns are taken first; the
   * whole copy is put back, the shifted copy is put back one column right
   * of the plot's left edge, and then the new column is painted over it.
   */
  function TickImage(s: Setup, img: ImageData, frame: Frame): (r: ImageData)
    requires s.Valid() && s.Fits(img) && s.Accepts(frame)
    ensures s.Fits(r)
  {
    var canvasImage := Crop(img, 0, 0, s.width, s.height);
    var previousRegion := Crop(img, OffsetH + 2, OffsetV, s.width - 2 * OffsetH, s.height - 2 * OffsetV - 2);
    var shifted := Paste(Paste(img, canvasImage, 0, 0), previousRegion, OffsetH + 1, OffsetV);
    PaintRows(s, shifted, frame, s.PlotHeight())
  }

  /**
   * What a recording tick does to each pixel: the new column shows the
   * frame (white on gridlines); elsewhere in the scrolled rectangle each
   * pixel takes the value its right-hand neighbour had before the tick;
   * every other pixel, the axis column x = OffsetH and the bottom rows
   * y >= h - OffsetV - 2 of the plot among them, keeps its value.
   */
  lemma TickPixel(s: Setup, img: ImageData, frame: Frame, x: int, y: int)
    requires s.Valid() && s.Fits(img) && s.Accepts(frame)
    requires 0 <= x < s.width && 0 <= y < s.height
    ensures s.InNewColumn(x, y) ==>
              TickImage(s, img, frame).At(x, y) == RowColor(s, frame, s.RowY(0) - y)
    ensures !s.InNewColumn(x, y) && s.InScrolled(x, y) ==>
              TickImage(s, img, frame).At(x, y) == img.At(x + 1, y)
    ensures !s.InNewColumn(x, y) && !s.InScrolled(x, y) ==>
              TickImage(s, img, frame).At(x, y) == img.At(x, y)
  {
    var canvasImage := Crop(img, 0, 0, s.width, s.height);
    var previousRegion := Crop(img, OffsetH + 2, OffsetV, s.width - 2 * OffsetH, s.height - 2 * OffsetV - 2);
    PasteOwnCrop(img, 0, 0, s.width, s.height);
    var restored := Paste(img, canvasImage, 0, 0);
    assert restored == img;
    var shifted := Paste(restored, previousRegion, OffsetH + 1, OffsetV);
    assert TickImage(s, img, frame) == PaintRows(s, shifted, frame, s.PlotHeight());
    PaintRowsAt(s, shifted, frame, s.PlotHeight(), x, y);
    if s.InScrolled(x, y) {
      assert shifted.At(x, y) == previousRegion.At(x - OffsetH - 1, y - OffsetV);
    } else {
      assert shifted.At(x, y) == img.At(x, y);
    }
  }

  /** The canvas after one recording tick per frame, oldest frame first. */
  function Ticks(s: Setup, img: ImageData, frames: seq<Frame>): (r: ImageData)
    requires s.Valid() && s.Fits(img)
    requires forall k :: 0 <= k < |frames| ==> s.Accepts(frames[k])
    ensures s.Fits(r)
  {
    if frames == [] then img
    else TickImage(s, Ticks(s, img, frames[..|frames| - 1]), frames[|frames| - 1])
  }

  /**
   * The scrolling history: after a run of recording ticks, the column j
   * places left of the newest one shows the frame that arrived j ticks
   * before the last, for every plot row from 3 up, as long as that column
   * is still inside the plot. (Rows 0 to 2 lie below the scrolled
   * rectangle, so they are only ever painted in the newest column.)
   */
  lemma {:induction false} TicksHistory(s: Setup, img: ImageData, frames: seq<Frame>, j: nat, i: nat)
    requires s.Valid() && s.Fits(img)
    requires forall k :: 0 <= k < |frames| ==> s.Accepts(frames[k])
    requires j < |frames| && OffsetH + 1 <= s.ColumnX() - j
    requires 3 <= i < s.PlotHeight()
    ensures Ticks(s, img, frames).At(s.ColumnX() - j, s.RowY(i)) == RowColor(s, frames[|frames| - 1 - j], i)
  {
    var n := |frames|;
    var before := frames[..n - 1];
    var prev := Ticks(s, img, before);
    var x, y := s.ColumnX() - j, s.RowY(i);
    var after := TickImage(s, prev, frames[n - 1]);
    assert Ticks(s, img, frames) == after;
    TickPixel(s, prev, frames[n - 1], x, y);
    if j == 0 {
      assert s.InNewColumn(x, y);
      assert after.At(x, y) == RowColor(s, frames[n - 1], i);
    } else {
      assert !s.InNewColumn(x, y) && s.InScrolled(x, y);
      assert after.At(x, y) == prev.At(x + 1, y);
      TicksHistory(s, img, before, j - 1, i);
      assert before[|before| - 1 - (j - 1)] == frames[n - 1 - j];
    }
  }

  /**
   * History leaves the plot at its left edge and is dropped, never wrapped
   * around: the column next to the axis takes its right-hand neighbour's
   * value, and the axis column itself is not touched.
   */
  lemma ScrollDropsOldestColumn(s: Setup, img: ImageData, frame: Frame, y: int)
    requires s.Valid() && s.Fits(img) && s.Accepts(frame)
    requires OffsetH + 1 < s.ColumnX() && OffsetV <= y < s.RowY(2)
    ensures TickImage(s, img, frame).At(OffsetH + 1, y) == img.At(OffsetH + 2, y)
    ensures TickImage(s, img, frame).At(OffsetH, y) == img.At(OffsetH, y)
  {
    TickPixel(s, img, frame, OffsetH + 1, y);
    assert !s.InNewColumn(OffsetH + 1, y) && s.InScrolled(OffsetH + 1, y);
    TickPixel(s, img, frame, OffsetH, y);
    assert !s.InNewColumn(OffsetH, y) && !s.InScrolled(OffsetH, y);
  }
}
