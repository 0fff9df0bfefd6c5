/**
 * The spectrogram view: the canvas pixel buffer, updated in place once per
 * display tick, and the recording flag the user toggles.
 */
module Spectrogram {
  import opened Canvas
  import opened Gridlines
  import opened Axis
  import opened Compositor

  class Spectrogram {
    const w: nat
    const h: nat
    const sampleRate: nat
    /** The jet colormap with 256 shades, indexed by magnitude. */
    const colors: seq<Color>
    /** The canvas's pixels; canvas[x, y] is the pixel at column x, line y. */
    const canvas: array2<Color>
    /** The frequency labels drawn left of the plot at start-up. */
    const labels: seq<Label>
    var recording: bool

    function Setup(): Setup {
      Compositor.Setup(w, h, sampleRate, colors)
    }

    predicate Valid() {
      Setup().Valid() && canvas.Length0 == w && canvas.Length1 == h
    }

    /** The whole canvas as one image: what getImageData(0, 0, w, h) returns. */
    ghost function Snapshot(): (img: ImageData)
      reads canvas
      requires Valid()
      ensures Setup().Fits(img)
      ensures forall x, y :: 0 <= x < w && 0 <= y < h ==> img.At(x, y) == canvas[x, y]
    {
      ImageData(w, h, seq(w, x requires 0 <= x < w reads canvas =>
                        seq(h, y requires 0 <= y < h reads canvas => canvas[x, y])))
    }

    /**
     * Start-up once the microphone is available: the canvas is filled with
     * the black background, the frequency labels are computed, and
     * recording is on.
     */
    constructor (w: nat, h: nat, sampleRate: nat, colors: seq<Color>)
      requires Compositor.Setup(w, h, sampleRate, colors).Valid()
      ensures Valid() && fresh(canvas)
      ensures this.w == w && this.h == h && this.sampleRate == sampleRate && this.colors == colors
      ensures Snapshot() == Filled(w, h, Black)
      ensures labels == AxisLabels(sampleRate, h, PlotRows(h))
      ensures recording
    {
      this.w, this.h, this.sampleRate, this.colors := w, h, sampleRate, colors;
      canvas := new Color[w, h]((x, y) => Black);
      var drawn := DrawLabels(sampleRate, h);
      labels := drawn;
      recording := true;
      new;
      ImageDataExt(Snapshot(), Filled(w, h, Black));
    }

    /** getImageData(sx, sy, sw, sh): a copy of that rectangle of the canvas. */
    method GetImageData(sx: nat, sy: nat, sw: nat, sh: nat) returns (region: ImageData)
      requires Valid() && sx + sw <= w && sy + sh <= h
      ensures region == Crop(Snapshot(), sx, sy, sw, sh)
    {
      region := ImageData(sw, sh, seq(sw, a requires 0 <= a < sw reads canvas =>
                                    seq(sh, b requires 0 <= b < sh reads canvas => canvas[sx + a, sy + b])));
      ImageDataExt(region, Crop(Snapshot(), sx, sy, sw, sh));
    }

    /**
     * putImageData(region, dx, dy): the region's pixels replace that
     * rectangle of the canvas. The region is a value, so it is never read
     * back from pixels this call has already written.
     */
    method PutImageData(region: ImageData, dx: nat, dy: nat)
      requires Valid() && region.Valid() && dx + region.width <= w && dy + region.height <= h
      modifies canvas
      ensures Snapshot() == Paste(old(Snapshot()), region, dx, dy)
    {
      ghost var before := Snapshot();
      forall x, y | dx <= x < dx + region.width && dy <= y < dy + region.height {
        canvas[x, y] := region.data[x - dx][y - dy];
      }
      ImageDataExt(Snapshot(), Paste(before, region, dx, dy));
    }

    /**
     * The column loop of a tick: row i of the plot, from the bottom up,
     * gets white on a gridline and otherwise the palette colour of the
     * frame's magnitude for bin i, at the new column's x.
     */
    method PaintColumn(frequencies: Frame)
      requires Valid() && h - 2 * OffsetV <= |frequencies|
      modifies canvas
      ensures Snapshot() == PaintRows(Setup(), old(Snapshot()), frequencies, h - 2 * OffsetV)
    {
      ghost var start := Snapshot();
      for i := 0 to h - 2 * OffsetV
        invariant forall x, y :: 0 <= x < w && 0 <= y < h ==>
                    canvas[x, y] == PaintRows(Setup(), start, frequencies, i).At(x, y)
      {
        var isGridLine := IsGridLine(sampleRate, i);
        var color := if isGridLine then White else colors[frequencies[i]];
        ghost var painted := PaintRows(Setup(), start, frequencies, i);
        assert PaintRows(Setup(), start, frequencies, i + 1)
            == FillPixel(painted, w - OffsetH, h - OffsetV - i, color);
        label BeforeWrite:
        canvas[w - OffsetH, h - OffsetV - i] := color;
        forall x, y | 0 <= x < w && 0 <= y < h
          ensures canvas[x, y] == FillPixel(painted, w - OffsetH, h - OffsetV - i, color).At(x, y)
        {
          if x != w - OffsetH || y != h - OffsetV - i {
            assert canvas[x, y] == old@BeforeWrite(canvas[x, y]) == painted.At(x, y);
          }
        }
      }
      ImageDataExt(Snapshot(), PaintRows(Setup(), start, frequencies, h - 2 * OffsetV));
    }

    /**
     * One display tick. When recording, the plot scrolls one column left and
     * the frame is painted as the new rightmost column, gridlines in white;
     * when not recording, the canvas is left exactly as it was.
     */
    method Tick(frequencies: Frame)
      requires Valid() && Setup().Accepts(frequencies)
      modifies canvas
      ensures recording ==> Snapshot() == TickImage(Setup(), old(Snapshot()), frequencies)
      ensures !recording ==> Snapshot() == old(Snapshot())
    {
      if recording {
        var canvasImage := GetImageData(0, 0, w, h);
        var previousRegion := GetImageData(OffsetH + 2, OffsetV, w - 2 * OffsetH, h - OffsetV * 2 - 2);
        PutImageData(canvasImage, 0, 0);
        PutImageData(previousRegion, OffsetH + 1, OffsetV);
        PaintColumn(frequencies);
      }
    }

    /** Flips the recording flag; the canvas is not touched. */
    method ToggleRecording()
      modifies this
      ensures recording == !old(recording)
    {
      recording := !recording;
    }

    /** Toggling twice restores the flag. */
    method ToggleTwice()
      modifies this
      ensures recording == old(recording)
    {
      ToggleRecording();
      ToggleRecording();
    }

    /**
     * A run of display ticks, one per frame, with no toggle in between:
     * while recording, each frame scrolls in as a new column; while paused,
     * every tick leaves the canvas pixel-identical.
     */
    method Run(frames: seq<Frame>)
      requires Valid()
      requires forall k :: 0 <= k < |frames| ==> Setup().Accepts(frames[k])
      modifies canvas
      ensures recording ==> Snapshot() == Ticks(Setup(), old(Snapshot()), frames)
      ensures !recording ==> Snapshot() == old(Snapshot())
    {
      for k := 0 to |frames|
        invariant recording ==> Snapshot() == Ticks(Setup(), old(Snapshot()), frames[..k])
        invariant !recording ==> Snapshot() == old(Snapshot())
      {
        Tick(frames[k]);
        assert frames[..k + 1][..k] == frames[..k];
      }
      assert frames[..|frames|] == frames;
    }
  }
}
