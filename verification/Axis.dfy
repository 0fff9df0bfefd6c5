/**
 * The frequency labels drawn once, left of the plot, before scrolling
 * starts. A label is kept as the anchor point and the value it shows; the
 * text is that value followed by "Hz", right-aligned and vertically
 * centred on the anchor.
 */
module Axis {
  import opened Gridlines

  /** Horizontal margin between the canvas edge and the plot. */
  const OffsetH: int := 120

  /** Vertical margin between the canvas edge and the plot. */
  const OffsetV: int := 80

  datatype Label = Label(x: int, y: int, hz: nat)

  /** Number of plot rows on a canvas of height h (none when the margins leave no room). */
  function PlotRows(h: int): (n: nat)
    ensures 2 * OffsetV <= h ==> n == h - 2 * OffsetV
  {
    if h < 2 * OffsetV then 0 else h - 2 * OffsetV
  }

  /** The label for row i: anchored 8 pixels left of the plot, on the canvas line of row i. */
  function LabelAt(sampleRate: nat, h: int, i: nat): Label {
    Label(OffsetH - 8, h - OffsetV - i, LabelValue(sampleRate, i))
  }

  /** The labels the pass over rows 0 .. n-1 draws, in the order it draws them. */
  function AxisLabels(sampleRate: nat, h: int, n: nat): (labels: seq<Label>)
    ensures |labels| <= n
  {
    if n == 0 then []
    else AxisLabels(sampleRate, h, n - 1)
         + (if IsGridLine(sampleRate, n - 1) then [LabelAt(sampleRate, h, n - 1)] else [])
  }

  /** The label pass: one label for every gridline row of the plot, bottom row first. */
  method DrawLabels(sampleRate: nat, h: int) returns (labels: seq<Label>)
    ensures labels == AxisLabels(sampleRate, h, PlotRows(h))
  {
    labels := [];
    var i := 0;
    while i < h - 2 * OffsetV
      invariant 0 <= i <= PlotRows(h)
      invariant labels == AxisLabels(sampleRate, h, i)
    {
      if IsGridLine(sampleRate, i) {
        labels := labels + [LabelAt(sampleRate, h, i)];
      }
      i := i + 1;
    }
  }

  /**
   * Closed form of the label pass over n rows: the j-th label reads
   * j * 1000 Hz and sits at the lowest row reaching that frequency; there
   * is one label for each thousand that row n-1 reaches.
   */
  lemma {:induction false} AxisLabelsClosedForm(sampleRate: nat, h: int, n: nat)
    requires 0 < sampleRate <= ScaledKHz && 0 < n
    ensures |AxisLabels(sampleRate, h, n)| == Thousands(sampleRate, n - 1) + 1
    ensures forall j :: 0 <= j < |AxisLabels(sampleRate, h, n)| ==>
              AxisLabels(sampleRate, h, n)[j]
                == Label(OffsetH - 8, h - OffsetV - FirstRowAtOrAbove(sampleRate, j), 1000 * j)
  {
    var labels := AxisLabels(sampleRate, h, n);
    if n == 1 {
      RowZeroIsGridLine(sampleRate);
      assert labels == [LabelAt(sampleRate, h, 0)];
      assert FirstRowAtOrAbove(sampleRate, 0) == 0;
    } else {
      var prev := AxisLabels(sampleRate, h, n - 1);
      AxisLabelsClosedForm(sampleRate, h, n - 1);
      GridLineIffNewThousand(sampleRate, n - 1);
      if IsGridLine(sampleRate, n - 1) {
        GridLineIsFirstRow(sampleRate, n - 1);
        assert labels == prev + [LabelAt(sampleRate, h, n - 1)];
      } else {
        assert labels == prev;
      }
    }
  }

  /** Every gridline row among the n labelled rows has its label, at index Thousands of that row. */
  lemma AxisLabelsComplete(sampleRate: nat, h: int, n: nat, i: nat)
    requires 0 < sampleRate <= ScaledKHz && i < n && IsGridLine(sampleRate, i)
    ensures Thousands(sampleRate, i) < |AxisLabels(sampleRate, h, n)|
    ensures AxisLabels(sampleRate, h, n)[Thousands(sampleRate, i)] == LabelAt(sampleRate, h, i)
  {
    AxisLabelsClosedForm(sampleRate, h, n);
    ThousandsMonotone(sampleRate, i, n - 1);
    GridLineIsFirstRow(sampleRate, i);
  }

  /**
   * Every label marks a gridline row within the n labelled rows, and the
   * labels read upward in strictly increasing thousands.
   */
  lemma AxisLabelsSoundAndAscending(sampleRate: nat, h: int, n: nat)
    requires 0 < sampleRate <= ScaledKHz
    ensures var labels := AxisLabels(sampleRate, h, n);
            forall j :: 0 <= j < |labels| ==>
              var i := FirstRowAtOrAbove(sampleRate, j);
              i < n && IsGridLine(sampleRate, i) && labels[j] == LabelAt(sampleRate, h, i)
    ensures var labels := AxisLabels(sampleRate, h, n);
            forall j, k :: 0 <= j < k < |labels| ==> labels[j].hz < labels[k].hz && labels[j].y > labels[k].y
  {
    var labels := AxisLabels(sampleRate, h, n);
    if 0 < n {
      AxisLabelsClosedForm(sampleRate, h, n);
      forall j | 0 <= j < |labels|
        ensures var i := FirstRowAtOrAbove(sampleRate, j);
                i < n && IsGridLine(sampleRate, i) && labels[j] == LabelAt(sampleRate, h, i)
      {
        var i := FirstRowAtOrAbove(sampleRate, j);
        FirstRowIsGridLine(sampleRate, j);
      }
      forall j, k | 0 <= j < k < |labels|
        ensures labels[j].hz < labels[k].hz && labels[j].y > labels[k].y
      {
        FirstRowIncreasing(sampleRate, j, k);
      }
    }
  }

  /**
   * At 44100 Hz on the 480-pixel canvas the 320 plot rows carry seven
   * labels, 0Hz to 6000Hz, reading upward from y = 400.
   */
  lemma DefaultAxisLabels()
    ensures AxisLabels(44100, 480, PlotRows(480)) ==
      [Label(112, 400, 0), Label(112, 353, 1000), Label(112, 307, 2000), Label(112, 260, 3000),
       Label(112, 214, 4000), Label(112, 167, 5000), Label(112, 121, 6000)]
  {
    var labels := AxisLabels(44100, 480, 320);
    AxisLabelsClosedForm(44100, 480, 320);
    assert Thousands(44100, 319) == 6;
    assert |labels| == 7;
    assert FirstRowAtOrAbove(44100, 1) == 47;
    assert FirstRowAtOrAbove(44100, 2) == 93;
    assert FirstRowAtOrAbove(44100, 3) == 140;
    assert FirstRowAtOrAbove(44100, 4) == 186;
    assert FirstRowAtOrAbove(44100, 5) == 233;
    assert FirstRowAtOrAbove(44100, 6) == 279;
  }
}
