# Waterfall spectrogram: a Dafny model of its rendering core

The page draws a live spectrogram. A frequency axis with a label at every
multiple of 1000 Hz is drawn once. Then, on every display frame while
recording is on, the plot scrolls one pixel left and the newest analyser
frame is painted as a new rightmost column. Gridline rows are white; every
other row takes the palette colour of its bin's magnitude. A toggle pauses
and resumes the scrolling.

This project models that core in five modules:

- `Canvas` (Canvas.dfy): pixels, the `ImageData` rectangles that
  `getImageData` copies out and `putImageData` writes back, and one-pixel
  `fillRect`, all as values.
- `Gridlines` (Gridlines.dfy): which rows are gridlines and what value a
  gridline's label shows. `bandWidth = sampleRate / 2048` is a fraction,
  so every test is multiplied through by the FFT size. Row `i` is a
  gridline iff `(i * sampleRate) % 2048000 < sampleRate`. Its label is
  `(i * sampleRate) / 2048000 * 1000`. `RealBandWidthAgrees` proves this
  equals the source's formula evaluated in exact real arithmetic.
- `Axis` (Axis.dfy): the one-time label pass over the plot rows, and the
  labels it produces. A label is an anchor `(x, y)` plus the value shown.
- `Compositor` (Compositor.dfy): one tick as a function from the canvas
  before to the canvas after. `TickImage` is built from the same canvas
  operations, in the same order, as the tick body. `TickPixel` gives its
  meaning pixel by pixel. `Ticks` and `TicksHistory` cover a run of ticks.
- `Spectrogram` (Spectrogram.dfy): the view as a class. It holds a
  `recording` flag and the canvas as an `array2<Color>` that `Tick`
  updates in place. `Tick` is proved equal to `TickImage` applied to the
  old canvas. `ToggleRecording` flips the flag.

Some behaviour of the code, as proved here:

- The shift copies rows `[offsetV, h - offsetV - 2)`. The new column
  paints rows `(offsetV, h - offsetV]`. So the three lowest plot rows
  (`i = 0, 1, 2`) are painted only in the newest column and never scroll.
  `TicksHistory` therefore states the scrolling history for rows `i >= 3`.
- At 44100 Hz the gridlines are rows 0, 47, 93, 140, 186, 233 and 279.
  The first one above 0 is row 47 (the lowest row reaching 1000 Hz), not
  46. The seven labels read 0Hz to 6000Hz upward from `y = 400`
  (`DefaultAxisLabels`).
- Successive gridlines are `1000 / bandWidth` rows apart, give or take one
  row (`GridSpacing`).
- The source reads `frequencies[i]` for every plot row and does not check
  that `i` is in range. The model follows the code and states it as a
  precondition of `Tick`: plot height `h - 160 <= 1024`, which holds for
  the 480-pixel canvas. Palette lookups need no precondition: magnitudes
  are bytes and the palette has 256 entries.

## Model

| member | source | states |
|---|---|---|
| `Gridlines.IsGridLine` | pages/index.tsx:76 | row i is a gridline iff (i * sampleRate) % 2048000 < sampleRate, the same test as at line 104; equal to the source's real-valued test by RealBandWidthAgrees, and true exactly for the lowest row reaching each thousand by OneGridLinePerThousand |
| `Gridlines.Thousands` | pages/index.tsx:77 | the number of whole thousands of Hz that row i's frequency reaches: k * 1000 <= i * bandWidth < (k + 1) * 1000 |
| `Gridlines.LabelValue` | pages/index.tsx:77 | the label value is a multiple of 1000 and the largest multiple of 1000 Hz not above row i's frequency |
| `Gridlines.FirstRowAtOrAbove` | pages/index.tsx:76 | the result is the lowest row whose frequency is at least k * 1000 Hz |
| `Gridlines.RowZeroIsGridLine` | pages/index.tsx:76-77 | row 0 is always a gridline, labelled 0 |
| `Gridlines.GridLineIffNewThousand` | pages/index.tsx:76 | going up one row crosses at most one multiple of 1000 Hz, and the row is a gridline exactly when it crosses one (both directions) |
| `Gridlines.GridLineIsFirstRow` | pages/index.tsx:76 | every gridline row is the lowest row reaching the thousand its label shows |
| `Gridlines.FirstRowIsGridLine` | pages/index.tsx:76-77 | the lowest row reaching k * 1000 Hz is a gridline and its label reads k * 1000 |
| `Gridlines.OneGridLinePerThousand` | pages/index.tsx:76-77 | exactly one row carries each 1000 Hz gridline: row i is a gridline labelled 1000k iff it is the lowest row reaching 1000k Hz |
| `Gridlines.ThousandsMonotone` | pages/index.tsx:77 | the thousands a row reaches never decrease going up |
| `Gridlines.LabelsIncrease` | pages/index.tsx:75-81 | of two gridline rows, the higher one has the strictly larger label value |
| `Gridlines.GridSpacing` | pages/index.tsx:76 | successive gridlines are d rows apart with (d - 1) * bandWidth < 1000 < (d + 1) * bandWidth; the next one is strictly higher |
| `Gridlines.FirstRowIncreasing` | pages/index.tsx:76 | the gridline for a higher thousand lies on a strictly higher row |
| `Gridlines.RealBandWidthAgrees` | pages/index.tsx:71-77 | the integer gridline test and label value equal the source's `(i * bandWidth) % 1000 < bandWidth` and `floor(i * bandWidth / 1000) * 1000` with bandWidth = sampleRate / 2048 in exact arithmetic |
| `Axis.LabelAt` | pages/index.tsx:77-81 | the label for row i: anchor (offsetH - 8, h - offsetV - i) and value LabelValue(i); its placement and value are characterised by AxisLabelsClosedForm |
| `Axis.AxisLabels` | pages/index.tsx:75-83 | the labels the pass over rows 0 .. n-1 draws, in drawing order, at most one per row; its closed form is AxisLabelsClosedForm, its completeness AxisLabelsComplete, its soundness and order AxisLabelsSoundAndAscending |
| `Axis.DrawLabels` | pages/index.tsx:75-83 | the label loop over rows 0 .. h - 2 * offsetV - 1 yields, in row order, one label (x = offsetH - 8, y = h - offsetV - i, LabelValue(i)) for every gridline row i |
| `Axis.AxisLabelsClosedForm` | pages/index.tsx:75-83 | the j-th label reads j * 1000 Hz and sits at y = h - offsetV - (lowest row reaching j * 1000 Hz); there is one label per thousand reached by the top row |
| `Axis.AxisLabelsComplete` | pages/index.tsx:75-83 | every gridline row among the labelled rows has its label, at index Thousands(row) |
| `Axis.AxisLabelsSoundAndAscending` | pages/index.tsx:75-83 | every label marks a gridline row inside the plot; label values strictly increase while their y strictly decreases (they read upward) |
| `Axis.DefaultAxisLabels` | pages/index.tsx:75-83 | at 44100 Hz on the 480-pixel canvas the labels are 0Hz..6000Hz at y = 400, 353, 307, 260, 214, 167, 121 |
| `Canvas.Crop` | pages/index.tsx:90-96 | getImageData: an sw-by-sh copy whose pixel (a, b) is the image's pixel (sx + a, sy + b) |
| `Canvas.Paste` | pages/index.tsx:98-99 | putImageData: pixels inside the pasted rectangle come from the region, all others are kept |
| `Canvas.FillPixel` | pages/index.tsx:108 | a one-pixel opaque fillRect changes exactly that pixel |
| `Canvas.PasteOwnCrop` | pages/index.tsx:90-98 | putting a copy back where it was taken changes nothing, so re-putting the whole-canvas snapshot is a no-op |
| `Compositor.RowColor` | pages/index.tsx:104-107 | the colour of plot row i in the new column: white on a gridline (IsGridLine), otherwise the palette entry for frame[i], always in range since magnitudes are bytes and the palette has 256 entries |
| `Compositor.PaintRows` | pages/index.tsx:103-108 | the canvas after the column loop's first n iterations, one opaque one-pixel fill per row; pixel meaning in PaintRowsAt |
| `Compositor.PaintRowsAt` | pages/index.tsx:103-109 | after the column loop has run n rows, exactly the n lowest pixels of column w - offsetH hold their rows' colours (white on gridlines, else palette[frame[i]]); all else is kept |
| `Compositor.TickImage` | pages/index.tsx:90-108 | the two getImageData and two putImageData calls in source order, then the column loop; pixel meaning in TickPixel |
| `Compositor.TickPixel` | pages/index.tsx:90-108 | a recording tick paints the new column with the frame, gives every other pixel of the scrolled rectangle the old value of its right-hand neighbour (read from the pre-tick copy), and leaves every other pixel unchanged, axis column and bottom rows included |
| `Compositor.Ticks` | pages/index.tsx:86-112 | one recording tick per frame, oldest frame first, as repeated `draw` calls do; the resulting history is TicksHistory |
| `Compositor.TicksHistory` | pages/index.tsx:86-111 | after a run of recording ticks, the column j left of the newest shows the frame that arrived j ticks before the last, for rows 3 and up, while that column is inside the plot |
| `Compositor.ScrollDropsOldestColumn` | pages/index.tsx:91-99 | the column next to the axis takes its right neighbour's value (old history is dropped, not wrapped) and the axis column is untouched |
| `Spectrogram.Spectrogram.constructor` | pages/index.tsx:25-83 | start-up: black background, labels equal to the label pass's output, recording on |
| `Spectrogram.Spectrogram.GetImageData` | pages/index.tsx:90-96 | returns a copy of that rectangle of the current canvas |
| `Spectrogram.Spectrogram.PutImageData` | pages/index.tsx:98-99 | the canvas becomes the old canvas with the region pasted at (dx, dy) |
| `Spectrogram.Spectrogram.PaintColumn` | pages/index.tsx:103-109 | the column loop turns the canvas into PaintRows of the old canvas over all plot rows |
| `Spectrogram.Spectrogram.Tick` | pages/index.tsx:86-111 | while recording, the new canvas is TickImage of the old one (meaning given by TickPixel); while paused, every pixel is unchanged |
| `Spectrogram.Spectrogram.ToggleRecording` | pages/index.tsx:128-130 | the recording flag is negated and the canvas is untouched |
| `Spectrogram.Spectrogram.ToggleTwice` | pages/index.tsx:129 | toggling twice restores the recording flag |
| `Spectrogram.Spectrogram.Run` | pages/index.tsx:86-112 | a run of ticks gives Ticks of the old canvas while recording and leaves the canvas pixel-identical while paused |

## Left out

- The React page (`Page`, `Head`, the JSX, `useEffect`, `useRef`, `useHotkeys`, the button): UI wiring. Toggling is the `ToggleRecording` method.
- Microphone capture (`getUserMedia`, the "not found" early return), `AudioContext` and analyser setup, and `getByteFrequencyData`: external I/O. The frame is a parameter of `Tick` of length `frequencyBinCount = 1024`, and the sample rate is a parameter of the constructor.
- The `colormap` library: a foreign call. The palette is a parameter of 256 colours. The jet hex colours and "white" are opaque, so a one-pixel `fillRect` replaces the pixel. Alpha compositing is not modelled.
- The white axis strokes and the text rendering of labels (`fillText`, font, alignment, the `"Hz"` suffix): graphics-API rendering (line widths, anti-aliasing, glyphs). Labels are kept as values `(x, y, hz)`. The start-up canvas in the model is therefore all black: the axis L and the label glyphs are not drawn on it. The tick lemmas do not depend on this, since they state every pixel in terms of the canvas before the tick, and `TickPixel` shows the axis column and the pixels outside the plot are never changed by a tick.
- `requestAnimationFrame` rescheduling and the teardown `close()`: scheduling and async lifecycle. `Run` models a sequence of ticks with no toggle in between.
- JavaScript floating-point rounding of `bandWidth` and of `%`: arithmetic is exact. The margins 120 and 80 and the FFT size 2048 are constants, as in the source.
- Canvas sizes that leave no plot: the model requires `w > 240` and `h > 162`, which the 720x480 canvas meets. With a zero-sized rectangle `getImageData` throws, and with a negative one it flips the rectangle; neither is modelled.
- Spectrogram.Spectrogram.Tick: requires `h - 160 <= 1024`. Otherwise the source reads past the end of the frame, gets `undefined`, and `fillStyle` keeps its previous colour. That case is not modelled.
- Axis.AxisLabelsClosedForm: requires `sampleRate <= 2048000` (bands at most 1000 Hz wide), and so do `Axis.AxisLabelsComplete`, `Axis.AxisLabelsSoundAndAscending`, `Gridlines.GridLineIffNewThousand`, `Gridlines.FirstRowIsGridLine`, `Gridlines.OneGridLinePerThousand` and `Gridlines.FirstRowIncreasing`. Every browser sample rate meets this bound.
