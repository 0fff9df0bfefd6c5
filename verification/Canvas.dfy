/**
 * The 2D canvas as the waterfall sees it: RGBA pixels, the ImageData
 * rectangles that getImageData returns and putImageData writes back, and
 * single-pixel fills. All values; the mutable canvas is in Spectrogram.dfy.
 */
module Canvas {

  type byte = b: int | 0 <= b < 256

  datatype Color = Rgba(r: byte, g: byte, b: byte, a: byte)

  /** Opaque white: the gridline colour and the colour of the axis strokes. */
  const White := Rgba(255, 255, 255, 255)

  /** Opaque black: the background the canvas is filled with at start-up. */
  const Black := Rgba(0, 0, 0, 255)

  /**
   * A rectangle of pixels, stored column by column: data[x][y] is the
   * pixel x to the right of and y below the rectangle's top-left corner.
   */
  datatype ImageData = ImageData(width: nat, height: nat, data: seq<seq<Color>>) {

    predicate Valid() {
      |data| == width && forall x :: 0 <= x < width ==> |data[x]| == height
    }

    function At(x: int, y: int): Color
      requires Valid() && 0 <= x < width && 0 <= y < height
    {
      data[x][y]
    }
  }

  /** Two well-formed images of the same size that agree on every pixel are equal. */
  lemma ImageDataExt(a: ImageData, b: ImageData)
    requires a.Valid() && b.Valid() && a.width == b.width && a.height == b.height
    requires forall x, y :: 0 <= x < a.width && 0 <= y < a.height ==> a.At(x, y) == b.At(x, y)
    ensures a == b
  {
    forall x | 0 <= x < a.width
      ensures a.data[x] == b.data[x]
    {
      assert forall y :: 0 <= y < a.height ==> a.data[x][y] == b.data[x][y] by {
        forall y | 0 <= y < a.height ensures a.data[x][y] == b.data[x][y] {
          assert a.At(x, y) == b.At(x, y);
        }
      }
    }
    assert a.data == b.data;
  }

  /** An image of the given size with every pixel set to c. */
  function Filled(width: nat, height: nat, c: Color): (img: ImageData)
    ensures img.Valid() && img.width == width && img.height == height
    ensures forall x, y :: 0 <= x < width && 0 <= y < height ==> img.At(x, y) == c
  {
    ImageData(width, height, seq(width, x => seq(height, y => c)))
  }

  /**
   * getImageData(sx, sy, sw, sh) on an image: an independent copy of the
   * sw-by-sh rectangle whose top-left corner is (sx, sy).
   */
  function Crop(img: ImageData, sx: nat, sy: nat, sw: nat, sh: nat): (r: ImageData)
    requires img.Valid() && sx + sw <= img.width && sy + sh <= img.height
    ensures r.Valid() && r.width == sw && r.height == sh
    ensures forall a, b {:trigger r.At(a, b)} :: 0 <= a < sw && 0 <= b < sh ==> r.At(a, b) == img.At(sx + a, sy + b)
  {
    ImageData(sw, sh, seq(sw, a requires 0 <= a < sw =>
                        seq(sh, b requires 0 <= b < sh => img.data[sx + a][sy + b])))
  }

  /** Whether (x, y) lies in the rectangle a region of size w-by-h covers when pasted at (dx, dy). */
  predicate Covers(dx: int, dy: int, w: int, h: int, x: int, y: int) {
    dx <= x < dx + w && dy <= y < dy + h
  }

  /**
   * putImageData(region, dx, dy) on an image: the region's pixels replace
   * those of the rectangle at (dx, dy); every other pixel is kept.
   */
  function Paste(img: ImageData, region: ImageData, dx: nat, dy: nat): (r: ImageData)
    requires img.Valid() && region.Valid()
    requires dx + region.width <= img.width && dy + region.height <= img.height
    ensures r.Valid() && r.width == img.width && r.height == img.height
    ensures forall x, y {:trigger r.At(x, y)} :: 0 <= x < img.width && 0 <= y < img.height ==>
              r.At(x, y) == if Covers(dx, dy, region.width, region.height, x, y)
                            then region.At(x - dx, y - dy) else img.At(x, y)
  {
    ImageData(img.width, img.height,
      seq(img.width, x requires 0 <= x < img.width =>
        seq(img.height, y requires 0 <= y < img.height =>
          if Covers(dx, dy, region.width, region.height, x, y)
          then region.data[x - dx][y - dy] else img.data[x][y])))
  }

  /** fillRect(x, y, 1, 1) with an opaque colour: that one pixel becomes c. */
  function FillPixel(img: ImageData, x: int, y: int, c: Color): (r: ImageData)
    requires img.Valid() && 0 <= x < img.width && 0 <= y < img.height
    ensures r.Valid() && r.width == img.width && r.height == img.height
    ensures forall x', y' {:trigger r.At(x', y')} :: 0 <= x' < img.width && 0 <= y' < img.height ==>
              r.At(x', y') == if x' == x && y' == y then c else img.At(x', y')
  {
    ImageData(img.width, img.height, img.data[x := img.data[x][y := c]])
  }

  /**
   * Putting back a copy of a rectangle where it was taken from changes
   * nothing: this is why re-putting the whole-canvas snapshot at (0, 0)
   * before the shifted region is a no-op.
   */
  lemma PasteOwnCrop(img: ImageData, sx: nat, sy: nat, sw: nat, sh: nat)
    requires img.Valid() && sx + sw <= img.width && sy + sh <= img.height
    ensures Paste(img, Crop(img, sx, sy, sw, sh), sx, sy) == img
  {
    var r := Paste(img, Crop(img, sx, sy, sw, sh), sx, sy);
    ImageDataExt(r, img);
  }
}
