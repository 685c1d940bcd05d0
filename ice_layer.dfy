// The overlay rasteriser (frontend/src/components/IceLayer.jsx): its local copy
// of the colour mapping and the loop that paints a width x height RGBA buffer,
// one grid cell per pixel, row 0 at the top and column 0 at the left.
module IceLayer {

  import opened IceGrid
  import IceUtils

  /** One byte of the canvas `ImageData` buffer, a Uint8ClampedArray. */
  type Byte = x: int | 0 <= x < 256

  /** The component's own `getIceColor`. It clamps with `Math.max(0, Math.min(100, c))`
      and tests `value / 100 < 0.01` instead of `isVisibleIce`; on every input it
      yields the shared colour. */
  function LayerIceColor(c: Sample): (color: Option<IceUtils.Rgba>)
    ensures color == IceUtils.GetIceColor(c)
  {
    if c.None? then None
    else
      var value := (if 0.0 < (if 100.0 < c.value then 100.0 else c.value)
                    then (if 100.0 < c.value then 100.0 else c.value) else 0.0) / 100.0;
      if value < 0.01 then None
      else
        Some(IceUtils.Rgba((200.0 * (1.0 - value)).Floor, (220.0 - 170.0 * value).Floor,
                           (255.0 - 55.0 * value).Floor, 0.4 + value * 0.6))
  }

  /** Storing a number into a Uint8ClampedArray: clamp to [0, 255], then round
      to the nearest integer, ties to even. */
  function ToUint8Clamped(x: real): (b: Byte)
    ensures 0.0 <= x <= 255.0 ==> -0.5 <= b as real - x <= 0.5
    ensures x <= 0.0 ==> b == 0
    ensures 255.0 <= x ==> b == 255
  {
    if x <= 0.0 then 0
    else if x >= 255.0 then 255
    else
      var f := x.Floor;
      var frac := x - f as real;
      if frac < 0.5 then f
      else if frac > 0.5 then f + 1
      else if f % 2 == 0 then f
      else f + 1
  }

  /** The alpha byte of a painted cell: `parseFloat(opacity) * 255`, stored. */
  function AlphaByte(opacity: real): Byte
  {
    ToUint8Clamped(opacity * 255.0)
  }

  /** The four bytes a cell paints: r, g, b and alpha, or transparent black
      for a cell with no colour. */
  function CellBytes(color: Option<IceUtils.Rgba>): (bytes: seq<Byte>)
    requires color.Some? ==> 0 <= color.value.r < 256 && 0 <= color.value.g < 256 && 0 <= color.value.b < 256
    ensures |bytes| == 4
  {
    if color.None? then [0, 0, 0, 0]
    else [color.value.r, color.value.g, color.value.b, AlphaByte(color.value.opacity)]
  }

  /** Byte `k` of the finished buffer: channel `k % 4` of cell `k / 4` (a cell
      past the end of the concentration array has no colour). */
  function RasterByte(ice: seq<Sample>, k: nat): Byte
  {
    CellBytes(LayerIceColor(At(ice, k / 4)))[k % 4]
  }

  /** The whole buffer the rasteriser leaves behind for a grid of `cells`
      (= width * height) cells: four bytes per cell. */
  function Raster(ice: seq<Sample>, cells: nat): (buf: seq<Byte>)
  {
    seq(cells * 4, k requires 0 <= k => RasterByte(ice, k))
  }

  lemma {:induction false} MulMonotone(a: nat, b: nat, c: nat)
    requires a <= b
    ensures a * c <= b * c
    decreases c
  {
    if c > 0 {
      MulMonotone(a, b, c - 1);
      assert a * c == a * (c - 1) + a && b * c == b * (c - 1) + b;
    }
  }

  /** Cell `i` of a `width`-wide grid sits at row `i / width`, column `i % width`,
      and that row lies inside the image exactly when `i < width * height`. */
  lemma CellPosition(i: nat, width: nat, height: nat)
    requires width > 0
    ensures i == (i / width) * width + i % width && 0 <= i % width < width
    ensures i / width < height <==> i < width * height
  {
    var row := i / width;
    assert i == row * width + i % width;
    if row < height {
      MulMonotone(row + 1, height, width);
      assert (row + 1) * width == row * width + width;
    } else {
      MulMonotone(height, row, width);
    }
  }

  /** Cell (row, col) of a width x height grid has an index below width * height. */
  lemma CellIndexInRange(width: nat, height: nat, row: nat, col: nat)
    requires row < height && col < width
    ensures row * width + col < width * height
  {
    MulMonotone(row + 1, height, width);
    assert (row + 1) * width == row * width + width;
  }

  /** Byte `k` belongs to cell `k / 4`: the four bytes 4i .. 4i+3 of cell `i`. */
  lemma ByteOfCell(k: nat, i: nat)
    ensures k / 4 == i <==> 4 * i <= k < 4 * i + 4
    ensures k / 4 == i ==> k % 4 == k - 4 * i
  {
  }

  /** The four bytes of cell `i` are its colour, or transparent black. */
  lemma RasterCell(ice: seq<Sample>, cells: nat, i: nat)
    requires i < cells
    ensures 4 * i + 3 < |Raster(ice, cells)|
    ensures Raster(ice, cells)[4 * i..4 * i + 4] == CellBytes(IceUtils.GetIceColor(At(ice, i)))
  {
    var buf := Raster(ice, cells);
    var bytes := CellBytes(IceUtils.GetIceColor(At(ice, i)));
    forall j | 0 <= j < 4
      ensures buf[4 * i + j] == bytes[j]
    {
      ByteOfCell(4 * i + j, i);
    }
    assert buf[4 * i..4 * i + 4] == bytes;
  }

  /** No flip: pixel (col, row) holds the colour of cell `row * width + col`,
      as four bytes r, g, b, alpha; a cell without colour stays transparent black. */
  lemma RasterPixel(ice: seq<Sample>, width: nat, height: nat, row: nat, col: nat)
    requires row < height && col < width
    ensures 4 * (row * width + col) + 3 < |Raster(ice, width * height)|
    ensures var base := 4 * (row * width + col);
            Raster(ice, width * height)[base..base + 4] == CellBytes(IceUtils.GetIceColor(At(ice, row * width + col)))
  {
    CellIndexInRange(width, height, row, col);
    RasterCell(ice, width * height, row * width + col);
  }

  /** The alpha byte marks exactly the painted cells: it is non-zero for a cell
      of the image iff that cell has a colour. */
  lemma AlphaMarksColouredCells(ice: seq<Sample>, cells: nat, i: nat)
    requires i < cells
    ensures 4 * i + 3 < |Raster(ice, cells)|
    ensures Raster(ice, cells)[4 * i + 3] > 0 <==> IceUtils.GetIceColor(At(ice, i)).Some?
  {
    RasterCell(ice, cells, i);
    assert Raster(ice, cells)[4 * i + 3] == Raster(ice, cells)[4 * i..4 * i + 4][3];
  }

  /** `generateIceImage`: no image without the three arrays; otherwise a fresh
      buffer of width * height * 4 bytes holding exactly `Raster`. The first loop
      clears every alpha byte; the second visits each cell once and writes only
      its own four bytes, skipping cells past the last image row. */
  method GenerateIceImage(iceData: Option<IceData>) returns (image: Option<array<Byte>>)
    ensures image.None? <==> iceData.None? || !iceData.value.HasArrays()
    ensures image.Some? ==> fresh(image.value)
    ensures image.Some? ==>
      image.value[..] == Raster(iceData.value.ice.value, iceData.value.Width() * iceData.value.Height())
  {
    if iceData.None? || !iceData.value.HasArrays() {
      return None;
    }
    var width := iceData.value.Width();
    var height := iceData.value.Height();
    var ice := iceData.value.ice.value;
    // createImageData starts out all zero
    var cells := width * height;
    var data := new Byte[cells * 4](_ => 0);

    var a := 3;
    while a < data.Length
      invariant forall k | 0 <= k < data.Length :: data[k] == 0
    {
      data[a] := 0;
      a := a + 4;
    }

    for i := 0 to |ice|
      invariant forall k | 0 <= k < data.Length :: data[k] == if k / 4 < i then RasterByte(ice, k) else 0
    {
      PaintCell(data, ice, width, height, i);
    }
    image := Some(data);
    forall k | 0 <= k < data.Length
      ensures data[k] == Raster(ice, cells)[k]
    {
      if k / 4 >= |ice| {
        assert At(ice, k / 4).None?;
      }
    }
  }

  /** One pass of the cell loop: cell `i`, when it has a colour and lies in the
      image, writes its four bytes r, g, b, alpha at `4 * (row * width + col)`;
      every other byte keeps its value. */
  method PaintCell(data: array<Byte>, ice: seq<Sample>, width: nat, height: nat, i: nat)
    requires width > 0 && data.Length == width * height * 4 && i < |ice|
    requires forall k | 0 <= k < data.Length :: data[k] == if k / 4 < i then RasterByte(ice, k) else 0
    modifies data
    ensures forall k | 0 <= k < data.Length :: data[k] == if k / 4 < i + 1 then RasterByte(ice, k) else 0
  {
    ghost var before := data[..];
    var color := LayerIceColor(ice[i]);
    var row := i / width;
    var col := i % width;
    CellPosition(i, width, height);
    var y, x := row, col;
    if color.Some? && 0 <= x < width && 0 <= y < height {
      var idx := (y * width + x) * 4;
      assert idx == 4 * i;
      data[idx] := color.value.r;
      data[idx + 1] := color.value.g;
      data[idx + 2] := color.value.b;
      data[idx + 3] := AlphaByte(color.value.opacity);
    }
    forall k | 0 <= k < data.Length
      ensures data[k] == if k / 4 < i + 1 then RasterByte(ice, k) else 0
    {
      ByteOfCell(k, i);
      if k / 4 == i {
        assert y < height;
        assert RasterByte(ice, k) == CellBytes(color)[k - 4 * i];
      } else {
        assert data[k] == before[k];
      }
    }
  }
}
