/**
  The pixel side of expand_image: Image.new, which allocates a canvas and
  fills it with one colour, and Image.paste, which overwrites the part of
  the canvas the source covers at a given offset and clips whatever falls
  outside. Pixels are indexed [x, y], x the column and y the row.
 */
module Raster {
  import opened Background
  import opened Geometry

  /** n copies of one pixel. */
  function Repeat(p: Pixel, n: nat): (r: seq<Pixel>)
    ensures |r| == n
    ensures forall i :: 0 <= i < n ==> r[i] == p
  {
    if n == 0 then [] else [p] + Repeat(p, n - 1)
  }

  /**
    One row of a canvas of the given width filled with bg onto which a row
    src has been pasted at column offset xOff: canvas column x shows source
    column x - xOff when there is one, and bg otherwise.
   */
  function PastedRow(src: seq<Pixel>, bg: Pixel, width: nat, xOff: int): (r: seq<Pixel>)
    ensures |r| == width
  {
    seq(width, x => if 0 <= x - xOff < |src| then src[x - xOff] else bg)
  }

  /**
    A canvas at least as wide as the source shows the left padding, then the
    whole source row unchanged, then the right padding, all padding in the
    background colour.
   */
  lemma PastedRowPads(src: seq<Pixel>, bg: Pixel, width: nat)
    requires width >= |src|
    ensures var left := XOffset(width, |src|);
      0 <= left <= width - |src| &&
      PastedRow(src, bg, width, left) == Repeat(bg, left) + src + Repeat(bg, width - |src| - left)
  {
  }

  /**
    A canvas narrower than the source shows a centred crop of it: the source
    columns from cut to cut + width, with no background at all.
   */
  lemma PastedRowCrops(src: seq<Pixel>, bg: Pixel, width: nat)
    requires width < |src|
    ensures var cut := -XOffset(width, |src|);
      0 < cut && cut + width <= |src| &&
      PastedRow(src, bg, width, -cut) == src[cut..cut + width]
  {
  }

  /** Pasting a row onto a canvas of its own width puts it at offset 0 and gives the row back. */
  lemma PastedRowSameWidth(src: seq<Pixel>, bg: Pixel)
    ensures XOffset(|src|, |src|) == 0
    ensures PastedRow(src, bg, |src|, XOffset(|src|, |src|)) == src
  {
  }

  /** A PIL image: its mode and its pixel buffer, width columns by height rows. */
  class Image {
    const mode: string
    const pixels: array2<Pixel>

    function Width(): nat
    {
      pixels.Length0
    }

    function Height(): nat
    {
      pixels.Length1
    }

    /** Row y of the image, left to right. */
    function Row(y: nat): (r: seq<Pixel>)
      requires y < Height()
      reads pixels
    {
      seq(Width(), x requires 0 <= x < Width() reads pixels => pixels[x, y])
    }

    /** Image.new(mode, (width, height), color): a fresh buffer in which every pixel is color. */
    constructor New(mode: string, width: nat, height: nat, color: Pixel)
      ensures this.mode == mode && Width() == width && Height() == height
      ensures fresh(pixels)
      ensures forall x, y :: 0 <= x < width && 0 <= y < height ==> pixels[x, y] == color
    {
      var a := new Pixel[width, height];
      var x := 0;
      while x < width
        invariant 0 <= x <= width
        invariant forall i, j :: 0 <= i < x && 0 <= j < height ==> a[i, j] == color
      {
        var y := 0;
        while y < height
          invariant 0 <= y <= height
          invariant forall i, j :: 0 <= i < x && 0 <= j < height ==> a[i, j] == color
          invariant forall j :: 0 <= j < y ==> a[x, j] == color
        {
          a[x, y] := color;
          y := y + 1;
        }
        x := x + 1;
      }
      this.mode := mode;
      pixels := a;
    }

    /**
      Image.paste(src, (xOff, yOff)) without a mask: every canvas pixel that
      the shifted source covers takes the source pixel, every other pixel
      keeps its value; source pixels falling outside the canvas are dropped.
     */
    method Paste(src: Image, xOff: int, yOff: int)
      requires src.pixels != pixels
      modifies pixels
      ensures forall x, y :: 0 <= x < Width() && 0 <= y < Height() ==>
        pixels[x, y] == (if 0 <= x - xOff < src.Width() && 0 <= y - yOff < src.Height()
                         then src.pixels[x - xOff, y - yOff] else old(pixels[x, y]))
    {
      // The clipped rectangle [x0, x1) x [y0, y1) of canvas pixels the source covers.
      var x0 := if xOff < 0 then 0 else xOff;
      var x1 := if xOff + src.Width() < Width() then xOff + src.Width() else Width();
      if x1 < x0 { x1 := x0; }
      var y0 := if yOff < 0 then 0 else yOff;
      var y1 := if yOff + src.Height() < Height() then yOff + src.Height() else Height();
      if y1 < y0 { y1 := y0; }
      var x := x0;
      while x < x1
        invariant x0 <= x <= x1
        invariant forall i, j :: 0 <= i < Width() && 0 <= j < Height() ==>
          pixels[i, j] == (if x0 <= i < x && y0 <= j < y1 then src.pixels[i - xOff, j - yOff] else old(pixels[i, j]))
      {
        var y := y0;
        while y < y1
          invariant y0 <= y <= y1
          invariant forall i, j :: 0 <= i < Width() && 0 <= j < Height() ==>
            pixels[i, j] == (if (x0 <= i < x && y0 <= j < y1) || (i == x && y0 <= j < y)
                             then src.pixels[i - xOff, j - yOff] else old(pixels[i, j]))
        {
          pixels[x, y] := src.pixels[x - xOff, y - yOff];
          y := y + 1;
        }
        x := x + 1;
      }
    }
  }

  /** An image whose pixels are those of src pasted onto bg at column offset xOff has, row by row, the pasted rows of src. */
  lemma RowsArePasted(out: Image, src: Image, bg: Pixel, xOff: int)
    requires out.Height() == src.Height()
    requires forall x, y :: 0 <= x < out.Width() && 0 <= y < out.Height() ==>
      out.pixels[x, y] == (if 0 <= x - xOff < src.Width() then src.pixels[x - xOff, y] else bg)
    ensures forall y :: 0 <= y < out.Height() ==> out.Row(y) == PastedRow(src.Row(y), bg, out.Width(), xOff)
  {
  }
}
