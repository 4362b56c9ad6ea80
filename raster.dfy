/** `Individual.generateImagePixels`: painting genes onto a black canvas.
    `Render` is the value the rasteriser computes; `GenerateImagePixels`
    computes it in place on a column-major `array2`. */
module Raster {
  import opened Pixels
  import opened Genes

  /** The clipped, inclusive rectangle the rasteriser walks. */
  datatype Box = Box(x1: int, x2: int, y1: int, y2: int)

  /** Pixel (x, y) lies in the gene's rectangle `[px..px+w] x [py..py+h]`,
      both ends included, canvas ignored. */
  predicate InRect(p: Point, x: int, y: int) {
    p.x <= x <= p.x + p.w && p.y <= y <= p.y + p.h
  }

  predicate Covers(box: Box, x: int, y: int) {
    box.x1 <= x <= box.x2 && box.y1 <= y <= box.y2
  }

  /** Clipping of the rectangle to a `w` x `h` canvas: negative origins are
      raised to 0 and far edges past the canvas lowered to `w-1` / `h-1`.
      Every covered pixel is on the canvas, and on the canvas the clipped
      box covers exactly the gene's rectangle. */
  function Clip(p: Point, w: int, h: int): (box: Box)
    ensures 0 <= box.x1 && box.x2 <= w - 1 && 0 <= box.y1 && box.y2 <= h - 1
    ensures forall x, y :: 0 <= x < w && 0 <= y < h ==> (Covers(box, x, y) <==> InRect(p, x, y))
  {
    Box(if p.x < 0 then 0 else p.x,
        if p.x + p.w >= w then w - 1 else p.x + p.w,
        if p.y < 0 then 0 else p.y,
        if p.y + p.h >= h then h - 1 else p.y + p.h)
  }

  /** The "averaging" blend: each channel becomes the floored mean of the
      old value and the gene's, clamped to 255. The gene's alpha is not read. */
  function Blend(cur: Pixel, g: Gene): (p: Pixel)
    ensures p.r == (cur.r + g.r) / 2 && p.g == (cur.g + g.g) / 2 && p.b == (cur.b + g.b) / 2
  {
    Pixel(Clamp255((cur.r + g.r) / 2), Clamp255((cur.g + g.g) / 2), Clamp255((cur.b + g.b) / 2))
  }

  function Clamp255(v: nat): Byte {
    if v > 255 then 255 else v
  }

  /** An all-black `w` x `h` canvas. */
  function BlackGrid(w: nat, h: nat): (grid: Grid)
    ensures IsGrid(grid, w, h)
    ensures forall x, y :: 0 <= x < w && 0 <= y < h ==> grid[x][y] == Black
  {
    seq(w, _ => seq(h, _ => Black))
  }

  /** One gene painted over `grid`: pixels inside its rectangle are
      blended, every other pixel is kept. */
  function Paint(grid: Grid, g: Gene, w: nat, h: nat): (r: Grid)
    requires IsGrid(grid, w, h) && Drawable(g)
    ensures IsGrid(r, w, h)
    ensures forall x, y :: 0 <= x < w && 0 <= y < h ==>
      r[x][y] == if InRect(g.points[0], x, y) then Blend(grid[x][y], g) else grid[x][y]
  {
    var box := Clip(g.points[0], w, h);
    seq(w, x requires 0 <= x < w =>
      seq(h, y requires 0 <= y < h =>
        if Covers(box, x, y) then Blend(grid[x][y], g) else grid[x][y]))
  }

  /** The rendered picture: black, then every gene painted in sequence order. */
  function Render(genes: seq<Gene>, w: nat, h: nat): (grid: Grid)
    requires AllDrawable(genes)
    ensures IsGrid(grid, w, h)
  {
    if genes == [] then BlackGrid(w, h)
    else Paint(Render(genes[..|genes| - 1], w, h), genes[|genes| - 1], w, h)
  }

  /** Rendering no genes gives the black canvas. */
  lemma RenderEmpty(w: nat, h: nat)
    ensures Render([], w, h) == BlackGrid(w, h)
  {
  }

  /** Appending a gene paints it over the picture so far. */
  lemma RenderAppend(genes: seq<Gene>, g: Gene, w: nat, h: nat)
    requires AllDrawable(genes) && Drawable(g)
    ensures AllDrawable(genes + [g])
    ensures Render(genes + [g], w, h) == Paint(Render(genes, w, h), g, w, h)
  {
    assert (genes + [g])[..|genes|] == genes;
  }

  /** A gene whose rectangle misses the canvas (entirely left, right,
      above or below it) changes nothing. */
  lemma OffCanvasGeneIsNoop(grid: Grid, g: Gene, w: nat, h: nat)
    requires IsGrid(grid, w, h) && Drawable(g)
    requires var p := g.points[0]; p.x + p.w < 0 || p.x >= w || p.y + p.h < 0 || p.y >= h
    ensures Paint(grid, g, w, h) == grid
  {
    var r := Paint(grid, g, w, h);
    forall x | 0 <= x < w
      ensures r[x] == grid[x]
    {
      forall y | 0 <= y < h
        ensures r[x][y] == grid[x][y]
      {
        assert !InRect(g.points[0], x, y);
      }
    }
  }

  /** A pixel that no gene's rectangle contains stays black. */
  lemma {:induction false} UncoveredStaysBlack(genes: seq<Gene>, w: nat, h: nat, x: nat, y: nat)
    requires AllDrawable(genes) && x < w && y < h
    requires forall i :: 0 <= i < |genes| ==> !InRect(genes[i].points[0], x, y)
    ensures Render(genes, w, h)[x][y] == Black
  {
    if genes != [] {
      UncoveredStaysBlack(genes[..|genes| - 1], w, h, x, y);
    }
  }

  /** Two genes that differ only in alpha paint the same. */
  predicate SameButAlpha(g: Gene, g': Gene) {
    g.r == g'.r && g.g == g'.g && g.b == g'.b && g.points == g'.points
  }

  /** The alpha channel of a gene is never read: genes that agree on
      everything else render identically. */
  lemma {:induction false} AlphaIgnored(genes: seq<Gene>, genes': seq<Gene>, w: nat, h: nat)
    requires AllDrawable(genes) && |genes'| == |genes|
    requires forall i :: 0 <= i < |genes| ==> SameButAlpha(genes[i], genes'[i])
    ensures AllDrawable(genes')
    ensures Render(genes, w, h) == Render(genes', w, h)
  {
    if genes != [] {
      var n := |genes| - 1;
      AlphaIgnored(genes[..n], genes'[..n], w, h);
      var prev := Render(genes[..n], w, h);
      var a := Paint(prev, genes[n], w, h);
      var b := Paint(prev, genes'[n], w, h);
      forall x | 0 <= x < w
        ensures a[x] == b[x]
      {
        assert forall y :: 0 <= y < h ==> a[x][y] == b[x][y];
      }
    }
  }

  /** `generateImagePixels(w, h)`: allocates a `w` x `h` column-major grid,
      fills it black, then blends each gene's clipped rectangle in sequence
      order. The result is the pure rendering of the genes. */
  method GenerateImagePixels(genes: seq<Gene>, w: nat, h: nat) returns (pixels: array2<Pixel>)
    requires AllDrawable(genes)
    ensures fresh(pixels)
    ensures pixels.Length0 == w && pixels.Length1 == h
    ensures forall x, y :: 0 <= x < w && 0 <= y < h ==> pixels[x, y] == Render(genes, w, h)[x][y]
  {
    pixels := new Pixel[w, h];
    // fill with black, row by row
    for i := 0 to h
      invariant forall x, y :: 0 <= x < w && 0 <= y < i ==> pixels[x, y] == Black
    {
      for j := 0 to w
        invariant forall x, y :: 0 <= x < w && 0 <= y < i ==> pixels[x, y] == Black
        invariant forall x :: 0 <= x < j ==> pixels[x, i] == Black
      {
        pixels[j, i] := Black;
      }
    }
    for i := 0 to |genes|
      invariant forall x, y :: 0 <= x < w && 0 <= y < h ==> pixels[x, y] == Render(genes[..i], w, h)[x][y]
    {
      PaintGene(pixels, genes[i], w, h, Render(genes[..i], w, h));
      assert genes[..i + 1] == genes[..i] + [genes[i]];
      RenderAppend(genes[..i], genes[i], w, h);
    }
    assert genes[..|genes|] == genes;
  }

  /** The body of the gene loop: walks the clipped rectangle row by row and
      blends every pixel in it; `prev` is the picture before this gene. */
  method PaintGene(pixels: array2<Pixel>, g: Gene, w: nat, h: nat, ghost prev: Grid)
    requires Drawable(g) && IsGrid(prev, w, h)
    requires pixels.Length0 == w && pixels.Length1 == h
    requires forall x, y :: 0 <= x < w && 0 <= y < h ==> pixels[x, y] == prev[x][y]
    modifies pixels
    ensures forall x, y :: 0 <= x < w && 0 <= y < h ==> pixels[x, y] == Paint(prev, g, w, h)[x][y]
  {
    var p := g.points[0];
    var x1, x2 := p.x, p.x + p.w;
    var y1, y2 := p.y, p.y + p.h;
    if x1 < 0 { x1 := 0; }
    if y1 < 0 { y1 := 0; }
    if x2 >= w { x2 := w - 1; }
    if y2 >= h { y2 := h - 1; }
    ghost var box := Box(x1, x2, y1, y2);
    assert box == Clip(p, w, h);
    var k := y1;
    while k <= y2
      invariant y1 <= k && (k <= y2 + 1 || k == y1)
      invariant forall x, y :: 0 <= x < w && 0 <= y < h ==>
        pixels[x, y] == if x1 <= x <= x2 && y1 <= y < k then Blend(prev[x][y], g) else prev[x][y]
    {
      BlendRow(pixels, g, w, h, prev, x1, x2, y1, k);
      k := k + 1;
    }
  }

  /** The inner loop of the gene loop: blends row `k` from `x1` to `x2`,
      given that rows `[y1, k)` of the clipped box are already blended. */
  method BlendRow(pixels: array2<Pixel>, g: Gene, w: nat, h: nat, ghost prev: Grid, x1: int, x2: int, y1: int, k: int)
    requires IsGrid(prev, w, h) && pixels.Length0 == w && pixels.Length1 == h
    requires 0 <= x1 && x2 < w && y1 <= k && 0 <= k < h
    requires forall x, y :: 0 <= x < w && 0 <= y < h ==>
      pixels[x, y] == if x1 <= x <= x2 && y1 <= y < k then Blend(prev[x][y], g) else prev[x][y]
    modifies pixels
    ensures forall x, y :: 0 <= x < w && 0 <= y < h ==>
      pixels[x, y] == if x1 <= x <= x2 && y1 <= y < k + 1 then Blend(prev[x][y], g) else prev[x][y]
  {
    var j := x1;
    while j <= x2
      invariant x1 <= j && (j <= x2 + 1 || j == x1)
      invariant forall x, y :: 0 <= x < w && 0 <= y < h ==>
        pixels[x, y] == if x1 <= x <= x2 && (y1 <= y < k || (y == k && x < j)) then Blend(prev[x][y], g) else prev[x][y]
    {
      var current := pixels[j, k];
      var newr := (current.r + g.r) / 2;
      var newg := (current.g + g.g) / 2;
      var newb := (current.b + g.b) / 2;
      if newr > 255 { newr := 255; }
      if newg > 255 { newg := 255; }
      if newb > 255 { newb := 255; }
      pixels[j, k] := Pixel(newr, newg, newb);
      j := j + 1;
    }
  }
}
