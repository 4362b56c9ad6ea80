/** Genes, individuals and the random generation of both. Every
    `rand.Intn(n)` of the program is an injected draw in `[0, n)`. */
module Genes {
  import opened Pixels

  /** A rectangle anchor: top-left corner and extent (inclusive of both ends when drawn). */
  datatype Point = Point(x: int, y: int, w: int, h: int)

  /** One drawable primitive. Only `points[0]` is ever drawn. */
  datatype Gene = Gene(r: Byte, g: Byte, b: Byte, a: Byte, points: seq<Point>)

  /** A candidate: its genes and the fitness last computed for it. The
      transient pixel buffer and image handle are not part of the value. */
  datatype Individual = Individual(genes: seq<Gene>, fitness: int)

  /** The rasteriser reads `points[0]` of every gene. */
  predicate Drawable(g: Gene) {
    |g.points| > 0
  }

  predicate AllDrawable(genes: seq<Gene>) {
    forall i :: 0 <= i < |genes| ==> Drawable(genes[i])
  }

  /** The eight draws `randomGene` makes, in the order it makes them, as
      the raw values `rand.Intn` returns. */
  datatype GeneDraw = GeneDraw(r: int, g: int, b: int, a: int, x: int, y: int, w: int, h: int)

  /** Each draw lies in the range of the `rand.Intn` call that made it. */
  predicate ValidDraw(d: GeneDraw, maxX: int, maxY: int) {
    0 <= d.r < 255 && 0 <= d.g < 255 && 0 <= d.b < 255 && 0 <= d.a < 127 &&
    0 <= d.x < maxX + 20 && 0 <= d.y < maxY + 20 && 0 <= d.w < 15 && 0 <= d.h < 15
  }

  predicate ValidDraws(ds: seq<GeneDraw>, maxX: int, maxY: int) {
    forall i :: 0 <= i < |ds| ==> ValidDraw(ds[i], maxX, maxY)
  }

  /** The genes `randomGene` can produce on a `maxX` x `maxY` canvas:
      colour channels in [0,254], alpha in [128,254], exactly one point
      anchored in [-20,maxX-1] x [-20,maxY-1] with extent in [0,14]. */
  predicate InGeneRange(g: Gene, maxX: int, maxY: int) {
    g.r <= 254 && g.g <= 254 && g.b <= 254 && 128 <= g.a <= 254 &&
    |g.points| == 1 &&
    -20 <= g.points[0].x <= maxX - 1 && -20 <= g.points[0].y <= maxY - 1 &&
    0 <= g.points[0].w <= 14 && 0 <= g.points[0].h <= 14
  }

  /** `Gene.randomGene`: the gene made from one set of draws. */
  function RandomGene(d: GeneDraw, maxX: int, maxY: int): (g: Gene)
    requires ValidDraw(d, maxX, maxY)
    ensures InGeneRange(g, maxX, maxY)
    ensures Drawable(g)
  {
    Gene(d.r, d.g, d.b, d.a + 128, [Point(d.x - 20, d.y - 20, d.w, d.h)])
  }

  /** The draws that produce a given gene: the inverse of RandomGene. */
  function DrawOf(g: Gene): GeneDraw
    requires |g.points| > 0
  {
    var p := g.points[0];
    GeneDraw(g.r, g.g, g.b, g.a - 128, p.x + 20, p.y + 20, p.w, p.h)
  }

  /** Every set of draws is recovered from its gene, so distinct draws give
      distinct genes. */
  lemma DrawOfRandomGene(d: GeneDraw, maxX: int, maxY: int)
    requires ValidDraw(d, maxX, maxY)
    ensures DrawOf(RandomGene(d, maxX, maxY)) == d
  {
  }

  /** Every gene in the generator's range is produced by exactly the draws
      DrawOf gives it: RandomGene maps the valid draws onto that range. */
  lemma RandomGeneOnto(g: Gene, maxX: int, maxY: int)
    requires InGeneRange(g, maxX, maxY)
    ensures ValidDraw(DrawOf(g), maxX, maxY)
    ensures RandomGene(DrawOf(g), maxX, maxY) == g
  {
    assert [g.points[0]] == g.points;
  }

  /** The genes built from a sequence of draws, one gene per draw. */
  function GenesFrom(ds: seq<GeneDraw>, maxX: int, maxY: int): (genes: seq<Gene>)
    requires ValidDraws(ds, maxX, maxY)
    ensures |genes| == |ds|
    ensures forall i :: 0 <= i < |genes| ==> InGeneRange(genes[i], maxX, maxY)
    ensures AllDrawable(genes)
  {
    seq(|ds|, i requires 0 <= i < |ds| => RandomGene(ds[i], maxX, maxY))
  }

  /** `Individual.randomIndividual`: appends `n` fresh genes, one per draw. */
  method RandomIndividual(n: int, maxX: int, maxY: int, ds: seq<GeneDraw>) returns (genes: seq<Gene>)
    requires |ds| == if n > 0 then n else 0
    requires ValidDraws(ds, maxX, maxY)
    ensures genes == GenesFrom(ds, maxX, maxY)
    ensures |genes| == |ds|
  {
    genes := [];
    var i := 0;
    while i < n
      invariant 0 <= i <= |ds|
      invariant i > 0 ==> i <= n
      invariant genes == GenesFrom(ds[..i], maxX, maxY)
    {
      var gene := RandomGene(ds[i], maxX, maxY);
      genes := genes + [gene];
      assert ds[..i + 1] == ds[..i] + [ds[i]];
      i := i + 1;
    }
    assert ds[..i] == ds;
  }
}
