/** `Individual.calculateFitness`: the summed per-pixel difference between
    an individual's rendering and the reference picture, scaled to
    [0, 10000]. The `float32` scaling of the program is replaced by the
    integer `(10000 * (maxDiff - totalDiff)) / maxDiff`. */
module Fitness {
  import opened Pixels
  import opened Genes
  import opened Raster
  import opened Arith

  /** The worst possible total difference on a `w` x `h` canvas. */
  function MaxDiff(w: nat, h: nat): nat {
    w * h * MaxPixelDiff
  }

  /** Difference summed over columns `[0, n)` of row `y`. */
  function RowDiff(a: Grid, b: Grid, w: nat, h: nat, y: nat, n: nat): (d: nat)
    requires IsGrid(a, w, h) && IsGrid(b, w, h) && y < h && n <= w
    ensures d <= n * MaxPixelDiff
  {
    if n == 0 then 0 else RowDiff(a, b, w, h, y, n - 1) + PixelDiff(a[n - 1][y], b[n - 1][y])
  }

  /** Difference summed over rows `[0, m)`, each row over all columns. */
  function RowsDiff(a: Grid, b: Grid, w: nat, h: nat, m: nat): (d: nat)
    requires IsGrid(a, w, h) && IsGrid(b, w, h) && m <= h
    ensures d <= w * m * MaxPixelDiff
  {
    if m == 0 then 0
    else
      var d := RowsDiff(a, b, w, h, m - 1) + RowDiff(a, b, w, h, m - 1, w);
      assert w * m * MaxPixelDiff == w * (m - 1) * MaxPixelDiff + w * MaxPixelDiff;
      d
  }

  /** `totalDiff`: the difference summed over the whole canvas. It never
      exceeds `maxDiff`, so `maxDiff - totalDiff` cannot underflow. */
  function TotalDiff(a: Grid, b: Grid, w: nat, h: nat): (d: nat)
    requires IsGrid(a, w, h) && IsGrid(b, w, h)
    ensures d <= MaxDiff(w, h)
  {
    RowsDiff(a, b, w, h, h)
  }

  /** The integer stand-in for the final scaling. */
  function Score(totalDiff: nat, maxDiff: nat): (fitness: int)
    requires 0 < maxDiff && totalDiff <= maxDiff
    ensures 0 <= fitness <= 10000
    ensures fitness == 10000 <==> totalDiff == 0
    ensures totalDiff == maxDiff ==> fitness == 0
  {
    var n := 10000 * (maxDiff - totalDiff);
    QuotientBelow(n, maxDiff, 10000);
    if totalDiff == 0 then
      QuotientOfMultiple(10000, maxDiff);
      n / maxDiff
    else
      assert n < 10000 * maxDiff;
      n / maxDiff
  }

  /** A smaller difference never scores lower. */
  lemma ScoreMonotone(t1: nat, t2: nat, maxDiff: nat)
    requires 0 < maxDiff && t1 <= t2 <= maxDiff
    ensures Score(t1, maxDiff) >= Score(t2, maxDiff)
  {
    var a, b := 10000 * (maxDiff - t1), 10000 * (maxDiff - t2);
    Quotient(a, maxDiff);
    Quotient(b, maxDiff);
    MulMonotone(b / maxDiff, a / maxDiff + 1, maxDiff);
  }

  /** The fitness of a gene sequence against a `w` x `h` reference. */
  function FitnessOf(genes: seq<Gene>, original: Grid, w: nat, h: nat): (fitness: int)
    requires AllDrawable(genes) && IsGrid(original, w, h) && 0 < w && 0 < h
    ensures 0 <= fitness <= 10000
  {
    Score(TotalDiff(original, Render(genes, w, h), w, h), MaxDiff(w, h))
  }

  /** The difference does not depend on which grid is the reference. */
  lemma {:induction false} RowsDiffSymmetric(a: Grid, b: Grid, w: nat, h: nat, m: nat)
    requires IsGrid(a, w, h) && IsGrid(b, w, h) && m <= h
    ensures RowsDiff(a, b, w, h, m) == RowsDiff(b, a, w, h, m)
  {
    if m > 0 {
      RowsDiffSymmetric(a, b, w, h, m - 1);
      RowDiffSymmetric(a, b, w, h, m - 1, w);
    }
  }

  lemma {:induction false} RowDiffSymmetric(a: Grid, b: Grid, w: nat, h: nat, y: nat, n: nat)
    requires IsGrid(a, w, h) && IsGrid(b, w, h) && y < h && n <= w
    ensures RowDiff(a, b, w, h, y, n) == RowDiff(b, a, w, h, y, n)
  {
    if n > 0 {
      RowDiffSymmetric(a, b, w, h, y, n - 1);
      PixelDiffSymmetric(a[n - 1][y], b[n - 1][y]);
    }
  }

  lemma {:induction false} RowDiffZero(a: Grid, b: Grid, w: nat, h: nat, y: nat, n: nat)
    requires IsGrid(a, w, h) && IsGrid(b, w, h) && y < h && n <= w
    ensures RowDiff(a, b, w, h, y, n) == 0 <==> forall x :: 0 <= x < n ==> a[x][y] == b[x][y]
  {
    if n > 0 {
      RowDiffZero(a, b, w, h, y, n - 1);
    }
  }

  lemma {:induction false} RowsDiffZero(a: Grid, b: Grid, w: nat, h: nat, m: nat)
    requires IsGrid(a, w, h) && IsGrid(b, w, h) && m <= h
    ensures RowsDiff(a, b, w, h, m) == 0 <==> forall x, y :: 0 <= x < w && 0 <= y < m ==> a[x][y] == b[x][y]
  {
    if m > 0 {
      RowsDiffZero(a, b, w, h, m - 1);
      RowDiffZero(a, b, w, h, m - 1, w);
    }
  }

  /** The total difference is zero exactly when the two grids are identical. */
  lemma TotalDiffZeroIffEqual(a: Grid, b: Grid, w: nat, h: nat)
    requires IsGrid(a, w, h) && IsGrid(b, w, h)
    ensures TotalDiff(a, b, w, h) == 0 <==> a == b
  {
    RowsDiffZero(a, b, w, h, h);
    if forall x, y :: 0 <= x < w && 0 <= y < h ==> a[x][y] == b[x][y] {
      forall x | 0 <= x < w
        ensures a[x] == b[x]
      {
        assert forall y :: 0 <= y < h ==> a[x][y] == b[x][y];
      }
    }
  }

  /** An individual scores 10000 exactly when it renders to the reference. */
  lemma PerfectScoreIffExactRender(genes: seq<Gene>, original: Grid, w: nat, h: nat)
    requires AllDrawable(genes) && IsGrid(original, w, h) && 0 < w && 0 < h
    ensures FitnessOf(genes, original, w, h) == 10000 <==> Render(genes, w, h) == original
  {
    TotalDiffZeroIffEqual(original, Render(genes, w, h), w, h);
  }

  /** A 2 x 2 pure red reference against an individual with no genes (a
      black rendering): each pixel differs by 255, so the fitness is
      10000 * 2040 / 3060 truncated, 6666. */
  lemma RedSquareScenario()
    ensures var red := Pixel(255, 0, 0);
      var original := [[red, red], [red, red]];
      IsGrid(original, 2, 2) && FitnessOf([], original, 2, 2) == 6666
  {
    var red := Pixel(255, 0, 0);
    var original := [[red, red], [red, red]];
    var black := Render([], 2, 2);
    assert black == BlackGrid(2, 2);
    assert RowDiff(original, black, 2, 2, 0, 2) == 510;
    assert RowDiff(original, black, 2, 2, 1, 2) == 510;
    assert RowsDiff(original, black, 2, 2, 1) == 510;
    assert TotalDiff(original, black, 2, 2) == 1020;
  }

  /** `calculateFitness`: renders the genes, sums the differences row by
      row against the reference, and scales the sum. */
  method CalculateFitness(genes: seq<Gene>, original: Grid, w: nat, h: nat) returns (fitness: int)
    requires AllDrawable(genes) && IsGrid(original, w, h) && 0 < w && 0 < h
    ensures fitness == FitnessOf(genes, original, w, h)
    ensures 0 <= fitness <= 10000
  {
    var pixels := GenerateImagePixels(genes, w, h);
    ghost var rendered := Render(genes, w, h);
    var maxDiff := MaxDiff(w, h);
    var totalDiff := 0;
    for y := 0 to h
      invariant totalDiff == RowsDiff(original, rendered, w, h, y)
    {
      for x := 0 to w
        invariant totalDiff == RowsDiff(original, rendered, w, h, y) + RowDiff(original, rendered, w, h, y, x)
      {
        var o := original[x][y];
        var n := pixels[x, y];
        assert n == rendered[x][y];
        totalDiff := totalDiff + PixelDiff(o, n);
      }
    }
    assert totalDiff == TotalDiff(original, rendered, w, h);
    fitness := (10000 * (maxDiff - totalDiff)) / maxDiff;
  }

  /** Every individual with its fitness recomputed from its genes. */
  function Evaluated(pop: seq<Individual>, original: Grid, w: nat, h: nat): (r: seq<Individual>)
    requires IsGrid(original, w, h) && 0 < w && 0 < h
    requires forall i :: 0 <= i < |pop| ==> AllDrawable(pop[i].genes)
    ensures |r| == |pop|
    ensures forall i :: 0 <= i < |r| ==> r[i].genes == pop[i].genes && 0 <= r[i].fitness <= 10000
  {
    seq(|pop|, i requires 0 <= i < |pop| => pop[i].(fitness := FitnessOf(pop[i].genes, original, w, h)))
  }

  /** The fitness pass over the population, run sequentially in place of
      the worker pool: every individual's fitness is recomputed from its
      genes and nothing else changes. */
  method EvaluateFitness(population: array<Individual>, original: Grid, w: nat, h: nat)
    requires IsGrid(original, w, h) && 0 < w && 0 < h
    requires forall i :: 0 <= i < population.Length ==> AllDrawable(population[i].genes)
    modifies population
    ensures population[..] == Evaluated(old(population[..]), original, w, h)
  {
    ghost var pop := population[..];
    ghost var evaluated := Evaluated(pop, original, w, h);
    for i := 0 to population.Length
      invariant forall k :: 0 <= k < i ==> population[k] == evaluated[k]
      invariant forall k :: i <= k < population.Length ==> population[k] == pop[k]
    {
      var individual := population[i];
      assert individual == pop[i];
      var f := CalculateFitness(individual.genes, original, w, h);
      population[i] := individual.(fitness := f);
    }
    assert population[..] == evaluated;
  }
}
