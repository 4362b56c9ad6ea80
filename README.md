# mona: a verified model of the genetic-algorithm core

`mona.go` evolves a population of individuals toward a reference picture.
Each individual is a sequence of genes, and each gene is a coloured
rectangle. One generation does four things:

1. It breeds the fit half of the population into a new front of the
   population. This step is skipped in the first generation.
2. It scores every individual. The individual's genes are rasterised onto a
   black canvas and the result is compared pixel by pixel with the
   reference.
3. It sorts the population by descending fitness.
4. It reports the average fitness. A snapshot is taken whenever the top
   fitness beats the best score so far.

This project models that core in Dafny. Every random draw is an input whose
range is that of the `rand.Intn(n)` call that makes it, i.e. `[0, n)`.

Modules, in dependency order:

- `Pixels`: 8-bit channels, RGB pixels, column-major grids `grid[x][y]`, and
  the per-pixel difference `|Δr| + |Δg| + |Δb|`.
- `Genes`: points, genes, individuals, and the draws `randomGene` consumes.
  This module also holds `randomGene` and `randomIndividual`.
- `Raster`: the rasteriser `generateImagePixels`.
  - `Render` is the picture as a value.
  - `GenerateImagePixels` builds it in place in an `array2`, using the
    program's loops, clipping and clamps.
- `Arith`: facts about division and multiplication by a positive number.
- `Fitness`: `calculateFitness`, and the fitness pass over the whole
  population.
- `Breeding`: `makeChild`, `breed` and `massiveMutate`, working on an
  `array` population.
- `Selection`: the `ByFitness` order, the sort, the average, and the
  best-score update.
- `Evolution`: the initial population, one generation, and the generation
  loop of `main`.

Each method that changes state, except the sort, is proved against a
specification function of the old state, for example `Render`, `Bred`, `MassMutated` or
`Evaluated`. The properties the program relies on are then proved about
those functions. The sort (`Selection.SortByFitness`, with its `Insert`
and `Swap` steps) is proved instead to leave the population sorted and a
permutation of itself; `Swap` states its exchange of two slots outright.

Where the code's intent and its code differ, the model follows the code:

- A 2 × 2 pure red reference scored against an individual with no genes gets
  fitness 6666. Both the program's truncating `int(float32 …)` and the
  integer stand-in give 6666, not a rounded 6667 (`Fitness.RedSquareScenario`).
- `makeChild` takes a draw `c` in `[0, 99)`. Values 0–49 inherit the dad's
  gene (50 outcomes). The value 50 makes a fresh gene (1 outcome). Values
  51–98 inherit the mum's gene (48 outcomes).
- `breed` draws each dad from `[0, n/2 - 1)`. The last member of the fit
  half is therefore never a dad. For a population of 2 or 3 the draw
  `rand.Intn(0)` panics.
- `massiveMutate` is never called from `main`. It leaves each regenerated
  individual's fitness as it was, which is now stale.

## Model

| member | source | states |
|---|---|---|
| Pixels.ChannelDiff | mona.go:96-110 | The larger-minus-smaller channel difference is the absolute difference. It is at most 255, and it is zero exactly when the channels are equal. |
| Pixels.PixelDiff | mona.go:84-112 | A pixel's difference lies in [0, 765] and is zero exactly when the two pixels are equal. |
| Pixels.PixelDiffSymmetric | mona.go:84-112 | The pixel difference does not depend on which pixel is the original. |
| Genes.RandomGene | mona.go:53-61 | A gene made from valid draws has channels in [0,254] and alpha in [128,254]. It has exactly one point, in [-20,maxX-1] × [-20,maxY-1], with extent in [0,14]. |
| Genes.DrawOfRandomGene | mona.go:53-61 | The draws are recovered from the gene they make, so distinct draws give distinct genes. |
| Genes.RandomGeneOnto | mona.go:53-61 | Every gene in that range is made by valid draws, so the range is exactly what randomGene produces. |
| Genes.GenesFrom | mona.go:63-70 | One gene per draw, every gene in the generator's range, all drawable. |
| Genes.RandomIndividual | mona.go:63-70 | The append loop yields exactly `n` genes (none when `n <= 0`): the genes of the draws, in order. |
| Raster.Clip | mona.go:152-171 | The clipped box lies on the canvas. On the canvas it covers exactly the gene's inclusive rectangle `[px..px+w] × [py..py+h]`. |
| Raster.Blend | mona.go:177-188 | Each channel becomes the floored mean of old and gene value, so the clamps to 255 never fire. |
| Raster.BlackGrid | mona.go:132-142 | The canvas is `x` columns of `y` rows, all black. |
| Raster.Paint | mona.go:144-191 | One gene blends exactly the canvas pixels inside its rectangle and leaves every other pixel unchanged. |
| Raster.Render | mona.go:130-195 | The rendering of any drawable genes is a `w` × `h` grid. |
| Raster.RenderEmpty | mona.go:137-142 | With no genes the rendering is the black canvas. |
| Raster.RenderAppend | mona.go:144-193 | Genes are applied in sequence order: a gene added at the end is painted over the picture of the earlier genes. |
| Raster.OffCanvasGeneIsNoop | mona.go:152-175 | A gene whose rectangle lies wholly left of, right of, above or below the canvas changes nothing. |
| Raster.UncoveredStaysBlack | mona.go:137-193 | A pixel that no gene's rectangle contains stays black. |
| Raster.AlphaIgnored | mona.go:146-149 | Genes that differ only in alpha render identically: alpha is never read. |
| Raster.GenerateImagePixels | mona.go:130-195 | The in-place fill and paint loops produce a fresh `w` × `h` array equal, pixel by pixel, to `Render` of the genes. |
| Raster.PaintGene | mona.go:144-192 | One iteration of the gene loop turns the array holding the previous picture into `Paint` of it. |
| Raster.BlendRow | mona.go:173-190 | The inner loop blends row `k` of the clipped box and touches nothing else. |
| Fitness.MaxDiff | mona.go:77 | `maxDiff = W*H*765`, the worst possible total difference; `Fitness.TotalDiff` is bounded by it. |
| Fitness.RowDiff | mona.go:82-112 | The difference summed over `n` columns of a row is at most `n * 765`. |
| Fitness.RowsDiff | mona.go:81-118 | The difference summed over `m` full rows is at most `w * m * 765`. |
| Fitness.TotalDiff | mona.go:77-118 | `totalDiff <= maxDiff = W*H*765`, so `maxDiff - totalDiff` cannot underflow. |
| Fitness.Score | mona.go:121 | The scaled fitness lies in [0, 10000]. It is 10000 exactly when `totalDiff` is 0, and 0 when `totalDiff == maxDiff`. |
| Fitness.ScoreMonotone | mona.go:121 | A smaller total difference never scores lower. |
| Fitness.FitnessOf | mona.go:72-124 | An individual's fitness lies in [0, 10000]. |
| Fitness.RowsDiffSymmetric | mona.go:81-118 | The summed difference is symmetric in the two grids. |
| Fitness.RowDiffSymmetric | mona.go:82-112 | The difference over a row is symmetric in the two grids. |
| Fitness.RowDiffZero | mona.go:82-112 | The difference over a row prefix is zero exactly when the grids agree on it. |
| Fitness.RowsDiffZero | mona.go:81-118 | The difference over a set of rows is zero exactly when the grids agree on those rows. |
| Fitness.TotalDiffZeroIffEqual | mona.go:79-118 | `totalDiff` is 0 exactly when the two grids are identical. |
| Fitness.PerfectScoreIffExactRender | mona.go:72-124 | Fitness is 10000 exactly when the individual renders to the reference picture. |
| Fitness.RedSquareScenario | mona.go:77-121 | A 2 × 2 red reference scored against no genes gives fitness 6666. |
| Fitness.CalculateFitness | mona.go:72-124 | Rendering, then the row-by-row accumulation, then scaling gives `FitnessOf` the genes, which is in [0, 10000]. |
| Fitness.Evaluated | mona.go:322-329 | Evaluation keeps every individual's genes and gives each a fitness in [0, 10000]. |
| Fitness.EvaluateFitness | mona.go:322-329 | The fitness pass recomputes every individual's fitness from its genes in place and changes nothing else. |
| Breeding.OriginOf | mona.go:244-251 | The three-way branch on `c`: dad for `c <= 49`, a fresh gene for `c == 50`, mum for `c >= 51`. |
| Breeding.DrawsBelowSize | mona.go:244-251 | Counts how many draws below `n` pick each origin. |
| Breeding.OriginDistribution | mona.go:244-251 | Of the 99 outcomes of `rand.Intn(99)`, 50 inherit from dad, 1 makes a fresh gene and 48 inherit from mum. |
| Breeding.Child | mona.go:239-254 | A child has exactly as many genes as its mum, and fitness 0. |
| Breeding.ChildGenesFromParents | mona.go:243-252 | Every gene of a child is its mum's at that index, its dad's at that index, or a fresh gene in the generator's range. |
| Breeding.SelfCrossIsCopy | mona.go:243-252 | Crossing an individual with itself, with no fresh draw, reproduces its genes. |
| Breeding.ChildDrawable | mona.go:243-252 | Children of drawable parents are drawable. |
| Breeding.MakeChild | mona.go:239-254 | The index loop over a fresh gene array builds exactly `Child`, with `len(mum.genes)` genes. |
| Breeding.BreedNeedsFour | mona.go:221-223 | Dad draws exist only for populations of fewer than 2 or at least 4 individuals. |
| Breeding.Bred | mona.go:219-229 | Breeding keeps the population length. |
| Breeding.BredParents | mona.go:221-228 | Slots `2i` and `2i+1` hold children of mum `old[i]` (`i < n/2`) and a dad index in `[0, n/2-2]`. A last odd slot is left untouched. |
| Breeding.BredWellFormed | mona.go:219-229 | Breeding keeps every individual's gene count and keeps all genes drawable. |
| Breeding.MakeChildren | mona.go:220-224 | The first loop appends, for every mum index, two children built from the pre-breed population. |
| Breeding.Breed | mona.go:219-229 | After the copy loop the population is `Bred` of the old population. |
| Breeding.MassMutated | mona.go:231-237 | Mass mutation keeps the population length. |
| Breeding.MassMutatedWellFormed | mona.go:231-237 | Mass mutation keeps every gene count. Every gene of a regenerated individual is in the generator's range. |
| Breeding.MassMutateSpares | mona.go:231-237 | The last individual is never regenerated, and with 4 or more individuals neither is index 0. With 2 or 3 individuals, index 0 is regenerated. |
| Breeding.MassiveMutate | mona.go:231-237 | Regenerating genes in place yields `MassMutated`. Individuals outside `[n/4, n-1)` are unchanged. |
| Selection.Less | mona.go:51 | `ByFitness.Less(i, j)`: individual `i` is strictly fitter than `j`. |
| Selection.LessIsStrictWeakOrder | mona.go:47-51 | `Less(i, j)` (strictly fitter) is irreflexive and transitive, and incomparability is transitive: the order `sort.Sort` needs. |
| Selection.Swap | mona.go:50 | Exchanges two slots and keeps the population's multiset. |
| Selection.SortByFitness | mona.go:331 | The population ends sorted by descending fitness, as a permutation of itself. |
| Selection.SortedMeansNoLessInversion | mona.go:47-51 | Sorted by descending fitness is exactly: no individual is `Less` than one before it. |
| Selection.SortedHeadIsFittest | mona.go:331 | After sorting, `population[0]` has maximal fitness. |
| Selection.SumFitness | mona.go:333-336 | `totalFitness`, the sum of all fitness values; `Selection.AverageFitness` is proved to compute it. |
| Selection.GoDiv | mona.go:338 | Go's truncating integer quotient: for a non-negative numerator it is the floor of the quotient, and for a negative one the ceiling. |
| Selection.AverageFitness | mona.go:333-338 | The summation loop gives the average `sum / len` with Go's integer division. |
| Selection.SumFitnessBounds | mona.go:333-336 | Fitness values in `[lo, hi]` sum to between `n*lo` and `n*hi`. |
| Selection.AverageAtMostBest | mona.go:333-341 | For a sorted population with fitness in [0, 10000], the reported average lies between 0 and the best fitness. |
| Selection.UpdateBest | mona.go:343-352 | A snapshot is taken exactly when the top fitness exceeds `bestScore`. The new best is the larger of the two. |
| Selection.BestAfter | mona.go:310-345 | The best score after generations with the given top fitness values, starting from 0; `Selection.BestAfterIsMax` characterises it. |
| Selection.BestAfterIsMax | mona.go:310-355 | The best score is the running maximum of 0 and every generation's top fitness. |
| Selection.BestNeverDecreases | mona.go:343-345 | The best score never decreases from one generation to a later one. |
| Evolution.InitialPopulation | mona.go:296-300 | `size` individuals, each holding the genes of its draws with fitness 0, all with the same gene count. |
| Evolution.Prepared | mona.go:316-329 | After breeding and evaluation, gene counts are kept and every fitness lies in [0, 10000]. |
| Evolution.Generation | mona.go:312-355 | One generation is described by the following facts. (1) The population ends as a sorted permutation of the bred and evaluated population. (2) The best-score and snapshot decision is `UpdateBest` with the top fitness. (3) The average is `sum / len` and lies between 0 and the top fitness. |
| Evolution.GenerationStep | mona.go:312-331 | What one generation does to the population: the result is a sorted permutation of the bred (from generation 1 on) and evaluated population. |
| Evolution.History | mona.go:312-355 | The record of a run: each generation's sorted population is made from the previous one by `GenerationStep`, and its top fitness is recorded. |
| Evolution.HistoryAppend | mona.go:312-355 | Recording one more generation extends a run's history. |
| Evolution.RecordGeneration | mona.go:312-355 | One turn of the generation loop: runs the generation, extends the history with the sorted population and updates the best score by it. |
| Evolution.Run | mona.go:310-355 | The history ties each generation's population to the one before it, starting from the initial population. The population ends as the last recorded one. The final best score is the running maximum of 0 and the recorded top fitness values, and it lies in [0, 10000]. |
| Evolution.BestAfterAppend | mona.go:343-345 | One more generation updates the best score by `UpdateBest` with its top fitness. |

## Left out

- The `worker` goroutines and the `jobs`/`results` channels are not modelled. Fitness evaluation is the sequential pass `Fitness.EvaluateFitness`. Each worker writes only fields of its own index (`fitness`, `pixels` and `img`), so the outcome is the same.
- File and image I/O is not modelled: opening and decoding the JPEG, the `RGBA()/257` conversion, creating and encoding `best.png`, `generateActualImage` and `deleteImage`. The reference picture is a parameter. A snapshot is the boolean `snapshot`.
- The `pixels` and `img` fields of an individual are not part of the `Individual` value. `Fitness.CalculateFitness` renders into a fresh array and returns only the fitness.
- `math/rand` seeding, `time`, `fmt.Printf` and `runtime.GOMAXPROCS` are not modelled. Every draw is an input in the range of its `rand.Intn` call.
- Fitness.Score: the `float32` division and the truncation to `int` are replaced by the integer `(10000 * (maxDiff - totalDiff)) / maxDiff`. Float rounding can make the program's value differ from this by one on some inputs. On some canvases with `maxDiff` above 2^24, `float32` rounds `maxDiff - 1` to `maxDiff`. For example, a 300 × 400 canvas has `maxDiff = 91800000`. With `totalDiff = 1` the program reports 10000, where the stand-in gives 9999. So "10000 exactly when `totalDiff` is 0" (`Fitness.Score`, `Fitness.PerfectScoreIffExactRender`) holds for the stand-in but fails for the program on some such canvases.
- Fitness.CalculateFitness: requires a canvas of at least 1 × 1. On a canvas with zero width or zero height, `maxDiff` is 0 and the program divides 0 by 0 in floating point.
- Inputs on which the program panics are excluded by preconditions rather than modelled as errors:
  - `breed` on 2 or 3 individuals, where `rand.Intn(0)` panics, so `Breeding.BreedDrawsFit` cannot hold;
  - an empty population in `Selection.AverageFitness` and `Evolution.Generation`, where the division by `len(population)` and the read of `population[0]` panic;
  - a canvas with `maxX + 20 <= 0` or `maxY + 20 <= 0`, where `rand.Intn` panics in `randomGene`, so `Genes.ValidDraw` cannot hold;
  - a gene with no points, where reading `points[0]` in the rasteriser panics. `Raster.Paint` and `Raster.Render` require `Drawable`. No such gene arises: `randomGene` always sets exactly one point, and `makeChild` fills every position with a mum, dad or fresh gene.
- Fitness.CalculateFitness: assumes the image bounds start at (0, 0). Integer widths are unbounded, so an overflow of `uint64` `maxDiff` on an enormous canvas is not modelled.
- Selection.SortByFitness: only the result of `sort.Sort` is claimed, a descending permutation. The insertion sort is one implementation of it. The relative order of equally fit individuals is not specified, as in `sort.Sort`.
- Breeding.MakeChild: requires the dad to have a gene only at the indices where it is chosen. That is what the code indexes, and it is weaker than requiring the dad to have at least as many genes as the mum.
