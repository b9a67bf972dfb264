# Chromapath colour analyser, modelled in Dafny

Chromapath extracts dominant colours from images. It clusters pixels with
K-means and reports each cluster as a share of the pixels. It counts how
often pairs of colours occur together across a folder of images. It draws
colour cards and colour-relationship networks, and it evolves colour schemes
with a genetic algorithm scored by a person. This project models the
analytical engine and the integer and parsing parts of the two
visualization helpers. It proves what each operation computes.

One Dafny module per source file, plus three shared modules:

| module | file | models |
|---|---|---|
| `Genetic` | genetic.dfy | `GeneticColorOptimizer` as a class with `population`, `scores`, `generation` and the two fitness histories: construction, `apply_scheme`, `set_scores`, `evolve`, roulette selection, two-point crossover, the offspring loop, the mutation loop, `get_best_scheme` |
| `Cooccurrence` | cooccurrence.dfy | `is_color_present`, the early-return loop of `are_colors_present`, and the counting loop of `analyze_folder` over a 2-D count array, with its normalisation |
| `Clustering` | clustering.dfy | the percentages of `fit`, the descending reorder of `fit_sorted`, `cluster_multiple_images` |
| `ImageProcessor` | image_processor.dfy | the gray filter, `extract_pixels`, the extension filter and sort of `get_image_files` / `get_image_filenames` |
| `ColorExtractor` | color_extractor.dfy | `extract_from_image`, and the loops of `extract_from_folder` and `extract_per_image` with their skipping and progress reports |
| `ColorCard` | color_card.dfy | the stripe widths and the in-place stripe fill of `create_card`; the lines of `format_color_data` |
| `NetworkPlot` | network_plot.dfy | the edge loop of `NetworkPlotter.plot`, `parse_color_input`, `parse_matrix_input` |
| `Common` | common.dfy | colours, errors, `Result`/`Option`, sums, `max`, `int()` truncation, clamping, stacking of pixel lists |
| `Text` | text.dfy | `str.split()`, `split('\n')`, `strip()`, `lower()`, `str(int)`, `int()` and `float()` of tokens |
| `Sorting` | sorting.dfy | `sorted` on strings, `argsort(-weights)` on (item, weight) pairs, `zip` |

Everything the program takes from outside is a parameter:
- the K-means partition: a function from pixels to labels and centres, required to give one label per pixel and k centres whenever K-means runs (at least one cluster, at least one restart, and no more clusters than pixels);
- the decoded image or load failure for each file;
- the directory listing, or its absence;
- every value `random` draws: parent indices, cut points, mutation indices, mutation factors and the initial orderings;
- the percentage formatter.

Progress callbacks become returned traces of their calls. A Python exception
becomes an `Err` of the `Result` datatype. Floats are exact reals, and
`int()` of a float is truncation toward zero.

Five behaviours of the code shape the model:
- `analyze_folder` divides by the number of image files, including files that
  failed to load, not by the number of images processed (`AllUnreadable`);
- `fit` raises `ValueError` from K-means when it asks for no cluster or for
  more clusters than there are pixels. `extract_from_image`,
  `extract_from_folder` and `cluster_multiple_images` let it escape, and
  `extract_per_image` skips that file (`PerImageSkips`);
- `fit_sorted`, `create_card` and `format_color_data` order colours by
  `np.argsort(-percentages)`. The model keeps equal percentages in index
  order (`SortPaletteTie`), an order numpy's default sort does not promise;
- a scheme has `min(n_colors, len(predefined_colors))` colours, not
  `n_colors`, so `apply_scheme` raises `IndexError` when some label reaches
  past the pool (`ShortSchemesFail`);
- `evolve` resets every score to 5.0 after breeding, so the elites carry no
  score into the next generation.

## Model

| member | source | states |
|---|---|---|
| Genetic.CandidatePool | color_analyzer/core/genetic.py:56 | a non-empty predefined list is the pool; an empty one falls back to the nine default colours |
| Genetic.Selected | color_analyzer/core/genetic.py:75 | the scheme colours are the first min(n_colors, pool size) colours of the pool |
| Genetic.Reshape | color_analyzer/core/genetic.py:91-93 | reshaping a flat pixel list of height*width gives height rows of width pixels that flatten back to the list |
| Genetic.CountAtLeast | color_analyzer/core/genetic.py:116-119 | the number of scores reaching the threshold is at most the number of scores |
| Genetic.Elite | color_analyzer/core/genetic.py:116-119 | the elite list has one entry per score at or above the threshold; every such scheme is in it and every entry is a scheme with such a score |
| Genetic.EliteLengths | color_analyzer/core/genetic.py:116-119 | in a population of schemes of one length, every elite has that length |
| Genetic.PySlice | color_analyzer/core/genetic.py:167-169 | a slice whose end is within the list is the Dafny subsequence |
| Genetic.Crossover | color_analyzer/core/genetic.py:162-170 | a parent shorter than three is copied; otherwise the child keeps the length and takes position k from parent 2 exactly when k lies between the two cut points |
| Genetic.CrossoverOrigin | color_analyzer/core/genetic.py:162-170 | each colour of a child is the colour one of the parents has at that position |
| Genetic.CrossoverCanRepeat | color_analyzer/core/genetic.py:165-170 | crossing two orderings of the same three colours can give a child that repeats one colour and loses another |
| Genetic.Offspring | color_analyzer/core/genetic.py:135-140 | the offspring loop yields exactly count children, all of the common scheme length |
| Genetic.OffspringAt | color_analyzer/core/genetic.py:135-140 | child k is the crossover of its two drawn parents at its drawn cut points |
| Genetic.OffspringOrigin | color_analyzer/core/genetic.py:135-140 | every colour of every child is the colour one of its parents has at that position |
| Genetic.MutateChannel | color_analyzer/core/genetic.py:184-189 | a mutated channel is always in [0, 255] |
| Genetic.MutateChannelMoves | color_analyzer/core/genetic.py:184-189 | a mutated channel is at most c*(1+u); a zero factor leaves it unchanged; a positive factor never lowers it and a negative one never raises it |
| Genetic.MutateColor | color_analyzer/core/genetic.py:183-191 | all three channels of a mutated colour are in [0, 255] |
| Genetic.MutateScheme | color_analyzer/core/genetic.py:182-193 | a mutated scheme has the same length and each colour is the mutation of the original colour with its own factors |
| Genetic.JittersFitUniform | color_analyzer/core/genetic.py:180-193 | in schemes of one length, factors of that length and in range fit every drawn scheme |
| Genetic.Mutated | color_analyzer/core/genetic.py:180-195 | the mutation loop keeps the number of schemes and the length of each |
| Genetic.MutatedAt | color_analyzer/core/genetic.py:180-195 | with distinct drawn indices, a drawn scheme becomes the mutation of the original and every other scheme is unchanged |
| Genetic.MutatedInRange | color_analyzer/core/genetic.py:180-195 | after mutation every channel of every scheme is in [0, 255] |
| Genetic.ArgMax | color_analyzer/core/genetic.py:199 | the result is the first index holding the largest value |
| Genetic.GeneticColorOptimizer.constructor | color_analyzer/core/genetic.py:50-79 | the fields hold the parameters; the pool is the predefined list or the default; the population is the drawn shuffles of the selected colours; every score starts at 5.0; generation 0 and empty histories |
| Genetic.GeneticColorOptimizer.ApplyScheme | color_analyzer/core/genetic.py:91-93 | the result is an error exactly when some label is past the end of the scheme; otherwise it is height rows of width pixels and pixel p is the scheme colour of label p |
| Genetic.GeneticColorOptimizer.ShortSchemesFail | color_analyzer/core/genetic.py:91-93 | when a label reaches past the pool, no scheme of the population can be applied |
| Genetic.GeneticColorOptimizer.SetScores | color_analyzer/core/genetic.py:102-104 | a list of the wrong length is refused and changes nothing; a list of the right length becomes the scores; nothing else changes |
| Genetic.GeneticColorOptimizer.RouletteSelection | color_analyzer/core/genetic.py:144-154 | both parents are members of the population; when the scores sum to non-zero, each parent is a scheme with a positive score |
| Genetic.GeneticColorOptimizer.GenerateOffspring | color_analyzer/core/genetic.py:135-140 | the result is the count children built from the drawn parents and cut points |
| Genetic.GeneticColorOptimizer.MutationCount | color_analyzer/core/genetic.py:177 | a non-negative rate gives a non-negative count |
| Genetic.GeneticColorOptimizer.Mutate | color_analyzer/core/genetic.py:177-195 | a negative count is an error; otherwise the result is the schemes with the sampled ones mutated |
| Genetic.GeneticColorOptimizer.Breed | color_analyzer/core/genetic.py:116-129 | the next population is the mutated offspring followed by the elites, with population_size schemes of the common length; an error exactly when the mutation count is negative |
| Genetic.GeneticColorOptimizer.Evolve | color_analyzer/core/genetic.py:108-131 | an unscored or empty population is refused with no change; otherwise the mean and best are recorded; on success the population is the mutated offspring plus the elites, all scores are reset to 5.0 and the generation goes up by one |
| Genetic.GeneticColorOptimizer.GetBestScheme | color_analyzer/core/genetic.py:199-200 | an empty population is an error; otherwise the result is the first scheme holding the highest score, with that score |
| Genetic.NextPopulationLayout | color_analyzer/core/genetic.py:122-129 | offspring plus elites is exactly population_size schemes, and the elites, in order, form its tail |
| Genetic.EliteSurvives | color_analyzer/core/genetic.py:116-129 | a scheme scored at or above the threshold is, unchanged, in the next population |
| Cooccurrence.IsColorPresent | color_analyzer/core/cooccurrence.py:39-40 | a colour is present exactly when the threshold is non-negative and some pixel's squared distance is at most the threshold squared |
| Cooccurrence.AreColorsPresent | color_analyzer/core/cooccurrence.py:57-60 | the loop answers true exactly when some colour of the list is present; an empty list gives false |
| Cooccurrence.PairPresence | color_analyzer/core/cooccurrence.py:95 | the test on a two-colour list is the OR of the two colours |
| Cooccurrence.GateImplied | color_analyzer/core/cooccurrence.py:93-95 | every image that credits a pair also passes the all-colours test |
| Cooccurrence.ImagePixels | color_analyzer/core/cooccurrence.py:91 | the presence tests see all pixels of the image, row by row |
| Cooccurrence.CooccurrenceMatrix | color_analyzer/core/cooccurrence.py:80-103 | the matrix is n by n for n colours |
| Cooccurrence.CreditImage | color_analyzer/core/cooccurrence.py:94-97 | one image adds one to [a, b] exactly for each pair it credits, and changes nothing else |
| Cooccurrence.AnalyzeFolder | color_analyzer/core/cooccurrence.py:79-103 | the result is the count over the number of files; one progress report (idx, total) per file, in order |
| Cooccurrence.TallySymmetric | color_analyzer/core/cooccurrence.py:94-97 | the count of (i, j) equals the count of (j, i) |
| Cooccurrence.TallyDiagonal | color_analyzer/core/cooccurrence.py:81 | the count of (i, i) is zero |
| Cooccurrence.TallyBound | color_analyzer/core/cooccurrence.py:85-97 | no count exceeds the number of files |
| Cooccurrence.MatrixSymmetric | color_analyzer/core/cooccurrence.py:81-103 | the matrix is symmetric |
| Cooccurrence.MatrixZeroDiagonal | color_analyzer/core/cooccurrence.py:81-103 | the diagonal of the matrix is zero |
| Cooccurrence.MatrixBounds | color_analyzer/core/cooccurrence.py:101-103 | every cell of the matrix is in [0, 1] |
| Cooccurrence.MatrixFewColors | color_analyzer/core/cooccurrence.py:81 | with fewer than two colours the matrix is all zeros |
| Cooccurrence.TallyUnreadable | color_analyzer/core/cooccurrence.py:98-99 | a file that fails to load adds to no count |
| Cooccurrence.AllUnreadable | color_analyzer/core/cooccurrence.py:98-102 | when every file fails, every count is zero although the divisor is not |
| Cooccurrence.TallyInclusionExclusion | color_analyzer/core/cooccurrence.py:95-97 | for distinct colours, count plus the images holding both equals the images holding i plus those holding j: an image holding either colour credits the pair |
| Clustering.Count | color_analyzer/core/clustering.py:44 | the count of a label is at most the number of labels, and zero exactly when the label does not occur |
| Clustering.Percentages | color_analyzer/core/clustering.py:48-50 | there is one percentage per cluster index in range(n_colors) |
| Clustering.Fit | color_analyzer/core/clustering.py:37-52 | K-means raises exactly when it is asked for no cluster, no restart, or more clusters than pixels; otherwise the colours are the K-means centroids and percentage i is the count of label i over the number of pixels |
| Clustering.PercentageBounds | color_analyzer/core/clustering.py:48-50 | every percentage is in [0, 1], and it is 0 exactly for a cluster that received no pixel |
| Clustering.SumCountsAll | color_analyzer/core/clustering.py:44-45 | when every label names one of the k clusters, the per-cluster counts add up to the number of pixels |
| Clustering.SumPercentages | color_analyzer/core/clustering.py:48-50 | the sum of the percentages is the sum of the counts over the number of pixels |
| Clustering.PercentagesSumToOne | color_analyzer/core/clustering.py:44-50 | when every label lies in [0, n_colors), the percentages add up to exactly 1 |
| Clustering.FitSorted | color_analyzer/core/clustering.py:64-66 | it raises exactly when fit does; otherwise the percentages come out non-increasing and the (colour, percentage) pairs are a permutation of those of fit |
| Clustering.SortPalette | color_analyzer/core/clustering.py:65-66 | reordering by descending percentage keeps the lengths, makes the percentages non-increasing and permutes the (colour, percentage) pairs |
| Clustering.SortPaletteOfSorted | color_analyzer/core/clustering.py:65-66 | reordering a palette already in non-increasing order leaves it exactly as it was, equal percentages included |
| Clustering.SortPaletteTie | color_analyzer/core/clustering.py:65-66 | two colours of equal percentage come out in index order |
| Clustering.NonIncreasingUnique | color_analyzer/core/clustering.py:65 | two non-increasing sequences with the same elements are equal |
| Clustering.NonIncreasingHeads | color_analyzer/core/clustering.py:65 | two non-empty non-increasing sequences with the same elements share their head, and their tails are such a pair again |
| Clustering.ClusterMultipleImages | color_analyzer/core/clustering.py:83-85 | an error exactly when the lists hold fewer pixels than n_colors or n_colors is 0 (no pixel at all is the np.vstack / K-means error); otherwise fit_sorted with 20 restarts of all pixel lists stacked in order |
| ImageProcessor.GrayDistance | color_analyzer/core/image_processor.py:57 | the channel spread is non-negative and zero exactly for a pure gray |
| ImageProcessor.FilterGrayPixels | color_analyzer/core/image_processor.py:57-58 | a pixel is kept exactly when it is in the input and its spread reaches the threshold; the output is no longer than the input |
| ImageProcessor.FilterGrayAppend | color_analyzer/core/image_processor.py:57-58 | filtering a concatenation filters each part and keeps the parts in order |
| ImageProcessor.FilterGrayIdempotent | color_analyzer/core/image_processor.py:57-58 | filtering twice gives the same as filtering once |
| ImageProcessor.FilterGrayKeepsAll | color_analyzer/core/image_processor.py:57-58 | with a threshold of zero or below nothing is filtered out |
| ImageProcessor.DefaultThresholdDropsGrays | color_analyzer/core/image_processor.py:14 | with the default threshold 1, exactly the pure grays are dropped |
| ImageProcessor.ExtractPixels | color_analyzer/core/image_processor.py:71-74 | all pixels in row-major order, then filtered when filter_gray is set |
| ImageProcessor.TotalLengthRectangular | color_analyzer/core/image_processor.py:71 | an image of rows of width w has rows times w pixels |
| ImageProcessor.RowMajor | color_analyzer/core/image_processor.py:71 | unfiltered, an h-by-w image yields h*w pixels and the pixel at row i, column j sits at i*w + j |
| ImageProcessor.ImageNames | color_analyzer/core/image_processor.py:107-109 | a name is kept exactly when it is in the listing and ends, case-insensitively, in a supported extension |
| ImageProcessor.Basename | color_analyzer/core/image_processor.py:109 | the base name holds no separator and is no longer than the path |
| ImageProcessor.BasenameIsSuffix | color_analyzer/core/image_processor.py:109 | the base name is the tail of the path |
| ImageProcessor.BasenameOfJoin | color_analyzer/core/image_processor.py:109 | joining a folder with a name and taking the base name gives the name back |
| ImageProcessor.BasenameSuffix | color_analyzer/core/image_processor.py:109 | the base name of a path ending in a separator followed by a name is that name |
| ImageProcessor.JoinAll | color_analyzer/core/image_processor.py:109 | entry k of the result is the folder joined with name k |
| ImageProcessor.GetImageFilenames | color_analyzer/core/image_processor.py:123-129 | a missing directory is an error; otherwise the result is sorted and is a permutation of the supported names of the listing |
| ImageProcessor.GetImageFiles | color_analyzer/core/image_processor.py:103-110 | a missing directory is an error; otherwise the result is sorted and is a permutation of the folder joined with each supported name |
| ImageProcessor.LexLePrefix | color_analyzer/core/image_processor.py:110 | a common prefix does not change the string order |
| ImageProcessor.ImageFilesMatchFilenames | color_analyzer/core/image_processor.py:103-129 | for one directory, the sorted paths are the folder joined with the sorted names, in the same order |
| ImageProcessor.JoinAllIsMap | color_analyzer/core/image_processor.py:109 | joining every name is the join function mapped over the names |
| ColorExtractor.Reports | color_analyzer/core/color_extractor.py:69-71 | one progress report (i, total, basename) per file, in file order |
| ColorExtractor.LoadPixels | color_analyzer/core/color_extractor.py:42 | an unreadable file is an error; otherwise the gray-filtered pixels of the image |
| ColorExtractor.ExtractFromImage | color_analyzer/core/color_extractor.py:42-45 | the load error escapes; no pixel left gives the empty pair; otherwise fit_sorted of the pixels, whose error escapes; it succeeds exactly when the file loads and keeps either no pixel or at least n_colors pixels with n_colors positive; a non-empty result has n_colors colours with non-increasing percentages |
| ColorExtractor.Survivors | color_analyzer/core/color_extractor.py:73-78 | at most one pixel array per file, and each kept array is non-empty |
| ColorExtractor.ExtractFromFolder | color_analyzer/core/color_extractor.py:62-84 | a listing error escapes with no report; otherwise one report per file and one clustering of the kept pixels, whose K-means error escapes, or the empty pair when none is kept |
| ColorExtractor.EntryOf | color_analyzer/core/color_extractor.py:110-115 | a file yields an entry exactly when it loads and keeps at least n_colors pixels with n_colors positive; the entry is its base name and its extraction |
| ColorExtractor.PerImage | color_analyzer/core/color_extractor.py:105-117 | there are no more entries than files |
| ColorExtractor.TryExtract | color_analyzer/core/color_extractor.py:110-115 | the try block records exactly the file's entry, if any |
| ColorExtractor.ExtractPerImage | color_analyzer/core/color_extractor.py:101-117 | a listing error escapes with no report; otherwise one report per file and, in order, the entries of the files whose extraction neither raises nor yields the empty pair |
| ColorExtractor.PerImagePrefix | color_analyzer/core/color_extractor.py:105-115 | one more file extends the entries by that file's entry, if any |
| ColorExtractor.SurvivorsAppend | color_analyzer/core/color_extractor.py:69-78 | the pixel arrays of consecutive runs of files are the runs' arrays in order |
| ColorExtractor.SurvivorsEmpty | color_analyzer/core/color_extractor.py:80-81 | nothing is pooled exactly when every file fails to load or keeps no pixel |
| ColorExtractor.PoolSize | color_analyzer/core/color_extractor.py:69-83 | the stacked pool is exactly the concatenation, in file order, of every file's kept pixels (none for a failing file), so its size is their total |
| ColorExtractor.PooledOutcome | color_analyzer/core/color_extractor.py:80-84 | the folder result is the empty pair exactly when no pixel is kept; it raises exactly when some pixel is kept but fewer than n_colors, or n_colors is 0; otherwise it has n_colors colours with non-increasing percentages |
| ColorExtractor.PerImageEntries | color_analyzer/core/color_extractor.py:105-117 | every entry is the entry of one of the files |
| ColorExtractor.PerImageIndex | color_analyzer/core/color_extractor.py:105-117 | an entry comes from the files before the last one, or is the last file's own entry |
| ColorExtractor.EntrySorted | color_analyzer/core/color_extractor.py:111-113 | an entry's palette has n_colors colours and non-increasing percentages |
| ColorExtractor.PerImageSkips | color_analyzer/core/color_extractor.py:110-115 | a file that fails to load, keeps no pixel, or keeps fewer pixels than n_colors (K-means raises) adds no entry |
| ColorCard.Share | color_analyzer/visualization/color_card.py:44 | the width is the share of the scale rounded down: w <= p*scale < w + 1 |
| ColorCard.Widths | color_analyzer/visualization/color_card.py:44 | one width per percentage, each the rounded-down share of the scale |
| ColorCard.StripeWidths | color_analyzer/visualization/color_card.py:44-49 | an empty palette is a division by zero; otherwise one width per colour: the rounded shares, or scale // n each when they all round to 0 |
| ColorCard.SumIntNonNegative | color_analyzer/visualization/color_card.py:45 | the sum of non-negative widths is non-negative |
| ColorCard.PrefixSum | color_analyzer/visualization/color_card.py:53-57 | a prefix of the widths sums to no more than all of them, and one more stripe adds exactly its width |
| ColorCard.SumConstant | color_analyzer/visualization/color_card.py:49 | n equal widths v sum to n*v |
| ColorCard.StripesFit | color_analyzer/visualization/color_card.py:45-57 | the stripes fill the card exactly, except in the fallback, where they cover n*(scale // n) of its scale columns; they never run past the card |
| ColorCard.PaintStripe | color_analyzer/visualization/color_card.py:54-57 | stripe k alone covers the columns from the sum of the widths before it up to that sum plus its width |
| ColorCard.PaintBeyond | color_analyzer/visualization/color_card.py:52 | columns outside all stripes stay black |
| ColorCard.ColorCardGenerator.constructor | color_analyzer/visualization/color_card.py:20-21 | the generator keeps the card height and width scale |
| ColorCard.ColorCardGenerator.CreateCard | color_analyzer/visualization/color_card.py:39-59 | an empty palette is a division by zero; otherwise a fresh card_height by card-width array whose column j is the normalised colour of the stripe covering j in descending-percentage order, black past the stripes |
| ColorCard.PaintStripes | color_analyzer/visualization/color_card.py:53-57 | after the loop every cell of column j holds the colour of the stripe covering j |
| ColorCard.NormalizeAll | color_analyzer/visualization/color_card.py:40 | each colour is divided by 255, one for one |
| ColorCard.SortedNonNegative | color_analyzer/visualization/color_card.py:39-41 | reordering keeps the percentages non-negative |
| ColorCard.EntryLines | color_analyzer/visualization/color_card.py:139-142 | one entry line per colour, in the palette's order |
| ColorCard.FormatColorLines | color_analyzer/visualization/color_card.py:137-143 | the lines are "[", one line per colour in descending-percentage order, then "]" |
| ColorCard.FormatColorData | color_analyzer/visualization/color_card.py:137-144 | the loop appends one entry line per colour in descending-percentage order between "[" and "]", and the text is those lines joined by newlines |
| ColorCard.FormatColorOrder | color_analyzer/visualization/color_card.py:137 | the entries come heaviest first and are the palette's own (colour, percentage) pairs |
| ColorCard.IntToStringNoNewline | color_analyzer/visualization/color_card.py:142 | a written integer holds no newline |
| ColorCard.ColorLineNoNewline | color_analyzer/visualization/color_card.py:142 | an entry line holds no newline when the percentage text holds none |
| ColorCard.FormatColorDataLines | color_analyzer/visualization/color_card.py:144 | splitting the text at newlines gives back exactly the n + 2 lines |
| NetworkPlot.Classify | color_analyzer/visualization/network_plot.py:72-80 | red exactly when the weight reaches the highlight threshold; gray exactly when it reaches the base threshold but not the highlight one; not drawn otherwise |
| NetworkPlot.RowPairs | color_analyzer/visualization/network_plot.py:69 | row i visits the pairs (i, j) for j from i + 1 to n - 1 |
| NetworkPlot.PairsBeforeMembers | color_analyzer/visualization/network_plot.py:68-69 | after i rows the loops have visited exactly the pairs a < b < n with a < i |
| NetworkPlot.PairsBeforeIncreasing | color_analyzer/visualization/network_plot.py:68-69 | the visiting order is strictly increasing, so no pair is visited twice |
| NetworkPlot.PairsBeforeCount | color_analyzer/visualization/network_plot.py:68-69 | after i rows, twice the number of visited pairs is i*(2n - i - 1) |
| NetworkPlot.AllPairsCount | color_analyzer/visualization/network_plot.py:65 | total_edges = n(n-1)//2 is the number of pairs the loops visit |
| NetworkPlot.Drawn | color_analyzer/visualization/network_plot.py:68-88 | no more edges are drawn than pairs visited |
| NetworkPlot.PairsCovered | color_analyzer/visualization/network_plot.py:70 | every visited pair indexes a matrix that has its upper triangle |
| NetworkPlot.DrawnMembers | color_analyzer/visualization/network_plot.py:70-88 | an edge is drawn exactly for a visited pair whose weight reaches a threshold, in the style that weight calls for |
| NetworkPlot.ProgressIncreasing | color_analyzer/visualization/network_plot.py:90-92 | one report per drawn edge when total_edges > 0 and none otherwise; the counts are between 1 and the pairs visited and strictly increase |
| NetworkPlot.UpperTriangleOnly | color_analyzer/visualization/network_plot.py:68-70 | two matrices that agree above the diagonal draw the same edges and report the same progress |
| NetworkPlot.VisitStep | color_analyzer/visualization/network_plot.py:70-92 | one more pair extends the drawn edges and the reports by that pair's contribution |
| NetworkPlot.NetworkPlotter.constructor | color_analyzer/visualization/network_plot.py:23-24 | the plotter keeps both thresholds |
| NetworkPlot.NetworkPlotter.PlotEdges | color_analyzer/visualization/network_plot.py:65-92 | the loops end with edge_count = n(n-1)/2, the drawn edges and the progress reports of all visited pairs |
| NetworkPlot.NetworkPlotter.VisitRow | color_analyzer/visualization/network_plot.py:69-92 | one round of the outer loop adds row i's pairs to the count, the drawn edges and the reports |
| NetworkPlot.LineEntry | color_analyzer/visualization/network_plot.py:139-144 | a line is skipped exactly when it has fewer than four tokens; a failing conversion is ValueError |
| NetworkPlot.Ints | color_analyzer/visualization/network_plot.py:141 | none exactly when some token is not an integer literal; otherwise the value of every token |
| NetworkPlot.IntsThree | color_analyzer/visualization/network_plot.py:141 | the first three tokens convert exactly when each does, to their three values |
| NetworkPlot.LineEntryMeaning | color_analyzer/visualization/network_plot.py:140-144 | a line of four or more tokens raises exactly when one of the first three is not an integer literal as Text.ParseInt reads them or the fourth is not a number as Text.ParseReal reads them, and otherwise gives their values |
| NetworkPlot.Collect | color_analyzer/visualization/network_plot.py:138-146 | the collection raises exactly when some line raises, with that line's error; otherwise it has at most one value per line |
| NetworkPlot.CollectAllKept | color_analyzer/visualization/network_plot.py:138-146 | lines that are all kept give their values in order |
| NetworkPlot.CollectStep | color_analyzer/visualization/network_plot.py:138-146 | a raising line makes the whole collection raise, a skipped line changes nothing, a kept line adds its value |
| NetworkPlot.CollectSkip | color_analyzer/visualization/network_plot.py:140 | a skipped line changes nothing |
| NetworkPlot.ParseColorInput | color_analyzer/visualization/network_plot.py:125-146 | the colours and sizes of the kept lines of the stripped text split at newlines, two lists of one length, or ValueError, with numbers read by Text.ParseInt and Text.ParseReal |
| NetworkPlot.ParseColorLines | color_analyzer/visualization/network_plot.py:138-146 | the loop gives the colours and sizes of the kept lines, or the error of a raising line |
| NetworkPlot.ColorLines | color_analyzer/visualization/network_plot.py:138 | one text line per colour |
| NetworkPlot.NumbersNoNewline | color_analyzer/visualization/network_plot.py:138 | a line of space-separated integers holds no newline |
| NetworkPlot.ColorLineParses | color_analyzer/visualization/network_plot.py:139-144 | a written colour line has no newline, no surrounding space, and parses back to its colour and size |
| NetworkPlot.ColorLinesParse | color_analyzer/visualization/network_plot.py:139-144 | every written colour line parses back to its own colour and size |
| NetworkPlot.ColorInputRoundTrip | color_analyzer/visualization/network_plot.py:125-146 | text written one entry per line parses back to the same colours and sizes, whether or not the integers lie in 0-255 |
| NetworkPlot.EmptyColorText | color_analyzer/visualization/network_plot.py:138-146 | the empty text is one blank line and gives no entry |
| NetworkPlot.LinesRoundTrip | color_analyzer/visualization/network_plot.py:138 | lines without newlines or surrounding space, joined by newlines, come back from strip().split('\n') as they were |
| NetworkPlot.TextEnds | color_analyzer/visualization/network_plot.py:138 | a text of lines without surrounding space neither starts nor ends with a space, so strip leaves it alone |
| NetworkPlot.RowValues | color_analyzer/visualization/network_plot.py:162 | ValueError exactly when some token is not a number; otherwise the number of every token |
| NetworkPlot.MatrixLine | color_analyzer/visualization/network_plot.py:161-163 | a kept row holds at least one number; a failing conversion is ValueError |
| NetworkPlot.MatrixLineMeaning | color_analyzer/visualization/network_plot.py:161-163 | a line raises exactly when it is not blank and one of its tokens is not a number; a kept line gives the number of every token |
| NetworkPlot.MatrixLineBlank | color_analyzer/visualization/network_plot.py:161 | a line is skipped exactly when its strip is empty, which is exactly when it has no token |
| NetworkPlot.SpacesHaveNoTokens | color_analyzer/visualization/network_plot.py:162 | a line of spaces only has no token |
| NetworkPlot.BlankHasNoTokens | color_analyzer/visualization/network_plot.py:161-162 | a line whose strip is not empty has at least one token |
| NetworkPlot.TokensOfNonSpace | color_analyzer/visualization/network_plot.py:162 | a line holding a non-space character has a token |
| NetworkPlot.BlankLineSkipped | color_analyzer/visualization/network_plot.py:161 | adding a blank line changes nothing |
| NetworkPlot.ParseMatrixInput | color_analyzer/visualization/network_plot.py:149-164 | one row per non-blank line of the stripped text split at newlines, or ValueError |
| NetworkPlot.ParseMatrixLines | color_analyzer/visualization/network_plot.py:159-164 | the loop gives the rows of the non-blank lines, or the error of the first raising line |
| NetworkPlot.Reals | color_analyzer/visualization/network_plot.py:162 | row k of numbers is the integers of row k as reals |
| NetworkPlot.RowParses | color_analyzer/visualization/network_plot.py:161-163 | a written matrix row has no newline, no surrounding space, and parses back to its numbers |
| NetworkPlot.RowValuesAll | color_analyzer/visualization/network_plot.py:162 | tokens that each convert give their values in order |
| NetworkPlot.MatrixInputRoundTrip | color_analyzer/visualization/network_plot.py:149-164 | a matrix of integers written one row per line parses back to the same rows |
| Common.Max | color_analyzer/core/genetic.py:113 | the maximum is an element of the list and no element exceeds it |
| Common.Trunc | color_analyzer/core/genetic.py:184 | int() of a float truncates toward zero: 0 <= t <= x < t + 1 for x >= 0, and x <= t < x + 1 with t <= 0 for x < 0 |
| Common.Clamp | color_analyzer/core/genetic.py:184 | the clamped value lies in [lo, hi], and a value already in range is unchanged |
| Common.ConcatLayout | color_analyzer/core/clustering.py:83 | stacking holds every element of every part in order: part k starts at the total length of the parts before it |
| Common.ConcatLength | color_analyzer/core/clustering.py:83 | the stacked list is as long as all the parts together |
| Common.ConcatSnoc | color_analyzer/core/clustering.py:83 | stacking one more part extends the stack by that part |
| Text.WordLength | color_analyzer/visualization/network_plot.py:139 | the leading word is the run of non-space characters before the first space |
| Text.Tokens | color_analyzer/visualization/network_plot.py:139 | every token of split() is a non-empty run without whitespace |
| Text.TokensOfWord | color_analyzer/visualization/network_plot.py:139 | a word followed by whitespace or nothing is the first token |
| Text.TokensOfJoin | color_analyzer/visualization/network_plot.py:139 | split() gives back the words of a space-joined list |
| Text.IndexOf | color_analyzer/visualization/network_plot.py:138 | the index of the first separator, or the length when there is none |
| Text.SplitOn | color_analyzer/visualization/network_plot.py:138 | split(sep) gives at least one piece and no piece holds the separator |
| Text.JoinSplit | color_analyzer/visualization/network_plot.py:138 | joining the pieces of split(sep) with the separator gives the text back |
| Text.SplitJoin | color_analyzer/visualization/network_plot.py:138 | splitting a join of separator-free pieces gives the pieces back |
| Text.JoinOnEnds | color_analyzer/visualization/network_plot.py:138 | a join starts with the first piece's first character and ends with the last piece's last character |
| Text.JoinOnChars | color_analyzer/visualization/network_plot.py:138 | every character of a join is the separator or a character of a piece |
| Text.StripNoop | color_analyzer/visualization/network_plot.py:138 | strip() leaves alone a text that neither starts nor ends with whitespace |
| Text.LeadingSpaces | color_analyzer/visualization/network_plot.py:138 | the count of leading whitespace characters, up to the first non-space |
| Text.TrailingSpaces | color_analyzer/visualization/network_plot.py:138 | the count of trailing whitespace characters, back to the last non-space |
| Text.Strip | color_analyzer/visualization/network_plot.py:138 | the stripped text neither starts nor ends with whitespace, and it is empty exactly when the text is all whitespace |
| Text.Lower | color_analyzer/core/image_processor.py:108 | lower() maps each character to its lower case, keeping the length |
| Text.DigitsAccepts | color_analyzer/visualization/network_plot.py:141 | a digit string is read exactly when every character is a digit |
| Text.IntToString | color_analyzer/visualization/color_card.py:142 | str(n) is a word of digits, after a minus sign when n is negative |
| Text.NatToStringValue | color_analyzer/visualization/color_card.py:142 | the digits of a natural number read back to that number |
| Text.ParseIntAccepts | color_analyzer/visualization/network_plot.py:141 | the modelled int() accepts exactly an optional sign followed by at least one ASCII digit (Python's underscores and non-ASCII digits: see Left out) |
| Text.IntRoundTrip | color_analyzer/visualization/network_plot.py:141 | int(str(n)) == n for every integer |
| Text.ParseIntThenReal | color_analyzer/visualization/network_plot.py:142 | every literal int() accepts, float() accepts with the same value |
| Sorting.LexLeTotal | color_analyzer/core/image_processor.py:110 | any two strings are ordered one way or the other |
| Sorting.LexLeReflexive | color_analyzer/core/image_processor.py:110 | every string is ordered before itself |
| Sorting.LexLeTransitive | color_analyzer/core/image_processor.py:110 | the string order is transitive |
| Sorting.LexLeAntisymmetric | color_analyzer/core/image_processor.py:110 | two strings ordered both ways are equal |
| Sorting.InsertString | color_analyzer/core/image_processor.py:110 | insertion adds the string to the list's elements, and the head is the new string or the old head |
| Sorting.InsertSorted | color_analyzer/core/image_processor.py:110 | inserting into a sorted list keeps it sorted |
| Sorting.ConsSorted | color_analyzer/core/image_processor.py:110 | putting a string no greater than the head in front keeps the order |
| Sorting.SortStrings | color_analyzer/core/image_processor.py:110 | sorted() returns a permutation of the list |
| Sorting.SortStringsSorted | color_analyzer/core/image_processor.py:110 | what sorted() returns is in order |
| Sorting.MapSeq | color_analyzer/core/image_processor.py:109 | the function applied to every element, in order |
| Sorting.MapConcat | color_analyzer/core/image_processor.py:109 | mapping a concatenation maps each part |
| Sorting.MapInsert | color_analyzer/core/image_processor.py:109-110 | inserting a string adds its image to the images |
| Sorting.MapSort | color_analyzer/core/image_processor.py:109-110 | sorting the strings permutes their images the same way |
| Sorting.SortedUnique | color_analyzer/core/image_processor.py:110 | two sorted lists with the same elements are equal, so the sorted order is unique |
| Sorting.SortedHeads | color_analyzer/core/image_processor.py:110 | two non-empty sorted lists with the same elements share their head, and their tails are such a pair again |
| Sorting.InsertByWeight | color_analyzer/core/clustering.py:65 | insertion adds the pair to the list's elements, and the head is the new pair or the old head |
| Sorting.InsertDescending | color_analyzer/core/clustering.py:65 | inserting into a heaviest-first list keeps it heaviest first |
| Sorting.ConsDescending | color_analyzer/core/clustering.py:65 | putting a pair no lighter than the head in front keeps the order |
| Sorting.SortByWeightDesc | color_analyzer/core/clustering.py:65-66 | argsort(-weights) applied to the pairs permutes them |
| Sorting.SortByWeightDescending | color_analyzer/core/clustering.py:65-66 | the reordered pairs come heaviest first |
| Sorting.InsertLightest | color_analyzer/core/clustering.py:65 | a pair no heavier than any pair of the list is inserted at its end, after the pairs of equal weight |
| Sorting.SortSortedNoop | color_analyzer/core/clustering.py:65-66 | the reorder is stable: a list already heaviest first comes back unchanged |
| Sorting.Zip | color_analyzer/core/clustering.py:66 | pair k is item k with weight k, cut to the shorter list |
| Sorting.Firsts | color_analyzer/core/clustering.py:66 | the items of the pairs, in order |
| Sorting.Seconds | color_analyzer/core/clustering.py:66 | the weights of the pairs, in order |
| Sorting.SecondsNonIncreasing | color_analyzer/core/clustering.py:66 | the weights of a heaviest-first list are non-increasing |
| Sorting.FirstsConcat | color_analyzer/core/clustering.py:66 | the items of a concatenation are the items of each part |
| Sorting.SecondsConcat | color_analyzer/core/clustering.py:66 | the weights of a concatenation are the weights of each part |
| Sorting.InsertSeconds | color_analyzer/core/clustering.py:65-66 | inserting a pair adds its weight to the weights |
| Sorting.SortSeconds | color_analyzer/core/clustering.py:65-66 | reordering the pairs permutes their weights the same way |

## Left out

- Image decoding (`cv2.imread`, `cvtColor`), `os.path.exists`, `isdir` and `listdir`: these are I/O. Each file is a given outcome, a decoded image or a failure, and a listing is a given sequence of names or its absence.
- sklearn `KMeans` in `fit` and in the genetic optimizer's `_cluster_image`: it is a foreign heuristic. Its labels and centres are inputs whenever it runs; `fit` models the `ValueError` it raises for no cluster, no restart or more clusters than pixels as `ClusteringFailed`.
- Genetic.GeneticColorOptimizer.constructor: it receives the segmentation labels, so the `ValueError` `_cluster_image` raises for an image with fewer pixels than `n_colors` is not modelled.
- The probability distributions of `random.sample`, `random.choice(s)` and `random.uniform`: each drawn value is a parameter, constrained as the code constrains the draw (distinct indices, cut points `1 <= a < b <= len - 1`, factors within `max_mutation_change`, a parent with positive weight when the scores do not sum to zero).
- Floating-point rounding: reals are exact. This affects `np.mean`, the division in the percentages, `c * (1 + u)` in the mutation, `/ 255.0`, and the final division of the co-occurrence counts. The `sqrt` of the distance test is replaced by the equivalent comparison of squared distance against the squared threshold.
- Text.ParseInt: Python's `int()` also accepts single underscores between digits (`1_0`) and non-ASCII decimal digits; the model refuses both, so `parse_color_input` on `1_0 2 3 4` is a `ValueError` in the model and a colour in the program.
- Text.ParseReal: `float()` is modelled for an optional sign, ASCII digits and at most one decimal point. Exponents, `inf`, `nan`, underscores and non-ASCII digits, which Python accepts, are refused.
- Text.Lower: it maps ASCII letters only; the Unicode case mapping of other letters is not modelled.
- Clustering.SortPalette: equal percentages come out in index order. numpy's default `argsort` is not a stable sort, so on equal percentages the program may order colours differently.
- `"{:.4f}"` in `format_color_data` is the formatter parameter. `format_matrix` and its `"{:.2f}"` formatting are not modelled: that is number formatting only.
- Matplotlib rendering: the circular layout, `ax.plot`, `scatter`, `annotate`, `imshow`, `savefig`, `save_card` and `create_bar_chart`. The edge loop's drawing calls are recorded as the list of drawn edges with their style.
- The `ui` package, `main.py`, `setup.py` and the `__init__.py` files: these are windows, entry points, packaging and re-exports.
- `np.array(rows)` of ragged rows in `parse_matrix_input`: the model returns the list of rows. It does not model numpy's handling of rows of unequal length.
- `load_image`'s distinction between `FileNotFoundError` and `ValueError`: both are one `ImageUnreadable` outcome, and every caller that catches one catches the other.
- Genetic.GeneticColorOptimizer.Evolve: on an empty population `evolve` appends `np.mean([])` (NaN) to the average history before `max([])` raises. The model raises `EmptySequence` with both histories unchanged.
- Genetic.GeneticColorOptimizer.Evolve: it breeds the next population before it appends to the fitness histories. Breeding reads no history, so the final state is the one the order of `evolve` gives.
- ColorCard.ColorCardGenerator.CreateCard: it requires one percentage per colour and non-negative percentages. `create_card` checks neither. With negative percentages, numpy would make an array of negative width.
- NetworkPlot.NetworkPlotter.PlotEdges: it requires the matrix to have an entry for every pair `i < j`. Without one, `plot` raises `IndexError` part-way through drawing. `NetworkPlot.At` reads 0 outside the matrix only to keep the specification functions total.
- Cooccurrence.AnalyzeFolder: it takes the per-file outcomes of an existing listing. The `NotADirectoryError` of the listing is modelled in `ImageProcessor.GetImageFiles`. Channel differences are exact integers, as numpy computes them once the colours are wider than the `uint8` pixels.
- Clustering.Fit: the percentages are exact quotients of the label counts. The float array numpy builds is not modelled.
