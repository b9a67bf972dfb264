/** `ColorClusterer` and `cluster_multiple_images`
    (color_analyzer/core/clustering.py). K-means itself is sklearn's and is a
    parameter here: the model takes its labels and centroids as given and
    covers what the Python code does with them, the per-cluster percentages
    and the reorder by descending percentage. */
module Clustering {
  import opened Common
  import opened Sorting

  /** What K-means hands back: one cluster label per pixel, and the centroids. */
  datatype Partition = Partition(labels: seq<int>, centers: seq<Centroid>)

  /** sklearn's `KMeans(n_clusters, n_init).fit` on a pixel population, as a
      function of (pixels, n_clusters, n_init). */
  type KMeans = (seq<Rgb>, nat, nat) -> Partition

  /** When `KMeans(n_clusters=k, n_init=nInit).fit` runs instead of raising
      `ValueError`: at least one cluster, at least one restart, and at least
      as many pixels as clusters. */
  predicate KMeansAccepts(nPixels: nat, k: nat, nInit: nat)
  {
    1 <= k <= nPixels && 1 <= nInit
  }

  /** What the model relies on from K-means: whenever it runs, it labels
      every pixel and returns one centroid per cluster. */
  ghost predicate IsKMeans(kmeans: KMeans)
  {
    forall pixels: seq<Rgb>, k: nat, nInit: nat ::
      KMeansAccepts(|pixels|, k, nInit) ==>
        |kmeans(pixels, k, nInit).labels| == |pixels| && |kmeans(pixels, k, nInit).centers| == k
  }

  /** The constructor defaults `n_colors=18`, `n_init=10`, and the restart
      count `cluster_multiple_images` asks for. */
  const DefaultNColors: nat := 18
  const DefaultNInit: nat := 10
  const CombinedNInit: nat := 20

  /** A clustering result: colours and their weights, position by position. */
  datatype Palette = Palette(colors: seq<Centroid>, percentages: seq<real>)

  /** `Counter(labels)[i]`. */
  function Count(labels: seq<int>, i: int): (c: nat)
    ensures c <= |labels|
    ensures c == 0 <==> i !in labels
  {
    if labels == [] then 0
    else
      var init := labels[..|labels| - 1];
      assert labels == init + [labels[|labels| - 1]];
      Count(init, i) + (if labels[|labels| - 1] == i then 1 else 0)
  }

  /** `[label_counts[i] / total_counts for i in range(n_colors)]`. */
  function Percentages(labels: seq<int>, nColors: nat): (p: seq<real>)
    requires |labels| > 0
    ensures |p| == nColors
  {
    seq(nColors, i requires 0 <= i < nColors => Count(labels, i) as real / |labels| as real)
  }

  /** `fit`: the `ValueError` of K-means when it refuses the request;
      otherwise the K-means centroids, and for each cluster index the share
      of the pixels that K-means assigned to it. */
  function Fit(nColors: nat, nInit: nat, pixels: seq<Rgb>, kmeans: KMeans): (r: Result<Palette>)
    requires IsKMeans(kmeans)
    ensures r.Err? <==> !KMeansAccepts(|pixels|, nColors, nInit)
    ensures r.Err? ==> r.error == ClusteringFailed
    ensures r.Ok? ==> |r.value.colors| == nColors && |r.value.percentages| == nColors
    ensures r.Ok? ==> r.value.colors == kmeans(pixels, nColors, nInit).centers
    ensures r.Ok? ==> forall i :: 0 <= i < nColors ==>
      r.value.percentages[i] == Count(kmeans(pixels, nColors, nInit).labels, i) as real / |pixels| as real
  {
    if !KMeansAccepts(|pixels|, nColors, nInit) then Err(ClusteringFailed)
    else
      var part := kmeans(pixels, nColors, nInit);
      Ok(Palette(part.centers, Percentages(part.labels, nColors)))
  }

  /** Every percentage is a proportion, and it is 0 exactly for a cluster that
      received no pixel. */
  lemma PercentageBounds(labels: seq<int>, nColors: nat, i: nat)
    requires |labels| > 0 && i < nColors
    ensures 0.0 <= Percentages(labels, nColors)[i] <= 1.0
    ensures Percentages(labels, nColors)[i] == 0.0 <==> i !in labels
  {
    var c := Count(labels, i) as real;
    var n := |labels| as real;
    assert Percentages(labels, nColors)[i] == c / n;
    assert c <= n;
    DivBounds(c, n);
  }

  lemma DivBounds(c: real, n: real)
    requires 0.0 <= c <= n && n > 0.0
    ensures 0.0 <= c / n <= 1.0
    ensures c / n == 0.0 <==> c == 0.0
  {
    assert c / n * n == c;
  }

  /** The number of labels that fall in `[0, k)`, counted cluster by cluster. */
  function SumCounts(labels: seq<int>, k: nat): nat
  {
    if k == 0 then 0 else SumCounts(labels, k - 1) + Count(labels, k - 1)
  }

  lemma {:induction false} SumCountsSnoc(labels: seq<int>, x: int, k: nat)
    ensures SumCounts(labels + [x], k) == SumCounts(labels, k) + (if 0 <= x < k then 1 else 0)
  {
    var l' := labels + [x];
    assert l'[..|l'| - 1] == labels;
    if k > 0 {
      SumCountsSnoc(labels, x, k - 1);
    }
  }

  /** When every label names one of the `k` clusters, the counts add up to the
      number of pixels. */
  lemma {:induction false} SumCountsAll(labels: seq<int>, k: nat)
    requires forall p :: 0 <= p < |labels| ==> 0 <= labels[p] < k
    ensures SumCounts(labels, k) == |labels|
  {
    if labels == [] {
      SumCountsEmpty(k);
    } else {
      var init := labels[..|labels| - 1];
      SumCountsAll(init, k);
      SumCountsSnoc(init, labels[|labels| - 1], k);
      assert init + [labels[|labels| - 1]] == labels;
    }
  }

  lemma {:induction false} SumCountsEmpty(k: nat)
    ensures SumCounts([], k) == 0
  {
    if k > 0 { SumCountsEmpty(k - 1); }
  }

  lemma {:induction false} SumPercentages(labels: seq<int>, k: nat)
    requires |labels| > 0
    ensures Sum(Percentages(labels, k)) == SumCounts(labels, k) as real / |labels| as real
  {
    var n := |labels| as real;
    var p := Percentages(labels, k);
    if k > 0 {
      var q := Percentages(labels, k - 1);
      assert p[..k - 1] == q by {
        forall i | 0 <= i < k - 1 ensures p[..k - 1][i] == q[i] { }
      }
      SumPercentages(labels, k - 1);
      var a := SumCounts(labels, k - 1) as real;
      var b := Count(labels, k - 1) as real;
      assert Sum(p) == Sum(q) + p[k - 1];
      assert p[k - 1] == b / n;
      DivAdd(a, b, n);
    } else {
      assert p == [];
    }
  }

  lemma DivAdd(a: real, b: real, n: real)
    requires n > 0.0
    ensures a / n + b / n == (a + b) / n
  {
  }

  lemma SelfDiv(n: real)
    requires n > 0.0
    ensures n / n == 1.0
  {
  }

  /** Weight conservation: when every label lies in `[0, n_colors)` the
      percentages add up to exactly 1. */
  lemma PercentagesSumToOne(labels: seq<int>, nColors: nat)
    requires |labels| > 0
    requires forall p :: 0 <= p < |labels| ==> 0 <= labels[p] < nColors
    ensures Sum(Percentages(labels, nColors)) == 1.0
  {
    SumPercentages(labels, nColors);
    SumCountsAll(labels, nColors);
    var n := |labels| as real;
    assert SumCounts(labels, nColors) as real == n;
    SelfDiv(n);
  }

  /** `fit_sorted`: `fit`, with both arrays indexed by `argsort(-percentages)`.
      It fails exactly when `fit` does; otherwise every colour stays with its
      own percentage, and the percentages come out non-increasing. */
  function FitSorted(nColors: nat, nInit: nat, pixels: seq<Rgb>, kmeans: KMeans): (r: Result<Palette>)
    requires IsKMeans(kmeans)
    ensures r.Err? <==> !KMeansAccepts(|pixels|, nColors, nInit)
    ensures r.Err? ==> r.error == ClusteringFailed
    ensures r.Ok? ==> |r.value.colors| == nColors && |r.value.percentages| == nColors
    ensures r.Ok? ==> NonIncreasing(r.value.percentages)
    ensures r.Ok? ==>
      multiset(Zip(r.value.colors, r.value.percentages))
      == multiset(Zip(Fit(nColors, nInit, pixels, kmeans).value.colors, Fit(nColors, nInit, pixels, kmeans).value.percentages))
    ensures r.Ok? ==> multiset(r.value.percentages) == multiset(Fit(nColors, nInit, pixels, kmeans).value.percentages)
  {
    match Fit(nColors, nInit, pixels, kmeans)
    case Err(e) => Err(e)
    case Ok(fit) => Ok(SortPalette(fit))
  }

  /** The reorder shared by `fit_sorted`, `create_card` and
      `format_color_data`: the (colour, percentage) pairs, heaviest first,
      equal percentages in index order. */
  function SortPalette(p: Palette): (r: Palette)
    requires |p.colors| == |p.percentages|
    ensures |r.colors| == |p.colors| && |r.percentages| == |p.colors|
    ensures NonIncreasing(r.percentages)
    ensures multiset(Zip(r.colors, r.percentages)) == multiset(Zip(p.colors, p.percentages))
    ensures multiset(r.percentages) == multiset(p.percentages)
  {
    var pairs := Zip(p.colors, p.percentages);
    var sorted := SortByWeightDesc(pairs);
    SortByWeightDescending(pairs);
    assert |sorted| == |multiset(sorted)| == |pairs|;
    SecondsNonIncreasing(sorted);
    assert Zip(Firsts(sorted), Seconds(sorted)) == sorted;
    SortSeconds(pairs);
    assert Seconds(pairs) == p.percentages;
    Palette(Firsts(sorted), Seconds(sorted))
  }

  /** Reordering a palette that is already heaviest first changes nothing:
      colours of equal percentage keep their positions, so a `fit_sorted`
      result passes `create_card` and `format_color_data` as it is. */
  lemma SortPaletteOfSorted(p: Palette)
    requires |p.colors| == |p.percentages|
    requires NonIncreasing(p.percentages)
    ensures SortPalette(p) == p
  {
    var pairs := Zip(p.colors, p.percentages);
    SortSortedNoop(pairs);
    assert Firsts(pairs) == p.colors && Seconds(pairs) == p.percentages;
  }

  /** Two non-increasing sequences with the same elements are equal. */
  lemma {:induction false} NonIncreasingUnique(a: seq<real>, b: seq<real>)
    requires NonIncreasing(a) && NonIncreasing(b)
    requires multiset(a) == multiset(b)
    ensures a == b
    decreases |a|
  {
    if a == [] {
      assert |b| == |multiset(b)| == 0;
    } else {
      NonIncreasingHeads(a, b);
      NonIncreasingUnique(a[1..], b[1..]);
      SplitFirst(a);
      SplitFirst(b);
    }
  }

  /** Two non-empty non-increasing sequences with the same elements share
      their head, and their tails are again such a pair. */
  lemma NonIncreasingHeads(a: seq<real>, b: seq<real>)
    requires NonIncreasing(a) && NonIncreasing(b)
    requires multiset(a) == multiset(b) && a != []
    ensures b != [] && a[0] == b[0]
    ensures NonIncreasing(a[1..]) && NonIncreasing(b[1..])
    ensures multiset(a[1..]) == multiset(b[1..])
  {
    NonIncreasingHeadMax(b, a[0]);
    NonIncreasingHeadMax(a, b[0]);
    MultisetTail(a);
    MultisetTail(b);
    NonIncreasingTail(a);
    NonIncreasingTail(b);
  }

  /** The head of a non-increasing sequence is its largest element. */
  lemma NonIncreasingHeadMax(s: seq<real>, x: real)
    requires NonIncreasing(s) && x in multiset(s)
    ensures s != [] && s[0] >= x
  {
    var i :| 0 <= i < |s| && s[i] == x;
  }

  lemma NonIncreasingTail(s: seq<real>)
    requires NonIncreasing(s) && s != []
    ensures NonIncreasing(s[1..])
  {
    forall i, j | 0 <= i < j < |s| - 1
      ensures s[1..][i] >= s[1..][j]
    {
      assert s[1..][i] == s[i + 1] && s[1..][j] == s[j + 1];
    }
  }

  /** Two colours of equal percentage stay in index order. */
  lemma SortPaletteTie(a: Centroid, b: Centroid)
    ensures SortPalette(Palette([a, b], [0.5, 0.5])).colors == [a, b]
  {
    SortPaletteOfSorted(Palette([a, b], [0.5, 0.5]));
  }

  /** `cluster_multiple_images`: one clustering, with 20 restarts, of all the
      pixel lists stacked in list order. With no pixels at all `np.vstack` or
      K-means raises; with fewer pixels than clusters, or no cluster, K-means
      raises. */
  function ClusterMultipleImages(pixelsList: seq<seq<Rgb>>, nColors: nat, kmeans: KMeans): (r: Result<Palette>)
    requires IsKMeans(kmeans)
    ensures |Concat(pixelsList)| == TotalLength(pixelsList)
    ensures r.Err? <==> !(1 <= nColors <= TotalLength(pixelsList))
    ensures TotalLength(pixelsList) == 0 ==> r == Err(NoPixels)
    ensures TotalLength(pixelsList) > 0 ==> r == FitSorted(nColors, CombinedNInit, Concat(pixelsList), kmeans)
  {
    ConcatLength(pixelsList);
    var all := Concat(pixelsList);
    if |all| == 0 then Err(NoPixels) else FitSorted(nColors, CombinedNInit, all, kmeans)
  }
}
