/** `CooccurrenceAnalyzer` (color_analyzer/core/cooccurrence.py): the presence
    tests and the counting loop of `analyze_folder`, over the outcomes of
    loading each image file in turn rather than over a folder on disk. */
module Cooccurrence {
  import opened Common
  import opened ImageProcessor

  /** The constructor's default `distance_threshold`. */
  const DefaultDistanceThreshold: real := 1.0

  /** The squared Euclidean distance between a pixel and a colour. The
      channels are integers on both sides, so the difference is exact. */
  function SqDist(p: Rgb, c: Rgb): int
  {
    (p.r - c.r) * (p.r - c.r) + (p.g - c.g) * (p.g - c.g) + (p.b - c.b) * (p.b - c.b)
  }

  /** `is_color_present`: `sqrt(d) <= t` for `d >= 0` holds exactly when
      `t >= 0` and `d <= t * t`; the test is that comparison on each pixel,
      OR-ed over the pixels. */
  function IsColorPresent(pixels: seq<Rgb>, color: Rgb, t: real): (r: bool)
    ensures r <==> t >= 0.0 && exists k :: 0 <= k < |pixels| && SqDist(pixels[k], color) as real <= t * t
  {
    if pixels == [] then false
    else
      var init := pixels[..|pixels| - 1];
      assert forall k :: 0 <= k < |init| ==> init[k] == pixels[k];
      IsColorPresent(init, color, t)
      || (t >= 0.0 && SqDist(pixels[|pixels| - 1], color) as real <= t * t)
  }

  /** Some colour of the list is present among the pixels. */
  predicate AnyPresent(pixels: seq<Rgb>, colors: seq<Rgb>, t: real)
  {
    exists c :: 0 <= c < |colors| && IsColorPresent(pixels, colors[c], t)
  }

  /** `are_colors_present`: tries the colours in order and stops at the first
      one present; false for an empty list. */
  method AreColorsPresent(pixels: seq<Rgb>, colors: seq<Rgb>, t: real) returns (found: bool)
    ensures found <==> AnyPresent(pixels, colors, t)
  {
    for c := 0 to |colors|
      invariant forall c' :: 0 <= c' < c ==> !IsColorPresent(pixels, colors[c'], t)
    {
      if IsColorPresent(pixels, colors[c], t) {
        return true;
      }
    }
    return false;
  }

  /** For a two-colour list the test is the OR of the two colours. */
  lemma PairPresence(pixels: seq<Rgb>, x: Rgb, y: Rgb, t: real)
    ensures AnyPresent(pixels, [x, y], t) <==> IsColorPresent(pixels, x, t) || IsColorPresent(pixels, y, t)
  {
    var cs := [x, y];
    if IsColorPresent(pixels, x, t) {
      assert IsColorPresent(pixels, cs[0], t);
    } else if IsColorPresent(pixels, y, t) {
      assert IsColorPresent(pixels, cs[1], t);
    }
  }

  /** Whether an image credits the pair `(i, j)`: two different colours, at
      least one of them present (the test of line 95 is an OR). */
  predicate Credit(pixels: seq<Rgb>, colors: seq<Rgb>, t: real, i: nat, j: nat)
    requires i < |colors| && j < |colors|
  {
    i != j && (IsColorPresent(pixels, colors[i], t) || IsColorPresent(pixels, colors[j], t))
  }

  /** The gate of line 93 changes nothing: every image that credits a pair
      passes the all-colours test. */
  lemma GateImplied(pixels: seq<Rgb>, colors: seq<Rgb>, t: real, i: nat, j: nat)
    requires i < |colors| && j < |colors|
    requires Credit(pixels, colors, t, i, j)
    ensures AnyPresent(pixels, colors, t)
  {
    if !IsColorPresent(pixels, colors[i], t) {
      assert IsColorPresent(pixels, colors[j], t);
    }
  }

  /** The pixels the loop tests for a decoded image: all of them,
      `extract_pixels(image, filter_gray=False)`. */
  function ImagePixels(image: Image): (pixels: seq<Rgb>)
    ensures pixels == Flatten(image)
  {
    ExtractPixels(image, false, DefaultGrayThreshold)
  }

  /** An outcome credits `(i, j)`: it decoded, and its pixels credit the pair. */
  predicate Hit(o: FileOutcome, colors: seq<Rgb>, t: real, i: nat, j: nat)
    requires i < |colors| && j < |colors|
  {
    o.Decoded? && Credit(ImagePixels(o.image), colors, t, i, j)
  }

  /** `cooccurrence_count[i, j]` after the given outcomes: the number of them
      that credit the pair. */
  function Tally(outcomes: seq<FileOutcome>, colors: seq<Rgb>, t: real, i: nat, j: nat): nat
    requires i < |colors| && j < |colors|
  {
    if outcomes == [] then 0
    else
      Tally(outcomes[..|outcomes| - 1], colors, t, i, j)
      + (if Hit(outcomes[|outcomes| - 1], colors, t, i, j) then 1 else 0)
  }

  /** The matrix `analyze_folder` returns: each count over the number of image
      files, unreadable ones included, or all zeros when there are no files. */
  function CooccurrenceMatrix(outcomes: seq<FileOutcome>, colors: seq<Rgb>, t: real): (m: seq<seq<real>>)
    ensures |m| == |colors|
    ensures forall i :: 0 <= i < |m| ==> |m[i]| == |colors|
  {
    var n := |colors|;
    seq(n, i requires 0 <= i < n =>
      seq(n, j requires 0 <= j < n =>
        if |outcomes| > 0 then Tally(outcomes, colors, t, i, j) as real / |outcomes| as real else 0.0))
  }

  /** One image's pass over `combinations(range(n), 2)`: each pair `i < j`
      that the image credits gets one more in both `[i, j]` and `[j, i]`. */
  method CreditImage(count: array2<int>, pixels: seq<Rgb>, colors: seq<Rgb>, t: real)
    requires count.Length0 == |colors| && count.Length1 == |colors|
    modifies count
    ensures forall a, b :: 0 <= a < |colors| && 0 <= b < |colors| ==>
      count[a, b] == old(count[a, b]) + (if Credit(pixels, colors, t, a, b) then 1 else 0)
  {
    var n := |colors|;
    for i := 0 to n
      invariant forall a, b :: 0 <= a < n && 0 <= b < n ==>
        count[a, b] == old(count[a, b]) + (if Credit(pixels, colors, t, a, b) && (a < i || b < i) then 1 else 0)
    {
      for j := i + 1 to n
        invariant forall a, b :: 0 <= a < n && 0 <= b < n ==>
          count[a, b] == old(count[a, b])
            + (if Credit(pixels, colors, t, a, b) && (a < i || b < i || (a == i && b < j) || (b == i && a < j)) then 1 else 0)
      {
        var hit := AreColorsPresent(pixels, [colors[i], colors[j]], t);
        PairPresence(pixels, colors[i], colors[j], t);
        if hit {
          count[i, j] := count[i, j] + 1;
          count[j, i] := count[j, i] + 1;
        }
      }
    }
  }

  /** `analyze_folder` on the outcomes of loading each listed file, in order:
      one progress report `(idx, total)` per file before it is processed, the
      gate on all colours, the pair loop, and the final normalisation. */
  method AnalyzeFolder(outcomes: seq<FileOutcome>, colors: seq<Rgb>, t: real)
    returns (matrix: seq<seq<real>>, progress: seq<(nat, nat)>)
    ensures matrix == CooccurrenceMatrix(outcomes, colors, t)
    ensures |progress| == |outcomes|
    ensures forall k :: 0 <= k < |progress| ==> progress[k] == (k, |outcomes|)
  {
    var n := |colors|;
    var total := |outcomes|;
    var count := new int[n, n]((_, _) => 0);
    progress := [];
    for idx := 0 to total
      invariant |progress| == idx
      invariant forall k :: 0 <= k < idx ==> progress[k] == (k, total)
      invariant forall a, b :: 0 <= a < n && 0 <= b < n ==> count[a, b] == Tally(outcomes[..idx], colors, t, a, b)
    {
      progress := progress + [(idx, total)];
      assert outcomes[..idx + 1][..idx] == outcomes[..idx];
      if outcomes[idx].Decoded? {
        var pixels := ImagePixels(outcomes[idx].image);
        var gate := AreColorsPresent(pixels, colors, t);
        if gate {
          CreditImage(count, pixels, colors, t);
        } else {
          forall a, b | 0 <= a < n && 0 <= b < n
            ensures !Credit(pixels, colors, t, a, b)
          {
            if Credit(pixels, colors, t, a, b) {
              GateImplied(pixels, colors, t, a, b);
            }
          }
        }
      }
    }
    assert outcomes[..total] == outcomes;
    matrix := seq(n, i requires 0 <= i < n reads count =>
      seq(n, j requires 0 <= j < n reads count =>
        if total > 0 then count[i, j] as real / total as real else count[i, j] as real));
    ghost var spec := CooccurrenceMatrix(outcomes, colors, t);
    forall i | 0 <= i < n
      ensures matrix[i] == spec[i]
    {
      assert forall j :: 0 <= j < n ==> matrix[i][j] == spec[i][j];
    }
  }

  // ---------------------------------------------------------------------
  // What the matrix is

  lemma {:induction false} TallySymmetric(outcomes: seq<FileOutcome>, colors: seq<Rgb>, t: real, i: nat, j: nat)
    requires i < |colors| && j < |colors|
    ensures Tally(outcomes, colors, t, i, j) == Tally(outcomes, colors, t, j, i)
  {
    if outcomes != [] {
      TallySymmetric(outcomes[..|outcomes| - 1], colors, t, i, j);
    }
  }

  lemma {:induction false} TallyDiagonal(outcomes: seq<FileOutcome>, colors: seq<Rgb>, t: real, i: nat)
    requires i < |colors|
    ensures Tally(outcomes, colors, t, i, i) == 0
  {
    if outcomes != [] {
      TallyDiagonal(outcomes[..|outcomes| - 1], colors, t, i);
    }
  }

  lemma {:induction false} TallyBound(outcomes: seq<FileOutcome>, colors: seq<Rgb>, t: real, i: nat, j: nat)
    requires i < |colors| && j < |colors|
    ensures Tally(outcomes, colors, t, i, j) <= |outcomes|
  {
    if outcomes != [] {
      TallyBound(outcomes[..|outcomes| - 1], colors, t, i, j);
    }
  }

  /** The matrix is symmetric: only pairs `i < j` are visited, and each
      increment is mirrored. */
  lemma MatrixSymmetric(outcomes: seq<FileOutcome>, colors: seq<Rgb>, t: real, i: nat, j: nat)
    requires i < |colors| && j < |colors|
    ensures CooccurrenceMatrix(outcomes, colors, t)[i][j] == CooccurrenceMatrix(outcomes, colors, t)[j][i]
  {
    TallySymmetric(outcomes, colors, t, i, j);
  }

  /** The diagonal is zero: no pair pairs a colour with itself. */
  lemma MatrixZeroDiagonal(outcomes: seq<FileOutcome>, colors: seq<Rgb>, t: real, i: nat)
    requires i < |colors|
    ensures CooccurrenceMatrix(outcomes, colors, t)[i][i] == 0.0
  {
    TallyDiagonal(outcomes, colors, t, i);
  }

  /** Every cell is a frequency in `[0, 1]`. */
  lemma MatrixBounds(outcomes: seq<FileOutcome>, colors: seq<Rgb>, t: real, i: nat, j: nat)
    requires i < |colors| && j < |colors|
    ensures 0.0 <= CooccurrenceMatrix(outcomes, colors, t)[i][j] <= 1.0
  {
    if |outcomes| > 0 {
      TallyBound(outcomes, colors, t, i, j);
      var c := Tally(outcomes, colors, t, i, j) as real;
      var n := |outcomes| as real;
      assert c <= n;
      FractionBounds(c, n);
    }
  }

  lemma FractionBounds(c: real, n: real)
    requires 0.0 <= c <= n && n > 0.0
    ensures 0.0 <= c / n <= 1.0
  {
    assert c / n * n == c;
  }

  /** With fewer than two colours there is no pair, and the matrix is zero. */
  lemma MatrixFewColors(outcomes: seq<FileOutcome>, colors: seq<Rgb>, t: real, i: nat, j: nat)
    requires |colors| < 2 && i < |colors| && j < |colors|
    ensures CooccurrenceMatrix(outcomes, colors, t)[i][j] == 0.0
  {
    TallyDiagonal(outcomes, colors, t, i);
  }

  /** A file that fails to load adds to the divisor and to no count. */
  lemma TallyUnreadable(outcomes: seq<FileOutcome>, colors: seq<Rgb>, t: real, i: nat, j: nat)
    requires i < |colors| && j < |colors|
    ensures Tally(outcomes + [Unreadable], colors, t, i, j) == Tally(outcomes, colors, t, i, j)
  {
    assert (outcomes + [Unreadable])[..|outcomes|] == outcomes;
  }

  /** So when every file fails, the matrix is zero although there are files. */
  lemma {:induction false} AllUnreadable(outcomes: seq<FileOutcome>, colors: seq<Rgb>, t: real, i: nat, j: nat)
    requires forall k :: 0 <= k < |outcomes| ==> outcomes[k] == Unreadable
    requires i < |colors| && j < |colors|
    ensures Tally(outcomes, colors, t, i, j) == 0
  {
    if outcomes != [] {
      var init := outcomes[..|outcomes| - 1];
      AllUnreadable(init, colors, t, i, j);
    }
  }

  /** The number of decoded images in which colour `c` is present. */
  function Present(outcomes: seq<FileOutcome>, colors: seq<Rgb>, t: real, c: nat): nat
    requires c < |colors|
  {
    if outcomes == [] then 0
    else
      var o := outcomes[|outcomes| - 1];
      Present(outcomes[..|outcomes| - 1], colors, t, c)
      + (if o.Decoded? && IsColorPresent(ImagePixels(o.image), colors[c], t) then 1 else 0)
  }

  /** The number of decoded images in which both colours are present. */
  function Both(outcomes: seq<FileOutcome>, colors: seq<Rgb>, t: real, i: nat, j: nat): nat
    requires i < |colors| && j < |colors|
  {
    if outcomes == [] then 0
    else
      var o := outcomes[|outcomes| - 1];
      Both(outcomes[..|outcomes| - 1], colors, t, i, j)
      + (if o.Decoded? && IsColorPresent(ImagePixels(o.image), colors[i], t)
            && IsColorPresent(ImagePixels(o.image), colors[j], t) then 1 else 0)
  }

  /** The count of a pair of distinct colours is that of the images holding
      either colour, by inclusion and exclusion: an image holding only one of
      the two still counts, so the count is not that of images holding both. */
  lemma {:induction false} TallyInclusionExclusion(outcomes: seq<FileOutcome>, colors: seq<Rgb>, t: real, i: nat, j: nat)
    requires i < |colors| && j < |colors| && i != j
    ensures Tally(outcomes, colors, t, i, j) + Both(outcomes, colors, t, i, j)
         == Present(outcomes, colors, t, i) + Present(outcomes, colors, t, j)
  {
    if outcomes != [] {
      TallyInclusionExclusion(outcomes[..|outcomes| - 1], colors, t, i, j);
    }
  }
}
