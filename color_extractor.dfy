/** `ColorExtractor` (color_analyzer/core/color_extractor.py): palette
    extraction from one image, from a folder with every image pooled, and
    from a folder image by image. Reading a file is the parameter `load`,
    which gives each path's outcome; the listing is the result of
    `get_image_files`. */
module ColorExtractor {
  import opened Common
  import opened Sorting
  import opened ImageProcessor
  import opened Clustering

  /** The first `n` calls `progress_callback(i, total, basename)` of a loop
      over the files: one per file, in order, before the file is read. */
  function Reports(files: seq<string>, n: nat): (p: seq<(nat, nat, string)>)
    requires n <= |files|
    ensures |p| == n
    ensures forall k :: 0 <= k < n ==> p[k] == (k, |files|, Basename(files[k]))
  {
    if n == 0 then [] else Reports(files, n - 1) + [(n - 1, |files|, Basename(files[n - 1]))]
  }

  /** `load_and_extract_pixels` with `filter_gray=True`: the error of
      `load_image`, or the pixels that pass the gray filter. */
  function LoadPixels(o: FileOutcome, grayThreshold: int): (r: Result<seq<Rgb>>)
    ensures r.Err? <==> o.Unreadable?
    ensures r.Err? ==> r.error == ImageUnreadable
    ensures r.Ok? ==> r.value == FilterGrayPixels(Flatten(o.image), grayThreshold)
  {
    match o
    case Unreadable => Err(ImageUnreadable)
    case Decoded(image) => Ok(ExtractPixels(image, true, grayThreshold))
  }

  /** The empty `(np.array([]), np.array([]))` pair. */
  const EmptyPalette := Palette([], [])

  /** `extract_from_image`: the load error escapes; no pixel left after the
      gray filter gives the empty pair; otherwise the sorted clustering, whose
      K-means error escapes too. */
  function ExtractFromImage(o: FileOutcome, nColors: nat, grayThreshold: int, kmeans: KMeans): (r: Result<Palette>)
    requires IsKMeans(kmeans)
    ensures r.Ok? <==>
      o.Decoded? && (|LoadPixels(o, grayThreshold).value| == 0 || 1 <= nColors <= |LoadPixels(o, grayThreshold).value|)
    ensures o.Unreadable? ==> r == Err(ImageUnreadable)
    ensures o.Decoded? && |LoadPixels(o, grayThreshold).value| == 0 ==> r == Ok(EmptyPalette)
    ensures o.Decoded? && |LoadPixels(o, grayThreshold).value| > 0 ==>
      r == FitSorted(nColors, DefaultNInit, LoadPixels(o, grayThreshold).value, kmeans)
    ensures r.Ok? && |r.value.colors| > 0 ==>
      |r.value.colors| == nColors && |r.value.percentages| == nColors && NonIncreasing(r.value.percentages)
  {
    match LoadPixels(o, grayThreshold)
    case Err(e) => Err(e)
    case Ok(pixels) =>
      if |pixels| == 0 then Ok(EmptyPalette) else FitSorted(nColors, DefaultNInit, pixels, kmeans)
  }

  /** The pixel arrays `extract_from_folder` collects, in file order: one per
      file that loads and keeps at least one pixel. */
  function Survivors(files: seq<string>, load: string -> FileOutcome, grayThreshold: int): (s: seq<seq<Rgb>>)
    ensures |s| <= |files|
    ensures forall k :: 0 <= k < |s| ==> |s[k]| > 0
  {
    if files == [] then []
    else
      var init := Survivors(files[..|files| - 1], load, grayThreshold);
      var px := LoadPixels(load(files[|files| - 1]), grayThreshold);
      if px.Ok? && |px.value| > 0 then init + [px.value] else init
  }

  /** What `extract_from_folder` returns for a listing: the sorted clustering
      of the survivors stacked in file order, or the empty pair when none
      survives (no file at all included). */
  function PooledPalette(files: seq<string>, load: string -> FileOutcome, nColors: nat, grayThreshold: int,
                         kmeans: KMeans): Result<Palette>
    requires IsKMeans(kmeans)
  {
    var survivors := Survivors(files, load, grayThreshold);
    if survivors == [] then Ok(EmptyPalette) else FitSorted(nColors, DefaultNInit, Concat(survivors), kmeans)
  }

  /** `extract_from_folder`: the listing error escapes; otherwise one progress
      report `(i, total, basename)` per file before it is read, skipping every
      file that fails or keeps no pixel, then one clustering of the pool,
      whose K-means error escapes. */
  method ExtractFromFolder(imageFiles: Result<seq<string>>, load: string -> FileOutcome, nColors: nat,
                           grayThreshold: int, kmeans: KMeans)
    returns (r: Result<Palette>, progress: seq<(nat, nat, string)>)
    requires IsKMeans(kmeans)
    ensures imageFiles.Err? ==> r == Err(imageFiles.error) && progress == []
    ensures imageFiles.Ok? ==> r == PooledPalette(imageFiles.value, load, nColors, grayThreshold, kmeans)
    ensures imageFiles.Ok? ==> progress == Reports(imageFiles.value, |imageFiles.value|)
  {
    progress := [];
    if imageFiles.Err? {
      return Err(imageFiles.error), progress;
    }
    var files := imageFiles.value;
    if files == [] {
      return Ok(EmptyPalette), progress;
    }
    var allPixels: seq<seq<Rgb>> := [];
    var total := |files|;
    for i := 0 to total
      invariant progress == Reports(files, i)
      invariant allPixels == Survivors(files[..i], load, grayThreshold)
    {
      assert files[..i + 1][..i] == files[..i];
      progress := progress + [(i, total, Basename(files[i]))];
      var pixels := LoadPixels(load(files[i]), grayThreshold);
      if pixels.Ok? && |pixels.value| > 0 {
        allPixels := allPixels + [pixels.value];
      }
    }
    assert files[..total] == files;
    if allPixels == [] {
      return Ok(EmptyPalette), progress;
    }
    var combined := Concat(allPixels);
    return FitSorted(nColors, DefaultNInit, combined, kmeans), progress;
  }

  /** The entry `extract_per_image` records for one file, if any: its base
      name and palette when the extraction succeeds with colours, which is
      when the file loads and keeps at least `n_colors` pixels, with
      `n_colors` positive. */
  function EntryOf(path: string, load: string -> FileOutcome, nColors: nat, grayThreshold: int, kmeans: KMeans)
    : (e: Option<(string, Palette)>)
    requires IsKMeans(kmeans)
    ensures e.Some? <==> load(path).Decoded? && 1 <= nColors <= |LoadPixels(load(path), grayThreshold).value|
    ensures e.Some? ==> e.value.0 == Basename(path)
    ensures e.Some? ==> ExtractFromImage(load(path), nColors, grayThreshold, kmeans) == Ok(e.value.1)
  {
    var extracted := ExtractFromImage(load(path), nColors, grayThreshold, kmeans);
    if extracted.Ok? && |extracted.value.colors| > 0 then Some((Basename(path), extracted.value)) else None
  }

  /** The entries `extract_per_image` collects, in file order. */
  function PerImage(files: seq<string>, load: string -> FileOutcome, nColors: nat, grayThreshold: int, kmeans: KMeans)
    : (entries: seq<(string, Palette)>)
    requires IsKMeans(kmeans)
    ensures |entries| <= |files|
  {
    if files == [] then []
    else
      var init := PerImage(files[..|files| - 1], load, nColors, grayThreshold, kmeans);
      var e := EntryOf(files[|files| - 1], load, nColors, grayThreshold, kmeans);
      if e.Some? then init + [e.value] else init
  }

  /** The `try` block of `extract_per_image` for one file: the entry to
      record, or nothing when the extraction raises or yields no colour. */
  method TryExtract(path: string, filename: string, load: string -> FileOutcome, nColors: nat, grayThreshold: int,
                    kmeans: KMeans) returns (entry: Option<(string, Palette)>)
    requires IsKMeans(kmeans)
    requires filename == Basename(path)
    ensures entry == EntryOf(path, load, nColors, grayThreshold, kmeans)
  {
    var extracted := ExtractFromImage(load(path), nColors, grayThreshold, kmeans);
    if extracted.Ok? && |extracted.value.colors| > 0 {
      return Some((filename, extracted.value));
    }
    return None;
  }

  /** `extract_per_image`: the listing error escapes; otherwise one progress
      report per file, and one entry per file that yields colours; a file
      whose extraction raises is skipped. */
  method ExtractPerImage(imageFiles: Result<seq<string>>, load: string -> FileOutcome, nColors: nat,
                         grayThreshold: int, kmeans: KMeans)
    returns (r: Result<seq<(string, Palette)>>, progress: seq<(nat, nat, string)>)
    requires IsKMeans(kmeans)
    ensures imageFiles.Err? ==> r == Err(imageFiles.error) && progress == []
    ensures imageFiles.Ok? ==> r == Ok(PerImage(imageFiles.value, load, nColors, grayThreshold, kmeans))
    ensures imageFiles.Ok? ==> progress == Reports(imageFiles.value, |imageFiles.value|)
  {
    progress := [];
    if imageFiles.Err? {
      return Err(imageFiles.error), progress;
    }
    var files := imageFiles.value;
    var results: seq<(string, Palette)> := [];
    var total := |files|;
    for i := 0 to total
      invariant progress == Reports(files, i)
      invariant results == PerImage(files[..i], load, nColors, grayThreshold, kmeans)
    {
      var filename := Basename(files[i]);
      progress := progress + [(i, total, filename)];
      var entry := TryExtract(files[i], filename, load, nColors, grayThreshold, kmeans);
      PerImagePrefix(files, load, nColors, grayThreshold, kmeans, i);
      if entry.Some? {
        results := results + [entry.value];
      }
    }
    assert files[..total] == files;
    return Ok(results), progress;
  }

  /** One more file extends the entries by that file's entry, if any. */
  lemma PerImagePrefix(files: seq<string>, load: string -> FileOutcome, nColors: nat, g: int, kmeans: KMeans, i: nat)
    requires IsKMeans(kmeans) && i < |files|
    ensures var e := EntryOf(files[i], load, nColors, g, kmeans);
      PerImage(files[..i + 1], load, nColors, g, kmeans)
      == PerImage(files[..i], load, nColors, g, kmeans) + (if e.Some? then [e.value] else [])
  {
    assert files[..i + 1][..i] == files[..i];
  }

  // ---------------------------------------------------------------------
  // The aggregation rules

  /** Survivors of consecutive runs of files are the runs' survivors in order. */
  lemma {:induction false} SurvivorsAppend(a: seq<string>, b: seq<string>, load: string -> FileOutcome, g: int)
    ensures Survivors(a + b, load, g) == Survivors(a, load, g) + Survivors(b, load, g)
    decreases |b|
  {
    if b == [] {
      assert a + b == a;
    } else {
      var b' := b[..|b| - 1];
      assert (a + b)[..|a + b| - 1] == a + b';
      assert (a + b)[|a + b| - 1] == b[|b| - 1];
      SurvivorsAppend(a, b', load, g);
    }
  }

  /** The pool is empty exactly when every file fails to load or keeps no
      pixel, and so the result is the empty pair exactly then. */
  lemma {:induction false} SurvivorsEmpty(files: seq<string>, load: string -> FileOutcome, g: int)
    ensures Survivors(files, load, g) == [] <==>
      forall k :: 0 <= k < |files| ==>
        LoadPixels(load(files[k]), g).Err? || |LoadPixels(load(files[k]), g).value| == 0
  {
    if files != [] {
      var init := files[..|files| - 1];
      SurvivorsEmpty(init, load, g);
      assert forall k :: 0 <= k < |init| ==> init[k] == files[k];
    }
  }

  /** What each file offers the pool, in file order: its kept pixels, or
      nothing for a file that fails to load. */
  function KeptPixels(files: seq<string>, load: string -> FileOutcome, g: int): seq<seq<Rgb>>
  {
    seq(|files|, k requires 0 <= k < |files| =>
      var px := LoadPixels(load(files[k]), g);
      if px.Ok? then px.value else [])
  }

  /** The number of pixels each file keeps, added up (0 for a failing file). */
  function KeptTotal(files: seq<string>, load: string -> FileOutcome, g: int): nat
  {
    TotalLength(KeptPixels(files, load, g))
  }

  /** The pooled clustering sees exactly the kept pixels of every file, file
      after file, so the pool's size is what the files keep, added up. */
  lemma {:induction false} PoolSize(files: seq<string>, load: string -> FileOutcome, g: int)
    ensures Concat(Survivors(files, load, g)) == Concat(KeptPixels(files, load, g))
    ensures |Concat(Survivors(files, load, g))| == KeptTotal(files, load, g)
  {
    ConcatLength(KeptPixels(files, load, g));
    if files != [] {
      var init := files[..|files| - 1];
      PoolSize(init, load, g);
      var px := LoadPixels(load(files[|files| - 1]), g);
      var kept := if px.Ok? then px.value else [];
      KeptPixelsSnoc(files, load, g);
      ConcatSnoc(KeptPixels(init, load, g), kept);
      if px.Ok? && |px.value| > 0 {
        ConcatSnoc(Survivors(init, load, g), px.value);
      }
    }
  }

  /** One more file adds its kept pixels to the end of the offers. */
  lemma KeptPixelsSnoc(files: seq<string>, load: string -> FileOutcome, g: int)
    requires files != []
    ensures var px := LoadPixels(load(files[|files| - 1]), g);
      KeptPixels(files, load, g) == KeptPixels(files[..|files| - 1], load, g) + [if px.Ok? then px.value else []]
  {
  }

  /** The pooled extraction is the empty pair exactly when no pixel is kept;
      it fails exactly when some pixel is kept but fewer than `n_colors`, or
      no colour is asked for; otherwise it has `n_colors` colours with
      non-increasing percentages. */
  lemma {:induction false} PooledOutcome(files: seq<string>, load: string -> FileOutcome, nColors: nat, g: int,
                                         kmeans: KMeans)
    requires IsKMeans(kmeans)
    ensures var r := PooledPalette(files, load, nColors, g, kmeans);
      var kept := KeptTotal(files, load, g);
      (r == Ok(EmptyPalette) <==> kept == 0)
      && (r.Err? <==> 0 < kept && !(1 <= nColors <= kept))
      && (r.Ok? && kept > 0 ==> |r.value.colors| == nColors && NonIncreasing(r.value.percentages))
  {
    PoolSize(files, load, g);
    var survivors := Survivors(files, load, g);
    if survivors != [] {
      var last := |survivors| - 1;
      assert survivors == survivors[..last] + [survivors[last]];
      ConcatSnoc(survivors[..last], survivors[last]);
    }
  }

  /** Every per-image entry is the entry of one of the files: its base name
      and its own sorted palette. */
  lemma {:induction false} PerImageEntries(files: seq<string>, load: string -> FileOutcome, nColors: nat, g: int,
                                           kmeans: KMeans, k: nat)
    requires IsKMeans(kmeans)
    requires k < |PerImage(files, load, nColors, g, kmeans)|
    ensures exists f :: 0 <= f < |files| && EntryOf(files[f], load, nColors, g, kmeans) == Some(PerImage(files, load, nColors, g, kmeans)[k])
  {
    var init := files[..|files| - 1];
    PerImageIndex(files, load, nColors, g, kmeans, k);
    if k < |PerImage(init, load, nColors, g, kmeans)| {
      PerImageEntries(init, load, nColors, g, kmeans, k);
      var f :| 0 <= f < |init| && EntryOf(init[f], load, nColors, g, kmeans) == Some(PerImage(init, load, nColors, g, kmeans)[k]);
      assert init[f] == files[f];
    } else {
      assert EntryOf(files[|files| - 1], load, nColors, g, kmeans) == Some(PerImage(files, load, nColors, g, kmeans)[k]);
    }
  }

  /** Entry `k` of a listing comes from the listing without its last file, or
      is the last file's own entry. */
  lemma PerImageIndex(files: seq<string>, load: string -> FileOutcome, nColors: nat, g: int, kmeans: KMeans, k: nat)
    requires IsKMeans(kmeans)
    requires k < |PerImage(files, load, nColors, g, kmeans)|
    ensures var pre := PerImage(files[..|files| - 1], load, nColors, g, kmeans);
      k <= |pre| && (k < |pre| ==> PerImage(files, load, nColors, g, kmeans)[k] == pre[k])
    ensures k == |PerImage(files[..|files| - 1], load, nColors, g, kmeans)| ==>
      EntryOf(files[|files| - 1], load, nColors, g, kmeans) == Some(PerImage(files, load, nColors, g, kmeans)[k])
  {
  }

  /** An entry's percentages are non-increasing: it is a `fit_sorted` result. */
  lemma EntrySorted(path: string, load: string -> FileOutcome, nColors: nat, g: int, kmeans: KMeans)
    requires IsKMeans(kmeans)
    requires EntryOf(path, load, nColors, g, kmeans).Some?
    ensures NonIncreasing(EntryOf(path, load, nColors, g, kmeans).value.1.percentages)
    ensures |EntryOf(path, load, nColors, g, kmeans).value.1.colors| == nColors
  {
  }

  /** A file that fails to load, keeps no pixel, or keeps fewer pixels than
      the colours asked for (K-means raises), adds no entry. */
  lemma PerImageSkips(files: seq<string>, path: string, load: string -> FileOutcome, nColors: nat, g: int, kmeans: KMeans)
    requires IsKMeans(kmeans)
    requires load(path).Unreadable? || !(1 <= nColors <= |LoadPixels(load(path), g).value|)
    ensures PerImage(files + [path], load, nColors, g, kmeans) == PerImage(files, load, nColors, g, kmeans)
  {
    assert (files + [path])[..|files|] == files;
  }
}
