/** `ImageProcessor` (color_analyzer/core/image_processor.py): the near-gray
    pixel filter, flattening a decoded image into its pixel list, and the
    image-file filters over a directory listing. Decoding a file and listing a
    directory are inputs: a `FileOutcome` per file, an optional listing. */
module ImageProcessor {
  import opened Common
  import opened Text
  import opened Sorting

  /** `SUPPORTED_EXTENSIONS`. */
  const SupportedExtensions: seq<string> := [".png", ".jpg", ".jpeg", ".gif", ".bmp", ".tiff"]

  /** The constructor's default `gray_threshold`. */
  const DefaultGrayThreshold: int := 1

  /** A decoded RGB image, row by row. */
  type Image = seq<seq<Rgb>>

  /** What `load_image` gives for one file: it raised (missing or undecodable),
      or it returned the decoded image. */
  datatype FileOutcome = Unreadable | Decoded(image: Image)

  // ---------------------------------------------------------------------
  // filter_gray_pixels

  function MaxChannel(p: Rgb): int
  {
    if p.r >= p.g && p.r >= p.b then p.r else if p.g >= p.b then p.g else p.b
  }

  function MinChannel(p: Rgb): int
  {
    if p.r <= p.g && p.r <= p.b then p.r else if p.g <= p.b then p.g else p.b
  }

  /** `|max(channel) - min(channel)|`. */
  function GrayDistance(p: Rgb): (d: int)
    ensures d >= 0
    ensures d == 0 <==> p.r == p.g == p.b
  {
    MaxChannel(p) - MinChannel(p)
  }

  /** The mask of `filter_gray_pixels`: the pixel is colourful enough to keep. */
  predicate Kept(p: Rgb, grayThreshold: int)
  {
    GrayDistance(p) >= grayThreshold
  }

  /** `filter_gray_pixels`: the pixels whose channel spread reaches the
      threshold, in their original order. */
  function FilterGrayPixels(pixels: seq<Rgb>, grayThreshold: int): (r: seq<Rgb>)
    ensures |r| <= |pixels|
    ensures forall p :: p in r <==> p in pixels && Kept(p, grayThreshold)
  {
    if pixels == [] then []
    else
      var init := FilterGrayPixels(pixels[..|pixels| - 1], grayThreshold);
      var last := pixels[|pixels| - 1];
      assert pixels == pixels[..|pixels| - 1] + [last];
      if Kept(last, grayThreshold) then init + [last] else init
  }

  /** The mask is applied pixel by pixel, so filtering a concatenation filters
      each part and keeps the parts in order. */
  lemma {:induction false} FilterGrayAppend(a: seq<Rgb>, b: seq<Rgb>, grayThreshold: int)
    ensures FilterGrayPixels(a + b, grayThreshold)
         == FilterGrayPixels(a, grayThreshold) + FilterGrayPixels(b, grayThreshold)
    decreases |b|
  {
    if b != [] {
      var b' := b[..|b| - 1];
      assert (a + b)[..|a + b| - 1] == a + b';
      FilterGrayAppend(a, b', grayThreshold);
    } else {
      assert a + b == a;
    }
  }

  /** Filtering twice removes nothing more than filtering once. */
  lemma {:induction false} FilterGrayIdempotent(pixels: seq<Rgb>, grayThreshold: int)
    ensures FilterGrayPixels(FilterGrayPixels(pixels, grayThreshold), grayThreshold)
         == FilterGrayPixels(pixels, grayThreshold)
  {
    if pixels != [] {
      var init := pixels[..|pixels| - 1];
      var last := pixels[|pixels| - 1];
      FilterGrayIdempotent(init, grayThreshold);
      var f := FilterGrayPixels(init, grayThreshold);
      if Kept(last, grayThreshold) {
        FilterGrayAppend(f, [last], grayThreshold);
        assert FilterGrayPixels([last], grayThreshold) == [last] by {
          assert [last][..0] == [];
        }
      }
    }
  }

  /** With a threshold of zero or below nothing is filtered out. */
  lemma {:induction false} FilterGrayKeepsAll(pixels: seq<Rgb>, grayThreshold: int)
    requires grayThreshold <= 0
    ensures FilterGrayPixels(pixels, grayThreshold) == pixels
  {
    if pixels != [] {
      FilterGrayKeepsAll(pixels[..|pixels| - 1], grayThreshold);
      assert pixels == pixels[..|pixels| - 1] + [pixels[|pixels| - 1]];
    }
  }

  /** With the default threshold 1 exactly the pure grays (r = g = b) go. */
  lemma DefaultThresholdDropsGrays(p: Rgb)
    ensures Kept(p, DefaultGrayThreshold) <==> !(p.r == p.g == p.b)
  {
  }

  // ---------------------------------------------------------------------
  // extract_pixels

  /** `image.reshape(-1, 3)`: the pixels row by row. */
  function Flatten(image: Image): seq<Rgb>
  {
    Concat(image)
  }

  /** `extract_pixels`: every pixel in row-major order, then the gray filter
      when `filterGray` is set. */
  function ExtractPixels(image: Image, filterGray: bool, grayThreshold: int): (pixels: seq<Rgb>)
    ensures !filterGray ==> pixels == Flatten(image)
    ensures filterGray ==> pixels == FilterGrayPixels(Flatten(image), grayThreshold)
  {
    var pixels := Flatten(image);
    if filterGray then FilterGrayPixels(pixels, grayThreshold) else pixels
  }

  ghost predicate Rectangular(image: Image, width: nat)
  {
    forall i :: 0 <= i < |image| ==> |image[i]| == width
  }

  lemma {:induction false} TotalLengthRectangular(image: Image, width: nat)
    requires Rectangular(image, width)
    ensures TotalLength(image) == |image| * width
  {
    if image != [] {
      var init := image[..|image| - 1];
      assert Rectangular(init, width);
      TotalLengthRectangular(init, width);
    }
  }

  /** Without the filter an h-by-w image yields exactly h*w pixels, the pixel in
      row i and column j sitting at position i*w + j. */
  lemma RowMajor(image: Image, width: nat, i: nat, j: nat)
    requires Rectangular(image, width)
    requires i < |image| && j < width
    ensures |ExtractPixels(image, false, DefaultGrayThreshold)| == |image| * width
    ensures i * width + j < |image| * width
    ensures ExtractPixels(image, false, DefaultGrayThreshold)[i * width + j] == image[i][j]
  {
    TotalLengthRectangular(image, width);
    assert Rectangular(image[..i], width);
    TotalLengthRectangular(image[..i], width);
    ConcatLayout(image, i, j);
    assert i * width + j < |image| * width by {
      assert i * width + width <= |image| * width by {
        assert (i + 1) <= |image|;
        MulMono(i + 1, |image|, width);
      }
    }
  }

  lemma MulMono(a: nat, b: nat, c: nat)
    requires a <= b
    ensures a * c <= b * c
  {
  }

  // ---------------------------------------------------------------------
  // get_image_files / get_image_filenames

  /** `name.lower().endswith(SUPPORTED_EXTENSIONS)`. */
  predicate HasSupportedExtension(name: string)
  {
    exists e :: e in SupportedExtensions && EndsWith(Lower(name), e)
  }

  /** The names the comprehension (or the appending loop) keeps, in listing order. */
  function ImageNames(names: seq<string>): (r: seq<string>)
    ensures forall x :: x in r <==> x in names && HasSupportedExtension(x)
    ensures |r| <= |names|
  {
    if names == [] then []
    else
      var init := ImageNames(names[..|names| - 1]);
      var last := names[|names| - 1];
      assert names == names[..|names| - 1] + [last];
      if HasSupportedExtension(last) then init + [last] else init
  }

  /** `os.path.join(folder, name)`. */
  function PathJoin(folder: string, name: string): string
  {
    if name != [] && name[0] == '/' then name
    else if folder == [] || folder[|folder| - 1] == '/' then folder + name
    else folder + "/" + name
  }

  /** The directory part `os.path.join` puts in front of a plain name. */
  function PathPrefix(folder: string): string
  {
    if folder == [] || folder[|folder| - 1] == '/' then folder else folder + "/"
  }

  /** `os.path.basename(path)`: the part after the last `/`. */
  function Basename(path: string): (b: string)
    ensures '/' !in b
    ensures |b| <= |path|
  {
    if path == [] then []
    else if path[|path| - 1] == '/' then []
    else Basename(path[..|path| - 1]) + [path[|path| - 1]]
  }

  /** The base name is the tail of the path. */
  lemma {:induction false} BasenameIsSuffix(path: string)
    ensures Basename(path) == path[|path| - |Basename(path)|..]
  {
    if path != [] && path[|path| - 1] != '/' {
      var init := path[..|path| - 1];
      var b := Basename(init);
      BasenameIsSuffix(init);
      assert init[|init| - |b|..] + [path[|path| - 1]] == path[|path| - 1 - |b|..];
    }
  }

  /** `basename` undoes `join` for the entries of a directory listing. */
  lemma {:induction false} BasenameOfJoin(folder: string, name: string)
    requires '/' !in name
    ensures PathJoin(folder, name) == PathPrefix(folder) + name
    ensures Basename(PathJoin(folder, name)) == name
  {
    var p := PathPrefix(folder);
    assert name != [] ==> name[0] != '/' by {
      if name != [] { assert name[0] in name; }
    }
    BasenameSuffix(p, name);
  }

  lemma {:induction false} BasenameSuffix(p: string, name: string)
    requires '/' !in name
    requires p == [] || p[|p| - 1] == '/'
    ensures Basename(p + name) == name
    decreases |name|
  {
    if name == [] {
      assert p + name == p;
    } else {
      var init := name[..|name| - 1];
      var last := name[|name| - 1];
      assert name == init + [last];
      assert (p + name)[..|p + name| - 1] == p + init;
      assert (p + name)[|p + name| - 1] == last;
      assert last != '/' by { assert last in name; }
      BasenameSuffix(p, init);
    }
  }

  function JoinAll(folder: string, names: seq<string>): (r: seq<string>)
    ensures |r| == |names| && forall k :: 0 <= k < |names| ==> r[k] == PathJoin(folder, names[k])
  {
    seq(|names|, k requires 0 <= k < |names| => PathJoin(folder, names[k]))
  }

  /** `get_image_filenames`: the supported names of the listing, sorted; a
      listing that is not there (not a directory) is `NotADirectoryError`. */
  function GetImageFilenames(listing: Option<seq<string>>): (r: Result<seq<string>>)
    ensures listing.None? <==> r == Err(NotADirectory)
    ensures r.Ok? ==> SortedStrings(r.value)
    ensures r.Ok? ==> multiset(r.value) == multiset(ImageNames(listing.value))
    ensures r.Ok? ==> forall x :: x in r.value <==> x in listing.value && HasSupportedExtension(x)
  {
    match listing
    case None => Err(NotADirectory)
    case Some(names) =>
      var sorted := SortStrings(ImageNames(names));
      SortStringsSorted(ImageNames(names));
      assert forall x :: x in sorted <==> x in multiset(sorted);
      Ok(sorted)
  }

  /** `get_image_files`: appends the joined path of every supported name of the
      listing, then sorts the paths. */
  method GetImageFiles(folder: string, listing: Option<seq<string>>) returns (r: Result<seq<string>>)
    ensures listing.None? <==> r == Err(NotADirectory)
    ensures r.Ok? ==> SortedStrings(r.value)
    ensures r.Ok? ==> multiset(r.value) == multiset(JoinAll(folder, ImageNames(listing.value)))
  {
    if listing.None? {
      return Err(NotADirectory);
    }
    var names := listing.value;
    var files: seq<string> := [];
    for i := 0 to |names|
      invariant files == JoinAll(folder, ImageNames(names[..i]))
    {
      assert names[..i + 1][..i] == names[..i];
      if HasSupportedExtension(names[i]) {
        files := files + [PathJoin(folder, names[i])];
      }
    }
    assert names[..|names|] == names;
    SortStringsSorted(files);
    return Ok(SortStrings(files));
  }

  lemma {:induction false} LexLePrefix(p: string, a: string, b: string)
    ensures LexLe(p + a, p + b) == LexLe(a, b)
  {
    if p != [] {
      assert (p + a)[1..] == p[1..] + a && (p + b)[1..] == p[1..] + b;
      LexLePrefix(p[1..], a, b);
    } else {
      assert p + a == a && p + b == b;
    }
  }

  /** For the names of one directory, the sorted paths are the folder joined to
      the sorted names: `get_image_files` lists, in the same order, exactly the
      files `get_image_filenames` names. */
  lemma ImageFilesMatchFilenames(folder: string, names: seq<string>, paths: seq<string>)
    requires forall k :: 0 <= k < |names| ==> '/' !in names[k]
    requires SortedStrings(paths)
    requires multiset(paths) == multiset(JoinAll(folder, ImageNames(names)))
    ensures paths == JoinAll(folder, GetImageFilenames(Some(names)).value)
  {
    var sortedNames := GetImageFilenames(Some(names)).value;
    var p := PathPrefix(folder);
    var joined := JoinAll(folder, sortedNames);
    forall k | 0 <= k < |sortedNames|
      ensures joined[k] == p + sortedNames[k]
    {
      assert sortedNames[k] in multiset(ImageNames(names));
      assert sortedNames[k] in names;
      BasenameOfJoin(folder, sortedNames[k]);
    }
    assert SortedStrings(joined) by {
      forall i, j | 0 <= i < j < |joined|
        ensures LexLe(joined[i], joined[j])
      {
        LexLePrefix(p, sortedNames[i], sortedNames[j]);
      }
    }
    var join := n => PathJoin(folder, n);
    MapSort(join, ImageNames(names));
    JoinAllIsMap(folder, join, sortedNames);
    JoinAllIsMap(folder, join, ImageNames(names));
    SortedUnique(paths, joined);
  }

  /** `JoinAll` is the joining function applied to every name. */
  lemma JoinAllIsMap(folder: string, f: string -> string, s: seq<string>)
    requires forall n :: f(n) == PathJoin(folder, n)
    ensures MapSeq(f, s) == JoinAll(folder, s)
  {
  }
}
