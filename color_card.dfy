/** `ColorCardGenerator.create_card` and `format_color_data`
    (color_analyzer/visualization/color_card.py): a palette laid out as
    vertical stripes, heaviest colour first, each as wide as its share of
    `card_width_scale`; and the palette as a bracketed list of lines. */
module ColorCard {
  import opened Common
  import opened Sorting
  import opened Clustering
  import opened Text

  /** The constructor defaults. */
  const DefaultCardHeight: nat := 150
  const DefaultCardWidthScale: nat := 400

  /** `color / 255.0`: a 0-255 colour as matplotlib's 0-1 channels. */
  function Normalize(c: Centroid): Centroid
  {
    Centroid(c.r / 255.0, c.g / 255.0, c.b / 255.0)
  }

  predicate AllNonNegative(s: seq<real>)
  {
    forall k :: 0 <= k < |s| ==> s[k] >= 0.0
  }

  /** `int(p * card_width_scale)`: the share of the scale, rounded down. */
  function Share(p: real, scale: nat): (w: nat)
    requires p >= 0.0
    ensures w as real <= p * scale as real < w as real + 1.0
  {
    ProductNonNegative(p, scale as real);
    Trunc(p * scale as real)
  }

  /** `[int(p * card_width_scale) for p in sorted_percentages]`. */
  function Widths(percentages: seq<real>, scale: nat): (w: seq<nat>)
    requires AllNonNegative(percentages)
    ensures |w| == |percentages|
    ensures forall k :: 0 <= k < |w| ==> w[k] == Share(percentages[k], scale)
  {
    seq(|percentages|, k requires 0 <= k < |percentages| => Share(percentages[k], scale))
  }

  /** The stripe widths: the rounded shares, or, when they all round to 0,
      `card_width_scale // n` each; with no colour at all that division
      raises. */
  function StripeWidths(percentages: seq<real>, scale: nat): (w: Result<seq<nat>>)
    requires AllNonNegative(percentages)
    ensures w.Err? <==> |percentages| == 0
    ensures w.Err? ==> w.error == ZeroDivision
    ensures w.Ok? ==> |w.value| == |percentages|
    ensures w.Ok? && SumInt(Widths(percentages, scale)) != 0 ==> w.value == Widths(percentages, scale)
    ensures w.Ok? && SumInt(Widths(percentages, scale)) == 0 ==>
      forall k :: 0 <= k < |w.value| ==> w.value[k] == scale / |percentages|
  {
    var widths := Widths(percentages, scale);
    if SumInt(widths) != 0 then Ok(widths)
    else if |percentages| == 0 then Err(ZeroDivision)
    else Ok(seq(|percentages|, _ => scale / |percentages|))
  }

  /** The card's width: the sum of the rounded shares, or the whole scale
      when that sum is 0. */
  function CardWidth(percentages: seq<real>, scale: nat): nat
    requires AllNonNegative(percentages)
  {
    var total := SumInt(Widths(percentages, scale));
    SumIntNonNegative(Widths(percentages, scale));
    if total == 0 then scale else total
  }

  lemma {:induction false} SumIntNonNegative(s: seq<nat>)
    ensures SumInt(s) >= 0
  {
    if s != [] {
      SumIntNonNegative(s[..|s| - 1]);
    }
  }

  /** A prefix of non-negative widths sums to no more than all of them, and
      one more width adds exactly that width. */
  lemma {:induction false} PrefixSum(s: seq<nat>, k: nat)
    requires k <= |s|
    ensures SumInt(s[..k]) <= SumInt(s)
    ensures SumInt(s[..k]) >= 0
    ensures k < |s| ==> SumInt(s[..k + 1]) == SumInt(s[..k]) + s[k]
    decreases |s|
  {
    SumIntNonNegative(s[..k]);
    if k < |s| {
      assert s[..k + 1][..k] == s[..k];
    }
    if k == |s| {
      assert s[..k] == s;
    } else {
      var n := |s| - 1;
      PrefixSum(s[..n], k);
      assert s[..n][..k] == s[..k];
      assert s[..n] == s[..|s| - 1];
      SumIntNonNegative([s[n]]);
    }
  }

  lemma {:induction false} SumConstant(v: nat, n: nat)
    ensures SumInt(seq(n, _ => v)) == n * v
  {
    if n > 0 {
      var s := seq(n, _ => v);
      assert s[..n - 1] == seq(n - 1, _ => v);
      SumConstant(v, n - 1);
    }
  }

  /** The stripes never run past the card: they fill it exactly, except in
      the fallback, where they cover `n * (scale // n)` of its `scale`
      columns. */
  lemma StripesFit(percentages: seq<real>, scale: nat)
    requires AllNonNegative(percentages) && |percentages| > 0
    ensures SumInt(Widths(percentages, scale)) != 0 ==>
      SumInt(StripeWidths(percentages, scale).value) == CardWidth(percentages, scale)
    ensures SumInt(Widths(percentages, scale)) == 0 ==>
      SumInt(StripeWidths(percentages, scale).value) == |percentages| * (scale / |percentages|)
    ensures SumInt(StripeWidths(percentages, scale).value) <= CardWidth(percentages, scale)
  {
    var n := |percentages|;
    if SumInt(Widths(percentages, scale)) == 0 {
      var w := StripeWidths(percentages, scale).value;
      assert w == seq(n, _ => scale / n);
      SumConstant(scale / n, n);
      assert n * (scale / n) <= scale;
    }
  }

  /** The colour of column j of a card whose stripes have the given colours
      and widths: the colour of the stripe that covers j, black past the
      last stripe. */
  function Paint(colors: seq<Centroid>, widths: seq<nat>, j: int): Centroid
    requires |colors| == |widths|
  {
    if widths == [] then Black
    else
      var n := |widths| - 1;
      if SumInt(widths[..n]) <= j < SumInt(widths) then colors[n]
      else Paint(colors[..n], widths[..n], j)
  }

  /** Stripes are contiguous and disjoint: stripe k alone covers the columns
      from the sum of the widths before it up to that sum plus its own
      width. */
  lemma {:induction false} PaintStripe(colors: seq<Centroid>, widths: seq<nat>, k: nat, j: int)
    requires |colors| == |widths| && k < |widths|
    requires SumInt(widths[..k]) <= j < SumInt(widths[..k]) + widths[k]
    ensures Paint(colors, widths, j) == colors[k]
    decreases |widths|
  {
    var n := |widths| - 1;
    PrefixSum(widths, k);
    if k < n {
      PrefixSum(widths, k + 1);
      PrefixSum(widths, n);
      PrefixSum(widths[..k + 1], k + 1);
      assert widths[..k + 1] == widths[..n][..k + 1];
      PrefixSum(widths[..n], k + 1);
      assert widths[..n][..k] == widths[..k];
      assert colors[..n][k] == colors[k] && widths[..n][k] == widths[k];
      PaintStripe(colors[..n], widths[..n], k, j);
    } else {
      assert widths[..k + 1] == widths;
    }
  }

  /** Columns outside all stripes stay black. */
  lemma {:induction false} PaintBeyond(colors: seq<Centroid>, widths: seq<nat>, j: int)
    requires |colors| == |widths|
    requires j < 0 || j >= SumInt(widths)
    ensures Paint(colors, widths, j) == Black
    decreases |widths|
  {
    if widths != [] {
      var n := |widths| - 1;
      PrefixSum(widths, n);
      assert widths[..n] == widths[..|widths| - 1];
      PaintBeyond(colors[..n], widths[..n], j);
    }
  }

  class ColorCardGenerator {
    const cardHeight: nat
    const cardWidthScale: nat

    constructor (cardHeight: nat, cardWidthScale: nat)
      ensures this.cardHeight == cardHeight && this.cardWidthScale == cardWidthScale
    {
      this.cardHeight := cardHeight;
      this.cardWidthScale := cardWidthScale;
    }

    /** `create_card`: a fresh `card_height` by `CardWidth` array, column j
        painted with the normalised colour of the stripe covering j, the
        stripes in descending-percentage order; an empty palette divides by
        zero. */
    method CreateCard(colors: seq<Centroid>, percentages: seq<real>) returns (r: Result<array2<Centroid>>)
      requires |colors| == |percentages|
      requires AllNonNegative(percentages)
      ensures r.Err? <==> |percentages| == 0
      ensures r.Err? ==> r.error == ZeroDivision
      ensures r.Ok? ==> fresh(r.value)
      ensures r.Ok? ==>
        var sorted := SortPalette(Palette(colors, percentages));
        AllNonNegative(sorted.percentages)
        && r.value.Length0 == cardHeight
        && r.value.Length1 == CardWidth(sorted.percentages, cardWidthScale)
        && forall i, j :: 0 <= i < r.value.Length0 && 0 <= j < r.value.Length1 ==>
             r.value[i, j] == Paint(NormalizeAll(sorted.colors), StripeWidths(sorted.percentages, cardWidthScale).value, j)
    {
      var sorted := SortPalette(Palette(colors, percentages));
      SortedNonNegative(percentages, sorted.percentages);
      var stripeWidths := StripeWidths(sorted.percentages, cardWidthScale);
      if stripeWidths.Err? {
        return Err(stripeWidths.error);
      }
      var widths := stripeWidths.value;
      var totalWidth := CardWidth(sorted.percentages, cardWidthScale);
      StripesFit(sorted.percentages, cardWidthScale);
      var card := new Centroid[cardHeight, totalWidth]((_, _) => Black);
      PaintStripes(card, NormalizeAll(sorted.colors), widths);
      return Ok(card);
    }
  }

  /** The fill loop of `create_card`: stripe k goes from the running `start`
      to `start + width_k`, over every row. */
  method PaintStripes(card: array2<Centroid>, stripeColors: seq<Centroid>, widths: seq<nat>)
    requires |stripeColors| == |widths|
    requires SumInt(widths) <= card.Length1
    requires forall i, j :: 0 <= i < card.Length0 && 0 <= j < card.Length1 ==> card[i, j] == Black
    modifies card
    ensures forall i, j :: 0 <= i < card.Length0 && 0 <= j < card.Length1 ==>
      card[i, j] == Paint(stripeColors, widths, j)
  {
    var start := 0;
    for k := 0 to |widths|
      invariant start == SumInt(widths[..k])
      invariant forall i, j :: 0 <= i < card.Length0 && 0 <= j < card.Length1 ==>
        card[i, j] == Paint(stripeColors[..k], widths[..k], j)
    {
      PrefixSum(widths, k);
      PrefixSum(widths, k + 1);
      var end := start + widths[k];
      forall i, j | 0 <= i < card.Length0 && start <= j < end {
        card[i, j] := stripeColors[k];
      }
      assert widths[..k + 1][..k] == widths[..k] && stripeColors[..k + 1][..k] == stripeColors[..k];
      start := end;
    }
    assert widths[..|widths|] == widths && stripeColors[..|widths|] == stripeColors;
  }

  function NormalizeAll(colors: seq<Centroid>): (n: seq<Centroid>)
    ensures |n| == |colors|
    ensures forall k :: 0 <= k < |colors| ==> n[k] == Normalize(colors[k])
  {
    seq(|colors|, k requires 0 <= k < |colors| => Normalize(colors[k]))
  }

  /** Reordering keeps percentages non-negative. */
  lemma SortedNonNegative(percentages: seq<real>, sorted: seq<real>)
    requires AllNonNegative(percentages)
    requires multiset(sorted) == multiset(percentages)
    ensures AllNonNegative(sorted)
  {
    forall k | 0 <= k < |sorted|
      ensures sorted[k] >= 0.0
    {
      assert sorted[k] in multiset(percentages);
    }
  }

  // ---------------------------------------------------------------------
  // format_color_data

  /** One entry line: the colour's channels as `astype(int)` truncates them,
      and the percentage as the `:.4f` formatter renders it. */
  function ColorLine(c: Centroid, pct: real, formatPct: real -> string): string
  {
    "    ([" + IntToString(Trunc(c.r)) + ", " + IntToString(Trunc(c.g)) + ", " + IntToString(Trunc(c.b))
    + "], " + formatPct(pct) + "),"
  }

  /** One entry line per colour of a palette, in the palette's order. */
  function EntryLines(p: Palette, formatPct: real -> string): (lines: seq<string>)
    requires |p.colors| == |p.percentages|
    ensures |lines| == |p.percentages|
    ensures forall k :: 0 <= k < |lines| ==> lines[k] == ColorLine(p.colors[k], p.percentages[k], formatPct)
  {
    seq(|p.percentages|, k requires 0 <= k < |p.percentages| => ColorLine(p.colors[k], p.percentages[k], formatPct))
  }

  /** The lines `format_color_data` joins: "[", one line per colour in
      descending-percentage order, "]". */
  function FormatColorLines(colors: seq<Centroid>, percentages: seq<real>, formatPct: real -> string): (lines: seq<string>)
    requires |colors| == |percentages|
    ensures |lines| == |percentages| + 2
    ensures lines[0] == "[" && lines[|lines| - 1] == "]"
    ensures lines[1..|lines| - 1] == EntryLines(SortPalette(Palette(colors, percentages)), formatPct)
  {
    var entries := EntryLines(SortPalette(Palette(colors, percentages)), formatPct);
    var lines := ["["] + entries + ["]"];
    assert lines[1..|lines| - 1] == entries;
    lines
  }

  /** The text `format_color_data` returns: the lines joined by newlines. */
  function ColorDataText(colors: seq<Centroid>, percentages: seq<real>, formatPct: real -> string): string
    requires |colors| == |percentages|
  {
    JoinOn(FormatColorLines(colors, percentages, formatPct), '\n')
  }

  /** `format_color_data`: one entry appended per index of
      `argsort(-percentages)`, between the "[" and "]" lines, and the lines
      joined. */
  method FormatColorData(colors: seq<Centroid>, percentages: seq<real>, formatPct: real -> string) returns (text: string)
    requires |colors| == |percentages|
    ensures text == ColorDataText(colors, percentages, formatPct)
  {
    var sorted := SortPalette(Palette(colors, percentages));
    ghost var entries := EntryLines(sorted, formatPct);
    var body: seq<string> := [];
    for k := 0 to |sorted.percentages|
      invariant body == entries[..k]
    {
      var line := ColorLine(sorted.colors[k], sorted.percentages[k], formatPct);
      AppendEntry(entries, k, line);
      body := body + [line];
    }
    assert body == entries;
    var lines := ["["] + body + ["]"];
    text := JoinOn(lines, '\n');
  }

  lemma AppendEntry(entries: seq<string>, k: nat, line: string)
    requires k < |entries| && entries[k] == line
    ensures entries[..k + 1] == entries[..k] + [line]
  {
  }

  /** The entries come out heaviest first, and they are the palette's own
      (colour, percentage) pairs. */
  lemma FormatColorOrder(colors: seq<Centroid>, percentages: seq<real>)
    requires |colors| == |percentages|
    ensures var sorted := SortPalette(Palette(colors, percentages));
      NonIncreasing(sorted.percentages)
      && multiset(Zip(sorted.colors, sorted.percentages)) == multiset(Zip(colors, percentages))
  {
  }

  lemma IntToStringNoNewline(n: int)
    ensures '\n' !in IntToString(n)
  {
    var s := IntToString(n);
    if n >= 0 {
      assert AllDigits(s);
    } else {
      assert AllDigits(s[1..]);
    }
  }

  lemma ColorLineNoNewline(c: Centroid, pct: real, formatPct: real -> string)
    requires '\n' !in formatPct(pct)
    ensures '\n' !in ColorLine(c, pct, formatPct)
  {
    IntToStringNoNewline(Trunc(c.r));
    IntToStringNoNewline(Trunc(c.g));
    IntToStringNoNewline(Trunc(c.b));
  }

  /** Reading the text back line by line gives exactly the n + 2 lines, as
      long as the percentage formatter writes no newline. */
  lemma FormatColorDataLines(colors: seq<Centroid>, percentages: seq<real>, formatPct: real -> string)
    requires |colors| == |percentages|
    requires forall x :: '\n' !in formatPct(x)
    ensures SplitOn(ColorDataText(colors, percentages, formatPct), '\n') == FormatColorLines(colors, percentages, formatPct)
  {
    var lines := FormatColorLines(colors, percentages, formatPct);
    var sorted := SortPalette(Palette(colors, percentages));
    var entries := EntryLines(sorted, formatPct);
    forall k | 0 <= k < |lines|
      ensures '\n' !in lines[k]
    {
      if 0 < k < |lines| - 1 {
        assert lines[k] == entries[k - 1];
        ColorLineNoNewline(sorted.colors[k - 1], sorted.percentages[k - 1], formatPct);
      }
    }
    SplitJoin(lines, '\n');
  }
}
