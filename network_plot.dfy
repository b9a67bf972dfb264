/** `NetworkPlotter.plot`'s edge loop, `parse_color_input` and
    `parse_matrix_input` (color_analyzer/visualization/network_plot.py). The
    plot itself is matplotlib's; the model is which edges the loop draws, in
    which style, and what it reports as progress. */
module NetworkPlot {
  import opened Common
  import opened Sorting
  import opened Text

  /** The constructor defaults. */
  const DefaultBaseThreshold: int := 3
  const DefaultHighlightThreshold: int := 7

  /** A drawn edge: red with line width 2, or gray with line width 1. */
  datatype EdgeStyle = Red | Gray

  function LineWidth(style: EdgeStyle): nat
  {
    if style == Red then 2 else 1
  }

  /** The style of an edge of the given weight, or `None` when it is not
      drawn. */
  function Classify(weight: real, base: int, highlight: int): (style: Option<EdgeStyle>)
    ensures style == Some(Red) <==> weight >= highlight as real
    ensures style == Some(Gray) <==> base as real <= weight < highlight as real
    ensures style == None <==> weight < base as real && weight < highlight as real
  {
    if weight >= highlight as real then Some(Red)
    else if weight >= base as real then Some(Gray)
    else None
  }

  // ---------------------------------------------------------------------
  // The pairs the loop visits

  /** `(i, j) for j in range(i + 1, n)`. */
  function RowPairs(i: nat, n: nat): (row: seq<(nat, nat)>)
    ensures |row| == if i < n then n - i - 1 else 0
    ensures forall d :: 0 <= d < |row| ==> row[d] == (i, i + 1 + d)
  {
    if n <= i + 1 then [] else RowPairs(i, n - 1) + [(i, n - 1)]
  }

  /** The pairs the nested loops visit in the first `i` rounds of the outer
      loop, in visiting order. */
  function PairsBefore(n: nat, i: nat): seq<(nat, nat)>
  {
    if i == 0 then [] else PairsBefore(n, i - 1) + RowPairs(i - 1, n)
  }

  /** The loops visit exactly the unordered pairs `i < j` of rows already
      entered. */
  lemma {:induction false} PairsBeforeMembers(n: nat, i: nat, a: nat, b: nat)
    requires i <= n
    ensures (a, b) in PairsBefore(n, i) <==> a < i && a < b < n
  {
    if i > 0 {
      PairsBeforeMembers(n, i - 1, a, b);
      var row := RowPairs(i - 1, n);
      if a == i - 1 && a < b < n {
        assert row[b - i] == (a, b);
      }
    }
  }

  predicate PairLess(p: (nat, nat), q: (nat, nat))
  {
    p.0 < q.0 || (p.0 == q.0 && p.1 < q.1)
  }

  /** The visiting order is strictly increasing, so no pair is visited
      twice. */
  lemma {:induction false} PairsBeforeIncreasing(n: nat, i: nat)
    requires i <= n
    ensures forall x, y :: 0 <= x < y < |PairsBefore(n, i)| ==> PairLess(PairsBefore(n, i)[x], PairsBefore(n, i)[y])
    ensures forall x :: 0 <= x < |PairsBefore(n, i)| ==> PairsBefore(n, i)[x].0 < i
  {
    if i > 0 {
      PairsBeforeIncreasing(n, i - 1);
      var before := PairsBefore(n, i - 1);
      var row := RowPairs(i - 1, n);
      var all := before + row;
      assert forall x :: |before| <= x < |all| ==> all[x] == row[x - |before|];
    }
  }

  /** `2 * |pairs| == i * (2n - i - 1)`: each row i contributes n - i - 1. */
  lemma {:induction false} PairsBeforeCount(n: nat, i: nat)
    requires i <= n
    ensures 2 * |PairsBefore(n, i)| == i * (2 * n - i - 1)
  {
    if i > 0 {
      PairsBeforeCount(n, i - 1);
      assert |PairsBefore(n, i)| == |PairsBefore(n, i - 1)| + (n - i);
      assert (i - 1) * (2 * n - i) + 2 * (n - i) == i * (2 * n - i - 1);
    }
  }

  /** `total_edges = n * (n - 1) // 2` is the number of pairs visited. */
  lemma AllPairsCount(n: nat)
    ensures |PairsBefore(n, n)| == n * (n - 1) / 2
  {
    PairsBeforeCount(n, n);
    assert 2 * |PairsBefore(n, n)| == n * (n - 1);
  }

  // ---------------------------------------------------------------------
  // What the loop draws and reports

  /** Every visited pair indexes the matrix. */
  predicate Covers(matrix: seq<seq<real>>, pairs: seq<(nat, nat)>)
  {
    forall k :: 0 <= k < |pairs| ==> pairs[k].0 < |matrix| && pairs[k].1 < |matrix[pairs[k].0]|
  }

  /** `matrix[i][j]`; 0 outside the matrix, where `plot` is never called
      (`PairsCovered`). */
  function At(matrix: seq<seq<real>>, i: nat, j: nat): real
  {
    if i < |matrix| && j < |matrix[i]| then matrix[i][j] else 0.0
  }

  /** The edges drawn for the visited pairs, in visiting order, each with the
      style of `matrix[i][j]`. */
  function Drawn(matrix: seq<seq<real>>, pairs: seq<(nat, nat)>, base: int, highlight: int): (edges: seq<(nat, nat, EdgeStyle)>)
    ensures |edges| <= |pairs|
  {
    if pairs == [] then []
    else
      var n := |pairs| - 1;
      var (i, j) := pairs[n];
      Drawn(matrix, pairs[..n], base, highlight)
      + (match Classify(At(matrix, i, j), base, highlight)
         case Some(style) => [(i, j, style)]
         case None => [])
  }

  /** `progress_callback(edge_count, total_edges)` after each drawn edge, the
      count being the number of pairs visited so far; no call at all when
      `total_edges` is 0. */
  function Progress(matrix: seq<seq<real>>, pairs: seq<(nat, nat)>, base: int, highlight: int, total: nat): (calls: seq<(nat, nat)>)
  {
    if pairs == [] then []
    else
      var n := |pairs| - 1;
      var (i, j) := pairs[n];
      Progress(matrix, pairs[..n], base, highlight, total)
      + (if Classify(At(matrix, i, j), base, highlight).Some? && total > 0 then [(|pairs|, total)] else [])
  }

  /** The matrix has an entry for every pair `i < j` of the n nodes: rows
      0 to n - 2 exist and have at least n entries. */
  predicate HasUpperTriangle(matrix: seq<seq<real>>, n: nat)
  {
    n - 1 <= |matrix| && forall i :: 0 <= i < n - 1 ==> n <= |matrix[i]|
  }

  /** Every pair the loops visit indexes such a matrix: `plot` raises no
      `IndexError`. */
  lemma PairsCovered(matrix: seq<seq<real>>, n: nat)
    requires HasUpperTriangle(matrix, n)
    ensures Covers(matrix, PairsBefore(n, n))
  {
    var pairs := PairsBefore(n, n);
    forall k | 0 <= k < |pairs|
      ensures pairs[k].0 < |matrix| && pairs[k].1 < |matrix[pairs[k].0]|
    {
      PairsBeforeMembers(n, n, pairs[k].0, pairs[k].1);
    }
  }

  /** An edge is drawn exactly for a visited pair whose weight reaches a
      threshold, in the style that weight calls for. */
  lemma {:induction false} DrawnMembers(matrix: seq<seq<real>>, pairs: seq<(nat, nat)>, base: int, highlight: int,
                                        i: nat, j: nat, style: EdgeStyle)
    requires Covers(matrix, pairs)
    ensures (i, j, style) in Drawn(matrix, pairs, base, highlight) <==>
      (i, j) in pairs && i < |matrix| && j < |matrix[i]| && Classify(matrix[i][j], base, highlight) == Some(style)
  {
    if pairs != [] {
      var n := |pairs| - 1;
      assert forall x :: 0 <= x < n ==> pairs[..n][x] == pairs[x];
      DrawnMembers(matrix, pairs[..n], base, highlight, i, j, style);
      assert pairs == pairs[..n] + [pairs[n]];
    }
  }

  /** The reported counts strictly increase, never exceed the number of pairs
      visited, and come once per drawn edge when there are edges to count. */
  lemma {:induction false} ProgressIncreasing(matrix: seq<seq<real>>, pairs: seq<(nat, nat)>, base: int, highlight: int, total: nat)
    ensures total > 0 ==> |Progress(matrix, pairs, base, highlight, total)| == |Drawn(matrix, pairs, base, highlight)|
    ensures total == 0 ==> Progress(matrix, pairs, base, highlight, total) == []
    ensures forall x :: 0 <= x < |Progress(matrix, pairs, base, highlight, total)| ==>
      1 <= Progress(matrix, pairs, base, highlight, total)[x].0 <= |pairs|
      && Progress(matrix, pairs, base, highlight, total)[x].1 == total
    ensures forall x, y :: 0 <= x < y < |Progress(matrix, pairs, base, highlight, total)| ==>
      Progress(matrix, pairs, base, highlight, total)[x].0 < Progress(matrix, pairs, base, highlight, total)[y].0
  {
    if pairs != [] {
      ProgressIncreasing(matrix, pairs[..|pairs| - 1], base, highlight, total);
    }
  }

  /** The loop reads only the upper triangle: two matrices that agree above
      the diagonal draw the same edges and report the same progress. */
  lemma {:induction false} UpperTriangleOnly(m1: seq<seq<real>>, m2: seq<seq<real>>, pairs: seq<(nat, nat)>,
                                             base: int, highlight: int, total: nat)
    requires Covers(m1, pairs) && Covers(m2, pairs)
    requires forall k :: 0 <= k < |pairs| ==> m1[pairs[k].0][pairs[k].1] == m2[pairs[k].0][pairs[k].1]
    ensures Drawn(m1, pairs, base, highlight) == Drawn(m2, pairs, base, highlight)
    ensures Progress(m1, pairs, base, highlight, total) == Progress(m2, pairs, base, highlight, total)
  {
    if pairs != [] {
      var n := |pairs| - 1;
      assert forall k :: 0 <= k < n ==> pairs[..n][k] == pairs[k];
      UpperTriangleOnly(m1, m2, pairs[..n], base, highlight, total);
    }
  }

  /** Visiting one more pair extends the drawn edges and the progress calls
      by what that pair contributes. */
  lemma VisitStep(matrix: seq<seq<real>>, pairs: seq<(nat, nat)>, p: (nat, nat), base: int, highlight: int, total: nat)
    ensures var style := Classify(At(matrix, p.0, p.1), base, highlight);
      && Drawn(matrix, pairs + [p], base, highlight)
         == Drawn(matrix, pairs, base, highlight) + (if style.Some? then [(p.0, p.1, style.value)] else [])
      && Progress(matrix, pairs + [p], base, highlight, total)
         == Progress(matrix, pairs, base, highlight, total) + (if style.Some? && total > 0 then [(|pairs| + 1, total)] else [])
  {
    var all := pairs + [p];
    assert all[..|pairs|] == pairs;
  }

  class NetworkPlotter {
    const baseThreshold: int
    const highlightThreshold: int

    constructor (baseThreshold: int, highlightThreshold: int)
      ensures this.baseThreshold == baseThreshold && this.highlightThreshold == highlightThreshold
    {
      this.baseThreshold := baseThreshold;
      this.highlightThreshold := highlightThreshold;
    }

    /** The edge loop of `plot` for `n = len(colors)` nodes: the drawn edges,
        the progress calls, and the final `edge_count`. */
    method PlotEdges(colors: seq<Rgb>, matrix: seq<seq<real>>)
      returns (edges: seq<(nat, nat, EdgeStyle)>, progress: seq<(nat, nat)>, edgeCount: nat)
      requires HasUpperTriangle(matrix, |colors|)
      ensures Covers(matrix, PairsBefore(|colors|, |colors|))
      ensures edgeCount == |colors| * (|colors| - 1) / 2
      ensures edges == Drawn(matrix, PairsBefore(|colors|, |colors|), baseThreshold, highlightThreshold)
      ensures progress == Progress(matrix, PairsBefore(|colors|, |colors|), baseThreshold, highlightThreshold,
                                   |colors| * (|colors| - 1) / 2)
    {
      var n := |colors|;
      var total := n * (n - 1) / 2;
      AllPairsCount(n);
      PairsCovered(matrix, n);
      edges, progress, edgeCount := [], [], 0;
      for i := 0 to n
        invariant edgeCount == |PairsBefore(n, i)|
        invariant edges == Drawn(matrix, PairsBefore(n, i), baseThreshold, highlightThreshold)
        invariant progress == Progress(matrix, PairsBefore(n, i), baseThreshold, highlightThreshold, total)
      {
        edges, progress, edgeCount := VisitRow(matrix, n, i, total, PairsBefore(n, i), edges, progress, edgeCount);
      }
    }

    /** One round of the outer loop: the pairs `(i, j)` for `j` from `i + 1`
        to `n - 1`, each counted, drawn when its weight reaches a threshold,
        and reported when drawn. */
    method VisitRow(matrix: seq<seq<real>>, n: nat, i: nat, total: nat, ghost before: seq<(nat, nat)>,
                    edges0: seq<(nat, nat, EdgeStyle)>, progress0: seq<(nat, nat)>, count0: nat)
      returns (edges: seq<(nat, nat, EdgeStyle)>, progress: seq<(nat, nat)>, edgeCount: nat)
      requires i < n && HasUpperTriangle(matrix, n)
      requires count0 == |before|
      requires edges0 == Drawn(matrix, before, baseThreshold, highlightThreshold)
      requires progress0 == Progress(matrix, before, baseThreshold, highlightThreshold, total)
      ensures edgeCount == |before + RowPairs(i, n)|
      ensures edges == Drawn(matrix, before + RowPairs(i, n), baseThreshold, highlightThreshold)
      ensures progress == Progress(matrix, before + RowPairs(i, n), baseThreshold, highlightThreshold, total)
    {
      edges, progress, edgeCount := edges0, progress0, count0;
      ghost var visited := before;
      assert before + RowPairs(i, i + 1) == before;
      for j := i + 1 to n
        invariant visited == before + RowPairs(i, j)
        invariant edgeCount == |visited|
        invariant edges == Drawn(matrix, visited, baseThreshold, highlightThreshold)
        invariant progress == Progress(matrix, visited, baseThreshold, highlightThreshold, total)
      {
        assert before + RowPairs(i, j + 1) == visited + [(i, j)];
        var weight := matrix[i][j];
        var style := Classify(weight, baseThreshold, highlightThreshold);
        VisitStep(matrix, visited, (i, j), baseThreshold, highlightThreshold, total);
        visited := visited + [(i, j)];
        edgeCount := edgeCount + 1;
        if style.Some? {
          edges := edges + [(i, j, style.value)];
          if total > 0 {
            progress := progress + [(edgeCount, total)];
          }
        }
      }
    }
  }

  // ---------------------------------------------------------------------
  // parse_color_input

  /** One line of colour input: nothing for a line of fewer than four
      tokens; otherwise `int` of the first three tokens and `float` of the
      fourth, the rest ignored, and `ValueError` when one of those four is
      not a number. The channels are not range-checked. */
  function LineEntry(line: string): (r: Result<Option<((int, int, int), real)>>)
    ensures r == Ok(None) <==> |Tokens(line)| < 4
    ensures r.Err? ==> r.error == InvalidLiteral
  {
    var t := Tokens(line);
    if |t| < 4 then Ok(None)
    else
      var rgb, size := Ints(t[..3]), ParseReal(t[3]);
      if rgb.Some? && size.Some? then Ok(Some(((rgb.value[0], rgb.value[1], rgb.value[2]), size.value)))
      else Err(InvalidLiteral)
  }

  /** `int()` of every token, or `None` when one of them raises. */
  function Ints(tokens: seq<string>): (r: Option<seq<int>>)
    ensures r.None? <==> exists k :: 0 <= k < |tokens| && ParseInt(tokens[k]).None?
    ensures r.Some? ==> |r.value| == |tokens| && forall k :: 0 <= k < |tokens| ==> ParseInt(tokens[k]) == Some(r.value[k])
  {
    if tokens == [] then Some([])
    else
      var n := |tokens| - 1;
      assert forall k :: 0 <= k < n ==> tokens[..n][k] == tokens[k];
      match (Ints(tokens[..n]), ParseInt(tokens[n]))
      case (Some(vs), Some(v)) => Some(vs + [v])
      case _ => None
  }

  /** The first three tokens as integers. */
  lemma IntsThree(t: seq<string>)
    requires |t| >= 3
    ensures Ints(t[..3]).None? <==> ParseInt(t[0]).None? || ParseInt(t[1]).None? || ParseInt(t[2]).None?
    ensures Ints(t[..3]).Some? ==> Ints(t[..3]).value == [ParseInt(t[0]).value, ParseInt(t[1]).value, ParseInt(t[2]).value]
  {
    var p := t[..3];
    assert p[0] == t[0] && p[1] == t[1] && p[2] == t[2];
  }

  /** A token `int()` accepts: an optional sign and at least one digit. */
  predicate IsIntLiteral(t: string)
  {
    SplitSign(t).1 != [] && AllDigits(SplitSign(t).1)
  }

  /** A line of four or more tokens raises exactly when one of the first
      three is not an integer literal or the fourth is not a number, and
      otherwise gives their values. */
  lemma LineEntryMeaning(line: string)
    requires |Tokens(line)| >= 4
    ensures var t := Tokens(line);
      && (LineEntry(line).Err? <==> !IsIntLiteral(t[0]) || !IsIntLiteral(t[1]) || !IsIntLiteral(t[2]) || ParseReal(t[3]).None?)
      && (LineEntry(line).Ok? ==>
            LineEntry(line).value == Some(((ParseInt(t[0]).value, ParseInt(t[1]).value, ParseInt(t[2]).value), ParseReal(t[3]).value)))
  {
    var t := Tokens(line);
    IntsThree(t);
    ParseIntAccepts(t[0]);
    ParseIntAccepts(t[1]);
    ParseIntAccepts(t[2]);
  }

  /** The values of the kept lines, in line order, or the error of the first
      line that raises: the loop shared by both parsers, for a line parser
      that keeps (`Some`), skips (`None`) or raises. */
  function Collect<T>(lines: seq<string>, parse: string -> Result<Option<T>>): (r: Result<seq<T>>)
    ensures r.Err? <==> exists k :: 0 <= k < |lines| && parse(lines[k]).Err?
    ensures r.Err? ==> exists k :: 0 <= k < |lines| && parse(lines[k]) == Err(r.error)
    ensures r.Ok? ==> |r.value| <= |lines|
  {
    if lines == [] then Ok([])
    else
      var n := |lines| - 1;
      assert forall k :: 0 <= k < n ==> lines[..n][k] == lines[k];
      match Collect(lines[..n], parse)
      case Err(e) => Err(e)
      case Ok(values) =>
        match parse(lines[n])
        case Err(e) => Err(e)
        case Ok(None) => Ok(values)
        case Ok(Some(v)) => Ok(values + [v])
  }

  /** Lines that are all kept give their values in order. */
  lemma {:induction false} CollectAllKept<T>(lines: seq<string>, parse: string -> Result<Option<T>>, values: seq<T>)
    requires |lines| == |values|
    requires forall k :: 0 <= k < |lines| ==> parse(lines[k]) == Ok(Some(values[k]))
    ensures Collect(lines, parse) == Ok(values)
  {
    if lines != [] {
      var n := |lines| - 1;
      assert forall k :: 0 <= k < n ==> lines[..n][k] == lines[k] && values[..n][k] == values[k];
      CollectAllKept(lines[..n], parse, values[..n]);
      assert values == values[..n] + [values[n]];
    }
  }

  /** One more line: a raising line makes the whole collection raise, a
      skipped line leaves the values as they are, a kept line adds its
      value. */
  lemma CollectStep<T>(lines: seq<string>, parse: string -> Result<Option<T>>, k: nat, values: seq<T>)
    requires k < |lines| && Collect(lines[..k], parse) == Ok(values)
    ensures parse(lines[k]).Err? ==> Collect(lines, parse).Err?
    ensures parse(lines[k]) == Ok(None) ==> Collect(lines[..k + 1], parse) == Ok(values)
    ensures parse(lines[k]).Ok? && parse(lines[k]).value.Some? ==>
      Collect(lines[..k + 1], parse) == Ok(values + [parse(lines[k]).value.value])
  {
    assert lines[..k + 1][..k] == lines[..k];
  }

  /** A skipped line changes nothing. */
  lemma CollectSkip<T>(lines: seq<string>, parse: string -> Result<Option<T>>, line: string)
    requires parse(line) == Ok(None)
    ensures Collect(lines + [line], parse) == Collect(lines, parse)
  {
    assert (lines + [line])[..|lines|] == lines;
  }

  /** The colour entries of the lines. */
  function ColorEntries(lines: seq<string>): Result<seq<((int, int, int), real)>>
  {
    Collect(lines, LineEntry)
  }

  /** `parse_color_input`: the colours and sizes of the kept lines of
      `text.strip().split('\n')`, two lists of one length. */
  method ParseColorInput(text: string) returns (r: Result<(seq<(int, int, int)>, seq<real>)>)
    ensures var entries := ColorEntries(SplitOn(Strip(text), '\n'));
      && (r.Err? <==> entries.Err?)
      && (r.Err? ==> r.error == InvalidLiteral)
      && (r.Ok? ==> r.value.0 == Firsts(entries.value) && r.value.1 == Seconds(entries.value))
    ensures r.Ok? ==> |r.value.0| == |r.value.1|
  {
    r := ParseColorLines(SplitOn(Strip(text), '\n'));
  }

  /** The loop of `parse_color_input` over the lines. */
  method ParseColorLines(lines: seq<string>) returns (r: Result<(seq<(int, int, int)>, seq<real>)>)
    ensures var entries := Collect(lines, LineEntry);
      && (r.Err? <==> entries.Err?)
      && (r.Err? ==> r.error == InvalidLiteral)
      && (r.Ok? ==> r.value.0 == Firsts(entries.value) && r.value.1 == Seconds(entries.value))
    ensures r.Ok? ==> |r.value.0| == |r.value.1|
  {
    var colors: seq<(int, int, int)> := [];
    var sizes: seq<real> := [];
    ghost var entries: seq<((int, int, int), real)> := [];
    for k := 0 to |lines|
      invariant Collect(lines[..k], LineEntry) == Ok(entries)
      invariant colors == Firsts(entries) && sizes == Seconds(entries)
    {
      var entry := LineEntry(lines[k]);
      CollectStep(lines, LineEntry, k, entries);
      if entry.Err? {
        return Err(entry.error);
      }
      if entry.value.Some? {
        FirstsConcat(entries, [entry.value.value]);
        SecondsConcat(entries, [entry.value.value]);
        colors := colors + [entry.value.value.0];
        sizes := sizes + [entry.value.value.1];
        entries := entries + [entry.value.value];
      }
    }
    assert lines[..|lines|] == lines;
    return Ok((colors, sizes));
  }

  /** A colour entry with an integer size as a line of input. */
  function ColorLineText(rgb: (int, int, int), size: int): string
  {
    JoinSpaced([IntToString(rgb.0), IntToString(rgb.1), IntToString(rgb.2), IntToString(size)])
  }

  /** The lines of several entries. */
  function ColorLines(colors: seq<(int, int, int)>, sizes: seq<int>): (lines: seq<string>)
    requires |colors| == |sizes|
    ensures |lines| == |colors|
  {
    seq(|colors|, k requires 0 <= k < |colors| => ColorLineText(colors[k], sizes[k]))
  }

  /** The text of several entries, one per line. */
  function ColorText(colors: seq<(int, int, int)>, sizes: seq<int>): string
    requires |colors| == |sizes|
  {
    JoinOn(ColorLines(colors, sizes), '\n')
  }

  /** A line of space-separated integers holds no newline. */
  lemma NumbersNoNewline(ws: seq<string>, c: char)
    requires forall k :: 0 <= k < |ws| ==> forall x :: 0 <= x < |ws[k]| ==> IsDigit(ws[k][x]) || ws[k][x] == '-'
    requires c == '\n'
    ensures c !in JoinSpaced(ws)
  {
    if c in JoinSpaced(ws) {
      JoinOnChars(ws, ' ', c);
    }
  }

  lemma ColorLineParses(rgb: (int, int, int), size: int)
    ensures '\n' !in ColorLineText(rgb, size)
    ensures var line := ColorLineText(rgb, size);
      line != [] && !IsSpace(line[0]) && !IsSpace(line[|line| - 1])
    ensures LineEntry(ColorLineText(rgb, size)) == Ok(Some((rgb, size as real)))
  {
    var ws := [IntToString(rgb.0), IntToString(rgb.1), IntToString(rgb.2), IntToString(size)];
    NumbersNoNewline(ws, '\n');
    JoinOnEnds(ws, ' ');
    TokensOfJoin(ws);
    IntsThree(ws);
    IntRoundTrip(rgb.0);
    IntRoundTrip(rgb.1);
    IntRoundTrip(rgb.2);
    IntRoundTrip(size);
    ParseIntThenReal(IntToString(size));
  }

  lemma ColorLinesParse(colors: seq<(int, int, int)>, sizes: seq<int>)
    requires |colors| == |sizes|
    ensures forall k :: 0 <= k < |colors| ==>
      var line := ColorLines(colors, sizes)[k];
      && '\n' !in line && line != [] && !IsSpace(line[0]) && !IsSpace(line[|line| - 1])
      && LineEntry(line) == Ok(Some((colors[k], sizes[k] as real)))
  {
    forall k | 0 <= k < |colors|
      ensures var line := ColorLines(colors, sizes)[k];
        && '\n' !in line && line != [] && !IsSpace(line[0]) && !IsSpace(line[|line| - 1])
        && LineEntry(line) == Ok(Some((colors[k], sizes[k] as real)))
    {
      ColorLineParses(colors[k], sizes[k]);
    }
  }

  /** What is written back as text, one entry per line, parses back to the
      same colours and sizes, whatever the integers, in or out of 0-255. */
  lemma ColorInputRoundTrip(colors: seq<(int, int, int)>, sizes: seq<int>)
    requires |colors| == |sizes|
    ensures ColorEntries(SplitOn(Strip(ColorText(colors, sizes)), '\n'))
         == Ok(seq(|colors|, k requires 0 <= k < |colors| => (colors[k], sizes[k] as real)))
  {
    var lines := ColorLines(colors, sizes);
    var entries := seq(|colors|, k requires 0 <= k < |colors| => (colors[k], sizes[k] as real));
    var text := ColorText(colors, sizes);
    ColorLinesParse(colors, sizes);
    if lines == [] {
      assert text == [];
      EmptyColorText();
      assert entries == [];
    } else {
      LinesRoundTrip(lines, text);
      CollectAllKept(lines, LineEntry, entries);
    }
  }

  /** Lines without newlines or surrounding space, joined, come back from
      `strip().split('\n')` as they were. */
  lemma LinesRoundTrip(lines: seq<string>, text: string)
    requires |lines| >= 1 && text == JoinOn(lines, '\n')
    requires forall k :: 0 <= k < |lines| ==>
      '\n' !in lines[k] && lines[k] != [] && !IsSpace(lines[k][0]) && !IsSpace(lines[k][|lines[k]| - 1])
    ensures SplitOn(Strip(text), '\n') == lines
  {
    TextEnds(lines, text);
    StripNoop(text);
    SplitJoin(lines, '\n');
  }

  /** The empty text is one blank line, and so no entry. */
  lemma EmptyColorText()
    ensures ColorEntries(SplitOn(Strip([]), '\n')) == Ok([])
  {
    assert SplitOn(Strip([]), '\n') == [[]];
    assert LineEntry([]) == Ok(None);
    var one: seq<string> := [[]];
    assert one[..0] == [];
  }

  /** A multi-line text of numbers starts and ends with a number character,
      so `strip()` leaves it alone. */
  lemma TextEnds(lines: seq<string>, text: string)
    requires |lines| >= 1 && text == JoinOn(lines, '\n')
    requires forall k :: 0 <= k < |lines| ==> lines[k] != [] && !IsSpace(lines[k][0]) && !IsSpace(lines[k][|lines[k]| - 1])
    ensures text == [] || (!IsSpace(text[0]) && !IsSpace(text[|text| - 1]))
  {
    JoinOnEnds(lines, '\n');
  }

  // ---------------------------------------------------------------------
  // parse_matrix_input

  /** `list(map(float, tokens))`: every token as a number, or `ValueError`. */
  function RowValues(tokens: seq<string>): (r: Result<seq<real>>)
    ensures r.Err? <==> exists k :: 0 <= k < |tokens| && ParseReal(tokens[k]).None?
    ensures r.Err? ==> r.error == InvalidLiteral
    ensures r.Ok? ==> |r.value| == |tokens| && forall k :: 0 <= k < |tokens| ==> ParseReal(tokens[k]) == Some(r.value[k])
  {
    if tokens == [] then Ok([])
    else
      var n := |tokens| - 1;
      assert forall k :: 0 <= k < n ==> tokens[..n][k] == tokens[k];
      match RowValues(tokens[..n])
      case Err(e) => Err(e)
      case Ok(values) =>
        match ParseReal(tokens[n])
        case None => Err(InvalidLiteral)
        case Some(v) => Ok(values + [v])
  }

  /** One line of matrix input: nothing for a blank line (one without
      tokens, which is one whose `strip()` is empty: `MatrixLineMeaning`),
      otherwise `list(map(float, line.split()))`, a row of at least one
      number. */
  function MatrixLine(line: string): (r: Result<Option<seq<real>>>)
    ensures r.Err? ==> r.error == InvalidLiteral
    ensures r.Ok? && r.value.Some? ==> r.value.value != []
  {
    if Tokens(line) == [] then Ok(None)
    else
      match RowValues(Tokens(line))
      case Err(e) => Err(e)
      case Ok(row) => Ok(Some(row))
  }

  /** A line is skipped exactly when it is blank, raises exactly when one of
      its tokens is not a number, and otherwise gives the numbers of its
      tokens. */
  lemma MatrixLineMeaning(line: string)
    ensures MatrixLine(line).Err? <==> Strip(line) != [] && exists k :: 0 <= k < |Tokens(line)| && ParseReal(Tokens(line)[k]).None?
    ensures MatrixLine(line).Ok? && MatrixLine(line).value.Some? ==>
      var t := Tokens(line);
      |MatrixLine(line).value.value| == |t| && forall k :: 0 <= k < |t| ==> ParseReal(t[k]) == Some(MatrixLine(line).value.value[k])
  {
    MatrixLineBlank(line);
  }

  lemma MatrixLineBlank(line: string)
    ensures MatrixLine(line) == Ok(None) <==> Strip(line) == []
    ensures Tokens(line) == [] <==> Strip(line) == []
  {
    if Strip(line) != [] {
      BlankHasNoTokens(line);
    } else {
      SpacesHaveNoTokens(line);
    }
  }

  /** A line of spaces only has no token. */
  lemma {:induction false} SpacesHaveNoTokens(s: string)
    requires forall k :: 0 <= k < |s| ==> IsSpace(s[k])
    ensures Tokens(s) == []
    decreases |s|
  {
    if s != [] {
      assert forall k :: 0 <= k < |s| - 1 ==> s[1..][k] == s[k + 1];
      SpacesHaveNoTokens(s[1..]);
    }
  }

  /** The rows of the non-blank lines, in line order, or the error of the
      first line that raises. */
  function MatrixRows(lines: seq<string>): Result<seq<seq<real>>>
  {
    Collect(lines, MatrixLine)
  }

  /** A line with something on it has at least one token. */
  lemma BlankHasNoTokens(line: string)
    requires Strip(line) != []
    ensures Tokens(line) != []
  {
    var k :| 0 <= k < |line| && !IsSpace(line[k]);
    TokensOfNonSpace(line, k);
  }

  lemma {:induction false} TokensOfNonSpace(s: string, k: nat)
    requires k < |s| && !IsSpace(s[k])
    ensures Tokens(s) != []
    decreases |s|
  {
    if IsSpace(s[0]) {
      TokensOfNonSpace(s[1..], k - 1);
    }
  }

  /** Blank lines are skipped: adding one changes nothing. */
  lemma BlankLineSkipped(lines: seq<string>, blank: string)
    requires forall k :: 0 <= k < |blank| ==> IsSpace(blank[k])
    ensures MatrixRows(lines + [blank]) == MatrixRows(lines)
  {
    SpacesHaveNoTokens(blank);
    CollectSkip(lines, MatrixLine, blank);
  }

  /** `parse_matrix_input`: one row per non-blank line of
      `text.strip().split('\n')`; the rows go to `np.array` as they are. */
  method ParseMatrixInput(text: string) returns (r: Result<seq<seq<real>>>)
    ensures r == MatrixRows(SplitOn(Strip(text), '\n'))
  {
    r := ParseMatrixLines(SplitOn(Strip(text), '\n'));
  }

  /** The loop of `parse_matrix_input` over the lines. */
  method ParseMatrixLines(lines: seq<string>) returns (r: Result<seq<seq<real>>>)
    ensures r == Collect(lines, MatrixLine)
  {
    var rows: seq<seq<real>> := [];
    for k := 0 to |lines|
      invariant Collect(lines[..k], MatrixLine) == Ok(rows)
    {
      MatrixLineBlank(lines[k]);
      CollectStep(lines, MatrixLine, k, rows);
      if Strip(lines[k]) != [] {
        var row := RowValues(Tokens(lines[k]));
        if row.Err? {
          return Err(row.error);
        }
        rows := rows + [row.value];
      }
    }
    assert lines[..|lines|] == lines;
    return Ok(rows);
  }

  /** A row of integers written as space-separated numbers. */
  function RowText(row: seq<int>): string
  {
    JoinSpaced(seq(|row|, k requires 0 <= k < |row| => IntToString(row[k])))
  }

  /** Several rows, one per line. */
  function MatrixText(rows: seq<seq<int>>): string
  {
    JoinOn(seq(|rows|, k requires 0 <= k < |rows| => RowText(rows[k])), '\n')
  }

  function Reals(row: seq<int>): (r: seq<real>)
    ensures |r| == |row| && forall k :: 0 <= k < |row| ==> r[k] == row[k] as real
  {
    seq(|row|, k requires 0 <= k < |row| => row[k] as real)
  }

  lemma RowParses(row: seq<int>)
    requires row != []
    ensures '\n' !in RowText(row)
    ensures RowText(row) != [] && !IsSpace(RowText(row)[0]) && !IsSpace(RowText(row)[|RowText(row)| - 1])
    ensures MatrixLine(RowText(row)) == Ok(Some(Reals(row)))
  {
    var ws := seq(|row|, k requires 0 <= k < |row| => IntToString(row[k]));
    NumbersNoNewline(ws, '\n');
    JoinOnEnds(ws, ' ');
    TokensOfJoin(ws);
    forall k | 0 <= k < |row|
      ensures ParseReal(ws[k]) == Some(row[k] as real)
    {
      IntRoundTrip(row[k]);
      ParseIntThenReal(ws[k]);
    }
    RowValuesAll(ws, Reals(row));
  }

  lemma {:induction false} RowValuesAll(tokens: seq<string>, values: seq<real>)
    requires |tokens| == |values|
    requires forall k :: 0 <= k < |tokens| ==> ParseReal(tokens[k]) == Some(values[k])
    ensures RowValues(tokens) == Ok(values)
  {
    if tokens != [] {
      var n := |tokens| - 1;
      RowValuesAll(tokens[..n], values[..n]);
      assert values == values[..n] + [values[n]];
    }
  }

  /** A matrix of integers written one row per line, entries separated by
      spaces, parses back to the same rows. */
  lemma MatrixInputRoundTrip(rows: seq<seq<int>>)
    requires forall k :: 0 <= k < |rows| ==> rows[k] != []
    ensures MatrixRows(SplitOn(Strip(MatrixText(rows)), '\n'))
         == Ok(seq(|rows|, k requires 0 <= k < |rows| => Reals(rows[k])))
  {
    var lines := seq(|rows|, k requires 0 <= k < |rows| => RowText(rows[k]));
    var expected := seq(|rows|, k requires 0 <= k < |rows| => Reals(rows[k]));
    var text := MatrixText(rows);
    forall k | 0 <= k < |lines|
      ensures '\n' !in lines[k] && lines[k] != [] && !IsSpace(lines[k][0]) && !IsSpace(lines[k][|lines[k]| - 1])
      ensures MatrixLine(lines[k]) == Ok(Some(expected[k]))
    {
      RowParses(rows[k]);
    }
    if lines == [] {
      assert text == [];
      assert SplitOn(Strip(text), '\n') == [[]];
      assert MatrixLine([]) == Ok(None);
      var one: seq<string> := [[]];
      assert one[..0] == [];
      assert Collect(one, MatrixLine) == Ok([]);
      assert expected == [];
    } else {
      TextEnds(lines, text);
      StripNoop(text);
      SplitJoin(lines, '\n');
      CollectAllKept(lines, MatrixLine, expected);
    }
  }
}
