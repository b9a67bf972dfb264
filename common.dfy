/** Values shared by every part of the colour analyser: colours, errors,
    results, and the small arithmetic the Python code gets from numpy. */
module Common {

  /** An integer RGB triple: a decoded pixel, a palette entry, a scheme colour. */
  datatype Rgb = Rgb(r: int, g: int, b: int)

  /** A real-valued RGB triple: a K-means centroid or a colour scaled to [0,1]. */
  datatype Centroid = Centroid(r: real, g: real, b: real)

  /** The black cell numpy's `zeros` starts a card with. */
  const Black := Centroid(0.0, 0.0, 0.0)

  /** The exceptions the modelled code raises (or lets escape). */
  datatype Error =
    | ScoreCountMismatch   // set_scores: ValueError on a wrong-length list
    | NegativeScore        // evolve: ValueError when some score is negative
    | EmptySequence        // max() / np.argmax of an empty sequence
    | ZeroDivision         // integer division by zero
    | IndexOutOfRange      // a label beyond the end of a scheme
    | NotADirectory        // get_image_files on something that is not a folder
    | ImageUnreadable      // load_image: missing or undecodable file
    | InvalidLiteral       // int() / float() on a token that is not a number
    | NoPixels             // np.vstack of nothing / K-means on no pixels
    | ClusteringFailed     // KMeans.fit: no cluster asked for, or fewer pixels than clusters
    | NegativeSampleSize   // random.sample asked for a negative number of items

  datatype Result<T> = Ok(value: T) | Err(error: Error)

  datatype Option<T> = None | Some(value: T)

  /** The sum of a sequence of reals (Python's `sum`, numpy's `np.sum`). */
  function Sum(s: seq<real>): real
  {
    if s == [] then 0.0 else Sum(s[..|s| - 1]) + s[|s| - 1]
  }

  /** The sum of a sequence of integers. */
  function SumInt(s: seq<int>): int
  {
    if s == [] then 0 else SumInt(s[..|s| - 1]) + s[|s| - 1]
  }

  /** The largest element (Python's `max`). */
  function Max(s: seq<real>): (m: real)
    requires |s| > 0
    ensures m in s
    ensures forall i :: 0 <= i < |s| ==> s[i] <= m
  {
    if |s| == 1 then s[0]
    else
      var m' := Max(s[..|s| - 1]);
      assert forall i :: 0 <= i < |s| - 1 ==> s[..|s| - 1][i] == s[i];
      if s[|s| - 1] > m' then s[|s| - 1] else m'
  }

  /** The arithmetic mean (numpy's `np.mean`, on exact reals). */
  function Mean(s: seq<real>): real
    requires |s| > 0
  {
    Sum(s) / (|s| as real)
  }

  /** Python's `int(x)` on a float: truncation toward zero. */
  function Trunc(x: real): (t: int)
    ensures x >= 0.0 ==> 0 <= t && t as real <= x < t as real + 1.0
    ensures x < 0.0 ==> t <= 0 && x <= t as real < x + 1.0
  {
    if x >= 0.0 then x.Floor else -((-x).Floor)
  }

  lemma ProductNonNegative(a: real, b: real)
    requires a >= 0.0 && b >= 0.0
    ensures a * b >= 0.0
  {
  }

  lemma ProductNonPositive(a: real, b: real)
    requires a >= 0.0 && b <= 0.0
    ensures a * b <= 0.0
  {
  }

  /** `max(lo, min(hi, v))`. */
  function Clamp(lo: int, hi: int, v: int): (c: int)
    requires lo <= hi
    ensures lo <= c <= hi
    ensures lo <= v <= hi ==> c == v
  {
    if v < lo then lo else if v > hi then hi else v
  }

  /** The concatenation of a list of lists, in list order (`np.vstack`). */
  function Concat<T>(ss: seq<seq<T>>): seq<T>
  {
    if ss == [] then [] else Concat(ss[..|ss| - 1]) + ss[|ss| - 1]
  }

  /** The total length of a list of lists. */
  function TotalLength<T>(ss: seq<seq<T>>): nat
  {
    if ss == [] then 0 else TotalLength(ss[..|ss| - 1]) + |ss[|ss| - 1]|
  }

  /** The concatenation holds every element of every part, in order: part `k`
      occupies the positions beginning at the total length of the parts before it. */
  lemma {:induction false} ConcatLayout<T>(ss: seq<seq<T>>, k: nat, j: nat)
    requires k < |ss| && j < |ss[k]|
    ensures |Concat(ss)| == TotalLength(ss)
    ensures TotalLength(ss[..k]) + j < |Concat(ss)|
    ensures Concat(ss)[TotalLength(ss[..k]) + j] == ss[k][j]
  {
    var n := |ss| - 1;
    var init := ss[..n];
    ConcatLength(init);
    if k < n {
      assert init[..k] == ss[..k];
      ConcatLayout(init, k, j);
      TotalLengthPrefix(init, k);
    } else {
      assert ss[..k] == init;
    }
  }

  lemma {:induction false} ConcatLength<T>(ss: seq<seq<T>>)
    ensures |Concat(ss)| == TotalLength(ss)
  {
    if ss != [] {
      ConcatLength(ss[..|ss| - 1]);
    }
  }

  lemma {:induction false} TotalLengthPrefix<T>(ss: seq<seq<T>>, k: nat)
    requires k < |ss|
    ensures TotalLength(ss[..k]) + |ss[k]| <= TotalLength(ss)
  {
    var n := |ss| - 1;
    if k < n {
      assert ss[..n][..k] == ss[..k];
      TotalLengthPrefix(ss[..n], k);
    } else {
      assert ss[..k] == ss[..n];
    }
  }

  /** Extending the list of parts by one part extends the concatenation by it. */
  lemma ConcatSnoc<T>(ss: seq<seq<T>>, s: seq<T>)
    ensures Concat(ss + [s]) == Concat(ss) + s
  {
    assert (ss + [s])[..|ss|] == ss;
  }
}
