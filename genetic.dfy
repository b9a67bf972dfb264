/** `GeneticColorOptimizer` (color_analyzer/core/genetic.py): a population of
    colour schemes, scored from outside, evolved by elitism, roulette
    selection, two-point crossover and mutation. Everything `random` draws is
    a parameter, constrained the way the code constrains the draw; the
    segmentation labels, which the constructor gets from K-means, are a
    constructor parameter. */
module Genetic {
  import opened Common
  import ImageProcessor

  /** A colour scheme: position i is the colour painted over cluster label i. */
  type Scheme = seq<Rgb>

  /** `DEFAULT_COLORS`. */
  const DefaultColors: seq<Rgb> := [
    Rgb(171, 162, 157), Rgb(175, 186, 196), Rgb(211, 196, 182),
    Rgb(84, 33, 35), Rgb(216, 160, 80), Rgb(86, 86, 69),
    Rgb(229, 170, 72), Rgb(0, 0, 0), Rgb(255, 255, 255)
  ]

  /** The constructor defaults, and the score every scheme starts a
      generation with. */
  const DefaultPopulationSize: nat := 16
  const DefaultMutationRate: real := 0.3
  const DefaultMaxMutationChange: real := 0.3
  const DefaultEliteThreshold: real := 7.5
  const InitialScore: real := 5.0

  function Min(a: int, b: int): int
  {
    if a <= b then a else b
  }

  function AbsReal(x: real): real
  {
    if x < 0.0 then -x else x
  }

  /** `predefined_colors or DEFAULT_COLORS`: an absent or empty list falls back
      to the built-in nine colours. */
  function CandidatePool(predefined: seq<Rgb>): (pool: seq<Rgb>)
    ensures predefined != [] ==> pool == predefined
    ensures predefined == [] ==> pool == DefaultColors && |pool| == 9
  {
    if predefined == [] then DefaultColors else predefined
  }

  /** `self.predefined_colors[:self.n_colors]`: the colours a scheme is made
      of. There are only as many as the pool has, even when `n_colors` asks
      for more. */
  function Selected(pool: seq<Rgb>, nColors: nat): (s: seq<Rgb>)
    ensures |s| == Min(nColors, |pool|)
    ensures s == pool[..|s|]
  {
    pool[..Min(nColors, |pool|)]
  }

  // ---------------------------------------------------------------------
  // apply_scheme's reshape

  /** `reshape(height, width)` of a flat pixel list: rows of `width` pixels,
      which flatten back to the list. */
  function Reshape(flat: seq<Rgb>, height: nat, width: nat): (rows: ImageProcessor.Image)
    requires |flat| == height * width
    ensures |rows| == height
    ensures ImageProcessor.Rectangular(rows, width)
    ensures ImageProcessor.Flatten(rows) == flat
  {
    if height == 0 then []
    else
      var cut := (height - 1) * width;
      assert cut + width == |flat|;
      var init := Reshape(flat[..cut], height - 1, width);
      var rows := init + [flat[cut..]];
      assert rows[..height - 1] == init;
      assert flat[..cut] + flat[cut..] == flat;
      rows
  }

  // ---------------------------------------------------------------------
  // Elitism

  /** How many scores reach the threshold. */
  function CountAtLeast(scores: seq<real>, threshold: real): (c: nat)
    ensures c <= |scores|
  {
    if scores == [] then 0
    else CountAtLeast(scores[..|scores| - 1], threshold) + (if scores[|scores| - 1] >= threshold then 1 else 0)
  }

  /** The elite list: the schemes whose score reaches the threshold, in
      population order. */
  function Elite(population: seq<Scheme>, scores: seq<real>, threshold: real): (e: seq<Scheme>)
    requires |scores| == |population|
    ensures |e| == CountAtLeast(scores, threshold)
    ensures forall i :: 0 <= i < |population| && scores[i] >= threshold ==> population[i] in e
    ensures forall x :: x in e ==> exists i :: 0 <= i < |population| && population[i] == x && scores[i] >= threshold
  {
    if population == [] then []
    else
      var n := |population| - 1;
      var rest := Elite(population[..n], scores[..n], threshold);
      assert forall i :: 0 <= i < n ==> population[..n][i] == population[i] && scores[..n][i] == scores[i];
      if scores[n] >= threshold then rest + [population[n]] else rest
  }

  /** An elite list is made of schemes of the population, so in a population
      of schemes of one length every elite has that length. */
  lemma EliteLengths(population: seq<Scheme>, scores: seq<real>, threshold: real, m: nat)
    requires |scores| == |population|
    requires forall k :: 0 <= k < |population| ==> |population[k]| == m
    ensures forall k :: 0 <= k < |Elite(population, scores, threshold)| ==> |Elite(population, scores, threshold)[k]| == m
  {
    var e := Elite(population, scores, threshold);
    forall k | 0 <= k < |e|
      ensures |e[k]| == m
    {
      assert e[k] in e;
      var i :| 0 <= i < |population| && population[i] == e[k] && scores[i] >= threshold;
    }
  }

  // ---------------------------------------------------------------------
  // Crossover

  /** The cut points `sorted(random.sample(range(1, n), 2))` can produce. */
  predicate CutFits(n: nat, cut: (nat, nat))
  {
    1 <= cut.0 < cut.1 <= n - 1
  }

  /** Python's `s[lo:hi]` for `0 <= lo`, where an end past the list is clamped. */
  function PySlice(s: Scheme, lo: nat, hi: nat): (r: Scheme)
    requires lo <= hi
    ensures hi <= |s| ==> r == s[lo..hi]
  {
    s[Min(lo, |s|)..Min(hi, |s|)]
  }

  /** `_crossover`: a copy of the first parent when it has fewer than three
      colours; otherwise the first parent with the colours between the two
      cut points taken from the second. */
  function Crossover(parent1: Scheme, parent2: Scheme, cut: (nat, nat)): (child: Scheme)
    requires |parent1| >= 3 ==> CutFits(|parent1|, cut)
    ensures |parent1| < 3 ==> child == parent1
    ensures |parent1| >= 3 && |parent2| == |parent1| ==>
      |child| == |parent1| &&
      forall k :: 0 <= k < |child| ==> child[k] == (if cut.0 <= k < cut.1 then parent2[k] else parent1[k])
  {
    if |parent1| < 3 then parent1
    else parent1[..cut.0] + PySlice(parent2, cut.0, cut.1) + parent1[cut.1..]
  }

  /** Crossover introduces no colour: each position of the child holds the
      colour one of the parents has at that position. */
  lemma CrossoverOrigin(parent1: Scheme, parent2: Scheme, cut: (nat, nat), k: nat)
    requires |parent2| == |parent1|
    requires |parent1| >= 3 ==> CutFits(|parent1|, cut)
    requires k < |parent1|
    ensures |Crossover(parent1, parent2, cut)| == |parent1|
    ensures Crossover(parent1, parent2, cut)[k] == parent1[k] || Crossover(parent1, parent2, cut)[k] == parent2[k]
  {
  }

  /** Two-point crossover of two orderings of the same colours need not be an
      ordering of them: the child can repeat a colour and lose another. */
  lemma CrossoverCanRepeat()
    ensures var red, green, blue := Rgb(255, 0, 0), Rgb(0, 255, 0), Rgb(0, 0, 255);
      Crossover([red, green, blue], [green, red, blue], (1, 2)) == [red, red, blue]
  {
    var red, green, blue := Rgb(255, 0, 0), Rgb(0, 255, 0), Rgb(0, 0, 255);
    var child := Crossover([red, green, blue], [green, red, blue], (1, 2));
    assert child[0] == red && child[1] == red && child[2] == blue;
  }

  // ---------------------------------------------------------------------
  // Offspring

  /** The parent draws roulette selection can make: indices into the
      population, and, when the scores do not sum to 0, indices of schemes
      with a positive score (`random.choices` never picks a weight of 0). */
  predicate PickFits(scores: seq<real>, pick: (nat, nat))
  {
    pick.0 < |scores| && pick.1 < |scores|
    && (Sum(scores) != 0.0 ==> scores[pick.0] > 0.0 && scores[pick.1] > 0.0)
  }

  /** Every scheme of the population has `m` colours. */
  predicate Uniform(population: seq<Scheme>, m: nat)
  {
    forall i :: 0 <= i < |population| ==> |population[i]| == m
  }

  /** What `count` rounds of parent draws and cut points must be: indices
      into the population, and cut points that fit schemes of `m` colours. */
  predicate BreedingDrawsFit(size: nat, m: nat, picks: seq<(nat, nat)>, cuts: seq<(nat, nat)>, count: nat)
  {
    count <= |picks| && count <= |cuts|
    && (forall k :: 0 <= k < count ==> picks[k].0 < size && picks[k].1 < size)
    && (forall k :: 0 <= k < count ==> m >= 3 ==> CutFits(m, cuts[k]))
  }

  /** The first `count` children `_generate_offspring` builds from the given
      parent draws and cut points, in order; every child keeps the common
      scheme length. */
  function Offspring(population: seq<Scheme>, m: nat, picks: seq<(nat, nat)>, cuts: seq<(nat, nat)>, count: nat): (children: seq<Scheme>)
    requires Uniform(population, m)
    requires BreedingDrawsFit(|population|, m, picks, cuts, count)
    ensures |children| == count
    ensures Uniform(children, m)
  {
    if count == 0 then []
    else
      var k := count - 1;
      Offspring(population, m, picks, cuts, k) + [Crossover(population[picks[k].0], population[picks[k].1], cuts[k])]
  }

  /** Child k of the offspring is the crossover of its two drawn parents. */
  lemma {:induction false} OffspringAt(population: seq<Scheme>, m: nat, picks: seq<(nat, nat)>, cuts: seq<(nat, nat)>, count: nat, k: nat)
    requires Uniform(population, m)
    requires BreedingDrawsFit(|population|, m, picks, cuts, count)
    requires k < count
    ensures Offspring(population, m, picks, cuts, count)[k]
         == Crossover(population[picks[k].0], population[picks[k].1], cuts[k])
  {
    if k < count - 1 {
      OffspringAt(population, m, picks, cuts, count - 1, k);
    }
  }

  /** Crossover bounds: every colour of every child is the colour one of its
      two parents has at that position. */
  lemma OffspringOrigin(population: seq<Scheme>, m: nat, picks: seq<(nat, nat)>, cuts: seq<(nat, nat)>, count: nat)
    requires Uniform(population, m)
    requires BreedingDrawsFit(|population|, m, picks, cuts, count)
    ensures forall k, c :: 0 <= k < count && 0 <= c < m ==>
      Offspring(population, m, picks, cuts, count)[k][c] == population[picks[k].0][c]
      || Offspring(population, m, picks, cuts, count)[k][c] == population[picks[k].1][c]
  {
    var children := Offspring(population, m, picks, cuts, count);
    forall k, c | 0 <= k < count && 0 <= c < m
      ensures children[k][c] == population[picks[k].0][c] || children[k][c] == population[picks[k].1][c]
    {
      OffspringAt(population, m, picks, cuts, count, k);
      CrossoverOrigin(population[picks[k].0], population[picks[k].1], cuts[k], c);
    }
  }

  // ---------------------------------------------------------------------
  // Mutation

  /** The three `random.uniform` factors drawn for one colour. */
  datatype Jitter = Jitter(r: real, g: real, b: real)

  /** `max(0, min(255, int(c * (1 + u))))`. */
  function MutateChannel(c: int, u: real): (v: int)
    ensures 0 <= v <= 255
  {
    Clamp(0, 255, Trunc(c as real * (1.0 + u)))
  }

  /** A channel in range moves at most by its value times the factor, give or
      take the truncation, and a factor of 0 leaves it as it was. */
  lemma MutateChannelMoves(c: int, u: real)
    requires 0 <= c <= 255 && -1.0 <= u
    ensures MutateChannel(c, u) as real <= c as real * (1.0 + u)
    ensures u == 0.0 ==> MutateChannel(c, u) == c
    ensures u >= 0.0 ==> MutateChannel(c, u) >= c
    ensures u <= 0.0 ==> MutateChannel(c, u) <= c
  {
    var cr := c as real;
    var x := cr * (1.0 + u);
    ProductNonNegative(cr, 1.0 + u);
    assert x == cr + cr * u;
    if u >= 0.0 {
      ProductNonNegative(cr, u);
    }
    if u <= 0.0 {
      ProductNonPositive(cr, u);
    }
  }


  function MutateColor(color: Rgb, j: Jitter): (mutated: Rgb)
    ensures 0 <= mutated.r <= 255 && 0 <= mutated.g <= 255 && 0 <= mutated.b <= 255
  {
    Rgb(MutateChannel(color.r, j.r), MutateChannel(color.g, j.g), MutateChannel(color.b, j.b))
  }

  /** One scheme after mutation: every channel of every colour scaled by its
      own factor, then truncated and clamped. */
  function MutateScheme(scheme: Scheme, jitters: seq<Jitter>): (mutated: Scheme)
    requires |jitters| == |scheme|
    ensures |mutated| == |scheme|
    ensures forall c :: 0 <= c < |scheme| ==> mutated[c] == MutateColor(scheme[c], jitters[c])
  {
    seq(|scheme|, c requires 0 <= c < |scheme| => MutateColor(scheme[c], jitters[c]))
  }

  /** Every drawn factor lies within `max_mutation_change` of 0, as
      `random.uniform(-max_mutation_change, max_mutation_change)` does. */
  predicate JitterBounds(jitters: seq<seq<Jitter>>, maxChange: real)
  {
    forall t, c :: 0 <= t < |jitters| && 0 <= c < |jitters[t]| ==>
      AbsReal(jitters[t][c].r) <= AbsReal(maxChange)
      && AbsReal(jitters[t][c].g) <= AbsReal(maxChange)
      && AbsReal(jitters[t][c].b) <= AbsReal(maxChange)
  }

  /** The factors drawn for a mutation: one `Jitter` per colour of each drawn
      scheme. */
  predicate JittersFit(schemes: seq<Scheme>, sample: seq<nat>, jitters: seq<seq<Jitter>>, maxChange: real)
  {
    |jitters| == |sample|
    && (forall t :: 0 <= t < |sample| ==> sample[t] < |schemes| && |jitters[t]| == |schemes[sample[t]]|)
    && JitterBounds(jitters, maxChange)
  }

  lemma JittersFitUniform(schemes: seq<Scheme>, m: nat, sample: seq<nat>, jitters: seq<seq<Jitter>>, maxChange: real)
    requires Uniform(schemes, m)
    requires |jitters| == |sample| && JitterBounds(jitters, maxChange)
    requires forall t :: 0 <= t < |sample| ==> sample[t] < |schemes| && |jitters[t]| == m
    ensures JittersFit(schemes, sample, jitters, maxChange)
  {
  }

  /** What `random.sample(range(n), k)` returns: k distinct indices below n. */
  predicate IsSample(sample: seq<nat>, n: nat, k: nat)
  {
    |sample| == k
    && (forall t :: 0 <= t < |sample| ==> sample[t] < n)
    && (forall s, t :: 0 <= s < t < |sample| ==> sample[s] != sample[t])
  }

  /** The list after the first |sample| rounds of `_mutate`'s loop, each round
      replacing the scheme at the drawn index by its mutation. */
  function Mutated(schemes: seq<Scheme>, sample: seq<nat>, jitters: seq<seq<Jitter>>): (r: seq<Scheme>)
    requires |jitters| == |sample|
    requires forall t :: 0 <= t < |sample| ==> sample[t] < |schemes| && |jitters[t]| == |schemes[sample[t]]|
    ensures |r| == |schemes|
    ensures forall i :: 0 <= i < |schemes| ==> |r[i]| == |schemes[i]|
  {
    if sample == [] then schemes
    else
      var n := |sample| - 1;
      var before := Mutated(schemes, sample[..n], jitters[..n]);
      before[sample[n] := MutateScheme(before[sample[n]], jitters[n])]
  }

  /** Mutation alters exactly the drawn schemes: a scheme at a drawn index is
      the mutation of the original, with that index's factors, and every other
      scheme is left as it was. */
  lemma {:induction false} MutatedAt(schemes: seq<Scheme>, sample: seq<nat>, jitters: seq<seq<Jitter>>, i: nat)
    requires |jitters| == |sample|
    requires forall t :: 0 <= t < |sample| ==> sample[t] < |schemes| && |jitters[t]| == |schemes[sample[t]]|
    requires forall s, t :: 0 <= s < t < |sample| ==> sample[s] != sample[t]
    requires i < |schemes|
    ensures i !in sample ==> Mutated(schemes, sample, jitters)[i] == schemes[i]
    ensures forall t :: 0 <= t < |sample| && sample[t] == i ==>
      Mutated(schemes, sample, jitters)[i] == MutateScheme(schemes[i], jitters[t])
  {
    if sample != [] {
      var n := |sample| - 1;
      assert forall t :: 0 <= t < n ==> sample[..n][t] == sample[t] && jitters[..n][t] == jitters[t];
      MutatedAt(schemes, sample[..n], jitters[..n], i);
      if sample[n] == i {
        assert i !in sample[..n];
      }
    }
  }

  /** Mutation bounds: after mutating schemes of colours in range, with
      factors no smaller than -1, every channel of every scheme is in
      [0, 255]. */
  lemma {:induction false} MutatedInRange(schemes: seq<Scheme>, sample: seq<nat>, jitters: seq<seq<Jitter>>)
    requires |jitters| == |sample|
    requires forall t :: 0 <= t < |sample| ==> sample[t] < |schemes| && |jitters[t]| == |schemes[sample[t]]|
    requires forall i, c :: 0 <= i < |schemes| && 0 <= c < |schemes[i]| ==> InRange(schemes[i][c])
    ensures forall i, c :: 0 <= i < |schemes| && 0 <= c < |schemes[i]| ==>
      InRange(Mutated(schemes, sample, jitters)[i][c])
  {
    if sample != [] {
      var n := |sample| - 1;
      MutatedInRange(schemes, sample[..n], jitters[..n]);
    }
  }

  predicate InRange(color: Rgb)
  {
    0 <= color.r <= 255 && 0 <= color.g <= 255 && 0 <= color.b <= 255
  }

  // ---------------------------------------------------------------------
  // Best scheme

  /** `np.argmax`: the first index holding the largest value. */
  function ArgMax(s: seq<real>): (k: nat)
    requires |s| > 0
    ensures k < |s|
    ensures forall i :: 0 <= i < |s| ==> s[i] <= s[k]
    ensures forall i :: 0 <= i < k ==> s[i] < s[k]
  {
    if |s| == 1 then 0
    else
      var k := ArgMax(s[..|s| - 1]);
      assert forall i :: 0 <= i < |s| - 1 ==> s[..|s| - 1][i] == s[i];
      if s[|s| - 1] > s[k] then |s| - 1 else k
  }

  predicate AllNonNegative(scores: seq<real>)
  {
    forall k :: 0 <= k < |scores| ==> scores[k] >= 0.0
  }

  // ---------------------------------------------------------------------
  // The optimizer

  class GeneticColorOptimizer {
    const nColors: nat
    const populationSize: nat
    const mutationRate: real
    const maxMutationChange: real
    const eliteThreshold: real
    /** `self.predefined_colors`, after the fallback to the defaults. */
    const predefinedColors: seq<Rgb>
    /** The segmentation: one cluster label per pixel of the target image,
        row by row, for an image of `height` rows of `width` pixels. */
    const labels: seq<int>
    const height: nat
    const width: nat

    var population: seq<Scheme>
    var scores: seq<real>
    var generation: nat
    /** `fitness_history["average"]` and `fitness_history["best"]`. */
    var averageHistory: seq<real>
    var bestHistory: seq<real>

    /** The length every scheme has. */
    function SchemeLength(): nat
    {
      |Selected(predefinedColors, nColors)|
    }

    /** A segmentation of the image, one score per scheme, and every scheme
        of the common length. */
    ghost predicate Shaped()
      reads this
    {
      |labels| == height * width
      && (forall p :: 0 <= p < |labels| ==> 0 <= labels[p] < nColors)
      && |population| == populationSize && |scores| == populationSize
      && Uniform(population, SchemeLength())
    }

    /** `Shaped`, and one history entry per evolution step; an evolution
        only fails after recording history when the mutation rate is
        negative. */
    ghost predicate Valid()
      reads this
    {
      Shaped()
      && |averageHistory| == |bestHistory| && generation <= |averageHistory|
      && (mutationRate >= 0.0 ==> generation == |averageHistory|)
    }

    /** `__init__`, given the segmentation labels, with `shuffles` the
        `random.sample(selected, len(selected))` orderings drawn for the
        initial population. */
    constructor (nColors: nat, labels: seq<int>, height: nat, width: nat,
                 populationSize: nat, mutationRate: real, maxMutationChange: real,
                 eliteThreshold: real, predefined: seq<Rgb>, shuffles: seq<Scheme>)
      requires |labels| == height * width
      requires forall p :: 0 <= p < |labels| ==> 0 <= labels[p] < nColors
      requires |shuffles| == populationSize
      requires forall k :: 0 <= k < |shuffles| ==>
        multiset(shuffles[k]) == multiset(Selected(CandidatePool(predefined), nColors))
      ensures Valid()
      ensures this.nColors == nColors && this.labels == labels
      ensures this.height == height && this.width == width
      ensures this.populationSize == populationSize && this.mutationRate == mutationRate
      ensures this.maxMutationChange == maxMutationChange && this.eliteThreshold == eliteThreshold
      ensures predefinedColors == CandidatePool(predefined)
      ensures population == shuffles
      ensures forall k :: 0 <= k < |scores| ==> scores[k] == InitialScore
      ensures generation == 0 && averageHistory == [] && bestHistory == []
    {
      this.nColors := nColors;
      this.labels := labels;
      this.height := height;
      this.width := width;
      this.populationSize := populationSize;
      this.mutationRate := mutationRate;
      this.maxMutationChange := maxMutationChange;
      this.eliteThreshold := eliteThreshold;
      this.predefinedColors := CandidatePool(predefined);
      population := shuffles;
      scores := seq(populationSize, _ => InitialScore);
      generation := 0;
      averageHistory := [];
      bestHistory := [];
      new;
      forall k | 0 <= k < |shuffles|
        ensures |shuffles[k]| == SchemeLength()
      {
        assert |multiset(shuffles[k])| == |shuffles[k]|;
      }
    }

    /** `apply_scheme`: the image recoloured by the scheme, pixel p painted
        `scheme[labels[p]]`; a label past the end of the scheme raises
        `IndexError`. */
    function ApplyScheme(scheme: Scheme): (r: Result<ImageProcessor.Image>)
      reads this
      requires Valid()
      ensures r.Err? <==> exists p :: 0 <= p < |labels| && labels[p] >= |scheme|
      ensures r.Err? ==> r.error == IndexOutOfRange
      ensures r.Ok? ==> |r.value| == height && ImageProcessor.Rectangular(r.value, width)
      ensures r.Ok? ==> |ImageProcessor.Flatten(r.value)| == |labels|
      ensures r.Ok? ==> forall p :: 0 <= p < |labels| ==> ImageProcessor.Flatten(r.value)[p] == scheme[labels[p]]
    {
      if exists p :: 0 <= p < |labels| && labels[p] >= |scheme| then Err(IndexOutOfRange)
      else Ok(Reshape(seq(|labels|, p requires 0 <= p < |labels| => scheme[labels[p]]), height, width))
    }

    /** When the pool has fewer colours than `n_colors` and some pixel carries
        a label the schemes do not reach, no scheme of the population can be
        applied. */
    lemma ShortSchemesFail(k: nat, p: nat)
      requires Valid()
      requires k < |population| && p < |labels|
      requires labels[p] >= |predefinedColors|
      ensures ApplyScheme(population[k]).Err?
    {
      assert |population[k]| <= |predefinedColors|;
    }

    /** `set_scores`: a list of the wrong length raises `ValueError` and
        changes nothing; otherwise it becomes the scores. */
    method SetScores(newScores: seq<real>) returns (r: Result<()>)
      requires Valid()
      modifies this
      ensures Valid()
      ensures |newScores| != populationSize ==> r == Err(ScoreCountMismatch) && scores == old(scores)
      ensures |newScores| == populationSize ==> r == Ok(()) && scores == newScores
      ensures population == old(population) && generation == old(generation)
      ensures averageHistory == old(averageHistory) && bestHistory == old(bestHistory)
    {
      if |newScores| != populationSize {
        return Err(ScoreCountMismatch);
      }
      scores := newScores;
      return Ok(());
    }

    /** `_roulette_selection` for the drawn pair of indices. */
    function RouletteSelection(pick: (nat, nat)): (parents: (Scheme, Scheme))
      reads this
      requires Shaped() && PickFits(scores, pick)
      ensures parents.0 in population && parents.1 in population
      ensures Sum(scores) != 0.0 ==>
        (exists i :: 0 <= i < |population| && population[i] == parents.0 && scores[i] > 0.0)
        && (exists i :: 0 <= i < |population| && population[i] == parents.1 && scores[i] > 0.0)
    {
      (population[pick.0], population[pick.1])
    }

    /** `_generate_offspring`: `count` children, each the crossover of a
        roulette-selected pair at the drawn cut points. */
    method GenerateOffspring(count: nat, picks: seq<(nat, nat)>, cuts: seq<(nat, nat)>) returns (offspring: seq<Scheme>)
      requires Shaped()
      requires count <= |picks| && forall k {:trigger picks[k]} :: 0 <= k < count ==> PickFits(scores, picks[k])
      requires count <= |cuts| && forall k :: 0 <= k < count ==> SchemeLength() >= 3 ==> CutFits(SchemeLength(), cuts[k])
      ensures BreedingDrawsFit(|population|, SchemeLength(), picks, cuts, count)
      ensures offspring == Offspring(population, SchemeLength(), picks, cuts, count)
    {
      offspring := [];
      while |offspring| < count
        invariant |offspring| <= count
        invariant offspring == Offspring(population, SchemeLength(), picks, cuts, |offspring|)
        decreases count - |offspring|
      {
        var k := |offspring|;
        var (parent1, parent2) := RouletteSelection(picks[k]);
        var child := Crossover(parent1, parent2, cuts[k]);
        offspring := offspring + [child];
      }
    }

    /** `int(mutation_rate * n)`: how many of n schemes `_mutate` asks
        `random.sample` for. */
    function MutationCount(n: nat): (count: int)
      ensures mutationRate >= 0.0 ==> count >= 0
    {
      var x := mutationRate * n as real;
      if mutationRate >= 0.0 then
        ProductNonNegative(mutationRate, n as real);
        Trunc(x)
      else Trunc(x)
    }

    /** `_mutate` with `sample` the drawn indices and `jitters` the drawn
        factors: `int(mutation_rate * n)` schemes are drawn, or all of them
        when that is more; a negative count makes `random.sample` raise. */
    method Mutate(schemes: seq<Scheme>, sample: seq<nat>, jitters: seq<seq<Jitter>>) returns (r: Result<seq<Scheme>>)
      requires MutationCount(|schemes|) >= 0 ==>
        IsSample(sample, |schemes|, Min(MutationCount(|schemes|), |schemes|))
        && JittersFit(schemes, sample, jitters, maxMutationChange)
      ensures MutationCount(|schemes|) < 0 ==> r == Err(NegativeSampleSize)
      ensures MutationCount(|schemes|) >= 0 ==> r == Ok(Mutated(schemes, sample, jitters))
    {
      var count := MutationCount(|schemes|);
      if count < 0 {
        return Err(NegativeSampleSize);
      }
      var mutated := schemes;
      for t := 0 to |sample|
        invariant mutated == Mutated(schemes, sample[..t], jitters[..t])
      {
        assert sample[..t + 1][..t] == sample[..t] && jitters[..t + 1][..t] == jitters[..t];
        var idx := sample[t];
        mutated := mutated[idx := MutateScheme(mutated[idx], jitters[t])];
      }
      assert sample[..|sample|] == sample && jitters[..|jitters|] == jitters;
      return Ok(mutated);
    }

    /** The number of children an evolution breeds. */
    function NumOffspring(): nat
      reads this
      requires Shaped()
    {
      populationSize - CountAtLeast(scores, eliteThreshold)
    }

    /** The draws an evolution consumes, as the code constrains them:
        one parent pair and one pair of cut points per child, and the
        mutation indices and factors. Parents are only drawn once every
        score is known to be non-negative; before that `evolve` raises. */
    ghost predicate DrawsFit(picks: seq<(nat, nat)>, cuts: seq<(nat, nat)>, sample: seq<nat>, jitters: seq<seq<Jitter>>)
      reads this
      requires Shaped()
    {
      var n := NumOffspring();
      && n <= |picks| && (AllNonNegative(scores) ==> forall k {:trigger picks[k]} :: 0 <= k < n ==> PickFits(scores, picks[k]))
      && n <= |cuts| && (forall k :: 0 <= k < n ==> SchemeLength() >= 3 ==> CutFits(SchemeLength(), cuts[k]))
      && (MutationCount(n) >= 0 ==>
            IsSample(sample, n, Min(MutationCount(n), n))
            && |jitters| == |sample|
            && (forall t :: 0 <= t < |sample| ==> |jitters[t]| == SchemeLength())
            && JitterBounds(jitters, maxMutationChange))
    }

    /** The population an evolution breeds from the current one, once its
        scores have passed the non-negative check: the mutated offspring
        followed by the elites, or the error `random.sample` raises for a
        negative mutation count. */
    method Breed(picks: seq<(nat, nat)>, cuts: seq<(nat, nat)>, sample: seq<nat>, jitters: seq<seq<Jitter>>)
      returns (next: Result<seq<Scheme>>)
      requires Shaped() && AllNonNegative(scores) && DrawsFit(picks, cuts, sample, jitters)
      ensures BreedingDrawsFit(|population|, SchemeLength(), picks, cuts, NumOffspring())
      ensures next.Err? <==> MutationCount(NumOffspring()) < 0
      ensures next.Err? ==> next.error == NegativeSampleSize
      ensures next.Ok? ==>
        next.value == Mutated(Offspring(population, SchemeLength(), picks, cuts, NumOffspring()), sample, jitters)
                      + Elite(population, scores, eliteThreshold)
      ensures next.Ok? ==> |next.value| == populationSize && Uniform(next.value, SchemeLength())
    {
      var n := NumOffspring();
      var elite := Elite(population, scores, eliteThreshold);
      var offspring := GenerateOffspring(populationSize - |elite|, picks, cuts);
      assert |offspring| == n && Uniform(offspring, SchemeLength());
      if MutationCount(n) >= 0 {
        JittersFitUniform(offspring, SchemeLength(), sample, jitters, maxMutationChange);
      }
      var mutated := Mutate(offspring, sample, jitters);
      if mutated.Err? {
        return Err(mutated.error);
      }
      EliteLengths(population, scores, eliteThreshold, SchemeLength());
      return Ok(mutated.value + elite);
    }

    /** `evolve`, with the parent draws, cut points, mutation indices and
        factors as parameters. */
    method Evolve(picks: seq<(nat, nat)>, cuts: seq<(nat, nat)>, sample: seq<nat>, jitters: seq<seq<Jitter>>)
      returns (r: Result<()>)
      requires Valid()
      requires DrawsFit(picks, cuts, sample, jitters)
      modifies this
      ensures Valid()
      ensures !AllNonNegative(old(scores)) ==> r == Err(NegativeScore)
      ensures AllNonNegative(old(scores)) && old(scores) == [] ==> r == Err(EmptySequence)
      ensures r.Err? && r.error != NegativeSampleSize ==>
        population == old(population) && scores == old(scores) && generation == old(generation)
        && averageHistory == old(averageHistory) && bestHistory == old(bestHistory)
      ensures AllNonNegative(old(scores)) && old(scores) != [] ==>
        averageHistory == old(averageHistory) + [Mean(old(scores))]
        && bestHistory == old(bestHistory) + [Max(old(scores))]
      ensures r == Err(NegativeSampleSize) ==>
        old(MutationCount(NumOffspring())) < 0
        && population == old(population) && scores == old(scores) && generation == old(generation)
      ensures r.Ok? <==>
        AllNonNegative(old(scores)) && old(scores) != [] && old(MutationCount(NumOffspring())) >= 0
      ensures r.Ok? ==>
        population == Mutated(Offspring(old(population), SchemeLength(), picks, cuts, old(NumOffspring())), sample, jitters)
                      + Elite(old(population), old(scores), eliteThreshold)
      ensures r.Ok? ==> forall k :: 0 <= k < |scores| ==> scores[k] == InitialScore
      ensures r.Ok? ==> generation == old(generation) + 1
    {
      if !AllNonNegative(scores) {
        return Err(NegativeScore);
      }
      if scores == [] {
        return Err(EmptySequence);
      }
      // Breeding reads none of the histories, so drawing the next generation
      // before recording them gives the same state as the order of `evolve`.
      var next := Breed(picks, cuts, sample, jitters);
      averageHistory := averageHistory + [Mean(scores)];
      bestHistory := bestHistory + [Max(scores)];
      if next.Err? {
        return Err(next.error);
      }
      population := next.value;
      scores := seq(populationSize, _ => InitialScore);
      generation := generation + 1;
      return Ok(());
    }

    /** `get_best_scheme`: the first scheme holding the highest score, with
        that score; on an empty population `np.argmax` raises. */
    function GetBestScheme(): (r: Result<(Scheme, real)>)
      reads this
      requires Valid()
      ensures r.Err? <==> |scores| == 0
      ensures r.Err? ==> r.error == EmptySequence
      ensures r.Ok? ==>
        exists k :: (0 <= k < |scores| && r.value == (population[k], scores[k])
                     && (forall i :: 0 <= i < |scores| ==> scores[i] <= scores[k])
                     && (forall i :: 0 <= i < k ==> scores[i] < scores[k]))
    {
      if |scores| == 0 then Err(EmptySequence)
      else
        var k := ArgMax(scores);
        Ok((population[k], scores[k]))
    }
  }

  /** Population size invariance: an evolution that succeeds leaves exactly
      `population_size` schemes, the elites, unchanged and in population
      order, at the tail. */
  lemma NextPopulationLayout(population: seq<Scheme>, scores: seq<real>, threshold: real, size: nat,
                             children: seq<Scheme>)
    requires |scores| == |population| == size
    requires |children| == size - CountAtLeast(scores, threshold)
    ensures |children + Elite(population, scores, threshold)| == size
    ensures (children + Elite(population, scores, threshold))[size - CountAtLeast(scores, threshold)..]
         == Elite(population, scores, threshold)
  {
    var e := Elite(population, scores, threshold);
    assert (children + e)[|children|..] == e;
  }

  /** Elitism: a scheme scored at or above the threshold is, unchanged, part
      of the next population. */
  lemma EliteSurvives(population: seq<Scheme>, scores: seq<real>, threshold: real, children: seq<Scheme>, i: nat)
    requires |scores| == |population| && i < |population|
    requires scores[i] >= threshold
    ensures population[i] in children + Elite(population, scores, threshold)
  {
  }
}
