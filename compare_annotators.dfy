// scripts/compare_annotators.py: the boundary vector of a stored analysis
// and the agreement counters between two annotators over the words both
// have annotated.
module CompareAnnotators {
  import opened SeqUtil
  import opened Segmentation

  /** `seg_to_boundaries(seg)`: `len(morph) - 1` falses and a true per morph,
      then the last flag popped. Popping from the empty list of an empty
      segmentation raises `IndexError`, modelled as `None`. */
  method SegToBoundaries(seg: seq<string>) returns (r: Option<seq<bool>>)
    ensures seg == [] <==> r == None
    ensures seg != [] ==> r == Some(BoundaryVector(seg))
  {
    var boundaries: seq<bool> := [];
    var i := 0;
    while i < |seg|
      invariant 0 <= i <= |seg|
      invariant boundaries == Marks(seg[..i])
    {
      var morph := seg[i];
      assert seg[..i + 1] == seg[..i] + [morph];
      MarksAppend(seg[..i], morph);
      // `(len(morph) - 1) * [False]` is empty for an empty morph
      boundaries := boundaries + Falses(if |morph| > 0 then |morph| - 1 else 0);
      boundaries := boundaries + [true];
      i := i + 1;
    }
    assert seg[..i] == seg;
    if boundaries == [] {
      return None;
    }
    r := Some(boundaries[..|boundaries| - 1]);
  }

  /** The vector of an analysis has one flag per gap between its letters
      and one true flag per inner morph boundary; it decodes back to the
      analysis. */
  lemma SegToBoundariesFacts(seg: seq<string>)
    requires seg != [] && NonEmptyMorphs(seg)
    ensures |BoundaryVector(seg)| == |Flatten(seg)| - 1
    ensures CountTrue(BoundaryVector(seg)) == |seg| - 1
    ensures Segments(Flatten(seg), BoundaryVector(seg)) == seg
  {
    BoundaryVectorShape(seg);
    SegmentsOfBoundaryVector(seg);
  }

  /** The counters of `main`. */
  datatype Counters = Counters(
    wSame: nat, wDiff: nat,
    bSame: nat, bDiff: nat,
    aPos: nat, aNeg: nat,
    bPos: nat, bNeg: nat)

  /** Number of positions where two vectors of equal length agree. */
  function Agreeing(a: seq<bool>, b: seq<bool>): (n: nat)
    requires |a| == |b|
    ensures n <= |a|
    ensures n == |a| <==> a == b
  {
    if a == [] then 0
    else
      var n := (if a[0] == b[0] then 1 else 0) + Agreeing(a[1..], b[1..]);
      assert a == [a[0]] + a[1..] && b == [b[0]] + b[1..];
      n
  }

  lemma {:induction false} AgreeingAppend(a: seq<bool>, b: seq<bool>, x: bool, y: bool)
    requires |a| == |b|
    ensures Agreeing(a + [x], b + [y]) == Agreeing(a, b) + (if x == y then 1 else 0)
  {
    if a != [] {
      assert (a + [x])[1..] == a[1..] + [x];
      assert (b + [y])[1..] == b[1..] + [y];
      AgreeingAppend(a[1..], b[1..], x, y);
    }
  }

  /** The counters' increments from one position of `zip`: one of
      `b_samecount`/`b_diffcount`, one of `a_pos`/`a_neg` and one of
      `b_pos`/`b_neg`. */
  function PositionStep(c: Counters, x: bool, y: bool): Counters
  {
    c.(
      aPos := c.aPos + (if x then 1 else 0),
      aNeg := c.aNeg + (if x then 0 else 1),
      bPos := c.bPos + (if y then 1 else 0),
      bNeg := c.bNeg + (if y then 0 else 1),
      bSame := c.bSame + (if x == y then 1 else 0),
      bDiff := c.bDiff + (if x != y then 1 else 0))
  }

  /** The increments over the first `j` positions of two vectors. */
  ghost predicate TalliedUpTo(a: seq<bool>, b: seq<bool>, j: nat, c: Counters)
    requires j <= |a| && j <= |b|
  {
    c.wSame == 0 && c.wDiff == 0 &&
    c.bSame + c.bDiff == c.aPos + c.aNeg == c.bPos + c.bNeg == j &&
    c.aPos == CountTrue(a[..j]) && c.bPos == CountTrue(b[..j]) &&
    c.bSame == Agreeing(a[..j], b[..j])
  }

  lemma TallyStep(a: seq<bool>, b: seq<bool>, j: nat, c: Counters)
    requires j < |a| && j < |b| && TalliedUpTo(a, b, j, c)
    ensures TalliedUpTo(a, b, j + 1, PositionStep(c, a[j], b[j]))
  {
    assert a[..j + 1] == a[..j] + [a[j]] && b[..j + 1] == b[..j] + [b[j]];
    CountTrueAppend(a[..j], [a[j]]);
    CountTrueAppend(b[..j], [b[j]]);
    AgreeingAppend(a[..j], b[..j], a[j], b[j]);
  }

  /** The counters' increments from one word: the positions `zip` pairs
      up, each counted once in each of the three pairs of counters. */
  method ZipTally(a: seq<bool>, b: seq<bool>) returns (c: Counters)
    ensures var m := if |a| <= |b| then |a| else |b|;
      TalliedUpTo(a, b, m, c) &&
      (c.bDiff == 0 <==> a[..m] == b[..m])
  {
    var m := if |a| <= |b| then |a| else |b|;
    c := Counters(0, 0, 0, 0, 0, 0, 0, 0);
    var j := 0;
    while j < m
      invariant 0 <= j <= m
      invariant TalliedUpTo(a, b, j, c)
    {
      TallyStep(a, b, j, c);
      c := PositionStep(c, a[j], b[j]);
      j := j + 1;
    }
  }

  /** The boundary counters' increments from one common word, whose
      analyses are `aa` and `bb`. */
  method WordTally(aa: seq<string>, bb: seq<string>) returns (r: Option<Counters>)
    ensures r == None <==> aa == [] || bb == []
    ensures r.Some? ==>
      var va := BoundaryVector(aa);
      var vb := BoundaryVector(bb);
      var m := if |va| <= |vb| then |va| else |vb|;
      TalliedUpTo(va, vb, m, r.value) &&
      (aa == bb ==> r.value.bDiff == 0)
  {
    var va := SegToBoundaries(aa);
    var vb := SegToBoundaries(bb);
    if va.None? || vb.None? {
      return None;
    }
    var t := ZipTally(va.value, vb.value);
    r := Some(t);
  }

  /** `set.intersection` of the two annotators' words. */
  function CommonWords(annA: map<string, seq<string>>, annB: map<string, seq<string>>): set<string>
  {
    set w | w in annA && w in annB
  }

  /** The common words on which the two annotators agree. */
  function SameWords(annA: map<string, seq<string>>, annB: map<string, seq<string>>, words: set<string>): set<string>
  {
    set w | w in words && w in annA && w in annB && annA[w] == annB[w]
  }

  lemma SameWordsAdd(annA: map<string, seq<string>>, annB: map<string, seq<string>>, done: set<string>, w: string)
    requires w !in done && w in annA && w in annB
    ensures annA[w] == annB[w] ==> SameWords(annA, annB, done + {w}) == SameWords(annA, annB, done) + {w}
    ensures annA[w] != annB[w] ==> SameWords(annA, annB, done + {w}) == SameWords(annA, annB, done)
  {
  }

  /** Whether some common word has an empty analysis, on which
      `seg_to_boundaries` fails. */
  predicate SomeEmptyAnalysis(annA: map<string, seq<string>>, annB: map<string, seq<string>>)
  {
    exists w :: w in annA && w in annB && (annA[w] == [] || annB[w] == [])
  }

  /** The three boundary totals count the same positions, and annotators
      that agree on every word so far disagree on no boundary. */
  predicate Balanced(c: Counters)
  {
    c.bSame + c.bDiff == c.aPos + c.aNeg == c.bPos + c.bNeg &&
    (c.wDiff == 0 ==> c.bDiff == 0)
  }

  /** The counters after one more word: one word counter moves by `same`,
      the boundary counters add the word's tally `t`. */
  function AddWord(c: Counters, same: bool, t: Counters): Counters
  {
    Counters(
      c.wSame + (if same then 1 else 0), c.wDiff + (if same then 0 else 1),
      c.bSame + t.bSame, c.bDiff + t.bDiff,
      c.aPos + t.aPos, c.aNeg + t.aNeg,
      c.bPos + t.bPos, c.bNeg + t.bNeg)
  }

  /** What the counting loop keeps over the words `done` so far. */
  ghost predicate CountedSoFar(annA: map<string, seq<string>>, annB: map<string, seq<string>>,
                               done: set<string>, c: Counters)
  {
    (forall w :: w in done ==> w in annA && w in annB && annA[w] != [] && annB[w] != []) &&
    c.wSame == |SameWords(annA, annB, done)| && c.wSame + c.wDiff == |done| &&
    Balanced(c)
  }

  lemma CountedStep(annA: map<string, seq<string>>, annB: map<string, seq<string>>,
                    done: set<string>, c: Counters, w: string, t: Counters)
    requires CountedSoFar(annA, annB, done, c)
    requires w !in done && w in annA && w in annB && annA[w] != [] && annB[w] != []
    requires t.bSame + t.bDiff == t.aPos + t.aNeg == t.bPos + t.bNeg
    requires annA[w] == annB[w] ==> t.bDiff == 0
    ensures CountedSoFar(annA, annB, done + {w}, AddWord(c, annA[w] == annB[w], t))
  {
    SameWordsAdd(annA, annB, done, w);
    assert |done + {w}| == |done| + 1;
  }

  lemma EmptyAnalysisWitness(annA: map<string, seq<string>>, annB: map<string, seq<string>>, w: string)
    requires w in annA && w in annB && (annA[w] == [] || annB[w] == [])
    ensures SomeEmptyAnalysis(annA, annB)
  {
  }

  lemma NoEmptyAnalysis(annA: map<string, seq<string>>, annB: map<string, seq<string>>, c: Counters)
    requires CountedSoFar(annA, annB, CommonWords(annA, annB), c)
    ensures !SomeEmptyAnalysis(annA, annB)
  {
    forall w | w in annA && w in annB ensures annA[w] != [] && annB[w] != [] {
      assert w in CommonWords(annA, annB);
    }
  }

  /** One iteration of the counting loop: the counters after `word`. */
  method CountWord(annA: map<string, seq<string>>, annB: map<string, seq<string>>,
                   ghost done: set<string>, c: Counters, word: string) returns (r: Option<Counters>)
    requires CountedSoFar(annA, annB, done, c)
    requires word in annA && word in annB && word !in done
    ensures r == None <==> annA[word] == [] || annB[word] == []
    ensures r.Some? ==> CountedSoFar(annA, annB, done + {word}, r.value)
  {
    var aa := annA[word];
    var bb := annB[word];
    var tally := WordTally(aa, bb);
    if tally.None? {
      return None;
    }
    CountedStep(annA, annB, done, c, word, tally.value);
    r := Some(AddWord(c, aa == bb, tally.value));
  }

  /** The counting loop of `main` over the words both annotators have
      annotated (`set.intersection` of the key sets, visited in no
      particular order). Writing the same/diff files and the ratios computed
      from the counters are not part of this model. */
  method CompareCounts(annA: map<string, seq<string>>, annB: map<string, seq<string>>)
    returns (r: Option<Counters>)
    ensures r == None <==> SomeEmptyAnalysis(annA, annB)
    ensures r.Some? ==>
      var c := r.value;
      c.wSame == |SameWords(annA, annB, CommonWords(annA, annB))| &&
      c.wSame + c.wDiff == |CommonWords(annA, annB)| &&
      Balanced(c)
  {
    var common := CommonWords(annA, annB);
    var c := Counters(0, 0, 0, 0, 0, 0, 0, 0);
    var remaining := common;
    ghost var done: set<string> := {};
    while remaining != {}
      invariant remaining <= common && done == common - remaining
      invariant CountedSoFar(annA, annB, done, c)
      decreases |remaining|
    {
      var word :| word in remaining;
      var next := CountWord(annA, annB, done, c, word);
      if next.None? {
        // `boundaries.pop()` on an empty analysis raises IndexError
        EmptyAnalysisWitness(annA, annB, word);
        return None;
      }
      c := next.value;
      remaining := remaining - {word};
      done := done + {word};
    }
    assert done == common;
    NoEmptyAnalysis(annA, annB, c);
    r := Some(c);
  }
}
