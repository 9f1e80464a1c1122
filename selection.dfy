/** Selecting words for annotation (morphsegannot/tools/selection.py): the
    features computed from the segmentation model, the scores of the
    metrics ranked with `AbstractMetric.rank`, the selected words and the
    `zlog` sentinel. The segmentation model is a foreign library and enters
    as an `Oracle` of uninterpreted functions; floats are reals. */
module Selection {
  import opened SeqUtil
  import opened Strings

  // ---- the segmentation model ----

  /** A morph and its category (`STM`, `PRE`, `SUF`, `ZZZ`). */
  datatype CMorph = CMorph(morph: string, category: string)

  /** An analysis of a word: its morphs and its log-probability cost. */
  datatype Analysis = Analysis(morphs: seq<CMorph>, logp: real)

  /** The operations the metrics use from a segmentation model; `lexicon`
      is what `get_lexicon` yields: each morph with its counts. */
  datatype Oracle = Oracle(
    viterbiAnalyze: string -> Analysis,
    viterbiNbest: (string, int) -> seq<Analysis>,
    forwardLogprob: string -> real,
    logEmission: (string, string) -> real,
    lexicon: seq<(string, seq<nat>)>)

  // ---- the metrics' class constants ----

  /** The function `MorphLogpMetric` applies to the emission costs. */
  datatype Extreme = Min | Max

  /** `AlphaBracketMetric`'s variant: `unnorm`, `uncert` or any other name
      (length-normalised cost). */
  datatype Variant = Unnorm | Uncert | Normalized

  /** The metrics ranked by `AbstractMetric.rank`. Margin's score takes
      `math.exp` of costs, so its arithmetic is the parameter `gap` applied
      to the best cost, the second-best cost and the forward cost. */
  datatype Metric =
    | Uncertainty
    | Margin(gap: (real, real, real) -> real)
    | Logp
    | MorphLogp(func: Extreme)
    | AlphaBracket(variant: Variant, low: Oracle, hi: Oracle)
    | Category
    | NoStm

  function NeedNbest(m: Metric): int
  {
    match m
    case Margin(_) => 2
    case AlphaBracket(_, _, _) => 0
    case _ => 1
  }

  function NeedForward(m: Metric): bool
  {
    !(m.Logp? || m.AlphaBracket?)
  }

  function Descending(m: Metric): bool
  {
    !(m.Margin? || m.AlphaBracket?)
  }

  // ---- features ----

  /** A metric's own feature of a word. */
  datatype Custom = Flag(b: bool) | Emissions(costs: seq<real>) | Bracket(low: real, hi: real, same: bool)

  /** The features of one word: the `generic` Viterbi analyses and forward
      cost, the uncertainty, and the metric's own feature. */
  datatype WordFeatures = WordFeatures(word: string, viterbi: Option<seq<Analysis>>,
                                       forward: Option<real>, uncertainty: Option<real>,
                                       custom: Option<Custom>)

  /** The features `calculate_features` computes for every metric; None
      when the lookup of the best analysis fails (`need_forward` without
      an analysis). */
  function BaseFeatures(needNbest: int, needForward: bool, model: Oracle, word: string): Option<WordFeatures>
  {
    var viterbi :=
      if needNbest == 0 then None
      else if needNbest == 1 then Some([model.viterbiAnalyze(word)])
      else Some(model.viterbiNbest(word, needNbest));
    if !needForward then Some(WordFeatures(word, viterbi, None, None, None))
    else if viterbi == None || viterbi.value == [] then None
    else
      var fwd := model.forwardLogprob(word);
      Some(WordFeatures(word, viterbi, Some(fwd), Some(viterbi.value[0].logp - fwd), None))
  }

  /** No analyses are computed when none are needed, one Viterbi analysis
      when one is needed, and with the forward cost the uncertainty is the
      best analysis's cost minus the forward cost; the forward cost needs an
      analysis. */
  lemma BaseFeaturesFacts(needNbest: int, needForward: bool, model: Oracle, word: string)
    ensures needNbest == 0 && !needForward ==>
      BaseFeatures(needNbest, needForward, model, word) == Some(WordFeatures(word, None, None, None, None))
    ensures needNbest == 0 && needForward ==> BaseFeatures(needNbest, needForward, model, word) == None
    ensures needNbest == 1 ==>
      BaseFeatures(needNbest, needForward, model, word).Some? &&
      BaseFeatures(needNbest, needForward, model, word).value.viterbi == Some([model.viterbiAnalyze(word)])
    ensures needForward && BaseFeatures(needNbest, needForward, model, word).Some? ==>
      var f := BaseFeatures(needNbest, needForward, model, word).value;
      f.viterbi.Some? && f.viterbi.value != [] &&
      f.forward == Some(model.forwardLogprob(word)) &&
      f.uncertainty == Some(f.viterbi.value[0].logp - model.forwardLogprob(word))
    ensures forall f :: BaseFeatures(needNbest, needForward, model, word) == Some(f) ==>
      f.word == word && f.custom == None && (f.forward.Some? <==> needForward)
  {
  }

  /** What a metric's `features` method gives. */
  datatype Computed = Raised | NoneReturned | Returned(c: Custom)

  /** The categories of an analysis's morphs. */
  function Categories(morphs: seq<CMorph>): (r: seq<string>)
    ensures |r| == |morphs| && forall i :: 0 <= i < |r| ==> r[i] == morphs[i].category
  {
    if morphs == [] then [] else Categories(morphs[..|morphs| - 1]) + [morphs[|morphs| - 1].category]
  }

  predicate StemLike(c: string)
  {
    c == "STM" || c == "ZZZ"
  }

  /** `CategoryMetric.features`: some morph tagged STM or ZZZ is followed
      by another. */
  predicate StemPair(cats: seq<string>)
    decreases |cats|
  {
    |cats| >= 2 && ((StemLike(cats[0]) && StemLike(cats[1])) || StemPair(cats[1..]))
  }

  lemma {:induction false} StemPairExists(cats: seq<string>)
    ensures StemPair(cats) <==> exists i :: 0 <= i < |cats| - 1 && StemLike(cats[i]) && StemLike(cats[i + 1])
    decreases |cats|
  {
    if |cats| >= 2 {
      StemPairExists(cats[1..]);
      if exists i :: 0 <= i < |cats| - 1 && StemLike(cats[i]) && StemLike(cats[i + 1]) {
        var i :| 0 <= i < |cats| - 1 && StemLike(cats[i]) && StemLike(cats[i + 1]);
        if i > 0 {
          assert cats[1..][i - 1] == cats[i] && cats[1..][i] == cats[i + 1];
        }
      }
      if StemPair(cats[1..]) {
        var i :| 0 <= i < |cats| - 2 && StemLike(cats[1..][i]) && StemLike(cats[1..][i + 1]);
        assert cats[i + 1] == cats[1..][i] && cats[i + 2] == cats[1..][i + 1];
      }
    }
  }

  /** The cost an `AlphaBracketMetric` compares for one model; None on the
      division by the length of the empty word. */
  function BracketCost(variant: Variant, model: Oracle, word: string): Option<real>
  {
    var logp := model.viterbiAnalyze(word).logp;
    match variant
    case Unnorm => Some(logp)
    case Uncert => Some(logp - model.forwardLogprob(word))
    case Normalized => if |word| == 0 then None else Some(logp / (|word| as real))
  }

  /** The best analysis in the generic features, when there is one. */
  function Best(f: WordFeatures): Option<Analysis>
  {
    if f.viterbi.Some? && f.viterbi.value != [] then Some(f.viterbi.value[0]) else None
  }

  /** The `features` method of each metric. */
  function CustomOf(m: Metric, model: Oracle, f: WordFeatures): Computed
  {
    match m
    case MorphLogp(_) =>
      if Best(f).None? then Raised
      else
        var morphs := Best(f).value.morphs;
        Returned(Emissions(seq(|morphs|, i requires 0 <= i < |morphs| =>
                                 model.logEmission(morphs[i].category, morphs[i].morph))))
    case AlphaBracket(variant, low, hi) =>
      var l := BracketCost(variant, low, f.word);
      var h := BracketCost(variant, hi, f.word);
      if l.None? || h.None? then Raised
      else Returned(Bracket(l.value, h.value,
                            low.viterbiAnalyze(f.word).morphs == hi.viterbiAnalyze(f.word).morphs))
    case Category =>
      if Best(f).None? then Raised else Returned(Flag(StemPair(Categories(Best(f).value.morphs))))
    case NoStm =>
      if Best(f).None? then Raised else Returned(Flag("STM" in Categories(Best(f).value.morphs)))
    case _ => NoneReturned
  }

  /** `Selector.calculate_features` for one word; None when it raises. */
  function CalculateFeatures(m: Metric, model: Oracle, word: string): Option<WordFeatures>
  {
    match BaseFeatures(NeedNbest(m), NeedForward(m), model, word)
    case None => None
    case Some(f) =>
      match CustomOf(m, model, f)
      case Raised => None
      case NoneReturned => Some(f)
      case Returned(c) => Some(f.(custom := Some(c)))
  }

  // ---- scores and their order ----

  /** `ScoredWord(score, word)`; a score is a tuple of reals. */
  datatype ScoredWord = ScoredWord(score: seq<real>, word: string)

  /** Python's `<` on tuples of reals. */
  predicate RealsLess(a: seq<real>, b: seq<real>)
    decreases |a|
  {
    if a == [] then b != []
    else if b == [] then false
    else if a[0] != b[0] then a[0] < b[0]
    else RealsLess(a[1..], b[1..])
  }

  lemma {:induction false} RealsLessIrreflexive(a: seq<real>)
    ensures !RealsLess(a, a)
    decreases |a|
  {
    if a != [] {
      RealsLessIrreflexive(a[1..]);
    }
  }

  lemma {:induction false} RealsLessTransitive(a: seq<real>, b: seq<real>, c: seq<real>)
    requires RealsLess(a, b) && RealsLess(b, c)
    ensures RealsLess(a, c)
    decreases |a|
  {
    if a != [] && a[0] == b[0] && b[0] == c[0] {
      RealsLessTransitive(a[1..], b[1..], c[1..]);
    }
  }

  lemma {:induction false} RealsLessTotal(a: seq<real>, b: seq<real>)
    ensures RealsLess(a, b) || a == b || RealsLess(b, a)
    decreases |a|
  {
    if a != [] && b != [] && a[0] == b[0] {
      RealsLessTotal(a[1..], b[1..]);
      if a[1..] == b[1..] {
        assert a == [a[0]] + a[1..] && b == [b[0]] + b[1..];
      }
    }
  }

  /** Python's `<` on `ScoredWord` tuples: by score, then by word. */
  predicate Less(a: ScoredWord, b: ScoredWord)
  {
    RealsLess(a.score, b.score) || (a.score == b.score && StrLess(a.word, b.word))
  }

  lemma LessIrreflexive(a: ScoredWord)
    ensures !Less(a, a)
  {
    RealsLessIrreflexive(a.score);
    StrLessIrreflexive(a.word);
  }

  lemma LessTransitive(a: ScoredWord, b: ScoredWord, c: ScoredWord)
    requires Less(a, b) && Less(b, c)
    ensures Less(a, c)
  {
    if RealsLess(a.score, b.score) && RealsLess(b.score, c.score) {
      RealsLessTransitive(a.score, b.score, c.score);
    } else if StrLess(a.word, b.word) && StrLess(b.word, c.word) && a.score == b.score && b.score == c.score {
      StrLessTransitive(a.word, b.word, c.word);
    }
  }

  lemma LessTotal(a: ScoredWord, b: ScoredWord)
    ensures Less(a, b) || a == b || Less(b, a)
  {
    RealsLessTotal(a.score, b.score);
    StrLessTotal(a.word, b.word);
  }

  /** Not less is greater or equal. */
  lemma NotLess(a: ScoredWord, b: ScoredWord)
    requires !Less(a, b)
    ensures a == b || Less(b, a)
  {
    LessTotal(a, b);
  }

  /** Ascending: no later element is less than an earlier one. */
  predicate Ascending(s: seq<ScoredWord>)
  {
    forall i, j :: 0 <= i < j < |s| ==> !Less(s[j], s[i])
  }

  /** Descending: no later element is greater than an earlier one. */
  predicate DescendingOrder(s: seq<ScoredWord>)
  {
    forall i, j :: 0 <= i < j < |s| ==> !Less(s[i], s[j])
  }

  function Insert(x: ScoredWord, t: seq<ScoredWord>): (r: seq<ScoredWord>)
    ensures |r| == |t| + 1
    decreases |t|
  {
    if t == [] || !Less(x, t[|t| - 1]) then t + [x]
    else Insert(x, t[..|t| - 1]) + [t[|t| - 1]]
  }

  /** `sorted`: an insertion sort (the order is total, so every sort gives
      this result). */
  function Sort(s: seq<ScoredWord>): (r: seq<ScoredWord>)
    ensures |r| == |s|
  {
    if s == [] then [] else Insert(s[|s| - 1], Sort(s[..|s| - 1]))
  }

  lemma {:induction false} InsertPermutes(x: ScoredWord, t: seq<ScoredWord>)
    ensures multiset(Insert(x, t)) == multiset(t) + multiset{x}
    decreases |t|
  {
    if t != [] && Less(x, t[|t| - 1]) {
      InsertPermutes(x, t[..|t| - 1]);
      assert t == t[..|t| - 1] + [t[|t| - 1]];
    }
  }

  lemma {:induction false} SortPermutes(s: seq<ScoredWord>)
    ensures multiset(Sort(s)) == multiset(s)
  {
    if s != [] {
      SortPermutes(s[..|s| - 1]);
      InsertPermutes(s[|s| - 1], Sort(s[..|s| - 1]));
      assert s == s[..|s| - 1] + [s[|s| - 1]];
    }
  }

  lemma {:induction false} InsertAscending(x: ScoredWord, t: seq<ScoredWord>)
    requires Ascending(t)
    ensures Ascending(Insert(x, t))
    decreases |t|
  {
    if t == [] {
    } else if !Less(x, t[|t| - 1]) {
      var last := t[|t| - 1];
      forall i | 0 <= i < |t| ensures !Less(x, t[i]) {
        if i < |t| - 1 && Less(x, t[i]) {
          NotLess(x, last);
          if Less(last, x) {
            LessTransitive(last, x, t[i]);
          }
        }
      }
      var r := t + [x];
      assert forall i :: 0 <= i < |t| ==> r[i] == t[i];
    } else {
      var init := t[..|t| - 1];
      var last := t[|t| - 1];
      InsertAscending(x, init);
      InsertPermutes(x, init);
      var m := Insert(x, init);
      forall e | e in m ensures !Less(last, e) {
        assert e in multiset(m);
        if e == x {
          if Less(last, x) {
            LessTransitive(x, last, x);
            LessIrreflexive(x);
          }
        } else {
          assert e in multiset(init);
          var k :| 0 <= k < |init| && init[k] == e;
          assert t[k] == e;
        }
      }
      var r := m + [last];
      forall i, j | 0 <= i < j < |r| ensures !Less(r[j], r[i]) {
        if j < |m| {
          assert r[i] == m[i] && r[j] == m[j];
        } else {
          assert r[i] == m[i] && m[i] in m;
        }
      }
    }
  }

  lemma {:induction false} SortAscending(s: seq<ScoredWord>)
    ensures Ascending(Sort(s))
  {
    if s != [] {
      SortAscending(s[..|s| - 1]);
      InsertAscending(s[|s| - 1], Sort(s[..|s| - 1]));
    }
  }

  function Reverse<T>(s: seq<T>): (r: seq<T>)
    ensures |r| == |s|
  {
    if s == [] then [] else [s[|s| - 1]] + Reverse(s[..|s| - 1])
  }

  lemma {:induction false} ReverseAt<T>(s: seq<T>)
    ensures forall i :: 0 <= i < |s| ==> Reverse(s)[i] == s[|s| - 1 - i]
  {
    if s != [] {
      ReverseAt(s[..|s| - 1]);
    }
  }

  lemma {:induction false} ReversePermutes<T>(s: seq<T>)
    ensures multiset(Reverse(s)) == multiset(s)
  {
    if s != [] {
      ReversePermutes(s[..|s| - 1]);
      assert s == s[..|s| - 1] + [s[|s| - 1]];
    }
  }

  /** `sorted(scored, reverse=descending)`. */
  function Sorted(s: seq<ScoredWord>, descending: bool): seq<ScoredWord>
  {
    if descending then Reverse(Sort(s)) else Sort(s)
  }

  /** The sorted scores are a permutation of the scores, ascending, or
      descending when `descending` is set. */
  /** Reversing an ascending sequence gives a descending one. */
  lemma ReverseDescending(t: seq<ScoredWord>)
    requires Ascending(t)
    ensures DescendingOrder(Reverse(t))
  {
    ReverseAt(t);
    var r := Reverse(t);
    forall i, j | 0 <= i < j < |r| ensures !Less(r[i], r[j]) {
      assert r[i] == t[|t| - 1 - i] && r[j] == t[|t| - 1 - j];
    }
  }

  /** The sorted scores are a permutation of the scores, ascending, or
      descending when `descending` is set. */
  lemma SortedFacts(s: seq<ScoredWord>, descending: bool)
    ensures multiset(Sorted(s, descending)) == multiset(s)
    ensures descending ==> DescendingOrder(Sorted(s, descending))
    ensures !descending ==> Ascending(Sorted(s, descending))
  {
    SortPermutes(s);
    SortAscending(s);
    if descending {
      ReversePermutes(Sort(s));
      ReverseDescending(Sort(s));
    }
  }

  // ---- the metrics' scores ----

  /** What a `score` generator does with one word. */
  datatype Step = Raise | Skip | Yield(scored: ScoredWord)

  function ExtremeOf(func: Extreme, costs: seq<real>): real
    requires costs != []
  {
    if |costs| == 1 then costs[0]
    else
      var rest := ExtremeOf(func, costs[1..]);
      match func
      case Min => if costs[0] <= rest then costs[0] else rest
      case Max => if costs[0] >= rest then costs[0] else rest
  }

  /** The `score` method of each metric, for one word: a failed lookup, an
      assertion or a division by zero raises, and the filtering metrics
      skip words. */
  function ScoreStep(m: Metric, f: WordFeatures): Step
  {
    match m
    case Uncertainty =>
      if f.uncertainty.None? then Raise else Yield(ScoredWord([f.uncertainty.value], f.word))
    case Margin(gap) =>
      if f.viterbi.None? then Raise
      else if |f.viterbi.value| < 2 then Skip
      else if f.forward.None? then Raise
      else Yield(ScoredWord([gap(f.viterbi.value[0].logp, f.viterbi.value[1].logp, f.forward.value)], f.word))
    case Logp =>
      if Best(f).None? || |f.word| == 0 then Raise
      else Yield(ScoredWord([Best(f).value.logp / (|f.word| as real)], f.word))
    case MorphLogp(func) =>
      if f.custom.None? || !f.custom.value.Emissions? || f.custom.value.costs == [] then Raise
      else if f.uncertainty.None? then Raise
      else Yield(ScoredWord([ExtremeOf(func, f.custom.value.costs), f.uncertainty.value], f.word))
    case AlphaBracket(_, _, _) =>
      if f.custom.None? || !f.custom.value.Bracket? then Raise
      else if f.custom.value.same then Skip
      else Yield(ScoredWord([f.custom.value.hi + f.custom.value.low], f.word))
    case Category =>
      // a missing flag reads as an empty (false) entry of the defaultdict
      if f.custom != Some(Flag(true)) then Skip
      else if f.uncertainty.None? then Raise
      else Yield(ScoredWord([f.uncertainty.value], f.word))
    case NoStm =>
      if f.custom == Some(Flag(true)) then Skip
      else if f.uncertainty.None? then Raise
      else Yield(ScoredWord([f.uncertainty.value], f.word))
  }

  /** A metric's `score` over all the words, consumed by `sorted`: None
      when some word raises. */
  function Scores(m: Metric, fs: seq<WordFeatures>): Option<seq<ScoredWord>>
  {
    if fs == [] then Some([])
    else
      match Scores(m, fs[..|fs| - 1])
      case None => None
      case Some(r) =>
        match ScoreStep(m, fs[|fs| - 1])
        case Raise => None
        case Skip => Some(r)
        case Yield(s) => Some(r + [s])
  }

  /** The words a metric keeps. */
  predicate Kept(m: Metric, f: WordFeatures)
  {
    ScoreStep(m, f).Yield?
  }

  /** The words of some scored words, in order. */
  function ScoredWords(s: seq<ScoredWord>): (r: seq<string>)
    ensures |r| == |s| && forall i :: 0 <= i < |s| ==> r[i] == s[i].word
  {
    if s == [] then [] else ScoredWords(s[..|s| - 1]) + [s[|s| - 1].word]
  }

  lemma ScoredWordsAppend(a: seq<ScoredWord>, b: seq<ScoredWord>)
    ensures ScoredWords(a + b) == ScoredWords(a) + ScoredWords(b)
  {
  }

  /** Permuted scored words have permuted words. */
  lemma ScoredWordsPermutes(a: seq<ScoredWord>, b: seq<ScoredWord>)
    requires multiset(a) == multiset(b)
    ensures multiset(ScoredWords(a)) == multiset(ScoredWords(b))
  {
    ScoredWordsAsMap(a);
    ScoredWordsAsMap(b);
    MapPermutes(a, b, WordOf);
  }

  function WordOf(s: ScoredWord): string
  {
    s.word
  }

  lemma {:induction false} ScoredWordsAsMap(s: seq<ScoredWord>)
    ensures ScoredWords(s) == MapSeq(s, WordOf)
  {
    if s != [] {
      ScoredWordsAsMap(s[..|s| - 1]);
    }
  }

  function FeatureWords(fs: seq<WordFeatures>): (r: seq<string>)
    ensures |r| == |fs| && forall i :: 0 <= i < |fs| ==> r[i] == fs[i].word
  {
    if fs == [] then [] else FeatureWords(fs[..|fs| - 1]) + [fs[|fs| - 1].word]
  }

  lemma FeatureWordsSnoc(fs: seq<WordFeatures>, f: WordFeatures)
    ensures FeatureWords(fs + [f]) == FeatureWords(fs) + [f.word]
  {
    assert (fs + [f])[..|fs|] == fs;
  }

  /** Scoring raises iff some word raises. */
  lemma {:induction false} ScoresRaise(m: Metric, fs: seq<WordFeatures>)
    ensures Scores(m, fs).None? <==> exists i :: 0 <= i < |fs| && ScoreStep(m, fs[i]).Raise?
  {
    if fs != [] {
      var init := fs[..|fs| - 1];
      ScoresRaise(m, init);
      assert forall i :: 0 <= i < |init| ==> init[i] == fs[i];
    }
  }

  /** One step of `ScoresWords`: a kept word adds its scored word. */
  lemma ScoresWordsStep(m: Metric, init: seq<WordFeatures>, last: WordFeatures, r: seq<ScoredWord>)
    requires ScoredWords(r) == FeatureWords(Filter(init, f => Kept(m, f)))
    requires Kept(m, last)
    ensures ScoredWords(r + [ScoreStep(m, last).scored]) ==
      FeatureWords(Filter(init, f => Kept(m, f)) + [last])
  {
    var s := ScoreStep(m, last).scored;
    ScoredWordsSnoc(r, s);
    YieldKeepsWord(m, last);
    FeatureWordsSnoc(Filter(init, f => Kept(m, f)), last);
  }

  lemma ScoredWordsSnoc(r: seq<ScoredWord>, s: ScoredWord)
    ensures ScoredWords(r + [s]) == ScoredWords(r) + [s.word]
  {
    assert (r + [s])[..|r|] == r;
  }

  /** A kept word is scored under its own word. */
  lemma YieldKeepsWord(m: Metric, f: WordFeatures)
    requires Kept(m, f)
    ensures ScoreStep(m, f).scored.word == f.word
  {
  }

  /** Scoring that does not raise yields one scored word per kept word,
      in order. */
  lemma {:induction false} ScoresWords(m: Metric, fs: seq<WordFeatures>)
    requires Scores(m, fs).Some?
    ensures ScoredWords(Scores(m, fs).value) == FeatureWords(Filter(fs, f => Kept(m, f)))
  {
    if fs != [] {
      var init := fs[..|fs| - 1];
      var last := fs[|fs| - 1];
      ScoresWords(m, init);
      if Kept(m, last) {
        ScoresWordsStep(m, init, last, Scores(m, init).value);
      }
    }
  }

  /** `AbstractMetric.rank`: the scores sorted on (score, word), reversed
      for a descending metric. */
  function Rank(m: Metric, fs: seq<WordFeatures>): Option<seq<ScoredWord>>
  {
    match Scores(m, fs)
    case None => None
    case Some(s) => Some(Sorted(s, Descending(m)))
  }

  /** The ranking is a permutation of the scores, ordered on (score, word)
      with ties on the score going to the word, descending iff the metric
      says so. */
  lemma RankFacts(m: Metric, fs: seq<WordFeatures>)
    requires Scores(m, fs).Some?
    ensures Rank(m, fs).Some?
    ensures multiset(Rank(m, fs).value) == multiset(Scores(m, fs).value)
    ensures Descending(m) ==> DescendingOrder(Rank(m, fs).value)
    ensures !Descending(m) ==> Ascending(Rank(m, fs).value)
  {
    SortedFacts(Scores(m, fs).value, Descending(m));
  }

  /** The features of all the words, in order; None when some word's
      features raise. */
  function AllFeatures(m: Metric, model: Oracle, words: seq<string>): Option<seq<WordFeatures>>
  {
    if words == [] then Some([])
    else
      match AllFeatures(m, model, words[..|words| - 1])
      case None => None
      case Some(fs) =>
        match CalculateFeatures(m, model, words[|words| - 1])
        case None => None
        case Some(f) => Some(fs + [f])
  }

  /** The features are computed for every word, one entry per word in
      order, and fail iff some word's features fail. */
  lemma {:induction false} AllFeaturesFacts(m: Metric, model: Oracle, words: seq<string>)
    ensures AllFeatures(m, model, words).Some? <==>
      forall i :: 0 <= i < |words| ==> CalculateFeatures(m, model, words[i]).Some?
    ensures AllFeatures(m, model, words).Some? ==>
      var fs := AllFeatures(m, model, words).value;
      |fs| == |words| && forall i :: 0 <= i < |words| ==> Some(fs[i]) == CalculateFeatures(m, model, words[i])
  {
    if words != [] {
      var init := words[..|words| - 1];
      AllFeaturesFacts(m, model, init);
      assert forall i :: 0 <= i < |init| ==> init[i] == words[i];
      if AllFeatures(m, model, words).Some? {
        var fs := AllFeatures(m, model, init).value;
        var f := CalculateFeatures(m, model, words[|words| - 1]).value;
        assert forall i :: 0 <= i < |fs| ==> (fs + [f])[i] == fs[i];
      }
    }
  }

  /** `Selector.rank` for the metrics ranked by `AbstractMetric.rank`:
      the features of the words, scored and sorted. */
  function SelectorRank(m: Metric, model: Oracle, words: seq<string>): Option<seq<ScoredWord>>
  {
    match AllFeatures(m, model, words)
    case None => None
    case Some(fs) => Rank(m, fs)
  }

  /** The ranking succeeds iff every word's features are computed and
      none of them raises in scoring; the ranked entries are then a
      permutation of the scored kept words, in the metric's order. */
  lemma SelectorRankFacts(m: Metric, model: Oracle, words: seq<string>)
    ensures SelectorRank(m, model, words).Some? <==>
      AllFeatures(m, model, words).Some? &&
      forall i :: 0 <= i < |AllFeatures(m, model, words).value| ==>
        !ScoreStep(m, AllFeatures(m, model, words).value[i]).Raise?
    ensures SelectorRank(m, model, words).Some? ==>
      var fs := AllFeatures(m, model, words).value;
      var ranked := SelectorRank(m, model, words).value;
      multiset(ranked) == multiset(Scores(m, fs).value) &&
      ScoredWords(Scores(m, fs).value) == FeatureWords(Filter(fs, f => Kept(m, f))) &&
      (Descending(m) ==> DescendingOrder(ranked)) &&
      (!Descending(m) ==> Ascending(ranked))
  {
    if AllFeatures(m, model, words).Some? {
      var fs := AllFeatures(m, model, words).value;
      ScoresRaise(m, fs);
      if Scores(m, fs).Some? {
        RankFacts(m, fs);
        ScoresWords(m, fs);
      }
    }
  }

  // ---- which words the filtering metrics keep ----

  /** `CategoryMetric` keeps a word iff its best analysis has a morph
      tagged STM or ZZZ followed by another (the class comment speaks of
      SUF/ZZZ, the code tests STM/ZZZ). */
  lemma CategoryKeeps(model: Oracle, word: string)
    requires CalculateFeatures(Category, model, word).Some?
    ensures var cats := Categories(model.viterbiAnalyze(word).morphs);
      Kept(Category, CalculateFeatures(Category, model, word).value) <==>
      exists i :: 0 <= i < |cats| - 1 && StemLike(cats[i]) && StemLike(cats[i + 1])
  {
    StemPairExists(Categories(model.viterbiAnalyze(word).morphs));
  }

  /** `NoStmMetric` keeps a word iff no morph of its best analysis is
      tagged STM. */
  lemma NoStmKeeps(model: Oracle, word: string)
    requires CalculateFeatures(NoStm, model, word).Some?
    ensures Kept(NoStm, CalculateFeatures(NoStm, model, word).value) <==>
      forall i :: 0 <= i < |model.viterbiAnalyze(word).morphs| ==>
        model.viterbiAnalyze(word).morphs[i].category != "STM"
  {
    var cats := Categories(model.viterbiAnalyze(word).morphs);
    if "STM" in cats {
      var i :| 0 <= i < |cats| && cats[i] == "STM";
      assert model.viterbiAnalyze(word).morphs[i].category == "STM";
    }
  }

  /** `MarginMetric` keeps a word iff the model gives it at least two
      analyses. */
  lemma MarginKeeps(gap: (real, real, real) -> real, model: Oracle, word: string)
    requires CalculateFeatures(Margin(gap), model, word).Some?
    ensures Kept(Margin(gap), CalculateFeatures(Margin(gap), model, word).value) <==>
      |model.viterbiNbest(word, 2)| >= 2
  {
  }

  /** `AlphaBracketMetric` keeps a word iff the two models segment it
      differently. */
  lemma AlphaBracketKeeps(variant: Variant, low: Oracle, hi: Oracle, model: Oracle, word: string)
    requires CalculateFeatures(AlphaBracket(variant, low, hi), model, word).Some?
    ensures Kept(AlphaBracket(variant, low, hi), CalculateFeatures(AlphaBracket(variant, low, hi), model, word).value) <==>
      low.viterbiAnalyze(word).morphs != hi.viterbiAnalyze(word).morphs
  {
  }

  /** The features a metric asks for are enough for its score: scoring
      the computed features never raises, except on the division by the
      length of the empty word and on the minimum or maximum of an empty
      analysis. */
  lemma FeaturesSuffice(m: Metric, model: Oracle, word: string)
    requires CalculateFeatures(m, model, word).Some?
    requires m.Logp? ==> word != []
    requires m.MorphLogp? ==> model.viterbiAnalyze(word).morphs != []
    ensures !ScoreStep(m, CalculateFeatures(m, model, word).value).Raise?
  {
  }

  /** Feature calculation fails only where the forward cost needs an
      analysis that the model did not give, or where a metric's own
      feature divides by the length of the empty word. */
  lemma CalculateFeaturesDefined(m: Metric, model: Oracle, word: string)
    requires m.Margin? ==> model.viterbiNbest(word, 2) != []
    requires m.AlphaBracket? && m.variant.Normalized? ==> word != []
    ensures CalculateFeatures(m, model, word).Some?
  {
  }

  // ---- writing the selection ----

  /** Python's `s[:n]` for an int `n`: a negative `n` drops that many
      elements from the end. */
  function SliceTo<T>(s: seq<T>, n: int): (r: seq<T>)
    ensures n >= 0 ==> r == Take(s, n)
    ensures n < 0 ==> |r| == if |s| + n > 0 then |s| + n else 0
  {
    if n >= 0 then Take(s, n)
    else if |s| + n > 0 then s[..|s| + n] else []
  }

  /** `write_selected`: the words of the first `n` ranked entries, in
      rank order (the file written with them is not modelled). */
  method WriteSelected(ranked: seq<ScoredWord>, n: int) returns (selected: seq<string>)
    ensures selected == ScoredWords(SliceTo(ranked, n))
    ensures n >= 0 ==> |selected| == if n <= |ranked| then n else |ranked|
  {
    var head := SliceTo(ranked, n);
    selected := [];
    var i := 0;
    while i < |head|
      invariant 0 <= i <= |head|
      invariant selected == ScoredWords(head[..i])
    {
      assert head[..i + 1][..i] == head[..i];
      selected := selected + [head[i].word];
      i := i + 1;
    }
    assert head[..i] == head;
  }

  const LogprobZero: real := 1000000.0

  /** `zlog`: minus the logarithm (the parameter `log`), with the sentinel
      `LOGPROB_ZERO` for zero; a negative argument fails the assertion. */
  function ZLog(x: real, log: real -> real): (r: Option<real>)
    ensures x < 0.0 <==> r.None?
    ensures x == 0.0 ==> r == Some(LogprobZero)
    ensures x > 0.0 ==> r == Some(-log(x))
  {
    if x < 0.0 then None else if x == 0.0 then Some(LogprobZero) else Some(-log(x))
  }
}
