/** `OneOffBoundaryMetric` (morphsegannot/tools/selection.py): a greedy
    metric that rewards words whose Viterbi morphs are one letter longer
    or shorter than other morphs of the model's lexicon (`x = yc` or
    `x = cy`), each such pair weighted by the product of the two counts,
    with the uncertainty as tie-breaker. `configure` weighs the morphs,
    `rank` picks the best word, masks its morphs, and repeats. */
module BoundaryCoverage {
  import opened SeqUtil
  import Selection
  import Greedy

  /** `max_len`: longer morphs of the lexicon are ignored. */
  const MaxLen: int := 8

  /** `morph[1:]` (empty for the empty string, as in Python). */
  function Tail(m: string): string
  {
    if m == [] then [] else m[1..]
  }

  /** `morph[:-1]` (empty for the empty string, as in Python). */
  function Init(m: string): string
  {
    if m == [] then [] else m[..|m| - 1]
  }

  /** `sum(counts)`. */
  function Total(counts: seq<nat>): nat
  {
    if counts == [] then 0 else Total(counts[..|counts| - 1]) + counts[|counts| - 1]
  }

  // ---- the lexicon by length ----

  /** A dict from morphs to counts, in insertion order. */
  type Dict = seq<(string, nat)>

  /** `d[k]`, None when `k not in d`. */
  function Find(d: Dict, k: string): Option<nat>
  {
    if d == [] then None else if d[0].0 == k then Some(d[0].1) else Find(d[1..], k)
  }

  /** `d[k] = v`: an existing key keeps its place, a new one goes last. */
  function Store(d: Dict, k: string, v: nat): Dict
  {
    if d == [] then [(k, v)]
    else if d[0].0 == k then [(k, v)] + d[1..]
    else [d[0]] + Store(d[1..], k, v)
  }

  /** All keys of `d` have `len` letters. */
  predicate AllOfLength(d: Dict, len: int)
  {
    forall j :: 0 <= j < |d| ==> |d[j].0| == len
  }

  /** A found key is an entry of the dict, and an entry's key is found. */
  lemma {:induction false} FindFacts(d: Dict, k: string)
    ensures Find(d, k).Some? ==> (k, Find(d, k).value) in d
    ensures (exists j :: 0 <= j < |d| && d[j].0 == k) ==> Find(d, k).Some?
  {
    if d != [] && d[0].0 != k {
      FindFacts(d[1..], k);
      if exists j :: 0 <= j < |d| && d[j].0 == k {
        var j :| 0 <= j < |d| && d[j].0 == k;
        assert d[1..][j - 1].0 == k;
      }
    }
  }

  /** After `d[k] = v`, `k` reads `v` and every other key reads as
      before; the keys keep their length. */
  lemma {:induction false} StoreFacts(d: Dict, k: string, v: nat)
    ensures forall x :: Find(Store(d, k, v), x) == if x == k then Some(v) else Find(d, x)
    ensures forall len :: AllOfLength(d, len) && |k| == len ==> AllOfLength(Store(d, k, v), len)
  {
    if d != [] && d[0].0 != k {
      StoreFacts(d[1..], k, v);
      forall len | AllOfLength(d, len) && |k| == len ensures AllOfLength(Store(d, k, v), len) {
        assert AllOfLength(d[1..], len);
      }
    }
  }

  /** `by_length[len]` of the defaultdict: empty when never assigned. */
  function Lookup(byLen: map<int, Dict>, len: int): Dict
  {
    if len in byLen then byLen[len] else []
  }

  /** The first loop of `configure`: each morph of at most `MaxLen`
      letters stored with the sum of its counts under its length. */
  function ByLength(lex: seq<(string, seq<nat>)>): map<int, Dict>
  {
    if lex == [] then map[]
    else
      var byLen := ByLength(lex[..|lex| - 1]);
      var m := lex[|lex| - 1].0;
      if |m| > MaxLen then byLen else byLen[|m| := Store(Lookup(byLen, |m|), m, Total(lex[|lex| - 1].1))]
  }

  /** `seen_max`: the length of the longest morph stored. */
  function SeenMax(lex: seq<(string, seq<nat>)>): nat
  {
    if lex == [] then 0
    else
      var s := SeenMax(lex[..|lex| - 1]);
      var m := lex[|lex| - 1].0;
      if |m| > MaxLen || |m| <= s then s else |m|
  }

  /** The count the lexicon gives a morph of at most `MaxLen` letters:
      the sum of the counts of its last entry. */
  function LexCount(lex: seq<(string, seq<nat>)>, x: string): Option<nat>
  {
    if lex == [] then None
    else if lex[|lex| - 1].0 == x && |x| <= MaxLen then Some(Total(lex[|lex| - 1].1))
    else LexCount(lex[..|lex| - 1], x)
  }

  /** `by_length[len(x)][x]` is the lexicon's count of `x`: the last
      entry for a morph wins. */
  lemma {:induction false} ByLengthFind(lex: seq<(string, seq<nat>)>)
    ensures forall x :: Find(Lookup(ByLength(lex), |x|), x) == LexCount(lex, x)
  {
    if lex != [] {
      var init := lex[..|lex| - 1];
      ByLengthFind(init);
      var byLen := ByLength(init);
      var m := lex[|lex| - 1].0;
      var v := Total(lex[|lex| - 1].1);
      if |m| <= MaxLen {
        StoreFacts(Lookup(byLen, |m|), m, v);
        forall x ensures Find(Lookup(ByLength(lex), |x|), x) == LexCount(lex, x) {
          if |x| != |m| {
            assert Lookup(ByLength(lex), |x|) == Lookup(byLen, |x|);
          } else {
            assert Lookup(ByLength(lex), |x|) == Store(Lookup(byLen, |m|), m, v);
          }
        }
      } else {
        forall x ensures Find(Lookup(ByLength(lex), |x|), x) == LexCount(lex, x) {
          assert LexCount(lex, x) == LexCount(init, x);
        }
      }
    }
  }

  /** Every stored morph has the length it is stored under, at most
      `seen_max`, itself at most `MaxLen`. */
  lemma {:induction false} ByLengthShape(lex: seq<(string, seq<nat>)>)
    ensures SeenMax(lex) <= MaxLen
    ensures forall len :: AllOfLength(Lookup(ByLength(lex), len), len)
    ensures forall len :: Lookup(ByLength(lex), len) != [] ==> len <= SeenMax(lex)
  {
    if lex != [] {
      var init := lex[..|lex| - 1];
      ByLengthShape(init);
      var byLen := ByLength(init);
      var m := lex[|lex| - 1].0;
      if |m| <= MaxLen {
        StoreFacts(Lookup(byLen, |m|), m, Total(lex[|lex| - 1].1));
        forall len ensures AllOfLength(Lookup(ByLength(lex), len), len)
          && (Lookup(ByLength(lex), len) != [] ==> len <= SeenMax(lex))
        {
          if len != |m| {
            assert Lookup(ByLength(lex), len) == Lookup(byLen, len);
          }
        }
      }
    }
  }

  // ---- the weights ----

  /** `self.weights[x]` of the defaultdict: zero when never assigned. */
  function Read(w: map<string, nat>, x: string): nat
  {
    if x in w then w[x] else 0
  }

  /** `self.weights[x] += v`. */
  function Bump(w: map<string, nat>, x: string, v: nat): map<string, nat>
  {
    w[x := Read(w, x) + v]
  }

  /** One `if submorph in by_length[i - 1]` block: the morph and its
      submorph both gain the product of their counts. */
  function Link(w: map<string, nat>, m: string, c: nat, shorter: Dict, sub: string): map<string, nat>
  {
    match Find(shorter, sub)
    case None => w
    case Some(s) => Bump(Bump(w, m, c * s), sub, c * s)
  }

  /** Both blocks for one morph: the submorph without the first letter,
      then the one without the last. */
  function MorphStep(w: map<string, nat>, m: string, c: nat, shorter: Dict): map<string, nat>
  {
    Link(Link(w, m, c, shorter, Tail(m)), m, c, shorter, Init(m))
  }

  /** The inner loop of the weighing: the morphs of one length against
      those one letter shorter. */
  function Level(w: map<string, nat>, items: Dict, shorter: Dict): map<string, nat>
  {
    if items == [] then w
    else MorphStep(Level(w, items[..|items| - 1], shorter), items[|items| - 1].0, items[|items| - 1].1, shorter)
  }

  /** The weights after the lengths 2 up to `i`. */
  function Levels(byLen: map<int, Dict>, i: int): map<string, nat>
    decreases i
  {
    if i < 2 then map[] else Level(Levels(byLen, i - 1), Lookup(byLen, i), Lookup(byLen, i - 1))
  }

  /** What one block adds to the weight of `x`. */
  function LinkGain(m: string, c: nat, shorter: Dict, sub: string, x: string): nat
  {
    match Find(shorter, sub)
    case None => 0
    case Some(s) => c * s * ((if x == m then 1 else 0) + (if x == sub then 1 else 0))
  }

  function MorphGain(m: string, c: nat, shorter: Dict, x: string): nat
  {
    LinkGain(m, c, shorter, Tail(m), x) + LinkGain(m, c, shorter, Init(m), x)
  }

  function LevelGain(items: Dict, shorter: Dict, x: string): nat
  {
    if items == [] then 0
    else LevelGain(items[..|items| - 1], shorter, x) + MorphGain(items[|items| - 1].0, items[|items| - 1].1, shorter, x)
  }

  /** The weight of `x` as a sum, over the lengths 2 up to `i` and the
      morphs of each, of what each morph's blocks add to it. */
  function Gain(byLen: map<int, Dict>, i: int, x: string): nat
    decreases i
  {
    if i < 2 then 0 else Gain(byLen, i - 1, x) + LevelGain(Lookup(byLen, i), Lookup(byLen, i - 1), x)
  }

  lemma BumpRead(w: map<string, nat>, y: string, v: nat, x: string)
    ensures Read(Bump(w, y, v), x) == Read(w, x) + if x == y then v else 0
  {
  }

  /** One block adds its gain to every morph's weight. */
  lemma LinkRead(w: map<string, nat>, m: string, c: nat, shorter: Dict, sub: string, x: string)
    ensures Read(Link(w, m, c, shorter, sub), x) == Read(w, x) + LinkGain(m, c, shorter, sub, x)
  {
    match Find(shorter, sub)
    case None =>
    case Some(s) =>
      BumpRead(w, m, c * s, x);
      BumpRead(Bump(w, m, c * s), sub, c * s, x);
      var k := (if x == m then 1 else 0) + (if x == sub then 1 else 0);
      assert c * s * k == (if x == m then c * s else 0) + (if x == sub then c * s else 0);
  }

  lemma {:induction false} LevelRead(w: map<string, nat>, items: Dict, shorter: Dict, x: string)
    ensures Read(Level(w, items, shorter), x) == Read(w, x) + LevelGain(items, shorter, x)
  {
    if items != [] {
      var init := Level(w, items[..|items| - 1], shorter);
      var m := items[|items| - 1].0;
      var c := items[|items| - 1].1;
      LevelRead(w, items[..|items| - 1], shorter, x);
      LinkRead(init, m, c, shorter, Tail(m), x);
      LinkRead(Link(init, m, c, shorter, Tail(m)), m, c, shorter, Init(m), x);
    }
  }

  /** The map the loops update holds, for every morph, the sum of what
      the blocks add to it. */
  lemma {:induction false} LevelsRead(byLen: map<int, Dict>, i: int, x: string)
    ensures Read(Levels(byLen, i), x) == Gain(byLen, i, x)
    decreases i
  {
    if i >= 2 {
      LevelsRead(byLen, i - 1, x);
      LevelRead(Levels(byLen, i - 1), Lookup(byLen, i), Lookup(byLen, i - 1), x);
    }
  }

  /** Only a stored morph, or a stored submorph, gains weight. */
  lemma {:induction false} LevelGainSupport(items: Dict, shorter: Dict, x: string)
    requires LevelGain(items, shorter, x) > 0
    ensures (exists j :: 0 <= j < |items| && items[j].0 == x) || Find(shorter, x).Some?
  {
    var init := items[..|items| - 1];
    var last := items[|items| - 1];
    if LevelGain(init, shorter, x) > 0 {
      LevelGainSupport(init, shorter, x);
      if exists j :: 0 <= j < |init| && init[j].0 == x {
        var j :| 0 <= j < |init| && init[j].0 == x;
        assert items[j].0 == x;
      }
    } else if x != last.0 {
      assert MorphGain(last.0, last.1, shorter, x) > 0;
      if LinkGain(last.0, last.1, shorter, Tail(last.0), x) > 0 {
        assert x == Tail(last.0);
      } else {
        assert x == Init(last.0);
      }
    }
  }

  /** A morph with weight is a morph of the lexicon of at most `MaxLen`
      letters. */
  lemma {:induction false} GainSupport(lex: seq<(string, seq<nat>)>, i: int, x: string)
    requires Gain(ByLength(lex), i, x) > 0
    ensures LexCount(lex, x).Some?
    decreases i
  {
    var byLen := ByLength(lex);
    ByLengthFind(lex);
    ByLengthShape(lex);
    if Gain(byLen, i - 1, x) > 0 {
      GainSupport(lex, i - 1, x);
    } else {
      LevelGainSupport(Lookup(byLen, i), Lookup(byLen, i - 1), x);
      if exists j :: 0 <= j < |Lookup(byLen, i)| && Lookup(byLen, i)[j].0 == x {
        assert AllOfLength(Lookup(byLen, i), i);
        FindFacts(Lookup(byLen, |x|), x);
      } else {
        FindFacts(Lookup(byLen, i - 1), x);
        assert AllOfLength(Lookup(byLen, i - 1), i - 1);
      }
    }
  }

  /** One entry of a level adds at least its own gain. */
  lemma {:induction false} LevelGainAtLeast(items: Dict, shorter: Dict, j: int, x: string)
    requires 0 <= j < |items|
    ensures LevelGain(items, shorter, x) >= MorphGain(items[j].0, items[j].1, shorter, x)
  {
    if j < |items| - 1 {
      LevelGainAtLeast(items[..|items| - 1], shorter, j, x);
    }
  }

  lemma {:induction false} GainAtLeast(byLen: map<int, Dict>, i: int, len: int, x: string)
    requires 2 <= len <= i
    ensures Gain(byLen, i, x) >= LevelGain(Lookup(byLen, len), Lookup(byLen, len - 1), x)
    decreases i
  {
    if len < i {
      GainAtLeast(byLen, i - 1, len, x);
    }
  }

  /** A morph `m` of the lexicon and its submorph `sub` (`m` without its
      first or its last letter), also in the lexicon, each weigh at least
      the product of their counts. */
  lemma LinkWeight(lex: seq<(string, seq<nat>)>, m: string, sub: string)
    requires |m| >= 2 && (sub == Tail(m) || sub == Init(m))
    requires LexCount(lex, m).Some? && LexCount(lex, sub).Some?
    ensures Gain(ByLength(lex), SeenMax(lex), m) >= LexCount(lex, m).value * LexCount(lex, sub).value
    ensures Gain(ByLength(lex), SeenMax(lex), sub) >= LexCount(lex, m).value * LexCount(lex, sub).value
  {
    var byLen := ByLength(lex);
    var c := LexCount(lex, m).value;
    ByLengthFind(lex);
    ByLengthShape(lex);
    assert Find(Lookup(byLen, |m|), m) == Some(c);
    FindFacts(Lookup(byLen, |m|), m);
    var j :| 0 <= j < |Lookup(byLen, |m|)| && Lookup(byLen, |m|)[j] == (m, c);
    LinkWeightAt(lex, m, sub, j, m);
    LinkWeightAt(lex, m, sub, j, sub);
  }

  lemma LinkWeightAt(lex: seq<(string, seq<nat>)>, m: string, sub: string, j: int, x: string)
    requires |m| >= 2 && (sub == Tail(m) || sub == Init(m)) && (x == m || x == sub)
    requires LexCount(lex, m).Some? && LexCount(lex, sub).Some?
    requires 0 <= j < |Lookup(ByLength(lex), |m|)| && Lookup(ByLength(lex), |m|)[j] == (m, LexCount(lex, m).value)
    ensures Gain(ByLength(lex), SeenMax(lex), x) >= LexCount(lex, m).value * LexCount(lex, sub).value
  {
    var byLen := ByLength(lex);
    var c := LexCount(lex, m).value;
    var s := LexCount(lex, sub).value;
    var shorter := Lookup(byLen, |m| - 1);
    ByLengthFindAt(lex, sub);
    assert |sub| == |m| - 1;
    SeenMaxAt(lex, |m|);
    GainAtLeast(byLen, SeenMax(lex), |m|, x);
    LevelGainAtLeast(Lookup(byLen, |m|), shorter, j, x);
    assert MorphGain(m, c, shorter, x) >= LinkGain(m, c, shorter, sub, x);
    ProductAtLeast(c, s, (if x == m then 1 else 0) + (if x == sub then 1 else 0));
  }

  lemma ByLengthFindAt(lex: seq<(string, seq<nat>)>, x: string)
    ensures Find(Lookup(ByLength(lex), |x|), x) == LexCount(lex, x)
  {
    ByLengthFind(lex);
  }

  lemma SeenMaxAt(lex: seq<(string, seq<nat>)>, len: int)
    requires Lookup(ByLength(lex), len) != []
    ensures len <= SeenMax(lex)
  {
    ByLengthShape(lex);
  }

  lemma ProductAtLeast(c: nat, s: nat, k: nat)
    requires k >= 1
    ensures c * s * k >= c * s
  {
  }

  // ---- zeroing the seen morphs ----

  /** The morphs of a word's Viterbi analysis. */
  function AnalysisMorphs(model: Selection.Oracle, w: string): (r: seq<string>)
    ensures |r| == |model.viterbiAnalyze(w).morphs|
  {
    var ms := model.viterbiAnalyze(w).morphs;
    seq(|ms|, i requires 0 <= i < |ms| => ms[i].morph)
  }

  /** The morphs of the Viterbi analyses of some words. */
  function MorphSet(model: Selection.Oracle, words: seq<string>): set<string>
  {
    if words == [] then {}
    else MorphSet(model, words[..|words| - 1]) + Elems(AnalysisMorphs(model, words[|words| - 1]))
  }

  lemma MorphSetSnoc(model: Selection.Oracle, words: seq<string>, w: string)
    ensures MorphSet(model, words + [w]) == MorphSet(model, words) + Elems(AnalysisMorphs(model, w))
  {
    assert (words + [w])[..|words|] == words;
  }

  function ZeroAll(w: map<string, nat>, morphs: seq<string>): map<string, nat>
  {
    if morphs == [] then w else ZeroAll(w, morphs[..|morphs| - 1])[morphs[|morphs| - 1] := 0]
  }

  /** The zeroing loop of `configure`. */
  function ZeroSeen(w: map<string, nat>, model: Selection.Oracle, seen: seq<string>): map<string, nat>
  {
    if seen == [] then w else ZeroAll(ZeroSeen(w, model, seen[..|seen| - 1]), AnalysisMorphs(model, seen[|seen| - 1]))
  }

  lemma {:induction false} ZeroAllRead(w: map<string, nat>, morphs: seq<string>, x: string)
    ensures Read(ZeroAll(w, morphs), x) == if x in morphs then 0 else Read(w, x)
  {
    if morphs != [] {
      ZeroAllRead(w, morphs[..|morphs| - 1], x);
      assert morphs == morphs[..|morphs| - 1] + [morphs[|morphs| - 1]];
    }
  }

  /** Every morph of a seen word weighs zero; the others keep their
      weight. */
  lemma {:induction false} ZeroSeenRead(w: map<string, nat>, model: Selection.Oracle, seen: seq<string>, x: string)
    ensures Read(ZeroSeen(w, model, seen), x) == if x in MorphSet(model, seen) then 0 else Read(w, x)
  {
    if seen != [] {
      ZeroSeenRead(w, model, seen[..|seen| - 1], x);
      ZeroAllRead(ZeroSeen(w, model, seen[..|seen| - 1]), AnalysisMorphs(model, seen[|seen| - 1]), x);
    }
  }

  /** The weights `configure` leaves. */
  function Configured(model: Selection.Oracle, seen: Option<seq<string>>): map<string, nat>
  {
    var w := Levels(ByLength(model.lexicon), SeenMax(model.lexicon));
    if seen.None? then w else ZeroSeen(w, model, seen.value)
  }

  /** What `configure` gives each morph: zero for a morph of a seen word,
      otherwise the sum of the products of counts over its one-letter
      neighbours; only lexicon morphs of at most `MaxLen` letters weigh
      anything, and a lexicon morph and its lexicon submorph weigh at
      least the product of their counts unless seen. */
  lemma ConfiguredFacts(model: Selection.Oracle, seen: Option<seq<string>>, x: string)
    ensures Read(Configured(model, seen), x) ==
      if seen.Some? && x in MorphSet(model, seen.value) then 0
      else Gain(ByLength(model.lexicon), SeenMax(model.lexicon), x)
    ensures Read(Configured(model, seen), x) > 0 ==> LexCount(model.lexicon, x).Some?
  {
    var lex := model.lexicon;
    LevelsRead(ByLength(lex), SeenMax(lex), x);
    if seen.Some? {
      ZeroSeenRead(Levels(ByLength(lex), SeenMax(lex)), model, seen.value, x);
    }
    if Read(Configured(model, seen), x) > 0 {
      GainSupport(lex, SeenMax(lex), x);
    }
  }

  // ---- scoring ----

  /** The summed weights of the morphs not masked. */
  function UnmaskedWeight(morphs: seq<string>, w: map<string, nat>, mask: set<string>): nat
  {
    if morphs == [] then 0
    else UnmaskedWeight(morphs[..|morphs| - 1], w, mask) + (if morphs[|morphs| - 1] in mask then 0 else Read(w, morphs[|morphs| - 1]))
  }

  /** Masking more never raises a sum of weights. */
  lemma {:induction false} UnmaskedWeightMonotone(morphs: seq<string>, w: map<string, nat>, m1: set<string>, m2: set<string>)
    requires m1 <= m2
    ensures UnmaskedWeight(morphs, w, m2) <= UnmaskedWeight(morphs, w, m1)
  {
    if morphs != [] {
      UnmaskedWeightMonotone(morphs[..|morphs| - 1], w, m1, m2);
    }
  }

  /** The uncertainty feature: the Viterbi cost minus the forward cost. */
  function Uncertainty(model: Selection.Oracle, w: string): real
  {
    model.viterbiAnalyze(w).logp - model.forwardLogprob(w)
  }

  /** The features `Selector.calculate_features` computes for this metric
      (one Viterbi analysis and the forward cost) hold the analysis whose
      morphs `score` sums and the uncertainty it breaks ties with. */
  lemma FeaturesFacts(model: Selection.Oracle, w: string)
    ensures Selection.BaseFeatures(1, true, model, w).Some?
    ensures Selection.Best(Selection.BaseFeatures(1, true, model, w).value) == Some(model.viterbiAnalyze(w))
    ensures Selection.BaseFeatures(1, true, model, w).value.uncertainty == Some(Uncertainty(model, w))
  {
    Selection.BaseFeaturesFacts(1, true, model, w);
  }

  /** `score` of one word under the mask: its unmasked weight, then its
      uncertainty. */
  function ScoreUnder(w: map<string, nat>, model: Selection.Oracle, mask: set<string>, word: string): Selection.ScoredWord
  {
    Selection.ScoredWord([UnmaskedWeight(AnalysisMorphs(model, word), w, mask) as real, Uncertainty(model, word)], word)
  }

  /** The score of a word once the given words are picked. */
  function PickScore(w: map<string, nat>, model: Selection.Oracle, picked: seq<string>, word: string): Selection.ScoredWord
  {
    ScoreUnder(w, model, MorphSet(model, picked), word)
  }

  /** The metric's score function for the greedy rounds. */
  function Scorer(w: map<string, nat>, model: Selection.Oracle): (seq<string>, string) -> Selection.ScoredWord
  {
    (p: seq<string>, word: string) => PickScore(w, model, p, word)
  }

  /** A pick only adds to the mask and the weights are counts, so no pick
      raises another word's score. */
  lemma ScorerFacts(w: map<string, nat>, model: Selection.Oracle)
    ensures Greedy.KeepsWord(Scorer(w, model)) && Greedy.Monotone(Scorer(w, model))
  {
    forall p, word, y ensures !Selection.Less(Scorer(w, model)(p, word), Scorer(w, model)(p + [y], word)) {
      MorphSetSnoc(model, p, y);
      var morphs := AnalysisMorphs(model, word);
      UnmaskedWeightMonotone(morphs, w, MorphSet(model, p), MorphSet(model, p + [y]));
      var a := Scorer(w, model)(p, word);
      var b := Scorer(w, model)(p + [y], word);
      if a.score[0] == b.score[0] {
        assert a == b;
        Selection.LessIrreflexive(a);
      }
    }
  }

  /** A pair that is not less than another pair is greater on its first
      component, or equal there and not less on its second. */
  lemma PairNotLess(a: seq<real>, b: seq<real>)
    requires |a| == 2 && |b| == 2 && !Selection.RealsLess(a, b)
    ensures b[0] <= a[0] && (b[0] == a[0] ==> b[1] <= a[1])
  {
    if a[0] == b[0] {
      assert !Selection.RealsLess(a[1..], b[1..]);
    }
  }

  /** The weights of the picks never increase from one round to the next,
      and between equal weights the uncertainty never increases. */
  lemma RankScoresFall(w: map<string, nat>, model: Selection.Oracle, words: seq<string>, picks: seq<string>)
    requires Greedy.IsGreedy(Scorer(w, model), words, picks)
    ensures forall i :: 0 <= i < |picks| ==>
      |Greedy.Scored(Scorer(w, model), picks)[i].score| == 2 &&
      Greedy.Scored(Scorer(w, model), picks)[i].score[1] == Uncertainty(model, picks[i])
    ensures forall i :: 0 <= i < |picks| - 1 ==>
      var a := Greedy.Scored(Scorer(w, model), picks)[i].score;
      var b := Greedy.Scored(Scorer(w, model), picks)[i + 1].score;
      b[0] <= a[0] && (b[0] == a[0] ==> b[1] <= a[1])
  {
    var s := Greedy.Scored(Scorer(w, model), picks);
    ScorerFacts(w, model);
    Greedy.GreedyNonIncreasing(Scorer(w, model), words, picks);
    forall i | 0 <= i < |picks| ensures |s[i].score| == 2 && s[i].score[1] == Uncertainty(model, picks[i]) {
      assert s[i] == PickScore(w, model, picks[..i], picks[i]);
    }
    PairsFall(s);
  }

  lemma PairsFall(s: seq<Selection.ScoredWord>)
    requires forall i :: 0 <= i < |s| ==> |s[i].score| == 2
    requires forall i :: 0 <= i < |s| - 1 ==> !Selection.Less(s[i], s[i + 1])
    ensures forall i :: 0 <= i < |s| - 1 ==>
      s[i + 1].score[0] <= s[i].score[0] && (s[i + 1].score[0] == s[i].score[0] ==> s[i + 1].score[1] <= s[i].score[1])
  {
    forall i | 0 <= i < |s| - 1
      ensures s[i + 1].score[0] <= s[i].score[0] && (s[i + 1].score[0] == s[i].score[0] ==> s[i + 1].score[1] <= s[i].score[1])
    {
      PairNotLess(s[i].score, s[i + 1].score);
    }
  }

  // ---- the metric ----

  class OneOffBoundaryMetric {
    var weights: map<string, nat>
    var mask: set<string>
    var configured: bool

    constructor ()
      ensures weights == map[] && mask == {} && !configured
    {
      weights := map[];
      mask := {};
      configured := false;
    }

    /** The first loop of `configure`. */
    static method CollectByLength(lex: seq<(string, seq<nat>)>) returns (byLen: map<int, Dict>, seenMax: nat)
      ensures byLen == ByLength(lex) && seenMax == SeenMax(lex)
    {
      byLen := map[];
      seenMax := 0;
      var k := 0;
      while k < |lex|
        invariant 0 <= k <= |lex|
        invariant byLen == ByLength(lex[..k]) && seenMax == SeenMax(lex[..k])
      {
        assert lex[..k + 1][..k] == lex[..k];
        var morph := lex[k].0;
        if |morph| <= MaxLen {
          byLen := byLen[|morph| := Store(Lookup(byLen, |morph|), morph, Total(lex[k].1))];
          if seenMax < |morph| {
            seenMax := |morph|;
          }
        }
        k := k + 1;
      }
      assert lex[..k] == lex;
    }

    /** The body of the inner loop of the weighing, for one morph. */
    static method WeighMorph(w0: map<string, nat>, morph: string, countLonger: nat, shorter: Dict)
      returns (w: map<string, nat>)
      ensures w == MorphStep(w0, morph, countLonger, shorter)
    {
      w := w0;
      var sub := Tail(morph);
      var found := Find(shorter, sub);
      if found.Some? {
        var weight := countLonger * found.value;
        w := Bump(w, morph, weight);
        w := Bump(w, sub, weight);
      }
      sub := Init(morph);
      found := Find(shorter, sub);
      if found.Some? {
        var weight := countLonger * found.value;
        w := Bump(w, morph, weight);
        w := Bump(w, sub, weight);
      }
    }

    /** The inner loop of the weighing, for the morphs of one length. */
    static method WeighLevel(w0: map<string, nat>, items: Dict, shorter: Dict) returns (w: map<string, nat>)
      ensures w == Level(w0, items, shorter)
    {
      w := w0;
      var k := 0;
      while k < |items|
        invariant 0 <= k <= |items|
        invariant w == Level(w0, items[..k], shorter)
      {
        assert items[..k + 1][..k] == items[..k];
        w := WeighMorph(w, items[k].0, items[k].1, shorter);
        k := k + 1;
      }
      assert items[..k] == items;
    }

    /** The zeroing loop of `configure`. */
    static method ZeroWords(w0: map<string, nat>, model: Selection.Oracle, seen: seq<string>) returns (w: map<string, nat>)
      ensures w == ZeroSeen(w0, model, seen)
    {
      w := w0;
      var k := 0;
      while k < |seen|
        invariant 0 <= k <= |seen|
        invariant w == ZeroSeen(w0, model, seen[..k])
      {
        assert seen[..k + 1][..k] == seen[..k];
        var morphs := model.viterbiAnalyze(seen[k]).morphs;
        ghost var names := AnalysisMorphs(model, seen[k]);
        ghost var before := w;
        var j := 0;
        while j < |morphs|
          invariant 0 <= j <= |morphs|
          invariant w == ZeroAll(before, names[..j])
        {
          assert names[..j + 1][..j] == names[..j];
          w := w[morphs[j].morph := 0];
          j := j + 1;
        }
        assert names[..j] == names;
        k := k + 1;
      }
      assert seen[..k] == seen;
    }

    /** `configure`: the lexicon's morphs by length, each morph and each
        one-letter-shorter submorph weighted by the product of their
        counts, then the seen words' morphs zeroed; the mask is cleared.
        The pool is not used. */
    method Configure(seen: Option<seq<string>>, model: Selection.Oracle)
      modifies this
      ensures weights == Configured(model, seen) && mask == {} && configured
    {
      var w: map<string, nat> := map[];
      mask := {};
      var byLen, seenMax := CollectByLength(model.lexicon);
      var i := 2;
      while i <= seenMax
        invariant 2 <= i && (i <= seenMax + 1 || i == 2)
        invariant w == Levels(byLen, i - 1) && mask == {}
      {
        w := WeighLevel(w, Lookup(byLen, i), Lookup(byLen, i - 1));
        i := i + 1;
      }
      assert w == Levels(byLen, seenMax);
      if seen.Some? {
        w := ZeroWords(w, model, seen.value);
      }
      weights := w;
      configured := true;
    }

    /** The summing loop of `score` for one word. */
    static method MaskedWeight(morphs: seq<Selection.CMorph>, ghost names: seq<string>, w: map<string, nat>, mask: set<string>)
      returns (s: nat)
      requires |names| == |morphs| && forall k :: 0 <= k < |morphs| ==> names[k] == morphs[k].morph
      ensures s == UnmaskedWeight(names, w, mask)
    {
      s := 0;
      var k := 0;
      while k < |morphs|
        invariant 0 <= k <= |morphs|
        invariant s == UnmaskedWeight(names[..k], w, mask)
      {
        assert names[..k + 1][..k] == names[..k];
        var morph := morphs[k].morph;
        if morph !in mask {
          s := s + Read(w, morph);
        }
        k := k + 1;
      }
      assert names[..k] == names;
    }

    /** `score`: each word with the summed weights of its unmasked Viterbi
        morphs, then its uncertainty. */
    method Score(model: Selection.Oracle, words: seq<string>) returns (scored: seq<Selection.ScoredWord>)
      ensures |scored| == |words|
      ensures forall k :: 0 <= k < |words| ==> scored[k] == ScoreUnder(weights, model, mask, words[k])
    {
      scored := [];
      var k := 0;
      while k < |words|
        invariant 0 <= k <= |words| && |scored| == k
        invariant forall j :: 0 <= j < k ==> scored[j] == ScoreUnder(weights, model, mask, words[j])
      {
        var analysis := model.viterbiAnalyze(words[k]);
        var score := MaskedWeight(analysis.morphs, AnalysisMorphs(model, words[k]), weights, mask);
        var uncertainty := analysis.logp - model.forwardLogprob(words[k]);
        scored := scored + [Selection.ScoredWord([score as real, uncertainty], words[k])];
        k := k + 1;
      }
    }

    /** The masking loop of `_select_best`. */
    method AddToMask(morphs: seq<Selection.CMorph>, ghost names: seq<string>)
      requires |names| == |morphs| && forall k :: 0 <= k < |morphs| ==> names[k] == morphs[k].morph
      modifies this
      ensures mask == old(mask) + Elems(names)
      ensures weights == old(weights) && configured == old(configured)
    {
      var k := 0;
      while k < |morphs|
        invariant 0 <= k <= |morphs|
        invariant mask == old(mask) + Elems(names[..k])
        invariant weights == old(weights) && configured == old(configured)
      {
        assert names[..k + 1] == names[..k] + [names[k]];
        mask := mask + {morphs[k].morph};
        k := k + 1;
      }
      assert names[..k] == names;
    }

    /** The choice of `_select_best`: the greatest (score, word) of the
        pool and the rest of the pool; `picked` are the earlier picks,
        whose morphs the mask holds. */
    method Pick(model: Selection.Oracle, words: seq<string>, ghost picked: seq<string>)
      returns (best: Selection.ScoredWord, rest: seq<string>)
      requires words != [] && mask == MorphSet(model, picked)
      ensures Greedy.BestOf(Scorer(weights, model), multiset(words), picked, best.word)
      ensures best == Scorer(weights, model)(picked, best.word)
      ensures multiset(rest) + multiset{best.word} == multiset(words)
    {
      var scored := Score(model, words);
      ScorerFacts(weights, model);
      Greedy.PickIsBest(Scorer(weights, model), words, picked, scored);
      Greedy.PickRest(words, scored);
      var ranked := Selection.Sorted(scored, true);
      best := ranked[0];
      rest := Selection.ScoredWords(ranked[1..]);
    }

    /** `_select_best`: the pick, its morphs added to the mask, and the
        rest of the pool. */
    method SelectBest(model: Selection.Oracle, words: seq<string>, ghost picked: seq<string>)
      returns (best: Selection.ScoredWord, rest: seq<string>)
      requires words != [] && mask == MorphSet(model, picked)
      modifies this
      ensures Greedy.BestOf(Scorer(weights, model), multiset(words), picked, best.word)
      ensures best == Scorer(weights, model)(picked, best.word)
      ensures multiset(rest) + multiset{best.word} == multiset(words)
      ensures mask == MorphSet(model, picked + [best.word])
      ensures weights == old(weights) && configured == old(configured)
    {
      best, rest := Pick(model, words, picked);
      AddToMask(model.viterbiAnalyze(best.word).morphs, AnalysisMorphs(model, best.word));
      MorphSetSnoc(model, picked, best.word);
    }

    /** `rank`: up to `n` picks, each the best of what remains after
        masking the earlier picks' morphs, with the score it had when
        picked; None when `n` is None (the source asserts it is given). */
    method Rank(model: Selection.Oracle, words: seq<string>, n: Option<int>) returns (r: Option<seq<Selection.ScoredWord>>)
      modifies this
      ensures r.None? <==> n.None?
      ensures weights == old(weights) && configured == old(configured)
      ensures n.None? ==> mask == old(mask)
      ensures n.Some? ==>
        |r.value| == (if n.value <= 0 then 0 else if n.value < |words| then n.value else |words|) &&
        Greedy.IsGreedy(Scorer(weights, model), words, Selection.ScoredWords(r.value)) &&
        r.value == Greedy.Scored(Scorer(weights, model), Selection.ScoredWords(r.value)) &&
        mask == MorphSet(model, Selection.ScoredWords(r.value))
    {
      if n.None? {
        return None;
      }
      ghost var score := Scorer(weights, model);
      ScorerFacts(weights, model);
      var scored: seq<Selection.ScoredWord> := [];
      ghost var picks: seq<string> := [];
      mask := {};
      var pool := words;
      while |scored| < n.value && |pool| > 0
        invariant weights == old(weights) && configured == old(configured)
        invariant multiset(pool) + multiset(picks) == multiset(words)
        invariant |scored| == |picks| <= (if n.value <= 0 then 0 else n.value)
        invariant Greedy.IsGreedy(score, words, picks)
        invariant scored == Greedy.Scored(score, picks)
        invariant mask == MorphSet(model, picks)
        decreases |pool|
      {
        var best, rest := SelectBest(model, pool, picks);
        Greedy.RoundStep(score, words, picks, pool, rest, best.word);
        scored := scored + [best];
        picks := picks + [best.word];
        pool := rest;
      }
      assert |multiset(pool) + multiset(picks)| == |pool| + |picks|;
      Greedy.ScoredWordsOfScored(score, picks);
      r := Some(scored);
    }

    /** `Selector.rank` with this metric: configured when not configured
        yet, then ranked. */
    method SelectorRank(model: Selection.Oracle, words: seq<string>, seen: Option<seq<string>>, n: Option<int>)
      returns (r: Option<seq<Selection.ScoredWord>>)
      modifies this
      ensures configured
      ensures !old(configured) ==> weights == Configured(model, seen)
      ensures old(configured) ==> weights == old(weights)
      ensures r.None? <==> n.None?
      ensures n.Some? ==>
        |r.value| == (if n.value <= 0 then 0 else if n.value < |words| then n.value else |words|) &&
        Greedy.IsGreedy(Scorer(weights, model), words, Selection.ScoredWords(r.value)) &&
        r.value == Greedy.Scored(Scorer(weights, model), Selection.ScoredWords(r.value))
    {
      if !configured {
        Configure(seen, model);
      }
      r := Rank(model, words, n);
    }
  }
}
