/** `IFSubstringMetric` (morphsegannot/tools/selection.py): a greedy metric
    that rewards words whose initial and final substrings are frequent in
    the pool and not yet covered. `configure` fills one counter of initial
    and one of final substrings, `rank` picks the best word, masks its
    substrings, and repeats. */
module SubstringCoverage {
  import opened SeqUtil
  import Selection
  import Greedy

  /** `self.minlen`. */
  const MinLen: int := 2

  // ---- the substrings of a word ----

  /** The longest substring taken: `min(maxlen, len(word))`. */
  function End(maxlen: int, w: string): int
  {
    if maxlen < |w| then maxlen else |w|
  }

  /** How many substrings are taken from each end. */
  function SubCount(maxlen: int, w: string): (k: nat)
    ensures k > 0 ==> k + 1 <= |w|
  {
    if End(maxlen, w) - MinLen + 1 > 0 then End(maxlen, w) - MinLen + 1 else 0
  }

  /** The initial substrings `_substrings` gives, shortest first. */
  function Initials(maxlen: int, w: string): seq<string>
  {
    seq(SubCount(maxlen, w), k requires 0 <= k < SubCount(maxlen, w) => w[..k + MinLen])
  }

  /** The final substrings `_substrings` gives, shortest first. */
  function Finals(maxlen: int, w: string): seq<string>
  {
    seq(SubCount(maxlen, w), k requires 0 <= k < SubCount(maxlen, w) => w[|w| - (k + MinLen)..])
  }

  function Subs(maxlen: int, w: string, initial: bool): seq<string>
  {
    if initial then Initials(maxlen, w) else Finals(maxlen, w)
  }

  /** The prefixes and the suffixes of lengths 2 up to `min(maxlen,
      len(word))`, in increasing length; none for a word shorter than 2. */
  lemma SubstringsFacts(maxlen: int, w: string)
    ensures |Initials(maxlen, w)| == |Finals(maxlen, w)| ==
      if End(maxlen, w) >= MinLen then End(maxlen, w) - MinLen + 1 else 0
    ensures |w| < MinLen ==> Initials(maxlen, w) == [] && Finals(maxlen, w) == []
    ensures forall k :: 0 <= k < |Initials(maxlen, w)| ==>
      |Initials(maxlen, w)[k]| == k + MinLen && |Finals(maxlen, w)[k]| == k + MinLen
    ensures forall s :: s in Initials(maxlen, w) <==>
      MinLen <= |s| <= End(maxlen, w) && s == w[..|s|]
    ensures forall s :: s in Finals(maxlen, w) <==>
      MinLen <= |s| <= End(maxlen, w) && s == w[|w| - |s|..]
    ensures NoDups(Initials(maxlen, w)) && NoDups(Finals(maxlen, w))
  {
    InitialsFacts(maxlen, w);
    FinalsFacts(maxlen, w);
  }

  lemma InitialsFacts(maxlen: int, w: string)
    ensures forall k :: 0 <= k < |Initials(maxlen, w)| ==> |Initials(maxlen, w)[k]| == k + MinLen
    ensures forall s :: s in Initials(maxlen, w) <==>
      MinLen <= |s| <= End(maxlen, w) && s == w[..|s|]
    ensures NoDups(Initials(maxlen, w))
  {
    forall s | MinLen <= |s| <= End(maxlen, w) && s == w[..|s|]
      ensures s in Initials(maxlen, w)
    {
      assert Initials(maxlen, w)[|s| - MinLen] == s;
    }
  }

  lemma FinalsFacts(maxlen: int, w: string)
    ensures forall k :: 0 <= k < |Finals(maxlen, w)| ==> |Finals(maxlen, w)[k]| == k + MinLen
    ensures forall s :: s in Finals(maxlen, w) <==>
      MinLen <= |s| <= End(maxlen, w) && s == w[|w| - |s|..]
    ensures NoDups(Finals(maxlen, w))
  {
    forall s | MinLen <= |s| <= End(maxlen, w) && s == w[|w| - |s|..]
      ensures s in Finals(maxlen, w)
    {
      assert Finals(maxlen, w)[|s| - MinLen] == s;
    }
  }

  lemma SubsNoDups(maxlen: int, w: string, initial: bool)
    ensures NoDups(Subs(maxlen, w, initial))
  {
    SubstringsFacts(maxlen, w);
  }

  /** The set of the substrings of some words. */
  function SubsOf(maxlen: int, ws: seq<string>, initial: bool): set<string>
  {
    if ws == [] then {}
    else SubsOf(maxlen, ws[..|ws| - 1], initial) + Elems(Subs(maxlen, ws[|ws| - 1], initial))
  }

  lemma SubsOfSnoc(maxlen: int, ws: seq<string>, w: string, initial: bool)
    ensures SubsOf(maxlen, ws + [w], initial) == SubsOf(maxlen, ws, initial) + Elems(Subs(maxlen, w, initial))
  {
    assert (ws + [w])[..|ws|] == ws;
  }

  // ---- counters ----

  /** A `collections.Counter`: its keys in insertion order and their
      values; a missing key reads as zero. */
  datatype Counter = Counter(keys: seq<string>, weights: map<string, real>)

  const Empty: Counter := Counter([], map[])

  predicate WellFormed(c: Counter)
  {
    NoDups(c.keys) && c.weights.Keys == Elems(c.keys)
  }

  predicate NonNegative(c: Counter)
  {
    forall k :: k in c.weights ==> c.weights[k] >= 0.0
  }

  function Get(c: Counter, k: string): real
  {
    if k in c.weights then c.weights[k] else 0.0
  }

  /** `counter[k] += x`. */
  function Add(c: Counter, k: string, x: real): Counter
  {
    if k in c.weights then Counter(c.keys, c.weights[k := c.weights[k] + x])
    else Counter(c.keys + [k], c.weights[k := x])
  }

  /** `counter[k] = x`. */
  function Put(c: Counter, k: string, x: real): Counter
  {
    if k in c.weights then Counter(c.keys, c.weights[k := x])
    else Counter(c.keys + [k], c.weights[k := x])
  }

  lemma AddFacts(c: Counter, k: string, x: real)
    requires WellFormed(c)
    ensures WellFormed(Add(c, k, x))
    ensures forall s :: Get(Add(c, k, x), s) == Get(c, s) + (if s == k then x else 0.0)
    ensures forall s :: s in Add(c, k, x).weights <==> s in c.weights || s == k
  {
  }

  lemma PutFacts(c: Counter, k: string, x: real)
    requires WellFormed(c)
    ensures WellFormed(Put(c, k, x))
    ensures forall s :: Get(Put(c, k, x), s) == if s == k then x else Get(c, s)
    ensures NonNegative(c) && x >= 0.0 ==> NonNegative(Put(c, k, x))
  {
  }

  // ---- configure: counting ----

  /** One word's substrings counted into a counter. */
  function Tally(c: Counter, subs: seq<string>): Counter
  {
    if subs == [] then c else Add(Tally(c, subs[..|subs| - 1]), subs[|subs| - 1], 1.0)
  }

  /** The counter `configure` fills from the pool's words. */
  function Counts(maxlen: int, words: seq<string>, initial: bool): Counter
  {
    if words == [] then Empty
    else Tally(Counts(maxlen, words[..|words| - 1], initial), Subs(maxlen, words[|words| - 1], initial))
  }

  /** How many of the words have `s` among their substrings. */
  function Occurrences(maxlen: int, words: seq<string>, s: string, initial: bool): nat
  {
    if words == [] then 0
    else Occurrences(maxlen, words[..|words| - 1], s, initial)
         + (if s in Subs(maxlen, words[|words| - 1], initial) then 1 else 0)
  }

  lemma {:induction false} TallyFacts(c: Counter, subs: seq<string>)
    requires WellFormed(c) && NoDups(subs)
    ensures WellFormed(Tally(c, subs))
    ensures forall s :: Get(Tally(c, subs), s) == Get(c, s) + (if s in subs then 1.0 else 0.0)
    ensures forall s :: s in Tally(c, subs).weights <==> s in c.weights || s in subs
  {
    if subs != [] {
      var init := subs[..|subs| - 1];
      var last := subs[|subs| - 1];
      assert NoDups(init);
      TallyFacts(c, init);
      AddFacts(Tally(c, init), last, 1.0);
      assert last !in init;
      assert subs == init + [last];
    }
  }

  /** `configure` counts each substring once per word that has it, and
      the counter holds exactly the substrings of the words. */
  lemma {:induction false} CountsFacts(maxlen: int, words: seq<string>, initial: bool)
    ensures WellFormed(Counts(maxlen, words, initial))
    ensures forall s :: Get(Counts(maxlen, words, initial), s) == Occurrences(maxlen, words, s, initial) as real
    ensures forall s :: s in Counts(maxlen, words, initial).weights <==> Occurrences(maxlen, words, s, initial) > 0
  {
    if words != [] {
      var init := words[..|words| - 1];
      CountsFacts(maxlen, init, initial);
      SubsNoDups(maxlen, words[|words| - 1], initial);
      TallyFacts(Counts(maxlen, init, initial), Subs(maxlen, words[|words| - 1], initial));
    }
  }

  // ---- configure: normalising ----

  /** The sum of the values of the keys of length `len`. */
  function LenSum(keys: seq<string>, c: Counter, len: int): real
  {
    if keys == [] then 0.0
    else LenSum(keys[..|keys| - 1], c, len) + (if |keys[|keys| - 1]| == len then Get(c, keys[|keys| - 1]) else 0.0)
  }

  /** The number of keys of length `len`. */
  function LenCount(keys: seq<string>, len: int): nat
  {
    if keys == [] then 0
    else LenCount(keys[..|keys| - 1], len) + (if |keys[|keys| - 1]| == len then 1 else 0)
  }

  lemma {:induction false} LenCountPositive(keys: seq<string>, k: string)
    requires k in keys
    ensures LenCount(keys, |k|) > 0
  {
    if keys[|keys| - 1] != k {
      LenCountPositive(keys[..|keys| - 1], k);
    }
  }

  /** `_normalize` divides by the sum for the key's length. */
  predicate Normalizable(c: Counter)
  {
    forall k :: k in c.weights ==> LenSum(c.keys, c, |k|) != 0.0
  }

  /** One value of `_normalize`: divided by the sum of its length, then
      multiplied by the number of keys of its length. */
  function Scale(x: real, total: real, n: real): real
    requires total != 0.0
  {
    x / total * n
  }

  lemma ScaleFacts(x: real, total: real, n: real)
    requires total != 0.0
    ensures Scale(x, total, n) == x * (n / total)
    ensures total * (n / total) == n
    ensures x >= 0.0 && total > 0.0 && n >= 0.0 ==> Scale(x, total, n) >= 0.0
  {
  }

  /** `_normalize`. */
  function Normalized(c: Counter): Counter
    requires Normalizable(c)
  {
    Counter(c.keys, map k | k in c.weights :: Scale(c.weights[k], LenSum(c.keys, c, |k|), LenCount(c.keys, |k|) as real))
  }

  lemma ScaleAdd(a: real, b: real, total: real, n: real)
    requires total != 0.0
    ensures Scale(a, total, n) + Scale(b, total, n) == Scale(a + b, total, n)
  {
    assert a / total + b / total == (a + b) / total;
  }

  lemma ScaleWhole(total: real, n: real)
    requires total != 0.0
    ensures Scale(total, total, n) == n && Scale(0.0, total, n) == 0.0
  {
  }

  /** Scaling every value of one length scales their sum. */
  lemma {:induction false} LenSumScaled(keys: seq<string>, c: Counter, d: Counter, len: int, total: real, n: real)
    requires total != 0.0
    requires forall k :: k in keys && |k| == len ==> Get(d, k) == Scale(Get(c, k), total, n)
    ensures LenSum(keys, d, len) == Scale(LenSum(keys, c, len), total, n)
  {
    if keys == [] {
      ScaleWhole(total, n);
    } else {
      var init, last := keys[..|keys| - 1], keys[|keys| - 1];
      LenSumScaled(init, c, d, len, total, n);
      if |last| == len {
        ScaleAdd(LenSum(init, c, len), Get(c, last), total, n);
      }
    }
  }

  lemma {:induction false} LenSumPositive(keys: seq<string>, c: Counter, k: string)
    requires NonNegative(c)
    requires k in keys && Get(c, k) > 0.0
    ensures LenSum(keys, c, |k|) > 0.0
  {
    LenSumNonNegative(keys[..|keys| - 1], c, |k|);
    if keys[|keys| - 1] != k {
      LenSumPositive(keys[..|keys| - 1], c, k);
    }
  }

  lemma {:induction false} LenSumNonNegative(keys: seq<string>, c: Counter, len: int)
    requires NonNegative(c)
    ensures LenSum(keys, c, len) >= 0.0
  {
    if keys != [] {
      LenSumNonNegative(keys[..|keys| - 1], c, len);
    }
  }

  /** After `_normalize`, the values of each length sum to the number of
      distinct substrings of that length. */
  lemma NormalizedSums(c: Counter, k: string)
    requires WellFormed(c) && Normalizable(c) && k in c.weights
    ensures LenSum(c.keys, Normalized(c), |k|) == LenCount(c.keys, |k|) as real
  {
    var total := LenSum(c.keys, c, |k|);
    var n := LenCount(c.keys, |k|) as real;
    forall j | j in c.keys && |j| == |k|
      ensures Get(Normalized(c), j) == Scale(Get(c, j), total, n)
    {
      NormalizedAt(c, k, j);
    }
    LenSumScaled(c.keys, c, Normalized(c), |k|, total, n);
    ScaleWhole(total, n);
  }

  /** `_normalize` scales every key of one length alike. */
  lemma NormalizedAt(c: Counter, k: string, j: string)
    requires WellFormed(c) && Normalizable(c) && k in c.weights
    requires j in c.keys && |j| == |k|
    ensures Get(Normalized(c), j) ==
      Scale(Get(c, j), LenSum(c.keys, c, |k|), LenCount(c.keys, |k|) as real)
  {
    assert j in Elems(c.keys);
  }

  /** The value `_normalize` gives the key `j`. */
  function NormalizedValue(c: Counter, j: string): real
    requires Normalizable(c) && j in c.weights
  {
    Scale(c.weights[j], LenSum(c.keys, c, |j|), LenCount(c.keys, |j|) as real)
  }

  lemma NormalizedFrom(c: Counter, weights: map<string, real>)
    requires WellFormed(c) && Normalizable(c) && weights.Keys == c.weights.Keys
    requires forall i :: 0 <= i < |c.keys| ==> c.keys[i] in c.weights && weights[c.keys[i]] == NormalizedValue(c, c.keys[i])
    ensures Counter(c.keys, weights) == Normalized(c)
  {
    forall j | j in c.weights ensures weights[j] == Normalized(c).weights[j] {
      assert j in Elems(c.keys);
    }
  }

  lemma CountsLenSums(maxlen: int, words: seq<string>, initial: bool)
    ensures forall k :: k in Counts(maxlen, words, initial).weights ==>
      LenSum(Counts(maxlen, words, initial).keys, Counts(maxlen, words, initial), |k|) > 0.0
    ensures NonNegative(Counts(maxlen, words, initial))
  {
    var c := Counts(maxlen, words, initial);
    CountsFacts(maxlen, words, initial);
    assert NonNegative(c) by {
      forall k | k in c.weights ensures c.weights[k] >= 0.0 {
        assert Get(c, k) == Occurrences(maxlen, words, k, initial) as real;
      }
    }
    forall k | k in c.weights ensures LenSum(c.keys, c, |k|) > 0.0 {
      assert k in Elems(c.keys);
      LenSumPositive(c.keys, c, k);
    }
  }

  /** The counts of a pool can be normalised, to non-negative values. */
  lemma CountsNormalizable(maxlen: int, words: seq<string>, initial: bool)
    ensures Normalizable(Counts(maxlen, words, initial))
    ensures NonNegative(Normalized(Counts(maxlen, words, initial)))
  {
    var c := Counts(maxlen, words, initial);
    CountsLenSums(maxlen, words, initial);
    var d := Normalized(c);
    forall k | k in d.weights ensures d.weights[k] >= 0.0 {
      ScaleFacts(c.weights[k], LenSum(c.keys, c, |k|), LenCount(c.keys, |k|) as real);
    }
  }

  // ---- configure: zeroing the seen words' substrings ----

  function ZeroAll(c: Counter, subs: seq<string>): Counter
  {
    if subs == [] then c else Put(ZeroAll(c, subs[..|subs| - 1]), subs[|subs| - 1], 0.0)
  }

  function Zeroed(c: Counter, maxlen: int, seen: seq<string>, initial: bool): Counter
  {
    if seen == [] then c
    else ZeroAll(Zeroed(c, maxlen, seen[..|seen| - 1], initial), Subs(maxlen, seen[|seen| - 1], initial))
  }

  lemma {:induction false} ZeroAllFacts(c: Counter, subs: seq<string>)
    requires WellFormed(c)
    ensures WellFormed(ZeroAll(c, subs))
    ensures forall s :: Get(ZeroAll(c, subs), s) == if s in subs then 0.0 else Get(c, s)
    ensures NonNegative(c) ==> NonNegative(ZeroAll(c, subs))
  {
    if subs != [] {
      ZeroAllFacts(c, subs[..|subs| - 1]);
      PutFacts(ZeroAll(c, subs[..|subs| - 1]), subs[|subs| - 1], 0.0);
      assert subs == subs[..|subs| - 1] + [subs[|subs| - 1]];
    }
  }

  /** Every substring of a seen word ends at zero; the others keep their
      value. */
  lemma {:induction false} ZeroedFacts(c: Counter, maxlen: int, seen: seq<string>, initial: bool)
    requires WellFormed(c)
    ensures WellFormed(Zeroed(c, maxlen, seen, initial))
    ensures forall s :: Get(Zeroed(c, maxlen, seen, initial), s) ==
                        if s in SubsOf(maxlen, seen, initial) then 0.0 else Get(c, s)
    ensures NonNegative(c) ==> NonNegative(Zeroed(c, maxlen, seen, initial))
  {
    if seen != [] {
      ZeroedFacts(c, maxlen, seen[..|seen| - 1], initial);
      ZeroAllFacts(Zeroed(c, maxlen, seen[..|seen| - 1], initial), Subs(maxlen, seen[|seen| - 1], initial));
    }
  }

  /** The counter `configure` leaves: counted, normalised when asked,
      then zeroed for the seen words. */
  function Configured(normalize: bool, maxlen: int, words: seq<string>, seen: Option<seq<string>>, initial: bool): Counter
  {
    var counts := Counts(maxlen, words, initial);
    CountsNormalizable(maxlen, words, initial);
    var normed := if normalize then Normalized(counts) else counts;
    if seen.None? then normed else Zeroed(normed, maxlen, seen.value, initial)
  }

  /** What `configure` gives each substring: zero for a substring of a
      seen word (zeroing runs after normalising), otherwise its number of
      occurrences, normalised when asked; all values are non-negative. */
  lemma ConfiguredFacts(normalize: bool, maxlen: int, words: seq<string>, seen: Option<seq<string>>, initial: bool, s: string)
    ensures WellFormed(Configured(normalize, maxlen, words, seen, initial))
    ensures NonNegative(Configured(normalize, maxlen, words, seen, initial))
    ensures seen.Some? && s in SubsOf(maxlen, seen.value, initial) ==>
      Get(Configured(normalize, maxlen, words, seen, initial), s) == 0.0
    ensures (seen.None? || s !in SubsOf(maxlen, seen.value, initial)) && !normalize ==>
      Get(Configured(normalize, maxlen, words, seen, initial), s) == Occurrences(maxlen, words, s, initial) as real
    ensures Normalizable(Counts(maxlen, words, initial))
    ensures (seen.None? || s !in SubsOf(maxlen, seen.value, initial)) && normalize ==>
      Get(Configured(normalize, maxlen, words, seen, initial), s) == Get(Normalized(Counts(maxlen, words, initial)), s)
  {
    var counts := Counts(maxlen, words, initial);
    CountsFacts(maxlen, words, initial);
    CountsNormalizable(maxlen, words, initial);
    var normed := if normalize then Normalized(counts) else counts;
    assert WellFormed(normed) && NonNegative(normed);
    if seen.Some? {
      ZeroedFacts(normed, maxlen, seen.value, initial);
    }
  }

  // ---- scoring ----

  /** The summed values of the substrings not masked. */
  function UnmaskedSum(subs: seq<string>, c: Counter, mask: set<string>): real
  {
    if subs == [] then 0.0
    else UnmaskedSum(subs[..|subs| - 1], c, mask) + (if subs[|subs| - 1] in mask then 0.0 else Get(c, subs[|subs| - 1]))
  }

  /** Masking more never raises a sum of non-negative values. */
  lemma {:induction false} UnmaskedSumMonotone(subs: seq<string>, c: Counter, m1: set<string>, m2: set<string>)
    requires NonNegative(c) && m1 <= m2
    ensures UnmaskedSum(subs, c, m2) <= UnmaskedSum(subs, c, m1)
  {
    if subs != [] {
      UnmaskedSumMonotone(subs[..|subs| - 1], c, m1, m2);
    }
  }

  /** The metric's tables. */
  datatype Tables = Tables(maxlen: int, initial: Counter, final: Counter)

  predicate TablesValid(t: Tables)
  {
    WellFormed(t.initial) && WellFormed(t.final) && NonNegative(t.initial) && NonNegative(t.final)
  }

  /** `score` of one word under the masks. */
  function ScoreUnder(t: Tables, iMask: set<string>, fMask: set<string>, w: string): Selection.ScoredWord
  {
    Selection.ScoredWord([UnmaskedSum(Initials(t.maxlen, w), t.initial, iMask)
                          + UnmaskedSum(Finals(t.maxlen, w), t.final, fMask)], w)
  }

  /** The score of a word once the given words are picked. */
  function PickScore(t: Tables, picked: seq<string>, w: string): Selection.ScoredWord
  {
    ScoreUnder(t, SubsOf(t.maxlen, picked, true), SubsOf(t.maxlen, picked, false), w)
  }

  /** The metric's score function for the greedy rounds. */
  function Scorer(t: Tables): (seq<string>, string) -> Selection.ScoredWord
  {
    (p: seq<string>, w: string) => PickScore(t, p, w)
  }

  /** A pick only adds to the masks and the values are non-negative, so
      no pick raises another word's score. */
  lemma ScorerFacts(t: Tables)
    requires TablesValid(t)
    ensures Greedy.KeepsWord(Scorer(t)) && Greedy.Monotone(Scorer(t))
  {
    forall p, w, y ensures !Selection.Less(Scorer(t)(p, w), Scorer(t)(p + [y], w)) {
      SubsOfSnoc(t.maxlen, p, y, true);
      SubsOfSnoc(t.maxlen, p, y, false);
      UnmaskedSumMonotone(Initials(t.maxlen, w), t.initial, SubsOf(t.maxlen, p, true), SubsOf(t.maxlen, p + [y], true));
      UnmaskedSumMonotone(Finals(t.maxlen, w), t.final, SubsOf(t.maxlen, p, false), SubsOf(t.maxlen, p + [y], false));
      Selection.LessIrreflexive(Scorer(t)(p, w));
    }
  }

  /** The scores of the picks never increase from one round to the next. */
  lemma RankScoresFall(t: Tables, words: seq<string>, picks: seq<string>)
    requires TablesValid(t) && Greedy.IsGreedy(Scorer(t), words, picks)
    ensures forall i :: 0 <= i < |picks| ==> |Greedy.Scored(Scorer(t), picks)[i].score| == 1
    ensures forall i :: 0 <= i < |picks| - 1 ==>
      Greedy.Scored(Scorer(t), picks)[i + 1].score[0] <= Greedy.Scored(Scorer(t), picks)[i].score[0]
  {
    ScorerFacts(t);
    Greedy.GreedyNonIncreasing(Scorer(t), words, picks);
  }

  // ---- the metric ----

  class IFSubstringMetric {
    const normalize: bool
    const maxlen: int
    var iSubstrings: Counter
    var fSubstrings: Counter
    var iMask: set<string>
    var fMask: set<string>
    var configured: bool

    function Tabled(): Tables
      reads this
    {
      Tables(maxlen, iSubstrings, fSubstrings)
    }

    predicate Valid()
      reads this
    {
      TablesValid(Tabled())
    }

    constructor (normalize: bool, maxlen: int)
      ensures this.normalize == normalize && this.maxlen == maxlen
      ensures iSubstrings == Empty && fSubstrings == Empty
      ensures iMask == {} && fMask == {} && !configured
      ensures Valid()
    {
      this.normalize := normalize;
      this.maxlen := maxlen;
      iSubstrings := Empty;
      fSubstrings := Empty;
      iMask := {};
      fMask := {};
      configured := false;
    }

    /** `_substrings`. */
    method Substrings(w: string) returns (initial: seq<string>, final: seq<string>)
      ensures initial == Initials(maxlen, w) && final == Finals(maxlen, w)
    {
      initial := [];
      final := [];
      var end := End(maxlen, w) + 1;
      var i := MinLen;
      while i < end
        invariant MinLen <= i && i - MinLen <= SubCount(maxlen, w)
        invariant i <= end || i == MinLen
        invariant initial == Initials(maxlen, w)[..i - MinLen]
        invariant final == Finals(maxlen, w)[..i - MinLen]
      {
        initial := initial + [w[..i]];
        final := final + [w[|w| - i..]];
        i := i + 1;
      }
    }

    /** The counting loop of `configure`, for one word's substrings. */
    static method Count(c: Counter, subs: seq<string>) returns (r: Counter)
      ensures r == Tally(c, subs)
    {
      r := c;
      var k := 0;
      while k < |subs|
        invariant 0 <= k <= |subs|
        invariant r == Tally(c, subs[..k])
      {
        assert subs[..k + 1][..k] == subs[..k];
        r := Add(r, subs[k], 1.0);
        k := k + 1;
      }
      assert subs[..k] == subs;
    }

    /** The first loop of `_normalize`: the sum of the values and the
        number of keys of each length. */
    static method Totals(c: Counter) returns (sumByLen: map<int, real>, countByLen: map<int, nat>)
      requires WellFormed(c)
      ensures forall len :: (if len in sumByLen then sumByLen[len] else 0.0) == LenSum(c.keys, c, len)
      ensures forall len :: (if len in countByLen then countByLen[len] else 0) == LenCount(c.keys, len)
    {
      sumByLen := map[];
      countByLen := map[];
      var k := 0;
      while k < |c.keys|
        invariant 0 <= k <= |c.keys|
        invariant forall len :: (if len in sumByLen then sumByLen[len] else 0.0) == LenSum(c.keys[..k], c, len)
        invariant forall len :: (if len in countByLen then countByLen[len] else 0) == LenCount(c.keys[..k], len)
      {
        assert c.keys[..k + 1][..k] == c.keys[..k];
        var sub := c.keys[k];
        assert sub in Elems(c.keys);
        var s := if |sub| in sumByLen then sumByLen[|sub|] else 0.0;
        var n := if |sub| in countByLen then countByLen[|sub|] else 0;
        sumByLen := sumByLen[|sub| := s + c.weights[sub]];
        countByLen := countByLen[|sub| := n + 1];
        k := k + 1;
      }
      assert c.keys[..k] == c.keys;
    }

    /** `_normalize`. */
    static method Normalize(c: Counter) returns (r: Counter)
      requires WellFormed(c) && Normalizable(c)
      ensures r == Normalized(c)
    {
      var sumByLen, countByLen := Totals(c);
      var weights := c.weights;
      var k := 0;
      while k < |c.keys|
        invariant 0 <= k <= |c.keys|
        invariant weights.Keys == c.weights.Keys
        invariant forall i :: 0 <= i < k ==> weights[c.keys[i]] == NormalizedValue(c, c.keys[i])
        invariant forall i :: k <= i < |c.keys| ==> weights[c.keys[i]] == c.weights[c.keys[i]]
      {
        var sub := c.keys[k];
        assert sub in Elems(c.keys);
        assert |sub| in sumByLen;
        LenCountPositive(c.keys, sub);
        assert |sub| in countByLen;
        weights := weights[sub := Scale(weights[sub], sumByLen[|sub|], countByLen[|sub|] as real)];
        k := k + 1;
      }
      r := Counter(c.keys, weights);
      NormalizedFrom(c, weights);
    }

    /** The zeroing loop of `configure`, for one seen word's substrings. */
    static method Zero(c: Counter, subs: seq<string>) returns (r: Counter)
      ensures r == ZeroAll(c, subs)
    {
      r := c;
      var k := 0;
      while k < |subs|
        invariant 0 <= k <= |subs|
        invariant r == ZeroAll(c, subs[..k])
      {
        assert subs[..k + 1][..k] == subs[..k];
        r := Put(r, subs[k], 0.0);
        k := k + 1;
      }
      assert subs[..k] == subs;
    }

    /** The counting loop of `configure`. */
    method CountPool(words: seq<string>) returns (i: Counter, f: Counter)
      ensures i == Counts(maxlen, words, true) && f == Counts(maxlen, words, false)
    {
      i := Empty;
      f := Empty;
      var k := 0;
      while k < |words|
        invariant 0 <= k <= |words|
        invariant i == Counts(maxlen, words[..k], true) && f == Counts(maxlen, words[..k], false)
      {
        assert words[..k + 1][..k] == words[..k];
        var initial, final := Substrings(words[k]);
        i := Count(i, initial);
        f := Count(f, final);
        k := k + 1;
      }
      assert words[..k] == words;
    }

    /** The zeroing loop of `configure`. */
    method ZeroSeen(i0: Counter, f0: Counter, seen: seq<string>) returns (i: Counter, f: Counter)
      ensures i == Zeroed(i0, maxlen, seen, true) && f == Zeroed(f0, maxlen, seen, false)
    {
      i := i0;
      f := f0;
      var k := 0;
      while k < |seen|
        invariant 0 <= k <= |seen|
        invariant i == Zeroed(i0, maxlen, seen[..k], true) && f == Zeroed(f0, maxlen, seen[..k], false)
      {
        assert seen[..k + 1][..k] == seen[..k];
        var initial, final := Substrings(seen[k]);
        i := Zero(i, initial);
        f := Zero(f, final);
        k := k + 1;
      }
      assert seen[..k] == seen;
    }

    /** `configure`: both tables counted from the pool, normalised when
        the metric says so, zeroed for the seen words. */
    method Configure(words: seq<string>, seen: Option<seq<string>>)
      modifies this
      ensures iSubstrings == Configured(normalize, maxlen, words, seen, true)
      ensures fSubstrings == Configured(normalize, maxlen, words, seen, false)
      ensures configured && iMask == old(iMask) && fMask == old(fMask)
      ensures Valid()
    {
      var i, f := CountPool(words);
      CountsFacts(maxlen, words, true);
      CountsFacts(maxlen, words, false);
      CountsNormalizable(maxlen, words, true);
      CountsNormalizable(maxlen, words, false);
      if normalize {
        i := Normalize(i);
        f := Normalize(f);
      }
      if seen.Some? {
        i, f := ZeroSeen(i, f, seen.value);
      }
      iSubstrings := i;
      fSubstrings := f;
      configured := true;
      ConfiguredFacts(normalize, maxlen, words, seen, true, "");
      ConfiguredFacts(normalize, maxlen, words, seen, false, "");
    }

    /** The summing loop of `score` for one end of a word. */
    static method MaskedSum(subs: seq<string>, c: Counter, mask: set<string>) returns (s: real)
      ensures s == UnmaskedSum(subs, c, mask)
    {
      s := 0.0;
      var k := 0;
      while k < |subs|
        invariant 0 <= k <= |subs|
        invariant s == UnmaskedSum(subs[..k], c, mask)
      {
        assert subs[..k + 1][..k] == subs[..k];
        if subs[k] !in mask {
          s := s + Get(c, subs[k]);
        }
        k := k + 1;
      }
      assert subs[..k] == subs;
    }

    /** `score`: each word with the summed values of its substrings that
        are not masked. */
    method Score(words: seq<string>) returns (scored: seq<Selection.ScoredWord>)
      ensures |scored| == |words|
      ensures forall k :: 0 <= k < |words| ==> scored[k] == ScoreUnder(Tabled(), iMask, fMask, words[k])
    {
      scored := [];
      var k := 0;
      while k < |words|
        invariant 0 <= k <= |words| && |scored| == k
        invariant forall j :: 0 <= j < k ==> scored[j] == ScoreUnder(Tabled(), iMask, fMask, words[j])
      {
        var initial, final := Substrings(words[k]);
        var iScore := MaskedSum(initial, iSubstrings, iMask);
        var fScore := MaskedSum(final, fSubstrings, fMask);
        scored := scored + [Selection.ScoredWord([iScore + fScore], words[k])];
        k := k + 1;
      }
    }

    /** `_select_best`: the greatest (score, word) of the pool, its
        substrings added to the masks, and the rest of the pool; `picked`
        are the earlier picks, whose substrings the masks hold. */
    method SelectBest(words: seq<string>, ghost picked: seq<string>) returns (best: Selection.ScoredWord, rest: seq<string>)
      requires words != [] && Valid()
      requires iMask == SubsOf(maxlen, picked, true) && fMask == SubsOf(maxlen, picked, false)
      modifies this
      ensures Greedy.BestOf(Scorer(Tabled()), multiset(words), picked, best.word)
      ensures best == Scorer(Tabled())(picked, best.word)
      ensures multiset(rest) + multiset{best.word} == multiset(words)
      ensures iMask == SubsOf(maxlen, picked + [best.word], true)
      ensures fMask == SubsOf(maxlen, picked + [best.word], false)
      ensures iSubstrings == old(iSubstrings) && fSubstrings == old(fSubstrings) && configured == old(configured)
    {
      var scored := Score(words);
      ScorerFacts(Tabled());
      Greedy.PickIsBest(Scorer(Tabled()), words, picked, scored);
      Greedy.PickRest(words, scored);
      var ranked := Selection.Sorted(scored, true);
      best := ranked[0];
      rest := Selection.ScoredWords(ranked[1..]);
      var initial, final := Substrings(best.word);
      AddToMasks(initial, final);
      SubsOfSnoc(maxlen, picked, best.word, true);
      SubsOfSnoc(maxlen, picked, best.word, false);
    }

    /** The masking loops of `_select_best`. */
    method AddToMasks(initial: seq<string>, final: seq<string>)
      modifies this
      ensures iMask == old(iMask) + Elems(initial) && fMask == old(fMask) + Elems(final)
      ensures iSubstrings == old(iSubstrings) && fSubstrings == old(fSubstrings) && configured == old(configured)
    {
      var k := 0;
      while k < |initial|
        invariant 0 <= k <= |initial|
        invariant iMask == old(iMask) + Elems(initial[..k]) && fMask == old(fMask)
        invariant iSubstrings == old(iSubstrings) && fSubstrings == old(fSubstrings) && configured == old(configured)
      {
        assert initial[..k + 1] == initial[..k] + [initial[k]];
        iMask := iMask + {initial[k]};
        k := k + 1;
      }
      assert initial[..k] == initial;
      k := 0;
      while k < |final|
        invariant 0 <= k <= |final|
        invariant fMask == old(fMask) + Elems(final[..k]) && iMask == old(iMask) + Elems(initial)
        invariant iSubstrings == old(iSubstrings) && fSubstrings == old(fSubstrings) && configured == old(configured)
      {
        assert final[..k + 1] == final[..k] + [final[k]];
        fMask := fMask + {final[k]};
        k := k + 1;
      }
      assert final[..k] == final;
    }

    /** `rank`: up to `n` picks, each the best of what remains after
        masking the earlier picks' substrings, with the score it had when
        picked; None when `n` is None (the source asserts it is given). */
    method Rank(words: seq<string>, n: Option<int>) returns (r: Option<seq<Selection.ScoredWord>>)
      requires Valid()
      modifies this
      ensures r.None? <==> n.None?
      ensures iSubstrings == old(iSubstrings) && fSubstrings == old(fSubstrings) && configured == old(configured)
      ensures n.None? ==> iMask == old(iMask) && fMask == old(fMask)
      ensures n.Some? ==>
        |r.value| == (if n.value <= 0 then 0 else if n.value < |words| then n.value else |words|) &&
        Greedy.IsGreedy(Scorer(Tabled()), words, Selection.ScoredWords(r.value)) &&
        r.value == Greedy.Scored(Scorer(Tabled()), Selection.ScoredWords(r.value)) &&
        iMask == SubsOf(maxlen, Selection.ScoredWords(r.value), true) &&
        fMask == SubsOf(maxlen, Selection.ScoredWords(r.value), false)
    {
      if n.None? {
        return None;
      }
      ghost var t := Tabled();
      ghost var score := Scorer(t);
      ScorerFacts(t);
      var scored: seq<Selection.ScoredWord> := [];
      ghost var picks: seq<string> := [];
      iMask := {};
      fMask := {};
      var pool := words;
      while |scored| < n.value && |pool| > 0
        invariant Tabled() == t && configured == old(configured)
        invariant multiset(pool) + multiset(picks) == multiset(words)
        invariant |scored| == |picks| <= (if n.value <= 0 then 0 else n.value)
        invariant Greedy.IsGreedy(score, words, picks)
        invariant scored == Greedy.Scored(score, picks)
        invariant iMask == SubsOf(maxlen, picks, true) && fMask == SubsOf(maxlen, picks, false)
        decreases |pool|
      {
        var best, rest := SelectBest(pool, picks);
        Greedy.RoundStep(score, words, picks, pool, rest, best.word);
        scored := scored + [best];
        picks := picks + [best.word];
        pool := rest;
      }
      assert |multiset(pool) + multiset(picks)| == |pool| + |picks|;
      Greedy.ScoredWordsOfScored(score, picks);
      r := Some(scored);
    }

    /** `Selector.rank` with this metric: configured from the pool when
        not configured yet, then ranked. */
    method SelectorRank(words: seq<string>, seen: Option<seq<string>>, n: Option<int>)
      returns (r: Option<seq<Selection.ScoredWord>>)
      requires Valid()
      modifies this
      ensures configured
      ensures !old(configured) ==>
        iSubstrings == Configured(normalize, maxlen, words, seen, true) &&
        fSubstrings == Configured(normalize, maxlen, words, seen, false)
      ensures old(configured) ==> iSubstrings == old(iSubstrings) && fSubstrings == old(fSubstrings)
      ensures r.None? <==> n.None?
      ensures n.Some? ==>
        |r.value| == (if n.value <= 0 then 0 else if n.value < |words| then n.value else |words|) &&
        Greedy.IsGreedy(Scorer(Tabled()), words, Selection.ScoredWords(r.value)) &&
        r.value == Greedy.Scored(Scorer(Tabled()), Selection.ScoredWords(r.value))
    {
      if !configured {
        Configure(words, seen);
      }
      r := Rank(words, n);
    }
  }
}
