/** The greedy selection shared by `IFSubstringMetric.rank` and
    `OneOffBoundaryMetric.rank` (morphsegannot/tools/selection.py): each
    round scores what is left of the pool given the earlier picks, sorts
    it in descending (score, word) order, takes the first and removes it
    from the pool. A metric enters as its score function: `score(picked,
    w)` is word `w` scored under the masks that the picks `picked` leave. */
module Greedy {
  import opened SeqUtil
  import Selection

  /** A score function keeps the word it scores. */
  ghost predicate KeepsWord(score: (seq<string>, string) -> Selection.ScoredWord)
  {
    forall p, w :: score(p, w).word == w
  }

  /** No later pick raises a word's (score, word). */
  ghost predicate Monotone(score: (seq<string>, string) -> Selection.ScoredWord)
  {
    forall p, w, y :: !Selection.Less(score(p, w), score(p + [y], w))
  }

  /** `w` is the pick of a round: no word left in the pool is greater
      on (score, word). */
  predicate BestOf(score: (seq<string>, string) -> Selection.ScoredWord, pool: multiset<string>, picked: seq<string>, w: string)
  {
    w in pool && forall y :: y in pool ==> !Selection.Less(score(picked, w), score(picked, y))
  }

  /** The picks of the greedy `rank`: words of the pool, each the pick of
      its round from the words not picked before it. */
  predicate IsGreedy(score: (seq<string>, string) -> Selection.ScoredWord, words: seq<string>, picks: seq<string>)
  {
    multiset(picks) <= multiset(words) &&
    forall i :: 0 <= i < |picks| ==> BestOf(score, multiset(words) - multiset(picks[..i]), picks[..i], picks[i])
  }

  /** What `rank` returns for the picks: each scored when it was picked. */
  function Scored(score: (seq<string>, string) -> Selection.ScoredWord, picks: seq<string>): (r: seq<Selection.ScoredWord>)
    ensures |r| == |picks|
    ensures forall i :: 0 <= i < |picks| ==> r[i] == score(picks[..i], picks[i])
  {
    seq(|picks|, i requires 0 <= i < |picks| => score(picks[..i], picks[i]))
  }

  lemma ScoredSnoc(score: (seq<string>, string) -> Selection.ScoredWord, picks: seq<string>, w: string)
    ensures Scored(score, picks + [w]) == Scored(score, picks) + [score(picks, w)]
  {
    var p := picks + [w];
    assert p[..|picks|] == picks;
    forall i | 0 <= i < |picks| ensures p[..i] == picks[..i] {
    }
  }

  /** The words of what `rank` returns are the picks. */
  lemma ScoredWordsOfScored(score: (seq<string>, string) -> Selection.ScoredWord, picks: seq<string>)
    requires KeepsWord(score)
    ensures Selection.ScoredWords(Scored(score, picks)) == picks
  {
  }

  /** The pick of a round extends the picks. */
  lemma GreedyStep(score: (seq<string>, string) -> Selection.ScoredWord, words: seq<string>, picks: seq<string>, w: string)
    requires IsGreedy(score, words, picks)
    requires BestOf(score, multiset(words) - multiset(picks), picks, w)
    ensures IsGreedy(score, words, picks + [w])
  {
    var p := picks + [w];
    forall i | 0 <= i < |p|
      ensures BestOf(score, multiset(words) - multiset(p[..i]), p[..i], p[i])
    {
      if i < |picks| {
        assert p[..i] == picks[..i] && p[i] == picks[i];
      } else {
        assert p[..i] == picks && p[i] == w;
      }
    }
    assert multiset(p) == multiset(picks) + multiset{w};
  }

  /** One round of `rank`: the pick joins the picks and leaves the pool. */
  lemma RoundStep(score: (seq<string>, string) -> Selection.ScoredWord, words: seq<string>, picks: seq<string>,
                  pool: seq<string>, rest: seq<string>, w: string)
    requires IsGreedy(score, words, picks)
    requires multiset(pool) + multiset(picks) == multiset(words)
    requires BestOf(score, multiset(pool), picks, w)
    requires multiset(rest) + multiset{w} == multiset(pool)
    ensures IsGreedy(score, words, picks + [w])
    ensures multiset(rest) + multiset(picks + [w]) == multiset(words)
    ensures Scored(score, picks + [w]) == Scored(score, picks) + [score(picks, w)]
  {
    assert multiset(pool) == multiset(words) - multiset(picks);
    GreedyStep(score, words, picks, w);
    ScoredSnoc(score, picks, w);
  }

  /** Between two consecutive rounds the pool only loses words and the
      scores only fall, so each pick is no greater than the one before. */
  lemma NonIncreasingAt(score: (seq<string>, string) -> Selection.ScoredWord, words: seq<string>, picks: seq<string>, i: int)
    requires IsGreedy(score, words, picks) && Monotone(score) && 0 <= i < |picks| - 1
    ensures !Selection.Less(score(picks[..i], picks[i]), score(picks[..i + 1], picks[i + 1]))
  {
    var x := picks[i + 1];
    var pool := multiset(words) - multiset(picks[..i]);
    assert BestOf(score, pool, picks[..i], picks[i]);
    assert BestOf(score, multiset(words) - multiset(picks[..i + 1]), picks[..i + 1], x);
    assert picks[..i + 1] == picks[..i] + [picks[i]];
    assert multiset(picks[..i + 1]) == multiset(picks[..i]) + multiset{picks[i]};
    assert x in pool;
    var a := score(picks[..i], picks[i]);
    var b := score(picks[..i], x);
    var c := score(picks[..i + 1], x);
    assert !Selection.Less(a, b);
    assert !Selection.Less(b, c);
    if Selection.Less(a, c) {
      Selection.NotLess(a, b);
      Selection.NotLess(b, c);
      if Selection.Less(b, a) {
        Selection.LessTransitive(b, a, c);
      }
      if Selection.Less(c, b) {
        Selection.LessTransitive(c, b, a);
        Selection.LessTransitive(a, c, a);
        Selection.LessIrreflexive(a);
      }
      if a == b && b == c {
        Selection.LessIrreflexive(a);
      }
    }
  }

  /** The scores `rank` returns never increase from one pick to the next
      (in (score, word) order). */
  lemma GreedyNonIncreasing(score: (seq<string>, string) -> Selection.ScoredWord, words: seq<string>, picks: seq<string>)
    requires IsGreedy(score, words, picks) && Monotone(score)
    ensures forall i :: 0 <= i < |picks| - 1 ==>
      !Selection.Less(Scored(score, picks)[i], Scored(score, picks)[i + 1])
  {
    forall i | 0 <= i < |picks| - 1
      ensures !Selection.Less(Scored(score, picks)[i], Scored(score, picks)[i + 1])
    {
      NonIncreasingAt(score, words, picks, i);
    }
  }

  /** A pool without repeated words gives picks without repeats: each
      round removes its pick from the pool. */
  lemma GreedyNoDups(score: (seq<string>, string) -> Selection.ScoredWord, words: seq<string>, picks: seq<string>)
    requires IsGreedy(score, words, picks) && NoDups(words)
    ensures NoDups(picks)
  {
    forall i, j | 0 <= i < j < |picks| ensures picks[i] != picks[j] {
      if picks[i] == picks[j] {
        RepeatCount(picks, i, j);
        NoDupsCount(words, picks[i]);
      }
    }
  }

  lemma RepeatCount(s: seq<string>, i: int, j: int)
    requires 0 <= i < j < |s| && s[i] == s[j]
    ensures multiset(s)[s[i]] >= 2
  {
    assert s == s[..j] + s[j..];
    assert s[..j][i] == s[i] && s[j..][0] == s[j];
    assert multiset(s) == multiset(s[..j]) + multiset(s[j..]);
  }

  lemma {:induction false} NoDupsCount(s: seq<string>, x: string)
    requires NoDups(s)
    ensures multiset(s)[x] <= 1
  {
    if s != [] {
      var init := s[..|s| - 1];
      assert s == init + [s[|s| - 1]];
      assert NoDups(init);
      NoDupsCount(init, x);
      if s[|s| - 1] == x {
        assert x !in init;
      }
    }
  }

  /** The first of the pool's scores sorted in descending order is the
      round's pick. */
  lemma PickIsBest(score: (seq<string>, string) -> Selection.ScoredWord, pool: seq<string>, picked: seq<string>,
                   scored: seq<Selection.ScoredWord>)
    requires KeepsWord(score) && pool != []
    requires |scored| == |pool| && forall k :: 0 <= k < |pool| ==> scored[k] == score(picked, pool[k])
    ensures |Selection.Sorted(scored, true)| == |pool|
    ensures Selection.Sorted(scored, true)[0] == score(picked, Selection.Sorted(scored, true)[0].word)
    ensures BestOf(score, multiset(pool), picked, Selection.Sorted(scored, true)[0].word)
  {
    var ranked := Selection.Sorted(scored, true);
    Selection.SortedFacts(scored, true);
    assert |ranked| == |pool| by {
      assert |multiset(ranked)| == |multiset(scored)|;
    }
    assert ranked[0] in multiset(scored);
    var j :| 0 <= j < |scored| && scored[j] == ranked[0];
    assert ranked[0].word == pool[j];
    forall y | y in multiset(pool) ensures !Selection.Less(ranked[0], score(picked, y)) {
      var k :| 0 <= k < |pool| && pool[k] == y;
      assert scored[k] in multiset(ranked);
      var i :| 0 <= i < |ranked| && ranked[i] == scored[k];
      if i == 0 {
        Selection.LessIrreflexive(ranked[0]);
      }
    }
  }

  /** The rest of the sorted scores hold the rest of the pool. */
  lemma PickRest(pool: seq<string>, scored: seq<Selection.ScoredWord>)
    requires |scored| == |pool| && pool != []
    requires forall k :: 0 <= k < |pool| ==> scored[k].word == pool[k]
    ensures |Selection.Sorted(scored, true)| == |pool|
    ensures multiset(Selection.ScoredWords(Selection.Sorted(scored, true)[1..]))
      + multiset{Selection.Sorted(scored, true)[0].word} == multiset(pool)
  {
    var ranked := Selection.Sorted(scored, true);
    Selection.SortedFacts(scored, true);
    assert |ranked| == |pool| by {
      assert |multiset(ranked)| == |multiset(scored)|;
    }
    assert Selection.ScoredWords(scored) == pool;
    Selection.ScoredWordsPermutes(ranked, scored);
    assert ranked == [ranked[0]] + ranked[1..];
    Selection.ScoredWordsAppend([ranked[0]], ranked[1..]);
  }
}
