// The bookkeeping between selection rounds: word pools and their
// filtering and merging, the names of selection files, the contexts shown
// to annotators, and the grouping of old and new annotations into the
// records written out for the next iteration.
module Tools {
  import opened SeqUtil
  import opened Strings
  import opened RoundRobin

  // ---- pools ----

  /** A pool of candidate words, with the pool's id and the metric that
      selected it (None for a static pool). */
  datatype Pool = Pool(id: Option<string>, metric: Option<string>, words: seq<string>)

  /** The words not in `seen`, in their order. */
  function Unseen(words: seq<string>, seen: set<string>): (r: seq<string>)
    ensures |r| <= |words|
  {
    if words == [] then []
    else
      var last := words[|words| - 1];
      Unseen(words[..|words| - 1], seen) + (if last in seen then [] else [last])
  }

  /** `filter_pool`: the same pool without the words in `seen`. */
  function FilterPool(pool: Pool, seen: set<string>): (r: Pool)
    ensures r.id == pool.id && r.metric == pool.metric
  {
    Pool(pool.id, pool.metric, Unseen(pool.words, seen))
  }

  /** A word is kept exactly when it is in the pool and not seen. */
  lemma {:induction false} UnseenMembers(words: seq<string>, seen: set<string>)
    ensures forall w :: w in Unseen(words, seen) <==> w in words && w !in seen
  {
    if words != [] {
      UnseenMembers(words[..|words| - 1], seen);
      assert words == words[..|words| - 1] + [words[|words| - 1]];
    }
  }

  /** Filtering twice is filtering once by both sets, so removing the
      already selected words and then the old annotations is one filter. */
  lemma {:induction false} UnseenTwice(words: seq<string>, a: set<string>, b: set<string>)
    ensures Unseen(Unseen(words, a), b) == Unseen(words, a + b)
  {
    if words != [] {
      var init := words[..|words| - 1];
      var last := words[|words| - 1];
      UnseenTwice(init, a, b);
      var once := Unseen(init, a);
      if last !in a {
        var t := once + [last];
        assert Unseen(words, a) == t;
        assert t[..|t| - 1] == once && t[|t| - 1] == last;
        assert Unseen(t, b) == Unseen(once, b) + (if last in b then [] else [last]);
      } else {
        assert Unseen(words, a) == once;
      }
    }
  }

  /** Filtering by a set that meets none of the words keeps the pool. */
  lemma {:induction false} UnseenNothing(words: seq<string>, seen: set<string>)
    requires forall w :: w in words ==> w !in seen
    ensures Unseen(words, seen) == words
  {
    if words != [] {
      UnseenNothing(words[..|words| - 1], seen);
      assert words == words[..|words| - 1] + [words[|words| - 1]];
    }
  }

  /** The filtered pool keeps its id and metric, and exactly the unseen
      words. */
  lemma FilterPoolFacts(pool: Pool, seen: set<string>)
    ensures FilterPool(pool, seen).id == pool.id && FilterPool(pool, seen).metric == pool.metric
    ensures forall w :: w in FilterPool(pool, seen).words <==> w in pool.words && w !in seen
  {
    UnseenMembers(pool.words, seen);
  }

  /** The words of all the pools, pool after pool. */
  function AllWords(pools: seq<Pool>): seq<string>
  {
    if pools == [] then [] else AllWords(pools[..|pools| - 1]) + pools[|pools| - 1].words
  }

  lemma {:induction false} AllWordsMembers(pools: seq<Pool>, w: string)
    ensures w in AllWords(pools) <==> exists k :: 0 <= k < |pools| && w in pools[k].words
  {
    if pools != [] {
      var init := pools[..|pools| - 1];
      AllWordsMembers(init, w);
      if w in AllWords(pools) && w !in pools[|pools| - 1].words {
        var k :| 0 <= k < |init| && w in init[k].words;
        assert pools[k] == init[k];
      }
      if exists k :: 0 <= k < |pools| && w in pools[k].words {
        var k :| 0 <= k < |pools| && w in pools[k].words;
        if k < |init| {
          assert init[k] == pools[k];
        }
      }
    }
  }

  /** `combine_pools` as evidently intended: the words of the pools, each
      kept at its first occurrence, under the given id. */
  method CombinePools(id: Option<string>, pools: seq<Pool>) returns (r: Pool)
    ensures r == Pool(id, None, DedupBy(AllWords(pools), Identity))
  {
    var seen: set<string> := {};
    var combined: seq<string> := [];
    ghost var done: seq<string> := [];
    var i := 0;
    while i < |pools|
      invariant 0 <= i <= |pools|
      invariant done == AllWords(pools[..i])
      invariant seen == KeySet(done, Identity) && combined == DedupBy(done, Identity)
    {
      seen, combined := AbsorbPool(seen, combined, done, pools[i].words);
      assert pools[..i + 1][..i] == pools[..i];
      done := done + pools[i].words;
      i := i + 1;
    }
    assert pools[..i] == pools;
    r := Pool(id, None, combined);
  }

  /** The inner loop of `combine_pools`: the words of one pool. */
  method AbsorbPool(seen: set<string>, combined: seq<string>, ghost done: seq<string>, words: seq<string>)
    returns (seen': set<string>, combined': seq<string>)
    requires seen == KeySet(done, Identity) && combined == DedupBy(done, Identity)
    ensures seen' == KeySet(done + words, Identity) && combined' == DedupBy(done + words, Identity)
  {
    seen', combined' := seen, combined;
    var j := 0;
    assert done + words[..0] == done;
    while j < |words|
      invariant 0 <= j <= |words|
      invariant seen' == KeySet(done + words[..j], Identity)
      invariant combined' == DedupBy(done + words[..j], Identity)
    {
      var word := words[j];
      ghost var before := done + words[..j];
      assert done + words[..j + 1] == before + [word];
      assert (before + [word])[..|before|] == before;
      KeySetAppend(before, word, Identity);
      if word !in seen' {
        combined' := combined' + [word];
        seen' := seen' + {word};
      }
      j := j + 1;
    }
    assert words[..j] == words;
  }

  /** The combined pool has no duplicates and holds exactly the words of
      the pools, in order of first occurrence. */
  lemma CombinePoolsFacts(pools: seq<Pool>)
    ensures NoDups(DedupBy(AllWords(pools), Identity))
    ensures forall w :: w in DedupBy(AllWords(pools), Identity) <==>
      exists k :: 0 <= k < |pools| && w in pools[k].words
  {
    UniqueEverseenFacts(AllWords(pools));
    forall w ensures w in AllWords(pools) <==> exists k :: 0 <= k < |pools| && w in pools[k].words {
      AllWordsMembers(pools, w);
    }
  }

  /** What iterating a pool yields as written: its three fields, the id,
      the metric and the list of words. */
  datatype Item = Text(s: string) | NoneValue | WordList(items: seq<string>)

  function OptionItem(o: Option<string>): Item
  {
    if o.Some? then Text(o.value) else NoneValue
  }

  function PoolItems(pools: seq<Pool>): seq<Item>
  {
    if pools == [] then []
    else
      var p := pools[|pools| - 1];
      PoolItems(pools[..|pools| - 1]) + [OptionItem(p.id), OptionItem(p.metric), WordList(p.words)]
  }

  /** The exceptions the written code can raise. */
  datatype Raised = TypeError | NameError

  /** How the written code ends: a pool, or an exception. */
  datatype Outcome = Returned(id: Option<string>, combined: seq<Item>) | Failed(error: Raised)

  /** The loop over the items: a list cannot be hashed into `seen`, so it
      raises TypeError. None stands for that exception. */
  function AbsorbItems(items: seq<Item>, seen: set<Item>, combined: seq<Item>): Option<seq<Item>>
    decreases |items|
  {
    if items == [] then Some(combined)
    else if items[0].WordList? then None
    else if items[0] in seen then AbsorbItems(items[1..], seen, combined)
    else AbsorbItems(items[1..], seen + {items[0]}, combined + [items[0]])
  }

  /** `combine_pools(id, pools)` as written: it iterates each pool itself
      rather than its words, and takes the id of the loop variable, which
      is unbound when there are no pools. */
  function CombinePoolsAsWritten(id: Option<string>, pools: seq<Pool>): Outcome
  {
    match AbsorbItems(PoolItems(pools), {}, [])
    case None => Failed(TypeError)
    case Some(combined) =>
      if pools == [] then Failed(NameError) else Returned(pools[|pools| - 1].id, combined)
  }

  lemma {:induction false} AbsorbList(items: seq<Item>, seen: set<Item>, combined: seq<Item>, k: nat)
    requires k < |items| && items[k].WordList?
    ensures AbsorbItems(items, seen, combined) == None
    decreases |items|
  {
    if !items[0].WordList? {
      var next := if items[0] in seen then seen else seen + {items[0]};
      var acc := if items[0] in seen then combined else combined + [items[0]];
      AbsorbList(items[1..], next, acc, k - 1);
    }
  }

  /** As written, `combine_pools` never returns a pool of words: a pool
      whose words are a list (as `filter_pool` makes them) raises TypeError
      when the list is added to `seen`, and no pools at all leave `pool`
      unbound for `pool.id`, a NameError. */
  lemma CombinePoolsAlwaysRaises(id: Option<string>, pools: seq<Pool>)
    ensures CombinePoolsAsWritten(id, pools) == Failed(if pools == [] then NameError else TypeError)
  {
    if pools != [] {
      var items := PoolItems(pools);
      assert items[|items| - 1].WordList?;
      AbsorbList(items, {}, [], |items| - 1);
    }
  }

  // ---- selection file names ----

  /** What `all_metrics` makes of one file name. */
  datatype NameVerdict = Keep(metric: string) | Drop | IndexError

  /** A name is kept when it splits on dots into the iteration, the pool,
      the metric (which may itself hold dots) and `selected`; a name with
      too few parts to pop from raises IndexError. */
  function JudgeName(name: string, iteration: Option<string>, pools: Option<seq<string>>): NameVerdict
  {
    var parts := Split(name, ".");
    if parts[|parts| - 1] != "selected" then Drop
    else
      var rest := parts[..|parts| - 1];
      if rest == [] then IndexError
      else if iteration.Some? && rest[0] != iteration.value then Drop
      else if |rest| == 1 then IndexError
      else if pools.Some? && rest[1] !in pools.value then Drop
      else Keep(Join(".", rest[2..]))
  }

  /** The metrics `all_metrics` returns for the names of a directory, or
      None when one of them raises. */
  function MetricsOf(names: seq<string>, iteration: Option<string>, pools: Option<seq<string>>): Option<seq<string>>
  {
    if names == [] then Some([])
    else
      match MetricsOf(names[..|names| - 1], iteration, pools)
      case None => None
      case Some(out) =>
        match JudgeName(names[|names| - 1], iteration, pools)
        case Keep(m) => Some(out + [m])
        case Drop => Some(out)
        case IndexError => None
  }

  /** Once a name raises, so does the whole directory. */
  lemma {:induction false} MetricsOfRaised(names: seq<string>, k: nat, iteration: Option<string>, pools: Option<seq<string>>)
    requires k <= |names| && MetricsOf(names[..k], iteration, pools) == None
    ensures MetricsOf(names, iteration, pools) == None
    decreases |names| - k
  {
    if k < |names| {
      assert names[..k + 1][..k] == names[..k];
      MetricsOfRaised(names, k + 1, iteration, pools);
    } else {
      assert names[..k] == names;
    }
  }

  /** The body of the loop of `all_metrics` for one name: split on dots
      and pop the suffix, the iteration and the pool from it. */
  method JudgeOne(name: string, iteration: Option<string>, pools: Option<seq<string>>)
    returns (v: NameVerdict)
    ensures v == JudgeName(name, iteration, pools)
  {
    var parts := Split(name, ".");
    var tmp := parts[|parts| - 1];
    parts := parts[..|parts| - 1];
    if tmp != "selected" {
      return Drop;
    }
    if parts == [] {
      return IndexError;
    }
    tmp := parts[0];
    parts := parts[1..];
    if iteration.Some? && tmp != iteration.value {
      return Drop;
    }
    if parts == [] {
      return IndexError;
    }
    tmp := parts[0];
    parts := parts[1..];
    if pools.Some? && tmp !in pools.value {
      return Drop;
    }
    v := Keep(Join(".", parts));
  }

  /** `all_metrics` over the names of the selection directory. */
  method AllMetrics(names: seq<string>, iteration: Option<string>, pools: Option<seq<string>>)
    returns (r: Option<seq<string>>)
    ensures r == MetricsOf(names, iteration, pools)
  {
    var out: seq<string> := [];
    var i := 0;
    while i < |names|
      invariant 0 <= i <= |names|
      invariant MetricsOf(names[..i], iteration, pools) == Some(out)
    {
      assert names[..i + 1][..i] == names[..i] && names[..i + 1][i] == names[i];
      var verdict := JudgeOne(names[i], iteration, pools);
      match verdict {
        case IndexError =>
          MetricsOfRaised(names, i + 1, iteration, pools);
          return None;
        case Drop =>
        case Keep(metric) =>
          out := out + [metric];
      }
      i := i + 1;
    }
    assert names[..i] == names;
    r := Some(out);
  }

  /** The position of the first `c` in `a`. */
  function FirstChar(a: string, c: char): (m: nat)
    requires c in a
    ensures m < |a| && a[m] == c && c !in a[..m]
  {
    if a[0] == c then 0
    else
      var m := 1 + FirstChar(a[1..], c);
      assert a[..m] == [a[0]] + a[1..][..m - 1];
      m
  }

  /** Splitting on a one-character separator that does not occur after
      the last piece puts that piece last. */
  lemma {:induction false} SplitLastChar(a: string, c: char, b: string)
    requires c !in b
    ensures Split(a + [c] + b, [c]) == Split(a, [c]) + [b]
    decreases |a|
  {
    if c in a {
      var i := FirstChar(a, c);
      var a1, a2 := a[..i], a[i + 1..];
      var t := a2 + [c] + b;
      CutAt(a, i, c, b);
      SplitFirstChar(a1, c, a2);
      SplitFirstChar(a1, c, t);
      SplitLastChar(a2, c, b);
      ConsSnoc(Split(a, [c]), Split(a + [c] + b, [c]), Split(a2, [c]), Split(t, [c]), a1, b);
    } else {
      SplitTwoPieces(a, c, b);
    }
  }

  lemma SplitTwoPieces(a: string, c: char, b: string)
    requires c !in a && c !in b
    ensures Split(a + [c] + b, [c]) == Split(a, [c]) + [b]
  {
    SplitFirstChar(a, c, b);
    SplitNoChar(a, c);
    SplitNoChar(b, c);
  }

  lemma ConsSnoc(whole: seq<string>, longer: seq<string>, rest: seq<string>, restLonger: seq<string>,
                 first: string, last: string)
    requires whole == [first] + rest && longer == [first] + restLonger && restLonger == rest + [last]
    ensures longer == whole + [last]
  {
  }

  lemma CutAt(a: string, i: nat, c: char, b: string)
    requires i < |a| && a[i] == c
    ensures a == a[..i] + [c] + a[i + 1..]
    ensures a + [c] + b == a[..i] + [c] + (a[i + 1..] + [c] + b)
  {
  }

  /** The name `get_selections` reads for a metric:
      `{iteration}.{pool}.{metric}.selected`. */
  function SelectionName(iteration: string, pool: string, metric: string): string
  {
    iteration + "." + (pool + "." + (metric + ".selected"))
  }

  /** A selection file name splits into the iteration, the pool, the
      pieces of the metric and "selected". */
  lemma SelectionNameSplits(iteration: string, pool: string, metric: string)
    requires '.' !in iteration && '.' !in pool
    ensures Split(SelectionName(iteration, pool, metric), ".") ==
      [iteration, pool] + Split(metric, ".") + ["selected"]
  {
    var tail := metric + ".selected";
    var mid := pool + "." + tail;
    assert "." == ['.'];
    SelectedTailSplits(metric);
    SplitFirstChar(pool, '.', tail);
    SplitFirstChar(iteration, '.', mid);
  }

  lemma SelectedTailSplits(metric: string)
    ensures Split(metric + ".selected", ".") == Split(metric, ".") + ["selected"]
  {
    var sel := "selected";
    assert '.' !in sel;
    assert metric + ".selected" == metric + ['.'] + sel;
    SplitLastChar(metric, '.', sel);
  }

  /** The name `get_selections` reads for a metric is judged back to that
      metric by `all_metrics`, for its own iteration and pool, when the
      iteration and the pool hold no dot. */
  lemma SelectionNameRoundTrip(iteration: string, pool: string, metric: string)
    requires '.' !in iteration && '.' !in pool
    ensures JudgeName(SelectionName(iteration, pool, metric), Some(iteration), Some([pool])) == Keep(metric)
  {
    SelectionNameSplits(iteration, pool, metric);
    var ms := Split(metric, ".");
    var parts := [iteration, pool] + ms + ["selected"];
    assert parts[..|parts| - 1] == [iteration, pool] + ms;
    assert ([iteration, pool] + ms)[2..] == ms;
    JoinSplit(metric, ".");
  }

  /** A name of another iteration is dropped. */
  lemma OtherIterationDropped(iteration: string, other: string, pool: string, metric: string)
    requires '.' !in iteration && '.' !in pool && iteration != other
    ensures JudgeName(SelectionName(iteration, pool, metric), Some(other), None) == Drop
  {
    SelectionNameSplits(iteration, pool, metric);
    var parts := [iteration, pool] + Split(metric, ".") + ["selected"];
    assert parts[..|parts| - 1][0] == iteration;
  }

  /** A name of just "selected" leaves nothing to pop the iteration from. */
  lemma BareSelectedRaises()
    ensures JudgeName("selected", None, None) == IndexError
  {
    assert '.' !in "selected";
    SplitNoChar("selected", '.');
  }

  // ---- output file names ----

  /** Python's formatting of an optional field: None prints as "None". */
  function Formatted(o: Option<string>): string
  {
    if o.Some? then o.value else "None"
  }

  /** The middle of a file name: the fields the template chooses. */
  function NameMiddle(kind: string, id: Option<string>, metric: Option<string>): string
  {
    if metric.None? then
      if id.None? then kind else id.value + "." + kind
    else Formatted(id) + "." + metric.value + "." + kind
  }

  /** `_make_filename`: prefix, middle, suffix. */
  function MakeFilename(prefix: string, suffix: string, kind: string,
                        id: Option<string>, metric: Option<string>): string
  {
    prefix + NameMiddle(kind, id, metric) + suffix
  }

  /** The dot-separated fields of a middle: the kind alone, the id and the
      kind, or the id, the metric and the kind. */
  function MiddleFields(kind: string, id: Option<string>, metric: Option<string>): seq<string>
  {
    if metric.None? then (if id.None? then [kind] else [id.value, kind])
    else [Formatted(id), metric.value, kind]
  }

  predicate DotFree(s: string)
  {
    '.' !in s
  }

  lemma MiddleSplits(kind: string, id: Option<string>, metric: Option<string>)
    requires DotFree(kind)
    requires id.Some? ==> DotFree(id.value)
    requires metric.Some? ==> DotFree(metric.value)
    ensures Split(NameMiddle(kind, id, metric), ".") == MiddleFields(kind, id, metric)
  {
    if metric.None? {
      if id.None? {
        SplitNoChar(kind, '.');
      } else {
        TwoFieldsSplit(id.value, kind);
      }
    } else {
      assert '.' !in "None";
      ThreeFieldsSplit(Formatted(id), metric.value, kind);
    }
  }

  lemma TwoFieldsSplit(a: string, b: string)
    requires DotFree(a) && DotFree(b)
    ensures Split(a + "." + b, ".") == [a, b]
  {
    assert a + "." + b == a + ['.'] + b;
    SplitFirstChar(a, '.', b);
    SplitNoChar(b, '.');
  }

  lemma ThreeFieldsSplit(a: string, b: string, c: string)
    requires DotFree(a) && DotFree(b) && DotFree(c)
    ensures Split(a + "." + b + "." + c, ".") == [a, b, c]
  {
    assert a + "." + b + "." + c == a + ['.'] + (b + "." + c);
    SplitFirstChar(a, '.', b + "." + c);
    TwoFieldsSplit(b, c);
  }

  /** With dot-free fields and no id spelled "None", different records
      get different file names, so no two of them share a file. */
  lemma MakeFilenameInjective(prefix: string, suffix: string,
                              k1: string, i1: Option<string>, m1: Option<string>,
                              k2: string, i2: Option<string>, m2: Option<string>)
    requires DotFree(k1) && (i1.Some? ==> DotFree(i1.value) && i1.value != "None") && (m1.Some? ==> DotFree(m1.value))
    requires DotFree(k2) && (i2.Some? ==> DotFree(i2.value) && i2.value != "None") && (m2.Some? ==> DotFree(m2.value))
    requires MakeFilename(prefix, suffix, k1, i1, m1) == MakeFilename(prefix, suffix, k2, i2, m2)
    ensures k1 == k2 && i1 == i2 && m1 == m2
  {
    var a := NameMiddle(k1, i1, m1);
    var b := NameMiddle(k2, i2, m2);
    var n := MakeFilename(prefix, suffix, k1, i1, m1);
    assert |a| == |b|;
    assert a == n[|prefix|..|prefix| + |a|];
    assert b == n[|prefix|..|prefix| + |b|];
    MiddleSplits(k1, i1, m1);
    MiddleSplits(k2, i2, m2);
    var f1 := MiddleFields(k1, i1, m1);
    var f2 := MiddleFields(k2, i2, m2);
    assert f1 == f2;
  }

  // ---- contexts ----

  /** A context found in the corpus: the words before the word, the word
      and the words after it. */
  datatype CorpusContext = CorpusContext(left: seq<string>, word: string, right: seq<string>)

  /** A context kept for the annotation server: the words around the word
      and the context's id. */
  datatype Kept = Kept(left: seq<string>, right: seq<string>, id: string)

  /** `_immediate`: the nearest word on each side, None at a line end. */
  function Immediate(c: CorpusContext): (Option<string>, Option<string>)
  {
    (if c.left == [] then None else Some(c.left[|c.left| - 1]),
     if c.right == [] then None else Some(c.right[0]))
  }

  /** The order two words can be in: not less is less-or-equal. */
  lemma NotLessSplits(a: string, b: string)
    requires !StrLess(a, b)
    ensures a == b || StrLess(b, a)
  {
    StrLessTotal(a, b);
  }

  /** Sorted by word: no later word is less than an earlier one. */
  predicate SortedByWord(s: seq<CorpusContext>)
  {
    forall i, j :: 0 <= i < j < |s| ==> !StrLess(s[j].word, s[i].word)
  }

  /** Inserting behind every context whose word is not greater, so that
      contexts with equal words keep their order. */
  function InsertByWord(x: CorpusContext, t: seq<CorpusContext>): (r: seq<CorpusContext>)
    ensures |r| == |t| + 1
    decreases |t|
  {
    if t == [] || !StrLess(x.word, t[|t| - 1].word) then t + [x]
    else InsertByWord(x, t[..|t| - 1]) + [t[|t| - 1]]
  }

  /** `sorted(contexts, key=lambda x: x.word)`: a stable sort on the word,
      written as an insertion sort (a stable sort has one result). */
  function SortByWord(s: seq<CorpusContext>): (r: seq<CorpusContext>)
    ensures |r| == |s|
  {
    if s == [] then [] else InsertByWord(s[|s| - 1], SortByWord(s[..|s| - 1]))
  }

  /** The contexts of one word, in order. */
  function WithWord(s: seq<CorpusContext>, w: string): seq<CorpusContext>
  {
    if s == [] then []
    else WithWord(s[..|s| - 1], w) + (if s[|s| - 1].word == w then [s[|s| - 1]] else [])
  }

  lemma {:induction false} InsertMembers(x: CorpusContext, t: seq<CorpusContext>)
    ensures forall e :: e in InsertByWord(x, t) <==> e == x || e in t
    decreases |t|
  {
    if t != [] && StrLess(x.word, t[|t| - 1].word) {
      InsertMembers(x, t[..|t| - 1]);
      assert t == t[..|t| - 1] + [t[|t| - 1]];
    }
  }

  /** Inserting keeps the contexts of each word in order, the new one
      last. */
  lemma {:induction false} InsertWithWord(x: CorpusContext, t: seq<CorpusContext>, w: string)
    ensures WithWord(InsertByWord(x, t), w) == WithWord(t, w) + (if x.word == w then [x] else [])
    decreases |t|
  {
    if t == [] || !StrLess(x.word, t[|t| - 1].word) {
      assert (t + [x])[..|t|] == t;
    } else {
      var init := t[..|t| - 1];
      var last := t[|t| - 1];
      InsertWithWord(x, init, w);
      StrLessIrreflexive(x.word);
      var r := InsertByWord(x, init) + [last];
      assert r[..|r| - 1] == InsertByWord(x, init);
    }
  }

  /** Sorting keeps the contexts of each word in their input order: the
      sort is stable. */
  lemma {:induction false} SortWithWord(s: seq<CorpusContext>, w: string)
    ensures WithWord(SortByWord(s), w) == WithWord(s, w)
  {
    if s != [] {
      SortWithWord(s[..|s| - 1], w);
      InsertWithWord(s[|s| - 1], SortByWord(s[..|s| - 1]), w);
    }
  }

  lemma {:induction false} InsertSorted(x: CorpusContext, t: seq<CorpusContext>)
    requires SortedByWord(t)
    ensures SortedByWord(InsertByWord(x, t))
    decreases |t|
  {
    if t == [] {
    } else if !StrLess(x.word, t[|t| - 1].word) {
      var last := t[|t| - 1];
      forall i | 0 <= i < |t| ensures !StrLess(x.word, t[i].word) {
        if i < |t| - 1 {
          NotLessSplits(x.word, last.word);
          if StrLess(x.word, t[i].word) {
            if StrLess(last.word, x.word) {
              StrLessTransitive(last.word, x.word, t[i].word);
            }
          }
        }
      }
      var r := t + [x];
      assert forall i :: 0 <= i < |t| ==> r[i] == t[i];
    } else {
      var init := t[..|t| - 1];
      var last := t[|t| - 1];
      InsertSorted(x, init);
      InsertMembers(x, init);
      var m := InsertByWord(x, init);
      forall e | e in m ensures !StrLess(last.word, e.word) {
        if e == x {
          if StrLess(last.word, x.word) {
            StrLessTransitive(x.word, last.word, x.word);
            StrLessIrreflexive(x.word);
          }
        } else {
          var k :| 0 <= k < |init| && init[k] == e;
          assert t[k] == e;
        }
      }
      var r := m + [last];
      forall i, j | 0 <= i < j < |r| ensures !StrLess(r[j].word, r[i].word) {
        if j < |m| {
          assert r[i] == m[i] && r[j] == m[j];
        } else {
          assert r[i] == m[i] && m[i] in m;
        }
      }
    }
  }

  lemma {:induction false} SortSorted(s: seq<CorpusContext>)
    ensures SortedByWord(SortByWord(s))
  {
    if s != [] {
      SortSorted(s[..|s| - 1]);
      InsertSorted(s[|s| - 1], SortByWord(s[..|s| - 1]));
    }
  }

  /** A run of contexts with the same word, as `itertools.groupby` yields
      it. */
  datatype Group = Group(word: string, members: seq<CorpusContext>)

  /** `itertools.groupby(contexts, lambda x: x.word)`: consecutive contexts
      with the same word form one group. */
  function GroupByWord(s: seq<CorpusContext>): (r: seq<Group>)
    ensures s == [] <==> r == []
  {
    if s == [] then []
    else
      var g := GroupByWord(s[..|s| - 1]);
      var x := s[|s| - 1];
      if g != [] && g[|g| - 1].word == x.word then
        g[..|g| - 1] + [Group(x.word, g[|g| - 1].members + [x])]
      else g + [Group(x.word, [x])]
  }

  /** The group words, pairwise distinct. */
  predicate GroupWordsDistinct(g: seq<Group>)
  {
    forall i, j :: 0 <= i < j < |g| ==> g[i].word != g[j].word
  }

  lemma {:induction false} WithWordMember(s: seq<CorpusContext>, w: string)
    requires WithWord(s, w) != []
    ensures exists k :: 0 <= k < |s| && s[k].word == w
  {
    var init := s[..|s| - 1];
    if s[|s| - 1].word != w {
      WithWordMember(init, w);
      var k :| 0 <= k < |init| && init[k].word == w;
      assert s[k] == init[k];
    }
  }

  lemma {:induction false} WithWordNone(s: seq<CorpusContext>, w: string)
    requires forall k :: 0 <= k < |s| ==> s[k].word != w
    ensures WithWord(s, w) == []
  {
    if s != [] {
      WithWordNone(s[..|s| - 1], w);
    }
  }

  /** `g` groups `s`: one group per word, holding all the contexts of that
      word in order, the last group being that of the last context. */
  ghost predicate GroupedBy(s: seq<CorpusContext>, g: seq<Group>)
  {
    GroupWordsDistinct(g) &&
    (forall i :: 0 <= i < |g| ==> g[i].members == WithWord(s, g[i].word) && g[i].members != []) &&
    (s != [] ==> g != [] && g[|g| - 1].word == s[|s| - 1].word)
  }

  /** Grouping a list sorted by word gives one group per word, holding all
      the contexts of that word in order; the last group is that of the
      last context. */
  lemma {:induction false} GroupsOfSorted(s: seq<CorpusContext>)
    requires SortedByWord(s)
    ensures GroupedBy(s, GroupByWord(s))
  {
    if s != [] {
      var init := s[..|s| - 1];
      var x := s[|s| - 1];
      assert s == init + [x];
      assert SortedByWord(init) by {
        forall i, j | 0 <= i < j < |init| ensures !StrLess(init[j].word, init[i].word) {
          assert init[i] == s[i] && init[j] == s[j];
        }
      }
      GroupsOfSorted(init);
      var g := GroupByWord(init);
      if g != [] && g[|g| - 1].word == x.word {
        GroupsJoin(init, x, g, GroupByWord(s));
      } else {
        NewWordUnseen(init, x, g);
        GroupsNew(init, x, g, GroupByWord(s));
      }
    }
  }

  /** The contexts of a word after one more context. */
  lemma WithWordSnoc(init: seq<CorpusContext>, x: CorpusContext, w: string)
    ensures WithWord(init + [x], w) == WithWord(init, w) + (if x.word == w then [x] else [])
  {
    assert (init + [x])[..|init|] == init;
  }

  /** A context with the word of the last group joins that group. */
  lemma GroupsJoin(init: seq<CorpusContext>, x: CorpusContext, g: seq<Group>, r: seq<Group>)
    requires GroupedBy(init, g) && g != [] && g[|g| - 1].word == x.word
    requires r == g[..|g| - 1] + [Group(x.word, g[|g| - 1].members + [x])]
    ensures GroupedBy(init + [x], r)
  {
    var s := init + [x];
    forall i | 0 <= i < |r| ensures r[i].members == WithWord(s, r[i].word) && r[i].members != [] {
      WithWordSnoc(init, x, r[i].word);
      if i < |g| - 1 {
        assert r[i] == g[i] && g[i].word != x.word;
      }
    }
  }

  /** In a sorted list, a context whose word differs from the last group's
      has a word no earlier context has. */
  lemma NewWordUnseen(init: seq<CorpusContext>, x: CorpusContext, g: seq<Group>)
    requires SortedByWord(init + [x]) && GroupedBy(init, g)
    requires !(g != [] && g[|g| - 1].word == x.word)
    ensures WithWord(init, x.word) == []
  {
    if WithWord(init, x.word) != [] {
      var s := init + [x];
      WithWordMember(init, x.word);
      var k :| 0 <= k < |init| && init[k].word == x.word;
      var l := init[|init| - 1];
      assert s[k] == init[k] && s[|init| - 1] == l && s[|init|] == x;
      NotLessSplits(x.word, l.word);
      assert false;
    }
  }

  /** A context whose word no earlier context has opens a new group. */
  lemma GroupsNew(init: seq<CorpusContext>, x: CorpusContext, g: seq<Group>, r: seq<Group>)
    requires GroupedBy(init, g) && WithWord(init, x.word) == []
    requires r == g + [Group(x.word, [x])]
    ensures GroupedBy(init + [x], r)
  {
    var s := init + [x];
    forall i | 0 <= i < |r| ensures r[i].members == WithWord(s, r[i].word) && r[i].members != [] {
      WithWordSnoc(init, x, r[i].word);
      if i < |g| {
        assert r[i] == g[i] && g[i].word != x.word;
      }
    }
  }

  /** Some group has word `w`. */
  predicate HasGroup(g: seq<Group>, w: string)
  {
    exists i :: 0 <= i < |g| && g[i].word == w
  }

  /** Every context's word is the word of some group. */
  lemma {:induction false} GroupsCover(s: seq<CorpusContext>)
    ensures forall k :: 0 <= k < |s| ==> HasGroup(GroupByWord(s), s[k].word)
  {
    if s != [] {
      var init := s[..|s| - 1];
      GroupsCover(init);
      var g := GroupByWord(init);
      var r := GroupByWord(s);
      forall k | 0 <= k < |s| ensures HasGroup(r, s[k].word) {
        if k == |s| - 1 {
          assert r[|r| - 1].word == s[k].word;
        } else {
          assert s[k] == init[k];
          assert HasGroup(g, init[k].word);
          var i :| 0 <= i < |g| && g[i].word == init[k].word;
          assert r[i].word == g[i].word;
        }
      }
    }
  }

  /** The kept form of contexts, each id given by `idOf` (an md5 digest of
      the context's text in the program). */
  function KeptOf(s: seq<CorpusContext>, idOf: CorpusContext -> string): (r: seq<Kept>)
    ensures |r| == |s|
  {
    if s == [] then []
    else
      var c := s[|s| - 1];
      KeptOf(s[..|s| - 1], idOf) + [Kept(c.left, c.right, idOf(c))]
  }

  lemma KeptOfSnoc(s: seq<CorpusContext>, c: CorpusContext, idOf: CorpusContext -> string)
    ensures KeptOf(s + [c], idOf) == KeptOf(s, idOf) + [Kept(c.left, c.right, idOf(c))]
  {
    assert (s + [c])[..|s|] == s;
  }

  /** What `_remove_redundant` stores for word `w`: from each group of `w`,
      in order, the first context of each pair of immediate neighbours. */
  function Collected(groups: seq<Group>, w: string, idOf: CorpusContext -> string): seq<Kept>
  {
    if groups == [] then []
    else
      var last := groups[|groups| - 1];
      Collected(groups[..|groups| - 1], w, idOf) +
      (if last.word == w then KeptOf(DedupBy(last.members, Immediate), idOf) else [])
  }

  /** The list stored under a key of a defaultdict(list). */
  function Stored(m: map<string, seq<Kept>>, w: string): seq<Kept>
  {
    if w in m then m[w] else []
  }

  /** A defaultdict filled only by appending holds no empty list. */
  predicate NoEmptyLists(m: map<string, seq<Kept>>)
  {
    forall w :: w in m ==> m[w] != []
  }

  /** One more context for the first-per-neighbours selection. */
  lemma DedupStep(m: seq<CorpusContext>, j: int)
    requires 0 <= j < |m|
    ensures KeySet(m[..j + 1], Immediate) == KeySet(m[..j], Immediate) + {Immediate(m[j])}
    ensures DedupBy(m[..j + 1], Immediate) ==
      if Immediate(m[j]) in KeySet(m[..j], Immediate) then DedupBy(m[..j], Immediate)
      else DedupBy(m[..j], Immediate) + [m[j]]
  {
    assert m[..j + 1] == m[..j] + [m[j]];
    assert m[..j + 1][..j] == m[..j];
    KeySetAppend(m[..j], m[j], Immediate);
  }

  /** One step of the inner loop of `_remove_redundant`: a context whose
      pair of immediate neighbours was seen adds nothing, any other is
      kept. */
  lemma KeepStep(m: seq<CorpusContext>, j: int, seen: set<(Option<string>, Option<string>)>,
                 kept: seq<Kept>, idOf: CorpusContext -> string)
    requires 0 <= j < |m|
    requires seen == KeySet(m[..j], Immediate)
    requires kept == KeptOf(DedupBy(m[..j], Immediate), idOf)
    ensures Immediate(m[j]) in seen ==>
      seen == KeySet(m[..j + 1], Immediate) &&
      kept == KeptOf(DedupBy(m[..j + 1], Immediate), idOf)
    ensures Immediate(m[j]) !in seen ==>
      seen + {Immediate(m[j])} == KeySet(m[..j + 1], Immediate) &&
      kept + [Kept(m[j].left, m[j].right, idOf(m[j]))] == KeptOf(DedupBy(m[..j + 1], Immediate), idOf)
  {
    DedupStep(m, j);
    KeptOfSnoc(DedupBy(m[..j], Immediate), m[j], idOf);
  }

  /** A defaultdict(list) after appending `xs` to the list under `w`. */
  function Put(m: map<string, seq<Kept>>, w: string, xs: seq<Kept>): map<string, seq<Kept>>
  {
    if xs == [] then m else m[w := Stored(m, w) + xs]
  }

  /** `d[w].append(k)` extends what was put under `w` by `k`. */
  lemma PutSnoc(m: map<string, seq<Kept>>, w: string, xs: seq<Kept>, k: Kept)
    ensures var p := Put(m, w, xs); p[w := Stored(p, w) + [k]] == Put(m, w, xs + [k])
  {
    var p := Put(m, w, xs);
    assert Stored(p, w) + [k] == Stored(m, w) + (xs + [k]);
  }

  lemma PutFacts(m: map<string, seq<Kept>>, w: string, xs: seq<Kept>)
    requires NoEmptyLists(m)
    ensures NoEmptyLists(Put(m, w, xs))
    ensures Stored(Put(m, w, xs), w) == Stored(m, w) + xs
    ensures forall v :: v != w ==> Stored(Put(m, w, xs), v) == Stored(m, v)
  {
  }

  /** The inner loop of `_remove_redundant` over one group: appends the
      first context of each new pair of immediate neighbours. */
  method KeepGroup(out0: map<string, seq<Kept>>, g: Group, idOf: CorpusContext -> string)
    returns (out: map<string, seq<Kept>>)
    requires NoEmptyLists(out0)
    ensures NoEmptyLists(out)
    ensures Stored(out, g.word) == Stored(out0, g.word) + KeptOf(DedupBy(g.members, Immediate), idOf)
    ensures forall w :: w != g.word ==> Stored(out, w) == Stored(out0, w)
  {
    out := out0;
    var seen: set<(Option<string>, Option<string>)> := {};
    ghost var kept: seq<Kept> := [];
    var j := 0;
    while j < |g.members|
      invariant 0 <= j <= |g.members|
      invariant seen == KeySet(g.members[..j], Immediate)
      invariant kept == KeptOf(DedupBy(g.members[..j], Immediate), idOf)
      invariant out == Put(out0, g.word, kept)
    {
      var c := g.members[j];
      var imm := Immediate(c);
      KeepStep(g.members, j, seen, kept, idOf);
      if imm !in seen {
        seen := seen + {imm};
        var k := Kept(c.left, c.right, idOf(c));
        PutSnoc(out0, g.word, kept, k);
        out := out[g.word := Stored(out, g.word) + [k]];
        kept := kept + [k];
      }
      j := j + 1;
    }
    assert g.members[..j] == g.members;
    PutFacts(out0, g.word, kept);
  }

  /** `_remove_redundant`: for every group, the first context of each pair
      of immediate neighbours, stored under the group's word. */
  method RemoveRedundant(groups: seq<Group>, idOf: CorpusContext -> string)
    returns (out: map<string, seq<Kept>>)
    ensures NoEmptyLists(out)
    ensures forall w :: Stored(out, w) == Collected(groups, w, idOf)
  {
    out := map[];
    var i := 0;
    while i < |groups|
      invariant 0 <= i <= |groups|
      invariant NoEmptyLists(out)
      invariant forall w :: Stored(out, w) == Collected(groups[..i], w, idOf)
    {
      assert groups[..i + 1][..i] == groups[..i];
      out := KeepGroup(out, groups[i], idOf);
      i := i + 1;
    }
    assert groups[..i] == groups;
  }

  lemma {:induction false} CollectedAt(groups: seq<Group>, i: int, idOf: CorpusContext -> string)
    requires GroupWordsDistinct(groups) && 0 <= i < |groups|
    ensures Collected(groups, groups[i].word, idOf) == KeptOf(DedupBy(groups[i].members, Immediate), idOf)
  {
    var init := groups[..|groups| - 1];
    if i < |groups| - 1 {
      assert init[i] == groups[i];
      CollectedAt(init, i, idOf);
    } else {
      CollectedNone(init, groups[i].word, idOf);
    }
  }

  lemma {:induction false} CollectedNone(groups: seq<Group>, w: string, idOf: CorpusContext -> string)
    requires forall i :: 0 <= i < |groups| ==> groups[i].word != w
    ensures Collected(groups, w, idOf) == []
  {
    if groups != [] {
      CollectedNone(groups[..|groups| - 1], w, idOf);
    }
  }

  /** Sorting, grouping and `_remove_redundant` together keep, for each
      word, the first of its contexts with each pair of immediate
      neighbours, in corpus order. */
  lemma GroupedContexts(cs: seq<CorpusContext>, w: string, idOf: CorpusContext -> string)
    ensures Collected(GroupByWord(SortByWord(cs)), w, idOf) ==
            KeptOf(DedupBy(WithWord(cs, w), Immediate), idOf)
  {
    var s := SortByWord(cs);
    SortSorted(cs);
    SortWithWord(cs, w);
    GroupsOfSorted(s);
    var g := GroupByWord(s);
    if i :| 0 <= i < |g| && g[i].word == w {
      CollectedAt(g, i, idOf);
    } else {
      CollectedNone(g, w, idOf);
      GroupsCover(s);
      forall k | 0 <= k < |s| ensures s[k].word != w {
        assert HasGroup(g, s[k].word);
      }
      WithWordNone(s, w);
    }
  }

  /** `get_contexts` from the contexts found in the corpus: every word with
      a context gets the first of its contexts with each pair of immediate
      neighbours, in corpus order; no other word gets an entry. */
  method GetContexts(cs: seq<CorpusContext>, idOf: CorpusContext -> string)
    returns (out: map<string, seq<Kept>>)
    ensures forall w :: w in out <==> WithWord(cs, w) != []
    ensures forall w :: w in out ==> out[w] == KeptOf(DedupBy(WithWord(cs, w), Immediate), idOf)
  {
    var sorted := SortByWord(cs);
    var groups := GroupByWord(sorted);
    out := RemoveRedundant(groups, idOf);
    forall w ensures Stored(out, w) == KeptOf(DedupBy(WithWord(cs, w), Immediate), idOf) {
      GroupedContexts(cs, w, idOf);
    }
    forall w ensures w in out <==> WithWord(cs, w) != [] {
      DedupByFacts(WithWord(cs, w), Immediate);
      if WithWord(cs, w) != [] {
        assert Immediate(WithWord(cs, w)[0]) in KeySet(WithWord(cs, w), Immediate);
      }
    }
  }
}
