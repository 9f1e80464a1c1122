// The annotation server's logic without the web layer: turning the vector
// the browser sends back into morphs, building the vector and the
// truncated contexts it shows for a word, reading a word list against the
// words already annotated, and the per-annotator bookkeeping of what has
// been annotated in this iteration.
module AnnotationUi {
  import opened SeqUtil
  import opened Strings
  import opened Segmentation

  // ---- boundaries_to_seg ----

  /** `boundaries_to_seg(word, boundaries)`: the letters zipped with the
      vector and a final true, a morph closed at every true flag. */
  method BoundariesToSeg(word: string, boundaries: seq<bool>) returns (out: seq<string>)
    ensures out == Segments(word, boundaries)
  {
    var flags := boundaries + [true];
    var n := ZipLen(word, boundaries);
    out := [];
    var cur: string := [];
    var k := 0;
    while k < n
      invariant 0 <= k <= n
      invariant SegState(out, cur) == StateAfter(word, boundaries, k)
    {
      cur := cur + [word[k]];
      if flags[k] {
        out := out + [cur];
        cur := [];
      }
      k := k + 1;
    }
  }

  // ---- the boundary vector shown by get_word ----

  /** `segmentations.get(word, [word])`. */
  function StoredSegmentation(segmentations: map<string, seq<string>>, word: string): seq<string>
  {
    if word in segmentations then segmentations[word] else [word]
  }

  /** The vector `get_word` sends, or None where it fails: popping from an
      empty list when the stored segmentation is empty, or the assertion
      that the vector has one flag per gap between the letters. */
  function ShownBoundaries(segmentations: map<string, seq<string>>, word: string): Option<seq<bool>>
  {
    var seg := StoredSegmentation(segmentations, word);
    if seg != [] && |BoundaryVector(seg)| == |word| - 1 then Some(BoundaryVector(seg)) else None
  }

  /** The vector-building loop of `get_word`. */
  method WordBoundaries(segmentations: map<string, seq<string>>, word: string) returns (r: Option<seq<bool>>)
    ensures r == ShownBoundaries(segmentations, word)
  {
    var seg := if word in segmentations then segmentations[word] else [word];
    var boundaries: seq<bool> := [];
    var i := 0;
    while i < |seg|
      invariant 0 <= i <= |seg|
      invariant boundaries == Marks(seg[..i])
    {
      var morph := seg[i];
      assert seg[..i + 1] == seg[..i] + [morph];
      MarksAppend(seg[..i], morph);
      boundaries := boundaries + Falses(if |morph| > 0 then |morph| - 1 else 0);
      boundaries := boundaries + [true];
      i := i + 1;
    }
    assert seg[..i] == seg;
    assert seg == StoredSegmentation(segmentations, word);
    if boundaries == [] {
      // `pop` from an empty list
      return None;
    }
    boundaries := boundaries[..|boundaries| - 1];
    assert boundaries == BoundaryVector(seg);
    if |boundaries| != |word| - 1 {
      // the assertion fails
      return None;
    }
    r := Some(boundaries);
  }

  /** A word without a stored segmentation is shown unsegmented. */
  lemma DefaultBoundaries(segmentations: map<string, seq<string>>, word: string)
    requires word !in segmentations && word != []
    ensures ShownBoundaries(segmentations, word) == Some(Falses(|word| - 1))
  {
    assert Marks([word]) == MorphMarks(word) + Marks([]);
    assert Marks([word]) == Falses(|word| - 1) + [true];
  }

  /** The empty word fails the assertion: its default segmentation yields
      no flag where -1 are expected. */
  lemma EmptyWordRejected(segmentations: map<string, seq<string>>)
    requires [] !in segmentations
    ensures ShownBoundaries(segmentations, []) == None
  {
    assert Marks([[]]) == MorphMarks([]) + Marks([]);
  }

  /** A stored segmentation that spells the word in non-empty morphs passes
      the assertion, and the browser's vector decodes back to it. */
  lemma StoredBoundariesRoundTrip(segmentations: map<string, seq<string>>, word: string)
    requires word in segmentations
    requires segmentations[word] != [] && NonEmptyMorphs(segmentations[word])
    requires Flatten(segmentations[word]) == word
    ensures ShownBoundaries(segmentations, word).Some?
    ensures Segments(word, ShownBoundaries(segmentations, word).value) == segmentations[word]
  {
    BoundaryVectorShape(segmentations[word]);
    SegmentsOfBoundaryVector(segmentations[word]);
  }

  // ---- context truncation in get_word ----

  /** A context of a word: the words to its left and right, and its id. */
  datatype Context = Context(left: seq<string>, right: seq<string>, id: string)

  /** A context as shown: the two truncated texts and the id. */
  datatype Shown = Shown(left: string, right: string, id: string)

  /** The left loop refuses the word before `left[k..]`: the kept text and
      that word together are longer than the budget (the space that would
      join them is not counted). */
  predicate LeftExceeds(left: seq<string>, width: int, k: nat)
    requires 0 < k < |left|
  {
    |Join(" ", left[k..])| + |left[k - 1]| > width
  }

  /** Where the left loop stops when it has kept `left[k..]`. */
  function LeftStart(left: seq<string>, width: int, k: nat): (s: nat)
    requires k < |left|
    ensures s <= k
    decreases k
  {
    if k == 0 then 0
    else if LeftExceeds(left, width, k) then k
    else LeftStart(left, width, k - 1)
  }

  /** The left text shown: the kept words joined by spaces, with `...` in
      front when words were dropped. */
  function LeftText(left: seq<string>, width: int): string
  {
    if left == [] then []
    else
      var s := LeftStart(left, width, |left| - 1);
      (if s > 0 then "..." else []) + Join(" ", left[s..])
  }

  /** The right loop refuses `right[k]` after keeping `right[..k]`. */
  predicate RightExceeds(right: seq<string>, width: int, k: nat)
    requires 0 < k < |right|
  {
    |Join(" ", right[..k])| + |right[k]| > width
  }

  /** Where the right loop stops when it has kept `right[..k]`. */
  function RightEnd(right: seq<string>, width: int, k: nat): (e: nat)
    requires 0 < k <= |right|
    ensures k <= e <= |right|
    decreases |right| - k
  {
    if k == |right| then k
    else if RightExceeds(right, width, k) then k
    else RightEnd(right, width, k + 1)
  }

  /** The right text shown: the kept words joined by spaces, with `...`
      after them when words were dropped. */
  function RightText(right: seq<string>, width: int): string
  {
    if right == [] then []
    else
      var e := RightEnd(right, width, 1);
      Join(" ", right[..e]) + (if e < |right| then "..." else [])
  }

  /** The left truncation loop of `get_word`. */
  method TruncateLeft(left: seq<string>, width: int) returns (tleft: string)
    ensures tleft == LeftText(left, width)
  {
    if |left| == 0 {
      return [];
    }
    var rest := left[..|left| - 1];
    tleft := left[|left| - 1];
    assert left[|left| - 1..] == [tleft];
    while |rest| > 0
      invariant |rest| < |left| && rest == left[..|rest|]
      invariant tleft == Join(" ", left[|rest|..])
      invariant LeftStart(left, width, |left| - 1) == LeftStart(left, width, |rest|)
    {
      var k := |rest|;
      if |tleft| + |rest[k - 1]| > width {
        tleft := "..." + tleft;
        return;
      }
      assert left[k - 1..] == [left[k - 1]] + left[k..];
      JoinCons(" ", left[k - 1], left[k..]);
      tleft := rest[k - 1] + " " + tleft;
      rest := rest[..k - 1];
    }
  }

  /** The right truncation loop of `get_word`. */
  method TruncateRight(right: seq<string>, width: int) returns (tright: string)
    ensures tright == RightText(right, width)
  {
    if |right| == 0 {
      return [];
    }
    tright := right[0];
    assert right[..1] == [tright];
    var k := 1;
    while k < |right|
      invariant 0 < k <= |right|
      invariant tright == Join(" ", right[..k])
      invariant RightEnd(right, width, 1) == RightEnd(right, width, k)
    {
      if |tright| + |right[k]| > width {
        tright := tright + "...";
        return;
      }
      assert right[..k + 1] == right[..k] + [right[k]];
      JoinSnoc(" ", right[..k], right[k]);
      tright := tright + " " + right[k];
      k := k + 1;
    }
  }

  /** The stop index of the left loop is the last refused position, or 0
      when every word fits: every word between it and the nearest word was
      accepted. */
  lemma {:induction false} LeftStartFacts(left: seq<string>, width: int, k: nat)
    requires k < |left|
    ensures var s := LeftStart(left, width, k);
      (0 < s ==> LeftExceeds(left, width, s)) &&
      (forall j :: s < j <= k ==> !LeftExceeds(left, width, j))
    decreases k
  {
    if k > 0 && !LeftExceeds(left, width, k) {
      LeftStartFacts(left, width, k - 1);
    }
  }

  /** The stop index of the right loop is the first refused position, or
      the end when every word fits. */
  lemma {:induction false} RightEndFacts(right: seq<string>, width: int, k: nat)
    requires 0 < k <= |right|
    ensures var e := RightEnd(right, width, k);
      (e < |right| ==> RightExceeds(right, width, e)) &&
      (forall j :: k <= j < e ==> !RightExceeds(right, width, j))
    decreases |right| - k
  {
    if k < |right| && !RightExceeds(right, width, k) {
      RightEndFacts(right, width, k + 1);
    }
  }

  /** The left text is a suffix of the left words that always holds the
      nearest word, prefixed by `...` exactly when a word was refused; once
      more than one word is kept, the kept text can overrun the budget by
      one character, the uncounted joining space. */
  lemma LeftTextFacts(left: seq<string>, width: int)
    requires left != []
    ensures var s := LeftStart(left, width, |left| - 1);
      s < |left| &&
      LeftText(left, width) == (if 0 < s then "..." else []) + Join(" ", left[s..]) &&
      (0 < s ==> LeftExceeds(left, width, s)) &&
      (forall j :: s < j < |left| ==> !LeftExceeds(left, width, j)) &&
      (s < |left| - 1 ==> |Join(" ", left[s..])| <= width + 1)
  {
    var s := LeftStart(left, width, |left| - 1);
    LeftStartFacts(left, width, |left| - 1);
    if s < |left| - 1 {
      assert !LeftExceeds(left, width, s + 1);
      assert left[s..] == [left[s]] + left[s + 1..];
      JoinCons(" ", left[s], left[s + 1..]);
    }
  }

  /** The right text is a prefix of the right words that always holds the
      nearest word, followed by `...` exactly when a word was refused; once
      more than one word is kept, it can overrun the budget by one
      character. */
  lemma RightTextFacts(right: seq<string>, width: int)
    requires right != []
    ensures var e := RightEnd(right, width, 1);
      0 < e &&
      RightText(right, width) == Join(" ", right[..e]) + (if e < |right| then "..." else []) &&
      (e < |right| ==> RightExceeds(right, width, e)) &&
      (forall j :: 0 < j < e ==> !RightExceeds(right, width, j)) &&
      (1 < e ==> |Join(" ", right[..e])| <= width + 1)
  {
    var e := RightEnd(right, width, 1);
    RightEndFacts(right, width, 1);
    if 1 < e {
      assert !RightExceeds(right, width, e - 1);
      assert right[..e] == right[..e - 1] + [right[e - 1]];
      JoinSnoc(" ", right[..e - 1], right[e - 1]);
    }
  }

  /** Two two-letter words within a budget of four are both shown, as five
      characters. */
  lemma LeftOverrunExample()
    ensures LeftText(["ab", "cd"], 4) == "ab cd"
  {
    var left := ["ab", "cd"];
    assert left[1..] == ["cd"];
    assert !LeftExceeds(left, 4, 1);
    assert LeftStart(left, 4, 1) == 0;
    assert left[0..] == left;
    JoinCons(" ", "ab", ["cd"]);
  }

  /** The third word does not fit after "ab cd" within six characters. */
  lemma RightDropExample()
    ensures RightText(["ab", "cd", "ef"], 6) == "ab cd..."
  {
    var right := ["ab", "cd", "ef"];
    assert right[..1] == ["ab"];
    assert !RightExceeds(right, 6, 1);
    assert right[..2] == ["ab"] + ["cd"];
    JoinCons(" ", "ab", ["cd"]);
    assert RightExceeds(right, 6, 2);
    assert RightEnd(right, 6, 1) == 2;
  }

  /** `contexts_by_word.get(word, [[('',), ('',), '0']])`. */
  function ContextsOf(byWord: map<string, seq<Context>>, word: string): seq<Context>
  {
    if word in byWord then byWord[word] else [Context([[]], [[]], "0")]
  }

  /** One shown context per context, in order. */
  method TruncateContexts(cs: seq<Context>, width: int) returns (shown: seq<Shown>)
    ensures |shown| == |cs|
    ensures forall i :: 0 <= i < |cs| ==>
      shown[i] == Shown(LeftText(cs[i].left, width), RightText(cs[i].right, width), cs[i].id)
  {
    shown := [];
    var i := 0;
    while i < |cs|
      invariant 0 <= i <= |cs| && |shown| == i
      invariant forall j :: 0 <= j < i ==>
        shown[j] == Shown(LeftText(cs[j].left, width), RightText(cs[j].right, width), cs[j].id)
    {
      var tleft := TruncateLeft(cs[i].left, width);
      var tright := TruncateRight(cs[i].right, width);
      shown := shown + [Shown(tleft, tright, cs[i].id)];
      i := i + 1;
    }
  }

  /** A word with no recorded context is shown with one empty context whose
      id is "0". */
  lemma MissingWordContext(byWord: map<string, seq<Context>>, word: string, width: int)
    requires word !in byWord
    ensures |ContextsOf(byWord, word)| == 1
    ensures var c := ContextsOf(byWord, word)[0];
      Shown(LeftText(c.left, width), RightText(c.right, width), c.id) == Shown([], [], "0")
  {
    var e: seq<string> := [[]];
    assert e[0..] == e;
    assert e[..1] == e;
  }

  /** What `get_word` returns. */
  datatype WordView = WordView(word: string, boundaries: seq<bool>, contexts: seq<Shown>)

  /** `get_word` for an annotator whose context width is `width`; None when
      the vector assertion fails. */
  method GetWord(segmentations: map<string, seq<string>>, byWord: map<string, seq<Context>>,
                 word: string, width: int) returns (r: Option<WordView>)
    ensures r.Some? <==> ShownBoundaries(segmentations, word).Some?
    ensures r.Some? ==>
      r.value.word == word &&
      r.value.boundaries == ShownBoundaries(segmentations, word).value &&
      |r.value.contexts| == |ContextsOf(byWord, word)| &&
      forall i :: 0 <= i < |r.value.contexts| ==>
        var c := ContextsOf(byWord, word)[i];
        r.value.contexts[i] == Shown(LeftText(c.left, width), RightText(c.right, width), c.id)
  {
    var boundaries := WordBoundaries(segmentations, word);
    if boundaries.None? {
      return None;
    }
    var cs := if word in byWord then byWord[word] else [Context([[]], [[]], "0")];
    var shown := TruncateContexts(cs, width);
    r := Some(WordView(word, boundaries.value, shown));
  }

  // ---- read_words ----

  /** What a line of a word list does: nothing (blank, comment, or a word
      annotated in an earlier iteration), lower the budget (a word
      annotated in this iteration), or add a word with its fields. */
  datatype LineKind = Skip | Resumed | Fresh(word: string, parts: seq<string>)

  function Classify(raw: string, seenEarlier: set<string>, seenNow: set<string>): LineKind
  {
    var line := Strip(raw);
    if line == [] || line[0] == '#' then Skip
    else
      var parts := Split(line, "\t");
      if parts[0] in seenEarlier then Skip
      else if parts[0] in seenNow then Resumed
      else Fresh(parts[0], parts)
  }

  /** The variables of `read_words`, and whether it has left the loop. */
  datatype ReadState = ReadState(words: seq<string>, truncate: int,
                                 segmentations: map<string, seq<string>>, stopped: bool)

  /** The stop test: as written, `len(words) == truncate` right after a word
      is added; as intended, a limited budget that is used up, tested also
      after the budget is lowered. */
  datatype StopRule = AsWritten | Intended(limited: bool)

  /** Adding a word, and its segmentation when the line has a second
      field. */
  function AddWord(st: ReadState, word: string, parts: seq<string>): ReadState
  {
    var segs := if |parts| >= 2 then st.segmentations[word := Split(parts[1], " + ")] else st.segmentations;
    st.(words := st.words + [word], segmentations := segs)
  }

  function ReadStep(rule: StopRule, st: ReadState, raw: string,
                    seenEarlier: set<string>, seenNow: set<string>): ReadState
  {
    if st.stopped then st
    else match Classify(raw, seenEarlier, seenNow)
      case Skip => st
      case Resumed =>
        var t := st.(truncate := st.truncate - 1);
        if rule.AsWritten? then t else t.(stopped := rule.limited && |t.words| >= t.truncate)
      case Fresh(word, parts) =>
        var t := AddWord(st, word, parts);
        t.(stopped := if rule.AsWritten? then |t.words| == t.truncate
                      else rule.limited && |t.words| >= t.truncate)
  }

  /** The state after reading all the lines from `st`. */
  function ReadAll(rule: StopRule, st: ReadState, lines: seq<string>,
                   seenEarlier: set<string>, seenNow: set<string>): ReadState
    decreases |lines|
  {
    if lines == [] then st
    else ReadAll(rule, ReadStep(rule, st, lines[0], seenEarlier, seenNow), lines[1..], seenEarlier, seenNow)
  }

  /** The words `read_words` would collect with no budget: the first field
      of every non-blank, non-comment line whose word is in neither set. */
  function Eligible(lines: seq<string>, seenEarlier: set<string>, seenNow: set<string>): seq<string>
    decreases |lines|
  {
    if lines == [] then []
    else EligibleOne(lines[0], seenEarlier, seenNow) + Eligible(lines[1..], seenEarlier, seenNow)
  }

  /** The word a line adds when there is no budget, if any. */
  function EligibleOne(raw: string, seenEarlier: set<string>, seenNow: set<string>): seq<string>
  {
    match Classify(raw, seenEarlier, seenNow)
    case Fresh(word, _) => [word]
    case _ => []
  }

  /** One line read with a negative budget adds its eligible word and
      keeps reading. */
  lemma UnlimitedStep(st: ReadState, raw: string, seenEarlier: set<string>, seenNow: set<string>)
    requires st.truncate < 0 && !st.stopped
    ensures var next := ReadStep(AsWritten, st, raw, seenEarlier, seenNow);
      !next.stopped && next.truncate < 0 && next.words == st.words + EligibleOne(raw, seenEarlier, seenNow)
  {
    var kind := Classify(raw, seenEarlier, seenNow);
    if kind.Fresh? {
      assert |AddWord(st, kind.word, kind.parts).words| > 0;
    }
  }

  lemma {:induction false} ReadAllStopped(rule: StopRule, st: ReadState, lines: seq<string>,
                                          seenEarlier: set<string>, seenNow: set<string>)
    requires st.stopped
    ensures ReadAll(rule, st, lines, seenEarlier, seenNow) == st
    decreases |lines|
  {
    if lines != [] {
      ReadAllStopped(rule, st, lines[1..], seenEarlier, seenNow);
    }
  }

  /** One pass of the loop of `read_words`: the line is skipped, lowers
      the budget, or adds its word; `stop` is the `break`. */
  method ReadLine(raw: string, seenEarlier: set<string>, seenNow: set<string>,
                  words: seq<string>, t: int, segs: map<string, seq<string>>)
    returns (words': seq<string>, t': int, segs': map<string, seq<string>>, stop: bool)
    ensures ReadStep(AsWritten, ReadState(words, t, segs, false), raw, seenEarlier, seenNow)
      == ReadState(words', t', segs', stop)
  {
    words', t', segs', stop := words, t, segs, false;
    var line := Strip(raw);
    if |line| == 0 || line[0] == '#' {
      return;
    }
    var parts := Split(line, "\t");
    var word := parts[0];
    if word in seenEarlier {
      return;
    }
    if word in seenNow {
      t' := t - 1;
      return;
    }
    words' := words + [word];
    if |parts| >= 2 {
      segs' := segs[word := Split(parts[1], " + ")];
    }
    stop := |words'| == t;
  }

  /** Reading lines is reading the first and then the rest. */
  lemma ReadAllCons(rule: StopRule, st: ReadState, lines: seq<string>, i: nat,
                    seenEarlier: set<string>, seenNow: set<string>)
    requires i < |lines|
    ensures ReadAll(rule, st, lines[i..], seenEarlier, seenNow) ==
      ReadAll(rule, ReadStep(rule, st, lines[i], seenEarlier, seenNow), lines[i + 1..], seenEarlier, seenNow)
  {
    assert lines[i..][0] == lines[i] && lines[i..][1..] == lines[i + 1..];
  }

  /** `read_words` over the lines of the list; the segmentations of the
      added words are stored in the returned map. */
  method ReadWords(lines: seq<string>, seenEarlier: set<string>, seenNow: set<string>,
                   segmentations: map<string, seq<string>>, truncate: int)
    returns (words: seq<string>, segs: map<string, seq<string>>)
    ensures var r := ReadAll(AsWritten, ReadState([], truncate, segmentations, false), lines, seenEarlier, seenNow);
      words == r.words && segs == r.segmentations
  {
    ghost var final := ReadAll(AsWritten, ReadState([], truncate, segmentations, false), lines, seenEarlier, seenNow);
    words := [];
    segs := segmentations;
    var t := truncate;
    var i := 0;
    while i < |lines|
      invariant 0 <= i <= |lines|
      invariant ReadAll(AsWritten, ReadState(words, t, segs, false), lines[i..], seenEarlier, seenNow) == final
    {
      ReadAllCons(AsWritten, ReadState(words, t, segs, false), lines, i, seenEarlier, seenNow);
      var stop;
      words, t, segs, stop := ReadLine(lines[i], seenEarlier, seenNow, words, t, segs);
      i := i + 1;
      if stop {
        ReadAllStopped(AsWritten, ReadState(words, t, segs, true), lines[i..], seenEarlier, seenNow);
        return;
      }
    }
  }

  /** No word collected was annotated before, in this iteration or an
      earlier one. */
  lemma {:induction false} ReadWordsUnseen(rule: StopRule, st: ReadState, lines: seq<string>,
                                           seenEarlier: set<string>, seenNow: set<string>)
    requires forall w :: w in st.words ==> w !in seenEarlier && w !in seenNow
    ensures var r := ReadAll(rule, st, lines, seenEarlier, seenNow);
      forall w :: w in r.words ==> w !in seenEarlier && w !in seenNow
    decreases |lines|
  {
    if lines != [] {
      ReadWordsUnseen(rule, ReadStep(rule, st, lines[0], seenEarlier, seenNow), lines[1..], seenEarlier, seenNow);
    }
  }

  /** With a negative budget the loop never stops: the default of -1 means
      every eligible word is collected. */
  lemma {:induction false} ReadWordsUnlimited(st: ReadState, lines: seq<string>,
                                              seenEarlier: set<string>, seenNow: set<string>)
    requires st.truncate < 0 && !st.stopped
    ensures var r := ReadAll(AsWritten, st, lines, seenEarlier, seenNow);
      !r.stopped && r.words == st.words + Eligible(lines, seenEarlier, seenNow)
    decreases |lines|
  {
    if lines != [] {
      var next := ReadStep(AsWritten, st, lines[0], seenEarlier, seenNow);
      UnlimitedStep(st, lines[0], seenEarlier, seenNow);
      ReadWordsUnlimited(next, lines[1..], seenEarlier, seenNow);
    }
  }

  /** The budget invariant of the intended rule: never more words than the
      budget left, and fewer while reading goes on. */
  predicate WithinBudget(st: ReadState)
  {
    |st.words| <= (if st.truncate < 0 then 0 else st.truncate) &&
    (!st.stopped ==> |st.words| < st.truncate)
  }

  lemma {:induction false} ReadIntendedBudget(st: ReadState, lines: seq<string>,
                                              seenEarlier: set<string>, seenNow: set<string>)
    requires WithinBudget(st)
    ensures var r := ReadAll(Intended(true), st, lines, seenEarlier, seenNow);
      WithinBudget(r) && r.truncate <= st.truncate
    decreases |lines|
  {
    if lines != [] {
      ReadIntendedBudget(ReadStep(Intended(true), st, lines[0], seenEarlier, seenNow), lines[1..], seenEarlier, seenNow);
    }
  }

  /** With a non-negative budget, the intended rule collects no more words
      than the budget less the words already annotated in this
      iteration. */
  lemma ReadWordsWithinBudget(lines: seq<string>, seenEarlier: set<string>, seenNow: set<string>,
                              segmentations: map<string, seq<string>>, truncate: nat)
    ensures var r := ReadAll(Intended(true), ReadState([], truncate, segmentations, truncate == 0),
                             lines, seenEarlier, seenNow);
      |r.words| <= (if r.truncate < 0 then 0 else r.truncate) && r.truncate <= truncate
  {
    ReadIntendedBudget(ReadState([], truncate, segmentations, truncate == 0), lines, seenEarlier, seenNow);
  }

  /** A single-word line is classified by its word alone. */
  lemma PlainLine(w: string, seenEarlier: set<string>, seenNow: set<string>)
    requires |w| == 1 && !IsSpace(w[0]) && w[0] != '#'
    ensures Classify(w, seenEarlier, seenNow) ==
      if w in seenEarlier then Skip else if w in seenNow then Resumed else Fresh(w, [w])
  {
    StripUnchanged(w);
    SplitNoChar(w, '\t');
  }

  /** As written, a budget of 1 whose one place is already taken by a
      word annotated in this iteration is lowered to 0 and never tested
      again: both new words are collected. */
  lemma ReadWordsOverrun()
    ensures var r := ReadAll(AsWritten, ReadState([], 1, map[], false), ["c", "a", "b"], {}, {"c"});
      r.words == ["a", "b"] && r.truncate == 0 && |r.words| > r.truncate
  {
    var none: set<string> := {};
    var now := {"c"};
    var s0 := ReadState([], 1, map[], false);
    var s1 := ReadState([], 0, map[], false);
    var s2 := ReadState(["a"], 0, map[], false);
    var s3 := ReadState(["a", "b"], 0, map[], false);
    PlainLine("c", none, now);
    assert ReadStep(AsWritten, s0, "c", none, now) == s1;
    FreshStep(s1, "a", none, now);
    FreshStep(s2, "b", none, now);
    assert ReadAll(AsWritten, s3, [], none, now) == s3;
    assert ReadAll(AsWritten, s2, ["b"], none, now) == s3;
    assert ReadAll(AsWritten, s1, ["a", "b"], none, now) == s3;
  }

  /** Reading a one-letter word that is in neither set, as written. */
  lemma FreshStep(st: ReadState, w: string, seenEarlier: set<string>, seenNow: set<string>)
    requires |w| == 1 && !IsSpace(w[0]) && w[0] != '#' && w !in seenEarlier && w !in seenNow
    requires !st.stopped
    ensures ReadStep(AsWritten, st, w, seenEarlier, seenNow) ==
      st.(words := st.words + [w], stopped := |st.words| + 1 == st.truncate)
  {
    PlainLine(w, seenEarlier, seenNow);
  }

  /** Under the intended rule the same list yields no word: the budget is
      used up as soon as it is lowered to 0. */
  lemma ReadWordsIntendedExample()
    ensures ReadAll(Intended(true), ReadState([], 1, map[], false), ["c", "a", "b"], {}, {"c"}).words == []
  {
    var none: set<string> := {};
    var now := {"c"};
    var s0 := ReadState([], 1, map[], false);
    var s1 := ReadState([], 0, map[], true);
    PlainLine("c", none, now);
    assert ReadStep(Intended(true), s0, "c", none, now) == s1;
    ReadAllStopped(Intended(true), s1, ["a", "b"], none, now);
  }

  // ---- the annotator's records ----

  /** The label of a record: a word without a prediction is an evaluation,
      otherwise whether the prediction was kept or modified. */
  function Label(matches: Option<bool>): string
  {
    match matches
    case None => "Eval"
    case Some(true) => "Predicted"
    case Some(false) => "Modified"
  }

  /** The line `write_annotation` appends to the annotations file. */
  function AnnotationLine(word: string, analysis: string, matches: Option<bool>): string
  {
    word + "\t" + analysis + "\t" + Label(matches)
  }

  /** The line `write_nonword` appends. */
  function NonwordLine(word: string): string
  {
    word + "\t!\tNonword"
  }

  /** The key `read_annotations` takes from a line: the first tab-separated
      field of the stripped line. */
  function FirstField(line: string): string
  {
    Split(Strip(line), "\t")[0]
  }

  /** The set `read_annotations` builds from the lines of a file. */
  function FirstFields(lines: seq<string>): set<string>
  {
    set l | l in lines :: FirstField(l)
  }

  /** The characters at which Python 2's `codecs` readline ends a line:
      line feed, carriage return, vertical tab, form feed, 0x1C-0x1E, U+0085,
      U+2028 and U+2029. */
  predicate LineBreak(c: char)
  {
    var n := c as int;
    (10 <= n <= 13) || (0x1C <= n <= 0x1E) || n == 0x85 || n == 0x2028 || n == 0x2029
  }

  /** A word that survives being written and read back as the key of its
      own line: non-empty, not starting with whitespace, without a tab and
      without a line break.  The annotations file is a list of lines, one
      per record: a line break inside the analysis, which only a submitted
      tag could bring, is not modelled. */
  predicate CleanWord(word: string)
  {
    word != [] && !IsSpace(word[0]) && '\t' !in word &&
    forall i :: 0 <= i < |word| ==> !LineBreak(word[i])
  }

  /** The label tells which case was recorded. */
  lemma LabelInjective(a: Option<bool>, b: Option<bool>)
    requires Label(a) == Label(b)
    ensures a == b
  {
  }

  /** An annotation line splits on tabs into the word, the analysis and
      the label. */
  lemma AnnotationLineFields(word: string, analysis: string, matches: Option<bool>)
    requires '\t' !in word && '\t' !in analysis
    ensures Split(AnnotationLine(word, analysis, matches), "\t") == [word, analysis, Label(matches)]
  {
    var l := Label(matches);
    assert '\t' !in l;
    assert AnnotationLine(word, analysis, matches) == word + ['\t'] + (analysis + ['\t'] + l);
    SplitFirstChar(word, '\t', analysis + ['\t'] + l);
    SplitFirstChar(analysis, '\t', l);
    SplitNoChar(l, '\t');
  }

  /** A clean word followed by a tab and text that does not end in
      whitespace is read back as that word. */
  lemma FirstFieldOfTabbed(word: string, rest: string)
    requires CleanWord(word) && rest != [] && !IsSpace(rest[|rest| - 1])
    ensures FirstField(word + "\t" + rest) == word
  {
    var line := word + "\t" + rest;
    assert line[|line| - 1] == rest[|rest| - 1];
    assert line[0] == word[0];
    StripUnchanged(line);
    SplitFirstChar(word, '\t', rest);
  }

  /** Every label ends in a letter. */
  lemma LabelEnd(matches: Option<bool>)
    ensures Label(matches) != [] && !IsSpace(Label(matches)[|Label(matches)| - 1])
  {
    var l := Label(matches);
    match matches
    case None => assert l[|l| - 1] == 'l';
    case Some(true) => assert l[|l| - 1] == 'd';
    case Some(false) => assert l[|l| - 1] == 'd';
  }

  /** Reading back the annotations file gives the word of every line
      written for a clean word. */
  lemma FirstFieldOfRecord(word: string, analysis: string, matches: Option<bool>)
    requires CleanWord(word)
    ensures FirstField(AnnotationLine(word, analysis, matches)) == word
  {
    var rest := analysis + "\t" + Label(matches);
    LabelEnd(matches);
    assert rest[|rest| - 1] == Label(matches)[|Label(matches)| - 1];
    assert AnnotationLine(word, analysis, matches) == word + "\t" + rest;
    FirstFieldOfTabbed(word, rest);
  }

  /** Likewise for the non-word line. */
  lemma FirstFieldOfNonword(word: string)
    requires CleanWord(word)
    ensures FirstField(NonwordLine(word)) == word
  {
    var rest := "!\tNonword";
    assert rest[|rest| - 1] == 'd';
    assert NonwordLine(word) == word + "\t" + rest;
    FirstFieldOfTabbed(word, rest);
  }

  /** Appending a line whose key is `word` keeps `seen_now` equal to the
      keys of the file once `word` is added. */
  lemma ResumableAppend(seenNow: set<string>, annotations: seq<string>, line: string, word: string)
    requires seenNow == FirstFields(annotations) && FirstField(line) == word
    ensures seenNow + {word} == FirstFields(annotations + [line])
  {
    FirstFieldsAppend(annotations, line);
  }

  lemma FirstFieldsAppend(lines: seq<string>, l: string)
    ensures FirstFields(lines + [l]) == FirstFields(lines) + {FirstField(l)}
  {
    assert l in lines + [l];
    forall x | x in lines ensures x in lines + [l] {
      assert x == (lines + [l])[IndexIn(lines, x)];
    }
  }

  function IndexIn(lines: seq<string>, x: string): (i: nat)
    requires x in lines
    ensures i < |lines| && lines[i] == x
  {
    if lines[0] == x then 0 else 1 + IndexIn(lines[1..], x)
  }

  /** `read_annotations` over the lines of a file (none for a missing
      file). */
  method ReadAnnotations(lines: seq<string>) returns (out: set<string>)
    ensures out == FirstFields(lines)
  {
    out := {};
    var i := 0;
    while i < |lines|
      invariant 0 <= i <= |lines|
      invariant out == FirstFields(lines[..i])
    {
      assert lines[..i + 1] == lines[..i] + [lines[i]];
      FirstFieldsAppend(lines[..i], lines[i]);
      out := out + {FirstField(lines[i])};
      i := i + 1;
    }
    assert lines[..i] == lines;
  }

  /** The default width of the contexts, in characters. */
  const DefaultContextLen := 30

  /** An annotator: the words seen in earlier iterations and in this one,
      the lines of this iteration's annotations file, and the width of the
      contexts shown. */
  class Annotator {
    const email: string
    const uid: string
    var width: int
    var seenEarlier: set<string>
    var seenNow: set<string>
    var annotations: seq<string>

    /** `seen_now` is what reading the annotations file back would give,
        so a restarted server resumes where this one stopped. */
    predicate Resumable()
      reads this
    {
      seenNow == FirstFields(annotations)
    }

    /** A new annotator over the lines of its seen-words file and of its
        annotations file. */
    constructor (email: string, uid: string, seenWordsLines: seq<string>, annotationLines: seq<string>)
      ensures this.email == email && this.uid == uid && width == DefaultContextLen
      ensures seenEarlier == FirstFields(seenWordsLines)
      ensures seenNow == FirstFields(annotationLines)
      ensures annotations == annotationLines
      ensures Resumable()
    {
      var earlier := ReadAnnotations(seenWordsLines);
      var now := ReadAnnotations(annotationLines);
      this.email := email;
      this.uid := uid;
      width := DefaultContextLen;
      seenEarlier := earlier;
      seenNow := now;
      annotations := annotationLines;
    }

    /** `write_annotation`: one labelled line, and the word is seen now. */
    method WriteAnnotation(word: string, analysis: string, matches: Option<bool>)
      modifies this
      ensures annotations == old(annotations) + [AnnotationLine(word, analysis, matches)]
      ensures seenNow == old(seenNow) + {word}
      ensures width == old(width) && seenEarlier == old(seenEarlier)
      ensures old(Resumable()) && CleanWord(word) ==> Resumable()
    {
      if Resumable() && CleanWord(word) {
        FirstFieldOfRecord(word, analysis, matches);
        ResumableAppend(seenNow, annotations, AnnotationLine(word, analysis, matches), word);
      }
      annotations := annotations + [AnnotationLine(word, analysis, matches)];
      seenNow := seenNow + {word};
    }

    /** `write_nonword`: a line marking the word as a non-word, and the
        word is seen now. */
    method WriteNonword(word: string)
      modifies this
      ensures annotations == old(annotations) + [NonwordLine(word)]
      ensures seenNow == old(seenNow) + {word}
      ensures width == old(width) && seenEarlier == old(seenEarlier)
      ensures old(Resumable()) && CleanWord(word) ==> Resumable()
    {
      if Resumable() && CleanWord(word) {
        FirstFieldOfNonword(word);
        ResumableAppend(seenNow, annotations, NonwordLine(word), word);
      }
      annotations := annotations + [NonwordLine(word)];
      seenNow := seenNow + {word};
    }

    method SetWidth(w: int)
      modifies this
      ensures width == w
      ensures seenEarlier == old(seenEarlier) && seenNow == old(seenNow) && annotations == old(annotations)
    {
      width := w;
    }
  }

  /** The analysis `word_endpoint` records: each morph with its tag, joined
      by spaces (`zip` stops at the shorter list). */
  function TaggedAnalysis(morphs: seq<string>, tags: seq<string>): string
  {
    Join(" ", seq(if |morphs| < |tags| then |morphs| else |tags|, i requires 0 <= i < |morphs| && i < |tags| => morphs[i] + "/" + tags[i]))
  }

  /** Whether the annotator kept the predicted segmentation; None when the
      word has none. */
  function Matches(segmentations: map<string, seq<string>>, word: string, segmented: seq<string>): Option<bool>
  {
    if word in segmentations then Some(segmented == segmentations[word]) else None
  }

  /** `word_endpoint` for an annotator: the vector decoded into morphs,
      tagged, compared with the prediction and written. */
  method RecordWord(a: Annotator, segmentations: map<string, seq<string>>,
                    word: string, boundaries: seq<bool>, tags: seq<string>)
    modifies a
    ensures a.annotations == old(a.annotations) +
      [AnnotationLine(word, TaggedAnalysis(Segments(word, boundaries), tags),
                      Matches(segmentations, word, Segments(word, boundaries)))]
    ensures a.seenNow == old(a.seenNow) + {word}
  {
    var segmented := BoundariesToSeg(word, boundaries);
    var analysis := TaggedAnalysis(segmented, tags);
    var matches := if word in segmentations then Some(segmented == segmentations[word]) else None;
    a.WriteAnnotation(word, analysis, matches);
  }

  /** Sending back the vector that was shown for a word with a stored
      segmentation records it as predicted. */
  lemma AcceptedPrediction(segmentations: map<string, seq<string>>, word: string)
    requires word in segmentations
    requires segmentations[word] != [] && NonEmptyMorphs(segmentations[word])
    requires Flatten(segmentations[word]) == word
    ensures ShownBoundaries(segmentations, word).Some?
    ensures Matches(segmentations, word, Segments(word, ShownBoundaries(segmentations, word).value)) == Some(true)
  {
    StoredBoundariesRoundTrip(segmentations, word);
  }

  // ---- annotator sessions ----

  /** The annotators by uid, and the (uid, email) lines written to the user
      files. */
  class AnnotatorFactory {
    var annotators: map<string, Annotator>
    var users: seq<(string, string)>

    /** Each annotator is filed under its own uid. */
    predicate Keyed()
      reads this
    {
      forall u :: u in annotators ==> annotators[u].uid == u
    }

    constructor ()
      ensures annotators == map[] && users == []
      ensures Keyed()
    {
      annotators := map[];
      users := [];
    }

    /** `login`: the uid's annotator, created and recorded on its first
        login; every login sets the context width. */
    method Login(email: string, uid: string, seenWordsLines: seq<string>,
                 annotationLines: seq<string>, charWidth: int) returns (a: Annotator)
      modifies this, if uid in annotators then {annotators[uid]} else {}
      ensures uid in annotators && annotators[uid] == a && a.width == charWidth
      ensures uid in old(annotators) ==>
        a == old(annotators[uid]) && annotators == old(annotators) && users == old(users) &&
        a.seenNow == old(annotators[uid].seenNow) && a.annotations == old(annotators[uid].annotations)
      ensures uid !in old(annotators) ==>
        fresh(a) && annotators == old(annotators)[uid := a] && users == old(users) + [(uid, email)] &&
        a.email == email && a.seenEarlier == FirstFields(seenWordsLines) &&
        a.seenNow == FirstFields(annotationLines) && a.annotations == annotationLines
      ensures old(Keyed()) ==> Keyed()
    {
      if uid !in annotators {
        var created := new Annotator(email, uid, seenWordsLines, annotationLines);
        annotators := annotators[uid := created];
        users := users + [(uid, email)];
      }
      a := annotators[uid];
      a.SetWidth(charWidth);
    }

    /** `get`: the logged-in annotator, None where the source raises. */
    method Get(uid: string) returns (a: Option<Annotator>)
      ensures a.Some? <==> uid in annotators
      ensures a.Some? ==> a.value == annotators[uid]
    {
      if uid !in annotators {
        return None;
      }
      a := Some(annotators[uid]);
    }
  }
}
