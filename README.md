# morphsegannot core, modelled in Dafny

This project models the logic of morphsegannot, an active-learning tool for
annotating morphological segmentations. It models choosing which words to send
to annotators, and the bookkeeping around their answers. The segmentation model
(Morfessor FlatCat) is treated as an opaque oracle: a datatype of functions from
a word to its Viterbi analysis, its n-best analyses, its forward log-probability
and the model's lexicon.

Modules, by the part of the program they follow:

- `Selection` (`morphsegannot/tools/selection.py`) covers these parts of the
  selection code:
  - `Selector` builds the feature bundle of each word: the Viterbi analyses, the
    forward log-probability and `uncertainty`. It configures the metric and ranks
    through it.
  - `AbstractMetric.rank` sorts on (score, word) tuples.
  - The sort-based metrics score words: Uncertainty, Margin, MorphLogp,
    AlphaBracket, Category and NoStm. Of these, Margin, AlphaBracket, Category
    and NoStm also filter words out.
  - `write_selected` returns the first `n` ranked words.
  - `zlog` maps zero to a fixed sentinel.
- `Greedy` holds the round structure that the two greedy coverage metrics share.
  Each round picks the best remaining word, masks its parts and scores the rest
  again. The module proves two things:
  - the picks are distinct and maximal;
  - no remaining word's score goes up from one round to the next.
- `SubstringCoverage` holds `IFSubstringMetric` as a class. Its fields are the
  weight tables and the two masks. It covers `configure`, `_normalize`,
  `_substrings`, `score`, `rank` and `_select_best`.
- `BoundaryCoverage` holds `OneOffBoundaryMetric` as a class. Its fields are the
  morph weights and the mask. It covers `configure` with its length-by-length
  link weights, `score`, `rank` and `_select_best`.
- `Tools` and `Grouping` (`morphsegannot/tools/tools.py`) cover the pool
  bookkeeping:
  - `filter_pool` and `combine_pools`;
  - deduplicating contexts by their immediate neighbours, in `_immediate`,
    `_remove_redundant` and `get_contexts`;
  - the name filter of `all_metrics`;
  - the file-name templates of `MultiFileAnnotationWriter`;
  - the record streams of `combine_with_old_annotations` and `combine_single`:
    goldstd, unseen, unclaimed and nonword records.
- `Segmentation`, `AnnotationUi` and `CompareAnnotators` cover the conversion
  between a boundary vector (`len(word)-1` booleans) and a list of morphs. The
  vector is built in `get_word` and `seg_to_boundaries`, and read back by
  `boundaries_to_seg`. `AnnotationUi` also covers:
  - truncating the left and right contexts to a character budget;
  - `read_words` over the lines of a word list;
  - the `Annotator` and `AnnotatorFactory` objects;
  - how the word endpoint records an answer.
  `CompareAnnotators` also covers the integer agreement counters.
- `RoundRobin` (`morphsegannot/tools/roundrobin.py`) covers `roundrobin`,
  `unique_everseen` with and without a key, and their composition in `main`.
- `Corrections` (`scripts/corrections.py`) covers line parsing, `detag`, and the
  merge that replaces an analysis by its correction and reports the corrections
  never used.
- `SeqUtil` and `Strings` are shared helpers. `SeqUtil` has first-occurrence
  deduplication by key. `Strings` has Python 2 `unicode.strip` (with its Unicode whitespace set), `str.split` and `str.join`
  over `seq<char>`.

Floating-point scores are `real`, and rounding is not modelled. Python sets and
dicts are Dafny `set` and `map`. Wherever the program iterates a set, the
methods pick the elements with `:|`, and their contracts do not depend on the
order. Lists that the program changes in place are fields or loop variables of
type `seq`, and the methods reassign them.

The docstring of the Category metric speaks of SUF/ZZZ pairs, but the code
tests STM/ZZZ (`morphsegannot/tools/selection.py:438-448`). The model follows
the code.

## Model

| member | source | states |
|---|---|---|
| SeqUtil.FirstIndexByKey | morphsegannot/tools/roundrobin.py:34-38 | the first position whose element has a given key |
| SeqUtil.KeySetAppend | morphsegannot/tools/roundrobin.py:35-37 | the seen set after one more element is the old one plus that element's key |
| SeqUtil.FirstIndexPrefix | morphsegannot/tools/roundrobin.py:34-38 | appending an element does not move the first occurrence of a key already seen |
| SeqUtil.DedupByFacts | morphsegannot/tools/roundrobin.py:23-38 | keyed deduplication keeps one element per key, exactly the first element for each key, in order of first occurrence, and covers every key |
| SeqUtil.DedupStep | morphsegannot/tools/roundrobin.py:34-38 | one more element keeps those facts |
| SeqUtil.DedupNewKey | morphsegannot/tools/roundrobin.py:36-38 | an element with an unseen key is appended and keeps those facts |
| SeqUtil.DedupSkipAt | morphsegannot/tools/roundrobin.py:36 | an element whose key was seen earlier is skipped |
| SeqUtil.DedupKeepAt | morphsegannot/tools/roundrobin.py:36-38 | an element whose key was not seen earlier is yielded |
| SeqUtil.MapPermutes | morphsegannot/tools/selection.py:84-87 | mapping two permutations of each other gives permutations of each other (used for the words of a sorted list of scored words) |
| Strings.LeadingSpace | morphsegannot/annotation_ui.py:407 | the leading run of Python 2 `unicode.isspace` whitespace (ASCII 9-13 and 28-32, U+0085, U+00A0, U+1680, U+180E, U+2000-U+200A, U+2028, U+2029, U+202F, U+205F, U+3000) of a line |
| Strings.TrailingSpace | morphsegannot/annotation_ui.py:407 | the trailing run of Unicode whitespace of a line |
| Strings.Strip | morphsegannot/annotation_ui.py:407 | `unicode.strip` removes Unicode whitespace runs at both ends: the result is a slice of the input, surrounded by whitespace only, not starting or ending in whitespace, and empty iff the line is all whitespace |
| Strings.FindFrom | morphsegannot/annotation_ui.py:409 | the first occurrence of the separator at or after a position |
| Strings.Split | morphsegannot/annotation_ui.py:409 | `str.split(sep)` returns at least one piece |
| Strings.JoinSplit | morphsegannot/tools/tools.py:53-70 | joining the pieces of `str.split(sep)` with sep gives back the string |
| Strings.SplitPiecesFree | morphsegannot/annotation_ui.py:409 | no piece of the split contains the separator |
| Strings.StripUnchanged | morphsegannot/annotation_ui.py:407 | a string that neither starts nor ends with Unicode whitespace is left unchanged by strip |
| Strings.StripNoBreakSpace | morphsegannot/annotation_ui.py:407 | `unicode.strip` removes a trailing no-break space (U+00A0), as Python 2 does for a unicode line |
| Strings.SplitFirstChar | morphsegannot/tools/tools.py:53-70 | splitting at a one-character separator cuts at its first occurrence |
| Strings.SplitNoChar | morphsegannot/tools/tools.py:53-70 | a string without the separator splits into itself |
| Strings.StrLessIrreflexive | morphsegannot/tools/selection.py:84-87 | Python's string order is irreflexive |
| Strings.StrLessTransitive | morphsegannot/tools/selection.py:84-87 | Python's string order is transitive |
| Strings.StrLessTotal | morphsegannot/tools/selection.py:84-87 | Python's string order is total |
| RoundRobin.TailsMeasure | morphsegannot/tools/roundrobin.py:15-21 | one round takes one element per non-empty input: the heads and the remaining tails account for every element |
| RoundRobin.TotalLenAppend | morphsegannot/tools/roundrobin.py:13-21 | the element count of concatenated inputs is the sum of the counts |
| RoundRobin.HeadsTailsAppend | morphsegannot/tools/roundrobin.py:17-21 | heads and tails of concatenated inputs are the concatenations of heads and tails |
| RoundRobin.NewRound | morphsegannot/tools/roundrobin.py:15-21 | when the cycle starts a new round the loop invariant relating output, pending iterators and the round semantics holds for the full round |
| RoundRobin.SkipStep | morphsegannot/tools/roundrobin.py:19-21 | an exhausted iterator is dropped from the cycle (`islice(nexts, pending)`) and never revisited, keeping the invariant |
| RoundRobin.TakeStep | morphsegannot/tools/roundrobin.py:17-18 | yielding the next element of the current iterator and rotating the cycle keeps the invariant |
| RoundRobin.TakeQueues | morphsegannot/tools/roundrobin.py:17-18 | after one yield and rotation the current round's heads and the queued tails are unchanged as a whole |
| RoundRobin.TakeShrinks | morphsegannot/tools/roundrobin.py:17-18 | each yield removes exactly one element from the pending inputs, so the loop terminates |
| RoundRobin.Roundrobin | morphsegannot/tools/roundrobin.py:10-21 | the generator yields exactly Rounds(iterables): one element from each not-yet-exhausted input per round, in argument order |
| RoundRobin.RoundsLength | morphsegannot/tools/roundrobin.py:10-21 | the output length is the sum of the input lengths |
| RoundRobin.RoundrobinExample | morphsegannot/tools/roundrobin.py:11 | `roundrobin('ABC', 'D', 'EF')` yields A D E B F C |
| RoundRobin.ExampleFirstRound | morphsegannot/tools/roundrobin.py:11 | the first round of the doc example yields A D E and leaves BC, '', F |
| RoundRobin.ExampleSecondRound | morphsegannot/tools/roundrobin.py:11 | the second round yields B F and drops the exhausted input |
| RoundRobin.ExampleLastRound | morphsegannot/tools/roundrobin.py:11 | the last round yields C, after which nothing remains |
| RoundRobin.FlattenRound | morphsegannot/tools/roundrobin.py:15-21 | one round plus the remaining tails hold the same elements as the inputs |
| RoundRobin.RoundsPermutation | morphsegannot/tools/roundrobin.py:10-21 | the output is a permutation (as a multiset) of the concatenated inputs |
| RoundRobin.UniqueEverseen | morphsegannot/tools/roundrobin.py:23-32 | without a key, the loop yields the first occurrence of each element, in input order (DedupBy with the identity key) |
| RoundRobin.UniqueEverseenBy | morphsegannot/tools/roundrobin.py:23-38 | with a key, the loop yields the first element for each key, in input order |
| RoundRobin.EverseenPrefix4 | morphsegannot/tools/roundrobin.py:25 | the first four elements of the doc example leave A |
| RoundRobin.EverseenPrefix7 | morphsegannot/tools/roundrobin.py:25 | the first seven leave A B |
| RoundRobin.EverseenPrefix10 | morphsegannot/tools/roundrobin.py:25 | the first ten leave A B C D |
| RoundRobin.UniqueEverseenExample | morphsegannot/tools/roundrobin.py:25 | `unique_everseen('AAAABBBCCDAABBB')` yields A B C D |
| RoundRobin.EverseenByPrefix4 | morphsegannot/tools/roundrobin.py:26 | with `str.lower`, the first four elements leave A B C |
| RoundRobin.UniqueEverseenByExample | morphsegannot/tools/roundrobin.py:26 | `unique_everseen('ABBCcAD', str.lower)` yields A B C D |
| RoundRobin.UniqueEverseenFacts | morphsegannot/tools/roundrobin.py:23-32 | the output has no duplicates, has exactly the input's elements, and keeps them in the order of their first occurrences |
| RoundRobin.DedupElems | morphsegannot/tools/roundrobin.py:27-32 | no duplicates and the same element set as the input |
| RoundRobin.IdentityKeys | morphsegannot/tools/roundrobin.py:30 | with the identity key the seen set is the set of elements met |
| RoundRobin.SelectWords | morphsegannot/tools/roundrobin.py:70-75 | `main` selects the first n elements of `unique_everseen(roundrobin(*inputs))`; a negative n is the ValueError of `islice` |
| RoundRobin.SelectionFacts | morphsegannot/tools/roundrobin.py:73-75 | the selection is duplicate-free, draws only input words, and when it is shorter than n it holds every input word |
| RoundRobin.RoundsElems | morphsegannot/tools/roundrobin.py:10-21 | an element occurs in the interleaving iff it occurs in some input |
| RoundRobin.TakePrefix | morphsegannot/tools/roundrobin.py:75 | a prefix of a duplicate-free list is duplicate-free and drawn from it, and a prefix shorter than n is the whole list |
| RoundRobin.RoundsKeepsOrder | morphsegannot/tools/roundrobin.py:10-21 | with every element tagged by the index of its input, the interleaving untagged is `roundrobin`'s output, and for every input index t the tag-t elements appear in exactly that input's order and number |
| RoundRobin.InputInOrder | morphsegannot/tools/roundrobin.py:10-21 | for one input index t, the tag-t subsequence of the tagged interleaving is input t itself |
| RoundRobin.RoundsOnly | morphsegannot/tools/roundrobin.py:13-21 | when at most one input holds elements of a tag, the interleaving keeps those elements in the order they have in the concatenation of the inputs |
| RoundRobin.OneTaggedRound | morphsegannot/tools/roundrobin.py:15-21 | one round followed by the remaining tails keeps the order of a tag held by at most one input, and the tails still hold it in at most one input |
| RoundRobin.NoneTaggedRound | morphsegannot/tools/roundrobin.py:15-21 | a tag held by no input appears neither in a round nor in the tails |
| RoundRobin.TaggedOnce | morphsegannot/tools/roundrobin.py:10-21 | tagging the inputs by position puts each tag in at most one input, and a tag below the first position in none |
| RoundRobin.TaggedOnly | morphsegannot/tools/roundrobin.py:10-21 | the elements tagged t in the tagged inputs are input t - base, or none when t is out of range |
| RoundRobin.TaggedOnlyAt | morphsegannot/tools/roundrobin.py:10-21 | the elements tagged t in the tagged inputs, counting from 0, are input t |
| RoundRobin.TaggedUntag | morphsegannot/tools/roundrobin.py:10-21 | removing the tags from the tagged inputs gives the inputs back |
| RoundRobin.UntagRound | morphsegannot/tools/roundrobin.py:15-21 | removing tags commutes with taking one round's heads and tails and keeps the element count |
| RoundRobin.UntagRounds | morphsegannot/tools/roundrobin.py:10-21 | removing tags from the interleaving of tagged inputs is the interleaving of the untagged inputs |
| RoundRobin.OnlyAppend | morphsegannot/tools/roundrobin.py:10-21 | selecting one tag distributes over concatenation |
| RoundRobin.UntagAppend | morphsegannot/tools/roundrobin.py:10-21 | removing tags distributes over concatenation |
| RoundRobin.OnlyTag | morphsegannot/tools/roundrobin.py:10-21 | tagging one input with t and selecting tag u gives the input when u = t and nothing otherwise; untagging gives the input back |
| RoundRobin.FrontRound | morphsegannot/tools/roundrobin.py:15-21 | a round over inputs whose first is non-empty takes that input's head first and leaves its tail first |
| RoundRobin.EmptyFront | morphsegannot/tools/roundrobin.py:19-21 | an empty first input contributes nothing to a round, its tails or the concatenation |
| Segmentation.Falses | morphsegannot/annotation_ui.py:268 | `(len(morph) - 1) * [False]` is a list of that many False entries |
| Segmentation.Marks | morphsegannot/annotation_ui.py:267-269 | the extended vector, before the final pop, has at least one entry per morph |
| Segmentation.CountTrueAppend | morphsegannot/annotation_ui.py:267-269 | the True count of an extended vector is the sum of the parts' counts |
| Segmentation.CountTrueFalses | morphsegannot/annotation_ui.py:268 | a run of False entries holds no True |
| Segmentation.MarksAppend | morphsegannot/annotation_ui.py:267-269 | one more morph extends the vector by its Falses and one True |
| Segmentation.MarksShape | morphsegannot/annotation_ui.py:267-269 | before the pop the vector holds one True per morph, has length inner letters plus morphs, and ends in True |
| Segmentation.InnerGapsNonEmpty | morphsegannot/annotation_ui.py:267-269 | for non-empty morphs that length is the length of the spelled word |
| Segmentation.BoundaryVectorShape | scripts/compare_annotators.py:31-37 | `seg_to_boundaries` (and the same loop in `get_word`) has exactly len(seg)-1 True entries and length (sum of morph lengths) - 1 for non-empty morphs |
| Segmentation.LastCut | morphsegannot/annotation_ui.py:192-197 | the position after the last boundary met is no later than the current position |
| Segmentation.StateSpells | morphsegannot/annotation_ui.py:192-197 | after k letters, the finished morphs followed by `cur` spell the first k letters, and `cur` holds the letters since the last boundary |
| Segmentation.StepSpells | morphsegannot/annotation_ui.py:193-196 | one loop step appends the letter to what `out` and `cur` spell, and empties `cur` exactly on a boundary |
| Segmentation.StateNonEmpty | morphsegannot/annotation_ui.py:193-196 | every morph appended to `out` is non-empty |
| Segmentation.StateMarks | morphsegannot/annotation_ui.py:192-197 | the morphs emitted so far, re-encoded, plus Falses for `cur` give back the vector read so far |
| Segmentation.StepMarks | morphsegannot/annotation_ui.py:193-196 | one loop step extends that re-encoding by exactly the boundary flag read |
| Segmentation.SegmentsOfFullVector | morphsegannot/annotation_ui.py:188-198 | with a vector of length len(word)-1, `boundaries_to_seg` returns CountTrue+1 non-empty morphs that spell the word, and re-encoding them gives the vector back |
| Segmentation.SegmentsSpellPrefix | morphsegannot/annotation_ui.py:188-198 | for any vector, the morphs spell the word up to the last boundary that `zip` reaches; letters after it are dropped |
| Segmentation.MarksInjective | morphsegannot/annotation_ui.py:267-269 | two segmentations into non-empty morphs with the same spelling and the same vector are equal |
| Segmentation.MarksEndTrue | morphsegannot/annotation_ui.py:267-270 | the popped entry is the final True |
| Segmentation.SegmentsOfBoundaryVector | morphsegannot/annotation_ui.py:188-198 | round trip: `boundaries_to_seg(word, vector(seg)) == seg` for non-empty morphs |
| Segmentation.BoundaryVectorOfSegments | scripts/compare_annotators.py:31-37 | round trip the other way: `seg_to_boundaries(boundaries_to_seg(word, b)) == b` for a vector of length len(word)-1 |
| AnnotationUi.BoundariesToSeg | morphsegannot/annotation_ui.py:188-198 | the loop computes exactly the segments cut by the vector with a final True appended (Segmentation.Segments), whose shape, truncation and round trip the Segmentation lemmas establish |
| AnnotationUi.WordBoundaries | morphsegannot/annotation_ui.py:266-272 | the boundary loop over the stored (or default `[word]`) segmentation yields the shown vector, and fails exactly where the source's length assertion would fail |
| AnnotationUi.DefaultBoundaries | morphsegannot/annotation_ui.py:266-272 | a word with no stored segmentation is shown with `len(word)-1` False entries |
| AnnotationUi.EmptyWordRejected | morphsegannot/annotation_ui.py:266-272 | the empty word with no stored segmentation fails the `len(boundaries) == len(word) - 1` assertion |
| AnnotationUi.StoredBoundariesRoundTrip | morphsegannot/annotation_ui.py:266-271 | for a stored segmentation of non-empty morphs spelling the word, the vector passes the assertion and `boundaries_to_seg` on it gives the segmentation back |
| AnnotationUi.LeftStart | morphsegannot/annotation_ui.py:282-290 | the index of the first left word kept never passes the nearest word |
| AnnotationUi.RightEnd | morphsegannot/annotation_ui.py:291-299 | the end of the kept right words lies between the first word and the end of the list |
| AnnotationUi.TruncateLeft | morphsegannot/annotation_ui.py:278-290 | the pop loop builds the left text that LeftText specifies |
| AnnotationUi.TruncateRight | morphsegannot/annotation_ui.py:278-299 | the pop(0) loop builds the right text that RightText specifies |
| AnnotationUi.LeftStartFacts | morphsegannot/annotation_ui.py:284-290 | the loop stops at the first word (from the nearest outwards) whose length plus the text so far exceeds the width, and at no word before it |
| AnnotationUi.RightEndFacts | morphsegannot/annotation_ui.py:293-299 | the loop stops at the first right word that would exceed the width, and at no word before it |
| AnnotationUi.LeftTextFacts | morphsegannot/annotation_ui.py:278-290 | the left text is ' '.join of a suffix of the left words that always includes the nearest word, prefixed by '...' iff a word was dropped; the budget ignores the joining spaces |
| AnnotationUi.RightTextFacts | morphsegannot/annotation_ui.py:278-299 | the right text is ' '.join of a prefix of the right words that always includes the first word, followed by '...' iff a word was dropped |
| AnnotationUi.LeftOverrunExample | morphsegannot/annotation_ui.py:284-290 | because the joining space is not counted, two 2-letter words are both kept under width 4, giving a 5-character text |
| AnnotationUi.RightDropExample | morphsegannot/annotation_ui.py:293-299 | a concrete right context whose third word is dropped and replaced by '...' |
| AnnotationUi.TruncateContexts | morphsegannot/annotation_ui.py:277-301 | one shown context per stored context, in order, each truncated on both sides and keeping its id |
| AnnotationUi.MissingWordContext | morphsegannot/annotation_ui.py:277 | a word with no contexts gets the single default context, shown as empty left and right texts with id '0' |
| AnnotationUi.GetWord | morphsegannot/annotation_ui.py:263-305 | the word view carries the word, its boundary vector and every context truncated to the annotator's width; it fails exactly when the boundary assertion does |
| AnnotationUi.UnlimitedStep | morphsegannot/annotation_ui.py:399-426 | with a negative budget one line never stops the reading and appends exactly the line's word when it is eligible |
| AnnotationUi.ReadAllStopped | morphsegannot/annotation_ui.py:424-425 | once the loop has broken, the remaining lines change nothing |
| AnnotationUi.ReadLine | morphsegannot/annotation_ui.py:406-425 | one iteration of the loop body (strip, skip blank and '#', skip seen_earlier, count down for seen_now, append, store morphs, break test) is the step function ReadStep |
| AnnotationUi.ReadAllCons | morphsegannot/annotation_ui.py:405-425 | reading the remaining lines is one step followed by reading the rest |
| AnnotationUi.ReadWords | morphsegannot/annotation_ui.py:399-426 | the collected words and stored segmentations are those of the line-by-line reading ReadAll |
| AnnotationUi.ReadWordsUnseen | morphsegannot/annotation_ui.py:413-420 | no collected word is in seen_earlier or seen_now |
| AnnotationUi.ReadWordsUnlimited | morphsegannot/annotation_ui.py:403-425 | with the default budget -1 reading never stops and collects every eligible line's word, in order |
| AnnotationUi.ReadIntendedBudget | morphsegannot/annotation_ui.py:418-425 | with the corrected stop test (`len(words) >= truncate`), the number of collected words never exceeds the remaining budget |
| AnnotationUi.ReadWordsWithinBudget | morphsegannot/annotation_ui.py:399-426 | corrected reading started with a budget n returns at most the remaining budget of words, and the budget never grows |
| AnnotationUi.PlainLine | morphsegannot/annotation_ui.py:407-420 | a one-letter line is skipped if seen earlier, counted down if seen now, and otherwise a fresh word |
| AnnotationUi.ReadWordsOverrun | morphsegannot/annotation_ui.py:418-425 | as written, budget 1 with a seen_now word first then two fresh words collects two words, more than the budget |
| AnnotationUi.FreshStep | morphsegannot/annotation_ui.py:421-425 | a fresh word is appended and the loop breaks iff the new length equals the budget |
| AnnotationUi.ReadWordsIntendedExample | morphsegannot/annotation_ui.py:418-425 | on the same input, the corrected stop test collects no word |
| AnnotationUi.LabelInjective | morphsegannot/annotation_ui.py:126-131 | the labels Eval, Predicted and Modified tell the three values of `matches` apart |
| AnnotationUi.AnnotationLineFields | morphsegannot/annotation_ui.py:124-133 | an annotation record splits on tabs into word, analysis and label |
| AnnotationUi.FirstFieldOfTabbed | morphsegannot/annotation_ui.py:101-109 | stripping and splitting a record `word\t...` gives back the word |
| AnnotationUi.LabelEnd | morphsegannot/annotation_ui.py:126-131 | every label is non-empty and does not end in whitespace, so stripping the line leaves it whole |
| AnnotationUi.FirstFieldOfRecord | morphsegannot/annotation_ui.py:101-133 | reading back an annotation record yields the annotated word |
| AnnotationUi.FirstFieldOfNonword | morphsegannot/annotation_ui.py:151-155 | reading back a nonword record yields the word |
| AnnotationUi.ResumableAppend | morphsegannot/annotation_ui.py:124-135 | appending a record for a word and adding the word to seen_now keeps seen_now equal to what re-reading the annotation file would give |
| AnnotationUi.FirstFieldsAppend | morphsegannot/annotation_ui.py:101-109 | the words read from a file with one more line are the old words plus that line's first field |
| AnnotationUi.IndexIn | morphsegannot/annotation_ui.py:104-109 | a line of the file has an index at which it occurs |
| AnnotationUi.ReadAnnotations | morphsegannot/annotation_ui.py:101-109 | the loop collects exactly the set of first tab fields of the stripped lines |
| AnnotationUi.Annotator.constructor | morphsegannot/annotation_ui.py:70-91 | a new annotator has the default width, seen_earlier read from the seen-words file and seen_now read from its annotation file |
| AnnotationUi.Annotator.WriteAnnotation | morphsegannot/annotation_ui.py:124-135 | appends one labelled record, adds the word to seen_now, changes nothing else, and keeps seen_now in step with the file |
| AnnotationUi.Annotator.WriteNonword | morphsegannot/annotation_ui.py:151-155 | appends one `word\t!\tNonword` record, adds the word to seen_now, changes nothing else |
| AnnotationUi.Annotator.SetWidth | morphsegannot/annotation_ui.py:164-165 | sets the width and nothing else |
| AnnotationUi.RecordWord | morphsegannot/annotation_ui.py:318-344 | the word endpoint writes the analysis of the submitted vector, labelled by whether it matches the stored segmentation |
| AnnotationUi.AcceptedPrediction | morphsegannot/annotation_ui.py:337-344 | submitting the shown vector unchanged for a stored segmentation is labelled Predicted |
| AnnotationUi.AnnotatorFactory.constructor | morphsegannot/annotation_ui.py:43-45 | a new factory has no annotators |
| AnnotationUi.AnnotatorFactory.Login | morphsegannot/annotation_ui.py:47-55 | one annotator per uid: an existing one is returned unchanged except for its width, a new one is created, stored and its user line recorded |
| AnnotationUi.AnnotatorFactory.Get | morphsegannot/annotation_ui.py:57-61 | returns the annotator for a logged-in uid, and the error case exactly when the uid is unknown |
| CompareAnnotators.SegToBoundaries | scripts/compare_annotators.py:31-37 | the extend-then-pop loop computes the boundary vector of a segmentation, and the empty segmentation is the IndexError of popping an empty list |
| CompareAnnotators.SegToBoundariesFacts | scripts/compare_annotators.py:31-37 | for non-empty morphs the vector has length (sum of morph lengths) - 1 and len(seg)-1 True entries, and `boundaries_to_seg` inverts it |
| CompareAnnotators.Agreeing | scripts/compare_annotators.py:85-91 | the number of agreeing positions is at most the number compared, and equals it iff the vectors are equal |
| CompareAnnotators.AgreeingAppend | scripts/compare_annotators.py:85-91 | one more position adds one agreement iff the two flags are equal |
| CompareAnnotators.TallyStep | scripts/compare_annotators.py:85-91 | one iteration of the zip loop keeps the counters equal to the positive/negative counts and (dis)agreements of the positions seen |
| CompareAnnotators.ZipTally | scripts/compare_annotators.py:85-91 | over the zipped (shorter) length, b_same+b_diff, a_pos+a_neg and b_pos+b_neg all equal the positions compared, and b_diff is 0 iff the compared prefixes agree |
| CompareAnnotators.WordTally | scripts/compare_annotators.py:70-91 | the per-word boundary tally of two analyses, failing exactly when one analysis is empty; identical analyses add no disagreement |
| CompareAnnotators.SameWordsAdd | scripts/compare_annotators.py:72-84 | adding a word to the processed set adds it to the same-analysis words iff both analyses are equal |
| CompareAnnotators.CountedStep | scripts/compare_annotators.py:70-91 | processing one common word keeps every counter consistent with the words processed so far |
| CompareAnnotators.EmptyAnalysisWitness | scripts/compare_annotators.py:85-86 | a common word with an empty analysis makes the run fail |
| CompareAnnotators.NoEmptyAnalysis | scripts/compare_annotators.py:70-91 | a run that counted every common word met no empty analysis |
| CompareAnnotators.CountWord | scripts/compare_annotators.py:72-91 | the loop body for one common word, failing exactly on an empty analysis |
| CompareAnnotators.CompareCounts | scripts/compare_annotators.py:52-91 | w_samecount counts the common words with identical analyses, w_same+w_diff is the number of common words, and the boundary counters balance; the run fails exactly when some common word has an empty analysis |
| Corrections.SpaceFrom | scripts/corrections.py:10 | `[^\s]*` (no `re.UNICODE`, so ASCII space, tab, newline, vertical tab, form feed, carriage return) matches up to the first such character, or to the end |
| Corrections.SpaceRunEnd | scripts/corrections.py:10 | `\s+` runs over ASCII whitespace to the first other character, or to the end |
| Corrections.UpToNewline | scripts/corrections.py:10 | `(.*)` matches the longest prefix without a newline |
| Corrections.ParseLine | scripts/corrections.py:36-45 | a line is skipped exactly when it is all Unicode whitespace (`strip`); a parsed line gives a non-empty word free of ASCII whitespace (`\s` without `re.UNICODE`) and a non-empty analysis that starts with a character other than ASCII whitespace |
| Corrections.NoBreakSpaceLines | scripts/corrections.py:36-45 | a line holding only a no-break space is skipped as blank, while `a` U+00A0 `b` is not split by `\s` and is reported unparsable |
| Corrections.MatchedFields | scripts/corrections.py:10-41 | the match on a stripped non-empty line has those field properties |
| Corrections.StripPadded | scripts/corrections.py:38 | stripping removes exactly the surrounding Unicode whitespace |
| Corrections.SpaceFromAt | scripts/corrections.py:10 | the word group ends at the first whitespace character |
| Corrections.SpaceRunEndAt | scripts/corrections.py:10 | the separator ends at the first non-whitespace character |
| Corrections.SplitFormatted | scripts/corrections.py:10 | on `word sep analysis` the two groups split exactly at the separator |
| Corrections.ParseFormatted | scripts/corrections.py:35-72 | a line written as `word<whitespace>analysis`, with any padding, parses back to that word and analysis |
| Corrections.MatchFormatted | scripts/corrections.py:10-41 | `RE_LINE` on `word sep analysis` returns the word and the analysis |
| Corrections.ParseStripped | scripts/corrections.py:38-45 | a line whose stripped text matches is parsed as that match |
| Corrections.UpToNewlineFree | scripts/corrections.py:10 | a newline-free analysis is matched whole |
| Corrections.ReadAnnotations | scripts/corrections.py:35-45 | the loop yields the parsed lines in order and reports exactly the unparseable ones |
| Corrections.ParsedCounts | scripts/corrections.py:35-45 | every non-blank line is either yielded or reported |
| Corrections.Detag | scripts/corrections.py:11-50 | removing tags never lengthens the analysis |
| Corrections.TagAtShift | scripts/corrections.py:11 | whether a tag followed by a word boundary starts at a position does not depend on the characters before it |
| Corrections.DetagUnchanged | scripts/corrections.py:11-50 | `RE_TAG.sub` leaves an analysis unchanged iff it holds no `/PRE`, `/STM`, `/SUF` or `/ZZZ` followed by a word boundary |
| Corrections.DetagAll | scripts/corrections.py:48-50 | detag keeps each word and the number and order of records, and detags each analysis |
| Corrections.DetagExample | scripts/corrections.py:11-50 | `ab/STM+c/SUF` becomes `ab+c` |
| Corrections.DetagSuffixExample | scripts/corrections.py:11-50 | a tag at the end of the analysis is removed |
| Corrections.DetagKeepExample | scripts/corrections.py:11-50 | `/STMa` is kept because no word boundary follows the tag |
| Corrections.LastAnalysis | scripts/corrections.py:59 | for duplicate correction words the dict keeps the analysis of the last occurrence |
| Corrections.WordsAppend | scripts/corrections.py:59-60 | one more correction adds its word to the key set |
| Corrections.LastAnalysisAppend | scripts/corrections.py:59 | a later correction for the same word overrides the earlier ones; other words are unaffected |
| Corrections.CorrectionTable | scripts/corrections.py:59 | the corrections dict has exactly the correction words as keys, each mapped to its last analysis |
| Corrections.Merge | scripts/corrections.py:60-76 | one output record per original record, in order, with the same words; the analysis is replaced exactly when the word has a correction; the replacements reported are exactly those that changed the analysis; the unused set is the correction words never met |
| Corrections.UnusedWords | scripts/corrections.py:60-76 | a word is reported unused iff it occurs among the corrections and in no original record |
| Tools.Unseen | morphsegannot/tools/tools.py:79-80 | the comprehension never lengthens the word list |
| Tools.FilterPool | morphsegannot/tools/tools.py:73-80 | `filter_pool` keeps the pool's id and metric |
| Tools.UnseenMembers | morphsegannot/tools/tools.py:79-80 | a word survives the filter iff it is in the pool and not in `seen` |
| Tools.UnseenTwice | morphsegannot/tools/tools.py:73-80 | filtering by one set and then another is filtering by their union |
| Tools.UnseenNothing | morphsegannot/tools/tools.py:79-80 | filtering by a set disjoint from the words keeps the list unchanged, order included |
| Tools.FilterPoolFacts | morphsegannot/tools/tools.py:73-80 | the filtered pool keeps id and metric, and its words are exactly the pool's words not in `seen` |
| Tools.AllWordsMembers | morphsegannot/tools/tools.py:85-86 | a word is among the words of all pools iff some pool holds it |
| Tools.CombinePools | morphsegannot/tools/tools.py:82-93 | the intended combination: the pool named by the `id` parameter, metric None, whose words are the words of all pools, each at its first occurrence |
| Tools.AbsorbPool | morphsegannot/tools/tools.py:86-90 | the inner loop over one pool keeps `seen` and `combined` equal to the seen set and first occurrences of everything absorbed |
| Tools.CombinePoolsFacts | morphsegannot/tools/tools.py:82-93 | the combined pool has no duplicates and holds exactly the words that occur in some pool |
| Tools.AbsorbList | morphsegannot/tools/tools.py:85-88 | iterating a Pool tuple meets its word list, and `list in set` raises TypeError |
| Tools.CombinePoolsAlwaysRaises | morphsegannot/tools/tools.py:82-93 | as written, with list-valued pool words, `combine_pools` raises NameError (from `pool.id`) on an empty pool list and TypeError on any other |
| Tools.MetricsOfRaised | morphsegannot/tools/tools.py:55-69 | once a name has raised, the whole `all_metrics` call raises |
| Tools.JudgeOne | morphsegannot/tools/tools.py:56-69 | the loop body for one file name (pop `selected`, check iteration, check pool, re-join the rest) is the verdict JudgeName |
| Tools.AllMetrics | morphsegannot/tools/tools.py:53-70 | the loop returns the metric names of the kept files in listing order, or raises when a name pops from an empty list |
| Tools.SelectionNameSplits | morphsegannot/tools/tools.py:50-56 | a selection file name `{iteration}.{pool}.{metric}.selected` splits into iteration, pool, the metric's parts and `selected` |
| Tools.SelectedTailSplits | morphsegannot/tools/tools.py:56-57 | the `.selected` suffix splits off as the last part |
| Tools.SelectionNameRoundTrip | morphsegannot/tools/tools.py:42-70 | a name written by `get_selections` is kept by `all_metrics` for its own iteration and pool, and gives back the metric (dots included) |
| Tools.OtherIterationDropped | morphsegannot/tools/tools.py:61-64 | a selection of another iteration is skipped |
| Tools.BareSelectedRaises | morphsegannot/tools/tools.py:56-61 | the file name `selected` makes `parts.pop(0)` raise IndexError |
| Tools.MiddleSplits | morphsegannot/tools/tools.py:363-376 | each of the three templates splits on dots into exactly its fields |
| Tools.TwoFieldsSplit | morphsegannot/tools/tools.py:373 | `{id}.{type}` splits into its two fields |
| Tools.ThreeFieldsSplit | morphsegannot/tools/tools.py:375 | `{id}.{metric}.{type}` splits into its three fields |
| Tools.MakeFilenameInjective | morphsegannot/tools/tools.py:363-376 | for dot-free fields (and an id that is not the text None) different type/id/metric choices give different file names, so the template chosen by which fields are None is recoverable |
| Tools.NotLessSplits | morphsegannot/tools/tools.py:25 | two words are equal or one sorts before the other |
| Tools.InsertByWord | morphsegannot/tools/tools.py:25 | inserting one context into a sorted list adds one element |
| Tools.SortByWord | morphsegannot/tools/tools.py:25 | sorting keeps the number of contexts |
| Tools.InsertMembers | morphsegannot/tools/tools.py:25 | insertion adds exactly the inserted context |
| Tools.InsertWithWord | morphsegannot/tools/tools.py:25 | insertion is stable: among contexts of one word, the new one goes last |
| Tools.SortWithWord | morphsegannot/tools/tools.py:25 | `sorted` is stable: the contexts of each word keep their input order |
| Tools.InsertSorted | morphsegannot/tools/tools.py:25 | insertion keeps the list sorted by word |
| Tools.SortSorted | morphsegannot/tools/tools.py:25 | the result of sorting is sorted by word |
| Tools.GroupByWord | morphsegannot/tools/tools.py:26 | `groupby` yields no group exactly for no contexts |
| Tools.WithWordMember | morphsegannot/tools/tools.py:26 | a non-empty set of contexts of a word comes from contexts with that word |
| Tools.WithWordNone | morphsegannot/tools/tools.py:26 | a word no context has has no contexts |
| Tools.GroupsOfSorted | morphsegannot/tools/tools.py:25-26 | on contexts sorted by word, `groupby` gives one group per distinct word, each holding exactly that word's contexts in order |
| Tools.WithWordSnoc | morphsegannot/tools/tools.py:26 | one more context joins the contexts of its own word only |
| Tools.GroupsJoin | morphsegannot/tools/tools.py:26 | a context with the same word as the open group joins that group |
| Tools.NewWordUnseen | morphsegannot/tools/tools.py:25-26 | in sorted input, a context whose word differs from the open group's has a word not met before |
| Tools.GroupsNew | morphsegannot/tools/tools.py:26 | such a context opens a new group |
| Tools.GroupsCover | morphsegannot/tools/tools.py:26 | every context's word has a group |
| Tools.KeptOf | morphsegannot/tools/tools.py:150-156 | one stored `[left, right, id]` record per kept context |
| Tools.KeptOfSnoc | morphsegannot/tools/tools.py:156 | keeping one more context appends its record |
| Tools.DedupStep | morphsegannot/tools/tools.py:144-149 | the seen set of immediate pairs grows by the current pair, and the context is kept iff its pair was not seen |
| Tools.KeepStep | morphsegannot/tools/tools.py:144-156 | one iteration of the inner loop keeps `seen` and the stored list equal to the seen pairs and records of the first context per pair |
| Tools.PutSnoc | morphsegannot/tools/tools.py:141-156 | appending to the defaultdict list of a word extends what is stored for it |
| Tools.PutFacts | morphsegannot/tools/tools.py:141-156 | storing under one word extends that word's list only, and no stored list is empty |
| Tools.KeepGroup | morphsegannot/tools/tools.py:142-156 | one group of contexts stores, for its word, the first context of each immediate-neighbour pair, in input order, and leaves other words alone |
| Tools.RemoveRedundant | morphsegannot/tools/tools.py:140-157 | `_remove_redundant` stores for every word exactly the records collected from its groups, and no empty list |
| Tools.CollectedAt | morphsegannot/tools/tools.py:140-157 | with one group per word, a word's records are those of its group |
| Tools.CollectedNone | morphsegannot/tools/tools.py:140-157 | a word with no group gets no records |
| Tools.GroupedContexts | morphsegannot/tools/tools.py:23-28 | after sorting and grouping, a word's records are the first context for each distinct immediate-neighbour pair among that word's contexts, in input order |
| Tools.GetContexts | morphsegannot/tools/tools.py:23-28 | `get_contexts` has an entry exactly for the words that have contexts, each holding the first context per immediate pair in input order |
| Grouping.MembersAppend | morphsegannot/tools/tools.py:222-223 | the words of two concatenated lists are the union of their words |
| Grouping.MembersSnoc | morphsegannot/tools/tools.py:223-231 | the words met after one more step are the old ones plus the current word |
| Grouping.RecordWordsAppend | morphsegannot/tools/tools.py:222-241 | the words of concatenated record lists are the concatenated words |
| Grouping.UnseenAppend | morphsegannot/tools/tools.py:222-233 | skipping nonwords distributes over concatenation |
| Grouping.PoolRecordWords | morphsegannot/tools/tools.py:223-241 | a pool yields one record per word that is not a nonword, in pool order |
| Grouping.PoolRecordsClassified | morphsegannot/tools/tools.py:223-241 | each record of a pool carries that pool's id and metric, is `goldstd` with the stored analysis for an annotated word, and `unseen` with analysis None otherwise |
| Grouping.AllRecordWords | morphsegannot/tools/tools.py:222-241 | over all pools, the records' words are the pools' words in order, nonwords skipped |
| Grouping.AllRecordsClassified | morphsegannot/tools/tools.py:222-241 | every pool record is classified as gold-standard or unseen as above |
| Grouping.ListedStep | morphsegannot/tools/tools.py:242-253 | one iteration of a trailing loop lists one more word of its set |
| Grouping.DistinctSnoc | morphsegannot/tools/tools.py:242-253 | a trailing record for a word not yet listed keeps the listed words distinct |
| Grouping.RecordWordSetSnoc | morphsegannot/tools/tools.py:242-253 | the listed words grow by the record's word |
| Grouping.ListSet | morphsegannot/tools/tools.py:242-253 | a trailing loop yields one record per word of its set, each word once, with no id or metric, carrying the stored analysis (or `('!',)` for nonwords) |
| Grouping.EmitPool | morphsegannot/tools/tools.py:223-241 | one pool's loop yields its records and removes its words from both unclaimed sets |
| Grouping.Emit | morphsegannot/tools/tools.py:222-253 | the output is the pool records, then one `unclaimed_new` per new word in no pool, one `unclaimed_old` per old word in no pool, one `nonword` per nonword |
| Grouping.AnnotatedWordsSnoc | morphsegannot/tools/tools.py:214-215 | `unclaimed_new` grows by each new annotation's word |
| Grouping.OverlayLookup | morphsegannot/tools/tools.py:210-221 | after overlaying annotations, a word maps to its last annotation if it has one, and to its earlier value otherwise |
| Grouping.OverlayKeys | morphsegannot/tools/tools.py:210-221 | the overlay's words are the old words plus the annotated ones |
| Grouping.NewOverridesOld | morphsegannot/tools/tools.py:209-221 | a new annotation for a word overrides the old one; an identical new analysis leaves the value as it was |
| Grouping.CombineWithOldAnnotations | morphsegannot/tools/tools.py:209-253 | `combine_with_old_annotations` yields the records Emit describes, over old annotations overridden by new ones, with unclaimed_new the new words and unclaimed_old the old words |
| Grouping.Wrapped | morphsegannot/tools/tools.py:258-259 | each oracle annotation becomes a one-element list of analyses |
| Grouping.WrappedWords | morphsegannot/tools/tools.py:258-259 | wrapping keeps the annotated words |
| Grouping.AddAllKeys | morphsegannot/tools/tools.py:267-277 | adding new analyses stores exactly the old words plus the new annotations' words |
| Grouping.AddAllExtends | morphsegannot/tools/tools.py:267-277 | each stored list only grows, keeping its earlier entries as a prefix |
| Grouping.AddAllStores | morphsegannot/tools/tools.py:267-277 | every new analysis ends up in its word's list |
| Grouping.AddAllOnly | morphsegannot/tools/tools.py:267-277 | a list holds only what was there before and new analyses of that word |
| Grouping.AddAllNoDups | morphsegannot/tools/tools.py:269-275 | an analysis already present is not added again, so a duplicate-free list stays duplicate-free |
| Grouping.TakeOld | morphsegannot/tools/tools.py:260-264 | the loop over `old` records its words in order and overrides the oracle's lists |
| Grouping.AddNew | morphsegannot/tools/tools.py:265-277 | the loop over `new` adds the analyses as AddAll says and collects the new words |
| Grouping.CombineSingle | morphsegannot/tools/tools.py:256-310 | `combine_single` yields the records Emit describes for one pool (old words then the selection, under pool_id and metric), over the merged analysis lists |
| Selection.BaseFeaturesFacts | morphsegannot/tools/selection.py:19-41 | no `viterbi` feature when need_nbest is 0, a one-element list from `viterbi_analyze` when it is 1; with need_forward the forward logp is stored and `uncertainty` is the best Viterbi logp minus it, which fails (KeyError) when need_nbest is 0 |
| Selection.Categories | morphsegannot/tools/selection.py:440-472 | the category list has one entry per morph of the Viterbi analysis, in order |
| Selection.StemPairExists | morphsegannot/tools/selection.py:438-448 | Category's loop returns True iff some adjacent pair of categories are both STM or ZZZ |
| Selection.RealsLessIrreflexive | morphsegannot/tools/selection.py:373 | Python's tuple order on MorphLogp's (score, uncertainty) keys is irreflexive |
| Selection.RealsLessTransitive | morphsegannot/tools/selection.py:373 | that order is transitive |
| Selection.RealsLessTotal | morphsegannot/tools/selection.py:373 | that order is total |
| Selection.LessIrreflexive | morphsegannot/tools/selection.py:86 | the (score, word) order of ScoredWord tuples is irreflexive |
| Selection.LessTransitive | morphsegannot/tools/selection.py:86 | the (score, word) order is transitive |
| Selection.LessTotal | morphsegannot/tools/selection.py:86 | the (score, word) order is total, so ties on score are broken by the word |
| Selection.NotLess | morphsegannot/tools/selection.py:86 | two scored words are equal or one sorts before the other |
| Selection.Insert | morphsegannot/tools/selection.py:86 | inserting into a sorted list adds one element |
| Selection.Sort | morphsegannot/tools/selection.py:86 | sorting keeps the length |
| Selection.InsertPermutes | morphsegannot/tools/selection.py:86 | insertion adds exactly the inserted element |
| Selection.SortPermutes | morphsegannot/tools/selection.py:86 | `sorted` returns a permutation of its input |
| Selection.InsertAscending | morphsegannot/tools/selection.py:86 | insertion keeps a list ascending in (score, word) order |
| Selection.SortAscending | morphsegannot/tools/selection.py:86 | `sorted` returns an ascending list |
| Selection.Reverse | morphsegannot/tools/selection.py:86 | reversing keeps the length |
| Selection.ReverseAt | morphsegannot/tools/selection.py:86 | position i of the reversed list holds the element at the mirrored position |
| Selection.ReversePermutes | morphsegannot/tools/selection.py:86 | reversing is a permutation |
| Selection.ReverseDescending | morphsegannot/tools/selection.py:86 | reversing an ascending list gives a descending one |
| Selection.SortedFacts | morphsegannot/tools/selection.py:84-87 | `sorted(scored, reverse=descending)` is a permutation of the scored words, descending iff `descending`, ascending otherwise |
| Selection.ScoredWords | morphsegannot/tools/selection.py:494-496 | the words of a scored list, position by position |
| Selection.ScoredWordsAppend | morphsegannot/tools/selection.py:494-496 | the words of concatenated lists are concatenated |
| Selection.ScoredWordsPermutes | morphsegannot/tools/selection.py:84-87 | permuting scored words permutes their words |
| Selection.ScoredWordsAsMap | morphsegannot/tools/selection.py:341 | the words of a scored list are the list mapped to its words |
| Selection.FeatureWords | morphsegannot/tools/selection.py:47 | the words of a feature list, position by position |
| Selection.FeatureWordsSnoc | morphsegannot/tools/selection.py:47 | one more bundle appends its word |
| Selection.ScoresRaise | morphsegannot/tools/selection.py:101-482 | a metric's score generator raises iff scoring some bundle raises (missing feature, division by an empty word, `min` of an empty list) |
| Selection.ScoresWordsStep | morphsegannot/tools/selection.py:101-482 | scoring one more kept bundle appends that bundle's word |
| Selection.ScoredWordsSnoc | morphsegannot/tools/selection.py:101-482 | appending a scored word appends its word |
| Selection.YieldKeepsWord | morphsegannot/tools/selection.py:101-482 | every yielded ScoredWord carries its bundle's word |
| Selection.ScoresWords | morphsegannot/tools/selection.py:101-482 | `score` yields one ScoredWord per bundle the metric keeps, in input order: Margin drops words with fewer than two analyses, AlphaBracket drops words the two models agree on, Category keeps words with a STM/ZZZ pair, NoStm keeps words with no STM |
| Selection.RankFacts | morphsegannot/tools/selection.py:84-87 | `AbstractMetric.rank` returns a permutation of `score`'s output, descending iff the metric says so |
| Selection.AllFeaturesFacts | morphsegannot/tools/selection.py:19-47 | `calculate_features` yields one bundle per word, in order, and fails iff some word's bundle fails |
| Selection.SelectorRankFacts | morphsegannot/tools/selection.py:55-87 | `Selector.rank` of a sort-based metric succeeds iff every bundle can be computed and scored, and then returns the kept words' scores as a permutation in the metric's order |
| Selection.CategoryKeeps | morphsegannot/tools/selection.py:438-457 | Category keeps a word iff its Viterbi analysis has an adjacent pair of categories both in {STM, ZZZ} (the docstring's SUF/ZZZ is not what the code checks) |
| Selection.NoStmKeeps | morphsegannot/tools/selection.py:470-482 | NoStm keeps a word iff no morph of its Viterbi analysis is STM |
| Selection.MarginKeeps | morphsegannot/tools/selection.py:117-128 | Margin keeps a word iff it has at least two n-best analyses |
| Selection.AlphaBracketKeeps | morphsegannot/tools/selection.py:398-425 | AlphaBracket keeps a word iff the two models' Viterbi morphs differ |
| Selection.FeaturesSuffice | morphsegannot/tools/selection.py:101-482 | once a bundle is computed, scoring it does not raise, given a non-empty word for Logp and a non-empty analysis for MorphLogp |
| Selection.CalculateFeaturesDefined | morphsegannot/tools/selection.py:19-47 | every metric's bundle can be computed, given an n-best list for Margin and a non-empty word for the normalised AlphaBracket |
| Selection.SliceTo | morphsegannot/tools/selection.py:494 | Python's `ranked[:n]`: the first n elements for n >= 0, all but the last -n for negative n |
| Selection.WriteSelected | morphsegannot/tools/selection.py:491-497 | `write_selected` returns the words of `ranked[:n]` in order, min(n, len) of them for n >= 0 |
| Selection.ZLog | morphsegannot/tools/selection.py:500-506 | the assertion fails on negative input, zero gives LOGPROB_ZERO = 1000000, and a positive x gives -log(x) |
| Greedy.Scored | morphsegannot/tools/selection.py:240-242 | the i-th item returned by a greedy rank is the i-th pick scored under the masks left by the picks before it |
| Greedy.ScoredSnoc | morphsegannot/tools/selection.py:241-242 | one more round appends the new pick's score |
| Greedy.ScoredWordsOfScored | morphsegannot/tools/selection.py:241-242 | the words of the returned items are the picks, in order |
| Greedy.GreedyStep | morphsegannot/tools/selection.py:245-248 | picking a maximal remaining word keeps the picks greedy |
| Greedy.RoundStep | morphsegannot/tools/selection.py:240-242 | one round keeps the picks greedy, keeps pool plus picks equal to the input, and appends the pick's score |
| Greedy.NonIncreasingAt | morphsegannot/tools/selection.py:221-341 | with non-negative weights and growing masks, each returned score is at least the next one |
| Greedy.GreedyNonIncreasing | morphsegannot/tools/selection.py:221-341 | the scores a greedy rank returns never increase |
| Greedy.GreedyNoDups | morphsegannot/tools/selection.py:235-341 | from a duplicate-free pool no word is picked twice |
| Greedy.RepeatCount | morphsegannot/tools/selection.py:240-254 | a word picked twice occurs twice |
| Greedy.NoDupsCount | morphsegannot/tools/selection.py:240-254 | a duplicate-free list holds each word at most once |
| Greedy.PickIsBest | morphsegannot/tools/selection.py:245-248 | `sorted(..., reverse=True).pop(0)` is a maximal remaining word in (score, word) order |
| Greedy.PickRest | morphsegannot/tools/selection.py:245-254 | the pool returned is exactly the others: picked word plus returned pool is the old pool |
| SubstringCoverage.SubCount | morphsegannot/tools/selection.py:210-211 | `range(2, min(maxlen, len(word)) + 1)` has k items, and then the word has at least k+1 letters |
| SubstringCoverage.SubstringsFacts | morphsegannot/tools/selection.py:207-214 | `_substrings` returns max(0, min(maxlen, len)-1) prefixes and as many suffixes, of lengths 2, 3, ... in order, exactly the prefixes (suffixes) of those lengths, without repeats, and none for words shorter than 2 |
| SubstringCoverage.InitialsFacts | morphsegannot/tools/selection.py:207-214 | the k-th initial substring has length k+2, and the initial substrings are exactly the prefixes of lengths 2..min(maxlen, len), without repeats |
| SubstringCoverage.FinalsFacts | morphsegannot/tools/selection.py:207-214 | the same for the final substrings and suffixes |
| SubstringCoverage.SubsNoDups | morphsegannot/tools/selection.py:207-214 | neither list holds a substring twice, so each is counted once per word |
| SubstringCoverage.SubsOfSnoc | morphsegannot/tools/selection.py:249-253 | the substrings of one more word are the old ones plus that word's |
| SubstringCoverage.AddFacts | morphsegannot/tools/selection.py:179-181 | `counter[sub] += x` adds x to that key only, and a missing key counts as 0 |
| SubstringCoverage.PutFacts | morphsegannot/tools/selection.py:190-192 | `counter[sub] = x` sets that key only and keeps the weights non-negative for x >= 0 |
| SubstringCoverage.TallyFacts | morphsegannot/tools/selection.py:178-181 | counting a duplicate-free list adds 1 to each of its substrings and nothing else |
| SubstringCoverage.CountsFacts | morphsegannot/tools/selection.py:174-181 | after the counting loop, each substring's count is the number of words that have it as an initial (final) substring |
| SubstringCoverage.LenCountPositive | morphsegannot/tools/selection.py:202 | every length of a stored key is counted at least once |
| SubstringCoverage.ScaleFacts | morphsegannot/tools/selection.py:204-205 | dividing by the length's sum and multiplying by its count scales by count/sum, and keeps non-negative weights non-negative |
| SubstringCoverage.LenSumScaled | morphsegannot/tools/selection.py:200-205 | scaling every weight of a length scales their sum |
| SubstringCoverage.LenSumPositive | morphsegannot/tools/selection.py:201 | a length with a positive weight has a positive sum, so `_normalize` never divides by zero |
| SubstringCoverage.LenSumNonNegative | morphsegannot/tools/selection.py:201 | sums of non-negative weights are non-negative |
| SubstringCoverage.NormalizedSums | morphsegannot/tools/selection.py:195-205 | after `_normalize`, the weights of each length sum to the number of distinct substrings of that length |
| SubstringCoverage.NormalizedAt | morphsegannot/tools/selection.py:203-205 | each weight is divided by its length's sum and multiplied by its length's count |
| SubstringCoverage.NormalizedFrom | morphsegannot/tools/selection.py:203-205 | a table holding the normalised value at every key is the normalised table |
| SubstringCoverage.CountsLenSums | morphsegannot/tools/selection.py:174-201 | every length present in the counts has a positive sum, and counts are non-negative |
| SubstringCoverage.CountsNormalizable | morphsegannot/tools/selection.py:182-184 | the counted tables can be normalised and stay non-negative |
| SubstringCoverage.ZeroAllFacts | morphsegannot/tools/selection.py:188-192 | zeroing a list of substrings sets exactly those to 0 |
| SubstringCoverage.ZeroedFacts | morphsegannot/tools/selection.py:186-192 | after zeroing, every substring of a seen word has weight 0 and other weights are unchanged |
| SubstringCoverage.ConfiguredFacts | morphsegannot/tools/selection.py:172-193 | the configured tables are non-negative; substrings of seen words weigh 0, since zeroing runs after normalisation; other weights are the counts, or the normalised counts with `normalize` |
| SubstringCoverage.UnmaskedSumMonotone | morphsegannot/tools/selection.py:226-231 | with non-negative weights, a larger mask never gives a larger score |
| SubstringCoverage.ScorerFacts | morphsegannot/tools/selection.py:221-233 | the score keeps the word and never rises as the masks grow |
| SubstringCoverage.RankScoresFall | morphsegannot/tools/selection.py:235-254 | the scores `rank` returns are non-increasing |
| SubstringCoverage.IFSubstringMetric.constructor | morphsegannot/tools/selection.py:157-170 | a new metric keeps `normalize` and `maxlen`, has empty masks and is not configured |
| SubstringCoverage.IFSubstringMetric.Substrings | morphsegannot/tools/selection.py:207-214 | the loop builds the initial and final substrings |
| SubstringCoverage.IFSubstringMetric.Count | morphsegannot/tools/selection.py:178-181 | the `+= 1` loop over one substring list |
| SubstringCoverage.IFSubstringMetric.Totals | morphsegannot/tools/selection.py:198-202 | `sum_by_len` and `count_by_len` hold the sum and the number of keys of each length |
| SubstringCoverage.IFSubstringMetric.Normalize | morphsegannot/tools/selection.py:195-205 | `_normalize` rescales every weight as Normalized says |
| SubstringCoverage.IFSubstringMetric.Zero | morphsegannot/tools/selection.py:189-192 | the zeroing loop over one substring list |
| SubstringCoverage.IFSubstringMetric.CountPool | morphsegannot/tools/selection.py:174-181 | the counting loop over all words fills both Counters |
| SubstringCoverage.IFSubstringMetric.ZeroSeen | morphsegannot/tools/selection.py:186-192 | the zeroing loop over the seen words |
| SubstringCoverage.IFSubstringMetric.Configure | morphsegannot/tools/selection.py:172-193 | `configure` sets both tables to the configured weights, sets `configured`, and leaves the masks alone |
| SubstringCoverage.IFSubstringMetric.MaskedSum | morphsegannot/tools/selection.py:226-231 | the score loop sums the weights of the unmasked substrings |
| SubstringCoverage.IFSubstringMetric.Score | morphsegannot/tools/selection.py:221-233 | one ScoredWord per word, scored under the current masks |
| SubstringCoverage.IFSubstringMetric.SelectBest | morphsegannot/tools/selection.py:245-254 | the pick is maximal in (score, word) order among the remaining words, its substrings are added to the masks, and the returned pool is exactly the others |
| SubstringCoverage.IFSubstringMetric.AddToMasks | morphsegannot/tools/selection.py:250-253 | the mask loops add exactly the pick's substrings |
| SubstringCoverage.IFSubstringMetric.Rank | morphsegannot/tools/selection.py:235-243 | `rank` fails without n, resets the masks, returns min(n, len(words)) greedy picks each scored under the masks of the earlier picks, and ends with the masks of all picks |
| SubstringCoverage.IFSubstringMetric.SelectorRank | morphsegannot/tools/selection.py:55-68 | `Selector.rank` configures the metric on the pool if it was not configured and then ranks greedily |
| BoundaryCoverage.FindFacts | morphsegannot/tools/selection.py:283-288 | a found entry of a length's dict is stored in it, and a stored morph is found |
| BoundaryCoverage.StoreFacts | morphsegannot/tools/selection.py:283 | `by_length[len][morph] = ...` sets that morph only and keeps every key of the right length |
| BoundaryCoverage.ByLengthFind | morphsegannot/tools/selection.py:280-284 | looking a morph up in its length's dict gives the summed counts of its lexicon entry (the last one), or nothing for a morph longer than 8 or absent |
| BoundaryCoverage.ByLengthShape | morphsegannot/tools/selection.py:266-284 | `seen_max` never exceeds max_len = 8, every dict holds morphs of its own length, and no non-empty length exceeds `seen_max` |
| BoundaryCoverage.BumpRead | morphsegannot/tools/selection.py:290-297 | `weights[m] += v` adds v to m only, and an unset weight reads 0 |
| BoundaryCoverage.LinkRead | morphsegannot/tools/selection.py:288-297 | one link adds `count_longer * count_shorter` to both the morph and the submorph |
| BoundaryCoverage.LevelRead | morphsegannot/tools/selection.py:286-298 | one length's loop adds that length's link gain to every weight |
| BoundaryCoverage.LevelsRead | morphsegannot/tools/selection.py:285-298 | after the loop over lengths 2..seen_max each weight is the total gain of its links |
| BoundaryCoverage.LevelGainSupport | morphsegannot/tools/selection.py:286-298 | a morph gains weight at one length only if it is a morph or a submorph there |
| BoundaryCoverage.GainSupport | morphsegannot/tools/selection.py:285-298 | only lexicon morphs of length at most 8 get a positive weight |
| BoundaryCoverage.LevelGainAtLeast | morphsegannot/tools/selection.py:286-298 | a length's gain is at least that of any one of its morphs |
| BoundaryCoverage.GainAtLeast | morphsegannot/tools/selection.py:285-298 | the total gain is at least the gain of any one length |
| BoundaryCoverage.LinkWeight | morphsegannot/tools/selection.py:286-298 | for a length-i morph whose `morph[1:]` or `morph[:-1]` is a length-(i-1) lexicon morph, both weights gain at least `count_longer * count_shorter` (twice when both drops give the same submorph) |
| BoundaryCoverage.LinkWeightAt | morphsegannot/tools/selection.py:286-298 | the same, for the morph at a given position of its length's dict |
| BoundaryCoverage.ByLengthFindAt | morphsegannot/tools/selection.py:280-284 | a morph is found in its length's dict iff it is a short enough lexicon morph |
| BoundaryCoverage.SeenMaxAt | morphsegannot/tools/selection.py:284-285 | every non-empty length is in the range the weighing loop visits |
| BoundaryCoverage.AnalysisMorphs | morphsegannot/tools/selection.py:303-305 | one morph string per morph of the Viterbi analysis |
| BoundaryCoverage.MorphSetSnoc | morphsegannot/tools/selection.py:338-340 | the morphs of one more word are the old ones plus that word's |
| BoundaryCoverage.ZeroAllRead | morphsegannot/tools/selection.py:304-305 | zeroing a word's morphs sets exactly those weights to 0 |
| BoundaryCoverage.ZeroSeenRead | morphsegannot/tools/selection.py:301-305 | after zeroing, the morphs of every seen word weigh 0 and other weights are unchanged |
| BoundaryCoverage.ConfiguredFacts | morphsegannot/tools/selection.py:271-306 | a configured weight is 0 for a morph of a seen word and the total link gain otherwise, and only lexicon morphs weigh anything |
| BoundaryCoverage.UnmaskedWeightMonotone | morphsegannot/tools/selection.py:315-318 | a larger mask never gives a larger score |
| BoundaryCoverage.FeaturesFacts | morphsegannot/tools/selection.py:19-41 | the bundle for this metric always exists, holds the Viterbi analysis and the uncertainty |
| BoundaryCoverage.ScorerFacts | morphsegannot/tools/selection.py:312-321 | the score keeps the word and never rises as the mask grows |
| BoundaryCoverage.PairNotLess | morphsegannot/tools/selection.py:320-336 | one (score, uncertainty) pair not below another is at least it on score, and on uncertainty when the scores tie |
| BoundaryCoverage.RankScoresFall | morphsegannot/tools/selection.py:323-341 | each returned score is the pair (weight, uncertainty of the word), and the weights never rise from one pick to the next, nor the uncertainty where the weights tie |
| BoundaryCoverage.PairsFall | morphsegannot/tools/selection.py:323-341 | a non-increasing list of pair scores falls on the first component, and on the second where the first ties |
| BoundaryCoverage.OneOffBoundaryMetric.constructor | morphsegannot/tools/selection.py:268-269 | a new metric has no weights, an empty mask and is not configured |
| BoundaryCoverage.OneOffBoundaryMetric.CollectByLength | morphsegannot/tools/selection.py:278-284 | the lexicon loop builds the by-length dicts and `seen_max` |
| BoundaryCoverage.OneOffBoundaryMetric.WeighMorph | morphsegannot/tools/selection.py:287-298 | the two link tests for one morph |
| BoundaryCoverage.OneOffBoundaryMetric.WeighLevel | morphsegannot/tools/selection.py:286-298 | the loop over one length's morphs |
| BoundaryCoverage.OneOffBoundaryMetric.ZeroWords | morphsegannot/tools/selection.py:301-305 | the zeroing loop over the seen words |
| BoundaryCoverage.OneOffBoundaryMetric.Configure | morphsegannot/tools/selection.py:271-306 | `configure` sets the weights to the configured table, empties the mask and sets `configured` |
| BoundaryCoverage.OneOffBoundaryMetric.MaskedWeight | morphsegannot/tools/selection.py:314-318 | the score loop sums the weights of the unmasked morphs |
| BoundaryCoverage.OneOffBoundaryMetric.Score | morphsegannot/tools/selection.py:312-321 | one ScoredWord per word, scored (weight, uncertainty) under the current mask |
| BoundaryCoverage.OneOffBoundaryMetric.AddToMask | morphsegannot/tools/selection.py:338-340 | the mask loop adds exactly the pick's morphs |
| BoundaryCoverage.OneOffBoundaryMetric.Pick | morphsegannot/tools/selection.py:335-341 | the pick is maximal among the remaining words and the rest is exactly the others |
| BoundaryCoverage.OneOffBoundaryMetric.SelectBest | morphsegannot/tools/selection.py:334-341 | `_select_best` picks a maximal word, adds its morphs to the mask and returns exactly the others |
| BoundaryCoverage.OneOffBoundaryMetric.Rank | morphsegannot/tools/selection.py:323-332 | `rank` fails without n, resets the mask, returns min(n, len(words)) greedy picks each scored under the mask of the earlier picks |
| BoundaryCoverage.OneOffBoundaryMetric.SelectorRank | morphsegannot/tools/selection.py:55-68 | `Selector.rank` configures the metric if needed and then ranks greedily |

## Left out

- The segmentation model itself is not modelled. FlatCat's `viterbi_analyze`, `viterbi_nbest`, `forward_logprob`, `get_lexicon` and the emission costs behind MorphLogp are the function fields of `Selection.Oracle`. `AlphaBracketMetric.set_models` is the choice of the two oracles, and `initialize_hmm` is not modelled.
- Floating point is not modelled. Margin's `math.exp` is the parameter `gap`. `zlog`'s `-math.log` is the parameter `log`, and only the zero sentinel and the negative-input assertion are stated. Cohen's kappa and the agreement ratios of `scripts/compare_annotators.py:93-104` are left out.
- AnnotationUi.Annotator.WriteAnnotation: the annotations file is a list of records, one per line. A submitted tag holding a line break would split its record in two when the file is read back; the model does not capture that.
- Selection.SelectorRank: `Selector.configure` and `Selector.rank` swallow the `AttributeError` raised by a metric without `configure` (Uncertainty, Margin, Logp, AlphaBracket, Category and NoStm), which then run unconfigured. `MorphLogpMetric.configure` (selection.py:358-360) only binds the Selector's model and sets `configured`, and the model reads MorphLogp's emissions from the Selector's own oracle (`Selection.CustomOf`), which is what that call binds. The model does not capture a `MorphLogpMetric` that was already configured with another model: `Selector.rank` then skips `configure` (selection.py:61-62), and the metric keeps reading the other model's emissions.
- SubstringCoverage.IFSubstringMetric: `_select_best` returns the scored items themselves as the next pool, and `score` reads their `.word`. The model keeps the pool as a list of words, which is the same selection.
- SubstringCoverage.IFSubstringMetric: before `configure`, the weight tables are `None`. The model starts them as empty counters, with `configured` false.
- BoundaryCoverage.OneOffBoundaryMetric: scored items wrap the whole `WordFeatures` tuple, so a tie on (weight, uncertainty) is decided by the word first. The model breaks ties on the word only. Only the same word listed twice could tie beyond that.
- BoundaryCoverage.OneOffBoundaryMetric: the weights and mask exist only once `configure` and `rank` have run. The model starts them empty.
- Grouping.CombineWithOldAnnotations, Grouping.CombineSingle: `nonwords` is iterated as a list, so a nonword listed twice gives two `nonword` records. The model takes the nonwords as a set, with one record each.
- Grouping.Emit: the trailing `unclaimed_new`, `unclaimed_old` and `nonword` records come from iterating Python sets. The model fixes no order among them and states their membership and counts.
- Tools.CombinePoolsAlwaysRaises: models pools whose words are a list. A pool straight from `get_pools` or `get_selections` holds the generator `read_wordlist` returns (tools.py:39, 51, 97-104). A generator can be hashed, so the written code would return a pool of the id, metric and generator objects instead of raising. The model has no such pools.
- Tools.RemoveRedundant: the md5 hash that identifies a context is the opaque parameter `idOf`.
- `_find_contexts` and `_read_corpus` are not modelled. They scan a corpus file and apply NFKC normalisation. `get_contexts` is modelled over their result.
- File I/O is not modelled:
  - `read_wordlist`, `read_annotation_log` and `read_old_annotations` (FlatcatIO parsing);
  - `write_scores`;
  - the file handles of `MultiFileAnnotationWriter.write`. Only `_make_filename` is modelled.
  - the annotators' log and user files.
- The web server parts of `morphsegannot/annotation_ui.py` are not modelled:
  - the Bottle routes, `auth_basic`, `check_pw` and static files;
  - `get_config`, `read_contexts`, `mkdirs` and `log`;
  - the md5 uid, which is a parameter of `Login`.
  The answer-recording part of the word endpoint is modelled (`AnnotationUi.RecordWord`).
- `Annotator.get_words` and `_ensure` are not modelled: they only call `read_words` with the annotator's files. `read_words` itself is modelled over the lines of the list.
- `Annotator.write_annotcontexts` and `Annotator.stats` are not modelled: they are file output and a count for display.
- `AnnotatorFactory.reload` is not modelled: it rebuilds every annotator from a new configuration read from disk.
- `pool_progress` is not modelled: it is a progress-reporting wrapper.
- `get_pools`, `get_selections`, `_format_analyses` and `_format_analysis` are not modelled: they are file reading and output formatting.
- `morphsegannot/tools/representative.py` is not part of this model: it is k-medoids over a numpy Levenshtein matrix, with random restarts.
- `html/js/app.js` is not part of this model: it is the browser UI.
- The command-line scripts are not modelled except for the computations of `compare_annotators.py` and `corrections.py`. These are the scripts `select_for_elicitation*.py`, `new_annotations*.py`, `paste_annotations*.py`, `process_singleton_iteration.py`, `make_contexts.py`, `representative.py` and `just_ifsubstrings.py`, plus `setup.py`.
- Corrections: the printing of reports and the writing of the merged file are not modelled. The reported lines and the unused set are returned instead.
- CompareAnnotators: the file reads and the printed report are not modelled. The counters are returned.

## Findings

| source | as written | input that shows it | evidently intended | confidence | as-written member | corrected member |
|---|---|---|---|---|---|---|
| morphsegannot/annotation_ui.py:418-425 | `read_words` stops only when `len(words) == truncate` right after adding a word. A word annotated in this iteration lowers `truncate` without that test, so once `truncate` drops to `len(words)` or below, the test never succeeds and every remaining word is read. | `truncate=1`, lines `c`, `a`, `b`, `seen_now={'c'}`: `c` lowers the budget to 0, then `a` and `b` are both collected, two words against a budget of 1 | the budget left after the words already annotated in this iteration caps the words read | not executed | AnnotationUi.ReadWordsOverrun | AnnotationUi.ReadWordsWithinBudget |
| morphsegannot/tools/tools.py:82-93 | `combine_pools` iterates each `Pool` tuple itself (id, metric, words) instead of `pool.words`. When the words are a list, as `filter_pool` makes them, adding that list to `seen` raises `TypeError`. With an empty `pools` list, `pool.id` at line 91 reads an unbound name (`NameError`). Even on success it would return the last pool's id, not the `id` parameter. | `Pool('a', 'm', ['x'])` in the list raises `TypeError`; `pools=[]` raises `NameError` | the words of all pools, each at its first occurrence, under the `id` parameter, with metric `None` | not executed | Tools.CombinePoolsAlwaysRaises | Tools.CombinePools |
