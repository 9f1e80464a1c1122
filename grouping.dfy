/** The annotation records that `combine_with_old_annotations` and
    `combine_single` (morphsegannot/tools/tools.py) hand to the file
    writer. Each word of a pool gives a gold-standard or an unseen record,
    or nothing if it is a nonword. Then come the newly and the previously
    annotated words that no pool claimed, and then the nonwords. */
module Grouping {
  import opened SeqUtil
  import Tools

  datatype Kind = GoldStd | Unseen | UnclaimedNew | UnclaimedOld | Nonword

  /** A record's analysis: None for an unseen word, the stored analysis of
      an annotated word, or the nonword mark `('!',)`. */
  datatype Payload<V> = NoAnalysis | Analysis(value: V) | NonwordMark

  /** `GroupedAnnotation(type, id, metric, word, analysis)`. */
  datatype Record<V> = Record(kind: Kind, id: Option<string>, metric: Option<string>,
                              word: string, analysis: Payload<V>)

  /** The words of a sequence, as a set. */
  function Members(s: seq<string>): set<string>
  {
    set w | w in s
  }

  lemma MembersAppend(a: seq<string>, b: seq<string>)
    ensures Members(a + b) == Members(a) + Members(b)
  {
  }

  lemma MembersSnoc(s: seq<string>, j: int)
    requires 0 <= j < |s|
    ensures Members(s[..j + 1]) == Members(s[..j]) + {s[j]}
  {
    assert s[..j + 1] == s[..j] + [s[j]];
  }

  // ---- the records of the pools ----

  /** What one word of pool `p` yields. */
  function WordRecords<V>(p: Tools.Pool, w: string, byWord: map<string, V>,
                          nonwords: set<string>): seq<Record<V>>
  {
    if w in nonwords then []
    else if w in byWord then [Record(GoldStd, p.id, p.metric, w, Analysis(byWord[w]))]
    else [Record(Unseen, p.id, p.metric, w, NoAnalysis)]
  }

  /** What the words `words` of pool `p` yield, in order. */
  function PoolRecords<V>(p: Tools.Pool, words: seq<string>, byWord: map<string, V>,
                          nonwords: set<string>): seq<Record<V>>
  {
    if words == [] then []
    else
      PoolRecords(p, words[..|words| - 1], byWord, nonwords) +
      WordRecords(p, words[|words| - 1], byWord, nonwords)
  }

  /** What all the pools yield, pool after pool. */
  function AllRecords<V>(pools: seq<Tools.Pool>, byWord: map<string, V>,
                         nonwords: set<string>): seq<Record<V>>
  {
    if pools == [] then []
    else
      var p := pools[|pools| - 1];
      AllRecords(pools[..|pools| - 1], byWord, nonwords) + PoolRecords(p, p.words, byWord, nonwords)
  }

  /** The words of some records, in order. */
  function RecordWords<V>(recs: seq<Record<V>>): seq<string>
  {
    if recs == [] then [] else RecordWords(recs[..|recs| - 1]) + [recs[|recs| - 1].word]
  }

  lemma {:induction false} RecordWordsAppend<V>(a: seq<Record<V>>, b: seq<Record<V>>)
    ensures RecordWords(a + b) == RecordWords(a) + RecordWords(b)
  {
    if b == [] {
      assert a + b == a;
    } else {
      assert (a + b)[..|a + b| - 1] == a + b[..|b| - 1];
      assert (a + b)[|a + b| - 1] == b[|b| - 1];
      RecordWordsAppend(a, b[..|b| - 1]);
    }
  }

  lemma {:induction false} UnseenAppend(a: seq<string>, b: seq<string>, seen: set<string>)
    ensures Tools.Unseen(a + b, seen) == Tools.Unseen(a, seen) + Tools.Unseen(b, seen)
  {
    if b == [] {
      assert a + b == a;
    } else {
      assert (a + b)[..|a + b| - 1] == a + b[..|b| - 1];
      assert (a + b)[|a + b| - 1] == b[|b| - 1];
      UnseenAppend(a, b[..|b| - 1], seen);
    }
  }

  /** A record as the pools yield it: a gold-standard record carries the
      word's stored analysis, an unseen record marks a word with none. */
  predicate Classified<V(==)>(r: Record<V>, byWord: map<string, V>, nonwords: set<string>)
  {
    r.word !in nonwords &&
    (if r.word in byWord then r.kind == GoldStd && r.analysis == Analysis(byWord[r.word])
     else r.kind == Unseen && r.analysis == NoAnalysis)
  }

  /** Pool `p` yields one record per word that is not a nonword, in
      order. */
  lemma {:induction false} PoolRecordWords<V>(p: Tools.Pool, words: seq<string>,
                                              byWord: map<string, V>, nonwords: set<string>)
    ensures RecordWords(PoolRecords(p, words, byWord, nonwords)) == Tools.Unseen(words, nonwords)
  {
    if words != [] {
      var init := words[..|words| - 1];
      PoolRecordWords(p, init, byWord, nonwords);
      RecordWordsAppend(PoolRecords(p, init, byWord, nonwords),
                        WordRecords(p, words[|words| - 1], byWord, nonwords));
    }
  }

  /** Each record of pool `p` is classified by whether its word is
      annotated and carries the pool's id and metric. */
  lemma {:induction false} PoolRecordsClassified<V>(p: Tools.Pool, words: seq<string>,
                                                    byWord: map<string, V>, nonwords: set<string>)
    ensures forall i :: 0 <= i < |PoolRecords(p, words, byWord, nonwords)| ==>
      var r := PoolRecords(p, words, byWord, nonwords)[i];
      Classified(r, byWord, nonwords) && r.id == p.id && r.metric == p.metric
  {
    if words != [] {
      var init := words[..|words| - 1];
      PoolRecordsClassified(p, init, byWord, nonwords);
      var a := PoolRecords(p, init, byWord, nonwords);
      var b := WordRecords(p, words[|words| - 1], byWord, nonwords);
      assert PoolRecords(p, words, byWord, nonwords) == a + b;
      assert forall i :: 0 <= i < |b| ==>
        Classified(b[i], byWord, nonwords) && b[i].id == p.id && b[i].metric == p.metric;
      forall i | 0 <= i < |a + b|
        ensures Classified((a + b)[i], byWord, nonwords) && (a + b)[i].id == p.id && (a + b)[i].metric == p.metric
      {
        if i < |a| {
          assert (a + b)[i] == a[i];
        } else {
          assert (a + b)[i] == b[i - |a|];
        }
      }
    }
  }

  /** All pools together yield one record per pool word that is not a
      nonword, in order. */
  lemma {:induction false} AllRecordWords<V>(pools: seq<Tools.Pool>, byWord: map<string, V>,
                                             nonwords: set<string>)
    ensures RecordWords(AllRecords(pools, byWord, nonwords)) ==
            Tools.Unseen(Tools.AllWords(pools), nonwords)
  {
    if pools != [] {
      var init := pools[..|pools| - 1];
      var p := pools[|pools| - 1];
      AllRecordWords(init, byWord, nonwords);
      PoolRecordWords(p, p.words, byWord, nonwords);
      RecordWordsAppend(AllRecords(init, byWord, nonwords), PoolRecords(p, p.words, byWord, nonwords));
      UnseenAppend(Tools.AllWords(init), p.words, nonwords);
    }
  }

  /** Each record of the pools is classified by whether its word is
      annotated. */
  lemma {:induction false} AllRecordsClassified<V>(pools: seq<Tools.Pool>, byWord: map<string, V>,
                                                   nonwords: set<string>)
    ensures forall i :: 0 <= i < |AllRecords(pools, byWord, nonwords)| ==>
      Classified(AllRecords(pools, byWord, nonwords)[i], byWord, nonwords)
  {
    if pools != [] {
      var init := pools[..|pools| - 1];
      var p := pools[|pools| - 1];
      AllRecordsClassified(init, byWord, nonwords);
      PoolRecordsClassified(p, p.words, byWord, nonwords);
      var a := AllRecords(init, byWord, nonwords);
      var b := PoolRecords(p, p.words, byWord, nonwords);
      assert AllRecords(pools, byWord, nonwords) == a + b;
      forall i | 0 <= i < |a + b| ensures Classified((a + b)[i], byWord, nonwords) {
        if i < |a| {
          assert (a + b)[i] == a[i];
        } else {
          assert (a + b)[i] == b[i - |a|];
        }
      }
    }
  }

  // ---- the trailing records ----

  /** The analysis a trailing record carries. */
  function TrailPayload<V>(kind: Kind, w: string, byWord: map<string, V>): Payload<V>
    requires kind == Nonword || w in byWord
  {
    if kind == Nonword then NonwordMark else Analysis(byWord[w])
  }

  /** The words of some records, as a set. */
  function RecordWordSet<V>(recs: seq<Record<V>>): set<string>
  {
    set i | 0 <= i < |recs| :: recs[i].word
  }

  /** A trailing record of kind `kind` for a word of `words`: no id, no
      metric, and the word's analysis or the nonword mark. */
  predicate Trailing<V(==)>(r: Record<V>, kind: Kind, words: set<string>, byWord: map<string, V>)
    requires kind == Nonword || words <= byWord.Keys
  {
    r.word in words &&
    r == Record(kind, None, None, r.word, TrailPayload(kind, r.word, byWord))
  }

  /** `recs` lists every word of `words` once, in some order, as a trailing
      record of kind `kind`. */
  predicate Lists<V(==)>(recs: seq<Record<V>>, kind: Kind, words: set<string>, byWord: map<string, V>)
    requires kind == Nonword || words <= byWord.Keys
  {
    |recs| == |words| && RecordWordSet(recs) == words &&
    DistinctWords(recs) &&
    (forall i :: 0 <= i < |recs| ==> Trailing(recs[i], kind, words, byWord))
  }

  /** `recs` lists the words of `words` outside `rest`, as `Lists` says. */
  predicate ListedSoFar<V(==)>(recs: seq<Record<V>>, kind: Kind, words: set<string>, rest: set<string>,
                               byWord: map<string, V>)
    requires kind == Nonword || words <= byWord.Keys
  {
    rest <= words && |recs| + |rest| == |words| && RecordWordSet(recs) == words - rest &&
    DistinctWords(recs) &&
    (forall i :: 0 <= i < |recs| ==> Trailing(recs[i], kind, words, byWord))
  }

  lemma ListedStep<V>(recs: seq<Record<V>>, kind: Kind, words: set<string>, rest: set<string>,
                      byWord: map<string, V>, w: string)
    requires kind == Nonword || words <= byWord.Keys
    requires ListedSoFar(recs, kind, words, rest, byWord) && w in rest
    ensures ListedSoFar(recs + [Record(kind, None, None, w, TrailPayload(kind, w, byWord))],
                        kind, words, rest - {w}, byWord)
  {
    var r := Record(kind, None, None, w, TrailPayload(kind, w, byWord));
    var t := recs + [r];
    assert |t| + |rest - {w}| == |words| by {
      assert |rest - {w}| == |rest| - 1;
    }
    assert RecordWordSet(t) == words - (rest - {w}) by {
      RecordWordSetSnoc(recs, r);
    }
    DistinctSnoc(recs, r);
    assert forall i :: 0 <= i < |t| ==> Trailing(t[i], kind, words, byWord) by {
      forall i | 0 <= i < |t| ensures Trailing(t[i], kind, words, byWord) {
        if i < |recs| {
          assert t[i] == recs[i];
        }
      }
    }
  }

  /** Records with pairwise distinct words. */
  predicate DistinctWords<V>(recs: seq<Record<V>>)
  {
    forall i, j :: 0 <= i < j < |recs| ==> recs[i].word != recs[j].word
  }

  lemma DistinctSnoc<V>(recs: seq<Record<V>>, r: Record<V>)
    requires DistinctWords(recs) && r.word !in RecordWordSet(recs)
    ensures DistinctWords(recs + [r])
  {
    var t := recs + [r];
    forall i, j | 0 <= i < j < |t| ensures t[i].word != t[j].word {
      assert t[i] == recs[i];
      if j < |recs| {
        assert t[j] == recs[j];
      } else {
        assert recs[i].word in RecordWordSet(recs);
      }
    }
  }

  lemma RecordWordSetSnoc<V>(recs: seq<Record<V>>, r: Record<V>)
    ensures RecordWordSet(recs + [r]) == RecordWordSet(recs) + {r.word}
  {
    var t := recs + [r];
    forall x | x in RecordWordSet(t) ensures x in RecordWordSet(recs) + {r.word} {
      var i :| 0 <= i < |t| && t[i].word == x;
      if i < |recs| {
        assert t[i] == recs[i];
      }
    }
    forall x | x in RecordWordSet(recs) ensures x in RecordWordSet(t) {
      var i :| 0 <= i < |recs| && recs[i].word == x;
      assert t[i] == recs[i];
    }
    assert t[|recs|] == r;
  }

  /** `for word in s: yield GroupedAnnotation(kind, None, None, word, ...)`
      over a set, whose iteration order Python leaves open. */
  method ListSet<V(==)>(words: set<string>, kind: Kind, byWord: map<string, V>)
    returns (recs: seq<Record<V>>)
    requires kind == Nonword || words <= byWord.Keys
    ensures Lists(recs, kind, words, byWord)
  {
    recs := [];
    var rest := words;
    while rest != {}
      invariant ListedSoFar(recs, kind, words, rest, byWord)
      decreases |rest|
    {
      var w :| w in rest;
      ListedStep(recs, kind, words, rest, byWord, w);
      recs := recs + [Record(kind, None, None, w, TrailPayload(kind, w, byWord))];
      rest := rest - {w};
    }
  }

  // ---- the shared loop ----

  /** The inner loop over one pool: takes each word out of both unclaimed
      sets and yields its records. */
  method EmitPool<V(==)>(p: Tools.Pool, byWord: map<string, V>, nonwords: set<string>,
                     unclaimedNew0: set<string>, unclaimedOld0: set<string>)
    returns (recs: seq<Record<V>>, unclaimedNew: set<string>, unclaimedOld: set<string>)
    ensures recs == PoolRecords(p, p.words, byWord, nonwords)
    ensures unclaimedNew == unclaimedNew0 - Members(p.words)
    ensures unclaimedOld == unclaimedOld0 - Members(p.words)
  {
    recs, unclaimedNew, unclaimedOld := [], unclaimedNew0, unclaimedOld0;
    var j := 0;
    while j < |p.words|
      invariant 0 <= j <= |p.words|
      invariant recs == PoolRecords(p, p.words[..j], byWord, nonwords)
      invariant unclaimedNew == unclaimedNew0 - Members(p.words[..j])
      invariant unclaimedOld == unclaimedOld0 - Members(p.words[..j])
    {
      var word := p.words[j];
      MembersSnoc(p.words, j);
      assert p.words[..j + 1][..j] == p.words[..j];
      unclaimedNew := unclaimedNew - {word};
      unclaimedOld := unclaimedOld - {word};
      if word in nonwords {
      } else if word in byWord {
        recs := recs + [Record(GoldStd, p.id, p.metric, word, Analysis(byWord[word]))];
      } else {
        recs := recs + [Record(Unseen, p.id, p.metric, word, NoAnalysis)];
      }
      j := j + 1;
    }
    assert p.words[..j] == p.words;
  }

  /** `out` is what the pools yield, then the unclaimed new words, the
      unclaimed old words and the nonwords, each listed once. */
  ghost predicate Emitted<V(!new)>(out: seq<Record<V>>, pools: seq<Tools.Pool>, byWord: map<string, V>,
                           nonwords: set<string>, unclaimedNew: set<string>, unclaimedOld: set<string>)
  {
    var claimed := Members(Tools.AllWords(pools));
    unclaimedNew <= byWord.Keys && unclaimedOld <= byWord.Keys &&
    exists a, b, c ::
      out == AllRecords(pools, byWord, nonwords) + a + b + c &&
      Lists(a, UnclaimedNew, unclaimedNew - claimed, byWord) &&
      Lists(b, UnclaimedOld, unclaimedOld - claimed, byWord) &&
      Lists(c, Nonword, nonwords, byWord)
  }

  /** The loop the two combine functions share: the records of the pools'
      words, then one record per unclaimed new word, per unclaimed old word
      and per nonword. */
  method Emit<V(==,!new)>(pools: seq<Tools.Pool>, byWord: map<string, V>, nonwords: set<string>,
                 unclaimedNew0: set<string>, unclaimedOld0: set<string>)
    returns (out: seq<Record<V>>)
    requires unclaimedNew0 <= byWord.Keys && unclaimedOld0 <= byWord.Keys
    ensures Emitted(out, pools, byWord, nonwords, unclaimedNew0, unclaimedOld0)
  {
    var pooled: seq<Record<V>> := [];
    var unclaimedNew, unclaimedOld := unclaimedNew0, unclaimedOld0;
    var i := 0;
    while i < |pools|
      invariant 0 <= i <= |pools|
      invariant pooled == AllRecords(pools[..i], byWord, nonwords)
      invariant unclaimedNew == unclaimedNew0 - Members(Tools.AllWords(pools[..i]))
      invariant unclaimedOld == unclaimedOld0 - Members(Tools.AllWords(pools[..i]))
    {
      assert pools[..i + 1][..i] == pools[..i];
      MembersAppend(Tools.AllWords(pools[..i]), pools[i].words);
      var recs;
      recs, unclaimedNew, unclaimedOld := EmitPool(pools[i], byWord, nonwords, unclaimedNew, unclaimedOld);
      pooled := pooled + recs;
      i := i + 1;
    }
    assert pools[..i] == pools;
    var a := ListSet(unclaimedNew, UnclaimedNew, byWord);
    var b := ListSet(unclaimedOld, UnclaimedOld, byWord);
    var c := ListSet(nonwords, Nonword, byWord);
    out := pooled + a + b + c;
  }

  // ---- the stored analyses ----

  /** An annotation: a word and its analysis. */
  datatype Annotation<V> = Annotation(word: string, analysis: V)

  /** The annotated words, in order. */
  function AnnotationWords<V>(anns: seq<Annotation<V>>): seq<string>
  {
    if anns == [] then [] else AnnotationWords(anns[..|anns| - 1]) + [anns[|anns| - 1].word]
  }

  /** The annotated words, as a set. */
  function AnnotatedWords<V>(anns: seq<Annotation<V>>): set<string>
  {
    set i | 0 <= i < |anns| :: anns[i].word
  }

  lemma AnnotatedWordsSnoc<V>(anns: seq<Annotation<V>>, j: int)
    requires 0 <= j < |anns|
    ensures AnnotatedWords(anns[..j + 1]) == AnnotatedWords(anns[..j]) + {anns[j].word}
  {
    var t := anns[..j + 1];
    forall x | x in AnnotatedWords(t) ensures x in AnnotatedWords(anns[..j]) + {anns[j].word} {
      var i :| 0 <= i < |t| && t[i].word == x;
      if i < j {
        assert anns[..j][i] == t[i];
      }
    }
    forall x | x in AnnotatedWords(anns[..j]) ensures x in AnnotatedWords(t) {
      var i :| 0 <= i < j && anns[..j][i].word == x;
      assert t[i] == anns[..j][i];
    }
    assert t[j] == anns[j];
  }

  /** `m` updated by each annotation in turn, as `by_word[word] = analysis`
      or a dict comprehension does it: a later annotation of a word replaces
      an earlier one. */
  function Overlay<V>(m: map<string, V>, anns: seq<Annotation<V>>): map<string, V>
  {
    if anns == [] then m
    else
      var last := anns[|anns| - 1];
      Overlay(m, anns[..|anns| - 1])[last.word := last.analysis]
  }

  /** The last analysis given to `w`, if any. */
  function LastFor<V>(anns: seq<Annotation<V>>, w: string): Option<V>
  {
    if anns == [] then None
    else if anns[|anns| - 1].word == w then Some(anns[|anns| - 1].analysis)
    else LastFor(anns[..|anns| - 1], w)
  }

  function Lookup<V>(m: map<string, V>, w: string): Option<V>
  {
    if w in m then Some(m[w]) else None
  }

  /** After overlaying, a word holds its last annotation's analysis if it
      has one and its old value otherwise. */
  lemma {:induction false} OverlayLookup<V>(m: map<string, V>, anns: seq<Annotation<V>>, w: string)
    ensures Lookup(Overlay(m, anns), w) == if LastFor(anns, w).Some? then LastFor(anns, w) else Lookup(m, w)
  {
    if anns != [] {
      OverlayLookup(m, anns[..|anns| - 1], w);
    }
  }

  lemma {:induction false} OverlayKeys<V>(m: map<string, V>, anns: seq<Annotation<V>>)
    ensures Overlay(m, anns).Keys == m.Keys + AnnotatedWords(anns)
  {
    if anns != [] {
      var j := |anns| - 1;
      OverlayKeys(m, anns[..j]);
      AnnotatedWordsSnoc(anns, j);
      assert anns[..j + 1] == anns;
    }
  }

  /** `combine_with_old_annotations`: a new annotation of a word overrides
      the old ones, and among several the last wins; a word without a new
      annotation keeps its last old one. */
  lemma NewOverridesOld<V>(oldAnnots: seq<Annotation<V>>, newAnnots: seq<Annotation<V>>, w: string)
    ensures Lookup(Overlay(Overlay(map[], oldAnnots), newAnnots), w) ==
            if LastFor(newAnnots, w).Some? then LastFor(newAnnots, w) else LastFor(oldAnnots, w)
  {
    OverlayLookup(Overlay(map[], oldAnnots), newAnnots, w);
    OverlayLookup(map[], oldAnnots, w);
  }

  /** `combine_with_old_annotations`: the old annotations by word, then the
      new ones over them, then the records of the pools, the unclaimed new
      words, the unclaimed old words and the nonwords. A new analysis equal
      to the stored one is skipped, which stores the same as replacing. */
  method CombineWithOldAnnotations<V(==,!new)>(pools: seq<Tools.Pool>, oldAnnots: seq<Annotation<V>>,
                                               newAnnots: seq<Annotation<V>>, nonwords: set<string>)
    returns (out: seq<Record<V>>)
    ensures Emitted(out, pools, Overlay(Overlay(map[], oldAnnots), newAnnots), nonwords,
                    AnnotatedWords(newAnnots), AnnotatedWords(oldAnnots))
  {
    var byWord := Overlay(map[], oldAnnots);
    var unclaimedNew: set<string> := {};
    var unclaimedOld := byWord.Keys;
    OverlayKeys(map[], oldAnnots);
    var i := 0;
    while i < |newAnnots|
      invariant 0 <= i <= |newAnnots|
      invariant byWord == Overlay(Overlay(map[], oldAnnots), newAnnots[..i])
      invariant unclaimedNew == AnnotatedWords(newAnnots[..i])
    {
      var annot := newAnnots[i];
      assert newAnnots[..i + 1][..i] == newAnnots[..i];
      AnnotatedWordsSnoc(newAnnots, i);
      unclaimedNew := unclaimedNew + {annot.word};
      if annot.word in byWord && annot.analysis == byWord[annot.word] {
        assert byWord[annot.word := annot.analysis] == byWord;
      } else {
        byWord := byWord[annot.word := annot.analysis];
      }
      i := i + 1;
    }
    assert newAnnots[..i] == newAnnots;
    OverlayKeys(Overlay(map[], oldAnnots), newAnnots);
    out := Emit(pools, byWord, nonwords, unclaimedNew, unclaimedOld);
  }

  // ---- combine_single ----

  /** `{annot.word: [annot.analysis] for annot in old_oracle}`: each oracle
      annotation as a one-element list of analyses. */
  function Wrapped<A>(anns: seq<Annotation<A>>): (r: seq<Annotation<seq<A>>>)
    ensures |r| == |anns|
  {
    if anns == [] then []
    else
      var last := anns[|anns| - 1];
      Wrapped(anns[..|anns| - 1]) + [Annotation(last.word, [last.analysis])]
  }

  lemma {:induction false} WrappedWords<A>(anns: seq<Annotation<A>>)
    ensures AnnotatedWords(Wrapped(anns)) == AnnotatedWords(anns)
  {
    if anns != [] {
      var j := |anns| - 1;
      WrappedWords(anns[..j]);
      AnnotatedWordsSnoc(anns, j);
      AnnotatedWordsSnoc(Wrapped(anns), j);
      assert anns[..j + 1] == anns;
      assert Wrapped(anns)[..j] == Wrapped(anns[..j]);
      assert Wrapped(anns)[..j + 1] == Wrapped(anns);
    }
  }

  /** One new annotation in `combine_single`: an analysis already listed
      for the word is skipped, another is appended, and a word not yet
      stored gets a list of its own. */
  function AddAnalysis<A(==)>(m: map<string, seq<A>>, a: Annotation<A>): map<string, seq<A>>
  {
    if a.word in m then
      if a.analysis in m[a.word] then m else m[a.word := m[a.word] + [a.analysis]]
    else m[a.word := [a.analysis]]
  }

  /** The new annotations, one after another. */
  function AddAll<A(==)>(m: map<string, seq<A>>, anns: seq<Annotation<A>>): map<string, seq<A>>
  {
    if anns == [] then m else AddAnalysis(AddAll(m, anns[..|anns| - 1]), anns[|anns| - 1])
  }

  lemma {:induction false} AddAllKeys<A>(m: map<string, seq<A>>, anns: seq<Annotation<A>>)
    ensures AddAll(m, anns).Keys == m.Keys + AnnotatedWords(anns)
  {
    if anns != [] {
      var j := |anns| - 1;
      AddAllKeys(m, anns[..j]);
      AnnotatedWordsSnoc(anns, j);
      assert anns[..j + 1] == anns;
    }
  }

  /** Adding new analyses keeps each stored list as a prefix. */
  lemma {:induction false} AddAllExtends<A>(m: map<string, seq<A>>, anns: seq<Annotation<A>>, w: string)
    requires w in m
    ensures w in AddAll(m, anns) && m[w] <= AddAll(m, anns)[w]
  {
    if anns != [] {
      AddAllExtends(m, anns[..|anns| - 1], w);
    }
  }

  /** Every new analysis of a word ends up in its list. */
  lemma {:induction false} AddAllStores<A>(m: map<string, seq<A>>, anns: seq<Annotation<A>>, i: int)
    requires 0 <= i < |anns|
    ensures anns[i].word in AddAll(m, anns) && anns[i].analysis in AddAll(m, anns)[anns[i].word]
  {
    var j := |anns| - 1;
    var w := anns[i].word;
    if i < j {
      AddAllStores(m, anns[..j], i);
      var p := AddAll(m, anns[..j]);
      assert p[w] <= AddAnalysis(p, anns[j])[w];
    }
  }

  /** A word's list holds only what was stored before and new analyses of
      that word. */
  lemma {:induction false} AddAllOnly<A>(m: map<string, seq<A>>, anns: seq<Annotation<A>>, w: string, x: A)
    requires w in AddAll(m, anns) && x in AddAll(m, anns)[w]
    ensures (w in m && x in m[w]) || exists i :: 0 <= i < |anns| && anns[i].word == w && anns[i].analysis == x
  {
    if anns != [] {
      var j := |anns| - 1;
      var p := AddAll(m, anns[..j]);
      if w in p && x in p[w] {
        AddAllOnly(m, anns[..j], w, x);
        if !(w in m && x in m[w]) {
          var i :| 0 <= i < j && anns[..j][i].word == w && anns[..j][i].analysis == x;
          assert anns[i] == anns[..j][i];
        }
      } else {
        assert anns[j].word == w && anns[j].analysis == x;
      }
    }
  }

  /** Adding new analyses never brings a second copy of one into a list. */
  lemma {:induction false} AddAllNoDups<A>(m: map<string, seq<A>>, anns: seq<Annotation<A>>, w: string)
    requires w in m ==> NoDups(m[w])
    requires w in AddAll(m, anns)
    ensures NoDups(AddAll(m, anns)[w])
  {
    if anns != [] {
      var j := |anns| - 1;
      var p := AddAll(m, anns[..j]);
      var a := anns[j];
      if w in p {
        AddAllNoDups(m, anns[..j], w);
      }
      if a.word == w && w in p && a.analysis !in p[w] {
        var q := p[w] + [a.analysis];
        forall x, y | 0 <= x < y < |q| ensures q[x] != q[y] {
          if y == |q| - 1 {
            assert q[x] == p[w][x];
          } else {
            assert q[x] == p[w][x] && q[y] == p[w][y];
          }
        }
      }
    }
  }

  /** The loop of `combine_single` over the current iteration's old
      annotations: records each word and stores its analyses. */
  method TakeOld<A>(byWord0: map<string, seq<A>>, oldAnnots: seq<Annotation<seq<A>>>)
    returns (byWord: map<string, seq<A>>, curIterWords: seq<string>)
    ensures byWord == Overlay(byWord0, oldAnnots)
    ensures curIterWords == AnnotationWords(oldAnnots)
  {
    byWord, curIterWords := byWord0, [];
    var i := 0;
    while i < |oldAnnots|
      invariant 0 <= i <= |oldAnnots|
      invariant byWord == Overlay(byWord0, oldAnnots[..i])
      invariant curIterWords == AnnotationWords(oldAnnots[..i])
    {
      assert oldAnnots[..i + 1][..i] == oldAnnots[..i];
      curIterWords := curIterWords + [oldAnnots[i].word];
      byWord := byWord[oldAnnots[i].word := oldAnnots[i].analysis];
      i := i + 1;
    }
    assert oldAnnots[..i] == oldAnnots;
  }

  /** The loop of `combine_single` over the new annotations: notes each
      word as unclaimed and adds its analysis unless already listed. */
  method AddNew<A(==)>(byWord0: map<string, seq<A>>, newAnnots: seq<Annotation<A>>)
    returns (byWord: map<string, seq<A>>, unclaimedNew: set<string>)
    ensures byWord == AddAll(byWord0, newAnnots)
    ensures unclaimedNew == AnnotatedWords(newAnnots)
  {
    byWord, unclaimedNew := byWord0, {};
    var i := 0;
    while i < |newAnnots|
      invariant 0 <= i <= |newAnnots|
      invariant byWord == AddAll(byWord0, newAnnots[..i])
      invariant unclaimedNew == AnnotatedWords(newAnnots[..i])
    {
      var annot := newAnnots[i];
      assert newAnnots[..i + 1][..i] == newAnnots[..i];
      AnnotatedWordsSnoc(newAnnots, i);
      unclaimedNew := unclaimedNew + {annot.word};
      if annot.word in byWord {
        if annot.analysis in byWord[annot.word] {
        } else {
          byWord := byWord[annot.word := byWord[annot.word] + [annot.analysis]];
        }
      } else {
        byWord := byWord[annot.word := [annot.analysis]];
      }
      i := i + 1;
    }
    assert newAnnots[..i] == newAnnots;
  }

  /** `combine_single`: the oracle's analyses as one-element lists, the
      current iteration's old annotations over them, then the new analyses
      added to the lists; then the records of the old words followed by the
      selection, as one pool with id `pool_id` and the metric, and the
      trailing records. */
  method CombineSingle<A(==,!new)>(newAnnots: seq<Annotation<A>>, selection: seq<string>,
                                   oldAnnots: seq<Annotation<seq<A>>>, oldOracle: seq<Annotation<A>>,
                                   nonwords: set<string>, metric: Option<string>, poolId: string)
    returns (out: seq<Record<seq<A>>>)
    ensures Emitted(out, [Tools.Pool(Some(poolId), metric, AnnotationWords(oldAnnots) + selection)],
                    AddAll(Overlay(Overlay(map[], Wrapped(oldOracle)), oldAnnots), newAnnots), nonwords,
                    AnnotatedWords(newAnnots), AnnotatedWords(oldOracle) + AnnotatedWords(oldAnnots))
  {
    var byWord, curIterWords := TakeOld(Overlay(map[], Wrapped(oldOracle)), oldAnnots);
    var unclaimedOld := byWord.Keys;
    ghost var base := byWord;
    var unclaimedNew;
    byWord, unclaimedNew := AddNew(byWord, newAnnots);
    curIterWords := curIterWords + selection;
    OverlayKeys(Overlay(map[], Wrapped(oldOracle)), oldAnnots);
    OverlayKeys(map[], Wrapped(oldOracle));
    WrappedWords(oldOracle);
    AddAllKeys(base, newAnnots);
    assert unclaimedOld == AnnotatedWords(oldOracle) + AnnotatedWords(oldAnnots);
    out := Emit([Tools.Pool(Some(poolId), metric, curIterWords)], byWord, nonwords, unclaimedNew, unclaimedOld);
  }
}
