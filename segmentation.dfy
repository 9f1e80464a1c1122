// The two encodings of a segmentation used by the annotation tools: a
// list of morphs, and a boundary vector with one flag per gap between
// letters (true where a morph ends). The annotation server turns a stored
// segmentation into a vector for the browser and turns the vector the
// annotator sends back into morphs; the agreement script turns morph lists
// into vectors. This module defines both directions once and proves that
// they are inverse on well-formed segmentations.
module Segmentation {
  import opened SeqUtil

  /** `n` false flags. */
  function Falses(n: nat): (r: seq<bool>)
    ensures |r| == n && forall i :: 0 <= i < n ==> !r[i]
  {
    seq(n, _ => false)
  }

  /** The flags one morph contributes before the final flag is dropped:
      `len(morph) - 1` falses (none for an empty morph), then true. */
  function MorphMarks(m: string): seq<bool>
  {
    Falses(if |m| > 0 then |m| - 1 else 0) + [true]
  }

  /** The flags of a whole segmentation before the final flag is dropped. */
  function Marks(seg: seq<string>): (r: seq<bool>)
    ensures |r| >= |seg|
  {
    if seg == [] then [] else MorphMarks(seg[0]) + Marks(seg[1..])
  }

  /** The boundary vector of a non-empty segmentation: its marks without the
      superfluous last flag. */
  function BoundaryVector(seg: seq<string>): seq<bool>
    requires seg != []
  {
    var m := Marks(seg);
    m[..|m| - 1]
  }

  /** Every morph is non-empty. */
  predicate NonEmptyMorphs(seg: seq<string>)
  {
    forall i :: 0 <= i < |seg| ==> seg[i] != []
  }

  /** Number of true flags. */
  function CountTrue(bs: seq<bool>): nat
  {
    if bs == [] then 0 else (if bs[0] then 1 else 0) + CountTrue(bs[1..])
  }

  /** Sum over the morphs of `max(len(morph) - 1, 0)`. */
  function InnerGaps(seg: seq<string>): nat
  {
    if seg == [] then 0 else (if |seg[0]| > 0 then |seg[0]| - 1 else 0) + InnerGaps(seg[1..])
  }

  lemma {:induction false} CountTrueAppend(a: seq<bool>, b: seq<bool>)
    ensures CountTrue(a + b) == CountTrue(a) + CountTrue(b)
  {
    if a == [] {
      assert a + b == b;
    } else {
      assert (a + b)[0] == a[0];
      assert (a + b)[1..] == a[1..] + b;
      CountTrueAppend(a[1..], b);
    }
  }

  lemma CountTrueFalses(n: nat)
    ensures CountTrue(Falses(n)) == 0
    decreases n
  {
    if n > 0 {
      assert Falses(n)[1..] == Falses(n - 1);
      CountTrueFalses(n - 1);
    }
  }

  lemma {:induction false} MarksAppend(s: seq<string>, m: string)
    ensures Marks(s + [m]) == Marks(s) + MorphMarks(m)
  {
    if s == [] {
      assert [m][1..] == [];
    } else {
      assert (s + [m])[1..] == s[1..] + [m];
      MarksAppend(s[1..], m);
    }
  }

  /** The marks of a segmentation hold one true flag per morph, and as many
      flags as the inner gaps plus the morphs. */
  lemma {:induction false} MarksShape(seg: seq<string>)
    ensures CountTrue(Marks(seg)) == |seg|
    ensures |Marks(seg)| == InnerGaps(seg) + |seg|
    ensures seg != [] ==> Marks(seg)[|Marks(seg)| - 1]
  {
    if seg != [] {
      MarksShape(seg[1..]);
      var f := Falses(if |seg[0]| > 0 then |seg[0]| - 1 else 0);
      CountTrueAppend(f + [true], Marks(seg[1..]));
      CountTrueAppend(f, [true]);
      CountTrueFalses(|f|);
      assert CountTrue([true]) == 1;
    }
  }

  /** With non-empty morphs the inner gaps are the letters minus the morphs. */
  lemma {:induction false} InnerGapsNonEmpty(seg: seq<string>)
    requires NonEmptyMorphs(seg)
    ensures InnerGaps(seg) + |seg| == |Flatten(seg)|
  {
    if seg != [] {
      InnerGapsNonEmpty(seg[1..]);
      assert seg == [seg[0]] + seg[1..];
      FlattenCons(seg[0], seg[1..]);
    }
  }

  /** `seg_to_boundaries` (and the loop in `get_word`) give a vector of
      `sum(max(len(m) - 1, 0)) + len(seg) - 1` flags, of which exactly
      `len(seg) - 1` are true; for non-empty morphs the length is the number
      of letters minus one. */
  lemma BoundaryVectorShape(seg: seq<string>)
    requires seg != []
    ensures |BoundaryVector(seg)| == InnerGaps(seg) + |seg| - 1
    ensures CountTrue(BoundaryVector(seg)) == |seg| - 1
    ensures NonEmptyMorphs(seg) ==> |BoundaryVector(seg)| == |Flatten(seg)| - 1
  {
    var m := Marks(seg);
    MarksShape(seg);
    assert m == m[..|m| - 1] + [true];
    CountTrueAppend(m[..|m| - 1], [true]);
    assert CountTrue([true]) == 1;
    if NonEmptyMorphs(seg) {
      InnerGapsNonEmpty(seg);
    }
  }

  // ---- boundaries_to_seg ----

  /** The loop state of `boundaries_to_seg`: finished morphs and the letters
      of the current one. */
  datatype SegState = SegState(out: seq<string>, cur: string)

  /** The flags zipped with the letters: the vector with a final true. */
  function Flags(bs: seq<bool>): seq<bool>
  {
    bs + [true]
  }

  /** How many (letter, flag) pairs `zip` produces. */
  function ZipLen(word: string, bs: seq<bool>): nat
  {
    if |word| <= |bs| + 1 then |word| else |bs| + 1
  }

  /** One iteration: add the letter to the current morph and close the morph
      when the flag is set. */
  function Step(st: SegState, letter: char, boundary: bool): SegState
  {
    if boundary then SegState(st.out + [st.cur + [letter]], [])
    else SegState(st.out, st.cur + [letter])
  }

  /** The state after the first `k` pairs. */
  function StateAfter(word: string, bs: seq<bool>, k: nat): SegState
    requires k <= ZipLen(word, bs)
  {
    if k == 0 then SegState([], [])
    else Step(StateAfter(word, bs, k - 1), word[k - 1], Flags(bs)[k - 1])
  }

  /** What `boundaries_to_seg(word, boundaries)` returns. */
  function Segments(word: string, bs: seq<bool>): seq<string>
  {
    StateAfter(word, bs, ZipLen(word, bs)).out
  }

  /** The end of the last closed morph among the first `k` pairs. */
  function LastCut(flags: seq<bool>, k: nat): (c: nat)
    requires k <= |flags|
    ensures c <= k
  {
    if k == 0 then 0 else if flags[k - 1] then k else LastCut(flags, k - 1)
  }

  /** Invariant of the loop, first part: the closed morphs and the current
      letters spell the letters read so far, and the current letters are
      those after the last closed morph. */
  lemma {:induction false} StateSpells(word: string, bs: seq<bool>, k: nat)
    requires k <= ZipLen(word, bs)
    ensures Flatten(StateAfter(word, bs, k).out) + StateAfter(word, bs, k).cur == word[..k]
    ensures |StateAfter(word, bs, k).cur| == k - LastCut(Flags(bs), k)
  {
    if k > 0 {
      StateSpells(word, bs, k - 1);
      var st := StateAfter(word, bs, k - 1);
      assert StateAfter(word, bs, k) == Step(st, word[k - 1], Flags(bs)[k - 1]);
      StepSpells(st, word[k - 1], Flags(bs)[k - 1]);
      assert word[..k] == word[..k - 1] + [word[k - 1]];
    }
  }

  /** One step adds its letter to what the state spells; a boundary
      empties the current morph. */
  lemma StepSpells(st: SegState, letter: char, boundary: bool)
    ensures Flatten(Step(st, letter, boundary).out) + Step(st, letter, boundary).cur
      == Flatten(st.out) + st.cur + [letter]
    ensures |Step(st, letter, boundary).cur| == if boundary then 0 else |st.cur| + 1
  {
    if boundary {
      var m := st.cur + [letter];
      FlattenAppend(st.out, [m]);
      assert Flatten([m]) == Flatten([]) + m;
    }
  }

  /** Invariant of the loop, second part: every closed morph is non-empty. */
  lemma {:induction false} StateNonEmpty(word: string, bs: seq<bool>, k: nat)
    requires k <= ZipLen(word, bs)
    ensures NonEmptyMorphs(StateAfter(word, bs, k).out)
  {
    if k > 0 {
      StateNonEmpty(word, bs, k - 1);
    }
  }

  /** Invariant of the loop, third part: the marks of the closed morphs
      followed by one false per current letter are the flags read so far. */
  lemma {:induction false} StateMarks(word: string, bs: seq<bool>, k: nat)
    requires k <= ZipLen(word, bs)
    ensures Marks(StateAfter(word, bs, k).out) + Falses(|StateAfter(word, bs, k).cur|) == Flags(bs)[..k]
  {
    if k == 0 {
      assert Falses(0) == [];
    } else {
      StateMarks(word, bs, k - 1);
      var st := StateAfter(word, bs, k - 1);
      var f := Flags(bs);
      assert StateAfter(word, bs, k) == Step(st, word[k - 1], f[k - 1]);
      StepMarks(st, word[k - 1], f[k - 1]);
      assert f[..k] == f[..k - 1] + [f[k - 1]];
    }
  }

  /** One step adds its flag to the marks the state stands for. */
  lemma StepMarks(st: SegState, letter: char, boundary: bool)
    ensures Marks(Step(st, letter, boundary).out) + Falses(|Step(st, letter, boundary).cur|)
      == Marks(st.out) + Falses(|st.cur|) + [boundary]
  {
    if boundary {
      var m := st.cur + [letter];
      MarksAppend(st.out, m);
      assert MorphMarks(m) == Falses(|st.cur|) + [true];
      assert Falses(0) == [];
    } else {
      assert Falses(|st.cur| + 1) == Falses(|st.cur|) + [false];
    }
  }

  /** With a vector of exactly `len(word) - 1` flags the morphs spell the
      word, none is empty, there is one more morph than true flags, and the
      vector of the result is the vector given. */
  lemma SegmentsOfFullVector(word: string, bs: seq<bool>)
    requires |word| >= 1 && |bs| == |word| - 1
    ensures Flatten(Segments(word, bs)) == word
    ensures NonEmptyMorphs(Segments(word, bs))
    ensures |Segments(word, bs)| == CountTrue(bs) + 1
    ensures Segments(word, bs) != [] && BoundaryVector(Segments(word, bs)) == bs
  {
    var k := ZipLen(word, bs);
    assert k == |word|;
    StateSpells(word, bs, k);
    StateNonEmpty(word, bs, k);
    StateMarks(word, bs, k);
    var st := StateAfter(word, bs, k);
    assert Flags(bs)[k - 1];
    assert st.cur == [];
    assert Falses(0) == [];
    assert Flags(bs)[..k] == bs + [true];
    var r := st.out;
    MarksShape(r);
    CountTrueAppend(bs, [true]);
    assert CountTrue([true]) == 1;
    assert r != [];
  }

  /** With any vector, `zip` stops at the shorter input and the letters after
      the last closed morph are dropped: the morphs spell a prefix of the
      word, up to the last true flag among the zipped pairs. */
  lemma SegmentsSpellPrefix(word: string, bs: seq<bool>)
    ensures Flatten(Segments(word, bs)) == word[..LastCut(Flags(bs), ZipLen(word, bs))]
    ensures NonEmptyMorphs(Segments(word, bs))
  {
    var k := ZipLen(word, bs);
    StateSpells(word, bs, k);
    StateNonEmpty(word, bs, k);
    var st := StateAfter(word, bs, k);
    var c := LastCut(Flags(bs), k);
    assert word[..k] == word[..c] + word[c..k];
    assert Flatten(st.out) + st.cur == word[..c] + word[c..k];
  }

  /** Marks determine the morph lengths, so two segmentations into non-empty
      morphs with the same letters and the same marks are equal. */
  lemma {:induction false} MarksInjective(s1: seq<string>, s2: seq<string>)
    requires NonEmptyMorphs(s1) && NonEmptyMorphs(s2)
    requires Flatten(s1) == Flatten(s2) && Marks(s1) == Marks(s2)
    ensures s1 == s2
  {
    if s1 != [] && s2 != [] {
      var a, b := s1[0], s2[0];
      var ma, mb := MorphMarks(a), MorphMarks(b);
      assert Marks(s1) == ma + Marks(s1[1..]);
      assert Marks(s2) == mb + Marks(s2[1..]);
      assert Marks(s1)[|a| - 1] == ma[|a| - 1] == true;
      assert Marks(s2)[|b| - 1] == mb[|b| - 1] == true;
      assert forall i :: 0 <= i < |a| - 1 ==> Marks(s1)[i] == ma[i] == false;
      assert forall i :: 0 <= i < |b| - 1 ==> Marks(s2)[i] == mb[i] == false;
      assert |a| == |b|;
      assert ma == mb;
      assert Marks(s1[1..]) == Marks(s1)[|ma|..] == Marks(s2)[|mb|..] == Marks(s2[1..]);
      assert s1 == [a] + s1[1..];
      assert s2 == [b] + s2[1..];
      FlattenCons(a, s1[1..]);
      FlattenCons(b, s2[1..]);
      assert a == Flatten(s1)[..|a|] == Flatten(s2)[..|b|] == b;
      assert Flatten(s1[1..]) == Flatten(s1)[|a|..] == Flatten(s2)[|b|..] == Flatten(s2[1..]);
      MarksInjective(s1[1..], s2[1..]);
    }
  }

  lemma MarksEndTrue(seg: seq<string>)
    requires seg != []
    ensures Marks(seg) == BoundaryVector(seg) + [true]
  {
    MarksShape(seg);
    var m := Marks(seg);
    assert m == m[..|m| - 1] + [m[|m| - 1]];
  }

  /** Round trip: turning a segmentation into non-empty morphs into its
      vector and back gives the segmentation. */
  lemma SegmentsOfBoundaryVector(seg: seq<string>)
    requires seg != [] && NonEmptyMorphs(seg)
    ensures Segments(Flatten(seg), BoundaryVector(seg)) == seg
  {
    var word := Flatten(seg);
    var bs := BoundaryVector(seg);
    BoundaryVectorShape(seg);
    InnerGapsNonEmpty(seg);
    assert |word| >= 1;
    SegmentsOfFullVector(word, bs);
    var r := Segments(word, bs);
    MarksEndTrue(seg);
    MarksEndTrue(r);
    MarksInjective(r, seg);
  }

  /** Round trip the other way: a vector of `len(word) - 1` flags survives
      being turned into morphs and back. */
  lemma BoundaryVectorOfSegments(word: string, bs: seq<bool>)
    requires |word| >= 1 && |bs| == |word| - 1
    ensures Segments(word, bs) != [] && BoundaryVector(Segments(word, bs)) == bs
  {
    SegmentsOfFullVector(word, bs);
  }
}
