// scripts/corrections.py: reading `word<whitespace>analysis` lines,
// removing category tags from analyses, and replacing the analyses of an
// annotation file by corrections keyed on the word.
module Corrections {
  import opened SeqUtil
  import opened Strings

  /** One annotation: a word and its analysis text. */
  datatype Annotation = Annotation(word: string, analysis: string)

  /** What one input line yields: nothing for a blank line, a report for a
      line `RE_LINE` does not match, or an annotation. */
  datatype LineResult = Blank | Unparsable(line: string) | Parsed(ann: Annotation)

  // ---- RE_LINE = ([^\s]*)\s+(.*) ----

  /** `\s` in a pattern compiled without `re.UNICODE`: the ASCII
      whitespace only, a subset of what `strip` removes. */
  predicate ReSpace(c: char)
  {
    var n := c as int;
    n == 32 || (9 <= n <= 13)
  }

  /** Position of the first whitespace character at or after `i`, or `|s|`. */
  function SpaceFrom(s: string, i: nat): (j: nat)
    requires i <= |s|
    ensures i <= j <= |s|
    ensures forall k :: i <= k < j ==> !ReSpace(s[k])
    ensures j < |s| ==> ReSpace(s[j])
    decreases |s| - i
  {
    if i == |s| || ReSpace(s[i]) then i else SpaceFrom(s, i + 1)
  }

  /** End of the run of whitespace that starts at `i`. */
  function SpaceRunEnd(s: string, i: nat): (j: nat)
    requires i <= |s|
    ensures i <= j <= |s|
    ensures forall k :: i <= k < j ==> ReSpace(s[k])
    ensures j < |s| ==> !ReSpace(s[j])
    decreases |s| - i
  {
    if i == |s| || !ReSpace(s[i]) then i else SpaceRunEnd(s, i + 1)
  }

  /** What `.` matches from the start of `s`: everything up to the first
      newline. */
  function UpToNewline(s: string): (r: string)
    ensures |r| <= |s| && r == s[..|r|]
    ensures '\n' !in r
    ensures |r| < |s| ==> s[|r|] == '\n'
  {
    if s == [] || s[0] == '\n' then []
    else
      var r := [s[0]] + UpToNewline(s[1..]);
      assert forall k :: 1 <= k < |r| ==> r[k] == s[1..][k - 1];
      r
  }

  /** `RE_LINE.match(line)` on a stripped line: the leading run of
      non-whitespace, and what follows the whitespace run after it up to a
      newline; no match when the line has no whitespace. */
  function MatchLine(t: string): Option<Annotation>
  {
    var i := SpaceFrom(t, 0);
    if i == |t| then None
    else Some(Annotation(t[..i], UpToNewline(t[SpaceRunEnd(t, i)..])))
  }

  /** One line of `read_annotations`: stripped, skipped when empty,
      reported when it does not parse. */
  function ParseLine(line: string): (r: LineResult)
    ensures r == Blank <==> AllSpace(line)
    ensures r.Parsed? ==> r.ann.word != [] && r.ann.analysis != [] &&
                          (forall k :: 0 <= k < |r.ann.word| ==> !ReSpace(r.ann.word[k])) &&
                          !ReSpace(r.ann.analysis[0])
  {
    var t := Strip(line);
    if t == [] then Blank
    else
      match MatchLine(t)
      case None => Unparsable(t)
      case Some(a) =>
        MatchedFields(t);
        Parsed(a)
  }

  /** On a stripped line, a match has a non-empty word without whitespace
      and an analysis that starts with a non-whitespace character. */
  lemma MatchedFields(t: string)
    requires t != [] && !IsSpace(t[0]) && !IsSpace(t[|t| - 1]) && MatchLine(t).Some?
    ensures var a := MatchLine(t).value;
      a.word != [] && a.analysis != [] &&
      (forall k :: 0 <= k < |a.word| ==> !ReSpace(a.word[k])) && !ReSpace(a.analysis[0])
  {
    var i := SpaceFrom(t, 0);
    var j := SpaceRunEnd(t, i);
    assert i <= |t| - 1;
    assert j < |t|;
    assert t[j..][0] == t[j];
  }

  /** A line holding only a no-break space is stripped to nothing and
      skipped, while a no-break space inside a line is no `\s` for
      `RE_LINE`, so such a line is reported. */
  lemma NoBreakSpaceLines()
    ensures ParseLine("\U{00A0}") == Blank
    ensures ParseLine("a\U{00A0}b") == Unparsable("a\U{00A0}b")
  {
    var t := "a\U{00A0}b";
    StripUnchanged(t);
    assert SpaceFrom(t, 0) == |t|;
  }

  /** Whitespace around a string without leading or trailing whitespace is
      what `strip` removes. */
  lemma StripPadded(pre: string, x: string, post: string)
    requires AllSpace(pre) && AllSpace(post)
    requires x != [] && !IsSpace(x[0]) && !IsSpace(x[|x| - 1])
    ensures Strip(pre + x + post) == x
  {
    var s := pre + x + post;
    var n := LeadingSpace(s);
    assert forall k :: 0 <= k < |pre| ==> s[k] == pre[k];
    assert forall m :: |pre| < m <= |s| ==> s[..m][|pre|] == x[0];
    assert n == |pre|;
    var e := |pre| + |x|;
    var t := TrailingSpace(s);
    assert forall k :: e <= k < |s| ==> s[k] == post[k - e];
    assert forall m :: 0 <= m < e ==> s[m..][e - 1 - m] == x[|x| - 1];
    assert t == |post|;
    assert s[|pre|..e] == x;
  }

  lemma SpaceFromAt(x: string, n: nat)
    requires n < |x| && ReSpace(x[n])
    requires forall k :: 0 <= k < n ==> !ReSpace(x[k])
    ensures SpaceFrom(x, 0) == n
  {
  }

  lemma SpaceRunEndAt(x: string, i: nat, n: nat)
    requires i <= n < |x| && !ReSpace(x[n])
    requires forall k :: i <= k < n ==> ReSpace(x[k])
    ensures SpaceRunEnd(x, i) == n
  {
  }

  /** The whitespace in a formatted line is first met after the word. */
  lemma SplitFormatted(word: string, sep: string, analysis: string)
    requires (forall k :: 0 <= k < |sep| ==> ReSpace(sep[k])) && sep != []
    requires forall k :: 0 <= k < |word| ==> !ReSpace(word[k])
    requires analysis != [] && !ReSpace(analysis[0])
    ensures SpaceFrom(word + sep + analysis, 0) == |word|
    ensures SpaceRunEnd(word + sep + analysis, |word|) == |word| + |sep|
  {
    var x := word + sep + analysis;
    assert forall k :: 0 <= k < |word| ==> x[k] == word[k];
    assert forall k :: |word| <= k < |word| + |sep| ==> x[k] == sep[k - |word|];
    assert x[|word| + |sep|] == analysis[0];
    SpaceFromAt(x, |word|);
    SpaceRunEndAt(x, |word|, |word| + |sep|);
  }

  /** Parsing the line the script writes for an annotation, `word\tanalysis`,
      possibly with extra whitespace around it, gives the annotation back
      when the word has no whitespace and the analysis starts and ends with
      non-whitespace and has no newline. */
  lemma ParseFormatted(pre: string, word: string, sep: string, analysis: string, post: string)
    requires AllSpace(pre) && AllSpace(post) && sep != []
    requires forall k :: 0 <= k < |sep| ==> ReSpace(sep[k])
    requires word != [] && forall k :: 0 <= k < |word| ==> !IsSpace(word[k])
    requires analysis != [] && !IsSpace(analysis[0]) && !IsSpace(analysis[|analysis| - 1])
    requires '\n' !in analysis
    ensures ParseLine(pre + word + sep + analysis + post) == Parsed(Annotation(word, analysis))
  {
    var x := word + sep + analysis;
    assert pre + word + sep + analysis + post == pre + x + post;
    assert x[0] == word[0];
    assert x[|x| - 1] == analysis[|analysis| - 1];
    StripPadded(pre, x, post);
    MatchFormatted(word, sep, analysis);
    ParseStripped(pre + x + post, Annotation(word, analysis));
  }

  lemma MatchFormatted(word: string, sep: string, analysis: string)
    requires (forall k :: 0 <= k < |sep| ==> ReSpace(sep[k])) && sep != []
    requires forall k :: 0 <= k < |word| ==> !ReSpace(word[k])
    requires analysis != [] && !ReSpace(analysis[0])
    requires '\n' !in analysis
    ensures MatchLine(word + sep + analysis) == Some(Annotation(word, analysis))
  {
    var x := word + sep + analysis;
    SplitFormatted(word, sep, analysis);
    assert x[..|word|] == word;
    assert x[|word| + |sep|..] == analysis;
    UpToNewlineFree(analysis);
  }

  lemma ParseStripped(line: string, a: Annotation)
    requires Strip(line) != [] && MatchLine(Strip(line)) == Some(a)
    ensures ParseLine(line) == Parsed(a)
  {
  }

  lemma {:induction false} UpToNewlineFree(s: string)
    requires '\n' !in s
    ensures UpToNewline(s) == s
  {
    if s != [] {
      assert s == [s[0]] + s[1..];
      UpToNewlineFree(s[1..]);
    }
  }

  /** The parse results of a list of lines. */
  function ParsedLines(lines: seq<string>): seq<Annotation>
  {
    if lines == [] then []
    else
      var init := ParsedLines(lines[..|lines| - 1]);
      match ParseLine(lines[|lines| - 1])
      case Parsed(a) => init + [a]
      case _ => init
  }

  /** The lines `read_annotations` reports as unparsable, stripped. */
  function Reported(lines: seq<string>): seq<string>
  {
    if lines == [] then []
    else
      var init := Reported(lines[..|lines| - 1]);
      match ParseLine(lines[|lines| - 1])
      case Unparsable(t) => init + [t]
      case _ => init
  }

  /** `read_annotations` over the lines of a file: the annotations it
      yields, and the lines it reports with `cant parse`. */
  method ReadAnnotations(lines: seq<string>) returns (anns: seq<Annotation>, reported: seq<string>)
    ensures anns == ParsedLines(lines) && reported == Reported(lines)
  {
    anns := [];
    reported := [];
    var i := 0;
    while i < |lines|
      invariant 0 <= i <= |lines|
      invariant anns == ParsedLines(lines[..i]) && reported == Reported(lines[..i])
    {
      assert lines[..i + 1][..i] == lines[..i];
      match ParseLine(lines[i]) {
        case Blank =>
        case Unparsable(t) =>
          reported := reported + [t];
        case Parsed(a) =>
          anns := anns + [a];
      }
      i := i + 1;
    }
    assert lines[..i] == lines;
  }

  /** Every line yields exactly one of: nothing (blank), a report or an
      annotation. */
  lemma {:induction false} ParsedCounts(lines: seq<string>)
    ensures |ParsedLines(lines)| + |Reported(lines)| == |lines| - |Filter(lines, AllSpace)|
  {
    if lines != [] {
      ParsedCounts(lines[..|lines| - 1]);
    }
  }

  // ---- RE_TAG = /(PRE|STM|SUF|ZZZ)\b ----

  /** Characters `\w` matches, restricted to ASCII. */
  predicate IsWordChar(c: char)
  {
    ('a' <= c <= 'z') || ('A' <= c <= 'Z') || ('0' <= c <= '9') || c == '_'
  }

  predicate IsTag(t: string)
  {
    t == "PRE" || t == "STM" || t == "SUF" || t == "ZZZ"
  }

  /** Whether `RE_TAG` matches at position `i`: a slash, one of the four
      category tags, then the end of the string or a non-word character. */
  predicate TagAt(s: string, i: nat)
  {
    i + 4 <= |s| && s[i] == '/' && IsTag(s[i + 1..i + 4]) &&
    (i + 4 == |s| || !IsWordChar(s[i + 4]))
  }

  /** `RE_TAG.sub('', s)`: the matches, found left to right, removed. */
  function Detag(s: string): (r: string)
    ensures |r| <= |s|
    decreases |s|
  {
    if s == [] then []
    else if TagAt(s, 0) then Detag(s[4..])
    else [s[0]] + Detag(s[1..])
  }

  predicate NoTag(s: string)
  {
    forall i :: 0 <= i < |s| ==> !TagAt(s, i)
  }

  /** Whether a tag matches at position `i` of `s` does not depend on the
      characters before `i`. */
  lemma TagAtShift(s: string, i: nat)
    requires 1 <= i <= |s|
    ensures TagAt(s, i) <==> TagAt(s[1..], i - 1)
  {
    if i + 4 <= |s| {
      assert s[i + 1..i + 4] == s[1..][i..i + 3];
      if i + 4 < |s| {
        assert s[i + 4] == s[1..][i + 3];
      }
    }
  }

  /** A string is left as it is exactly when no tag matches in it. */
  lemma {:induction false} DetagUnchanged(s: string)
    ensures Detag(s) == s <==> NoTag(s)
    decreases |s|
  {
    if s != [] {
      if TagAt(s, 0) {
        assert |Detag(s)| < |s|;
      } else {
        DetagUnchanged(s[1..]);
        forall i | 1 <= i < |s| ensures TagAt(s, i) <==> TagAt(s[1..], i - 1) {
          TagAtShift(s, i);
        }
        assert Detag(s) == [s[0]] + Detag(s[1..]);
        assert s == [s[0]] + s[1..];
        if Detag(s) == s {
          assert Detag(s[1..]) == s[1..];
        }
        if NoTag(s) {
          assert NoTag(s[1..]) by {
            forall i | 0 <= i < |s[1..]| ensures !TagAt(s[1..], i) {
              assert !TagAt(s, i + 1);
            }
          }
        }
      }
    }
  }

  /** The analyses of the corrections with their tags removed; the words are
      left as they are. */
  function DetagAll(anns: seq<Annotation>): (r: seq<Annotation>)
    ensures |r| == |anns|
    ensures forall i :: 0 <= i < |anns| ==>
              r[i].word == anns[i].word && r[i].analysis == Detag(anns[i].analysis)
  {
    seq(|anns|, i requires 0 <= i < |anns| => Annotation(anns[i].word, Detag(anns[i].analysis)))
  }

  /** Tags are removed where a non-word character or the end follows
      them. */
  lemma DetagExample()
    ensures Detag("ab/STM+c/SUF") == "ab+c"
  {
    DetagSuffixExample();
    assert TagAt("/STM+c/SUF", 0) by {
      assert "/STM+c/SUF"[1..4] == "STM";
    }
    assert Detag("/STM+c/SUF") == "+c";
    assert Detag("b/STM+c/SUF") == "b+c";
  }

  lemma DetagSuffixExample()
    ensures Detag("+c/SUF") == "+c"
  {
    assert TagAt("/SUF", 0) by {
      assert "/SUF"[1..4] == "SUF";
    }
    assert Detag("/SUF") == [];
    assert Detag("c/SUF") == "c";
  }

  /** A tag followed by a word character is kept. */
  lemma DetagKeepExample()
    ensures Detag("/STMa") == "/STMa"
  {
    assert !TagAt("/STMa", 0) by { assert IsWordChar("/STMa"[4]); }
    assert Detag("a") == "a";
    assert Detag("Ma") == "Ma";
    assert Detag("TMa") == "TMa";
    assert Detag("STMa") == "STMa";
  }

  // ---- the merge of main ----

  /** The analysis of the last correction for `w`. */
  function LastAnalysis(corr: seq<Annotation>, w: string): (a: string)
    requires w in Words(corr)
    ensures exists i :: 0 <= i < |corr| && corr[i].word == w && corr[i].analysis == a &&
              forall j :: i < j < |corr| ==> corr[j].word != w
  {
    var last := corr[|corr| - 1];
    if last.word == w then last.analysis
    else
      var init := corr[..|corr| - 1];
      assert w in Words(init) by {
        var i :| 0 <= i < |corr| && corr[i].word == w;
        assert init[i] == corr[i];
      }
      var a := LastAnalysis(init, w);
      assert forall i :: 0 <= i < |init| ==> init[i] == corr[i];
      a
  }

  /** The words of a list of annotations. */
  function Words(anns: seq<Annotation>): set<string>
  {
    set i | 0 <= i < |anns| :: anns[i].word
  }

  lemma WordsAppend(anns: seq<Annotation>, a: Annotation)
    ensures Words(anns + [a]) == Words(anns) + {a.word}
  {
    var p := anns + [a];
    forall w | w in Words(p) ensures w in Words(anns) + {a.word} {
      var k :| 0 <= k < |p| && p[k].word == w;
      if k < |anns| { assert anns[k] == p[k]; }
    }
    forall w | w in Words(anns) ensures w in Words(p) {
      var k :| 0 <= k < |anns| && anns[k].word == w;
      assert p[k] == anns[k];
    }
    assert p[|anns|] == a;
  }

  lemma LastAnalysisAppend(corr: seq<Annotation>, a: Annotation, w: string)
    requires w in Words(corr + [a])
    ensures w != a.word ==> w in Words(corr)
    ensures LastAnalysis(corr + [a], w) ==
              if w == a.word then a.analysis else LastAnalysis(corr, w)
  {
    WordsAppend(corr, a);
    var p := corr + [a];
    assert p[..|p| - 1] == corr;
    if w != a.word {
      var k :| 0 <= k < |corr| && corr[k].word == w;
    }
  }

  /** `{word: analysis for (word, analysis) in corr}`: later corrections for
      the same word override earlier ones. */
  method CorrectionTable(corr: seq<Annotation>) returns (table: map<string, string>)
    ensures table.Keys == Words(corr)
    ensures forall w :: w in table ==> w in Words(corr) && table[w] == LastAnalysis(corr, w)
  {
    table := map[];
    var i := 0;
    while i < |corr|
      invariant 0 <= i <= |corr|
      invariant table.Keys == Words(corr[..i])
      invariant forall w :: w in table ==> w in Words(corr[..i]) && table[w] == LastAnalysis(corr[..i], w)
    {
      assert corr[..i + 1] == corr[..i] + [corr[i]];
      WordsAppend(corr[..i], corr[i]);
      forall w | w in Words(corr[..i + 1]) {
        LastAnalysisAppend(corr[..i], corr[i], w);
      }
      table := table[corr[i].word := corr[i].analysis];
      i := i + 1;
    }
    assert corr[..i] == corr;
  }

  /** The output record for one original annotation. */
  function Corrected(table: map<string, string>, a: Annotation): Annotation
  {
    if a.word in table then Annotation(a.word, table[a.word]) else a
  }

  /** The loop of `main` over the original annotations: each is written with
      its correction's analysis when its word has a correction, otherwise
      as it is; `replaced` lists the (word, old, new) triples the script
      reports, and `unused` is what remains of the correction words after
      every word met is removed. Writing the file and printing are not part
      of this model. */
  method Merge(table: map<string, string>, original: seq<Annotation>)
    returns (out: seq<Annotation>, replaced: seq<(string, string, string)>, unused: set<string>)
    ensures |out| == |original|
    ensures forall i :: 0 <= i < |original| ==>
              out[i].word == original[i].word &&
              (original[i].word in table ==> out[i].analysis == table[original[i].word]) &&
              (original[i].word !in table ==> out[i].analysis == original[i].analysis)
    ensures unused == table.Keys - Words(original)
    ensures forall r :: r in replaced <==>
              exists i :: 0 <= i < |original| && original[i].word in table &&
                table[original[i].word] != original[i].analysis &&
                r == (original[i].word, original[i].analysis, table[original[i].word])
  {
    out := [];
    replaced := [];
    unused := table.Keys;
    var i := 0;
    while i < |original|
      invariant 0 <= i <= |original|
      invariant |out| == i
      invariant forall k :: 0 <= k < i ==> out[k] == Corrected(table, original[k])
      invariant unused == table.Keys - Words(original[..i])
      invariant forall r :: r in replaced <==>
                  exists k :: 0 <= k < i && original[k].word in table &&
                    table[original[k].word] != original[k].analysis &&
                    r == (original[k].word, original[k].analysis, table[original[k].word])
    {
      var word := original[i].word;
      var analysis := original[i].analysis;
      assert original[..i + 1] == original[..i] + [original[i]];
      WordsAppend(original[..i], original[i]);
      if word in table {
        // `unused.remove(word)`; a KeyError for a word already removed is ignored
        unused := unused - {word};
        if table[word] != analysis {
          replaced := replaced + [(word, analysis, table[word])];
          analysis := table[word];
        }
      }
      out := out + [Annotation(word, analysis)];
      i := i + 1;
    }
    assert original[..i] == original;
  }

  /** The correction words the script lists as unused are exactly those
      that occur in no original annotation. */
  lemma UnusedWords(corr: seq<Annotation>, table: map<string, string>, original: seq<Annotation>, w: string)
    requires table.Keys == Words(corr)
    ensures w in table.Keys - Words(original) <==>
              (exists i :: 0 <= i < |corr| && corr[i].word == w) &&
              (forall i :: 0 <= i < |original| ==> original[i].word != w)
  {
  }
}
