// String helpers for the line-oriented parsing done throughout the
// repository: whitespace stripping, splitting on a separator and joining.
module Strings {

  /** Whitespace as Python 2.7's `unicode.isspace` and `unicode.strip` see
      it (Unicode 5.2): tab to carriage return, the separators 0x1C-0x1F,
      space, NEL, no-break space, the Ogham and Mongolian spaces, the
      en quad to hair space range, the line and paragraph separators, the
      narrow and medium mathematical spaces, and the ideographic space.
      Every line the repository reads comes through `codecs.open` as
      `unicode`, so this is the set its `strip()` calls remove. */
  predicate IsSpace(c: char)
  {
    var n := c as int;
    (9 <= n <= 13) || (0x1C <= n <= 0x20) || n == 0x85 || n == 0xA0 ||
    n == 0x1680 || n == 0x180E || (0x2000 <= n <= 0x200A) ||
    n == 0x2028 || n == 0x2029 || n == 0x202F || n == 0x205F || n == 0x3000
  }

  predicate AllSpace(s: string)
  {
    forall i :: 0 <= i < |s| ==> IsSpace(s[i])
  }

  /** Length of the leading run of whitespace. */
  function LeadingSpace(s: string): (n: nat)
    ensures n <= |s| && AllSpace(s[..n])
    ensures n < |s| ==> !IsSpace(s[n])
  {
    if s == [] || !IsSpace(s[0]) then 0
    else
      var n := 1 + LeadingSpace(s[1..]);
      assert forall i :: 1 <= i < n ==> s[..n][i] == s[1..][..n - 1][i - 1];
      n
  }

  /** Length of the trailing run of whitespace. */
  function TrailingSpace(s: string): (n: nat)
    ensures n <= |s| && AllSpace(s[|s| - n..])
    ensures n < |s| ==> !IsSpace(s[|s| - n - 1])
  {
    if s == [] || !IsSpace(s[|s| - 1]) then 0
    else
      var n := 1 + TrailingSpace(s[..|s| - 1]);
      var t := s[|s| - n..];
      assert forall i :: 0 <= i < n - 1 ==> t[i] == s[..|s| - 1][|s| - n..][i];
      n
  }

  /** Python's `unicode.strip()`: `s` is the result with
      a whitespace-only prefix and suffix around it, and the result neither
      starts nor ends with whitespace. */
  function Strip(s: string): (r: string)
    ensures exists a, b :: 0 <= a <= b <= |s| && r == s[a..b] && AllSpace(s[..a]) && AllSpace(s[b..])
    ensures r != [] ==> !IsSpace(r[0]) && !IsSpace(r[|r| - 1])
    ensures r == [] <==> AllSpace(s)
  {
    var a := LeadingSpace(s);
    if a == |s| then
      assert s[a..a] == [];
      []
    else
      var b := |s| - TrailingSpace(s);
      assert a < b;
      assert !AllSpace(s) by { assert !IsSpace(s[a]); }
      s[a..b]
  }

  /** Whether `sep` occurs in `s` at position `i`. */
  predicate OccursAt(s: string, sep: string, i: nat)
  {
    i + |sep| <= |s| && s[i..i + |sep|] == sep
  }

  /** The first position at or after `from` where `sep` occurs, or `|s|` if
      there is none. */
  function FindFrom(s: string, sep: string, from: nat): (i: nat)
    requires |sep| > 0 && from <= |s|
    ensures from <= i <= |s|
    ensures i < |s| ==> OccursAt(s, sep, i)
    ensures forall j :: from <= j < i ==> !OccursAt(s, sep, j)
    decreases |s| - from
  {
    if from == |s| then |s|
    else if OccursAt(s, sep, from) then from
    else FindFrom(s, sep, from + 1)
  }

  /** Python's `s.split(sep)` for a non-empty separator: the pieces between
      the non-overlapping occurrences of `sep`, scanning from the left. */
  function Split(s: string, sep: string): (parts: seq<string>)
    requires |sep| > 0
    ensures |parts| >= 1
    decreases |s|
  {
    var i := FindFrom(s, sep, 0);
    if i == |s| then [s] else [s[..i]] + Split(s[i + |sep|..], sep)
  }

  /** Python's `sep.join(parts)`. */
  function Join(sep: string, parts: seq<string>): string
  {
    if parts == [] then []
    else if |parts| == 1 then parts[0]
    else parts[0] + sep + Join(sep, parts[1..])
  }

  /** Joining the pieces of a split with the same separator gives back the
      string. */
  lemma {:induction false} JoinSplit(s: string, sep: string)
    requires |sep| > 0
    ensures Join(sep, Split(s, sep)) == s
    decreases |s|
  {
    var i := FindFrom(s, sep, 0);
    if i < |s| {
      var head, rest := s[..i], s[i + |sep|..];
      var tail := Split(rest, sep);
      assert Split(s, sep) == [head] + tail;
      JoinSplit(rest, sep);
      JoinCons(sep, head, tail);
      SplitAround(s, i, |sep|);
    }
  }

  lemma SplitAround(s: string, i: nat, n: nat)
    requires i + n <= |s|
    ensures s == s[..i] + s[i..i + n] + s[i + n..]
  {
  }

  lemma JoinCons(sep: string, x: string, tail: seq<string>)
    requires tail != []
    ensures Join(sep, [x] + tail) == x + sep + Join(sep, tail)
  {
    assert ([x] + tail)[1..] == tail;
  }

  /** No piece of a split contains the separator. */
  lemma {:induction false} SplitPiecesFree(s: string, sep: string)
    requires |sep| > 0
    ensures forall k, j :: 0 <= k < |Split(s, sep)| && 0 <= j ==> !OccursAt(Split(s, sep)[k], sep, j)
    decreases |s|
  {
    var i := FindFrom(s, sep, 0);
    if i == |s| {
      assert forall j :: 0 <= j ==> !OccursAt(s, sep, j);
    } else {
      var rest := s[i + |sep|..];
      SplitPiecesFree(rest, sep);
      forall j | 0 <= j ensures !OccursAt(s[..i], sep, j) {
        if OccursAt(s[..i], sep, j) {
          assert s[..i][j..j + |sep|] == s[j..j + |sep|];
          assert OccursAt(s, sep, j);
        }
      }
    }
  }

  /** Appending a piece to a non-empty list adds the separator and the
      piece at the end of the join. */
  lemma {:induction false} JoinSnoc(sep: string, init: seq<string>, x: string)
    requires init != []
    ensures Join(sep, init + [x]) == Join(sep, init) + sep + x
    decreases |init|
  {
    if |init| == 1 {
      assert init + [x] == [init[0]] + [x];
    } else {
      var rest := init[1..];
      assert init + [x] == [init[0]] + (rest + [x]);
      JoinCons(sep, init[0], rest + [x]);
      JoinSnoc(sep, rest, x);
      JoinCons(sep, init[0], rest);
      assert init == [init[0]] + rest;
    }
  }

  /** A trailing no-break space is stripped like any other whitespace. */
  lemma StripNoBreakSpace()
    ensures Strip("a\U{00A0}") == "a"
  {
    var s := "a\U{00A0}";
    assert !IsSpace(s[0]) && IsSpace(s[1]);
    assert LeadingSpace(s) == 0;
    assert s[..1] == "a" && TrailingSpace(s[..1]) == 0;
    assert TrailingSpace(s) == 1;
    assert s[0..1] == "a";
  }

  /** A string that neither starts nor ends with whitespace is its own
      strip. */
  lemma StripUnchanged(s: string)
    requires s != [] && !IsSpace(s[0]) && !IsSpace(s[|s| - 1])
    ensures Strip(s) == s
  {
    assert LeadingSpace(s) == 0;
    assert TrailingSpace(s) == 0;
    assert s[0..|s|] == s;
  }

  /** Splitting on a one-character separator: the text before its first
      occurrence is the first piece. */
  lemma SplitFirstChar(a: string, c: char, b: string)
    requires c !in a
    ensures Split(a + [c] + b, [c]) == [a] + Split(b, [c])
  {
    var s := a + [c] + b;
    var i := FindFrom(s, [c], 0);
    assert OccursAt(s, [c], |a|) by { assert s[|a|..|a| + 1] == [c]; }
    forall j | 0 <= j < |a| ensures !OccursAt(s, [c], j) {
      assert s[j..j + 1] == [a[j]];
    }
    assert i == |a|;
    assert s[..i] == a;
    assert s[i + 1..] == b;
  }

  /** A string without the one-character separator splits into itself. */
  lemma SplitNoChar(b: string, c: char)
    requires c !in b
    ensures Split(b, [c]) == [b]
  {
    forall j | 0 <= j < |b| ensures !OccursAt(b, [c], j) {
      assert b[j..j + 1] == [b[j]];
    }
    assert FindFrom(b, [c], 0) == |b|;
  }

  /** Python's `<` on strings: code point by code point, a proper prefix
      first. */
  predicate StrLess(a: string, b: string)
    decreases |a|
  {
    if a == [] then b != []
    else if b == [] then false
    else if a[0] != b[0] then a[0] < b[0]
    else StrLess(a[1..], b[1..])
  }

  lemma {:induction false} StrLessIrreflexive(a: string)
    ensures !StrLess(a, a)
    decreases |a|
  {
    if a != [] {
      StrLessIrreflexive(a[1..]);
    }
  }

  lemma {:induction false} StrLessTransitive(a: string, b: string, c: string)
    requires StrLess(a, b) && StrLess(b, c)
    ensures StrLess(a, c)
    decreases |a|
  {
    if a != [] && a[0] == b[0] && b[0] == c[0] {
      StrLessTransitive(a[1..], b[1..], c[1..]);
    }
  }

  lemma {:induction false} StrLessTotal(a: string, b: string)
    ensures StrLess(a, b) || a == b || StrLess(b, a)
    decreases |a|
  {
    if a != [] && b != [] && a[0] == b[0] {
      StrLessTotal(a[1..], b[1..]);
      if a[1..] == b[1..] {
        assert a == [a[0]] + a[1..] && b == [b[0]] + b[1..];
      }
    }
  }
}
