// Generic sequence helpers shared by the modules of this model: the
// optional-value datatype, duplicate-freedom, first-occurrence
// deduplication by a key, filtering and concatenation.
module SeqUtil {

  datatype Option<T> = None | Some(value: T)

  /** All elements distinct. */
  predicate NoDups<T(==)>(s: seq<T>)
  {
    forall i, j :: 0 <= i < j < |s| ==> s[i] != s[j]
  }

  /** The set of the elements of `s`. */
  function Elems<T>(s: seq<T>): set<T>
  {
    set x | x in s
  }

  /** All keys distinct. */
  predicate KeysDistinct<T, K(==)>(s: seq<T>, key: T -> K)
  {
    forall i, j :: 0 <= i < j < |s| ==> key(s[i]) != key(s[j])
  }

  /** The set of keys of the elements of `s`. */
  function KeySet<T, K>(s: seq<T>, key: T -> K): set<K>
  {
    set i | 0 <= i < |s| :: key(s[i])
  }

  /** The elements of `s` whose key was not met earlier in `s`, in order:
      the first element for each key. Defined from the back so that it
      follows a left-to-right loop step by step. */
  function DedupBy<T, K(==)>(s: seq<T>, key: T -> K): seq<T>
  {
    if s == [] then []
    else
      var init := s[..|s| - 1];
      var last := s[|s| - 1];
      if key(last) in KeySet(init, key) then DedupBy(init, key)
      else DedupBy(init, key) + [last]
  }

  /** The element at `k` repeats an earlier key, so it is dropped. */
  lemma DedupSkipAt<T, K>(s: seq<T>, key: T -> K, k: nat, j: nat)
    requires j < k < |s| && key(s[j]) == key(s[k])
    ensures DedupBy(s[..k + 1], key) == DedupBy(s[..k], key)
  {
    assert s[..k + 1][..k] == s[..k];
    assert key(s[..k][j]) == key(s[k]);
  }

  /** The element at `k` has a key not met before, so it is kept. */
  lemma DedupKeepAt<T, K>(s: seq<T>, key: T -> K, k: nat)
    requires k < |s| && forall j :: 0 <= j < k ==> key(s[j]) != key(s[k])
    ensures DedupBy(s[..k + 1], key) == DedupBy(s[..k], key) + [s[k]]
  {
    assert s[..k + 1][..k] == s[..k];
  }

  /** Position of the first element of `s` whose key is `k`. */
  function FirstIndexByKey<T, K(==)>(s: seq<T>, key: T -> K, k: K): (i: nat)
    requires k in KeySet(s, key)
    ensures i < |s| && key(s[i]) == k
    ensures forall j :: 0 <= j < i ==> key(s[j]) != k
  {
    if key(s[0]) == k then 0
    else
      assert k in KeySet(s[1..], key) by {
        var j :| 0 <= j < |s| && key(s[j]) == k;
        assert j != 0;
        assert s[1..][j - 1] == s[j];
      }
      1 + FirstIndexByKey(s[1..], key, k)
  }

  lemma KeySetAppend<T, K>(s: seq<T>, x: T, key: T -> K)
    ensures KeySet(s + [x], key) == KeySet(s, key) + {key(x)}
  {
    var t := s + [x];
    forall k | k in KeySet(t, key) ensures k in KeySet(s, key) + {key(x)} {
      var i :| 0 <= i < |t| && key(t[i]) == k;
      if i < |s| { assert t[i] == s[i]; }
    }
    forall k | k in KeySet(s, key) + {key(x)} ensures k in KeySet(t, key) {
      if k == key(x) { assert t[|s|] == x; }
      else { var i :| 0 <= i < |s| && key(s[i]) == k; assert t[i] == s[i]; }
    }
  }

  lemma FirstIndexPrefix<T, K>(s: seq<T>, x: T, key: T -> K, k: K)
    requires k in KeySet(s, key)
    ensures k in KeySet(s + [x], key)
    ensures FirstIndexByKey(s + [x], key, k) == FirstIndexByKey(s, key, k)
  {
    KeySetAppend(s, x, key);
    var i := FirstIndexByKey(s, key, k);
    assert (s + [x])[i] == s[i];
  }

  /** `r` is `s` deduplicated by `key`: keys are distinct, the same keys
      occur, each element is the first element of `s` with its key, and
      they keep the order of those first occurrences. */
  ghost predicate IsDedup<T, K>(s: seq<T>, key: T -> K, r: seq<T>)
  {
    KeysDistinct(r, key) &&
    KeySet(r, key) == KeySet(s, key) &&
    (forall i :: 0 <= i < |r| ==>
       key(r[i]) in KeySet(s, key) && r[i] == s[FirstIndexByKey(s, key, key(r[i]))]) &&
    (forall i, j :: 0 <= i < j < |r| ==>
       key(r[i]) in KeySet(s, key) && key(r[j]) in KeySet(s, key) &&
       FirstIndexByKey(s, key, key(r[i])) < FirstIndexByKey(s, key, key(r[j])))
  }

  /** `DedupBy` deduplicates. */
  lemma {:induction false} DedupByFacts<T, K>(s: seq<T>, key: T -> K)
    ensures IsDedup(s, key, DedupBy(s, key))
  {
    if s != [] {
      var init := s[..|s| - 1];
      assert s == init + [s[|s| - 1]];
      DedupByFacts(init, key);
      DedupStep(init, s[|s| - 1], key);
    }
  }

  lemma DedupStep<T, K>(init: seq<T>, last: T, key: T -> K)
    requires IsDedup(init, key, DedupBy(init, key))
    ensures IsDedup(init + [last], key, DedupBy(init + [last], key))
  {
    var s := init + [last];
    assert s[..|s| - 1] == init;
    KeySetAppend(init, last, key);
    forall k | k in KeySet(init, key)
      ensures k in KeySet(s, key) && FirstIndexByKey(s, key, k) == FirstIndexByKey(init, key, k)
    {
      FirstIndexPrefix(init, last, key, k);
    }
    if key(last) !in KeySet(init, key) {
      assert DedupBy(s, key) == DedupBy(init, key) + [last];
      DedupNewKey(init, last, key);
    }
  }

  /** An element with a new key joins the deduplicated sequence last. */
  lemma DedupNewKey<T, K>(init: seq<T>, last: T, key: T -> K)
    requires IsDedup(init, key, DedupBy(init, key)) && key(last) !in KeySet(init, key)
    ensures IsDedup(init + [last], key, DedupBy(init, key) + [last])
  {
    var p := DedupBy(init, key);
    var s := init + [last];
    var r := p + [last];
    KeySetAppend(init, last, key);
    KeySetAppend(p, last, key);
    KeysDistinctSnoc(p, last, key);
    NewKeyFirsts(init, last, key, p, s, r);
    NewKeyOrder(init, last, key, p, s, r);
  }

  lemma KeysDistinctSnoc<T, K>(p: seq<T>, x: T, key: T -> K)
    requires KeysDistinct(p, key) && key(x) !in KeySet(p, key)
    ensures KeysDistinct(p + [x], key)
  {
    var r := p + [x];
    forall i | 0 <= i < |p| ensures key(r[i]) != key(x) {
      assert r[i] == p[i];
      assert key(p[i]) in KeySet(p, key);
    }
  }

  lemma NewKeyFirst<T, K>(init: seq<T>, last: T, key: T -> K)
    requires key(last) !in KeySet(init, key)
    ensures key(last) in KeySet(init + [last], key)
    ensures FirstIndexByKey(init + [last], key, key(last)) == |init|
  {
    var s := init + [last];
    KeySetAppend(init, last, key);
    forall j | 0 <= j < |init| ensures key(s[j]) != key(last) {
      assert s[j] == init[j];
      assert key(init[j]) in KeySet(init, key);
    }
  }

  lemma NewKeyFirsts<T, K>(init: seq<T>, last: T, key: T -> K, p: seq<T>, s: seq<T>, r: seq<T>)
    requires s == init + [last] && r == p + [last]
    requires key(last) !in KeySet(init, key) && IsDedup(init, key, p)
    ensures forall i :: 0 <= i < |r| ==>
      key(r[i]) in KeySet(s, key) && r[i] == s[FirstIndexByKey(s, key, key(r[i]))]
  {
    NewKeyFirst(init, last, key);
    forall i | 0 <= i < |r|
      ensures key(r[i]) in KeySet(s, key) && r[i] == s[FirstIndexByKey(s, key, key(r[i]))]
    {
      if i < |p| {
        assert r[i] == p[i];
        FirstIndexPrefix(init, last, key, key(p[i]));
        assert s[FirstIndexByKey(init, key, key(p[i]))] == init[FirstIndexByKey(init, key, key(p[i]))];
      } else {
        assert r[i] == last;
      }
    }
  }

  lemma NewKeyOrder<T, K>(init: seq<T>, last: T, key: T -> K, p: seq<T>, s: seq<T>, r: seq<T>)
    requires s == init + [last] && r == p + [last]
    requires key(last) !in KeySet(init, key) && IsDedup(init, key, p)
    ensures forall i, j :: 0 <= i < j < |r| ==>
      key(r[i]) in KeySet(s, key) && key(r[j]) in KeySet(s, key) &&
      FirstIndexByKey(s, key, key(r[i])) < FirstIndexByKey(s, key, key(r[j]))
  {
    NewKeyFirst(init, last, key);
    forall i | 0 <= i < |p|
      ensures r[i] == p[i] && key(p[i]) in KeySet(s, key) &&
              FirstIndexByKey(s, key, key(p[i])) == FirstIndexByKey(init, key, key(p[i]))
    {
      FirstIndexPrefix(init, last, key, key(p[i]));
    }
    assert r[|p|] == last;
  }

  /** `f` applied to every element, in order. */
  function MapSeq<T, U>(s: seq<T>, f: T -> U): seq<U>
  {
    if s == [] then [] else MapSeq(s[..|s| - 1], f) + [f(s[|s| - 1])]
  }

  lemma {:induction false} MapAppend<T, U>(a: seq<T>, b: seq<T>, f: T -> U)
    ensures MapSeq(a + b, f) == MapSeq(a, f) + MapSeq(b, f)
    decreases |b|
  {
    if b == [] {
      assert a + b == a;
    } else {
      var init := b[..|b| - 1];
      assert (a + b)[..|a + b| - 1] == a + init;
      MapAppend(a, init, f);
    }
  }

  /** A sequence is what comes before position `j`, the element there and
      what comes after. */
  lemma CutAround<T>(b: seq<T>, j: nat)
    requires j < |b|
    ensures b == b[..j] + [b[j]] + b[j + 1..]
  {
  }

  lemma MultisetCut<T>(left: seq<T>, y: T, right: seq<T>)
    ensures multiset(left + [y] + right) == multiset(left + right) + multiset{y}
  {
    assert multiset(left + [y] + right) == multiset(left) + multiset{y} + multiset(right);
  }

  lemma CancelOne<T>(m1: multiset<T>, m2: multiset<T>, x: T)
    requires m1 + multiset{x} == m2 + multiset{x}
    ensures m1 == m2
  {
    assert m1 == (m1 + multiset{x}) - multiset{x};
    assert m2 == (m2 + multiset{x}) - multiset{x};
  }

  /** Mapping the sequence without the element at `j` maps out its image. */
  lemma MapRemove<T, U>(b: seq<T>, j: nat, f: T -> U)
    requires j < |b|
    ensures multiset(MapSeq(b, f)) == multiset(MapSeq(b[..j] + b[j + 1..], f)) + multiset{f(b[j])}
  {
    var left, y, right := b[..j], b[j], b[j + 1..];
    CutAround(b, j);
    MapAppend(left + [y], right, f);
    MapAppend(left, [y], f);
    MapAppend(left, right, f);
    assert MapSeq([y], f) == [f(y)] by {
      assert [y][..0] == [];
    }
    MultisetCut(MapSeq(left, f), f(y), MapSeq(right, f));
  }

  /** Permuted sequences have permuted images. */
  lemma {:induction false} MapPermutes<T, U>(a: seq<T>, b: seq<T>, f: T -> U)
    requires multiset(a) == multiset(b)
    ensures multiset(MapSeq(a, f)) == multiset(MapSeq(b, f))
    decreases |a|
  {
    if a != [] {
      var x := a[|a| - 1];
      var a' := a[..|a| - 1];
      assert a == a' + [x];
      assert x in multiset(b);
      var j :| 0 <= j < |b| && b[j] == x;
      var b' := b[..j] + b[j + 1..];
      CutAround(b, j);
      MultisetCut(b[..j], x, b[j + 1..]);
      assert multiset(b) == multiset(b') + multiset{x};
      assert multiset(a) == multiset(a') + multiset{x};
      CancelOne(multiset(a'), multiset(b'), x);
      MapPermutes(a', b', f);
      MapRemove(b, j, f);
    }
  }

  /** Number of occurrences of `x` in `s`. */
  function Count<T(==)>(s: seq<T>, x: T): nat
  {
    if s == [] then 0
    else Count(s[..|s| - 1], x) + (if s[|s| - 1] == x then 1 else 0)
  }

  /** The elements of `s` that satisfy `p`, in order. */
  function Filter<T>(s: seq<T>, p: T -> bool): seq<T>
  {
    if s == [] then []
    else Filter(s[..|s| - 1], p) + (if p(s[|s| - 1]) then [s[|s| - 1]] else [])
  }

  /** The concatenation of a sequence of sequences. */
  function Flatten<T>(ss: seq<seq<T>>): seq<T>
  {
    if ss == [] then [] else Flatten(ss[..|ss| - 1]) + ss[|ss| - 1]
  }

  lemma {:induction false} FlattenAppend<T>(a: seq<seq<T>>, b: seq<seq<T>>)
    ensures Flatten(a + b) == Flatten(a) + Flatten(b)
    decreases |b|
  {
    if b == [] {
      assert a + b == a;
    } else {
      var b' := b[..|b| - 1];
      assert (a + b)[..|a + b| - 1] == a + b';
      FlattenAppend(a, b');
      assert b == b' + [b[|b| - 1]];
    }
  }

  lemma FlattenCons<T>(x: seq<T>, s: seq<seq<T>>)
    ensures Flatten([x] + s) == x + Flatten(s)
  {
    FlattenAppend([x], s);
    assert Flatten([x]) == Flatten([]) + x;
  }

  /** At most the first `n` elements. */
  function Take<T>(s: seq<T>, n: nat): seq<T>
  {
    if n <= |s| then s[..n] else s
  }
}
