// The list combinators of morphsegannot/tools/roundrobin.py: interleaving
// several ranked word lists one element at a time, deduplicating while
// keeping first occurrences, and their composition that picks the first
// `n` distinct words.
module RoundRobin {
  import opened SeqUtil

  // ---- roundrobin ----

  /** Total number of elements. */
  function TotalLen<T>(q: seq<seq<T>>): nat
  {
    if q == [] then 0 else |q[0]| + TotalLen(q[1..])
  }

  /** One round: the first element of every input that is not exhausted, in
      argument order. */
  function Heads<T>(q: seq<seq<T>>): seq<T>
  {
    if q == [] then []
    else (if q[0] == [] then [] else [q[0][0]]) + Heads(q[1..])
  }

  /** What remains after a round: the rest of every input that was not
      exhausted; exhausted inputs are dropped. */
  function Tails<T>(q: seq<seq<T>>): seq<seq<T>>
  {
    if q == [] then []
    else (if q[0] == [] then [] else [q[0][1..]]) + Tails(q[1..])
  }

  /** A round takes one element from each input it keeps a rest of. */
  lemma {:induction false} TailsMeasure<T>(q: seq<seq<T>>)
    ensures |Tails(q)| == |Heads(q)| <= |q|
    ensures TotalLen(Tails(q)) + |Heads(q)| == TotalLen(q)
  {
    if q != [] {
      TailsMeasure(q[1..]);
      var first := if q[0] == [] then [] else [q[0][1..]];
      TotalLenAppend(first, Tails(q[1..]));
    }
  }

  /** The interleaving, round by round. */
  function Rounds<T>(q: seq<seq<T>>): seq<T>
    decreases TotalLen(q), |q|
  {
    if q == [] then []
    else
      TailsMeasure(q);
      Heads(q) + Rounds(Tails(q))
  }

  lemma {:induction false} TotalLenAppend<T>(a: seq<seq<T>>, b: seq<seq<T>>)
    ensures TotalLen(a + b) == TotalLen(a) + TotalLen(b)
  {
    if a == [] {
      assert a + b == b;
    } else {
      assert (a + b)[1..] == a[1..] + b;
      TotalLenAppend(a[1..], b);
    }
  }

  /** Heads and rests of a queue split in two. */
  lemma {:induction false} HeadsTailsAppend<T>(a: seq<seq<T>>, b: seq<seq<T>>)
    ensures Heads(a + b) == Heads(a) + Heads(b)
    ensures Tails(a + b) == Tails(a) + Tails(b)
  {
    if a == [] {
      assert a + b == b;
    } else {
      assert (a + b)[0] == a[0];
      assert (a + b)[1..] == a[1..] + b;
      HeadsTailsAppend(a[1..], b);
    }
  }

  /** What the loop of `Roundrobin` keeps: the output so far, followed by
      the rest of the current round (the first `k` iterators of `nexts`) and
      the rounds after it, is the interleaving. */
  ghost predicate RoundInvariant<T>(out: seq<T>, nexts: seq<seq<T>>, k: nat, all: seq<T>)
  {
    k <= |nexts| &&
    out + Heads(nexts[..k]) + Rounds(nexts[k..] + Tails(nexts[..k])) == all
  }

  lemma NewRound<T>(out: seq<T>, nexts: seq<seq<T>>, all: seq<T>)
    requires nexts != [] && RoundInvariant(out, nexts, 0, all)
    ensures RoundInvariant(out, nexts, |nexts|, all)
  {
    var none: seq<seq<T>> := [];
    assert nexts[..0] == none && nexts[0..] + Tails(none) == nexts;
    assert out + Heads(none) == out;
    assert out + Rounds(nexts) == all;
    assert Rounds(nexts) == Heads(nexts) + Rounds(Tails(nexts));
    assert nexts[..|nexts|] == nexts && nexts[|nexts|..] + Tails(nexts) == Tails(nexts);
  }

  /** The iterator at the front is exhausted and is dropped. */
  lemma SkipStep<T>(out: seq<T>, nexts: seq<seq<T>>, k: nat, all: seq<T>)
    requires 0 < k <= |nexts| && nexts[0] == [] && RoundInvariant(out, nexts, k, all)
    ensures RoundInvariant(out, nexts[1..], k - 1, all)
  {
    var cur := nexts[..k];
    assert cur == [nexts[0]] + cur[1..];
    HeadsTailsAppend([nexts[0]], cur[1..]);
    assert Heads(cur) == Heads(cur[1..]) && Tails(cur) == Tails(cur[1..]);
    assert nexts[1..][..k - 1] == cur[1..] && nexts[1..][k - 1..] == nexts[k..];
  }

  /** The iterator at the front yields its next element and moves to the
      back. */
  lemma TakeStep<T>(out: seq<T>, nexts: seq<seq<T>>, k: nat, all: seq<T>)
    requires 0 < k <= |nexts| && nexts[0] != [] && RoundInvariant(out, nexts, k, all)
    ensures RoundInvariant(out + [nexts[0][0]], nexts[1..] + [nexts[0][1..]], k - 1, all)
  {
    var nexts' := nexts[1..] + [nexts[0][1..]];
    TakeQueues(nexts, k);
    assert out + Heads(nexts[..k]) == out + [nexts[0][0]] + Heads(nexts'[..k - 1]);
  }

  /** After the front iterator yields and moves to the back, the round has
      one head fewer to give and the same queue for the rounds after it. */
  lemma TakeQueues<T>(nexts: seq<seq<T>>, k: nat)
    requires 0 < k <= |nexts| && nexts[0] != []
    ensures var nexts' := nexts[1..] + [nexts[0][1..]];
      Heads(nexts[..k]) == [nexts[0][0]] + Heads(nexts'[..k - 1]) &&
      nexts'[k - 1..] + Tails(nexts'[..k - 1]) == nexts[k..] + Tails(nexts[..k])
  {
    var it := nexts[0];
    var cur := nexts[..k];
    var nexts' := nexts[1..] + [it[1..]];
    assert cur == [it] + cur[1..];
    HeadsTailsAppend([it], cur[1..]);
    assert nexts'[..k - 1] == cur[1..] && nexts'[k - 1..] == nexts[k..] + [it[1..]];
  }

  /** One `next()` on an iterator that is not exhausted takes one element
      off all that is left. */
  lemma TakeShrinks<T>(nexts: seq<seq<T>>)
    requires nexts != [] && nexts[0] != []
    ensures TotalLen(nexts[1..] + [nexts[0][1..]]) == TotalLen(nexts) - 1
  {
    TotalLenAppend(nexts[1..], [nexts[0][1..]]);
    assert TotalLen([nexts[0][1..]]) == |nexts[0]| - 1;
  }

  /** `roundrobin(*iterables)`. `nexts` holds what is left of each iterator,
      in the order the cycle asks them, and `pending` counts them; every
      iteration is one `next()`. The ghost `k` says how many iterators at the
      front of `nexts` the current round has still to ask: the others have
      already moved to the back. */
  method Roundrobin<T>(iterables: seq<seq<T>>) returns (out: seq<T>)
    ensures out == Rounds(iterables)
  {
    var pending := |iterables|;
    var nexts := iterables;
    ghost var k: nat := 0;
    out := [];
    assert nexts[..0] == [] && nexts[0..] + [] == iterables;
    while pending > 0
      invariant pending == |nexts|
      invariant RoundInvariant(out, nexts, k, Rounds(iterables))
      decreases TotalLen(nexts), |nexts|
    {
      if k == 0 {
        NewRound(out, nexts, Rounds(iterables));
        k := |nexts|;
      }
      var it := nexts[0];
      if it == [] {
        // StopIteration: one fewer pending, the cycle goes on without it
        SkipStep(out, nexts, k, Rounds(iterables));
        pending := pending - 1;
        nexts := nexts[1..];
      } else {
        TakeStep(out, nexts, k, Rounds(iterables));
        TakeShrinks(nexts);
        out := out + [it[0]];
        nexts := nexts[1..] + [it[1..]];
      }
      k := k - 1;
    }
  }

  /** The interleaving has as many elements as all inputs together. */
  lemma {:induction false} RoundsLength<T>(q: seq<seq<T>>)
    ensures |Rounds(q)| == TotalLen(q)
    decreases TotalLen(q), |q|
  {
    if q != [] {
      TailsMeasure(q);
      RoundsLength(Tails(q));
    }
  }

  /** The example of the source's doc string: A D E B F C. */
  lemma RoundrobinExample()
    ensures Rounds(["ABC", "D", "EF"]) == "ADEBFC"
  {
    ExampleFirstRound();
    ExampleSecondRound();
    ExampleLastRound();
    assert Rounds(["ABC", "D", "EF"]) == "ADE" + Rounds(["BC", "", "F"]);
    assert Rounds(["BC", "", "F"]) == "BF" + Rounds(["C", ""]);
    assert Rounds(["C", ""]) == "C" + Rounds([""]);
  }

  lemma ExampleFirstRound()
    ensures Heads(["ABC", "D", "EF"]) == "ADE" && Tails(["ABC", "D", "EF"]) == ["BC", "", "F"]
  {
    var q := ["ABC", "D", "EF"];
    assert q[1..] == ["D", "EF"] && q[1..][1..] == ["EF"];
    assert "ABC"[1..] == "BC" && "D"[1..] == [] && "EF"[1..] == "F";
  }

  lemma ExampleSecondRound()
    ensures Heads(["BC", "", "F"]) == "BF" && Tails(["BC", "", "F"]) == ["C", ""]
  {
    var q := ["BC", "", "F"];
    assert q[1..] == ["", "F"] && q[1..][1..] == ["F"];
    assert "BC"[1..] == "C" && "F"[1..] == [];
  }

  lemma ExampleLastRound()
    ensures Heads(["C", ""]) == "C" && Tails(["C", ""]) == [""]
    ensures Rounds([""]) == []
  {
    var q := ["C", ""];
    assert q[1..] == [""];
    assert "C"[1..] == [];
    assert Heads([""]) == [] && Tails([""]) == [];
  }

  lemma {:induction false} FlattenRound<T>(q: seq<seq<T>>)
    ensures multiset(Flatten(q)) == multiset(Heads(q)) + multiset(Flatten(Tails(q)))
  {
    if q != [] {
      FlattenRound(q[1..]);
      assert q == [q[0]] + q[1..];
      FlattenCons(q[0], q[1..]);
      if q[0] == [] {
        assert Heads(q) == Heads(q[1..]) && Tails(q) == Tails(q[1..]);
      } else {
        assert Heads(q) == [q[0][0]] + Heads(q[1..]);
        assert Tails(q) == [q[0][1..]] + Tails(q[1..]);
        FlattenCons(q[0][1..], Tails(q[1..]));
        assert q[0] == [q[0][0]] + q[0][1..];
      }
    }
  }

  /** The interleaving holds every element of every input, as often as the
      inputs hold it, and nothing else. */
  lemma {:induction false} RoundsPermutation<T>(q: seq<seq<T>>)
    ensures multiset(Rounds(q)) == multiset(Flatten(q))
    decreases TotalLen(q), |q|
  {
    if q != [] {
      TailsMeasure(q);
      RoundsPermutation(Tails(q));
      FlattenRound(q);
    }
  }

  // ---- the order within each input ----

  /** Each element of the `i`-th input paired with `base + i`, the input it
      came from. */
  function Tagged<T>(q: seq<seq<T>>, base: nat): seq<seq<(nat, T)>>
  {
    if q == [] then [] else [Tag(base, q[0])] + Tagged(q[1..], base + 1)
  }

  function Tag<T>(t: nat, s: seq<T>): seq<(nat, T)>
  {
    if s == [] then [] else [(t, s[0])] + Tag(t, s[1..])
  }

  /** The elements tagged `t`, in order, without their tags. */
  function Only<T>(t: nat, s: seq<(nat, T)>): seq<T>
  {
    if s == [] then [] else (if s[0].0 == t then [s[0].1] else []) + Only(t, s[1..])
  }

  /** The elements, without their tags. */
  function Untag<T>(s: seq<(nat, T)>): seq<T>
  {
    if s == [] then [] else [s[0].1] + Untag(s[1..])
  }

  function UntagAll<T>(q: seq<seq<(nat, T)>>): seq<seq<T>>
  {
    if q == [] then [] else [Untag(q[0])] + UntagAll(q[1..])
  }

  /** No input of `q` holds an element tagged `t`. */
  predicate NoneTagged<T>(t: nat, q: seq<seq<(nat, T)>>)
  {
    q == [] || (Only(t, q[0]) == [] && NoneTagged(t, q[1..]))
  }

  /** At most one input of `q` holds elements tagged `t`. */
  predicate OneTagged<T>(t: nat, q: seq<seq<(nat, T)>>)
  {
    q == [] || (if Only(t, q[0]) == [] then OneTagged(t, q[1..]) else NoneTagged(t, q[1..]))
  }

  lemma {:induction false} OnlyAppend<T>(t: nat, a: seq<(nat, T)>, b: seq<(nat, T)>)
    ensures Only(t, a + b) == Only(t, a) + Only(t, b)
  {
    if a == [] {
      assert a + b == b;
    } else {
      var h := if a[0].0 == t then [a[0].1] else [];
      assert (a + b)[0] == a[0] && (a + b)[1..] == a[1..] + b;
      assert Only(t, a + b) == h + Only(t, a[1..] + b);
      assert Only(t, a) == h + Only(t, a[1..]);
      OnlyAppend(t, a[1..], b);
    }
  }

  lemma {:induction false} UntagAppend<T>(a: seq<(nat, T)>, b: seq<(nat, T)>)
    ensures Untag(a + b) == Untag(a) + Untag(b)
  {
    if a == [] {
      assert a + b == b;
    } else {
      assert (a + b)[0] == a[0] && (a + b)[1..] == a[1..] + b;
      UntagAppend(a[1..], b);
    }
  }

  /** Tagging a list with `t`, then keeping tag `t`, gives the list back;
      keeping another tag gives nothing. */
  lemma {:induction false} OnlyTag<T>(t: nat, u: nat, s: seq<T>)
    ensures Only(u, Tag(t, s)) == if u == t then s else []
    ensures Untag(Tag(t, s)) == s
  {
    if s != [] {
      OnlyTag(t, u, s[1..]);
    }
  }

  /** Without any `t`-tagged input, neither a round, nor what is left, nor
      the whole holds a `t`-tagged element. */
  lemma {:induction false} NoneTaggedRound<T>(t: nat, q: seq<seq<(nat, T)>>)
    requires NoneTagged(t, q)
    ensures Only(t, Heads(q)) == [] && NoneTagged(t, Tails(q)) && Only(t, Flatten(q)) == []
  {
    if q != [] {
      var a := q[0];
      NoneTaggedRound(t, q[1..]);
      var h := if a == [] then [] else [a[0]];
      assert Heads(q) == h + Heads(q[1..]);
      OnlyAppend(t, h, Heads(q[1..]));
      FlattenCons(a, q[1..]);
      assert q == [a] + q[1..];
      OnlyAppend(t, a, Flatten(q[1..]));
      if a != [] {
        HeadRest(t, a);
        var r := [a[1..]] + Tails(q[1..]);
        assert Tails(q) == r;
        assert r[0] == a[1..] && r[1..] == Tails(q[1..]);
      } else {
        assert Tails(q) == Tails(q[1..]);
      }
    }
  }

  /** The tagged elements of a list are those of its head and its rest. */
  lemma HeadRest<T>(t: nat, s: seq<(nat, T)>)
    requires s != []
    ensures Only(t, s) == Only(t, [s[0]]) + Only(t, s[1..])
  {
    var one: seq<(nat, T)> := [s[0]];
    assert one[1..] == [];
  }

  lemma {:induction false} NoneIsOne<T>(t: nat, q: seq<seq<(nat, T)>>)
    requires NoneTagged(t, q)
    ensures OneTagged(t, q)
  {
    if q != [] {
      NoneIsOne(t, q[1..]);
    }
  }

  /** A round over inputs whose first one is not exhausted takes that
      input's head first and leaves its rest first. */
  lemma FrontRound<T>(q: seq<seq<T>>)
    requires q != [] && q[0] != []
    ensures Heads(q) == [q[0][0]] + Heads(q[1..])
    ensures Tails(q) == [q[0][1..]] + Tails(q[1..])
    ensures Flatten(Tails(q)) == q[0][1..] + Flatten(Tails(q[1..]))
    ensures Flatten(q) == ([q[0][0]] + q[0][1..]) + Flatten(q[1..])
  {
    assert q == [q[0]] + q[1..];
    assert q[0] == [q[0][0]] + q[0][1..];
    FlattenCons(q[0], q[1..]);
    FlattenCons(q[0][1..], Tails(q[1..]));
  }

  /** An exhausted first input adds nothing to a round. */
  lemma EmptyFront<T>(q: seq<seq<T>>)
    requires q != [] && q[0] == []
    ensures Heads(q) == Heads(q[1..]) && Tails(q) == Tails(q[1..])
    ensures Flatten(q) == Flatten(q[1..])
  {
    assert q == [q[0]] + q[1..];
    FlattenCons(q[0], q[1..]);
  }

  /** The `t`-elements of a round whose first input holds none of them. */
  lemma UntaggedFront<T>(t: nat, x: (nat, T), rest: seq<(nat, T)>,
                         heads: seq<(nat, T)>, later: seq<(nat, T)>, all: seq<(nat, T)>)
    requires Only(t, [x] + rest) == [] && Only(t, heads) + Only(t, later) == Only(t, all)
    ensures Only(t, [x] + heads) + Only(t, rest + later) == Only(t, ([x] + rest) + all)
  {
    OnlyAppend(t, [x], rest);
    OnlyAppend(t, [x], heads);
    OnlyAppend(t, rest, later);
    OnlyAppend(t, [x] + rest, all);
  }

  /** The `t`-elements of a round whose other inputs hold none of them. */
  lemma TaggedFront<T>(t: nat, x: (nat, T), rest: seq<(nat, T)>,
                       heads: seq<(nat, T)>, later: seq<(nat, T)>, all: seq<(nat, T)>)
    requires Only(t, heads) == [] && Only(t, later) == [] && Only(t, all) == []
    ensures Only(t, [x] + heads) + Only(t, rest + later) == Only(t, ([x] + rest) + all)
  {
    OnlyAppend(t, [x], rest);
    OnlyAppend(t, [x], heads);
    OnlyAppend(t, rest, later);
    OnlyAppend(t, [x] + rest, all);
  }

  /** When at most one input is tagged `t`, a round's `t`-elements followed
      by those of what is left are the `t`-elements of the inputs, and at
      most one input of what is left is tagged `t`. */
  lemma {:induction false} OneTaggedRound<T>(t: nat, q: seq<seq<(nat, T)>>)
    requires OneTagged(t, q)
    ensures Only(t, Heads(q)) + Only(t, Flatten(Tails(q))) == Only(t, Flatten(q))
    ensures OneTagged(t, Tails(q))
  {
    if q != [] {
      var a, r := q[0], q[1..];
      if a == [] {
        OneTaggedRound(t, r);
        EmptyFront(q);
      } else {
        FrontRound(q);
        var rest := [a[1..]] + Tails(r);
        assert rest[0] == a[1..] && rest[1..] == Tails(r);
        assert [a[0]] + a[1..] == a;
        if Only(t, a) == [] {
          OneTaggedRound(t, r);
          UntaggedFront(t, a[0], a[1..], Heads(r), Flatten(Tails(r)), Flatten(r));
          OnlyAppend(t, [a[0]], a[1..]);
        } else {
          NoneTaggedRound(t, r);
          NoneTaggedRound(t, Tails(r));
          NoneIsOne(t, Tails(r));
          TaggedFront(t, a[0], a[1..], Heads(r), Flatten(Tails(r)), Flatten(r));
        }
      }
    }
  }

  /** The `t`-elements come out of the interleaving in the order of the
      one input they belong to. */
  lemma {:induction false} RoundsOnly<T>(t: nat, q: seq<seq<(nat, T)>>)
    requires OneTagged(t, q)
    ensures Only(t, Rounds(q)) == Only(t, Flatten(q))
    decreases TotalLen(q), |q|
  {
    if q != [] {
      TailsMeasure(q);
      OneTaggedRound(t, q);
      RoundsOnly(t, Tails(q));
      OnlyAppend(t, Heads(q), Rounds(Tails(q)));
    }
  }

  /** Tagging each input with its own position leaves at most one input
      per tag, and none for a tag below the first position. */
  lemma {:induction false} TaggedOnce<T>(q: seq<seq<T>>, base: nat, t: nat)
    ensures OneTagged(t, Tagged(q, base))
    ensures t < base ==> NoneTagged(t, Tagged(q, base))
  {
    if q != [] {
      var p := Tagged(q, base);
      TaggedOnce(q[1..], base + 1, t);
      OnlyTag(base, t, q[0]);
      assert p[0] == Tag(base, q[0]) && p[1..] == Tagged(q[1..], base + 1);
    }
  }

  /** The `t`-elements of all tagged inputs are the input at `t`. */
  lemma {:induction false} TaggedOnly<T>(q: seq<seq<T>>, base: nat, t: nat)
    ensures Only(t, Flatten(Tagged(q, base))) ==
              if base <= t < base + |q| then q[t - base] else []
  {
    if q != [] {
      var p := Tagged(q, base);
      TaggedOnly(q[1..], base + 1, t);
      OnlyTag(base, t, q[0]);
      assert p == [Tag(base, q[0])] + Tagged(q[1..], base + 1);
      FlattenCons(Tag(base, q[0]), Tagged(q[1..], base + 1));
      OnlyAppend(t, Tag(base, q[0]), Flatten(Tagged(q[1..], base + 1)));
      if base <= t < base + |q| && t != base {
        assert q[1..][t - (base + 1)] == q[t - base];
      }
    }
  }

  /** Dropping the tags gives the inputs back. */
  lemma {:induction false} TaggedUntag<T>(q: seq<seq<T>>, base: nat)
    ensures UntagAll(Tagged(q, base)) == q
  {
    if q != [] {
      TaggedUntag(q[1..], base + 1);
      OnlyTag(base, base, q[0]);
      assert q == [q[0]] + q[1..];
    }
  }

  /** Heads and rests of the untagged inputs are the untagged heads and
      rests. */
  lemma {:induction false} UntagRound<T>(q: seq<seq<(nat, T)>>)
    ensures Untag(Heads(q)) == Heads(UntagAll(q))
    ensures UntagAll(Tails(q)) == Tails(UntagAll(q))
    ensures TotalLen(UntagAll(q)) == TotalLen(q)
  {
    if q != [] {
      var a, r := q[0], q[1..];
      UntagRound(r);
      var u := UntagAll(q);
      assert u == [Untag(a)] + UntagAll(r);
      assert u[0] == Untag(a) && u[1..] == UntagAll(r);
      UntagLength(a);
      if a == [] {
        assert Heads(q) == Heads(r) && Tails(q) == Tails(r);
      } else {
        assert Untag(a) == [a[0].1] + Untag(a[1..]);
        assert Heads(q) == [a[0]] + Heads(r);
        UntagAppend([a[0]], Heads(r));
        assert Untag([a[0]]) == [a[0].1] + Untag([a[0]][1..]);
        var rest := [a[1..]] + Tails(r);
        assert Tails(q) == rest;
        assert rest[0] == a[1..] && rest[1..] == Tails(r);
      }
    }
  }

  lemma {:induction false} UntagLength<T>(s: seq<(nat, T)>)
    ensures |Untag(s)| == |s|
  {
    if s != [] {
      UntagLength(s[1..]);
    }
  }

  /** Interleaving tagged inputs and dropping the tags is interleaving the
      inputs. */
  lemma {:induction false} UntagRounds<T>(q: seq<seq<(nat, T)>>)
    ensures Untag(Rounds(q)) == Rounds(UntagAll(q))
    decreases TotalLen(q), |q|
  {
    if q != [] {
      TailsMeasure(q);
      UntagRound(q);
      UntagRounds(Tails(q));
      UntagAppend(Heads(q), Rounds(Tails(q)));
      assert UntagAll(q) != [];
    }
  }

  /** Each input's elements appear in the interleaving in their original
      order: run on inputs whose elements carry their input's position, the
      interleaving is `roundrobin`'s output once the tags are dropped, and
      the elements tagged `t` are exactly input `t`, in order. */
  lemma RoundsKeepsOrder<T>(q: seq<seq<T>>)
    ensures Untag(Rounds(Tagged(q, 0))) == Rounds(q)
    ensures forall t: nat :: t < |q| ==> Only(t, Rounds(Tagged(q, 0))) == q[t]
  {
    TaggedUntag(q, 0);
    UntagRounds(Tagged(q, 0));
    forall t: nat | t < |q|
      ensures Only(t, Rounds(Tagged(q, 0))) == q[t]
    {
      InputInOrder(q, t);
    }
  }

  lemma InputInOrder<T>(q: seq<seq<T>>, t: nat)
    requires t < |q|
    ensures Only(t, Rounds(Tagged(q, 0))) == q[t]
  {
    var p := Tagged(q, 0);
    TaggedOnce(q, 0, t);
    TaggedOnlyAt(q, t);
    RoundsOnly(t, p);
  }

  lemma TaggedOnlyAt<T>(q: seq<seq<T>>, t: nat)
    requires t < |q|
    ensures Only(t, Flatten(Tagged(q, 0))) == q[t]
  {
    TaggedOnly(q, 0, t);
  }

  // ---- unique_everseen ----

  /** The key of the unkeyed deduplication: the element itself. */
  function Identity<T>(x: T): T { x }

  /** `unique_everseen(iterable)` without a key: the elements not seen
      before, in order of first occurrence. */
  method UniqueEverseen<T(==)>(iterable: seq<T>) returns (out: seq<T>)
    ensures out == DedupBy(iterable, Identity)
  {
    var seen: set<T> := {};
    out := [];
    var i := 0;
    while i < |iterable|
      invariant 0 <= i <= |iterable|
      invariant seen == KeySet(iterable[..i], Identity)
      invariant out == DedupBy(iterable[..i], Identity)
    {
      var element := iterable[i];
      assert iterable[..i + 1][..i] == iterable[..i];
      KeySetAppend(iterable[..i], element, Identity);
      assert iterable[..i + 1] == iterable[..i] + [element];
      if element !in seen {
        seen := seen + {element};
        out := out + [element];
      }
      i := i + 1;
    }
    assert iterable[..i] == iterable;
  }

  /** `unique_everseen(iterable, key)`: the elements whose key was not seen
      before, in order of first occurrence. */
  method UniqueEverseenBy<T, K(==)>(iterable: seq<T>, key: T -> K) returns (out: seq<T>)
    ensures out == DedupBy(iterable, key)
  {
    var seen: set<K> := {};
    out := [];
    var i := 0;
    while i < |iterable|
      invariant 0 <= i <= |iterable|
      invariant seen == KeySet(iterable[..i], key)
      invariant out == DedupBy(iterable[..i], key)
    {
      var element := iterable[i];
      var k := key(element);
      assert iterable[..i + 1][..i] == iterable[..i];
      KeySetAppend(iterable[..i], element, key);
      assert iterable[..i + 1] == iterable[..i] + [element];
      if k !in seen {
        seen := seen + {k};
        out := out + [element];
      }
      i := i + 1;
    }
    assert iterable[..i] == iterable;
  }

  /** `str.lower` on one character, for the letters A to Z. */
  function Lower(c: char): char
  {
    if 'A' <= c <= 'Z' then (c as int + 32) as char else c
  }

  /** The letters of the first doc example, one by one. */
  lemma EverseenLetters(s: string)
    requires s == "AAAABBBCCDAABBB"
    ensures |s| == 15
    ensures s[0] == s[1] == s[2] == s[3] == s[10] == s[11] == 'A'
    ensures s[4] == s[5] == s[6] == s[12] == s[13] == s[14] == 'B'
    ensures s[7] == s[8] == 'C' && s[9] == 'D'
  {
  }

  lemma EverseenPrefix4()
    ensures DedupBy("AAAABBBCCDAABBB"[..4], Identity) == "A"
  {
    var s := "AAAABBBCCDAABBB";
    EverseenLetters(s);
    assert s[..0] == [];
    DedupKeepAt(s, Identity, 0);
    DedupSkipAt(s, Identity, 1, 0);
    DedupSkipAt(s, Identity, 2, 0);
    DedupSkipAt(s, Identity, 3, 0);
  }

  lemma EverseenPrefix7()
    ensures DedupBy("AAAABBBCCDAABBB"[..7], Identity) == "AB"
  {
    var s := "AAAABBBCCDAABBB";
    EverseenLetters(s);
    EverseenPrefix4();
    DedupKeepAt(s, Identity, 4);
    DedupSkipAt(s, Identity, 5, 4);
    DedupSkipAt(s, Identity, 6, 4);
  }

  lemma EverseenPrefix10()
    ensures DedupBy("AAAABBBCCDAABBB"[..10], Identity) == "ABCD"
  {
    var s := "AAAABBBCCDAABBB";
    EverseenLetters(s);
    EverseenPrefix7();
    DedupKeepAt(s, Identity, 7);
    DedupSkipAt(s, Identity, 8, 7);
    DedupKeepAt(s, Identity, 9);
  }

  /** The first doc example of `unique_everseen`. */
  lemma UniqueEverseenExample()
    ensures DedupBy("AAAABBBCCDAABBB", Identity) == "ABCD"
  {
    var s := "AAAABBBCCDAABBB";
    EverseenLetters(s);
    EverseenPrefix10();
    DedupSkipAt(s, Identity, 10, 0);
    DedupSkipAt(s, Identity, 11, 0);
    DedupSkipAt(s, Identity, 12, 4);
    DedupSkipAt(s, Identity, 13, 4);
    DedupSkipAt(s, Identity, 14, 4);
    assert s[..15] == s;
  }

  lemma EverseenByPrefix4()
    ensures DedupBy("ABBCcAD"[..4], Lower) == "ABC"
  {
    var s := "ABBCcAD";
    assert s[..0] == [];
    DedupKeepAt(s, Lower, 0);
    DedupKeepAt(s, Lower, 1);
    DedupSkipAt(s, Lower, 2, 1);
    DedupKeepAt(s, Lower, 3);
  }

  /** The second doc example: with `str.lower` as the key. */
  lemma UniqueEverseenByExample()
    ensures DedupBy("ABBCcAD", Lower) == "ABCD"
  {
    var s := "ABBCcAD";
    EverseenByPrefix4();
    DedupSkipAt(s, Lower, 4, 3);
    DedupSkipAt(s, Lower, 5, 0);
    DedupKeepAt(s, Lower, 6);
    assert s[..7] == s;
  }

  /** Without a key, deduplication keeps each distinct element once, keeps
      exactly the elements of the input, and keeps them in the order of
      their first occurrences. */
  lemma UniqueEverseenFacts<T>(s: seq<T>)
    ensures NoDups(DedupBy(s, Identity))
    ensures forall x :: x in DedupBy(s, Identity) <==> x in s
    ensures forall i, j :: 0 <= i < j < |DedupBy(s, Identity)| ==>
              DedupBy(s, Identity)[i] in s && DedupBy(s, Identity)[j] in s &&
              FirstIndexByKey(s, Identity, DedupBy(s, Identity)[i]) <
              FirstIndexByKey(s, Identity, DedupBy(s, Identity)[j])
  {
    var r := DedupBy(s, Identity);
    DedupByFacts(s, Identity);
    IdentityKeys(s);
    IdentityKeys(r);
  }

  /** The first two facts of `UniqueEverseenFacts` on their own. */
  lemma DedupElems<T>(s: seq<T>)
    ensures NoDups(DedupBy(s, Identity))
    ensures forall x :: x in DedupBy(s, Identity) <==> x in s
  {
    UniqueEverseenFacts(s);
  }

  /** Without a key, the keys of a sequence are its elements. */
  lemma IdentityKeys<T>(s: seq<T>)
    ensures forall x :: x in KeySet(s, Identity) <==> x in s
  {
    forall x | x in s ensures x in KeySet(s, Identity) {
      var i :| 0 <= i < |s| && s[i] == x;
      assert Identity(s[i]) == x;
    }
  }

  // ---- main ----

  /** The selection of `main`: the interleaved word lists, deduplicated,
      cut to the first `n` words. A negative `n` makes `islice` raise
      `ValueError`, modelled as `None`. Reading the word lists and writing
      the selection are not part of this model. */
  method SelectWords(inputs: seq<seq<string>>, n: int) returns (selected: Option<seq<string>>)
    ensures n < 0 <==> selected == None
    ensures n >= 0 ==> selected == Some(Take(DedupBy(Rounds(inputs), Identity), n))
  {
    if n < 0 {
      return None;
    }
    var interleaved := Roundrobin(inputs);
    var combined := UniqueEverseen(interleaved);
    selected := Some(Take(combined, n));
  }

  /** The selected words are distinct, all come from the input lists, and
      there are `n` of them unless the lists hold fewer distinct words, in
      which case all of those are selected. */
  lemma SelectionFacts(inputs: seq<seq<string>>, n: nat)
    ensures NoDups(Take(DedupBy(Rounds(inputs), Identity), n))
    ensures forall w :: w in Take(DedupBy(Rounds(inputs), Identity), n) ==> w in Flatten(inputs)
    ensures |Take(DedupBy(Rounds(inputs), Identity), n)| < n ==>
              forall w :: w in Flatten(inputs) ==> w in Take(DedupBy(Rounds(inputs), Identity), n)
  {
    var r := Rounds(inputs);
    var d := DedupBy(r, Identity);
    DedupElems(r);
    RoundsElems(inputs);
    TakePrefix(d, n);
  }

  /** The interleaving holds exactly the elements of the inputs. */
  lemma RoundsElems<T>(q: seq<seq<T>>)
    ensures forall w :: w in Rounds(q) <==> w in Flatten(q)
  {
    RoundsPermutation(q);
    assert forall w :: w in Rounds(q) <==> w in multiset(Rounds(q));
    assert forall w :: w in Flatten(q) <==> w in multiset(Flatten(q));
  }

  /** The first `n` elements of a sequence without repeats have none, come
      from it, and are all of it when there are fewer than `n`. */
  lemma TakePrefix<T>(d: seq<T>, n: nat)
    requires NoDups(d)
    ensures NoDups(Take(d, n)) && forall w :: w in Take(d, n) ==> w in d
    ensures |Take(d, n)| < n ==> Take(d, n) == d
  {
    var t := Take(d, n);
    forall w | w in t ensures w in d {
      var i :| 0 <= i < |t| && t[i] == w;
      assert d[i] == w;
    }
  }
}
