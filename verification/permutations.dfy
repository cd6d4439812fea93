/**
 The permutation generator `permute_all($remaining, $next, $output)`: every
 ordered arrangement of every non-empty subset of its input, emitted in
 pre-order (an arrangement comes right before the longer ones that extend it).

 PermsFrom(remaining, next) is what one call appends to `$output`; it is split
 into the blocks produced by the iterations of the `foreach` loop, so that the
 loop of method PermuteAll can be proved block by block.
 */
module Permutations {
  import opened Sequences

  /** Everything `permute_all($remaining, $next, $output)` appends to `$output`. */
  function PermsFrom<T>(remaining: seq<T>, next: seq<T>): seq<seq<T>>
    decreases |remaining|, 2, 0
  {
    BlocksBefore(remaining, next, |remaining|)
  }

  /** What the first `i` iterations of the `foreach` loop append. */
  function BlocksBefore<T>(remaining: seq<T>, next: seq<T>, i: nat): seq<seq<T>>
    requires i <= |remaining|
    decreases |remaining|, 1, i
  {
    if i == 0 then []
    else BlocksBefore(remaining, next, i - 1) + Block(remaining, next, i - 1)
  }

  /** What iteration `i` appends: the combination `next + [remaining[i]]`, then
      everything the recursive call on the other items appends after it. */
  function Block<T>(remaining: seq<T>, next: seq<T>, i: nat): seq<seq<T>>
    requires i < |remaining|
    decreases |remaining|, 0, 0
  {
    var nextNext := next + [remaining[i]];
    [nextNext] + PermsFrom(Remove(remaining, i), nextNext)
  }

  /** `permute_all($items)` with its default arguments. */
  function AllPermutations<T>(items: seq<T>): seq<seq<T>>
  {
    PermsFrom(items, [])
  }

  /** The recursive `permute_all`: its `foreach` loop threads the output
      accumulator through the recursive calls. */
  method PermuteAll<T>(remaining: seq<T>, next: seq<T>, output: seq<seq<T>>) returns (result: seq<seq<T>>)
    ensures result == output + PermsFrom(remaining, next)
    decreases |remaining|
  {
    result := output;
    var i := 0;
    while i < |remaining|
      invariant i <= |remaining|
      invariant result == output + BlocksBefore(remaining, next, i)
    {
      var nextRemaining := Remove(remaining, i);
      var nextNext := next + [remaining[i]];
      result := result + [nextNext];
      result := PermuteAll(nextRemaining, nextNext, result);
      i := i + 1;
    }
  }

  // ---------------------------------------------------------------------------
  // Cardinality

  /** Number of arrangements produced for `n` items: n * (1 + PermCount(n - 1)). */
  function PermCount(n: nat): nat
  {
    if n == 0 then 0 else n * (1 + PermCount(n - 1))
  }

  function Fact(n: nat): nat
  {
    if n == 0 then 1 else n * Fact(n - 1)
  }

  /** The falling factorial n * (n - 1) * ... * (n - k + 1), i.e. n! / (n - k)!. */
  function Falling(n: nat, k: nat): nat
  {
    if k == 0 then 1 else if n == 0 then 0 else n * Falling(n - 1, k - 1)
  }

  /** Sum of Falling(n, k) for k = 1 .. m. */
  function SumFalling(n: nat, m: nat): nat
  {
    if m == 0 then 0 else SumFalling(n, m - 1) + Falling(n, m)
  }

  /** Falling(n, k) is the number of k-arrangements n! / (n - k)!. */
  lemma {:induction false} FallingIsQuotient(n: nat, k: nat)
    requires k <= n
    ensures Falling(n, k) * Fact(n - k) == Fact(n)
  {
    if k > 0 {
      FallingIsQuotient(n - 1, k - 1);
      var a, f := Falling(n - 1, k - 1), Fact(n - k);
      assert n - k == (n - 1) - (k - 1);
      calc {
        Falling(n, k) * f;
        (n * a) * f;
        n * (a * f);
        n * Fact(n - 1);
      }
    }
  }

  lemma {:induction false} SumFallingStep(n: nat, m: nat)
    requires n > 0
    ensures SumFalling(n, m + 1) == n + n * SumFalling(n - 1, m)
  {
    if m == 0 {
      assert Falling(n, 1) == n * Falling(n - 1, 0);
    } else {
      SumFallingStep(n, m - 1);
      calc {
        SumFalling(n, m + 1);
        SumFalling(n, m) + Falling(n, m + 1);
        n + n * SumFalling(n - 1, m - 1) + n * Falling(n - 1, m);
        n + n * (SumFalling(n - 1, m - 1) + Falling(n - 1, m));
        n + n * SumFalling(n - 1, m);
      }
    }
  }

  /** One call on n items emits n arrangements of one item, plus n times
      what a call on n - 1 items emits. */
  lemma PermCountStep(n: nat)
    requires n > 0
    ensures PermCount(n) == n + n * PermCount(n - 1)
  {
  }

  /** PermCount(n) is the sum over k = 1 .. n of n! / (n - k)!. */
  lemma {:induction false} PermCountIsSum(n: nat)
    ensures PermCount(n) == SumFalling(n, n)
  {
    if n > 0 {
      PermCountIsSum(n - 1);
      SumFallingStep(n, n - 1);
      PermCountStep(n);
    }
  }

  lemma {:induction false} PermsFromLength<T>(remaining: seq<T>, next: seq<T>)
    ensures |PermsFrom(remaining, next)| == PermCount(|remaining|)
    decreases |remaining|, 2, 0
  {
    if |remaining| > 0 {
      BlocksBeforeLength(remaining, next, |remaining|);
    }
  }

  lemma {:induction false} BlocksBeforeLength<T>(remaining: seq<T>, next: seq<T>, i: nat)
    requires 0 < |remaining| && i <= |remaining|
    ensures |BlocksBefore(remaining, next, i)| == i * (1 + PermCount(|remaining| - 1))
    decreases |remaining|, 1, i
  {
    if i > 0 {
      var c := 1 + PermCount(|remaining| - 1);
      BlocksBeforeLength(remaining, next, i - 1);
      PermsFromLength(Remove(remaining, i - 1), next + [remaining[i - 1]]);
      assert |Block(remaining, next, i - 1)| == c;
      calc {
        |BlocksBefore(remaining, next, i)|;
        |BlocksBefore(remaining, next, i - 1)| + |Block(remaining, next, i - 1)|;
        (i - 1) * c + c;
        i * c;
      }
    }
  }

  /** For n items `permute_all` returns exactly the sum over k = 1 .. n of
      n! / (n - k)! arrangements; no items give no arrangements. */
  lemma AllPermutationsCount<T>(items: seq<T>)
    ensures |AllPermutations(items)| == SumFalling(|items|, |items|)
    ensures items == [] ==> AllPermutations(items) == []
  {
    PermsFromLength(items, []);
    PermCountIsSum(|items|);
  }

  // ---------------------------------------------------------------------------
  // Shape of each arrangement

  /** `e` extends `next` by at least one and at most |remaining| items drawn
      from `remaining`, none used more often than it occurs there. */
  ghost predicate Extends<T>(e: seq<T>, next: seq<T>, remaining: seq<T>)
  {
    |next| < |e| <= |next| + |remaining| && e[..|next|] == next &&
    multiset(e[|next|..]) <= multiset(remaining)
  }

  lemma {:induction false} PermsFromShape<T>(remaining: seq<T>, next: seq<T>)
    ensures forall e :: e in PermsFrom(remaining, next) ==> Extends(e, next, remaining)
    decreases |remaining|, 2, 0
  {
    BlocksBeforeShape(remaining, next, |remaining|);
  }

  lemma {:induction false} BlocksBeforeShape<T>(remaining: seq<T>, next: seq<T>, i: nat)
    requires i <= |remaining|
    ensures forall e :: e in BlocksBefore(remaining, next, i) ==>
      Extends(e, next, remaining) && exists b :: 0 <= b < i && e[|next|] == remaining[b]
    decreases |remaining|, 1, i
  {
    if i > 0 {
      BlocksBeforeShape(remaining, next, i - 1);
      BlockShape(remaining, next, i - 1);
    }
  }

  lemma {:induction false} BlockShape<T>(remaining: seq<T>, next: seq<T>, i: nat)
    requires i < |remaining|
    ensures forall e :: e in Block(remaining, next, i) ==>
      Extends(e, next, remaining) && e[..|next| + 1] == next + [remaining[i]]
    decreases |remaining|, 0, 0
  {
    var nextNext := next + [remaining[i]];
    var rest := Remove(remaining, i);
    PermsFromShape(rest, nextNext);
    RemoveMultiset(remaining, i);
    forall e | e in Block(remaining, next, i)
      ensures Extends(e, next, remaining) && e[..|next| + 1] == nextNext
    {
      if e != nextNext {
        assert e in PermsFrom(rest, nextNext);
        assert e[..|nextNext|] == nextNext;
        assert e[..|next|] == e[..|nextNext|][..|next|];
        assert e[|next|..] == [remaining[i]] + e[|nextNext|..];
        assert multiset(e[|next|..]) == multiset{remaining[i]} + multiset(e[|nextNext|..]);
      } else {
        assert e[|next|..] == [remaining[i]];
      }
    }
  }

  /** Every arrangement has between 1 and n items, all drawn from the input
      without reuse; for distinct input it repeats no item. */
  lemma AllPermutationsShape<T>(items: seq<T>, e: seq<T>)
    requires e in AllPermutations(items)
    ensures 1 <= |e| <= |items|
    ensures multiset(e) <= multiset(items)
    ensures Distinct(items) ==> Distinct(e)
  {
    PermsFromShape(items, []);
    assert e[0..] == e;
    if Distinct(items) {
      SubBagDistinct(e, items);
    }
  }

  // ---------------------------------------------------------------------------
  // No arrangement twice

  lemma {:induction false} PermsFromDistinct<T>(remaining: seq<T>, next: seq<T>)
    requires Distinct(remaining)
    ensures Distinct(PermsFrom(remaining, next))
    decreases |remaining|, 2, 0
  {
    BlocksBeforeDistinct(remaining, next, |remaining|);
  }

  lemma {:induction false} BlocksBeforeDistinct<T>(remaining: seq<T>, next: seq<T>, i: nat)
    requires i <= |remaining| && Distinct(remaining)
    ensures Distinct(BlocksBefore(remaining, next, i))
    decreases |remaining|, 1, i
  {
    if i > 0 {
      var before := BlocksBefore(remaining, next, i - 1);
      var block := Block(remaining, next, i - 1);
      BlocksBeforeDistinct(remaining, next, i - 1);
      BlockDistinct(remaining, next, i - 1);
      BlocksBeforeShape(remaining, next, i - 1);
      BlockShape(remaining, next, i - 1);
      forall e | e in before ensures e !in block {
        var b :| 0 <= b < i - 1 && e[|next|] == remaining[b];
      }
      DistinctAppend(before, block);
    }
  }

  lemma {:induction false} BlockDistinct<T>(remaining: seq<T>, next: seq<T>, i: nat)
    requires i < |remaining| && Distinct(remaining)
    ensures Distinct(Block(remaining, next, i))
    decreases |remaining|, 0, 0
  {
    var nextNext := next + [remaining[i]];
    var rest := Remove(remaining, i);
    RemoveDistinct(remaining, i);
    PermsFromDistinct(rest, nextNext);
    PermsFromShape(rest, nextNext);
    DistinctAppend([nextNext], PermsFrom(rest, nextNext));
  }

  /** For distinct input, no arrangement is emitted twice. */
  lemma AllPermutationsDistinct<T>(items: seq<T>)
    requires Distinct(items)
    ensures Distinct(AllPermutations(items))
  {
    PermsFromDistinct(items, []);
  }

  // ---------------------------------------------------------------------------
  // Every arrangement is emitted

  lemma {:induction false} BlockInBlocksBefore<T>(remaining: seq<T>, next: seq<T>, b: nat, i: nat, e: seq<T>)
    requires b < i <= |remaining| && e in Block(remaining, next, b)
    ensures e in BlocksBefore(remaining, next, i)
    decreases i
  {
    if b < i - 1 {
      BlockInBlocksBefore(remaining, next, b, i - 1, e);
    }
  }

  lemma {:induction false} PermsFromComplete<T>(remaining: seq<T>, next: seq<T>, s: seq<T>)
    requires Distinct(remaining) && Distinct(s) && 0 < |s|
    requires forall x :: x in s ==> x in remaining
    ensures next + s in PermsFrom(remaining, next)
    decreases |remaining|
  {
    assert s[0] in remaining;
    var b :| 0 <= b < |remaining| && remaining[b] == s[0];
    var nextNext := next + [s[0]];
    if |s| == 1 {
      assert next + s == nextNext;
    } else {
      var rest := Remove(remaining, b);
      RemoveDistinct(remaining, b);
      assert Distinct(s[1..]) by {
        forall p, q | 0 <= p < q < |s[1..]| ensures s[1..][p] != s[1..][q] {
          assert s[1..][p] == s[p + 1] && s[1..][q] == s[q + 1];
        }
      }
      forall x | x in s[1..] ensures x in rest {
        var p :| 0 <= p < |s[1..]| && s[1..][p] == x;
        assert s[p + 1] == x;
      }
      PermsFromComplete(rest, nextNext, s[1..]);
      assert next + s == nextNext + s[1..];
    }
    BlockInBlocksBefore(remaining, next, b, |remaining|, next + s);
  }

  /** For distinct input, every non-empty arrangement of distinct input items is
      emitted: together with AllPermutationsShape, the output is exactly the set
      of such arrangements. */
  lemma AllPermutationsComplete<T>(items: seq<T>, s: seq<T>)
    requires Distinct(items) && Distinct(s) && 0 < |s|
    requires forall x :: x in s ==> x in items
    ensures s in AllPermutations(items)
  {
    PermsFromComplete(items, [], s);
    assert [] + s == s;
  }

  // ---------------------------------------------------------------------------
  // Pre-order emission

  /** Every arrangement longer than `shortest` is emitted after the arrangement
      obtained by dropping its last item. */
  ghost predicate PreOrdered<T>(out: seq<seq<T>>, shortest: nat)
  {
    forall j :: 0 <= j < |out| && |out[j]| > shortest ==>
      exists i :: 0 <= i < j && out[i] == out[j][..|out[j]| - 1]
  }

  lemma PreOrderedAppend<T>(a: seq<seq<T>>, b: seq<seq<T>>, shortest: nat)
    requires PreOrdered(a, shortest) && PreOrdered(b, shortest)
    ensures PreOrdered(a + b, shortest)
  {
    var out := a + b;
    forall j | 0 <= j < |out| && |out[j]| > shortest
      ensures exists i :: 0 <= i < j && out[i] == out[j][..|out[j]| - 1]
    {
      if j < |a| {
        var i :| 0 <= i < j && a[i] == a[j][..|a[j]| - 1];
        assert out[i] == a[i];
      } else {
        assert out[j] == b[j - |a|];
        var i :| 0 <= i < j - |a| && b[i] == b[j - |a|][..|b[j - |a|]| - 1];
        assert out[i + |a|] == b[i];
      }
    }
  }

  lemma {:induction false} PermsFromPreOrdered<T>(remaining: seq<T>, next: seq<T>)
    ensures PreOrdered(PermsFrom(remaining, next), |next| + 1)
    decreases |remaining|, 2, 0
  {
    BlocksBeforePreOrdered(remaining, next, |remaining|);
  }

  lemma {:induction false} BlocksBeforePreOrdered<T>(remaining: seq<T>, next: seq<T>, i: nat)
    requires i <= |remaining|
    ensures PreOrdered(BlocksBefore(remaining, next, i), |next| + 1)
    decreases |remaining|, 1, i
  {
    if i > 0 {
      var before, block := BlocksBefore(remaining, next, i - 1), Block(remaining, next, i - 1);
      BlocksBeforePreOrdered(remaining, next, i - 1);
      BlockPreOrdered(remaining, next, i - 1);
      PreOrderedAppend(before, block, |next| + 1);
      assert BlocksBefore(remaining, next, i) == before + block;
    }
  }

  lemma {:induction false} BlockPreOrdered<T>(remaining: seq<T>, next: seq<T>, i: nat)
    requires i < |remaining|
    ensures PreOrdered(Block(remaining, next, i), |next| + 1)
    decreases |remaining|, 0, 0
  {
    var nextNext := next + [remaining[i]];
    var rest := Remove(remaining, i);
    PermsFromPreOrdered(rest, nextNext);
    PermsFromShape(rest, nextNext);
    PreOrderedCons(nextNext, PermsFrom(rest, nextNext));
  }

  /** An arrangement followed by arrangements that all extend it is pre-ordered
      when the followers are. */
  lemma PreOrderedCons<T>(h: seq<T>, sub: seq<seq<T>>)
    requires PreOrdered(sub, |h| + 1)
    requires forall e :: e in sub ==> |h| < |e| && e[..|h|] == h
    ensures PreOrdered([h] + sub, |h|)
  {
    var out := [h] + sub;
    forall j | 0 <= j < |out| && |out[j]| > |h|
      ensures exists p :: 0 <= p < j && out[p] == out[j][..|out[j]| - 1]
    {
      assert out[0] == h;
      var e := sub[j - 1];
      assert out[j] == e;
      assert e in sub;
      if |e| > |h| + 1 {
        var p :| 0 <= p < j - 1 && sub[p] == e[..|e| - 1];
        assert out[p + 1] == sub[p];
      } else {
        assert e[..|e| - 1] == e[..|h|];
      }
    }
  }

  /** `permute_all` emits each arrangement of two or more items after the
      arrangement it extends by one item. */
  lemma AllPermutationsPreOrdered<T>(items: seq<T>)
    ensures PreOrdered(AllPermutations(items), 1)
  {
    PermsFromPreOrdered(items, []);
  }

  /** The documented example: [a, b] yields [[a], [a, b], [b], [b, a]]. */
  lemma AllPermutationsOfTwo<T>(a: T, b: T)
    ensures AllPermutations([a, b]) == [[a], [a, b], [b], [b, a]]
  {
    assert Remove([a, b], 0) == [b] && Remove([a, b], 1) == [a];
    assert Remove([b], 0) == [] && Remove([a], 0) == [];
    assert [a] + [b] == [a, b] && [b] + [a] == [b, a];
    assert PermsFrom([], [a, b]) == [] && PermsFrom([], [b, a]) == [];
    assert Block([b], [a], 0) == [[a, b]];
    assert Block([a], [b], 0) == [[b, a]];
    assert PermsFrom([b], [a]) == [[a, b]] by {
      assert BlocksBefore([b], [a], 1) == BlocksBefore([b], [a], 0) + Block([b], [a], 0);
    }
    assert PermsFrom([a], [b]) == [[b, a]] by {
      assert BlocksBefore([a], [b], 1) == BlocksBefore([a], [b], 0) + Block([a], [b], 0);
    }
    assert [] + [a] == [a] && [] + [b] == [b];
    assert Block([a, b], [], 0) == [[a], [a, b]];
    assert Block([a, b], [], 1) == [[b], [b, a]];
    assert BlocksBefore([a, b], [], 1) == [[a], [a, b]] by {
      assert BlocksBefore([a, b], [], 1) == BlocksBefore([a, b], [], 0) + Block([a, b], [], 0);
    }
    assert BlocksBefore([a, b], [], 2) == BlocksBefore([a, b], [], 1) + Block([a, b], [], 1);
  }

  // ---------------------------------------------------------------------------
  // Positional correspondence of two calls

  /** Permuting the images of the items is mapping the permutations of the
      items: two calls on position-wise corresponding inputs (names and their
      slugs) yield position-wise corresponding outputs. */
  lemma {:induction false} PermsFromMap<A, B>(f: A -> B, remaining: seq<A>, next: seq<A>)
    ensures PermsFrom(MapSeq(f, remaining), MapSeq(f, next)) == MapAll(f, PermsFrom(remaining, next))
    decreases |remaining|, 2, 0
  {
    BlocksBeforeMap(f, remaining, next, |remaining|);
  }

  lemma {:induction false} BlocksBeforeMap<A, B>(f: A -> B, remaining: seq<A>, next: seq<A>, i: nat)
    requires i <= |remaining|
    ensures BlocksBefore(MapSeq(f, remaining), MapSeq(f, next), i) == MapAll(f, BlocksBefore(remaining, next, i))
    decreases |remaining|, 1, i
  {
    if i > 0 {
      BlocksBeforeMap(f, remaining, next, i - 1);
      BlockMap(f, remaining, next, i - 1);
      MapAllAppend(f, BlocksBefore(remaining, next, i - 1), Block(remaining, next, i - 1));
    }
  }

  lemma {:induction false} BlockMap<A, B>(f: A -> B, remaining: seq<A>, next: seq<A>, i: nat)
    requires i < |remaining|
    ensures Block(MapSeq(f, remaining), MapSeq(f, next), i) == MapAll(f, Block(remaining, next, i))
    decreases |remaining|, 0, 0
  {
    var nextNext := next + [remaining[i]];
    MapSeqAppend(f, next, [remaining[i]]);
    assert MapSeq(f, next) + [MapSeq(f, remaining)[i]] == MapSeq(f, nextNext);
    MapSeqRemove(f, remaining, i);
    PermsFromMap(f, Remove(remaining, i), nextNext);
    MapAllAppend(f, [nextNext], PermsFrom(Remove(remaining, i), nextNext));
  }

  lemma AllPermutationsMap<A, B>(f: A -> B, items: seq<A>)
    ensures AllPermutations(MapSeq(f, items)) == MapAll(f, AllPermutations(items))
  {
    PermsFromMap(f, items, []);
    assert MapSeq(f, []) == [];
  }
}
