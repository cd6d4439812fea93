/**
 Generic sequence helpers shared by the permutation generator and the
 ordered-array model: element-wise mapping, removal of one position
 (PHP's `unset` on a list that is then iterated in order) and distinctness.
 */
module Sequences {

  /** Applies `f` to every element, keeping the order. */
  function MapSeq<A, B>(f: A -> B, s: seq<A>): seq<B>
  {
    seq(|s|, i requires 0 <= i < |s| => f(s[i]))
  }

  /** Applies `f` to every element of every sequence. */
  function MapAll<A, B>(f: A -> B, ss: seq<seq<A>>): seq<seq<B>>
  {
    seq(|ss|, i requires 0 <= i < |ss| => MapSeq(f, ss[i]))
  }

  /** `s` without its element at position `i`; the others keep their order. */
  function Remove<T>(s: seq<T>, i: nat): (r: seq<T>)
    requires i < |s|
    ensures |r| == |s| - 1
    ensures forall j :: 0 <= j < i ==> r[j] == s[j]
    ensures forall j :: i <= j < |r| ==> r[j] == s[j + 1]
  {
    s[..i] + s[i + 1..]
  }

  /** No element occurs twice. */
  ghost predicate Distinct<T>(s: seq<T>)
  {
    forall i, j :: 0 <= i < j < |s| ==> s[i] != s[j]
  }

  lemma MapSeqAppend<A, B>(f: A -> B, a: seq<A>, b: seq<A>)
    ensures MapSeq(f, a + b) == MapSeq(f, a) + MapSeq(f, b)
  {
  }

  lemma MapAllAppend<A, B>(f: A -> B, a: seq<seq<A>>, b: seq<seq<A>>)
    ensures MapAll(f, a + b) == MapAll(f, a) + MapAll(f, b)
  {
  }

  lemma MapSeqRemove<A, B>(f: A -> B, s: seq<A>, i: nat)
    requires i < |s|
    ensures Remove(MapSeq(f, s), i) == MapSeq(f, Remove(s, i))
  {
  }

  /** Removing one position takes exactly that occurrence out of the bag. */
  lemma RemoveMultiset<T>(s: seq<T>, i: nat)
    requires i < |s|
    ensures multiset(Remove(s, i)) + multiset{s[i]} == multiset(s)
  {
    assert s == s[..i] + [s[i]] + s[i + 1..];
  }

  /** Removing a position from a distinct sequence removes exactly that element. */
  lemma RemoveDistinct<T>(s: seq<T>, i: nat)
    requires i < |s| && Distinct(s)
    ensures Distinct(Remove(s, i))
    ensures forall x :: x in Remove(s, i) <==> x in s && x != s[i]
  {
  }

  /** Concatenating two distinct sequences with no common element is distinct. */
  lemma DistinctAppend<T>(a: seq<T>, b: seq<T>)
    requires Distinct(a) && Distinct(b)
    requires forall x :: x in a ==> x !in b
    ensures Distinct(a + b)
  {
    forall i, j | 0 <= i < j < |a + b|
      ensures (a + b)[i] != (a + b)[j]
    {
      if j >= |a| && i < |a| {
        assert (a + b)[i] in a;
        assert (a + b)[j] == b[j - |a|];
      }
    }
  }

  /** In a distinct sequence every element occurs at most once. */
  lemma {:induction false} DistinctCount<T>(s: seq<T>, x: T)
    requires Distinct(s)
    ensures multiset(s)[x] <= 1
  {
    if |s| > 0 {
      assert s == [s[0]] + s[1..];
      assert Distinct(s[1..]) by {
        forall i, j | 0 <= i < j < |s[1..]|
          ensures s[1..][i] != s[1..][j]
        {
          assert s[1..][i] == s[i + 1] && s[1..][j] == s[j + 1];
        }
      }
      DistinctCount(s[1..], x);
      if x == s[0] {
        assert x !in s[1..];
      }
    }
  }

  /** A sub-bag of a distinct sequence is itself distinct. */
  lemma SubBagDistinct<T>(t: seq<T>, s: seq<T>)
    requires multiset(t) <= multiset(s) && Distinct(s)
    ensures Distinct(t)
  {
    forall i, j | 0 <= i < j < |t|
      ensures t[i] != t[j]
    {
      if t[i] == t[j] {
        var x := t[i];
        assert t == t[..j] + t[j..];
        assert x in t[..j];
        assert x in t[j..];
        assert multiset(t) == multiset(t[..j]) + multiset(t[j..]);
        assert multiset(t)[x] >= 2;
        DistinctCount(s, x);
        assert false;
      }
    }
  }
}
