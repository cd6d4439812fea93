/**
 A PHP array used as an ordered dictionary: a sequence of (key, value)
 entries in insertion order. Two operations of the language are modelled:
 element assignment `$a[$k] = $v` (Put) and the array union `$a + $b`
 (Union), which keeps the left operand's entry for every shared key.
 */
module PhpArray {
  import opened Sequences

  type Entries<K, V> = seq<(K, V)>

  function Fst<K, V>(e: (K, V)): K { e.0 }

  function Snd<K, V>(e: (K, V)): V { e.1 }

  /** `array_keys($a)` */
  function Keys<K, V>(m: Entries<K, V>): (r: seq<K>)
    ensures |r| == |m| && forall i :: 0 <= i < |m| ==> r[i] == m[i].0
  {
    MapSeq(Fst, m)
  }

  /** `array_values($a)` */
  function Values<K, V>(m: Entries<K, V>): (r: seq<V>)
    ensures |r| == |m| && forall i :: 0 <= i < |m| ==> r[i] == m[i].1
  {
    MapSeq(Snd, m)
  }

  /** Every key occurs once, as in any PHP array. */
  ghost predicate DistinctKeys<K, V>(m: Entries<K, V>)
  {
    Distinct(Keys(m))
  }

  /** `$a[$k] = $v`: an existing key keeps its position and takes the new value,
      a new key is appended at the end. */
  function Put<K(==), V>(m: Entries<K, V>, k: K, v: V): Entries<K, V>
  {
    if |m| == 0 then [(k, v)]
    else if m[0].0 == k then [(k, v)] + m[1..]
    else [m[0]] + Put(m[1..], k, v)
  }

  lemma KeysIn<K, V>(m: Entries<K, V>, k: K)
    ensures k in Keys(m) <==> exists e :: e in m && e.0 == k
  {
  }

  lemma DistinctKeysTail<K, V>(m: Entries<K, V>)
    requires |m| > 0 && DistinctKeys(m)
    ensures DistinctKeys(m[1..]) && m[0].0 !in Keys(m[1..])
  {
  }

  /** With distinct keys, an entry is determined by its key. */
  lemma DistinctKeysUnique<K, V>(m: Entries<K, V>, e: (K, V), e': (K, V))
    requires DistinctKeys(m) && e in m && e' in m && e.0 == e'.0
    ensures e == e'
  {
  }

  /** Assignment adds the key at the end only when it was absent; an existing
      key keeps its position. */
  lemma {:induction false} PutKeys<K, V>(m: Entries<K, V>, k: K, v: V)
    ensures Keys(Put(m, k, v)) == if k in Keys(m) then Keys(m) else Keys(m) + [k]
  {
    if |m| > 0 {
      var rest := m[1..];
      assert m == [m[0]] + rest;
      KeysAppend([m[0]], rest);
      if m[0].0 != k {
        PutKeys(rest, k, v);
        KeysAppend([m[0]], Put(rest, k, v));
        assert k in Keys(m) <==> k in Keys(rest);
        if k !in Keys(rest) {
          assert [m[0].0] + (Keys(rest) + [k]) == [m[0].0] + Keys(rest) + [k];
        }
      } else {
        KeysAppend([(k, v)], rest);
      }
    }
  }

  lemma KeysAppend<K, V>(a: Entries<K, V>, b: Entries<K, V>)
    ensures Keys(a + b) == Keys(a) + Keys(b)
  {
  }

  /** Assignment keeps the keys unique; afterwards the key maps to the assigned
      value and every other entry is unchanged. */
  lemma {:induction false} PutSpec<K, V>(m: Entries<K, V>, k: K, v: V)
    requires DistinctKeys(m)
    ensures Keys(Put(m, k, v)) == if k in Keys(m) then Keys(m) else Keys(m) + [k]
    ensures DistinctKeys(Put(m, k, v))
    ensures forall e :: e in Put(m, k, v) <==> e == (k, v) || (e in m && e.0 != k)
  {
    PutKeys(m, k, v);
    if k !in Keys(m) {
      DistinctAppend(Keys(m), [k]);
    }
    PutEntries(m, k, v);
  }

  lemma {:induction false} PutEntries<K, V>(m: Entries<K, V>, k: K, v: V)
    requires DistinctKeys(m)
    ensures forall e :: e in Put(m, k, v) <==> e == (k, v) || (e in m && e.0 != k)
  {
    if |m| > 0 {
      DistinctKeysTail(m);
      assert m == [m[0]] + m[1..];
      if m[0].0 == k {
        forall e | e in m[1..] ensures e.0 != k {
          KeysIn(m[1..], e.0);
        }
      } else {
        PutEntries(m[1..], k, v);
      }
    }
  }

  /** `$a + $b` (and `$a += $b`): the entries of `b` whose key is not yet in the
      accumulated array are appended in `b`'s order; nothing already present is
      overwritten. */
  function Union<K(==), V>(m: Entries<K, V>, b: Entries<K, V>): Entries<K, V>
    decreases |b|
  {
    if |b| == 0 then m
    else Union(if b[0].0 in Keys(m) then m else m + [b[0]], b[1..])
  }

  /** The left operand survives unchanged, as a prefix of the union. */
  lemma {:induction false} UnionKeepsLeft<K, V>(m: Entries<K, V>, b: Entries<K, V>)
    ensures |m| <= |Union(m, b)| <= |m| + |b|
    ensures Union(m, b)[..|m|] == m
    decreases |b|
  {
    if |b| > 0 {
      var m' := if b[0].0 in Keys(m) then m else m + [b[0]];
      UnionKeepsLeft(m', b[1..]);
      assert Union(m, b)[..|m'|][..|m|] == Union(m, b)[..|m|];
    }
  }

  /** The keys of the union are the keys of either operand. */
  lemma {:induction false} UnionKeys<K, V>(m: Entries<K, V>, b: Entries<K, V>)
    ensures forall k :: k in Keys(Union(m, b)) <==> k in Keys(m) || k in Keys(b)
    decreases |b|
  {
    if |b| > 0 {
      assert Keys(b) == [b[0].0] + Keys(b[1..]);
      if b[0].0 in Keys(m) {
        UnionKeys(m, b[1..]);
      } else {
        assert Keys(m + [b[0]]) == Keys(m) + [b[0].0];
        UnionKeys(m + [b[0]], b[1..]);
      }
    }
  }

  /** The union of a PHP array with anything has each key once. */
  lemma {:induction false} UnionDistinctKeys<K, V>(m: Entries<K, V>, b: Entries<K, V>)
    requires DistinctKeys(m)
    ensures DistinctKeys(Union(m, b))
    decreases |b|
  {
    if |b| > 0 {
      if b[0].0 in Keys(m) {
        UnionDistinctKeys(m, b[1..]);
      } else {
        assert Keys(m + [b[0]]) == Keys(m) + [b[0].0];
        DistinctAppend(Keys(m), [b[0].0]);
        UnionDistinctKeys(m + [b[0]], b[1..]);
      }
    }
  }

  /** First wins: an entry of the union is either an entry of the left operand,
      or the earliest entry of `b` carrying its key, a key the left operand lacks. */
  lemma {:induction false} UnionFirstWins<K, V>(m: Entries<K, V>, b: Entries<K, V>, e: (K, V))
    requires e in Union(m, b)
    ensures e in m || (e.0 !in Keys(m) && exists i :: 0 <= i < |b| && b[i] == e && forall j :: 0 <= j < i ==> b[j].0 != e.0)
    decreases |b|
  {
    if |b| > 0 {
      var m' := if b[0].0 in Keys(m) then m else m + [b[0]];
      UnionFirstWins(m', b[1..], e);
      if e in m' && e !in m {
        assert e == b[0];
      } else if e !in m' {
        var i :| 0 <= i < |b[1..]| && b[1..][i] == e && forall j :: 0 <= j < i ==> b[1..][j].0 != e.0;
        assert b[i + 1] == e;
        assert Keys(m') == Keys(m) || Keys(m') == Keys(m) + [b[0].0];
        forall j | 0 <= j < i + 1 ensures b[j].0 != e.0 {
          if j > 0 { assert b[1..][j - 1] == b[j]; }
        }
      }
    }
  }

  /** Conversely, the earliest entry of `b` for a key the left operand lacks is
      in the union. */
  lemma {:induction false} UnionTakesFirst<K, V>(m: Entries<K, V>, b: Entries<K, V>, i: nat)
    requires i < |b| && b[i].0 !in Keys(m)
    requires forall j :: 0 <= j < i ==> b[j].0 != b[i].0
    ensures b[i] in Union(m, b)
    decreases |b|
  {
    var m' := if b[0].0 in Keys(m) then m else m + [b[0]];
    if i == 0 {
      UnionKeepsLeft(m', b[1..]);
      assert m'[|m|] == b[0];
      assert Union(m, b)[..|m'|][|m|] == b[0];
    } else {
      assert Keys(m') == Keys(m) || Keys(m') == Keys(m) + [b[0].0];
      assert b[1..][i - 1] == b[i];
      UnionTakesFirst(m', b[1..], i - 1);
    }
  }

  /** Adding `a` and then `b` is adding `a + b`. */
  lemma {:induction false} UnionAppend<K, V>(m: Entries<K, V>, a: Entries<K, V>, b: Entries<K, V>)
    ensures Union(Union(m, a), b) == Union(m, a + b)
    decreases |a|
  {
    if |a| > 0 {
      var m' := if a[0].0 in Keys(m) then m else m + [a[0]];
      assert (a + b)[0] == a[0] && (a + b)[1..] == a[1..] + b;
      UnionAppend(m', a[1..], b);
    } else {
      assert a + b == b;
    }
  }

  /** When `b` brings only new, distinct keys, the union is plain concatenation. */
  lemma {:induction false} UnionFresh<K, V>(m: Entries<K, V>, b: Entries<K, V>)
    requires DistinctKeys(b)
    requires forall i :: 0 <= i < |b| ==> b[i].0 !in Keys(m)
    ensures Union(m, b) == m + b
    decreases |b|
  {
    if |b| > 0 {
      var m' := m + [b[0]];
      assert Keys(m') == Keys(m) + [b[0].0] by {
        KeysAppend(m, [b[0]]);
      }
      forall i | 0 <= i < |b| - 1
        ensures b[1..][i].0 !in Keys(m')
      {
        assert b[1..][i] == b[i + 1];
        assert b[i + 1].0 !in Keys(m);
        assert Keys(b)[0] == b[0].0 && Keys(b)[i + 1] == b[i + 1].0;
      }
      DistinctKeysTail(b);
      calc {
        Union(m, b);
        { assert b[0].0 !in Keys(m); }
        Union(m', b[1..]);
        { UnionFresh(m', b[1..]); }
        m' + b[1..];
        m + b;
      }
    } else {
      assert m + b == m;
    }
  }
}
