/**
 What the table returned by `generate_rewrite_rules` contains.

 The generator permutes the keys and, separately, the values of the
 query-var map and zips the two lists by index. Because `permute_all`
 commutes with mapping, both lists are the keys and the values of one list
 of arrangements of the map's entries, so every rule can be described by
 the arrangement it comes from: its pair of entries (ComboRules), the
 pairs of all arrangements in `permute_all` order (RuleStream), and the
 table as the first-wins union of that stream.
 */
module RuleProperties {
  import opened Sequences
  import opened PhpArray
  import opened Permutations
  import opened RuleGenerator

  type Rules = Entries<string, string>

  /** The pair `add_rule_with_pagination` offers for one arrangement of
      (query var, slug) entries: the paginated entry, then the plain one. */
  function ComboRules(base: string, queryBase: string, combo: Entries<string, string>): Rules
  {
    PaginationPair(RewriteRule(base, Values(combo)), queryBase + Bindings(Keys(combo)), |combo| + 1)
  }

  /** The pairs of all arrangements, in order, before duplicates are dropped. */
  function RuleStream(base: string, queryBase: string, combos: seq<Entries<string, string>>): (r: Rules)
    ensures |r| == 2 * |combos|
  {
    if |combos| == 0 then []
    else RuleStream(base, queryBase, combos[..|combos| - 1]) + ComboRules(base, queryBase, combos[|combos| - 1])
  }

  /** Position `i` of the stream holds the entry `i % 2` of arrangement `i / 2`:
      arrangements keep `permute_all`'s order and each one's paginated entry
      comes right before its plain entry. */
  lemma {:induction false} RuleStreamIndex(base: string, queryBase: string, combos: seq<Entries<string, string>>)
    ensures forall i :: 0 <= i < |RuleStream(base, queryBase, combos)| ==>
      RuleStream(base, queryBase, combos)[i] == ComboRules(base, queryBase, combos[i / 2])[i % 2]
  {
    if |combos| > 0 {
      var n := |combos| - 1;
      var init := combos[..n];
      RuleStreamIndex(base, queryBase, init);
      var prefix := RuleStream(base, queryBase, init);
      var r := RuleStream(base, queryBase, combos);
      forall i | 0 <= i < |r|
        ensures r[i] == ComboRules(base, queryBase, combos[i / 2])[i % 2]
      {
        if i < |prefix| {
          assert r[i] == prefix[i];
          assert init[i / 2] == combos[i / 2];
        } else {
          assert r[i] == ComboRules(base, queryBase, combos[n])[i - |prefix|];
          assert i / 2 == n;
        }
      }
    }
  }

  /** The first `n` iterations of the outer `foreach` leave the union of the
      first `n` arrangements' pairs. */
  lemma {:induction false} RulesFromCombosStream(base: string, queryBase: string,
                                                 combos: seq<Entries<string, string>>, n: nat)
    requires n <= |combos|
    ensures RulesFromCombos(base, queryBase, MapAll(Fst, combos), MapAll(Snd, combos), n)
         == Union([], RuleStream(base, queryBase, combos[..n]))
  {
    if n > 0 {
      var keys, slugs := MapAll(Fst, combos), MapAll(Snd, combos);
      var c := combos[n - 1];
      var before := RuleStream(base, queryBase, combos[..n - 1]);
      calc {
        RulesFromCombos(base, queryBase, keys, slugs, n);
        { assert keys[n - 1] == Keys(c) && slugs[n - 1] == Values(c) && |Keys(c)| == |c|; }
        Union(RulesFromCombos(base, queryBase, keys, slugs, n - 1), ComboRules(base, queryBase, c));
        { RulesFromCombosStream(base, queryBase, combos, n - 1); }
        Union(Union([], before), ComboRules(base, queryBase, c));
        { UnionAppend([], before, ComboRules(base, queryBase, c)); }
        Union([], before + ComboRules(base, queryBase, c));
        { assert combos[..n][..n - 1] == combos[..n - 1]; }
        Union([], RuleStream(base, queryBase, combos[..n]));
      }
    } else {
      assert combos[..0] == [];
    }
  }

  /** Names/slugs alignment: the two `permute_all` calls of lines 109-110 give
      the keys and the values of the same arrangements of the map's entries. */
  lemma CombosAligned(m: Entries<string, string>)
    ensures AllPermutations(Keys(m)) == MapAll(Fst, AllPermutations(m))
    ensures AllPermutations(Values(m)) == MapAll(Snd, AllPermutations(m))
  {
    AllPermutationsMap(Fst, m);
    AllPermutationsMap(Snd, m);
    assert Keys(m) == MapSeq(Fst, m);
    assert Values(m) == MapSeq(Snd, m);
  }

  /** Hence slug `p` of slug combination `idx` is the value the map gives to
      query var `p` of query-var combination `idx`. */
  lemma SlugsAligned(m: Entries<string, string>, idx: nat, p: nat)
    requires idx < |AllPermutations(Keys(m))| && p < |AllPermutations(Keys(m))[idx]|
    ensures idx < |AllPermutations(Values(m))| && p < |AllPermutations(Values(m))[idx]|
    ensures (AllPermutations(Keys(m))[idx][p], AllPermutations(Values(m))[idx][p]) in m
  {
    CombosAligned(m);
    var c := AllPermutations(m)[idx];
    AllPermutationsShape(m, c);
    assert c[p] in multiset(c);
  }

  /** The generator's table is the first-wins union of the stream of pairs of
      every arrangement of the query-var map's entries. */
  lemma RewriteRulesAsStream(postType: PostType, taxonomies: seq<Taxonomy>, excluded: Exclusions)
    ensures RewriteRulesFor(postType, taxonomies, excluded)
         == Union([], RuleStream(RuleBase(postType), QueryBase(postType), AllPermutations(QueryVarMap(taxonomies, excluded))))
  {
    var m := QueryVarMap(taxonomies, excluded);
    var combos := AllPermutations(m);
    CombosAligned(m);
    RulesFromCombosStream(RuleBase(postType), QueryBase(postType), combos, |combos|);
    assert combos[..|combos|] == combos;
  }

  /** Every arrangement pairs query vars that are not excluded with the slug of
      the last taxonomy carrying them, and names each query var once. */
  lemma ComboEntries(taxonomies: seq<Taxonomy>, excluded: Exclusions, c: Entries<string, string>, p: nat)
    requires c in AllPermutations(QueryVarMap(taxonomies, excluded)) && p < |c|
    ensures !IsExcluded(excluded, c[p].0)
    ensures exists i :: LastWith(taxonomies, i, c[p].0) && TaxonomySlug(taxonomies[i]) == c[p].1
    ensures DistinctKeys(c)
  {
    var m := QueryVarMap(taxonomies, excluded);
    QueryVarMapDistinct(taxonomies, excluded);
    assert Distinct(m) by {
      forall i, j | 0 <= i < j < |m| ensures m[i] != m[j] {
        assert Keys(m)[i] != Keys(m)[j];
      }
    }
    AllPermutationsShape(m, c);
    forall q | 0 <= q < |c| ensures c[q] in m {
      assert c[q] in multiset(c);
    }
    QueryVarMapLastWins(taxonomies, excluded, c[p]);
    KeysIn(m, c[p].0);
    QueryVarMapKeys(taxonomies, excluded, c[p].0);
    forall i, j | 0 <= i < j < |c| ensures Keys(c)[i] != Keys(c)[j] {
      if c[i].0 == c[j].0 {
        DistinctKeysUnique(m, c[i], c[j]);
      }
    }
  }

  /** Shape of one arrangement's pair: one capture group after every slug, the
      query binds the query var at position p to capture group p + 1, and the
      page number is capture group |c| + 1, distinct from every binding. */
  lemma ComboRulesShape(base: string, queryBase: string, c: Entries<string, string>)
    requires |c| > 0
    ensures ComboRules(base, queryBase, c) ==
      [(base + Segments(Values(c)) + PageSegment + Anchor,
        queryBase + Bindings(Keys(c)) + "&paged=" + PregIndex(|c| + 1)),
       (base + Segments(Values(c)) + Anchor, queryBase + Bindings(Keys(c)))]
    ensures forall n: nat :: 1 <= n <= |c| ==> PregIndex(n) != PregIndex(|c| + 1)
  {
    var slugs := Values(c);
    ImplodeSegments(slugs);
    assert RewriteRule(base, slugs) == base + Segments(slugs) by {
      assert base + Implode(Capture, slugs) + Capture == base + (Implode(Capture, slugs) + Capture);
    }
    forall n: nat | 1 <= n <= |c| ensures PregIndex(n) != PregIndex(|c| + 1) {
      PregIndexInjective(n, |c| + 1);
    }
  }

  /** Nothing is generated exactly when every taxonomy is excluded (in
      particular, when the post type has no taxonomies). */
  lemma RewriteRulesEmpty(postType: PostType, taxonomies: seq<Taxonomy>, excluded: Exclusions)
    ensures RewriteRulesFor(postType, taxonomies, excluded) == [] <==>
      forall t :: t in taxonomies ==> IsExcluded(excluded, t.queryVar)
  {
    var m := QueryVarMap(taxonomies, excluded);
    var stream := RuleStream(RuleBase(postType), QueryBase(postType), AllPermutations(m));
    RewriteRulesAsStream(postType, taxonomies, excluded);
    if forall t :: t in taxonomies ==> IsExcluded(excluded, t.queryVar) {
      assert |m| == 0 by {
        if |m| > 0 {
          QueryVarMapKeys(taxonomies, excluded, Keys(m)[0]);
          assert false;
        }
      }
      AllPermutationsCount(m);
    } else {
      var t :| t in taxonomies && !IsExcluded(excluded, t.queryVar);
      assert |m| > 0 by {
        QueryVarMapKeys(taxonomies, excluded, t.queryVar);
      }
      assert |stream| > 0 by {
        PermsFromLength(m, []);
        PermCountStep(|m|);
      }
      assert Keys(stream)[0] in Keys(RewriteRulesFor(postType, taxonomies, excluded)) by {
        UnionKeys([], stream);
      }
    }
  }

  /** Keys stay unique in the table. */
  lemma RewriteRulesDistinctKeys(postType: PostType, taxonomies: seq<Taxonomy>, excluded: Exclusions)
    ensures DistinctKeys(RewriteRulesFor(postType, taxonomies, excluded))
  {
    RewriteRulesAsStream(postType, taxonomies, excluded);
    var stream := RuleStream(RuleBase(postType), QueryBase(postType), AllPermutations(QueryVarMap(taxonomies, excluded)));
    UnionDistinctKeys([], stream);
  }

  /** `k` is the paginated or the plain pattern of arrangement `c`. */
  predicate IsPatternOf(base: string, c: Entries<string, string>, k: string)
  {
    k == PagedRule(RewriteRule(base, Values(c))) || k == RewriteRule(base, Values(c)) + Anchor
  }

  /** A pattern is offered by the stream exactly when it is the paginated or
      the plain pattern of one of the arrangements. */
  lemma RuleStreamKeys(base: string, queryBase: string, combos: seq<Entries<string, string>>, k: string)
    ensures k in Keys(RuleStream(base, queryBase, combos)) <==> exists c :: c in combos && IsPatternOf(base, c, k)
  {
    var stream := RuleStream(base, queryBase, combos);
    if k in Keys(stream) {
      var i :| 0 <= i < |stream| && Keys(stream)[i] == k;
      assert stream[i] == ComboRules(base, queryBase, combos[i / 2])[i % 2] by {
        RuleStreamIndex(base, queryBase, combos);
      }
      assert IsPatternOf(base, combos[i / 2], k);
      assert combos[i / 2] in combos;
    }
    if exists c :: c in combos && IsPatternOf(base, c, k) {
      var c :| c in combos && IsPatternOf(base, c, k);
      var j :| 0 <= j < |combos| && combos[j] == c;
      var i := if k == PagedRule(RewriteRule(base, Values(c))) then 2 * j else 2 * j + 1;
      assert i / 2 == j && i % 2 == i - 2 * j;
      assert stream[i] == ComboRules(base, queryBase, combos[i / 2])[i % 2] by {
        RuleStreamIndex(base, queryBase, combos);
      }
      assert Keys(stream)[i] == k;
    }
  }

  /** The patterns of the table are exactly the paginated and the plain
      pattern of every arrangement of the query-var map's entries. */
  lemma RewriteRulesKeys(postType: PostType, taxonomies: seq<Taxonomy>, excluded: Exclusions, k: string)
    ensures k in Keys(RewriteRulesFor(postType, taxonomies, excluded)) <==>
      exists c :: c in AllPermutations(QueryVarMap(taxonomies, excluded)) && IsPatternOf(RuleBase(postType), c, k)
  {
    var stream := RuleStream(RuleBase(postType), QueryBase(postType), AllPermutations(QueryVarMap(taxonomies, excluded)));
    RewriteRulesAsStream(postType, taxonomies, excluded);
    UnionKeys([], stream);
    RuleStreamKeys(RuleBase(postType), QueryBase(postType), AllPermutations(QueryVarMap(taxonomies, excluded)), k);
  }

  /** Every pattern of the table starts with the rule base chosen from
      `has_archive`: the post type's rewrite slug and "/" when it is `true`,
      the archive path and "/" when it is a string, and "/" alone when it is
      `false`. */
  lemma RewriteRulesUnderBase(postType: PostType, taxonomies: seq<Taxonomy>, excluded: Exclusions, k: string)
    requires k in Keys(RewriteRulesFor(postType, taxonomies, excluded))
    ensures postType.hasArchive.ArchiveTrue? ==> SlugOf(postType.rewrite) + "/" <= k
    ensures postType.hasArchive.ArchivePath? ==> postType.hasArchive.path + "/" <= k
    ensures postType.hasArchive.ArchiveFalse? ==> "/" <= k
  {
    var base := RuleBase(postType);
    RewriteRulesKeys(postType, taxonomies, excluded, k);
    var c :| c in AllPermutations(QueryVarMap(taxonomies, excluded)) && IsPatternOf(base, c, k);
    PatternUnderBase(base, c, k);
  }

  /** Both patterns of an arrangement extend the rule base. */
  lemma PatternUnderBase(base: string, c: Entries<string, string>, k: string)
    requires IsPatternOf(base, c, k)
    ensures base <= k
  {
    var rule := RewriteRule(base, Values(c));
    var tail := Implode(Capture, Values(c)) + Capture;
    assert rule == base + tail;
    if k == PagedRule(rule) {
      assert k == base + (tail + PageSegment + Anchor);
    } else {
      assert k == base + (tail + Anchor);
    }
  }

  /** Position `i` of the stream is the first one carrying its pattern. */
  ghost predicate FirstWithKey(stream: Rules, i: int)
  {
    0 <= i < |stream| && forall j :: 0 <= j < i ==> stream[j].0 != stream[i].0
  }

  /** First wins: an entry is in the table exactly when it is the first entry
      of the stream carrying its pattern; a later duplicate never overwrites. */
  lemma RewriteRulesFirstWins(postType: PostType, taxonomies: seq<Taxonomy>, excluded: Exclusions, e: (string, string))
    ensures var stream := RuleStream(RuleBase(postType), QueryBase(postType), AllPermutations(QueryVarMap(taxonomies, excluded)));
      e in RewriteRulesFor(postType, taxonomies, excluded) <==> exists i :: FirstWithKey(stream, i) && stream[i] == e
  {
    var stream := RuleStream(RuleBase(postType), QueryBase(postType), AllPermutations(QueryVarMap(taxonomies, excluded)));
    RewriteRulesAsStream(postType, taxonomies, excluded);
    if e in Union([], stream) {
      UnionFirstWins([], stream, e);
      var i :| 0 <= i < |stream| && stream[i] == e && forall j :: 0 <= j < i ==> stream[j].0 != e.0;
      assert FirstWithKey(stream, i);
    }
    if exists i :: FirstWithKey(stream, i) && stream[i] == e {
      var i :| FirstWithKey(stream, i) && stream[i] == e;
      UnionTakesFirst([], stream, i);
    }
  }

  /** Size: the stream holds two entries for each of the
      sum over k = 1..n of n!/(n-k)! arrangements of the n map entries; the
      table holds at most that many, and exactly the stream when no pattern
      repeats. */
  lemma RewriteRulesCount(postType: PostType, taxonomies: seq<Taxonomy>, excluded: Exclusions)
    ensures var m := QueryVarMap(taxonomies, excluded);
      var stream := RuleStream(RuleBase(postType), QueryBase(postType), AllPermutations(m));
      && |stream| == 2 * SumFalling(|m|, |m|)
      && |RewriteRulesFor(postType, taxonomies, excluded)| <= |stream|
      && (DistinctKeys(stream) ==> RewriteRulesFor(postType, taxonomies, excluded) == stream)
  {
    var m := QueryVarMap(taxonomies, excluded);
    var stream := RuleStream(RuleBase(postType), QueryBase(postType), AllPermutations(m));
    AllPermutationsCount(m);
    RewriteRulesAsStream(postType, taxonomies, excluded);
    UnionKeepsLeft([], stream);
    if DistinctKeys(stream) {
      UnionFresh([], stream);
    }
  }

  /** Every ordering of every non-empty set of query vars that are not
      excluded gets its paginated and its plain pattern, built from the slugs
      of an arrangement whose query vars are exactly that ordering. */
  lemma RewriteRulesComplete(postType: PostType, taxonomies: seq<Taxonomy>, excluded: Exclusions, qs: seq<string>)
    requires 0 < |qs| && Distinct(qs)
    requires forall q :: q in qs ==> !IsExcluded(excluded, q) && HasQueryVar(taxonomies, q)
    ensures exists c :: (c in AllPermutations(QueryVarMap(taxonomies, excluded)) && Keys(c) == qs &&
      PagedRule(RewriteRule(RuleBase(postType), Values(c))) in Keys(RewriteRulesFor(postType, taxonomies, excluded)) &&
      RewriteRule(RuleBase(postType), Values(c)) + Anchor in Keys(RewriteRulesFor(postType, taxonomies, excluded)))
  {
    var c := CompleteCombo(taxonomies, excluded, qs);
    var base := RuleBase(postType);
    var paged, plain := PagedRule(RewriteRule(base, Values(c))), RewriteRule(base, Values(c)) + Anchor;
    assert IsPatternOf(base, c, paged) && IsPatternOf(base, c, plain);
    RewriteRulesKeys(postType, taxonomies, excluded, paged);
    RewriteRulesKeys(postType, taxonomies, excluded, plain);
  }

  /** The arrangement of the map's entries whose query vars are `qs`. */
  lemma CompleteCombo(taxonomies: seq<Taxonomy>, excluded: Exclusions, qs: seq<string>) returns (c: Entries<string, string>)
    requires 0 < |qs| && Distinct(qs)
    requires forall q :: q in qs ==> !IsExcluded(excluded, q) && HasQueryVar(taxonomies, q)
    ensures c in AllPermutations(QueryVarMap(taxonomies, excluded)) && Keys(c) == qs
  {
    var m := QueryVarMap(taxonomies, excluded);
    var combos := AllPermutations(m);
    QueryVarMapDistinct(taxonomies, excluded);
    forall q | q in qs ensures q in Keys(m) {
      QueryVarMapKeys(taxonomies, excluded, q);
    }
    AllPermutationsComplete(Keys(m), qs);
    CombosAligned(m);
    var idx :| 0 <= idx < |combos| && MapAll(Fst, combos)[idx] == qs;
    c := combos[idx];
  }
}
