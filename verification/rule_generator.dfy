/**
 The rewrite-rule generator of Beautiful_Taxonomy_Filters_Rewrite_Rules.

 For a post type and its taxonomies it builds the `query_var => slug` map,
 permutes its keys and, separately, its values, and for every combination
 adds a URL pattern with one `([^/]+)` capture after each slug, mapped to
 `index.php?post_type=...&<query_var>=$matches[n]...`, plus a paginated
 variant. Rule tables are PHP arrays (module PhpArray), filled with `+=`.

 The WordPress lookups (the post-type object and its taxonomies) are
 parameters; `$wp_rewrite->preg_index($n)` is the back-reference `$matches[n]`.
 */
module RuleGenerator {
  import opened PhpArray
  import opened Permutations
  import opened Decimal

  /** `$post_type->has_archive`: `true`, an archive path, or `false`. */
  datatype HasArchive = ArchiveTrue | ArchivePath(path: string) | ArchiveFalse

  /** A `rewrite` property: `false`, or an array with a 'slug' entry. */
  datatype Rewrite = NoRewrite | Rewrite(slug: string)

  /** The fields of the post-type object the generator reads. */
  datatype PostType = PostType(name: string, hasArchive: HasArchive, rewrite: Rewrite)

  /** The fields of a taxonomy object the generator reads. */
  datatype Taxonomy = Taxonomy(queryVar: string, rewrite: Rewrite)

  /** The `$excluded_taxonomies` argument: something that is not an array, or
      an array of query vars. */
  datatype Exclusions = NotAnArray | ExcludedVars(vars: seq<string>)

  /** Capture group written after every slug. */
  const Capture := "/([^/]+)/"
  /** Segment that captures the page number. */
  const PageSegment := "page/([0-9]{1,})/"
  /** Optional trailing slash and end anchor. */
  const Anchor := "?$"

  /** `$wp_rewrite->preg_index($n)` while rules are generated: `$matches[n]`. */
  function PregIndex(n: nat): string
  {
    "$matches[" + NatToString(n) + "]"
  }

  /** Distinct capture indices give distinct back-references. */
  lemma PregIndexInjective(a: nat, b: nat)
    ensures PregIndex(a) == PregIndex(b) <==> a == b
  {
    if PregIndex(a) == PregIndex(b) {
      var pa, pb := PregIndex(a), PregIndex(b);
      assert pa[9..|pa| - 1] == NatToString(a);
      assert pb[9..|pb| - 1] == NatToString(b);
      NatToStringInjective(a, b);
    }
  }

  // ---------------------------------------------------------------------------
  // The query-var map

  /** `is_array($excluded_taxonomies) && in_array($query_var, $excluded_taxonomies)` */
  predicate IsExcluded(excluded: Exclusions, queryVar: string)
  {
    excluded.ExcludedVars? && queryVar in excluded.vars
  }

  /** `$taxonomy->rewrite ? $taxonomy->rewrite['slug'] : $query_var` */
  function TaxonomySlug(t: Taxonomy): string
  {
    match t.rewrite
    case Rewrite(slug) => slug
    case NoRewrite => t.queryVar
  }

  /** `$query_vars` after the `foreach` over the taxonomies. */
  function QueryVarMap(taxonomies: seq<Taxonomy>, excluded: Exclusions): Entries<string, string>
  {
    if |taxonomies| == 0 then []
    else
      var queryVars := QueryVarMap(taxonomies[..|taxonomies| - 1], excluded);
      var t := taxonomies[|taxonomies| - 1];
      if IsExcluded(excluded, t.queryVar) then queryVars
      else Put(queryVars, t.queryVar, TaxonomySlug(t))
  }

  /** Some taxonomy in the list has query var `k`. */
  ghost predicate HasQueryVar(taxonomies: seq<Taxonomy>, k: string)
  {
    exists t :: t in taxonomies && t.queryVar == k
  }

  /** Taxonomy `i` is the last one with query var `k`. */
  ghost predicate LastWith(taxonomies: seq<Taxonomy>, i: int, k: string)
  {
    0 <= i < |taxonomies| && taxonomies[i].queryVar == k &&
    forall j :: i < j < |taxonomies| ==> taxonomies[j].queryVar != k
  }

  /** Each query var is a key of the map at most once. */
  lemma {:induction false} QueryVarMapDistinct(taxonomies: seq<Taxonomy>, excluded: Exclusions)
    ensures DistinctKeys(QueryVarMap(taxonomies, excluded))
  {
    if |taxonomies| > 0 {
      var n := |taxonomies| - 1;
      QueryVarMapDistinct(taxonomies[..n], excluded);
      if !IsExcluded(excluded, taxonomies[n].queryVar) {
        PutSpec(QueryVarMap(taxonomies[..n], excluded), taxonomies[n].queryVar, TaxonomySlug(taxonomies[n]));
      }
    }
  }

  /** The keys are exactly the query vars of the taxonomies that are not
      excluded; when `$excluded_taxonomies` is not an array, every one. */
  lemma {:induction false} QueryVarMapKeys(taxonomies: seq<Taxonomy>, excluded: Exclusions, k: string)
    ensures k in Keys(QueryVarMap(taxonomies, excluded)) <==> !IsExcluded(excluded, k) && HasQueryVar(taxonomies, k)
  {
    if |taxonomies| > 0 {
      var n := |taxonomies| - 1;
      var init, t := taxonomies[..n], taxonomies[n];
      QueryVarMapKeys(init, excluded, k);
      assert taxonomies == init + [t];
      assert HasQueryVar(taxonomies, k) <==> HasQueryVar(init, k) || t.queryVar == k;
      if !IsExcluded(excluded, t.queryVar) {
        PutKeys(QueryVarMap(init, excluded), t.queryVar, TaxonomySlug(t));
      }
    }
  }

  /** Each entry carries the slug of the last taxonomy with its query var: a
      later assignment to `$query_vars[$query_var]` replaces an earlier one. */
  lemma {:induction false} QueryVarMapLastWins(taxonomies: seq<Taxonomy>, excluded: Exclusions, e: (string, string))
    requires e in QueryVarMap(taxonomies, excluded)
    ensures exists i :: LastWith(taxonomies, i, e.0) && TaxonomySlug(taxonomies[i]) == e.1
  {
    var n := |taxonomies| - 1;
    var init, t := taxonomies[..n], taxonomies[n];
    var before := QueryVarMap(init, excluded);
    assert taxonomies == init + [t];
    if IsExcluded(excluded, t.queryVar) {
      QueryVarMapLastWins(init, excluded, e);
      var i :| LastWith(init, i, e.0) && TaxonomySlug(init[i]) == e.1;
      KeysIn(before, e.0);
      QueryVarMapKeys(init, excluded, e.0);
      assert LastWith(taxonomies, i, e.0);
    } else {
      QueryVarMapDistinct(init, excluded);
      PutEntries(before, t.queryVar, TaxonomySlug(t));
      if e == (t.queryVar, TaxonomySlug(t)) {
        assert LastWith(taxonomies, n, e.0);
      } else {
        QueryVarMapLastWins(init, excluded, e);
        var i :| LastWith(init, i, e.0) && TaxonomySlug(init[i]) == e.1;
        assert LastWith(taxonomies, i, e.0);
      }
    }
  }

  // ---------------------------------------------------------------------------
  // The rule base

  /** `$post_type->rewrite['slug']`; indexing `false` gives null, i.e. "". */
  function SlugOf(r: Rewrite): string
  {
    match r
    case Rewrite(slug) => slug
    case NoRewrite => ""
  }

  /** `$new_rewrite_rule_base`: the post type's own slug when `has_archive` is
      `true`, otherwise `has_archive` concatenated with "/"; `false`
      concatenates as "", so it degrades to "/". */
  function RuleBase(postType: PostType): string
  {
    match postType.hasArchive
    case ArchiveTrue => SlugOf(postType.rewrite) + "/"
    case ArchivePath(path) => path + "/"
    case ArchiveFalse => "/"
  }

  /** `$new_query_string_base` */
  function QueryBase(postType: PostType): string
  {
    "index.php?post_type=" + postType.name
  }

  // ---------------------------------------------------------------------------
  // Patterns and query strings

  /** PHP's `implode($glue, $pieces)`. */
  function Implode(glue: string, pieces: seq<string>): string
  {
    if |pieces| == 0 then ""
    else if |pieces| == 1 then pieces[0]
    else pieces[0] + glue + Implode(glue, pieces[1..])
  }

  /** `$new_rewrite_rule` before anchoring (line 114). */
  function RewriteRule(base: string, slugs: seq<string>): string
  {
    base + Implode(Capture, slugs) + Capture
  }

  /** One segment per slug: the slug, then its capture group. */
  function Segments(slugs: seq<string>): string
  {
    if |slugs| == 0 then "" else slugs[0] + Capture + Segments(slugs[1..])
  }

  /** Imploding with the capture group and appending one more capture puts
      exactly one capture group right after every slug. */
  lemma {:induction false} ImplodeSegments(slugs: seq<string>)
    requires |slugs| > 0
    ensures Implode(Capture, slugs) + Capture == Segments(slugs)
  {
    if |slugs| > 1 {
      ImplodeSegments(slugs[1..]);
      assert Segments(slugs[1..][1..]) == Segments(slugs[2..]);
    } else {
      assert slugs[1..] == [];
    }
  }

  /** One `&<query var>=$matches[n]` binding. */
  function Binding(queryVar: string, n: nat): string
  {
    "&" + queryVar + "=" + PregIndex(n)
  }

  /** The bindings appended by the inner `foreach`: the query var at position p
      (from 0) is bound to capture group p + 1. */
  function Bindings(queryVars: seq<string>): string
  {
    if |queryVars| == 0 then ""
    else Bindings(queryVars[..|queryVars| - 1]) + Binding(queryVars[|queryVars| - 1], |queryVars|)
  }

  /** One iteration of the inner `foreach` appends the next binding. */
  lemma BindingsStep(queryBase: string, queryVars: seq<string>, k: nat)
    requires k < |queryVars|
    ensures queryBase + Bindings(queryVars[..k]) + "&" + queryVars[k] + "=" + PregIndex(k + 1)
         == queryBase + Bindings(queryVars[..k + 1])
  {
    assert queryVars[..k + 1][..k] == queryVars[..k];
    var b := Bindings(queryVars[..k]);
    calc {
      queryBase + b + "&" + queryVars[k] + "=" + PregIndex(k + 1);
      queryBase + (b + Binding(queryVars[k], k + 1));
      queryBase + Bindings(queryVars[..k + 1]);
    }
  }

  /** The paginated pattern, anchored. */
  function PagedRule(rule: string): string
  {
    rule + PageSegment + Anchor
  }

  /** The paginated query: the page number is capture group `paginationIdx`. */
  function PagedQuery(query: string, paginationIdx: nat): string
  {
    query + "&paged=" + PregIndex(paginationIdx)
  }

  /** The array literal of lines 53-56: paginated entry first, then the plain one. */
  function PaginationPair(rule: string, query: string, paginationIdx: nat): Entries<string, string>
  {
    [(PagedRule(rule), PagedQuery(query, paginationIdx)), (rule + Anchor, query)]
  }

  /** The rule table after `add_rule_with_pagination`. */
  function RuleWithPagination(rewriteRules: Entries<string, string>, rule: string, query: string,
                              paginationIdx: nat): Entries<string, string>
  {
    Union(rewriteRules, PaginationPair(rule, query, paginationIdx))
  }

  /** `add_rule_with_pagination`: builds the paginated and the anchored
      pattern and query and adds both to the table with `+=`. */
  method AddRuleWithPagination(rewriteRules: Entries<string, string>, newRewriteRule: string,
                               newQueryString: string, paginationIdx: nat)
    returns (result: Entries<string, string>)
    ensures result == RuleWithPagination(rewriteRules, newRewriteRule, newQueryString, paginationIdx)
  {
    var newPagedRewriteRule := newRewriteRule + PageSegment;
    var newPagedQueryString := newQueryString + "&paged=" + PregIndex(paginationIdx);
    newPagedRewriteRule := newPagedRewriteRule + Anchor;
    var anchoredRule := newRewriteRule + Anchor;
    var literal := Put(Put([], newPagedRewriteRule, newPagedQueryString), anchoredRule, newQueryString);
    assert literal == PaginationPair(newRewriteRule, newQueryString, paginationIdx) by {
      assert |newPagedRewriteRule| != |anchoredRule|;
      var first := [(newPagedRewriteRule, newPagedQueryString)];
      assert Put([], newPagedRewriteRule, newPagedQueryString) == first;
      assert first[0].0 != anchoredRule && first[1..] == [];
      assert Put(first, anchoredRule, newQueryString) == first + [(anchoredRule, newQueryString)];
    }
    result := Union(rewriteRules, literal);
  }

  /** Adding a rule with pagination never overwrites: the old table is kept as a
      prefix, both patterns are keys afterwards, and each carries its new query
      when it was not a key before; at most two entries are added, keys stay
      unique, and when both patterns are new the paginated entry is appended
      first, then the plain one. */
  lemma RuleWithPaginationSpec(rewriteRules: Entries<string, string>, rule: string, query: string, paginationIdx: nat)
    ensures var result := RuleWithPagination(rewriteRules, rule, query, paginationIdx);
      && |rewriteRules| <= |result| <= |rewriteRules| + 2
      && result[..|rewriteRules|] == rewriteRules
      && PagedRule(rule) in Keys(result) && rule + Anchor in Keys(result)
      && (PagedRule(rule) !in Keys(rewriteRules) ==> (PagedRule(rule), PagedQuery(query, paginationIdx)) in result)
      && (rule + Anchor !in Keys(rewriteRules) ==> (rule + Anchor, query) in result)
      && (DistinctKeys(rewriteRules) ==> DistinctKeys(result))
      && (PagedRule(rule) !in Keys(rewriteRules) && rule + Anchor !in Keys(rewriteRules) ==>
            result == rewriteRules + PaginationPair(rule, query, paginationIdx))
  {
    var literal := PaginationPair(rule, query, paginationIdx);
    UnionKeepsLeft(rewriteRules, literal);
    if DistinctKeys(rewriteRules) {
      UnionDistinctKeys(rewriteRules, literal);
    }
    assert Keys(literal) == [PagedRule(rule), rule + Anchor];
    UnionKeys(rewriteRules, literal);
    if PagedRule(rule) !in Keys(rewriteRules) {
      UnionTakesFirst(rewriteRules, literal, 0);
    }
    if rule + Anchor !in Keys(rewriteRules) {
      assert |PagedRule(rule)| != |rule + Anchor|;
      UnionTakesFirst(rewriteRules, literal, 1);
      if PagedRule(rule) !in Keys(rewriteRules) {
        UnionFresh(rewriteRules, literal);
      }
    }
  }

  // ---------------------------------------------------------------------------
  // The whole generator

  /** `$new_rewrite_rules` after the first `n` combinations, zipping the two
      permutation lists by index as lines 112-126 do. */
  function RulesFromCombos(base: string, queryBase: string, queryVarCombos: seq<seq<string>>,
                           slugCombos: seq<seq<string>>, n: nat): Entries<string, string>
    requires n <= |queryVarCombos| && n <= |slugCombos|
  {
    if n == 0 then []
    else
      RuleWithPagination(RulesFromCombos(base, queryBase, queryVarCombos, slugCombos, n - 1),
                         RewriteRule(base, slugCombos[n - 1]), queryBase + Bindings(queryVarCombos[n - 1]),
                         |queryVarCombos[n - 1]| + 1)
  }

  /** One iteration of the outer `foreach` adds the next combination's rules. */
  lemma RulesFromCombosStep(base: string, queryBase: string, queryVarCombos: seq<seq<string>>,
                            slugCombos: seq<seq<string>>, idx: nat, rules: Entries<string, string>,
                            rule: string, query: string, paginationIdx: nat)
    requires idx < |queryVarCombos| && idx < |slugCombos|
    requires rules == RulesFromCombos(base, queryBase, queryVarCombos, slugCombos, idx)
    requires rule == base + Implode(Capture, slugCombos[idx]) + Capture
    requires query == queryBase + Bindings(queryVarCombos[idx])
    requires paginationIdx == |queryVarCombos[idx]| + 1
    ensures RuleWithPagination(rules, rule, query, paginationIdx) ==
      RulesFromCombos(base, queryBase, queryVarCombos, slugCombos, idx + 1)
  {
  }

  /** What `generate_rewrite_rules($post_type, $excluded_taxonomies)` returns. */
  function RewriteRulesFor(postType: PostType, taxonomies: seq<Taxonomy>, excluded: Exclusions): Entries<string, string>
  {
    var queryVars := QueryVarMap(taxonomies, excluded);
    PermsFromLength(Keys(queryVars), []);
    PermsFromLength(Values(queryVars), []);
    RulesFromCombos(RuleBase(postType), QueryBase(postType), AllPermutations(Keys(queryVars)),
                    AllPermutations(Values(queryVars)), |AllPermutations(Keys(queryVars))|)
  }

  /** Lines 85-95 of `generate_rewrite_rules`: the `foreach` that fills
      `$query_vars` from the taxonomies that are not excluded. */
  method CollectQueryVars(taxonomies: seq<Taxonomy>, excludedTaxonomies: Exclusions)
    returns (queryVars: Entries<string, string>)
    ensures queryVars == QueryVarMap(taxonomies, excludedTaxonomies)
    ensures DistinctKeys(queryVars)
  {
    queryVars := [];
    var t := 0;
    while t < |taxonomies|
      invariant t <= |taxonomies|
      invariant queryVars == QueryVarMap(taxonomies[..t], excludedTaxonomies)
    {
      var taxonomy := taxonomies[t];
      var queryVar := taxonomy.queryVar;
      if !excludedTaxonomies.ExcludedVars? || queryVar !in excludedTaxonomies.vars {
        queryVars := Put(queryVars, queryVar, if taxonomy.rewrite.Rewrite? then taxonomy.rewrite.slug else queryVar);
      }
      assert taxonomies[..t + 1][..t] == taxonomies[..t];
      t := t + 1;
    }
    assert taxonomies[..t] == taxonomies;
    QueryVarMapDistinct(taxonomies, excludedTaxonomies);
  }

  /** Lines 116-122 of `generate_rewrite_rules`: the inner `foreach` that
      appends one binding per query var. It also returns `$i`, which outlives
      the loop: for a non-empty combination, its last index. */
  method BuildQueryString(newQueryStringBase: string, queryVarCombo: seq<string>)
    returns (newQueryString: string, i: nat)
    ensures newQueryString == newQueryStringBase + Bindings(queryVarCombo)
    ensures |queryVarCombo| > 0 ==> i == |queryVarCombo| - 1
  {
    newQueryString := newQueryStringBase;
    i := 0;
    var k := 0;
    while k < |queryVarCombo|
      invariant k <= |queryVarCombo|
      invariant newQueryString == newQueryStringBase + Bindings(queryVarCombo[..k])
      invariant k > 0 ==> i == k - 1
    {
      i := k;
      newQueryString := newQueryString + "&" + queryVarCombo[k] + "=" + PregIndex(i + 1);
      BindingsStep(newQueryStringBase, queryVarCombo, k);
      k := k + 1;
    }
    assert queryVarCombo[..k] == queryVarCombo;
  }

  /** Lines 112-126 of `generate_rewrite_rules`: the outer `foreach` over the
      query-var combinations, zipped by index with the slug combinations. The
      pagination index is `$i + 2`, where `$i` is the last index of the inner
      loop, left over after it; every combination is non-empty, so this is the
      combination's length plus one. */
  method AddCombos(newRewriteRuleBase: string, newQueryStringBase: string,
                   queryVarCombos: seq<seq<string>>, rewriteSlugCombos: seq<seq<string>>)
    returns (newRewriteRules: Entries<string, string>)
    requires |queryVarCombos| <= |rewriteSlugCombos|
    requires forall c :: c in queryVarCombos ==> |c| > 0
    ensures newRewriteRules ==
      RulesFromCombos(newRewriteRuleBase, newQueryStringBase, queryVarCombos, rewriteSlugCombos, |queryVarCombos|)
  {
    newRewriteRules := [];
    var idx := 0;
    while idx < |queryVarCombos|
      invariant idx <= |queryVarCombos|
      invariant newRewriteRules ==
        RulesFromCombos(newRewriteRuleBase, newQueryStringBase, queryVarCombos, rewriteSlugCombos, idx)
    {
      var queryVarCombo := queryVarCombos[idx];
      var newRewriteRule := newRewriteRuleBase + Implode(Capture, rewriteSlugCombos[idx]) + Capture;
      var newQueryString, i := BuildQueryString(newQueryStringBase, queryVarCombo);
      assert queryVarCombo in queryVarCombos;
      RulesFromCombosStep(newRewriteRuleBase, newQueryStringBase, queryVarCombos, rewriteSlugCombos, idx,
                          newRewriteRules, newRewriteRule, newQueryString, i + 2);
      newRewriteRules := AddRuleWithPagination(newRewriteRules, newRewriteRule, newQueryString, i + 2);
      idx := idx + 1;
    }
  }

  /** `generate_rewrite_rules`: builds the query-var map, the base, both
      permutation lists, and adds every combination's rules. */
  method GenerateRewriteRules(postType: PostType, taxonomies: seq<Taxonomy>, excludedTaxonomies: Exclusions)
    returns (newRewriteRules: Entries<string, string>)
    ensures newRewriteRules == RewriteRulesFor(postType, taxonomies, excludedTaxonomies)
  {
    var queryVars := CollectQueryVars(taxonomies, excludedTaxonomies);

    var newRewriteRuleBase;
    match postType.hasArchive {
      case ArchiveTrue =>
        newRewriteRuleBase := SlugOf(postType.rewrite) + "/";
      case ArchivePath(path) =>
        newRewriteRuleBase := path + "/";
      case ArchiveFalse =>
        // `false . '/'` is "/"
        newRewriteRuleBase := "/";
    }
    assert newRewriteRuleBase == RuleBase(postType);
    var newQueryStringBase := "index.php?post_type=" + postType.name;

    var queryVarCombos := PermuteAll(Keys(queryVars), [], []);
    var rewriteSlugCombos := PermuteAll(Values(queryVars), [], []);
    assert queryVarCombos == AllPermutations(Keys(queryVars));
    assert rewriteSlugCombos == AllPermutations(Values(queryVars));
    assert newQueryStringBase == QueryBase(postType);
    PermsFromLength(Keys(queryVars), []);
    PermsFromLength(Values(queryVars), []);

    forall c | c in queryVarCombos ensures |c| > 0 {
      PermsFromShape(Keys(queryVars), []);
    }
    newRewriteRules := AddCombos(newRewriteRuleBase, newQueryStringBase, queryVarCombos, rewriteSlugCombos);
  }
}
