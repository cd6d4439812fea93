# Rewrite-rule generator of Beautiful Taxonomy Filters, in Dafny

Beautiful Taxonomy Filters lets visitors filter a WordPress post-type archive
by its taxonomies through clean URLs such as `articles/cat/news/tag/red/`.
The class `Beautiful_Taxonomy_Filters_Rewrite_Rules` produces these rules.
For a post type it builds a `query_var => slug` map of the taxonomies that are
not excluded. It permutes the keys of that map and, separately, its values,
giving every ordered arrangement of every non-empty subset. It then zips the
two lists by index. Each arrangement gives one URL pattern, with one
`([^/]+)` capture after each slug, and one query
`index.php?post_type=<name>&<query_var>=$matches[n]...`. A paginated variant
captures the page number as well. Both are added to the rule table with
PHP's array union `+=`, so the first rule for a pattern wins.

The model has seven modules:

- `Sequences`: mapping over sequences, removing one position, distinctness.
- `PhpArray`: a PHP array as an ordered list of `(key, value)` entries.
  `$a[$k] = $v` is `Put` and `$a += $b` is `Union`.
- `Permutations`: `permute_all`. The function `PermsFrom` specifies it, and
  the method `PermuteAll` runs its `foreach` loop and recursion and is proved
  against that function. The module also proves counting, shape,
  distinctness, completeness, pre-order and commutation with mapping.
- `Decimal`: the decimal rendering of a capture index, and its injectivity.
- `RuleGenerator`: the other two methods of the class, written as
  imperative Dafny. `GenerateRewriteRules`, `AddRuleWithPagination` and the loops of
  lines 85-95, 112-126 and 116-122 are proved against the specification
  function `RewriteRulesFor` and its parts.
- `RuleProperties`: what the returned table contains, stated over
  arrangements of the query-var map's entries. This covers the first-wins
  union of each arrangement's (paginated, plain) pair, the patterns
  present, the size and the empty case.
- `Example`: a worked instance with one post type and two taxonomies.

Two query vars give four arrangements (`[a]`, `[a,b]`, `[b]` and `[b,a]`),
so the stream offers four plain and four paginated rules. When no two
arrangements give the same pattern, none is dropped; with the slugs `cat` and
`tag` this is the case, as `Example.ExampleRules` shows. Equal slugs, or slugs
that repeat one another around the capture group (`x` and `x/([^/]+)/x`),
make two arrangements give the same pattern, and the first-wins union keeps
only the earlier one (`RuleProperties.RewriteRulesFirstWins`).

## Model

| member | source | states |
|---|---|---|
| `Permutations.PermuteAll` | admin/class-beautiful-taxonomy-filters-rewrite-rules.php:143-168 | The recursive `permute_all` returns its accumulator followed by exactly `PermsFrom(remaining, next)`. Each iteration appends `next + [item]` and then everything the recursive call on the other items appends. |
| `Permutations.AllPermutationsCount` | admin/class-beautiful-taxonomy-filters-rewrite-rules.php:143-166 | For n items the result has exactly the sum over k = 1..n of n!/(n-k)! arrangements. No items give an empty result. |
| `Permutations.PermCountIsSum` | admin/class-beautiful-taxonomy-filters-rewrite-rules.php:146-163 | The recursion's count n·(1 + count(n-1)) equals that sum. |
| `Permutations.FallingIsQuotient` | admin/class-beautiful-taxonomy-filters-rewrite-rules.php:143-166 | Each summand, the falling factorial, is n!/(n-k)!. |
| `Permutations.PermsFromLength` | admin/class-beautiful-taxonomy-filters-rewrite-rules.php:146-163 | One call with r remaining items appends r·(1 + count(r-1)) arrangements, whatever `$next` is. |
| `Permutations.AllPermutationsShape` | admin/class-beautiful-taxonomy-filters-rewrite-rules.php:143-166 | Every arrangement has between 1 and n items and uses no item more often than the input has it. For distinct input it has no repeated item. |
| `Permutations.AllPermutationsDistinct` | admin/class-beautiful-taxonomy-filters-rewrite-rules.php:143-166 | For distinct input, no arrangement is emitted twice. |
| `Permutations.AllPermutationsComplete` | admin/class-beautiful-taxonomy-filters-rewrite-rules.php:143-166 | For distinct input, every non-empty repetition-free sequence of input items is emitted. |
| `Permutations.AllPermutationsPreOrdered` | admin/class-beautiful-taxonomy-filters-rewrite-rules.php:146-161 | Pre-order: every arrangement of two or more items comes after the arrangement one item shorter that it extends. |
| `Permutations.AllPermutationsOfTwo` | admin/class-beautiful-taxonomy-filters-rewrite-rules.php:135 | `[a, b]` gives exactly `[[a], [a, b], [b], [b, a]]`. |
| `Permutations.AllPermutationsMap` | admin/class-beautiful-taxonomy-filters-rewrite-rules.php:146-158 | Permuting the images of a list under a function gives the images of the permutations. Arrangements depend only on positions, never on the items. |
| `PhpArray.PutSpec` | admin/class-beautiful-taxonomy-filters-rewrite-rules.php:91 | `$a[$k] = $v` adds `$k` at the end only if it is absent and keeps keys unique. Afterwards `$k` maps to `$v`, and every other entry is unchanged. |
| `PhpArray.UnionKeepsLeft` | admin/class-beautiful-taxonomy-filters-rewrite-rules.php:53-56 | `$a + $b` keeps `$a` unchanged as its prefix and adds at most as many entries as `$b` has. |
| `PhpArray.UnionKeys` | admin/class-beautiful-taxonomy-filters-rewrite-rules.php:53-56 | The keys of `$a + $b` are exactly the keys of `$a` and of `$b`. |
| `PhpArray.UnionDistinctKeys` | admin/class-beautiful-taxonomy-filters-rewrite-rules.php:53-56 | A union with a PHP array keeps keys unique. |
| `PhpArray.UnionFirstWins` | admin/class-beautiful-taxonomy-filters-rewrite-rules.php:53-56 | Every entry of `$a + $b` is from `$a`, or is the earliest entry of `$b` with a key `$a` lacks. |
| `PhpArray.UnionTakesFirst` | admin/class-beautiful-taxonomy-filters-rewrite-rules.php:53-56 | Conversely, the earliest entry of `$b` for a key `$a` lacks is in `$a + $b`. |
| `PhpArray.UnionAppend` | admin/class-beautiful-taxonomy-filters-rewrite-rules.php:124 | Two successive `+=` equal one `+=` of the concatenation. |
| `PhpArray.UnionFresh` | admin/class-beautiful-taxonomy-filters-rewrite-rules.php:53-56 | When `$b` brings only new, distinct keys, `$a + $b` appends `$b` in order. |
| `RuleGenerator.CollectQueryVars` | admin/class-beautiful-taxonomy-filters-rewrite-rules.php:85-95 | The loop over the taxonomies leaves exactly `QueryVarMap(taxonomies, excluded)`, and its keys are unique. |
| `RuleGenerator.QueryVarMapKeys` | admin/class-beautiful-taxonomy-filters-rewrite-rules.php:85-95 | A query var is a key exactly when some taxonomy has it and it is not excluded. When `$excluded_taxonomies` is not an array, nothing is excluded. |
| `RuleGenerator.QueryVarMapLastWins` | admin/class-beautiful-taxonomy-filters-rewrite-rules.php:91 | Each entry's value is the `rewrite['slug']` of the last taxonomy with that query var, or the query var itself when `rewrite` is false. |
| `RuleGenerator.QueryVarMapDistinct` | admin/class-beautiful-taxonomy-filters-rewrite-rules.php:85-95 | Each query var is a key once. |
| `RuleProperties.RewriteRulesUnderBase` | admin/class-beautiful-taxonomy-filters-rewrite-rules.php:97-105 | Every pattern of the returned table starts with the rule base: `rewrite['slug'] + "/"` when `has_archive === true`, the archive path plus `"/"` when it is a string, and `"/"` alone when it is `false`. |
| `RuleGenerator.PregIndexInjective` | admin/class-beautiful-taxonomy-filters-rewrite-rules.php:120 | Different capture indices give different back-references. |
| `RuleGenerator.ImplodeSegments` | admin/class-beautiful-taxonomy-filters-rewrite-rules.php:114 | Imploding the slugs with `/([^/]+)/` and appending one more `/([^/]+)/` puts exactly one capture group after each slug. |
| `RuleGenerator.BuildQueryString` | admin/class-beautiful-taxonomy-filters-rewrite-rules.php:116-122 | The inner loop appends `&<qv_p>=$matches[p+1]` for p = 0..len-1, in order. The `$i` left over after the loop is len-1. |
| `RuleGenerator.BindingsStep` | admin/class-beautiful-taxonomy-filters-rewrite-rules.php:120 | One `.=` of the inner loop extends the bindings of the first p query vars to the first p+1. |
| `RuleGenerator.AddRuleWithPagination` | admin/class-beautiful-taxonomy-filters-rewrite-rules.php:40-60 | Returns the table `+=` the pair (pattern + `page/([0-9]{1,})/?$` → query + `&paged=$matches[idx]`, pattern + `?$` → query). |
| `RuleGenerator.RuleWithPaginationSpec` | admin/class-beautiful-taxonomy-filters-rewrite-rules.php:53-56 | Adding the pair never overwrites. The old table stays as a prefix and both patterns are keys afterwards. Each new pattern gets its query, and keys stay unique. When both patterns are new, the paginated entry is appended before the plain one. |
| `RuleGenerator.AddCombos` | admin/class-beautiful-taxonomy-filters-rewrite-rules.php:112-126 | The outer loop zips the two combination lists by index and leaves `RulesFromCombos(..., n)`. The pagination index passed, `$i + 2`, is the combination's length + 1, because no combination is empty. |
| `RuleGenerator.GenerateRewriteRules` | admin/class-beautiful-taxonomy-filters-rewrite-rules.php:72-130 | Returns exactly `RewriteRulesFor(post type, taxonomies, excluded)`. |
| `RuleProperties.CombosAligned` | admin/class-beautiful-taxonomy-filters-rewrite-rules.php:109-110 | The two `permute_all` calls give the keys and the values of the same list of arrangements of the map's entries. |
| `RuleProperties.SlugsAligned` | admin/class-beautiful-taxonomy-filters-rewrite-rules.php:109-114 | Slug p of slug combination idx is the map's value for query var p of query-var combination idx. |
| `RuleProperties.ComboEntries` | admin/class-beautiful-taxonomy-filters-rewrite-rules.php:85-110 | Every arrangement pairs only non-excluded query vars with the slug of the last taxonomy carrying them, and names each query var once. |
| `RuleProperties.RulesFromCombosStream` | admin/class-beautiful-taxonomy-filters-rewrite-rules.php:112-126 | After n iterations of the outer loop, the table is the union of the first n arrangements' pairs. |
| `RuleProperties.RewriteRulesAsStream` | admin/class-beautiful-taxonomy-filters-rewrite-rules.php:72-130 | The returned table is the first-wins union of the pairs of all arrangements, in `permute_all` order. |
| `RuleProperties.RuleStreamIndex` | admin/class-beautiful-taxonomy-filters-rewrite-rules.php:112-126 | Position 2j of that stream is arrangement j's paginated entry, and position 2j+1 is its plain entry. |
| `RuleProperties.ComboRulesShape` | admin/class-beautiful-taxonomy-filters-rewrite-rules.php:114-124 | Each pattern is base + (slug + `/([^/]+)/`) per slug, then `?$` or `page/([0-9]{1,})/?$`. The query binds query var p to `$matches[p+1]`. The page number is `$matches[len+1]`, distinct from every binding. |
| `RuleProperties.RewriteRulesEmpty` | admin/class-beautiful-taxonomy-filters-rewrite-rules.php:79-128 | The table is empty exactly when every taxonomy is excluded, including when there are none. |
| `RuleProperties.RewriteRulesDistinctKeys` | admin/class-beautiful-taxonomy-filters-rewrite-rules.php:53-56 | Every pattern occurs once in the table. |
| `RuleProperties.RuleStreamKeys` | admin/class-beautiful-taxonomy-filters-rewrite-rules.php:112-126 | A pattern is in the stream exactly when it is the paginated or plain pattern of some arrangement. |
| `RuleProperties.RewriteRulesKeys` | admin/class-beautiful-taxonomy-filters-rewrite-rules.php:109-128 | The table's patterns are exactly the paginated and plain patterns of all arrangements of the map's entries. |
| `RuleProperties.RewriteRulesFirstWins` | admin/class-beautiful-taxonomy-filters-rewrite-rules.php:53-56 | An entry is in the table exactly when it is the first entry of the stream with its pattern. A later duplicate never overwrites. |
| `RuleProperties.RewriteRulesCount` | admin/class-beautiful-taxonomy-filters-rewrite-rules.php:109-128 | The stream has 2·(sum over k of n!/(n-k)!) entries for n map entries. The table has at most that many, and equals the stream when no pattern repeats. |
| `RuleProperties.RewriteRulesComplete` | admin/class-beautiful-taxonomy-filters-rewrite-rules.php:109-128 | Every ordering of every non-empty set of non-excluded query vars gets its paginated and plain patterns, built from that ordering's slugs. |
| `Example.ExampleRules` | admin/class-beautiful-taxonomy-filters-rewrite-rules.php:72-130 | Post type `article` with slug `articles` and taxonomies category→cat and tag gives exactly eight entries, in order: `cat`, `cat/tag`, `tag`, `tag/cat`, each paginated then plain. |

## Left out

- The WordPress lookups are left out. `get_post_type_object` (line 77) and `get_object_taxonomies` (line 82) become parameters: a post-type record and the taxonomy list in the order WordPress returns it.
- `$wp_rewrite->preg_index($n)` is taken to return `$matches[n]`, a fixed injective rendering. WP_Rewrite itself is not modelled.
- `in_array` is modelled as exact string membership. PHP's loose comparison is not modelled: neither non-string entries of `$excluded_taxonomies` nor two different numeric strings that compare equal (`"1"` and `"01"`, `"10"` and `"1e1"`).
- Query vars and slugs are strings. PHP's casting of numeric-string keys to integers, and a taxonomy whose `query_var` is `false`, are not modelled.
- Patterns are plain strings. What they match in WordPress's regex router is not modelled.
- `has_archive` and `rewrite` are a three-way choice (true, a path, false) and a slug-or-false choice. Other truthy values, such as a non-empty array without `slug`, are not modelled.
- `RuleProperties.RewriteRulesCount`: the exact size of the table is proved only when no pattern repeats. Repeated patterns come from repeated or overlapping slugs, and those are dropped by first-wins.
- The widget (`widgets/beautiful-taxonomy-filters-info-widget.php`) and the template tags (`public/beautiful-taxonomy-filters-functions.php`) are presentation over WordPress APIs and are not part of this model.
