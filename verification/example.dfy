/**
 A worked instance of the generator: post type `article` with an archive and
 the rewrite slug `articles`, and two taxonomies, `category` (rewritten to
 `cat`) and `tag` (no rewrite, so its query var is its slug). Two query vars
 have four arrangements, so the table holds four plain and four paginated
 rules. Patterns are written with the generator's own pieces: `CatRule` is
 `articles/cat/([^/]+)/`, `CatQuery` is
 `index.php?post_type=article&category=$matches[1]`, and so on.
 */
module Example {
  import opened Sequences
  import opened PhpArray
  import opened Permutations
  import opened RuleGenerator
  import opened RuleProperties

  const Article := PostType("article", ArchiveTrue, Rewrite("articles"))
  const Taxonomies := [Taxonomy("category", Rewrite("cat")), Taxonomy("tag", NoRewrite)]

  const Cat := ("category", "cat")
  const Tag := ("tag", "tag")
  const Base := "articles" + "/"
  const QueryBaseOf := "index.php?post_type=" + "article"

  const CatRule := Base + "cat" + Capture
  const CatQuery := QueryBaseOf + Binding("category", 1)
  const CatTagRule := CatRule + "tag" + Capture
  const CatTagQuery := CatQuery + Binding("tag", 2)
  const TagRule := Base + "tag" + Capture
  const TagQuery := QueryBaseOf + Binding("tag", 1)
  const TagCatRule := TagRule + "cat" + Capture
  const TagCatQuery := TagQuery + Binding("category", 2)

  /** The query-var map of the example, in taxonomy order. */
  lemma ExampleQueryVars()
    ensures QueryVarMap(Taxonomies, NotAnArray) == [Cat, Tag]
  {
    assert QueryVarMap(Taxonomies[..1], NotAnArray) == [Cat] by {
      assert Taxonomies[..1][..0] == [];
    }
    assert Put([Cat], "tag", "tag") == [Cat] + [Tag] by {
      assert [Cat][0].0 != "tag";
      assert [Cat][1..] == [];
    }
  }

  /** The pair of a one-entry arrangement. */
  lemma OnePair(base: string, queryBase: string, e: (string, string))
    ensures ComboRules(base, queryBase, [e]) ==
      PaginationPair(base + e.1 + Capture, queryBase + Binding(e.0, 1), 2)
  {
    assert Values([e]) == [e.1] && Keys([e]) == [e.0];
    assert [e.0][..0] == [];
    assert Bindings([e.0]) == Binding(e.0, 1);
  }

  /** The pair of a two-entry arrangement. */
  lemma TwoPair(base: string, queryBase: string, e: (string, string), f: (string, string))
    ensures ComboRules(base, queryBase, [e, f]) ==
      PaginationPair(base + e.1 + Capture + f.1 + Capture, queryBase + Binding(e.0, 1) + Binding(f.0, 2), 3)
  {
    assert Values([e, f]) == [e.1, f.1] && Keys([e, f]) == [e.0, f.0];
    assert [e.1, f.1][1..] == [f.1];
    assert base + Implode(Capture, [e.1, f.1]) + Capture == base + e.1 + Capture + f.1 + Capture;
    assert [e.0, f.0][..1] == [e.0] && [e.0][..0] == [];
    var b1, b2 := Binding(e.0, 1), Binding(f.0, 2);
    assert Bindings([e.0]) == b1;
    assert Bindings([e.0, f.0]) == b1 + b2;
    assert queryBase + (b1 + b2) == queryBase + b1 + b2;
  }

  /** The pairs of the four arrangements, in `permute_all` order. */
  lemma ExampleStream()
    ensures RuleStream(Base, QueryBaseOf, [[Cat], [Cat, Tag], [Tag], [Tag, Cat]]) ==
      PaginationPair(CatRule, CatQuery, 2) + PaginationPair(CatTagRule, CatTagQuery, 3) +
      PaginationPair(TagRule, TagQuery, 2) + PaginationPair(TagCatRule, TagCatQuery, 3)
  {
    var combos := [[Cat], [Cat, Tag], [Tag], [Tag, Cat]];
    OnePair(Base, QueryBaseOf, Cat);
    TwoPair(Base, QueryBaseOf, Cat, Tag);
    OnePair(Base, QueryBaseOf, Tag);
    TwoPair(Base, QueryBaseOf, Tag, Cat);
    var one, two, three := [[Cat]], [[Cat], [Cat, Tag]], [[Cat], [Cat, Tag], [Tag]];
    assert one[..0] == [];
    assert RuleStream(Base, QueryBaseOf, one) == PaginationPair(CatRule, CatQuery, 2);
    assert two[..1] == one;
    assert RuleStream(Base, QueryBaseOf, two) == RuleStream(Base, QueryBaseOf, one) + PaginationPair(CatTagRule, CatTagQuery, 3);
    assert three[..2] == two;
    assert RuleStream(Base, QueryBaseOf, three) == RuleStream(Base, QueryBaseOf, two) + PaginationPair(TagRule, TagQuery, 2);
    assert combos[..3] == three;
    assert RuleStream(Base, QueryBaseOf, combos) == RuleStream(Base, QueryBaseOf, three) + PaginationPair(TagCatRule, TagCatQuery, 3);
  }

  /** The eight patterns are pairwise different. */
  lemma ExampleKeysDistinct()
    ensures Distinct([PagedRule(CatRule), CatRule + Anchor, PagedRule(CatTagRule), CatTagRule + Anchor,
                      PagedRule(TagRule), TagRule + Anchor, PagedRule(TagCatRule), TagCatRule + Anchor])
  {
    assert CatRule[9] == 'c' && TagRule[9] == 't';
    assert CatTagRule[9] == 'c' && TagCatRule[9] == 't';
    assert CatRule + Anchor != TagRule + Anchor by {
      assert (CatRule + Anchor)[9] == CatRule[9];
      assert (TagRule + Anchor)[9] == TagRule[9];
    }
    assert PagedRule(CatRule) != PagedRule(TagRule) by {
      assert PagedRule(CatRule)[9] == CatRule[9];
      assert PagedRule(TagRule)[9] == TagRule[9];
    }
    assert CatTagRule + Anchor != TagCatRule + Anchor by {
      assert (CatTagRule + Anchor)[9] == CatTagRule[9];
      assert (TagCatRule + Anchor)[9] == TagCatRule[9];
    }
    assert PagedRule(CatTagRule) != PagedRule(TagCatRule) by {
      assert PagedRule(CatTagRule)[9] == CatTagRule[9];
      assert PagedRule(TagCatRule)[9] == TagCatRule[9];
    }
  }

  /** The example's table: the single-key rules and both orders of the two-key
      rule, each paginated entry right before its plain entry; four
      arrangements, eight entries, nothing dropped as a duplicate. */
  lemma ExampleRules()
    ensures RewriteRulesFor(Article, Taxonomies, NotAnArray) ==
      PaginationPair(CatRule, CatQuery, 2) + PaginationPair(CatTagRule, CatTagQuery, 3) +
      PaginationPair(TagRule, TagQuery, 2) + PaginationPair(TagCatRule, TagCatQuery, 3)
    ensures |RewriteRulesFor(Article, Taxonomies, NotAnArray)| == 8
  {
    ExampleQueryVars();
    AllPermutationsOfTwo(Cat, Tag);
    RewriteRulesAsStream(Article, Taxonomies, NotAnArray);
    assert RuleBase(Article) == Base && QueryBase(Article) == QueryBaseOf;
    ExampleStream();
    ExampleTableDistinct();
    UnionFresh([], PaginationPair(CatRule, CatQuery, 2) + PaginationPair(CatTagRule, CatTagQuery, 3) +
      PaginationPair(TagRule, TagQuery, 2) + PaginationPair(TagCatRule, TagCatQuery, 3));
  }

  lemma ExampleTableDistinct()
    ensures DistinctKeys(PaginationPair(CatRule, CatQuery, 2) + PaginationPair(CatTagRule, CatTagQuery, 3) +
      PaginationPair(TagRule, TagQuery, 2) + PaginationPair(TagCatRule, TagCatQuery, 3))
  {
    var table := PaginationPair(CatRule, CatQuery, 2) + PaginationPair(CatTagRule, CatTagQuery, 3) +
      PaginationPair(TagRule, TagQuery, 2) + PaginationPair(TagCatRule, TagCatQuery, 3);
    ExampleKeysDistinct();
    assert Keys(table) == [PagedRule(CatRule), CatRule + Anchor, PagedRule(CatTagRule), CatTagRule + Anchor,
                           PagedRule(TagRule), TagRule + Anchor, PagedRule(TagCatRule), TagCatRule + Anchor];
  }
}
