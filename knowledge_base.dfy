/** The article list of pages/knowledge-base/index.tsx: a search box and a
    row of category buttons narrow the articles shown; each card shows at
    most three tags and counts the rest. */
module KnowledgeBase {
  import opened Seqs
  import opened Text
  import opened Interfaces

  /** `article.excerpt?.toLowerCase().includes(query)`: an article without
      an excerpt never matches here. */
  predicate ExcerptMatches(a: Article, query: string)
  {
    a.excerpt.Some? && Contains(Lower(a.excerpt.value), Lower(query))
  }

  predicate TagMatches(a: Article, query: string)
  {
    Any(a.tags, (tag: string) => Contains(Lower(tag), Lower(query)))
  }

  /** The search box matches on the title, the excerpt or any tag, ignoring
      case. */
  predicate MatchesSearch(a: Article, query: string)
  {
    Contains(Lower(a.title), Lower(query)) || ExcerptMatches(a, query) || TagMatches(a, query)
  }

  /** The category selection: `"all"` or the article's category name. */
  predicate MatchesCategory(a: Article, selectedCategory: string)
  {
    selectedCategory == "all" || a.category == selectedCategory
  }

  predicate Keep(a: Article, query: string, selectedCategory: string)
  {
    MatchesSearch(a, query) && MatchesCategory(a, selectedCategory)
  }

  /** `filteredArticles`: the articles that pass both tests, in list order. */
  function FilteredArticles(articles: seq<Article>, query: string, selectedCategory: string): (r: seq<Article>)
    ensures Subseq(r, articles)
    ensures forall a :: a in r <==> a in articles && Keep(a, query, selectedCategory)
  {
    Filter(articles, (a: Article) => Keep(a, query, selectedCategory))
  }

  /** An article that passes is shown as often as it is listed; one that
      fails is not shown at all. */
  lemma FilteredArticlesCounts(articles: seq<Article>, query: string, selectedCategory: string)
    ensures forall a :: multiset(FilteredArticles(articles, query, selectedCategory))[a] ==
                        (if Keep(a, query, selectedCategory) then multiset(articles)[a] else 0)
  {
    FilterCounts(articles, (a: Article) => Keep(a, query, selectedCategory));
  }

  /** The empty search box matches every article, with or without an
      excerpt. */
  lemma EmptyQueryMatches(a: Article)
    ensures MatchesSearch(a, "")
  {
    assert Lower("") == "";
    ContainsEmpty(Lower(a.title));
  }

  /** The initial filters (empty query, all categories) show every article. */
  lemma InitialFiltersShowAll(articles: seq<Article>)
    ensures FilteredArticles(articles, "", "all") == articles
  {
    forall a | a in articles
      ensures Keep(a, "", "all")
    {
      EmptyQueryMatches(a);
    }
    FilterKeepsAll(articles, (a: Article) => Keep(a, "", "all"));
  }

  /** Without an excerpt, only the title and the tags can match. */
  lemma MissingExcerptNeverMatches(a: Article, query: string)
    requires a.excerpt == None
    ensures MatchesSearch(a, query) <==> Contains(Lower(a.title), Lower(query)) || TagMatches(a, query)
  {
  }

  /** A query that occurs verbatim in the excerpt matches. */
  lemma VerbatimExcerptMatches(a: Article, query: string)
    requires a.excerpt.Some? && Contains(a.excerpt.value, query)
    ensures MatchesSearch(a, query)
  {
    ContainsLower(a.excerpt.value, query);
  }

  /** Searching is insensitive to the case of the query. */
  lemma SearchIgnoresQueryCase(a: Article, query: string)
    ensures MatchesSearch(a, query) <==> MatchesSearch(a, Lower(query))
  {
    LowerIdempotent(query);
  }

  /** Choosing a category can only narrow what the search alone shows. */
  lemma CategoryNarrows(articles: seq<Article>, query: string, selectedCategory: string)
    ensures Subseq(FilteredArticles(articles, query, selectedCategory), FilteredArticles(articles, query, "all"))
  {
    FilterMonotone(articles, (a: Article) => Keep(a, query, selectedCategory), (a: Article) => Keep(a, query, "all"));
  }

  /** The "No articles found" card shows exactly when no article passes. */
  function ShowsEmptyState(articles: seq<Article>, query: string, selectedCategory: string): (b: bool)
    ensures b <==> forall a :: a in articles ==> !Keep(a, query, selectedCategory)
  {
    var shown := FilteredArticles(articles, query, selectedCategory);
    if |shown| == 0 then true else assert shown[0] in shown; false
  }

  /** The category buttons: "All Categories" first, then one per category.
      Button 0 selects `"all"`, button `i + 1` selects the name of category
      `i`. */
  function CategoryButtonValues(categories: seq<Category>): (vs: seq<string>)
    ensures |vs| == |categories| + 1 && vs[0] == "all"
    ensures forall i :: 0 <= i < |categories| ==> vs[i + 1] == categories[i].name
  {
    ["all"] + seq(|categories|, i requires 0 <= i < |categories| => categories[i].name)
  }

  /** Clicking a category's button shows, of the articles the search
      matches, exactly those filed under that category; the "All" button
      shows all of them. */
  lemma CategoryButtonSelects(categories: seq<Category>, i: nat, a: Article, query: string)
    requires i < |categories| && categories[i].name != "all"
    ensures Keep(a, query, CategoryButtonValues(categories)[i + 1]) <==>
            MatchesSearch(a, query) && a.category == categories[i].name
    ensures Keep(a, query, CategoryButtonValues(categories)[0]) <==> MatchesSearch(a, query)
  {
  }

  /** The "+N more" note: present only when there are more than three tags. */
  function MoreTags(a: Article): (n: Option<nat>)
    ensures n.Some? <==> |a.tags| > 3
  {
    if |a.tags| > 3 then Some(|a.tags| - 3) else None
  }

  /** The tags a card shows, `tags.slice(0, 3)`, and the number in the
      note account for every tag: the hidden ones are exactly those after
      the third, and the note counts them. */
  lemma TagsAccountedFor(a: Article)
    ensures var shown := Take(a.tags, 3);
      && |shown| + (if MoreTags(a).Some? then MoreTags(a).value else 0) == |a.tags|
      && shown + a.tags[|shown|..] == a.tags
      && (MoreTags(a).Some? ==> MoreTags(a).value == |a.tags[|shown|..]| > 0)
  {
    var shown := Take(a.tags, 3);
    assert shown == a.tags[..|shown|];
    assert a.tags[..|shown|] + a.tags[|shown|..] == a.tags;
  }

  const DerailleurArticle := Article("1", "How to Service a Shimano Derailleur",
    "Complete guide to servicing Shimano derailleurs...",
    Some("Learn the step-by-step process for maintaining and adjusting Shimano derailleurs for optimal performance."),
    "Maintenance", ["derailleur", "shimano", "maintenance"], true, "1", 45,
    "how-to-service-shimano-derailleur")
  const BrakeArticle := Article("2", "Brake Bleeding Procedure",
    "Step-by-step guide to bleeding hydraulic brakes...",
    Some("Master the art of bleeding hydraulic brakes to ensure optimal stopping power and safety."),
    "Brakes", ["brakes", "bleeding", "hydraulic"], true, "2", 32,
    "brake-bleeding-procedure")

  /** The page's mock articles and categories. */
  const MockArticles := [DerailleurArticle, BrakeArticle]
  const MockCategories := [
    Category("1", "Maintenance", Some("General maintenance procedures"), "#3B82F6", 15),
    Category("2", "Brakes", Some("Brake systems and procedures"), "#EF4444", 8),
    Category("3", "Wheels", Some("Wheel building and maintenance"), "#10B981", 12),
    Category("4", "Electronics", Some("E-bike and electronic systems"), "#8B5CF6", 6)
  ]

  /** On the mock data, the "Brakes" button shows the brake article and
      the "Wheels" button shows the empty state. */
  lemma FixtureCategoryButtons()
    ensures FilteredArticles(MockArticles, "", CategoryButtonValues(MockCategories)[2]) == [BrakeArticle]
    ensures ShowsEmptyState(MockArticles, "", CategoryButtonValues(MockCategories)[3])
  {
    assert CategoryButtonValues(MockCategories)[2] == "Brakes";
    assert CategoryButtonValues(MockCategories)[3] == "Wheels";
    EmptyQueryMatches(BrakeArticle);
    var ps := MockArticles;
    assert ps[1..] == [BrakeArticle];
    var brakes := (a: Article) => Keep(a, "", "Brakes");
    assert Filter([BrakeArticle], brakes) == [BrakeArticle];
  }
}
