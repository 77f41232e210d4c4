/** The public blog listing's filter (client/src/pages/Blog.tsx): a post is
    shown when the search text occurs in its title or excerpt, ignoring
    case, and it belongs to the chosen category; an empty search or the
    "All" category filters nothing. */
module Blog {
  import opened Common
  import opened Text
  import opened Entities

  /** A category choice: what the button says and the value it selects. */
  datatype Category = Category(caption: string, value: string)

  /** The category buttons; "All" selects the empty value. */
  const Categories := [
    Category("All", ""),
    Category("Web Development", "web-development"),
    Category("AI & Automation", "ai-automation"),
    Category("Digital Products", "digital-products"),
    Category("Company Updates", "company")
  ]

  predicate MatchesSearch(p: BlogPost, search: string) {
    search == "" || Contains(Lower(p.title), Lower(search)) || Contains(Lower(p.excerpt), Lower(search))
  }

  predicate MatchesCategory(p: BlogPost, category: string) {
    category == "" || p.category == category
  }

  predicate Matches(p: BlogPost, search: string, category: string) {
    MatchesSearch(p, search) && MatchesCategory(p, category)
  }

  /** `posts?.filter(...)`: nothing while the posts have not arrived,
      otherwise the matching posts in their original order. */
  function FilteredPosts(posts: Option<seq<BlogPost>>, search: string, category: string): (r: Option<seq<BlogPost>>)
    ensures r.None? <==> posts.None?
    ensures r.Some? ==> IsSubseq(r.value, posts.value)
    ensures r.Some? ==> forall i :: 0 <= i < |r.value| ==>
              MatchesSearch(r.value[i], search) && MatchesCategory(r.value[i], category)
    ensures r.Some? ==> forall i :: 0 <= i < |posts.value| && Matches(posts.value[i], search, category) ==>
              posts.value[i] in r.value
    ensures r.Some? ==> multiset(r.value) <= multiset(posts.value)
    ensures r.Some? ==> forall i :: 0 <= i < |posts.value| && Matches(posts.value[i], search, category) ==>
              multiset(r.value)[posts.value[i]] == multiset(posts.value)[posts.value[i]]
  {
    match posts
    case None => None
    case Some(ps) =>
      FilterCounts(ps, p => Matches(p, search, category));
      Some(Filter(ps, p => Matches(p, search, category)))
  }

  /** With an empty search and the "All" category every post is shown. */
  lemma NoFilterShowsAll(posts: seq<BlogPost>)
    ensures FilteredPosts(Some(posts), "", Categories[0].value) == Some(posts)
  {
    FilterKeepsAll(posts, p => Matches(p, "", ""));
  }

  /** A post's case does not matter on either side: searching for the
      lower-cased text finds the same posts. */
  lemma SearchIgnoresCase(posts: Option<seq<BlogPost>>, search: string, category: string)
    ensures FilteredPosts(posts, Lower(search), category) == FilteredPosts(posts, search, category)
  {
    LowerIdempotent(search);
    assert (Lower(search) == "") == (search == "");
    if posts.Some? {
      FilterCongruent(posts.value, p => Matches(p, Lower(search), category), p => Matches(p, search, category));
    }
  }

  /** Choosing a category narrows the search result to the posts of that
      category and keeps their order. */
  lemma CategoryNarrowsSearch(posts: seq<BlogPost>, search: string, category: string)
    requires category != ""
    ensures FilteredPosts(Some(posts), search, category).value
            == Filter(FilteredPosts(Some(posts), search, "").value, (p: BlogPost) => p.category == category)
  {
    var searchOnly := p => Matches(p, search, "");
    var inCategory := (p: BlogPost) => p.category == category;
    var both := p => Matches(p, search, category);
    FilterConjunction(posts, searchOnly, inCategory, both);
  }

  /** Where a longer text occurs, its beginning occurs too. */
  lemma ContainsPrefix(s: string, a: string, b: string)
    requires Contains(s, a + b)
    ensures Contains(s, a)
  {
    var k: nat :| OccursAt(s, a + b, k);
    assert s[k..k + |a|] == (a + b)[..|a|];
    assert OccursAt(s, a, k);
  }

  /** Typing more of the search text never brings back a post the shorter
      text had filtered out. */
  lemma LongerSearchNarrows(p: BlogPost, a: string, b: string, category: string)
    requires Matches(p, a + b, category)
    ensures Matches(p, a, category)
  {
    if a != "" {
      LowerAppend(a, b);
      if Contains(Lower(p.title), Lower(a + b)) {
        ContainsPrefix(Lower(p.title), Lower(a), Lower(b));
      } else {
        ContainsPrefix(Lower(p.excerpt), Lower(a), Lower(b));
      }
    }
  }
}
