/**
 * The post index's search and sort (`filteredAndSortedPosts`). Dates are
 * abstract ordered keys (already parsed), and title comparison is an
 * abstract total order standing for `localeCompare(…, 'zh-CN')`.
 */
module PostList {
  import opened Wrappers
  import opened Text
  import opened Sorting

  datatype Category = Dreams | Poems

  datatype SortBy = ByDate | ByTitle

  /** A post's listing metadata; an empty title or date counts as missing. */
  datatype Post = Post(slug: string, title: Option<string>, date: Option<int>)

  /** `activeCategory === 'dreams' ? dreams : poems`. */
  function CurrentPosts(dreams: seq<Post>, poems: seq<Post>, category: Category): (r: seq<Post>)
    ensures category == Dreams ==> r == dreams
    ensures category == Poems ==> r == poems
  {
    if category == Dreams then dreams else poems
  }

  /** `post.metadata.title || post.slug`. */
  function DisplayTitle(p: Post): string {
    if p.title.Some? && p.title.value != "" then p.title.value else p.slug
  }

  /** The search test for a non-blank query; the query itself is not trimmed. */
  predicate Matches(p: Post, query: string) {
    Contains(Lower(DisplayTitle(p)), Lower(query)) || Contains(Lower(p.slug), Lower(query))
  }

  /** `posts.filter(…)`: the matching posts, each as often as it occurs, in
      their original order. */
  function Keep(posts: seq<Post>, query: string): (r: seq<Post>)
    ensures |r| <= |posts|
    ensures forall p :: multiset(r)[p] == if Matches(p, query) then multiset(posts)[p] else 0
    ensures forall p :: p in r <==> p in posts && Matches(p, query)
    ensures multiset(r) <= multiset(posts)
    ensures Subsequence(r, posts)
  {
    var keep := (p: Post) => Matches(p, query);
    assert forall p :: keep(p) == Matches(p, query);
    Filter(posts, keep)
  }

  /** The search step: a blank query keeps every post. */
  function Search(posts: seq<Post>, query: string): (r: seq<Post>)
    ensures IsBlank(query) ==> r == posts
    ensures !IsBlank(query) ==> forall p :: p in r <==> p in posts && Matches(p, query)
    ensures |r| <= |posts|
    ensures multiset(r) <= multiset(posts)
  {
    if IsBlank(query) then posts else Keep(posts, query)
  }

  /** The date comparator: `b - a` on two dates, dated before undated, and
      two undated posts equal. `a` goes first exactly when it is dated and
      `b` is undated or older; the two tie exactly when their dates agree. */
  function DateCompare(a: Post, b: Post): (r: int)
    ensures r < 0 <==> a.date.Some? && (b.date.None? || a.date.value > b.date.value)
    ensures r > 0 <==> b.date.Some? && (a.date.None? || b.date.value > a.date.value)
    ensures r == 0 <==> a.date == b.date
  {
    if a.date.Some? && b.date.Some? then b.date.value - a.date.value
    else if a.date.Some? then -1
    else if b.date.Some? then 1
    else 0
  }

  predicate DateFirst(a: Post, b: Post) {
    DateCompare(a, b) <= 0
  }

  lemma DateOrderIsTotal()
    ensures TotalPreorder(DateFirst)
  {
  }

  /** The title comparator over lower-cased display titles. */
  function TitleFirst(titleLe: (string, string) -> bool): (Post, Post) -> bool {
    (a: Post, b: Post) => titleLe(Lower(DisplayTitle(a)), Lower(DisplayTitle(b)))
  }

  lemma TitleOrderIsTotal(titleLe: (string, string) -> bool)
    requires TotalPreorder(titleLe)
    ensures TotalPreorder(TitleFirst(titleLe))
  {
    var le := TitleFirst(titleLe);
    forall a, b, c | le(a, b) && le(b, c)
      ensures le(a, c)
    {
      var ka, kb, kc := Lower(DisplayTitle(a)), Lower(DisplayTitle(b)), Lower(DisplayTitle(c));
      assert titleLe(ka, kb) && titleLe(kb, kc);
    }
    forall a, b
      ensures le(a, b) || le(b, a)
    {
      var ka, kb := Lower(DisplayTitle(a)), Lower(DisplayTitle(b));
      assert titleLe(ka, kb) || titleLe(kb, ka);
    }
  }

  /** `filteredAndSortedPosts`: the current category's posts that pass the
      search, sorted on a copy by the chosen comparator. */
  function FilteredAndSorted(dreams: seq<Post>, poems: seq<Post>, category: Category,
                             query: string, sortBy: SortBy,
                             titleLe: (string, string) -> bool): (r: seq<Post>)
    requires TotalPreorder(titleLe)
    ensures multiset(r) == multiset(Search(CurrentPosts(dreams, poems, category), query))
    ensures forall p :: p in r <==>
      p in CurrentPosts(dreams, poems, category) && (IsBlank(query) || Matches(p, query))
    ensures |r| <= |CurrentPosts(dreams, poems, category)|
    ensures sortBy == ByDate ==> SortedBy(r, DateFirst)
    ensures sortBy == ByTitle ==> SortedBy(r, TitleFirst(titleLe))
  {
    var filtered := Search(CurrentPosts(dreams, poems, category), query);
    var le := if sortBy == ByDate then DateFirst else TitleFirst(titleLe);
    DateOrderIsTotal();
    TitleOrderIsTotal(titleLe);
    var r := Sort(filtered, le);
    assert forall p :: p in r <==> p in filtered by {
      forall p ensures p in r <==> p in filtered {
        assert p in r <==> p in multiset(r);
        assert p in filtered <==> p in multiset(filtered);
      }
    }
    r
  }

  /** In date order every dated post precedes every undated one, and dated
      posts run from newest to oldest. */
  lemma DateOrderShape(xs: seq<Post>)
    requires SortedBy(xs, DateFirst)
    ensures forall i, j | 0 <= i < j < |xs| && xs[j].date.Some? ::
      xs[i].date.Some? && xs[i].date.value >= xs[j].date.value
  {
    forall i, j | 0 <= i < j < |xs| && xs[j].date.Some?
      ensures xs[i].date.Some? && xs[i].date.value >= xs[j].date.value
    {
      assert DateFirst(xs[i], xs[j]);
    }
  }
}
