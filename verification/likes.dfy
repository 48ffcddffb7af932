/**
 * `getPostStats` and `toggleLike`. Whether a user likes a post is the
 * existence of a `Like` row; the like count is derived by counting those rows.
 */
module LikeToggle {
  import opened Wrappers
  import opened Store

  /** What `getPostStats` returns. */
  datatype PostStats = PostStats(views: nat, likes: nat, hasLiked: bool)

  /** `getPostStats(slug)` for the signed-in `user` (or an anonymous caller).
      The like count is read through the `PostStat` row, so a post without
      one reads as 0 likes. */
  function GetPostStats(s: Store, slug: Slug, user: Option<UserId>): (r: PostStats)
    ensures r.views == ViewsOf(s, slug)
    ensures slug in s.postStats ==> r.likes == |LikesOf(s.likes, slug)|
    ensures slug !in s.postStats ==> r.likes == 0
    ensures !SignedIn(user) ==> !r.hasLiked
    ensures SignedIn(user) ==> (r.hasLiked <==> Like(user.value, slug) in s.likes)
  {
    var likes := if slug in s.postStats then |LikesOf(s.likes, slug)| else 0;
    PostStats(ViewsOf(s, slug), likes, SignedIn(user) && Like(user.value, slug) in s.likes)
  }

  /** In a store whose likes point at existing posts, the reported count is
      exactly the number of `Like` rows, and a user who likes the post is
      among them. */
  lemma StatsCountLikeRows(s: Store, slug: Slug, user: Option<UserId>)
    requires Linked(s)
    ensures GetPostStats(s, slug, user).likes == |LikesOf(s.likes, slug)|
    ensures GetPostStats(s, slug, user).hasLiked ==> GetPostStats(s, slug, user).likes >= 1
  {
    if slug !in s.postStats {
      assert LikesOf(s.likes, slug) == {};
    }
    if GetPostStats(s, slug, user).hasLiked {
      assert Like(user.value, slug) in LikesOf(s.likes, slug);
    }
  }

  /** `toggleLike(slug)`: an anonymous caller is refused before any write;
      otherwise the post's `PostStat` row is ensured (views untouched) and
      the caller's `Like` row is deleted if present and created if not. */
  function ToggleLike(s: Store, slug: Slug, user: Option<UserId>): (r: Step)
    ensures !SignedIn(user) ==> r == Step(s, Failed(Unauthorized))
    ensures SignedIn(user) ==>
      && r.outcome == Done
      && r.store == EnsurePostStat(s, slug).(likes := r.store.likes)
      && (Like(user.value, slug) in r.store.likes <==> Like(user.value, slug) !in s.likes)
      && (forall l | l != Like(user.value, slug) :: l in r.store.likes <==> l in s.likes)
  {
    if !SignedIn(user) then
      Step(s, Failed(Unauthorized))
    else
      var s1 := EnsurePostStat(s, slug);
      var like := Like(user.value, slug);
      if like in s1.likes then Step(s1.(likes := s1.likes - {like}), Done)
      else Step(s1.(likes := s1.likes + {like}), Done)
  }

  /** Two toggles by the same user restore the original likes; the only
      trace they leave is the ensured `PostStat` row. */
  lemma ToggleTwiceRestores(s: Store, slug: Slug, user: Option<UserId>)
    requires SignedIn(user)
    ensures var s2 := ToggleLike(ToggleLike(s, slug, user).store, slug, user).store;
            && s2.likes == s.likes
            && s2 == EnsurePostStat(s, slug)
            && (slug in s.postStats ==> s2 == s)
  {
    var s1 := ToggleLike(s, slug, user).store;
    var s2 := ToggleLike(s1, slug, user).store;
    assert s2.likes == s.likes;
  }

  /** What a reader sees after a toggle: the view count is unchanged, the
      like flag flips and the like count moves by one in its direction. */
  lemma ToggleLikeStats(s: Store, slug: Slug, user: Option<UserId>)
    requires Linked(s)
    requires SignedIn(user)
    ensures var before := GetPostStats(s, slug, user);
            var after := GetPostStats(ToggleLike(s, slug, user).store, slug, user);
            && after.views == before.views
            && after.hasLiked == !before.hasLiked
            && after.likes == if before.hasLiked then before.likes - 1 else before.likes + 1
  {
    var like := Like(user.value, slug);
    var s1 := ToggleLike(s, slug, user).store;
    StatsCountLikeRows(s, slug, user);
    assert Linked(s1);
    StatsCountLikeRows(s1, slug, user);
    if like in s.likes {
      assert s1.likes == s.likes - {like};
      LikesOfRemove(s.likes, like);
    } else {
      assert s1.likes == s.likes + {like};
      LikesOfAdd(s.likes, like);
    }
  }

  lemma LikesOfAdd(likes: set<Like>, like: Like)
    requires like !in likes
    ensures |LikesOf(likes + {like}, like.slug)| == |LikesOf(likes, like.slug)| + 1
  {
    assert LikesOf(likes + {like}, like.slug) == LikesOf(likes, like.slug) + {like};
  }

  lemma LikesOfRemove(likes: set<Like>, like: Like)
    requires like in likes
    ensures |LikesOf(likes - {like}, like.slug)| == |LikesOf(likes, like.slug)| - 1
  {
    assert LikesOf(likes - {like}, like.slug) == LikesOf(likes, like.slug) - {like};
  }

  lemma ToggleLikeValid(s: Store, slug: Slug, user: Option<UserId>)
    requires Valid(s)
    ensures Valid(ToggleLike(s, slug, user).store)
  {
  }
}
