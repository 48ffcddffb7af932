/**
 * The view/like widget's client state. It starts empty, is replaced
 * wholesale by a successful stats fetch, and flips the like optimistically
 * before `toggleLike` answers. A failed toggle is only logged: the
 * optimistic state stays, there is no rollback.
 */
module Interactions {
  import opened Wrappers
  import opened Store
  import LikeToggle

  datatype Stats = Stats(views: int, likes: int, hasLiked: bool)

  /** `useState({ views: 0, likes: 0, hasLiked: false })`: the widget
      shows nothing counted and no like before the fetch answers. */
  function Initial(): (r: Stats)
    ensures r.views == 0 && r.likes == 0 && !r.hasLiked
    ensures Plausible(r)
  {
    Stats(0, 0, false)
  }

  /** The server's answer as the widget holds it. */
  function FromServer(p: LikeToggle.PostStats): Stats {
    Stats(p.views, p.likes, p.hasLiked)
  }

  /** `setStats(data)` after `getPostStats` resolves: the local state is
      discarded, not merged. */
  function OnFetched(st: Stats, data: LikeToggle.PostStats): (r: Stats)
    ensures r == FromServer(data)
    ensures r.views == data.views && r.likes == data.likes && r.hasLiked == data.hasLiked
  {
    FromServer(data)
  }

  /** The optimistic update in `handleLike`. */
  function FlipLike(st: Stats): (r: Stats)
    ensures r.views == st.views
    ensures r.hasLiked == !st.hasLiked
    ensures r.likes == if st.hasLiked then st.likes - 1 else st.likes + 1
  {
    st.(likes := if st.hasLiked then st.likes - 1 else st.likes + 1, hasLiked := !st.hasLiked)
  }

  /** `handleLike`: the flip stays whatever `toggleLike` answers. */
  function HandleLike(st: Stats, answer: Outcome): (r: Stats)
    ensures r == FlipLike(st)
    ensures r.hasLiked == !st.hasLiked && r.views == st.views
    ensures r.likes == if st.hasLiked then st.likes - 1 else st.likes + 1
  {
    FlipLike(st)
  }

  /** Success or failure, the widget ends in the same state. */
  lemma AnswerIgnored(st: Stats, a: Outcome, b: Outcome)
    ensures HandleLike(st, a) == HandleLike(st, b)
  {
  }

  /** Flipping twice is the identity. */
  lemma FlipTwice(st: Stats)
    ensures FlipLike(FlipLike(st)) == st
  {
  }

  /** A state the server could have produced. */
  predicate Plausible(st: Stats) {
    st.likes >= 0 && (st.hasLiked ==> st.likes >= 1)
  }

  lemma FlipKeepsPlausible(st: Stats)
    requires Plausible(st)
    ensures Plausible(FlipLike(st))
  {
  }

  /** Every fetched state is plausible, provided the store's likes point at
      existing posts. */
  lemma FetchedIsPlausible(s: Store, slug: Slug, user: Option<UserId>, st: Stats)
    requires Linked(s)
    ensures Plausible(OnFetched(st, LikeToggle.GetPostStats(s, slug, user)))
  {
    LikeToggle.StatsCountLikeRows(s, slug, user);
  }

  /** Starting from what the server reported, the optimistic flip shows
      exactly what the server reports after the toggle succeeds. */
  lemma FlipMatchesServer(s: Store, slug: Slug, user: Option<UserId>)
    requires Linked(s)
    requires SignedIn(user)
    ensures FlipLike(FromServer(LikeToggle.GetPostStats(s, slug, user)))
         == FromServer(LikeToggle.GetPostStats(LikeToggle.ToggleLike(s, slug, user).store, slug, user))
  {
    LikeToggle.ToggleLikeStats(s, slug, user);
  }

  /** When the toggle fails, the widget keeps showing the flipped state,
      which no longer matches the unchanged store. */
  lemma FailedToggleLeavesDrift(s: Store, slug: Slug, user: Option<UserId>)
    requires !SignedIn(user)
    ensures var shown := FromServer(LikeToggle.GetPostStats(s, slug, user));
            var answer := LikeToggle.ToggleLike(s, slug, user);
            && answer.store == s
            && HandleLike(shown, answer.outcome).hasLiked
            && !FromServer(LikeToggle.GetPostStats(answer.store, slug, user)).hasLiked
  {
  }
}
