/**
 * `postComment` and `getComments`. A comment may name a parent comment;
 * the parent is only checked to exist, not to belong to the same post.
 */
module CommentThread {
  import opened Wrappers
  import opened Text
  import opened Store
  import opened Sorting

  /** `parentId || null`: an absent or empty parent id makes a root comment. */
  function ParentRef(parentId: Option<Id>): (r: Option<Id>)
    ensures r.Some? <==> parentId.Some? && parentId.value != ""
    ensures r.Some? ==> r == parentId
  {
    if parentId.Some? && parentId.value != "" then parentId else None
  }

  /** `postComment(slug, content, parentId)` by `user` at time `now`; the
      database hands out `newId` for the new row. The `PostStat` upsert runs
      before the parent lookup, so a reply to a missing comment still leaves
      that row behind. */
  function PostComment(s: Store, slug: Slug, user: Option<UserId>, content: string,
                       parentId: Option<Id>, newId: Id, now: int): (r: Step)
    requires newId !in s.comments
    ensures !SignedIn(user) ==> r == Step(s, Failed(Unauthorized))
    ensures SignedIn(user) && IsBlank(content) ==> r == Step(s, Done)
    ensures SignedIn(user) && !IsBlank(content) && ParentRef(parentId).Some?
            && ParentRef(parentId).value !in s.comments ==>
      r == Step(EnsurePostStat(s, slug), Failed(NotFound))
    ensures SignedIn(user) && !IsBlank(content)
            && (ParentRef(parentId).None? || ParentRef(parentId).value in s.comments) ==>
      && r.outcome == Done
      && r.store.comments.Keys == s.comments.Keys + {newId}
      && r.store.comments[newId] == Comment(content, user.value, slug, ParentRef(parentId), now)
      && (forall id | id in s.comments :: r.store.comments[id] == s.comments[id])
      && r.store == EnsurePostStat(s, slug).(comments := r.store.comments)
  {
    if !SignedIn(user) then
      Step(s, Failed(Unauthorized))
    else if IsBlank(content) then
      Step(s, Done)
    else
      var s1 := EnsurePostStat(s, slug);
      var parent := ParentRef(parentId);
      if parent.Some? && parent.value !in s1.comments then
        Step(s1, Failed(NotFound))
      else
        var c := Comment(content, user.value, slug, parent, now);
        Step(s1.(comments := s1.comments[newId := c]), Done)
  }

  /** A successful post adds exactly one comment. */
  lemma PostCommentAddsOne(s: Store, slug: Slug, user: Option<UserId>, content: string,
                           parentId: Option<Id>, newId: Id, now: int)
    requires newId !in s.comments
    requires PostComment(s, slug, user, content, parentId, newId, now).store.comments != s.comments
    ensures PostComment(s, slug, user, content, parentId, newId, now).outcome == Done
    ensures |PostComment(s, slug, user, content, parentId, newId, now).store.comments| == |s.comments| + 1
  {
    var r := PostComment(s, slug, user, content, parentId, newId, now);
    assert r.store.comments.Keys == s.comments.Keys + {newId};
    assert |r.store.comments.Keys| == |s.comments.Keys| + 1;
  }

  /** Every failure leaves the comments alone; only the missing-parent
      failure writes anything, and that is the post's `PostStat` row. */
  lemma PostCommentFailureWrites(s: Store, slug: Slug, user: Option<UserId>, content: string,
                                 parentId: Option<Id>, newId: Id, now: int)
    requires newId !in s.comments
    requires PostComment(s, slug, user, content, parentId, newId, now).outcome.Failed?
    ensures var r := PostComment(s, slug, user, content, parentId, newId, now);
            && r.store.comments == s.comments
            && (r.outcome.error == Unauthorized ==> r.store == s)
            && (r.outcome.error == NotFound ==> r.store == EnsurePostStat(s, slug))
            && r.outcome.error != BudgetExceeded
  {
  }

  /** A reply is accepted whenever its parent exists, even when the parent
      belongs to another post. */
  lemma ReplyAcrossPostsAccepted(s: Store, slug: Slug, user: Option<UserId>, content: string,
                                 parent: Id, newId: Id, now: int)
    requires newId !in s.comments
    requires SignedIn(user) && !IsBlank(content)
    requires parent in s.comments && parent != "" && s.comments[parent].slug != slug
    ensures var r := PostComment(s, slug, user, content, Some(parent), newId, now);
            && r.outcome == Done
            && r.store.comments[newId].parentId == Some(parent)
            && r.store.comments[parent].slug != r.store.comments[newId].slug
  {
  }

  /** Posting keeps every foreign key and counter consistent; in particular
      every stored parent id names an existing comment. */
  lemma PostCommentValid(s: Store, slug: Slug, user: Option<UserId>, content: string,
                         parentId: Option<Id>, newId: Id, now: int)
    requires Valid(s)
    requires newId !in s.comments
    ensures Valid(PostComment(s, slug, user, content, parentId, newId, now).store)
  {
  }

  /** One row of the `getComments` listing. */
  datatype CommentEntry = CommentEntry(id: Id, comment: Comment)

  /** `orderBy: { createdAt: "asc" }`. */
  predicate CreatedNoLater(a: CommentEntry, b: CommentEntry) {
    a.comment.createdAt <= b.comment.createdAt
  }

  lemma CreatedOrderIsTotal()
    ensures TotalPreorder(CreatedNoLater)
  {
  }

  /** `r` holds each comment of `slug` exactly once, as stored. */
  ghost predicate ListsComments(comments: map<Id, Comment>, slug: Slug, r: seq<CommentEntry>) {
    && (forall i | 0 <= i < |r| ::
          r[i].id in comments && comments[r[i].id] == r[i].comment && r[i].comment.slug == slug)
    && (forall id | id in comments && comments[id].slug == slug ::
          exists i | 0 <= i < |r| :: r[i].id == id)
    && Distinct(r)
  }

  /** The comments of `slug`, in no particular order. */
  method CollectComments(comments: map<Id, Comment>, slug: Slug) returns (found: seq<CommentEntry>)
    ensures ListsComments(comments, slug, found)
  {
    var rest := comments.Keys;
    found := [];
    while rest != {}
      invariant rest <= comments.Keys
      invariant forall i | 0 <= i < |found| ::
        && found[i].id in comments && found[i].id !in rest
        && comments[found[i].id] == found[i].comment && found[i].comment.slug == slug
      invariant forall id | id in comments && id !in rest && comments[id].slug == slug ::
        exists i | 0 <= i < |found| :: found[i].id == id
      invariant Distinct(found)
      decreases rest
    {
      var id :| id in rest;
      if comments[id].slug == slug {
        var before := found;
        found := found + [CommentEntry(id, comments[id])];
        forall other | other in comments && other !in rest - {id} && comments[other].slug == slug
          ensures exists i | 0 <= i < |found| :: found[i].id == other
        {
          if other == id {
            assert found[|before|].id == other;
          } else {
            var i :| 0 <= i < |before| && before[i].id == other;
            assert found[i].id == other;
          }
        }
      }
      rest := rest - {id};
    }
  }

  /** A rearranged listing is still a listing. */
  lemma ListingPermutation(comments: map<Id, Comment>, slug: Slug, xs: seq<CommentEntry>, ys: seq<CommentEntry>)
    requires ListsComments(comments, slug, xs)
    requires multiset(xs) == multiset(ys)
    ensures ListsComments(comments, slug, ys)
  {
    DistinctPermutation(xs, ys);
    forall i | 0 <= i < |ys|
      ensures ys[i].id in comments && comments[ys[i].id] == ys[i].comment && ys[i].comment.slug == slug
    {
      assert ys[i] in multiset(xs);
    }
    forall id | id in comments && comments[id].slug == slug
      ensures exists i | 0 <= i < |ys| :: ys[i].id == id
    {
      var k :| 0 <= k < |xs| && xs[k].id == id;
      assert xs[k] in multiset(ys);
      var j :| 0 <= j < |ys| && ys[j] == xs[k];
    }
  }

  /** `getComments(slug)`: the post's comments, oldest first. */
  method GetComments(s: Store, slug: Slug) returns (r: seq<CommentEntry>)
    ensures ListsComments(s.comments, slug, r)
    ensures SortedBy(r, CreatedNoLater)
  {
    var found := CollectComments(s.comments, slug);
    CreatedOrderIsTotal();
    r := Sort(found, CreatedNoLater);
    ListingPermutation(s.comments, slug, found, r);
  }
}
