/**
 * `voteTag` and `getPostTags`: community tags per post. A vote finds or
 * creates the tag and the post tag, is refused once the user holds the
 * budget of votes on the post, is idempotent for a tag the user already
 * backs, and otherwise adds the ballot and raises the stored count with it.
 */
module TagVote {
  import opened Wrappers
  import opened Text
  import opened Store
  import opened Sorting

  /** `slice(0, 10)`: the longest tag name kept. */
  const MaxTagLength: nat := 10

  /** `tagName.trim().slice(0, 10)`. */
  function NormalizeTagName(raw: string): (r: string)
    ensures |r| <= MaxTagLength
    ensures |r| == if |Trim(raw)| <= MaxTagLength then |Trim(raw)| else MaxTagLength
    ensures r == Trim(raw)[..|r|]
    ensures r == [] <==> IsBlank(raw)
  {
    Take(Trim(raw), MaxTagLength)
  }

  /** The post tag a vote for `rawName` on `slug` lands on. */
  function VoteKey(slug: Slug, rawName: string): PostTagKey {
    PostTagKey(slug, NormalizeTagName(rawName))
  }

  /** The stored count of a post tag; one that does not exist reads as 0. */
  function CountOf(s: Store, key: PostTagKey): nat {
    if key in s.postTags then s.postTags[key].count else 0
  }

  /** The database's fresh id for a post tag created by this vote. */
  predicate FreshPostTagId(s: Store, newId: Id) {
    forall k | k in s.postTags :: s.postTags[k].id != newId
  }

  /** The vote passes every guard and reaches the writes. */
  predicate Admitted(s: Store, slug: Slug, user: Option<UserId>, rawName: string) {
    && SignedIn(user)
    && !IsBlank(rawName)
    && |UserVotesOn(s.votes, user.value, slug)| < VoteBudget
  }

  /** `voteTag(slug, tagName)` by `user`. The guards run in `voteTag`'s
      order: sign-in, empty name, then the budget, which counts every vote
      the user holds on the post, including one for this very tag. */
  function VoteTag(s: Store, slug: Slug, user: Option<UserId>, rawName: string, newId: Id): (r: Step)
    requires FreshPostTagId(s, newId)
    ensures !SignedIn(user) ==> r == Step(s, Failed(Unauthorized))
    ensures SignedIn(user) && IsBlank(rawName) ==> r == Step(s, Done)
    ensures SignedIn(user) && !IsBlank(rawName) && !Admitted(s, slug, user, rawName) ==>
      r == Step(s, Failed(BudgetExceeded))
    ensures Admitted(s, slug, user, rawName) ==>
      var key := VoteKey(slug, rawName);
      var vote := Vote(user.value, key);
      && r.outcome == Done
      && r.store.votes == s.votes + {vote}
      && CountOf(r.store, key) == CountOf(s, key) + (if vote in s.votes then 0 else 1)
      && r.store.postTags.Keys == s.postTags.Keys + {key}
      && (forall k | k in s.postTags && k != key :: r.store.postTags[k] == s.postTags[k])
      && (key in s.postTags ==> r.store.postTags[key].id == s.postTags[key].id)
      && (key !in s.postTags ==> r.store.postTags[key].id == newId)
      && r.store.tags == s.tags + {key.tagName}
      && r.store == EnsurePostStat(s, slug).(tags := r.store.tags, postTags := r.store.postTags, votes := r.store.votes)
  {
    if !SignedIn(user) then
      Step(s, Failed(Unauthorized))
    else if NormalizeTagName(rawName) == [] then
      Step(s, Done)
    else if |UserVotesOn(s.votes, user.value, slug)| >= VoteBudget then
      Step(s, Failed(BudgetExceeded))
    else
      var key := VoteKey(slug, rawName);
      var s1 := EnsurePostStat(s, slug);
      var s2 := s1.(tags := s1.tags + {key.tagName});
      var s3 := if key in s2.postTags then s2 else s2.(postTags := s2.postTags[key := PostTag(newId, 0)]);
      var vote := Vote(user.value, key);
      if vote in s3.votes then
        Step(s3, Done)
      else
        var pt := s3.postTags[key];
        Step(s3.(votes := s3.votes + {vote}, postTags := s3.postTags[key := pt.(count := pt.count + 1)]), Done)
  }

  lemma SubsetSize<T>(a: set<T>, b: set<T>)
    requires a <= b
    ensures |a| <= |b|
  {
    assert b == a + (b - a);
  }

  lemma VotesForAdd(votes: set<Vote>, v: Vote, k: PostTagKey)
    requires v !in votes
    ensures |VotesFor(votes + {v}, k)| == |VotesFor(votes, k)| + (if v.key == k then 1 else 0)
  {
    if v.key == k {
      assert VotesFor(votes + {v}, k) == VotesFor(votes, k) + {v};
    } else {
      assert VotesFor(votes + {v}, k) == VotesFor(votes, k);
    }
  }

  lemma UserVotesOnAdd(votes: set<Vote>, v: Vote, u: UserId, slug: Slug)
    requires v !in votes
    ensures |UserVotesOn(votes + {v}, u, slug)| ==
            |UserVotesOn(votes, u, slug)| + (if v.userId == u && v.key.slug == slug then 1 else 0)
  {
    if v.userId == u && v.key.slug == slug {
      assert UserVotesOn(votes + {v}, u, slug) == UserVotesOn(votes, u, slug) + {v};
    } else {
      assert UserVotesOn(votes + {v}, u, slug) == UserVotesOn(votes, u, slug);
    }
  }

  /** A repeated vote for a tag the user already backs writes nothing,
      provided the budget check lets it through. */
  lemma RevoteIsNoOp(s: Store, slug: Slug, user: Option<UserId>, rawName: string, newId: Id)
    requires Valid(s)
    requires FreshPostTagId(s, newId)
    requires Admitted(s, slug, user, rawName)
    requires Vote(user.value, VoteKey(slug, rawName)) in s.votes
    ensures VoteTag(s, slug, user, rawName, newId) == Step(s, Done)
  {
    var key := VoteKey(slug, rawName);
    assert key in s.postTags;
    var r := VoteTag(s, slug, user, rawName, newId).store;
    assert r.postTags == s.postTags;
  }

  /** Once a user backs two different tags of a post, every further vote on
      that post is refused, a re-vote included, and nothing is written. */
  lemma BudgetExhausted(s: Store, slug: Slug, user: Option<UserId>, rawName: string, newId: Id,
                        a: string, b: string)
    requires FreshPostTagId(s, newId)
    requires SignedIn(user) && !IsBlank(rawName)
    requires a != b
    requires Vote(user.value, PostTagKey(slug, a)) in s.votes
    requires Vote(user.value, PostTagKey(slug, b)) in s.votes
    ensures VoteTag(s, slug, user, rawName, newId) == Step(s, Failed(BudgetExceeded))
  {
    var va, vb := Vote(user.value, PostTagKey(slug, a)), Vote(user.value, PostTagKey(slug, b));
    var held := UserVotesOn(s.votes, user.value, slug);
    assert va in held && vb in held && va != vb;
    assert {va, vb} <= held;
    assert |{va, vb}| == 2;
    SubsetSize({va, vb}, held);
    assert !Admitted(s, slug, user, rawName);
  }

  /** An admitted ballot the user did not hold yet keeps the store valid. */
  lemma NewBallotValid(s: Store, slug: Slug, user: Option<UserId>, rawName: string, newId: Id)
    requires Valid(s)
    requires FreshPostTagId(s, newId)
    requires Admitted(s, slug, user, rawName)
    requires Vote(user.value, VoteKey(slug, rawName)) !in s.votes
    ensures Valid(VoteTag(s, slug, user, rawName, newId).store)
  {
    var key := VoteKey(slug, rawName);
    var vote := Vote(user.value, key);
    var r := VoteTag(s, slug, user, rawName, newId).store;
    assert Linked(r);
    if key !in s.postTags {
      assert VotesFor(s.votes, key) == {};
    }
    assert CountsMatch(r) by {
      forall k | k in r.postTags
        ensures r.postTags[k].count == |VotesFor(r.votes, k)|
      {
        VotesForAdd(s.votes, vote, k);
      }
    }
    assert WithinBudget(r.votes) by {
      forall u, sl
        ensures |UserVotesOn(r.votes, u, sl)| <= VoteBudget
      {
        UserVotesOnAdd(s.votes, vote, u, sl);
      }
    }
  }

  /** A vote keeps every stored count equal to the ballots behind it, and
      keeps every user within the budget on every post. */
  lemma VoteTagValid(s: Store, slug: Slug, user: Option<UserId>, rawName: string, newId: Id)
    requires Valid(s)
    requires FreshPostTagId(s, newId)
    ensures Valid(VoteTag(s, slug, user, rawName, newId).store)
  {
    if Admitted(s, slug, user, rawName) {
      if Vote(user.value, VoteKey(slug, rawName)) in s.votes {
        RevoteIsNoOp(s, slug, user, rawName, newId);
      } else {
        NewBallotValid(s, slug, user, rawName, newId);
      }
    }
  }

  /** One entry of the `getPostTags` listing. */
  datatype TagView = TagView(id: Id, name: string, count: nat, hasVoted: bool)

  /** `orderBy: { count: 'desc' }`. */
  predicate CountNoLess(a: TagView, b: TagView) {
    a.count >= b.count
  }

  lemma CountOrderIsTotal()
    ensures TotalPreorder(CountNoLess)
  {
  }

  /** How post tag `key` is shown to `user`. */
  function ViewOf(s: Store, key: PostTagKey, user: Option<UserId>): TagView
    requires key in s.postTags
  {
    TagView(s.postTags[key].id, key.tagName, s.postTags[key].count,
            SignedIn(user) && Vote(user.value, key) in s.votes)
  }

  /** `r` shows each tag of `slug` exactly once, with its stored count and
      whether `user` has a ballot on it. */
  ghost predicate ListsPostTags(s: Store, slug: Slug, user: Option<UserId>, r: seq<TagView>) {
    && (forall i | 0 <= i < |r| ::
          PostTagKey(slug, r[i].name) in s.postTags && r[i] == ViewOf(s, PostTagKey(slug, r[i].name), user))
    && (forall k | k in s.postTags && k.slug == slug :: exists i | 0 <= i < |r| :: r[i].name == k.tagName)
    && Distinct(r)
  }

  /** The post tags of `slug`, in no particular order. */
  method CollectPostTags(s: Store, slug: Slug, user: Option<UserId>) returns (found: seq<TagView>)
    ensures ListsPostTags(s, slug, user, found)
  {
    var rest := s.postTags.Keys;
    found := [];
    while rest != {}
      invariant rest <= s.postTags.Keys
      invariant forall i | 0 <= i < |found| ::
        && PostTagKey(slug, found[i].name) in s.postTags
        && PostTagKey(slug, found[i].name) !in rest
        && found[i] == ViewOf(s, PostTagKey(slug, found[i].name), user)
      invariant forall k | k in s.postTags && k !in rest && k.slug == slug ::
        exists i | 0 <= i < |found| :: found[i].name == k.tagName
      invariant Distinct(found)
      decreases rest
    {
      var key :| key in rest;
      if key.slug == slug {
        var before := found;
        found := found + [ViewOf(s, key, user)];
        forall other | other in s.postTags && other !in rest - {key} && other.slug == slug
          ensures exists i | 0 <= i < |found| :: found[i].name == other.tagName
        {
          if other == key {
            assert found[|before|].name == other.tagName;
          } else {
            var i :| 0 <= i < |before| && before[i].name == other.tagName;
            assert found[i].name == other.tagName;
          }
        }
      }
      rest := rest - {key};
    }
  }

  lemma TagListingPermutation(s: Store, slug: Slug, user: Option<UserId>, xs: seq<TagView>, ys: seq<TagView>)
    requires ListsPostTags(s, slug, user, xs)
    requires multiset(xs) == multiset(ys)
    ensures ListsPostTags(s, slug, user, ys)
  {
    DistinctPermutation(xs, ys);
    forall i | 0 <= i < |ys|
      ensures PostTagKey(slug, ys[i].name) in s.postTags
      ensures ys[i] == ViewOf(s, PostTagKey(slug, ys[i].name), user)
    {
      assert ys[i] in multiset(xs);
    }
    forall k | k in s.postTags && k.slug == slug
      ensures exists i | 0 <= i < |ys| :: ys[i].name == k.tagName
    {
      var j :| 0 <= j < |xs| && xs[j].name == k.tagName;
      assert xs[j] in multiset(ys);
      var i :| 0 <= i < |ys| && ys[i] == xs[j];
    }
  }

  /** `getPostTags(slug)` for `user`: the post's tags, most votes first. */
  method GetPostTags(s: Store, slug: Slug, user: Option<UserId>) returns (r: seq<TagView>)
    ensures ListsPostTags(s, slug, user, r)
    ensures SortedBy(r, CountNoLess)
  {
    var found := CollectPostTags(s, slug, user);
    CountOrderIsTotal();
    r := Sort(found, CountNoLess);
    TagListingPermutation(s, slug, user, found, r);
  }
}
