/**
 * The relational store behind the engagement actions, as one immutable
 * record. Each table is a set or a map keyed by its unique key:
 * `PostStat` by slug, `Like` by (user, slug), `Comment` by id, `Tag` by name,
 * `PostTag` by (slug, tag) and `UserTagVote` by (user, post tag).
 * A `Tag` row is identified by its unique name here, so a `PostTag` is keyed
 * by (slug, tag name) and a vote refers to its post tag through that key.
 */
module Store {
  import opened Wrappers

  type Slug = string
  type UserId = string
  type Id = string

  /** At most this many tags per user per post (the budget `voteTag` enforces). */
  const VoteBudget: nat := 2

  /** `session?.user?.id` is truthy: absent and empty ids are both anonymous. */
  predicate SignedIn(user: Option<UserId>) {
    user.Some? && user.value != ""
  }

  /** One `postView` row: a counted view of `slug` from address `ip`. */
  datatype ViewRecord = ViewRecord(slug: Slug, ip: string, viewedAt: int)

  datatype Like = Like(userId: UserId, slug: Slug)

  datatype Comment = Comment(content: string, userId: UserId, slug: Slug, parentId: Option<Id>, createdAt: int)

  datatype PostTagKey = PostTagKey(slug: Slug, tagName: string)

  /** The non-key columns of a `PostTag` row. */
  datatype PostTag = PostTag(id: Id, count: nat)

  /** One `UserTagVote` row. */
  datatype Vote = Vote(userId: UserId, key: PostTagKey)

  datatype Store = Store(
    postStats: map<Slug, nat>,     // slug -> views
    viewRecords: set<ViewRecord>,
    likes: set<Like>,
    comments: map<Id, Comment>,
    tags: set<string>,
    postTags: map<PostTagKey, PostTag>,
    votes: set<Vote>)

  const Empty: Store := Store(map[], {}, {}, map[], {}, map[], {})

  /** The conditions an action raises with `throw`. */
  datatype Error = Unauthorized | NotFound | BudgetExceeded

  datatype Outcome = Done | Failed(error: Error)

  /** What an action leaves behind: the store after its writes, and how it ended. */
  datatype Step = Step(store: Store, outcome: Outcome)

  /** The view counter of `slug`; a post with no `PostStat` row reads as 0. */
  function ViewsOf(s: Store, slug: Slug): nat {
    if slug in s.postStats then s.postStats[slug] else 0
  }

  /** `postStat.upsert({ create: { slug }, update: {} })`. */
  function EnsurePostStat(s: Store, slug: Slug): (r: Store)
    ensures r.postStats.Keys == s.postStats.Keys + {slug}
    ensures forall sl :: ViewsOf(r, sl) == ViewsOf(s, sl)
    ensures r == s.(postStats := r.postStats)
  {
    if slug in s.postStats then s else s.(postStats := s.postStats[slug := 0])
  }

  function LikesOf(likes: set<Like>, slug: Slug): set<Like> {
    set l | l in likes && l.slug == slug
  }

  /** The ballots backing one post tag. */
  function VotesFor(votes: set<Vote>, key: PostTagKey): set<Vote> {
    set v | v in votes && v.key == key
  }

  /** The ballots user `u` holds on the tags of post `slug`. */
  function UserVotesOn(votes: set<Vote>, u: UserId, slug: Slug): set<Vote> {
    set v | v in votes && v.userId == u && v.key.slug == slug
  }

  /** Every row's foreign keys point at existing rows. */
  ghost predicate Linked(s: Store) {
    && (forall l | l in s.likes :: l.slug in s.postStats)
    && (forall id | id in s.comments :: s.comments[id].slug in s.postStats)
    && (forall id | id in s.comments && s.comments[id].parentId.Some? ::
          s.comments[id].parentId.value in s.comments)
    && (forall k | k in s.postTags :: k.slug in s.postStats && k.tagName in s.tags)
    && (forall v | v in s.votes :: v.key in s.postTags)
  }

  /** Each post tag's stored count is the number of ballots behind it. */
  ghost predicate CountsMatch(s: Store) {
    forall k | k in s.postTags :: s.postTags[k].count == |VotesFor(s.votes, k)|
  }

  /** No user holds more than the budget of ballots on one post. */
  ghost predicate WithinBudget(votes: set<Vote>) {
    forall u, slug :: |UserVotesOn(votes, u, slug)| <= VoteBudget
  }

  ghost predicate Valid(s: Store) {
    Linked(s) && CountsMatch(s) && WithinBudget(s.votes)
  }

  lemma EmptyValid()
    ensures Valid(Empty)
  {
    forall u, slug
      ensures |UserVotesOn(Empty.votes, u, slug)| <= VoteBudget
    {
      assert UserVotesOn(Empty.votes, u, slug) == {};
    }
  }

  /** `EnsurePostStat` only adds a row that nothing points at yet. */
  lemma EnsurePostStatValid(s: Store, slug: Slug)
    requires Valid(s)
    ensures Valid(EnsurePostStat(s, slug))
  {
  }
}
