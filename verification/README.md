# Engagement subsystem of c76gn_blog, in Dafny

This project models the social engagement part of the blog: the server actions behind a post page, the cron endpoint that cleans up view records, and the client components that call them. Those server actions are view counting with per-IP deduplication, the like toggle, comments with an optional parent (the parent is only checked to exist; nesting depth is not limited), and tag voting with a budget of two ballots per user per post. The client components are the view/like widget, the tag widget with its optimistic update and rollback, the comment box, and the post index's search and sort.

The relational store is one immutable `Store.Store` value. Each action is a pure function from a store to a `Store.Step`, which is the store the action leaves plus its outcome: `Done`, or `Failed` with `Unauthorized`, `NotFound` or `BudgetExceeded`. The error path keeps whatever writes the code performs before it throws. Inputs that come from outside the action become parameters:
- the session user (`Option<UserId>`; an empty id counts as signed out, as it is falsy in the source);
- the `x-forwarded-for` header;
- the current time in milliseconds;
- the cron secret;
- the ids the database or `Math.random` would generate.

Client components are state records with one function per event handler. A handler that awaits a server action takes that action's outcome as an argument.

Modules, one file each:

- `Wrappers` (`wrappers.dfy`): `Option`.
- `Text` (`text.dfy`): JavaScript `trim`, `slice(0, n)`, `split(sep)[0]`, ASCII `toLowerCase`, and `includes`.
- `Sorting` (`sorting.dfy`): `Array.prototype.filter`, and a stable insertion sort over any total preorder. The sort stands for `Array.prototype.sort` and Prisma's `orderBy`. Its sum lemmas are used by the tag widget.
- `Store` (`store.dfy`): the tables, the `postStat` upsert, and the store invariant `Valid`. `Valid` requires three things. Foreign keys resolve. Each post tag's count equals its ballots. No user holds more than two ballots on one post.
- `ViewCounter` (`views.dfy`): `incrementView`.
- `LikeToggle` (`likes.dfy`): `getPostStats` and `toggleLike`.
- `CommentThread` (`comments.dfy`): `postComment` and `getComments`.
- `TagVote` (`tags.dfy`): `voteTag` and `getPostTags`.
- `Cleanup` (`cleanup.dfy`): `GET /api/cron/cleanup`.
- `Interactions` (`interactions.dfy`): the view/like widget.
- `TagSystem` (`tag_system.dfy`): the tag widget.
- `CommentSection` (`comment_section.dfy`): the comment box.
- `PostList` (`post_list.dfy`): the post index's search and sort.

## Model

| member | source | states |
|---|---|---|
| Text.Trim | src/app/actions.ts:195 | `trim()` keeps a stretch of the input that has only white space around it, and the result neither starts nor ends with white space |
| Text.Take | src/app/actions.ts:195 | `slice(0, n)` is the input's prefix of length `n`, or the whole input when it is shorter |
| Text.Lower | src/components/PostList.tsx:26-29 | `toLowerCase()` turns each upper-case ASCII letter into its own lower-case letter and keeps every other character |
| Text.Contains | src/components/PostList.tsx:30 | `includes` holds exactly when the needle starts at some position of the text; an empty needle is always found, and a found needle is no longer than the text |
| Text.FirstField | src/app/actions.ts:12 | `split(",")[0]` is the longest prefix without the separator: it contains no separator, and it ends where the input ends or at a separator |
| Text.BlankIffAllWhite | src/app/actions.ts:125 | `!s.trim()` holds exactly when every character of `s` is JavaScript whitespace |
| Sorting.Sort | src/app/actions.ts:161 | the ordering used for every `orderBy` and `sort`: the result is sorted by the given total preorder and is a permutation of the input |
| Sorting.Filter | src/components/PostList.tsx:27-31 | `filter` keeps each element that passes as often as it occurs, drops every other, and keeps the input's order (the result is a subsequence) |
| Sorting.InsertStable | src/components/PostList.tsx:35-49 | inserting an element keeps the relative order of the elements that tie with any given one, the inserted one going first |
| Sorting.SortStable | src/components/PostList.tsx:35-49 | the sort is stable: the elements that tie with any given one keep their original relative order |
| Sorting.SumSort | src/components/TagSystem.tsx:26 | any per-element tally, such as the number of voted tags, is unchanged by sorting |
| Sorting.DistinctPermutation | src/app/actions.ts:172-186 | reordering a list of distinct entries keeps each entry exactly once, so a sorted listing still shows each row once |
| Store.EnsurePostStat | src/app/actions.ts:88-92 | the `postStat` upsert adds the slug if missing and changes no view count or other table |
| Store.EnsurePostStatValid | src/app/actions.ts:128-132 | the upsert preserves the store invariant |
| ViewCounter.ClientIp | src/app/actions.ts:11-12 | a missing or empty header gives `"unknown"`; otherwise the IP is the header's text before the first comma |
| ViewCounter.IncrementView | src/app/actions.ts:14-45 | a view from an IP already seen on the slug since `now - 24h` changes nothing; otherwise exactly one record is added and the slug's count rises by one, while other slugs' counts and the other tables stay unchanged |
| ViewCounter.DedupWithinWindow | src/app/actions.ts:14-30 | two views from one IP at most a day apart (the window is inclusive, `gte`) raise the count by at most one; once the first is counted, the second is a no-op |
| ViewCounter.IncrementViewKeepsSpaced | src/app/actions.ts:18-45 | the view records of one slug and IP stay more than a day apart from each other |
| ViewCounter.IncrementViewValid | src/app/actions.ts:33-45 | `incrementView` preserves the store invariant |
| LikeToggle.GetPostStats | src/app/actions.ts:50-80 | the reported views are the stored count (0 for an unknown post); likes are the number of like rows of a known post (0 otherwise); `hasLiked` holds exactly when the signed-in user has a like row |
| LikeToggle.StatsCountLikeRows | src/app/actions.ts:53-77 | when foreign keys resolve, likes always equal the like rows, and `hasLiked` implies at least one like |
| LikeToggle.ToggleLike | src/app/actions.ts:83-116 | signed out: `Unauthorized` with nothing written; otherwise the post row is ensured and the user's like flips, with nothing else changing |
| LikeToggle.ToggleTwiceRestores | src/app/actions.ts:96-116 | toggling twice gives the original likes back; only the post row may have been added |
| LikeToggle.ToggleLikeStats | src/app/actions.ts:83-116 | after a toggle, the post's stats show `hasLiked` flipped, likes up or down by one, and views unchanged |
| LikeToggle.ToggleLikeValid | src/app/actions.ts:83-116 | `toggleLike` preserves the store invariant |
| CommentThread.ParentRef | src/app/actions.ts:135-145 | a present, non-empty `parentId` is kept; an absent or empty one is stored as no parent |
| CommentThread.PostComment | src/app/actions.ts:122-147 | three guards run in order. Signed out gives `Unauthorized` with nothing written. Blank content gives a silent success with nothing written. A named parent that does not exist gives `NotFound` after the post row is ensured. Otherwise the new comment is stored under the fresh id and every other comment is kept |
| CommentThread.PostCommentAddsOne | src/app/actions.ts:140-147 | a call that writes a comment succeeds and grows the comment table by exactly one |
| CommentThread.PostCommentFailureWrites | src/app/actions.ts:124-138 | a failed call leaves at most the post row behind |
| CommentThread.ReplyAcrossPostsAccepted | src/app/actions.ts:135-138 | a reply whose parent belongs to another post is accepted |
| CommentThread.PostCommentValid | src/app/actions.ts:122-147 | `postComment` preserves the store invariant, including parent existence |
| CommentThread.ListingPermutation | src/app/actions.ts:154-162 | any reordering of a complete listing of a post's comments is again a complete listing |
| CommentThread.GetComments | src/app/actions.ts:153-165 | the result lists each comment of the post exactly once, with its stored data, in ascending `createdAt` order |
| TagVote.NormalizeTagName | src/app/actions.ts:195-197 | the cleaned name is the trimmed name cut to 10 characters, and it is empty exactly when the raw name is blank |
| TagVote.VoteTag | src/app/actions.ts:190-262 | guards run in order: signed out, then a blank name (a silent success), then two or more ballots held (`BudgetExceeded`); each writes nothing. An admitted vote adds the ballot and the tag rows, and the count rises by one exactly when the ballot is new; a post tag created by the vote gets the fresh id, an existing one keeps its id; other post tags are unchanged |
| TagVote.RevoteIsNoOp | src/app/actions.ts:242-251 | an admitted vote for a tag the user already backs leaves the store as it was |
| TagVote.BudgetExhausted | src/app/actions.ts:200-209 | a user backing two tags of a post is refused on every further vote there, a re-vote included |
| TagVote.NewBallotValid | src/app/actions.ts:253-262 | adding a new ballot keeps counts equal to ballots and keeps every user within the budget |
| TagVote.VoteTagValid | src/app/actions.ts:190-262 | `voteTag` preserves the store invariant |
| TagVote.TagListingPermutation | src/app/actions.ts:172-186 | any reordering of a complete tag listing is again a complete tag listing |
| TagVote.GetPostTags | src/app/actions.ts:168-187 | the result lists each tag of the post exactly once, with its count and whether the user voted, highest count first |
| Cleanup.Authorized | src/app/api/cron/cleanup/route.ts:6-9 | the key check is JavaScript strict equality of the `key` query parameter (`null` when absent) and the secret (`undefined` when unset): an unset secret refuses every request, and an accepted key equals the secret |
| Cleanup.Sweep | src/app/api/cron/cleanup/route.ts:6-27 | a wrong or missing key, or an unset secret, gives 401 with nothing deleted; otherwise exactly the records older than a day are deleted, `deletedCount` is the number removed, and nothing else changes |
| Cleanup.SweepKeepsDedup | src/app/api/cron/cleanup/route.ts:14-22 | a sweep never changes what `incrementView` does at the same instant, because it keeps every record the dedup check reads |
| Cleanup.SweepIdempotent | src/app/api/cron/cleanup/route.ts:16-27 | a second sweep at the same instant deletes nothing |
| Cleanup.SweepKeepsSpaced | src/app/api/cron/cleanup/route.ts:16-22 | deleting records keeps one slug and IP's records more than a day apart |
| Cleanup.SweepValid | src/app/api/cron/cleanup/route.ts:16-22 | the sweep preserves the store invariant |
| Interactions.Initial | src/components/Interactions.tsx:8 | the widget starts with no views, no likes and no like of the user's, a state the server could report |
| Interactions.OnFetched | src/components/Interactions.tsx:17-18 | the fetched stats replace the local state wholesale, whatever it held |
| Interactions.FlipLike | src/components/Interactions.tsx:26-30 | the optimistic flip inverts `hasLiked`, moves likes by one in the matching direction, and keeps views |
| Interactions.HandleLike | src/components/Interactions.tsx:24-38 | whatever `toggleLike` answers, the optimistic flip stays: `hasLiked` inverted, likes one down if it was set and one up otherwise, views kept |
| Interactions.AnswerIgnored | src/components/Interactions.tsx:32-37 | success and failure of `toggleLike` leave the widget in the same state |
| Interactions.FlipTwice | src/components/Interactions.tsx:26-30 | flipping twice restores the state |
| Interactions.FlipKeepsPlausible | src/components/Interactions.tsx:26-30 | from a state the server could report, a flip reaches another such state |
| Interactions.FetchedIsPlausible | src/components/Interactions.tsx:17-18 | a fetched state never shows a like by the user with zero likes |
| Interactions.FlipMatchesServer | src/components/Interactions.tsx:24-33 | starting from fetched stats, the optimistic flip shows exactly what the server reports after a successful toggle |
| Interactions.FailedToggleLeavesDrift | src/components/Interactions.tsx:32-37 | when the toggle is refused, the widget shows a like that the store does not hold |
| TagSystem.Initial | src/components/TagSystem.tsx:17-23 | the widget starts with the server's listing both as the shown list and as the rollback snapshot, an empty input and no error |
| TagSystem.VotedCountBounds | src/components/TagSystem.tsx:26 | `userVoteCount` lies between zero and the list's length, and is zero exactly when no entry is marked voted |
| TagSystem.RemainingVotes | src/components/TagSystem.tsx:26-27 | `remainingVotes` is at most two and at least two minus the list's length, and is two exactly when no listed tag is voted |
| TagSystem.FindIndex | src/components/TagSystem.tsx:43 | `findIndex`: the first entry with the name, or -1 when there is none |
| TagSystem.Bumped | src/components/TagSystem.tsx:46-48 | backing a listed tag gives a list sorted by count that is a permutation of the old list with that entry's count raised by one and marked voted |
| TagSystem.Appended | src/components/TagSystem.tsx:50-59 | a new tag gives a list sorted by count that is a permutation of the old list plus the new entry with count 1 |
| TagSystem.HandleVote | src/components/TagSystem.tsx:29-60 | signed out, or no votes left for an unvoted name: an error message and nothing sent. A tag already voted sends nothing. In every other case the vote is sent; a vote is sent only then, and only a sent vote changes the list. A sent vote records the snapshot, clears the error, and makes the list the bumped or appended list |
| TagSystem.SentVoteChangesList | src/components/TagSystem.tsx:42-60 | the optimistic list of a sent vote always differs from the list the vote started from |
| TagSystem.BumpedTally | src/components/TagSystem.tsx:45-48 | backing a listed tag raises the voted count and the sum of counts by one each |
| TagSystem.AppendedTally | src/components/TagSystem.tsx:50-59 | adding a new tag raises the voted count and the sum of counts by one each |
| TagSystem.OptimisticStepTally | src/components/TagSystem.tsx:26-60 | every sent vote uses up exactly one of the remaining votes, as a new ballot does on the server |
| TagSystem.OnVoteSettled | src/components/TagSystem.tsx:62-72 | success only clears the input; failure replaces the list with the snapshot and shows the error |
| TagSystem.VoteRoundAsWritten | src/components/TagSystem.tsx:29-72 | a whole vote as written: success leaves the optimistic list; a sent vote that fails restores the snapshot of the earlier render, not the list the vote started from |
| TagSystem.HandleVoteChecked | src/components/TagSystem.tsx:29-60 | `handleVote` as intended: a blank name changes nothing and is never sent, as the add button's `input.trim()` guard ensures; any other name is looked up and added in the cleaned form `voteTag` stores |
| TagSystem.VoteRound | src/components/TagSystem.tsx:29-72 | a whole vote, corrected: a vote that fails leaves the list it started from, a vote that succeeds leaves the optimistic list, and a blank name changes nothing |
| TagSystem.AsWrittenAgreesWhenCurrent | src/components/TagSystem.tsx:40-68 | when the snapshot is current and the name is non-blank and already in cleaned form, the component as written and the corrected round agree |
| TagSystem.StaleRollbackDropsVote | src/components/TagSystem.tsx:23-66 | the component as written restores the previous render's snapshot, which drops an accepted vote; `VoteRound` does not |
| TagSystem.ShownBallotsMembers | src/components/TagSystem.tsx:26 | the ballots implied by the listing are exactly the voted entries' tags |
| TagSystem.ShownBallotsSize | src/components/TagSystem.tsx:26 | with distinct names, the number of implied ballots is `userVoteCount` |
| TagSystem.RemainingMatchesServer | src/components/TagSystem.tsx:26-27 | fed the server's listing, `remainingVotes` is two minus the ballots the user holds on the post |
| TagSystem.FirstRenderMatchesServer | src/components/TagSystem.tsx:17-27 | the first render built from the server's listing shows the user's remaining votes correctly, and its first vote on a clean name rolls back correctly even as written, because the snapshot is still current |
| TagSystem.BlankNameShowsPhantomVote | src/components/TagSystem.tsx:118-123 | a blank name sent with the Enter key shows one more vote on the client, while `voteTag` writes nothing |
| TagSystem.UntrimmedNameShowsPhantomVote | src/components/TagSystem.tsx:34-46 | the widget as written looks up `"foo "` as typed: a user who backs `"foo"` sends it, and the widget adds an entry and counts one more vote, while `voteTag` accepts the request without a new ballot |
| TagSystem.ListedEntryShowsBallot | src/components/TagSystem.tsx:43-46 | in a list that shows the store, a tag the user backs is found by `findIndex` and is marked voted |
| TagSystem.CheckedVoteIsRecorded | src/app/actions.ts:195-262 | with the corrected handler and a list that shows the store, a sent name is never blank and names a ballot the user does not hold yet. When `voteTag` accepts it, the server adds exactly that ballot and raises the tag's count by one, as the widget adds one voted tag |
| CommentSection.Initial | src/components/CommentSection.tsx:26-28 | the box starts with the server's comments, an empty input and nothing in flight, so the submit button starts disabled |
| CommentSection.SubmitDisabled | src/components/CommentSection.tsx:85 | the submit button is off exactly while a request is in flight or when no user could send the input |
| CommentSection.LocalComment | src/components/CommentSection.tsx:40-48 | the local copy carries the typed text, the user's name or `匿名用户`, and the user's own image exactly when it is present and non-empty, `null` otherwise |
| CommentSection.HandleSubmit | src/components/CommentSection.tsx:30-54 | blank input or no session sends nothing. Otherwise the box is busy and disabled while in flight and never busy afterwards. Success prepends the local copy built from the input and the session user (`LocalComment`), and clears the input; failure keeps the list and the input |
| CommentSection.SentCommentIsStored | src/components/CommentSection.tsx:32-49 | whatever the box sends, `postComment` stores with exactly the text the box prepends |
| PostList.CurrentPosts | src/components/PostList.tsx:18 | the dreams list for the dreams tab, the poems list otherwise |
| PostList.Keep | src/components/PostList.tsx:27-31 | the filter keeps exactly the posts whose display title or slug contains the lower-cased query, each as often as it occurs, as a subsequence of the input (original order) |
| PostList.Search | src/components/PostList.tsx:22-32 | a blank query keeps every post; otherwise only the matching ones are kept |
| PostList.DateCompare | src/components/PostList.tsx:36-42 | the comparator puts a first exactly when a is dated and b is undated or older, and ties exactly when the dates agree (both missing included) |
| PostList.TitleOrderIsTotal | src/components/PostList.tsx:44-47 | comparing lower-cased display titles with a total order is a total preorder on posts |
| PostList.FilteredAndSorted | src/components/PostList.tsx:18-52 | the result is a permutation of the current category's search result. It holds exactly the matching posts and is sorted by date or by title as chosen |
| PostList.DateOrderShape | src/components/PostList.tsx:36-42 | in date order, dated posts come before undated ones, newest first |

## Left out

- The database engine is an immutable value. Prisma, connection errors, and the 500 response of the cron endpoint are not modelled. Nor are transactions and concurrent requests. Each action runs alone and applies in full, except for the writes the code makes before it throws.
- Sessions, request headers, `revalidatePath`, `NextResponse` and `process.env` become parameters or are dropped.
- `getComments` joins the author's name and image. The model lists the stored comment rows only.
- Tag rows are identified by name, and post tags by (post, tag name). The source's generated tag ids carry no further meaning, because names are unique.
- `Math.random` ids and database ids are parameters. They are assumed to be fresh where the database would guarantee it.
- A character is one Unicode scalar value, while JavaScript counts UTF-16 code units. So for names with characters outside the Basic Multilingual Plane, `slice(0, 10)` keeps a different prefix, and a cut through a surrogate pair is not modelled. `toLowerCase` folds ASCII letters only.
- `new Date(…).getTime()` is taken as already parsed into an integer. A date that fails to parse, giving `NaN`, is not modelled.
- `localeCompare(…, 'zh-CN')` is an arbitrary total order on strings, passed as a parameter.
- React rendering, `isLoading`, the `setTimeout` that clears the tag error, and the tag input's `maxLength` are not modelled.
- Post loading from MDX files is not part of this model.
- The view widget's `incrementView` call on mount is not modelled as a client step. It is `ViewCounter.IncrementView` on the server.
- CommentSection.HandleSubmit: the error `postComment` throws is not modelled beyond restoring the busy flag, because the component does not catch it.
- Known gaps in the code, modelled as written:
  - `postComment` checks only that a parent exists, not that it belongs to the same post (`CommentThread.ReplyAcrossPostsAccepted`).
  - `incrementView` does not catch store errors.
  - `toggleLike`, `postComment` and `voteTag` are not one transaction each: a `NotFound` reply still leaves the post row behind.
  - The like widget has no rollback.
  - The comment box prepends a new comment, while `getComments` lists oldest first.

## Findings

| source | as written | input that shows it | evidently intended | confidence | as-written member | corrected member |
|---|---|---|---|---|---|---|
| src/components/TagSystem.tsx:118-123 | the Enter key calls `handleVote(input)` without the `input.trim()` check the add button has | signed in with votes left, press Enter on an empty box: the list gains an entry `""` with count 1 and one vote is used up, while `voteTag` returns without writing | vote only for a non-blank name, as the add button does | not executed | TagSystem.BlankNameShowsPhantomVote | TagSystem.CheckedVoteIsRecorded |
| src/components/TagSystem.tsx:34-46 | `handleVote` looks the name up as typed, while `voteTag` stores it trimmed and cut to 10 characters | holding a ballot on "foo" with one vote left, type "foo " and click the add button: the widget adds an entry "foo " and uses up a vote, while `voteTag` finds the existing ballot and writes nothing | look the name up in the cleaned form the server stores | not executed | TagSystem.UntrimmedNameShowsPhantomVote | TagSystem.CheckedVoteIsRecorded |
| src/components/TagSystem.tsx:40-66 | the failure handler restores `previousTags` as captured by the render the click happened in, which is the list from before the previous vote | vote "a" successfully from an empty list, then a vote on "b" fails: the list becomes empty, dropping the accepted "a" | restore the list held when this vote was cast | not executed | TagSystem.StaleRollbackDropsVote | TagSystem.VoteRound |
