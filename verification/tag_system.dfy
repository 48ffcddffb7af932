/**
 * The tag widget's client state and its optimistic vote. The widget
 * derives the user's remaining votes from its own list, updates the list
 * before `voteTag` answers, and on failure puts back a snapshot wholesale.
 * The snapshot is an explicit argument here: which list the component
 * actually restores depends on the render its callback was created in.
 */
module TagSystem {
  import opened Wrappers
  import opened Store
  import opened Sorting
  import opened TagVote
  import opened Text

  /** The message the widget shows under the list. */
  datatype UiError = NoError | SignInRequired | BudgetReached | VoteFailed(error: Error)

  datatype TagUi = TagUi(tags: seq<TagView>, previous: seq<TagView>, input: string, error: UiError)

  /** The first state, built from the server's listing: both the shown list
      and the rollback snapshot start as that listing. */
  function Initial(initialTags: seq<TagView>): (r: TagUi)
    ensures r.tags == initialTags && r.previous == initialTags
    ensures r.input == "" && r.error == NoError
  {
    TagUi(initialTags, initialTags, "", NoError)
  }

  function VoteWeight(t: TagView): int {
    if t.hasVoted then 1 else 0
  }

  function CountWeight(t: TagView): int {
    t.count
  }

  /** `tags.filter(t => t.hasVoted).length`. */
  function VotedCount(tags: seq<TagView>): int {
    Sum(tags, VoteWeight)
  }

  /** The sum of the displayed counts. */
  function CountSum(tags: seq<TagView>): int {
    Sum(tags, CountWeight)
  }

  /** The voted count lies between none and every entry, and is zero
      exactly when no entry is marked voted. */
  lemma {:induction false} VotedCountBounds(tags: seq<TagView>)
    ensures 0 <= VotedCount(tags) <= |tags|
    ensures VotedCount(tags) == 0 <==> forall i | 0 <= i < |tags| :: !tags[i].hasVoted
  {
    if tags != [] {
      VotedCountBounds(tags[1..]);
      assert forall i | 0 <= i < |tags[1..]| :: tags[1..][i] == tags[i + 1];
    }
  }

  /** `2 - userVoteCount`: never more than the budget, and the full budget
      exactly when the user has voted for no listed tag. */
  function RemainingVotes(tags: seq<TagView>): (r: int)
    ensures VoteBudget as int - |tags| <= r <= VoteBudget as int
    ensures r == VoteBudget as int <==> forall i | 0 <= i < |tags| :: !tags[i].hasVoted
  {
    VotedCountBounds(tags);
    VoteBudget as int - VotedCount(tags)
  }

  /** `tags.find(t => t.name === name && t.hasVoted)` finds something. */
  predicate HasVotedFor(tags: seq<TagView>, name: string) {
    exists i | 0 <= i < |tags| :: tags[i].name == name && tags[i].hasVoted
  }

  /** `tags.findIndex(t => t.name === name)`: the first match, or -1. */
  function FindIndex(tags: seq<TagView>, name: string): (r: int)
    ensures -1 <= r < |tags|
    ensures r >= 0 ==> tags[r].name == name && forall j | 0 <= j < r :: tags[j].name != name
    ensures r == -1 ==> forall j | 0 <= j < |tags| :: tags[j].name != name
  {
    if tags == [] then -1
    else if tags[0].name == name then 0
    else
      var k := FindIndex(tags[1..], name);
      if k == -1 then -1 else k + 1
  }

  /** The optimistic list when the user backs listed tag `i`: one more vote
      on it, then `sort((a, b) => b.count - a.count)`. */
  function Bumped(tags: seq<TagView>, i: nat): (r: seq<TagView>)
    requires i < |tags|
    ensures SortedBy(r, CountNoLess)
    ensures multiset(r) == multiset(tags[i := tags[i].(count := tags[i].count + 1, hasVoted := true)])
  {
    CountOrderIsTotal();
    Sort(tags[i := tags[i].(count := tags[i].count + 1, hasVoted := true)], CountNoLess)
  }

  /** The optimistic list when the user proposes a tag the list lacks. */
  function Appended(tags: seq<TagView>, name: string, freshId: Id): (r: seq<TagView>)
    ensures SortedBy(r, CountNoLess)
    ensures multiset(r) == multiset(tags + [TagView(freshId, name, 1, true)])
  {
    CountOrderIsTotal();
    Sort(tags + [TagView(freshId, name, 1, true)], CountNoLess)
  }

  lemma BumpedTally(tags: seq<TagView>, i: nat)
    requires i < |tags| && !tags[i].hasVoted
    ensures VotedCount(Bumped(tags, i)) == VotedCount(tags) + 1
    ensures CountSum(Bumped(tags, i)) == CountSum(tags) + 1
  {
    CountOrderIsTotal();
    var t := tags[i].(count := tags[i].count + 1, hasVoted := true);
    SumSort(tags[i := t], CountNoLess, VoteWeight);
    SumSort(tags[i := t], CountNoLess, CountWeight);
    SumUpdate(tags, i, t, VoteWeight);
    SumUpdate(tags, i, t, CountWeight);
  }

  lemma AppendedTally(tags: seq<TagView>, name: string, freshId: Id)
    ensures VotedCount(Appended(tags, name, freshId)) == VotedCount(tags) + 1
    ensures CountSum(Appended(tags, name, freshId)) == CountSum(tags) + 1
  {
    CountOrderIsTotal();
    var n := TagView(freshId, name, 1, true);
    SumSort(tags + [n], CountNoLess, VoteWeight);
    SumSort(tags + [n], CountNoLess, CountWeight);
    SumAppend(tags, [n], VoteWeight);
    SumAppend(tags, [n], CountWeight);
    assert Sum([n], VoteWeight) == 1 by { assert [n][1..] == []; }
    assert Sum([n], CountWeight) == 1 by { assert [n][1..] == []; }
  }

  /** What `handleVote` leaves, and whether it sent `voteTag`. */
  datatype VoteAttempt = VoteAttempt(ui: TagUi, sent: bool)

  /** `handleVote(tagName)`; `freshId` stands for the random id given to a
      tag the list does not have yet. The name is sent as typed: only the
      server trims and shortens it. */
  function HandleVote(ui: TagUi, signedIn: bool, tagName: string, freshId: Id): (r: VoteAttempt)
    ensures !signedIn ==> r == VoteAttempt(ui.(error := SignInRequired), false)
    ensures signedIn && RemainingVotes(ui.tags) <= 0 && !HasVotedFor(ui.tags, tagName) ==>
      r == VoteAttempt(ui.(error := BudgetReached), false)
    ensures r.ui.tags != ui.tags ==> r.sent
    ensures
      (&& signedIn
       && !(RemainingVotes(ui.tags) <= 0 && !HasVotedFor(ui.tags, tagName))
       && (FindIndex(ui.tags, tagName) < 0 || !ui.tags[FindIndex(ui.tags, tagName)].hasVoted))
      ==> r.sent
    ensures r.sent ==>
      && signedIn
      && r.ui.previous == ui.tags
      && r.ui.error == NoError
      && r.ui.input == ui.input
      && (var i := FindIndex(ui.tags, tagName);
          if i >= 0 then !ui.tags[i].hasVoted && r.ui.tags == Bumped(ui.tags, i)
          else r.ui.tags == Appended(ui.tags, tagName, freshId))
    ensures signedIn && FindIndex(ui.tags, tagName) >= 0 && ui.tags[FindIndex(ui.tags, tagName)].hasVoted ==>
      r == VoteAttempt(ui.(previous := ui.tags, error := NoError), false)
  {
    var i := FindIndex(ui.tags, tagName);
    assert i >= 0 && ui.tags[i].hasVoted ==> HasVotedFor(ui.tags, tagName);
    if !signedIn then
      VoteAttempt(ui.(error := SignInRequired), false)
    else if RemainingVotes(ui.tags) <= 0 && !HasVotedFor(ui.tags, tagName) then
      VoteAttempt(ui.(error := BudgetReached), false)
    else
      var cleared := ui.(previous := ui.tags, error := NoError);
      if i >= 0 then
        if ui.tags[i].hasVoted then VoteAttempt(cleared, false)
        else VoteAttempt(cleared.(tags := Bumped(ui.tags, i)), true)
      else
        VoteAttempt(cleared.(tags := Appended(ui.tags, tagName, freshId)), true)
  }

  /** Every optimistic step that sends a vote adds exactly one to the
      user's voted tags and one to the displayed counts, as an accepted new
      ballot does on the server. */
  lemma {:induction false} OptimisticStepTally(ui: TagUi, signedIn: bool, tagName: string, freshId: Id)
    requires HandleVote(ui, signedIn, tagName, freshId).sent
    ensures VotedCount(HandleVote(ui, signedIn, tagName, freshId).ui.tags) == VotedCount(ui.tags) + 1
    ensures CountSum(HandleVote(ui, signedIn, tagName, freshId).ui.tags) == CountSum(ui.tags) + 1
    ensures RemainingVotes(HandleVote(ui, signedIn, tagName, freshId).ui.tags) == RemainingVotes(ui.tags) - 1
  {
    var i := FindIndex(ui.tags, tagName);
    if i >= 0 {
      BumpedTally(ui.tags, i);
    } else {
      AppendedTally(ui.tags, tagName, freshId);
    }
  }

  /** A sent vote always shows: the optimistic list differs from the one
      the vote started from. */
  lemma SentVoteChangesList(ui: TagUi, signedIn: bool, tagName: string, freshId: Id)
    requires HandleVote(ui, signedIn, tagName, freshId).sent
    ensures HandleVote(ui, signedIn, tagName, freshId).ui.tags != ui.tags
  {
    var i := FindIndex(ui.tags, tagName);
    if i >= 0 {
      var t := ui.tags[i].(count := ui.tags[i].count + 1, hasVoted := true);
      var updated := ui.tags[i := t];
      assert t != ui.tags[i];
      assert multiset(updated) == multiset(ui.tags) - multiset{ui.tags[i]} + multiset{t};
      assert multiset(updated)[t] == multiset(ui.tags)[t] + 1;
      assert multiset(Bumped(ui.tags, i)) != multiset(ui.tags);
    } else {
      assert |multiset(Appended(ui.tags, tagName, freshId))| == |ui.tags| + 1;
    }
  }

  /** How the `voteTag` request settles. On success only the input is
      cleared; on failure the list is replaced by `snapshot`, never merged. */
  function OnVoteSettled(ui: TagUi, answer: Outcome, snapshot: seq<TagView>): (r: TagUi)
    ensures answer.Done? ==> r == ui.(input := "")
    ensures answer.Failed? ==> r.tags == snapshot && r.error == VoteFailed(answer.error)
    ensures answer.Failed? ==> r.input == ui.input && r.previous == ui.previous
  {
    match answer
    case Done => ui.(input := "")
    case Failed(e) => ui.(tags := snapshot, error := VoteFailed(e))
  }

  /** A whole vote as the component is written: the callback's
      `previousTags` is the value of the render the click happened in, so a
      failure restores `ui.previous`, not the list the vote started from. */
  function VoteRoundAsWritten(ui: TagUi, signedIn: bool, tagName: string, freshId: Id,
                              answer: Outcome): (r: TagUi)
    ensures answer.Done? ==> r.tags == HandleVote(ui, signedIn, tagName, freshId).ui.tags
    ensures answer.Failed? && HandleVote(ui, signedIn, tagName, freshId).sent ==> r.tags == ui.previous
    ensures answer.Failed? && !HandleVote(ui, signedIn, tagName, freshId).sent ==> r.tags == ui.tags
  {
    var attempt := HandleVote(ui, signedIn, tagName, freshId);
    if attempt.sent then OnVoteSettled(attempt.ui, answer, ui.previous) else attempt.ui
  }

  /** `handleVote` as evidently intended. It sits behind the guard the add
      button already has (`disabled={!input.trim() || …}`) but the Enter key
      lacks, so a blank name is not voted for at all. It also looks the name
      up in the cleaned form `voteTag` stores (`trim().slice(0, 10)`), so the
      entry the widget bumps or adds is the tag the server's ballot names. */
  function HandleVoteChecked(ui: TagUi, signedIn: bool, tagName: string, freshId: Id): (r: VoteAttempt)
    ensures IsBlank(tagName) ==> r == VoteAttempt(ui, false)
    ensures !IsBlank(tagName) ==> r == HandleVote(ui, signedIn, NormalizeTagName(tagName), freshId)
    ensures r.sent ==> !IsBlank(tagName)
  {
    var name := NormalizeTagName(tagName);
    if name == [] then VoteAttempt(ui, false) else HandleVote(ui, signedIn, name, freshId)
  }

  /** A whole vote, through the blank-name guard, restoring the list the
      vote started from on failure. */
  function VoteRound(ui: TagUi, signedIn: bool, tagName: string, freshId: Id,
                     answer: Outcome): (r: TagUi)
    ensures answer.Failed? ==> r.tags == ui.tags
    ensures answer.Done? ==> r.tags == HandleVoteChecked(ui, signedIn, tagName, freshId).ui.tags
    ensures IsBlank(tagName) ==> r == ui
  {
    var attempt := HandleVoteChecked(ui, signedIn, tagName, freshId);
    if attempt.sent then OnVoteSettled(attempt.ui, answer, ui.tags) else attempt.ui
  }

  /** The two rounds differ only through the stale snapshot and the name
      lookup: with an up-to-date snapshot and a name already in the cleaned
      form the server stores, they agree. */
  lemma AsWrittenAgreesWhenCurrent(ui: TagUi, signedIn: bool, tagName: string, freshId: Id,
                                   answer: Outcome)
    requires ui.previous == ui.tags
    requires !IsBlank(tagName)
    requires NormalizeTagName(tagName) == tagName
    ensures VoteRoundAsWritten(ui, signedIn, tagName, freshId, answer)
         == VoteRound(ui, signedIn, tagName, freshId, answer)
  {
  }

  /** After one successful vote on "a", a failing vote on "b" makes the
      written component drop the accepted "a" vote from the list. */
  lemma StaleRollbackDropsVote()
    ensures var before := TagUi([], [], "", NoError);
            var first := VoteRoundAsWritten(before, true, "a", "t1", Done);
            var second := VoteRoundAsWritten(first, true, "b", "t2", Failed(BudgetExceeded));
            && first.tags == [TagView("t1", "a", 1, true)]
            && second.tags == []
            && VoteRound(first, true, "b", "t2", Failed(BudgetExceeded)).tags == first.tags
  {
  }

  /** The ballots the listing shows the user holding on `slug`. */
  ghost function ShownBallots(r: seq<TagView>, u: UserId, slug: Slug): set<Vote> {
    if r == [] then {}
    else (if r[0].hasVoted then {Vote(u, PostTagKey(slug, r[0].name))} else {}) + ShownBallots(r[1..], u, slug)
  }

  lemma {:induction false} ShownBallotsMembers(r: seq<TagView>, u: UserId, slug: Slug, v: Vote)
    ensures v in ShownBallots(r, u, slug) <==>
            exists i | 0 <= i < |r| :: r[i].hasVoted && v == Vote(u, PostTagKey(slug, r[i].name))
  {
    if r != [] {
      ShownBallotsMembers(r[1..], u, slug, v);
      if v in ShownBallots(r[1..], u, slug) {
        var i :| 0 <= i < |r[1..]| && r[1..][i].hasVoted && v == Vote(u, PostTagKey(slug, r[1..][i].name));
        assert r[i + 1] == r[1..][i];
      }
      if exists i | 0 <= i < |r| :: r[i].hasVoted && v == Vote(u, PostTagKey(slug, r[i].name)) {
        var i :| 0 <= i < |r| && r[i].hasVoted && v == Vote(u, PostTagKey(slug, r[i].name));
        if i > 0 {
          assert r[1..][i - 1] == r[i];
        }
      }
    }
  }

  predicate DistinctNames(r: seq<TagView>) {
    forall i, j | 0 <= i < j < |r| :: r[i].name != r[j].name
  }

  /** With distinct names, each voted entry stands for a ballot of its own. */
  lemma {:induction false} ShownBallotsSize(r: seq<TagView>, u: UserId, slug: Slug)
    requires DistinctNames(r)
    ensures |ShownBallots(r, u, slug)| == VotedCount(r)
  {
    if r != [] {
      assert DistinctNames(r[1..]) by {
        forall i, j | 0 <= i < j < |r[1..]|
          ensures r[1..][i].name != r[1..][j].name
        {
          assert r[1..][i] == r[i + 1] && r[1..][j] == r[j + 1];
        }
      }
      ShownBallotsSize(r[1..], u, slug);
      var v := Vote(u, PostTagKey(slug, r[0].name));
      ShownBallotsMembers(r[1..], u, slug, v);
      assert v !in ShownBallots(r[1..], u, slug);
    }
  }

  /** Fed the server's listing, the widget's remaining-vote count is the
      server's budget minus the ballots the user holds on the post. */
  lemma RemainingMatchesServer(s: Store, slug: Slug, user: Option<UserId>, r: seq<TagView>)
    requires Linked(s)
    requires SignedIn(user)
    requires ListsPostTags(s, slug, user, r)
    ensures VotedCount(r) == |UserVotesOn(s.votes, user.value, slug)|
    ensures RemainingVotes(r) == VoteBudget - |UserVotesOn(s.votes, user.value, slug)|
  {
    var u := user.value;
    assert DistinctNames(r) by {
      forall i, j | 0 <= i < j < |r|
        ensures r[i].name != r[j].name
      {
        assert r[i] == ViewOf(s, PostTagKey(slug, r[i].name), user);
        assert r[j] == ViewOf(s, PostTagKey(slug, r[j].name), user);
      }
    }
    ShownBallotsSize(r, u, slug);
    forall v
      ensures v in ShownBallots(r, u, slug) <==> v in UserVotesOn(s.votes, u, slug)
    {
      ShownBallotsMembers(r, u, slug, v);
      if v in UserVotesOn(s.votes, u, slug) {
        var k := v.key;
        assert k in s.postTags && k.slug == slug;
        var i :| 0 <= i < |r| && r[i].name == k.tagName;
        assert r[i] == ViewOf(s, PostTagKey(slug, r[i].name), user);
        assert r[i].hasVoted && v == Vote(u, PostTagKey(slug, r[i].name));
      }
    }
    assert ShownBallots(r, u, slug) == UserVotesOn(s.votes, u, slug);
  }

  /** The first render, fed the server's listing, shows the user's remaining
      votes correctly, and its first vote rolls back correctly even as
      written, since its snapshot is still current. */
  lemma FirstRenderMatchesServer(s: Store, slug: Slug, user: Option<UserId>, listing: seq<TagView>,
                                 tagName: string, freshId: Id, answer: Outcome)
    requires Linked(s)
    requires SignedIn(user)
    requires ListsPostTags(s, slug, user, listing)
    ensures RemainingVotes(Initial(listing).tags) == VoteBudget - |UserVotesOn(s.votes, user.value, slug)|
    ensures !IsBlank(tagName) && NormalizeTagName(tagName) == tagName ==>
      VoteRoundAsWritten(Initial(listing), true, tagName, freshId, answer)
      == VoteRound(Initial(listing), true, tagName, freshId, answer)
  {
    RemainingMatchesServer(s, slug, user, listing);
    if !IsBlank(tagName) && NormalizeTagName(tagName) == tagName {
      AsWrittenAgreesWhenCurrent(Initial(listing), true, tagName, freshId, answer);
    }
  }

  /** A blank name sent from the input box with the Enter key: the widget
      as written shows one more voted tag, while the server treats the
      request as a silent no-op. */
  lemma BlankNameShowsPhantomVote(s: Store, slug: Slug, user: Option<UserId>, ui: TagUi,
                                  freshId: Id, newId: Id)
    requires SignedIn(user)
    requires FreshPostTagId(s, newId)
    requires RemainingVotes(ui.tags) > 0
    requires FindIndex(ui.tags, "") < 0
    ensures var server := VoteTag(s, slug, user, "", newId);
            && server == Step(s, Done)
            && HandleVote(ui, true, "", freshId).sent
            && VotedCount(VoteRoundAsWritten(ui, true, "", freshId, server.outcome).tags) == VotedCount(ui.tags) + 1
  {
    OptimisticStepTally(ui, true, "", freshId);
  }

  /** A user who already backs "foo" types "foo " and clicks the add
      button: the widget as written finds no entry "foo ", adds one and uses
      up a vote, while `voteTag` cleans the name to "foo" and writes no new
      ballot. */
  lemma UntrimmedNameShowsPhantomVote(s: Store, slug: Slug, user: Option<UserId>, ui: TagUi,
                                      freshId: Id, newId: Id)
    requires Linked(s)
    requires SignedIn(user)
    requires FreshPostTagId(s, newId)
    requires ListsPostTags(s, slug, user, ui.tags)
    requires Vote(user.value, PostTagKey(slug, "foo")) in s.votes
    requires RemainingVotes(ui.tags) > 0
    requires FindIndex(ui.tags, "foo ") < 0
    ensures var server := VoteTag(s, slug, user, "foo ", newId);
            && server.outcome == Done
            && server.store.votes == s.votes
            && HandleVote(ui, true, "foo ", freshId).sent
            && VotedCount(VoteRoundAsWritten(ui, true, "foo ", freshId, Done).tags) == VotedCount(ui.tags) + 1
  {
    TrailingSpaceCleaned();
    RemainingMatchesServer(s, slug, user, ui.tags);
    OptimisticStepTally(ui, true, "foo ", freshId);
  }

  /** `voteTag` cleans "foo " to "foo". */
  lemma TrailingSpaceCleaned()
    ensures NormalizeTagName("foo ") == "foo"
  {
    assert TrimStart("foo ") == "foo " by {
      assert !IsWhite('f');
    }
    assert TrimEnd("foo ") == "foo" by {
      assert "foo "[..3] == "foo";
      assert TrimEnd("foo ") == TrimEnd("foo");
      assert !IsWhite('o');
    }
    assert Trim("foo ") == "foo";
  }

  /** The listed entry named `name`, when there is one, shows whether the
      user holds a ballot on that tag. */
  lemma ListedEntryShowsBallot(s: Store, slug: Slug, user: Option<UserId>, tags: seq<TagView>, name: string)
    requires Linked(s)
    requires SignedIn(user)
    requires ListsPostTags(s, slug, user, tags)
    requires Vote(user.value, PostTagKey(slug, name)) in s.votes
    ensures FindIndex(tags, name) >= 0 && tags[FindIndex(tags, name)].hasVoted
  {
    var key := PostTagKey(slug, name);
    assert key in s.postTags;
    var i :| 0 <= i < |tags| && tags[i].name == key.tagName;
    var j := FindIndex(tags, name);
    assert tags[j] == ViewOf(s, PostTagKey(slug, tags[j].name), user);
  }

  /** With the corrected handler and a list that shows the store, every vote
      the widget counts is a ballot the server does not hold yet: when
      `voteTag` accepts it, the server adds exactly that ballot and raises
      the tag's count by one, just as the widget adds one voted tag. */
  lemma CheckedVoteIsRecorded(s: Store, slug: Slug, user: Option<UserId>, ui: TagUi,
                              tagName: string, freshId: Id, newId: Id)
    requires Linked(s)
    requires SignedIn(user)
    requires FreshPostTagId(s, newId)
    requires ListsPostTags(s, slug, user, ui.tags)
    requires HandleVoteChecked(ui, true, tagName, freshId).sent
    ensures !IsBlank(tagName)
    ensures Vote(user.value, VoteKey(slug, tagName)) !in s.votes
    ensures var server := VoteTag(s, slug, user, tagName, newId);
            var key := VoteKey(slug, tagName);
            server.outcome == Done ==>
              && server.store.votes == s.votes + {Vote(user.value, key)}
              && CountOf(server.store, key) == CountOf(s, key) + 1
    ensures VotedCount(VoteRound(ui, true, tagName, freshId, Done).tags) == VotedCount(ui.tags) + 1
  {
    var name := NormalizeTagName(tagName);
    if Vote(user.value, VoteKey(slug, tagName)) in s.votes {
      ListedEntryShowsBallot(s, slug, user, ui.tags, name);
      assert false;
    }
    OptimisticStepTally(ui, true, name, freshId);
  }
}
