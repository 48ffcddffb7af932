/**
 * The comment box's client state. `handleSubmit` sends nothing for blank
 * input or without a signed-in user; otherwise it marks itself busy, calls
 * `postComment`, prepends a local copy of the comment on success, and
 * clears the busy flag whatever happens.
 */
module CommentSection {
  import opened Wrappers
  import opened Text
  import opened Store
  import CommentThread

  /** `session.user` as the client sees it. */
  datatype SessionUser = SessionUser(name: Option<string>, image: Option<string>)

  /** A comment as the list shows it. */
  datatype ClientComment = ClientComment(id: Id, content: string, createdAt: int,
                                         authorName: string, authorImage: Option<string>)

  datatype CommentUi = CommentUi(comments: seq<ClientComment>, input: string, submitting: bool)

  /** The name shown for a user without one. */
  const AnonymousName: string := "匿名用户"

  /** The first state: the server's comments, an empty box, nothing in
      flight, so the submit button starts disabled. */
  function Initial(initialComments: seq<ClientComment>): (r: CommentUi)
    ensures r.comments == initialComments && r.input == "" && !r.submitting
    ensures SubmitDisabled(r)
  {
    CommentUi(initialComments, "", false)
  }

  /** The guard of `handleSubmit` lets the request through. */
  predicate WillSend(ui: CommentUi, user: Option<SessionUser>) {
    !IsBlank(ui.input) && user.Some?
  }

  /** `disabled={isSubmitting || !input.trim()}`: the button is off while a
      request is in flight, or when no user could send the input. */
  function SubmitDisabled(ui: CommentUi): (d: bool)
    ensures d <==> ui.submitting || forall u: Option<SessionUser> :: !WillSend(ui, u)
  {
    assert WillSend(ui, Some(SessionUser(None, None))) <==> !IsBlank(ui.input);
    ui.submitting || IsBlank(ui.input)
  }

  /** The local copy prepended after a successful post. */
  function LocalComment(content: string, user: SessionUser, freshId: Id, now: int): (c: ClientComment)
    ensures c.content == content && c.createdAt == now
    ensures c.authorName == if user.name.Some? && user.name.value != "" then user.name.value else AnonymousName
    ensures c.authorImage.Some? <==> user.image.Some? && user.image.value != ""
    ensures c.authorImage.Some? ==> c.authorImage == user.image
  {
    var name := if user.name.Some? && user.name.value != "" then user.name.value else AnonymousName;
    var image := if user.image.Some? && user.image.value != "" then user.image else None;
    ClientComment(freshId, content, now, name, image)
  }

  /** One submission: whether it was sent, the state while the request is
      in flight, and the state once it has settled. */
  datatype SubmitRun = SubmitRun(sent: bool, during: CommentUi, after: CommentUi)

  /** `handleSubmit`, with `answer` for how `postComment` settled. */
  function HandleSubmit(ui: CommentUi, user: Option<SessionUser>, answer: Outcome,
                        freshId: Id, now: int): (r: SubmitRun)
    ensures !WillSend(ui, user) ==> r == SubmitRun(false, ui, ui)
    ensures WillSend(ui, user) ==>
      && r.sent
      && r.during == ui.(submitting := true)
      && SubmitDisabled(r.during)
      && !r.after.submitting
    ensures WillSend(ui, user) && answer.Done? ==>
      && |r.after.comments| == |ui.comments| + 1
      && r.after.comments[0].content == ui.input
      && r.after.comments[0] == LocalComment(ui.input, user.value, freshId, now)
      && r.after.comments[1..] == ui.comments
      && r.after.input == ""
    ensures WillSend(ui, user) && answer.Failed? ==>
      r.after.comments == ui.comments && r.after.input == ui.input
  {
    if !WillSend(ui, user) then
      SubmitRun(false, ui, ui)
    else
      var during := ui.(submitting := true);
      match answer
      case Done =>
        var c := LocalComment(ui.input, user.value, freshId, now);
        SubmitRun(true, during, CommentUi([c] + ui.comments, "", false))
      case Failed(_) =>
        SubmitRun(true, during, ui.(submitting := false))
  }

  /** Whatever the client sends is never the server's silent blank no-op:
      with a signed-in user and no parent, `postComment` stores a comment
      with exactly the text the client prepends. */
  lemma SentCommentIsStored(s: Store, slug: Slug, ui: CommentUi, session: Option<SessionUser>,
                            userId: Option<UserId>, newId: Id, freshId: Id, now: int)
    requires newId !in s.comments
    requires WillSend(ui, session)
    requires SignedIn(userId)
    ensures var server := CommentThread.PostComment(s, slug, userId, ui.input, None, newId, now);
            var client := HandleSubmit(ui, session, server.outcome, freshId, now);
            && server.outcome == Done
            && server.store.comments[newId].content == client.after.comments[0].content
            && server.store.comments[newId].parentId == None
  {
  }
}
