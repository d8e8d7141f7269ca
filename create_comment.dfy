/** The comment use case (use_cases/commands/create_comment.py): build the
    comment entity, then create it through the comment repository, turning
    repository exceptions into use-case exceptions with the same message. */
module CreateComment {
  import opened Common
  import opened Entities
  import opened Tables
  import opened Signals
  import opened Database
  import CommentRepository

  /** The `except` clauses around `create_comment`. InvalidOperation has no
      clause and escapes unchanged, as does anything else. */
  function TranslateError(e: Error): (r: Error)
    ensures r.message == e.message
    ensures e.EntityDoesNotExist? ==> r.NotFound?
    ensures e.EntityOperationFailed? ==> r.ServiceUnavailable?
    ensures e.InvalidEntityInput? ==> r.InvalidObject?
    ensures e.InvalidOperation? ==> r == e && !IsUseCaseError(r)
    ensures IsUseCaseError(r) <==>
      IsUseCaseError(e) || e.EntityDoesNotExist? || e.EntityOperationFailed? || e.InvalidEntityInput?
    ensures !IsUseCaseError(r) ==> r == e
  {
    match e
    case EntityDoesNotExist(m) => NotFound(m)
    case EntityOperationFailed(m) => ServiceUnavailable(m)
    case InvalidEntityInput(m) => InvalidObject(m)
    case _ => e
  }

  /** The comment `execute` builds: no id, the given author, content and
      parents, everything else at its default. */
  function CommentFields(authorId: nat, content: string, parentPostId: nat, parentCommentId: Option<nat>): ContentItem {
    ContentItem(None, authorId, content, None, None, None, 0, 0, 0, false, false, None, NoTag,
                CommentItem(parentPostId, parentCommentId))
  }

  /** `CreateComment.execute`: a rejected comment raises InvalidObject with
      the validator's message and the repository is not called. Otherwise
      the repository creates the comment, and whatever it raises reaches
      the caller as a use-case exception. */
  method Execute(db: Db, authorId: nat, content: string, parentPostId: nat, parentCommentId: Option<nat>, now: int)
    returns (r: Result<ContentItem>)
    requires db.Valid()
    modifies db, db.buffer
    ensures db.Valid()
    ensures r.Err? ==> IsUseCaseError(r.error)
    ensures |content| == 0 ==> r == Err(InvalidObject(EmptyContent)) && unchanged(db, db.buffer)
    ensures |content| > 255 ==> r == Err(InvalidObject(LongContent)) && unchanged(db, db.buffer)
    ensures db.likes == old(db.likes) && db.users == old(db.users)
    ensures ValidContent(content) && parentPostId != 0 && RowKey(Post, parentPostId) !in old(db.rows) ==>
      r == Err(NotFound(CommentRepository.ParentPostMissing)) && unchanged(db, db.buffer)
    ensures ValidContent(content) && (parentPostId == 0 || RowKey(Post, parentPostId) in old(db.rows)) &&
            Truthy(parentCommentId) && RowKey(Comment, parentCommentId.value) !in old(db.rows) ==>
      r == Err(NotFound(CommentRepository.ParentCommentMissing)) && unchanged(db, db.buffer)
    ensures ValidContent(content) && (parentPostId == 0 || RowKey(Post, parentPostId) in old(db.rows)) &&
            (!Truthy(parentCommentId) || RowKey(Comment, parentCommentId.value) in old(db.rows)) &&
            !ForeignKeysHold(old(db.rows), old(db.users),
                             CommentRepository.NewCommentRow(CommentFields(authorId, content, parentPostId, parentCommentId), now)) ==>
      r == Err(ServiceUnavailable(CommentRepository.ColumnError)) && db.rows == old(db.rows) && unchanged(db.buffer) &&
      db.nextId == old(db.nextId) + 1
    ensures r.Ok? ==>
      r.value.id == Some(old(db.nextId)) && r.value.authorId == authorId && r.value.content == content &&
      r.value.kind == CommentItem(parentPostId, parentCommentId) &&
      RowKey(Comment, old(db.nextId)) in db.rows
    ensures r.Ok? ==>
      var c := CommentFields(authorId, content, parentPostId, parentCommentId);
      var row := CommentRepository.NewCommentRow(c, now);
      db.nextId == old(db.nextId) + 1 &&
      db.rows == old(db.rows)[RowKey(Comment, old(db.nextId)) := row] &&
      db.buffer.hashes == SaveEffect(old(db.buffer.hashes), Comment, row) &&
      db.buffer.Flags() == AfterHook(old(db.buffer.Flags()), Comment)
  {
    var c := NewContentItem(CommentFields(authorId, content, parentPostId, parentCommentId), now);
    if c.Err? {
      return Err(InvalidObject(c.error.message));
    }
    var fields := CommentFields(authorId, content, parentPostId, parentCommentId);
    assert c.value.authorId == authorId && c.value.content == content;
    assert c.value.kind == CommentItem(parentPostId, parentCommentId);
    assert CommentRepository.NewCommentRow(c.value, now) == CommentRepository.NewCommentRow(fields, now);
    var created := CommentRepository.CreateComment(db, c.value, now);
    if created.Err? {
      return Err(TranslateError(created.error));
    }
    r := created;
  }
}
