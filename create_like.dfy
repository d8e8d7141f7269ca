/** The like use case (use_cases/commands/create_like.py): build the like
    entity, then create it through the like repository, turning repository
    exceptions into use-case exceptions with the same message. */
module CreateLike {
  import opened Common
  import opened Entities
  import opened Tables
  import opened Database
  import ContentBaseRepository
  import LikeRepository

  /** The `except` clauses around `create_like`: each repository exception
      becomes a use-case exception carrying its message; anything else
      escapes unchanged. */
  function TranslateError(e: Error): (r: Error)
    ensures r.message == e.message
    ensures e.EntityDoesNotExist? ==> r.NotFound?
    ensures e.EntityAlreadyExists? ==> r.AlreadyExist?
    ensures e.EntityOperationFailed? ==> r.ServiceUnavailable?
    ensures e.InvalidEntityInput? || e.InvalidOperation? ==> r.InvalidObject?
    ensures IsUseCaseError(r) <==>
      IsUseCaseError(e) || e.EntityDoesNotExist? || e.EntityAlreadyExists? || e.EntityOperationFailed? ||
      e.InvalidEntityInput? || e.InvalidOperation?
    ensures !IsUseCaseError(r) ==> r == e
  {
    match e
    case EntityDoesNotExist(m) => NotFound(m)
    case EntityAlreadyExists(m) => AlreadyExist(m)
    case EntityOperationFailed(m) => ServiceUnavailable(m)
    case InvalidEntityInput(m) => InvalidObject(m)
    case InvalidOperation(m) => InvalidObject(m)
    case _ => e
  }

  /** `CreateLike.execute`: a like with no id is built from the arguments;
      a rejected tag raises InvalidObject and the repository is not called.
      Otherwise the repository creates the like, and whatever it raises
      reaches the caller as a use-case exception. */
  method Execute(db: Db, userId: nat, contentItemId: nat, contentType: string, storeFails: bool)
    returns (r: Result<Like>)
    requires db.Valid()
    modifies db
    ensures db.Valid()
    ensures r.Err? ==> IsUseCaseError(r.error)
    ensures ParseTag(contentType).None? ==> r == Err(InvalidObject(BadLikeType)) && unchanged(db)
    ensures ParseTag(contentType).Some? && RowKey(ParseTag(contentType).value, contentItemId) !in old(db.rows) ==>
      r == Err(NotFound(LikeRepository.MissingTargetMessage(contentType))) && unchanged(db)
    ensures db.users == old(db.users)
    ensures ParseTag(contentType).Some? && RowKey(ParseTag(contentType).value, contentItemId) in old(db.rows) &&
            HasLike(old(db.likes), ParseTag(contentType).value, userId, contentItemId) ==>
      r == Err(AlreadyExist(LikeRepository.AlreadyLiked))
    ensures ParseTag(contentType).Some? && RowKey(ParseTag(contentType).value, contentItemId) in old(db.rows) &&
            !HasLike(old(db.likes), ParseTag(contentType).value, userId, contentItemId) && storeFails ==>
      r == Err(InvalidObject(ContentBaseRepository.BadCounterChange))
    ensures ParseTag(contentType).Some? && RowKey(ParseTag(contentType).value, contentItemId) in old(db.rows) &&
            !HasLike(old(db.likes), ParseTag(contentType).value, userId, contentItemId) && !storeFails &&
            userId !in old(db.users) ==>
      r == Err(AlreadyExist(LikeRepository.AlreadyLiked))
    ensures r.Ok? <==>
      ParseTag(contentType).Some? && RowKey(ParseTag(contentType).value, contentItemId) in old(db.rows) &&
      !HasLike(old(db.likes), ParseTag(contentType).value, userId, contentItemId) && userId in old(db.users) &&
      !storeFails
    ensures r.Ok? ==>
      r.value.id == Some(old(db.nextId)) && r.value.userId == userId && r.value.contentItemId == contentItemId &&
      TagText(r.value.contentType) == contentType &&
      HasLike(db.likes, r.value.contentType, userId, contentItemId)
    ensures r.Ok? ==>
      var t := ParseTag(contentType).value;
      db.likes == old(db.likes)[RowKey(t, old(db.nextId)) := LikeRow(userId, contentItemId)] &&
      db.rows == UpdateColumn(old(db.rows), RowKey(t, contentItemId), LikesCount, 1)
    ensures r.Err? ==> db.rows == old(db.rows) && db.likes == old(db.likes)
  {
    var like := NewLike(None, userId, contentItemId, contentType);
    if like.Err? {
      return Err(InvalidObject(like.error.message));
    }
    var created := LikeRepository.CreateLike(db, like.value, storeFails);
    if created.Err? {
      return Err(TranslateError(created.error));
    }
    var k := RowKey(created.value.contentType, created.value.id.value);
    assert k in db.likes && db.likes[k] == LikeRow(userId, contentItemId);
    r := created;
  }
}
