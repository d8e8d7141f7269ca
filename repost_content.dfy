/** The repost use case (use_cases/commands/repost_content.py): build the
    repost entity for the target's type from filtered keyword arguments,
    create it through the post or comment repository, and fetch the
    original, all in one transaction. */
module RepostContent {
  import opened Common
  import opened Entities
  import opened Tables
  import opened Signals
  import opened Database
  import opened ContentBaseRepository
  import opened PostRepository
  import opened CommentRepository

  const CommentTargetNeedsPost := "轉發為留言時，必須指定 target_post_id"
  const MissingArgument := "missing a required argument"

  /** Where a repost goes: a post, or a comment under a post (and maybe
      under a comment). `targetType` is any string at run time. */
  datatype RepostTarget = RepostTarget(targetType: string, targetPostId: Option<nat>, targetCommentId: Option<nat>)

  /** What `RepostTarget.__post_init__` lets through. */
  predicate TargetChecked(t: RepostTarget) {
    t.targetType == "comment" ==> t.targetPostId.Some?
  }

  /** `RepostTarget(...)`: a comment target without a post id raises
      ValueError. */
  function NewRepostTarget(targetType: string, targetPostId: Option<nat>, targetCommentId: Option<nat>)
    : (r: Result<RepostTarget>)
    ensures r.Ok? <==> !(targetType == "comment" && targetPostId.None?)
    ensures r.Ok? ==> r.value == RepostTarget(targetType, targetPostId, targetCommentId) && TargetChecked(r.value)
    ensures r.Err? ==> r.error == ValueError(CommentTargetNeedsPost)
  {
    if targetType == "comment" && targetPostId.None? then Err(ValueError(CommentTargetNeedsPost))
    else Ok(RepostTarget(targetType, targetPostId, targetCommentId))
  }

  /** A keyword argument value. */
  datatype Arg = IntArg(n: nat) | TextArg(s: string) | TargetArg(target: RepostTarget)

  type Kwargs = map<string, Arg>

  /** The parameters of the two builders (`param_keys`). */
  const PostParams: set<string> := {"author_id", "content", "repost_of", "repost_of_content_type"}
  const CommentParams: set<string> := PostParams + {"target"}

  /** `param_keys[target_type]`: KeyError for any other type. */
  function ParamKeys(targetType: string): (r: Result<set<string>>)
    ensures r.Ok? <==> targetType == "post" || targetType == "comment"
    ensures r.Ok? ==> "author_id" in r.value && "content" in r.value
    ensures r.Ok? ==> ("target" in r.value <==> targetType == "comment")
    ensures r.Err? ==> r.error == KeyError(targetType)
  {
    if targetType == "post" then Ok(PostParams)
    else if targetType == "comment" then Ok(CommentParams)
    else Err(KeyError(targetType))
  }

  /** `{key: value for key, value in kwargs.items() if key in allowed}`. */
  function FilterKwargs(kwargs: Kwargs, allowed: set<string>): (r: Kwargs)
    ensures r.Keys == kwargs.Keys * allowed
    ensures forall k | k in r :: r[k] == kwargs[k]
  {
    map k | k in kwargs && k in allowed :: kwargs[k]
  }

  /** The post a `_build_post_repost` call constructs: no id, a repost of
      `repostOf`, counters at their defaults. */
  function PostRepostFields(authorId: nat, content: string, repostOf: nat, repostOfType: string): ContentItem {
    ContentItem(None, authorId, content, None, None, None, 0, 0, 0, false, true, Some(repostOf),
                TagString(repostOfType), PostItem)
  }

  /** The comment a `_build_comment_repost` call constructs: as for a post,
      placed under the target's post and comment. */
  function CommentRepostFields(authorId: nat, content: string, repostOf: nat, repostOfType: string, target: RepostTarget)
    : ContentItem
    requires target.targetPostId.Some?
  {
    ContentItem(None, authorId, content, None, None, None, 0, 0, 0, false, true, Some(repostOf),
                TagString(repostOfType), CommentItem(target.targetPostId.value, target.targetCommentId))
  }

  /** `_build_post_repost`: runs the content validators. */
  function BuildPostRepost(authorId: nat, content: string, repostOf: nat, repostOfType: string, now: int)
    : (r: Result<ContentItem>)
    ensures r.Ok? <==> ValidContent(content)
    ensures r.Ok? ==>
      r.value.id.None? && r.value.isRepost && r.value.repostOf == Some(repostOf) &&
      r.value.repostOfContentType == TagString(repostOfType) && r.value.kind.PostItem? &&
      r.value.authorId == authorId && r.value.content == content
    ensures r.Err? ==> r.error.DomainValidationError?
  {
    NewContentItem(PostRepostFields(authorId, content, repostOf, repostOfType), now)
  }

  /** `_build_comment_repost`: the parents come from the target. */
  function BuildCommentRepost(authorId: nat, content: string, repostOf: nat, repostOfType: string,
                              target: RepostTarget, now: int): (r: Result<ContentItem>)
    requires target.targetPostId.Some?
    ensures r.Ok? <==> ValidContent(content)
    ensures r.Ok? ==>
      r.value.id.None? && r.value.isRepost && r.value.repostOf == Some(repostOf) &&
      r.value.repostOfContentType == TagString(repostOfType) &&
      r.value.kind == CommentItem(target.targetPostId.value, target.targetCommentId) &&
      r.value.authorId == authorId && r.value.content == content
    ensures r.Err? ==> r.error.DomainValidationError?
  {
    NewContentItem(CommentRepostFields(authorId, content, repostOf, repostOfType, target), now)
  }

  /** Whether the keyword arguments give every parameter of a builder a
      value of its kind. */
  predicate PostArgsGiven(kw: Kwargs) {
    "author_id" in kw && kw["author_id"].IntArg? && "content" in kw && kw["content"].TextArg? &&
    "repost_of" in kw && kw["repost_of"].IntArg? &&
    "repost_of_content_type" in kw && kw["repost_of_content_type"].TextArg?
  }

  predicate CommentArgsGiven(kw: Kwargs) {
    PostArgsGiven(kw) && "target" in kw && kw["target"].TargetArg?
  }

  /** `_build_repost_entity(target_type=..., **kwargs)`: an unknown type
      raises KeyError; the arguments are filtered to the builder's
      parameters, and a missing one raises TypeError. */
  function BuildRepostEntity(targetType: string, kwargs: Kwargs, now: int): (r: Result<ContentItem>)
    requires CommentArgsGiven(kwargs) && targetType == "comment" ==> kwargs["target"].target.targetPostId.Some?
    ensures targetType != "post" && targetType != "comment" ==> r == Err(KeyError(targetType))
    ensures targetType == "post" && PostArgsGiven(kwargs) ==>
      r == BuildPostRepost(kwargs["author_id"].n, kwargs["content"].s, kwargs["repost_of"].n,
                           kwargs["repost_of_content_type"].s, now)
    ensures targetType == "comment" && CommentArgsGiven(kwargs) ==>
      r == BuildCommentRepost(kwargs["author_id"].n, kwargs["content"].s, kwargs["repost_of"].n,
                              kwargs["repost_of_content_type"].s, kwargs["target"].target, now)
    ensures (targetType == "post" && !PostArgsGiven(kwargs)) || (targetType == "comment" && !CommentArgsGiven(kwargs)) ==>
      r == Err(TypeError(MissingArgument))
  {
    match ParamKeys(targetType)
    case Err(e) => Err(e)
    case Ok(allowed) =>
      var kw := FilterKwargs(kwargs, allowed);
      if targetType == "post" then
        if PostArgsGiven(kw) then
          BuildPostRepost(kw["author_id"].n, kw["content"].s, kw["repost_of"].n, kw["repost_of_content_type"].s, now)
        else Err(TypeError(MissingArgument))
      else
        if CommentArgsGiven(kw) then
          BuildCommentRepost(kw["author_id"].n, kw["content"].s, kw["repost_of"].n, kw["repost_of_content_type"].s,
                             kw["target"].target, now)
        else Err(TypeError(MissingArgument))
  }

  /** The keyword arguments `execute` passes. */
  function ExecuteKwargs(authorId: nat, content: string, repostOf: nat, repostOfType: string, target: RepostTarget)
    : Kwargs
  {
    map["author_id" := IntArg(authorId), "content" := TextArg(content), "repost_of" := IntArg(repostOf),
        "repost_of_content_type" := TextArg(repostOfType), "target" := TargetArg(target)]
  }

  /** The filter hands a post builder exactly its four parameters: "target"
      is dropped. */
  lemma PostTargetDropped(authorId: nat, content: string, repostOf: nat, repostOfType: string, target: RepostTarget)
    ensures var kw := FilterKwargs(ExecuteKwargs(authorId, content, repostOf, repostOfType, target), PostParams);
      kw.Keys == PostParams && "target" !in kw
  {
    var kwargs := ExecuteKwargs(authorId, content, repostOf, repostOfType, target);
    assert kwargs.Keys == CommentParams;
  }

  /** The arguments `execute` passes always fill the builder: building
      fails only on an unknown target type or an invalid content. */
  lemma ExecuteArgsBuild(authorId: nat, content: string, repostOf: nat, repostOfType: string,
                         target: RepostTarget, now: int)
    requires TargetChecked(target)
    ensures var r := BuildRepostEntity(target.targetType,
                                       ExecuteKwargs(authorId, content, repostOf, repostOfType, target), now);
      (r.Ok? <==> (target.targetType == "post" || target.targetType == "comment") && ValidContent(content)) &&
      (r.Ok? ==> r.value.isRepost && r.value.repostOf == Some(repostOf) && r.value.id.None? &&
                 (r.value.kind.PostItem? <==> target.targetType == "post"))
  {
    var kwargs := ExecuteKwargs(authorId, content, repostOf, repostOfType, target);
    assert CommentArgsGiven(kwargs);
  }

  /** `_get_original_content`: the original post (viewed by the reposting
      user) or comment; any other type raises ValueError. A missing comment
      is None, a missing post an error. */
  function GetOriginalContent(s: Snapshot, repostOfType: string, repostOf: nat, authorId: nat)
    : (r: Result<Option<ContentItem>>)
    requires StoreValid(s)
    ensures repostOfType != "post" && repostOfType != "comment" ==>
      r == Err(ValueError("Unsupported content_type: " + repostOfType))
    ensures repostOfType == "post" ==>
      r == (match GetPostById(s, repostOf, authorId) case Ok(p) => Ok(Some(p)) case Err(e) => Err(e))
    ensures repostOfType == "comment" ==> r == GetCommentById(s, repostOf, authorId)
    ensures r.Ok? && r.value.Some? ==>
      r.value.value.id == Some(repostOf) && (r.value.value.kind.PostItem? <==> repostOfType == "post")
  {
    if repostOfType == "post" then
      match GetPostById(s, repostOf, authorId)
      case Ok(p) => Ok(Some(p))
      case Err(e) => Err(e)
    else if repostOfType == "comment" then GetCommentById(s, repostOf, authorId)
    else Err(ValueError("Unsupported content_type: " + repostOfType))
  }

  /** `RepostResult`: the created repost and the original. */
  datatype RepostResult = RepostResult(repost: ContentItem, original: Option<ContentItem>)

  /** The table a repost entity is stored in: the posts for a post, the
      comments for a comment. */
  function TargetTable(entity: ContentItem): ContentType {
    if entity.kind.PostItem? then Post else Comment
  }

  /** The row the repository of the entity's type inserts for it. */
  function StoredRepostRow(entity: ContentItem, t: ContentType, now: int): Row {
    match entity.kind
    case PostItem => RepostRow(entity, t, now)
    case CommentItem(_, _) => RepostCommentRow(entity, t, now)
  }

  /** The tables once a repost with id `id` has been created: the row is
      stored and, on the post path only, the original's "reposts_count" is
      also written directly. */
  function RowsAfterRepost(rows: map<RowKey, Row>, entity: ContentItem, t: ContentType, id: nat, now: int)
    : map<RowKey, Row>
  {
    var stored := rows[RowKey(TargetTable(entity), id) := StoredRepostRow(entity, t, now)];
    if entity.kind.PostItem? then RepostsAdjusted(stored, entity.repostOf, t, 1) else stored
  }

  /** The buffer once the repository create has run inside the block of
      `execute`: the post_save receivers write it whenever the tag is usable,
      because the INSERT goes through and its foreign keys wait for COMMIT;
      no rollback undoes those writes. */
  function HashesAfterRepost(h: Hashes, entity: ContentItem, now: int): Hashes
    requires entity.isRepost ==> entity.repostOf.Some?
  {
    match ContentTypeFromLiteral(entity.repostOfContentType)
    case Err(_) => h
    case Ok(t) => SaveEffect(h, TargetTable(entity), StoredRepostRow(entity, t, now))
  }

  /** The flush flags once the repository create has run inside the block
      of `execute`: the receivers of the target table move them whenever the
      tag is usable, and no rollback undoes that. */
  function FlagsAfterRepost(fl: FlushFlags, entity: ContentItem): FlushFlags {
    match ContentTypeFromLiteral(entity.repostOfContentType)
    case Err(_) => fl
    case Ok(_) => AfterHook(fl, TargetTable(entity))
  }

  /** The id sequence once the repository create has run: the INSERT draws
      an id whenever the tag converts, whether or not it succeeds. */
  function NextIdAfterRepost(nextId: nat, entity: ContentItem): nat {
    if ContentTypeFromLiteral(entity.repostOfContentType).Ok? then nextId + 1 else nextId
  }

  /** A created repost moves no stored counter except, through `repost_post`,
      the original's "reposts_count", by 1; `repost_comment` leaves it to
      the buffer. */
  lemma RepostMovesOriginal(rows: map<RowKey, Row>, entity: ContentItem, t: ContentType, id: nat, now: int,
                            k: RowKey, f: Field)
    requires k in rows && k != RowKey(TargetTable(entity), id)
    ensures k in RowsAfterRepost(rows, entity, t, id, now)
    ensures Column(RowsAfterRepost(rows, entity, t, id, now)[k], f) ==
            Column(rows[k], f) +
            (if entity.kind.PostItem? && f == RepostsCount && entity.repostOf == Some(k.id) && k.table == t then 1 else 0)
  {
    var stored := rows[RowKey(TargetTable(entity), id) := StoredRepostRow(entity, t, now)];
    assert stored[k] == rows[k];
    if entity.kind.PostItem? {
      RepostsAdjustedEffect(stored, entity.repostOf, t, 1, k, f);
    }
  }

  /** `creator_map[target_type](entity)`: the repository create of the
      target's type, called inside the block of `execute`. An unusable tag
      writes nothing. Otherwise the hooks write the buffer whatever the
      row's foreign keys, since those wait for COMMIT; a row with a broken
      key ends in an error with the tables as before, and a created repost
      is stored under the next id with the tables as `RowsAfterRepost`
      says. */
  method CreateRepost(db: Db, targetType: string, entity: ContentItem, now: int, storeFails: bool)
    returns (r: Result<ContentItem>)
    requires db.Valid() && (targetType == "post" || targetType == "comment")
    requires entity.isRepost ==> entity.repostOf.Some?
    requires entity.kind.PostItem? <==> targetType == "post"
    modifies db, db.buffer
    ensures db.Valid() && old(db.nextId) <= db.nextId
    ensures db.likes == old(db.likes) && db.users == old(db.users)
    ensures ContentTypeFromLiteral(entity.repostOfContentType).Err? ==> r.Err? && unchanged(db, db.buffer)
    ensures db.buffer.hashes == HashesAfterRepost(old(db.buffer.hashes), entity, now)
    ensures db.buffer.Flags() == FlagsAfterRepost(old(db.buffer.Flags()), entity)
    ensures db.nextId == NextIdAfterRepost(old(db.nextId), entity)
    ensures ContentTypeFromLiteral(entity.repostOfContentType).Ok? &&
            !ForeignKeysHold(old(db.rows), old(db.users),
                             StoredRepostRow(entity, ContentTypeFromLiteral(entity.repostOfContentType).value, now)) ==>
      db.rows == old(db.rows) &&
      r == if targetType == "post" && storeFails then Err(InvalidOperation(BadCounterChange))
           else Err(IntegrityError(IntegrityMessage))
    ensures r.Ok? ==>
      ContentTypeFromLiteral(entity.repostOfContentType).Ok? &&
      var t := ContentTypeFromLiteral(entity.repostOfContentType).value;
      var row := StoredRepostRow(entity, t, now);
      ForeignKeysHold(old(db.rows), old(db.users), row) &&
      db.rows == RowsAfterRepost(old(db.rows), entity, t, old(db.nextId), now) &&
      db.buffer.hashes == SaveEffect(old(db.buffer.hashes), TargetTable(entity), row) &&
      r == (if targetType == "post" then DecodePost(old(db.nextId), row, old(db.users)[entity.authorId], false)
            else DecodeComment(old(db.nextId), row, old(db.users)[entity.authorId], false))
    ensures r.Ok? ==>
      r.value.isRepost == entity.isRepost && r.value.repostOf == entity.repostOf &&
      (r.value.kind.PostItem? <==> targetType == "post") && r.value.id == Some(old(db.nextId)) &&
      RowKey(TargetTable(entity), old(db.nextId)) in db.rows
  {
    if targetType == "post" {
      r := RepostPost(db, entity, now, storeFails);
    } else {
      r := RepostComment(db, entity, now, true);
    }
  }

  /** The `transaction.atomic()` block of `execute`: create the repost,
      then fetch the original. An error from either rolls the tables back
      to what they were before the block (this includes the decode that
      `repost_post` runs after its own inner transaction); the hooks'
      buffer writes and the id sequence stay. */
  method AtomicRepost(db: Db, targetType: string, entity: ContentItem, repostOf: nat, repostOfType: string,
                      authorId: nat, now: int, storeFails: bool) returns (r: Result<RepostResult>)
    requires db.Valid() && (targetType == "post" || targetType == "comment")
    requires entity.isRepost ==> entity.repostOf.Some?
    requires entity.kind.PostItem? <==> targetType == "post"
    modifies db, db.buffer
    ensures db.Valid()
    ensures db.likes == old(db.likes) && db.users == old(db.users)
    ensures db.buffer.hashes == HashesAfterRepost(old(db.buffer.hashes), entity, now)
    ensures db.buffer.Flags() == FlagsAfterRepost(old(db.buffer.Flags()), entity)
    ensures db.nextId == NextIdAfterRepost(old(db.nextId), entity)
    ensures ContentTypeFromLiteral(entity.repostOfContentType).Ok? &&
            !ForeignKeysHold(old(db.rows), old(db.users),
                             StoredRepostRow(entity, ContentTypeFromLiteral(entity.repostOfContentType).value, now)) ==>
      db.rows == old(db.rows) &&
      r == if targetType == "post" && storeFails then Err(InvalidOperation(BadCounterChange))
           else Err(IntegrityError(IntegrityMessage))
    ensures r.Err? ==> db.rows == old(db.rows)
    ensures r.Ok? ==>
      ContentTypeFromLiteral(entity.repostOfContentType).Ok? &&
      var t := ContentTypeFromLiteral(entity.repostOfContentType).value;
      var row := StoredRepostRow(entity, t, now);
      ForeignKeysHold(old(db.rows), old(db.users), row) &&
      db.rows == RowsAfterRepost(old(db.rows), entity, t, old(db.nextId), now) &&
      db.buffer.hashes == SaveEffect(old(db.buffer.hashes), TargetTable(entity), row)
    ensures r.Ok? ==>
      r.value.repost.isRepost == entity.isRepost && r.value.repost.repostOf == entity.repostOf &&
      (r.value.repost.kind.PostItem? <==> targetType == "post") && r.value.repost.id == Some(old(db.nextId)) &&
      Ok(r.value.original) == GetOriginalContent(db.State(), repostOfType, repostOf, authorId)
  {
    var before := db.State();
    var created := CreateRepost(db, targetType, entity, now, storeFails);
    if created.Err? {
      TablesValidLater(before, old(db.nextId), db.nextId);
      db.Restore(before);
      return Err(created.error);
    }
    var original := GetOriginalContent(db.State(), repostOfType, repostOf, authorId);
    if original.Err? {
      TablesValidLater(before, old(db.nextId), db.nextId);
      db.Restore(before);
      return Err(original.error);
    }
    r := Ok(RepostResult(created.value, original.value));
  }

  /** `execute`: build the entity (errors escape before any write); then
      run the transaction block. On success the repost is stored under the
      next id, the tables are as `RowsAfterRepost` says (the original's
      "reposts_count" written directly only on the post path) and the
      buffer holds the post_save writes; on failure the tables are as
      before while the buffer keeps whatever the hooks wrote. */
  method Execute(db: Db, authorId: nat, content: string, repostOf: nat, repostOfType: string,
                 target: RepostTarget, now: int, storeFails: bool) returns (r: Result<RepostResult>)
    requires db.Valid() && TargetChecked(target)
    modifies db, db.buffer
    ensures db.Valid()
    ensures db.likes == old(db.likes) && db.users == old(db.users)
    ensures var built := BuildRepostEntity(target.targetType,
                                           ExecuteKwargs(authorId, content, repostOf, repostOfType, target), now);
      built.Err? ==> r == Err(built.error) && unchanged(db, db.buffer)
    ensures target.targetType != "post" && target.targetType != "comment" ==>
      r == Err(KeyError(target.targetType)) && unchanged(db, db.buffer)
    ensures r.Ok? ==>
      r.value.repost.isRepost && r.value.repost.repostOf == Some(repostOf) &&
      (r.value.repost.kind.PostItem? <==> target.targetType == "post") &&
      r.value.repost.id == Some(old(db.nextId)) &&
      Ok(r.value.original) == GetOriginalContent(db.State(), repostOfType, repostOf, authorId)
    ensures var built := BuildRepostEntity(target.targetType,
                                           ExecuteKwargs(authorId, content, repostOf, repostOfType, target), now);
      r.Ok? ==>
        built.Ok? && ContentTypeFromLiteral(built.value.repostOfContentType).Ok? &&
        var t := ContentTypeFromLiteral(built.value.repostOfContentType).value;
        var row := StoredRepostRow(built.value, t, now);
        ForeignKeysHold(old(db.rows), old(db.users), row) &&
        db.rows == RowsAfterRepost(old(db.rows), built.value, t, old(db.nextId), now) &&
        db.buffer.hashes == SaveEffect(old(db.buffer.hashes), TargetTable(built.value), row)
    ensures r.Err? ==> db.rows == old(db.rows)
    ensures var built := BuildRepostEntity(target.targetType,
                                           ExecuteKwargs(authorId, content, repostOf, repostOfType, target), now);
      built.Ok? ==>
        db.buffer.hashes == HashesAfterRepost(old(db.buffer.hashes), built.value, now) &&
        db.buffer.Flags() == FlagsAfterRepost(old(db.buffer.Flags()), built.value) &&
        db.nextId == NextIdAfterRepost(old(db.nextId), built.value)
  {
    ExecuteArgsBuild(authorId, content, repostOf, repostOfType, target, now);
    var kwargs := ExecuteKwargs(authorId, content, repostOf, repostOfType, target);
    var built := BuildRepostEntity(target.targetType, kwargs, now);
    if built.Err? {
      return Err(built.error);
    }
    r := AtomicRepost(db, target.targetType, built.value, repostOf, repostOfType, authorId, now, storeFails);
  }
}
