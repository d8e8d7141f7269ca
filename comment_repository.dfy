/** The comment repository (infrastructure/repository/comment_repository.py):
    reading, creating, editing, deleting and reposting comments, and the two
    comment listings. No operation here adjusts a counter column itself:
    comment counts move only through the buffer hooks that the insert and
    the delete run. */
module CommentRepository {
  import opened Common
  import opened BufferKeys
  import opened Tables
  import opened Entities
  import opened Signals
  import opened Database
  import opened Queries
  import opened ContentBaseRepository
  import opened Tasks

  const ParentPostMissing := "貼文不存在"
  const ParentCommentMissing := "留言不存在"
  const ColumnError := "資料庫欄位錯誤"
  const StoreFailed := "資料庫操作失敗"
  const ContentTypeFailed := "轉換 ContentType 失敗"
  /** The message of the `DoesNotExist` that `.get(id=...)` raises. */
  const NoSuchComment := "Comment matching query does not exist."

  /** `get_comment_by_id`: the comment with the viewer's `is_liked` flag; an
      absent id is `None`, not an error. */
  function GetCommentById(s: Snapshot, commentId: nat, viewer: nat): (r: Result<Option<ContentItem>>)
    requires StoreValid(s)
    ensures RowKey(Comment, commentId) !in s.rows <==> r == Ok(None)
    ensures r.Ok? && r.value.Some? ==>
      var k := RowKey(Comment, commentId);
      k in s.rows && r.value.value.id == Some(commentId) && r.value.value.kind.CommentItem? &&
      Some(r.value.value.kind.parentPostId) == s.rows[k].parentPost &&
      r.value.value.kind.parentCommentId == s.rows[k].parentComment &&
      r.value.value.isLiked == HasLike(s.likes, Comment, viewer, commentId)
    ensures r.Err? ==> r.error.InvalidEntityInput?
  {
    var k := RowKey(Comment, commentId);
    if k !in s.rows then Ok(None)
    else
      match DecodeRow(s, k, IsLiked(s, Comment, viewer, commentId))
      case Ok(item) => Ok(Some(item))
      case Err(e) => Err(e)
  }

  /** The row `create_comment` inserts: author, content and the two parent
      ids; every other column keeps its default. */
  function NewCommentRow(c: ContentItem, now: int): Row
    requires c.kind.CommentItem?
  {
    Row(c.authorId, c.content, now, now, 0, 0, 0, false, None, None, Some(c.kind.parentPostId), c.kind.parentCommentId)
  }

  /** The existence checks of `create_comment`: a parent id is looked up
      only when it is truthy. */
  predicate ParentPostChecked(rows: map<RowKey, Row>, c: ContentItem)
    requires c.kind.CommentItem?
  {
    c.kind.parentPostId == 0 || RowKey(Post, c.kind.parentPostId) in rows
  }

  predicate ParentCommentChecked(rows: map<RowKey, Row>, c: ContentItem)
    requires c.kind.CommentItem?
  {
    !Truthy(c.kind.parentCommentId) || RowKey(Comment, c.kind.parentCommentId.value) in rows
  }

  /** `create_comment`: a truthy parent id that names no row raises
      EntityDoesNotExist before any write; a broken foreign key at the
      INSERT becomes EntityOperationFailed; otherwise the row is stored (the
      post_save receivers add its comment count to the buffer) and decoded.
      No counter column is written. */
  method CreateComment(db: Db, c: ContentItem, now: int) returns (r: Result<ContentItem>)
    requires db.Valid() && c.kind.CommentItem?
    modifies db, db.buffer
    ensures db.Valid()
    ensures db.likes == old(db.likes) && db.users == old(db.users)
    ensures !ParentPostChecked(old(db.rows), c) ==>
      r == Err(EntityDoesNotExist(ParentPostMissing)) && unchanged(db, db.buffer)
    ensures ParentPostChecked(old(db.rows), c) && !ParentCommentChecked(old(db.rows), c) ==>
      r == Err(EntityDoesNotExist(ParentCommentMissing)) && unchanged(db, db.buffer)
    ensures ParentPostChecked(old(db.rows), c) && ParentCommentChecked(old(db.rows), c) &&
            !ForeignKeysHold(old(db.rows), db.users, NewCommentRow(c, now)) ==>
      r == Err(EntityOperationFailed(ColumnError)) && db.rows == old(db.rows) && unchanged(db.buffer) &&
      db.nextId == old(db.nextId) + 1
    ensures ParentPostChecked(old(db.rows), c) && ParentCommentChecked(old(db.rows), c) &&
            ForeignKeysHold(old(db.rows), db.users, NewCommentRow(c, now)) ==>
      var id := old(db.nextId);
      db.nextId == id + 1 &&
      db.rows == old(db.rows)[RowKey(Comment, id) := NewCommentRow(c, now)] &&
      db.buffer.hashes == SaveEffect(old(db.buffer.hashes), Comment, NewCommentRow(c, now)) &&
      db.buffer.Flags() == AfterHook(old(db.buffer.Flags()), Comment) &&
      r == DecodeComment(id, NewCommentRow(c, now), db.users[c.authorId], false)
  {
    if !ParentPostChecked(db.rows, c) {
      return Err(EntityDoesNotExist(ParentPostMissing));
    }
    if !ParentCommentChecked(db.rows, c) {
      return Err(EntityDoesNotExist(ParentCommentMissing));
    }
    var row := NewCommentRow(c, now);
    var ins := db.InsertContent(Comment, row);
    if ins.Err? {
      return Err(EntityOperationFailed(ColumnError));
    }
    r := DecodeComment(ins.value, row, db.users[c.authorId], false);
  }

  /** `update_comment`: `filter(id=...).update(content, updated_at)` and then
      `.get(id=...)`. Only the addressed row's text and edit time change; an
      absent id (or none) writes nothing and the `.get` raises DoesNotExist.
      A stored row that no longer decodes raises InvalidEntityInput, after
      the write. */
  method UpdateComment(db: Db, c: ContentItem) returns (r: Result<ContentItem>)
    requires db.Valid() && c.updatedAt.Some?
    modifies db
    ensures db.Valid()
    ensures db.likes == old(db.likes) && db.users == old(db.users) && db.nextId == old(db.nextId)
    ensures c.id.None? || RowKey(Comment, c.id.value) !in old(db.rows) ==>
      r == Err(ObjectDoesNotExist(NoSuchComment)) && db.rows == old(db.rows)
    ensures c.id.Some? && RowKey(Comment, c.id.value) in old(db.rows) ==>
      var k := RowKey(Comment, c.id.value);
      var row := old(db.rows)[k].(content := c.content, updatedAt := c.updatedAt.value);
      db.rows == old(db.rows)[k := row] &&
      r == DecodeComment(c.id.value, row, db.users[row.authorId], false)
  {
    if c.id.None? {
      return Err(ObjectDoesNotExist(NoSuchComment));
    }
    var k := RowKey(Comment, c.id.value);
    var changed := db.UpdateText(k, c.content, c.updatedAt.value);
    if k !in db.rows {
      return Err(ObjectDoesNotExist(NoSuchComment));
    }
    var row := db.rows[k];
    r := DecodeComment(c.id.value, row, db.users[row.authorId], false);
  }

  /** `delete_comment`: `filter(id=...).delete()`; an absent id (or none)
      deletes nothing and is not an error. A removed comment runs the
      post_delete receivers. */
  method DeleteComment(db: Db, c: ContentItem) returns (r: Result<()>)
    requires db.Valid()
    modifies db, db.buffer
    ensures db.Valid()
    ensures r == Ok(())
    ensures db.likes == old(db.likes) && db.users == old(db.users) && db.nextId == old(db.nextId)
    ensures c.id.None? || RowKey(Comment, c.id.value) !in old(db.rows) ==>
      db.rows == old(db.rows) && unchanged(db.buffer)
    ensures c.id.Some? && RowKey(Comment, c.id.value) in old(db.rows) ==>
      db.rows == old(db.rows) - {RowKey(Comment, c.id.value)} &&
      db.buffer.hashes == DeleteEffect(old(db.buffer.hashes), Comment, old(db.rows)[RowKey(Comment, c.id.value)]) &&
      db.buffer.Flags() == AfterHook(old(db.buffer.Flags()), Comment)
  {
    if c.id.Some? {
      var deleted := db.DeleteContent(RowKey(Comment, c.id.value));
    }
    r := Ok(());
  }

  /** `get_comments_by_post_id`: a truthy post id that names no post raises
      EntityDoesNotExist; otherwise the post's comments, oldest first, one
      page. */
  ghost function GetCommentsByPostId(s: Snapshot, viewer: nat, postId: nat, offset: int, limit: int)
    : (r: Result<seq<ContentItem>>)
    requires StoreValid(s)
    ensures postId != 0 && RowKey(Post, postId) !in s.rows ==> r == Err(EntityDoesNotExist(ParentPostMissing))
    ensures !(postId != 0 && RowKey(Post, postId) !in s.rows) && NegativeBound(offset, limit) ==>
      r == Err(ValueError(NegativeIndexing))
    ensures r.Ok? ==> |r.value| <= limit || r.value == []
    ensures r.Ok? ==> forall i | 0 <= i < |r.value| :: ListedFrom(s, Comment, ParentPostIs(postId), viewer, r.value[i])
    ensures r.Ok? ==> forall i | 0 <= i < |r.value| :: r.value[i].kind.CommentItem? && r.value[i].kind.parentPostId == postId
    ensures r.Ok? ==> forall i, j | 0 <= i < j < |r.value| :: InOrder(false, r.value[i], r.value[j])
    ensures r.Err? ==> r.error.EntityDoesNotExist? || r.error.InvalidEntityInput? || r.error == ValueError(NegativeIndexing)
  {
    if postId != 0 && RowKey(Post, postId) !in s.rows then Err(EntityDoesNotExist(ParentPostMissing))
    else
      var r := DecodeListing(s, Comment, ParentPostIs(postId), false, offset, limit, viewer);
      if r.Ok? then ListedParents(s, ParentPostIs(postId), viewer, r.value); r else r
  }

  /** `get_all_child_comments_by_comment_id`: the replies to `c`, newest
      first, one page. For a comment without an id the filter is
      `parent_comment IS NULL`, which selects the top-level comments. */
  ghost function GetAllChildComments(s: Snapshot, viewer: nat, c: ContentItem, offset: int, limit: int)
    : (r: Result<seq<ContentItem>>)
    requires StoreValid(s)
    ensures NegativeBound(offset, limit) ==> r == Err(ValueError(NegativeIndexing))
    ensures r.Ok? ==> |r.value| <= limit || r.value == []
    ensures r.Ok? ==> forall i | 0 <= i < |r.value| :: ListedFrom(s, Comment, ParentCommentIs(c.id), viewer, r.value[i])
    ensures r.Ok? ==> forall i | 0 <= i < |r.value| :: r.value[i].kind.CommentItem? && r.value[i].kind.parentCommentId == c.id
    ensures r.Ok? ==> forall i, j | 0 <= i < j < |r.value| :: InOrder(true, r.value[i], r.value[j])
    ensures r.Err? ==> r.error.InvalidEntityInput? || r.error == ValueError(NegativeIndexing)
  {
    var r := DecodeListing(s, Comment, ParentCommentIs(c.id), true, offset, limit, viewer);
    if r.Ok? then ListedParents(s, ParentCommentIs(c.id), viewer, r.value); r else r
  }

  /** The parents of listed comments are those the filter asks for. */
  lemma ListedParents(s: Snapshot, flt: RowFilter, viewer: nat, items: seq<ContentItem>)
    requires forall i | 0 <= i < |items| :: ListedFrom(s, Comment, flt, viewer, items[i])
    ensures flt.ParentPostIs? ==>
      forall i | 0 <= i < |items| :: items[i].kind.CommentItem? && items[i].kind.parentPostId == flt.post
    ensures flt.ParentCommentIs? ==>
      forall i | 0 <= i < |items| :: items[i].kind.CommentItem? && items[i].kind.parentCommentId == flt.comment
  {
    forall i | 0 <= i < |items|
      ensures items[i].kind.CommentItem?
      ensures flt.ParentPostIs? ==> items[i].kind.parentPostId == flt.post
      ensures flt.ParentCommentIs? ==> items[i].kind.parentCommentId == flt.comment
    {
      assert ListedFrom(s, Comment, flt, viewer, items[i]);
    }
  }

  /** The row `repost_comment` inserts: the repost columns and the two
      parent ids. */
  function RepostCommentRow(c: ContentItem, t: ContentType, now: int): Row
    requires c.kind.CommentItem?
  {
    Row(c.authorId, c.content, now, now, 0, 0, 0, c.isRepost, Some(t), c.repostOf,
        Some(c.kind.parentPostId), c.kind.parentCommentId)
  }

  /** `repost_comment`: the tag must be "post" or "comment" (InvalidOperation
      otherwise, before any write); then the row is inserted, which runs the
      post_save receivers, and decoded. Unlike `repost_post` it adjusts no
      counter column: the original's "reposts_count" moves only through the
      buffer. `inAtomicBlock` says whether a caller's transaction is open.
      Without one the INSERT commits at once and a broken foreign key fails
      it before any receiver runs (EntityOperationFailed). Inside one the
      keys are checked only at COMMIT: the receivers run, and the block
      fails with the row rolled back. */
  method RepostComment(db: Db, c: ContentItem, now: int, inAtomicBlock: bool) returns (r: Result<ContentItem>)
    requires db.Valid() && c.kind.CommentItem?
    requires c.isRepost ==> c.repostOf.Some?
    modifies db, db.buffer
    ensures db.Valid() && old(db.nextId) <= db.nextId
    ensures db.likes == old(db.likes) && db.users == old(db.users)
    ensures ContentTypeFromLiteral(c.repostOfContentType).Err? ==>
      r == Err(InvalidOperation(ContentTypeFailed)) && unchanged(db, db.buffer)
    ensures ContentTypeFromLiteral(c.repostOfContentType).Ok? ==> db.nextId == old(db.nextId) + 1
    ensures ContentTypeFromLiteral(c.repostOfContentType).Ok? ==>
      var row := RepostCommentRow(c, ContentTypeFromLiteral(c.repostOfContentType).value, now);
      (!ForeignKeysHold(old(db.rows), db.users, row) ==>
         r.Err? && db.rows == old(db.rows)) &&
      (!ForeignKeysHold(old(db.rows), db.users, row) && !inAtomicBlock ==>
         r == Err(EntityOperationFailed(StoreFailed)) && unchanged(db.buffer)) &&
      (!ForeignKeysHold(old(db.rows), db.users, row) && inAtomicBlock ==>
         r == Err(IntegrityError(IntegrityMessage))) &&
      (ForeignKeysHold(old(db.rows), db.users, row) ==>
         db.rows == old(db.rows)[RowKey(Comment, old(db.nextId)) := row] &&
         r == DecodeComment(old(db.nextId), row, db.users[c.authorId], false)) &&
      (ForeignKeysHold(old(db.rows), db.users, row) || inAtomicBlock ==>
         db.buffer.hashes == SaveEffect(old(db.buffer.hashes), Comment, row) &&
         db.buffer.Flags() == AfterHook(old(db.buffer.Flags()), Comment))
  {
    var ct := ContentTypeFromLiteral(c.repostOfContentType);
    if ct.Err? {
      return Err(InvalidOperation(ContentTypeFailed));
    }
    var row := RepostCommentRow(c, ct.value, now);
    if !inAtomicBlock {
      var ins := db.InsertContent(Comment, row);
      if ins.Err? {
        return Err(EntityOperationFailed(StoreFailed));
      }
      r := DecodeComment(ins.value, row, db.users[c.authorId], false);
    } else {
      var id, keysHold := db.InsertContentInTransaction(Comment, row);
      if !keysHold {
        return Err(IntegrityError(IntegrityMessage));
      }
      r := DecodeComment(id, row, db.users[c.authorId], false);
    }
  }

  /** The rows after `create_comment` committed comment `id` and the
      comments flush ran: the post pass, then the comment pass over what the
      post pass left in the buffer. */
  function CommentFlushedRows(rows: map<RowKey, Row>, h: Hashes, c: ContentItem, id: nat, now: int): map<RowKey, Row>
    requires c.kind.CommentItem?
  {
    var rows1 := rows[RowKey(Comment, id) := NewCommentRow(c, now)];
    var h1 := SaveEffect(h, Comment, NewCommentRow(c, now));
    FlushedRows(FlushedRows(rows1, h1, Post, CommentsCount), FlushedHashes(h1, Post, CommentsCount), Comment, CommentsCount)
  }

  /** Comments are counted by the hook path alone: once a comment has been
      created and the comments flush has run, its post's "comments_count",
      and its parent comment's when it has one, has risen by exactly 1
      beyond the delta already pending for it; any other row's count moves
      only by its own pending delta. */
  lemma CommentCountedOnce(rows: map<RowKey, Row>, h: Hashes, c: ContentItem, id: nat, now: int, k: RowKey)
    requires c.kind.CommentItem? && k in rows && k != RowKey(Comment, id)
    ensures k in CommentFlushedRows(rows, h, c, id, now)
    ensures CommentFlushedRows(rows, h, c, id, now)[k].commentsCount ==
      rows[k].commentsCount + Pending(h, KeyOf(k), CommentsCount) +
      (if CountsCommentOf(NewCommentRow(c, now), k) then 1 else 0)
  {
    var row := NewCommentRow(c, now);
    var rows1 := rows[RowKey(Comment, id) := row];
    var h1 := SaveEffect(h, Comment, row);
    CommentEventEffect(h, row, 1, k, CommentsCount);
    RepostEventEffect(CommentEvent(h, row, 1), row, 1, k, CommentsCount);
    var rows2 := FlushedRows(rows1, h1, Post, CommentsCount);
    var h2 := FlushedHashes(h1, Post, CommentsCount);
    if k.table == Post {
      FlushApplies(rows1, h1, Post, CommentsCount, k);
      FlushIsolatesTable(rows2, h2, Comment, CommentsCount, k);
    } else {
      FlushIsolatesTable(rows1, h1, Post, CommentsCount, k);
      FlushApplies(rows2, h2, Comment, CommentsCount, k);
    }
  }
}
