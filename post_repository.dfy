/** The post repository (infrastructure/repository/post_repository.py):
    creating, reading, deleting and reposting posts, and the three post
    listings. Reposting and deleting a repost adjust the original's
    "reposts_count" synchronously, and the insert or delete also runs the
    buffer hooks, so both update paths move that counter. */
module PostRepository {
  import opened Common
  import opened BufferKeys
  import opened Tables
  import opened Entities
  import opened Signals
  import opened Database
  import opened Queries
  import opened ContentBaseRepository
  import opened Tasks

  const UserMissing := "使用者不存在"
  const PostMissing := "貼文不存在"
  const StoreFailed := "資料庫操作失敗"
  const ContentTypeFailed := "轉換 ContentType 失敗"

  /** The row `create_post` inserts: author and content; the counters and
      repost columns keep their defaults. */
  function NewPostRow(post: ContentItem, now: int): Row {
    Row(post.authorId, post.content, now, now, 0, 0, 0, false, None, None, None, None)
  }

  /** The row `repost_post` inserts. */
  function RepostRow(post: ContentItem, t: ContentType, now: int): Row {
    Row(post.authorId, post.content, now, now, 0, 0, 0, post.isRepost, Some(t), post.repostOf, None, None)
  }

  /** `create_post`: an author that does not exist raises EntityDoesNotExist
      and writes nothing; otherwise a post row with only author and content
      set is inserted and decoded. */
  method CreatePost(db: Db, post: ContentItem, now: int) returns (r: Result<ContentItem>)
    requires db.Valid()
    modifies db, db.buffer
    ensures db.Valid()
    ensures db.users == old(db.users)
    ensures post.authorId !in old(db.users) ==>
      r == Err(EntityDoesNotExist(UserMissing)) && unchanged(db, db.buffer)
    ensures post.authorId in old(db.users) ==>
      db.nextId == old(db.nextId) + 1 && db.likes == old(db.likes) &&
      db.rows == old(db.rows)[RowKey(Post, old(db.nextId)) := NewPostRow(post, now)] &&
      db.buffer.hashes == old(db.buffer.hashes) &&
      db.buffer.Flags() == AfterHook(old(db.buffer.Flags()), Post) &&
      r == DecodePost(old(db.nextId), NewPostRow(post, now), old(db.users)[post.authorId], false)
  {
    if post.authorId !in db.users {
      return Err(EntityDoesNotExist(UserMissing));
    }
    var row := NewPostRow(post, now);
    var ins := db.InsertContent(Post, row);
    r := DecodePost(ins.value, row, db.users[post.authorId], false);
  }

  /** `get_post_by_id`: the post with its `is_liked` flag for the viewer, or
      EntityDoesNotExist. */
  function GetPostById(s: Snapshot, postId: nat, viewer: nat): (r: Result<ContentItem>)
    requires StoreValid(s)
    ensures RowKey(Post, postId) !in s.rows ==> r == Err(EntityDoesNotExist(PostMissing))
    ensures r.Ok? ==> RowKey(Post, postId) in s.rows && r.value.id == Some(postId) && r.value.kind.PostItem?
    ensures r.Ok? ==> r.value.isLiked == HasLike(s.likes, Post, viewer, postId)
    ensures r.Ok? ==> r.value.authorId == s.rows[RowKey(Post, postId)].authorId &&
                      r.value.content == s.rows[RowKey(Post, postId)].content
    ensures r.Err? && RowKey(Post, postId) in s.rows ==> r.error.InvalidEntityInput?
  {
    var k := RowKey(Post, postId);
    if k !in s.rows then Err(EntityDoesNotExist(PostMissing))
    else DecodeRow(s, k, IsLiked(s, Post, viewer, postId))
  }

  /** What `delete_post` leaves in the tables: the repost decrement (for a
      repost) followed by the removal of the row. */
  function RowsAfterDelete(rows: map<RowKey, Row>, post: ContentItem, t: ContentType, id: nat): map<RowKey, Row> {
    var adjusted := if post.isRepost then RepostsAdjusted(rows, post.repostOf, t, -1) else rows;
    adjusted - {RowKey(Post, id)}
  }

  /** `delete_post`, one transaction: a repost first takes 1 from its
      original's "reposts_count"; then the post is fetched (missing:
      EntityDoesNotExist, rolling the decrement back) and deleted, which
      runs the post_delete hook. */
  method DeletePost(db: Db, post: ContentItem, storeFails: bool) returns (r: Result<()>)
    requires db.Valid()
    modifies db, db.buffer
    ensures db.Valid()
    ensures db.nextId == old(db.nextId) && db.likes == old(db.likes)
    ensures r.Err? ==> db.rows == old(db.rows) && unchanged(db.buffer)
    ensures post.isRepost && TableOf(post.repostOfContentType).None? ==>
      r == Err(InvalidEntityInput(UnsupportedRepostSource))
    ensures post.isRepost && TableOf(post.repostOfContentType).Some? && storeFails ==>
      r == Err(InvalidOperation(BadCounterChange))
    ensures (!post.isRepost || (TableOf(post.repostOfContentType).Some? && !storeFails)) &&
            (post.id.None? || RowKey(Post, post.id.value) !in old(db.rows)) ==>
      r == Err(EntityDoesNotExist(PostMissing))
    ensures r.Ok? <==>
      (!post.isRepost || (TableOf(post.repostOfContentType).Some? && !storeFails)) &&
      post.id.Some? && RowKey(Post, post.id.value) in old(db.rows)
    ensures r.Ok? ==>
      db.rows == RowsAfterDelete(old(db.rows), post, TableOf(post.repostOfContentType).GetOr(Post), post.id.value) &&
      db.buffer.hashes == DeleteEffect(old(db.buffer.hashes), Post, old(db.rows)[RowKey(Post, post.id.value)]) &&
      db.buffer.Flags() == AfterHook(old(db.buffer.Flags()), Post)
  {
    var before := db.State();
    if post.isRepost {
      var adjusted := AdjustRepostsCount(db, post.repostOf, post.repostOfContentType, Int(-1), storeFails);
      if adjusted.Err? {
        return Err(adjusted.error);
      }
    }
    if post.id.None? || RowKey(Post, post.id.value) !in db.rows {
      db.Restore(before);
      return Err(EntityDoesNotExist(PostMissing));
    }
    var k := RowKey(Post, post.id.value);
    assert k in before.rows;
    var row := db.rows[k];
    assert row == before.rows[k] || post.isRepost;
    var deleted := db.DeleteContent(k);
    r := Ok(());
  }

  /** `repost_post`: the tag must be "post" or "comment"
      (EntityOperationFailed otherwise, before any write); then, in one
      transaction, the repost row is inserted (running the post_save hook)
      and the original's "reposts_count" gains 1. Inside the transaction the
      author key is checked only at COMMIT, so the hook runs even for an
      unknown author. A failed adjustment, and then a COMMIT that refuses
      the row (an IntegrityError that escapes uncaught), roll the tables
      back but not the hook's buffer write. */
  method RepostPost(db: Db, post: ContentItem, now: int, storeFails: bool) returns (r: Result<ContentItem>)
    requires db.Valid()
    requires post.isRepost ==> post.repostOf.Some?
    modifies db, db.buffer
    ensures db.Valid() && old(db.nextId) <= db.nextId
    ensures db.likes == old(db.likes) && db.users == old(db.users)
    ensures ContentTypeFromLiteral(post.repostOfContentType).Err? ==>
      r == Err(EntityOperationFailed(ContentTypeFailed)) && unchanged(db, db.buffer)
    ensures ContentTypeFromLiteral(post.repostOfContentType).Ok? ==>
      var t := ContentTypeFromLiteral(post.repostOfContentType).value;
      db.nextId == old(db.nextId) + 1 &&
      db.buffer.hashes == SaveEffect(old(db.buffer.hashes), Post, RepostRow(post, t, now)) &&
      db.buffer.Flags() == AfterHook(old(db.buffer.Flags()), Post)
    ensures ContentTypeFromLiteral(post.repostOfContentType).Ok? && storeFails ==>
      r == Err(InvalidOperation(BadCounterChange)) && db.rows == old(db.rows)
    ensures ContentTypeFromLiteral(post.repostOfContentType).Ok? && !storeFails && post.authorId !in db.users ==>
      r == Err(IntegrityError(IntegrityMessage)) && db.rows == old(db.rows)
    ensures ContentTypeFromLiteral(post.repostOfContentType).Ok? && !storeFails && post.authorId in db.users ==>
      var t := ContentTypeFromLiteral(post.repostOfContentType).value;
      var id := old(db.nextId);
      db.rows == RepostsAdjusted(old(db.rows)[RowKey(Post, id) := RepostRow(post, t, now)], post.repostOf, t, 1) &&
      r == DecodePost(id, RepostRow(post, t, now), db.users[post.authorId], false)
  {
    var ct := ContentTypeFromLiteral(post.repostOfContentType);
    if ct.Err? {
      return Err(EntityOperationFailed(ContentTypeFailed));
    }
    var before := db.State();
    var row := RepostRow(post, ct.value, now);
    var id, keysHold := db.InsertContentInTransaction(Post, row);
    var adjusted := AdjustRepostsCount(db, post.repostOf, post.repostOfContentType, Int(1), storeFails);
    if adjusted.Err? {
      db.Restore(before);
      return Err(adjusted.error);
    }
    if !keysHold {
      db.Restore(before);
      return Err(IntegrityError(IntegrityMessage));
    }
    r := DecodePost(id, row, db.users[post.authorId], false);
  }

  /** `get_all_posts`: every post, oldest first, one page. */
  ghost function GetAllPosts(s: Snapshot, viewer: nat, offset: int, limit: int): (r: Result<seq<ContentItem>>)
    requires StoreValid(s)
    ensures NegativeBound(offset, limit) ==> r == Err(ValueError(NegativeIndexing))
    ensures r.Ok? ==> |r.value| <= limit || r.value == []
    ensures r.Ok? ==> forall i | 0 <= i < |r.value| :: ListedFrom(s, Post, AnyRow, viewer, r.value[i])
    ensures r.Ok? ==> forall i, j | 0 <= i < j < |r.value| :: InOrder(false, r.value[i], r.value[j])
    ensures r.Err? ==> r.error.InvalidEntityInput? || r.error == ValueError(NegativeIndexing)
  {
    DecodeListing(s, Post, AnyRow, false, offset, limit, viewer)
  }

  /** `get_posts_by_author_id`: the author's posts, oldest first, one page.
      An author without posts, or unknown, yields an empty list. */
  ghost function GetPostsByAuthorId(s: Snapshot, viewer: nat, author: nat, offset: int, limit: int)
    : (r: Result<seq<ContentItem>>)
    requires StoreValid(s)
    ensures NegativeBound(offset, limit) ==> r == Err(ValueError(NegativeIndexing))
    ensures r.Ok? ==> |r.value| <= limit || r.value == []
    ensures r.Ok? ==> forall i | 0 <= i < |r.value| :: ListedFrom(s, Post, AuthorIs(author), viewer, r.value[i])
    ensures r.Ok? ==> forall i | 0 <= i < |r.value| :: r.value[i].authorId == author
    ensures r.Ok? ==> forall i, j | 0 <= i < j < |r.value| :: InOrder(false, r.value[i], r.value[j])
    ensures r.Err? ==> r.error.InvalidEntityInput? || r.error == ValueError(NegativeIndexing)
  {
    DecodeListing(s, Post, AuthorIs(author), false, offset, limit, viewer)
  }

  /** `get_posts_by_following_ids`: the posts of the followed authors,
      oldest first, one page. */
  ghost function GetPostsByFollowingIds(s: Snapshot, viewer: nat, followingIds: seq<nat>, offset: int, limit: int)
    : (r: Result<seq<ContentItem>>)
    requires StoreValid(s)
    ensures NegativeBound(offset, limit) ==> r == Err(ValueError(NegativeIndexing))
    ensures r.Ok? ==> |r.value| <= limit || r.value == []
    ensures r.Ok? ==> forall i | 0 <= i < |r.value| :: ListedFrom(s, Post, AuthorIn(followingIds), viewer, r.value[i])
    ensures r.Ok? ==> forall i | 0 <= i < |r.value| :: r.value[i].authorId in followingIds
    ensures r.Ok? ==> forall i, j | 0 <= i < j < |r.value| :: InOrder(false, r.value[i], r.value[j])
    ensures r.Err? ==> r.error.InvalidEntityInput? || r.error == ValueError(NegativeIndexing)
  {
    DecodeListing(s, Post, AuthorIn(followingIds), false, offset, limit, viewer)
  }

  /** Both update paths count a repost: once `repost_post` has committed
      and `flush_repost_counts` has run both of its passes, the original's
      "reposts_count" has risen by 2 beyond the delta that was already
      pending for it. */
  lemma RepostCountedTwice(rows: map<RowKey, Row>, h: Hashes, post: ContentItem, t: ContentType, id: nat, now: int)
    requires post.isRepost && post.repostOf.Some?
    requires RowKey(t, post.repostOf.value) in rows && RowKey(t, post.repostOf.value) != RowKey(Post, id)
    ensures var k := RowKey(t, post.repostOf.value);
      var row := RepostRow(post, t, now);
      var rows1 := RepostsAdjusted(rows[RowKey(Post, id) := row], post.repostOf, t, 1);
      var h1 := SaveEffect(h, Post, row);
      k in BothTablesFlushed(rows1, h1, RepostsCount) &&
      BothTablesFlushed(rows1, h1, RepostsCount)[k].repostsCount ==
        rows[k].repostsCount + Pending(h, KeyOf(k), RepostsCount) + 2
  {
    var k := RowKey(t, post.repostOf.value);
    var row := RepostRow(post, t, now);
    var rows0 := rows[RowKey(Post, id) := row];
    RepostsAdjustedEffect(rows0, post.repostOf, t, 1, k, RepostsCount);
    var rows1 := RepostsAdjusted(rows0, post.repostOf, t, 1);
    RepostEventEffect(h, row, 1, k, RepostsCount);
    BothTablesApply(rows1, SaveEffect(h, Post, row), RepostsCount, k);
  }

  /** Both update paths uncount a deleted repost: once `delete_post` has
      committed for a stored repost and `flush_repost_counts` has run both
      of its passes, the original's "reposts_count" has dropped by 2
      beyond the delta that was already pending for it. */
  lemma RepostDeleteCountedTwice(rows: map<RowKey, Row>, h: Hashes, post: ContentItem, t: ContentType, id: nat)
    requires post.isRepost && post.repostOf.Some?
    requires RowKey(Post, id) in rows
    requires var stored := rows[RowKey(Post, id)];
      stored.isRepost && stored.repostType == Some(t) && stored.repostItem == post.repostOf
    requires RowKey(t, post.repostOf.value) in rows && RowKey(t, post.repostOf.value) != RowKey(Post, id)
    ensures var k := RowKey(t, post.repostOf.value);
      var rows1 := RowsAfterDelete(rows, post, t, id);
      var h1 := DeleteEffect(h, Post, rows[RowKey(Post, id)]);
      k in BothTablesFlushed(rows1, h1, RepostsCount) &&
      BothTablesFlushed(rows1, h1, RepostsCount)[k].repostsCount ==
        rows[k].repostsCount + Pending(h, KeyOf(k), RepostsCount) - 2
  {
    var k := RowKey(t, post.repostOf.value);
    var stored := rows[RowKey(Post, id)];
    RepostsAdjustedEffect(rows, post.repostOf, t, -1, k, RepostsCount);
    var rows1 := RowsAfterDelete(rows, post, t, id);
    assert k in rows1 && rows1[k] == RepostsAdjusted(rows, post.repostOf, t, -1)[k];
    RepostEventEffect(h, stored, -1, k, RepostsCount);
    BothTablesApply(rows1, DeleteEffect(h, Post, stored), RepostsCount, k);
  }
}
