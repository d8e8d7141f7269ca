/** What the post and comment repositories share
    (infrastructure/repository/content_base_repository.py): decoding a
    stored row into a domain item, the tag lookups, and the two synchronous
    counter adjustments. */
module ContentBaseRepository {
  import opened Common
  import opened Tables
  import opened Entities
  import opened Database
  import opened Queries

  const PostDecodeFailed := "Post 資料不符合規則"
  const CommentDecodeFailed := "Comment 資料不符合規則"
  const UnsupportedContentType := "不支援的ContentType"
  const UnsupportedRepostSource := "不支援的轉發來源類型"
  const BadCounterChange := "錯誤的快取變動"
  const UnsupportedKind := "不支援的內容類型"

  /** The message of the `isinstance(delta, int)` guard. */
  function NotIntegerMessage(typeName: string): string {
    "快取更新必需是整數1/-1，但收到的是 " + typeName
  }

  /** What the decoders copy into `repost_of_content_type`: the id of the
      registry entry of the original's table (standing for the integer), not
      its string tag. */
  function RegistryTag(t: Option<ContentType>): RawTag {
    match t
    case Some(c) => RegistryId(c)
    case None => NoTag
  }

  /** The domain item a row decodes to before validation. */
  function RowItem(id: nat, row: Row, authorName: string, isLiked: bool, kind: ItemKind): ContentItem {
    ContentItem(
      Some(id), row.authorId, row.content, Some(authorName), Some(row.createdAt), Some(row.updatedAt),
      row.likesCount, row.commentsCount, row.repostsCount, isLiked,
      row.isRepost, row.repostItem, RegistryTag(row.repostType), kind)
  }

  /** `_decode_orm_post`: the row's columns become a Post; a row that breaks
      a domain rule raises InvalidEntityInput instead. */
  function DecodePost(id: nat, row: Row, authorName: string, isLiked: bool): (r: Result<ContentItem>)
    ensures r.Ok? <==>
      ValidContent(row.content) && row.likesCount >= 0 && row.commentsCount >= 0 && row.repostsCount >= 0
    ensures r.Err? ==> r == Err(InvalidEntityInput(PostDecodeFailed))
    ensures r.Ok? ==> r.value == RowItem(id, row, authorName, isLiked, PostItem) && ValidItem(r.value)
  {
    var d := RowItem(id, row, authorName, isLiked, PostItem);
    match NewContentItem(d, row.createdAt)
    case Ok(item) => Ok(item)
    case Err(_) => Err(InvalidEntityInput(PostDecodeFailed))
  }

  /** `_decode_orm_comment`: as for posts, with the parent post's id and the
      parent comment's id, None when the row has no parent comment. */
  function DecodeComment(id: nat, row: Row, authorName: string, isLiked: bool): (r: Result<ContentItem>)
    requires row.parentPost.Some?
    ensures r.Ok? <==>
      ValidContent(row.content) && row.likesCount >= 0 && row.commentsCount >= 0 && row.repostsCount >= 0
    ensures r.Err? ==> r == Err(InvalidEntityInput(CommentDecodeFailed))
    ensures r.Ok? ==>
      r.value == RowItem(id, row, authorName, isLiked, CommentItem(row.parentPost.value, row.parentComment)) &&
      ValidItem(r.value)
    ensures r.Ok? ==> (r.value.kind.parentCommentId.None? <==> row.parentComment.None?)
  {
    var d := RowItem(id, row, authorName, isLiked, CommentItem(row.parentPost.value, row.parentComment));
    match NewContentItem(d, row.createdAt)
    case Ok(item) => Ok(item)
    case Err(_) => Err(InvalidEntityInput(CommentDecodeFailed))
  }

  /** Decodes the row `k` of the store, whichever its table. */
  function DecodeRow(s: Snapshot, k: RowKey, isLiked: bool): (r: Result<ContentItem>)
    requires StoreValid(s) && k in s.rows
    ensures r.Ok? ==> r.value.id == Some(k.id) && r.value.authorId == s.rows[k].authorId
    ensures r.Ok? ==> r.value.createdAt == Some(s.rows[k].createdAt) && r.value.content == s.rows[k].content
    ensures r.Ok? ==> (r.value.kind.PostItem? <==> k.table == Post)
    ensures r.Ok? && k.table == Comment ==>
      Some(r.value.kind.parentPostId) == s.rows[k].parentPost && r.value.kind.parentCommentId == s.rows[k].parentComment
    ensures r.Ok? ==> r.value.isLiked == isLiked
    ensures r.Err? ==> r.error.InvalidEntityInput?
  {
    var row := s.rows[k];
    match k.table
    case Post => DecodePost(k.id, row, s.users[row.authorId], isLiked)
    case Comment => DecodeComment(k.id, row, s.users[row.authorId], isLiked)
  }

  /** `[decode(row) for row in rows]` over the rows `keys`, each annotated
      with whether `viewer` liked it: the first row that fails to decode
      makes the whole list fail. */
  function DecodeList(s: Snapshot, keys: seq<RowKey>, viewer: nat): (r: Result<seq<ContentItem>>)
    requires StoreValid(s)
    requires forall i | 0 <= i < |keys| :: keys[i] in s.rows
    ensures r.Ok? <==> forall i | 0 <= i < |keys| :: DecodeRow(s, keys[i], IsLiked(s, keys[i].table, viewer, keys[i].id)).Ok?
    ensures r.Ok? ==> |r.value| == |keys|
    ensures r.Ok? ==>
      forall i | 0 <= i < |keys| :: r.value[i] == DecodeRow(s, keys[i], IsLiked(s, keys[i].table, viewer, keys[i].id)).value
    ensures r.Err? ==> r.error.InvalidEntityInput?
    decreases |keys|
  {
    if |keys| == 0 then Ok([])
    else
      match DecodeRow(s, keys[0], IsLiked(s, keys[0].table, viewer, keys[0].id))
      case Err(e) => Err(e)
      case Ok(item) =>
        match DecodeList(s, keys[1..], viewer)
        case Err(e) => Err(e)
        case Ok(items) => Ok([item] + items)
  }

  /** A listed item is the decoded form of a row of table `t` that the
      filter selects, with the viewer's `is_liked` flag. */
  ghost predicate ListedFrom(s: Snapshot, t: ContentType, flt: RowFilter, viewer: nat, item: ContentItem) {
    item.id.Some? && RowKey(t, item.id.value) in s.rows &&
    Selects(flt, s.rows[RowKey(t, item.id.value)]) &&
    item.authorId == s.rows[RowKey(t, item.id.value)].authorId &&
    item.createdAt == Some(s.rows[RowKey(t, item.id.value)].createdAt) &&
    (item.kind.PostItem? <==> t == Post) &&
    (item.kind.CommentItem? ==>
       Some(item.kind.parentPostId) == s.rows[RowKey(t, item.id.value)].parentPost &&
       item.kind.parentCommentId == s.rows[RowKey(t, item.id.value)].parentComment) &&
    item.isLiked == IsLiked(s, t, viewer, item.id.value)
  }

  /** Query order on decoded items: oldest first, or newest first. */
  predicate InOrder(desc: bool, a: ContentItem, b: ContentItem) {
    a.createdAt.Some? && b.createdAt.Some? &&
    (if desc then a.createdAt.value >= b.createdAt.value else a.createdAt.value <= b.createdAt.value)
  }

  /** A list query: one page of the selected rows in query order, decoded. */
  ghost function DecodeListing(s: Snapshot, t: ContentType, flt: RowFilter, desc: bool,
                               offset: int, limit: int, viewer: nat): (r: Result<seq<ContentItem>>)
    requires StoreValid(s)
    ensures NegativeBound(offset, limit) <==> r == Err(ValueError(NegativeIndexing))
    ensures !NegativeBound(offset, limit) && limit <= 0 ==> r == Ok([])
    ensures r.Ok? ==> |r.value| <= limit || r.value == []
    ensures r.Ok? ==> forall i | 0 <= i < |r.value| :: ListedFrom(s, t, flt, viewer, r.value[i])
    ensures r.Ok? ==> forall i, j | 0 <= i < j < |r.value| :: InOrder(desc, r.value[i], r.value[j])
    ensures r.Err? ==> r.error.InvalidEntityInput? || r.error == ValueError(NegativeIndexing)
  {
    if NegativeBound(offset, limit) then Err(ValueError(NegativeIndexing))
    else
      var keys := Listing(s.rows, t, flt, desc, offset, SliceLimit(limit));
      DecodeListingFacts(s, t, flt, desc, offset, SliceLimit(limit), viewer);
      DecodeList(s, keys, viewer)
  }

  lemma DecodeListingFacts(s: Snapshot, t: ContentType, flt: RowFilter, desc: bool,
                           offset: nat, limit: nat, viewer: nat)
    requires StoreValid(s)
    ensures var r := DecodeList(s, Listing(s.rows, t, flt, desc, offset, limit), viewer);
      r.Ok? ==>
        (forall i | 0 <= i < |r.value| :: ListedFrom(s, t, flt, viewer, r.value[i])) &&
        (forall i, j | 0 <= i < j < |r.value| :: InOrder(desc, r.value[i], r.value[j]))
  {
    var keys := Listing(s.rows, t, flt, desc, offset, limit);
    var r := DecodeList(s, keys, viewer);
    if r.Ok? {
      forall i | 0 <= i < |r.value|
        ensures ListedFrom(s, t, flt, viewer, r.value[i])
      {
        assert r.value[i] == DecodeRow(s, keys[i], IsLiked(s, keys[i].table, viewer, keys[i].id)).value;
      }
      forall i, j | 0 <= i < j < |r.value|
        ensures InOrder(desc, r.value[i], r.value[j])
      {
        assert r.value[i] == DecodeRow(s, keys[i], IsLiked(s, keys[i].table, viewer, keys[i].id)).value;
        assert r.value[j] == DecodeRow(s, keys[j], IsLiked(s, keys[j].table, viewer, keys[j].id)).value;
        assert Precedes(s.rows, desc, keys[i], keys[j]);
      }
    }
  }

  /** The decoders never produce a tag that the counter code accepts: a
      decoded repost carries the registry id, and the lookup in
      `adjust_reposts_count` only knows "post" and "comment". */
  lemma DecodedRepostTagUnusable(s: Snapshot, k: RowKey, isLiked: bool)
    requires StoreValid(s) && k in s.rows
    ensures DecodeRow(s, k, isLiked).Ok? ==> TableOf(DecodeRow(s, k, isLiked).value.repostOfContentType).None?
  {
  }

  /** `get_content_type_from_literal`: only the tags "post" and "comment"
      resolve to a table; anything else, including a registry id, raises
      ValueError. */
  function ContentTypeFromLiteral(tag: RawTag): (r: Result<ContentType>)
    ensures r.Ok? <==> tag == TagString("post") || tag == TagString("comment")
    ensures r.Ok? ==> tag == TagString(TagText(r.value))
    ensures r.Err? ==> r == Err(ValueError(UnsupportedContentType))
  {
    match TableOf(tag)
    case Some(t) => Ok(t)
    case None => Err(ValueError(UnsupportedContentType))
  }

  /** The tag check of `_annotate_is_liked_for_content`: the like table to
      consult for a tag, or InvalidEntityInput. */
  function LikeTableFor(tag: string): (r: Result<ContentType>)
    ensures r.Ok? <==> tag == "post" || tag == "comment"
    ensures r.Ok? ==> TagText(r.value) == tag
    ensures r.Err? ==> r == Err(InvalidEntityInput(UnsupportedKind))
  {
    match ParseTag(tag)
    case Some(t) => Ok(t)
    case None => Err(InvalidEntityInput(UnsupportedKind))
  }

  /** The `is_liked` annotation for item `item` of a table: whether the
      viewer has a like row for it. */
  predicate IsLiked(s: Snapshot, t: ContentType, viewer: nat, item: nat) {
    HasLike(s.likes, t, viewer, item)
  }

  /** The rows after `adjust_reposts_count` succeeds: `filter(id=repost_of)`
      on the tagged table, where `id=None` selects no row. */
  function RepostsAdjusted(rows: map<RowKey, Row>, repostOf: Option<nat>, t: ContentType, d: int): map<RowKey, Row> {
    if repostOf.Some? then UpdateColumn(rows, RowKey(t, repostOf.value), RepostsCount, d) else rows
  }

  /** Exactly the original's "reposts_count" moves, by `d`. */
  lemma RepostsAdjustedEffect(rows: map<RowKey, Row>, repostOf: Option<nat>, t: ContentType, d: int, k: RowKey, f: Field)
    requires k in rows
    ensures k in RepostsAdjusted(rows, repostOf, t, d)
    ensures Column(RepostsAdjusted(rows, repostOf, t, d)[k], f) ==
            Column(rows[k], f) + (if f == RepostsCount && repostOf == Some(k.id) && k.table == t then d else 0)
  {
  }

  /** The rows after `adjust_comments_count` succeeds: the parent comment
      when its id is truthy, then the parent post. */
  function CommentsAdjusted(rows: map<RowKey, Row>, postId: Option<nat>, commentId: Option<nat>, d: int): map<RowKey, Row> {
    var afterComment := if Truthy(commentId) then UpdateColumn(rows, RowKey(Comment, commentId.value), CommentsCount, d) else rows;
    if postId.Some? then UpdateColumn(afterComment, RowKey(Post, postId.value), CommentsCount, d) else afterComment
  }

  /** The post always moves (when the id names a row), the parent comment
      only when its id is truthy, and nothing else. */
  lemma CommentsAdjustedEffect(rows: map<RowKey, Row>, postId: Option<nat>, commentId: Option<nat>, d: int, k: RowKey, f: Field)
    requires k in rows
    ensures k in CommentsAdjusted(rows, postId, commentId, d)
    ensures Column(CommentsAdjusted(rows, postId, commentId, d)[k], f) ==
            Column(rows[k], f) +
            (if f == CommentsCount &&
                ((k.table == Post && postId == Some(k.id)) ||
                 (k.table == Comment && Truthy(commentId) && commentId == Some(k.id)))
             then d else 0)
  {
  }

  /** `adjust_reposts_count(repost_of, repost_of_content_type, delta)`.
      `storeFails` stands for the UPDATE raising DatabaseError. */
  method AdjustRepostsCount(db: Db, repostOf: Option<nat>, tag: RawTag, delta: Num, storeFails: bool)
    returns (r: Result<()>)
    requires db.Valid()
    modifies db
    ensures db.Valid()
    ensures db.likes == old(db.likes) && db.users == old(db.users) && db.nextId == old(db.nextId)
    ensures delta.NonInt? ==> r == Err(InvalidOperation(NotIntegerMessage(delta.typeName)))
    ensures delta.Int? && TableOf(tag).None? ==> r == Err(InvalidEntityInput(UnsupportedRepostSource))
    ensures delta.Int? && TableOf(tag).Some? && storeFails ==> r == Err(InvalidOperation(BadCounterChange))
    ensures r.Ok? <==> delta.Int? && TableOf(tag).Some? && !storeFails
    ensures r.Err? ==> db.rows == old(db.rows)
    ensures r.Ok? ==> db.rows == RepostsAdjusted(old(db.rows), repostOf, TableOf(tag).value, delta.n)
  {
    if delta.NonInt? {
      return Err(InvalidOperation(NotIntegerMessage(delta.typeName)));
    }
    var table := TableOf(tag);
    if table.None? {
      return Err(InvalidEntityInput(UnsupportedRepostSource));
    }
    if repostOf.None? {
      // `filter(id=None)` selects no row; the UPDATE still runs.
      if storeFails {
        return Err(InvalidOperation(BadCounterChange));
      }
      return Ok(());
    }
    var ok := db.UpdateCounter(RowKey(table.value, repostOf.value), RepostsCount, delta.n, storeFails);
    if !ok {
      return Err(InvalidOperation(BadCounterChange));
    }
    r := Ok(());
  }

  /** `adjust_comments_count(parent_post_id, parent_comment_id, delta)`.
      `storeFails` stands for the first UPDATE raising DatabaseError. */
  method AdjustCommentsCount(db: Db, postId: Option<nat>, commentId: Option<nat>, delta: Num, storeFails: bool)
    returns (r: Result<()>)
    requires db.Valid()
    modifies db
    ensures db.Valid()
    ensures db.likes == old(db.likes) && db.users == old(db.users) && db.nextId == old(db.nextId)
    ensures delta.NonInt? ==> r == Err(InvalidOperation(NotIntegerMessage(delta.typeName)))
    ensures delta.Int? && storeFails ==> r == Err(InvalidOperation(BadCounterChange))
    ensures r.Ok? <==> delta.Int? && !storeFails
    ensures r.Err? ==> db.rows == old(db.rows)
    ensures r.Ok? ==> db.rows == CommentsAdjusted(old(db.rows), postId, commentId, delta.n)
  {
    if delta.NonInt? {
      return Err(InvalidOperation(NotIntegerMessage(delta.typeName)));
    }
    if storeFails {
      return Err(InvalidOperation(BadCounterChange));
    }
    var ok;
    if Truthy(commentId) {
      ok := db.UpdateCounter(RowKey(Comment, commentId.value), CommentsCount, delta.n, false);
    }
    if postId.Some? {
      ok := db.UpdateCounter(RowKey(Post, postId.value), CommentsCount, delta.n, false);
    }
    r := Ok(());
  }
}
