/** The like repository (infrastructure/repository/like_repository.py):
    liking and unliking a post or comment, which inserts or deletes a row of
    the matching like table and moves the target's "likes_count" column in
    the same transaction, and looking a like up. Likes use only this
    synchronous path; no buffer hook watches the like tables. */
module LikeRepository {
  import opened Common
  import opened Tables
  import opened Entities
  import opened Database
  import opened ContentBaseRepository

  const AlreadyLiked := "已經按讚過了"
  const LikeMissing := "Like 不存在"

  function UnsupportedTypeMessage(tag: string): string {
    "Unsupported content type: " + tag
  }

  function MissingTargetMessage(tag: string): string {
    tag + " 不存在"
  }

  /** `_decode_orm_like`: a LikePost row is tagged "post", any other
      "comment". */
  function DecodeLike(k: RowKey, row: LikeRow): (r: Like)
    ensures r.id == Some(k.id) && r.userId == row.userId && r.contentItemId == row.itemId
    ensures r.contentType == k.table
    ensures NewLike(Some(k.id), row.userId, row.itemId, if k.table == Post then "post" else "comment") == Ok(r)
  {
    TagRoundTrip(k.table);
    Like(Some(k.id), row.userId, row.itemId, k.table)
  }

  /** `check_target_content_exists`: the tag must name a content table
      (InvalidEntityInput otherwise), and the table must hold a row with the
      id (EntityDoesNotExist otherwise). On success, the table. */
  function CheckTargetContentExists(rows: map<RowKey, Row>, tag: string, id: nat): (r: Result<ContentType>)
    ensures r.Ok? <==> ParseTag(tag).Some? && RowKey(ParseTag(tag).value, id) in rows
    ensures r.Ok? ==> TagText(r.value) == tag && RowKey(r.value, id) in rows
    ensures ParseTag(tag).None? ==> r == Err(InvalidEntityInput(UnsupportedTypeMessage(tag)))
    ensures ParseTag(tag).Some? && RowKey(ParseTag(tag).value, id) !in rows ==>
      r == Err(EntityDoesNotExist(MissingTargetMessage(tag)))
  {
    match ParseTag(tag)
    case None => Err(InvalidEntityInput(UnsupportedTypeMessage(tag)))
    case Some(t) =>
      if RowKey(t, id) !in rows then Err(EntityDoesNotExist(MissingTargetMessage(tag))) else Ok(t)
  }

  /** `switch_like_db`: the like table of a tag; any other tag raises
      KeyError at the dictionary lookup. */
  function SwitchLikeDb(tag: string): (r: Result<ContentType>)
    ensures r.Ok? <==> tag == "post" || tag == "comment"
    ensures r.Ok? ==> TagText(r.value) == tag
    ensures r.Err? ==> r == Err(KeyError(tag))
  {
    match ParseTag(tag)
    case Some(t) => Ok(t)
    case None => Err(KeyError(tag))
  }

  /** `adjust_likes_count(content_type, content_id, delta)`: a non-integer
      delta raises InvalidOperation, an unknown tag fails at the dictionary
      lookup with KeyError, both before any write; otherwise the addressed
      row's "likes_count" moves by the delta (no row: no-op). `storeFails`
      stands for the UPDATE raising DatabaseError. The guard against a
      missing table never fires: the function never raises
      InvalidEntityInput. */
  method AdjustLikesCount(db: Db, tag: string, id: nat, delta: Num, storeFails: bool) returns (r: Result<()>)
    requires db.Valid()
    modifies db
    ensures db.Valid()
    ensures db.likes == old(db.likes) && db.users == old(db.users) && db.nextId == old(db.nextId)
    ensures delta.NonInt? ==> r == Err(InvalidOperation(NotIntegerMessage(delta.typeName)))
    ensures delta.Int? && ParseTag(tag).None? ==> r == Err(KeyError(tag))
    ensures delta.Int? && ParseTag(tag).Some? && storeFails ==> r == Err(InvalidOperation(BadCounterChange))
    ensures r.Ok? <==> delta.Int? && ParseTag(tag).Some? && !storeFails
    ensures r.Err? ==> !r.error.InvalidEntityInput? && db.rows == old(db.rows)
    ensures r.Ok? ==> db.rows == UpdateColumn(old(db.rows), RowKey(ParseTag(tag).value, id), LikesCount, delta.n)
  {
    if delta.NonInt? {
      return Err(InvalidOperation(NotIntegerMessage(delta.typeName)));
    }
    var table := ParseTag(tag);
    if table.None? {
      return Err(KeyError(tag));
    }
    var ok := db.UpdateCounter(RowKey(table.value, id), LikesCount, delta.n, storeFails);
    if !ok {
      return Err(InvalidOperation(BadCounterChange));
    }
    r := Ok(());
  }

  /** `create_like`: a missing target raises EntityDoesNotExist before any
      write. Then, in one transaction, the like row is inserted and the
      target's "likes_count" gains 1. A repeated like breaks the unique
      constraint at the insert, which raises IntegrityError and becomes
      EntityAlreadyExists. An unknown user is caught only by the deferred
      foreign-key check, after the counter update. So a failed update still
      raises InvalidOperation first; otherwise the COMMIT at the end of the
      block raises IntegrityError, which is also EntityAlreadyExists. Every
      error rolls the tables back; only the id sequence is not rolled
      back. */
  method CreateLike(db: Db, like: Like, storeFails: bool) returns (r: Result<Like>)
    requires db.Valid()
    modifies db
    ensures db.Valid()
    ensures db.users == old(db.users)
    ensures RowKey(like.contentType, like.contentItemId) !in old(db.rows) ==>
      r == Err(EntityDoesNotExist(MissingTargetMessage(TagText(like.contentType)))) && unchanged(db)
    ensures RowKey(like.contentType, like.contentItemId) in old(db.rows) ==> db.nextId == old(db.nextId) + 1
    ensures RowKey(like.contentType, like.contentItemId) in old(db.rows) &&
            HasLike(old(db.likes), like.contentType, like.userId, like.contentItemId) ==>
      r == Err(EntityAlreadyExists(AlreadyLiked))
    ensures RowKey(like.contentType, like.contentItemId) in old(db.rows) &&
            !HasLike(old(db.likes), like.contentType, like.userId, like.contentItemId) && storeFails ==>
      r == Err(InvalidOperation(BadCounterChange))
    ensures RowKey(like.contentType, like.contentItemId) in old(db.rows) &&
            !HasLike(old(db.likes), like.contentType, like.userId, like.contentItemId) && !storeFails &&
            like.userId !in old(db.users) ==>
      r == Err(EntityAlreadyExists(AlreadyLiked))
    ensures r.Ok? <==>
      RowKey(like.contentType, like.contentItemId) in old(db.rows) &&
      !HasLike(old(db.likes), like.contentType, like.userId, like.contentItemId) && like.userId in old(db.users) &&
      !storeFails
    ensures r.Err? ==> db.rows == old(db.rows) && db.likes == old(db.likes)
    ensures r.Ok? ==>
      r.value == Like(Some(old(db.nextId)), like.userId, like.contentItemId, like.contentType) &&
      db.likes == old(db.likes)[RowKey(like.contentType, old(db.nextId)) := LikeRow(like.userId, like.contentItemId)] &&
      db.rows == UpdateColumn(old(db.rows), RowKey(like.contentType, like.contentItemId), LikesCount, 1)
  {
    var tag := TagText(like.contentType);
    TagRoundTrip(like.contentType);
    var target := CheckTargetContentExists(db.rows, tag, like.contentItemId);
    if target.Err? {
      return Err(target.error);
    }
    var table := SwitchLikeDb(tag);
    var before := db.State();
    var ins, keysHold := db.InsertLike(table.value, like.userId, like.contentItemId);
    if ins.Err? {
      return Err(EntityAlreadyExists(AlreadyLiked));
    }
    var adjusted := AdjustLikesCount(db, tag, like.contentItemId, Int(1), storeFails);
    if adjusted.Err? {
      db.Restore(before);
      return Err(adjusted.error);
    }
    if !keysHold {
      db.Restore(before);
      return Err(EntityAlreadyExists(AlreadyLiked));
    }
    r := Ok(DecodeLike(RowKey(table.value, ins.value), db.likes[RowKey(table.value, ins.value)]));
  }

  /** `delete_like`: in one transaction, the row with the like's id is
      deleted (none: EntityDoesNotExist) and the "likes_count" of the item
      the passed like names, not of the deleted row's item, loses 1; a
      failed counter update rolls the delete back. */
  method DeleteLike(db: Db, like: Like, storeFails: bool) returns (r: Result<()>)
    requires db.Valid()
    modifies db
    ensures db.Valid()
    ensures db.users == old(db.users) && db.nextId == old(db.nextId)
    ensures like.id.None? || RowKey(like.contentType, like.id.value) !in old(db.likes) ==>
      r == Err(EntityDoesNotExist(LikeMissing))
    ensures like.id.Some? && RowKey(like.contentType, like.id.value) in old(db.likes) && storeFails ==>
      r == Err(InvalidOperation(BadCounterChange))
    ensures r.Ok? <==> like.id.Some? && RowKey(like.contentType, like.id.value) in old(db.likes) && !storeFails
    ensures r.Err? ==> db.rows == old(db.rows) && db.likes == old(db.likes)
    ensures r.Ok? ==>
      db.likes == old(db.likes) - {RowKey(like.contentType, like.id.value)} &&
      db.rows == UpdateColumn(old(db.rows), RowKey(like.contentType, like.contentItemId), LikesCount, -1)
  {
    var tag := TagText(like.contentType);
    TagRoundTrip(like.contentType);
    var table := SwitchLikeDb(tag);
    if like.id.None? {
      // `filter(id=None)` selects no row.
      return Err(EntityDoesNotExist(LikeMissing));
    }
    var before := db.State();
    var deleted := db.DeleteLike(RowKey(table.value, like.id.value));
    if deleted == 0 {
      return Err(EntityDoesNotExist(LikeMissing));
    }
    var adjusted := AdjustLikesCount(db, tag, like.contentItemId, Int(-1), storeFails);
    if adjusted.Err? {
      db.Restore(before);
      return Err(adjusted.error);
    }
    r := Ok(());
  }

  /** `get_like_by_id`: after the target check, the like row of `user` for
      the item, or None when the user has not liked it. */
  ghost function GetLikeById(s: Snapshot, user: nat, contentId: nat, tag: string): (r: Result<Option<Like>>)
    ensures r.Err? <==> CheckTargetContentExists(s.rows, tag, contentId).Err?
    ensures r.Err? ==> r.error == CheckTargetContentExists(s.rows, tag, contentId).error
    ensures r == Ok(None) <==>
      CheckTargetContentExists(s.rows, tag, contentId).Ok? && !HasLike(s.likes, ParseTag(tag).value, user, contentId)
    ensures r.Ok? && r.value.Some? ==>
      var l := r.value.value;
      l.userId == user && l.contentItemId == contentId && TagText(l.contentType) == tag &&
      l.id.Some? && RowKey(l.contentType, l.id.value) in s.likes &&
      s.likes[RowKey(l.contentType, l.id.value)] == LikeRow(user, contentId)
  {
    match CheckTargetContentExists(s.rows, tag, contentId)
    case Err(e) => Err(e)
    case Ok(t) =>
      if HasLike(s.likes, t, user, contentId) then
        var k :| k in s.likes && k.table == t && s.likes[k] == LikeRow(user, contentId);
        Ok(Some(DecodeLike(k, s.likes[k])))
      else Ok(None)
  }

  /** A stored like is what the lookup finds: the unique constraint leaves
      exactly one row for the (user, item) pair. */
  lemma StoredLikeIsFound(s: Snapshot, k: RowKey)
    requires StoreValid(s) && k in s.likes && RowKey(k.table, s.likes[k].itemId) in s.rows
    ensures GetLikeById(s, s.likes[k].userId, s.likes[k].itemId, TagText(k.table)) == Ok(Some(DecodeLike(k, s.likes[k])))
  {
    var row := s.likes[k];
    TagRoundTrip(k.table);
    assert HasLike(s.likes, k.table, row.userId, row.itemId);
    var k' :| k' in s.likes && k'.table == k.table && s.likes[k'] == LikeRow(row.userId, row.itemId);
    assert k' == k;
  }

  /** Liking and then unliking the same item leaves its counter, and every
      other row, as it was. */
  lemma LikeThenUnlikeRestoresCount(rows: map<RowKey, Row>, k: RowKey)
    ensures UpdateColumn(UpdateColumn(rows, k, LikesCount, 1), k, LikesCount, -1) == rows
  {
    UpdateColumnTwice(rows, k, LikesCount, 1, -1);
    if k in rows {
      AddZero(rows[k], LikesCount);
      assert rows[k := rows[k]] == rows;
    }
  }
}
