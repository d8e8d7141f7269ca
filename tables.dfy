/** The stored rows of the post and comment tables and of the two like
    tables, and the one kind of write the counter code performs on them:
    `filter(id=...).update(column=F(column) + delta)`. */
module Tables {
  import opened Common

  /** The three denormalised counter columns ("likes_count",
      "comments_count", "reposts_count"); the buffer hashes use the same
      names as their field names. */
  datatype Field = LikesCount | CommentsCount | RepostsCount

  /** A post or comment row. Posts leave the two parent columns empty. The
      repost columns hold the registry entry of the original's table and the
      original's id (a generic relation, not a foreign key). */
  datatype Row = Row(
    authorId: nat, content: string, createdAt: int, updatedAt: int,
    likesCount: int, commentsCount: int, repostsCount: int,
    isRepost: bool, repostType: Option<ContentType>, repostItem: Option<nat>,
    parentPost: Option<nat>, parentComment: Option<nat>)

  /** A LikePost or LikeComment row: who liked which item of that table. */
  datatype LikeRow = LikeRow(userId: nat, itemId: nat)

  /** The rows the code can create: a comment always names its post, a post
      has no parents, and a repost names its original. */
  predicate WellFormed(t: ContentType, row: Row) {
    (t == Post ==> row.parentPost.None? && row.parentComment.None?) &&
    (t == Comment ==> row.parentPost.Some?) &&
    (row.isRepost ==> row.repostType.Some? && row.repostItem.Some?)
  }

  /** The original a repost row points at. */
  function OriginalOf(row: Row): RowKey
    requires row.repostType.Some? && row.repostItem.Some?
  {
    RowKey(row.repostType.value, row.repostItem.value)
  }

  function Column(row: Row, f: Field): int {
    match f
    case LikesCount => row.likesCount
    case CommentsCount => row.commentsCount
    case RepostsCount => row.repostsCount
  }

  /** `F(column) + d` on one row: that column moves by `d` and nothing else
      in the row changes. */
  function AddToColumn(row: Row, f: Field, d: int): (r: Row)
    ensures Column(r, f) == Column(row, f) + d
    ensures forall g: Field | g != f :: Column(r, g) == Column(row, g)
    ensures r.(likesCount := row.likesCount, commentsCount := row.commentsCount,
               repostsCount := row.repostsCount) == row
  {
    match f
    case LikesCount => row.(likesCount := row.likesCount + d)
    case CommentsCount => row.(commentsCount := row.commentsCount + d)
    case RepostsCount => row.(repostsCount := row.repostsCount + d)
  }

  /** `filter(id=k.id).update(f=F(f) + d)` on table `k.table`: the addressed
      row moves, a missing row makes it a no-op, and no other row changes. */
  function UpdateColumn(rows: map<RowKey, Row>, k: RowKey, f: Field, d: int): (r: map<RowKey, Row>)
    ensures r.Keys == rows.Keys
    ensures k in rows ==> Column(r[k], f) == Column(rows[k], f) + d
    ensures k in rows ==> forall g: Field | g != f :: Column(r[k], g) == Column(rows[k], g)
    ensures forall k2 | k2 in rows && k2 != k :: r[k2] == rows[k2]
    ensures k !in rows ==> r == rows
  {
    if k in rows then rows[k := AddToColumn(rows[k], f, d)] else rows
  }

  /** Adding zero is no write at all. */
  lemma AddZero(row: Row, f: Field)
    ensures AddToColumn(row, f, 0) == row
  {
  }

  /** Two adjustments of one counter add up. */
  lemma UpdateColumnTwice(rows: map<RowKey, Row>, k: RowKey, f: Field, d1: int, d2: int)
    ensures UpdateColumn(UpdateColumn(rows, k, f, d1), k, f, d2) == UpdateColumn(rows, k, f, d1 + d2)
  {
    if k in rows {
      var once := UpdateColumn(UpdateColumn(rows, k, f, d1), k, f, d2);
      var both := UpdateColumn(rows, k, f, d1 + d2);
      assert once[k] == both[k];
    }
  }

  /** Adjustments of different rows or different counters commute. */
  lemma UpdateColumnCommute(rows: map<RowKey, Row>, k1: RowKey, f1: Field, d1: int,
                            k2: RowKey, f2: Field, d2: int)
    ensures UpdateColumn(UpdateColumn(rows, k1, f1, d1), k2, f2, d2) ==
            UpdateColumn(UpdateColumn(rows, k2, f2, d2), k1, f1, d1)
  {
    var a := UpdateColumn(UpdateColumn(rows, k1, f1, d1), k2, f2, d2);
    var b := UpdateColumn(UpdateColumn(rows, k2, f2, d2), k1, f1, d1);
    if k1 == k2 && k1 in rows {
      assert a[k1] == b[k1];
    }
  }
}
