/** The relational store as the repositories use it: the post and comment
    tables, the two like tables and the users, with the row-level writes
    that the ORM performs. Inserting or deleting a post or comment runs the
    post_save / post_delete receivers against the counter buffer at once,
    inside whatever transaction is open. */
module Database {
  import opened Common
  import opened Tables
  import opened Signals

  /** The tables of the store at one moment: what queries read and what a
      rollback restores (the users table is never written here). */
  datatype Snapshot = Snapshot(rows: map<RowKey, Row>, likes: map<RowKey, LikeRow>, users: map<nat, string>)

  /** Two like rows of one like table never record the same (user, item)
      pair: the tables' unique constraint. */
  predicate UniqueLikes(likes: map<RowKey, LikeRow>) {
    forall k1, k2 | k1 in likes && k2 in likes && k1.table == k2.table && likes[k1] == likes[k2] :: k1 == k2
  }

  /** Every row is one the code can create and has an existing author, and
      likes are unique. */
  predicate StoreValid(s: Snapshot) {
    (forall k | k in s.rows :: WellFormed(k.table, s.rows[k]) && s.rows[k].authorId in s.users) &&
    UniqueLikes(s.likes)
  }

  /** A valid store whose every id was drawn from the id sequence. */
  predicate TablesValid(s: Snapshot, nextId: nat) {
    1 <= nextId && StoreValid(s) &&
    (forall k | k in s.rows :: 1 <= k.id < nextId) &&
    (forall k | k in s.likes :: 1 <= k.id < nextId)
  }

  /** Drawing more ids keeps a snapshot valid. */
  lemma TablesValidLater(s: Snapshot, n: nat, m: nat)
    requires TablesValid(s, n) && n <= m
    ensures TablesValid(s, m)
  {
  }

  /** The foreign keys of a post or comment row: its author, and its parent
      post and parent comment when given. */
  predicate ForeignKeysHold(rows: map<RowKey, Row>, users: map<nat, string>, row: Row) {
    row.authorId in users &&
    (row.parentPost.Some? ==> RowKey(Post, row.parentPost.value) in rows) &&
    (row.parentComment.Some? ==> RowKey(Comment, row.parentComment.value) in rows)
  }

  /** Whether `user` has a like row for item `item` of table `t`. */
  predicate HasLike(likes: map<RowKey, LikeRow>, t: ContentType, user: nat, item: nat) {
    exists k | k in likes :: k.table == t && likes[k] == LikeRow(user, item)
  }

  const IntegrityMessage := "violates a constraint"

  class Db {
    var rows: map<RowKey, Row>
    var likes: map<RowKey, LikeRow>
    var users: map<nat, string>
    var nextId: nat
    const buffer: CounterBuffer

    ghost predicate Valid()
      reads this, buffer
    {
      buffer.Valid() && TablesValid(State(), nextId)
    }

    constructor (users0: map<nat, string>)
      ensures Valid() && fresh(buffer)
      ensures rows == map[] && likes == map[] && users == users0 && nextId == 1
      ensures buffer.hashes == map[] && !buffer.flushScheduled
    {
      rows := map[];
      likes := map[];
      users := users0;
      nextId := 1;
      buffer := new CounterBuffer();
    }

    function State(): Snapshot
      reads this
    {
      Snapshot(rows, likes, users)
    }

    /** Rolling back a transaction: the tables return to the snapshot; the id
        sequence and the buffer do not. */
    method Restore(s: Snapshot)
      requires Valid() && s.users == users && TablesValid(s, nextId)
      modifies this
      ensures Valid()
      ensures State() == s && nextId == old(nextId)
    {
      rows := s.rows;
      likes := s.likes;
    }

    /** `Model.objects.create(...)` of a post or comment row with no
        transaction open, so the INSERT commits at once. It draws the next
        id even when it fails; a broken foreign key raises IntegrityError
        and no receiver runs; otherwise the row is stored and the post_save
        receivers run with created=True. */
    method InsertContent(t: ContentType, row: Row) returns (r: Result<nat>)
      requires Valid() && WellFormed(t, row)
      modifies this, buffer
      ensures Valid()
      ensures nextId == old(nextId) + 1 && likes == old(likes) && users == old(users)
      ensures r.Ok? <==> ForeignKeysHold(old(rows), users, row)
      ensures r.Err? ==> r.error.IntegrityError? && rows == old(rows) && unchanged(buffer)
      ensures r.Ok? ==>
        r.value == old(nextId) && RowKey(t, r.value) !in old(rows) &&
        rows == old(rows)[RowKey(t, r.value) := row]
      ensures r.Ok? ==>
        buffer.hashes == SaveEffect(old(buffer.hashes), t, row) &&
        buffer.Flags() == AfterHook(old(buffer.Flags()), t)
    {
      var id := nextId;
      nextId := nextId + 1;
      if !ForeignKeysHold(rows, users, row) {
        return Err(IntegrityError(IntegrityMessage));
      }
      rows := rows[RowKey(t, id) := row];
      buffer.ContentSaved(t, row);
      r := Ok(id);
    }

    /** The same INSERT while a transaction is open. PostgreSQL defers the
        foreign-key check to COMMIT, so the statement goes through and the
        post_save receivers run whatever the row's keys; `keysHold` says
        whether the COMMIT will accept the row. A row with a broken key can
        only be rolled back with its block, so it is not kept in the tables
        here and the caller ends the block with an error. */
    method InsertContentInTransaction(t: ContentType, row: Row) returns (id: nat, keysHold: bool)
      requires Valid() && WellFormed(t, row)
      modifies this, buffer
      ensures Valid()
      ensures nextId == old(nextId) + 1 && likes == old(likes) && users == old(users)
      ensures id == old(nextId) && RowKey(t, id) !in old(rows)
      ensures keysHold == ForeignKeysHold(old(rows), users, row)
      ensures rows == if keysHold then old(rows)[RowKey(t, id) := row] else old(rows)
      ensures buffer.hashes == SaveEffect(old(buffer.hashes), t, row)
      ensures buffer.Flags() == AfterHook(old(buffer.Flags()), t)
    {
      id := nextId;
      nextId := nextId + 1;
      keysHold := ForeignKeysHold(rows, users, row);
      if keysHold {
        rows := rows[RowKey(t, id) := row];
      }
      buffer.ContentSaved(t, row);
    }

    /** `filter(id=k.id).delete()` (and `instance.delete()`) on a post or
        comment table: the number of rows removed; a removed row runs the
        post_delete receivers. */
    method DeleteContent(k: RowKey) returns (deleted: nat)
      requires Valid()
      modifies this, buffer
      ensures Valid()
      ensures nextId == old(nextId) && likes == old(likes) && users == old(users)
      ensures deleted == (if k in old(rows) then 1 else 0)
      ensures rows == old(rows) - {k}
      ensures k !in old(rows) ==> unchanged(buffer)
      ensures k in old(rows) ==>
        buffer.hashes == DeleteEffect(old(buffer.hashes), k.table, old(rows)[k]) &&
        buffer.Flags() == AfterHook(old(buffer.Flags()), k.table)
    {
      if k !in rows {
        return 0;
      }
      var row := rows[k];
      rows := rows - {k};
      buffer.ContentDeleted(k.table, row);
      deleted := 1;
    }

    /** `filter(id=k.id).update(f=F(f) + d)`. `fails` stands for the store
        raising DatabaseError, in which case nothing is written. */
    method UpdateCounter(k: RowKey, f: Field, d: int, fails: bool) returns (ok: bool)
      requires Valid()
      modifies this
      ensures Valid()
      ensures ok == !fails
      ensures rows == (if fails then old(rows) else UpdateColumn(old(rows), k, f, d))
      ensures likes == old(likes) && users == old(users) && nextId == old(nextId)
    {
      if fails {
        return false;
      }
      rows := UpdateColumn(rows, k, f, d);
      ok := true;
    }

    /** `filter(id=k.id).update(content=..., updated_at=...)`: the number of
        rows changed. A queryset update runs no receiver. */
    method UpdateText(k: RowKey, content: string, updatedAt: int) returns (changed: nat)
      requires Valid()
      modifies this
      ensures Valid()
      ensures changed == (if k in old(rows) then 1 else 0)
      ensures k in old(rows) ==> rows == old(rows)[k := old(rows)[k].(content := content, updatedAt := updatedAt)]
      ensures k !in old(rows) ==> rows == old(rows)
      ensures likes == old(likes) && users == old(users) && nextId == old(nextId)
    {
      if k !in rows {
        return 0;
      }
      rows := rows[k := rows[k].(content := content, updatedAt := updatedAt)];
      changed := 1;
    }

    /** `LikePost/LikeComment.objects.create(user_id=..., <item>=...)`
        inside the transaction of `create_like`. The INSERT draws the next
        id. The unique (user, item) constraint is checked at once, so a
        second like of the same item by the same user raises IntegrityError;
        the foreign keys to the user and the item wait for COMMIT, and
        `keysHold` says whether it will accept the row. */
    method InsertLike(t: ContentType, user: nat, item: nat) returns (r: Result<nat>, keysHold: bool)
      requires Valid()
      modifies this
      ensures Valid()
      ensures nextId == old(nextId) + 1 && rows == old(rows) && users == old(users)
      ensures keysHold == (user in users && RowKey(t, item) in rows)
      ensures r.Ok? <==> !HasLike(old(likes), t, user, item)
      ensures r.Err? ==> r.error.IntegrityError? && likes == old(likes)
      ensures r.Ok? ==>
        r.value == old(nextId) && RowKey(t, r.value) !in old(likes) &&
        likes == old(likes)[RowKey(t, r.value) := LikeRow(user, item)]
    {
      var id := nextId;
      nextId := nextId + 1;
      keysHold := user in users && RowKey(t, item) in rows;
      if HasLike(likes, t, user, item) {
        return Err(IntegrityError(IntegrityMessage)), keysHold;
      }
      likes := likes[RowKey(t, id) := LikeRow(user, item)];
      r := Ok(id);
    }

    /** `filter(id=k.id).delete()` on a like table: the number of rows
        removed. */
    method DeleteLike(k: RowKey) returns (deleted: nat)
      requires Valid()
      modifies this
      ensures Valid()
      ensures deleted == (if k in old(likes) then 1 else 0)
      ensures likes == old(likes) - {k}
      ensures rows == old(rows) && users == old(users) && nextId == old(nextId)
    {
      deleted := if k in likes then 1 else 0;
      likes := likes - {k};
    }
  }
}
