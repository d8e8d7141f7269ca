/** The flush tasks (tasks.py): `flush_comment_counts` and
    `flush_repost_counts` drain the pending deltas of one counter field from
    the buffer into the store. Each scans the "post:*" keys and then the
    "comment:*" keys; for a key with a non-zero delta it adds the delta to
    the column of the row the key names and deletes the field. Each flush
    runs as one sequential step, as under its lock. */
module Tasks {
  import opened Common
  import opened BufferKeys
  import opened Tables
  import opened Signals
  import opened Database

  /** The keys `scan_iter(match="{t}:*")` returns. */
  function Scanned(h: Hashes, t: ContentType): set<string> {
    set key | key in h && MatchesPattern(key, t)
  }

  /** Whether the flush of field `f` over table `t` writes for `key`: the
      key matches "{t}:*" and its delta is non-zero. */
  predicate Drains(h: Hashes, t: ContentType, f: Field, key: string) {
    MatchesPattern(key, t) && Pending(h, key, f) != 0
  }

  /** The buffer once the keys in `done` have been visited: each drained
      key loses the field, and a hash left empty disappears. */
  function PartialHashes(h: Hashes, t: ContentType, f: Field, done: set<string>): Hashes {
    map key | key in h && !(key in done && Drains(h, t, f, key) && h[key].Keys <= {f}) ::
      if key in done && Drains(h, t, f, key) then h[key] - {f} else h[key]
  }

  /** The rows once the keys in `done` have been visited: each row whose
      key was drained gains its delta in column `f`. */
  function PartialRows(rows: map<RowKey, Row>, h: Hashes, t: ContentType, f: Field, done: set<string>)
    : map<RowKey, Row>
  {
    map k | k in rows ::
      if KeyOf(k) in done && Drains(h, t, f, KeyOf(k)) then AddToColumn(rows[k], f, Pending(h, KeyOf(k), f)) else rows[k]
  }

  /** The buffer and the rows after one full pass over "{t}:*". */
  function FlushedHashes(h: Hashes, t: ContentType, f: Field): Hashes {
    PartialHashes(h, t, f, Scanned(h, t))
  }

  function FlushedRows(rows: map<RowKey, Row>, h: Hashes, t: ContentType, f: Field): map<RowKey, Row> {
    PartialRows(rows, h, t, f, Scanned(h, t))
  }

  /** The key of a row of table `t` matches "{t}:*" and no other pattern. */
  lemma KeyMatches(k: RowKey, t: ContentType)
    ensures MatchesPattern(KeyOf(k), t) <==> k.table == t
  {
    KeyRoundTrip(k);
    CanonicalMatches(KeyOf(k), t);
  }

  /** Moving the visited key from the pending set to the visited set. */
  lemma MoveOne<T>(all: set<T>, keys: set<T>, x: T)
    requires x in keys && keys <= all
    ensures (all - keys) + {x} == all - (keys - {x})
  {
  }

  /** Before the loop nothing has been visited. */
  lemma PartialEmpty(rows: map<RowKey, Row>, h: Hashes, t: ContentType, f: Field)
    ensures PartialRows(rows, h, t, f, {}) == rows
    ensures PartialHashes(h, t, f, {}) == h
  {
  }

  /** Visiting one more key: the delta read is the original one, and the
      hdel leaves the buffer of the larger visited set. */
  lemma HashesStep(h: Hashes, t: ContentType, f: Field, done: set<string>, key: string)
    requires key in h && key !in done && MatchesPattern(key, t)
    ensures Pending(PartialHashes(h, t, f, done), key, f) == Pending(h, key, f)
    ensures Pending(h, key, f) != 0 ==> Del(PartialHashes(h, t, f, done), key, f) == PartialHashes(h, t, f, done + {key})
    ensures Pending(h, key, f) == 0 ==> PartialHashes(h, t, f, done) == PartialHashes(h, t, f, done + {key})
  {
    var before := PartialHashes(h, t, f, done);
    assert key in before && before[key] == h[key];
    if Pending(h, key, f) != 0 {
      DrainStep(h, t, f, done, key);
    } else {
      assert !Drains(h, t, f, key);
      assert PartialHashes(h, t, f, done) == PartialHashes(h, t, f, done + {key});
    }
  }

  /** The hdel of a drained key is the buffer of the larger visited set. */
  lemma DrainStep(h: Hashes, t: ContentType, f: Field, done: set<string>, key: string)
    requires key in h && key !in done && Drains(h, t, f, key)
    ensures Del(PartialHashes(h, t, f, done), key, f) == PartialHashes(h, t, f, done + {key})
  {
    var before, after := PartialHashes(h, t, f, done), PartialHashes(h, t, f, done + {key});
    assert key in before && before[key] == h[key];
    if h[key].Keys <= {f} {
      assert after == before - {key};
    } else {
      assert after == before[key := h[key] - {f}];
    }
  }

  /** Visiting one more key changes at most the row that key names. */
  lemma RowStepAt(rows: map<RowKey, Row>, h: Hashes, t: ContentType, f: Field, done: set<string>, key: string, k: RowKey)
    requires key !in done && k in rows
    ensures PartialRows(rows, h, t, f, done + {key})[k] ==
      if KeyOf(k) == key && Drains(h, t, f, key) then AddToColumn(rows[k], f, Pending(h, key, f))
      else PartialRows(rows, h, t, f, done)[k]
  {
  }

  /** Visiting one more key: the update of the row it names leaves the rows
      of the larger visited set. */
  lemma RowsStep(rows: map<RowKey, Row>, h: Hashes, t: ContentType, f: Field, done: set<string>, target: RowKey)
    requires KeyOf(target) !in done && MatchesPattern(KeyOf(target), t)
    ensures var key := KeyOf(target);
      Pending(h, key, f) != 0 ==>
        UpdateColumn(PartialRows(rows, h, t, f, done), target, f, Pending(h, key, f)) ==
        PartialRows(rows, h, t, f, done + {key})
    ensures var key := KeyOf(target);
      Pending(h, key, f) == 0 ==> PartialRows(rows, h, t, f, done) == PartialRows(rows, h, t, f, done + {key})
  {
    var key := KeyOf(target);
    var before, after := PartialRows(rows, h, t, f, done), PartialRows(rows, h, t, f, done + {key});
    var d := Pending(h, key, f);
    var upd := if d != 0 then UpdateColumn(before, target, f, d) else before;
    assert upd.Keys == after.Keys;
    forall k | k in rows
      ensures upd[k] == after[k]
    {
      RowStepAt(rows, h, t, f, done, key, k);
      KeyInjective(k, target);
    }
    assert upd == after;
  }

  /** The loop body for one scanned key: read the delta; when it is
      non-zero, add it to the column of the row with the key's id and delete
      the field. Stated against the state after the keys in `done` were
      visited, starting from rows `rows0` and buffer `h0`. */
  method FlushKey(db: Db, t: ContentType, f: Field, key: string,
                  ghost rows0: map<RowKey, Row>, ghost h0: Hashes, ghost done: set<string>)
    requires db.Valid() && AllCanonical(h0) && key in h0 && key !in done && MatchesPattern(key, t)
    requires db.rows == PartialRows(rows0, h0, t, f, done)
    requires db.buffer.hashes == PartialHashes(h0, t, f, done)
    modifies db, db.buffer
    ensures db.Valid()
    ensures db.rows == PartialRows(rows0, h0, t, f, done + {key})
    ensures db.buffer.hashes == PartialHashes(h0, t, f, done + {key})
    ensures db.likes == old(db.likes) && db.users == old(db.users) && db.nextId == old(db.nextId)
    ensures db.buffer.flushScheduled == old(db.buffer.flushScheduled)
    ensures db.buffer.commentFlushes == old(db.buffer.commentFlushes)
    ensures db.buffer.repostFlushes == old(db.buffer.repostFlushes)
  {
    CanonicalMatches(key, t);
    ghost var target := ParseKey(key).value;
    HashesStep(h0, t, f, done, key);
    RowsStep(rows0, h0, t, f, done, target);
    ApplyDelta(db, t, f, key);
  }

  /** The store writes for one key: when its delta is non-zero, the UPDATE
      of the row with the key's id and the hdel of the field. */
  method ApplyDelta(db: Db, t: ContentType, f: Field, key: string)
    requires db.Valid() && ParseKey(key).Some?
    modifies db, db.buffer
    ensures db.Valid()
    ensures var delta := Pending(old(db.buffer.hashes), key, f);
      db.rows == (if delta != 0 then UpdateColumn(old(db.rows), RowKey(t, ParseKey(key).value.id), f, delta) else old(db.rows)) &&
      db.buffer.hashes == (if delta != 0 then Del(old(db.buffer.hashes), key, f) else old(db.buffer.hashes))
    ensures db.likes == old(db.likes) && db.users == old(db.users) && db.nextId == old(db.nextId)
    ensures db.buffer.flushScheduled == old(db.buffer.flushScheduled)
    ensures db.buffer.commentFlushes == old(db.buffer.commentFlushes)
    ensures db.buffer.repostFlushes == old(db.buffer.repostFlushes)
  {
    var id := ParseDecimal(IdText(key)).value;
    var delta := Pending(db.buffer.hashes, key, f);
    if delta != 0 {
      var ok := db.UpdateCounter(RowKey(t, id), f, delta, false);
      db.buffer.HDel(key, f);
    }
  }

  /** One pass of a flush over "{t}:*" for field `f`: the loop of
      `flush_comment_counts` or `flush_repost_counts` for one table. The id
      is the text after the first colon of the key, as an integer. The
      update goes through even when no row has that id; the field is deleted
      either way. */
  method FlushTable(db: Db, t: ContentType, f: Field)
    requires db.Valid()
    modifies db, db.buffer
    ensures db.Valid()
    ensures db.rows == FlushedRows(old(db.rows), old(db.buffer.hashes), t, f)
    ensures db.buffer.hashes == FlushedHashes(old(db.buffer.hashes), t, f)
    ensures db.likes == old(db.likes) && db.users == old(db.users) && db.nextId == old(db.nextId)
    ensures db.buffer.flushScheduled == old(db.buffer.flushScheduled)
    ensures db.buffer.commentFlushes == old(db.buffer.commentFlushes)
    ensures db.buffer.repostFlushes == old(db.buffer.repostFlushes)
  {
    ghost var rows0, h0 := db.rows, db.buffer.hashes;
    var keys := Scanned(db.buffer.hashes, t);
    ghost var all, done: set<string> := keys, {};
    PartialEmpty(rows0, h0, t, f);
    while keys != {}
      invariant db.Valid()
      invariant done == all - keys && keys <= all
      invariant db.rows == PartialRows(rows0, h0, t, f, done)
      invariant db.buffer.hashes == PartialHashes(h0, t, f, done)
      invariant db.likes == old(db.likes) && db.users == old(db.users) && db.nextId == old(db.nextId)
      invariant db.buffer.flushScheduled == old(db.buffer.flushScheduled)
      invariant db.buffer.commentFlushes == old(db.buffer.commentFlushes)
      invariant db.buffer.repostFlushes == old(db.buffer.repostFlushes)
      decreases |keys|
    {
      var key :| key in keys;
      assert key in all;
      FlushKey(db, t, f, key, rows0, h0, done);
      MoveOne(all, keys, key);
      keys := keys - {key};
      done := done + {key};
    }
    assert done == all;
  }

  /** `flush_comment_counts`: the "comments_count" deltas, posts first. */
  method FlushCommentCounts(db: Db)
    requires db.Valid()
    modifies db, db.buffer
    ensures db.Valid()
    ensures var h1 := FlushedHashes(old(db.buffer.hashes), Post, CommentsCount);
      db.rows == FlushedRows(FlushedRows(old(db.rows), old(db.buffer.hashes), Post, CommentsCount), h1, Comment, CommentsCount) &&
      db.buffer.hashes == FlushedHashes(h1, Comment, CommentsCount)
    ensures db.likes == old(db.likes) && db.users == old(db.users) && db.nextId == old(db.nextId)
    ensures db.buffer.flushScheduled == old(db.buffer.flushScheduled)
    ensures db.buffer.commentFlushes == old(db.buffer.commentFlushes)
    ensures db.buffer.repostFlushes == old(db.buffer.repostFlushes)
  {
    FlushTable(db, Post, CommentsCount);
    FlushTable(db, Comment, CommentsCount);
  }

  /** `flush_repost_counts`: the "reposts_count" deltas, posts first. */
  method FlushRepostCounts(db: Db)
    requires db.Valid()
    modifies db, db.buffer
    ensures db.Valid()
    ensures var h1 := FlushedHashes(old(db.buffer.hashes), Post, RepostsCount);
      db.rows == FlushedRows(FlushedRows(old(db.rows), old(db.buffer.hashes), Post, RepostsCount), h1, Comment, RepostsCount) &&
      db.buffer.hashes == FlushedHashes(h1, Comment, RepostsCount)
    ensures db.likes == old(db.likes) && db.users == old(db.users) && db.nextId == old(db.nextId)
    ensures db.buffer.flushScheduled == old(db.buffer.flushScheduled)
    ensures db.buffer.commentFlushes == old(db.buffer.commentFlushes)
    ensures db.buffer.repostFlushes == old(db.buffer.repostFlushes)
  {
    FlushTable(db, Post, RepostsCount);
    FlushTable(db, Comment, RepostsCount);
  }

  /** Conservation: for every row of the flushed table, the column plus the
      pending delta is the same before and after the flush. */
  lemma FlushConserves(rows: map<RowKey, Row>, h: Hashes, t: ContentType, f: Field, k: RowKey)
    requires k in rows && k.table == t
    ensures k in FlushedRows(rows, h, t, f)
    ensures Column(FlushedRows(rows, h, t, f)[k], f) + Pending(FlushedHashes(h, t, f), KeyOf(k), f) ==
            Column(rows[k], f) + Pending(h, KeyOf(k), f)
  {
    KeyMatches(k, t);
  }

  /** After a flush, every row of the flushed table holds its column plus
      the delta that was pending for it. */
  lemma FlushApplies(rows: map<RowKey, Row>, h: Hashes, t: ContentType, f: Field, k: RowKey)
    requires k in rows && k.table == t
    ensures k in FlushedRows(rows, h, t, f)
    ensures Column(FlushedRows(rows, h, t, f)[k], f) == Column(rows[k], f) + Pending(h, KeyOf(k), f)
  {
    FlushConserves(rows, h, t, f, k);
    FlushDrains(h, t, f);
    KeyMatches(k, t);
    var h1 := FlushedHashes(h, t, f);
    if KeyOf(k) in h1 {
      assert !Drains(h1, t, f, KeyOf(k));
    }
  }

  /** A key whose delta is zero or absent is neither written nor deleted,
      and its row is not updated. */
  lemma ZeroDeltaUntouched(rows: map<RowKey, Row>, h: Hashes, t: ContentType, f: Field, key: string)
    requires key in h && Pending(h, key, f) == 0
    ensures key in FlushedHashes(h, t, f) && FlushedHashes(h, t, f)[key] == h[key]
    ensures forall k | k in rows && KeyOf(k) == key :: FlushedRows(rows, h, t, f)[k] == rows[k]
  {
  }

  /** After a flush no key of the table holds a non-zero delta of the field,
      so a second flush with no events in between writes nothing. */
  lemma FlushDrains(h: Hashes, t: ContentType, f: Field)
    ensures forall key | key in FlushedHashes(h, t, f) :: !Drains(FlushedHashes(h, t, f), t, f, key)
  {
    var h1 := FlushedHashes(h, t, f);
    forall key | key in h1
      ensures !Drains(h1, t, f, key)
    {
      if MatchesPattern(key, t) && Pending(h, key, f) != 0 {
        assert key in Scanned(h, t);
      }
    }
  }

  lemma FlushIdempotent(rows: map<RowKey, Row>, h: Hashes, t: ContentType, f: Field)
    ensures FlushedHashes(FlushedHashes(h, t, f), t, f) == FlushedHashes(h, t, f)
    ensures FlushedRows(FlushedRows(rows, h, t, f), FlushedHashes(h, t, f), t, f) == FlushedRows(rows, h, t, f)
  {
    FlushDrains(h, t, f);
    var h1 := FlushedHashes(h, t, f);
    var h2 := FlushedHashes(h1, t, f);
    assert h2.Keys == h1.Keys;
    var r1 := FlushedRows(rows, h, t, f);
    var r2 := FlushedRows(r1, h1, t, f);
    assert r2.Keys == r1.Keys;
    forall k | k in r1
      ensures r2[k] == r1[k]
    {
      if KeyOf(k) in h1 {
        assert !Drains(h1, t, f, KeyOf(k));
      }
    }
  }

  /** A flush touches only its own field: every other field of every key,
      and every other column of every row, is unchanged. */
  lemma FlushIsolatesField(rows: map<RowKey, Row>, h: Hashes, t: ContentType, f: Field, g: Field, key: string, k: RowKey)
    requires g != f && k in rows
    ensures Pending(FlushedHashes(h, t, f), key, g) == Pending(h, key, g)
    ensures k in FlushedRows(rows, h, t, f) && Column(FlushedRows(rows, h, t, f)[k], g) == Column(rows[k], g)
  {
    var h1 := FlushedHashes(h, t, f);
    if key in h && Drains(h, t, f, key) && key in Scanned(h, t) {
      if h[key].Keys <= {f} {
      } else {
        assert h1[key] == h[key] - {f};
      }
    }
  }

  /** A flush of one table leaves the rows and keys of the other table
      alone. */
  lemma FlushIsolatesTable(rows: map<RowKey, Row>, h: Hashes, t: ContentType, f: Field, k: RowKey)
    requires k in rows && k.table != t
    ensures k in FlushedRows(rows, h, t, f) && FlushedRows(rows, h, t, f)[k] == rows[k]
    ensures Pending(FlushedHashes(h, t, f), KeyOf(k), f) == Pending(h, KeyOf(k), f)
  {
    KeyMatches(k, t);
  }

  /** The rows after a two-pass flush of field `f` (`flush_comment_counts`
      and `flush_repost_counts`): the post pass, then the comment pass over
      what the post pass left in the buffer. */
  function BothTablesFlushed(rows: map<RowKey, Row>, h: Hashes, f: Field): map<RowKey, Row> {
    FlushedRows(FlushedRows(rows, h, Post, f), FlushedHashes(h, Post, f), Comment, f)
  }

  /** After the two-pass flush every stored row, post or comment, holds its
      column plus the delta that was pending for it before the flush. */
  lemma BothTablesApply(rows: map<RowKey, Row>, h: Hashes, f: Field, k: RowKey)
    requires k in rows
    ensures k in BothTablesFlushed(rows, h, f)
    ensures Column(BothTablesFlushed(rows, h, f)[k], f) == Column(rows[k], f) + Pending(h, KeyOf(k), f)
  {
    var rows1 := FlushedRows(rows, h, Post, f);
    var h1 := FlushedHashes(h, Post, f);
    if k.table == Post {
      FlushApplies(rows, h, Post, f, k);
      FlushIsolatesTable(rows1, h1, Comment, f, k);
    } else {
      FlushIsolatesTable(rows, h, Post, f, k);
      FlushApplies(rows1, h1, Comment, f, k);
    }
  }

  /** A delta for a row that does not exist is deleted with nothing
      written: the flush loses it. */
  lemma MissingRowDropsDelta(rows: map<RowKey, Row>, h: Hashes, t: ContentType, f: Field, k: RowKey)
    requires k !in rows && k.table == t && Pending(h, KeyOf(k), f) != 0
    ensures Pending(FlushedHashes(h, t, f), KeyOf(k), f) == 0
    ensures FlushedRows(rows, h, t, f).Keys == rows.Keys
  {
    KeyMatches(k, t);
    assert KeyOf(k) in Scanned(h, t);
  }
}
