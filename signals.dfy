/** The counter buffer and the lifecycle hooks that feed it
    (infrastructure/signals.py). The buffer is the store's set of hashes:
    each key "{type}:{id}" names a row and maps counter fields to pending
    deltas. The hooks run synchronously when a post or comment row is
    inserted or deleted, before the surrounding transaction commits. */
module Signals {
  import opened Common
  import opened BufferKeys
  import opened Tables

  type Hashes = map<string, map<Field, int>>

  /** `int(hget(key, field) or 0)`: an absent key or field reads as zero. */
  function Pending(h: Hashes, key: string, f: Field): int {
    if key in h && f in h[key] then h[key][f] else 0
  }

  /** `hincrby(key, field, d)`: creates the key and the field when absent.
      A field that reaches zero stays in the hash. */
  function IncrBy(h: Hashes, key: string, f: Field, d: int): (r: Hashes)
    ensures r.Keys == h.Keys + {key}
    ensures key in r && f in r[key] && r[key][f] == Pending(h, key, f) + d
    ensures forall k | k in h && k != key :: r[k] == h[k]
    ensures forall g: Field | g != f :: Pending(r, key, g) == Pending(h, key, g)
  {
    var fields := if key in h then h[key] else map[];
    h[key := fields[f := Pending(h, key, f) + d]]
  }

  /** `hdel(key, field)`; the store drops a hash whose last field is
      removed. */
  function Del(h: Hashes, key: string, f: Field): (r: Hashes)
    ensures Pending(r, key, f) == 0
    ensures key in r ==> f !in r[key]
    ensures forall g: Field | g != f :: Pending(r, key, g) == Pending(h, key, g)
    ensures forall k | k != key :: (k in r <==> k in h) && (k in h ==> r[k] == h[k])
    ensures r.Keys <= h.Keys
  {
    if key !in h then h
    else
      var rest := h[key] - {f};
      assert forall g: Field | g in h[key] && g != f :: g in rest;
      if h[key].Keys <= {f} then h - {key} else h[key := rest]
  }

  /** How a hook write moves the pending delta of any key and field. */
  lemma PendingIncrBy(h: Hashes, key: string, f: Field, d: int, k: string, g: Field)
    ensures Pending(IncrBy(h, key, f, d), k, g) == Pending(h, k, g) + (if k == key && g == f then d else 0)
  {
  }

  /** The key of the post a comment belongs to, and of its parent comment. */
  function PostKey(id: nat): string {
    KeyOf(RowKey(Post, id))
  }

  function CommentKey(id: nat): string {
    KeyOf(RowKey(Comment, id))
  }

  /** Whether `k` is one of the rows whose "comments_count" a comment event
      on `row` moves: its post, and its parent comment when it is nested;
      a falsy id names no row. */
  predicate CountsCommentOf(row: Row, k: RowKey) {
    (k.table == Post && Truthy(row.parentPost) && k.id == row.parentPost.value) ||
    (k.table == Comment && Truthy(row.parentComment) && k.id == row.parentComment.value)
  }

  /** The buffer writes of `increment_comment_count` (d = 1) and
      `decrement_comment_count` (d = -1). */
  function CommentEvent(h: Hashes, row: Row, d: int): Hashes {
    var h1 := if Truthy(row.parentPost) then IncrBy(h, PostKey(row.parentPost.value), CommentsCount, d) else h;
    if Truthy(row.parentComment) then IncrBy(h1, CommentKey(row.parentComment.value), CommentsCount, d) else h1
  }

  /** The buffer write of the four repost hooks: a repost moves the
      "reposts_count" of its original by `d`; other rows move nothing. */
  function RepostEvent(h: Hashes, row: Row, d: int): Hashes
    requires row.isRepost ==> row.repostType.Some? && row.repostItem.Some?
  {
    if row.isRepost then IncrBy(h, KeyOf(OriginalOf(row)), RepostsCount, d) else h
  }

  /** Everything the post_save receivers write for a newly inserted row of
      table `t` (for a comment both receivers run, in declaration order). */
  function SaveEffect(h: Hashes, t: ContentType, row: Row): Hashes
    requires row.isRepost ==> row.repostType.Some? && row.repostItem.Some?
  {
    match t
    case Post => RepostEvent(h, row, 1)
    case Comment => RepostEvent(CommentEvent(h, row, 1), row, 1)
  }

  /** Everything the post_delete receivers write for a deleted row. */
  function DeleteEffect(h: Hashes, t: ContentType, row: Row): Hashes
    requires row.isRepost ==> row.repostType.Some? && row.repostItem.Some?
  {
    match t
    case Post => RepostEvent(h, row, -1)
    case Comment => RepostEvent(CommentEvent(h, row, -1), row, -1)
  }

  /** Every key is of the "{type}:{id}" form that the hooks write. */
  predicate AllCanonical(h: Hashes) {
    forall k | k in h :: Canonical(k)
  }

  lemma IncrByCanonical(h: Hashes, k: RowKey, f: Field, d: int)
    requires AllCanonical(h)
    ensures AllCanonical(IncrBy(h, KeyOf(k), f, d))
  {
    KeyRoundTrip(k);
  }

  lemma DelCanonical(h: Hashes, key: string, f: Field)
    requires AllCanonical(h)
    ensures AllCanonical(Del(h, key, f))
  {
  }

  /** The hooks only ever write keys of the "{type}:{id}" form. */
  lemma EventsCanonical(h: Hashes, t: ContentType, row: Row, d: int)
    requires AllCanonical(h)
    requires row.isRepost ==> row.repostType.Some? && row.repostItem.Some?
    ensures AllCanonical(CommentEvent(h, row, d))
    ensures AllCanonical(RepostEvent(h, row, d))
    ensures AllCanonical(SaveEffect(h, t, row))
    ensures AllCanonical(DeleteEffect(h, t, row))
  {
    forall h0: Hashes, d0: int | AllCanonical(h0)
      ensures AllCanonical(CommentEvent(h0, row, d0))
      ensures AllCanonical(RepostEvent(h0, row, d0))
    {
      var h1 := if Truthy(row.parentPost) then IncrBy(h0, PostKey(row.parentPost.value), CommentsCount, d0) else h0;
      if Truthy(row.parentPost) {
        IncrByCanonical(h0, RowKey(Post, row.parentPost.value), CommentsCount, d0);
      }
      if Truthy(row.parentComment) {
        IncrByCanonical(h1, RowKey(Comment, row.parentComment.value), CommentsCount, d0);
      }
      if row.isRepost {
        IncrByCanonical(h0, OriginalOf(row), RepostsCount, d0);
      }
    }
  }

  /** A comment event moves "comments_count" of exactly its post and its
      parent comment by `d`, and no other field of any row. */
  lemma CommentEventEffect(h: Hashes, row: Row, d: int, k: RowKey, g: Field)
    ensures Pending(CommentEvent(h, row, d), KeyOf(k), g) ==
            Pending(h, KeyOf(k), g) + (if g == CommentsCount && CountsCommentOf(row, k) then d else 0)
  {
    var h1 := if Truthy(row.parentPost) then IncrBy(h, PostKey(row.parentPost.value), CommentsCount, d) else h;
    if Truthy(row.parentPost) {
      KeyInjective(k, RowKey(Post, row.parentPost.value));
      PendingIncrBy(h, PostKey(row.parentPost.value), CommentsCount, d, KeyOf(k), g);
    }
    if Truthy(row.parentComment) {
      KeyInjective(k, RowKey(Comment, row.parentComment.value));
      PendingIncrBy(h1, CommentKey(row.parentComment.value), CommentsCount, d, KeyOf(k), g);
    }
  }

  /** A repost event moves "reposts_count" of exactly the original by `d`;
      a row that is not a repost moves nothing. */
  lemma RepostEventEffect(h: Hashes, row: Row, d: int, k: RowKey, g: Field)
    requires row.isRepost ==> row.repostType.Some? && row.repostItem.Some?
    ensures Pending(RepostEvent(h, row, d), KeyOf(k), g) ==
            Pending(h, KeyOf(k), g) + (if g == RepostsCount && row.isRepost && k == OriginalOf(row) then d else 0)
  {
    if row.isRepost {
      KeyInjective(k, OriginalOf(row));
      PendingIncrBy(h, KeyOf(OriginalOf(row)), RepostsCount, d, KeyOf(k), g);
    }
  }

  /** Comment events never touch "reposts_count" and repost events never
      touch "comments_count", whatever the key. */
  lemma EventsSeparateFields(h: Hashes, row: Row, d: int, key: string)
    requires row.isRepost ==> row.repostType.Some? && row.repostItem.Some?
    ensures Pending(CommentEvent(h, row, d), key, RepostsCount) == Pending(h, key, RepostsCount)
    ensures Pending(RepostEvent(h, row, d), key, CommentsCount) == Pending(h, key, CommentsCount)
    ensures Pending(CommentEvent(h, row, d), key, LikesCount) == Pending(h, key, LikesCount)
    ensures Pending(RepostEvent(h, row, d), key, LikesCount) == Pending(h, key, LikesCount)
  {
    var h1 := if Truthy(row.parentPost) then IncrBy(h, PostKey(row.parentPost.value), CommentsCount, d) else h;
    if Truthy(row.parentPost) {
      PendingIncrBy(h, PostKey(row.parentPost.value), CommentsCount, d, key, RepostsCount);
      PendingIncrBy(h, PostKey(row.parentPost.value), CommentsCount, d, key, LikesCount);
    }
    if Truthy(row.parentComment) {
      PendingIncrBy(h1, CommentKey(row.parentComment.value), CommentsCount, d, key, RepostsCount);
      PendingIncrBy(h1, CommentKey(row.parentComment.value), CommentsCount, d, key, LikesCount);
    }
    if row.isRepost {
      PendingIncrBy(h, KeyOf(OriginalOf(row)), RepostsCount, d, key, CommentsCount);
      PendingIncrBy(h, KeyOf(OriginalOf(row)), RepostsCount, d, key, LikesCount);
    }
  }

  /** Inserting a row and deleting it again nets zero in every pending
      delta (the fields themselves may remain, holding zero). */
  lemma SaveThenDeleteNetsZero(h: Hashes, t: ContentType, row: Row, k: RowKey, g: Field)
    requires row.isRepost ==> row.repostType.Some? && row.repostItem.Some?
    ensures Pending(DeleteEffect(SaveEffect(h, t, row), t, row), KeyOf(k), g) == Pending(h, KeyOf(k), g)
  {
    var saved := SaveEffect(h, t, row);
    if t == Post {
      RepostEventEffect(h, row, 1, k, g);
      RepostEventEffect(saved, row, -1, k, g);
    } else {
      var c1 := CommentEvent(h, row, 1);
      var c2 := CommentEvent(saved, row, -1);
      CommentEventEffect(h, row, 1, k, g);
      RepostEventEffect(c1, row, 1, k, g);
      CommentEventEffect(saved, row, -1, k, g);
      RepostEventEffect(c2, row, -1, k, g);
    }
  }

  /** The flush bookkeeping of the buffer: whether the comment flush is
      scheduled, and how many comment and repost flushes have been
      enqueued. */
  datatype FlushFlags = FlushFlags(scheduled: bool, commentFlushes: nat, repostFlushes: nat)

  /** How the post_save or post_delete receivers of table `t` move the
      flags: each dispatch enqueues `flush_repost_counts` once, and on the
      comment table the comment receiver also ensures the comment flush is
      scheduled. */
  function AfterHook(fl: FlushFlags, t: ContentType): FlushFlags {
    match t
    case Post => fl.(repostFlushes := fl.repostFlushes + 1)
    case Comment => FlushFlags(true, fl.commentFlushes + (if fl.scheduled then 0 else 1), fl.repostFlushes + 1)
  }

  /** The comment flush is scheduled at most once: once a comment hook has
      run, further hooks of either table enqueue no more comment flushes,
      while every hook enqueues one more repost flush. */
  lemma {:induction false} CommentFlushScheduledOnce(fl: FlushFlags, ts: seq<ContentType>)
    requires Comment in ts
    ensures AfterHooks(fl, ts).scheduled
    ensures AfterHooks(fl, ts).commentFlushes == fl.commentFlushes + (if fl.scheduled then 0 else 1)
    ensures AfterHooks(fl, ts).repostFlushes == fl.repostFlushes + |ts|
    decreases |ts|
  {
    var last := ts[|ts| - 1];
    var prefix := ts[..|ts| - 1];
    assert ts == prefix + [last];
    if Comment in prefix {
      CommentFlushScheduledOnce(fl, prefix);
    } else {
      PostHooksKeepComment(fl, prefix);
    }
  }

  /** The flags after the receivers of each table in `ts` have run, in
      order. */
  function AfterHooks(fl: FlushFlags, ts: seq<ContentType>): FlushFlags
    decreases |ts|
  {
    if ts == [] then fl else AfterHook(AfterHooks(fl, ts[..|ts| - 1]), ts[|ts| - 1])
  }

  /** Post hooks alone leave the comment flush alone. */
  lemma {:induction false} PostHooksKeepComment(fl: FlushFlags, ts: seq<ContentType>)
    requires Comment !in ts
    ensures AfterHooks(fl, ts).scheduled == fl.scheduled
    ensures AfterHooks(fl, ts).commentFlushes == fl.commentFlushes
    ensures AfterHooks(fl, ts).repostFlushes == fl.repostFlushes + |ts|
    decreases |ts|
  {
    if ts != [] {
      var prefix := ts[..|ts| - 1];
      assert forall i | 0 <= i < |prefix| :: prefix[i] == ts[i];
      PostHooksKeepComment(fl, prefix);
    }
  }

  /** The buffer of one worker: the hashes, the thread-local
      "flush_scheduled" flag, and how many times each flush task has been
      scheduled (`flush_comment_counts` through `transaction.on_commit`,
      `flush_repost_counts` through `.delay()` straight away). */
  class CounterBuffer {
    var hashes: Hashes
    var flushScheduled: bool
    var commentFlushes: nat
    var repostFlushes: nat

    /** The flush bookkeeping as a value. */
    function Flags(): FlushFlags
      reads this
    {
      FlushFlags(flushScheduled, commentFlushes, repostFlushes)
    }

    /** Only hook-built keys are present, and the comment flush has been
        scheduled once exactly when the flag is set. */
    ghost predicate Valid()
      reads this
    {
      AllCanonical(hashes) && commentFlushes == (if flushScheduled then 1 else 0)
    }

    constructor ()
      ensures Valid()
      ensures hashes == map[] && !flushScheduled && commentFlushes == 0 && repostFlushes == 0
    {
      hashes := map[];
      flushScheduled := false;
      commentFlushes := 0;
      repostFlushes := 0;
    }

    /** `_ensure_flush_scheduled`: registers the comment flush only while the
        flag is unset, then sets it. Nothing clears the flag. */
    method EnsureFlushScheduled()
      requires Valid()
      modifies this
      ensures Valid()
      ensures flushScheduled && commentFlushes == 1
      ensures commentFlushes == old(commentFlushes) + (if old(flushScheduled) then 0 else 1)
      ensures hashes == old(hashes) && repostFlushes == old(repostFlushes)
    {
      if !flushScheduled {
        commentFlushes := commentFlushes + 1;
        flushScheduled := true;
      }
    }

    /** `hdel(key, field)` as the flush performs it. */
    method HDel(key: string, f: Field)
      requires Valid()
      modifies this
      ensures Valid()
      ensures hashes == Del(old(hashes), key, f)
      ensures flushScheduled == old(flushScheduled) && commentFlushes == old(commentFlushes)
      ensures repostFlushes == old(repostFlushes)
    {
      DelCanonical(hashes, key, f);
      hashes := Del(hashes, key, f);
    }

    /** `increment_comment_count` (post_save of a comment). */
    method IncrementCommentCount(row: Row, created: bool)
      requires Valid()
      modifies this
      ensures Valid()
      ensures !created ==> unchanged(this)
      ensures created ==> hashes == CommentEvent(old(hashes), row, 1) && flushScheduled
      ensures created ==> commentFlushes == old(commentFlushes) + (if old(flushScheduled) then 0 else 1)
      ensures repostFlushes == old(repostFlushes)
    {
      if !created {
        return;
      }
      EventsCanonical(hashes, Comment, row.(isRepost := false), 1);
      if Truthy(row.parentPost) {
        hashes := IncrBy(hashes, PostKey(row.parentPost.value), CommentsCount, 1);
      }
      if Truthy(row.parentComment) {
        hashes := IncrBy(hashes, CommentKey(row.parentComment.value), CommentsCount, 1);
      }
      EnsureFlushScheduled();
    }

    /** `decrement_comment_count` (post_delete of a comment). */
    method DecrementCommentCount(row: Row)
      requires Valid()
      modifies this
      ensures Valid()
      ensures hashes == CommentEvent(old(hashes), row, -1) && flushScheduled
      ensures commentFlushes == old(commentFlushes) + (if old(flushScheduled) then 0 else 1)
      ensures repostFlushes == old(repostFlushes)
    {
      EventsCanonical(hashes, Comment, row.(isRepost := false), -1);
      if Truthy(row.parentPost) {
        hashes := IncrBy(hashes, PostKey(row.parentPost.value), CommentsCount, -1);
      }
      if Truthy(row.parentComment) {
        hashes := IncrBy(hashes, CommentKey(row.parentComment.value), CommentsCount, -1);
      }
      EnsureFlushScheduled();
    }

    /** The shared body of the four repost hooks: move the original's
        "reposts_count" by `d` when the row is a repost, then schedule the
        repost flush unconditionally. */
    method RepostHook(row: Row, d: int)
      requires Valid()
      requires row.isRepost ==> row.repostType.Some? && row.repostItem.Some?
      modifies this
      ensures Valid()
      ensures hashes == RepostEvent(old(hashes), row, d)
      ensures repostFlushes == old(repostFlushes) + 1
      ensures flushScheduled == old(flushScheduled) && commentFlushes == old(commentFlushes)
    {
      if row.isRepost {
        IncrByCanonical(hashes, OriginalOf(row), RepostsCount, d);
        hashes := IncrBy(hashes, KeyOf(OriginalOf(row)), RepostsCount, d);
      }
      repostFlushes := repostFlushes + 1;
    }

    /** `increment_post_reposts_count` (post_save of a post). */
    method IncrementPostRepostsCount(row: Row, created: bool)
      requires Valid()
      requires row.isRepost ==> row.repostType.Some? && row.repostItem.Some?
      modifies this
      ensures Valid()
      ensures !created ==> unchanged(this)
      ensures created ==> hashes == RepostEvent(old(hashes), row, 1) && repostFlushes == old(repostFlushes) + 1
      ensures flushScheduled == old(flushScheduled) && commentFlushes == old(commentFlushes)
    {
      if !created {
        return;
      }
      RepostHook(row, 1);
    }

    /** `increment_comment_reposts_count` (post_save of a comment). */
    method IncrementCommentRepostsCount(row: Row, created: bool)
      requires Valid()
      requires row.isRepost ==> row.repostType.Some? && row.repostItem.Some?
      modifies this
      ensures Valid()
      ensures !created ==> unchanged(this)
      ensures created ==> hashes == RepostEvent(old(hashes), row, 1) && repostFlushes == old(repostFlushes) + 1
      ensures flushScheduled == old(flushScheduled) && commentFlushes == old(commentFlushes)
    {
      if !created {
        return;
      }
      RepostHook(row, 1);
    }

    /** `decrement_post_reposts_count` (post_delete of a post). */
    method DecrementPostRepostsCount(row: Row)
      requires Valid()
      requires row.isRepost ==> row.repostType.Some? && row.repostItem.Some?
      modifies this
      ensures Valid()
      ensures hashes == RepostEvent(old(hashes), row, -1) && repostFlushes == old(repostFlushes) + 1
      ensures flushScheduled == old(flushScheduled) && commentFlushes == old(commentFlushes)
    {
      RepostHook(row, -1);
    }

    /** `decrement_comment_reposts_count` (post_delete of a comment). */
    method DecrementCommentRepostsCount(row: Row)
      requires Valid()
      requires row.isRepost ==> row.repostType.Some? && row.repostItem.Some?
      modifies this
      ensures Valid()
      ensures hashes == RepostEvent(old(hashes), row, -1) && repostFlushes == old(repostFlushes) + 1
      ensures flushScheduled == old(flushScheduled) && commentFlushes == old(commentFlushes)
    {
      RepostHook(row, -1);
    }

    /** The post_save dispatch for an inserted row of table `t`. */
    method ContentSaved(t: ContentType, row: Row)
      requires Valid()
      requires row.isRepost ==> row.repostType.Some? && row.repostItem.Some?
      modifies this
      ensures Valid()
      ensures hashes == SaveEffect(old(hashes), t, row)
      ensures repostFlushes == old(repostFlushes) + 1
      ensures Flags() == AfterHook(old(Flags()), t)
      ensures t == Post ==> flushScheduled == old(flushScheduled) && commentFlushes == old(commentFlushes)
      ensures t == Comment ==>
        flushScheduled && commentFlushes == old(commentFlushes) + (if old(flushScheduled) then 0 else 1)
    {
      match t
      case Post =>
        IncrementPostRepostsCount(row, true);
      case Comment =>
        IncrementCommentCount(row, true);
        IncrementCommentRepostsCount(row, true);
    }

    /** The post_delete dispatch for a deleted row of table `t`. */
    method ContentDeleted(t: ContentType, row: Row)
      requires Valid()
      requires row.isRepost ==> row.repostType.Some? && row.repostItem.Some?
      modifies this
      ensures Valid()
      ensures hashes == DeleteEffect(old(hashes), t, row)
      ensures repostFlushes == old(repostFlushes) + 1
      ensures Flags() == AfterHook(old(Flags()), t)
      ensures t == Post ==> flushScheduled == old(flushScheduled) && commentFlushes == old(commentFlushes)
      ensures t == Comment ==>
        flushScheduled && commentFlushes == old(commentFlushes) + (if old(flushScheduled) then 0 else 1)
    {
      match t
      case Post =>
        DecrementPostRepostsCount(row);
      case Comment =>
        DecrementCommentCount(row);
        DecrementCommentRepostsCount(row);
    }
  }
}
