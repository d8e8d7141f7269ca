# Denormalised counters of the threads backend

This project models the counter machinery of a Django/Celery social
backend in Dafny. Posts and comments keep three denormalised counters:
`likes_count`, `comments_count` and `reposts_count`.

- **Likes.** Every like and unlike updates `likes_count` directly, with a
  single `UPDATE ... SET likes_count = likes_count + delta` inside the
  repository's transaction.
- **Comments and reposts.** These counters are not written at once.
  Creating or deleting a comment or a repost fires the ORM `post_save` or
  `post_delete` hooks. The hooks add `+1` or `-1` to a Redis hash: the
  key is `"{type}:{id}"` and the field is `comments_count` or
  `reposts_count`. The hooks also schedule the flush tasks. A flush scans
  the buffered keys of one table and adds each non-zero delta to its row.
  Then it deletes the field from the buffer.
- **Repost counts written twice by the post repository.** `repost_post`
  and `delete_post` also call `adjust_reposts_count`, which writes the
  original's `reposts_count` directly. A post repost is therefore counted
  twice. A repost made by `repost_comment` moves the original's count only
  through the buffer. The model proves this as it is written; it does not
  correct it.

What the model contains:

- **Entities.** The domain entities and their validation.
- **Buffer keys.** Their text format, and how a flush parses a key back.
- **The store.** Class `Database.Db` holds the tables. Its `buffer` is a
  `Signals.CounterBuffer`, a class with the pending hash and the
  flush-scheduling flags.
- **Hooks.** The six signal receivers, as methods of `CounterBuffer`.
  `Db` fires them when it inserts or deletes a row.
- **Flush tasks.** Written as loops over the scanned keys. Each is proved
  equal to a specification on values (`Tasks.FlushedRows` and
  `Tasks.FlushedHashes`), and the properties of the flush are proved
  about that specification.
- **Repositories.** Decoding of ORM rows, the counter adjusters, and the
  post, comment and like repositories.
- **Use cases.** `repost_content`, `create_like` and `create_comment`.

How store faults are modelled:

- A database fault in the counter `UPDATE` is a `storeFails` parameter.
- An integrity error at `INSERT` is a foreign-key check against the
  current tables. With no transaction open the INSERT commits at once and
  fails before any hook runs. Inside `transaction.atomic` PostgreSQL defers
  the foreign-key check to COMMIT: the INSERT goes through, the hooks run,
  and the block then fails and rolls back. A unique constraint is checked
  at the INSERT either way.
- `transaction.atomic` is a snapshot of the tables, restored when an
  error escapes.
- The id sequence and the Redis buffer are not transactional, so they are
  not restored.

## Model

| member | source | states |
|---|---|---|
| Common.TagRoundTrip | backend/threads/domain/enum.py:3-5 | the two content types and their tags "post"/"comment" parse back to each other, and no other text parses |
| BufferKeys.ParseDecimalOfText | backend/threads/tasks.py:26 | the decimal text of an id parses back to the same id |
| BufferKeys.SplitAtFirstColon | backend/threads/tasks.py:26 | `split(":", 1)` on `prefix + ":" + rest` with a colon-free prefix yields exactly that prefix and rest |
| BufferKeys.KeyRoundTrip | backend/threads/infrastructure/signals.py:26 | a key written by a hook (`"post:{id}"`, `"comment:{id}"`) splits to that table and the same id, and is canonical |
| BufferKeys.KeyInjective | backend/threads/infrastructure/signals.py:31 | two rows share a buffer key only if they are the same row |
| BufferKeys.CanonicalMatches | backend/threads/tasks.py:24 | a canonical key is matched by the scan pattern of its own table, and only by that one |
| Entities.EmailAcceptedIsPattern | backend/threads/domain/entities.py:26-29 | the executable email check accepts exactly the strings matching `^[\w\.-]+@[\w\.-]+\.\w+$` |
| Entities.NewUser | backend/threads/domain/entities.py:21-40 | Ok iff the username is 5..15 alphanumerics, the email matches and the counters are non-negative; each failure gives its own message, checked in the source's order |
| Entities.NewFollow | backend/threads/domain/entities.py:43-55 | Ok iff follower and followee differ; otherwise the self-follow error |
| Entities.NewLike | backend/threads/domain/entities.py:69-74 | Ok iff the tag is "post" or "comment"; otherwise the invalid-content-type error |
| Entities.VerifyLikeDeletableBy | backend/threads/domain/entities.py:64-66 | Ok iff the deleter is the user who liked |
| Entities.NewContentItem | backend/threads/domain/entities.py:99-123 | Ok iff the content has 1..255 characters and the counters are non-negative; errors in order; created_at defaults to now and updated_at to created_at; nothing else changes |
| Entities.UpdateContent | backend/threads/domain/entities.py:125-129 | Ok iff the editor is the author; the content and updated_at are replaced and every other field kept |
| Entities.VerifyDeletableBy | backend/threads/domain/entities.py:131-133 | Ok iff the deleter is the author |
| Entities.EditBypassesValidation | backend/threads/domain/entities.py:125-129 | an edit by the author succeeds with 256-character content, which construction refuses |
| Tables.UpdateColumn | backend/threads/tasks.py:29-31 | `filter(id=…).update(col=F(col)+delta)`: the matching row's column rises by delta, its other columns and every other row stay, and a missing id changes nothing |
| Tables.UpdateColumnTwice | backend/threads/tasks.py:29-31 | two updates of the same row and column equal one update by the sum |
| Tables.UpdateColumnCommute | backend/threads/tasks.py:29-31 | updates of counters commute |
| Signals.IncrBy | backend/threads/infrastructure/signals.py:28 | `hincrby`: the field becomes its pending value plus delta, and every other key and field keeps its value |
| Signals.Del | backend/threads/tasks.py:33 | `hdel`: the field reads 0 afterwards, other fields and keys are kept, and no key is added |
| Signals.PendingIncrBy | backend/threads/infrastructure/signals.py:28 | the pending value after `hincrby` as a function of key and field |
| Signals.EventsCanonical | backend/threads/infrastructure/signals.py:26-82 | every hook writes only canonical keys |
| Signals.CommentEventEffect | backend/threads/infrastructure/signals.py:20-49 | a comment event moves `comments_count` of the parent post (if truthy) and of the parent comment (if truthy) by the delta, and nothing else |
| Signals.RepostEventEffect | backend/threads/infrastructure/signals.py:52-82 | a repost event moves `reposts_count` of the original by the delta only when the row is a repost, and nothing else |
| Signals.EventsSeparateFields | backend/threads/infrastructure/signals.py:28 | comment hooks never touch `reposts_count`, repost hooks never touch `comments_count`, and neither touches `likes_count` |
| Signals.SaveThenDeleteNetsZero | backend/threads/infrastructure/signals.py:20-82 | saving then deleting the same row leaves every pending delta as it was |
| Signals.CounterBuffer.EnsureFlushScheduled | backend/threads/infrastructure/signals.py:13-17 | the comment flush is scheduled once: the flag is set and the schedule count rises only if the flag was clear |
| Signals.CounterBuffer.IncrementCommentCount | backend/threads/infrastructure/signals.py:20-35 | a created comment adds +1 to its parents' `comments_count` and ensures the flush is scheduled; an update does nothing |
| Signals.CounterBuffer.DecrementCommentCount | backend/threads/infrastructure/signals.py:37-49 | a deleted comment adds -1 to its parents and ensures the flush is scheduled |
| Signals.CounterBuffer.IncrementPostRepostsCount | backend/threads/infrastructure/signals.py:52-59 | a created post adds +1 to its original when it is a repost, and always enqueues a repost flush |
| Signals.CounterBuffer.IncrementCommentRepostsCount | backend/threads/infrastructure/signals.py:61-68 | the same for a created comment |
| Signals.CounterBuffer.DecrementPostRepostsCount | backend/threads/infrastructure/signals.py:70-75 | a deleted repost post adds -1 to its original; a repost flush is always enqueued |
| Signals.CounterBuffer.DecrementCommentRepostsCount | backend/threads/infrastructure/signals.py:77-82 | the same for a deleted comment |
| Signals.CounterBuffer.ContentSaved | backend/threads/infrastructure/signals.py:20-68 | every `post_save` receiver of the model runs in turn; the buffer becomes `SaveEffect` of the row and the flush flags move by `AfterHook` (one more repost flush; on a comment, the comment flush scheduled once) |
| Signals.CounterBuffer.ContentDeleted | backend/threads/infrastructure/signals.py:37-82 | every `post_delete` receiver runs in turn; the buffer becomes `DeleteEffect` of the row and the flush flags move by `AfterHook` |
| Signals.CommentFlushScheduledOnce | backend/threads/infrastructure/signals.py:13-17 | over any run of hooks that includes a comment's, the comment flush ends scheduled and was registered at most once, while every hook enqueued one repost flush |
| Signals.PostHooksKeepComment | backend/threads/infrastructure/signals.py:52-59 | post hooks alone leave the comment flush flag and count as they were and enqueue one repost flush each |
| Database.TablesValidLater | backend/threads/infrastructure/repository/post_repository.py:98-117 | a snapshot taken before a transaction stays restorable after the id sequence has advanced |
| Database.Db.Restore | backend/threads/infrastructure/repository/post_repository.py:98-117 | rolling back `transaction.atomic` restores the tables but not the id sequence or the buffer |
| Database.Db.InsertContent | backend/threads/infrastructure/repository/post_repository.py:21-24 | an `objects.create` outside any transaction: the id is drawn either way; integrity error iff a foreign key is dangling, with the buffer unchanged; otherwise the row is stored under that id, the hashes become `SaveEffect` and the flush flags move by `AfterHook` |
| Database.Db.DeleteContent | backend/threads/infrastructure/repository/post_repository.py:50-59 | a `filter(id=…).delete()`: returns how many rows went; for a deleted row the hashes become `DeleteEffect` and the flush flags move by `AfterHook` of its table (for a comment, the comment flush scheduled); otherwise the buffer is unchanged |
| Database.Db.UpdateCounter | backend/threads/infrastructure/repository/content_base_repository.py:111-114 | a counter `UPDATE` either fails and changes nothing, or is `UpdateColumn` |
| Database.Db.UpdateText | backend/threads/infrastructure/repository/comment_repository.py:75-81 | an `UPDATE` of content and updated_at that returns the number of rows changed |
| Database.Db.InsertContentInTransaction | backend/threads/infrastructure/repository/post_repository.py:104-112 | an `objects.create` inside `transaction.atomic`: the id is drawn, the hashes become `SaveEffect` and the flush flags move by `AfterHook` whatever the foreign keys; `keysHold` is exactly whether they hold; the row is stored under the id iff they do |
| Database.Db.InsertLike | backend/threads/infrastructure/repository/like_repository.py:103-107 | a like insert fails with an integrity error iff the (user, item) pair is already liked; otherwise the row is stored under the next id; `keysHold` is exactly whether the user and the item exist |
| Database.Db.DeleteLike | backend/threads/infrastructure/repository/like_repository.py:130-133 | a like delete returns how many rows went and touches nothing else |
| Queries.FirstExists | backend/threads/infrastructure/repository/post_repository.py:63-70 | every non-empty set of rows of one table has a first row under the listing order |
| Queries.Ordered | backend/threads/infrastructure/repository/post_repository.py:63-70 | `order_by` on `created_at`, ascending or descending, yields a permutation of the selected rows, sorted that way |
| Queries.Page | backend/threads/infrastructure/repository/post_repository.py:67 | `[offset:offset+limit]`: its length and its elements as Python slicing gives them |
| Queries.Listing | backend/threads/infrastructure/repository/post_repository.py:63-70 | a listing holds only rows of the table that pass the filter, sorted, at most `limit` of them |
| Queries.PageSplit | backend/threads/infrastructure/repository/post_repository.py:67 | two consecutive pages concatenate to the page of twice the size |
| Queries.ListingPages | backend/threads/infrastructure/repository/post_repository.py:63-70 | consecutive listing pages concatenate to the longer listing |
| Queries.ListingComplete | backend/threads/infrastructure/repository/post_repository.py:63-70 | a listing without a bound contains exactly the selected rows |
| ContentBaseRepository.DecodePost | backend/threads/infrastructure/repository/content_base_repository.py:25-48 | Ok iff the row builds a valid Post, and then it is the row's fields; otherwise InvalidEntityInput with the decode message |
| ContentBaseRepository.DecodeComment | backend/threads/infrastructure/repository/content_base_repository.py:50-76 | the same for a Comment; parent_comment_id is None exactly when the row has none |
| ContentBaseRepository.DecodeRow | backend/threads/infrastructure/repository/content_base_repository.py:25-76 | a decoded row keeps its id, author, timestamps, content, parents and the viewer's like flag |
| ContentBaseRepository.DecodeList | backend/threads/infrastructure/repository/content_base_repository.py:25-76 | a list decodes iff each row does, element by element and in order |
| ContentBaseRepository.DecodeListing | backend/threads/infrastructure/repository/post_repository.py:63-70 | a negative start or stop of the slice `[offset:offset+limit]` is a ValueError ("Negative indexing is not supported."), and only then; a stop below the start gives an empty page; decoded listings keep the filter, the order and the bound |
| ContentBaseRepository.DecodeListingFacts | backend/threads/infrastructure/repository/post_repository.py:63-70 | each listed item comes from a stored row of the table that passes the filter, with its like flag |
| ContentBaseRepository.DecodedRepostTagUnusable | backend/threads/infrastructure/repository/content_base_repository.py:42 | a decoded item carries the registry id as `repost_of_content_type`, which no content-type lookup accepts |
| ContentBaseRepository.ContentTypeFromLiteral | backend/threads/infrastructure/repository/content_base_repository.py:80-88 | Ok iff the tag is "post" or "comment", with the matching type; otherwise ValueError |
| ContentBaseRepository.LikeTableFor | backend/threads/infrastructure/repository/content_base_repository.py:133-141 | the like table of "post"/"comment", and InvalidEntityInput for any other tag |
| ContentBaseRepository.RepostsAdjustedEffect | backend/threads/infrastructure/repository/content_base_repository.py:106-114 | adjusting reposts moves only the original's `reposts_count`, by delta, when the original exists |
| ContentBaseRepository.CommentsAdjustedEffect | backend/threads/infrastructure/repository/content_base_repository.py:118-131 | adjusting comments moves the post's and the truthy parent comment's `comments_count` by delta, and nothing else |
| ContentBaseRepository.AdjustRepostsCount | backend/threads/infrastructure/repository/content_base_repository.py:92-116 | non-int delta gives InvalidOperation; an unknown tag gives InvalidEntityInput; a store fault gives InvalidOperation; otherwise the rows become `RepostsAdjusted` |
| ContentBaseRepository.AdjustCommentsCount | backend/threads/infrastructure/repository/content_base_repository.py:118-131 | non-int delta or a store fault is an error with the rows unchanged; otherwise the rows become `CommentsAdjusted` |
| LikeRepository.DecodeLike | backend/threads/infrastructure/repository/like_repository.py:20-44 | a stored like decodes to the Like entity the constructor accepts for its table's tag |
| LikeRepository.CheckTargetContentExists | backend/threads/infrastructure/repository/like_repository.py:46-57 | Ok iff the tag is known and the item exists; each failure has its message |
| LikeRepository.SwitchLikeDb | backend/threads/infrastructure/repository/like_repository.py:59-65 | the like table of "post"/"comment"; KeyError with the tag otherwise |
| LikeRepository.AdjustLikesCount | backend/threads/infrastructure/repository/like_repository.py:67-85 | Ok iff delta is int, the tag known and the store healthy; then exactly the item's `likes_count` moves by delta |
| LikeRepository.CreateLike | backend/threads/infrastructure/repository/like_repository.py:91-124 | a missing target is EntityDoesNotExist with nothing changed; a repeated like is EntityAlreadyExists; otherwise a failed counter update is InvalidOperation even for an unknown user, and an unknown user with a healthy store is EntityAlreadyExists (the COMMIT's IntegrityError); Ok iff the target exists, the like is new, the user exists and the store is healthy; then a like row is added and `likes_count` rises by 1; on every error the tables are as before |
| LikeRepository.DeleteLike | backend/threads/infrastructure/repository/like_repository.py:126-141 | Ok iff the like exists and the store is healthy; then the like goes and `likes_count` falls by 1; on error nothing changes |
| LikeRepository.GetLikeById | backend/threads/infrastructure/repository/like_repository.py:143-165 | the target check's error, or None iff the user has no like on the item, or that like |
| LikeRepository.StoredLikeIsFound | backend/threads/infrastructure/repository/like_repository.py:143-165 | every stored like is found again by its user, item and tag |
| LikeRepository.LikeThenUnlikeRestoresCount | backend/threads/infrastructure/repository/like_repository.py:67-85 | a like followed by an unlike leaves the counts as they were |
| PostRepository.CreatePost | backend/threads/infrastructure/repository/post_repository.py:17-27 | an unknown author gives EntityDoesNotExist and no change; otherwise one new row under the next id, likes and users unchanged, the hashes unchanged (not a repost), one more repost flush enqueued and the comment flush untouched (`AfterHook` of a post), and the decoded post returned |
| PostRepository.GetPostById | backend/threads/infrastructure/repository/post_repository.py:29-38 | a missing post gives EntityDoesNotExist; otherwise that post, with its author, content and the viewer's like flag |
| PostRepository.DeletePost | backend/threads/infrastructure/repository/post_repository.py:50-59 | the repost adjustment (−1) runs first and its errors leave everything unchanged; a missing post gives EntityDoesNotExist; otherwise the rows are `RowsAfterDelete`, the hashes `DeleteEffect` and the flush flags move by `AfterHook` of a post (one more repost flush) |
| PostRepository.RepostPost | backend/threads/infrastructure/repository/post_repository.py:98-117 | a bad type tag is EntityOperationFailed with nothing changed; past it the id sequence steps by 1, the hashes become `SaveEffect` and the flags move by `AfterHook` of a post, whatever follows; a store fault is InvalidOperation and an unknown author the COMMIT's IntegrityError, both with the rows rolled back; otherwise the row is added and the original's count rises directly |
| PostRepository.GetAllPosts | backend/threads/infrastructure/repository/post_repository.py:63-70 | a negative start or stop is a ValueError; otherwise posts oldest first, at most limit (none for a negative limit), each from a stored post |
| PostRepository.GetPostsByAuthorId | backend/threads/infrastructure/repository/post_repository.py:73-82 | the same, with the same ValueError, and each post is by the author |
| PostRepository.GetPostsByFollowingIds | backend/threads/infrastructure/repository/post_repository.py:85-94 | the same, with the same ValueError, and each author is in the following list |
| PostRepository.RepostCountedTwice | backend/threads/infrastructure/repository/post_repository.py:98-117 | after a repost and both passes of `flush_repost_counts`, the original's `reposts_count` has risen by 2 beyond its pending delta |
| PostRepository.RepostDeleteCountedTwice | backend/threads/infrastructure/repository/post_repository.py:50-59 | after deleting a repost and both passes of `flush_repost_counts`, the original's `reposts_count` has fallen by 2 beyond its pending delta |
| CommentRepository.GetCommentById | backend/threads/infrastructure/repository/comment_repository.py:19-41 | a missing comment gives None (`Ok(None)`), not an error; otherwise the decoded comment with the viewer's like flag |
| CommentRepository.CreateComment | backend/threads/infrastructure/repository/comment_repository.py:43-71 | a missing truthy parent post or parent comment gives EntityDoesNotExist and no change; a dangling key is EntityOperationFailed with the buffer unchanged and the id drawn; otherwise the comment is inserted under the next id, the hashes become `SaveEffect` and the flags move by `AfterHook` of a comment (comment flush scheduled, one more repost flush) |
| CommentRepository.UpdateComment | backend/threads/infrastructure/repository/comment_repository.py:73-97 | a missing comment gives ObjectDoesNotExist; otherwise only its content and updated_at change |
| CommentRepository.DeleteComment | backend/threads/infrastructure/repository/comment_repository.py:99-105 | the comment goes if stored, the hashes become `DeleteEffect` and the flags move by `AfterHook` of a comment; otherwise nothing changes |
| CommentRepository.GetCommentsByPostId | backend/threads/infrastructure/repository/comment_repository.py:108-130 | a truthy missing post gives EntityDoesNotExist; then a negative start or stop is a ValueError; otherwise that post's comments, oldest first, at most limit |
| CommentRepository.GetAllChildComments | backend/threads/infrastructure/repository/comment_repository.py:132-151 | a negative start or stop is a ValueError; otherwise the comment's children, newest first, at most limit |
| CommentRepository.ListedParents | backend/threads/infrastructure/repository/comment_repository.py:108-151 | every listed comment has the requested parent |
| CommentRepository.RepostComment | backend/threads/infrastructure/repository/comment_repository.py:153-177 | a bad type tag is InvalidOperation with nothing changed; past it the id sequence steps by 1; a dangling key is an error with the rows unchanged: EntityOperationFailed with the buffer unchanged when no transaction is open, IntegrityError after the hooks have run inside one; otherwise the row is added, the hashes become `SaveEffect` and the flags move by `AfterHook` of a comment |
| CommentRepository.CommentCountedOnce | backend/threads/infrastructure/repository/comment_repository.py:43-71 | after a comment is created and the comments flush runs, each parent's `comments_count` has risen by exactly 1 beyond its pending delta, and other rows by their pending delta |
| Tasks.ApplyDelta | backend/threads/tasks.py:27-33 | a non-zero delta is added to the column of the row the key names and the field is deleted; a zero delta changes nothing; likes, users, ids and the flush flags stay |
| Tasks.FlushTable | backend/threads/tasks.py:24-33 | one scan pass: the rows become `FlushedRows` and the buffer `FlushedHashes` of the table and field; nothing else changes |
| Tasks.BothTablesApply | backend/threads/tasks.py:46-67 | after both passes of a flush every stored post and comment holds its column plus the delta that was pending for it |
| Tasks.FlushCommentCounts | backend/threads/tasks.py:18-44 | the post pass and then the comment pass over `comments_count` |
| Tasks.FlushRepostCounts | backend/threads/tasks.py:46-67 | the post pass and then the comment pass over `reposts_count` |
| Tasks.FlushConserves | backend/threads/tasks.py:24-33 | for every row, column plus pending delta is the same before and after a flush |
| Tasks.FlushApplies | backend/threads/tasks.py:27-31 | a flushed row's column has risen by exactly its pending delta |
| Tasks.ZeroDeltaUntouched | backend/threads/tasks.py:28 | a zero or missing delta leaves the hash entry and its row untouched |
| Tasks.FlushDrains | backend/threads/tasks.py:33 | after a flush no key of the table holds a non-zero delta for the field |
| Tasks.FlushIdempotent | backend/threads/tasks.py:24-33 | a second flush right after the first changes nothing |
| Tasks.FlushIsolatesField | backend/threads/tasks.py:27-33 | a flush of one field leaves every other field's pending deltas and columns as they were |
| Tasks.FlushIsolatesTable | backend/threads/tasks.py:24 | a flush of one table leaves the other table's rows and deltas as they were |
| Tasks.MissingRowDropsDelta | backend/threads/tasks.py:29-33 | the delta of a key whose row no longer exists is deleted without effect |
| RepostContent.NewRepostTarget | backend/threads/use_cases/commands/repost_content.py:14-22 | a comment target without a post id is a ValueError; otherwise the target as given |
| RepostContent.FilterKwargs | backend/threads/use_cases/commands/repost_content.py:34-40 | the arguments kept are exactly those the builder accepts |
| RepostContent.BuildPostRepost | backend/threads/use_cases/commands/repost_content.py:45-53 | Ok iff the content is valid; a repost Post of the target with no id |
| RepostContent.BuildCommentRepost | backend/threads/use_cases/commands/repost_content.py:55-65 | Ok iff the content is valid; a repost Comment under the target post, of the target |
| RepostContent.BuildRepostEntity | backend/threads/use_cases/commands/repost_content.py:29-42 | an unknown type is a KeyError, a missing argument a TypeError; otherwise the builder's result |
| RepostContent.PostTargetDropped | backend/threads/use_cases/commands/repost_content.py:34-42 | the target post id is not passed to the post builder |
| RepostContent.ExecuteArgsBuild | backend/threads/use_cases/commands/repost_content.py:80-87 | the arguments `execute` passes always reach the builder complete |
| RepostContent.GetOriginalContent | backend/threads/use_cases/commands/repost_content.py:67-76 | an unsupported type is a ValueError; a post is fetched by id, a comment by id |
| RepostContent.CreateRepost | backend/threads/use_cases/commands/repost_content.py:89-95 | a bad tag is an error with nothing changed; otherwise the id sequence steps by 1 and the hashes and flush flags gain the save hooks' effect (`HashesAfterRepost`, `FlagsAfterRepost`) whatever the foreign keys; broken keys end in an error with the tables as before (IntegrityError, or InvalidOperation after a failed counter update on the post path); on Ok the foreign keys hold, the tables are `RowsAfterRepost` (the repost row under the next id, plus 1 on the original's `reposts_count` on the post path only), likes and users unchanged, and the decoded repost pointing at the target |
| RepostContent.AtomicRepost | backend/threads/use_cases/commands/repost_content.py:89-97 | the hashes and flush flags gain the repost's save effect and the id sequence steps exactly when the tag is usable, whatever follows, broken foreign keys included; broken keys are IntegrityError (InvalidOperation after a failed counter update on the post path); an error leaves the tables as before; on Ok the tables are `RowsAfterRepost`, the repost has the next id and the original is the one re-fetched |
| RepostContent.RepostMovesOriginal | backend/threads/infrastructure/repository/post_repository.py:104-113 | after a repost every other stored row is unchanged except the original's `reposts_count`, which rises by 1 on the post path and not on the comment path |
| RepostContent.Execute | backend/threads/use_cases/commands/repost_content.py:79-99 | builder errors and unknown types change nothing; any later error rolls the tables back while the hashes, the flush flags and the id sequence keep the hooks' and the INSERT's effect; on Ok the foreign keys hold, the tables are `RowsAfterRepost`, the buffer has the repost's save writes, and the repost and its re-fetched original are returned |
| CreateLike.TranslateError | backend/threads/use_cases/commands/create_like.py:22-33 | repository errors map to NotFound, AlreadyExist, ServiceUnavailable or InvalidObject with the message kept; others pass through |
| CreateLike.Execute | backend/threads/use_cases/commands/create_like.py:14-33 | a bad tag is InvalidObject with nothing changed, a missing target NotFound, a duplicate AlreadyExist, then a failed counter update InvalidObject and an unknown user AlreadyExist; Ok iff all checks pass; on Ok the like row is stored under the next id and the target's `likes_count` rises by 1; users unchanged; every error is a use-case error |
| CreateComment.TranslateError | backend/threads/use_cases/commands/create_comment.py:21-28 | the same mapping, except that InvalidOperation passes through |
| CreateComment.Execute | backend/threads/use_cases/commands/create_comment.py:13-28 | invalid content is InvalidObject with nothing changed, a missing parent post or parent comment NotFound, a broken foreign key ServiceUnavailable with the tables and buffer unchanged and the id drawn; on Ok the comment row is stored under the next id, the hashes become `SaveEffect` and the flags move by `AfterHook` of a comment, likes and users unchanged |

## Left out

- The Redis lock (`lock:flush_comment_counts`) and the Celery queue. A scheduled or enqueued flush is recorded as a flag and a counter. The flush runs only when a caller invokes it.
- Concurrency: hooks that interleave with a running flush, lock timeouts, and workers in parallel. `scan_iter` visits keys in an unspecified order; the model picks any order and proves that the result does not depend on it.
- The on-commit registration of the comment flush. The model does not capture that a rollback discards it. The thread-local flag is never cleared, as in the source.
- The `add` task, which has nothing to do with counters.
- `\w` and `isalnum` are modelled on ASCII letters, digits and `_`. Unicode word characters are not modelled.
- Foreign keys on `create_post`, `create_comment` and a stand-alone `repost_comment` are checked at the `INSERT`, which commits at once with no transaction open. Ties in `created_at` listings are ordered by id, where the database promises no order.
- One id sequence is shared by posts, comments and likes.
- `update_post`: the repository method and its use case are not part of this model.
- Cascade deletes of child comments and likes when a row is deleted.
- Store faults occur only at counter updates. `AdjustCommentsCount` can fail only as a whole; a fault between its two UPDATEs is not modelled.
- Database errors on reads (listings, lookups, re-fetches) are not modelled.
- Python `TypeError`s from wrongly typed arguments are not modelled. A missing builder argument is `TypeError` with a fixed message.
- Logging and `print` calls.
- The clock and the Celery/Redis clients: the clock becomes a `now` parameter, and the clients are the in-memory `CounterBuffer`.
- `update_content` is modelled on values: it returns a new item instead of mutating the entity.
- PostRepository.RepostPost: requires `repost_of` when the post is a repost; `execute` always passes an id. Without one the source's save hook would write the buffer key `"post:None"` (backend/threads/infrastructure/signals.py:57), which the flush would hand to `filter(id="None")` (backend/threads/tasks.py:52-56); if the column is NOT NULL the INSERT raises IntegrityError instead.
- CommentRepository.RepostComment: the same requirement, for the same reason (backend/threads/infrastructure/signals.py:66).
- Tasks.FlushTable: the flush's counter UPDATEs never fail. In the source a DatabaseError there is uncaught (backend/threads/tasks.py:29-31, 41-43, 55-57, 64-66): the flush aborts, the keys already handled stay drained and the failing key keeps its field. That path is not modelled.
- Database.Db.InsertContentInTransaction: a row whose foreign keys are broken is not kept in the tables while its block runs; the block always ends in an error and a rollback. Reads between the INSERT and that rollback therefore do not see it. The only such reads are the counter update of a repost whose `repost_of` is its own new id, and the re-fetch in `repost_comment`. Both can change only which error ends the block.
- PostRepository.RepostPost: an unknown author is reported as the COMMIT's IntegrityError. That is what escapes when `repost_post` runs alone. Inside the block of `execute` there is no COMMIT yet, and the decode of the new row's author raises the ORM's `RelatedObjectDoesNotExist` instead (backend/threads/infrastructure/repository/content_base_repository.py:30). Tables, buffer, flags and id sequence are the same either way.
- CommentRepository.RepostComment: inside a transaction, broken keys are reported as IntegrityError at once. In the source an unknown author makes the re-fetch raise `DoesNotExist` (backend/threads/infrastructure/repository/comment_repository.py:171), and a dangling parent surfaces at the enclosing COMMIT. Tables, buffer, flags and id sequence are the same either way.
- RepostContent.CreateRepost: the same error classes as the two lines above.
- RepostContent.AtomicRepost: the same error classes as the lines above.
- RepostContent.Execute: the same error classes as the lines above.
- RepostContent.BuildCommentRepost: requires the target post id. Every caller passes it after `NewRepostTarget` has checked it.
- CreateLike.Execute: does not model the entity's `TypeError` branch. Typed arguments cannot reach it.
- CreateComment.Execute: does not model the entity's `TypeError` branch. Typed arguments cannot reach it.
- Hook firing: the `post_save` and `post_delete` receivers run synchronously inside `Db.InsertContent`, `Db.InsertContentInTransaction` and `Db.DeleteContent`. Django's dispatch machinery itself is not modelled.
