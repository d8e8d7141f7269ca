/** The domain entities and their validation rules (domain/entities.py).
    Every dataclass validates itself in `__post_init__` and raises
    DomainValidationError on the first rule it breaks; here each constructor
    is a function returning the entity or that error. */
module Entities {
  import opened Common

  // ---------------------------------------------------------------------
  // Character classes (ASCII; see README "Left out")

  predicate IsAsciiLetter(c: char) {
    ('a' <= c <= 'z') || ('A' <= c <= 'Z')
  }

  predicate IsAlnum(c: char) {
    IsAsciiLetter(c) || ('0' <= c <= '9')
  }

  /** The regex class `\w`. */
  predicate IsWordChar(c: char) {
    IsAlnum(c) || c == '_'
  }

  /** The regex class `[\w\.-]`. */
  predicate IsLocalChar(c: char) {
    IsWordChar(c) || c == '.' || c == '-'
  }

  predicate AllWord(s: string) {
    forall i | 0 <= i < |s| :: IsWordChar(s[i])
  }

  predicate AllLocal(s: string) {
    forall i | 0 <= i < |s| :: IsLocalChar(s[i])
  }

  // ---------------------------------------------------------------------
  // User

  datatype User = User(
    id: Option<nat>, username: string, email: string, hashedPassword: string,
    followersCount: int, followingsCount: int, postsCount: int)

  /** `str.isalnum()` of a username: non-empty and letters and digits only. */
  predicate IsAlnumText(s: string) {
    |s| > 0 && forall i | 0 <= i < |s| :: IsAlnum(s[i])
  }

  predicate ValidUsername(s: string) {
    5 <= |s| <= 15 && IsAlnumText(s)
  }

  /** What `[\w\.-]+@[\w\.-]+\.\w+` matches when it must cover the whole of
      `b`: a local part, '@', a domain part, '.', and a word. */
  ghost predicate EmailShape(b: string) {
    exists i, j | 0 < i && i + 1 < j && j + 1 < |b| ::
      b[i] == '@' && b[j] == '.' && AllLocal(b[..i]) && AllLocal(b[i + 1..j]) && AllWord(b[j + 1..])
  }

  /** `re.match(r'^[\w\.-]+@[\w\.-]+\.\w+$', s)` succeeds: Python's `$` also
      matches just before a newline that ends the string. */
  ghost predicate MatchesEmailPattern(s: string) {
    EmailShape(s) || (|s| > 0 && s[|s| - 1] == '\n' && EmailShape(s[..|s| - 1]))
  }

  function IndexOf(s: string, c: char): (r: Option<nat>)
    ensures r.Some? ==> r.value < |s| && s[r.value] == c && c !in s[..r.value]
    ensures r.None? ==> c !in s
    decreases |s|
  {
    if |s| == 0 then None
    else if s[0] == c then Some(0)
    else match IndexOf(s[1..], c)
      case None => None
      case Some(i) =>
        assert s[..i + 1] == [s[0]] + s[1..][..i];
        Some(i + 1)
  }

  function LastIndexOf(s: string, c: char): (r: Option<nat>)
    ensures r.Some? ==> r.value < |s| && s[r.value] == c && c !in s[r.value + 1..]
    ensures r.None? ==> c !in s
    decreases |s|
  {
    if |s| == 0 then None
    else if s[|s| - 1] == c then Some(|s| - 1)
    else match LastIndexOf(s[..|s| - 1], c)
      case None => None
      case Some(j) =>
        assert s[j + 1..] == s[..|s| - 1][j + 1..] + [s[|s| - 1]];
        Some(j)
  }

  /** The email check as the code can run it: the one '@' and the last '.'
      split the text into the three parts of the pattern. */
  function EmailBodyAccepted(b: string): bool {
    match (IndexOf(b, '@'), LastIndexOf(b, '.'))
    case (Some(i), Some(j)) =>
      0 < i && i + 1 < j && j + 1 < |b| && AllLocal(b[..i]) && AllLocal(b[i + 1..j]) && AllWord(b[j + 1..])
    case _ => false
  }

  function EmailAccepted(s: string): bool {
    EmailBodyAccepted(s) || (|s| > 0 && s[|s| - 1] == '\n' && EmailBodyAccepted(s[..|s| - 1]))
  }

  /** The first occurrence is where nothing before it matches. */
  lemma IndexOfAt(s: string, c: char, i: nat)
    requires i < |s| && s[i] == c && c !in s[..i]
    ensures IndexOf(s, c) == Some(i)
  {
    assert s[..i + 1][i] == c;
    var r := IndexOf(s, c).value;
    assert forall k | 0 <= k < i :: s[k] != c by {
      forall k | 0 <= k < i ensures s[k] != c { assert s[..i][k] == s[k]; }
    }
    assert forall k | 0 <= k < r :: s[k] != c by {
      forall k | 0 <= k < r ensures s[k] != c { assert s[..r][k] == s[k]; }
    }
  }

  /** The last occurrence is where nothing after it matches. */
  lemma LastIndexOfAt(s: string, c: char, j: nat)
    requires j < |s| && s[j] == c && c !in s[j + 1..]
    ensures LastIndexOf(s, c) == Some(j)
  {
    assert s[j..][0] == c;
    var r := LastIndexOf(s, c).value;
    assert forall k | j < k < |s| :: s[k] != c by {
      forall k | j < k < |s| ensures s[k] != c { assert s[j + 1..][k - j - 1] == s[k]; }
    }
    assert forall k | r < k < |s| :: s[k] != c by {
      forall k | r < k < |s| ensures s[k] != c { assert s[r + 1..][k - r - 1] == s[k]; }
    }
  }

  lemma EmailShapeAccepted(b: string)
    requires EmailShape(b)
    ensures EmailBodyAccepted(b)
  {
    var i, j :| 0 < i && i + 1 < j && j + 1 < |b| &&
      b[i] == '@' && b[j] == '.' && AllLocal(b[..i]) && AllLocal(b[i + 1..j]) && AllWord(b[j + 1..]);
    var local, word := b[..i], b[j + 1..];
    assert '@' !in local by {
      forall k | 0 <= k < |local| ensures local[k] != '@' { assert IsLocalChar(local[k]); }
    }
    IndexOfAt(b, '@', i);
    assert '.' !in word by {
      forall k | 0 <= k < |word| ensures word[k] != '.' { assert IsWordChar(word[k]); }
    }
    LastIndexOfAt(b, '.', j);
  }

  lemma EmailBodyAcceptedIsShape(b: string)
    ensures EmailBodyAccepted(b) <==> EmailShape(b)
  {
    if EmailShape(b) {
      EmailShapeAccepted(b);
    }
    if EmailBodyAccepted(b) {
      var i := IndexOf(b, '@').value;
      var j := LastIndexOf(b, '.').value;
      assert b[i] == '@' && b[j] == '.';
    }
  }

  /** The executable email check accepts exactly what the pattern matches. */
  lemma EmailAcceptedIsPattern(s: string)
    ensures EmailAccepted(s) <==> MatchesEmailPattern(s)
  {
    EmailBodyAcceptedIsShape(s);
    if |s| > 0 {
      EmailBodyAcceptedIsShape(s[..|s| - 1]);
    }
  }

  const UsernameTooShort := "使用者名稱必須至少5個字元"
  const UsernameTooLong := "使用者名稱不能超過15個字元"
  const UsernameNotAlnum := "使用者名稱只能包含英文字母和數字"
  const InvalidEmail := "無效的電子郵件地址"
  const NegativeUserCounter := "快取欄位不能為負數"

  /** `User(...)`: username, then email, then counters. */
  function NewUser(id: Option<nat>, username: string, email: string, hashedPassword: string,
                   followersCount: int, followingsCount: int, postsCount: int): (r: Result<User>)
    ensures r.Ok? <==>
      ValidUsername(username) && MatchesEmailPattern(email) &&
      followersCount >= 0 && followingsCount >= 0 && postsCount >= 0
    ensures r.Ok? ==>
      r.value == User(id, username, email, hashedPassword, followersCount, followingsCount, postsCount)
    ensures |username| < 5 ==> r == Err(DomainValidationError(UsernameTooShort))
    ensures |username| > 15 ==> r == Err(DomainValidationError(UsernameTooLong))
    ensures 5 <= |username| <= 15 && !IsAlnumText(username) ==> r == Err(DomainValidationError(UsernameNotAlnum))
    ensures ValidUsername(username) && !MatchesEmailPattern(email) ==> r == Err(DomainValidationError(InvalidEmail))
    ensures ValidUsername(username) && MatchesEmailPattern(email) &&
            (followersCount < 0 || followingsCount < 0 || postsCount < 0) ==>
      r == Err(DomainValidationError(NegativeUserCounter))
  {
    EmailAcceptedIsPattern(email);
    if |username| < 5 then Err(DomainValidationError(UsernameTooShort))
    else if |username| > 15 then Err(DomainValidationError(UsernameTooLong))
    else if !IsAlnumText(username) then Err(DomainValidationError(UsernameNotAlnum))
    else if !EmailAccepted(email) then Err(DomainValidationError(InvalidEmail))
    else if followersCount < 0 || followingsCount < 0 || postsCount < 0 then
      Err(DomainValidationError(NegativeUserCounter))
    else Ok(User(id, username, email, hashedPassword, followersCount, followingsCount, postsCount))
  }

  // ---------------------------------------------------------------------
  // Follow

  datatype Follow = Follow(id: Option<nat>, followerId: nat, followingId: nat)

  const SelfFollow := "不能關注自己"

  function NewFollow(id: Option<nat>, followerId: nat, followingId: nat): (r: Result<Follow>)
    ensures r.Ok? <==> followerId != followingId
    ensures r.Ok? ==> r.value.followerId == followerId && r.value.followingId == followingId && r.value.id == id
    ensures r.Err? ==> r.error == DomainValidationError(SelfFollow)
  {
    if followingId == followerId then Err(DomainValidationError(SelfFollow))
    else Ok(Follow(id, followerId, followingId))
  }

  // ---------------------------------------------------------------------
  // Like

  datatype Like = Like(id: Option<nat>, userId: nat, contentItemId: nat, contentType: ContentType)

  const BadLikeType := "無效的 content_type，必須是 'post' 或 'comment'"
  const NotLikeOwner := "無權限刪除按讚紀錄"

  /** `Like(...)`: the tag must be "post" or "comment". */
  function NewLike(id: Option<nat>, userId: nat, contentItemId: nat, contentType: string): (r: Result<Like>)
    ensures r.Ok? <==> contentType == "post" || contentType == "comment"
    ensures r.Ok? ==>
      r.value.id == id && r.value.userId == userId && r.value.contentItemId == contentItemId &&
      TagText(r.value.contentType) == contentType
    ensures r.Err? ==> r.error == DomainValidationError(BadLikeType)
  {
    match ParseTag(contentType)
    case None => Err(DomainValidationError(BadLikeType))
    case Some(t) => Ok(Like(id, userId, contentItemId, t))
  }

  /** `Like.verify_deletable_by`: only the user who liked may delete. */
  function VerifyLikeDeletableBy(like: Like, deleter: nat): (r: Result<()>)
    ensures r.Ok? <==> like.userId == deleter
    ensures r.Err? ==> r.error == DomainValidationError(NotLikeOwner)
  {
    if like.userId != deleter then Err(DomainValidationError(NotLikeOwner)) else Ok(())
  }

  // ---------------------------------------------------------------------
  // ContentItem, Post and Comment

  /** Post, or Comment with its parents (Comment's extra fields). */
  datatype ItemKind = PostItem | CommentItem(parentPostId: nat, parentCommentId: Option<nat>)

  /** A post or comment. The timestamps are optional as in the dataclass;
      construction fills them in. */
  datatype ContentItem = ContentItem(
    id: Option<nat>, authorId: nat, content: string, authorName: Option<string>,
    createdAt: Option<int>, updatedAt: Option<int>,
    likesCount: int, commentsCount: int, repostsCount: int,
    isLiked: bool, isRepost: bool, repostOf: Option<nat>, repostOfContentType: RawTag,
    kind: ItemKind)

  predicate ValidContent(s: string) {
    1 <= |s| <= 255
  }

  /** What every constructed item satisfies. */
  predicate ValidItem(item: ContentItem) {
    ValidContent(item.content) &&
    item.likesCount >= 0 && item.commentsCount >= 0 && item.repostsCount >= 0 &&
    item.createdAt.Some? && item.updatedAt.Some?
  }

  const EmptyContent := "內容不能為空"
  const LongContent := "內容不能超過255個字元"
  const NegativeLikes := "喜歡數不能為負數"
  const NegativeComments := "評論數不能為負數"
  const NegativeReposts := "轉發數不能為負數"
  const NotAuthorEdit := "無權限修改貼文"
  const NotAuthorDelete := "無權限刪除貼文"

  /** `ContentItem.__post_init__`: content, then the three counters, then
      the default timestamps (`now` stands for `datetime.now()`). */
  function NewContentItem(d: ContentItem, now: int): (r: Result<ContentItem>)
    ensures r.Ok? <==>
      ValidContent(d.content) && d.likesCount >= 0 && d.commentsCount >= 0 && d.repostsCount >= 0
    ensures r.Ok? ==> ValidItem(r.value)
    ensures r.Ok? ==> r.value.createdAt == Some(d.createdAt.GetOr(now))
    ensures r.Ok? ==> r.value.updatedAt == Some(d.updatedAt.GetOr(r.value.createdAt.value))
    ensures r.Ok? ==> r.value.(createdAt := d.createdAt, updatedAt := d.updatedAt) == d
    ensures |d.content| == 0 ==> r == Err(DomainValidationError(EmptyContent))
    ensures |d.content| > 255 ==> r == Err(DomainValidationError(LongContent))
    ensures ValidContent(d.content) && d.likesCount < 0 ==> r == Err(DomainValidationError(NegativeLikes))
    ensures ValidContent(d.content) && d.likesCount >= 0 && d.commentsCount < 0 ==>
      r == Err(DomainValidationError(NegativeComments))
    ensures ValidContent(d.content) && d.likesCount >= 0 && d.commentsCount >= 0 && d.repostsCount < 0 ==>
      r == Err(DomainValidationError(NegativeReposts))
  {
    if |d.content| < 1 then Err(DomainValidationError(EmptyContent))
    else if |d.content| > 255 then Err(DomainValidationError(LongContent))
    else if d.likesCount < 0 then Err(DomainValidationError(NegativeLikes))
    else if d.commentsCount < 0 then Err(DomainValidationError(NegativeComments))
    else if d.repostsCount < 0 then Err(DomainValidationError(NegativeReposts))
    else
      var created := d.createdAt.GetOr(now);
      var updated := d.updatedAt.GetOr(created);
      Ok(d.(createdAt := Some(created), updatedAt := Some(updated)))
  }

  /** `update_content`: only the author may edit; the new text replaces the
      old one and the edit time becomes `updated_at`. The new text is not
      validated. */
  function UpdateContent(item: ContentItem, newContent: string, editorId: nat, now: int): (r: Result<ContentItem>)
    ensures r.Ok? <==> item.authorId == editorId
    ensures r.Err? ==> r.error == DomainValidationError(NotAuthorEdit)
    ensures r.Ok? ==> r.value.content == newContent && r.value.updatedAt == Some(now)
    ensures r.Ok? ==> r.value.(content := item.content, updatedAt := item.updatedAt) == item
  {
    if item.authorId != editorId then Err(DomainValidationError(NotAuthorEdit))
    else Ok(item.(content := newContent, updatedAt := Some(now)))
  }

  /** `ContentItem.verify_deletable_by`: only the author may delete. */
  function VerifyDeletableBy(item: ContentItem, deleter: nat): (r: Result<()>)
    ensures r.Ok? <==> item.authorId == deleter
    ensures r.Err? ==> r.error == DomainValidationError(NotAuthorDelete)
  {
    if item.authorId != deleter then Err(DomainValidationError(NotAuthorDelete)) else Ok(())
  }

  /** An author's edit is not re-validated: a constructed item can be edited
      into one that construction would reject. */
  lemma EditBypassesValidation(item: ContentItem, now: int)
    requires ValidItem(item)
    ensures var long := seq(256, i => 'x');
            UpdateContent(item, long, item.authorId, now).Ok? &&
            !ValidItem(UpdateContent(item, long, item.authorId, now).value) &&
            NewContentItem(UpdateContent(item, long, item.authorId, now).value, now).Err?
  {
  }
}
