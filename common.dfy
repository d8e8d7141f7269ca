/** Values shared by every layer: the two content types and their string
    tags, the exceptions the code raises, and the dynamically typed values
    that the Python code tests at run time. */
module Common {

  datatype Option<+T> = None | Some(value: T) {
    function GetOr(default: T): T {
      match this
      case Some(v) => v
      case None => default
    }
  }

  /** A value, or the exception that was raised instead of returning one. */
  datatype Result<+T> = Ok(value: T) | Err(error: Error)

  /** The two content types that carry counters (ContentTypeEnum). */
  datatype ContentType = Post | Comment

  /** The string tag of a content type, as stored in domain entities and
      used as the prefix of buffer keys. */
  function TagText(t: ContentType): string {
    match t
    case Post => "post"
    case Comment => "comment"
  }

  /** The lookup `{"post": ..., "comment": ...}.get(s)` that the
      repositories perform on a tag. */
  function ParseTag(s: string): (r: Option<ContentType>)
    ensures r.Some? <==> s == "post" || s == "comment"
    ensures r.Some? ==> TagText(r.value) == s
  {
    if s == "post" then Some(Post)
    else if s == "comment" then Some(Comment)
    else None
  }

  /** Tags and content types are in one-to-one correspondence. */
  lemma TagRoundTrip(t: ContentType)
    ensures ParseTag(TagText(t)) == Some(t)
    ensures TagText(t) != TagText(if t == Post then Comment else Post)
  {
  }

  /** What a domain item's `repost_of_content_type` attribute may hold: the
      string tag set by the use cases, the integer id of the content-type
      registry entry that the decoders copy from a row, or None. */
  datatype RawTag = TagString(text: string) | RegistryId(of: ContentType) | NoTag

  /** The dictionary lookup `{"post": ..., "comment": ...}.get(tag)`: only a
      string tag can hit a key. */
  function TableOf(tag: RawTag): (r: Option<ContentType>)
    ensures r.Some? <==> tag.TagString? && (tag.text == "post" || tag.text == "comment")
    ensures r.Some? ==> tag == TagString(TagText(r.value))
  {
    match tag
    case TagString(s) => ParseTag(s)
    case _ => None
  }

  /** The address of a row: its table and its primary key. */
  datatype RowKey = RowKey(table: ContentType, id: nat)

  /** Python truthiness of an optional id: present and non-zero. */
  predicate Truthy(id: Option<nat>) {
    id.Some? && id.value != 0
  }

  /** A counter delta as received at run time: `isinstance(delta, int)`
      holds only of the first alternative. */
  datatype Num = Int(n: int) | NonInt(typeName: string)

  /** Every exception the modelled code raises or lets escape. */
  datatype Error =
    // repository layer
    | EntityAlreadyExists(message: string)
    | EntityDoesNotExist(message: string)
    | EntityOperationFailed(message: string)
    | InvalidEntityInput(message: string)
    | InvalidOperation(message: string)
    // domain layer
    | DomainValidationError(message: string)
    // use-case layer
    | InvalidObject(message: string)
    | NotFound(message: string)
    | AlreadyExist(message: string)
    | ServiceUnavailable(message: string)
    // the store's and Python's own exceptions
    | IntegrityError(message: string)
    | ObjectDoesNotExist(message: string)
    | TypeError(message: string)
    | ValueError(message: string)
    | KeyError(message: string)
    | AttributeError(message: string)

  /** The exceptions the use-case layer raises for the interface to map to
      responses. */
  predicate IsUseCaseError(e: Error) {
    e.InvalidObject? || e.NotFound? || e.AlreadyExist? || e.ServiceUnavailable?
  }
}
