/** The list queries of the repositories: select the rows of one table that
    pass a filter, order them by creation time, and take the page
    `[offset:offset + limit]`. The store does not order rows with equal
    creation times; the model breaks such ties by id. */
module Queries {
  import opened Common
  import opened Tables

  /** The `filter(...)` of each list query. */
  datatype RowFilter =
    | AnyRow                                // all()
    | AuthorIs(author: nat)                 // filter(author=...)
    | AuthorIn(authors: seq<nat>)           // filter(author__in=...)
    | ParentPostIs(post: nat)               // filter(parent_post_id=...)
    | ParentCommentIs(comment: Option<nat>) // filter(parent_comment_id=...); None is IS NULL

  predicate Selects(flt: RowFilter, row: Row) {
    match flt
    case AnyRow => true
    case AuthorIs(a) => row.authorId == a
    case AuthorIn(authors) => row.authorId in authors
    case ParentPostIs(p) => row.parentPost == Some(p)
    case ParentCommentIs(c) => row.parentComment == c
  }

  /** The rows of table `t` that the filter selects. */
  ghost function Selected(rows: map<RowKey, Row>, t: ContentType, flt: RowFilter): set<RowKey> {
    set k | k in rows && k.table == t && Selects(flt, rows[k])
  }

  /** `order_by('created_at')` (`desc` false) or `order_by('-created_at')`
      (`desc` true), ties by ascending id: whether `a` may come before `b`. */
  predicate Precedes(rows: map<RowKey, Row>, desc: bool, a: RowKey, b: RowKey)
    requires a in rows && b in rows
  {
    var ca, cb := rows[a].createdAt, rows[b].createdAt;
    (if desc then ca > cb else ca < cb) || (ca == cb && a.id <= b.id)
  }

  predicate SameTable(s: set<RowKey>, t: ContentType) {
    forall k | k in s :: k.table == t
  }

  predicate SortedBy(rows: map<RowKey, Row>, desc: bool, r: seq<RowKey>) {
    forall i, j | 0 <= i < j < |r| :: r[i] in rows && r[j] in rows && Precedes(rows, desc, r[i], r[j])
  }

  /** Every non-empty finite set of rows of one table has a first row. */
  lemma {:induction false} FirstExists(rows: map<RowKey, Row>, desc: bool, s: set<RowKey>, t: ContentType)
    requires s != {} && s <= rows.Keys && SameTable(s, t)
    ensures exists m | m in s :: forall k | k in s :: Precedes(rows, desc, m, k)
    decreases |s|
  {
    var x :| x in s;
    if s == {x} {
      assert forall k | k in s :: k == x;
    } else {
      var rest := s - {x};
      FirstExists(rows, desc, rest, t);
      var m :| m in rest && forall k | k in rest :: Precedes(rows, desc, m, k);
      if Precedes(rows, desc, m, x) {
        assert forall k | k in s :: Precedes(rows, desc, m, k);
      } else {
        forall k | k in s
          ensures Precedes(rows, desc, x, k)
        {
          if k != x {
            assert Precedes(rows, desc, m, k);
          }
        }
      }
    }
  }

  /** The rows of `s` in query order. */
  ghost function Ordered(rows: map<RowKey, Row>, desc: bool, s: set<RowKey>, t: ContentType): (r: seq<RowKey>)
    requires s <= rows.Keys && SameTable(s, t)
    ensures forall k :: k in r <==> k in s
    ensures |r| == |s|
    ensures SortedBy(rows, desc, r)
    decreases |s|
  {
    if s == {} then []
    else
      FirstExists(rows, desc, s, t);
      var m :| m in s && forall k | k in s :: Precedes(rows, desc, m, k);
      var rest := Ordered(rows, desc, s - {m}, t);
      [m] + rest
  }

  /** The slice `[offset:offset + limit]` of a query result. */
  function Page<T>(s: seq<T>, offset: nat, limit: nat): (r: seq<T>)
    ensures |r| == (if offset >= |s| then 0 else if offset + limit <= |s| then limit else |s| - offset)
    ensures forall i | 0 <= i < |r| :: r[i] == s[offset + i]
  {
    if offset >= |s| then [] else if offset + limit <= |s| then s[offset..offset + limit] else s[offset..]
  }

  /** The message of the ValueError a queryset raises for a slice with a
      negative start or stop. */
  const NegativeIndexing := "Negative indexing is not supported."

  /** Whether the slice `[offset:offset + limit]` has a negative start or
      stop, which the queryset refuses before any query runs. */
  predicate NegativeBound(offset: int, limit: int) {
    offset < 0 || offset + limit < 0
  }

  /** How many rows an accepted slice asks for: a stop below the start
      clamps the stop to the start, which asks for none. */
  function SliceLimit(limit: int): nat {
    if limit < 0 then 0 else limit
  }

  /** One page of the rows of table `t` that the filter selects, in query
      order. */
  ghost function Listing(rows: map<RowKey, Row>, t: ContentType, flt: RowFilter, desc: bool,
                         offset: nat, limit: nat): (r: seq<RowKey>)
    ensures forall i | 0 <= i < |r| :: r[i] in rows && r[i].table == t && Selects(flt, rows[r[i]])
    ensures SortedBy(rows, desc, r)
    ensures |r| <= limit
  {
    var all := Ordered(rows, desc, Selected(rows, t, flt), t);
    Page(all, offset, limit)
  }

  /** Two consecutive pages of a sequence make up the double page. */
  lemma PageSplit<T>(s: seq<T>, offset: nat, limit: nat)
    ensures Page(s, offset, limit) + Page(s, offset + limit, limit) == Page(s, offset, limit + limit)
  {
    var a, b, c := Page(s, offset, limit), Page(s, offset + limit, limit), Page(s, offset, limit + limit);
    assert |a + b| == |c|;
    forall i | 0 <= i < |c|
      ensures (a + b)[i] == c[i]
    {
      if i >= |a| {
        assert (a + b)[i] == b[i - |a|];
      }
    }
  }

  /** Consecutive pages of one query neither skip nor repeat a row. */
  lemma ListingPages(rows: map<RowKey, Row>, t: ContentType, flt: RowFilter, desc: bool, offset: nat, limit: nat)
    ensures Listing(rows, t, flt, desc, offset, limit) + Listing(rows, t, flt, desc, offset + limit, limit) ==
            Listing(rows, t, flt, desc, offset, limit + limit)
  {
    PageSplit(Ordered(rows, desc, Selected(rows, t, flt), t), offset, limit);
  }

  /** A page as large as the table holds exactly the selected rows. */
  lemma ListingComplete(rows: map<RowKey, Row>, t: ContentType, flt: RowFilter, desc: bool)
    ensures forall k :: k in Listing(rows, t, flt, desc, 0, |rows|) <==> k in Selected(rows, t, flt)
  {
    var sel := Selected(rows, t, flt);
    var all := Ordered(rows, desc, sel, t);
    SubsetCard(sel, rows.Keys);
    assert |rows.Keys| == |rows|;
    assert Page(all, 0, |rows|) == all;
  }

  lemma SubsetCard<T>(a: set<T>, b: set<T>)
    requires a <= b
    ensures |a| <= |b|
  {
    assert b == a + (b - a);
  }
}
