/** Listing posts page by page (internal/repository/post_repository.go, internal/service/post_service.go,
  internal/utils/pagination.go): the two queries that are built, what the database makes of them, and
  how the pages fit together. */
module Listing {
  import opened Options
  import opened Posts
  import opened Likes

  datatype Params = Params(page: int, pageSize: int, status: string, user: string, search: string,
                           sortBy: string, sortDir: string)

  /** What depends on the database: how it folds letters, the rank of a text in its collation, and the
      UUID a text reads as, in the form ids are kept in, or None when it is not one. */
  datatype Database = Database(fold: char -> string, rank: string -> int, uuid: string -> Option<string>)

  // ---------------------------------------------------------------- the order

  datatype Order = Order(column: string, ascending: bool)

  function Key(o: Order, db: Database, p: Post): int {
    if o.column == "title" then db.rank(p.title)
    else if o.column == "updated_at" then p.updatedAt
    else p.createdAt
  }

  predicate IdLess(a: string, b: string) {
    if b == "" then false
    else if a == "" then true
    else a[0] < b[0] || (a[0] == b[0] && IdLess(a[1..], b[1..]))
  }

  /** ORDER BY the column, then id ascending. */
  predicate Precedes(o: Order, db: Database, a: Post, b: Post) {
    var k, l := Key(o, db, a), Key(o, db, b);
    (if o.ascending then k < l else l < k) || (k == l && IdLess(a.id, b.id))
  }

  lemma {:induction false} IdsAreOrdered(a: string, b: string, c: string)
    ensures !(IdLess(a, b) && IdLess(b, a))
    ensures IdLess(a, b) || IdLess(b, a) || a == b
    ensures IdLess(a, b) && IdLess(b, c) ==> IdLess(a, c)
  {
    if a != "" && b != "" {
      IdsAreOrdered(a[1..], b[1..], if c == "" then c else c[1..]);
      assert a == [a[0]] + a[1..] && b == [b[0]] + b[1..];
    }
  }

  /** The order of ids is that of text: at the first difference the smaller character, or the end, comes
      first. */
  lemma {:induction false} IdLessIs(a: string, b: string)
    ensures IdLess(a, b)
       <==> exists k :: 0 <= k <= |a| && k < |b| && a[..k] == b[..k] && (k == |a| || a[k] < b[k])
  {
    if a != "" && b != "" {
      IdLessIs(a[1..], b[1..]);
      if a[0] == b[0] {
        if k :| 0 <= k <= |a[1..]| && k < |b[1..]| && a[1..][..k] == b[1..][..k] && (k == |a[1..]| || a[1..][k] < b[1..][k]) {
          assert a[..k + 1] == [a[0]] + a[1..][..k] && b[..k + 1] == [b[0]] + b[1..][..k];
          assert a[..k + 1] == b[..k + 1] && (k + 1 == |a| || a[k + 1] < b[k + 1]);
        }
        if k :| 0 < k <= |a| && k < |b| && a[..k] == b[..k] && (k == |a| || a[k] < b[k]) {
          assert a[1..][..k - 1] == a[..k][1..] && b[1..][..k - 1] == b[..k][1..];
          assert k - 1 == |a[1..]| || a[1..][k - 1] < b[1..][k - 1];
        }
      } else {
        assert a[..0] == b[..0];
        assert forall k :: 0 < k <= |a| && k <= |b| ==> a[..k][0] == a[0] && b[..k][0] == b[0];
      }
    } else if b != "" {
      assert a[..0] == b[..0];
    }
  }

  /** Ids are a primary key. */
  ghost predicate DistinctIds(posts: set<Post>) {
    forall p, q :: p in posts && q in posts && p.id == q.id ==> p == q
  }

  lemma PrecedesIsTotal(o: Order, db: Database, a: Post, b: Post, c: Post)
    ensures !(Precedes(o, db, a, b) && Precedes(o, db, b, a))
    ensures Precedes(o, db, a, b) || Precedes(o, db, b, a) || a.id == b.id
    ensures Precedes(o, db, a, b) && Precedes(o, db, b, c) ==> Precedes(o, db, a, c)
  {
    hide IdLess, Key;
    IdsAreOrdered(a.id, b.id, c.id);
  }

  /** The rows hold exactly these posts, each once, in order. */
  ghost predicate IsListing(o: Order, db: Database, posts: set<Post>, rows: seq<Post>) {
    && (forall p :: p in rows <==> p in posts)
    && (forall i, j :: 0 <= i < j < |rows| ==> Precedes(o, db, rows[i], rows[j]))
  }

  /** There is only one way to list a set of posts. */
  lemma {:induction false} ListingIsUnique(o: Order, db: Database, posts: set<Post>, rows1: seq<Post>, rows2: seq<Post>)
    requires IsListing(o, db, posts, rows1) && IsListing(o, db, posts, rows2)
    ensures rows1 == rows2
    decreases |rows1|
  {
    hide Precedes;
    if rows1 == [] {
      if rows2 != [] {
        SameFirst(o, db, posts, rows2, rows1);
      }
    } else {
      var p := rows1[0];
      assert p in rows2;
      SameFirst(o, db, posts, rows1, rows2);
      RestIsListing(o, db, posts, rows1);
      RestIsListing(o, db, posts, rows2);
      ListingIsUnique(o, db, posts - {p}, rows1[1..], rows2[1..]);
      assert rows1 == [p] + rows1[1..] && rows2 == [p] + rows2[1..];
    }
  }

  lemma SameFirst(o: Order, db: Database, posts: set<Post>, rows1: seq<Post>, rows2: seq<Post>)
    requires IsListing(o, db, posts, rows1) && IsListing(o, db, posts, rows2) && rows1 != []
    ensures rows2 != [] && rows1[0] == rows2[0]
  {
    hide Precedes;
    var p := rows1[0];
    assert p in rows2;
    var j :| 0 <= j < |rows2| && rows2[j] == p;
    var q := rows2[0];
    assert q in rows1;
    var i :| 0 <= i < |rows1| && rows1[i] == q;
    PrecedesIsTotal(o, db, p, q, q);
  }

  lemma RestIsListing(o: Order, db: Database, posts: set<Post>, rows: seq<Post>)
    requires IsListing(o, db, posts, rows) && rows != []
    ensures IsListing(o, db, posts - {rows[0]}, rows[1..])
  {
    hide Precedes;
    forall p
      ensures p in rows[1..] <==> p in posts - {rows[0]}
    {
      if p in rows[1..] {
        var i :| 0 < i < |rows| && rows[i] == p;
        PrecedesIsTotal(o, db, rows[0], p, p);
      }
    }
  }

  /** Picks the first row again and again. */
  method OrderBy(o: Order, db: Database, posts: set<Post>) returns (rows: seq<Post>)
    requires DistinctIds(posts)
    ensures IsListing(o, db, posts, rows)
  {
    hide Precedes;
    rows := [];
    var left := posts;
    while left != {}
      invariant left <= posts
      invariant forall p :: p in posts <==> p in rows || p in left
      invariant forall i, j :: 0 <= i < j < |rows| ==> Precedes(o, db, rows[i], rows[j])
      invariant forall i, p :: 0 <= i < |rows| && p in left ==> Precedes(o, db, rows[i], p)
      decreases left
    {
      var p := First(o, db, left);
      rows := rows + [p];
      left := left - {p};
    }
  }

  method First(o: Order, db: Database, posts: set<Post>) returns (first: Post)
    requires DistinctIds(posts) && posts != {}
    ensures first in posts && forall p :: p in posts && p != first ==> Precedes(o, db, first, p)
  {
    hide Precedes;
    first :| first in posts;
    var rest := posts - {first};
    while rest != {}
      invariant rest <= posts && first in posts - rest
      invariant forall p :: p in posts - rest && p != first ==> Precedes(o, db, first, p)
      decreases rest
    {
      var p :| p in rest;
      PrecedesIsTotal(o, db, first, p, p);
      forall q
        ensures Precedes(o, db, p, first) && Precedes(o, db, first, q) ==> Precedes(o, db, p, q)
      {
        PrecedesIsTotal(o, db, p, first, q);
      }
      if Precedes(o, db, p, first) {
        first := p;
      }
      rest := rest - {p};
    }
  }

  // ---------------------------------------------------------------- the queries

  datatype Arg = Text(text: string) | Number(number: int)

  /** One condition of the WHERE clause, with the number of its placeholder. */
  datatype Condition = StatusIs(arg: nat) | UserIs(arg: nat) | TitleILike(arg: nat)

  datatype Query = Count(conditions: seq<Condition>)
                 | Select(conditions: seq<Condition>, order: Order, limitArg: nat, offsetArg: nat)

  /** The database wants exactly the arguments the placeholders ask for, and of the right type. */
  predicate Bound(q: Query, args: seq<Arg>) {
    && (forall c :: c in q.conditions ==> 1 <= c.arg <= |args| && args[c.arg - 1].Text?)
    && (q.Select? ==> 1 <= q.limitArg <= |args| && 1 <= q.offsetArg <= |args|
                      && args[q.limitArg - 1].Number? && args[q.offsetArg - 1].Number?)
    && |args| == |q.conditions| + if q.Select? then 2 else 0
  }

  predicate Holds(c: Condition, args: seq<Arg>, db: Database, p: Post)
    requires 1 <= c.arg <= |args| && args[c.arg - 1].Text?
  {
    var text := args[c.arg - 1].text;
    match c
    case StatusIs(_) => p.status == text
    case UserIs(_) => Some(p.user) == db.uuid(text)
    case TitleILike(_) => ILike(db.fold, text, p.title)
  }

  predicate Numbered(conditions: seq<Condition>, args: seq<Arg>) {
    |args| == |conditions| && forall i :: 0 <= i < |args| ==> conditions[i].arg == i + 1 && args[i].Text?
  }

  /** A text argument must be storable, and a user id to compare with must read as a UUID. */
  predicate Readable(c: Condition, args: seq<Arg>, db: Database)
    requires 1 <= c.arg <= |args| && args[c.arg - 1].Text?
  {
    Storable(args[c.arg - 1].text) && (c.UserIs? ==> db.uuid(args[c.arg - 1].text).Some?)
  }

  predicate AllReadable(conditions: seq<Condition>, args: seq<Arg>, db: Database)
    requires forall c :: c in conditions ==> 1 <= c.arg <= |args| && args[c.arg - 1].Text?
  {
    forall c :: c in conditions ==> Readable(c, args, db)
  }

  /** The database can read the filters: none has a U+0000 and the user id is a UUID. */
  predicate FiltersRead(params: Params, db: Database) {
    && Storable(params.status)
    && (params.user != "" ==> Storable(params.user) && db.uuid(params.user).Some?)
    && Storable(params.search)
  }

  predicate AllHold(conditions: seq<Condition>, args: seq<Arg>, db: Database, p: Post)
    requires Numbered(conditions, args)
  {
    forall i :: 0 <= i < |conditions| ==> Holds(conditions[i], args, db, p)
  }

  function Where(q: Query, args: seq<Arg>, db: Database, posts: set<Post>): set<Post>
    requires Bound(q, args)
  {
    set p | p in posts && forall c :: c in q.conditions ==> Holds(c, args, db, p)
  }

  /** The filter a request asks for. */
  predicate Matches(params: Params, db: Database, p: Post) {
    && (params.status != "" ==> p.status == params.status)
    && (params.user != "" ==> Some(p.user) == db.uuid(params.user))
    && (params.search != "" ==> ILike(db.fold, SearchPattern(params.search), p.title))
  }

  function Matching(params: Params, db: Database, posts: set<Post>): set<Post> {
    set p | p in posts && Matches(params, db, p)
  }

  /** EqualFold with "asc"; the long s folds to an s. */
  predicate IsAsc(dir: string) {
    && |dir| == 3
    && (dir[0] == 'a' || dir[0] == 'A')
    && (dir[1] == 's' || dir[1] == 'S' || dir[1] == '\U{017F}')
    && (dir[2] == 'c' || dir[2] == 'C')
  }

  function OrderOf(params: Params): Order {
    Order(if params.sortBy == "updated_at" || params.sortBy == "title" then params.sortBy else "created_at",
          IsAsc(params.sortDir))
  }

  /** The directions there are: ascending only when asked for. */
  lemma IsAscIs()
    ensures IsAsc("asc") && IsAsc("ASC") && IsAsc("Asc") && !IsAsc("desc") && !IsAsc("") && !IsAsc("ascending")
  {
  }

  /** Which of two posts comes first, in the request's own terms: by the field asked for, created_at unless it
      is another of the three, newest or highest first unless ascending; and by id when the field is the
      same. */
  lemma OrderIs(params: Params, db: Database, a: Post, b: Post)
    ensures var ids, asc, field := IdLess(a.id, b.id), IsAsc(params.sortDir), params.sortBy;
            var first := Precedes(OrderOf(params), db, a, b);
            && (field == "title" && !asc ==> (first <==> db.rank(a.title) > db.rank(b.title) || (db.rank(a.title) == db.rank(b.title) && ids)))
            && (field == "title" && asc ==> (first <==> db.rank(a.title) < db.rank(b.title) || (db.rank(a.title) == db.rank(b.title) && ids)))
            && (field == "updated_at" && !asc ==> (first <==> a.updatedAt > b.updatedAt || (a.updatedAt == b.updatedAt && ids)))
            && (field == "updated_at" && asc ==> (first <==> a.updatedAt < b.updatedAt || (a.updatedAt == b.updatedAt && ids)))
            && (field != "title" && field != "updated_at" && !asc ==> (first <==> a.createdAt > b.createdAt || (a.createdAt == b.createdAt && ids)))
            && (field != "title" && field != "updated_at" && asc ==> (first <==> a.createdAt < b.createdAt || (a.createdAt == b.createdAt && ids)))
  {
    hide IdLess, IsAsc;
  }

  /** The rows of a page: matching posts, in that order. */
  lemma RowsOfPage(params: Params, db: Database, posts: set<Post>, all: seq<Post>, offset: nat, limit: nat)
    requires IsListing(OrderOf(params), db, Matching(params, db, posts), all)
    ensures var rows := Slice(all, offset, limit);
            && (forall i :: 0 <= i < |rows| ==> rows[i] in posts && Matches(params, db, rows[i]))
            && (forall i, j :: 0 <= i < j < |rows| ==> Precedes(OrderOf(params), db, rows[i], rows[j]))
            && |rows| <= limit
  {
    hide Precedes, Matches, OrderOf;
    var rows := Slice(all, offset, limit);
    forall i | 0 <= i < |rows|
      ensures offset + i < |all| && rows[i] == all[offset + i] && rows[i] in Matching(params, db, posts)
    {
      assert all[offset + i] in all;
    }
  }

  /** The filter in the request's own terms. */
  lemma MatchingIs(params: Params, db: Database, posts: set<Post>)
    ensures Matching(params, db, posts)
         == set p | p in posts
                    && (params.status != "" ==> p.status == params.status)
                    && (params.user != "" ==> Some(p.user) == db.uuid(params.user))
                    && (params.search != "" ==> ILike(db.fold, "%" + params.search + "%", p.title))
  {
    hide ILike;
  }

  const MAX_INT := 0x7fff_ffff_ffff_ffff

  /** The 64-bit integer an arithmetic result wraps around to. */
  function Wrap64(n: int): (w: int)
    ensures -9223372036854775808 <= w <= 9223372036854775807
    ensures exists k :: w == n + k * 18446744073709551616
    ensures -MAX_INT - 1 <= n <= MAX_INT ==> w == n
  {
    var m := n + MAX_INT + 1;
    assert m % 0x1_0000_0000_0000_0000 - MAX_INT - 1 == n + (-(m / 0x1_0000_0000_0000_0000)) * 18446744073709551616;
    m % 0x1_0000_0000_0000_0000 - MAX_INT - 1
  }

  /** The offset the list query gets: a huge page number wraps around. */
  function OffsetOf(params: Params): int {
    Wrap64((params.page - 1) * params.pageSize)
  }

  /** OFFSET and LIMIT. */
  function Slice(rows: seq<Post>, offset: nat, limit: nat): seq<Post> {
    if offset >= |rows| then []
    else if offset + limit >= |rows| then rows[offset..]
    else rows[offset..offset + limit]
  }

  lemma EmptyIsStorable()
    ensures Storable("")
  {
  }

  lemma PatternIsStorable(search: string)
    ensures Storable("%" + search + "%") <==> Storable(search)
  {
    var p := "%" + search + "%";
    assert forall i :: 0 <= i < |search| ==> p[i + 1] == search[i];
  }

  lemma ValidStatusIsStorable(status: string)
    requires status == "" || IsValidStatus(status)
    ensures Storable(status)
  {
  }

  lemma NoConditions(db: Database)
    ensures AllReadable([], [], db) && forall p :: AllHold([], [], db, p)
  {
  }

  lemma OneMore(conditions: seq<Condition>, args: seq<Arg>, db: Database, c: Condition, arg: Arg)
    requires Numbered(conditions, args) && c.arg == |args| + 1 && arg.Text?
    ensures Numbered(conditions + [c], args + [arg])
    ensures forall p :: AllHold(conditions + [c], args + [arg], db, p) <==> AllHold(conditions, args, db, p) && Holds(c, args + [arg], db, p)
  {
    hide ILike;
    forall p
      ensures AllHold(conditions + [c], args + [arg], db, p) <==> AllHold(conditions, args, db, p) && Holds(c, args + [arg], db, p)
    {
      assert (conditions + [c])[|conditions|] == c;
      assert forall i :: 0 <= i < |conditions| ==> (conditions + [c])[i] == conditions[i];
      assert forall i :: 0 <= i < |conditions| ==> Holds(conditions[i], args + [arg], db, p) == Holds(conditions[i], args, db, p);
    }
  }

  lemma OneMoreReads(conditions: seq<Condition>, args: seq<Arg>, db: Database, c: Condition, arg: Arg)
    requires Numbered(conditions, args) && c.arg == |args| + 1 && arg.Text?
    ensures Numbered(conditions + [c], args + [arg])
    ensures AllReadable(conditions + [c], args + [arg], db) <==> AllReadable(conditions, args, db) && Readable(c, args + [arg], db)
  {
    assert (conditions + [c])[|conditions|] == c;
    assert forall b :: b in conditions ==> b in conditions + [c] && Readable(b, args + [arg], db) == Readable(b, args, db);
  }

  /** Arguments that follow those of the conditions change nothing. */
  lemma SameReads(conditions: seq<Condition>, args: seq<Arg>, more: seq<Arg>, db: Database)
    requires Numbered(conditions, args)
    ensures AllReadable(conditions, args + more, db) <==> AllReadable(conditions, args, db)
  {
    assert forall c :: c in conditions ==> Readable(c, args + more, db) == Readable(c, args, db);
  }

  /** Both queries select the matching posts, whatever arguments follow those of the conditions. */
  lemma SameWhere(conditions: seq<Condition>, args: seq<Arg>, more: seq<Arg>, params: Params, db: Database, posts: set<Post>)
    requires Numbered(conditions, args)
    requires forall p :: AllHold(conditions, args, db, p) <==> Matches(params, db, p)
    ensures forall q: Query :: q.conditions == conditions && Bound(q, args + more) ==>
              Where(q, args + more, db, posts) == Matching(params, db, posts)
  {
    hide Matches;
    forall q: Query, p | q.conditions == conditions && Bound(q, args + more)
      ensures (forall c :: c in q.conditions ==> Holds(c, args + more, db, p)) <==> AllHold(conditions, args, db, p)
    {
    }
  }

  /** The page as the repository returns it, for whoever asks. */
  lemma AllRowsAre(params: Params, db: Database, posts: set<Post>, all: seq<Post>, page: seq<Post>)
    requires IsListing(OrderOf(params), db, Matching(params, db, posts), all)
    requires OffsetOf(params) >= 0 && params.pageSize >= 0 && page == Slice(all, OffsetOf(params), params.pageSize)
    ensures forall rows :: IsListing(OrderOf(params), db, Matching(params, db, posts), rows) ==> rows == all
    ensures |page| <= params.pageSize && forall i :: 0 <= i < |page| ==> page[i] in posts && Matches(params, db, page[i])
    ensures forall i, j :: 0 <= i < j < |page| ==>
              var a, b := page[i], page[j];
              var asc, field := IsAsc(params.sortDir), params.sortBy;
              && (field == "title" ==> if asc then db.rank(a.title) <= db.rank(b.title) else db.rank(a.title) >= db.rank(b.title))
              && (field == "title" && db.rank(a.title) == db.rank(b.title) ==> IdLess(a.id, b.id))
              && (field == "updated_at" ==> if asc then a.updatedAt <= b.updatedAt else a.updatedAt >= b.updatedAt)
              && (field == "updated_at" && a.updatedAt == b.updatedAt ==> IdLess(a.id, b.id))
              && (field != "title" && field != "updated_at" ==> if asc then a.createdAt <= b.createdAt else a.createdAt >= b.createdAt)
              && (field != "title" && field != "updated_at" && a.createdAt == b.createdAt ==> IdLess(a.id, b.id))
  {
    hide IdLess, IsAsc, Precedes, IsListing, Slice, Matches, Matching;
    RowsOfPage(params, db, posts, all, OffsetOf(params), params.pageSize);
    forall rows | IsListing(OrderOf(params), db, Matching(params, db, posts), rows)
      ensures rows == all
    {
      ListingIsUnique(OrderOf(params), db, Matching(params, db, posts), rows, all);
    }
    forall i, j | 0 <= i < j < |page|
      ensures Precedes(OrderOf(params), db, page[i], page[j])
    {
    }
    forall a: Post, b: Post
      ensures Precedes(OrderOf(params), db, a, b) ==>
                var asc, field := IsAsc(params.sortDir), params.sortBy;
                && (field == "title" ==> if asc then db.rank(a.title) <= db.rank(b.title) else db.rank(a.title) >= db.rank(b.title))
                && (field == "title" && db.rank(a.title) == db.rank(b.title) ==> IdLess(a.id, b.id))
                && (field == "updated_at" ==> if asc then a.updatedAt <= b.updatedAt else a.updatedAt >= b.updatedAt)
                && (field == "updated_at" && a.updatedAt == b.updatedAt ==> IdLess(a.id, b.id))
                && (field != "title" && field != "updated_at" ==> if asc then a.createdAt <= b.createdAt else a.createdAt >= b.createdAt)
                && (field != "title" && field != "updated_at" && a.createdAt == b.createdAt ==> IdLess(a.id, b.id))
    {
      OrderIs(params, db, a, b);
    }
  }

  class PostRepository {
    var posts: set<Post>

    constructor ()
      ensures posts == {}
    {
      posts := {};
    }

    /** The database: counts the rows a query selects. */
    method QueryCount(q: Query, args: seq<Arg>, db: Database) returns (total: Option<nat>)
      requires q.Count? && Bound(q, args)
      ensures total == if AllReadable(q.conditions, args, db) then Some(|Where(q, args, db, posts)|) else None
    {
      return if AllReadable(q.conditions, args, db) then Some(|Where(q, args, db, posts)|) else None;
    }

    /** The database: selects, orders and slices; an argument that does not read and a negative LIMIT or
        OFFSET are errors. */
    method QueryRows(q: Query, args: seq<Arg>, db: Database) returns (r: Option<seq<Post>>, ghost all: seq<Post>)
      requires q.Select? && Bound(q, args) && DistinctIds(posts)
      ensures r.None? <==>
                || !AllReadable(q.conditions, args, db)
                || args[q.limitArg - 1].number < 0 || args[q.offsetArg - 1].number < 0
      ensures r.Some? ==>
                && IsListing(q.order, db, Where(q, args, db, posts), all)
                && r.value == Slice(all, args[q.offsetArg - 1].number, args[q.limitArg - 1].number)
    {
      all := [];
      var limit, offset := args[q.limitArg - 1].number, args[q.offsetArg - 1].number;
      if !AllReadable(q.conditions, args, db) || limit < 0 || offset < 0 {
        return None, all;
      }
      var rows := OrderBy(q.order, db, Where(q, args, db, posts));
      return Some(Slice(rows, offset, limit)), rows;
    }

    /** The WHERE clause and its arguments: the n-th placeholder is $n and names the n-th argument, and the
        conditions together are the filter asked for. */
    method BuildWhere(params: Params, ghost db: Database) returns (conditions: seq<Condition>, args: seq<Arg>, argPos: nat)
      ensures Numbered(conditions, args) && argPos == |args| + 1
      ensures forall p :: AllHold(conditions, args, db, p) <==> Matches(params, db, p)
      ensures AllReadable(conditions, args, db) <==> FiltersRead(params, db)
    {
      hide ILike, AllHold, AllReadable, Storable;
      EmptyIsStorable();
      conditions, args, argPos := [], [], 1;
      assert AllReadable([], [], db) && forall p :: AllHold([], [], db, p) by { NoConditions(db); }
      if params.status != "" {
        OneMore(conditions, args, db, StatusIs(argPos), Text(params.status));
        OneMoreReads(conditions, args, db, StatusIs(argPos), Text(params.status));
        conditions := conditions + [StatusIs(argPos)];
        args := args + [Text(params.status)];
        argPos := argPos + 1;
      }
      if params.user != "" {
        OneMore(conditions, args, db, UserIs(argPos), Text(params.user));
        OneMoreReads(conditions, args, db, UserIs(argPos), Text(params.user));
        conditions := conditions + [UserIs(argPos)];
        args := args + [Text(params.user)];
        argPos := argPos + 1;
      }
      if params.search != "" {
        PatternIsStorable(params.search);
        OneMore(conditions, args, db, TitleILike(argPos), Text("%" + params.search + "%"));
        OneMoreReads(conditions, args, db, TitleILike(argPos), Text("%" + params.search + "%"));
        conditions := conditions + [TitleILike(argPos)];
        args := args + [Text("%" + params.search + "%")];
        argPos := argPos + 1;
      }
    }

    /** One page of the matching posts and how many match in all. */
    method List(params: Params, db: Database) returns (r: Option<(seq<Post>, nat)>)
      requires DistinctIds(posts)
      ensures r.None? <==> !FiltersRead(params, db) || params.pageSize < 0 || OffsetOf(params) < 0
      ensures r.Some? ==>
                && r.value.1 == |Matching(params, db, posts)|
                && forall rows :: IsListing(OrderOf(params), db, Matching(params, db, posts), rows) ==>
                     r.value.0 == Slice(rows, OffsetOf(params), params.pageSize)
      ensures r.Some? ==>
                r.value.1 == |set p | p in posts
                                      && (params.status != "" ==> p.status == params.status)
                                      && (params.user != "" ==> Some(p.user) == db.uuid(params.user))
                                      && (params.search != "" ==> ILike(db.fold, "%" + params.search + "%", p.title))|
      ensures r.Some? ==>
                && |r.value.0| <= params.pageSize
                && forall i :: 0 <= i < |r.value.0| ==>
                     var p := r.value.0[i];
                     && p in posts
                     && (params.status != "" ==> p.status == params.status)
                     && (params.user != "" ==> Some(p.user) == db.uuid(params.user))
                     && (params.search != "" ==> ILike(db.fold, "%" + params.search + "%", p.title))
      ensures r.Some? ==> forall i, j :: 0 <= i < j < |r.value.0| ==>
                var a, b := r.value.0[i], r.value.0[j];
                var asc, field := IsAsc(params.sortDir), params.sortBy;
                && (field == "title" ==> if asc then db.rank(a.title) <= db.rank(b.title) else db.rank(a.title) >= db.rank(b.title))
                && (field == "title" && db.rank(a.title) == db.rank(b.title) ==> IdLess(a.id, b.id))
                && (field == "updated_at" ==> if asc then a.updatedAt <= b.updatedAt else a.updatedAt >= b.updatedAt)
                && (field == "updated_at" && a.updatedAt == b.updatedAt ==> IdLess(a.id, b.id))
                && (field != "title" && field != "updated_at" ==> if asc then a.createdAt <= b.createdAt else a.createdAt >= b.createdAt)
                && (field != "title" && field != "updated_at" && a.createdAt == b.createdAt ==> IdLess(a.id, b.id))
    {
      hide ILike, IdLess;
      var conditions, args, argPos := BuildWhere(params, db);
      SameWhere(conditions, args, [], params, db, posts);
      assert args + [] == args;
      var total := QueryCount(Count(conditions), args, db);
      if total.None? {
        return None;
      }
      var column := if params.sortBy in {"created_at", "updated_at", "title"} then params.sortBy else "created_at";
      var limitArg, offsetArg := argPos, argPos + 1;
      var window := [Number(params.pageSize), Number(Wrap64((params.page - 1) * params.pageSize))];
      SameWhere(conditions, args, window, params, db, posts);
      SameReads(conditions, args, window, db);
      args := args + window;
      var rows;
      ghost var all;
      rows, all := QueryRows(Select(conditions, Order(column, IsAsc(params.sortDir)), limitArg, offsetArg), args, db);
      if rows.None? {
        return None;
      }
      AllRowsAre(params, db, posts, all, rows.value);
      MatchingIs(params, db, posts);
      return Some((rows.value, total.value));
    }
  }

  // ---------------------------------------------------------------- the pages

  const MAX_PAGE_SIZE := 100

  /** The page number from what Atoi made of the query parameter. */
  function ParsePage(n: Option<int>): (page: int)
    ensures page >= 1
    ensures n.Some? && n.value >= 1 ==> page == n.value
    ensures n.None? || n.value < 1 ==> page == 1
  {
    if n.None? || n.value < 1 then 1 else n.value
  }

  function ParsePageSize(n: Option<int>): (size: int)
    ensures 1 <= size <= 100
    ensures n.Some? && 1 <= n.value <= 100 ==> size == n.value
    ensures n.Some? && n.value > 100 ==> size == 100
    ensures n.None? || n.value < 1 ==> size == 20
  {
    if n.None? || n.value < 1 then 20 else if n.value > MAX_PAGE_SIZE then MAX_PAGE_SIZE else n.value
  }

  /** The sort field and direction, the field from an allow-list. */
  method ParseSort(sortBy: string, sortDir: string, allowed: seq<string>, defaultField: string)
    returns (field: string, dir: string)
    ensures field == if sortBy in allowed then sortBy else defaultField
    ensures dir == if sortDir == "asc" then "asc" else "desc"
  {
    field := sortBy;
    var valid := false;
    for i := 0 to |allowed|
      invariant !valid && sortBy !in allowed[..i]
    {
      if allowed[i] == field {
        valid := true;
        break;
      }
    }
    if !valid {
      field := defaultField;
    }
    dir := if sortDir != "asc" && sortDir != "desc" then "desc" else sortDir;
  }

  function TotalPages(total: nat, size: int): int {
    if size <= 0 then 1
    else
      var pages := (total + size - 1) / size;
      if pages < 1 then 1 else pages
  }

  /** The fewest pages that hold everything, and at least one. */
  lemma TotalPagesIsLeast(total: nat, size: int, pages: int)
    requires size >= 1
    ensures TotalPages(total, size) * size >= total && TotalPages(total, size) >= 1
    ensures pages >= 1 && pages * size >= total ==> TotalPages(total, size) <= pages
  {
    var q := (total + size - 1) / size;
    assert q * size + (total + size - 1) % size == total + size - 1;
    if pages < q {
      Times(pages + 1, q, size);
    }
  }

  lemma Times(a: int, b: int, size: int)
    requires a <= b && size >= 0
    ensures a * size <= b * size
  {
  }

  function Page(rows: seq<Post>, page: int, size: int): seq<Post>
    requires page >= 1 && size >= 0
  {
    Slice(rows, (page - 1) * size, size)
  }

  /** Pages 1 to n, one after the other. */
  function Pages(rows: seq<Post>, n: nat, size: int): seq<Post>
    requires size >= 0
  {
    if n == 0 then [] else Pages(rows, n - 1, size) + Page(rows, n, size)
  }

  lemma {:induction false} PagesArePrefix(rows: seq<Post>, n: nat, size: int)
    requires size >= 1
    ensures Pages(rows, n, size) == if n * size >= |rows| then rows else rows[..n * size]
  {
    if n > 0 {
      PagesArePrefix(rows, n - 1, size);
      assert n * size == (n - 1) * size + size;
    }
  }

  /** For a fixed table and fixed filter and order: the pages 1 to the reported total, put together, are the
      listing of the matching posts, in which every one of them has exactly one place. */
  lemma PagesPartition(params: Params, db: Database, posts: set<Post>, rows: seq<Post>, p: Post)
    requires params.pageSize >= 1 && IsListing(OrderOf(params), db, Matching(params, db, posts), rows)
    ensures |rows| == |Matching(params, db, posts)|
    ensures Pages(rows, TotalPages(|Matching(params, db, posts)|, params.pageSize), params.pageSize) == rows
    ensures (p in posts && Matches(params, db, p)) <==> exists i :: 0 <= i < |rows| && rows[i] == p
    ensures forall i, j :: 0 <= i < j < |rows| ==> rows[i] != rows[j]
  {
    hide Precedes, Matches, TotalPages, Pages;
    ListingHasSize(OrderOf(params), db, Matching(params, db, posts), rows);
    TotalPagesIsLeast(|rows|, params.pageSize, 1);
    PagesArePrefix(rows, TotalPages(|rows|, params.pageSize), params.pageSize);
    NoRepeats(OrderOf(params), db, Matching(params, db, posts), rows);
    assert p in rows <==> exists i :: 0 <= i < |rows| && rows[i] == p;
  }

  lemma NoRepeats(o: Order, db: Database, posts: set<Post>, rows: seq<Post>)
    requires IsListing(o, db, posts, rows)
    ensures forall i, j :: 0 <= i < j < |rows| ==> rows[i] != rows[j]
  {
    hide Precedes;
    forall i, j | 0 <= i < j < |rows|
      ensures rows[i] != rows[j]
    {
      PrecedesIsTotal(o, db, rows[i], rows[j], rows[j]);
    }
  }

  lemma {:induction false} ListingHasSize(o: Order, db: Database, posts: set<Post>, rows: seq<Post>)
    requires IsListing(o, db, posts, rows)
    ensures |rows| == |posts|
    decreases |rows|
  {
    if rows == [] {
      assert posts == {};
    } else {
      RestIsListing(o, db, posts, rows);
      ListingHasSize(o, db, posts - {rows[0]}, rows[1..]);
    }
  }

  /** Every post is on the page its place says. */
  lemma PlaceOfPost(rows: seq<Post>, size: int, i: nat)
    requires size >= 1 && i < |rows|
    ensures i / size + 1 <= TotalPages(|rows|, size)
    ensures i % size < |Page(rows, i / size + 1, size)| && Page(rows, i / size + 1, size)[i % size] == rows[i]
  {
    hide TotalPages;
    var n, k := TotalPages(|rows|, size), i / size;
    assert k * size + i % size == i;
    TotalPagesIsLeast(|rows|, size, 1);
    if k >= n {
      Times(n, k, size);
    }
  }

  /** There is nothing on a page after the last. */
  lemma NothingAfterLastPage(rows: seq<Post>, size: int, page: int)
    requires size >= 1 && page > TotalPages(|rows|, size)
    ensures page >= 1 && Page(rows, page, size) == []
  {
    hide TotalPages;
    TotalPagesIsLeast(|rows|, size, 1);
    Times(TotalPages(|rows|, size), page - 1, size);
  }

  // ---------------------------------------------------------------- one request for a page

  datatype PageResult = BadStatus | DatabaseError | Found(data: seq<Post>, page: int, size: int, total: nat, totalPages: int)

  /** The query parameters, numbers as Atoi read them. */
  datatype ListQuery = ListQuery(page: Option<int>, pageSize: Option<int>, status: string, user: string,
                                 search: string, sortBy: string, sortDir: string)

  const SORT_FIELDS := ["created_at", "updated_at", "title"]

  class ListService {
    const repository: PostRepository

    constructor (repository: PostRepository)
      ensures this.repository == repository
    {
      this.repository := repository;
    }

    method List(params: Params, db: Database) returns (r: PageResult)
      requires DistinctIds(repository.posts)
      ensures r.BadStatus? <==> params.status != "" && !IsValidStatus(params.status)
      ensures r.DatabaseError? <==>
                && !r.BadStatus?
                && (!FiltersRead(params, db) || params.pageSize < 0 || OffsetOf(params) < 0)
      ensures r.Found? ==>
                && r.page == params.page && r.size == params.pageSize
                && r.total == |Matching(params, db, repository.posts)| && r.totalPages == TotalPages(r.total, r.size)
                && params.pageSize >= 0 && OffsetOf(params) >= 0
                && forall rows :: IsListing(OrderOf(params), db, Matching(params, db, repository.posts), rows) ==>
                     r.data == Slice(rows, OffsetOf(params), params.pageSize)
    {
      if params.status != "" && !IsValidStatus(params.status) {
        return BadStatus;
      }
      var found := repository.List(params, db);
      if found.None? {
        return DatabaseError;
      }
      return Found(found.value.0, params.page, params.pageSize, found.value.1, TotalPages(found.value.1, params.pageSize));
    }

    /** The handler: only an unknown status, a user id that is no UUID, a U+0000 in it or in the search text,
        and a page so far out that its offset wraps around to a negative number are refused.  Otherwise the
        answer is the page asked for, unless the offset wraps around to that of an earlier row. */
    method Handle(q: ListQuery, db: Database) returns (r: PageResult, ghost params: Params)
      requires DistinctIds(repository.posts)
      ensures r.BadStatus? <==> q.status != "" && !IsValidStatus(q.status)
      ensures r.DatabaseError? <==>
                && !r.BadStatus?
                && (|| (q.user != "" && (!Storable(q.user) || db.uuid(q.user).None?))
                    || !Storable(q.search)
                    || OffsetOf(params) < 0)
      ensures params.status == q.status && params.user == q.user && params.search == q.search
      ensures params.page == ParsePage(q.page) && params.pageSize == ParsePageSize(q.pageSize)
      ensures OrderOf(params) == Order(if q.sortBy in ["created_at", "updated_at", "title"] then q.sortBy else "created_at", q.sortDir == "asc")
      ensures r.Found? ==>
                && r.total == |Matching(params, db, repository.posts)| && r.totalPages == TotalPages(r.total, params.pageSize)
                && forall rows :: IsListing(OrderOf(params), db, Matching(params, db, repository.posts), rows) && |rows| <= 9223372036854775807 ==>
                     (r.data == Page(rows, params.page, params.pageSize)
                      <==> (params.page - 1) * params.pageSize <= 9223372036854775807 || OffsetOf(params) >= |rows|)
    {
      var sortBy, sortDir := ParseSort(q.sortBy, q.sortDir, SORT_FIELDS, "created_at");
      var p := Params(ParsePage(q.page), ParsePageSize(q.pageSize), q.status, q.user, q.search, sortBy, sortDir);
      params := p;
      if p.status == "" || IsValidStatus(p.status) {
        ValidStatusIsStorable(p.status);
      }
      r := List(p, db);
      if r.Found? {
        forall rows | |rows| <= 9223372036854775807
          ensures Slice(rows, OffsetOf(p), p.pageSize) == Page(rows, p.page, p.pageSize)
             <==> (p.page - 1) * p.pageSize <= 9223372036854775807 || OffsetOf(p) >= |rows|
        {
          PageIsRightIff(p, rows);
        }
      }
    }
  }

  /** The rows the database returns are those of the page exactly if its offset does not wrap around, or wraps
      around to behind the last row. */
  lemma PageIsRightIff(params: Params, rows: seq<Post>)
    requires params.page >= 1 && params.pageSize >= 1 && |rows| <= 9223372036854775807 && OffsetOf(params) >= 0
    ensures Slice(rows, OffsetOf(params), params.pageSize) == Page(rows, params.page, params.pageSize)
       <==> (params.page - 1) * params.pageSize <= 9223372036854775807 || OffsetOf(params) >= |rows|
  {
    Times(0, params.page - 1, params.pageSize);
  }

  /** With 64 posts a page, page 2^58 + 1 shows the first page again. */
  lemma HugePageIsTheFirst(params: Params, rows: seq<Post>)
    requires params.pageSize == 64 && params.page == 0x400_0000_0000_0000 + 1
    ensures OffsetOf(params) == 0 && Slice(rows, OffsetOf(params), params.pageSize) == Page(rows, 1, params.pageSize)
  {
  }
}
