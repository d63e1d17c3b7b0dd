/**
 Keyset pagination: a query is rewritten with a clause that skips everything up to the cursor, and following cursors
 enumerates the sorted result.
 */
module Pagination {
  import opened Common
  import opened Wrappers

  /** A document: the value of the sort field, the id, and the rest. */
  datatype Doc = Doc(key: int, id: int, body: int)

  /** What a cursor carries: the sort value and id of the last document returned. */
  datatype Pos = Pos(v: int, id: int)

  datatype RawCursor = Token(pos: Pos) | Malformed

  datatype SortOrder = MinusOne | One | Asc | Ascending | Desc | Descending

  datatype Clauses = Absent | Present(list: seq<Filter>)

  /** A query object: its plain fields, and its `$or` and `$and` arrays. */
  datatype Filter = Filter(fields: Doc -> bool, orClauses: Clauses, andClauses: Clauses)

  datatype Page = Page(data: seq<Doc>, nextCursor: Option<RawCursor>, hasMore: bool)

  datatype PageError = BadRequest

  // ---------- what the store does with a query ----------

  predicate Matches(f: Filter, d: Doc)
    decreases f
  {
    && f.fields(d)
    && (f.orClauses.Present? ==> exists i | 0 <= i < |f.orClauses.list| :: Matches(f.orClauses.list[i], d))
    && (f.andClauses.Present? ==> forall i | 0 <= i < |f.andClauses.list| :: Matches(f.andClauses.list[i], d))
  }

  function PosOf(d: Doc): Pos {
    Pos(d.key, d.id)
  }

  predicate Less(p: Pos, q: Pos) {
    p.v < q.v || (p.v == q.v && p.id < q.id)
  }

  /** The store sorts downwards for three of the six spellings. */
  predicate SortsDown(order: SortOrder) {
    order in {MinusOne, Desc, SortOrder.Descending}
  }

  predicate Precedes(order: SortOrder, p: Pos, q: Pos) {
    if SortsDown(order) then Less(q, p) else Less(p, q)
  }

  function Select(docs: seq<Doc>, f: Filter): seq<Doc> {
    if docs == [] then []
    else (if Matches(f, docs[0]) then [docs[0]] else []) + Select(docs[1..], f)
  }

  function Insert(d: Doc, sorted: seq<Doc>, order: SortOrder): seq<Doc> {
    if sorted == [] || !Precedes(order, PosOf(sorted[0]), PosOf(d)) then [d] + sorted
    else [sorted[0]] + Insert(d, sorted[1..], order)
  }

  function Sort(docs: seq<Doc>, order: SortOrder): seq<Doc> {
    if docs == [] then [] else Insert(docs[0], Sort(docs[1..], order), order)
  }

  /** `find(filter).sort(...).limit(n)` */
  function FindSorted(docs: seq<Doc>, f: Filter, order: SortOrder, n: nat): (rows: seq<Doc>)
    ensures |rows| <= n
  {
    var all := Sort(Select(docs, f), order);
    if |all| <= n then all else all[..n]
  }

  // ---------- one page ----------

  function PageSize(limit: real): (size: nat)
    ensures 1 <= size <= 200
    ensures 1.0 <= limit < 201.0 ==> size == limit.Floor
  {
    var whole := limit.Floor;
    if whole < 1 then 1 else if whole > 200 then 200 else whole
  }

  /** Limits below 1 give one document, limits of 200 and more give 200, and others their whole part. */
  lemma PageSizeMeaning(limit: real)
    ensures limit < 1.0 ==> PageSize(limit) == 1
    ensures limit >= 200.0 ==> PageSize(limit) == 200
    ensures 1.0 <= limit < 200.0 ==> PageSize(limit) as real <= limit < PageSize(limit) as real + 1.0
  {
  }

  /** `$lt` for the order -1, `$gt` for every other spelling. */
  predicate Beyond(order: SortOrder, cursor: Pos, p: Pos) {
    if order == MinusOne then Less(p, cursor) else Less(cursor, p)
  }

  function CursorClause(order: SortOrder, c: Pos): seq<Filter> {
    [Filter((d: Doc) => if order == MinusOne then d.key < c.v else d.key > c.v, Absent, Absent),
     Filter((d: Doc) => d.key == c.v && (if order == MinusOne then d.id < c.id else d.id > c.id), Absent, Absent)]
  }

  function Rewrite(f: Filter, order: SortOrder, cursor: Option<Pos>): Filter {
    if cursor.None? then f
    else
      var clause := CursorClause(order, cursor.value);
      if f.orClauses.Present? then
        f.(andClauses := Present([Filter(_ => true, f.orClauses, Absent), Filter(_ => true, Present(clause), Absent)]),
           orClauses := Absent)
      else f.(orClauses := Present(clause))
  }

  function PageAt(docs: seq<Doc>, f: Filter, order: SortOrder, cursor: Option<Pos>, size: nat): Page {
    var rows := FindSorted(docs, Rewrite(f, order, cursor), order, size + 1);
    var hasMore := |rows| > size;
    var data := if hasMore then rows[..size] else rows;
    Page(data, if hasMore && data != [] then Some(Token(PosOf(data[|data| - 1]))) else None, hasMore)
  }

  method CursorPaginate(docs: seq<Doc>, filter: Filter, sortOrder: SortOrder, cursor: Option<RawCursor>, limit: real)
    returns (result: Result<Page, PageError>)
    ensures result.Err? <==> cursor == Some(Malformed)
    ensures cursor.None? ==> result == Ok(PageAt(docs, filter, sortOrder, None, PageSize(limit)))
    ensures cursor.Some? && cursor.value.Token? ==>
              result == Ok(PageAt(docs, filter, sortOrder, Some(cursor.value.pos), PageSize(limit)))
  {
    var size := PageSize(limit);
    var combinedFilter := filter;
    if cursor.Some? {
      if cursor.value.Malformed? {
        return Err(BadRequest);
      }
      var orClause := CursorClause(sortOrder, cursor.value.pos);
      if combinedFilter.orClauses.Present? {
        combinedFilter := combinedFilter.(andClauses := Present([Filter(_ => true, combinedFilter.orClauses, Absent),
                                                                 Filter(_ => true, Present(orClause), Absent)]));
        combinedFilter := combinedFilter.(orClauses := Absent);
      } else {
        combinedFilter := combinedFilter.(orClauses := Present(orClause));
      }
    }
    var rows := FindSorted(docs, combinedFilter, sortOrder, size + 1);
    var hasMore := |rows| > size;
    var data := if hasMore then rows[..size] else rows;
    var nextCursor := None;
    if hasMore && |data| > 0 {
      var last := data[|data| - 1];
      nextCursor := Some(Token(Pos(last.key, last.id)));
    }
    return Ok(Page(data, nextCursor, hasMore));
  }

  // ---------- the meaning of the rewrite ----------

  predicate HoldsBothClauses(f: Filter) {
    f.orClauses.Present? && f.andClauses.Present?
  }

  /** What is left of a filter once a cursor has been merged into it: a filter with both clauses loses its `$and`. */
  function Kept(f: Filter): Filter {
    if HoldsBothClauses(f) then f.(andClauses := Absent) else f
  }

  lemma CursorClauseMeaning(order: SortOrder, c: Pos, d: Doc)
    ensures var clause := CursorClause(order, c);
            (exists i | 0 <= i < |clause| :: Matches(clause[i], d)) <==> Beyond(order, c, PosOf(d))
  {
    var clause := CursorClause(order, c);
    assert Matches(clause[0], d) <==> (if order == MinusOne then d.key < c.v else d.key > c.v);
    assert Matches(clause[1], d) <==> d.key == c.v && (if order == MinusOne then d.id < c.id else d.id > c.id);
  }

  /**
   The rewritten query means "the original filter, and beyond the cursor" for every filter that does not hold both an
   `$or` and an `$and`; for one that does, the original `$and` is lost.
   */
  lemma RewriteMeaning(f: Filter, order: SortOrder, c: Pos, d: Doc)
    ensures Matches(Rewrite(f, order, Some(c)), d) <==>
            Beyond(order, c, PosOf(d)) && Matches(Kept(f), d)
  {
    CursorClauseMeaning(order, c, d);
    if f.orClauses.Present? {
      MergedMeaning(f, order, c, d);
    }
  }

  lemma MergedMeaning(f: Filter, order: SortOrder, c: Pos, d: Doc)
    requires f.orClauses.Present?
    ensures var clause := CursorClause(order, c);
            Matches(Rewrite(f, order, Some(c)), d) <==>
            && f.fields(d)
            && (exists i | 0 <= i < |f.orClauses.list| :: Matches(f.orClauses.list[i], d))
            && exists i | 0 <= i < |clause| :: Matches(clause[i], d)
  {
    var clause := CursorClause(order, c);
    var r := Rewrite(f, order, Some(c));
    var first, second := r.andClauses.list[0], r.andClauses.list[1];
    assert Matches(first, d) <==> exists i | 0 <= i < |f.orClauses.list| :: Matches(f.orClauses.list[i], d);
    assert Matches(second, d) <==> exists i | 0 <= i < |clause| :: Matches(clause[i], d);
    assert Matches(r, d) <==> f.fields(d) && Matches(first, d) && Matches(second, d);
  }

  lemma KeptIsWeaker(f: Filter, d: Doc)
    ensures Matches(f, d) ==> Matches(Kept(f), d)
  {
  }

  /** From the second page on, a filter and what is kept of it are the same query. */
  lemma LaterPagesAgree(f: Filter, order: SortOrder, c: Pos)
    ensures Rewrite(f, order, Some(c)) == Rewrite(Kept(f), order, Some(c)) && !HoldsBothClauses(Kept(f))
  {
  }

  // ---------- sorted results ----------

  predicate DistinctIds(docs: seq<Doc>) {
    forall i, j | 0 <= i < j < |docs| :: docs[i].id != docs[j].id
  }

  predicate StrictlySorted(docs: seq<Doc>, order: SortOrder) {
    forall i, j | 0 <= i < j < |docs| :: Precedes(order, PosOf(docs[i]), PosOf(docs[j]))
  }

  lemma {:induction false} SelectMembers(docs: seq<Doc>, f: Filter)
    ensures forall d :: d in Select(docs, f) <==> d in docs && Matches(f, d)
    ensures |Select(docs, f)| <= |docs|
  {
    if docs != [] {
      SelectMembers(docs[1..], f);
    }
  }

  lemma {:induction false} SelectKeepsDistinct(docs: seq<Doc>, f: Filter)
    requires DistinctIds(docs)
    ensures DistinctIds(Select(docs, f))
  {
    if docs != [] {
      SelectKeepsDistinct(docs[1..], f);
      SelectMembers(docs[1..], f);
      var rest := Select(docs[1..], f);
      forall j | 0 <= j < |rest|
        ensures rest[j].id != docs[0].id
      {
        assert rest[j] in docs[1..];
      }
    }
  }

  lemma {:induction false} InsertSorted(d: Doc, sorted: seq<Doc>, order: SortOrder)
    requires StrictlySorted(sorted, order) && (forall e <- sorted :: e.id != d.id)
    ensures var s := Insert(d, sorted, order);
            StrictlySorted(s, order) && |s| == |sorted| + 1 && forall e :: e in s <==> e == d || e in sorted
  {
    if sorted == [] || !Precedes(order, PosOf(sorted[0]), PosOf(d)) {
      if sorted != [] {
        assert sorted[0] in sorted;
      }
    } else {
      forall e | e in sorted[1..]
        ensures e.id != d.id && Precedes(order, PosOf(sorted[0]), PosOf(e))
      {
        assert e in sorted;
      }
      InsertSorted(d, sorted[1..], order);
      assert sorted == [sorted[0]] + sorted[1..];
    }
  }

  lemma {:induction false} SortCorrect(docs: seq<Doc>, order: SortOrder)
    requires DistinctIds(docs)
    ensures var s := Sort(docs, order);
            StrictlySorted(s, order) && |s| == |docs| && forall e :: e in s <==> e in docs
  {
    if docs != [] {
      SortCorrect(docs[1..], order);
      InsertSorted(docs[0], Sort(docs[1..], order), order);
    }
  }

  /** The order 'desc', under any of its names, puts larger keys first, and larger ids among equal keys; the others reverse. */
  lemma SortMeaning(docs: seq<Doc>, order: SortOrder, i: nat, j: nat)
    requires DistinctIds(docs) && i < j < |docs|
    ensures var s := Sort(docs, order);
            && |s| == |docs|
            && (order in {MinusOne, Desc, SortOrder.Descending} ==>
                  s[i].key > s[j].key || (s[i].key == s[j].key && s[i].id > s[j].id))
            && (order in {One, Asc, SortOrder.Ascending} ==>
                  s[i].key < s[j].key || (s[i].key == s[j].key && s[i].id < s[j].id))
  {
    SortCorrect(docs, order);
    assert Precedes(order, PosOf(Sort(docs, order)[i]), PosOf(Sort(docs, order)[j]));
  }

  /** A strictly sorted sequence is determined by its members. */
  lemma {:induction false} SortedUnique(a: seq<Doc>, b: seq<Doc>, order: SortOrder)
    requires StrictlySorted(a, order) && StrictlySorted(b, order)
    requires forall d :: d in a <==> d in b
    ensures a == b
  {
    assert b != [] ==> b[0] in a;
    if a != [] {
      assert a[0] in b;
      assert b[0] in a;
      assert a[0] == b[0];
      forall d
        ensures d in a[1..] <==> d in b[1..]
      {
        assert d in a[1..] <==> d in a && d != a[0];
        assert d in b[1..] <==> d in b && d != b[0];
      }
      SortedUnique(a[1..], b[1..], order);
    }
  }

  /** The first n matching documents in order, or all of them when there are fewer. */
  ghost predicate IsTop(rows: seq<Doc>, docs: seq<Doc>, f: Filter, order: SortOrder, n: nat) {
    && StrictlySorted(rows, order)
    && (forall d <- rows :: d in docs && Matches(f, d))
    && (forall d | d in docs && Matches(f, d) && d !in rows ::
          |rows| == n && forall e <- rows :: Precedes(order, PosOf(e), PosOf(d)))
  }

  lemma FindFacts(docs: seq<Doc>, f: Filter, order: SortOrder, n: nat)
    requires DistinctIds(docs)
    ensures IsTop(FindSorted(docs, f, order, n), docs, f, order, n)
  {
    SelectMembers(docs, f);
    SelectKeepsDistinct(docs, f);
    SortCorrect(Select(docs, f), order);
    var all := Sort(Select(docs, f), order);
    var rows := FindSorted(docs, f, order, n);
    forall d, e | d in docs && Matches(f, d) && d !in rows && e in rows
      ensures Precedes(order, PosOf(e), PosOf(d))
    {
      var i :| 0 <= i < |rows| && rows[i] == e;
      assert d in all;
      var j :| 0 <= j < |all| && all[j] == d;
      assert j >= |rows|;
    }
  }

  lemma TopOfTop(rows: seq<Doc>, docs: seq<Doc>, f: Filter, order: SortOrder, size: nat)
    requires IsTop(rows, docs, f, order, size + 1) && |rows| > size
    ensures IsTop(rows[..size], docs, f, order, size)
  {
    var data := rows[..size];
    forall d, e | d in docs && Matches(f, d) && d !in data && e in data
      ensures Precedes(order, PosOf(e), PosOf(d))
    {
      if d in rows {
        var j :| 0 <= j < |rows| && rows[j] == d;
        assert j < size ==> d in data;
        var i :| 0 <= i < size && data[i] == e;
        assert rows[i] == e;
      } else {
        assert e in rows;
      }
    }
  }

  lemma ShortTop(rows: seq<Doc>, docs: seq<Doc>, f: Filter, order: SortOrder, size: nat)
    requires IsTop(rows, docs, f, order, size + 1) && |rows| <= size
    ensures IsTop(rows, docs, f, order, size) && forall d | d in docs && Matches(f, d) :: d in rows
  {
  }

  /** What one page holds and what it leaves for later. */
  lemma PageFacts(docs: seq<Doc>, f: Filter, order: SortOrder, cursor: Option<Pos>, size: nat)
    requires DistinctIds(docs) && size >= 1
    ensures var r := Rewrite(f, order, cursor);
            var page := PageAt(docs, f, order, cursor, size);
            && IsTop(page.data, docs, r, order, size)
            && (!page.hasMore ==> page.nextCursor.None? && forall d | d in docs && Matches(r, d) :: d in page.data)
            && (page.hasMore ==>
                  && |page.data| == size
                  && page.nextCursor == Some(Token(PosOf(page.data[size - 1]))))
  {
    var r := Rewrite(f, order, cursor);
    FindFacts(docs, r, order, size + 1);
    var rows := FindSorted(docs, r, order, size + 1);
    if |rows| > size {
      TopOfTop(rows, docs, r, order, size);
    } else {
      ShortTop(rows, docs, r, order, size);
    }
  }

  // ---------- following cursors while the collection changes ----------

  /** The cursor comparison agrees with the sort. */
  predicate Consistent(order: SortOrder) {
    SortsDown(order) == (order == MinusOne)
  }

  /** Page i is read from colls[i]; each next page follows the previous page's cursor; the last has none. */
  ghost predicate IsScan(colls: seq<seq<Doc>>, pages: seq<Page>, f: Filter, order: SortOrder, cursor: Option<Pos>, size: nat)
    decreases |pages|
  {
    && |colls| == |pages| > 0
    && pages[0] == PageAt(colls[0], f, order, cursor, size)
    && if pages[0].nextCursor.None? then |pages| == 1
       else IsScan(colls[1..], pages[1..], f, order, Some(pages[0].nextCursor.value.pos), size)
  }

  function Returned(pages: seq<Page>): seq<Doc> {
    if pages == [] then [] else pages[0].data + Returned(pages[1..])
  }

  predicate ReachedAt(order: SortOrder, cursor: Option<Pos>, p: Pos) {
    cursor.None? || Beyond(order, cursor.value, p)
  }

  predicate Reached(order: SortOrder, cursor: Option<Pos>, d: Doc) {
    ReachedAt(order, cursor, PosOf(d))
  }

  /** The collection holds a matching document at the position. */
  ghost predicate HeldAt(coll: seq<Doc>, f: Filter, p: Pos) {
    exists d <- coll :: Matches(f, d) && PosOf(d) == p
  }

  lemma AppendSorted(a: seq<Doc>, b: seq<Doc>, order: SortOrder, last: Pos)
    requires StrictlySorted(a, order) && StrictlySorted(b, order)
    requires a != [] && last == PosOf(a[|a| - 1]) && (forall d <- b :: Precedes(order, last, PosOf(d)))
    ensures StrictlySorted(a + b, order)
  {
    var ab := a + b;
    forall i, j | 0 <= i < j < |ab|
      ensures Precedes(order, PosOf(ab[i]), PosOf(ab[j]))
    {
      if i < |a| <= j {
        assert ab[j] in b;
      }
    }
  }

  /** One page of a scan, said of the original filter and the sort order. */
  lemma PageOfScan(docs: seq<Doc>, f: Filter, order: SortOrder, cursor: Option<Pos>, size: nat)
    requires DistinctIds(docs) && size >= 1 && Consistent(order) && (cursor.None? || !HoldsBothClauses(f))
    ensures var page := PageAt(docs, f, order, cursor, size);
            && StrictlySorted(page.data, order)
            && (forall d <- page.data :: d in docs && Matches(f, d) && Reached(order, cursor, d))
            && (page.nextCursor.None? ==>
                  forall d | d in docs && Matches(f, d) && Reached(order, cursor, d) :: d in page.data)
            && (page.nextCursor.Some? ==>
                  && page.nextCursor.value.Token? && page.data != []
                  && page.nextCursor.value.pos == PosOf(page.data[|page.data| - 1])
                  && (forall d | Beyond(order, page.nextCursor.value.pos, PosOf(d)) :: Reached(order, cursor, d))
                  && forall d | d in docs && Matches(f, d) && Reached(order, cursor, d) ::
                       d in page.data || Beyond(order, page.nextCursor.value.pos, PosOf(d)))
  {
    PageFacts(docs, f, order, cursor, size);
    forall d
      ensures Matches(Rewrite(f, order, cursor), d) <==> Matches(f, d) && Reached(order, cursor, d)
    {
      if cursor.Some? {
        RewriteMeaning(f, order, cursor.value, d);
      }
    }
    var page := PageAt(docs, f, order, cursor, size);
    if page.hasMore {
      assert page.data[size - 1] in page.data;
      assert page.nextCursor.value.pos == PosOf(page.data[size - 1]);
    }
  }

  lemma {:induction false} ScanFacts(colls: seq<seq<Doc>>, pages: seq<Page>, f: Filter, order: SortOrder, cursor: Option<Pos>, size: nat)
    requires size >= 1 && Consistent(order) && !HoldsBothClauses(f)
    requires forall coll <- colls :: DistinctIds(coll)
    requires IsScan(colls, pages, f, order, cursor, size)
    ensures StrictlySorted(Returned(pages), order)
    ensures forall d <- Returned(pages) :: Matches(f, d) && Reached(order, cursor, d) && exists coll <- colls :: d in coll
    ensures forall p | ReachedAt(order, cursor, p) && (forall coll <- colls :: HeldAt(coll, f, p)) ::
              exists d <- Returned(pages) :: PosOf(d) == p
    decreases |pages|
  {
    var page := pages[0];
    assert colls[0] in colls;
    PageOfScan(colls[0], f, order, cursor, size);
    if page.nextCursor.None? {
      assert Returned(pages) == page.data + [];
    } else {
      var last := page.nextCursor.value.pos;
      ScanFacts(colls[1..], pages[1..], f, order, Some(last), size);
      AppendSorted(page.data, Returned(pages[1..]), order, last);
    }
    forall p | ReachedAt(order, cursor, p) && (forall coll <- colls :: HeldAt(coll, f, p))
      ensures exists d <- Returned(pages) :: PosOf(d) == p
    {
      assert HeldAt(colls[0], f, p);
      var d :| d in colls[0] && Matches(f, d) && PosOf(d) == p;
      if d in page.data {
        assert d in Returned(pages);
      } else {
        assert ReachedAt(order, Some(page.nextCursor.value.pos), p);
        var e :| e in Returned(pages[1..]) && PosOf(e) == p;
        assert e in Returned(pages);
      }
    }
  }

  /** Exactly one returned document has the position. */
  ghost predicate ReturnedOnce(all: seq<Doc>, p: Pos) {
    exists i | 0 <= i < |all| :: PosOf(all[i]) == p && forall j | 0 <= j < |all| && j != i :: PosOf(all[j]) != p
  }

  lemma OnceInSorted(all: seq<Doc>, order: SortOrder, d: Doc)
    requires StrictlySorted(all, order) && d in all
    ensures ReturnedOnce(all, PosOf(d))
  {
    var i :| 0 <= i < |all| && all[i] == d;
    forall j | 0 <= j < |all| && j != i
      ensures PosOf(all[j]) != PosOf(d)
    {
      if j < i {
        assert Precedes(order, PosOf(all[j]), PosOf(all[i]));
      } else {
        assert Precedes(order, PosOf(all[i]), PosOf(all[j]));
      }
    }
  }

  lemma {:induction false} LaterScansAgree(colls: seq<seq<Doc>>, pages: seq<Page>, f: Filter, order: SortOrder, c: Pos, size: nat)
    requires IsScan(colls, pages, f, order, Some(c), size)
    ensures IsScan(colls, pages, Kept(f), order, Some(c), size)
    decreases |pages|
  {
    LaterPagesAgree(f, order, c);
    if pages[0].nextCursor.Some? {
      LaterScansAgree(colls[1..], pages[1..], f, order, pages[0].nextCursor.value.pos, size);
    }
  }

  /**
   Under any inserts, deletes and updates between pages, following the cursors returns documents of the collection in
   strict order, and every position that holds a matching document throughout is returned exactly once. All of them match
   the filter if it does not hold both clauses; if it does, those of the first page match it and the later ones match it
   without its `$and`.
   */
  lemma ScanUnderChurn(colls: seq<seq<Doc>>, pages: seq<Page>, f: Filter, order: SortOrder, limit: real)
    requires Consistent(order)
    requires forall coll <- colls :: DistinctIds(coll)
    requires IsScan(colls, pages, f, order, None, PageSize(limit))
    ensures StrictlySorted(Returned(pages), order)
    ensures forall d <- Returned(pages) :: Matches(Kept(f), d) && exists coll <- colls :: d in coll
    ensures forall d <- pages[0].data :: Matches(f, d)
    ensures forall p | forall coll <- colls :: HeldAt(coll, f, p) :: ReturnedOnce(Returned(pages), p)
  {
    var size := PageSize(limit);
    var first, all := pages[0], Returned(pages);
    assert colls[0] in colls;
    PageOfScan(colls[0], f, order, None, size);
    forall d
      ensures Matches(f, d) ==> Matches(Kept(f), d)
    {
      KeptIsWeaker(f, d);
    }
    if first.nextCursor.None? {
      assert all == first.data + [];
    } else {
      var last := first.nextCursor.value.pos;
      LaterScansAgree(colls[1..], pages[1..], f, order, last, size);
      LaterPagesAgree(f, order, last);
      ScanFacts(colls[1..], pages[1..], Kept(f), order, Some(last), size);
      AppendSorted(first.data, Returned(pages[1..]), order, last);
    }
    forall p | forall coll <- colls :: HeldAt(coll, f, p)
      ensures ReturnedOnce(all, p)
    {
      HeldIsReturned(colls, pages, f, order, size, p);
      var d :| d in all && PosOf(d) == p;
      OnceInSorted(all, order, d);
    }
  }

  lemma HeldIsReturned(colls: seq<seq<Doc>>, pages: seq<Page>, f: Filter, order: SortOrder, size: nat, p: Pos)
    requires size >= 1 && Consistent(order)
    requires forall coll <- colls :: DistinctIds(coll) && HeldAt(coll, f, p)
    requires IsScan(colls, pages, f, order, None, size)
    ensures exists d <- Returned(pages) :: PosOf(d) == p
  {
    assert HeldAt(colls[0], f, p);
    PageOfScan(colls[0], f, order, None, size);
    var d :| d in colls[0] && Matches(f, d) && PosOf(d) == p;
    assert Reached(order, None, d);
    if d in pages[0].data {
      assert d in Returned(pages);
    } else {
      var last := pages[0].nextCursor.value.pos;
      forall coll | coll in colls[1..]
        ensures HeldAt(coll, Kept(f), p)
      {
        assert HeldAt(coll, f, p);
        var e :| e in coll && Matches(f, e) && PosOf(e) == p;
        KeptIsWeaker(f, e);
      }
      LaterScansAgree(colls[1..], pages[1..], f, order, last, size);
      LaterPagesAgree(f, order, last);
      ScanFacts(colls[1..], pages[1..], Kept(f), order, Some(last), size);
      assert ReachedAt(order, Some(last), p);
      var e :| e in Returned(pages[1..]) && PosOf(e) == p;
      assert e in Returned(pages);
    }
  }

  // ---------- a collection that does not change ----------

  /** How many documents lie beyond the cursor: every page moves it. */
  function Remaining(docs: seq<Doc>, order: SortOrder, cursor: Option<Pos>): nat {
    if cursor.None? then |docs| + 1 else |BeyondCursor(docs, order, cursor.value)|
  }

  function BeyondCursor(docs: seq<Doc>, order: SortOrder, c: Pos): (s: set<Doc>)
    ensures |s| <= |docs|
  {
    var all := set d | d in docs;
    SetOfSeq(docs);
    var s := set d | d in docs && Beyond(order, c, PosOf(d));
    SubsetCardinality(s, all);
    s
  }

  lemma {:induction false} SetOfSeq(docs: seq<Doc>)
    ensures |set d | d in docs| <= |docs|
  {
    if docs != [] {
      SetOfSeq(docs[1..]);
      assert (set d | d in docs) == {docs[0]} + set d | d in docs[1..];
    }
  }

  lemma CursorMoves(docs: seq<Doc>, f: Filter, order: SortOrder, cursor: Option<Pos>, size: nat)
    requires DistinctIds(docs) && size >= 1
    ensures var next := PageAt(docs, f, order, cursor, size).nextCursor;
            next.Some? ==> Remaining(docs, order, Some(next.value.pos)) < Remaining(docs, order, cursor)
  {
    PageFacts(docs, f, order, cursor, size);
    var page := PageAt(docs, f, order, cursor, size);
    if page.nextCursor.Some? && cursor.Some? {
      var last := page.data[size - 1];
      assert last in page.data;
      RewriteMeaning(f, order, cursor.value, last);
      var before, after := BeyondCursor(docs, order, cursor.value), BeyondCursor(docs, order, PosOf(last));
      assert last in before && last !in after;
      SubsetCardinality(after, before);
    }
  }

  /** All documents returned by following the cursors of an unchanging collection. The scan always ends. */
  function Scan(docs: seq<Doc>, f: Filter, order: SortOrder, cursor: Option<Pos>, size: nat): seq<Doc>
    requires DistinctIds(docs) && size >= 1
    decreases Remaining(docs, order, cursor)
  {
    var page := PageAt(docs, f, order, cursor, size);
    CursorMoves(docs, f, order, cursor, size);
    if page.nextCursor.None? then page.data
    else page.data + Scan(docs, f, order, Some(page.nextCursor.value.pos), size)
  }

  /** A page followed by the matches beyond its cursor holds the matches beyond the page's own cursor. */
  lemma PageThenRest(docs: seq<Doc>, f: Filter, order: SortOrder, cursor: Option<Pos>, size: nat, rest: seq<Doc>)
    requires DistinctIds(docs) && size >= 1 && Consistent(order) && !HoldsBothClauses(f)
    requires PageAt(docs, f, order, cursor, size).nextCursor.Some?
    requires var next := Some(PageAt(docs, f, order, cursor, size).nextCursor.value.pos);
             StrictlySorted(rest, order) && forall d :: d in rest <==> d in docs && Matches(f, d) && Reached(order, next, d)
    ensures var all := PageAt(docs, f, order, cursor, size).data + rest;
            StrictlySorted(all, order) && forall d :: d in all <==> d in docs && Matches(f, d) && Reached(order, cursor, d)
  {
    PageOfScan(docs, f, order, cursor, size);
    var page := PageAt(docs, f, order, cursor, size);
    AppendSorted(page.data, rest, order, page.nextCursor.value.pos);
  }

  lemma {:induction false} ScanIsSorted(docs: seq<Doc>, f: Filter, order: SortOrder, cursor: Option<Pos>, size: nat)
    requires DistinctIds(docs) && size >= 1 && Consistent(order) && !HoldsBothClauses(f)
    ensures StrictlySorted(Scan(docs, f, order, cursor, size), order)
    ensures forall d :: d in Scan(docs, f, order, cursor, size) <==> d in docs && Matches(f, d) && Reached(order, cursor, d)
    decreases Remaining(docs, order, cursor)
  {
    var page := PageAt(docs, f, order, cursor, size);
    if page.nextCursor.Some? {
      var next := Some(page.nextCursor.value.pos);
      CursorMoves(docs, f, order, cursor, size);
      ScanIsSorted(docs, f, order, next, size);
      PageThenRest(docs, f, order, cursor, size, Scan(docs, f, order, next, size));
    } else {
      PageOfScan(docs, f, order, cursor, size);
    }
  }

  /** On an unchanging collection the pages concatenate to the sorted match list. */
  lemma ScanReturnsSortedMatches(docs: seq<Doc>, f: Filter, order: SortOrder, size: nat)
    requires DistinctIds(docs) && size >= 1 && Consistent(order) && !HoldsBothClauses(f)
    ensures Scan(docs, f, order, None, size) == Sort(Select(docs, f), order)
  {
    ScanIsSorted(docs, f, order, None, size);
    SortedSelection(docs, f, order);
    SortedUnique(Scan(docs, f, order, None, size), Sort(Select(docs, f), order), order);
  }

  lemma SortedSelection(docs: seq<Doc>, f: Filter, order: SortOrder)
    requires DistinctIds(docs)
    ensures var s := Sort(Select(docs, f), order);
            && StrictlySorted(s, order) && |s| == |Select(docs, f)|
            && forall d :: d in s <==> d in docs && Matches(f, d)
  {
    SelectMembers(docs, f);
    SelectKeepsDistinct(docs, f);
    SortCorrect(Select(docs, f), order);
  }

  // ---------- filters with both clauses ----------

  lemma {:induction false} LaterPagesScanKept(docs: seq<Doc>, f: Filter, order: SortOrder, c: Pos, size: nat)
    requires DistinctIds(docs) && size >= 1
    ensures Scan(docs, f, order, Some(c), size) == Scan(docs, Kept(f), order, Some(c), size)
    decreases Remaining(docs, order, Some(c))
  {
    LaterPagesAgree(f, order, c);
    var page := PageAt(docs, f, order, Some(c), size);
    if page.nextCursor.Some? {
      CursorMoves(docs, f, order, Some(c), size);
      LaterPagesScanKept(docs, f, order, page.nextCursor.value.pos, size);
    }
  }

  lemma FirstPage(docs: seq<Doc>, f: Filter, order: SortOrder, size: nat)
    requires DistinctIds(docs) && size >= 1
    ensures var matches := Sort(Select(docs, f), order);
            Scan(docs, f, order, None, size) ==
            if |matches| <= size then matches
            else matches[..size] + Scan(docs, f, order, Some(PosOf(matches[size - 1])), size)
  {
    var matches := Sort(Select(docs, f), order);
    if |matches| > size {
      assert matches[..size + 1][..size] == matches[..size];
      assert PageAt(docs, f, order, None, size) == Page(matches[..size], Some(Token(PosOf(matches[size - 1]))), true);
      CursorMoves(docs, f, order, None, size);
    }
  }

  /**
   A scan of any filter longer than a page is the first page of its sorted matches, followed by all documents beyond it
   that the rewritten filter selects.
   */
  lemma ScanOfAnyFilter(docs: seq<Doc>, f: Filter, order: SortOrder, size: nat)
    requires DistinctIds(docs) && size >= 1 && Consistent(order)
    ensures var matches := Sort(Select(docs, f), order);
            Scan(docs, f, order, None, size) ==
            if |matches| <= size then matches
            else matches[..size] + Sort(Select(docs, Rewrite(f, order, Some(PosOf(matches[size - 1])))), order)
  {
    FirstPage(docs, f, order, size);
    var matches := Sort(Select(docs, f), order);
    if |matches| > size {
      var last := PosOf(matches[size - 1]);
      var r := Rewrite(f, order, Some(last));
      LaterPagesScanKept(docs, f, order, last, size);
      ScanIsSorted(docs, Kept(f), order, Some(last), size);
      SortedSelection(docs, r, order);
      forall d
        ensures Matches(r, d) <==> Matches(Kept(f), d) && Reached(order, Some(last), d)
      {
        RewriteMeaning(f, order, last, d);
      }
      SortedUnique(Scan(docs, f, order, Some(last), size), Sort(Select(docs, r), order), order);
    }
  }

  /** Beyond the position, whatever the kept part of the filter selects matches the filter. */
  ghost predicate NothingLeaks(docs: seq<Doc>, f: Filter, order: SortOrder, last: Pos) {
    forall d <- docs | Matches(Kept(f), d) && Beyond(order, last, PosOf(d)) :: Matches(f, d)
  }

  /**
   A scan returns a document the filter excludes exactly when the result is longer than a page and, beyond the first
   page, the document matches the filter without its `$and`.
   */
  lemma BothClausesLeak(docs: seq<Doc>, f: Filter, order: SortOrder, size: nat, d: Doc)
    requires DistinctIds(docs) && size >= 1 && Consistent(order) && !Matches(f, d)
    ensures var matches := Sort(Select(docs, f), order);
            d in Scan(docs, f, order, None, size) <==>
            |matches| > size && d in docs && Matches(Kept(f), d) && Beyond(order, PosOf(matches[size - 1]), PosOf(d))
  {
    ScanOfAnyFilter(docs, f, order, size);
    SortedSelection(docs, f, order);
    var matches := Sort(Select(docs, f), order);
    if |matches| > size {
      var last := PosOf(matches[size - 1]);
      SortedSelection(docs, Rewrite(f, order, Some(last)), order);
      RewriteMeaning(f, order, last, d);
      assert d in matches[..size] ==> d in matches;
    }
  }

  /** Three documents, a page size of one: the third page is a document the filter excludes. */
  lemma LeakExample()
    ensures var yes, clean := Filter(_ => true, Absent, Absent), Filter((d: Doc) => d.body == 0, Absent, Absent);
            var f := Filter(_ => true, Present([yes]), Present([clean]));
            var a, b, c := Doc(3, 3, 0), Doc(2, 2, 0), Doc(1, 1, 1);
            !Matches(f, c) && c in Scan([a, b, c], f, MinusOne, None, 1)
  {
    var yes, clean := Filter(_ => true, Absent, Absent), Filter((d: Doc) => d.body == 0, Absent, Absent);
    var f := Filter(_ => true, Present([yes]), Present([clean]));
    var a, b, c := Doc(3, 3, 0), Doc(2, 2, 0), Doc(1, 1, 1);
    var docs := [a, b, c];
    forall d
      ensures Matches(f, d) <==> d.body == 0
      ensures Matches(Kept(f), d)
    {
      assert Matches(f.orClauses.list[0], d);
      assert Matches(f.andClauses.list[0], d) <==> d.body == 0;
    }
    SortedSelection(docs, f, MinusOne);
    SortedUnique(Sort(Select(docs, f), MinusOne), [a, b], MinusOne);
    BothClausesLeak(docs, f, MinusOne, 1, c);
  }

  /** Under a mismatched order the second page selects the documents before the cursor document. */
  lemma MismatchedSecondPage(docs: seq<Doc>, f: Filter, order: SortOrder, size: nat)
    requires DistinctIds(docs) && size >= 1 && !Consistent(order) && !HoldsBothClauses(f)
    ensures var matches := Sort(Select(docs, f), order);
            |matches| > size ==>
              Sort(Select(docs, Rewrite(f, order, Some(PosOf(matches[size - 1])))), order) == matches[..size - 1]
  {
    SelectMembers(docs, f);
    SelectKeepsDistinct(docs, f);
    SortCorrect(Select(docs, f), order);
    var matches := Sort(Select(docs, f), order);
    if |matches| > size {
      var last := PosOf(matches[size - 1]);
      var r := Rewrite(f, order, Some(last));
      SelectMembers(docs, r);
      SelectKeepsDistinct(docs, r);
      SortCorrect(Select(docs, r), order);
      forall d
        ensures d in Select(docs, r) <==> d in matches[..size - 1]
      {
        RewriteMeaning(f, order, last, d);
        BeforeInSorted(matches, order, size - 1, d);
      }
      SortedUnique(Sort(Select(docs, r), order), matches[..size - 1], order);
    }
  }

  lemma BeforeInSorted(sorted: seq<Doc>, order: SortOrder, k: nat, d: Doc)
    requires StrictlySorted(sorted, order) && k < |sorted|
    ensures d in sorted[..k] <==> d in sorted && Precedes(order, PosOf(d), PosOf(sorted[k]))
  {
    if d in sorted {
      var i :| 0 <= i < |sorted| && sorted[i] == d;
      if i < k {
        assert sorted[..k][i] == d;
      }
    }
  }

  /**
   For the orders 'desc' and 'descending' the store sorts down but the cursor compares upwards: the second page repeats
   the first without its last document, and the scan ends there.
   */
  lemma DescendingWordsRepeat(docs: seq<Doc>, f: Filter, order: SortOrder, size: nat)
    requires DistinctIds(docs) && size >= 1 && !Consistent(order) && !HoldsBothClauses(f)
    ensures var matches := Sort(Select(docs, f), order);
            Scan(docs, f, order, None, size) ==
            if |matches| <= size then matches else matches[..size] + matches[..size - 1]
  {
    var matches := Sort(Select(docs, f), order);
    if |matches| > size {
      MismatchedSecondPage(docs, f, order, size);
      var last := PosOf(matches[size - 1]);
      assert matches[..size + 1][..size] == matches[..size];
      assert PageAt(docs, f, order, None, size) == Page(matches[..size], Some(Token(last)), true);
      assert PageAt(docs, f, order, Some(last), size) == Page(matches[..size - 1], None, false);
      CursorMoves(docs, f, order, None, size);
      assert Scan(docs, f, order, Some(last), size) == matches[..size - 1];
    }
  }

  lemma MismatchedScanIsWrong(docs: seq<Doc>, f: Filter, order: SortOrder, size: nat)
    requires DistinctIds(docs) && size >= 1 && !Consistent(order) && |Sort(Select(docs, f), order)| > size
    ensures Scan(docs, f, order, None, size) != Sort(Select(docs, f), order)
  {
    FirstPage(docs, f, order, size);
    SortedSelection(docs, f, order);
    var matches := Sort(Select(docs, f), order);
    var scan, last := Scan(docs, f, order, None, size), PosOf(matches[size - 1]);
    if |scan| > size {
      var page := PageAt(docs, f, order, Some(last), size);
      PageFacts(docs, f, order, Some(last), size);
      assert scan[size] == page.data[0];
      assert page.data[0] in page.data;
      RewriteMeaning(f, order, last, page.data[0]);
      assert Precedes(order, PosOf(matches[size - 1]), PosOf(matches[size]));
    }
  }

  /**
   A full scan of an unchanging collection is right exactly when one page suffices, or the order is not one of the two
   words and a filter with both clauses leaks nothing beyond its first page.
   */
  lemma ScanCorrectIff(docs: seq<Doc>, f: Filter, order: SortOrder, size: nat)
    requires DistinctIds(docs) && size >= 1
    ensures var matches := Sort(Select(docs, f), order);
            Scan(docs, f, order, None, size) == matches <==>
            || |matches| <= size
            || (order !in {Desc, SortOrder.Descending} &&
                (HoldsBothClauses(f) ==> NothingLeaks(docs, f, order, PosOf(matches[size - 1]))))
  {
    var matches := Sort(Select(docs, f), order);
    SortedSelection(docs, f, order);
    FirstPage(docs, f, order, size);
    if |matches| > size {
      if !Consistent(order) {
        MismatchedScanIsWrong(docs, f, order, size);
      } else if !HoldsBothClauses(f) {
        ScanReturnsSortedMatches(docs, f, order, size);
      } else {
        ScanRightIffNothingLeaks(docs, f, order, size);
      }
    }
  }

  lemma ScanRightIffNothingLeaks(docs: seq<Doc>, f: Filter, order: SortOrder, size: nat)
    requires DistinctIds(docs) && size >= 1 && Consistent(order) && |Sort(Select(docs, f), order)| > size
    ensures var matches := Sort(Select(docs, f), order);
            Scan(docs, f, order, None, size) == matches <==> NothingLeaks(docs, f, order, PosOf(matches[size - 1]))
  {
    ScanOfAnyFilter(docs, f, order, size);
    var matches := Sort(Select(docs, f), order);
    var last := PosOf(matches[size - 1]);
    var rest := Sort(Select(docs, Rewrite(f, order, Some(last))), order);
    BeyondFirstPage(docs, f, order, size);
    SamePrefix(matches, size, rest);
    if NothingLeaks(docs, f, order, last) {
      SortedUnique(rest, matches[size..], order);
    } else {
      var d :| d in docs && Matches(Kept(f), d) && Beyond(order, last, PosOf(d)) && !Matches(f, d);
      assert d in rest && d !in matches[size..];
    }
  }

  lemma SamePrefix(s: seq<Doc>, k: nat, rest: seq<Doc>)
    requires k <= |s|
    ensures s[..k] + rest == s <==> rest == s[k..]
  {
    assert s == s[..k] + s[k..];
    assert (s[..k] + rest)[k..] == rest;
  }

  lemma BeyondFirstPage(docs: seq<Doc>, f: Filter, order: SortOrder, size: nat)
    requires DistinctIds(docs) && size >= 1 && Consistent(order) && |Sort(Select(docs, f), order)| > size
    ensures var matches := Sort(Select(docs, f), order);
            var last := PosOf(matches[size - 1]);
            var rest := Sort(Select(docs, Rewrite(f, order, Some(last))), order);
            && StrictlySorted(rest, order) && StrictlySorted(matches[size..], order)
            && (forall d :: d in rest <==> d in docs && Matches(Kept(f), d) && Beyond(order, last, PosOf(d)))
            && (forall d :: d in matches[size..] <==> d in docs && Matches(f, d) && Beyond(order, last, PosOf(d)))
            && forall d :: Matches(f, d) ==> Matches(Kept(f), d)
  {
    SortedSelection(docs, f, order);
    var matches := Sort(Select(docs, f), order);
    var last := PosOf(matches[size - 1]);
    SortedSelection(docs, Rewrite(f, order, Some(last)), order);
    forall d
      ensures Matches(Rewrite(f, order, Some(last)), d) <==> Matches(Kept(f), d) && Beyond(order, last, PosOf(d))
      ensures Matches(f, d) ==> Matches(Kept(f), d)
      ensures d in matches[size..] <==> d in matches && Beyond(order, last, PosOf(d))
    {
      RewriteMeaning(f, order, last, d);
      KeptIsWeaker(f, d);
      AfterInSorted(matches, order, size, d);
    }
  }

  lemma AfterInSorted(sorted: seq<Doc>, order: SortOrder, k: nat, d: Doc)
    requires StrictlySorted(sorted, order) && 0 < k <= |sorted|
    ensures d in sorted[k..] <==> d in sorted && Precedes(order, PosOf(sorted[k - 1]), PosOf(d))
  {
    if d in sorted {
      var i :| 0 <= i < |sorted| && sorted[i] == d;
      assert i >= k ==> sorted[k..][i - k] == d;
      assert i < k - 1 ==> Precedes(order, PosOf(sorted[i]), PosOf(sorted[k - 1]));
    }
  }
}
