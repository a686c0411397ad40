/** The paged read path of backend/app/services/symbol_service.py. */
module SymbolPages {
  import opened Prelude
  import opened Database
  import opened Corrections

  // ---- The query: WHERE, ORDER BY, LIMIT and OFFSET ---------------------------------

  datatype Filter =
    | OnDrawing(drawingId: Id)
    | OnPage(pageNumber: int)
    | OnClass(entityClass: string)
    | OnRejected(rejected: bool)

  predicate Passes(s: Symbol, f: Filter) {
    match f
    case OnDrawing(d) => s.drawingId == d
    case OnPage(p) => s.pageNumber == p
    case OnClass(c) => s.entityClass == c
    case OnRejected(r) => s.rejected == r
  }

  predicate PassesAll(s: Symbol, filters: seq<Filter>) {
    forall i | 0 <= i < |filters| :: Passes(s, filters[i])
  }

  /** The rows a query with these filters selects, in the physical order `scan` of the table. */
  function Where(symbols: map<Id, Symbol>, scan: seq<Id>, filters: seq<Filter>): seq<Id> {
    if scan == [] then []
    else
      var rest := Where(symbols, scan[1..], filters);
      if scan[0] in symbols && PassesAll(symbols[scan[0]], filters) then [scan[0]] + rest else rest
  }

  function PageOf(symbols: map<Id, Symbol>, id: Id): int {
    if id in symbols then symbols[id].pageNumber else 0
  }

  /** ORDER BY page_number, id. */
  predicate Before(symbols: map<Id, Symbol>, a: Id, b: Id) {
    PageOf(symbols, a) < PageOf(symbols, b) || (PageOf(symbols, a) == PageOf(symbols, b) && a < b)
  }

  function Insert(symbols: map<Id, Symbol>, x: Id, s: seq<Id>): seq<Id> {
    if s == [] then [x]
    else if Before(symbols, s[0], x) then [s[0]] + Insert(symbols, x, s[1..])
    else [x] + s
  }

  function OrderBy(symbols: map<Id, Symbol>, s: seq<Id>): seq<Id> {
    if s == [] then [] else Insert(symbols, s[0], OrderBy(symbols, s[1..]))
  }

  function LimitOffset<T>(s: seq<T>, limit: nat, offset: nat): seq<T> {
    if offset >= |s| then [] else if offset + limit >= |s| then s[offset..] else s[offset..offset + limit]
  }

  predicate StrictlyOrdered(symbols: map<Id, Symbol>, s: seq<Id>) {
    forall i, j | 0 <= i < j < |s| :: Before(symbols, s[i], s[j])
  }

  predicate Distinct(s: seq<Id>) {
    forall i, j | 0 <= i < j < |s| :: s[i] != s[j]
  }

  /** `scan` lists the symbols table, every row once. */
  ghost predicate Scans(symbols: map<Id, Symbol>, scan: seq<Id>) {
    Distinct(scan) && forall id :: id in scan <==> id in symbols
  }

  lemma {:induction false} WhereMembers(symbols: map<Id, Symbol>, scan: seq<Id>, filters: seq<Filter>, id: Id)
    requires Distinct(scan)
    ensures id in Where(symbols, scan, filters) <==>
              id in scan && id in symbols && PassesAll(symbols[id], filters)
    ensures Distinct(Where(symbols, scan, filters))
  {
    if scan != [] {
      WhereMembers(symbols, scan[1..], filters, id);
      WhereMembers(symbols, scan[1..], filters, scan[0]);
    }
  }

  lemma {:induction false} InsertAdds(symbols: map<Id, Symbol>, x: Id, s: seq<Id>)
    ensures multiset(Insert(symbols, x, s)) == multiset(s) + multiset{x}
  {
    if s != [] {
      assert s == [s[0]] + s[1..];
      InsertAdds(symbols, x, s[1..]);
    }
  }

  lemma ConsOrdered(symbols: map<Id, Symbol>, x: Id, s: seq<Id>)
    requires StrictlyOrdered(symbols, s) && forall y | y in s :: Before(symbols, x, y)
    ensures StrictlyOrdered(symbols, [x] + s)
  {
  }

  lemma {:induction false} InsertOrdered(symbols: map<Id, Symbol>, x: Id, s: seq<Id>)
    requires StrictlyOrdered(symbols, s) && x !in s
    ensures StrictlyOrdered(symbols, Insert(symbols, x, s))
  {
    if s != [] {
      if Before(symbols, s[0], x) {
        InsertOrdered(symbols, x, s[1..]);
        InsertAdds(symbols, x, s[1..]);
        var rest := Insert(symbols, x, s[1..]);
        forall y | y in rest ensures Before(symbols, s[0], y) {
          assert y in multiset(rest);
        }
        ConsOrdered(symbols, s[0], rest);
      } else {
        assert Before(symbols, x, s[0]);
        forall y | y in s ensures Before(symbols, x, y) {
          assert y != s[0] ==> Before(symbols, s[0], y);
        }
        ConsOrdered(symbols, x, s);
      }
    }
  }

  lemma {:induction false} OrderByOrders(symbols: map<Id, Symbol>, s: seq<Id>)
    requires Distinct(s)
    ensures StrictlyOrdered(symbols, OrderBy(symbols, s))
    ensures multiset(OrderBy(symbols, s)) == multiset(s)
  {
    if s != [] {
      OrderByOrders(symbols, s[1..]);
      assert s[0] !in s[1..];
      assert s[0] !in multiset(OrderBy(symbols, s[1..]));
      InsertOrdered(symbols, s[0], OrderBy(symbols, s[1..]));
      InsertAdds(symbols, s[0], OrderBy(symbols, s[1..]));
      assert s == [s[0]] + s[1..];
    }
  }

  /** There is only one strictly ordered list of given rows. */
  lemma {:induction false} OrderIsUnique(symbols: map<Id, Symbol>, s: seq<Id>, r: seq<Id>)
    requires StrictlyOrdered(symbols, s) && StrictlyOrdered(symbols, r)
    requires forall id :: id in s <==> id in r
    ensures s == r
  {
    assert s != [] ==> s[0] in r;
    assert r != [] ==> r[0] in s;
    if s != [] {
      assert s[0] == r[0];
      forall id ensures id in s[1..] <==> id in r[1..] {
        assert id in s[1..] <==> id in s && id != s[0];
        assert id in r[1..] <==> id in r && id != r[0];
      }
      OrderIsUnique(symbols, s[1..], r[1..]);
      assert s == [s[0]] + s[1..] && r == [r[0]] + r[1..];
    }
  }

  /** By page number, and by key within a page; nothing twice. */
  predicate InListingOrder(symbols: map<Id, Symbol>, ids: seq<Id>)
    requires forall i | 0 <= i < |ids| :: ids[i] in symbols
  {
    forall i, j | 0 <= i < j < |ids| ::
      var a, b := symbols[ids[i]].pageNumber, symbols[ids[j]].pageNumber;
      a < b || (a == b && ids[i] < ids[j])
  }

  lemma StrictOrderIsListingOrder(symbols: map<Id, Symbol>, ids: seq<Id>)
    requires StrictlyOrdered(symbols, ids) && forall i | 0 <= i < |ids| :: ids[i] in symbols
    ensures InListingOrder(symbols, ids)
  {
    forall i, j | 0 <= i < j < |ids|
      ensures var a, b := symbols[ids[i]].pageNumber, symbols[ids[j]].pageNumber;
              a < b || (a == b && ids[i] < ids[j])
    {
      assert Before(symbols, ids[i], ids[j]);
    }
  }

  /** What the listing returns over all its pages. */
  function Listing(symbols: map<Id, Symbol>, scan: seq<Id>, filters: seq<Filter>): seq<Id> {
    OrderBy(symbols, Where(symbols, scan, filters))
  }

  /** The listing has exactly the selected rows, each once, in strict (page_number, id) order, and does
      not depend on the order of the table. */
  lemma ListingIsCanonical(symbols: map<Id, Symbol>, scan: seq<Id>, other: seq<Id>, filters: seq<Filter>)
    requires Scans(symbols, scan) && Scans(symbols, other)
    ensures forall i | 0 <= i < |Listing(symbols, scan, filters)| :: Listing(symbols, scan, filters)[i] in symbols
    ensures InListingOrder(symbols, Listing(symbols, scan, filters))
    ensures forall id :: id in Listing(symbols, scan, filters) <==> id in symbols && PassesAll(symbols[id], filters)
    ensures |Listing(symbols, scan, filters)| == |Where(symbols, scan, filters)|
    ensures Listing(symbols, other, filters) == Listing(symbols, scan, filters)
  {
    ListingMembers(symbols, scan, filters);
    ListingMembers(symbols, other, filters);
    RowsInOrder(symbols, scan, filters);
    OrderIsUnique(symbols, Listing(symbols, scan, filters), Listing(symbols, other, filters));
  }

  lemma RowsInOrder(symbols: map<Id, Symbol>, scan: seq<Id>, filters: seq<Filter>)
    requires Scans(symbols, scan)
    ensures forall i | 0 <= i < |Listing(symbols, scan, filters)| :: Listing(symbols, scan, filters)[i] in symbols
    ensures InListingOrder(symbols, Listing(symbols, scan, filters))
  {
    var ids := Listing(symbols, scan, filters);
    ListingMembers(symbols, scan, filters);
    forall i | 0 <= i < |ids| ensures ids[i] in symbols {
      assert ids[i] in ids;
    }
    StrictOrderIsListingOrder(symbols, ids);
  }

  lemma ListingMembers(symbols: map<Id, Symbol>, scan: seq<Id>, filters: seq<Filter>)
    requires Scans(symbols, scan)
    ensures StrictlyOrdered(symbols, Listing(symbols, scan, filters))
    ensures forall id :: id in Listing(symbols, scan, filters) <==> id in symbols && PassesAll(symbols[id], filters)
    ensures |Listing(symbols, scan, filters)| == |Where(symbols, scan, filters)|
  {
    var rows := Where(symbols, scan, filters);
    WhereMembers(symbols, scan, filters, 0);
    OrderByOrders(symbols, rows);
    assert |multiset(OrderBy(symbols, rows))| == |multiset(rows)|;
    forall id ensures id in OrderBy(symbols, rows) <==> id in symbols && PassesAll(symbols[id], filters) {
      WhereMembers(symbols, scan, filters, id);
      assert id in OrderBy(symbols, rows) <==> id in multiset(OrderBy(symbols, rows));
    }
  }

  // ---- Corrections, fetched in one batch ---------------------------------------------

  /** SELECT ... WHERE detected_symbol_id IN (ids). */
  function FetchIn(rows: seq<Correction>, ids: seq<Id>): seq<Correction> {
    if rows == [] then []
    else if rows[0].symbolId in ids then [rows[0]] + FetchIn(rows[1..], ids)
    else FetchIn(rows[1..], ids)
  }

  /** The corrections of one symbol: the query that is not made per symbol. */
  function CorrectionsOf(rows: seq<Correction>, id: Id): seq<Correction> {
    if rows == [] then []
    else if rows[0].symbolId == id then [rows[0]] + CorrectionsOf(rows[1..], id)
    else CorrectionsOf(rows[1..], id)
  }

  lemma {:induction false} BatchRefinesPerSymbol(rows: seq<Correction>, ids: seq<Id>, id: Id)
    ensures CorrectionsOf(FetchIn(rows, ids), id) == if id in ids then CorrectionsOf(rows, id) else []
  {
    if rows != [] {
      BatchRefinesPerSymbol(rows[1..], ids, id);
      assert rows[0].symbolId in ids ==> ([rows[0]] + FetchIn(rows[1..], ids))[1..] == FetchIn(rows[1..], ids);
    }
  }

  lemma {:induction false} CorrectionsOfAppend(rows: seq<Correction>, row: Correction, id: Id)
    ensures CorrectionsOf(rows + [row], id) == CorrectionsOf(rows, id) + if row.symbolId == id then [row] else []
  {
    if rows == [] {
      assert [row][1..] == [];
    } else {
      assert (rows + [row])[1..] == rows[1..] + [row];
      CorrectionsOfAppend(rows[1..], row, id);
    }
  }

  lemma {:induction false} CorrectionsOfCount(rows: seq<Correction>, id: Id, c: Correction)
    ensures multiset(CorrectionsOf(rows, id))[c] == if c.symbolId == id then multiset(rows)[c] else 0
  {
    if rows != [] {
      CorrectionsOfCount(rows[1..], id, c);
      assert rows == [rows[0]] + rows[1..];
    }
  }

  /** The grouping loop. */
  method GroupCorrections(fetched: seq<Correction>) returns (groups: map<Id, seq<Correction>>)
    ensures forall id :: id in groups <==> CorrectionsOf(fetched, id) != []
    ensures forall id | id in groups :: groups[id] == CorrectionsOf(fetched, id)
  {
    groups := map[];
    for i := 0 to |fetched|
      invariant forall id :: id in groups <==> CorrectionsOf(fetched[..i], id) != []
      invariant forall id | id in groups :: groups[id] == CorrectionsOf(fetched[..i], id)
    {
      var key := fetched[i].symbolId;
      assert fetched[..i + 1] == fetched[..i] + [fetched[i]];
      forall id ensures CorrectionsOf(fetched[..i + 1], id)
                == CorrectionsOf(fetched[..i], id) + if key == id then [fetched[i]] else []
      {
        CorrectionsOfAppend(fetched[..i], fetched[i], id);
      }
      if key !in groups {
        groups := groups[key := []];
      }
      groups := groups[key := groups[key] + [fetched[i]]];
    }
    assert fetched[..|fetched|] == fetched;
  }

  /** The grouped map has a key exactly for the page symbols that have corrections; each list is what
      the per-symbol query would give; together they hold every correction of the page once. */
  ghost predicate GroupsOf(rows: seq<Correction>, ids: seq<Id>, groups: map<Id, seq<Correction>>) {
    && (forall id :: id in groups <==> id in ids && CorrectionsOf(rows, id) != [])
    && (forall id | id in groups :: groups[id] == CorrectionsOf(rows, id))
    && (forall c: Correction :: c.symbolId in ids ==>
          multiset(rows)[c] == if c.symbolId in groups then multiset(groups[c.symbolId])[c] else 0)
    && (forall c: Correction, id | id in groups && id != c.symbolId :: multiset(groups[id])[c] == 0)
  }

  lemma GroupsMatchQueries(rows: seq<Correction>, ids: seq<Id>, groups: map<Id, seq<Correction>>, id: Id)
    requires id in groups <==> CorrectionsOf(FetchIn(rows, ids), id) != []
    requires id in groups ==> groups[id] == CorrectionsOf(FetchIn(rows, ids), id)
    ensures id in groups <==> id in ids && CorrectionsOf(rows, id) != []
    ensures id in groups ==> groups[id] == CorrectionsOf(rows, id)
  {
    BatchRefinesPerSymbol(rows, ids, id);
  }

  lemma GroupsHoldOnce(rows: seq<Correction>, id: Id, group: seq<Correction>, c: Correction)
    requires group == CorrectionsOf(rows, id)
    ensures multiset(group)[c] == if c.symbolId == id then multiset(rows)[c] else 0
  {
    CorrectionsOfCount(rows, id, c);
  }

  lemma GroupedBatch(rows: seq<Correction>, ids: seq<Id>, groups: map<Id, seq<Correction>>)
    requires forall id :: id in groups <==> CorrectionsOf(FetchIn(rows, ids), id) != []
    requires forall id | id in groups :: groups[id] == CorrectionsOf(FetchIn(rows, ids), id)
    ensures GroupsOf(rows, ids, groups)
  {
    forall id
      ensures id in groups <==> id in ids && CorrectionsOf(rows, id) != []
      ensures id in groups ==> groups[id] == CorrectionsOf(rows, id)
    {
      GroupsMatchQueries(rows, ids, groups, id);
    }
    forall c: Correction | c.symbolId in ids
      ensures multiset(rows)[c] == if c.symbolId in groups then multiset(groups[c.symbolId])[c] else 0
    {
      GroupsHoldOnce(rows, c.symbolId, CorrectionsOf(rows, c.symbolId), c);
    }
    forall c: Correction, id | id in groups && id != c.symbolId ensures multiset(groups[id])[c] == 0 {
      GroupsHoldOnce(rows, id, groups[id], c);
    }
  }

  /** The batch has no ORDER BY: a different row order permutes the lists and nothing more. */
  lemma GroupsUpToOrder(fetched: seq<Correction>, other: seq<Correction>, id: Id)
    requires multiset(fetched) == multiset(other)
    ensures multiset(CorrectionsOf(fetched, id)) == multiset(CorrectionsOf(other, id))
  {
    forall c: Correction
      ensures multiset(CorrectionsOf(fetched, id))[c] == multiset(CorrectionsOf(other, id))[c]
    {
      CorrectionsOfCount(fetched, id, c);
      CorrectionsOfCount(other, id, c);
    }
  }

  // ---- The endpoint ---------------------------------------------------------------------

  datatype Query = Query(
    limit: nat,
    offset: nat,
    pageNumber: Option<int>,
    entityClass: Option<string>,
    rejected: Option<bool>)

  datatype SymbolsPage = SymbolsPage(
    symbols: seq<SymbolRecord>,
    corrections: map<Id, seq<Correction>>,
    total: nat,
    limit: nat,
    offset: nat)

  datatype ReadError = DrawingNotFound | AccessForbidden

  predicate Selected(s: Symbol, d: Id, q: Query) {
    && s.drawingId == d
    && (q.pageNumber.Some? ==> s.pageNumber == q.pageNumber.value)
    && (q.entityClass.Some? ==> s.entityClass == q.entityClass.value)
    && (q.rejected.Some? ==> s.rejected == q.rejected.value)
  }

  function WithPage(filters: seq<Filter>, q: Query): seq<Filter> {
    if q.pageNumber.Some? then filters + [OnPage(q.pageNumber.value)] else filters
  }

  function WithClass(filters: seq<Filter>, q: Query): seq<Filter> {
    if q.entityClass.Some? then filters + [OnClass(q.entityClass.value)] else filters
  }

  function WithRejected(filters: seq<Filter>, q: Query): seq<Filter> {
    if q.rejected.Some? then filters + [OnRejected(q.rejected.value)] else filters
  }

  /** The conditions a request adds up. */
  function FiltersOf(d: Id, q: Query): seq<Filter> {
    WithRejected(WithClass(WithPage([OnDrawing(d)], q), q), q)
  }

  /** One more filter is one more condition. */
  lemma PassesOneMore(s: Symbol, filters: seq<Filter>, f: Filter)
    ensures PassesAll(s, filters + [f]) <==> PassesAll(s, filters) && Passes(s, f)
  {
    assert (filters + [f])[|filters|] == f;
    assert forall i | 0 <= i < |filters| :: (filters + [f])[i] == filters[i];
  }

  lemma FiltersSelect(s: Symbol, d: Id, q: Query)
    ensures PassesAll(s, FiltersOf(d, q)) <==> Selected(s, d, q)
  {
    var f0 := [OnDrawing(d)];
    var f1 := WithPage(f0, q);
    var f2 := WithClass(f1, q);
    assert PassesAll(s, f0) <==> Passes(s, f0[0]);
    if q.pageNumber.Some? {
      PassesOneMore(s, f0, OnPage(q.pageNumber.value));
    }
    if q.entityClass.Some? {
      PassesOneMore(s, f1, OnClass(q.entityClass.value));
    }
    if q.rejected.Some? {
      PassesOneMore(s, f2, OnRejected(q.rejected.value));
    }
  }

  /** The keys of one page, for a table read in the order of `scan`. */
  function PageIds(symbols: map<Id, Symbol>, scan: seq<Id>, d: Id, q: Query): seq<Id> {
    LimitOffset(Listing(symbols, scan, FiltersOf(d, q)), q.limit, q.offset)
  }

  predicate RecordsOf(symbols: map<Id, Symbol>, ids: seq<Id>, records: seq<SymbolRecord>) {
    && |records| == |ids|
    && forall i | 0 <= i < |ids| :: ids[i] in symbols && Describes(records[i], ids[i], symbols[ids[i]])
  }

  /** The page holds its records in order, the size of the whole listing, and its grouped corrections. */
  ghost predicate IsPage(t: Tables, scan: seq<Id>, d: Id, q: Query, page: SymbolsPage) {
    && RecordsOf(t.symbols, PageIds(t.symbols, scan, d, q), page.symbols)
    && page.total == |Listing(t.symbols, scan, FiltersOf(d, q))|
    && page.limit == q.limit && page.offset == q.offset
    && GroupsOf(t.corrections, PageIds(t.symbols, scan, d, q), page.corrections)
  }

  /** Reads one page and changes nothing. */
  method GetSymbolsPage(db: Session, drawingId: Option<Id>, allowed: bool, q: Query, scan: seq<Id>)
    returns (r: Result<SymbolsPage, ReadError>)
    requires db.Valid() && Scans(db.committed.symbols, scan)
    ensures r == Err(DrawingNotFound) <==> drawingId.None? || drawingId.value !in db.committed.drawings
    ensures r == Err(AccessForbidden) <==>
      drawingId.Some? && drawingId.value in db.committed.drawings && !allowed
    ensures r.Ok? ==> IsPage(db.committed, scan, drawingId.value, q, r.value)
  {
    if drawingId.None? || drawingId.value !in db.pending.drawings {
      return Err(DrawingNotFound);
    }
    if !allowed {
      return Err(AccessForbidden);
    }
    var filters := [OnDrawing(drawingId.value)];
    if q.pageNumber.Some? {
      filters := filters + [OnPage(q.pageNumber.value)];
    }
    if q.entityClass.Some? {
      filters := filters + [OnClass(q.entityClass.value)];
    }
    if q.rejected.Some? {
      filters := filters + [OnRejected(q.rejected.value)];
    }
    assert filters == FiltersOf(drawingId.value, q);
    var page := ReadPage(db.pending, scan, filters, drawingId.value, q);
    return Ok(page);
  }

  /** The count, the page query and the batch of corrections. */
  method ReadPage(t: Tables, scan: seq<Id>, filters: seq<Filter>, ghost d: Id, q: Query) returns (page: SymbolsPage)
    requires Scans(t.symbols, scan) && filters == FiltersOf(d, q)
    ensures IsPage(t, scan, d, q, page)
  {
    var total := |Where(t.symbols, scan, filters)|;
    var ids := LimitOffset(OrderBy(t.symbols, Where(t.symbols, scan, filters)), q.limit, q.offset);
    ListingMembers(t.symbols, scan, filters);
    PageIdsAreRows(t.symbols, scan, filters, q);
    var groups: map<Id, seq<Correction>> := map[];
    if ids != [] {
      groups := GroupCorrections(FetchIn(t.corrections, ids));
    } else {
      EmptyBatch(t.corrections);
    }
    GroupedBatch(t.corrections, ids, groups);
    var records := Records(t.symbols, ids);
    return SymbolsPage(records, groups, total, q.limit, q.offset);
  }

  function Records(symbols: map<Id, Symbol>, ids: seq<Id>): (records: seq<SymbolRecord>)
    requires forall i | 0 <= i < |ids| :: ids[i] in symbols
    ensures RecordsOf(symbols, ids, records)
  {
    seq(|ids|, i requires 0 <= i < |ids| => ToSymbolRecord(ids[i], symbols[ids[i]]))
  }

  lemma PageIdsAreRows(symbols: map<Id, Symbol>, scan: seq<Id>, filters: seq<Filter>, q: Query)
    requires Scans(symbols, scan)
    ensures var ids := LimitOffset(Listing(symbols, scan, filters), q.limit, q.offset);
            forall i | 0 <= i < |ids| :: ids[i] in symbols
  {
    ListingMembers(symbols, scan, filters);
    var ids := LimitOffset(Listing(symbols, scan, filters), q.limit, q.offset);
    forall i | 0 <= i < |ids| ensures ids[i] in symbols {
      assert ids[i] in Listing(symbols, scan, filters);
    }
  }

  lemma {:induction false} EmptyBatch(rows: seq<Correction>)
    ensures FetchIn(rows, []) == []
  {
    if rows != [] {
      EmptyBatch(rows[1..]);
    }
  }

  // ---- Page after page -----------------------------------------------------------------

  /** 0, L, 2L, ... */
  function PageOffset(limit: nat, n: nat): nat {
    if n == 0 then 0 else PageOffset(limit, n - 1) + limit
  }

  /** The pages at offsets 0, L, 2L, ...; every fetch may read the table in another order. */
  function Fetched(symbols: map<Id, Symbol>, scans: nat -> seq<Id>, d: Id, q: Query): nat -> seq<Id> {
    (k: nat) => PageIds(symbols, scans(k), d, q.(offset := PageOffset(q.limit, k)))
  }

  /** The first `n` of them, one after the other. */
  function Joined<T>(pages: nat -> seq<T>, n: nat): seq<T> {
    if n == 0 then [] else Joined(pages, n - 1) + pages(n - 1)
  }

  /** `all` has exactly the selected rows of the drawing, each once, in strict (page_number, id) order. */
  ghost predicate WholeListing(symbols: map<Id, Symbol>, d: Id, q: Query, all: seq<Id>) {
    && (forall i | 0 <= i < |all| :: all[i] in symbols) && InListingOrder(symbols, all)
    && forall id :: id in all <==> id in symbols && Selected(symbols[id], d, q)
  }

  /** What `n` pages can hold of `s`. */
  function Covered<T>(s: seq<T>, limit: nat, n: nat): seq<T> {
    if PageOffset(limit, n) >= |s| then s else s[..PageOffset(limit, n)]
  }

  lemma NextPage<T>(s: seq<T>, limit: nat, n: nat)
    ensures Covered(s, limit, n) + LimitOffset(s, limit, PageOffset(limit, n)) == Covered(s, limit, n + 1)
  {
  }

  /** With pages that are not empty, as many as there are rows are enough. */
  lemma {:induction false} PagesReachTheEnd<T>(s: seq<T>, limit: nat, n: nat)
    requires limit > 0
    ensures PageOffset(limit, n) >= n && (n >= |s| ==> Covered(s, limit, n) == s)
    decreases n
  {
    if n > 0 {
      PagesReachTheEnd(s, limit, n - 1);
    }
  }

  /** Where a page starts does not change what it is a page of. */
  lemma PageOfListing(symbols: map<Id, Symbol>, scan: seq<Id>, d: Id, q: Query, offset: nat)
    ensures PageIds(symbols, scan, d, q.(offset := offset))
            == LimitOffset(Listing(symbols, scan, FiltersOf(d, q)), q.limit, offset)
  {
    assert FiltersOf(d, q.(offset := offset)) == FiltersOf(d, q);
  }

  /** Page `k` is the `k`-th slice of `all`. */
  predicate SliceOf<T(==)>(pages: nat -> seq<T>, k: nat, all: seq<T>, limit: nat) {
    pages(k) == LimitOffset(all, limit, PageOffset(limit, k))
  }

  lemma {:induction false} SlicesCover<T>(pages: nat -> seq<T>, all: seq<T>, limit: nat, n: nat)
    requires forall k | 0 <= k < n :: SliceOf(pages, k, all, limit)
    ensures Joined(pages, n) == Covered(all, limit, n)
    decreases n
  {
    if n > 0 {
      SlicesCover(pages, all, limit, n - 1);
      assert SliceOf(pages, n - 1, all, limit);
      NextPage(all, limit, n - 1);
    }
  }

  /** The pages put together are a prefix of one fixed listing, and all of it as soon as they cover its
      size. */
  lemma PagesAreExact(symbols: map<Id, Symbol>, scans: nat -> seq<Id>, d: Id, q: Query, n: nat)
    requires forall k :: Scans(symbols, scans(k))
    ensures Joined(Fetched(symbols, scans, d, q), n)
            == Covered(Listing(symbols, scans(0), FiltersOf(d, q)), q.limit, n)
  {
    var all, pages := Listing(symbols, scans(0), FiltersOf(d, q)), Fetched(symbols, scans, d, q);
    forall k | 0 <= k < n ensures SliceOf(pages, k, all, q.limit) {
      ListingIsCanonical(symbols, scans(0), scans(k), FiltersOf(d, q));
      PageOfListing(symbols, scans(k), d, q, PageOffset(q.limit, k));
    }
    SlicesCover(pages, all, q.limit, n);
  }

  /** Every selected row is on exactly one of the pages, in order, however the table is read for each. */
  lemma PagesTogetherAreTheListing(symbols: map<Id, Symbol>, scans: nat -> seq<Id>, d: Id, q: Query, n: nat)
    requires q.limit > 0 && forall k :: Scans(symbols, scans(k))
    requires PageOffset(q.limit, n) >= |Listing(symbols, scans(0), FiltersOf(d, q))|
    ensures WholeListing(symbols, d, q, Joined(Fetched(symbols, scans, d, q), n))
  {
    PagesAreExact(symbols, scans, d, q, n);
    ListingIsWhole(symbols, scans(0), d, q);
  }

  lemma ListingIsWhole(symbols: map<Id, Symbol>, scan: seq<Id>, d: Id, q: Query)
    requires Scans(symbols, scan)
    ensures WholeListing(symbols, d, q, Listing(symbols, scan, FiltersOf(d, q)))
  {
    ListingMembers(symbols, scan, FiltersOf(d, q));
    RowsInOrder(symbols, scan, FiltersOf(d, q));
    forall s: Symbol ensures PassesAll(s, FiltersOf(d, q)) <==> Selected(s, d, q) {
      FiltersSelect(s, d, q);
    }
  }
}
