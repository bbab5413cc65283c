// The vault list statement and its paging together: under a cursor, the rows
// the WHERE condition selects are the rows after the cursor among those that
// pass everything else (backend/src/services/vault.ts).
module ListPaging {
  import opened Common
  import opened Sql
  import opened FilterTree
  import opened VaultList
  import K = Keyset

  predicate Related(op: Cmp, x: int, y: int) {
    match op
    case Eq => x == y
    case Lt => x < y
    case Gt => x > y
    case Le => x <= y
    case Ge => x >= y
  }

  // created_at holds microseconds and is compared with a bound instant in
  // milliseconds; ids are compared as integers. Other columns are free.
  ghost predicate ComparesKeys(compare: Comparator) {
    (forall op, us, ms :: compare("created_at", op, Micros(us), Instant(ms)) <==> Related(op, us, 1000 * ms))
    && forall op, i, j :: compare("id", op, Count(i), Count(j)) <==> Related(op, i, j)
  }

  // The columns of a listed vault.
  predicate Represents(row: Row, r: K.Row) {
    "created_at" in row && row["created_at"] == Micros(r.createdAt) && "id" in row && row["id"] == Count(r.id)
  }

  // The cursor condition is the order of the paging.
  lemma AfterCursorIsAfter(c: Cursor, desc: bool, row: Row, r: K.Row, compare: Comparator)
    requires c.Position? && Represents(row, r) && ComparesKeys(compare)
    ensures AfterCursor(c, desc, row, compare) <==> K.IsAfter(K.Cursor(c.createdAt, c.id), desc, r)
  {
    assert compare("created_at", Eq, Micros(r.createdAt), Instant(c.createdAt)) <==> r.createdAt == 1000 * c.createdAt;
  }

  // The rows of a listing of which the condition is TRUE, in their order.
  function Selecting(rows: seq<K.Row>, of: K.Row -> Row, e: Expr, params: seq<Operand>, compare: Comparator): seq<K.Row> {
    if rows == [] then []
    else
      (if Eval(e, params, of(rows[0]), compare) == True then [rows[0]] else [])
      + Selecting(rows[1..], of, e, params, compare)
  }

  // Those that pass the filters, the flags and the tree.
  function Passing(rows: seq<K.Row>, of: K.Row -> Row, o: Options, compare: Comparator): seq<K.Row> {
    if rows == [] then []
    else
      (if Selected(o.(cursor := NoCursor), of(rows[0]), compare) then [rows[0]] else [])
      + Passing(rows[1..], of, o, compare)
  }

  lemma SelectedSplits(o: Options, row: Row, compare: Comparator)
    ensures Selected(o, row, compare)
      <==> Selected(o.(cursor := NoCursor), row, compare) && AfterCursor(o.cursor, o.descending, row, compare)
  {}

  // The page statement under a cursor fetches, up to its limit, exactly the
  // rows after the cursor among those that pass everything else.
  lemma {:induction false} PageFetchesAfterCursor(o: Options, e: Expr, rows: seq<K.Row>, of: K.Row -> Row, compare: Comparator)
    requires o.filter.Some? ==> ValidateFilterTree(o.filter.value, 0).None?
    requires o.cursor.Position? && ComparesKeys(compare)
    requires Parse(PageStatement(o).conditions) == Some(e)
    requires forall i :: 0 <= i < |rows| ==> Represents(of(rows[i]), rows[i])
    ensures Selecting(rows, of, e, PageStatement(o).params, compare)
         == K.After(Passing(rows, of, o, compare), K.Cursor(o.cursor.createdAt, o.cursor.id), o.descending)
    decreases |rows|
  {
    if rows != [] {
      var r := rows[0];
      WhereSelects(o, PageStatement(o), of(r), compare);
      SelectedSplits(o, of(r), compare);
      AfterCursorIsAfter(o.cursor, o.descending, of(r), r, compare);
      PageFetchesAfterCursor(o, e, rows[1..], of, compare);
      PassingFirst(rows, of, o, compare);
    }
  }

  lemma PassingFirst(rows: seq<K.Row>, of: K.Row -> Row, o: Options, compare: Comparator)
    requires rows != [] && o.cursor.Position?
    ensures var c, rest := K.Cursor(o.cursor.createdAt, o.cursor.id), Passing(rows[1..], of, o, compare);
            K.After(Passing(rows, of, o, compare), c, o.descending)
            == if Selected(o.(cursor := NoCursor), of(rows[0]), compare) && K.IsAfter(c, o.descending, rows[0])
               then [rows[0]] + K.After(rest, c, o.descending) else K.After(rest, c, o.descending)
  {
    var c, rest := K.Cursor(o.cursor.createdAt, o.cursor.id), Passing(rows[1..], of, o, compare);
    if Selected(o.(cursor := NoCursor), of(rows[0]), compare) {
      assert ([rows[0]] + rest)[1..] == rest;
    } else {
      assert [] + rest == rest;
    }
  }

  // ------------------------------------------------------ LIMIT and OFFSET

  // The integer bound to a placeholder.
  function BoundTo(s: Statement, k: nat): Option<int> {
    if 1 <= k <= |s.params| && s.params[k - 1].Count? then Some(s.params[k - 1].n) else None
  }

  // The rows [from, to) of a listing, as far as there are any.
  function Slice<T>(rows: seq<T>, from: int, to: int): seq<T> {
    var lo := if from < 0 then 0 else if from > |rows| then |rows| else from;
    var hi := if to > |rows| then |rows| else if to < lo then lo else to;
    rows[lo..hi]
  }

  // What the statement returns of the rows its condition selects, listed.
  function Returned<T>(s: Statement, rows: seq<T>): seq<T> {
    var offset := if s.offset.Some? then BoundTo(s, s.offset.value) else Some(0);
    var limit := if s.limit.Some? then BoundTo(s, s.limit.value) else Some(|rows|);
    if offset.None? || limit.None? then [] else Slice(rows, offset.value, offset.value + limit.value)
  }

  lemma TwoBound<T>(s: Statement, n: nat, limit: int, offset: int, rows: seq<T>)
    requires |s.params| == n + 2 && s.params[n] == Count(limit) && s.params[n + 1] == Count(offset)
    requires s.limit == Some(n + 1) && s.offset == Some(n + 2)
    ensures Returned(s, rows) == Slice(rows, offset, offset + limit)
  {}

  lemma NumberedPage<T>(o: Options, rows: seq<T>, offset: int)
    requires o.cursor.NoCursor? && offset == (o.page - 1) * o.pageSize
    ensures Returned(PageStatement(o), rows) == Slice(rows, offset, offset + o.pageSize)
  {
    var s, ps := PageStatement(o), RowParams(o);
    assert s == Statement(WhereText(o), ps + [Count(o.pageSize), Count(offset)], Some(|ps| + 1), Some(|ps| + 2));
    TwoBound(s, |ps|, o.pageSize, offset, rows);
  }

  lemma CursorPage<T>(o: Options, rows: seq<T>)
    requires !o.cursor.NoCursor?
    ensures Returned(PageStatement(o), rows) == Slice(rows, 0, o.pageSize + 1)
  {
    var s, n := PageStatement(o), |RowParams(o)|;
    assert s.params[n] == Count(o.pageSize + 1);
    assert s.limit == Some(n + 1) && s.offset == None;
  }

  // The rows from place `from` on, at most `size` and as many as there are.
  ghost predicate IsPart<T>(part: seq<T>, rows: seq<T>, from: int, size: int) {
    |part| == (if |rows| <= from then 0 else if |rows| - from < size then |rows| - from else size)
    && forall i :: 0 <= i < |part| && 0 <= from + i < |rows| ==> part[i] == rows[from + i]
  }

  lemma SliceIsPart<T>(rows: seq<T>, from: int, size: int)
    requires from >= 0 && size >= 0
    ensures IsPart(Slice(rows, from, from + size), rows, from, size)
  {}

  // Page p of size n is the n rows from place (p − 1)·n on; under a cursor,
  // whatever the page number, the first n + 1 rows are fetched.
  lemma PageReturns<T>(o: Options, rows: seq<T>)
    requires o.page >= 1 && o.pageSize >= 0
    ensures o.cursor.NoCursor? ==> IsPart(Returned(PageStatement(o), rows), rows, (o.page - 1) * o.pageSize, o.pageSize)
    ensures !o.cursor.NoCursor? ==> IsPart(Returned(PageStatement(o), rows), rows, 0, o.pageSize + 1)
  {
    if o.cursor.NoCursor? {
      NotBelowZero(o.page - 1, o.pageSize);
      NumberedPage(o, rows, (o.page - 1) * o.pageSize);
      SliceIsPart(rows, (o.page - 1) * o.pageSize, o.pageSize);
    } else {
      CursorPage(o, rows);
      SliceIsPart(rows, 0, o.pageSize + 1);
    }
  }

  lemma NotBelowZero(a: int, b: int)
    requires a >= 0 && b >= 0
    ensures a * b >= 0
  {}

  function PageOf<T>(o: Options, rows: seq<T>, n: nat): seq<T> { Returned(PageStatement(o.(page := n)), rows) }

  // The rows of pages 1 to n, one after the other.
  function FirstPages<T>(o: Options, rows: seq<T>, n: nat): seq<T> {
    if n == 0 then [] else FirstPages(o, rows, n - 1) + PageOf(o, rows, n)
  }

  lemma PageOfIs<T>(o: Options, rows: seq<T>, n: nat, from: int, to: int)
    requires o.cursor.NoCursor? && from == (n - 1) * o.pageSize && to == from + o.pageSize
    ensures PageOf(o, rows, n) == Slice(rows, from, to)
  {
    NumberedPage(o.(page := n), rows, from);
  }

  // Numbered pages of one listing fit together: no row is left out and none is
  // shown twice.
  lemma PagesFit<T>(o: Options, rows: seq<T>, n: nat)
    requires o.cursor.NoCursor? && o.pageSize >= 1
    ensures IsPart(FirstPages(o, rows, n), rows, 0, n * o.pageSize)
    ensures n * o.pageSize >= |rows| ==> FirstPages(o, rows, n) == rows
  {
    FirstPagesAre(o, rows, n);
    SliceIsPart(rows, 0, n * o.pageSize);
  }

  lemma {:induction false} FirstPagesAre<T>(o: Options, rows: seq<T>, n: nat)
    requires o.cursor.NoCursor? && o.pageSize >= 1
    ensures n * o.pageSize >= 0
    ensures FirstPages(o, rows, n) == Slice(rows, 0, n * o.pageSize)
  {
    if n > 0 {
      FirstPagesAre(o, rows, n - 1);
      NextPage(o, rows, n, (n - 1) * o.pageSize);
      OneMore(n, o.pageSize);
    }
  }

  lemma OneMore(n: nat, size: int)
    ensures (n - 1) * size + size == n * size
  {}

  lemma NextPage<T>(o: Options, rows: seq<T>, n: nat, from: int)
    requires o.cursor.NoCursor? && o.pageSize >= 1 && from == (n - 1) * o.pageSize && from >= 0
    ensures Slice(rows, 0, from) + PageOf(o, rows, n) == Slice(rows, 0, from + o.pageSize)
  {
    PageOfIs(o, rows, n, from, from + o.pageSize);
    SlicesJoin(rows, from, from + o.pageSize);
  }

  lemma SlicesJoin<T>(rows: seq<T>, mid: int, to: int)
    requires 0 <= mid <= to
    ensures Slice(rows, 0, mid) + Slice(rows, mid, to) == Slice(rows, 0, to)
  {}

  // What the source fetches and trims is then the page of the paging.
  method ListPage(o: Options, fetched: seq<K.Row>, ghost e: Expr, ghost rows: seq<K.Row>, ghost of: K.Row -> Row,
                  ghost compare: Comparator)
    returns (data: seq<K.Row>, next: Option<K.Cursor>)
    requires o.filter.Some? ==> ValidateFilterTree(o.filter.value, 0).None?
    requires o.cursor.Position? && o.pageSize >= 1 && ComparesKeys(compare)
    requires Parse(PageStatement(o).conditions) == Some(e)
    requires forall i :: 0 <= i < |rows| ==> Represents(of(rows[i]), rows[i])
    requires fetched == Returned(PageStatement(o), Selecting(rows, of, e, PageStatement(o).params, compare))
    ensures K.Page(data, next)
         == K.PageAt(Passing(rows, of, o, compare), K.Cursor(o.cursor.createdAt, o.cursor.id), o.descending, o.pageSize)
  {
    PageFetchesAfterCursor(o, e, rows, of, compare);
    CursorPage(o, Selecting(rows, of, e, PageStatement(o).params, compare));
    data, next := K.TrimPage(fetched, o.pageSize, Passing(rows, of, o, compare), K.Cursor(o.cursor.createdAt, o.cursor.id), o.descending);
  }
}
