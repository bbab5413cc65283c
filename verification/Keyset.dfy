// Keyset pagination of the vault list (backend/src/services/vault.ts): the
// ORDER BY built from the sort parameter, the (created_at, id) cursor taken
// from the last row kept, and the runs of requests that follow it.
module Keyset {
  import opened Common

  datatype Field = CreatedAt | UpdatedAt | TotalAssets | TotalSupply | State | Name

  // createdAt in microseconds; the other sort columns are ranked by integers.
  datatype Row = Row(id: int, createdAt: int, columns: map<Field, int>, featured: Option<int>)

  datatype Spec = Spec(field: Field, desc: bool)

  // featured: the default sort, which puts featured_rank first.
  datatype Sort = Sort(featured: bool, specs: seq<Spec>)

  // A cursor carries the timestamp in whole milliseconds.
  datatype Cursor = Cursor(ms: int, id: int)

  // What the sort parser returns: at least one field, none twice.
  ghost predicate Parsed(sort: Sort) {
    sort.specs != [] && forall i, j :: 0 <= i < j < |sort.specs| ==> sort.specs[i].field != sort.specs[j].field
  }

  // ------------------------------------------------- the sort parameter

  datatype SortError = EmptyField | TooManyFields | BadEntry | UnknownField | BadDirection | DuplicateField

  datatype ParsedSort = Ok(specs: seq<Spec>) | Err(error: SortError)

  const MaxSortFields := 3

  function FieldNamed(name: string): Option<Field> {
    if name == "created_at" then Some(CreatedAt)
    else if name == "updated_at" then Some(UpdatedAt)
    else if name == "total_assets" then Some(TotalAssets)
    else if name == "total_supply" then Some(TotalSupply)
    else if name == "state" then Some(State)
    else if name == "name" then Some(Name)
    else None
  }

  // A comma-separated entry, split at its colons.
  type Entry = seq<string>

  predicate ValidEntry(e: Entry) {
    1 <= |e| <= 2 && FieldNamed(e[0]).Some? && (|e| == 2 ==> e[1] == "asc" || e[1] == "desc")
  }

  function SpecOf(e: Entry, defaultDesc: bool): Spec
    requires ValidEntry(e)
  {
    Spec(FieldNamed(e[0]).value, if |e| == 2 then e[1] == "desc" else defaultDesc)
  }

  // The column a field is printed as.
  function ColumnName(field: Field): string {
    match field
    case CreatedAt => "created_at"
    case UpdatedAt => "updated_at"
    case TotalAssets => "total_assets"
    case TotalSupply => "total_supply"
    case State => "state"
    case Name => "name"
  }

  lemma NamedIffPrinted(name: string, field: Field)
    ensures FieldNamed(name) == Some(field) <==> ColumnName(field) == name
  {}

  // The spec says what the entry says: its column, and its direction or the
  // default one.
  predicate Says(e: Entry, defaultDesc: bool, spec: Spec) {
    1 <= |e| <= 2 && e[0] == ColumnName(spec.field)
    && if |e| == 1 then spec.desc == defaultDesc else e[1] == if spec.desc then "desc" else "asc"
  }

  lemma SpecSays(e: Entry, defaultDesc: bool)
    requires ValidEntry(e)
    ensures Says(e, defaultDesc, SpecOf(e, defaultDesc))
  {
    NamedIffPrinted(e[0], FieldNamed(e[0]).value);
  }

  predicate Repeats(entries: seq<Entry>, i: nat, j: nat)
    requires i < j < |entries|
  {
    entries[i] != [] && entries[j] != [] && entries[i][0] == entries[j][0]
  }

  predicate Parses(entries: seq<Entry>) {
    |entries| <= MaxSortFields && (forall i :: 0 <= i < |entries| ==> ValidEntry(entries[i]))
    && forall i, j :: 0 <= i < j < |entries| ==> !Repeats(entries, i, j)
  }

  // No entries stand for an absent or blank parameter.
  method ParseVaultSort(entries: seq<Entry>, defaultDesc: bool) returns (r: ParsedSort)
    ensures r.Ok? <==> Parses(entries)
    ensures r.Ok? ==> forall featured :: Parsed(Sort(featured, r.specs))
    ensures r.Ok? && entries == [] ==> r.specs == [Spec(CreatedAt, defaultDesc)]
    ensures r.Ok? && entries != [] ==>
              |r.specs| == |entries| && forall i :: 0 <= i < |entries| ==> Says(entries[i], defaultDesc, r.specs[i])
  {
    if entries == [] {
      return Ok([Spec(CreatedAt, defaultDesc)]);
    }
    if i :| 0 <= i < |entries| && entries[i] == [""] {
      assert !ValidEntry(entries[i]);
      return Err(EmptyField);
    }
    if |entries| > MaxSortFields {
      return Err(TooManyFields);
    }
    var specs: seq<Spec> := [];
    var seen: set<string> := {};
    for i := 0 to |entries|
      invariant |specs| == i && forall j :: 0 <= j < i ==> ValidEntry(entries[j]) && specs[j] == SpecOf(entries[j], defaultDesc)
      invariant seen == set j | 0 <= j < i :: entries[j][0]
      invariant forall j, k :: 0 <= j < k < i ==> !Repeats(entries, j, k)
      invariant forall j, k :: 0 <= j < k < i ==> specs[j].field != specs[k].field
    {
      var e := entries[i];
      if e == [] || |e| > 2 {
        return Err(BadEntry);
      }
      var field := FieldNamed(e[0]);
      if field.None? {
        return Err(UnknownField);
      }
      if |e| == 2 && e[1] != "asc" && e[1] != "desc" {
        return Err(BadDirection);
      }
      if e[0] in seen {
        var j :| 0 <= j < i && entries[j][0] == e[0];
        assert Repeats(entries, j, i);
        return Err(DuplicateField);
      }
      NamesDiffer(entries, i);
      seen := seen + {e[0]};
      specs := specs + [Spec(field.value, if |e| == 2 then e[1] == "desc" else defaultDesc)];
    }
    r := Ok(specs);
    forall i | 0 <= i < |entries| ensures Says(entries[i], defaultDesc, specs[i]) {
      SpecSays(entries[i], defaultDesc);
    }
  }

  ghost predicate SaysSome(e: Entry, defaultDesc: bool) { exists spec :: Says(e, defaultDesc, spec) }

  lemma ValidIff(e: Entry, defaultDesc: bool)
    ensures ValidEntry(e) <==> SaysSome(e, defaultDesc)
  {
    if ValidEntry(e) {
      SpecSays(e, defaultDesc);
    }
    if spec :| Says(e, defaultDesc, spec) {
      NamedIffPrinted(e[0], spec.field);
    }
  }

  // The part before the colon.
  function Column(e: Entry): seq<string> { if e == [] then [] else [e[0]] }

  // At most three entries, each saying some spec, and no column twice.
  ghost predicate Acceptable(entries: seq<Entry>, defaultDesc: bool) {
    && |entries| <= 3
    && (forall i :: 0 <= i < |entries| ==> SaysSome(entries[i], defaultDesc))
    && forall i, j :: 0 <= i < j < |entries| ==> Column(entries[i]) != Column(entries[j])
  }

  lemma AcceptedIff(entries: seq<Entry>, defaultDesc: bool)
    ensures Acceptable(entries, defaultDesc) <==> Parses(entries)
  {
    forall i | 0 <= i < |entries| ensures ValidEntry(entries[i]) <==> SaysSome(entries[i], defaultDesc) {
      ValidIff(entries[i], defaultDesc);
    }
    forall i, j | 0 <= i < j < |entries| && ValidEntry(entries[i]) && ValidEntry(entries[j])
      ensures Repeats(entries, i, j) <==> Column(entries[i]) == Column(entries[j])
    {
      assert Column(entries[i]) == [entries[i][0]] && Column(entries[j]) == [entries[j][0]];
    }
    if Acceptable(entries, defaultDesc) {
      forall i, j | 0 <= i < j < |entries| ensures !Repeats(entries, i, j) {
        assert ValidEntry(entries[i]) && ValidEntry(entries[j]);
      }
    }
    if Parses(entries) {
      forall i, j | 0 <= i < j < |entries| ensures Column(entries[i]) != Column(entries[j]) {
        assert ValidEntry(entries[i]) && ValidEntry(entries[j]) && !Repeats(entries, i, j);
      }
    }
  }

  // The parameter that asks for these specs.
  function Printed(specs: seq<Spec>): seq<Entry> {
    seq(|specs|, i requires 0 <= i < |specs| => [ColumnName(specs[i].field), if specs[i].desc then "desc" else "asc"])
  }

  // Whatever the default: what is printed of the specs reads as them alone, and
  // a parameter reads as the specs whose print fills its defaults in.
  lemma PrintReadsBack(specs: seq<Spec>, other: seq<Spec>, defaultDesc: bool)
    ensures |other| == |specs| && (forall i :: 0 <= i < |specs| ==> Says(Printed(specs)[i], defaultDesc, other[i]))
      <==> other == specs
  {
    forall i | 0 <= i < |specs| && i < |other| ensures Says(Printed(specs)[i], defaultDesc, other[i]) <==> other[i] == specs[i] {
      NamedIffPrinted(ColumnName(specs[i].field), other[i].field);
      NamedIffPrinted(ColumnName(specs[i].field), specs[i].field);
      assert "desc"[0] != "asc"[0];
    }
  }

  lemma NamesDiffer(entries: seq<Entry>, i: nat)
    requires i < |entries| && forall j :: 0 <= j <= i ==> entries[j] != [] && FieldNamed(entries[j][0]).Some?
    requires forall j :: 0 <= j < i ==> entries[j][0] != entries[i][0]
    ensures forall j :: 0 <= j < i ==> FieldNamed(entries[j][0]) != FieldNamed(entries[i][0])
  {}

  function Key(row: Row, field: Field): int {
    if field == CreatedAt then row.createdAt
    else if field in row.columns then row.columns[field] else 0
  }

  predicate Ahead(x: int, y: int, desc: bool) {
    if desc then x > y else x < y
  }

  // ORDER BY the fields, then id in the primary direction.
  predicate BySpecs(specs: seq<Spec>, idDesc: bool, a: Row, b: Row) {
    if specs == [] then Ahead(a.id, b.id, idDesc)
    else
      var x, y := Key(a, specs[0].field), Key(b, specs[0].field);
      if x != y then Ahead(x, y, specs[0].desc) else BySpecs(specs[1..], idDesc, a, b)
  }

  // featured_rank ASC NULLS LAST, when it is the default sort.
  predicate Precedes(sort: Sort, a: Row, b: Row)
    requires sort.specs != []
  {
    if sort.featured && a.featured != b.featured then
      a.featured.Some? && (b.featured.Some? ==> a.featured.value < b.featured.value)
    else BySpecs(sort.specs, sort.specs[0].desc, a, b)
  }

  // Two rows that differ in the first column named are listed in the direction
  // written with it.
  lemma FirstColumnDecides(entries: seq<Entry>, defaultDesc: bool, specs: seq<Spec>, a: Row, b: Row)
    requires entries != [] && specs != [] && Says(entries[0], defaultDesc, specs[0])
    requires Key(a, specs[0].field) != Key(b, specs[0].field)
    ensures Precedes(Sort(false, specs), a, b)
      <==> if (if |entries[0]| == 2 then entries[0][1] == "desc" else defaultDesc)
           then Key(a, specs[0].field) > Key(b, specs[0].field) else Key(a, specs[0].field) < Key(b, specs[0].field)
  {
    assert "desc"[0] != "asc"[0];
  }

  ghost predicate Sorted(sort: Sort, rows: seq<Row>)
    requires sort.specs != []
  {
    forall i, j :: 0 <= i < j < |rows| ==> Precedes(sort, rows[i], rows[j]) && rows[i].id != rows[j].id
  }

  // ------------------------------------------- the order without a cursor

  // ORDER BY the fields alone: the page query without a cursor has no tiebreaker.
  predicate ByColumns(specs: seq<Spec>, a: Row, b: Row) {
    specs != []
    && var x, y := Key(a, specs[0].field), Key(b, specs[0].field);
       if x != y then Ahead(x, y, specs[0].desc) else ByColumns(specs[1..], a, b)
  }

  predicate ColumnsPrecede(sort: Sort, a: Row, b: Row) {
    if sort.featured && a.featured != b.featured then
      a.featured.Some? && (b.featured.Some? ==> a.featured.value < b.featured.value)
    else ByColumns(sort.specs, a, b)
  }

  // With the tiebreaker of the cursor query rows come as without it, and ties
  // by id, in the direction of the first field.
  lemma {:induction false} TiebreakerIs(specs: seq<Spec>, idDesc: bool, a: Row, b: Row)
    ensures BySpecs(specs, idDesc, a, b)
      <==> ByColumns(specs, a, b) || (!ByColumns(specs, a, b) && !ByColumns(specs, b, a) && Ahead(a.id, b.id, idDesc))
  {
    if specs != [] {
      TiebreakerIs(specs[1..], idDesc, a, b);
    }
  }

  lemma {:induction false} ByColumnsTransitive(specs: seq<Spec>, a: Row, b: Row, c: Row)
    requires ByColumns(specs, a, b) && ByColumns(specs, b, c)
    ensures ByColumns(specs, a, c)
  {
    if Key(a, specs[0].field) == Key(b, specs[0].field) == Key(c, specs[0].field) {
      ByColumnsTransitive(specs[1..], a, b, c);
    }
  }

  lemma ColumnsTransitive(sort: Sort, a: Row, b: Row, c: Row)
    requires ColumnsPrecede(sort, a, b) && ColumnsPrecede(sort, b, c)
    ensures ColumnsPrecede(sort, a, c)
  {
    if !sort.featured || a.featured == b.featured == c.featured {
      ByColumnsTransitive(sort.specs, a, b, c);
    }
  }

  // A result the database may give.
  ghost predicate Listed(sort: Sort, rows: seq<Row>) {
    forall i, j :: 0 <= i < j < |rows| ==> !ColumnsPrecede(sort, rows[j], rows[i])
  }

  ghost predicate NoTies(sort: Sort, rows: seq<Row>) {
    forall i :: 0 <= i < |rows| - 1 ==> ColumnsPrecede(sort, rows[i], rows[i + 1])
  }

  ghost predicate OnlyListing(sort: Sort, rows: seq<Row>) {
    forall other: seq<Row> :: multiset(other) == multiset(rows) && Listed(sort, other) ==> other == rows
  }

  lemma {:induction false} NoTiesFar(sort: Sort, rows: seq<Row>, i: nat, j: nat)
    requires NoTies(sort, rows) && i < j < |rows|
    ensures ColumnsPrecede(sort, rows[i], rows[j])
    decreases j
  {
    if i + 1 < j {
      NoTiesFar(sort, rows, i, j - 1);
      ColumnsTransitive(sort, rows[i], rows[j - 1], rows[j]);
    }
  }

  lemma TailsSame(rows: seq<Row>, other: seq<Row>)
    requires rows != [] && other != [] && rows[0] == other[0] && multiset(other) == multiset(rows)
    ensures multiset(other[1..]) == multiset(rows[1..])
  {
    WithoutFirst(rows);
    WithoutFirst(other);
  }

  lemma WithoutFirst(rows: seq<Row>)
    requires rows != []
    ensures multiset(rows[1..]) == multiset(rows) - multiset{rows[0]}
  {
    assert rows == [rows[0]] + rows[1..];
    assert multiset([rows[0]] + rows[1..]) == multiset{rows[0]} + multiset(rows[1..]);
  }

  lemma TailInOrder(sort: Sort, rows: seq<Row>, other: seq<Row>)
    requires rows != [] && other != [] && NoTies(sort, rows) && Listed(sort, other)
    ensures NoTies(sort, rows[1..]) && Listed(sort, other[1..])
  {
    var rest := rows[1..];
    forall i | 0 <= i < |rest| - 1 ensures ColumnsPrecede(sort, rest[i], rest[i + 1]) {
      assert ColumnsPrecede(sort, rows[i + 1], rows[i + 1 + 1]);
    }
  }

  lemma {:induction false} ListingIsUnique(sort: Sort, rows: seq<Row>, other: seq<Row>)
    requires NoTies(sort, rows) && multiset(other) == multiset(rows) && Listed(sort, other)
    ensures other == rows
    decreases |rows|
  {
    assert |other| == |multiset(other)| == |multiset(rows)| == |rows|;
    if rows != [] {
      FirstIsFirst(sort, rows, other);
      TailsSame(rows, other);
      TailInOrder(sort, rows, other);
      ListingIsUnique(sort, rows[1..], other[1..]);
      assert rows == [rows[0]] + rows[1..] && other == [other[0]] + other[1..];
    }
  }

  lemma NotBehindFirst(sort: Sort, other: seq<Row>, m: nat)
    requires Listed(sort, other) && 0 < m < |other|
    ensures !ColumnsPrecede(sort, other[m], other[0])
  {}

  lemma FirstIsFirst(sort: Sort, rows: seq<Row>, other: seq<Row>)
    requires NoTies(sort, rows) && multiset(other) == multiset(rows) && Listed(sort, other) && rows != [] && other != []
    ensures other[0] == rows[0]
  {
    assert other[0] in multiset(rows) && rows[0] in multiset(other);
    var k :| 0 <= k < |rows| && rows[k] == other[0];
    var m :| 0 <= m < |other| && other[m] == rows[0];
    if k > 0 && m > 0 {
      NotBehindFirst(sort, other, m);
      NoTiesFar(sort, rows, 0, k);
      assert false;
    }
  }

  function Swapped(rows: seq<Row>, i: nat): seq<Row>
    requires i + 1 < |rows|
  {
    rows[i := rows[i + 1]][i + 1 := rows[i]]
  }

  lemma SwappedIsListed(sort: Sort, rows: seq<Row>, i: nat)
    requires Listed(sort, rows) && i + 1 < |rows| && !ColumnsPrecede(sort, rows[i], rows[i + 1])
    ensures multiset(Swapped(rows, i)) == multiset(rows) && Listed(sort, Swapped(rows, i))
  {}

  // Without a cursor the rows come in one order alone, so that numbered pages
  // of different requests fit together, exactly when no two neighbours tie on
  // every column sorted by.
  lemma ListingUniqueIff(sort: Sort, rows: seq<Row>)
    requires NoDuplicates(rows) && Listed(sort, rows)
    ensures OnlyListing(sort, rows) <==> NoTies(sort, rows)
  {
    if NoTies(sort, rows) {
      forall other: seq<Row> | multiset(other) == multiset(rows) && Listed(sort, other) ensures other == rows {
        ListingIsUnique(sort, rows, other);
      }
    } else {
      var i :| 0 <= i < |rows| - 1 && !ColumnsPrecede(sort, rows[i], rows[i + 1]);
      SwappedIsListed(sort, rows, i);
      assert Swapped(rows, i)[i] != rows[i];
    }
  }

  // Featured vaults come first, in their rank; of two that are not, or of one
  // rank, the sort columns decide.
  lemma FeaturedFirst(specs: seq<Spec>, a: Row, b: Row)
    ensures a.featured.Some? && b.featured.None? ==>
              ColumnsPrecede(Sort(true, specs), a, b) && !ColumnsPrecede(Sort(true, specs), b, a)
    ensures a.featured.Some? && b.featured.Some? && a.featured.value < b.featured.value ==>
              ColumnsPrecede(Sort(true, specs), a, b) && !ColumnsPrecede(Sort(true, specs), b, a)
    ensures a.featured == b.featured ==> (ColumnsPrecede(Sort(true, specs), a, b) <==> ColumnsPrecede(Sort(false, specs), a, b))
    ensures a.featured == b.featured && specs != [] ==> (Precedes(Sort(true, specs), a, b) <==> Precedes(Sort(false, specs), a, b))
    ensures a.featured != b.featured && specs != [] ==> (Precedes(Sort(true, specs), a, b) <==> ColumnsPrecede(Sort(true, specs), a, b))
  {}

  // (created_at, id) < (cursor) or > (cursor).
  predicate IsAfter(c: Cursor, desc: bool, row: Row) {
    if row.createdAt != 1000 * c.ms then Ahead(1000 * c.ms, row.createdAt, desc) else Ahead(c.id, row.id, desc)
  }

  function After(rows: seq<Row>, c: Cursor, desc: bool): (r: seq<Row>)
    ensures forall i :: 0 <= i < |r| ==> IsAfter(c, desc, r[i])
    ensures |r| <= |rows|
  {
    if rows == [] then []
    else (if IsAfter(c, desc, rows[0]) then [rows[0]] else []) + After(rows[1..], c, desc)
  }

  function CursorOf(row: Row): Cursor {
    Cursor(row.createdAt / 1000, row.id)
  }

  datatype Page = Page(rows: seq<Row>, next: Option<Cursor>)

  // One row more than the page is fetched; when it is there, it is dropped
  // and the last row kept gives the next cursor.
  function Cut(matching: seq<Row>, pageSize: nat): Page
    requires pageSize >= 1
  {
    if |matching| > pageSize then Page(matching[..pageSize], Some(CursorOf(matching[pageSize - 1]))) else Page(matching, None)
  }

  function PageAt(rows: seq<Row>, c: Cursor, desc: bool, pageSize: nat): Page
    requires pageSize >= 1
  {
    Cut(After(rows, c, desc), pageSize)
  }

  method TrimPage(vaults: seq<Row>, pageSize: nat, ghost rows: seq<Row>, ghost c: Cursor, ghost desc: bool)
    returns (data: seq<Row>, nextCursor: Option<Cursor>)
    requires pageSize >= 1
    requires var matching := After(rows, c, desc);
             vaults == if |matching| > pageSize + 1 then matching[..pageSize + 1] else matching
    ensures Page(data, nextCursor) == PageAt(rows, c, desc, pageSize)
  {
    data, nextCursor := vaults, None;
    if |data| > pageSize {
      data := data[..|data| - 1];
      var last := data[|data| - 1];
      nextCursor := Some(CursorOf(last));
    }
  }

  datatype Walked = Walked(rows: seq<Row>, at: Option<Cursor>)

  // One request more, when there is a next page.
  function Advance(rows: seq<Row>, w: Walked, desc: bool, pageSize: nat): Walked
    requires pageSize >= 1
  {
    if w.at.None? then w
    else
      var page := PageAt(rows, w.at.value, desc, pageSize);
      Walked(w.rows + page.rows, page.next)
  }

  // What a client has after n requests, the first at c.
  function Walk(rows: seq<Row>, c: Cursor, desc: bool, pageSize: nat, n: nat): Walked
    requires pageSize >= 1
    decreases n, 1
  {
    if n == 0 then Walked([], Some(c)) else WalkOn(rows, c, desc, pageSize, n)
  }

  function WalkOn(rows: seq<Row>, c: Cursor, desc: bool, pageSize: nat, n: nat): Walked
    requires pageSize >= 1 && n >= 1
    decreases n, 0
  {
    Advance(rows, Walk(rows, c, desc, pageSize, n - 1), desc, pageSize)
  }

  // The client is eventually told that there is no next page, and then has
  // exactly the rows after its first cursor, in order, each once.
  ghost predicate WalkComplete(rows: seq<Row>, c: Cursor, desc: bool, pageSize: nat)
    requires pageSize >= 1
  {
    exists n: nat :: Walk(rows, c, desc, pageSize, n) == Walked(After(rows, c, desc), None)
  }

  // --------------------------------------------------- the created_at order

  function ByCreatedAt(desc: bool): Sort { Sort(false, [Spec(CreatedAt, desc)]) }

  ghost predicate InKeysetOrder(rows: seq<Row>, desc: bool) {
    Sorted(ByCreatedAt(desc), rows)
  }

  predicate KeysetAhead(a: Row, b: Row, desc: bool) {
    if a.createdAt != b.createdAt then Ahead(a.createdAt, b.createdAt, desc) else Ahead(a.id, b.id, desc)
  }

  lemma KeysetOrderIs(rows: seq<Row>, desc: bool, i: nat, j: nat)
    requires InKeysetOrder(rows, desc) && i < j < |rows|
    ensures KeysetAhead(rows[i], rows[j], desc) && rows[i].id != rows[j].id
  {
    var sort := ByCreatedAt(desc);
    assert Precedes(sort, rows[i], rows[j]);
    assert BySpecs(sort.specs, desc, rows[i], rows[j]) && sort.specs[1..] == [];
    assert Key(rows[i], CreatedAt) == rows[i].createdAt && Key(rows[j], CreatedAt) == rows[j].createdAt;
    assert BySpecs([], desc, rows[i], rows[j]) <==> Ahead(rows[i].id, rows[j].id, desc);
  }

  // A cursor splits the rows in order: a row behind one that is after it is after it too.
  lemma CursorSplits(a: Row, b: Row, c: Cursor, desc: bool)
    requires KeysetAhead(a, b, desc) && IsAfter(c, desc, a)
    ensures IsAfter(c, desc, b)
  {}

  lemma {:induction false} AfterIsSuffix(rows: seq<Row>, c: Cursor, desc: bool, k: nat)
    requires k <= |rows|
    requires forall i :: 0 <= i < k ==> !IsAfter(c, desc, rows[i])
    requires forall i :: k <= i < |rows| ==> IsAfter(c, desc, rows[i])
    ensures After(rows, c, desc) == rows[k..]
  {
    if rows != [] {
      if k > 0 {
        AfterIsSuffix(rows[1..], c, desc, k - 1);
        assert rows[1..][k - 1..] == rows[k..];
      } else {
        AfterIsSuffix(rows[1..], c, desc, 0);
        assert [rows[0]] + rows[1..] == rows;
      }
    }
  }

  lemma {:induction false} FirstAfter(rows: seq<Row>, c: Cursor, desc: bool) returns (k: nat)
    requires InKeysetOrder(rows, desc)
    ensures k <= |rows| && After(rows, c, desc) == rows[k..]
    ensures forall i :: 0 <= i < k ==> !IsAfter(c, desc, rows[i])
  {
    k := 0;
    while k < |rows| && !IsAfter(c, desc, rows[k])
      invariant k <= |rows| && forall i :: 0 <= i < k ==> !IsAfter(c, desc, rows[i])
    {
      k := k + 1;
    }
    forall i | k <= i < |rows| ensures IsAfter(c, desc, rows[i]) {
      if i > k {
        KeysetOrderIs(rows, desc, k, i);
        CursorSplits(rows[k], rows[i], c, desc);
      }
    }
    AfterIsSuffix(rows, c, desc, k);
  }

  // Every row but the last is behind its own cursor and its successor is after
  // it. With whole-millisecond timestamps this always holds.
  predicate CursorsSeparate(rows: seq<Row>, desc: bool) {
    forall i :: 0 <= i < |rows| - 1 ==> SeparatesAt(rows, desc, i)
  }

  predicate SeparatesAt(rows: seq<Row>, desc: bool, i: int)
    requires 0 <= i < |rows| - 1
  {
    !IsAfter(CursorOf(rows[i]), desc, rows[i]) && IsAfter(CursorOf(rows[i]), desc, rows[i + 1])
  }

  predicate WholeMilliseconds(rows: seq<Row>) {
    forall i :: 0 <= i < |rows| ==> rows[i].createdAt % 1000 == 0
  }

  lemma WholeMillisecondsSeparate(rows: seq<Row>, desc: bool)
    requires InKeysetOrder(rows, desc) && WholeMilliseconds(rows)
    ensures CursorsSeparate(rows, desc)
  {
    forall i | 0 <= i < |rows| - 1 ensures SeparatesAt(rows, desc, i) {
      KeysetOrderIs(rows, desc, i, i + 1);
      assert rows[i].createdAt % 1000 == 0;
    }
  }

  lemma NextStartsBehind(rows: seq<Row>, desc: bool, i: nat)
    requires InKeysetOrder(rows, desc) && CursorsSeparate(rows, desc) && i + 1 < |rows|
    ensures After(rows, CursorOf(rows[i]), desc) == rows[i + 1..]
  {
    var c := CursorOf(rows[i]);
    assert SeparatesAt(rows, desc, i);
    forall j | 0 <= j < i + 1 ensures !IsAfter(c, desc, rows[j]) {
      if j < i {
        KeysetOrderIs(rows, desc, j, i);
        if IsAfter(c, desc, rows[j]) {
          CursorSplits(rows[j], rows[i], c, desc);
        }
      }
    }
    forall j | i + 1 <= j < |rows| ensures IsAfter(c, desc, rows[j]) {
      if j > i + 1 {
        KeysetOrderIs(rows, desc, i + 1, j);
        CursorSplits(rows[i + 1], rows[j], c, desc);
      }
    }
    AfterIsSuffix(rows, c, desc, i + 1);
  }

  // What the client has when it has seen the first `seen` of the rows.
  function Seen(all: seq<Row>, seen: nat): Walked
    requires seen >= 1
  {
    if seen < |all| then Walked(all[..seen], Some(CursorOf(all[seen - 1]))) else Walked(all, None)
  }

  // The rows of n full pages.
  function Fetched(n: nat, pageSize: nat): nat {
    if n == 0 then 0 else Fetched(n - 1, pageSize) + pageSize
  }

  lemma {:induction false} FetchedIs(n: nat, pageSize: nat)
    ensures Fetched(n, pageSize) == n * pageSize
    ensures pageSize >= 1 ==> Fetched(n, pageSize) >= n
  {
    if n > 0 {
      FetchedIs(n - 1, pageSize);
      assert n * pageSize == (n - 1) * pageSize + pageSize;
    }
  }

  // After n requests the client has exactly the first n·pageSize rows, and is
  // sent on exactly while more rows remain.
  lemma {:induction false} WalkIsPrefix(rows: seq<Row>, c: Cursor, desc: bool, pageSize: nat, n: nat)
    requires pageSize >= 1 && n >= 1 && InKeysetOrder(rows, desc) && CursorsSeparate(rows, desc)
    ensures Fetched(n, pageSize) == n * pageSize >= n
    ensures Walk(rows, c, desc, pageSize, n) == Seen(After(rows, c, desc), Fetched(n, pageSize))
    decreases n
  {
    FetchedIs(n, pageSize);
    if n == 1 {
      FirstPage(rows, c, desc, pageSize);
      assert Fetched(0, pageSize) == 0;
    } else {
      WalkIsPrefix(rows, c, desc, pageSize, n - 1);
      NextPage(rows, c, desc, pageSize, Fetched(n - 1, pageSize));
      Requested(rows, c, desc, pageSize, n);
    }
  }

  lemma Requested(rows: seq<Row>, c: Cursor, desc: bool, pageSize: nat, n: nat)
    requires pageSize >= 1 && n >= 1
    ensures Walk(rows, c, desc, pageSize, n) == Advance(rows, Walk(rows, c, desc, pageSize, n - 1), desc, pageSize)
  {}

  lemma FirstPage(rows: seq<Row>, c: Cursor, desc: bool, pageSize: nat)
    requires pageSize >= 1
    ensures Walk(rows, c, desc, pageSize, 1) == Seen(After(rows, c, desc), pageSize)
  {
    assert Walk(rows, c, desc, pageSize, 0) == Walked([], Some(c));
  }

  lemma NextPage(rows: seq<Row>, c: Cursor, desc: bool, pageSize: nat, seen: nat)
    requires pageSize >= 1 && seen >= 1 && InKeysetOrder(rows, desc) && CursorsSeparate(rows, desc)
    ensures var all := After(rows, c, desc);
            Advance(rows, Seen(all, seen), desc, pageSize) == Seen(all, seen + pageSize)
  {
    var k := FirstAfter(rows, c, desc);
    ContinuesFrom(rows, desc, pageSize, k, seen);
  }

  lemma ContinuesFrom(rows: seq<Row>, desc: bool, pageSize: nat, k: nat, seen: nat)
    requires pageSize >= 1 && seen >= 1 && k <= |rows| && InKeysetOrder(rows, desc) && CursorsSeparate(rows, desc)
    ensures Advance(rows, Seen(rows[k..], seen), desc, pageSize) == Seen(rows[k..], seen + pageSize)
  {
    var all := rows[k..];
    if seen < |all| {
      var i := k + seen - 1;
      NextStartsBehind(rows, desc, i);
      assert all[seen - 1] == rows[i] && rows[i + 1..] == all[seen..];
      PageIsCut(rows, CursorOf(rows[i]), desc, pageSize, all[seen..]);
      CutContinues(all, seen, pageSize);
    }
  }

  lemma PageIsCut(rows: seq<Row>, c: Cursor, desc: bool, pageSize: nat, matching: seq<Row>)
    requires pageSize >= 1 && After(rows, c, desc) == matching
    ensures PageAt(rows, c, desc, pageSize) == Cut(matching, pageSize)
  {}

  lemma CutContinues(all: seq<Row>, seen: nat, pageSize: nat)
    requires pageSize >= 1 && 1 <= seen < |all|
    ensures var page := Cut(all[seen..], pageSize);
            Walked(all[..seen] + page.rows, page.next) == Seen(all, seen + pageSize)
  {
    var rest := all[seen..];
    if |rest| > pageSize {
      assert all[..seen] + rest[..pageSize] == all[..seen + pageSize];
    } else {
      assert all[..seen] + rest == all;
    }
  }

  // ------------------------------------------------------ exactly when it works

  lemma {:induction false} WalkOnlyAppends(rows: seq<Row>, c: Cursor, desc: bool, pageSize: nat, m: nat, n: nat)
    requires pageSize >= 1 && m <= n
    ensures Walk(rows, c, desc, pageSize, m).rows <= Walk(rows, c, desc, pageSize, n).rows
    ensures Walk(rows, c, desc, pageSize, m).at.None? ==>
              Walk(rows, c, desc, pageSize, m) == Walk(rows, c, desc, pageSize, n)
    decreases n
  {
    if m < n {
      var before := Walk(rows, c, desc, pageSize, n - 1);
      WalkOnlyAppends(rows, c, desc, pageSize, m, n - 1);
      AdvanceAppends(rows, before, desc, pageSize);
    }
  }

  lemma AdvanceAppends(rows: seq<Row>, w: Walked, desc: bool, pageSize: nat)
    requires pageSize >= 1
    ensures w.rows <= Advance(rows, w, desc, pageSize).rows
    ensures w.at.None? ==> Advance(rows, w, desc, pageSize) == w
  {}

  // A cursor in front of every row.
  lemma {:induction false} EarlyCursor(rows: seq<Row>, desc: bool) returns (c: Cursor)
    ensures forall i :: 0 <= i < |rows| ==> IsAfter(c, desc, rows[i])
    ensures After(rows, c, desc) == rows
  {
    var ms := 0;
    for k := 0 to |rows|
      invariant forall i :: 0 <= i < k ==> Ahead(1000 * ms, rows[i].createdAt, desc)
    {
      var bound := rows[k].createdAt / 1000;
      if desc {
        ms := if bound + 1 > ms then bound + 1 else ms;
      } else {
        ms := if bound - 1 < ms then bound - 1 else ms;
      }
    }
    c := Cursor(ms, 0);
    AfterIsSuffix(rows, c, desc, 0);
  }

  // The two ways a step goes wrong both put another row, or none, where row
  // i + 1 belongs.
  lemma BadStepLosesPlace(rows: seq<Row>, desc: bool, i: nat)
    requires InKeysetOrder(rows, desc) && i + 1 < |rows|
    requires IsAfter(CursorOf(rows[i]), desc, rows[i]) || !IsAfter(CursorOf(rows[i]), desc, rows[i + 1])
    ensures var f := After(rows, CursorOf(rows[i]), desc);
            f == [] || f[0] != rows[i + 1]
  {
    var c := CursorOf(rows[i]);
    var k := FirstAfter(rows, c, desc);
    if IsAfter(c, desc, rows[i]) {
      KeysetOrderIs(rows, desc, k, i + 1);
    }
  }

  ghost predicate EveryWalkComplete(rows: seq<Row>, desc: bool) {
    forall c: Cursor, pageSize: nat :: pageSize >= 1 ==> WalkComplete(rows, c, desc, pageSize)
  }

  lemma SeparateWalksComplete(rows: seq<Row>, c: Cursor, desc: bool, pageSize: nat)
    requires pageSize >= 1 && InKeysetOrder(rows, desc) && CursorsSeparate(rows, desc)
    ensures WalkComplete(rows, c, desc, pageSize)
  {
    var n := |After(rows, c, desc)| + 1;
    WalkIsPrefix(rows, c, desc, pageSize, n);
    assert Walk(rows, c, desc, pageSize, n) == Walked(After(rows, c, desc), None);
  }

  // A table listed by created_at alone is paged without loss or repetition,
  // from every cursor and at every page size, exactly when its cursors
  // separate its rows.
  lemma CompleteIffSeparate(rows: seq<Row>, desc: bool)
    requires InKeysetOrder(rows, desc)
    ensures EveryWalkComplete(rows, desc) <==> CursorsSeparate(rows, desc)
  {
    if CursorsSeparate(rows, desc) {
      forall c: Cursor, pageSize: nat | pageSize >= 1 ensures WalkComplete(rows, c, desc, pageSize) {
        SeparateWalksComplete(rows, c, desc, pageSize);
      }
    } else {
      var i :| 0 <= i < |rows| - 1 && !SeparatesAt(rows, desc, i);
      BadStepLosesPlace(rows, desc, i);
      var c := EarlyCursor(rows, desc);
      MisplacedIsIncomplete(rows, c, desc, i);
      assert !WalkComplete(rows, c, desc, i + 1);
    }
  }

  lemma MisplacedIsIncomplete(rows: seq<Row>, c: Cursor, desc: bool, i: nat)
    requires i + 1 < |rows| && After(rows, c, desc) == rows
    requires var f := After(rows, CursorOf(rows[i]), desc); f == [] || f[0] != rows[i + 1]
    ensures !WalkComplete(rows, c, desc, i + 1)
  {
    FirstPage(rows, c, desc, i + 1);
    var one := Seen(rows, i + 1);
    MisplacedPage(rows, After(rows, CursorOf(rows[i]), desc), i);
    if WalkComplete(rows, c, desc, i + 1) {
      var n: nat :| Walk(rows, c, desc, i + 1, n) == Walked(rows, None);
      StillWalking(rows, c, desc, i + 1, one, n);
      WalkOnlyAppends(rows, c, desc, i + 1, 2, n);
    }
  }

  // The second page starts with the wrong row, or is empty.
  lemma MisplacedPage(rows: seq<Row>, f: seq<Row>, i: nat)
    requires i + 1 < |rows| && (f == [] || f[0] != rows[i + 1])
    ensures var page := Cut(f, i + 1);
            !(rows[..i + 1] + page.rows <= rows && (page.next.None? ==> rows[..i + 1] + page.rows == rows))
  {
    var page := Cut(f, i + 1);
    var got := rows[..i + 1] + page.rows;
    if f == [] {
      assert |got| == i + 1;
    } else {
      assert got[i + 1] == f[0];
    }
  }

  lemma StillWalking(rows: seq<Row>, c: Cursor, desc: bool, pageSize: nat, one: Walked, n: nat)
    requires pageSize >= 1 && Walk(rows, c, desc, pageSize, 1) == one && one.at.Some?
    requires Walk(rows, c, desc, pageSize, n).at.None?
    ensures n >= 2 && Walk(rows, c, desc, pageSize, 2) == Advance(rows, one, desc, pageSize)
  {}

  // Ascending, two rows inside one millisecond send the client round for ever.
  lemma {:induction false} MicrosecondsLoop(n: nat)
    requires n >= 1
    ensures var rows := [Row(1, 1500, map[], None), Row(2, 1600, map[], None)];
            InKeysetOrder(rows, false)
            && Walk(rows, Cursor(0, 0), false, 1, n).at == Some(Cursor(1, 1))
            && |Walk(rows, Cursor(0, 0), false, 1, n).rows| == n
  {
    var rows := [Row(1, 1500, map[], None), Row(2, 1600, map[], None)];
    assert InKeysetOrder(rows, false);
    AfterIsSuffix(rows, Cursor(0, 0), false, 0);
    AfterIsSuffix(rows, Cursor(1, 1), false, 0);
    assert rows[0..] == rows && CursorOf(rows[0]) == Cursor(1, 1);
    LoopStep(rows, n);
  }

  lemma {:induction false} LoopStep(rows: seq<Row>, n: nat)
    requires n >= 1 && |rows| == 2 && CursorOf(rows[0]) == Cursor(1, 1)
    requires After(rows, Cursor(0, 0), false) == rows && After(rows, Cursor(1, 1), false) == rows
    ensures Walk(rows, Cursor(0, 0), false, 1, n).at == Some(Cursor(1, 1))
    ensures |Walk(rows, Cursor(0, 0), false, 1, n).rows| == n
  {
    if n == 1 {
      FirstPage(rows, Cursor(0, 0), false, 1);
    } else {
      LoopStep(rows, n - 1);
      assert Cut(rows, 1) == Page(rows[..1], Some(Cursor(1, 1)));
      var w := Walk(rows, Cursor(0, 0), false, 1, n - 1);
      assert Walk(rows, Cursor(0, 0), false, 1, n) == Advance(rows, w, false, 1);
    }
  }

  // ------------------------------------------------- which sorts can be paged

  // Every table with whole-millisecond timestamps is paged completely.
  ghost predicate SortPages(sort: Sort)
    requires sort.specs != []
  {
    forall rows: seq<Row>, c: Cursor, pageSize: nat ::
      pageSize >= 1 && Sorted(sort, rows) && WholeMilliseconds(rows)
      ==> WalkComplete(rows, c, sort.specs[0].desc, pageSize)
  }

  // Two rows that the query lists against the order of the cursor.
  lemma AgainstTheCursor(sort: Sort, a: Row, b: Row)
    requires Parsed(sort) && Precedes(sort, a, b) && a.id != b.id
    requires WholeMilliseconds([a, b]) && KeysetAhead(b, a, sort.specs[0].desc)
    ensures !SortPages(sort)
  {
    var rows, desc := [a, b], sort.specs[0].desc;
    assert Sorted(sort, rows);
    assert a == rows[0] && a.createdAt % 1000 == 0;
    var cursor := CursorOf(a);
    assert !IsAfter(cursor, desc, a) && !IsAfter(cursor, desc, b);
    AfterIsSuffix(rows, cursor, desc, 2);
    var c := EarlyCursor(rows, desc);
    MisplacedIsIncomplete(rows, c, desc, 0);
    assert !WalkComplete(rows, c, desc, 1);
  }

  // The lower key comes first in an ascending field.
  function Lead(desc: bool): int { if desc then 1 else 0 }

  lemma SecondFieldBreaks(sort: Sort)
    requires Parsed(sort) && !sort.featured && sort.specs[0].field == CreatedAt && |sort.specs| >= 2
    ensures !SortPages(sort)
  {
    var s, d := sort.specs[1], sort.specs[0].desc;
    assert s.field != CreatedAt;
    var a := Row(1 - Lead(d), 0, map[s.field := Lead(s.desc)], None);
    var b := Row(Lead(d), 0, map[s.field := 1 - Lead(s.desc)], None);
    assert sort.specs[1..][0] == s;
    assert Key(a, s.field) == Lead(s.desc) && Key(b, s.field) == 1 - Lead(s.desc);
    assert BySpecs(sort.specs[1..], d, a, b);
    AgainstTheCursor(sort, a, b);
  }

  lemma OtherFieldBreaks(sort: Sort)
    requires Parsed(sort) && !sort.featured && sort.specs[0].field != CreatedAt
    ensures !SortPages(sort)
  {
    var s := sort.specs[0];
    var a := Row(0, 1000 * (1 - Lead(s.desc)), map[s.field := Lead(s.desc)], None);
    var b := Row(1, 1000 * Lead(s.desc), map[s.field := 1 - Lead(s.desc)], None);
    assert Key(a, s.field) == Lead(s.desc) && Key(b, s.field) == 1 - Lead(s.desc);
    AgainstTheCursor(sort, a, b);
  }

  lemma FeaturedBreaks(sort: Sort)
    requires Parsed(sort) && sort.featured
    ensures !SortPages(sort)
  {
    var d := sort.specs[0].desc;
    var a := Row(0, 1000 * (1 - Lead(d)), map[], Some(1));
    var b := Row(1, 1000 * Lead(d), map[], None);
    AgainstTheCursor(sort, a, b);
  }

  // Following the cursor is complete for every whole-millisecond table exactly
  // when the sort is an explicit created_at alone; a second field, another
  // first field and the default featured order each lose rows.
  lemma OnlyCreatedAtPages(sort: Sort)
    requires Parsed(sort)
    ensures SortPages(sort) <==> sort == ByCreatedAt(sort.specs[0].desc)
  {
    if sort.featured {
      FeaturedBreaks(sort);
    } else if sort.specs[0].field != CreatedAt {
      OtherFieldBreaks(sort);
    } else if |sort.specs| >= 2 {
      SecondFieldBreaks(sort);
    } else {
      var desc := sort.specs[0].desc;
      assert sort == ByCreatedAt(desc);
      forall rows: seq<Row>, c: Cursor, pageSize: nat | pageSize >= 1 && Sorted(sort, rows) && WholeMilliseconds(rows)
        ensures WalkComplete(rows, c, desc, pageSize)
      {
        WholeMillisecondsSeparate(rows, desc);
        SeparateWalksComplete(rows, c, desc, pageSize);
      }
    }
  }
}
