// The vault list statement (backend/src/services/vault.ts): its optional
// filters, the filter tree, the keyset cursor, LIMIT and OFFSET share one
// array of positional parameters.
module VaultList {
  import opened Common
  import opened Sql
  import opened FilterTree

  datatype Filters = Filters(
    state: Option<string>,
    category: Option<string>,
    createdFrom: Option<string>,
    createdTo: Option<string>,
    minTotalAssets: Option<string>,
    maxTotalAssets: Option<string>,
    contractIds: Option<seq<Operand>>,
    tag: Option<string>
  )

  // A cursor that cannot be decoded still asks for cursor pagination.
  datatype Cursor = NoCursor | Undecodable | Position(createdAt: int, id: int)

  datatype Options = Options(
    filters: Filters,
    filter: Option<Tree>,
    cursor: Cursor,
    descending: bool,
    page: int,
    pageSize: int
  )

  // The bound text of a statement: its WHERE condition, its parameters, and
  // the placeholders of LIMIT and OFFSET.
  datatype Statement = Statement(conditions: seq<Token>, params: seq<Operand>, limit: Option<nat>, offset: Option<nat>)

  // An absent and an empty string are both skipped.
  predicate Given(o: Option<string>) {
    o.Some? && o.value != ""
  }

  // ------------------------------------------------------------- conditions

  datatype Clause = StateIs | CategoryIs | CreatedFrom | CreatedTo | AssetsFrom | AssetsTo | ContractIn | Tagged

  function FieldOf(c: Clause): string {
    match c
    case StateIs => "state"
    case CategoryIs => "rwa_category"
    case CreatedFrom => "created_at"
    case CreatedTo => "created_at"
    case AssetsFrom => "total_assets"
    case AssetsTo => "total_assets"
    case ContractIn => "contract_id"
    case Tagged => "tags"
  }

  function OpOf(c: Clause): Cmp {
    match c
    case CreatedFrom => Ge
    case CreatedTo => Le
    case AssetsFrom => Ge
    case AssetsTo => Le
    case _ => Eq
  }

  function CastOf(c: Clause): Cast {
    match c
    case CreatedFrom => AsTimestamp
    case CreatedTo => AsTimestamp
    case AssetsFrom => AsNumeric
    case AssetsTo => AsNumeric
    case _ => NoCast
  }

  // One conjunct of the WHERE condition.
  datatype Condition =
    | Where(clause: Clause, value: Operand)
    | Unset(field: string)
    | Matches(tree: Tree)
    | Beyond(op: Cmp, createdAt: int, id: int)

  // Its text, when its first placeholder is $k.
  function ConditionText(c: Condition, k: nat): seq<Token> {
    match c
    case Where(clause, _) =>
      if clause.ContractIn? then [Column(FieldOf(clause)), Operator(Eq), Word(ANY), Open, Param(k, AsTextArray), Close]
      else if clause.Tagged? then [Param(k, NoCast), Operator(Eq), Word(ANY), Open, Column(FieldOf(clause)), Close]
      else [Column(FieldOf(clause)), Operator(OpOf(clause)), Param(k, CastOf(clause))]
    case Unset(field) => [Column(field), Operator(Eq), Word(FALSE)]
    case Matches(tree) => Fragment(tree, k)
    case Beyond(op, _, _) =>
      [Open, Column("created_at"), Comma, Column("id"), Close, Operator(op),
       Open, Param(k, AsTimestamp), Comma, Param(k + 1, NoCast), Close]
  }

  function ConditionValues(c: Condition): seq<Operand> {
    match c
    case Where(_, value) => [value]
    case Unset(_) => []
    case Matches(tree) => Values(tree)
    case Beyond(_, createdAt, id) => [Instant(createdAt), Count(id)]
  }

  function Texts(cs: seq<Condition>, start: nat): seq<seq<Token>> {
    if cs == [] then [] else [ConditionText(cs[0], start)] + Texts(cs[1..], start + |ConditionValues(cs[0])|)
  }

  function AllValues(cs: seq<Condition>): seq<Operand> {
    if cs == [] then [] else ConditionValues(cs[0]) + AllValues(cs[1..])
  }

  function IfGiven(clause: Clause, value: Option<string>): seq<Condition> {
    if Given(value) then [Where(clause, Text(value.value))] else []
  }

  function IfScoped(contractIds: Option<seq<Operand>>): seq<Condition> {
    if contractIds.Some? then [Where(ContractIn, List(contractIds.value))] else []
  }

  function FilterConditions(f: Filters): seq<Condition> {
    RangeConditions(f) + IfScoped(f.contractIds) + IfGiven(Tagged, f.tag)
  }

  function RangeConditions(f: Filters): seq<Condition> {
    IfGiven(StateIs, f.state) + IfGiven(CategoryIs, f.category)
    + IfGiven(CreatedFrom, f.createdFrom) + IfGiven(CreatedTo, f.createdTo)
    + IfGiven(AssetsFrom, f.minTotalAssets) + IfGiven(AssetsTo, f.maxTotalAssets)
  }

  function TreeCondition(filter: Option<Tree>): seq<Condition> {
    if filter.Some? then [Matches(filter.value)] else []
  }

  function CursorCondition(c: Cursor, descending: bool): seq<Condition> {
    if c.Position? then [Beyond(if descending then Lt else Gt, c.createdAt, c.id)] else []
  }

  function Conditions(o: Options): seq<Condition> {
    FilterConditions(o.filters)
    + [Unset("archived")]
    + [Unset("unlisted")]
    + TreeCondition(o.filter)
    + CursorCondition(o.cursor, o.descending)
  }

  lemma Appended(cs: seq<Condition>, c: Condition, start: nat)
    ensures Texts(cs + [c], start) == Texts(cs, start) + [ConditionText(c, start + |AllValues(cs)|)]
    ensures AllValues(cs + [c]) == AllValues(cs) + ConditionValues(c)
  {
    ValuesAppended(cs, c);
    TextsAppended(cs, c, start);
  }

  lemma {:induction false} ValuesAppended(cs: seq<Condition>, c: Condition)
    ensures AllValues(cs + [c]) == AllValues(cs) + ConditionValues(c)
  {
    if cs == [] {
      assert AllValues([]) == [] && [] + [c] == [c] && [c][1..] == [];
    } else {
      assert (cs + [c])[1..] == cs[1..] + [c];
      ValuesAppended(cs[1..], c);
    }
  }

  lemma {:induction false} TextsAppended(cs: seq<Condition>, c: Condition, start: nat)
    ensures Texts(cs + [c], start) == Texts(cs, start) + [ConditionText(c, start + |AllValues(cs)|)]
    decreases |cs|
  {
    if cs == [] {
      assert [] + [c] == [c] && [c][1..] == [];
    } else {
      var first, rest, next := cs[0], cs[1..], start + |ConditionValues(cs[0])|;
      var more := rest + [c];
      assert cs + [c] == [first] + more && ([first] + more)[1..] == more;
      TextsAppended(rest, c, next);
      assert start + |AllValues(cs)| == next + |AllValues(rest)|;
    }
  }

  // --------------------------------------------------------- the statement

  // The growing arrays of condition texts and parameters, and the number of
  // the last placeholder.
  class QueryBuilder {
    var conditions: seq<seq<Token>>
    const bindings: Bindings
    var idx: nat
    ghost var added: seq<Condition>

    ghost predicate Valid()
      reads this, bindings
    {
      conditions == Texts(added, 1) && bindings.params == AllValues(added) && idx == |AllValues(added)|
    }

    constructor ()
      ensures Valid() && fresh(bindings) && added == []
    {
      conditions := [];
      idx := 0;
      bindings := new Bindings();
      added := [];
    }

    method Add(clause: Clause, value: Operand)
      requires Valid()
      modifies this, bindings
      ensures Valid() && added == old(added) + [Where(clause, value)]
    {
      Appended(added, Where(clause, value), 1);
      added := added + [Where(clause, value)];
      idx := idx + 1;
      conditions := conditions + [ConditionText(Where(clause, value), idx)];
      bindings.Push(value);
    }

    method AddGiven(clause: Clause, value: Option<string>)
      requires Valid()
      modifies this, bindings
      ensures Valid() && added == old(added) + IfGiven(clause, value)
    {
      if value.Some? && value.value != "" {
        Add(clause, Text(value.value));
      }
    }

    method BuildVaultListFilters(f: Filters)
      requires Valid() && added == []
      modifies this, bindings
      ensures Valid() && added == FilterConditions(f)
    {
      AddRanges(f);
      if f.contractIds.Some? {
        Add(ContractIn, List(f.contractIds.value));
      }
      AddGiven(Tagged, f.tag);
    }

    method AddRanges(f: Filters)
      requires Valid() && added == []
      modifies this, bindings
      ensures Valid() && added == RangeConditions(f)
    {
      AddGiven(StateIs, f.state);
      AddGiven(CategoryIs, f.category);
      AddGiven(CreatedFrom, f.createdFrom);
      AddGiven(CreatedTo, f.createdTo);
      AddGiven(AssetsFrom, f.minTotalAssets);
      AddGiven(AssetsTo, f.maxTotalAssets);
    }

    method AddUnset(field: string)
      requires Valid()
      modifies this
      ensures Valid() && added == old(added) + [Unset(field)]
    {
      Appended(added, Unset(field), 1);
      added := added + [Unset(field)];
      conditions := conditions + [[Column(field), Operator(Eq), Word(FALSE)]];
    }

    // applyFilterTree numbers from the next index and returns the one after.
    method AddTree(filter: Option<Tree>) returns (ok: bool)
      requires Valid()
      modifies this, bindings
      ensures ok <==> (filter.Some? ==> Compilable(filter.value))
      ensures ok ==> Valid() && added == old(added) + TreeCondition(filter)
    {
      if filter.Some? {
        var r := bindings.ApplyFilterTree(filter.value, idx + 1);
        if r.None? {
          return false;
        }
        Appended(added, Matches(filter.value), 1);
        added := added + [Matches(filter.value)];
        conditions := conditions + [r.value.0];
        idx := r.value.1 - 1;
      }
      ok := true;
    }

    method AddCursor(c: Cursor, descending: bool)
      requires Valid()
      modifies this, bindings
      ensures Valid() && added == old(added) + CursorCondition(c, descending)
    {
      if c.Position? {
        ghost var condition := CursorCondition(c, descending)[0];
        Appended(added, condition, 1);
        added := added + [condition];
        idx := idx + 1;
        var op := if descending then Lt else Gt;
        conditions := conditions + [[Open, Column("created_at"), Comma, Column("id"), Close, Operator(op),
          Open, Param(idx, AsTimestamp), Comma, Param(idx + 1, NoCast), Close]];
        bindings.Push(Instant(c.createdAt));
        bindings.Push(Count(c.id));
        idx := idx + 1;
      }
    }
  }

  // The page query and, without a cursor, the query that counts the total.
  method ListVaults(o: Options) returns (page: Option<Statement>, count: Option<Statement>)
    ensures page.Some? <==> (o.filter.Some? ==> Compilable(o.filter.value))
    ensures page.Some? ==> page.value == PageStatement(o)
    ensures count.Some? <==> page.Some? && o.cursor.NoCursor?
    ensures count.Some? ==> count.value == CountStatement(o)
  {
    var b := new QueryBuilder();
    b.BuildVaultListFilters(o.filters);
    b.AddUnset("archived");
    b.AddUnset("unlisted");
    var ok := b.AddTree(o.filter);
    if !ok {
      return None, None;
    }
    b.AddCursor(o.cursor, o.descending);
    page := Paged(o, b.conditions, b.bindings, b.idx);
    count := None;
    if o.cursor.NoCursor? {
      count := CountVaults(o);
    }
  }

  // LIMIT fetches one row more under a cursor; OFFSET is used only without one.
  method Paged(o: Options, conditions: seq<seq<Token>>, bindings: Bindings, paramIdx: nat) returns (page: Option<Statement>)
    requires paramIdx == |bindings.params|
    modifies bindings
    ensures page == Some(Page(o, Join(conditions, AND), old(bindings.params)))
  {
    var limitIdx := paramIdx + 1;
    if !o.cursor.NoCursor? {
      bindings.Push(Count(o.pageSize + 1));
      return Some(Statement(Join(conditions, AND), bindings.params, Some(limitIdx), None));
    }
    ghost var row := bindings.params;
    bindings.Push(Count(o.pageSize));
    bindings.Push(Count((o.page - 1) * o.pageSize));
    assert bindings.params == row + [Count(o.pageSize), Count((o.page - 1) * o.pageSize)];
    page := Some(Statement(Join(conditions, AND), bindings.params, Some(limitIdx), Some(limitIdx + 1)));
  }

  method CountVaults(o: Options) returns (count: Option<Statement>)
    requires o.cursor.NoCursor?
    ensures count.Some? <==> (o.filter.Some? ==> Compilable(o.filter.value))
    ensures count.Some? ==> count.value == CountStatement(o)
  {
    var b := new QueryBuilder();
    b.BuildVaultListFilters(o.filters);
    b.AddUnset("archived");
    b.AddUnset("unlisted");
    var ok := b.AddTree(o.filter);
    if !ok {
      return None;
    }
    assert b.added == Conditions(o);
    count := Some(Statement(Join(b.conditions, AND), b.bindings.params, None, None));
  }

  function WhereText(o: Options): seq<Token> {
    Join(Texts(Conditions(o), 1), AND)
  }

  function RowParams(o: Options): seq<Operand> {
    AllValues(Conditions(o))
  }

  function PageStatement(o: Options): Statement {
    Page(o, WhereText(o), RowParams(o))
  }

  function Page(o: Options, text: seq<Token>, params: seq<Operand>): Statement {
    var n := |params|;
    if o.cursor.NoCursor? then
      Statement(text, params + [Count(o.pageSize), Count((o.page - 1) * o.pageSize)], Some(n + 1), Some(n + 2))
    else Statement(text, params + [Count(o.pageSize + 1)], Some(n + 1), None)
  }

  function CountStatement(o: Options): Statement {
    Statement(WhereText(o), RowParams(o), None, None)
  }

  // ----------------------------------------------------------- placeholders

  // The placeholders a text uses, left to right.
  function Used(ts: seq<Token>): seq<nat> {
    if ts == [] then []
    else (if ts[0].Param? then [ts[0].k] else []) + Used(ts[1..])
  }

  function UsedBy(s: Statement): seq<nat> {
    Used(s.conditions) + (if s.limit.Some? then [s.limit.value] else []) + (if s.offset.Some? then [s.offset.value] else [])
  }

  lemma {:induction false} UsedConcat(a: seq<Token>, b: seq<Token>)
    ensures Used(a + b) == Used(a) + Used(b)
  {
    if a == [] {
      assert a + b == b;
    } else {
      var ab := a + b;
      assert ab[0] == a[0] && ab[1..] == a[1..] + b;
      UsedConcat(a[1..], b);
    }
  }

  lemma {:induction false} NumbersConcat(start: nat, m: nat, n: nat)
    ensures Numbers(start, m) + Numbers(start + m, n) == Numbers(start, m + n)
    decreases m
  {
    if m > 0 {
      NumbersConcat(start + 1, m - 1, n);
    }
  }

  lemma {:induction false} ParamListUses(start: nat, n: nat)
    ensures Used(ParamList(start, n)) == Numbers(start, n)
    decreases n
  {
    if n == 1 {
      UsedNone([]);
      assert Numbers(start, 1) == [start] && ParamList(start, 1)[1..] == [];
    } else if n > 1 {
      ParamListUses(start + 1, n - 1);
      UsedConcat([Param(start, NoCast), Comma], ParamList(start + 1, n - 1));
      UsedOne(Param(start, NoCast), [Comma]);
      UsedNone([Comma]);
    }
  }

  lemma {:induction false} UsedNone(ts: seq<Token>)
    requires forall t :: t in ts ==> !t.Param?
    ensures Used(ts) == []
  {
    if ts != [] {
      assert ts[0] in ts;
      UsedNone(ts[1..]);
    }
  }

  lemma UsedOne(t: Token, rest: seq<Token>)
    requires t.Param?
    ensures Used([t] + rest) == [t.k] + Used(rest)
  {
    assert ([t] + rest)[1..] == rest;
  }

  // A fragment uses the placeholders of its values, in their order.
  lemma {:induction false} FragmentUses(t: Tree, start: nat)
    requires Compilable(t)
    ensures Used(Fragment(t, start)) == Numbers(start, |Values(t)|)
    decreases t
  {
    var n := |Values(t)|;
    if t.Node? {
      FragmentsUse(t.filters, start);
      UsedJoin(Fragments(t.filters, start), t.logic);
      Bracketed([Open], Join(Fragments(t.filters, start), t.logic), [Close]);
    } else if t.op.Scalar? {
      Bracketed([Column(t.field), Operator(t.op.cmp)], ParamList(start, 1), []);
      ParamListUses(start, 1);
      assert Fragment(t, start) == [Column(t.field), Operator(t.op.cmp)] + ParamList(start, 1) + [];
    } else {
      var before := [Column(t.field), Operator(Eq), Word(ANY), Open, Word(ARRAY), OpenBracket];
      Bracketed(before, ParamList(start, n), [CloseBracket, Close]);
      ParamListUses(start, n);
      assert Fragment(t, start) == before + ParamList(start, n) + [CloseBracket, Close];
    }
  }

  lemma Bracketed(before: seq<Token>, ts: seq<Token>, after: seq<Token>)
    requires forall t :: t in before + after ==> !t.Param?
    ensures Used(before + ts + after) == Used(ts)
  {
    UsedConcat(before + ts, after);
    UsedConcat(before, ts);
    forall t | t in before || t in after ensures !t.Param? {
      assert t in before + after;
    }
    UsedNone(before);
    UsedNone(after);
  }

  function UsedInAll(ps: seq<seq<Token>>): seq<nat> {
    if ps == [] then [] else Used(ps[0]) + UsedInAll(ps[1..])
  }

  lemma {:induction false} UsedJoin(ps: seq<seq<Token>>, word: Keyword)
    ensures Used(Join(ps, word)) == UsedInAll(ps)
  {
    if |ps| == 1 {
      assert UsedInAll(ps[1..]) == [];
    } else if ps != [] {
      UsedJoin(ps[1..], word);
      UsedConcat(ps[0] + [Word(word)], Join(ps[1..], word));
      UsedConcat(ps[0], [Word(word)]);
      UsedNone([Word(word)]);
    }
  }

  lemma {:induction false} FragmentsUse(ts: seq<Tree>, start: nat)
    requires forall i :: 0 <= i < |ts| ==> Compilable(ts[i])
    ensures UsedInAll(Fragments(ts, start)) == Numbers(start, |ValuesOf(ts)|)
    decreases ts
  {
    if ts != [] {
      FragmentUses(ts[0], start);
      FragmentsUse(ts[1..], start + |Values(ts[0])|);
      NumbersConcat(start, |Values(ts[0])|, |ValuesOf(ts[1..])|);
    }
  }

  lemma ConditionUses(c: Condition, k: nat)
    requires c.Matches? ==> Compilable(c.tree)
    ensures Used(ConditionText(c, k)) == Numbers(k, |ConditionValues(c)|)
  {
    var ts := ConditionText(c, k);
    match c
    case Where(clause, _) =>
      var at := if clause.ContractIn? then 4 else if clause.Tagged? then 0 else 2;
      OnlyParam(ts, at, k);
    case Unset(_) => UsedNone(ts);
    case Matches(tree) => FragmentUses(tree, k);
    case Beyond(_, _, _) =>
      TwoParams(ts[..7], ts[7], ts[9], k);
      assert ts == ts[..7] + [ts[7], Comma, ts[9], Close];
  }

  lemma OnlyParam(ts: seq<Token>, at: nat, k: nat)
    requires at < |ts| && ts[at].Param? && ts[at].k == k
    requires forall i :: 0 <= i < |ts| && i != at ==> !ts[i].Param?
    ensures Used(ts) == Numbers(k, 1)
  {
    assert ts == ts[..at] + [ts[at]] + ts[at + 1..];
    Bracketed(ts[..at], [ts[at]], ts[at + 1..]);
    UsedOne(ts[at], []);
    assert [ts[at]] + [] == [ts[at]] && Numbers(k, 1) == [k];
  }

  lemma TwoParams(before: seq<Token>, first: Token, second: Token, k: nat)
    requires forall t :: t in before ==> !t.Param?
    requires first.Param? && second.Param? && first.k == k && second.k == k + 1
    ensures Used(before + [first, Comma, second, Close]) == Numbers(k, 2)
  {
    var ts := [first] + ([Comma] + ([second] + []));
    Bracketed(before, ts, [Close]);
    assert before + ts + [Close] == before + [first, Comma, second, Close];
    UsedOne(first, [Comma] + ([second] + []));
    UsedConcat([Comma], [second] + []);
    UsedNone([Comma]);
    UsedOne(second, []);
    assert Numbers(k, 2) == [k, k + 1];
  }

  predicate TreesCompile(cs: seq<Condition>) {
    forall c :: c in cs && c.Matches? ==> Compilable(c.tree)
  }

  lemma {:induction false} TextsUse(cs: seq<Condition>, start: nat)
    requires TreesCompile(cs)
    ensures UsedInAll(Texts(cs, start)) == Numbers(start, |AllValues(cs)|)
    decreases |cs|
  {
    if cs != [] {
      var c, rest, n := cs[0], cs[1..], |ConditionValues(cs[0])|;
      assert cs == [c] + rest;
      TextsUse(rest, start + n);
      TextsUseMore(c, rest, start);
    }
  }

  lemma TextsUseMore(c: Condition, rest: seq<Condition>, start: nat)
    requires c.Matches? ==> Compilable(c.tree)
    requires UsedInAll(Texts(rest, start + |ConditionValues(c)|)) == Numbers(start + |ConditionValues(c)|, |AllValues(rest)|)
    ensures UsedInAll(Texts([c] + rest, start)) == Numbers(start, |AllValues([c] + rest)|)
  {
    var n := |ConditionValues(c)|;
    ConditionUses(c, start);
    FirstText(c, rest, start);
    UsesStep(ConditionText(c, start), Texts(rest, start + n), start, n, |AllValues(rest)|);
  }

  lemma FirstText(c: Condition, rest: seq<Condition>, start: nat)
    ensures Texts([c] + rest, start) == [ConditionText(c, start)] + Texts(rest, start + |ConditionValues(c)|)
    ensures |AllValues([c] + rest)| == |ConditionValues(c)| + |AllValues(rest)|
  {
    assert ([c] + rest)[1..] == rest;
  }

  lemma UsesStep(first: seq<Token>, rest: seq<seq<Token>>, start: nat, m: nat, n: nat)
    requires Used(first) == Numbers(start, m) && UsedInAll(rest) == Numbers(start + m, n)
    ensures UsedInAll([first] + rest) == Numbers(start, m + n)
  {
    NumbersConcat(start, m, n);
    assert ([first] + rest)[1..] == rest;
  }

  // Read left to right, the placeholders of the page query are 1, 2, …, n
  // for its n parameters, LIMIT and OFFSET last.
  lemma PlaceholdersInOrder(o: Options)
    requires o.filter.Some? ==> Compilable(o.filter.value)
    ensures InOrder(o, PageStatement(o))
  {
    WhereUses(o);
    PageInOrder(o, WhereText(o), RowParams(o));
  }

  ghost predicate InOrder(o: Options, s: Statement) {
    UsedBy(s) == Numbers(1, |s.params|)
    && s.limit.Some? && Bound(s.params, s.limit.value) == Some(Count(o.pageSize + if o.cursor.NoCursor? then 0 else 1))
    && (s.offset.Some? <==> o.cursor.NoCursor?)
    && (s.offset.Some? ==> Bound(s.params, s.offset.value) == Some(Count((o.page - 1) * o.pageSize)))
  }

  lemma PageInOrder(o: Options, text: seq<Token>, params: seq<Operand>)
    requires Used(text) == Numbers(1, |params|)
    ensures InOrder(o, Page(o, text, params))
  {
    OneMore(|params|);
  }

  lemma WhereUses(o: Options)
    requires o.filter.Some? ==> Compilable(o.filter.value)
    ensures Used(WhereText(o)) == Numbers(1, |RowParams(o)|)
  {
    var cs := Conditions(o);
    OnlyTree(o);
    TextsUse(cs, 1);
    UsedJoin(Texts(cs, 1), AND);
  }

  lemma OneMore(n: nat)
    ensures Numbers(1, n) + [n + 1] == Numbers(1, n + 1)
    ensures Numbers(1, n) + [n + 1] + [n + 2] == Numbers(1, n + 2)
  {
    NumbersConcat(1, n, 1);
    NumbersConcat(1, n + 1, 1);
    assert Numbers(n + 1, 1) == [n + 1] && Numbers(n + 2, 1) == [n + 2];
  }

  // ------------------------------------------------------------ which rows

  predicate ColumnHolds(row: Row, field: string, op: Cmp, value: string, compare: Comparator) {
    field in row && compare(field, op, row[field], Text(value))
  }

  predicate OneOf(field: string, value: Operand, list: seq<Operand>, compare: Comparator) {
    exists i :: 0 <= i < |list| && compare(field, Eq, value, list[i])
  }

  // What each optional filter asks of a row.
  predicate FiltersHold(f: Filters, row: Row, compare: Comparator) {
    (f.state == None || f.state == Some("") || ColumnHolds(row, "state", Eq, f.state.value, compare))
    && (f.category == None || f.category == Some("") || ColumnHolds(row, "rwa_category", Eq, f.category.value, compare))
    && (f.createdFrom == None || f.createdFrom == Some("") || ColumnHolds(row, "created_at", Ge, f.createdFrom.value, compare))
    && (f.createdTo == None || f.createdTo == Some("") || ColumnHolds(row, "created_at", Le, f.createdTo.value, compare))
    && (f.minTotalAssets == None || f.minTotalAssets == Some("") || ColumnHolds(row, "total_assets", Ge, f.minTotalAssets.value, compare))
    && (f.maxTotalAssets == None || f.maxTotalAssets == Some("") || ColumnHolds(row, "total_assets", Le, f.maxTotalAssets.value, compare))
    && (f.contractIds.Some? ==> "contract_id" in row && OneOf("contract_id", row["contract_id"], f.contractIds.value, compare))
    && (f.tag == None || f.tag == Some("")
        || ("tags" in row && row["tags"].List? && OneOf("tags", Text(f.tag.value), row["tags"].values, compare)))
  }

  predicate IsFlaggedFalse(row: Row, field: string) {
    field in row && row[field] == Flag(false)
  }

  // Strictly after the cursor in (created_at, id) order.
  predicate AfterCursor(c: Cursor, descending: bool, row: Row, compare: Comparator) {
    var op := if descending then Lt else Gt;
    c.Position? ==>
      "created_at" in row
      && (if compare("created_at", Eq, row["created_at"], Instant(c.createdAt))
          then "id" in row && compare("id", op, row["id"], Count(c.id))
          else compare("created_at", op, row["created_at"], Instant(c.createdAt)))
  }

  predicate Selected(o: Options, row: Row, compare: Comparator) {
    FiltersHold(o.filters, row, compare)
    && IsFlaggedFalse(row, "archived")
    && IsFlaggedFalse(row, "unlisted")
    && (o.filter.Some? ==> Holds(o.filter.value, row, compare))
    && AfterCursor(o.cursor, o.descending, row, compare)
  }

  // -------------------------------------------- reading and truth, one by one

  function ConditionMeaning(c: Condition, k: nat): Option<Expr> {
    match c
    case Where(clause, _) =>
      Some(if clause.ContractIn? then InParam(FieldOf(clause), k)
           else if clause.Tagged? then ParamInColumn(k, FieldOf(clause))
           else Compare(FieldOf(clause), OpOf(clause), k))
    case Unset(field) => Some(IsFalse(field))
    case Matches(tree) => Meaning(tree, k)
    case Beyond(op, _, _) => Some(RowCompare("created_at", "id", op, k, k + 1))
  }

  predicate ConditionHolds(c: Condition, row: Row, compare: Comparator) {
    match c
    case Where(clause, value) =>
      FieldOf(clause) in row
      && (var cell := row[FieldOf(clause)];
          if clause.ContractIn? then value.List? && OneOf(FieldOf(clause), cell, value.values, compare)
          else if clause.Tagged? then cell.List? && OneOf(FieldOf(clause), value, cell.values, compare)
          else compare(FieldOf(clause), OpOf(clause), cell, value))
    case Unset(field) => IsFlaggedFalse(row, field)
    case Matches(tree) => Holds(tree, row, compare)
    case Beyond(op, createdAt, id) =>
      "created_at" in row
      && (if compare("created_at", Eq, row["created_at"], Instant(createdAt))
          then "id" in row && compare("id", op, row["id"], Count(id))
          else compare("created_at", op, row["created_at"], Instant(createdAt)))
  }

  predicate TreeOk(c: Condition) {
    c.Matches? ==> WellFormed(c.tree)
  }

  lemma ConditionReads(c: Condition, k: nat)
    requires TreeOk(c)
    ensures Reads(ConditionText(c, k), ConditionMeaning(c, k))
  {
    if c.Matches? {
      FragmentReads(c.tree, k);
    } else {
      var p := ConditionText(c, k);
      forall rest: seq<Token> ensures ParsePrimary(p + rest) == Got(ConditionMeaning(c, k).value, rest) {
        if c.Beyond? {
          RowReads(c.op, k, rest);
        } else if c.Where? && (c.clause.ContractIn? || c.clause.Tagged?) {
          assert (p + rest)[6..] == rest;
        } else {
          assert (p + rest)[3..] == rest;
        }
      }
    }
  }

  lemma RowReads(op: Cmp, k: nat, rest: seq<Token>)
    ensures ParsePrimary([Open, Column("created_at"), Comma, Column("id"), Close, Operator(op),
                          Open, Param(k, AsTimestamp), Comma, Param(k + 1, NoCast), Close] + rest)
         == Got(RowCompare("created_at", "id", op, k, k + 1), rest)
  {
    var p := [Open, Column("created_at"), Comma, Column("id"), Close, Operator(op),
              Open, Param(k, AsTimestamp), Comma, Param(k + 1, NoCast), Close];
    assert (p + rest)[11..] == rest;
    assert StartsRow((p + rest)[1..]);
  }

  lemma OneOfIff(field: string, value: Operand, list: seq<Operand>, compare: Comparator)
    ensures AnyEqual(field, value, Somes(list), compare) == True <==> OneOf(field, value, list, compare)
  {
    AnyEqualTrueIff(field, value, Somes(list), compare);
    assert forall i :: 0 <= i < |list| ==>
      (CompareTo(field, Eq, value, Somes(list)[i], compare) == True <==> compare(field, Eq, value, list[i]));
  }

  lemma ConditionTruth(c: Condition, k: nat, params: seq<Operand>, row: Row, compare: Comparator)
    requires TreeOk(c) && Supplied(ConditionValues(c), params, k)
    ensures ConditionMeaning(c, k).Some? <==> (c.Matches? ==> ListsFilled(c.tree))
    ensures ConditionMeaning(c, k).Some? ==>
              (Eval(ConditionMeaning(c, k).value, params, row, compare) == True <==> ConditionHolds(c, row, compare))
  {
    match c
    case Where(clause, value) =>
      assert Bound(params, k) == Some(ConditionValues(c)[0]);
      var field := FieldOf(clause);
      if clause.ContractIn? && value.List? && field in row {
        OneOfIff(field, row[field], value.values, compare);
      } else if clause.Tagged? && field in row && row[field].List? {
        OneOfIff(field, value, row[field].values, compare);
      }
    case Unset(_) =>
    case Matches(tree) => MeaningHolds(tree, k, params, row, compare);
    case Beyond(_, createdAt, id) =>
      var values := ConditionValues(c);
      assert Bound(params, k) == Some(values[0]) && Bound(params, k + 1) == Some(values[1]);
  }

  // -------------------------------------------- reading and truth, together

  function Meanings(cs: seq<Condition>, start: nat): (r: seq<Option<Expr>>)
    ensures |r| == |cs|
  {
    if cs == [] then [] else [ConditionMeaning(cs[0], start)] + Meanings(cs[1..], start + |ConditionValues(cs[0])|)
  }

  predicate TreesOk(cs: seq<Condition>) {
    forall i :: 0 <= i < |cs| ==> TreeOk(cs[i])
  }

  lemma {:induction false} TextsRead(cs: seq<Condition>, start: nat)
    requires TreesOk(cs)
    ensures AllRead(Texts(cs, start), Meanings(cs, start))
    decreases |cs|
  {
    if cs != [] {
      ConditionReads(cs[0], start);
      TextsRead(cs[1..], start + |ConditionValues(cs[0])|);
    }
  }

  predicate AllFilled(cs: seq<Condition>) {
    forall i :: 0 <= i < |cs| && cs[i].Matches? ==> ListsFilled(cs[i].tree)
  }

  predicate AllHold(cs: seq<Condition>, row: Row, compare: Comparator) {
    forall i :: 0 <= i < |cs| ==> ConditionHolds(cs[i], row, compare)
  }

  ghost predicate Agrees(e: Option<Expr>, c: Condition, params: seq<Operand>, row: Row, compare: Comparator) {
    (e.Some? <==> (c.Matches? ==> ListsFilled(c.tree)))
    && (e.Some? ==> (Eval(e.value, params, row, compare) == True <==> ConditionHolds(c, row, compare)))
  }

  ghost predicate AllAgree(es: seq<Option<Expr>>, cs: seq<Condition>, params: seq<Operand>, row: Row, compare: Comparator) {
    |es| == |cs| && forall i :: 0 <= i < |cs| ==> Agrees(es[i], cs[i], params, row, compare)
  }

  lemma {:induction false} TruthAt(cs: seq<Condition>, start: nat, i: nat, params: seq<Operand>, row: Row, compare: Comparator)
    requires i < |cs| && TreeOk(cs[i]) && Supplied(AllValues(cs), params, start)
    ensures Agrees(Meanings(cs, start)[i], cs[i], params, row, compare)
    decreases |cs|
  {
    var c, rest := cs[0], cs[1..];
    assert cs == [c] + rest;
    FirstSupplied(c, rest, params, start);
    if i == 0 {
      ConditionTruth(c, start, params, row, compare);
    } else {
      TruthAt(rest, start + |ConditionValues(c)|, i - 1, params, row, compare);
      MeaningLater(c, rest, start, i - 1);
    }
  }

  lemma FirstSupplied(c: Condition, rest: seq<Condition>, params: seq<Operand>, start: nat)
    requires Supplied(AllValues([c] + rest), params, start)
    ensures Supplied(ConditionValues(c), params, start)
    ensures Supplied(AllValues(rest), params, start + |ConditionValues(c)|)
  {
    assert ([c] + rest)[1..] == rest;
    assert AllValues([c] + rest) == ConditionValues(c) + AllValues(rest);
    SuppliedParts(AllValues([c] + rest), ConditionValues(c), AllValues(rest), params, start);
  }

  lemma SuppliedParts(all: seq<Operand>, first: seq<Operand>, rest: seq<Operand>, params: seq<Operand>, start: nat)
    requires all == first + rest && Supplied(all, params, start)
    ensures Supplied(first, params, start) && Supplied(rest, params, start + |first|)
  {
    SuppliedSplit(first, rest, params, start);
  }

  lemma MeaningLater(c: Condition, rest: seq<Condition>, start: nat, i: nat)
    requires i < |rest|
    ensures Meanings([c] + rest, start)[i + 1] == Meanings(rest, start + |ConditionValues(c)|)[i]
    ensures ([c] + rest)[i + 1] == rest[i]
  {
    assert ([c] + rest)[1..] == rest;
  }

  lemma TextsTruth(cs: seq<Condition>, start: nat, params: seq<Operand>, row: Row, compare: Comparator)
    requires TreesOk(cs) && Supplied(AllValues(cs), params, start)
    ensures AllAgree(Meanings(cs, start), cs, params, row, compare)
  {
    forall i | 0 <= i < |cs| ensures Agrees(Meanings(cs, start)[i], cs[i], params, row, compare) {
      assert TreeOk(cs[i]);
      TruthAt(cs, start, i, params, row, compare);
    }
  }

  lemma Together(es: seq<Option<Expr>>, cs: seq<Condition>, params: seq<Operand>, row: Row, compare: Comparator)
    requires AllAgree(es, cs, params, row, compare)
    ensures var all := Collect(es);
            (all.Some? <==> AllFilled(cs))
            && (all.Some? ==> (EvalAnd(all.value, params, row, compare) == True <==> AllHold(cs, row, compare)))
  {
    var all := Collect(es);
    if all.Some? {
      AndTrueIffAll(all.value, params, row, compare);
    }
  }

  lemma HoldConcat(a: seq<Condition>, b: seq<Condition>, row: Row, compare: Comparator)
    ensures AllHold(a + b, row, compare) <==> AllHold(a, row, compare) && AllHold(b, row, compare)
  {
    if AllHold(a + b, row, compare) {
      assert forall i :: 0 <= i < |a| ==> (a + b)[i] == a[i];
      assert forall i :: 0 <= i < |b| ==> (a + b)[|a| + i] == b[i];
    }
  }

  lemma GivenHolds(clause: Clause, value: Option<string>, row: Row, compare: Comparator)
    ensures AllHold(IfGiven(clause, value), row, compare)
      <==> (Given(value) ==> ConditionHolds(Where(clause, Text(value.value)), row, compare))
  {
    if Given(value) {
      assert IfGiven(clause, value)[0] == Where(clause, Text(value.value));
    }
  }

  lemma RangesHoldIff(f: Filters, row: Row, compare: Comparator)
    ensures AllHold(RangeConditions(f), row, compare)
      <==> (Given(f.state) ==> ColumnHolds(row, "state", Eq, f.state.value, compare))
           && (Given(f.category) ==> ColumnHolds(row, "rwa_category", Eq, f.category.value, compare))
           && (Given(f.createdFrom) ==> ColumnHolds(row, "created_at", Ge, f.createdFrom.value, compare))
           && (Given(f.createdTo) ==> ColumnHolds(row, "created_at", Le, f.createdTo.value, compare))
           && (Given(f.minTotalAssets) ==> ColumnHolds(row, "total_assets", Ge, f.minTotalAssets.value, compare))
           && (Given(f.maxTotalAssets) ==> ColumnHolds(row, "total_assets", Le, f.maxTotalAssets.value, compare))
  {
    var a, b := IfGiven(StateIs, f.state), IfGiven(CategoryIs, f.category);
    var c, d := IfGiven(CreatedFrom, f.createdFrom), IfGiven(CreatedTo, f.createdTo);
    var e, g := IfGiven(AssetsFrom, f.minTotalAssets), IfGiven(AssetsTo, f.maxTotalAssets);
    GivenHolds(StateIs, f.state, row, compare);
    GivenHolds(CategoryIs, f.category, row, compare);
    GivenHolds(CreatedFrom, f.createdFrom, row, compare);
    GivenHolds(CreatedTo, f.createdTo, row, compare);
    GivenHolds(AssetsFrom, f.minTotalAssets, row, compare);
    GivenHolds(AssetsTo, f.maxTotalAssets, row, compare);
    HoldConcat(a, b, row, compare);
    HoldConcat(a + b, c, row, compare);
    HoldConcat(a + b + c, d, row, compare);
    HoldConcat(a + b + c + d, e, row, compare);
    HoldConcat(a + b + c + d + e, g, row, compare);
  }

  lemma FiltersHoldIff(f: Filters, row: Row, compare: Comparator)
    ensures AllHold(FilterConditions(f), row, compare) <==> FiltersHold(f, row, compare)
  {
    RangesHoldIff(f, row, compare);
    GivenHolds(Tagged, f.tag, row, compare);
    if f.contractIds.Some? {
      assert IfScoped(f.contractIds)[0] == Where(ContractIn, List(f.contractIds.value));
    }
    HoldConcat(RangeConditions(f), IfScoped(f.contractIds), row, compare);
    HoldConcat(RangeConditions(f) + IfScoped(f.contractIds), IfGiven(Tagged, f.tag), row, compare);
  }

  lemma OptionalHold(o: Options, row: Row, compare: Comparator)
    ensures AllHold(TreeCondition(o.filter), row, compare) <==> (o.filter.Some? ==> Holds(o.filter.value, row, compare))
    ensures AllHold(CursorCondition(o.cursor, o.descending), row, compare) <==> AfterCursor(o.cursor, o.descending, row, compare)
    ensures forall field :: AllHold([Unset(field)], row, compare) <==> IsFlaggedFalse(row, field)
  {
    if o.filter.Some? {
      assert TreeCondition(o.filter)[0] == Matches(o.filter.value);
    }
    if o.cursor.Position? {
      assert CursorCondition(o.cursor, o.descending)[0].Beyond?;
    }
    forall field ensures AllHold([Unset(field)], row, compare) <==> IsFlaggedFalse(row, field) {
      assert [Unset(field)][0] == Unset(field);
    }
  }

  lemma ConditionsHoldIff(o: Options, row: Row, compare: Comparator)
    ensures AllHold(Conditions(o), row, compare) <==> Selected(o, row, compare)
  {
    var fs, archived, unlisted := FilterConditions(o.filters), [Unset("archived")], [Unset("unlisted")];
    FiltersHoldIff(o.filters, row, compare);
    OptionalHold(o, row, compare);
    HoldConcat(fs, archived, row, compare);
    HoldConcat(fs + archived, unlisted, row, compare);
    HoldConcat(fs + archived + unlisted, TreeCondition(o.filter), row, compare);
    HoldConcat(fs + archived + unlisted + TreeCondition(o.filter), CursorCondition(o.cursor, o.descending), row, compare);
  }

  lemma OnlyTree(o: Options)
    ensures forall c :: c in Conditions(o) && c.Matches? ==> o.filter == Some(c.tree)
    ensures o.filter.Some? ==> Matches(o.filter.value) in Conditions(o)
  {}

  // Both queries are accepted exactly when no `in` list of the tree is empty,
  // and then their WHERE is TRUE of exactly the rows that pass every filter
  // given, are neither archived nor unlisted, satisfy the tree and lie
  // strictly after the cursor.
  lemma WhereSelects(o: Options, s: Statement, row: Row, compare: Comparator)
    requires o.filter.Some? ==> ValidateFilterTree(o.filter.value, 0).None?
    requires s == PageStatement(o) || s == CountStatement(o)
    ensures var e := Parse(s.conditions);
            (e.Some? <==> (o.filter.Some? ==> ListsFilled(o.filter.value)))
            && (e.Some? ==> (Eval(e.value, s.params, row, compare) == True <==> Selected(o, row, compare)))
  {
    if o.filter.Some? {
      ValidIff(o.filter.value, 0);
    }
    OnlyTree(o);
    var cs := Conditions(o);
    assert AllFilled(cs) <==> (o.filter.Some? ==> ListsFilled(o.filter.value));
    assert Supplied(AllValues(cs), s.params, 1);
    TextsRead(cs, 1);
    TextsTruth(cs, 1, s.params, row, compare);
    Together(Meanings(cs, 1), cs, s.params, row, compare);
    ConditionsHoldIff(o, row, compare);
    JoinedRead(cs, s.params, row, compare);
  }

  lemma JoinedRead(cs: seq<Condition>, params: seq<Operand>, row: Row, compare: Comparator)
    requires AllRead(Texts(cs, 1), Meanings(cs, 1)) && Texts(cs, 1) != []
    ensures var all := Collect(Meanings(cs, 1));
            var e := Parse(Join(Texts(cs, 1), AND));
            (e.Some? <==> all.Some?)
            && (e.Some? ==> (Eval(e.value, params, row, compare) == True <==> EvalAnd(all.value, params, row, compare) == True))
  {
    var text := Join(Texts(cs, 1), AND);
    var all := Collect(Meanings(cs, 1));
    JoinedByAnd(Texts(cs, 1), Meanings(cs, 1), []);
    assert text + [] == text;
    if all.Some? {
      OrLast(text, all.value, []);
      NodeTruth(AND, all.value, params, row, compare);
      AndTrueIffAll(all.value, params, row, compare);
    }
  }
}
