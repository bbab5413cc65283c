// The compound filter tree of the vault list (backend/src/services/vault.ts):
// its validation, its translation to a WHERE fragment with positional
// parameters, and the proof that the fragment means the tree.
module FilterTree {
  import opened Common
  import opened Sql

  // "eq", "gt", "lt", "gte", "lte" compare with a scalar; any other name but
  // "in" is unsupported.
  datatype LeafOp = Scalar(cmp: Cmp) | In | Unsupported(name: string)

  // A logical operator other than AND and OR is an unknown keyword.
  datatype Tree =
    | Leaf(field: string, op: LeafOp, operand: Operand)
    | Node(logic: Keyword, filters: seq<Tree>)

  const AllowedFields: set<string> := {"state", "rwa_category", "total_assets", "expected_apy", "maturity_date"}
  const MaxDepth := 3

  // ------------------------------------------------------------- validation

  function Depth(t: Tree): (d: nat)
    ensures d >= 1
  {
    match t
    case Leaf(_, _, _) => 1
    case Node(_, filters) => if filters == [] then 1 else 1 + DeepestOf(filters)
  }

  function DeepestOf(ts: seq<Tree>): nat {
    if ts == [] then 0 else Max(Depth(ts[0]), DeepestOf(ts[1..]))
  }

  datatype Invalid = TooDeep | UnknownField | UnknownOperator | NotAnArray | UnknownLogic | NoFilters

  function ValidateFilterTree(t: Tree, depth: nat): Option<Invalid> {
    if depth >= MaxDepth then Some(TooDeep)
    else match t
         case Leaf(field, op, operand) =>
           if field !in AllowedFields then Some(UnknownField)
           else if op.Unsupported? then Some(UnknownOperator)
           else if op.In? && !operand.List? then Some(NotAnArray)
           else None
         case Node(logic, filters) =>
           if logic != AND && logic != OR then Some(UnknownLogic)
           else if filters == [] then Some(NoFilters)
           else ValidateAll(filters, depth + 1)
  }

  function ValidateAll(ts: seq<Tree>, depth: nat): Option<Invalid> {
    if ts == [] then None
    else match ValidateFilterTree(ts[0], depth)
         case Some(error) => Some(error)
         case None => ValidateAll(ts[1..], depth)
  }

  // A tree of any depth built from known fields, operators and logic.
  predicate WellFormed(t: Tree) {
    match t
    case Leaf(field, op, operand) => field in AllowedFields && Compilable(t)
    case Node(logic, filters) =>
      (logic == AND || logic == OR) && filters != [] && forall i :: 0 <= i < |filters| ==> WellFormed(filters[i])
  }

  // The translation throws for any other leaf.
  predicate Compilable(t: Tree) {
    match t
    case Leaf(_, op, operand) => op.Scalar? || (op.In? && operand.List?)
    case Node(_, filters) => forall i :: 0 <= i < |filters| ==> Compilable(filters[i])
  }

  // What validation accepts: well-formed trees of depth at most three.
  lemma {:induction false} ValidIff(t: Tree, depth: nat)
    ensures ValidateFilterTree(t, depth).None? <==> WellFormed(t) && Depth(t) + depth <= MaxDepth
    decreases t
  {
    if t.Node? && depth < MaxDepth {
      AllValidIff(t.filters, depth + 1);
    }
  }

  lemma {:induction false} AllValidIff(ts: seq<Tree>, depth: nat)
    requires depth <= MaxDepth
    ensures ValidateAll(ts, depth).None?
      <==> (forall i :: 0 <= i < |ts| ==> WellFormed(ts[i])) && DeepestOf(ts) + depth <= MaxDepth
    decreases ts
  {
    if ts != [] {
      ValidIff(ts[0], depth);
      AllValidIff(ts[1..], depth);
      assert forall i :: 0 < i < |ts| ==> ts[i] == ts[1..][i - 1];
    }
  }

  // What is wrong with a node by itself, on its level below the root.
  function NodeError(t: Tree, level: nat): Option<Invalid> {
    if level > 2 then Some(TooDeep)
    else match t
         case Leaf(field, op, operand) =>
           if field != "state" && field != "rwa_category" && field != "total_assets" && field != "expected_apy"
              && field != "maturity_date"
           then Some(UnknownField)
           else (match op
                 case Unsupported(_) => Some(UnknownOperator)
                 case In => if operand.List? then None else Some(NotAnArray)
                 case Scalar(_) => None)
         case Node(logic, filters) =>
           if logic == AND || logic == OR then if |filters| == 0 then Some(NoFilters) else None else Some(UnknownLogic)
  }

  // The nodes from the root down, each before its filters, with their levels.
  function Preorder(t: Tree, level: nat): seq<(Tree, nat)> {
    [(t, level)] + if t.Node? then PreorderOf(t.filters, level + 1) else []
  }

  function PreorderOf(ts: seq<Tree>, level: nat): seq<(Tree, nat)> {
    if ts == [] then [] else Preorder(ts[0], level) + PreorderOf(ts[1..], level)
  }

  function FirstError(nodes: seq<(Tree, nat)>): Option<Invalid> {
    if nodes == [] then None
    else if NodeError(nodes[0].0, nodes[0].1).Some? then NodeError(nodes[0].0, nodes[0].1)
    else FirstError(nodes[1..])
  }

  lemma {:induction false} FirstErrorConcat(a: seq<(Tree, nat)>, b: seq<(Tree, nat)>)
    ensures FirstError(a + b) == if FirstError(a).Some? then FirstError(a) else FirstError(b)
  {
    if a == [] {
      assert a + b == b;
    } else {
      assert (a + b)[1..] == a[1..] + b;
      FirstErrorConcat(a[1..], b);
    }
  }

  // Validation reports what is wrong with the first offending node.
  lemma {:induction false} ReportsFirstError(t: Tree, level: nat)
    ensures ValidateFilterTree(t, level) == FirstError(Preorder(t, level))
    decreases t
  {
    if t.Node? {
      FirstErrorConcat([(t, level)], PreorderOf(t.filters, level + 1));
      if NodeError(t, level).None? {
        ReportsFirstOf(t.filters, level + 1);
      }
    }
    assert FirstError([(t, level)]) == NodeError(t, level);
  }

  lemma {:induction false} ReportsFirstOf(ts: seq<Tree>, level: nat)
    ensures ValidateAll(ts, level) == FirstError(PreorderOf(ts, level))
    decreases ts
  {
    if ts != [] {
      ReportsFirstError(ts[0], level);
      ReportsFirstOf(ts[1..], level);
      FirstErrorConcat(Preorder(ts[0], level), PreorderOf(ts[1..], level));
    }
  }

  // ------------------------------------------------------------ translation

  // The values bound, in order.
  function Values(t: Tree): seq<Operand> {
    match t
    case Leaf(_, op, operand) =>
      if op.Scalar? then [operand]
      else if op.In? && operand.List? then operand.values
      else []
    case Node(_, filters) => ValuesOf(filters)
  }

  function ValuesOf(ts: seq<Tree>): seq<Operand> {
    if ts == [] then [] else Values(ts[0]) + ValuesOf(ts[1..])
  }

  // $start, $start+1, … separated by commas.
  function ParamList(start: nat, n: nat): seq<Token>
    decreases n
  {
    if n == 0 then []
    else if n == 1 then [Param(start, NoCast)]
    else [Param(start, NoCast), Comma] + ParamList(start + 1, n - 1)
  }

  function InList(start: nat, n: nat): seq<Token> {
    [Word(ARRAY), OpenBracket] + ParamList(start, n) + [CloseBracket, Close]
  }

  // The fragment emitted for a tree whose first placeholder is $start.
  function Fragment(t: Tree, start: nat): seq<Token> {
    match t
    case Leaf(field, op, operand) =>
      if op.Scalar? then [Column(field), Operator(op.cmp), Param(start, NoCast)]
      else [Column(field), Operator(Eq), Word(ANY), Open] + InList(start, |Values(t)|)
    case Node(logic, filters) => [Open] + Join(Fragments(filters, start), logic) + [Close]
  }

  function Fragments(ts: seq<Tree>, start: nat): (r: seq<seq<Token>>)
    ensures |r| == |ts|
  {
    if ts == [] then [] else [Fragment(ts[0], start)] + Fragments(ts[1..], start + |Values(ts[0])|)
  }

  // The shared array of bound values.
  class Bindings {
    var params: seq<Operand>

    constructor ()
      ensures params == []
    {
      params := [];
    }

    method Push(value: Operand)
      modifies this
      ensures params == old(params) + [value]
    {
      params := params + [value];
    }

    // The fragment and the next free index; None where the source throws.
    method ApplyFilterTree(node: Tree, startIdx: nat) returns (r: Option<(seq<Token>, nat)>)
      modifies this
      ensures r.Some? <==> Compilable(node)
      ensures r.Some? ==> r.value == (Fragment(node, startIdx), startIdx + |Values(node)|)
      ensures r.Some? ==> params == old(params) + Values(node)
      decreases node
    {
      if node.Leaf? {
        r := ApplyLeaf(node, startIdx);
        return;
      }
      var filters := node.filters;
      var parts: seq<seq<Token>> := [];
      var idx: nat := startIdx;
      for i := 0 to |filters|
        invariant forall j :: 0 <= j < i ==> Compilable(filters[j])
        invariant Fragments(filters, startIdx) == parts + Fragments(filters[i..], idx)
        invariant old(params) + ValuesOf(filters) == params + ValuesOf(filters[i..])
        invariant startIdx + |ValuesOf(filters)| == idx + |ValuesOf(filters[i..])|
      {
        NextFilter(parts, params, filters, i, idx);
        var result := ApplyFilterTree(filters[i], idx);
        if result.None? {
          return None;
        }
        parts := parts + [result.value.0];
        idx := result.value.1;
      }
      assert filters[|filters|..] == [] && parts == Fragments(filters, startIdx);
      r := Some(([Open] + Join(parts, node.logic) + [Close], idx));
    }

    method ApplyLeaf(node: Tree, startIdx: nat) returns (r: Option<(seq<Token>, nat)>)
      requires node.Leaf?
      modifies this
      ensures r.Some? <==> Compilable(node)
      ensures r.Some? ==> r.value == (Fragment(node, startIdx), startIdx + |Values(node)|)
      ensures r.Some? ==> params == old(params) + Values(node)
    {
      if node.op.Scalar? {
        Push(node.operand);
        return Some(([Column(node.field), Operator(node.op.cmp), Param(startIdx, NoCast)], startIdx + 1));
      }
      if !node.op.In? || !node.operand.List? {
        return None;
      }
      var values := node.operand.values;
      var placeholders := Placeholders(startIdx, |values|);
      PushAll(values);
      var list := [Word(ARRAY), OpenBracket] + placeholders + [CloseBracket, Close];
      r := Some(([Column(node.field), Operator(Eq), Word(ANY), Open] + list, startIdx + |values|));
    }

    method PushAll(values: seq<Operand>)
      modifies this
      ensures params == old(params) + values
    {
      for i := 0 to |values|
        invariant params == old(params) + values[..i]
      {
        Push(values[i]);
        assert values[..i + 1] == values[..i] + [values[i]];
      }
      assert values[..|values|] == values;
    }

    static method Placeholders(start: nat, n: nat) returns (list: seq<Token>)
      ensures list == ParamList(start, n)
    {
      list := [];
      for i := n downto 0
        invariant list == ParamList(start + i, n - i)
      {
        list := if i == n - 1 then [Param(start + i, NoCast)] else [Param(start + i, NoCast), Comma] + list;
      }
    }
  }

  lemma NextFilter(parts: seq<seq<Token>>, bound: seq<Operand>, ts: seq<Tree>, i: nat, idx: nat)
    requires i < |ts|
    ensures var values := Values(ts[i]);
            parts + Fragments(ts[i..], idx) == parts + [Fragment(ts[i], idx)] + Fragments(ts[i + 1..], idx + |values|)
            && bound + ValuesOf(ts[i..]) == bound + values + ValuesOf(ts[i + 1..])
            && |ValuesOf(ts[i..])| == |values| + |ValuesOf(ts[i + 1..])|
  {
    assert ts[i..][0] == ts[i] && ts[i..][1..] == ts[i + 1..];
  }

  // ---------------------------------------------------------------- meaning

  // Two-valued: a comparison with NULL does not hold.
  predicate Holds(t: Tree, row: Row, compare: Comparator) {
    match t
    case Leaf(field, op, operand) =>
      field in row
      && (if op.Scalar? then compare(field, op.cmp, row[field], operand)
          else operand.List? && exists i :: 0 <= i < |operand.values| && compare(field, Eq, row[field], operand.values[i]))
    case Node(logic, filters) =>
      if logic == AND then forall i :: 0 <= i < |filters| ==> Holds(filters[i], row, compare)
      else exists i :: 0 <= i < |filters| && Holds(filters[i], row, compare)
  }

  // No `in` leaf has an empty list.
  predicate ListsFilled(t: Tree) {
    match t
    case Leaf(_, op, operand) => op.In? ==> operand.List? && operand.values != []
    case Node(_, filters) => forall i :: 0 <= i < |filters| ==> ListsFilled(filters[i])
  }

  function Numbers(start: nat, n: nat): (r: seq<nat>)
    ensures |r| == n && forall i :: 0 <= i < n ==> r[i] == start + i
    decreases n
  {
    if n == 0 then [] else [start] + Numbers(start + 1, n - 1)
  }

  // The expression the fragment is read as; None when it is refused.
  function Meaning(t: Tree, start: nat): Option<Expr> {
    match t
    case Leaf(field, op, operand) =>
      if op.Scalar? then Some(Compare(field, op.cmp, start))
      else if Values(t) == [] then None
      else Some(InArray(field, Numbers(start, |Values(t)|)))
    case Node(logic, filters) =>
      match Collect(Meanings(filters, start))
      case None => None
      case Some(es) => Some(Or(if logic == AND then [And(es)] else Singles(es)))
  }

  function Meanings(ts: seq<Tree>, start: nat): (r: seq<Option<Expr>>)
    ensures |r| == |ts|
  {
    if ts == [] then [] else [Meaning(ts[0], start)] + Meanings(ts[1..], start + |Values(ts[0])|)
  }

  lemma {:induction false} ParamsRead(start: nat, n: nat, rest: seq<Token>)
    requires rest != [] && !rest[0].Param? && rest[0] != Comma
    ensures ParseParams(ParamList(start, n) + rest) == if n == 0 then Failed else Got(Numbers(start, n), rest)
    decreases n
  {
    if n == 1 {
      assert Numbers(start, 1) == [start];
      assert ([Param(start, NoCast)] + rest)[1..] == rest;
    } else if n > 1 {
      ParamsRead(start + 1, n - 1, rest);
      var more := ParamList(start + 1, n - 1) + rest;
      assert ParamList(start, n) + rest == [Param(start, NoCast), Comma] + more;
      assert ([Param(start, NoCast), Comma] + more)[2..] == more;
    }
  }

  lemma ScalarReads(field: string, op: Cmp, k: nat)
    ensures Reads([Column(field), Operator(op), Param(k, NoCast)], Some(Compare(field, op, k)))
  {
    var p := [Column(field), Operator(op), Param(k, NoCast)];
    forall rest: seq<Token> ensures ParsePrimary(p + rest) == Got(Compare(field, op, k), rest) {
      assert (p + rest)[3..] == rest;
    }
  }

  lemma ArrayReads(field: string, start: nat, n: nat)
    ensures var p := [Column(field), Operator(Eq), Word(ANY), Open] + InList(start, n);
            Reads(p, if n == 0 then None else Some(InArray(field, Numbers(start, n))))
  {
    var p := [Column(field), Operator(Eq), Word(ANY), Open] + InList(start, n);
    var e := if n == 0 then None else Some(InArray(field, Numbers(start, n)));
    forall rest: seq<Token> ensures ParsePrimary(p + rest) == if e.Some? then Got(e.value, rest) else Failed {
      var after := [CloseBracket, Close] + rest;
      ParamsRead(start, n, after);
      ArrayComparison(field, p + rest, ParamList(start, n) + after);
      assert after[2..] == rest;
    }
  }

  lemma ArrayComparison(field: string, ts: seq<Token>, list: seq<Token>)
    requires ts == [Column(field), Operator(Eq), Word(ANY), Open, Word(ARRAY), OpenBracket] + list
    ensures ParsePrimary(ts) == match ParseParams(list)
                                case Failed => Failed
                                case Got(ks, rest) =>
                                  if |rest| >= 2 && rest[0] == CloseBracket && rest[1] == Close then Got(InArray(field, ks), rest[2..])
                                  else Failed
  {
    assert ts[6..] == list;
    assert ts[1].op == Eq && ts[2] == Word(ANY) && ts[4] == Word(ARRAY);
  }

  lemma LeafReads(t: Tree, start: nat)
    requires t.Leaf? && Compilable(t)
    ensures Reads(Fragment(t, start), Meaning(t, start))
  {
    if t.op.Scalar? {
      ScalarReads(t.field, t.op.cmp, start);
    } else {
      ArrayReads(t.field, start, |Values(t)|);
    }
  }

  // The parser reads back exactly the fragment, whatever follows it; it
  // refuses it exactly when some `in` list is empty.
  lemma {:induction false} FragmentReads(t: Tree, start: nat)
    requires WellFormed(t)
    ensures Reads(Fragment(t, start), Meaning(t, start))
    decreases t
  {
    if t.Leaf? {
      LeafReads(t, start);
    } else {
      FragmentsRead(t.filters, start);
      var ps, es := Fragments(t.filters, start), Meanings(t.filters, start);
      var p := Fragment(t, start);
      JoinBegins(ps, es, t.logic);
      forall rest: seq<Token>
        ensures ParsePrimary(p + rest) == if Meaning(t, start).Some? then Got(Meaning(t, start).value, rest) else Failed
      {
        ParenthesisRead(ps, es, t.logic, rest);
        assert p + rest == [Open] + (Join(ps, t.logic) + ([Close] + rest));
      }
    }
  }

  lemma JoinBegins(ps: seq<seq<Token>>, es: seq<Option<Expr>>, logic: Keyword)
    requires AllRead(ps, es) && ps != []
    ensures |Join(ps, logic)| >= 2 && !StartsRow(Join(ps, logic))
  {
    assert Reads(ps[0], es[0]);
    assert |Join(ps, logic)| >= |ps[0]| && Join(ps, logic)[..|ps[0]|] == ps[0];
    assert Join(ps, logic)[0] == ps[0][0] && Join(ps, logic)[1] == ps[0][1];
  }

  lemma ParenthesisRead(ps: seq<seq<Token>>, es: seq<Option<Expr>>, logic: Keyword, rest: seq<Token>)
    requires AllRead(ps, es) && ps != [] && (logic == AND || logic == OR)
    ensures var all := Collect(es);
            ParsePrimary([Open] + (Join(ps, logic) + ([Close] + rest)))
            == if all.Some? then Got(Or(if logic == AND then [And(all.value)] else Singles(all.value)), rest) else Failed
  {
    var after := [Close] + rest;
    var inner := Join(ps, logic) + after;
    assert ([Open] + inner)[1..] == inner;
    JoinBegins(ps, es, logic);
    assert !StartsRow(inner);
    assert after[1..] == rest;
    if logic == AND {
      JoinedByAnd(ps, es, after);
    } else {
      JoinedByOr(ps, es, after);
    }
  }

  lemma {:induction false} FragmentsRead(ts: seq<Tree>, start: nat)
    requires forall i :: 0 <= i < |ts| ==> WellFormed(ts[i])
    ensures AllRead(Fragments(ts, start), Meanings(ts, start))
    decreases ts
  {
    if ts != [] {
      FragmentReads(ts[0], start);
      FragmentsRead(ts[1..], start + |Values(ts[0])|);
    }
  }

  // ------------------------------------------------- the meaning is the tree

  // The parameters hold the tree's values from $start on.
  ghost predicate Supplied(values: seq<Operand>, params: seq<Operand>, start: nat) {
    forall k: nat {:trigger Bound(params, k)} :: start <= k < start + |values| ==> Bound(params, k) == Some(values[k - start])
  }

  lemma SuppliedSplit(a: seq<Operand>, b: seq<Operand>, params: seq<Operand>, start: nat)
    requires Supplied(a + b, params, start)
    ensures Supplied(a, params, start) && Supplied(b, params, start + |a|)
  {
    forall k: nat | start <= k < start + |a| ensures Bound(params, k) == Some(a[k - start]) {
      assert a[k - start] == (a + b)[k - start];
    }
    forall k: nat | start + |a| <= k < start + |a| + |b| ensures Bound(params, k) == Some(b[k - start - |a|]) {
      assert b[k - start - |a|] == (a + b)[k - start];
    }
  }

  lemma LeafMeaning(t: Tree, start: nat, params: seq<Operand>, row: Row, compare: Comparator)
    requires t.Leaf? && Compilable(t) && Supplied(Values(t), params, start)
    ensures Meaning(t, start).Some? <==> ListsFilled(t)
    ensures Meaning(t, start).Some? ==>
              (Eval(Meaning(t, start).value, params, row, compare) == True <==> Holds(t, row, compare))
  {
    var values := Values(t);
    if t.op.Scalar? {
      assert Bound(params, start) == Some(values[0]);
    } else if values != [] && t.field in row {
      var ks := Numbers(start, |values|);
      var operands := Bounds(params, ks);
      forall i | 0 <= i < |values| ensures operands[i] == Some(values[i]) {
        assert Bound(params, start + i) == Some(values[i]);
      }
      AnyEqualTrueIff(t.field, row[t.field], operands, compare);
      assert forall i :: 0 <= i < |values| ==>
        (CompareTo(t.field, Eq, row[t.field], operands[i], compare) == True <==> compare(t.field, Eq, row[t.field], values[i]));
    }
  }

  // Three-valued TRUE of the meaning is two-valued truth of the tree.
  lemma {:induction false} MeaningHolds(t: Tree, start: nat, params: seq<Operand>, row: Row, compare: Comparator)
    requires WellFormed(t) && Supplied(Values(t), params, start)
    ensures Meaning(t, start).Some? <==> ListsFilled(t)
    ensures Meaning(t, start).Some? ==>
              (Eval(Meaning(t, start).value, params, row, compare) == True <==> Holds(t, row, compare))
    decreases t
  {
    if t.Leaf? {
      LeafMeaning(t, start, params, row, compare);
    } else {
      MeaningsHold(t.filters, start, params, row, compare);
      var all := Collect(Meanings(t.filters, start));
      if all.Some? {
        NodeTruth(t.logic, all.value, params, row, compare);
      }
    }
  }

  lemma NodeTruth(logic: Keyword, es: seq<Expr>, params: seq<Operand>, row: Row, compare: Comparator)
    ensures Eval(Or(if logic == AND then [And(es)] else Singles(es)), params, row, compare) == True
      <==> if logic == AND then forall i :: 0 <= i < |es| ==> Eval(es[i], params, row, compare) == True
           else exists i :: 0 <= i < |es| && Eval(es[i], params, row, compare) == True
  {
    if logic == AND {
      AndTrueIffAll(es, params, row, compare);
      OrTrueIffSome([And(es)], params, row, compare);
      assert [And(es)][0] == And(es);
    } else {
      OrTrueIffSome(Singles(es), params, row, compare);
      forall i | 0 <= i < |es|
        ensures Eval(Singles(es)[i], params, row, compare) == True <==> Eval(es[i], params, row, compare) == True
      {
        AndTrueIffAll([es[i]], params, row, compare);
        assert [es[i]][0] == es[i];
      }
    }
  }

  lemma {:induction false} MeaningsHold(ts: seq<Tree>, start: nat, params: seq<Operand>, row: Row, compare: Comparator)
    requires forall i :: 0 <= i < |ts| ==> WellFormed(ts[i])
    requires Supplied(ValuesOf(ts), params, start)
    ensures forall i :: 0 <= i < |ts| ==> (Meanings(ts, start)[i].Some? <==> ListsFilled(ts[i]))
    ensures forall i :: 0 <= i < |ts| && Meanings(ts, start)[i].Some? ==>
              (Eval(Meanings(ts, start)[i].value, params, row, compare) == True <==> Holds(ts[i], row, compare))
    decreases ts
  {
    if ts != [] {
      SuppliedSplit(Values(ts[0]), ValuesOf(ts[1..]), params, start);
      MeaningHolds(ts[0], start, params, row, compare);
      MeaningsHold(ts[1..], start + |Values(ts[0])|, params, row, compare);
      assert forall i :: 0 < i < |ts| ==> ts[i] == ts[1..][i - 1];
    }
  }

  // A valid tree's fragment is accepted exactly when no `in` list is empty,
  // and then it selects exactly the rows the tree holds of.
  lemma FragmentMeansTree(t: Tree, start: nat, params: seq<Operand>, row: Row, compare: Comparator)
    requires ValidateFilterTree(t, 0).None? && Supplied(Values(t), params, start)
    ensures var e := Parse(Fragment(t, start));
            (e.Some? <==> ListsFilled(t))
            && (e.Some? ==> (Eval(e.value, params, row, compare) == True <==> Holds(t, row, compare)))
  {
    ValidIff(t, 0);
    FragmentReads(t, start);
    MeaningHolds(t, start, params, row, compare);
    var p, e := Fragment(t, start), Meaning(t, start);
    assert AllRead([p], [e]);
    JoinedByOr([p], [e], []);
    CollectOne([e]);
    assert Join([p], OR) + [] == p;
    if e.Some? {
      NodeTruth(OR, [e.value], params, row, compare);
    }
  }

  // The parentheses carry the meaning: the same tokens without them are read
  // as a OR (b AND c), and select a row that (a OR b) AND c does not hold of.
  lemma ParenthesesAreNeeded()
    ensures var a, b := Leaf("state", Scalar(Eq), Text("Active")), Leaf("state", Scalar(Eq), Text("Funding"));
            var c := Leaf("expected_apy", Scalar(Gt), Number(5.0));
            var flat := Fragment(a, 1) + [Word(OR)] + Fragment(b, 2) + [Word(AND)] + Fragment(c, 3);
            var row := map["state" := Text("Active"), "expected_apy" := Number(1.0)];
            var compare := (f: string, op: Cmp, x: Operand, y: Operand) => op == Eq && x == y;
            !Holds(Node(AND, [Node(OR, [a, b]), c]), row, compare)
            && Parse(flat).Some? && Eval(Parse(flat).value, [Text("Active"), Text("Funding"), Number(5.0)], row, compare) == True
  {
    var a, b := Leaf("state", Scalar(Eq), Text("Active")), Leaf("state", Scalar(Eq), Text("Funding"));
    var c := Leaf("expected_apy", Scalar(Gt), Number(5.0));
    var row := map["state" := Text("Active"), "expected_apy" := Number(1.0)];
    var compare := (f: string, op: Cmp, x: Operand, y: Operand) => op == Eq && x == y;
    assert !Holds([Node(OR, [a, b]), c][1], row, compare);
    FlatIsRead(a, b, c);
    var parts := [And([Meaning(a, 1).value]), And([Meaning(b, 2).value, Meaning(c, 3).value])];
    var params := [Text("Active"), Text("Funding"), Number(5.0)];
    assert Bound(params, 1) == Some(Text("Active"));
    AndTrueIffAll([Meaning(a, 1).value], params, row, compare);
    assert Eval(parts[0], params, row, compare) == True;
    OrTrueIffSome(parts, params, row, compare);
  }

  lemma FlatIsRead(a: Tree, b: Tree, c: Tree)
    requires forall t :: t in [a, b, c] ==> t.Leaf? && t.op.Scalar?
    ensures Parse(Fragment(a, 1) + [Word(OR)] + Fragment(b, 2) + [Word(AND)] + Fragment(c, 3))
         == Some(Or([And([Meaning(a, 1).value]), And([Meaning(b, 2).value, Meaning(c, 3).value])]))
  {
    assert a in [a, b, c] && b in [a, b, c] && c in [a, b, c];
    LeafReads(a, 1);
    LeafReads(b, 2);
    LeafReads(c, 3);
    AndBindsTighter(Fragment(a, 1), Fragment(b, 2), Fragment(c, 3),
                    Meaning(a, 1).value, Meaning(b, 2).value, Meaning(c, 3).value);
  }
}
