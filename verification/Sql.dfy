// The part of PostgreSQL's WHERE language that the vault list emits, as
// tokens: its grammar (AND binds tighter than OR, PostgreSQL manual section
// 4.1.6) and its three-valued meaning (section 9.1).
module Sql {
  import opened Common

  datatype Cmp = Eq | Lt | Gt | Le | Ge

  // A bound parameter or a column value.
  datatype Operand =
    | Text(s: string) | Number(x: real) | Count(n: int) | Instant(ms: int) | Micros(us: int)
    | Flag(b: bool)
    | List(values: seq<Operand>)

  datatype Keyword = AND | OR | ANY | ARRAY | FALSE | Other(text: string)

  datatype Cast = NoCast | AsTimestamp | AsNumeric | AsTextArray

  datatype Token =
    | Column(name: string)
    | Operator(op: Cmp)
    | Param(k: nat, cast: Cast)
    | Word(keyword: Keyword)
    | Open
    | Close
    | OpenBracket
    | CloseBracket
    | Comma

  datatype Expr =
    | Compare(field: string, op: Cmp, k: nat)
    | InArray(field: string, ks: seq<nat>)
    | InParam(field: string, k: nat)
    | ParamInColumn(k: nat, field: string)
    | IsFalse(field: string)
    | RowCompare(first: string, second: string, op: Cmp, k1: nat, k2: nat)
    | And(parts: seq<Expr>)
    | Or(parts: seq<Expr>)

  // ---------------------------------------------------------------- grammar

  datatype Read<T> = Failed | Got(value: T, rest: seq<Token>)

  predicate StartsWith(ts: seq<Token>, word: Keyword) {
    ts != [] && ts[0] == Word(word)
  }

  // disjunction ::= conjunction { OR conjunction }
  function ParseOr(ts: seq<Token>): (r: Read<seq<Expr>>)
    ensures r.Got? ==> |r.rest| < |ts|
    decreases |ts|, 2
  {
    match ParseAnd(ts)
    case Failed => Failed
    case Got(parts, rest) =>
      if !StartsWith(rest, OR) then Got([And(parts)], rest)
      else match ParseOr(rest[1..])
           case Failed => Failed
           case Got(others, rest') => Got([And(parts)] + others, rest')
  }

  // conjunction ::= primary { AND primary }
  function ParseAnd(ts: seq<Token>): (r: Read<seq<Expr>>)
    ensures r.Got? ==> |r.rest| < |ts|
    decreases |ts|, 1
  {
    match ParsePrimary(ts)
    case Failed => Failed
    case Got(e, rest) =>
      if !StartsWith(rest, AND) then Got([e], rest)
      else match ParseAnd(rest[1..])
           case Failed => Failed
           case Got(others, rest') => Got([e] + others, rest')
  }

  // primary ::= row comparison | ( disjunction ) | comparison
  function ParsePrimary(ts: seq<Token>): (r: Read<Expr>)
    ensures r.Got? ==> |r.rest| < |ts|
    decreases |ts|, 0
  {
    if ts == [] then Failed
    else if ts[0] != Open then ParseComparison(ts)
    else if StartsRow(ts[1..]) then ParseRow(ts)
    else match ParseOr(ts[1..])
         case Failed => Failed
         case Got(parts, rest) => if rest != [] && rest[0] == Close then Got(Or(parts), rest[1..]) else Failed
  }

  predicate StartsRow(ts: seq<Token>) {
    |ts| >= 2 && ts[0].Column? && ts[1].Comma?
  }

  // ( column , column ) op ( $k , $k )
  function ParseRow(ts: seq<Token>): (r: Read<Expr>)
    ensures r.Got? ==> |r.rest| < |ts|
  {
    if (|ts| >= 11 && ts[0] == Open && ts[1].Column? && ts[2] == Comma && ts[3].Column? && ts[4] == Close
       && ts[5].Operator? && ts[6] == Open && ts[7].Param? && ts[8] == Comma && ts[9].Param? && ts[10] == Close)
    then Got(RowCompare(ts[1].name, ts[3].name, ts[5].op, ts[7].k, ts[9].k), ts[11..])
    else Failed
  }

  // column op $k | column = FALSE | column = ANY(...) | $k = ANY(column)
  function ParseComparison(ts: seq<Token>): (r: Read<Expr>)
    ensures r.Got? ==> |r.rest| < |ts|
  {
    if |ts| < 3 || !ts[1].Operator? then Failed
    else if ts[0].Column? && ts[2].Param? then Got(Compare(ts[0].name, ts[1].op, ts[2].k), ts[3..])
    else if ts[1].op != Eq then Failed
    else if ts[0].Column? && ts[2] == Word(FALSE) then Got(IsFalse(ts[0].name), ts[3..])
    else if ts[2] != Word(ANY) || |ts| < 6 || ts[3] != Open then Failed
    else if ts[0].Param? && ts[4].Column? && ts[5] == Close then Got(ParamInColumn(ts[0].k, ts[4].name), ts[6..])
    else if !ts[0].Column? then Failed
    else if ts[4].Param? && ts[5] == Close then Got(InParam(ts[0].name, ts[4].k), ts[6..])
    else if ts[4] != Word(ARRAY) || ts[5] != OpenBracket then Failed
    else match ParseParams(ts[6..])
         case Failed => Failed
         case Got(ks, rest) =>
           if |rest| >= 2 && rest[0] == CloseBracket && rest[1] == Close then Got(InArray(ts[0].name, ks), rest[2..])
           else Failed
  }

  // $k { , $k }. An ARRAY[] without elements has no type and is refused.
  function ParseParams(ts: seq<Token>): (r: Read<seq<nat>>)
    ensures r.Got? ==> |r.rest| < |ts|
  {
    if ts == [] || !ts[0].Param? then Failed
    else if |ts| == 1 || ts[1] != Comma then Got([ts[0].k], ts[1..])
    else match ParseParams(ts[2..])
         case Failed => Failed
         case Got(ks, rest) => Got([ts[0].k] + ks, rest)
  }

  // The whole text as one condition.
  function Parse(ts: seq<Token>): Option<Expr> {
    match ParseOr(ts)
    case Failed => None
    case Got(parts, rest) => if rest == [] then Some(Or(parts)) else None
  }

  // ---------------------------------------------------------------- meaning

  datatype Truth = True | False | Unknown

  // A column that is not in the map is NULL.
  type Row = map<string, Operand>

  // compare(column, op, its value, operand): the column type's comparison.
  type Comparator = (string, Cmp, Operand, Operand) -> bool

  function Known(b: bool): Truth { if b then True else False }

  function And3(a: Truth, b: Truth): Truth {
    if a == False || b == False then False
    else if a == Unknown || b == Unknown then Unknown
    else True
  }

  function Or3(a: Truth, b: Truth): Truth {
    if a == True || b == True then True
    else if a == Unknown || b == Unknown then Unknown
    else False
  }

  // $k denotes params[k-1]; a number with no parameter denotes nothing.
  function Bound(params: seq<Operand>, k: nat): Option<Operand> {
    if 1 <= k <= |params| then Some(params[k - 1]) else None
  }

  function CompareTo(field: string, op: Cmp, value: Operand, operand: Option<Operand>, compare: Comparator): Truth {
    if operand.None? then Unknown else Known(compare(field, op, value, operand.value))
  }

  function AnyEqual(field: string, value: Operand, operands: seq<Option<Operand>>, compare: Comparator): Truth {
    if operands == [] then False
    else Or3(CompareTo(field, Eq, value, operands[0], compare), AnyEqual(field, value, operands[1..], compare))
  }

  function Somes(values: seq<Operand>): (r: seq<Option<Operand>>)
    ensures |r| == |values| && forall i :: 0 <= i < |r| ==> r[i] == Some(values[i])
  {
    if values == [] then [] else [Some(values[0])] + Somes(values[1..])
  }

  function Bounds(params: seq<Operand>, ks: seq<nat>): (r: seq<Option<Operand>>)
    ensures |r| == |ks| && forall i :: 0 <= i < |r| ==> r[i] == Bound(params, ks[i])
  {
    if ks == [] then [] else [Bound(params, ks[0])] + Bounds(params, ks[1..])
  }

  // (a, b) op (x, y) compares a with x and, only when they are equal, b with y.
  function RowTruth(a: Option<Operand>, b: Option<Operand>, op: Cmp, x: Option<Operand>, y: Option<Operand>,
                    first: string, second: string, compare: Comparator): Truth
  {
    if a.None? || x.None? then Unknown
    else if compare(first, Eq, a.value, x.value) then
      if b.None? then Unknown else CompareTo(second, op, b.value, y, compare)
    else Known(compare(first, op, a.value, x.value))
  }

  function Cell(row: Row, field: string): Option<Operand> {
    if field in row then Some(row[field]) else None
  }

  function Eval(e: Expr, params: seq<Operand>, row: Row, compare: Comparator): Truth {
    match e
    case Compare(field, op, k) =>
      if field !in row then Unknown else CompareTo(field, op, row[field], Bound(params, k), compare)
    case InArray(field, ks) =>
      if field !in row then Unknown else AnyEqual(field, row[field], Bounds(params, ks), compare)
    case InParam(field, k) =>
      var list := Bound(params, k);
      if field !in row || list.None? || !list.value.List? then Unknown
      else AnyEqual(field, row[field], Somes(list.value.values), compare)
    case ParamInColumn(k, field) =>
      var value := Bound(params, k);
      if field !in row || !row[field].List? || value.None? then Unknown
      else AnyEqual(field, value.value, Somes(row[field].values), compare)
    case IsFalse(field) =>
      if field !in row then Unknown else Known(row[field] == Flag(false))
    case RowCompare(first, second, op, k1, k2) =>
      RowTruth(Cell(row, first), Cell(row, second), op, Bound(params, k1), Bound(params, k2), first, second, compare)
    case And(parts) => EvalAnd(parts, params, row, compare)
    case Or(parts) => EvalOr(parts, params, row, compare)
  }

  function EvalAnd(parts: seq<Expr>, params: seq<Operand>, row: Row, compare: Comparator): Truth {
    if parts == [] then True
    else And3(Eval(parts[0], params, row, compare), EvalAnd(parts[1..], params, row, compare))
  }

  function EvalOr(parts: seq<Expr>, params: seq<Operand>, row: Row, compare: Comparator): Truth {
    if parts == [] then False
    else Or3(Eval(parts[0], params, row, compare), EvalOr(parts[1..], params, row, compare))
  }

  lemma {:induction false} AndTrueIffAll(parts: seq<Expr>, params: seq<Operand>, row: Row, compare: Comparator)
    ensures EvalAnd(parts, params, row, compare) == True
      <==> forall i :: 0 <= i < |parts| ==> Eval(parts[i], params, row, compare) == True
  {
    if parts != [] {
      AndTrueIffAll(parts[1..], params, row, compare);
      assert forall i :: 0 < i < |parts| ==> parts[i] == parts[1..][i - 1];
    }
  }

  lemma {:induction false} OrTrueIffSome(parts: seq<Expr>, params: seq<Operand>, row: Row, compare: Comparator)
    ensures EvalOr(parts, params, row, compare) == True
      <==> exists i :: 0 <= i < |parts| && Eval(parts[i], params, row, compare) == True
  {
    if parts != [] {
      OrTrueIffSome(parts[1..], params, row, compare);
      assert forall i :: 0 < i < |parts| ==> parts[i] == parts[1..][i - 1];
    }
  }

  lemma {:induction false} AnyEqualTrueIff(field: string, value: Operand, operands: seq<Option<Operand>>, compare: Comparator)
    ensures AnyEqual(field, value, operands, compare) == True
      <==> exists i :: 0 <= i < |operands| && CompareTo(field, Eq, value, operands[i], compare) == True
  {
    if operands != [] {
      AnyEqualTrueIff(field, value, operands[1..], compare);
      assert forall i :: 0 < i < |operands| ==> operands[i] == operands[1..][i - 1];
    }
  }

  // ------------------------------------------------------------ joined text

  // parts.join(separator)
  function Join(parts: seq<seq<Token>>, word: Keyword): seq<Token> {
    if parts == [] then []
    else if |parts| == 1 then parts[0]
    else parts[0] + [Word(word)] + Join(parts[1..], word)
  }

  // Whatever follows, a primary is read from p and it is e; with None, it is refused.
  ghost predicate Reads(p: seq<Token>, e: Option<Expr>) {
    |p| >= 2 && !StartsRow(p)
    && forall rest :: ParsePrimary(p + rest) == if e.Some? then Got(e.value, rest) else Failed
  }

  ghost predicate AllRead(ps: seq<seq<Token>>, es: seq<Option<Expr>>) {
    |ps| == |es| && forall i :: 0 <= i < |ps| ==> Reads(ps[i], es[i])
  }

  // The expressions, when none was refused.
  function Collect(es: seq<Option<Expr>>): (r: Option<seq<Expr>>)
    ensures r.Some? <==> forall i :: 0 <= i < |es| ==> es[i].Some?
    ensures r.Some? ==> |r.value| == |es| && forall i :: 0 <= i < |es| ==> es[i] == Some(r.value[i])
  {
    if es == [] then Some([])
    else match Collect(es[1..])
         case None => None
         case Some(others) => if es[0].None? then None else Some([es[0].value] + others)
  }

  lemma CollectOne(es: seq<Option<Expr>>)
    requires |es| == 1
    ensures Collect(es) == if es[0].Some? then Some([es[0].value]) else None
  {
    assert Collect(es[1..]) == Some([]);
    if es[0].Some? {
      assert Collect(es).value == [es[0].value];
    }
  }

  predicate EndsHere(rest: seq<Token>) {
    !StartsWith(rest, AND) && !StartsWith(rest, OR)
  }

  lemma AndLast(ts: seq<Token>, e: Expr, rest: seq<Token>)
    requires ParsePrimary(ts) == Got(e, rest) && !StartsWith(rest, AND)
    ensures ParseAnd(ts) == Got([e], rest)
  {}

  lemma AndMore(ts: seq<Token>, e: Expr, tail: seq<Token>, es: seq<Expr>, rest: seq<Token>)
    requires ParsePrimary(ts) == Got(e, [Word(AND)] + tail) && ParseAnd(tail) == Got(es, rest)
    ensures ParseAnd(ts) == Got([e] + es, rest)
  {
    assert ([Word(AND)] + tail)[1..] == tail;
  }

  lemma OrLast(ts: seq<Token>, es: seq<Expr>, rest: seq<Token>)
    requires ParseAnd(ts) == Got(es, rest) && !StartsWith(rest, OR)
    ensures ParseOr(ts) == Got([And(es)], rest)
  {}

  lemma OrMore(ts: seq<Token>, es: seq<Expr>, tail: seq<Token>, others: seq<Expr>, rest: seq<Token>)
    requires ParseAnd(ts) == Got(es, [Word(OR)] + tail) && ParseOr(tail) == Got(others, rest)
    ensures ParseOr(ts) == Got([And(es)] + others, rest)
  {
    assert ([Word(OR)] + tail)[1..] == tail;
  }

  lemma {:induction false} JoinedByAnd(ps: seq<seq<Token>>, es: seq<Option<Expr>>, rest: seq<Token>)
    requires AllRead(ps, es) && ps != [] && !StartsWith(rest, AND)
    ensures var all := Collect(es);
            ParseAnd(Join(ps, AND) + rest) == if all.Some? then Got(all.value, rest) else Failed
  {
    var ts := Join(ps, AND) + rest;
    assert Reads(ps[0], es[0]);
    if |ps| == 1 {
      CollectOne(es);
      assert ts == ps[0] + rest;
    } else {
      var more := Join(ps[1..], AND) + rest;
      assert ts == ps[0] + ([Word(AND)] + more);
      assert ([Word(AND)] + more)[1..] == more;
      JoinedByAnd(ps[1..], es[1..], rest);
      var all := Collect(es[1..]);
      if es[0].Some? && all.Some? {
        AndMore(ts, es[0].value, more, all.value, rest);
      }
    }
  }

  // A conjunction of one.
  function Single(e: Expr): Expr { And([e]) }

  function Singles(es: seq<Expr>): (r: seq<Expr>)
    ensures |r| == |es| && forall i :: 0 <= i < |r| ==> r[i] == Single(es[i])
  {
    if es == [] then [] else [Single(es[0])] + Singles(es[1..])
  }

  lemma {:induction false} JoinedByOr(ps: seq<seq<Token>>, es: seq<Option<Expr>>, rest: seq<Token>)
    requires AllRead(ps, es) && ps != [] && EndsHere(rest)
    ensures var all := Collect(es);
            ParseOr(Join(ps, OR) + rest) == if all.Some? then Got(Singles(all.value), rest) else Failed
  {
    if |ps| == 1 {
      CollectOne(es);
      assert Reads(ps[0], es[0]) && Join(ps, OR) + rest == ps[0] + rest;
      assert ParseAnd(ps[0] + rest) == if es[0].Some? then Got([es[0].value], rest) else Failed;
      if es[0].Some? {
        assert Singles([es[0].value]) == [And([es[0].value])];
      }
    } else {
      var more := Join(ps[1..], OR) + rest;
      assert Join(ps, OR) + rest == ps[0] + ([Word(OR)] + more);
      JoinedByOr(ps[1..], es[1..], rest);
      assert ([Word(OR)] + more)[1..] == more;
    }
  }

  // a OR b AND c is a OR (b AND c).
  lemma AndBindsTighter(a: seq<Token>, b: seq<Token>, c: seq<Token>, x: Expr, y: Expr, z: Expr)
    requires Reads(a, Some(x)) && Reads(b, Some(y)) && Reads(c, Some(z))
    ensures Parse(a + [Word(OR)] + b + [Word(AND)] + c) == Some(Or([And([x]), And([y, z])]))
  {
    var right := b + ([Word(AND)] + c);
    var ts := a + ([Word(OR)] + right);
    ReadsThen(a, x, [Word(OR)] + right);
    ReadsThen(b, y, [Word(AND)] + c);
    ReadsThen(c, z, []);
    assert c + [] == c;
    ThreeRead(ts, right, c, x, y, z);
    Reassociate(a, [Word(OR)], b, [Word(AND)], c);
  }

  lemma Reassociate(a: seq<Token>, x: seq<Token>, b: seq<Token>, y: seq<Token>, c: seq<Token>)
    ensures a + x + b + y + c == a + (x + (b + (y + c)))
  {}

  lemma ReadsThen(p: seq<Token>, e: Expr, rest: seq<Token>)
    requires Reads(p, Some(e))
    ensures ParsePrimary(p + rest) == Got(e, rest)
  {}

  lemma ThreeRead(ts: seq<Token>, right: seq<Token>, last: seq<Token>, x: Expr, y: Expr, z: Expr)
    requires ParsePrimary(ts) == Got(x, [Word(OR)] + right)
    requires ParsePrimary(right) == Got(y, [Word(AND)] + last)
    requires ParsePrimary(last) == Got(z, [])
    ensures Parse(ts) == Some(Or([And([x]), And([y, z])]))
  {
    AndLast(last, z, []);
    AndMore(right, y, last, [z], []);
    assert [y] + [z] == [y, z];
    OrLast(right, [y, z], []);
    AndLast(ts, x, [Word(OR)] + right);
    OrMore(ts, [x], right, [And([y, z])], []);
    assert [And([x])] + [And([y, z])] == [And([x]), And([y, z])];
  }
}
