/** The `symbol IN (...)` list of the stocks and companies queries. The handler
    splices Python's repr of `tuple(tickers)` into the SQL text; for a single
    ticker that repr carries a trailing comma, which SQL does not accept. */
module Sql {

  /** The SQL text at the token level; quoting of the symbols is abstracted away. */
  datatype Token = LParen | RParen | Comma | Literal(text: string)

  /** The items separated by commas, no comma after the last. */
  function Separated(items: seq<string>): (ts: seq<Token>)
    ensures |items| > 0 ==> |ts| > 0
    ensures forall s :: Literal(s) in ts <==> s in items
    ensures LParen !in ts && RParen !in ts
  {
    if items == [] then []
    else if |items| == 1 then [Literal(items[0])]
    else [Literal(items[0]), Comma] + Separated(items[1..])
  }

  /** Python's repr of `tuple(items)` as written into the query: a one-element
      tuple is rendered with a trailing comma, `('SAP.DE',)`. */
  function TupleRepr(items: seq<string>): seq<Token>
  {
    [LParen] + Separated(items) + (if |items| == 1 then [Comma] else []) + [RParen]
  }

  /** SQL's list of expressions: literals separated by single commas. */
  predicate IsExprList(ts: seq<Token>)
  {
    if |ts| == 1 then ts[0].Literal?
    else |ts| >= 3 && ts[0].Literal? && ts[1] == Comma && IsExprList(ts[2..])
  }

  /** The parenthesised right-hand side of IN that SQLite accepts: `()` or a
      parenthesised expression list. */
  predicate IsInList(ts: seq<Token>)
  {
    |ts| >= 2 && ts[0] == LParen && ts[|ts| - 1] == RParen
    && (|ts| == 2 || IsExprList(ts[1..|ts| - 1]))
  }

  /** A symbol is selected when it is one of the list's literals. */
  predicate Selects(ts: seq<Token>, s: string)
  {
    Literal(s) in ts
  }

  /** As written: a universe of exactly one ticker produces a list SQL rejects,
      so the query raises instead of returning that ticker's bars. */
  lemma SingletonTupleRejected(x: string)
    ensures !IsInList(TupleRepr([x]))
  {
    var ts := TupleRepr([x]);
    assert ts == [LParen, Literal(x), Comma, RParen];
    assert ts[1..|ts| - 1] == [Literal(x), Comma];
  }

  lemma {:induction false} SeparatedIsExprList(items: seq<string>)
    ensures |items| > 0 ==> IsExprList(Separated(items))
  {
    if |items| > 1 {
      SeparatedIsExprList(items[1..]);
      var ts := Separated(items);
      assert ts[2..] == Separated(items[1..]);
    }
  }

  /** The intended rendering: the tuple's items with no trailing comma. */
  function InList(items: seq<string>): (ts: seq<Token>)
    ensures IsInList(ts)
    ensures forall s :: Selects(ts, s) <==> s in items
  {
    SeparatedIsExprList(items);
    var ts := [LParen] + Separated(items) + [RParen];
    assert ts[1..|ts| - 1] == Separated(items);
    ts
  }

  /** The repr and the intended list differ only for a single ticker. */
  lemma TupleReprAgreesOtherwise(items: seq<string>)
    requires |items| != 1
    ensures TupleRepr(items) == InList(items)
  {
  }
}
