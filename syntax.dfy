/** The values the CASE-to-rule-table compiler consumes and produces: the parsed
    expression tree of a CASE expression (as the external SQL parser hands it over),
    the cells of a rule row, and the Python exceptions that abort a compilation. */
module Syntax {

  datatype Option<+T> = None | Some(value: T)

  /** The Python exceptions the compiler can raise; any of them aborts the whole run. */
  datatype Error = TypeError | IndexError | AttributeError | ValueError

  /** A value, or the exception that was raised instead of returning it. */
  datatype Result<+T> = Ok(value: T) | Err(error: Error) {
    predicate IsFailure() {
      Err?
    }

    function PropagateFailure<U>(): Result<U>
      requires Err?
    {
      Err(error)
    }

    function Extract(): T
      requires Ok?
    {
      value
    }
  }

  /** A literal of the parsed tree. A string literal carries its text without the
      quotes; any other literal (a number, a boolean) carries the text `str` gives it. */
  datatype Literal = StringLiteral(value: string) | ScalarLiteral(text: string)

  function LiteralText(l: Literal): string {
    match l
    case StringLiteral(v) => v
    case ScalarLiteral(t) => t
  }

  /** A condition node. One constructor per node kind the flattener dispatches on,
      plus the kinds it has no arm for: a bare name reference and everything else. */
  datatype Expr =
    | Comparison(field: string, op: string, operand: Literal)
    | LogicalBinary(left: Expr, connector: string, right: Expr)
    | ListExpr(elements: seq<Expr>)
    | InList(items: seq<Literal>)
    | InPredicate(field: string, isNot: bool, valueList: Expr)
    | IsPredicate(field: string, isNot: bool, kwd: string)
    | LikePredicate(field: string, isNot: bool, pattern: Literal)
    | NameReference(name: string)
    | Unsupported

  /** The THEN part of a WHEN clause: a NULL literal, a field reference, another
      literal, another node with a `.value` attribute (an IN, IS or LIKE predicate
      has one), given by the text `str` makes of that value, or a result without a
      `.value` attribute. */
  datatype ResultExpr =
    | NullResult
    | NameResult(name: string)
    | LiteralResult(literal: Literal)
    | ValuedResult(valueText: string)
    | OtherResult

  datatype WhenClause = WhenClause(condition: Expr, result: ResultExpr)

  /** One cell of a row: a Python str, the raw value of a non-string literal, a tuple
      of strings (an IN value list), a nested token list, or Python's None (also
      what pandas puts in a column a row does not reach). */
  datatype Cell =
    | Text(s: string)
    | Scalar(raw: string)
    | Tuple(items: seq<string>)
    | Nested(cells: seq<Cell>)
    | Absent

  /** What flattening one node returns: a list of tokens, a tuple of strings (an IN
      value list), or None (a node kind with no flattening rule). */
  datatype Flat = TokenList(tokens: seq<Cell>) | TokenTuple(items: seq<string>) | NoneValue

  /** Wraps a text in one pair of double quotes, as the compiler emits textual values. */
  function Quote(s: string): string {
    "\"" + s + "\""
  }

  predicate IsQuoted(q: string) {
    |q| >= 2 && q[0] == '"' && q[|q| - 1] == '"'
  }

  /** Strips the one pair of quotes Quote adds. */
  function Unquote(q: string): (s: string)
    requires IsQuoted(q)
    ensures |s| == |q| - 2
    ensures Quote(s) == q
  {
    var s := q[1..|q| - 1];
    assert Quote(s) == [q[0]] + s + [q[|q| - 1]];
    assert q == [q[0]] + q[1..|q| - 1] + [q[|q| - 1]];
    s
  }

  /** Quoting is undone by Unquote: every quoted value is wrapped in exactly one pair. */
  lemma QuoteRoundTrip(s: string)
    ensures IsQuoted(Quote(s))
    ensures Unquote(Quote(s)) == s
  {
    var q := Quote(s);
    assert q[1..|q| - 1] == s;
  }
}
