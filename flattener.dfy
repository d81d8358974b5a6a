/** The expression flattener: turns the condition tree of one WHEN clause into an
    ordered flat token list, one [field, operator, value] triple per leaf, the
    triples joined by the AND/OR connector of the enclosing logical-binary node. */
module Flattener {
  import opened Syntax

  /** visit_expr: dispatch on the node kind. A kind without an arm falls through
      the match and the Python method returns None. */
  function VisitExpr(e: Expr): (r: Result<Flat>)
    decreases e, 1
    ensures r.Err? ==> e.LogicalBinary? || e.ListExpr? || e.InPredicate?
    ensures e.Comparison? || e.IsPredicate? || e.LikePredicate? ==>
              r.Ok? && r.value.TokenList? && |r.value.tokens| == 3
    ensures r.Ok? && r.value.TokenList? ==> |r.value.tokens| % 4 == 3
    ensures r.Ok? && r.value.TokenTuple? ==> e.InList? || e.ListExpr?
  {
    match e
    case Comparison(f, op, operand) => Ok(TokenList(VisitComparison(f, op, operand)))
    case LogicalBinary(_, _, _) => VisitLogicalBinary(e)
    case ListExpr(_) => VisitListExpr(e)
    case InList(items) => Ok(TokenTuple(QuotedItems(items)))
    case InPredicate(_, _, _) => VisitInPredicate(e)
    case IsPredicate(f, isNot, kwd) => Ok(TokenList(VisitIsPredicate(f, isNot, kwd)))
    case LikePredicate(f, isNot, pattern) => Ok(TokenList(VisitLikePredicate(f, isNot, pattern)))
    case NameReference(_) => Ok(NoneValue)
    case Unsupported => Ok(NoneValue)
  }

  /** Python truthiness of a flattening: a non-empty list or tuple. */
  predicate Truthy(v: Flat) {
    match v
    case TokenList(ts) => |ts| > 0
    case TokenTuple(items) => |items| > 0
    case NoneValue => false
  }

  /** The cell a flattening becomes when it is stored as the value of an IN triple. */
  function AsCell(v: Flat): Cell {
    match v
    case TokenList(ts) => Nested(ts)
    case TokenTuple(items) => Tuple(items)
    case NoneValue => Absent
  }

  /** visit_logical_binary_expr: both sides are flattened first. With a truthy left
      side the result is `left + [node_type] + right`, which Python only allows for
      two lists; otherwise it is `right + node_type`, adding a str to a list, a
      tuple or None, which always raises. */
  function VisitLogicalBinary(e: Expr): (r: Result<Flat>)
    requires e.LogicalBinary?
    decreases e, 0
    ensures r.Ok? <==> && VisitExpr(e.left).Ok? && VisitExpr(e.left).value.TokenList?
                       && |VisitExpr(e.left).value.tokens| > 0
                       && VisitExpr(e.right).Ok? && VisitExpr(e.right).value.TokenList?
    ensures VisitExpr(e.left).Err? ==> r == VisitExpr(e.left)
    ensures VisitExpr(e.left).Ok? && VisitExpr(e.right).Err? ==> r == VisitExpr(e.right)
    ensures VisitExpr(e.left).Ok? && VisitExpr(e.right).Ok? && r.Err? ==> r.error == TypeError
    ensures r.Ok? ==> var n := |VisitExpr(e.left).value.tokens|;
                      && r.value.TokenList? && |r.value.tokens| % 4 == 3
                      && |r.value.tokens| == n + 1 + |VisitExpr(e.right).value.tokens|
                      && r.value.tokens[..n] == VisitExpr(e.left).value.tokens
                      && r.value.tokens[n] == Text(e.connector)
                      && r.value.tokens[n + 1..] == VisitExpr(e.right).value.tokens
  {
    var left :- VisitExpr(e.left);
    var right :- VisitExpr(e.right);
    if Truthy(left) && left.TokenList? && right.TokenList? then
      Ok(TokenList(left.tokens + [Text(e.connector)] + right.tokens))
    else
      Err(TypeError)
  }

  /** visit_list_expr: only the first element is flattened; an empty list raises. */
  function VisitListExpr(e: Expr): (r: Result<Flat>)
    requires e.ListExpr?
    decreases e, 0
    ensures |e.elements| == 0 ==> r == Err(IndexError)
    ensures r.Ok? && r.value.TokenList? ==> |r.value.tokens| % 4 == 3
  {
    if |e.elements| == 0 then Err(IndexError)
    else
      assert e.elements[0] in e.elements;
      VisitExpr(e.elements[0])
  }

  /** visit_comparison_expr: the field, the operator verbatim, and the right operand,
      quoted when it is a string literal and raw otherwise. */
  function VisitComparison(field: string, op: string, operand: Literal): (r: seq<Cell>)
    ensures |r| == 3 && r[0] == Text(field) && r[1] == Text(op)
    ensures r[2].Text? <==> operand.StringLiteral?
    ensures operand.StringLiteral? ==> r[2] == Text(Quote(operand.value))
    ensures operand.ScalarLiteral? ==> r[2] == Scalar(operand.text)
  {
    var right := match operand
      case StringLiteral(v) => Text(Quote(v))
      case ScalarLiteral(t) => Scalar(t);
    [Text(field), Text(op), right]
  }

  /** visit_in_predicate_expr: operator `in` or `not in`. A value list that is a name
      reference makes the source read `.values` off it, which raises; any other value
      list is flattened and stored as the third cell, whatever it flattens to. */
  function VisitInPredicate(e: Expr): (r: Result<Flat>)
    requires e.InPredicate?
    decreases e, 0
    ensures r.Ok? <==> !e.valueList.NameReference? && VisitExpr(e.valueList).Ok?
    ensures e.valueList.NameReference? ==> r == Err(AttributeError)
    ensures r.Ok? ==> r.value.TokenList? && |r.value.tokens| == 3
    ensures r.Ok? ==> r.value.tokens[0] == Text(e.field)
    ensures r.Ok? ==> (r.value.tokens[1] == Text("not in") <==> e.isNot)
    ensures r.Ok? ==> (r.value.tokens[1] == Text("in") <==> !e.isNot)
    ensures r.Ok? ==> r.value.tokens[2] == AsCell(VisitExpr(e.valueList).value)
  {
    var cond := if e.isNot then "not in" else "in";
    if e.valueList.NameReference? then Err(AttributeError)
    else
      var values :- VisitExpr(e.valueList);
      Ok(TokenList([Text(e.field), Text(cond), AsCell(values)]))
  }

  /** visit_is_predicate_expr: operator `is` or `is not`; the keyword `null` gives the
      unquoted value NULL, any other keyword is emitted quoted. */
  function VisitIsPredicate(field: string, isNot: bool, kwd: string): (r: seq<Cell>)
    ensures |r| == 3 && r[0] == Text(field)
    ensures r[1] == Text("is not") <==> isNot
    ensures r[1] == Text("is") <==> !isNot
    ensures kwd == "null" ==> r[2] == Text("NULL")
    ensures kwd != "null" ==> r[2] == Text(Quote(kwd))
  {
    var cond := if isNot then "is not" else "is";
    if kwd == "null" then [Text(field), Text(cond), Text("NULL")]
    else [Text(field), Text(cond), Text(Quote(kwd))]
  }

  /** visit_like_predicate_expr: operator `like` or `not like`, the pattern quoted. */
  function VisitLikePredicate(field: string, isNot: bool, pattern: Literal): (r: seq<Cell>)
    ensures |r| == 3 && r[0] == Text(field)
    ensures r[1] == Text("not like") <==> isNot
    ensures r[1] == Text("like") <==> !isNot
    ensures r[2] == Text(Quote(LiteralText(pattern)))
  {
    var cond := if isNot then "not like" else "like";
    [Text(field), Text(cond), Text(Quote(LiteralText(pattern)))]
  }

  /** The tuple visit_in_list_expr builds: every item, as text, in double quotes,
      in list order. */
  function QuotedItems(items: seq<Literal>): (r: seq<string>)
    ensures |r| == |items|
    ensures forall i :: 0 <= i < |items| ==> r[i] == Quote(LiteralText(items[i]))
  {
    if items == [] then []
    else QuotedItems(items[..|items| - 1]) + [Quote(LiteralText(items[|items| - 1]))]
  }

  /** visit_in_list_expr: grows the tuple one quoted item at a time. */
  method VisitInListExpr(items: seq<Literal>) returns (listValues: seq<string>)
    ensures listValues == QuotedItems(items)
  {
    listValues := [];
    for i := 0 to |items|
      invariant listValues == QuotedItems(items[..i])
    {
      assert items[..i + 1][..i] == items[..i];
      listValues := listValues + [Quote(LiteralText(items[i]))];
    }
    assert items[..|items|] == items;
  }

  /** A logical-binary node flattens, when its left side flattens to a non-empty list
      and its right side to a list, to left, connector, right in that order (so its
      length is |left| + 1 + |right|); in every other case the source raises. */
  lemma LogicalBinaryLaw(left: Expr, connector: string, right: Expr)
    ensures var r := VisitExpr(LogicalBinary(left, connector, right));
            r.Ok? <==> (&& VisitExpr(left).Ok? && VisitExpr(left).value.TokenList?
                         && |VisitExpr(left).value.tokens| > 0
                         && VisitExpr(right).Ok? && VisitExpr(right).value.TokenList?)
    ensures var r := VisitExpr(LogicalBinary(left, connector, right));
            r.Ok? ==> && r.value.TokenList?
                      && r.value.tokens == VisitExpr(left).value.tokens + [Text(connector)] + VisitExpr(right).value.tokens
                      && |r.value.tokens| == |VisitExpr(left).value.tokens| + 1 + |VisitExpr(right).value.tokens|
  {
  }

  /** A list expression flattens to the flattening of its first element only. */
  lemma ListExprLaw(elements: seq<Expr>)
    ensures elements == [] ==> VisitExpr(ListExpr(elements)) == Err(IndexError)
    ensures elements != [] ==> VisitExpr(ListExpr(elements)) == VisitExpr(elements[0])
  {
  }

  /** The node a list expression flattens through: the first element, then its first
      element while that is again a list, down to the first node that is not a list
      expression or to an empty list. */
  function FirstOfList(e: Expr): (u: Expr)
    ensures !u.ListExpr? || u.elements == []
  {
    if e.ListExpr? && e.elements != [] then
      assert e.elements[0] in e.elements;
      FirstOfList(e.elements[0])
    else e
  }

  /** A (possibly nested) list expression flattens exactly as the node FirstOfList
      reaches, and raises IndexError iff that is an empty list. */
  lemma {:induction false} ListExprFirst(e: Expr)
    requires e.ListExpr?
    ensures FirstOfList(e).ListExpr? ==> VisitExpr(e) == Err(IndexError)
    ensures !FirstOfList(e).ListExpr? ==> VisitExpr(e) == VisitExpr(FirstOfList(e))
    decreases e
  {
    if e.elements != [] {
      var x := e.elements[0];
      assert x in e.elements;
      assert FirstOfList(e) == FirstOfList(x);
      if x.ListExpr? {
        ListExprFirst(x);
      } else {
        assert FirstOfList(x) == x;
      }
    }
  }

  /** A node kind the dispatch does not know yields None, not an empty token list. */
  lemma UnknownKindYieldsNone(e: Expr)
    requires e.NameReference? || e.Unsupported?
    ensures VisitExpr(e) == Ok(NoneValue)
    ensures !Truthy(VisitExpr(e).value)
  {
  }

  /** IN over a literal list: one triple whose value is the tuple of the list's items,
      same length and order, each double-quoted. */
  lemma InListPredicate(field: string, isNot: bool, items: seq<Literal>)
    ensures var r := VisitExpr(InPredicate(field, isNot, InList(items)));
            && r.Ok? && r.value.TokenList? && |r.value.tokens| == 3
            && r.value.tokens[0] == Text(field)
            && (r.value.tokens[1] == Text("not in") <==> isNot)
            && r.value.tokens[2].Tuple?
            && |r.value.tokens[2].items| == |items|
            && forall i :: 0 <= i < |items| ==> r.value.tokens[2].items[i] == Quote(LiteralText(items[i]))
  {
  }

  /** A leaf of a condition tree: a node that flattens to one triple. */
  predicate IsLeaf(e: Expr) {
    || e.Comparison? || e.IsPredicate? || e.LikePredicate?
    || (e.InPredicate? && !e.valueList.NameReference? && VisitExpr(e.valueList).Ok?)
  }

  /** Leaves joined by logical-binary nodes. */
  predicate ConditionTree(e: Expr) {
    if e.LogicalBinary? then ConditionTree(e.left) && ConditionTree(e.right) else IsLeaf(e)
  }

  /** The leaves of a condition tree, left to right. */
  function Leaves(e: Expr): seq<Expr> {
    if e.LogicalBinary? then Leaves(e.left) + Leaves(e.right) else [e]
  }

  /** The connectors of a condition tree, left to right. */
  function Connectors(e: Expr): seq<string> {
    if e.LogicalBinary? then Connectors(e.left) + [e.connector] + Connectors(e.right) else []
  }

  /** The triple one leaf flattens to. */
  function LeafTriple(e: Expr): (r: seq<Cell>)
    requires IsLeaf(e)
    ensures |r| == 3
  {
    VisitExpr(e).value.tokens
  }

  /** Positions in `lt + [c] + rt` left of the joining connector are those of lt. */
  lemma JoinedLeft(lt: seq<Cell>, c: Cell, rt: seq<Cell>, j: nat)
    requires 4 * j + 3 <= |lt|
    ensures (lt + [c] + rt)[4 * j .. 4 * j + 3] == lt[4 * j .. 4 * j + 3]
    ensures 4 * j + 3 < |lt| ==> (lt + [c] + rt)[4 * j + 3] == lt[4 * j + 3]
  {
  }

  /** When lt holds m triples and m - 1 connectors, triple k of rt and the connector
      after it sit at triple position m + k of `lt + [c] + rt`. */
  lemma JoinedRight(lt: seq<Cell>, c: Cell, rt: seq<Cell>, m: nat, k: nat)
    requires m >= 1 && |lt| == 4 * m - 1 && 4 * k + 3 <= |rt|
    ensures (lt + [c] + rt)[4 * (m + k) .. 4 * (m + k) + 3] == rt[4 * k .. 4 * k + 3]
    ensures 4 * k + 3 < |rt| ==> (lt + [c] + rt)[4 * (m + k) + 3] == rt[4 * k + 3]
  {
    var ts := lt + [c] + rt;
    assert 4 * (m + k) == |lt| + 1 + 4 * k;
    assert ts[|lt| + 1 ..] == rt;
  }

  /** The length law: a tree of m leaves has m - 1 connectors and flattens to a
      list of 4m - 1 tokens; a logical-binary node's list is its left list, its
      connector and its right list. */
  lemma {:induction false} TreeShape(e: Expr)
    requires ConditionTree(e)
    ensures |Leaves(e)| >= 1 && |Connectors(e)| == |Leaves(e)| - 1
    ensures VisitExpr(e).Ok? && VisitExpr(e).value.TokenList?
    ensures |VisitExpr(e).value.tokens| == 4 * |Leaves(e)| - 1
    ensures e.LogicalBinary? ==>
              && VisitExpr(e.left).Ok? && VisitExpr(e.left).value.TokenList?
              && VisitExpr(e.right).Ok? && VisitExpr(e.right).value.TokenList?
              && VisitExpr(e).value.tokens ==
                   VisitExpr(e.left).value.tokens + [Text(e.connector)] + VisitExpr(e.right).value.tokens
  {
    if e.LogicalBinary? {
      TreeShape(e.left);
      TreeShape(e.right);
    } else {
      assert Leaves(e) == [e];
    }
  }

  /** Tokens laid out as the triples xs joined by the connectors cs: triple j at
      positions 4j .. 4j+2 and connector j at 4j+3. */
  predicate Layout(ts: seq<Cell>, xs: seq<seq<Cell>>, cs: seq<string>) {
    && |xs| >= 1 && |ts| == 4 * |xs| - 1 && |cs| == |xs| - 1
    && (forall j :: 0 <= j < |xs| ==> ts[4 * j .. 4 * j + 3] == xs[j])
    && (forall j :: 0 <= j < |cs| ==> ts[4 * j + 3] == Text(cs[j]))
  }

  /** Joining two laid-out token lists with a connector lays out the triples of both
      sides and the connectors of both sides with the new one between them. */
  lemma JoinLayout(lt: seq<Cell>, lx: seq<seq<Cell>>, lc: seq<string>, c: string,
                   rt: seq<Cell>, rx: seq<seq<Cell>>, rc: seq<string>)
    requires Layout(lt, lx, lc) && Layout(rt, rx, rc)
    ensures Layout(lt + [Text(c)] + rt, lx + rx, lc + [c] + rc)
  {
    var ts := lt + [Text(c)] + rt;
    var m := |lx|;
    forall j | 0 <= j < |lx + rx|
      ensures ts[4 * j .. 4 * j + 3] == (lx + rx)[j]
    {
      if j < m {
        JoinedLeft(lt, Text(c), rt, j);
      } else {
        JoinedRight(lt, Text(c), rt, m, j - m);
      }
    }
    forall j | 0 <= j < |lc + [c] + rc|
      ensures ts[4 * j + 3] == Text((lc + [c] + rc)[j])
    {
      if j < m - 1 {
        JoinedLeft(lt, Text(c), rt, j);
      } else if j > m - 1 {
        JoinedRight(lt, Text(c), rt, m, j - m);
      }
    }
  }

  /** The triples the leaves of a condition tree flatten to, left to right. */
  function LeafTriples(e: Expr): seq<seq<Cell>>
    requires ConditionTree(e)
  {
    if e.LogicalBinary? then LeafTriples(e.left) + LeafTriples(e.right)
    else [LeafTriple(e)]
  }

  lemma {:induction false} TreeLayout(e: Expr)
    requires ConditionTree(e)
    ensures VisitExpr(e).Ok? && VisitExpr(e).value.TokenList?
    ensures Layout(VisitExpr(e).value.tokens, LeafTriples(e), Connectors(e))
  {
    TreeShape(e);
    if e.LogicalBinary? {
      TreeLayout(e.left);
      TreeLayout(e.right);
      JoinLayout(VisitExpr(e.left).value.tokens, LeafTriples(e.left), Connectors(e.left), e.connector,
                 VisitExpr(e.right).value.tokens, LeafTriples(e.right), Connectors(e.right));
    } else {
      var ts := VisitExpr(e).value.tokens;
      assert ts[0..3] == ts;
    }
  }

  /** Triple j of a tree is the triple of its leaf j. */
  lemma {:induction false} LeafTriplesAt(e: Expr, j: nat)
    requires ConditionTree(e) && j < |Leaves(e)|
    ensures |LeafTriples(e)| == |Leaves(e)|
    ensures IsLeaf(Leaves(e)[j]) && LeafTriples(e)[j] == LeafTriple(Leaves(e)[j])
  {
    if e.LogicalBinary? {
      var m := |Leaves(e.left)|;
      if j < m {
        LeafTriplesAt(e.left, j);
        TreeShape(e.right);
        LeafTriplesAt(e.right, 0);
      } else {
        LeafTriplesAt(e.right, j - m);
        TreeShape(e.left);
        LeafTriplesAt(e.left, 0);
      }
    }
  }

  /** A tree of m leaves flattens to 4m - 1 tokens: leaf j's triple at positions
      4j .. 4j+2 and connector j at position 4j+3 (so at 3, 7, 11, ...), in source order. */
  lemma FlattenTree(e: Expr)
    requires ConditionTree(e)
    ensures |Leaves(e)| >= 1 && |Connectors(e)| == |Leaves(e)| - 1
    ensures VisitExpr(e).Ok? && VisitExpr(e).value.TokenList?
    ensures |VisitExpr(e).value.tokens| == 4 * |Leaves(e)| - 1
    ensures forall j :: 0 <= j < |Leaves(e)| ==>
              IsLeaf(Leaves(e)[j]) && VisitExpr(e).value.tokens[4 * j .. 4 * j + 3] == LeafTriple(Leaves(e)[j])
    ensures forall j :: 0 <= j < |Connectors(e)| ==>
              VisitExpr(e).value.tokens[4 * j + 3] == Text(Connectors(e)[j])
  {
    TreeShape(e);
    TreeLayout(e);
    forall j | 0 <= j < |Leaves(e)|
      ensures IsLeaf(Leaves(e)[j]) && VisitExpr(e).value.tokens[4 * j .. 4 * j + 3] == LeafTriple(Leaves(e)[j])
    {
      LeafTriplesAt(e, j);
    }
  }
}
