/** A worked compilation: the rule table of
      CASE WHEN a = 'x' THEN '1' WHEN n > 2 AND b IS NOT NULL THEN c END AS out
    row by row. */
module Example {
  import opened Syntax
  import opened Flattener
  import opened RuleRows
  import opened RuleTable
  import opened TableLaws

  const Alias: Option<string> := Some("out")
  const First := WhenClause(Comparison("a", "=", StringLiteral("x")), LiteralResult(StringLiteral("1")))
  const Second := WhenClause(LogicalBinary(Comparison("n", ">", ScalarLiteral("2")), "AND", IsPredicate("b", true, "null")), NameResult("c"))

  const FirstRows: seq<seq<Cell>> := [
    [Text("C"), Text("a"), Text("="), Text("\"x\"")],
    [Text("S"), Text("out"), Text("="), Text("\"1\""), Absent]]
  const SecondRows: seq<seq<Cell>> := [
    [Text("C"), Text("n"), Text(">"), Scalar("2"), Text("AND")],
    [Text("C"), Text("b"), Text("is not"), Text("NULL")],
    [Text("S"), Text("out"), Text("="), Text("c"), Absent]]

  /** The first clause: one condition row holding its triple, then its result row. */
  lemma FirstClause()
    ensures ClauseCells(Alias, First) == Ok(FirstRows)
  {
    assert Quote("x") == "\"x\"" && Quote("1") == "\"1\"";
    var t := [Text("a"), Text("="), Text("\"x\"")];
    var r := FirstRows[1];
    assert VisitExpr(First.condition) == Ok(TokenList(t));
    assert CondRows(t) == [[Text("C")] + t] by {
      assert t[0..Min(4, 3)] == t;
      assert CondRowsFrom(t, 4) == [];
    }
    assert MaxWidth(FirstRows) == 5 by {
      assert FirstRows[..1][..0] == [];
    }
    assert ResultCells(Alias, First.result) == Ok(r);
    assert [Text("C")] + t == FirstRows[0];
    assert CondRows(t) + [r] == FirstRows;
  }

  /** The second clause: seven tokens cut into a row of four and a row of three,
      then its result row. */
  lemma SecondClause()
    ensures ClauseCells(Alias, Second) == Ok(SecondRows)
  {
    var l := [Text("n"), Text(">"), Scalar("2")];
    var g := [Text("b"), Text("is not"), Text("NULL")];
    var t := l + [Text("AND")] + g;
    var r := SecondRows[2];
    assert VisitExpr(Second.condition.left) == Ok(TokenList(l));
    assert VisitExpr(Second.condition.right) == Ok(TokenList(g));
    assert VisitExpr(Second.condition) == Ok(TokenList(t));
    assert CondRows(t) == SecondRows[..2] by {
      assert Window(t, 0) == SecondRows[0];
      assert Window(t, 4) == SecondRows[1];
      assert CondRowsFrom(t, 8) == [];
      assert CondRowsFrom(t, 4) == [SecondRows[1]];
    }
    assert MaxWidth(SecondRows) == 5 by {
      assert SecondRows[..2] == [SecondRows[0], SecondRows[1]];
      assert SecondRows[..2][..1] == [SecondRows[0]];
      assert SecondRows[..2][..1][..0] == [];
      assert MaxWidth([SecondRows[0]]) == 5;
    }
    assert ResultCells(Alias, Second.result) == Ok(r);
    assert CondRows(t) + [r] == SecondRows;
  }

  lemma Frames2()
    ensures Frames(Alias, [First, Second]) == Ok([Stamp(FirstRows, 1), Stamp(SecondRows, 2)])
  {
    FirstClause();
    SecondClause();
    var clauses := [First, Second];
    assert [First][..0] == [];
    assert Frames(Alias, []) == Ok([]);
    assert Frames(Alias, [First]) == Ok([] + [Stamp(FirstRows, 1)]);
    assert [] + [Stamp(FirstRows, 1)] == [Stamp(FirstRows, 1)];
    assert clauses[..|clauses| - 1] == [First];
    assert clauses[|clauses| - 1] == Second;
    assert [Stamp(FirstRows, 1)] + [Stamp(SecondRows, 2)] == [Stamp(FirstRows, 1), Stamp(SecondRows, 2)];
  }

  const Expected: seq<Row> := [
    Row("Regra", 1, 1, "N", Text("C"), Text("a"), Text("="), Text("\"x\""), Absent, Absent, "S"),
    Row("Regra", 1, 2, "N", Text("S"), Text("out"), Text("="), Text("\"1\""), Absent, Absent, "S"),
    Row("Regra", 2, 1, "S", Text("C"), Text("n"), Text(">"), Scalar("2"), Text("AND"), Absent, "S"),
    Row("Regra", 2, 2, "S", Text("C"), Text("b"), Text("is not"), Text("NULL"), Absent, Absent, "S"),
    Row("Regra", 2, 3, "S", Text("S"), Text("out"), Text("="), Text("c"), Absent, Absent, "S")]

  /** The concatenated rows and their sequence numbers: 1, 2 within rule 1 and
      1, 2, 3 within rule 2. */
  lemma SeqNumbers()
    ensures var rows := Concat([Stamp(FirstRows, 1), Stamp(SecondRows, 2)]);
            && rows == Stamp(FirstRows, 1) + Stamp(SecondRows, 2)
            && SeqNo(rows, 0) == 1 && SeqNo(rows, 1) == 2
            && SeqNo(rows, 2) == 1 && SeqNo(rows, 3) == 2 && SeqNo(rows, 4) == 3
  {
    var a := Stamp(FirstRows, 1);
    var b := Stamp(SecondRows, 2);
    var fs := [a, b];
    assert Concat(fs) == a + b by {
      assert fs[..1] == [a];
      assert fs[..1][..0] == [];
      assert Concat(fs[..1]) == [] + a;
      assert [] + a == a;
    }
    assert [] + a == a;
    SeqNoRight([], a, 0, 1);
    SeqNoRight([], a, 1, 1);
    SeqNoLeft(a, b, 0);
    SeqNoLeft(a, b, 1);
    SeqNoRight(a, b, 0, 2);
    SeqNoRight(a, b, 1, 2);
    SeqNoRight(a, b, 2, 2);
  }

  /** The whole table: rule 1 with sequence numbers 1, 2 and else-if flag N, rule 2
      with 1, 2, 3 and flag S; condition rows tagged C, result rows S; the first
      condition row has no connector to fill, so pandas leaves it None. */
  lemma Compiled()
    ensures Compile(Alias, [First, Second]) == Ok(Expected)
  {
    Frames2();
    SeqNumbers();
    var table := Table([Stamp(FirstRows, 1), Stamp(SecondRows, 2)]).value;
    assert |table| == 5;
    assert table[0] == Expected[0];
    assert table[1] == Expected[1];
    assert table[2] == Expected[2];
    assert table[3] == Expected[3];
    assert table[4] == Expected[4];
    assert table == Expected;
  }

  /** A CASE without WHEN clauses concatenates no frames, which raises. */
  lemma NoClauses()
    ensures Compile(Alias, []) == Err(ValueError)
  {
  }

  /** If visit_case runs before visit_alias has set an alias, building the first
      result row raises AttributeError. */
  lemma AliasUnset()
    ensures Compile(None, [First, Second]) == Err(AttributeError)
  {
    assert VisitExpr(First.condition).Ok?;
    assert ClauseCells(None, First) == Err(AttributeError);
    assert [First][..0] == [];
    assert Frames(None, [First]) == Err(AttributeError);
    assert [First, Second][..1] == [First];
  }
}
