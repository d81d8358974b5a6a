/** The rows of one WHEN clause: the flattened condition cut into windows of four
    tokens, each behind the tag 'C', then the clause's result row, every row stamped
    with the clause's rule id (one clause DataFrame of the source). */
module RuleRows {
  import opened Syntax
  import opened Flattener

  /** Number of columns of a clause DataFrame: tp_regra, nm_campo, tp_operador,
      vl_regra, tp_operador_logico. */
  const FrameWidth := 5

  /** A row of a clause DataFrame: the Python list it was built from (pandas fills
      the columns the list does not reach with None) and its cd_regra. */
  datatype FrameRow = FrameRow(cells: seq<Cell>, ruleId: nat)

  function Min(a: int, b: int): int {
    if a < b then a else b
  }

  /** The condition row the loop of parse_when_result appends at offset i. */
  function Window(cs: seq<Cell>, i: nat): seq<Cell>
    requires i < |cs|
  {
    if |cs| < 3 then [Text("C")] + cs
    else [Text("C")] + cs[i..Min(i + 4, |cs|)]
  }

  /** The condition rows for offsets i, i+4, i+8, ... below |cs|. */
  function CondRowsFrom(cs: seq<Cell>, i: nat): seq<seq<Cell>>
    decreases |cs| - i
  {
    if i >= |cs| then [] else [Window(cs, i)] + CondRowsFrom(cs, i + 4)
  }

  /** All condition rows of a flattened condition. */
  function CondRows(cs: seq<Cell>): seq<seq<Cell>> {
    CondRowsFrom(cs, 0)
  }

  /** The tokens of a list of rows, each row without its leading tag. */
  function TokensOf(rows: seq<seq<Cell>>): seq<Cell> {
    if rows == [] then []
    else (if rows[0] == [] then [] else rows[0][1..]) + TokensOf(rows[1..])
  }

  /** The rows of a clause as Python lists, before the DataFrame is built: the
      condition rows and then the result row. Calling len() on None raises, and so
      does prefixing a tuple with a list once the loop body runs. */
  function WhenCells(cond: Flat, res: seq<Cell>): Result<seq<seq<Cell>>> {
    match cond
    case NoneValue => Err(TypeError)
    case TokenTuple(items) => if |items| == 0 then Ok([res]) else Err(TypeError)
    case TokenList(cs) => Ok(CondRows(cs) + [res])
  }

  /** Stamps every row with the rule id (`df['cd_regra'] = counter`). */
  function Stamp(rows: seq<seq<Cell>>, ruleId: nat): seq<FrameRow> {
    seq(|rows|, i requires 0 <= i < |rows| => FrameRow(rows[i], ruleId))
  }

  /** pd.DataFrame with the five column names accepts a list of rows only when its
      widest row has exactly five cells; shorter rows are padded with None. */
  predicate FitsFrame(rows: seq<seq<Cell>>) {
    MaxWidth(rows) == FrameWidth
  }

  /** The number of cells of the widest row (0 for no rows). */
  function MaxWidth(rows: seq<seq<Cell>>): nat {
    if rows == [] then 0 else Max(MaxWidth(rows[..|rows| - 1]), |rows[|rows| - 1]|)
  }

  function Max(a: nat, b: nat): nat {
    if a < b then b else a
  }

  /** The rows of a clause DataFrame, or the exception building it raises. */
  function FrameCells(cond: Flat, res: seq<Cell>): Result<seq<seq<Cell>>> {
    var cells :- WhenCells(cond, res);
    if FitsFrame(cells) then Ok(cells) else Err(ValueError)
  }

  /** The clause DataFrame parse_when_result returns. */
  function WhenRows(cond: Flat, res: seq<Cell>, counter: nat): Result<seq<FrameRow>> {
    var cells :- FrameCells(cond, res);
    Ok(Stamp(cells, counter))
  }

  /** parse_when_result: the stepped loop over the condition, then the result row. */
  method ParseWhenResult(cond: Flat, res: seq<Cell>, counter: nat) returns (r: Result<seq<FrameRow>>)
    ensures r == WhenRows(cond, res, counter)
  {
    match cond {
      case NoneValue =>
        r := Err(TypeError);
      case TokenTuple(items) =>
        if |items| > 0 {
          r := Err(TypeError);
        } else if !FitsFrame([res]) {
          r := Err(ValueError);
        } else {
          assert WhenCells(cond, res) == Ok([res]);
          r := Ok(Stamp([res], counter));
        }
      case TokenList(cs) =>
        var fullCond: seq<seq<Cell>> := [];
        var i: nat := 0;
        while i < |cs|
          invariant fullCond + CondRowsFrom(cs, i) == CondRows(cs)
        {
          if |cs| < 3 {
            fullCond := fullCond + [[Text("C")] + cs];
          } else {
            fullCond := fullCond + [[Text("C")] + cs[i..Min(i + 4, |cs|)]];
          }
          i := i + 4;
        }
        assert CondRowsFrom(cs, i) == [];
        assert fullCond == CondRows(cs);
        fullCond := fullCond + [res];
        assert WhenCells(cond, res) == Ok(fullCond);
        if !FitsFrame(fullCond) {
          r := Err(ValueError);
        } else {
          r := Ok(Stamp(fullCond, counter));
        }
    }
  }

  /** MaxWidth is the width of the widest row: no row is wider and, unless there
      are no rows, some row has exactly that width. */
  lemma {:induction false} MaxWidthIsMax(rows: seq<seq<Cell>>)
    ensures forall j :: 0 <= j < |rows| ==> |rows[j]| <= MaxWidth(rows)
    ensures rows != [] ==> exists j :: 0 <= j < |rows| && |rows[j]| == MaxWidth(rows)
    ensures rows == [] ==> MaxWidth(rows) == 0
    decreases |rows|
  {
    if rows != [] {
      var n := |rows| - 1;
      var pre := rows[..n];
      MaxWidthIsMax(pre);
      assert forall j :: 0 <= j < n ==> rows[j] == pre[j];
      if MaxWidth(pre) > |rows[n]| {
        var j :| 0 <= j < |pre| && |pre[j]| == MaxWidth(pre);
        assert |rows[j]| == MaxWidth(rows);
      } else {
        assert |rows[n]| == MaxWidth(rows);
      }
    }
  }

  /** The frame accepts the rows exactly when none is wider than five cells and one
      has exactly five. */
  lemma FitsFrameLaw(rows: seq<seq<Cell>>)
    ensures FitsFrame(rows) <==>
              && (forall j :: 0 <= j < |rows| ==> |rows[j]| <= FrameWidth)
              && exists j :: 0 <= j < |rows| && |rows[j]| == FrameWidth
  {
    MaxWidthIsMax(rows);
  }

  lemma {:induction false} CondRowsFromCount(cs: seq<Cell>, i: nat)
    requires i <= |cs|
    ensures |CondRowsFrom(cs, i)| == (|cs| - i + 3) / 4
    decreases |cs| - i
  {
    if i < |cs| {
      if i + 4 <= |cs| {
        CondRowsFromCount(cs, i + 4);
      } else {
        assert CondRowsFrom(cs, i + 4) == [];
      }
    }
  }

  lemma {:induction false} CondRowsFromShape(cs: seq<Cell>, i: nat)
    ensures forall row :: row in CondRowsFrom(cs, i) ==> 2 <= |row| <= FrameWidth && row[0] == Text("C")
    decreases |cs| - i
  {
    if i < |cs| {
      CondRowsFromShape(cs, i + 4);
      assert CondRowsFrom(cs, i) == [Window(cs, i)] + CondRowsFrom(cs, i + 4);
    }
  }

  lemma {:induction false} CondRowsFromTokens(cs: seq<Cell>, i: nat)
    requires i <= |cs|
    requires |cs| >= 3 || i == 0
    ensures TokensOf(CondRowsFrom(cs, i)) == cs[i..]
    decreases |cs| - i
  {
    if i < |cs| {
      var rows := CondRowsFrom(cs, i);
      assert rows == [Window(cs, i)] + CondRowsFrom(cs, i + 4);
      assert rows[1..] == CondRowsFrom(cs, i + 4);
      assert Window(cs, i)[1..] == cs[i..Min(i + 4, |cs|)];
      if i + 4 <= |cs| {
        CondRowsFromTokens(cs, i + 4);
        assert cs[i..] == cs[i..i + 4] + cs[i + 4..];
      } else {
        assert CondRowsFrom(cs, i + 4) == [];
        assert TokensOf(rows[1..]) == [];
      }
    }
  }

  /** The chunking law: a flattened condition of length L gives ceil(L/4) condition
      rows (none for L = 0), each tagged 'C' and holding one to four tokens; the
      rows' tokens concatenated give back the condition; for 1 <= L < 3 there is one
      row holding all tokens. */
  lemma ChunkLaws(cs: seq<Cell>)
    ensures |CondRows(cs)| == (|cs| + 3) / 4
    ensures cs == [] <==> CondRows(cs) == []
    ensures forall row :: row in CondRows(cs) ==> 2 <= |row| <= FrameWidth && row[0] == Text("C")
    ensures TokensOf(CondRows(cs)) == cs
    ensures 1 <= |cs| < 3 ==> CondRows(cs) == [[Text("C")] + cs]
  {
    CondRowsFromCount(cs, 0);
    CondRowsFromShape(cs, 0);
    CondRowsFromTokens(cs, 0);
    if 1 <= |cs| < 3 {
      assert CondRowsFrom(cs, 4) == [];
    }
  }

  lemma {:induction false} CondRowsFromAt(cs: seq<Cell>, i: nat, j: nat)
    requires |cs| >= 3 && i <= |cs| && j < |CondRowsFrom(cs, i)|
    ensures i + 4 * j < |cs|
    ensures CondRowsFrom(cs, i)[j] == [Text("C")] + cs[i + 4 * j .. Min(i + 4 * j + 4, |cs|)]
    decreases j
  {
    assert i < |cs|;
    if j > 0 {
      assert CondRowsFrom(cs, i)[j] == CondRowsFrom(cs, i + 4)[j - 1];
      CondRowsFromAt(cs, i + 4, j - 1);
    }
  }

  /** Condition row j of a condition holds the tokens at positions 4j .. 4j+3
      (fewer at the end). */
  lemma CondRowAt(cs: seq<Cell>, j: nat)
    requires j < |CondRows(cs)|
    ensures 4 * j < |cs|
    ensures CondRows(cs)[j] == [Text("C")] + cs[4 * j .. Min(4 * j + 4, |cs|)]
  {
    if |cs| >= 3 {
      CondRowsFromAt(cs, 0, j);
    } else {
      ChunkLaws(cs);
      assert cs[0 .. Min(4, |cs|)] == cs;
    }
  }

  /** Condition rows of a token list laid out as m triples joined by connectors. */
  lemma {:induction false} TripleRows(ts: seq<Cell>, m: nat)
    requires m >= 1 && |ts| == 4 * m - 1
    ensures |CondRows(ts)| == m
    ensures forall j :: 0 <= j < m - 1 ==> CondRows(ts)[j] == [Text("C")] + ts[4 * j .. 4 * j + 3] + [ts[4 * j + 3]]
    ensures CondRows(ts)[m - 1] == [Text("C")] + ts[4 * (m - 1) .. 4 * (m - 1) + 3]
  {
    CondRowsFromCount(ts, 0);
    forall j | 0 <= j < m - 1
      ensures CondRows(ts)[j] == [Text("C")] + ts[4 * j .. 4 * j + 3] + [ts[4 * j + 3]]
    {
      CondRowAt(ts, j);
      assert ts[4 * j .. 4 * j + 4] == ts[4 * j .. 4 * j + 3] + [ts[4 * j + 3]];
    }
    CondRowAt(ts, m - 1);
  }

  /** The rows of a clause whose condition is a tree of m leaves: m condition rows,
      row j holding leaf j's triple followed by connector j (the last row has no
      connector), then the result row. */
  lemma ConditionTreeRows(e: Expr, res: seq<Cell>)
    requires ConditionTree(e)
    ensures VisitExpr(e).Ok?
    ensures |Leaves(e)| >= 1 && |Connectors(e)| == |Leaves(e)| - 1
    ensures forall j :: 0 <= j < |Leaves(e)| ==> IsLeaf(Leaves(e)[j])
    ensures var rows := WhenCells(VisitExpr(e).value, res);
            && rows.Ok? && |rows.value| == |Leaves(e)| + 1
            && rows.value[|Leaves(e)|] == res
            && (forall j :: 0 <= j < |Leaves(e)| - 1 ==>
                 rows.value[j] == [Text("C")] + LeafTriple(Leaves(e)[j]) + [Text(Connectors(e)[j])])
            && rows.value[|Leaves(e)| - 1] == [Text("C")] + LeafTriple(Leaves(e)[|Leaves(e)| - 1])
  {
    FlattenTree(e);
    var ts := VisitExpr(e).value.tokens;
    var m := |Leaves(e)|;
    TripleRows(ts, m);
    var rows := CondRows(ts) + [res];
    assert WhenCells(VisitExpr(e).value, res) == Ok(rows);
    forall j | 0 <= j < m - 1
      ensures rows[j] == [Text("C")] + LeafTriple(Leaves(e)[j]) + [Text(Connectors(e)[j])]
    {
      assert rows[j] == CondRows(ts)[j];
    }
    assert rows[m - 1] == CondRows(ts)[m - 1];
  }
}
