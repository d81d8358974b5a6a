/** The rule table assembler: one clause DataFrame per WHEN clause in source order,
    concatenated, then the bookkeeping columns (sequence number within the rule,
    else-if flag, constant columns) and the fixed column order of the output. */
module RuleTable {
  import opened Syntax
  import opened Flattener
  import opened RuleRows

  /** One output row, its fields in the order of the output columns. */
  datatype Row = Row(
    group: string,        // ds_agrupamento
    ruleId: nat,          // cd_regra
    seqNo: nat,           // cd_sequencia
    elseIf: string,       // fl_elseif
    kind: Cell,           // tp_regra: 'C' condition row, 'S' result row
    field: Cell,          // nm_campo
    op: Cell,             // tp_operador
    value: Cell,          // vl_regra
    connector: Cell,      // tp_operador_logico
    description: Cell,    // ds_regra
    active: string)       // fl_regra_ativa

  /** The result row of a clause: `['S', alias, '=', v, None]`. The alias is read from
      the generator, so an unset alias raises; a result other than NULL or a name
      reference is emitted as its `.value` in double quotes, and a result without a
      `.value` attribute raises too. */
  function ResultCells(alias: Option<string>, res: ResultExpr): (r: Result<seq<Cell>>)
    ensures r.Ok? <==> alias.Some? && !res.OtherResult?
    ensures r.Err? ==> r.error == AttributeError
    ensures r.Ok? ==> && |r.value| == FrameWidth
                      && r.value[0] == Text("S") && r.value[1] == Text(alias.value)
                      && r.value[2] == Text("=") && r.value[4] == Absent
    ensures r.Ok? && res.NullResult? ==> r.value[3] == Text("NULL")
    ensures r.Ok? && res.NameResult? ==> r.value[3] == Text(res.name)
    ensures r.Ok? && res.LiteralResult? ==> r.value[3] == Text(Quote(LiteralText(res.literal)))
    ensures r.Ok? && res.ValuedResult? ==> r.value[3] == Text(Quote(res.valueText))
  {
    if alias.None? then Err(AttributeError)
    else
      match res
      case NullResult => Ok([Text("S"), Text(alias.value), Text("="), Text("NULL"), Absent])
      case NameResult(name) => Ok([Text("S"), Text(alias.value), Text("="), Text(name), Absent])
      case LiteralResult(l) => Ok([Text("S"), Text(alias.value), Text("="), Text(Quote(LiteralText(l))), Absent])
      case ValuedResult(t) => Ok([Text("S"), Text(alias.value), Text("="), Text(Quote(t)), Absent])
      case OtherResult => Err(AttributeError)
  }

  /** The rows of one clause as Python lists, in the order visit_case computes them:
      flatten the condition, build the result row, cut the condition into rows. */
  function ClauseCells(alias: Option<string>, c: WhenClause): Result<seq<seq<Cell>>> {
    var when :- VisitExpr(c.condition);
    var out :- ResultCells(alias, c.result);
    FrameCells(when, out)
  }

  /** The clause DataFrames of the first |clauses| clauses, the k-th (from 1) stamped
      with rule id k; the first clause that raises aborts the run. */
  function Frames(alias: Option<string>, clauses: seq<WhenClause>): Result<seq<seq<FrameRow>>>
    decreases |clauses|
  {
    if clauses == [] then Ok([])
    else
      var prev :- Frames(alias, clauses[..|clauses| - 1]);
      var cells :- ClauseCells(alias, clauses[|clauses| - 1]);
      Ok(prev + [Stamp(cells, |clauses|)])
  }

  /** pd.concat: the frames' rows one after the other. */
  function Concat(frames: seq<seq<FrameRow>>): seq<FrameRow> {
    if frames == [] then []
    else Concat(frames[..|frames| - 1]) + frames[|frames| - 1]
  }

  /** The number of rows with the given rule id. */
  function Count(rows: seq<FrameRow>, ruleId: nat): (r: nat)
    ensures r <= |rows|
  {
    if rows == [] then 0
    else Count(rows[..|rows| - 1], ruleId) + (if rows[|rows| - 1].ruleId == ruleId then 1 else 0)
  }

  /** `groupby("cd_regra").cumcount() + 1`: one plus the number of earlier rows with
      the same rule id. */
  function SeqNo(rows: seq<FrameRow>, i: nat): (r: nat)
    requires i < |rows|
    ensures 1 <= r <= i + 1
  {
    Count(rows[..i], rows[i].ruleId) + 1
  }

  /** A row is numbered 1 iff no earlier row belongs to its rule. */
  lemma SeqNoFirst(rows: seq<FrameRow>, i: nat)
    requires i < |rows|
    ensures SeqNo(rows, i) == 1 <==> forall k :: 0 <= k < i ==> rows[k].ruleId != rows[i].ruleId
  {
    CountZero(rows[..i], rows[i].ruleId);
  }

  /** A count is zero iff no row has the rule id. */
  lemma {:induction false} CountZero(rows: seq<FrameRow>, id: nat)
    ensures Count(rows, id) == 0 <==> forall k :: 0 <= k < |rows| ==> rows[k].ruleId != id
    decreases |rows|
  {
    if rows != [] {
      var p := rows[..|rows| - 1];
      CountZero(p, id);
      assert forall k :: 0 <= k < |p| ==> p[k] == rows[k];
    }
  }

  function CellAt(cells: seq<Cell>, k: nat): Cell {
    if k < |cells| then cells[k] else Absent
  }

  /** A concatenated row with its columns filled in: the DataFrame's five row cells,
      ds_agrupamento 'Regra', fl_regra_ativa 'S', fl_elseif 'N' for rule 1 and 'S'
      otherwise, and ds_regra, which no row sets, None. */
  function MakeRow(f: FrameRow, seqNo: nat): Row {
    Row("Regra", f.ruleId, seqNo, if f.ruleId == 1 then "N" else "S",
        CellAt(f.cells, 0), CellAt(f.cells, 1), CellAt(f.cells, 2), CellAt(f.cells, 3), CellAt(f.cells, 4),
        Absent, "S")
  }

  /** Every concatenated row with its columns filled in. */
  function Fill(rows: seq<FrameRow>): seq<Row> {
    seq(|rows|, i requires 0 <= i < |rows| => MakeRow(rows[i], SeqNo(rows, i)))
  }

  /** The table parse_data writes out; concatenating no frames raises. */
  function Table(frames: seq<seq<FrameRow>>): Result<seq<Row>> {
    if frames == [] then Err(ValueError)
    else Ok(Fill(Concat(frames)))
  }

  /** The whole compilation of one CASE expression. */
  function Compile(alias: Option<string>, clauses: seq<WhenClause>): Result<seq<Row>> {
    var frames :- Frames(alias, clauses);
    Table(frames)
  }

  function Lookup(counts: map<nat, nat>, ruleId: nat): nat {
    if ruleId in counts then counts[ruleId] else 0
  }

  /** parse_data: concatenate, then fill the columns, counting the rows seen so far
      per rule id as the group-by does. */
  method ParseData(dfs: seq<seq<FrameRow>>) returns (r: Result<seq<Row>>)
    ensures r == Table(dfs)
  {
    if dfs == [] {
      return Err(ValueError);
    }
    var df := Concat(dfs);
    var counts: map<nat, nat> := map[];
    var out: seq<Row> := [];
    for i := 0 to |df|
      invariant out == Fill(df)[..i]
      invariant Counted(counts, df[..i])
    {
      var id := df[i].ruleId;
      var c := Lookup(counts, id);
      CountsStep(df, i, counts);
      FillStep(df, i, out);
      out := out + [MakeRow(df[i], c + 1)];
      counts := counts[id := c + 1];
    }
    assert Fill(df)[..|df|] == Fill(df);
    r := Ok(out);
  }

  /** The counter map holds, for every rule id, the number of rows seen with it. */
  ghost predicate Counted(counts: map<nat, nat>, seen: seq<FrameRow>) {
    forall id :: Lookup(counts, id) == Count(seen, id)
  }

  /** One more filled row extends the filled prefix. */
  lemma FillStep(df: seq<FrameRow>, i: nat, out: seq<Row>)
    requires i < |df| && out == Fill(df)[..i]
    ensures out + [MakeRow(df[i], SeqNo(df, i))] == Fill(df)[..i + 1]
  {
  }

  /** The counter map after one more row: the row's own rule id counted once more. */
  lemma CountsStep(df: seq<FrameRow>, i: nat, counts: map<nat, nat>)
    requires i < |df| && Counted(counts, df[..i])
    ensures SeqNo(df, i) == Lookup(counts, df[i].ruleId) + 1
    ensures Counted(counts[df[i].ruleId := Lookup(counts, df[i].ruleId) + 1], df[..i + 1])
  {
    var id := df[i].ruleId;
    var after := counts[id := Lookup(counts, id) + 1];
    CountStep(df, i);
    forall x
      ensures Lookup(after, x) == Count(df[..i + 1], x)
    {
      if x != id {
        assert Lookup(after, x) == Lookup(counts, x);
      }
    }
  }

  /** One more row adds one to the count of its own rule id and to no other. */
  lemma CountStep(rows: seq<FrameRow>, i: nat)
    requires i < |rows|
    ensures forall id :: Count(rows[..i + 1], id) == Count(rows[..i], id) + (if rows[i].ruleId == id then 1 else 0)
  {
    assert rows[..i + 1][..i] == rows[..i];
  }

  lemma {:induction false} FramesErrorPersists(alias: Option<string>, clauses: seq<WhenClause>, n: nat)
    requires n <= |clauses| && Frames(alias, clauses[..n]).Err?
    ensures Frames(alias, clauses) == Frames(alias, clauses[..n])
    decreases |clauses| - n
  {
    if n < |clauses| {
      assert clauses[..n + 1][..n] == clauses[..n];
      FramesErrorPersists(alias, clauses, n + 1);
    } else {
      assert clauses[..n] == clauses;
    }
  }

  /** The object that walks the parsed query. Only the alias of the SELECT item is
      state the compiler reads. */
  class RulesGenerator {
    var alias: Option<string>

    constructor ()
      ensures alias == None
    {
      alias := None;
    }

    /** visit_alias: records the alias of the SELECT item. */
    method VisitAlias(name: string)
      modifies this
      ensures alias == Some(name)
    {
      alias := Some(name);
    }

    /** visit_case: the clauses in source order with a counter from 1, each clause
        DataFrame appended, then parse_data over all of them. */
    method VisitCase(clauses: seq<WhenClause>) returns (r: Result<seq<Row>>)
      ensures r == Compile(alias, clauses)
    {
      var dfs: seq<seq<FrameRow>> := [];
      var counter: nat := 1;
      for k := 0 to |clauses|
        invariant counter == k + 1
        invariant Frames(alias, clauses[..k]) == Ok(dfs)
      {
        assert clauses[..k + 1][..k] == clauses[..k];
        var when := VisitExpr(clauses[k].condition);
        if when.Err? {
          FramesErrorPersists(alias, clauses, k + 1);
          return Err(when.error);
        }
        var out := ResultCells(alias, clauses[k].result);
        if out.Err? {
          FramesErrorPersists(alias, clauses, k + 1);
          return Err(out.error);
        }
        var df := ParseWhenResult(when.value, out.value, counter);
        if df.Err? {
          FramesErrorPersists(alias, clauses, k + 1);
          return Err(df.error);
        }
        counter := counter + 1;
        dfs := dfs + [df.value];
      }
      assert clauses[..|clauses|] == clauses;
      r := ParseData(dfs);
    }
  }
}
