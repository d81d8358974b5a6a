/** Laws of the assembled rule table: rule ids count the WHEN clauses from 1 in
    source order, the sequence number runs 1..n within each rule, the last row of
    every rule is its result row, and every row is the row of its clause it claims
    to be. */
module TableLaws {
  import opened Syntax
  import opened Flattener
  import opened RuleRows
  import opened RuleTable

  /** The rows of one clause: its condition rows, tagged 'C' and at most five cells
      wide, then exactly one result row, tagged 'S'. */
  lemma ClauseCellsShape(alias: Option<string>, c: WhenClause)
    requires ClauseCells(alias, c).Ok?
    ensures var cells := ClauseCells(alias, c).value;
            && |cells| >= 1
            && ResultCells(alias, c.result).Ok?
            && cells[|cells| - 1] == ResultCells(alias, c.result).value
            && (forall j :: 0 <= j < |cells| - 1 ==> 2 <= |cells[j]| <= FrameWidth && cells[j][0] == Text("C"))
  {
    var when := VisitExpr(c.condition).value;
    var out := ResultCells(alias, c.result).value;
    var cells := ClauseCells(alias, c).value;
    if when.TokenList? {
      ChunkLaws(when.tokens);
      assert cells == CondRows(when.tokens) + [out];
      forall j | 0 <= j < |cells| - 1
        ensures 2 <= |cells[j]| <= FrameWidth && cells[j][0] == Text("C")
      {
        assert cells[j] in CondRows(when.tokens);
      }
    }
  }

  /** The rows a clause builds always fit the five frame columns: the condition rows
      are at most five cells wide and the result row exactly five, so building the
      clause DataFrame never raises: a clause fails only by flattening, by its
      result row or by cutting its condition into rows. */
  lemma ClauseFits(alias: Option<string>, c: WhenClause)
    ensures ClauseCells(alias, c).Ok? <==>
              && VisitExpr(c.condition).Ok? && ResultCells(alias, c.result).Ok?
              && WhenCells(VisitExpr(c.condition).value, ResultCells(alias, c.result).value).Ok?
  {
    var when := VisitExpr(c.condition);
    var out := ResultCells(alias, c.result);
    if when.Ok? && out.Ok? && WhenCells(when.value, out.value).Ok? {
      var cells := WhenCells(when.value, out.value).value;
      FitsFrameLaw(cells);
      assert cells[|cells| - 1] == out.value;
      if when.value.TokenList? {
        ChunkLaws(when.value.tokens);
        assert cells == CondRows(when.value.tokens) + [out.value];
        forall j | 0 <= j < |cells|
          ensures |cells[j]| <= FrameWidth
        {
          if j < |cells| - 1 {
            assert cells[j] in CondRows(when.value.tokens);
          }
        }
      }
      assert |cells[|cells| - 1]| == FrameWidth;
      assert FitsFrame(cells);
    }
  }

  /** Frames with the clause builder left abstract: the first clause whose build
      fails aborts, otherwise the k-th result is stamped with rule id k. */
  function FramesBy(build: WhenClause -> Result<seq<seq<Cell>>>, clauses: seq<WhenClause>): Result<seq<seq<FrameRow>>>
    decreases |clauses|
  {
    if clauses == [] then Ok([])
    else
      var prev :- FramesBy(build, clauses[..|clauses| - 1]);
      var cells :- build(clauses[|clauses| - 1]);
      Ok(prev + [Stamp(cells, |clauses|)])
  }

  lemma {:induction false} FramesIsFramesBy(alias: Option<string>, clauses: seq<WhenClause>)
    ensures Frames(alias, clauses) == FramesBy(c => ClauseCells(alias, c), clauses)
    decreases |clauses|
  {
    if clauses != [] {
      FramesIsFramesBy(alias, clauses[..|clauses| - 1]);
    }
  }

  lemma {:induction false} FramesByLaw(build: WhenClause -> Result<seq<seq<Cell>>>, clauses: seq<WhenClause>)
    ensures FramesBy(build, clauses).Ok? <==> forall k :: 0 <= k < |clauses| ==> build(clauses[k]).Ok?
    ensures FramesBy(build, clauses).Ok? ==>
              && |FramesBy(build, clauses).value| == |clauses|
              && forall k :: 0 <= k < |clauses| ==>
                   FramesBy(build, clauses).value[k] == Stamp(build(clauses[k]).value, k + 1)
    decreases |clauses|
  {
    if clauses != [] {
      var n := |clauses| - 1;
      var pre := clauses[..n];
      FramesByLaw(build, pre);
      var p := FramesBy(build, pre);
      if p.Err? {
        var k :| 0 <= k < n && build(pre[k]).Err?;
        assert pre[k] == clauses[k];
      } else if build(clauses[n]).Ok? {
        var fs := p.value + [Stamp(build(clauses[n]).value, n + 1)];
        forall k | 0 <= k < |clauses|
          ensures build(clauses[k]).Ok? && fs[k] == Stamp(build(clauses[k]).value, k + 1)
        {
          if k < n {
            assert pre[k] == clauses[k];
          }
        }
      }
    }
  }

  /** The clause DataFrames exist exactly when every clause compiles; then there is
      one per clause, in clause order, the k-th stamped with rule id k + 1. */
  lemma FramesLaw(alias: Option<string>, clauses: seq<WhenClause>)
    ensures Frames(alias, clauses).Ok? <==> forall k :: 0 <= k < |clauses| ==> ClauseCells(alias, clauses[k]).Ok?
    ensures Frames(alias, clauses).Ok? ==>
              && |Frames(alias, clauses).value| == |clauses|
              && forall k :: 0 <= k < |clauses| ==>
                   Frames(alias, clauses).value[k] == Stamp(ClauseCells(alias, clauses[k]).value, k + 1)
  {
    FramesIsFramesBy(alias, clauses);
    FramesByLaw(c => ClauseCells(alias, c), clauses);
  }

  /** Frames stamped as Frames stamps them: frame k is non-empty and all its rows
      carry rule id k + 1. */
  ghost predicate Numbered(fs: seq<seq<FrameRow>>) {
    forall k, j :: 0 <= k < |fs| && 0 <= j < |fs[k]| ==> fs[k][j].ruleId == k + 1
  }

  ghost predicate NonEmptyFrames(fs: seq<seq<FrameRow>>) {
    forall k :: 0 <= k < |fs| ==> |fs[k]| > 0
  }

  lemma {:induction false} CountAppend(a: seq<FrameRow>, b: seq<FrameRow>, id: nat)
    ensures Count(a + b, id) == Count(a, id) + Count(b, id)
    decreases |b|
  {
    if b == [] {
      assert a + b == a;
    } else {
      var n := |b| - 1;
      assert (a + b)[..|a + b| - 1] == a + b[..n];
      CountAppend(a, b[..n], id);
    }
  }

  lemma {:induction false} CountBelow(a: seq<FrameRow>, id: nat)
    requires forall j :: 0 <= j < |a| ==> a[j].ruleId < id
    ensures Count(a, id) == 0
    decreases |a|
  {
    if a != [] {
      CountBelow(a[..|a| - 1], id);
    }
  }

  lemma {:induction false} CountSame(b: seq<FrameRow>, id: nat)
    requires forall j :: 0 <= j < |b| ==> b[j].ruleId == id
    ensures Count(b, id) == |b|
    decreases |b|
  {
    if b != [] {
      CountSame(b[..|b| - 1], id);
    }
  }

  /** Within one rule the sequence numbers strictly grow, so no two rows of a rule
      share one. */
  lemma SeqNoGrows(rows: seq<FrameRow>, k: nat, i: nat)
    requires k < i < |rows| && rows[k].ruleId == rows[i].ruleId
    ensures SeqNo(rows, k) < SeqNo(rows, i)
  {
    var id := rows[i].ruleId;
    assert rows[..i] == rows[..k + 1] + rows[k + 1..i];
    CountAppend(rows[..k + 1], rows[k + 1..i], id);
    assert rows[..k + 1][..k] == rows[..k];
  }

  lemma SeqNoLeft(a: seq<FrameRow>, b: seq<FrameRow>, i: nat)
    requires i < |a|
    ensures (a + b)[i] == a[i] && SeqNo(a + b, i) == SeqNo(a, i)
  {
    assert (a + b)[..i] == a[..i];
  }

  lemma SeqNoRight(a: seq<FrameRow>, b: seq<FrameRow>, j: nat, id: nat)
    requires j < |b|
    requires forall x :: 0 <= x < |a| ==> a[x].ruleId < id
    requires forall x :: 0 <= x < |b| ==> b[x].ruleId == id
    ensures (a + b)[|a| + j] == b[j] && SeqNo(a + b, |a| + j) == j + 1
  {
    assert (a + b)[..|a| + j] == a + b[..j];
    CountAppend(a, b[..j], id);
    CountBelow(a, id);
    CountSame(b[..j], id);
  }

  /** Every row of concatenated numbered frames carries the id of one of the frames. */
  lemma {:induction false} ConcatIds(fs: seq<seq<FrameRow>>)
    requires Numbered(fs)
    ensures forall i :: 0 <= i < |Concat(fs)| ==> 1 <= Concat(fs)[i].ruleId <= |fs|
    decreases |fs|
  {
    if fs != [] {
      var n := |fs| - 1;
      var pre := fs[..n];
      assert forall k :: 0 <= k < n ==> pre[k] == fs[k];
      ConcatIds(pre);
      assert Concat(fs) == Concat(pre) + fs[n];
    }
  }

  /** The first row has rule id 1 and the last the number of frames. */
  lemma {:induction false} ConcatEnds(fs: seq<seq<FrameRow>>)
    requires Numbered(fs) && NonEmptyFrames(fs) && fs != []
    ensures |Concat(fs)| > 0 && Concat(fs)[0].ruleId == 1 && Concat(fs)[|Concat(fs)| - 1].ruleId == |fs|
    decreases |fs|
  {
    var n := |fs| - 1;
    var pre := fs[..n];
    var f := fs[n];
    assert forall k :: 0 <= k < n ==> pre[k] == fs[k];
    var a := Concat(pre);
    assert Concat(fs) == a + f;
    assert |f| > 0 && f[|f| - 1].ruleId == n + 1 && f[0].ruleId == n + 1;
    if n == 0 {
      assert a == [];
    } else {
      ConcatEnds(pre);
    }
  }

  /** The split of a concatenation at its last frame. */
  lemma Split(fs: seq<seq<FrameRow>>)
    requires Numbered(fs) && fs != []
    ensures var n := |fs| - 1;
            && Numbered(fs[..n])
            && (NonEmptyFrames(fs) ==> NonEmptyFrames(fs[..n]))
            && Concat(fs) == Concat(fs[..n]) + fs[n]
            && (forall k :: 0 <= k < n ==> fs[..n][k] == fs[k])
            && (forall x :: 0 <= x < |fs[n]| ==> fs[n][x].ruleId == n + 1)
            && (forall x :: 0 <= x < |Concat(fs[..n])| ==> Concat(fs[..n])[x].ruleId < n + 1)
  {
    var n := |fs| - 1;
    assert forall k :: 0 <= k < n ==> fs[..n][k] == fs[k];
    ConcatIds(fs[..n]);
  }

  /** Every row is row SeqNo - 1 of the frame its rule id names. */
  lemma {:induction false} LayoutAt(fs: seq<seq<FrameRow>>, i: nat)
    requires Numbered(fs) && NonEmptyFrames(fs) && i < |Concat(fs)|
    ensures var flat := Concat(fs);
            && 1 <= flat[i].ruleId <= |fs|
            && 1 <= SeqNo(flat, i) <= |fs[flat[i].ruleId - 1]|
            && flat[i] == fs[flat[i].ruleId - 1][SeqNo(flat, i) - 1]
    decreases |fs|
  {
    var n := |fs| - 1;
    var pre := fs[..n];
    var f := fs[n];
    Split(fs);
    var a := Concat(pre);
    if i < |a| {
      SeqNoLeft(a, f, i);
      LayoutAt(pre, i);
    } else {
      SeqNoRight(a, f, i - |a|, n + 1);
    }
  }

  /** From one row to the next either the rule id stays and the sequence number grows
      by one, or the rule id grows by one and the sequence number restarts at 1. */
  lemma {:induction false} StepAt(fs: seq<seq<FrameRow>>, i: nat)
    requires Numbered(fs) && NonEmptyFrames(fs) && i + 1 < |Concat(fs)|
    ensures var flat := Concat(fs);
            || (flat[i + 1].ruleId == flat[i].ruleId && SeqNo(flat, i + 1) == SeqNo(flat, i) + 1)
            || (flat[i + 1].ruleId == flat[i].ruleId + 1 && SeqNo(flat, i + 1) == 1)
    decreases |fs|
  {
    var n := |fs| - 1;
    var pre := fs[..n];
    var f := fs[n];
    Split(fs);
    var a := Concat(pre);
    if i + 1 < |a| {
      SeqNoLeft(a, f, i);
      SeqNoLeft(a, f, i + 1);
      StepAt(pre, i);
    } else if i + 1 == |a| {
      SeqNoLeft(a, f, i);
      SeqNoRight(a, f, 0, n + 1);
      ConcatEnds(pre);
    } else {
      SeqNoRight(a, f, i - |a|, n + 1);
      SeqNoRight(a, f, i + 1 - |a|, n + 1);
    }
  }

  /** A row ends its rule (it is the last row, or the next row has another rule id)
      exactly when its sequence number is the size of its frame. */
  lemma {:induction false} EndAt(fs: seq<seq<FrameRow>>, i: nat)
    requires Numbered(fs) && NonEmptyFrames(fs) && i < |Concat(fs)|
    ensures var flat := Concat(fs);
            && 1 <= flat[i].ruleId <= |fs|
            && ((i == |flat| - 1 || flat[i + 1].ruleId != flat[i].ruleId) <==> SeqNo(flat, i) == |fs[flat[i].ruleId - 1]|)
    decreases |fs|
  {
    var n := |fs| - 1;
    var pre := fs[..n];
    var f := fs[n];
    Split(fs);
    var a := Concat(pre);
    if i < |a| {
      SeqNoLeft(a, f, i);
      EndAt(pre, i);
      if i + 1 < |a| {
        SeqNoLeft(a, f, i + 1);
      } else {
        SeqNoRight(a, f, 0, n + 1);
      }
    } else {
      SeqNoRight(a, f, i - |a|, n + 1);
      if i + 1 < |a| + |f| {
        SeqNoRight(a, f, i + 1 - |a|, n + 1);
      }
    }
  }

  /** Frames as Compile builds them: one per clause, numbered and non-empty. */
  lemma FramesNumbered(alias: Option<string>, clauses: seq<WhenClause>)
    requires Frames(alias, clauses).Ok?
    ensures |Frames(alias, clauses).value| == |clauses|
    ensures Numbered(Frames(alias, clauses).value) && NonEmptyFrames(Frames(alias, clauses).value)
  {
    FramesLaw(alias, clauses);
    var fs := Frames(alias, clauses).value;
    forall k | 0 <= k < |fs|
      ensures |fs[k]| > 0
    {
      ClauseCellsShape(alias, clauses[k]);
    }
  }

  /** A compilation fails exactly when there is no WHEN clause (pd.concat of no
      frames) or some clause raises. */
  lemma CompileFails(alias: Option<string>, clauses: seq<WhenClause>)
    ensures Compile(alias, clauses).Err? <==>
              (|clauses| == 0 || exists k :: 0 <= k < |clauses| && ClauseCells(alias, clauses[k]).Err?)
  {
    FramesLaw(alias, clauses);
  }

  /** Row i of a successful compilation is concatenated row i with its sequence number. */
  lemma CompiledRow(alias: Option<string>, clauses: seq<WhenClause>, i: nat)
    requires Compile(alias, clauses).Ok?
    ensures var fs := Frames(alias, clauses).value;
            && fs != [] && Numbered(fs) && NonEmptyFrames(fs) && |fs| == |clauses|
            && |Compile(alias, clauses).value| == |Concat(fs)|
            && (i < |Concat(fs)| ==> Compile(alias, clauses).value[i] == MakeRow(Concat(fs)[i], SeqNo(Concat(fs), i)))
  {
    FramesNumbered(alias, clauses);
  }

  /** Rule ids and sequence numbers: the first row opens rule 1 at sequence number 1,
      the last row belongs to the last clause, and from one row to the next either
      the rule stays and the sequence number grows by one, or the next rule starts
      at sequence number 1. Within each rule the sequence numbers are therefore the
      contiguous run 1..n, and rule ids follow the clauses in source order. */
  lemma RuleNumbering(alias: Option<string>, clauses: seq<WhenClause>, rows: seq<Row>)
    requires Compile(alias, clauses) == Ok(rows)
    ensures && |clauses| > 0 && |rows| > 0
            && rows[0].ruleId == 1 && rows[0].seqNo == 1
            && rows[|rows| - 1].ruleId == |clauses|
            && (forall i :: 0 <= i < |rows| ==> 1 <= rows[i].ruleId <= |clauses| && rows[i].seqNo >= 1)
            && forall i :: 0 <= i < |rows| - 1 ==>
                 || (rows[i + 1].ruleId == rows[i].ruleId && rows[i + 1].seqNo == rows[i].seqNo + 1)
                 || (rows[i + 1].ruleId == rows[i].ruleId + 1 && rows[i + 1].seqNo == 1)
  {
    var fs := Frames(alias, clauses).value;
    var flat := Concat(fs);
    CompiledRow(alias, clauses, 0);
    ConcatEnds(fs);
    CompiledRow(alias, clauses, |rows| - 1);
    assert flat[..0] == [];
    forall i | 0 <= i < |rows|
      ensures 1 <= rows[i].ruleId <= |clauses| && rows[i].seqNo >= 1
    {
      CompiledRow(alias, clauses, i);
      LayoutAt(fs, i);
    }
    forall i | 0 <= i < |rows| - 1
      ensures || (rows[i + 1].ruleId == rows[i].ruleId && rows[i + 1].seqNo == rows[i].seqNo + 1)
              || (rows[i + 1].ruleId == rows[i].ruleId + 1 && rows[i + 1].seqNo == 1)
    {
      CompiledRow(alias, clauses, i);
      CompiledRow(alias, clauses, i + 1);
      StepAt(fs, i);
    }
  }

  /** Frames stamped from the row lists css, one per clause. */
  ghost predicate StampedFrom(fs: seq<seq<FrameRow>>, css: seq<seq<seq<Cell>>>) {
    && |fs| == |css|
    && (forall k :: 0 <= k < |css| ==> |css[k]| > 0)
    && forall k :: 0 <= k < |css| ==> fs[k] == Stamp(css[k], k + 1)
  }

  lemma StampedNumbered(fs: seq<seq<FrameRow>>, css: seq<seq<seq<Cell>>>)
    requires StampedFrom(fs, css)
    ensures Numbered(fs) && NonEmptyFrames(fs)
  {
    assert Numbered(fs) by {
      forall k, j | 0 <= k < |fs| && 0 <= j < |fs[k]|
        ensures fs[k][j].ruleId == k + 1
      {
        assert fs[k] == Stamp(css[k], k + 1);
      }
    }
    assert NonEmptyFrames(fs) by {
      forall k | 0 <= k < |fs|
        ensures |fs[k]| > 0
      {
        assert fs[k] == Stamp(css[k], k + 1);
      }
    }
  }

  lemma StampedOrigin(fs: seq<seq<FrameRow>>, css: seq<seq<seq<Cell>>>, rows: seq<Row>, i: nat)
    requires StampedFrom(fs, css) && Table(fs) == Ok(rows) && i < |rows|
    ensures && 1 <= rows[i].ruleId <= |css|
            && 1 <= rows[i].seqNo <= |css[rows[i].ruleId - 1]|
            && rows[i] == MakeRow(FrameRow(css[rows[i].ruleId - 1][rows[i].seqNo - 1], rows[i].ruleId), rows[i].seqNo)
            && ((i == |rows| - 1 || rows[i + 1].ruleId != rows[i].ruleId) <==>
                rows[i].seqNo == |css[rows[i].ruleId - 1]|)
  {
    var flat := Concat(fs);
    StampedNumbered(fs, css);
    LayoutAt(fs, i);
    EndAt(fs, i);
    var k := flat[i].ruleId - 1;
    var s := SeqNo(flat, i);
    assert fs[k] == Stamp(css[k], k + 1);
    assert flat[i] == FrameRow(css[k][s - 1], k + 1);
    assert rows[i] == MakeRow(flat[i], s);
    if i + 1 < |rows| {
      assert rows[i + 1] == MakeRow(flat[i + 1], SeqNo(flat, i + 1));
    }
  }

  /** The row lists of clauses that all compile. */
  function ClauseRows(alias: Option<string>, clauses: seq<WhenClause>): (css: seq<seq<seq<Cell>>>)
    requires forall k :: 0 <= k < |clauses| ==> ClauseCells(alias, clauses[k]).Ok?
    ensures |css| == |clauses|
    ensures forall k :: 0 <= k < |clauses| ==> css[k] == ClauseCells(alias, clauses[k]).value
  {
    seq(|clauses|, k requires 0 <= k < |clauses| => ClauseCells(alias, clauses[k]).value)
  }

  /** The frames of a successful compilation are the clauses' row lists, stamped. */
  lemma FramesStamped(alias: Option<string>, clauses: seq<WhenClause>)
    requires Frames(alias, clauses).Ok?
    ensures forall k :: 0 <= k < |clauses| ==> ClauseCells(alias, clauses[k]).Ok?
    ensures StampedFrom(Frames(alias, clauses).value, ClauseRows(alias, clauses))
  {
    FramesLaw(alias, clauses);
    var css := ClauseRows(alias, clauses);
    forall k | 0 <= k < |css|
      ensures |css[k]| > 0
    {
      ClauseCellsShape(alias, clauses[k]);
    }
  }

  /** Where row i of a successful compilation comes from: row seqNo of the clause
      its rule id names, and it ends its rule exactly at the clause's last row. */
  lemma RowOrigin(alias: Option<string>, clauses: seq<WhenClause>, rows: seq<Row>, i: nat)
    requires Compile(alias, clauses) == Ok(rows) && i < |rows|
    ensures && 1 <= rows[i].ruleId <= |clauses|
            && ClauseCells(alias, clauses[rows[i].ruleId - 1]).Ok?
            && 1 <= rows[i].seqNo <= |ClauseCells(alias, clauses[rows[i].ruleId - 1]).value|
            && rows[i] == MakeRow(FrameRow(ClauseCells(alias, clauses[rows[i].ruleId - 1]).value[rows[i].seqNo - 1], rows[i].ruleId), rows[i].seqNo)
            && ((i == |rows| - 1 || rows[i + 1].ruleId != rows[i].ruleId) <==>
                rows[i].seqNo == |ClauseCells(alias, clauses[rows[i].ruleId - 1]).value|)
  {
    FramesStamped(alias, clauses);
    var css := ClauseRows(alias, clauses);
    StampedOrigin(Frames(alias, clauses).value, css, rows, i);
    assert css[rows[i].ruleId - 1] == ClauseCells(alias, clauses[rows[i].ruleId - 1]).value;
  }

  /** The kind of row i of a successful compilation and, for a result row, its
      contents; RuleKinds states it for every row. */
  lemma RowKind(alias: Option<string>, clauses: seq<WhenClause>, rows: seq<Row>, i: nat)
    requires Compile(alias, clauses) == Ok(rows) && i < |rows|
    ensures && 1 <= rows[i].ruleId <= |clauses|
            && (rows[i].kind == Text("S") || rows[i].kind == Text("C"))
            && (rows[i].kind == Text("S") <==> i == |rows| - 1 || rows[i + 1].ruleId != rows[i].ruleId)
            && (rows[i].kind == Text("S") ==>
                 && alias.Some?
                 && ResultCells(alias, clauses[rows[i].ruleId - 1].result).Ok?
                 && rows[i].field == Text(alias.value) && rows[i].op == Text("=")
                 && rows[i].value == ResultCells(alias, clauses[rows[i].ruleId - 1].result).value[3]
                 && rows[i].connector == Absent)
  {
    RowOrigin(alias, clauses, rows, i);
    var c := clauses[rows[i].ruleId - 1];
    var s := rows[i].seqNo;
    var cells := ClauseCells(alias, c).value;
    ClauseCellsShape(alias, c);
    var out := ResultCells(alias, c.result).value;
    if s < |cells| {
      assert cells[s - 1][0] == Text("C");
      assert rows[i].kind == Text("C");
    } else {
      assert cells[s - 1] == out;
      assert rows[i].kind == Text("S");
      assert rows[i].field == out[1] && rows[i].value == out[3] && rows[i].connector == out[4];
    }
  }

  /** Row contents: the row with rule id k and sequence number s is row s of clause
      k's rows, with the bookkeeping columns of MakeRow. */
  lemma RuleOrigins(alias: Option<string>, clauses: seq<WhenClause>, rows: seq<Row>)
    requires Compile(alias, clauses) == Ok(rows)
    ensures forall i :: 0 <= i < |rows| ==>
              && 1 <= rows[i].ruleId <= |clauses|
              && ClauseCells(alias, clauses[rows[i].ruleId - 1]).Ok?
              && 1 <= rows[i].seqNo <= |ClauseCells(alias, clauses[rows[i].ruleId - 1]).value|
              && rows[i] == MakeRow(FrameRow(ClauseCells(alias, clauses[rows[i].ruleId - 1]).value[rows[i].seqNo - 1], rows[i].ruleId), rows[i].seqNo)
  {
    forall i | 0 <= i < |rows|
      ensures && 1 <= rows[i].ruleId <= |clauses|
              && ClauseCells(alias, clauses[rows[i].ruleId - 1]).Ok?
              && 1 <= rows[i].seqNo <= |ClauseCells(alias, clauses[rows[i].ruleId - 1]).value|
              && rows[i] == MakeRow(FrameRow(ClauseCells(alias, clauses[rows[i].ruleId - 1]).value[rows[i].seqNo - 1], rows[i].ruleId), rows[i].seqNo)
    {
      RowOrigin(alias, clauses, rows, i);
    }
  }

  /** Row kinds: a row is tagged 'S' exactly when it is the last row of its rule and
      'C' otherwise, and a result row carries the alias, '=', the clause's result
      value and no connector. */
  lemma RuleKinds(alias: Option<string>, clauses: seq<WhenClause>, rows: seq<Row>)
    requires Compile(alias, clauses) == Ok(rows)
    ensures forall i :: 0 <= i < |rows| ==>
              && 1 <= rows[i].ruleId <= |clauses|
              && (rows[i].kind == Text("S") || rows[i].kind == Text("C"))
              && (rows[i].kind == Text("S") <==> i == |rows| - 1 || rows[i + 1].ruleId != rows[i].ruleId)
              && (rows[i].kind == Text("S") ==>
                   && alias.Some?
                   && ResultCells(alias, clauses[rows[i].ruleId - 1].result).Ok?
                   && rows[i].field == Text(alias.value) && rows[i].op == Text("=")
                   && rows[i].value == ResultCells(alias, clauses[rows[i].ruleId - 1].result).value[3]
                   && rows[i].connector == Absent)
  {
    forall i | 0 <= i < |rows|
      ensures && 1 <= rows[i].ruleId <= |clauses|
              && (rows[i].kind == Text("S") || rows[i].kind == Text("C"))
              && (rows[i].kind == Text("S") <==> i == |rows| - 1 || rows[i + 1].ruleId != rows[i].ruleId)
              && (rows[i].kind == Text("S") ==>
                   && alias.Some?
                   && ResultCells(alias, clauses[rows[i].ruleId - 1].result).Ok?
                   && rows[i].field == Text(alias.value) && rows[i].op == Text("=")
                   && rows[i].value == ResultCells(alias, clauses[rows[i].ruleId - 1].result).value[3]
                   && rows[i].connector == Absent)
    {
      RowKind(alias, clauses, rows, i);
    }
  }

  /** The constant and flag columns: ds_agrupamento is 'Regra', fl_regra_ativa 'S',
      ds_regra None, and fl_elseif is 'N' exactly for rule 1 and 'S' for every other. */
  lemma BookkeepingColumns(alias: Option<string>, clauses: seq<WhenClause>, rows: seq<Row>)
    requires Compile(alias, clauses) == Ok(rows)
    ensures forall i :: 0 <= i < |rows| ==>
              && rows[i].group == "Regra" && rows[i].active == "S" && rows[i].description == Absent
              && (rows[i].elseIf == "N" <==> rows[i].ruleId == 1)
              && (rows[i].elseIf == "S" <==> rows[i].ruleId != 1)
  {
  }
}
