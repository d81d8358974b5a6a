# CASE-WHEN to rule table, in Dafny

This project models the compiler in `casewhen_to_csv.py`. The compiler turns one SQL
`CASE WHEN ... THEN ... END AS alias` expression into a rule table, and the model
proves the laws that table obeys. The compiler has two parts.

- **The expression flattener** (module `Flattener`). It turns the condition tree of one
  WHEN clause into a flat token list. Each leaf becomes a triple
  `[field, operator, value]`, and each logical-binary node puts its `AND`/`OR`
  connector between the token lists of its two sides.
- **The rule-table assembler** (modules `RuleRows` and `RuleTable`).
  - It cuts each flattened condition into windows of four tokens. Each window becomes
    a condition row tagged `C`.
  - It appends one result row tagged `S`, built from the clause's THEN part and the
    SELECT alias.
  - It stamps the rows of the k-th clause with rule id k and concatenates the clauses
    in source order.
  - It then fills the bookkeeping columns: sequence number within the rule, else-if
    flag, group, active flag and description.

The parsed tree is the datatype `Syntax.Expr`. It has one constructor per node kind
the dispatch knows, plus `NameReference` and `Unsupported` for kinds it does not know.
What a Python call returns is a `Result`: the value, or the exception it raises
(`TypeError`, `IndexError`, `AttributeError`, `ValueError`). Any exception aborts the
whole compilation.

The model keeps the source's own form:
- The flattener is functions, with lemmas about them.
- `visit_in_list_expr` and `parse_when_result` are methods with loops. Each is proved
  equal to a specification function.
- `parse_data`'s group-by count is a loop over a map of counters.
- The visitor is the class `RulesGenerator`, which holds the alias field that
  `visit_alias` sets and `visit_case` reads.

The pandas steps are sequence operations:
- a clause DataFrame is a `seq<FrameRow>`, and a row shorter than five cells is padded
  with None (`Absent`);
- `pd.concat` is `Concat`;
- `groupby("cd_regra").cumcount() + 1` is `SeqNo`, which is one plus the number of
  earlier rows with the same rule id.

Module `Example` works through a two-clause CASE, row by row.

Some behaviours of the code are easy to miss:
- `visit_case` reads only the WHEN clauses of the CASE (line 37), so `CASE ... ELSE x END`
  gives the same table as the same CASE without ELSE. `Syntax.WhenClause` has no field
  for the ELSE branch.
- A CASE with no WHEN clause raises a ValueError, because `pd.concat([])` raises at
  line 148 (`Example.NoClauses`, `TableLaws.CompileFails`).
- A node kind without a flattening rule is not always fatal. At the top of a clause it
  raises, because `len(None)` fails. Beside a connector it raises, because a str or
  None is added to a list. As the value list of an IN predicate, an `Unsupported`
  node silently becomes a None value cell. A name reference there raises
  AttributeError instead, because its `.values` is read (`Flattener.VisitInPredicate`).
- The number of condition rows is `ceil(L/4)` for a flattened condition of L tokens.
  An empty IN tuple used as the whole condition gives no condition row, only the
  result row. Every token list the flattener builds has length 4m - 1, and a tree of
  m leaves gives exactly m condition rows (`Flattener.VisitExpr`, `RuleRows.ChunkLaws`,
  `RuleRows.ConditionTreeRows`).

## Model

| member | source | states |
|---|---|---|
| Syntax.QuoteRoundTrip | casewhen_to_csv.py:85 | Quote wraps a text in one pair of double quotes, and Unquote gives the text back |
| Flattener.VisitExpr | casewhen_to_csv.py:52-68 | only logical-binary, list and IN nodes can raise; a comparison, IS or LIKE node always gives three tokens; every token list it returns has length 4m - 1 (m triples, m - 1 connectors); a tuple can only come from an IN list, directly or through a list expression |
| Flattener.VisitLogicalBinary | casewhen_to_csv.py:70-80 | the node flattens iff its left side is a non-empty list and its right side a list; the left side is flattened first, so its exception wins, then the right side's, and any other failure is TypeError; on success the tokens are the left list, then the connector, then the right list, of length 4m - 1 |
| Flattener.VisitListExpr | casewhen_to_csv.py:123-124 | an empty list raises IndexError; any token list it returns has length 4m - 1 |
| Flattener.ListExprFirst | casewhen_to_csv.py:123-124 | a nested list expression flattens exactly as the first node reached by taking first elements that is not a list, and raises IndexError iff that descent ends at an empty list |
| Flattener.VisitComparison | casewhen_to_csv.py:82-90 | a comparison flattens to exactly three tokens: the field, the operator verbatim, and the right operand; the right operand is quoted text iff it is a string literal and the raw value otherwise |
| Flattener.LogicalBinaryLaw | casewhen_to_csv.py:70-80 | a logical-binary node flattens iff its left side flattens to a non-empty list and its right side to a list; then the result is left, connector, right in order, of length \|left\| + 1 + \|right\|; otherwise (the `right + node_type` branch included) it raises |
| Flattener.FlattenTree | casewhen_to_csv.py:70-80 | a tree of m leaves joined by logical-binary nodes flattens to 4m - 1 tokens, with the triple of leaf j at positions 4j..4j+2 and connector j at 4j+3, in source order |
| Flattener.ListExprLaw | casewhen_to_csv.py:123-124 | a list expression flattens to the flattening of its first element only; an empty list raises IndexError |
| Flattener.UnknownKindYieldsNone | casewhen_to_csv.py:52-68 | a node kind the match has no arm for yields None (falsy), not a token list |
| Flattener.VisitInPredicate | casewhen_to_csv.py:92-101 | an IN predicate succeeds iff its value list is not a name reference and flattens; then it gives three tokens: field, `not in` iff negated (else `in`), and the flattened value list as the value cell; a name-reference value list raises AttributeError |
| Flattener.InListPredicate | casewhen_to_csv.py:92-100 | IN over a literal list gives a value tuple of the list's length and order, each item double-quoted |
| Flattener.QuotedItems | casewhen_to_csv.py:126-131 | the IN tuple has one entry per list item, in order, each the item's text in double quotes |
| Flattener.VisitInListExpr | casewhen_to_csv.py:126-131 | the tuple-growing loop returns exactly the tuple QuotedItems describes |
| Flattener.VisitIsPredicate | casewhen_to_csv.py:103-113 | an IS predicate gives field, `is not` iff negated (else `is`), and `NULL` unquoted for the keyword null or the keyword quoted otherwise |
| Flattener.VisitLikePredicate | casewhen_to_csv.py:115-121 | a LIKE predicate gives field, `not like` iff negated (else `like`), and the pattern quoted |
| RuleRows.ParseWhenResult | casewhen_to_csv.py:133-145 | the stepped loop builds exactly the clause DataFrame WhenRows describes: the condition windows, then the result row, all stamped with the counter; None or a non-empty tuple as the condition raise TypeError, and rows that do not fill the five columns raise ValueError |
| RuleRows.ChunkLaws | casewhen_to_csv.py:134-140 | a condition of L tokens gives ceil(L/4) condition rows (none iff L = 0), each tagged C with one to four tokens; concatenating the rows' tokens gives the condition back; for 1 <= L < 3 there is one row holding all tokens |
| RuleRows.CondRowAt | casewhen_to_csv.py:134-140 | condition row j of any condition holds the tokens at positions 4j..4j+3 (fewer at the end) |
| RuleRows.ConditionTreeRows | casewhen_to_csv.py:133-141 | a clause whose condition is a tree of m leaves gets m condition rows, row j being C, leaf j's triple and connector j (the last without connector), then exactly its result row |
| RuleRows.FitsFrameLaw | casewhen_to_csv.py:142-143 | the five-column DataFrame accepts a clause's rows iff none is wider than five cells and one has exactly five |
| RuleTable.ResultCells | casewhen_to_csv.py:40-45 | the result row is `S`, alias, `=`, v, None, with v `NULL` for a null literal, the bare name for a field reference, and for any other result its `.value` in double quotes (a literal's text, or the text of another node that has a `.value`); it raises AttributeError iff the alias was never set or the result has no `.value` attribute |
| RuleTable.SeqNo | casewhen_to_csv.py:156 | `cumcount() + 1` of row i lies between 1 and i + 1 |
| RuleTable.SeqNoFirst | casewhen_to_csv.py:156 | a row is numbered 1 iff no earlier row has its rule id |
| TableLaws.SeqNoGrows | casewhen_to_csv.py:156 | within one rule id the sequence numbers strictly grow, so no two rows of a rule share one |
| RuleTable.ParseData | casewhen_to_csv.py:147-162 | the column-filling loop returns exactly Table: each concatenated row with sequence number one plus the earlier rows of its rule, the constant columns, and ValueError for no frames |
| RuleTable.RulesGenerator.VisitAlias | casewhen_to_csv.py:27-29 | the generator records the alias of the SELECT item |
| RuleTable.RulesGenerator.VisitCase | casewhen_to_csv.py:34-50 | the clause loop with its counter returns exactly Compile of the stored alias and the clauses: the first clause that raises aborts, otherwise parse_data of all clause DataFrames in order |
| TableLaws.ClauseCellsShape | casewhen_to_csv.py:133-141 | a clause's rows are its condition rows, each tagged C and at most five cells wide, followed by exactly one row, its result row |
| TableLaws.ClauseFits | casewhen_to_csv.py:141-143 | building the clause DataFrame never fails: a clause compiles iff its condition flattens, its result row builds and its condition can be cut into rows |
| TableLaws.FramesLaw | casewhen_to_csv.py:35-49 | the clause DataFrames exist iff every clause compiles; then there is one per clause, in clause order, the k-th stamped with rule id k + 1 |
| TableLaws.CompileFails | casewhen_to_csv.py:35-50 | a compilation fails iff there is no WHEN clause or some clause raises |
| TableLaws.LayoutAt | casewhen_to_csv.py:148-156 | every concatenated row is row SeqNo - 1 of the frame its rule id names |
| TableLaws.StepAt | casewhen_to_csv.py:148-156 | from one concatenated row to the next, either the rule id stays and the sequence number grows by one, or the rule id grows by one and the sequence number restarts at 1 |
| TableLaws.EndAt | casewhen_to_csv.py:148-156 | a row is the last of its rule iff its sequence number is the size of its frame |
| TableLaws.RuleNumbering | casewhen_to_csv.py:144-156 | in the table, rule ids start at 1, end at the number of clauses and grow by one per clause; sequence numbers start at 1 and run contiguously within each rule |
| TableLaws.RuleOrigins | casewhen_to_csv.py:141-162 | the row with rule id k and sequence number s is row s of clause k's rows, with the bookkeeping columns filled in |
| TableLaws.RuleKinds | casewhen_to_csv.py:137-148 | a row is tagged S iff it is the last row of its rule, C otherwise; a result row carries the alias, `=`, the clause's result value and no connector |
| TableLaws.BookkeepingColumns | casewhen_to_csv.py:154-161 | ds_agrupamento is always Regra, fl_regra_ativa always S, ds_regra always None, and fl_elseif is N iff the rule id is 1 and S otherwise |
| Example.Compiled | casewhen_to_csv.py:34-162 | the table of a two-clause CASE, row by row |
| Example.NoClauses | casewhen_to_csv.py:148 | a CASE without WHEN clauses raises ValueError |
| Example.AliasUnset | casewhen_to_csv.py:41-45 | if visit_case runs before visit_alias has set an alias, building the first result row raises AttributeError and the compilation fails with it |

## Left out

- SQL parsing: the parser library's output is taken as the datatype `Syntax.Expr`, so parse errors are not modelled.
- File and CSV I/O: reading the SQL file and `to_csv` are not modelled. The model ends at the table as a sequence of `Row`s, whose fields are in the output column order (the comments on `RuleTable.Row` name each column).
- Debug output and the indentation argument `n` have no effect on the result and are not modelled.
- Select-list glue: `parse`, `visit_query_body`, `visit_select`, `visit_select_item` and `visit_expression` are not modelled. `VisitAlias` followed by `VisitCase` stands for one SELECT item. Several SELECT items would overwrite the same output file, and that I/O effect is out of scope. A SELECT item without an alias fails earlier, when `visit_alias` reads `node[0]` at line 28, and that failure is not modelled.
- pandas value handling: cells keep the Python value they were built from. Dtype conversion, NaN for missing cells and the DataFrame index (dropped by `index=False`) are not modelled.
- Flattener.VisitComparison: the field is taken as a name string. A left operand that is not a name reference raises AttributeError in the source (`.name`), and that is not modelled; the same holds for the IN, IS and LIKE predicates.
- Flattener.QuotedItems: the items of an IN list are literals. An item that is a column name has no `.value`, and the AttributeError the source raises for it at line 130 is not modelled.
- Flattener.VisitLikePredicate: the pattern of a LIKE is a literal. A pattern that is a column name has no `.value`, and the AttributeError the source raises for it at line 120 is not modelled.
- Flattener.VisitComparison: the right operand is a literal. A right operand with no `.value` (a name reference) raises AttributeError in the source, and that is not modelled.
- Syntax.Literal: the text of a non-string literal (what `str` or an f-string gives it) is taken as given.
- Syntax.ResultExpr: for a THEN result that is not a literal but has a `.value` (an IN, IS or LIKE predicate node), the text the f-string at line 45 makes of that value is taken as given.
- Flattener.VisitInPredicate: the IN predicate's name-reference branch builds a generator. The model raises AttributeError when the generator is created, because its first iterable, `.values` of the name reference, is read eagerly.
