/**
 * The input validators (app/validators.py): structural and per-row checks of
 * the carrier remittance and CRM policy tables, the combined
 * validate-or-raise step, and the normalising clean step.
 *
 * A table is its column set and its rows; a cell is the text pandas read or
 * `Missing` (NaN). Errors are structured values: the messages the Python code
 * formats interpolate a Python set's repr and float reprs, whose exact text
 * is not modelled. `float()` is the parameter `toFloat`, and the
 * `strptime("%Y-%m-%d")` check is `Calendar.IsIsoDate`.
 */
module Validators {
  import opened Wrappers
  import opened Strings
  import opened Lines
  import opened Calendar
  import opened Records

  /** A cell of a text column: pandas NaN, or a string. */
  datatype Cell = Missing | Text(text: string)

  /** A table column: the ones the checks read, or any other header.
      `Other` stands for a header that is none of the eight named ones;
      `ColumnOf` builds columns that way, and `Canonical` says a column is
      one it could have built. */
  datatype Column = PolicyId | AgentId | Carrier | PaidDate | Amount | Status | SubmitDate | LtvExpected
                  | Other(name: string)

  /** The header text of a column, as it appears in the CSV. */
  function HeaderOf(c: Column): string
  {
    match c
    case PolicyId => "policy_id"
    case AgentId => "agent_id"
    case Carrier => "carrier"
    case PaidDate => "paid_date"
    case Amount => "amount"
    case Status => "status"
    case SubmitDate => "submit_date"
    case LtvExpected => "ltv_expected"
    case Other(name) => name
  }

  /** The column a CSV header names. */
  function ColumnOf(h: string): (c: Column)
    ensures HeaderOf(c) == h
  {
    if h == "policy_id" then PolicyId
    else if h == "agent_id" then AgentId
    else if h == "carrier" then Carrier
    else if h == "paid_date" then PaidDate
    else if h == "amount" then Amount
    else if h == "status" then Status
    else if h == "submit_date" then SubmitDate
    else if h == "ltv_expected" then LtvExpected
    else Other(h)
  }

  /** The column is the one its own header names: an `Other` never spells a
      named column's header. */
  predicate Canonical(c: Column)
  {
    ColumnOf(HeaderOf(c)) == c
  }

  /** Distinct canonical columns have distinct headers, so a set of columns
      is a set of headers. */
  lemma HeadersDistinguishColumns(c: Column, d: Column)
    requires Canonical(c) && Canonical(d)
    ensures HeaderOf(c) == HeaderOf(d) <==> c == d
  {
  }

  /** Every named column is canonical, and so is an `Other` whose name is
      not one of the eight headers. */
  lemma NamedColumnsCanonical(name: string)
    ensures Canonical(PolicyId) && Canonical(AgentId) && Canonical(Carrier) && Canonical(PaidDate)
    ensures Canonical(Amount) && Canonical(Status) && Canonical(SubmitDate) && Canonical(LtvExpected)
    ensures Canonical(Other(name)) <==> ColumnOf(name).Other?
  {
  }

  /** One table row, by column. */
  type Row = map<Column, Cell>

  datatype Table = Table(columns: set<Column>, rows: seq<Row>)

  /** The cell of column `col`; a row without it reads as NaN. */
  function CellAt(row: Row, col: Column): Cell
  {
    if col in row then row[col] else Missing
  }

  /** Which of the two uploads a check is about. */
  datatype Source = CarrierRemittance | CrmPolicies

  /** The columns each table must have. */
  function RequiredColumns(src: Source): set<Column>
  {
    match src
    case CarrierRemittance => {PolicyId, AgentId, Carrier, PaidDate, Amount, Status}
    case CrmPolicies => {PolicyId, AgentId, SubmitDate, LtvExpected}
  }

  /** What Python's `float()` makes of a text it accepts. */
  datatype FloatValue = Finite(value: real) | PositiveInfinity | NegativeInfinity | NotANumber

  /** `x < 0` for a float: true for negative finite values and minus
      infinity, false for NaN. */
  predicate IsNegative(f: FloatValue)
  {
    (f.Finite? && f.value < 0.0) || f.NegativeInfinity?
  }

  /** One problem found in one row. */
  datatype Problem =
    | PolicyIdEmpty
    | AgentIdEmpty
    | DateEmpty(column: Column)
    | DateFormat(column: Column, got: string)
    | AmountNotNumber(got: string)
    | StatusInvalid(status: Cell)
    | LtvNotNumber(got: string)
    | LtvNegative(ltv: FloatValue)

  /** One entry of a table's error list. */
  datatype TableError =
    | MissingColumns(source: Source, missing: set<Column>)
    | EmptyTable(source: Source)
    | RowProblems(rowNumber: int, problems: seq<Problem>)

  /** `pd.isna(v) or str(v).strip() == ""`. */
  predicate IsBlankCell(c: Cell)
  {
    c.Missing? || Strip(c.text) == []
  }

  /** An identifier cell holding some non-whitespace text. */
  predicate IsPresentId(c: Cell)
  {
    c.Text? && !IsBlank(c.text)
  }

  /** The identifier checks both tables share: an id is rejected exactly when
      it is missing or whitespace only. */
  function IdProblems(row: Row): (r: seq<Problem>)
    ensures PolicyIdEmpty in r <==> CellAt(row, PolicyId).Missing? || IsBlank(CellAt(row, PolicyId).text)
    ensures AgentIdEmpty in r <==> CellAt(row, AgentId).Missing? || IsBlank(CellAt(row, AgentId).text)
    ensures forall p :: p in r ==> p == PolicyIdEmpty || p == AgentIdEmpty
    ensures r == [] <==> IsPresentId(CellAt(row, PolicyId)) && IsPresentId(CellAt(row, AgentId))
  {
    (if IsBlankCell(CellAt(row, PolicyId)) then [PolicyIdEmpty] else [])
    + (if IsBlankCell(CellAt(row, AgentId)) then [AgentIdEmpty] else [])
  }

  /** The date check: a missing date, or a text `strptime` rejects. */
  function DateProblems(row: Row, col: Column): (r: seq<Problem>)
    ensures r == [] <==> CellAt(row, col).Text? && IsIsoDate(CellAt(row, col).text)
    ensures CellAt(row, col).Missing? ==> r == [DateEmpty(col)]
    ensures CellAt(row, col).Text? && !IsIsoDate(CellAt(row, col).text) ==> r == [DateFormat(col, CellAt(row, col).text)]
  {
    match CellAt(row, col)
    case Missing => [DateEmpty(col)]
    case Text(s) => if ParseIsoDate(s).None? then [DateFormat(col, s)] else []
  }

  /** The carrier amount check: any number passes, negative ones included
      (claw-backs), and so does a missing cell, since `float(nan)` succeeds. */
  function AmountProblems(row: Row, toFloat: string -> Option<FloatValue>): (r: seq<Problem>)
    ensures r != [] <==> CellAt(row, Amount).Text? && toFloat(CellAt(row, Amount).text).None?
    ensures r != [] ==> r == [AmountNotNumber(CellAt(row, Amount).text)]
  {
    match CellAt(row, Amount)
    case Missing => []
    case Text(s) => if toFloat(s).None? then [AmountNotNumber(s)] else []
  }

  /** The status check: accepted exactly when its lower-case form is "active"
      or "cancelled"; the text is not trimmed first. */
  function StatusProblems(row: Row): (r: seq<Problem>)
    ensures r == [] <==> CellAt(row, Status).Text? && Lower(CellAt(row, Status).text) in {Active, Cancelled}
    ensures r != [] ==> r == [StatusInvalid(CellAt(row, Status))]
  {
    var c := CellAt(row, Status);
    if c.Missing? || Lower(c.text) !in {Active, Cancelled} then [StatusInvalid(c)] else []
  }

  /** The CRM lifetime-value check: a non-number is one error, a negative
      number another; zero and a missing cell (NaN is not below 0) pass. */
  function LtvProblems(row: Row, toFloat: string -> Option<FloatValue>): (r: seq<Problem>)
    ensures CellAt(row, LtvExpected).Missing? ==> r == []
    ensures CellAt(row, LtvExpected).Text? && toFloat(CellAt(row, LtvExpected).text).None? ==>
              r == [LtvNotNumber(CellAt(row, LtvExpected).text)]
    ensures CellAt(row, LtvExpected).Text? && toFloat(CellAt(row, LtvExpected).text).Some? ==>
              var v := toFloat(CellAt(row, LtvExpected).text).value;
              && (r == [] <==> !IsNegative(v))
              && (r != [] ==> r == [LtvNegative(v)])
  {
    match CellAt(row, LtvExpected)
    case Missing => []
    case Text(s) =>
      match toFloat(s)
      case None => [LtvNotNumber(s)]
      case Some(v) => if IsNegative(v) then [LtvNegative(v)] else []
  }

  /** The problems of one row, in the order `validators.py` checks its columns. */
  function Problems(src: Source, row: Row, toFloat: string -> Option<FloatValue>): seq<Problem>
  {
    match src
    case CarrierRemittance =>
      IdProblems(row) + DateProblems(row, PaidDate) + AmountProblems(row, toFloat) + StatusProblems(row)
    case CrmPolicies =>
      IdProblems(row) + DateProblems(row, SubmitDate) + LtvProblems(row, toFloat)
  }

  /** Reference definition of a row that passes every check of its table. */
  predicate RowIsValid(src: Source, row: Row, toFloat: string -> Option<FloatValue>)
  {
    && IsPresentId(CellAt(row, PolicyId))
    && IsPresentId(CellAt(row, AgentId))
    && match src
       case CarrierRemittance =>
         && CellAt(row, PaidDate).Text? && IsIsoDate(CellAt(row, PaidDate).text)
         && (CellAt(row, Amount).Text? ==> toFloat(CellAt(row, Amount).text).Some?)
         && CellAt(row, Status).Text? && Lower(CellAt(row, Status).text) in {Active, Cancelled}
       case CrmPolicies =>
         && CellAt(row, SubmitDate).Text? && IsIsoDate(CellAt(row, SubmitDate).text)
         && (CellAt(row, LtvExpected).Text? ==>
               toFloat(CellAt(row, LtvExpected).text).Some? && !IsNegative(toFloat(CellAt(row, LtvExpected).text).value))
  }

  /** A row has no problems exactly when it is valid. */
  lemma ProblemsExactlyInvalid(src: Source, row: Row, toFloat: string -> Option<FloatValue>)
    ensures Problems(src, row, toFloat) == [] <==> RowIsValid(src, row, toFloat)
  {
    var ids := IdProblems(row);
    var date := DateProblems(row, if src == CarrierRemittance then PaidDate else SubmitDate);
    if src == CarrierRemittance {
      assert Problems(src, row, toFloat) == ids + date + AmountProblems(row, toFloat) + StatusProblems(row);
    } else {
      assert Problems(src, row, toFloat) == ids + date + LtvProblems(row, toFloat);
    }
  }

  /** The problems of each row, in row order. */
  function ProblemLists(src: Source, rows: seq<Row>, toFloat: string -> Option<FloatValue>): (ps: seq<seq<Problem>>)
    ensures |ps| == |rows|
    ensures forall j :: 0 <= j < |rows| ==> ps[j] == Problems(src, rows[j], toFloat)
  {
    seq(|rows|, j requires 0 <= j < |rows| => Problems(src, rows[j], toFloat))
  }

  /** `r` reports the rows from index `i` on, given each row's problems `ps`:
      one entry per row that has problems, numbered index + 2 (the header is
      line 1), in row order. */
  predicate ReportsRows(ps: seq<seq<Problem>>, i: nat, r: seq<TableError>)
    requires i <= |ps|
  {
    && (forall k :: 0 <= k < |r| ==>
          && r[k].RowProblems?
          && i + 2 <= r[k].rowNumber < |ps| + 2
          && r[k].problems == ps[r[k].rowNumber - 2]
          && r[k].problems != [])
    && (forall k, l :: 0 <= k < l < |r| ==> r[k].rowNumber < r[l].rowNumber)
    && (forall j :: i <= j < |ps| && HasProblems(ps, j) ==>
          exists k :: 0 <= k < |r| && r[k].rowNumber == j + 2)
  }

  /** Row `j` has at least one problem. */
  predicate HasProblems(ps: seq<seq<Problem>>, j: int)
    requires 0 <= j < |ps|
  {
    ps[j] != []
  }

  /** The row loop of the validators, from index `i` on. */
  function RowErrorsFrom(ps: seq<seq<Problem>>, i: nat): (r: seq<TableError>)
    requires i <= |ps|
    ensures ReportsRows(ps, i, r)
    decreases |ps| - i
  {
    if i == |ps| then []
    else
      var rest := RowErrorsFrom(ps, i + 1);
      if ps[i] == [] then
        ReportsRowsSkip(ps, i, rest);
        rest
      else
        ReportsRowsCons(ps, i, rest);
        [RowProblems(i + 2, ps[i])] + rest
  }

  /** A row without problems adds no entry. */
  lemma ReportsRowsSkip(ps: seq<seq<Problem>>, i: nat, rest: seq<TableError>)
    requires i < |ps| && ps[i] == [] && ReportsRows(ps, i + 1, rest)
    ensures ReportsRows(ps, i, rest)
  {
    assert !HasProblems(ps, i);
  }

  /** A row with problems adds its entry in front of the later rows' entries. */
  lemma ReportsRowsCons(ps: seq<seq<Problem>>, i: nat, rest: seq<TableError>)
    requires i < |ps| && ps[i] != [] && ReportsRows(ps, i + 1, rest)
    ensures ReportsRows(ps, i, [RowProblems(i + 2, ps[i])] + rest)
  {
    var r := [RowProblems(i + 2, ps[i])] + rest;
    assert forall k :: 1 <= k < |r| ==> r[k] == rest[k - 1];
    forall j | i <= j < |ps| && HasProblems(ps, j)
      ensures exists k :: 0 <= k < |r| && r[k].rowNumber == j + 2
    {
      if j == i {
        assert r[0].rowNumber == j + 2;
      } else {
        var k :| 0 <= k < |rest| && rest[k].rowNumber == j + 2;
        assert r[k + 1].rowNumber == j + 2;
      }
    }
  }

  /** `validate_carrier_remittance_csv` (src = CarrierRemittance) and
      `validate_crm_policies_csv` (src = CrmPolicies). A missing column is
      the only error and stops the checks; so does an empty table; otherwise
      every row is checked. */
  function ValidateTable(src: Source, t: Table, toFloat: string -> Option<FloatValue>): (r: seq<TableError>)
    ensures !(RequiredColumns(src) <= t.columns) ==> r == [MissingColumns(src, RequiredColumns(src) - t.columns)]
    ensures RequiredColumns(src) <= t.columns && |t.rows| == 0 ==> r == [EmptyTable(src)]
    ensures RequiredColumns(src) <= t.columns && |t.rows| > 0 ==> ReportsRows(ProblemLists(src, t.rows, toFloat), 0, r)
  {
    var missing := RequiredColumns(src) - t.columns;
    assert missing == {} <==> RequiredColumns(src) <= t.columns by {
      if missing == {} {
        forall c | c in RequiredColumns(src) ensures c in t.columns {
          assert c !in missing;
        }
      }
    }
    if missing != {} then [MissingColumns(src, missing)]
    else if |t.rows| == 0 then [EmptyTable(src)]
    else RowErrorsFrom(ProblemLists(src, t.rows, toFloat), 0)
  }

  /** A table passes exactly when it has every required column, at least one
      row, and only valid rows. */
  lemma ValidTableExactly(src: Source, t: Table, toFloat: string -> Option<FloatValue>)
    ensures ValidateTable(src, t, toFloat) == [] <==>
              && RequiredColumns(src) <= t.columns
              && |t.rows| > 0
              && forall j :: 0 <= j < |t.rows| ==> RowIsValid(src, t.rows[j], toFloat)
  {
    if RequiredColumns(src) <= t.columns && |t.rows| > 0 {
      var ps := ProblemLists(src, t.rows, toFloat);
      ReportsNothingExactly(ps, ValidateTable(src, t, toFloat));
      forall j | 0 <= j < |t.rows| ensures ps[j] == [] <==> RowIsValid(src, t.rows[j], toFloat) {
        ProblemsExactlyInvalid(src, t.rows[j], toFloat);
      }
    }
  }

  /** A full report is empty exactly when no row has problems. */
  lemma ReportsNothingExactly(ps: seq<seq<Problem>>, r: seq<TableError>)
    requires ReportsRows(ps, 0, r)
    ensures r == [] <==> forall j :: 0 <= j < |ps| ==> ps[j] == []
  {
    if r != [] {
      var j := r[0].rowNumber - 2;
      assert ps[j] != [];
    } else {
      forall j | 0 <= j < |ps| ensures ps[j] == [] {
        assert !HasProblems(ps, j);
      }
    }
  }

  /** An error of the combined report, tagged with its table. */
  datatype Tagged = Tagged(source: Source, error: TableError)

  /** `validate_csvs`: raises with every carrier error followed by every CRM
      error, and raises exactly when there is at least one. */
  function ValidateCsvs(carrier: Table, crm: Table, toFloat: string -> Option<FloatValue>): (r: Outcome<seq<Tagged>>)
    ensures var ce := ValidateTable(CarrierRemittance, carrier, toFloat);
            var me := ValidateTable(CrmPolicies, crm, toFloat);
            && (r.Fail? <==> ce != [] || me != [])
            && (r.Fail? ==>
                  && |r.error| == |ce| + |me|
                  && (forall k :: 0 <= k < |ce| ==> r.error[k] == Tagged(CarrierRemittance, ce[k]))
                  && (forall k :: 0 <= k < |me| ==> r.error[|ce| + k] == Tagged(CrmPolicies, me[k])))
  {
    var ce := ValidateTable(CarrierRemittance, carrier, toFloat);
    var me := ValidateTable(CrmPolicies, crm, toFloat);
    var all := seq(|ce|, k requires 0 <= k < |ce| => Tagged(CarrierRemittance, ce[k]))
               + seq(|me|, k requires 0 <= k < |me| => Tagged(CrmPolicies, me[k]));
    if all == [] then Pass else Fail(all)
  }

  /** The prefix `validate_csvs` puts before each of a table's errors. */
  function SourcePrefix(src: Source): string
  {
    match src
    case CarrierRemittance => "Carrier Remittance - "
    case CrmPolicies => "CRM Policies - "
  }

  /** The first line of the failure message. */
  const HeaderLine: string := "CSV validation failed:"

  const FailureHeader: string := HeaderLine + "\n"

  /** The message of the raised `ValidationError`, given how one table error
      is written out: a header line, then one prefixed line per error. */
  function FailureMessage(errors: seq<Tagged>, describe: TableError -> string): (m: string)
    ensures |FailureHeader| <= |m| && m[..|FailureHeader|] == FailureHeader
    ensures |errors| == 1 ==> m == FailureHeader + SourcePrefix(errors[0].source) + describe(errors[0].error)
    ensures |errors| >= 1 && (forall k :: 0 <= k < |errors| ==> '\n' !in describe(errors[k].error)) ==>
              && |SplitLines(m)| == |errors| + 1
              && SplitLines(m)[0] == HeaderLine
              && forall k :: 0 <= k < |errors| ==>
                   SplitLines(m)[k + 1] == SourcePrefix(errors[k].source) + describe(errors[k].error)
  {
    var lines := seq(|errors|, k requires 0 <= k < |errors| => SourcePrefix(errors[k].source) + describe(errors[k].error));
    MessageLines(errors, describe, lines);
    FailureHeader + JoinLines(lines)
  }

  /** The header and the error lines split apart again. */
  lemma MessageLines(errors: seq<Tagged>, describe: TableError -> string, lines: seq<string>)
    requires |lines| == |errors|
    requires forall k :: 0 <= k < |errors| ==> lines[k] == SourcePrefix(errors[k].source) + describe(errors[k].error)
    ensures |errors| >= 1 && (forall k :: 0 <= k < |errors| ==> '\n' !in describe(errors[k].error)) ==>
              SplitLines(FailureHeader + JoinLines(lines)) == [HeaderLine] + lines
  {
    if |errors| >= 1 && (forall k :: 0 <= k < |errors| ==> '\n' !in describe(errors[k].error)) {
      var all := [HeaderLine] + lines;
      assert FailureHeader + JoinLines(lines) == HeaderLine + "\n" + JoinLines(lines);
      JoinLinesCons(HeaderLine, lines);
      ErrorLinesSingle(errors, describe, lines);
      HeaderSingleLine();
      assert forall k :: 0 <= k < |all| ==> '\n' !in all[k] by {
        forall k | 0 <= k < |all| ensures '\n' !in all[k] {
          if k > 0 {
            assert all[k] == lines[k - 1];
          }
        }
      }
      SplitJoin(all);
    }
  }

  /** No error line holds a newline when no description does. */
  lemma ErrorLinesSingle(errors: seq<Tagged>, describe: TableError -> string, lines: seq<string>)
    requires |lines| == |errors|
    requires forall k :: 0 <= k < |errors| ==> lines[k] == SourcePrefix(errors[k].source) + describe(errors[k].error)
    requires forall k :: 0 <= k < |errors| ==> '\n' !in describe(errors[k].error)
    ensures forall k :: 0 <= k < |lines| ==> '\n' !in lines[k]
  {
    forall k | 0 <= k < |lines| ensures '\n' !in lines[k] {
      var e := errors[k];
      PrefixSingleLine(e.source);
      assert lines[k] == SourcePrefix(e.source) + describe(e.error);
    }
  }

  lemma HeaderSingleLine()
    ensures '\n' !in HeaderLine
  {
  }

  lemma PrefixSingleLine(src: Source)
    ensures '\n' !in SourcePrefix(src)
  {
  }

  /** `.str.strip()` of an id column; NaN stays NaN. */
  function CleanId(c: Cell): Cell
  {
    match c
    case Missing => Missing
    case Text(s) => Text(Strip(s))
  }

  /** `.str.lower().str.strip()` of the status column. */
  function CleanStatus(c: Cell): Cell
  {
    match c
    case Missing => Missing
    case Text(s) => Text(Strip(Lower(s)))
  }

  /** The string columns `clean_and_prepare_data` rewrites in a table. */
  function CleanedColumns(src: Source): set<Column>
  {
    match src
    case CarrierRemittance => {PolicyId, AgentId, Status}
    case CrmPolicies => {PolicyId, AgentId}
  }

  /** One row after cleaning: ids trimmed, the carrier status lower-cased
      then trimmed, every other cell untouched. */
  function CleanRow(src: Source, row: Row): (r: Row)
    ensures CellAt(r, PolicyId) == CleanId(CellAt(row, PolicyId))
    ensures CellAt(r, AgentId) == CleanId(CellAt(row, AgentId))
    ensures src == CarrierRemittance ==> CellAt(r, Status) == CleanStatus(CellAt(row, Status))
    ensures forall col :: col !in CleanedColumns(src) ==> CellAt(r, col) == CellAt(row, col)
    ensures r.Keys == row.Keys + CleanedColumns(src)
  {
    var ids := row[PolicyId := CleanId(CellAt(row, PolicyId))][AgentId := CleanId(CellAt(row, AgentId))];
    if src == CarrierRemittance then ids[Status := CleanStatus(CellAt(row, Status))] else ids
  }

  /** The string normalisation of `clean_and_prepare_data` for one table:
      same columns, same rows in the same order, each row cleaned. */
  function CleanTable(src: Source, t: Table): (r: Table)
    requires CleanedColumns(src) <= t.columns
    ensures r.columns == t.columns && |r.rows| == |t.rows|
    ensures forall i :: 0 <= i < |t.rows| ==>
              && CellAt(r.rows[i], PolicyId) == CleanId(CellAt(t.rows[i], PolicyId))
              && CellAt(r.rows[i], AgentId) == CleanId(CellAt(t.rows[i], AgentId))
    ensures src == CarrierRemittance ==> forall i :: 0 <= i < |t.rows| ==>
              CellAt(r.rows[i], Status) == CleanStatus(CellAt(t.rows[i], Status))
    ensures forall i, col :: 0 <= i < |t.rows| && col !in CleanedColumns(src) ==>
              CellAt(r.rows[i], col) == CellAt(t.rows[i], col)
  {
    Table(t.columns, seq(|t.rows|, i requires 0 <= i < |t.rows| => CleanRow(src, t.rows[i])))
  }

  /** `after` is `before` with its string columns cleaned: same columns,
      same rows in order, ids trimmed, the carrier status lower-cased then
      trimmed, every other cell as it was. */
  ghost predicate CleanedFrom(src: Source, before: Table, after: Table)
  {
    && after.columns == before.columns && |after.rows| == |before.rows|
    && (forall i :: 0 <= i < |before.rows| ==>
          && CellAt(after.rows[i], PolicyId) == CleanId(CellAt(before.rows[i], PolicyId))
          && CellAt(after.rows[i], AgentId) == CleanId(CellAt(before.rows[i], AgentId)))
    && (src == CarrierRemittance ==> forall i :: 0 <= i < |before.rows| ==>
          CellAt(after.rows[i], Status) == CleanStatus(CellAt(before.rows[i], Status)))
    && (forall i, col :: 0 <= i < |before.rows| && col !in CleanedColumns(src) ==>
          CellAt(after.rows[i], col) == CellAt(before.rows[i], col))
  }

  /** `clean_and_prepare_data`, string effects only: both tables cleaned,
      the carrier table with its status column and the CRM table without. */
  function CleanAndPrepare(carrier: Table, crm: Table): (r: (Table, Table))
    requires CleanedColumns(CarrierRemittance) <= carrier.columns
    requires CleanedColumns(CrmPolicies) <= crm.columns
    ensures CleanedFrom(CarrierRemittance, carrier, r.0)
    ensures CleanedFrom(CrmPolicies, crm, r.1)
  {
    (CleanTable(CarrierRemittance, carrier), CleanTable(CrmPolicies, crm))
  }

  lemma CleanIdIdempotent(c: Cell)
    ensures CleanId(CleanId(c)) == CleanId(c)
  {
    if c.Text? {
      StripIdempotent(c.text);
    }
  }

  lemma CleanStatusIdempotent(c: Cell)
    ensures CleanStatus(CleanStatus(c)) == CleanStatus(c)
  {
    if c.Text? {
      var s := c.text;
      StripLowerCommute(s);
      LowerIdempotent(Strip(s));
      StripIdempotent(Lower(s));
      assert Strip(Lower(Strip(Lower(s)))) == Strip(Lower(Lower(Strip(s))));
    }
  }

  /** Cleaning a cleaned row changes no cell. */
  lemma CleanRowCellStable(src: Source, row: Row, col: Column)
    ensures CellAt(CleanRow(src, CleanRow(src, row)), col) == CellAt(CleanRow(src, row), col)
  {
    if col == PolicyId || col == AgentId {
      CleanIdIdempotent(CellAt(row, col));
    } else if col == Status && src == CarrierRemittance {
      CleanStatusIdempotent(CellAt(row, col));
    }
  }

  /** Cleaning a cleaned row changes nothing. */
  lemma CleanRowIdempotent(src: Source, row: Row)
    ensures CleanRow(src, CleanRow(src, row)) == CleanRow(src, row)
  {
    var once := CleanRow(src, row);
    var twice := CleanRow(src, once);
    forall col | col in twice ensures twice[col] == once[col] {
      CleanRowCellStable(src, row, col);
    }
  }

  /** Cleaning a cleaned table changes nothing. */
  lemma CleanTableIdempotent(src: Source, t: Table)
    requires CleanedColumns(src) <= t.columns
    ensures CleanTable(src, CleanTable(src, t)) == CleanTable(src, t)
  {
    var once := CleanTable(src, t);
    var twice := CleanTable(src, once);
    forall i | 0 <= i < |t.rows| ensures twice.rows[i] == once.rows[i] {
      CleanRowIdempotent(src, t.rows[i]);
    }
  }

  /** A valid carrier row comes out of cleaning with non-blank trimmed ids and
      a status that is exactly "active" or "cancelled", the form the engine
      compares against. */
  lemma CleanedValidCarrierRow(row: Row, toFloat: string -> Option<FloatValue>)
    requires RowIsValid(CarrierRemittance, row, toFloat)
    ensures var clean := CleanRow(CarrierRemittance, row);
            && IsPresentId(CellAt(clean, PolicyId))
            && IsPresentId(CellAt(clean, AgentId))
            && CellAt(clean, Status) in {Text(Active), Text(Cancelled)}
  {
    CleanIdPresent(CellAt(row, PolicyId));
    CleanIdPresent(CellAt(row, AgentId));
    CleanStatusCanonical(CellAt(row, Status).text);
  }

  /** A present id stays present after trimming. */
  lemma CleanIdPresent(c: Cell)
    requires IsPresentId(c)
    ensures IsPresentId(CleanId(c))
  {
    StripBlankFree(c.text);
  }

  /** A status accepted by validation cleans to exactly "active" or "cancelled". */
  lemma CleanStatusCanonical(s: string)
    requires Lower(s) in {Active, Cancelled}
    ensures Strip(Lower(s)) in {Active, Cancelled}
  {
    StripOfTrimmed(Lower(s));
  }

  /** Stripping a text that is not blank leaves a text that is not blank. */
  lemma StripBlankFree(s: string)
    requires !IsBlank(s)
    ensures !IsBlank(Strip(s))
  {
    var r := Strip(s);
    assert r != [];
    assert !IsSpace(r[0]);
  }

  /** Status matching ignores case: "ACTIVE" is accepted. */
  lemma StatusIgnoresCase(row: Row)
    requires CellAt(row, Status) == Text("ACTIVE")
    ensures StatusProblems(row) == []
  {
    assert Lower("ACTIVE") == Active;
  }

  /** Status matching does not trim: " active" is rejected. */
  lemma StatusNotTrimmed(row: Row)
    requires CellAt(row, Status) == Text(" active")
    ensures StatusProblems(row) == [StatusInvalid(Text(" active"))]
  {
    assert Lower(" active")[0] == ' ';
  }

  /** A claw-back amount is a valid amount. */
  lemma NegativeAmountAccepted(row: Row, toFloat: string -> Option<FloatValue>, x: real)
    requires CellAt(row, Amount).Text? && toFloat(CellAt(row, Amount).text) == Some(Finite(x))
    requires x < 0.0
    ensures AmountProblems(row, toFloat) == []
  {
  }

  /** A zero lifetime value is accepted, a negative one is not. */
  lemma LtvZeroBoundary(row: Row, toFloat: string -> Option<FloatValue>)
    requires CellAt(row, LtvExpected).Text? && toFloat(CellAt(row, LtvExpected).text).Some?
    requires toFloat(CellAt(row, LtvExpected).text).value.Finite?
    ensures toFloat(CellAt(row, LtvExpected).text).value.value == 0.0 ==> LtvProblems(row, toFloat) == []
    ensures toFloat(CellAt(row, LtvExpected).text).value.value < 0.0 ==> LtvProblems(row, toFloat) != []
  {
  }
}
