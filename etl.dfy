/**
 * `process_etl_batch`: for every uploaded file, a plan of eight aliased
 * polars expressions (one per canonical field) is built from the file's
 * column names and the user's mapping; the plan is evaluated against the
 * file; the tables of the files that are non-empty and evaluate without an
 * error are concatenated in file order.
 */
module Etl {
  import opened Wrappers
  import opened Text
  import opened Grouping

  type Name = string

  /** A calendar day (days from an epoch) and a time of day (microseconds). */
  datatype Date = Date(day: int)
  datatype Time = Time(micros: nat)
  datatype DateTime = DateTime(date: Date, time: Time)

  /** A date or time pattern polars may infer for a column. */
  datatype Format = Format(pattern: string)

  /**
   * The parsers polars applies, left abstract. `str.to_datetime` and
   * `str.to_time` are given no format, so polars first infers one pattern
   * from the column's cells (`datetimeFormat`, `timeFormat`; `None` when it
   * finds none, and evaluation then raises whatever `strict` says) and then
   * parses every cell of that column with that one pattern (`toDatetime`,
   * `toTime`). The cast to Float64 (`toFloat`) reads each cell on its own.
   * With `strict=False` a cell that does not parse becomes null, which is
   * `None` here.
   */
  datatype Parsers = Parsers(
    toDatetime: (Format, string) -> Option<DateTime>,
    toTime: (Format, string) -> Option<Time>,
    toFloat: string -> Option<real>,
    datetimeFormat: seq<Option<string>> -> Option<Format>,
    timeFormat: seq<Option<string>> -> Option<Format>)

  /**
   * A file as the reader returns it: named columns, each of text type or not
   * (CSV files are read all-as-text; spreadsheets may carry typed columns),
   * and rows giving each cell's text form, or null. A file that could not be
   * read is the empty table.
   */
  datatype Column = Column(name: Name, isText: bool)
  datatype RawTable = RawTable(columns: seq<Column>, rows: seq<map<Name, Option<string>>>)

  /** The mapping the user saved (target field to source column) and the date/time split settings. */
  datatype Config = Config(mapping: map<Name, Name>, splitDt: bool, dtSource: Option<Name>)

  /** One row of a normalised table: the eight canonical columns. */
  datatype Record = Record(
    deposito: Option<string>,
    sku: Option<string>,
    pedido: Option<string>,
    caixa: Option<string>,
    data: Option<Date>,
    hora: Option<Time>,
    quantidade: Option<real>,
    rota: Option<string>)

  const DEPOSITO: Name := "Depósito"
  const SKU: Name := "SKU"
  const PEDIDO: Name := "Pedido"
  const CAIXA: Name := "Caixa"
  const DATA: Name := "Data"
  const HORA: Name := "Hora"
  const QUANTIDADE: Name := "Quantidade"
  const ROTA: Name := "Rota/Destino"

  /** The output columns, in output order. */
  const Required: seq<Name> := [DEPOSITO, SKU, PEDIDO, CAIXA, DATA, HORA, QUANTIDADE, ROTA]
  /** The fields that never come from the combined date/time column. */
  const Others: seq<Name> := [DEPOSITO, SKU, PEDIDO, CAIXA, QUANTIDADE, ROTA]
  /** The order in which the plan lists its expressions. */
  const PlanOrder: seq<Name> := [DATA, HORA] + Others
  /** The first choice of every mapping drop-down; an ordinary column name to the engine. */
  const IGNORE: Name := "--- Ignorar ---"

  function ColumnNames(t: RawTable): (r: seq<Name>)
    ensures |r| == |t.columns|
    ensures forall k :: 0 <= k < |r| ==> r[k] == t.columns[k].name
  {
    seq(|t.columns|, k requires 0 <= k < |t.columns| => t.columns[k].name)
  }

  predicate IsTextColumn(t: RawTable, c: Name) {
    exists k :: 0 <= k < |t.columns| && t.columns[k].name == c && t.columns[k].isText
  }

  function Cell(t: RawTable, i: nat, c: Name): Option<string> {
    if i < |t.rows| && c in t.rows[i] then t.rows[i][c] else None
  }

  /** The cells of column `c`, top to bottom. */
  function ColumnCells(t: RawTable, c: Name): (r: seq<Option<string>>)
    ensures |r| == |t.rows|
    ensures forall i :: 0 <= i < |t.rows| ==> r[i] == Cell(t, i, c)
  {
    seq(|t.rows|, i requires 0 <= i < |t.rows| => Cell(t, i, c))
  }

  // ---------------------------------------------------------------------------
  // The plan
  // ---------------------------------------------------------------------------

  /** The polars expressions the plan is built from. */
  datatype Expr =
    | ToDate(src: Name)            // col(src).str.to_datetime(strict=False).dt.date()
    | ToTimeOfDatetime(src: Name)  // col(src).str.to_datetime(strict=False).dt.time()
    | ToTime(src: Name)            // col(src).str.to_time(strict=False)
    | ToQuantity(src: Name)        // col(src).cast(Utf8).str.replace(",", ".").cast(Float64, strict=False)
    | ToText(src: Name)            // col(src).cast(Utf8, strict=False)
    | NullLit                      // lit(None)

  datatype Aliased = Aliased(expr: Expr, name: Name)

  /** `mapping.get(target)`, kept only when it is a non-empty name of one of the file's columns. */
  function Mapped(mapping: map<Name, Name>, target: Name, columns: seq<Name>): Option<Name> {
    if target in mapping && mapping[target] != "" && mapping[target] in columns
    then Some(mapping[target]) else None
  }

  /** Date and time both come from the combined column. */
  predicate SplitsDatetime(columns: seq<Name>, cfg: Config) {
    cfg.splitDt && cfg.dtSource.Some? && cfg.dtSource.value in columns
  }

  /** The expression that produces canonical field `target` of a file with these columns. */
  function Source(target: Name, columns: seq<Name>, cfg: Config): Expr {
    if target == DATA && SplitsDatetime(columns, cfg) then ToDate(cfg.dtSource.value)
    else if target == HORA && SplitsDatetime(columns, cfg) then ToTimeOfDatetime(cfg.dtSource.value)
    else
      match Mapped(cfg.mapping, target, columns)
      case None => NullLit
      case Some(src) =>
        if target == DATA then ToDate(src)
        else if target == HORA then ToTime(src)
        else if target == QUANTIDADE then ToQuantity(src)
        else ToText(src)
  }

  /** The plan: one aliased expression per field, in plan order. */
  function Plan(columns: seq<Name>, cfg: Config): (plan: seq<Aliased>)
    ensures |plan| == |PlanOrder|
  {
    seq(|PlanOrder|, k requires 0 <= k < |PlanOrder| =>
      Aliased(Source(PlanOrder[k], columns, cfg), PlanOrder[k]))
  }

  /** Builds the expression list of one file, step by step, as the loop of the batch does. */
  method BuildPlan(columns: seq<Name>, cfg: Config) returns (exprs: seq<Aliased>)
    ensures exprs == Plan(columns, cfg)
  {
    ghost var plan := Plan(columns, cfg);
    exprs := [];
    if cfg.splitDt && cfg.dtSource.Some? && cfg.dtSource.value in columns {
      var tc := cfg.dtSource.value;
      exprs := exprs + [Aliased(ToDate(tc), DATA), Aliased(ToTimeOfDatetime(tc), HORA)];
    } else {
      var temporal := [DATA, HORA];
      for k := 0 to 2
        invariant exprs == plan[..k]
      {
        var target := temporal[k];
        var src := if target in cfg.mapping then Some(cfg.mapping[target]) else None;
        if src.Some? && src.value != "" && src.value in columns {
          if target == DATA {
            exprs := exprs + [Aliased(ToDate(src.value), DATA)];
          } else {
            exprs := exprs + [Aliased(ToTime(src.value), HORA)];
          }
        } else {
          exprs := exprs + [Aliased(NullLit, target)];
        }
      }
    }
    assert exprs == plan[..2];
    for k := 0 to |Others|
      invariant exprs == plan[..2 + k]
    {
      var target := Others[k];
      var src := if target in cfg.mapping then Some(cfg.mapping[target]) else None;
      if src.Some? && src.value != "" && src.value in columns {
        if target == QUANTIDADE {
          exprs := exprs + [Aliased(ToQuantity(src.value), target)];
        } else {
          exprs := exprs + [Aliased(ToText(src.value), target)];
        }
      } else {
        exprs := exprs + [Aliased(NullLit, target)];
      }
    }
    assert exprs == plan[..|plan|];
  }

  function Names(plan: seq<Aliased>): (r: seq<Name>)
    ensures |r| == |plan|
    ensures forall k :: 0 <= k < |plan| ==> r[k] == plan[k].name
  {
    seq(|plan|, k requires 0 <= k < |plan| => plan[k].name)
  }

  /** The required columns the selection did not produce (the list the fill step adds as nulls). */
  function Missing(names: seq<Name>): seq<Name> {
    Filter(Required, c => c !in names)
  }

  /**
   * `df_proc.select(required_cols)` after the fill: the first expression aliased
   * `name`, or the null literal the fill step adds when there is none.
   */
  function Lookup(plan: seq<Aliased>, name: Name): Expr
    decreases |plan|
  {
    if plan == [] then NullLit
    else if plan[0].name == name then plan[0].expr
    else Lookup(plan[1..], name)
  }

  lemma {:induction false} LookupAt(plan: seq<Aliased>, name: Name, j: nat)
    requires j < |plan| && plan[j].name == name
    requires forall i :: 0 <= i < j ==> plan[i].name != name
    ensures Lookup(plan, name) == plan[j].expr
    decreases j
  {
    if j > 0 {
      LookupAt(plan[1..], name, j - 1);
    }
  }

  /** The plan order lists every required column exactly once. */
  lemma PlanOrderIsRequired()
    ensures NoDuplicates(PlanOrder)
    ensures forall f :: f in Required <==> f in PlanOrder
  {
    assert PlanOrder == [DATA, HORA, DEPOSITO, SKU, PEDIDO, CAIXA, QUANTIDADE, ROTA];
  }

  /**
   * The plan names every required column exactly once, so the fill of missing
   * columns adds nothing.
   */
  lemma PlanCoversRequired(columns: seq<Name>, cfg: Config)
    ensures Names(Plan(columns, cfg)) == PlanOrder
    ensures Missing(Names(Plan(columns, cfg))) == []
  {
    var plan := Plan(columns, cfg);
    assert Names(plan) == PlanOrder;
    PlanOrderIsRequired();
    FilterNone(Required, c => c !in PlanOrder);
  }

  /** Selecting a required column picks the expression the plan derived for that field. */
  lemma LookupPlan(columns: seq<Name>, cfg: Config, f: Name)
    requires f in Required
    ensures Lookup(Plan(columns, cfg), f) == Source(f, columns, cfg)
  {
    var plan := Plan(columns, cfg);
    PlanOrderIsRequired();
    var j :| 0 <= j < |PlanOrder| && PlanOrder[j] == f;
    LookupAt(plan, f, j);
  }

  // ---------------------------------------------------------------------------
  // Evaluating the plan against one file
  // ---------------------------------------------------------------------------

  /** What one expression yields for one row. */
  datatype Value = VNull | VText(s: string) | VDate(d: Date) | VTime(tm: Time) | VNum(x: real)

  /**
   * The date of one cell parsed with the column's inferred format. Without a
   * format the whole file is skipped, so that case never reaches a table.
   */
  function DatePart(P: Parsers, fmt: Option<Format>, cell: Option<string>): Option<Date> {
    if fmt.None? || cell.None? then None
    else match P.toDatetime(fmt.value, cell.value) case None => None case Some(dt) => Some(dt.date)
  }

  function TimePart(P: Parsers, fmt: Option<Format>, cell: Option<string>): Option<Time> {
    if fmt.None? || cell.None? then None
    else match P.toDatetime(fmt.value, cell.value) case None => None case Some(dt) => Some(dt.time)
  }

  function TimeOf(P: Parsers, fmt: Option<Format>, cell: Option<string>): Option<Time> {
    if fmt.None? || cell.None? then None
    else P.toTime(fmt.value, cell.value)
  }

  /** The quantity read from one cell: the first comma becomes a point, then the float parse. */
  function QuantityOf(P: Parsers, cell: Option<string>): Option<real> {
    match cell
    case None => None
    case Some(s) => P.toFloat(ReplaceFirst(s, ',', '.'))
  }

  function Eval(t: RawTable, e: Expr, i: nat, P: Parsers): Value {
    match e
    case ToDate(src) =>
      (match DatePart(P, P.datetimeFormat(ColumnCells(t, src)), Cell(t, i, src)) case None => VNull case Some(d) => VDate(d))
    case ToTimeOfDatetime(src) =>
      (match TimePart(P, P.datetimeFormat(ColumnCells(t, src)), Cell(t, i, src)) case None => VNull case Some(tm) => VTime(tm))
    case ToTime(src) =>
      (match TimeOf(P, P.timeFormat(ColumnCells(t, src)), Cell(t, i, src)) case None => VNull case Some(tm) => VTime(tm))
    case ToQuantity(src) => (match QuantityOf(P, Cell(t, i, src)) case None => VNull case Some(x) => VNum(x))
    case ToText(src) => (match Cell(t, i, src) case None => VNull case Some(s) => VText(s))
    case NullLit => VNull
  }

  /** Polars infers a format for the column a temporal parse reads; other expressions infer nothing. */
  predicate FormatFound(t: RawTable, e: Expr, P: Parsers) {
    match e
    case ToDate(src) => P.datetimeFormat(ColumnCells(t, src)).Some?
    case ToTimeOfDatetime(src) => P.datetimeFormat(ColumnCells(t, src)).Some?
    case ToTime(src) => P.timeFormat(ColumnCells(t, src)).Some?
    case _ => true
  }

  /**
   * Evaluating `e` raises: the column is missing, a `.str` parse is applied
   * to a column that is not of text type, or no format can be inferred for
   * a temporal parse.
   */
  predicate Fails(t: RawTable, e: Expr, P: Parsers) {
    match e
    case ToDate(src) => !IsTextColumn(t, src) || !FormatFound(t, e, P)
    case ToTimeOfDatetime(src) => !IsTextColumn(t, src) || !FormatFound(t, e, P)
    case ToTime(src) => !IsTextColumn(t, src) || !FormatFound(t, e, P)
    case ToQuantity(src) => src !in ColumnNames(t)
    case ToText(src) => src !in ColumnNames(t)
    case NullLit => false
  }

  /** Some expression of the plan reads a column of the file. */
  predicate ReadsColumns(plan: seq<Aliased>) {
    exists k :: 0 <= k < |plan| && plan[k].expr != NullLit
  }

  /** A selection of literals alone has one row; otherwise the literals are broadcast. */
  function Height(t: RawTable, plan: seq<Aliased>): nat {
    if ReadsColumns(plan) then |t.rows| else 1
  }

  function AsText(v: Value): Option<string> { if v.VText? then Some(v.s) else None }
  function AsDate(v: Value): Option<Date> { if v.VDate? then Some(v.d) else None }
  function AsTime(v: Value): Option<Time> { if v.VTime? then Some(v.tm) else None }
  function AsNum(v: Value): Option<real> { if v.VNum? then Some(v.x) else None }

  /** Row `i` of `select(required_cols)`. */
  function RowOf(t: RawTable, plan: seq<Aliased>, i: nat, P: Parsers): Record {
    Record(
      AsText(Eval(t, Lookup(plan, DEPOSITO), i, P)),
      AsText(Eval(t, Lookup(plan, SKU), i, P)),
      AsText(Eval(t, Lookup(plan, PEDIDO), i, P)),
      AsText(Eval(t, Lookup(plan, CAIXA), i, P)),
      AsDate(Eval(t, Lookup(plan, DATA), i, P)),
      AsTime(Eval(t, Lookup(plan, HORA), i, P)),
      AsNum(Eval(t, Lookup(plan, QUANTIDADE), i, P)),
      AsText(Eval(t, Lookup(plan, ROTA), i, P)))
  }

  /** `df_raw.select(exprs)`, the fill and the final selection; `None` when evaluation raises. */
  function Normalize(t: RawTable, plan: seq<Aliased>, P: Parsers): Option<seq<Record>> {
    if exists k :: 0 <= k < |plan| && Fails(t, plan[k].expr, P) then None
    else Some(seq(Height(t, plan), i requires 0 <= i < Height(t, plan) => RowOf(t, plan, i, P)))
  }

  /** The table one file contributes to the batch, or `None` when the file is skipped. */
  function FileTable(t: RawTable, cfg: Config, P: Parsers): Option<seq<Record>> {
    if |t.rows| == 0 then None
    else Normalize(t, Plan(ColumnNames(t), cfg), P)
  }

  /** The cell a field reads from row `i`, through the mapping; null when the field is unmapped. */
  function MappedCell(t: RawTable, cfg: Config, f: Name, i: nat): Option<string> {
    match Mapped(cfg.mapping, f, ColumnNames(t))
    case None => None
    case Some(src) => Cell(t, i, src)
  }

  /** The cells of the column mapped to field `f`; none when the field is unmapped. */
  function MappedCells(t: RawTable, cfg: Config, f: Name): seq<Option<string>> {
    match Mapped(cfg.mapping, f, ColumnNames(t))
    case None => []
    case Some(src) => ColumnCells(t, src)
  }

  /** Field `f` of `r` is null. */
  predicate IsNullAt(r: Record, f: Name) {
    if f == DEPOSITO then r.deposito.None?
    else if f == SKU then r.sku.None?
    else if f == PEDIDO then r.pedido.None?
    else if f == CAIXA then r.caixa.None?
    else if f == DATA then r.data.None?
    else if f == HORA then r.hora.None?
    else if f == QUANTIDADE then r.quantidade.None?
    else r.rota.None?
  }

  /** Some canonical field is derived from a column of the file. */
  predicate AnyFieldDerived(columns: seq<Name>, cfg: Config) {
    exists k :: 0 <= k < |Required| && Source(Required[k], columns, cfg) != NullLit
  }

  lemma ReadsColumnsIff(columns: seq<Name>, cfg: Config)
    ensures ReadsColumns(Plan(columns, cfg)) <==> AnyFieldDerived(columns, cfg)
  {
    var plan := Plan(columns, cfg);
    PlanOrderIsRequired();
    if ReadsColumns(plan) {
      var k :| 0 <= k < |plan| && plan[k].expr != NullLit;
      assert PlanOrder[k] in PlanOrder;
      var j :| 0 <= j < |Required| && Required[j] == PlanOrder[k];
      assert Source(Required[j], columns, cfg) != NullLit;
    }
    if AnyFieldDerived(columns, cfg) {
      var j :| 0 <= j < |Required| && Source(Required[j], columns, cfg) != NullLit;
      assert Required[j] in Required;
      var k :| 0 <= k < |PlanOrder| && PlanOrder[k] == Required[j];
      assert plan[k].expr != NullLit;
    }
  }

  /**
   * A file is skipped exactly when it is empty or one of its field expressions
   * raises on evaluation.
   */
  lemma FileSkippedIff(t: RawTable, cfg: Config, P: Parsers)
    ensures FileTable(t, cfg, P).None? <==>
      |t.rows| == 0 || exists k :: 0 <= k < |Required| && Fails(t, Source(Required[k], ColumnNames(t), cfg), P)
  {
    var plan := Plan(ColumnNames(t), cfg);
    PlanOrderIsRequired();
    if exists k :: 0 <= k < |plan| && Fails(t, plan[k].expr, P) {
      var k :| 0 <= k < |plan| && Fails(t, plan[k].expr, P);
      assert PlanOrder[k] in PlanOrder;
      var j :| 0 <= j < |Required| && Required[j] == PlanOrder[k];
      assert Fails(t, Source(Required[j], ColumnNames(t), cfg), P);
    }
    if exists j :: 0 <= j < |Required| && Fails(t, Source(Required[j], ColumnNames(t), cfg), P) {
      var j :| 0 <= j < |Required| && Fails(t, Source(Required[j], ColumnNames(t), cfg), P);
      assert Required[j] in Required;
      var k :| 0 <= k < |PlanOrder| && PlanOrder[k] == Required[j];
      assert Fails(t, plan[k].expr, P);
    }
  }

  /**
   * A non-empty file read all-as-text (every CSV) is skipped exactly when
   * polars cannot infer a format for the column of one of its date or time
   * parses.
   */
  lemma TextFileSkippedIff(t: RawTable, cfg: Config, P: Parsers)
    requires |t.rows| > 0
    requires forall k :: 0 <= k < |t.columns| ==> t.columns[k].isText
    ensures FileTable(t, cfg, P).None? <==>
      exists j :: 0 <= j < |Required| && !FormatFound(t, Source(Required[j], ColumnNames(t), cfg), P)
  {
    var columns := ColumnNames(t);
    forall j | 0 <= j < |Required|
      ensures Fails(t, Source(Required[j], columns, cfg), P) <==> !FormatFound(t, Source(Required[j], columns, cfg), P)
    {
      var e := Source(Required[j], columns, cfg);
      if e != NullLit {
        assert e.src in columns;
        var k :| 0 <= k < |columns| && columns[k] == e.src;
        assert t.columns[k].name == e.src && t.columns[k].isText;
      }
    }
    FileSkippedIff(t, cfg, P);
  }

  /** The Data column of a CSV whose cells give polars no format drops the whole file. */
  lemma UninferableDateSkipsFile(t: RawTable, cfg: Config, P: Parsers, src: Name)
    requires Source(DATA, ColumnNames(t), cfg) == ToDate(src)
    requires P.datetimeFormat(ColumnCells(t, src)).None?
    ensures FileTable(t, cfg, P).None?
  {
    FileSkippedIff(t, cfg, P);
    assert Required[4] == DATA;
    assert !FormatFound(t, Source(Required[4], ColumnNames(t), cfg), P);
  }

  /**
   * A surviving file contributes one row per input row when some field is
   * derived from a column, and a single row of nulls otherwise; never nothing.
   */
  lemma FileTableHeight(t: RawTable, cfg: Config, P: Parsers)
    requires FileTable(t, cfg, P).Some?
    ensures |FileTable(t, cfg, P).value| == if AnyFieldDerived(ColumnNames(t), cfg) then |t.rows| else 1
    ensures |FileTable(t, cfg, P).value| >= 1
    ensures !AnyFieldDerived(ColumnNames(t), cfg) ==>
      FileTable(t, cfg, P).value == [Record(None, None, None, None, None, None, None, None)]
  {
    var columns := ColumnNames(t);
    ReadsColumnsIff(columns, cfg);
    if !AnyFieldDerived(columns, cfg) {
      var plan := Plan(columns, cfg);
      forall f | f in Required
        ensures Lookup(plan, f) == NullLit
      {
        LookupPlan(columns, cfg, f);
      }
      assert FileTable(t, cfg, P).value[0] == RowOf(t, plan, 0, P);
    }
  }

  /** Row `i` of a file's table is computed from row `i` of the file by the plan. */
  lemma RowIsPlanned(t: RawTable, cfg: Config, P: Parsers, i: nat)
    requires FileTable(t, cfg, P).Some? && i < |FileTable(t, cfg, P).value|
    ensures FileTable(t, cfg, P).value[i] == RowOf(t, Plan(ColumnNames(t), cfg), i, P)
  {
  }

  /**
   * Every field but the two temporal ones is read from its own mapped column:
   * the text fields take the cell's text (this lemma: Depósito, SKU, Pedido) ...
   */
  lemma MappedKeyFields(t: RawTable, cfg: Config, P: Parsers, i: nat)
    requires FileTable(t, cfg, P).Some? && i < |FileTable(t, cfg, P).value|
    ensures var r := FileTable(t, cfg, P).value[i];
      && r.deposito == MappedCell(t, cfg, DEPOSITO, i)
      && r.sku == MappedCell(t, cfg, SKU, i)
      && r.pedido == MappedCell(t, cfg, PEDIDO, i)
  {
    var columns := ColumnNames(t);
    RowIsPlanned(t, cfg, P, i);
    LookupPlan(columns, cfg, DEPOSITO);
    LookupPlan(columns, cfg, SKU);
    LookupPlan(columns, cfg, PEDIDO);
  }

  /** ... (this lemma: Caixa, Rota/Destino), and the quantity the parse of its cell. */
  lemma MappedOtherFields(t: RawTable, cfg: Config, P: Parsers, i: nat)
    requires FileTable(t, cfg, P).Some? && i < |FileTable(t, cfg, P).value|
    ensures var r := FileTable(t, cfg, P).value[i];
      && r.caixa == MappedCell(t, cfg, CAIXA, i)
      && r.quantidade == QuantityOf(P, MappedCell(t, cfg, QUANTIDADE, i))
      && r.rota == MappedCell(t, cfg, ROTA, i)
  {
    var columns := ColumnNames(t);
    RowIsPlanned(t, cfg, P, i);
    LookupPlan(columns, cfg, CAIXA);
    LookupPlan(columns, cfg, QUANTIDADE);
    LookupPlan(columns, cfg, ROTA);
  }

  /** With the split on and the combined column present, both date and time come from it. */
  lemma SplitDatetimeFields(t: RawTable, cfg: Config, P: Parsers, i: nat)
    requires SplitsDatetime(ColumnNames(t), cfg)
    requires FileTable(t, cfg, P).Some? && i < |FileTable(t, cfg, P).value|
    ensures P.datetimeFormat(ColumnCells(t, cfg.dtSource.value)).Some?
    ensures var fmt := P.datetimeFormat(ColumnCells(t, cfg.dtSource.value));
      && FileTable(t, cfg, P).value[i].data == DatePart(P, fmt, Cell(t, i, cfg.dtSource.value))
      && FileTable(t, cfg, P).value[i].hora == TimePart(P, fmt, Cell(t, i, cfg.dtSource.value))
  {
    RowIsPlanned(t, cfg, P, i);
    LookupPlan(ColumnNames(t), cfg, DATA);
    LookupPlan(ColumnNames(t), cfg, HORA);
    FileSkippedIff(t, cfg, P);
    assert Required[4] == DATA;
  }

  /** Otherwise the date and the time are each read from their own mapped column. */
  lemma OwnDatetimeFields(t: RawTable, cfg: Config, P: Parsers, i: nat)
    requires !SplitsDatetime(ColumnNames(t), cfg)
    requires FileTable(t, cfg, P).Some? && i < |FileTable(t, cfg, P).value|
    ensures Mapped(cfg.mapping, DATA, ColumnNames(t)).Some? ==> P.datetimeFormat(MappedCells(t, cfg, DATA)).Some?
    ensures Mapped(cfg.mapping, HORA, ColumnNames(t)).Some? ==> P.timeFormat(MappedCells(t, cfg, HORA)).Some?
    ensures FileTable(t, cfg, P).value[i].data ==
      DatePart(P, P.datetimeFormat(MappedCells(t, cfg, DATA)), MappedCell(t, cfg, DATA, i))
    ensures FileTable(t, cfg, P).value[i].hora ==
      TimeOf(P, P.timeFormat(MappedCells(t, cfg, HORA)), MappedCell(t, cfg, HORA, i))
  {
    RowIsPlanned(t, cfg, P, i);
    LookupPlan(ColumnNames(t), cfg, DATA);
    LookupPlan(ColumnNames(t), cfg, HORA);
    FileSkippedIff(t, cfg, P);
    assert Required[4] == DATA && Required[5] == HORA;
  }

  /**
   * The date a cell gets depends on its text and on the format inferred from
   * its whole column: equal text under the same inferred format gives the
   * same date, whichever files the two cells come from.
   */
  lemma SameFormatSameDate(t: RawTable, t': RawTable, cfg: Config, P: Parsers, i: nat, i': nat)
    requires !SplitsDatetime(ColumnNames(t), cfg) && !SplitsDatetime(ColumnNames(t'), cfg)
    requires FileTable(t, cfg, P).Some? && i < |FileTable(t, cfg, P).value|
    requires FileTable(t', cfg, P).Some? && i' < |FileTable(t', cfg, P).value|
    requires MappedCell(t, cfg, DATA, i) == MappedCell(t', cfg, DATA, i')
    requires P.datetimeFormat(MappedCells(t, cfg, DATA)) == P.datetimeFormat(MappedCells(t', cfg, DATA))
    ensures FileTable(t, cfg, P).value[i].data == FileTable(t', cfg, P).value[i'].data
  {
    OwnDatetimeFields(t, cfg, P, i);
    OwnDatetimeFields(t', cfg, P, i');
  }

  /**
   * Equal text can give different dates: when the formats inferred for the
   * two columns read the same text as different days, the two rows differ.
   */
  lemma ColumnFormatDecidesDate(t: RawTable, t': RawTable, cfg: Config, P: Parsers, i: nat, i': nat, s: string)
    requires !SplitsDatetime(ColumnNames(t), cfg) && !SplitsDatetime(ColumnNames(t'), cfg)
    requires FileTable(t, cfg, P).Some? && i < |FileTable(t, cfg, P).value|
    requires FileTable(t', cfg, P).Some? && i' < |FileTable(t', cfg, P).value|
    requires MappedCell(t, cfg, DATA, i) == Some(s) && MappedCell(t', cfg, DATA, i') == Some(s)
    requires var f, f' := P.datetimeFormat(MappedCells(t, cfg, DATA)), P.datetimeFormat(MappedCells(t', cfg, DATA));
      f.Some? && f'.Some? && P.toDatetime(f.value, s).Some? && P.toDatetime(f'.value, s).None?
    ensures FileTable(t, cfg, P).value[i].data.Some? && FileTable(t', cfg, P).value[i'].data.None?
  {
    OwnDatetimeFields(t, cfg, P, i);
    OwnDatetimeFields(t', cfg, P, i');
  }

  /** With the split in effect, the date and time mappings are not consulted at all. */
  lemma SplitIgnoresTemporalMapping(columns: seq<Name>, cfg: Config, cfg': Config)
    requires SplitsDatetime(columns, cfg)
    requires cfg'.splitDt && cfg'.dtSource == cfg.dtSource
    requires forall k :: 0 <= k < |Others| ==>
      Mapped(cfg.mapping, Others[k], columns) == Mapped(cfg'.mapping, Others[k], columns)
    ensures Plan(columns, cfg) == Plan(columns, cfg')
  {
    var p, p' := Plan(columns, cfg), Plan(columns, cfg');
    forall k | 0 <= k < |PlanOrder|
      ensures p[k] == p'[k]
    {
      if k >= 2 {
        assert PlanOrder[k] == Others[k - 2];
      }
    }
  }

  /**
   * A field that is unmapped, mapped to the empty name, or mapped to a column
   * the file does not have (the drop-down's "--- Ignorar ---" in particular)
   * is null in every row; the date and time fields only when the split does
   * not apply.
   */
  lemma UnmappedFieldIsNull(t: RawTable, cfg: Config, P: Parsers, f: Name)
    requires f in Required
    requires f == DATA || f == HORA ==> !SplitsDatetime(ColumnNames(t), cfg)
    requires f !in cfg.mapping || cfg.mapping[f] == "" || cfg.mapping[f] !in ColumnNames(t)
    requires FileTable(t, cfg, P).Some?
    ensures forall i :: 0 <= i < |FileTable(t, cfg, P).value| ==> IsNullAt(FileTable(t, cfg, P).value[i], f)
  {
    var tbl := FileTable(t, cfg, P).value;
    LookupPlan(ColumnNames(t), cfg, f);
    forall i | 0 <= i < |tbl|
      ensures IsNullAt(tbl[i], f)
    {
      RowIsPlanned(t, cfg, P, i);
      assert Source(f, ColumnNames(t), cfg) == NullLit;
    }
  }

  /** The first comma is read as the decimal point: `[-]whole,frac` is the number `[-]whole.frac`. */
  lemma QuantityDecimalComma(P: Parsers, negative: bool, whole: string, frac: string)
    requires ReadsDecimals(P.toFloat)
    requires IsDigits(whole) && IsDigits(frac)
    ensures QuantityOf(P, Some((if negative then "-" else "") + whole + "," + frac))
         == Some(DecimalValue(negative, whole, frac))
  {
    var sign := if negative then "-" else "";
    var x := sign + whole;
    assert ',' !in x;
    assert sign + whole + "," + frac == x + [','] + frac;
    ReplaceFirstAt(x, ',', '.', frac);
    assert x + ['.'] + frac == DecimalText(negative, whole, frac);
  }

  /** `"12,5"` reads as 12.5, while a cell the parser rejects is null, not zero. */
  lemma QuantityExamples(P: Parsers)
    requires ReadsDecimals(P.toFloat)
    requires P.toFloat("abc") == None && P.toFloat("") == None
    ensures QuantityOf(P, Some("12,5")) == Some(12.5)
    ensures QuantityOf(P, Some("1,5")) == Some(1.5)
    ensures QuantityOf(P, Some("abc")) == None
    ensures QuantityOf(P, Some("")) == None
  {
    QuantityDecimalComma(P, false, "12", "5");
    assert "" + "12" + "," + "5" == "12,5";
    assert DigitsValue("12") == 12 by {
      assert "12"[..1] == "1";
      assert DigitsValue("1") == 1 by { assert "1"[..0] == ""; }
    }
    assert DigitsValue("5") == 5 by { assert "5"[..0] == ""; }
    QuantityDecimalComma(P, false, "1", "5");
    assert "" + "1" + "," + "5" == "1,5";
    assert DigitsValue("1") == 1 by { assert "1"[..0] == ""; }
    ReplaceFirstAbsent("abc", ',', '.');
  }

  // ---------------------------------------------------------------------------
  // The batch
  // ---------------------------------------------------------------------------

  /** The tables of the files that survive, in file order. */
  function Survivors(files: seq<RawTable>, cfg: Config, P: Parsers): seq<seq<Record>>
    decreases |files|
  {
    if files == [] then []
    else
      Survivors(files[..|files| - 1], cfg, P)
      + match FileTable(files[|files| - 1], cfg, P) case None => [] case Some(tbl) => [tbl]
  }

  function Concat(tables: seq<seq<Record>>): seq<Record>
    decreases |tables|
  {
    if tables == [] then [] else Concat(tables[..|tables| - 1]) + tables[|tables| - 1]
  }

  /** The batch result: the surviving tables concatenated; the empty table when none survive. */
  function Batch(files: seq<RawTable>, cfg: Config, P: Parsers): seq<Record> {
    Concat(Survivors(files, cfg, P))
  }

  /** `process_etl_batch`: the loop over the uploaded files. */
  method ProcessBatch(files: seq<RawTable>, cfg: Config, P: Parsers) returns (result: seq<Record>)
    ensures result == Batch(files, cfg, P)
  {
    var dfs: seq<seq<Record>> := [];
    for i := 0 to |files|
      invariant dfs == Survivors(files[..i], cfg, P)
    {
      assert files[..i + 1][..i] == files[..i];
      var dfRaw := files[i];
      if |dfRaw.rows| == 0 {
        continue;
      }
      var exprs := BuildPlan(ColumnNames(dfRaw), cfg);
      var dfProc := Normalize(dfRaw, exprs, P);
      if dfProc.None? {
        continue;
      }
      dfs := dfs + [dfProc.value];
    }
    assert files[..|files|] == files;
    if dfs == [] {
      return [];
    }
    result := Concat(dfs);
  }

  lemma {:induction false} ConcatAppend(a: seq<seq<Record>>, b: seq<seq<Record>>)
    ensures Concat(a + b) == Concat(a) + Concat(b)
    decreases |b|
  {
    if b == [] {
      assert a + b == a;
    } else {
      assert (a + b)[..|a + b| - 1] == a + b[..|b| - 1];
      ConcatAppend(a, b[..|b| - 1]);
    }
  }

  lemma {:induction false} SurvivorsAppend(a: seq<RawTable>, b: seq<RawTable>, cfg: Config, P: Parsers)
    ensures Survivors(a + b, cfg, P) == Survivors(a, cfg, P) + Survivors(b, cfg, P)
    decreases |b|
  {
    if b == [] {
      assert a + b == a;
    } else {
      assert (a + b)[..|a + b| - 1] == a + b[..|b| - 1];
      SurvivorsAppend(a, b[..|b| - 1], cfg, P);
    }
  }

  /** Processing two lists of files one after the other is processing their concatenation. */
  lemma BatchAppend(a: seq<RawTable>, b: seq<RawTable>, cfg: Config, P: Parsers)
    ensures Batch(a + b, cfg, P) == Batch(a, cfg, P) + Batch(b, cfg, P)
  {
    SurvivorsAppend(a, b, cfg, P);
    ConcatAppend(Survivors(a, cfg, P), Survivors(b, cfg, P));
  }

  /** One file alone gives its own table, or the empty table when it is skipped. */
  lemma BatchOfOne(f: RawTable, cfg: Config, P: Parsers)
    ensures Batch([f], cfg, P) == FileTable(f, cfg, P).GetOr([])
  {
    var ft := FileTable(f, cfg, P);
    var one := if ft.Some? then [ft.value] else [];
    assert [f][..0] == [];
    assert Survivors([f], cfg, P) == Survivors([], cfg, P) + one;
    assert Survivors([f], cfg, P) == one;
    if ft.Some? {
      assert one[..0] == [];
      assert Concat(one) == Concat([]) + ft.value;
    }
  }

  lemma {:induction false} SurvivorsEmptyIff(files: seq<RawTable>, cfg: Config, P: Parsers)
    ensures Survivors(files, cfg, P) == [] <==> forall k :: 0 <= k < |files| ==> FileTable(files[k], cfg, P).None?
    ensures forall j :: 0 <= j < |Survivors(files, cfg, P)| ==> |Survivors(files, cfg, P)[j]| >= 1
    decreases |files|
  {
    if files != [] {
      var init := files[..|files| - 1];
      var last := files[|files| - 1];
      SurvivorsEmptyIff(init, cfg, P);
      assert forall k :: 0 <= k < |init| ==> init[k] == files[k];
      if FileTable(last, cfg, P).Some? {
        FileTableHeight(last, cfg, P);
      }
    }
  }

  lemma {:induction false} ConcatEmptyIff(tables: seq<seq<Record>>)
    requires forall j :: 0 <= j < |tables| ==> |tables[j]| >= 1
    ensures Concat(tables) == [] <==> tables == []
    decreases |tables|
  {
    if tables != [] {
      assert |Concat(tables)| >= |tables[|tables| - 1]|;
    }
  }

  /** The batch is empty exactly when every file was skipped. */
  lemma BatchEmptyIff(files: seq<RawTable>, cfg: Config, P: Parsers)
    ensures Batch(files, cfg, P) == [] <==> forall k :: 0 <= k < |files| ==> FileTable(files[k], cfg, P).None?
  {
    SurvivorsEmptyIff(files, cfg, P);
    ConcatEmptyIff(Survivors(files, cfg, P));
  }
}
