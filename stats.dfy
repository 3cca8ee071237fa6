/**
 * `enrich_and_calculate_stats`: optional left joins with the SKU and
 * Depósito dimension tables, the daily sums per (Depósito, SKU, Data), the
 * cross-day statistics per (Depósito, SKU), the descriptions, and the fixed
 * output column order.
 */
module Stats {
  import opened Wrappers
  import opened Grouping
  import opened Etl

  // ---------------------------------------------------------------------------
  // Enrichment
  // ---------------------------------------------------------------------------

  /** A dimension table as the loader returns it: all columns text; the empty table on a read error. */
  datatype Dimension = Dimension(columns: seq<Name>, rows: seq<map<Name, Option<string>>>)

  /** One dimension as chosen by the user: the uploaded file if any, its key column, its description column. */
  datatype DimChoice = DimChoice(file: Option<Dimension>, key: Option<Name>, desc: Option<Name>)

  /** A detail row: the normalised record and the descriptions the joins brought in. */
  datatype Detail = Detail(rec: Record, skuDesc: Option<string>, depDesc: Option<string>)

  /** The enriched detail table, and whether it carries the SKU_DESC / DEP_DESC columns. */
  datatype Enriched = Enriched(rows: seq<Detail>, hasSkuDesc: bool, hasDepDesc: bool)

  datatype Side = SkuSide | DepSide

  /** The join is attempted: a file, a non-empty key, a non-empty loaded table that has the key column. */
  predicate Joins(c: DimChoice) {
    && c.file.Some? && c.key.Some? && c.key.value != ""
    && |c.file.value.rows| > 0 && c.key.value in c.file.value.columns
  }

  /** The description column is renamed into SKU_DESC / DEP_DESC. */
  predicate RenamesDesc(c: DimChoice) {
    Joins(c) && c.desc.Some? && c.desc.value != "" && c.desc.value in c.file.value.columns
  }

  /** The description column is the key column: the rename removes the join key and the join raises. */
  predicate JoinRaises(c: DimChoice) {
    RenamesDesc(c) && c.desc.value == c.key.value
  }

  function DimCell(row: map<Name, Option<string>>, c: Name): Option<string> {
    if c in row then row[c] else None
  }

  function KeyOf(side: Side, r: Record): Option<string> {
    match side
    case SkuSide => r.sku
    case DepSide => r.deposito
  }

  function WithDesc(side: Side, d: Detail, v: Option<string>): (r: Detail)
    ensures r.rec == d.rec
    ensures DescOf(side, r) == v
  {
    match side
    case SkuSide => d.(skuDesc := v)
    case DepSide => d.(depDesc := v)
  }

  /** The dimension rows whose key equals `code`; a null code matches nothing. */
  function Matches(dim: Dimension, key: Name, code: Option<string>): seq<map<Name, Option<string>>> {
    if code.None? then [] else Filter(dim.rows, row => DimCell(row, key) == code)
  }

  /** The description a detail row carries for one side. */
  function DescOf(side: Side, d: Detail): Option<string> {
    match side
    case SkuSide => d.skuDesc
    case DepSide => d.depDesc
  }

  /**
   * A left-join step for one detail row: one row per dimension row whose key
   * equals the row's code, each carrying that dimension row's description
   * (when the description column was renamed in), or the row itself with a
   * null description when nothing matches. Only this side's description changes.
   */
  function Expand(d: Detail, side: Side, c: DimChoice): (r: seq<Detail>)
    requires Joins(c)
    ensures |r| >= 1
    ensures forall j :: 0 <= j < |r| ==> r[j].rec == d.rec
    ensures forall j :: 0 <= j < |r| ==> r[j] == WithDesc(side, d, DescOf(side, r[j]))
    ensures |r| == if |Matches(c.file.value, c.key.value, KeyOf(side, d.rec))| == 0 then 1
                   else |Matches(c.file.value, c.key.value, KeyOf(side, d.rec))|
    ensures Matches(c.file.value, c.key.value, KeyOf(side, d.rec)) == [] ==> DescOf(side, r[0]).None?
    ensures forall j :: 0 <= j < |r| && DescOf(side, r[j]).Some? ==>
      RenamesDesc(c) && KeyOf(side, d.rec).Some? &&
      exists row :: row in c.file.value.rows && DimCell(row, c.key.value) == KeyOf(side, d.rec)
        && DimCell(row, c.desc.value) == DescOf(side, r[j])
  {
    var ms := Matches(c.file.value, c.key.value, KeyOf(side, d.rec));
    if ms == [] then [WithDesc(side, d, None)]
    else
      var r := seq(|ms|, j requires 0 <= j < |ms| =>
        WithDesc(side, d, if RenamesDesc(c) then DimCell(ms[j], c.desc.value) else None));
      assert forall j :: 0 <= j < |r| ==>
        r[j] == WithDesc(side, d, if RenamesDesc(c) then DimCell(ms[j], c.desc.value) else None);
      assert forall j :: 0 <= j < |r| ==> DescOf(side, r[j]) == if RenamesDesc(c) then DimCell(ms[j], c.desc.value) else None;
      assert forall j :: 0 <= j < |r| ==> ms[j] in c.file.value.rows && DimCell(ms[j], c.key.value) == KeyOf(side, d.rec);
      r
  }

  /** `res.join(dim, left_on=…, right_on=key, how="left")`, rows kept in left order. */
  function LeftJoin(rows: seq<Detail>, side: Side, c: DimChoice): seq<Detail>
    requires Joins(c)
    decreases |rows|
  {
    if rows == [] then []
    else LeftJoin(rows[..|rows| - 1], side, c) + Expand(rows[|rows| - 1], side, c)
  }

  /** Every left row survives the join, with its record unchanged. */
  lemma {:induction false} LeftJoinKeepsRows(rows: seq<Detail>, side: Side, c: DimChoice)
    requires Joins(c)
    ensures |LeftJoin(rows, side, c)| >= |rows|
    ensures forall i :: 0 <= i < |rows| ==> exists j :: 0 <= j < |LeftJoin(rows, side, c)| && LeftJoin(rows, side, c)[j].rec == rows[i].rec
    decreases |rows|
  {
    if rows != [] {
      var init := rows[..|rows| - 1];
      var last := rows[|rows| - 1];
      LeftJoinKeepsRows(init, side, c);
      var lj, lj' := LeftJoin(rows, side, c), LeftJoin(init, side, c);
      var ex := Expand(last, side, c);
      assert lj == lj' + ex;
      forall i | 0 <= i < |rows|
        ensures exists j :: 0 <= j < |lj| && lj[j].rec == rows[i].rec
      {
        if i < |init| {
          var j :| 0 <= j < |lj'| && lj'[j].rec == init[i].rec;
          assert lj[j] == lj'[j];
        } else {
          assert lj[|lj'|] == ex[0];
        }
      }
    }
  }

  /** No two rows of the dimension carry the same non-null key. */
  predicate UniqueKeys(dim: Dimension, key: Name) {
    forall a, b :: 0 <= a < b < |dim.rows| && DimCell(dim.rows[a], key).Some? ==>
      DimCell(dim.rows[a], key) != DimCell(dim.rows[b], key)
  }

  function Records(rows: seq<Detail>): (r: seq<Record>)
    ensures |r| == |rows| && forall i :: 0 <= i < |rows| ==> r[i] == rows[i].rec
  {
    seq(|rows|, i requires 0 <= i < |rows| => rows[i].rec)
  }

  /** With unique dimension keys a left row comes out of the join exactly once. */
  lemma ExpandOnce(d: Detail, side: Side, c: DimChoice)
    requires Joins(c) && UniqueKeys(c.file.value, c.key.value)
    ensures |Expand(d, side, c)| == 1
  {
    var code := KeyOf(side, d.rec);
    if code.Some? {
      var dim, key := c.file.value, c.key.value;
      FilterAtMostOne(dim.rows, row => DimCell(row, key) == code);
    }
  }

  /** With unique dimension keys the join neither drops, adds nor reorders records. */
  lemma {:induction false} LeftJoinUniqueKeys(rows: seq<Detail>, side: Side, c: DimChoice)
    requires Joins(c) && UniqueKeys(c.file.value, c.key.value)
    ensures Records(LeftJoin(rows, side, c)) == Records(rows)
    decreases |rows|
  {
    if rows != [] {
      var init := rows[..|rows| - 1];
      var last := rows[|rows| - 1];
      LeftJoinUniqueKeys(init, side, c);
      ExpandOnce(last, side, c);
      var ex := Expand(last, side, c);
      assert LeftJoin(rows, side, c) == LeftJoin(init, side, c) + ex;
      assert Records(LeftJoin(rows, side, c)) == Records(LeftJoin(init, side, c)) + [last.rec];
      assert Records(rows) == Records(init) + [last.rec];
    }
  }

  function Initial(table: seq<Record>): (r: seq<Detail>)
    ensures Records(r) == table
  {
    seq(|table|, i requires 0 <= i < |table| => Detail(table[i], None, None))
  }

  /** Steps 1 of the aggregation: the two optional joins; `None` when a join raises. */
  function Enrich(table: seq<Record>, sku: DimChoice, dep: DimChoice): Option<Enriched> {
    if JoinRaises(sku) || JoinRaises(dep) then None
    else
      var base := Initial(table);
      var withSku := if Joins(sku) then LeftJoin(base, SkuSide, sku) else base;
      var withDep := if Joins(dep) then LeftJoin(withSku, DepSide, dep) else withSku;
      Some(Enriched(withDep, RenamesDesc(sku), RenamesDesc(dep)))
  }

  /**
   * With unique dimension keys, a detail row whose code is the key of a
   * dimension row comes out once, carrying that row's description.
   */
  lemma ExpandUniqueKey(d: Detail, side: Side, c: DimChoice, row: map<Name, Option<string>>)
    requires RenamesDesc(c) && UniqueKeys(c.file.value, c.key.value)
    requires row in c.file.value.rows && KeyOf(side, d.rec).Some? && DimCell(row, c.key.value) == KeyOf(side, d.rec)
    ensures Expand(d, side, c) == [WithDesc(side, d, DimCell(row, c.desc.value))]
  {
    var dim, key, code := c.file.value, c.key.value, KeyOf(side, d.rec);
    FilterAtMostOne(dim.rows, row => DimCell(row, key) == code);
    var ms := Matches(dim, key, code);
    assert row in ms;
    assert ms == [row];
  }

  /** Enrichment fails only when a join raises, flags the description columns it renames in, and keeps every record. */
  lemma EnrichKeepsRecords(table: seq<Record>, sku: DimChoice, dep: DimChoice)
    ensures Enrich(table, sku, dep).None? <==> JoinRaises(sku) || JoinRaises(dep)
    ensures Enrich(table, sku, dep).Some? ==>
      var e := Enrich(table, sku, dep).value;
      && e.hasSkuDesc == RenamesDesc(sku) && e.hasDepDesc == RenamesDesc(dep)
      && |e.rows| >= |table|
      && forall i :: 0 <= i < |table| ==> exists j :: 0 <= j < |e.rows| && e.rows[j].rec == table[i]
  {
    if !(JoinRaises(sku) || JoinRaises(dep)) {
      var base := Initial(table);
      var withSku := if Joins(sku) then LeftJoin(base, SkuSide, sku) else base;
      var withDep := if Joins(dep) then LeftJoin(withSku, DepSide, dep) else withSku;
      assert forall i :: 0 <= i < |table| ==> base[i].rec == table[i];
      if Joins(sku) {
        LeftJoinKeepsRows(base, SkuSide, sku);
      }
      assert |withSku| >= |table|;
      assert forall i :: 0 <= i < |table| ==> exists j :: 0 <= j < |withSku| && withSku[j].rec == table[i];
      if Joins(dep) {
        LeftJoinKeepsRows(withSku, DepSide, dep);
        forall i | 0 <= i < |table|
          ensures exists j :: 0 <= j < |withDep| && withDep[j].rec == table[i]
        {
          var j :| 0 <= j < |withSku| && withSku[j].rec == table[i];
          var k :| 0 <= k < |withDep| && withDep[k].rec == withSku[j].rec;
        }
      }
    }
  }

  /** With unique keys in every joined dimension, enrichment neither drops, adds nor reorders records. */
  lemma EnrichUniqueKeys(table: seq<Record>, sku: DimChoice, dep: DimChoice)
    requires !JoinRaises(sku) && !JoinRaises(dep)
    requires Joins(sku) ==> UniqueKeys(sku.file.value, sku.key.value)
    requires Joins(dep) ==> UniqueKeys(dep.file.value, dep.key.value)
    ensures Records(Enrich(table, sku, dep).value.rows) == table
  {
    var base := Initial(table);
    var withSku := if Joins(sku) then LeftJoin(base, SkuSide, sku) else base;
    if Joins(sku) {
      LeftJoinUniqueKeys(base, SkuSide, sku);
    }
    if Joins(dep) {
      LeftJoinUniqueKeys(withSku, DepSide, dep);
    }
  }

  /** Without a usable dimension file the detail table is the batch table itself. */
  lemma EnrichWithoutDimensions(table: seq<Record>, sku: DimChoice, dep: DimChoice)
    requires !Joins(sku) && !Joins(dep)
    ensures Enrich(table, sku, dep).Some?
    ensures Records(Enrich(table, sku, dep).value.rows) == table
    ensures !Enrich(table, sku, dep).value.hasSkuDesc && !Enrich(table, sku, dep).value.hasDepDesc
  {
  }

  // ---------------------------------------------------------------------------
  // Daily sums and statistics
  // ---------------------------------------------------------------------------

  datatype DayKey = DayKey(dep: Option<string>, sku: Option<string>, date: Date)
  datatype PairKey = PairKey(dep: Option<string>, sku: Option<string>)

  function PairOf(k: DayKey): PairKey {
    PairKey(k.dep, k.sku)
  }

  /** The row has a date: it takes part in the daily aggregation. */
  predicate Dated(d: Detail) {
    d.rec.data.Some?
  }

  function DayKeyOf(d: Detail): DayKey
    requires Dated(d)
  {
    DayKey(d.rec.deposito, d.rec.sku, d.rec.data.value)
  }

  /** The (Depósito, SKU, Data) key and quantity of every dated row; a null quantity adds nothing to a sum. */
  function DailyEntries(rows: seq<Detail>): seq<(DayKey, real)>
    decreases |rows|
  {
    if rows == [] then []
    else
      var last := rows[|rows| - 1];
      DailyEntries(rows[..|rows| - 1])
      + if Dated(last) then [(DayKeyOf(last), last.rec.quantidade.GetOr(0.0))] else []
  }

  /** The distinct (Depósito, SKU, Data) groups of the daily aggregation. */
  function DayKeys(rows: seq<Detail>): seq<DayKey> {
    Distinct(Keys(DailyEntries(rows)))
  }

  /** `daily_agg`: one row per group, holding `Qtd_Dia`, the sum of the group's quantities. */
  function DailyAgg(rows: seq<Detail>): (r: seq<(DayKey, real)>)
    ensures Keys(r) == DayKeys(rows)
  {
    GroupTable(DayKeys(rows), DailyEntries(rows))
  }

  /** The quantity of the dated rows whose (Depósito, SKU, Data) key is `k`, a null quantity adding nothing. */
  function DayTotal(rows: seq<Detail>, k: DayKey): real
    decreases |rows|
  {
    if rows == [] then 0.0
    else
      var last := rows[|rows| - 1];
      DayTotal(rows[..|rows| - 1], k)
      + if Dated(last) && DayKeyOf(last) == k then last.rec.quantidade.GetOr(0.0) else 0.0
  }

  /** The row is dated and belongs to the pair `p`. */
  function OfPair(p: PairKey): Detail -> bool {
    (d: Detail) => d.rec.data.Some? && d.rec.deposito == p.dep && d.rec.sku == p.sku
  }

  /** The dates of some rows (a null date, never asked for here, reads as day 0). */
  function DatesOf(rs: seq<Detail>): (r: seq<Date>)
    ensures |r| == |rs|
    ensures forall i :: 0 <= i < |rs| ==> r[i] == rs[i].rec.data.GetOr(Date(0))
  {
    seq(|rs|, i requires 0 <= i < |rs| => rs[i].rec.data.GetOr(Date(0)))
  }

  /** The distinct dates of the pair's dated rows, in first-occurrence order. */
  function PairDates(rows: seq<Detail>, p: PairKey): seq<Date> {
    Distinct(DatesOf(Filter(rows, OfPair(p))))
  }

  /** The (Depósito, SKU, Data) keys of the pair `p` on the days `ds`. */
  function KeysWith(p: PairKey, ds: seq<Date>): (r: seq<DayKey>)
    ensures |r| == |ds|
    ensures forall i :: 0 <= i < |ds| ==> r[i] == DayKey(p.dep, p.sku, ds[i])
  {
    seq(|ds|, i requires 0 <= i < |ds| => DayKey(p.dep, p.sku, ds[i]))
  }

  /** The (Depósito, SKU) groups of `daily_agg`, one statistics row each. */
  function StatPairs(rows: seq<Detail>): seq<PairKey> {
    var ks := DayKeys(rows);
    Distinct(seq(|ks|, i requires 0 <= i < |ks| => PairOf(ks[i])))
  }

  /** The `Qtd_Dia` values of one (Depósito, SKU) group, one per day. */
  function DaysOf(rows: seq<Detail>, p: PairKey): seq<real> {
    GroupSums(DayKeys(rows), DailyEntries(rows), k => PairOf(k) == p)
  }

  /** The two numerics left abstract: polars' sample standard deviation and its 95% quantile. */
  datatype Numerics = Numerics(std: seq<real> -> real, p95: seq<real> -> real)

  /** One row of the statistics table, in output column order. */
  datatype StatRow = StatRow(
    codDep: Option<string>, dep: Option<string>,
    codSku: Option<string>, sku: Option<string>,
    media: real, maximo: real, desvio: real,
    media1: real, media2: real, media3: real,
    p95: real)

  /** The description of the first detail row (in table order) whose code is `code`. */
  function FirstDesc(rows: seq<Detail>, side: Side, code: Option<string>): Option<string>
    decreases |rows|
  {
    if rows == [] then None
    else if KeyOf(side, rows[0].rec) == code then
      match side case SkuSide => rows[0].skuDesc case DepSide => rows[0].depDesc
    else FirstDesc(rows[1..], side, code)
  }

  /**
   * The description column of the output: the first description per code,
   * joined on the code (a null code matches nothing), or the literal `""`
   * when the detail table has no description column.
   */
  function DescFor(e: Enriched, side: Side, code: Option<string>): Option<string> {
    var has := match side case SkuSide => e.hasSkuDesc case DepSide => e.hasDepDesc;
    if !has then Some("")
    else if code.None? then None
    else FirstDesc(e.rows, side, code)
  }

  /** The statistics of one (Depósito, SKU) group. */
  function Stat(e: Enriched, p: PairKey, n: Numerics): StatRow {
    var days := DaysOf(e.rows, p);
    var media := Mean(days);
    var maximo := if |days| == 0 then 0.0 else Max(days);
    var desvio := if |days| < 2 then 0.0 else n.std(days);
    StatRow(
      p.dep, DescFor(e, DepSide, p.dep),
      p.sku, DescFor(e, SkuSide, p.sku),
      media, maximo, desvio,
      media + desvio, media + desvio * 2.0, media + desvio * 3.0,
      n.p95(days))
  }

  /** Steps 2 to 4: the statistics table. */
  function Statistics(e: Enriched, n: Numerics): (r: seq<StatRow>)
    ensures |r| == |StatPairs(e.rows)|
  {
    var ps := StatPairs(e.rows);
    seq(|ps|, i requires 0 <= i < |ps| => Stat(e, ps[i], n))
  }

  /** The whole of `enrich_and_calculate_stats`: the statistics table and the detail table. */
  function EnrichAndCalculateStats(table: seq<Record>, sku: DimChoice, dep: DimChoice, n: Numerics)
    : Option<(seq<StatRow>, Enriched)>
  {
    match Enrich(table, sku, dep)
    case None => None
    case Some(e) => Some((Statistics(e, n), e))
  }

  /**
   * The function raises exactly when a join does; otherwise it returns the
   * enriched detail table, which keeps every record of the batch, and one
   * statistics row per (Depósito, SKU) pair of its dated rows.
   */
  lemma EnrichAndCalculateStatsResult(table: seq<Record>, sku: DimChoice, dep: DimChoice, n: Numerics)
    ensures EnrichAndCalculateStats(table, sku, dep, n).None? <==> JoinRaises(sku) || JoinRaises(dep)
    ensures EnrichAndCalculateStats(table, sku, dep, n).Some? ==>
      var (st, e) := EnrichAndCalculateStats(table, sku, dep, n).value;
      && e == Enrich(table, sku, dep).value
      && st == Statistics(e, n)
      && |st| == |StatPairs(e.rows)|
      && |e.rows| >= |table|
      && (forall j :: 0 <= j < |table| ==> exists k :: 0 <= k < |e.rows| && e.rows[k].rec == table[j])
      && e.hasSkuDesc == RenamesDesc(sku) && e.hasDepDesc == RenamesDesc(dep)
  {
    EnrichKeepsRecords(table, sku, dep);
  }

  // ---------------------------------------------------------------------------
  // What the aggregation guarantees
  // ---------------------------------------------------------------------------

  /** The daily groups are exactly the (Depósito, SKU, Data) keys of the dated rows. */
  lemma {:induction false} DailyEntriesKeys(rows: seq<Detail>)
    ensures forall k :: k in Keys(DailyEntries(rows)) <==>
      exists i :: 0 <= i < |rows| && Dated(rows[i]) && DayKeyOf(rows[i]) == k
    decreases |rows|
  {
    if rows != [] {
      var init := rows[..|rows| - 1];
      var last := rows[|rows| - 1];
      DailyEntriesKeys(init);
      var tail := if Dated(last) then [(DayKeyOf(last), last.rec.quantidade.GetOr(0.0))] else [];
      assert DailyEntries(rows) == DailyEntries(init) + tail;
      assert Keys(DailyEntries(rows)) == Keys(DailyEntries(init)) + Keys(tail);
      forall k
        ensures k in Keys(DailyEntries(rows)) <==>
          exists i :: 0 <= i < |rows| && Dated(rows[i]) && DayKeyOf(rows[i]) == k
      {
        if k in Keys(DailyEntries(init)) {
          var i :| 0 <= i < |init| && Dated(init[i]) && DayKeyOf(init[i]) == k;
          assert rows[i] == init[i];
        }
        if exists i :: 0 <= i < |rows| && Dated(rows[i]) && DayKeyOf(rows[i]) == k {
          var i :| 0 <= i < |rows| && Dated(rows[i]) && DayKeyOf(rows[i]) == k;
          if i < |init| {
            assert init[i] == rows[i];
          } else {
            assert Keys(tail) == [k];
          }
        }
      }
    }
  }

  /**
   * There is exactly one statistics row per distinct (Depósito, SKU) pair
   * among the rows that have a date.
   */
  lemma StatPairsExact(rows: seq<Detail>)
    ensures NoDuplicates(StatPairs(rows))
    ensures forall p :: p in StatPairs(rows) <==>
      exists i :: 0 <= i < |rows| && Dated(rows[i]) && PairOf(DayKeyOf(rows[i])) == p
  {
    DailyEntriesKeys(rows);
    var ks := DayKeys(rows);
    var pk := seq(|ks|, i requires 0 <= i < |ks| => PairOf(ks[i]));
    forall p
      ensures p in StatPairs(rows) <==>
        exists i :: 0 <= i < |rows| && Dated(rows[i]) && PairOf(DayKeyOf(rows[i])) == p
    {
      if p in StatPairs(rows) {
        var j :| 0 <= j < |pk| && pk[j] == p;
        assert ks[j] in Keys(DailyEntries(rows));
      }
      if exists i :: 0 <= i < |rows| && Dated(rows[i]) && PairOf(DayKeyOf(rows[i])) == p {
        var i :| 0 <= i < |rows| && Dated(rows[i]) && PairOf(DayKeyOf(rows[i])) == p;
        var k := DayKeyOf(rows[i]);
        assert k in Keys(DailyEntries(rows));
        var j :| 0 <= j < |ks| && ks[j] == k;
        assert pk[j] == p;
      }
    }
  }

  lemma {:induction false} GroupSumsAll<K>(ds: seq<K>, es: seq<(K, real)>)
    ensures GroupSums(ds, es, k => true) == seq(|ds|, i requires 0 <= i < |ds| => SumFor(es, ds[i]))
    decreases |ds|
  {
    if ds != [] {
      GroupSumsAll(ds[..|ds| - 1], es);
    }
  }

  /** The daily sums, over all groups, add up to the total quantity of the dated rows. */
  lemma DailyAggTotal(rows: seq<Detail>)
    ensures Sum(Values(DailyAgg(rows))) == Sum(Values(DailyEntries(rows)))
  {
    var es := DailyEntries(rows);
    GroupSumsAll(DayKeys(rows), es);
    assert Values(DailyAgg(rows)) == GroupSums(DayKeys(rows), es, k => true);
    SumForTotal(es);
  }

  lemma {:induction false} DayTotalIsSumFor(rows: seq<Detail>, k: DayKey)
    ensures SumFor(DailyEntries(rows), k) == DayTotal(rows, k)
    decreases |rows|
  {
    if rows != [] {
      var init, last := rows[..|rows| - 1], rows[|rows| - 1];
      DayTotalIsSumFor(init, k);
      var es := DailyEntries(init);
      if Dated(last) {
        var e := (DayKeyOf(last), last.rec.quantidade.GetOr(0.0));
        assert DailyEntries(rows) == es + [e];
        assert (es + [e])[..|es + [e]| - 1] == es;
      } else {
        assert DailyEntries(rows) == es;
      }
    }
  }

  /** Every row of `daily_agg` holds the total quantity of its (Depósito, SKU, Data) group. */
  lemma DailyAggValues(rows: seq<Detail>)
    ensures forall i :: 0 <= i < |DailyAgg(rows)| ==> DailyAgg(rows)[i].1 == DayTotal(rows, DailyAgg(rows)[i].0)
  {
    var r := DailyAgg(rows);
    forall i | 0 <= i < |r|
      ensures r[i].1 == DayTotal(rows, r[i].0)
    {
      assert Keys(r)[i] == r[i].0;
      assert Values(r)[i] == r[i].1;
      DayTotalIsSumFor(rows, r[i].0);
    }
  }

  /** The pair's keys among the daily entries are its dated rows' keys, in row order. */
  lemma {:induction false} PairEntryKeys(rows: seq<Detail>, p: PairKey)
    ensures Filter(Keys(DailyEntries(rows)), k => PairOf(k) == p) == KeysWith(p, DatesOf(Filter(rows, OfPair(p))))
    decreases |rows|
  {
    if rows != [] {
      var init, last := rows[..|rows| - 1], rows[|rows| - 1];
      PairEntryKeys(init, p);
      var es := DailyEntries(init);
      var fr := Filter(init, OfPair(p));
      if Dated(last) {
        var e := (DayKeyOf(last), last.rec.quantidade.GetOr(0.0));
        assert DailyEntries(rows) == es + [e];
        var ks := Keys(es + [e]);
        assert ks == Keys(es) + [e.0];
        assert ks[..|ks| - 1] == Keys(es);
        if OfPair(p)(last) {
          assert Filter(rows, OfPair(p)) == fr + [last];
          var dt := last.rec.data.value;
          assert DatesOf(fr + [last]) == DatesOf(fr) + [dt];
          assert KeysWith(p, DatesOf(fr) + [dt]) == KeysWith(p, DatesOf(fr)) + [DayKey(p.dep, p.sku, dt)];
        } else {
          assert PairOf(e.0) != p;
          assert Filter(rows, OfPair(p)) == fr;
        }
      } else {
        assert DailyEntries(rows) == es;
        assert Filter(rows, OfPair(p)) == fr;
      }
    }
  }

  /** Keys of one pair are distinct exactly when their dates are. */
  lemma {:induction false} DistinctKeysWith(p: PairKey, ds: seq<Date>)
    ensures Distinct(KeysWith(p, ds)) == KeysWith(p, Distinct(ds))
    decreases |ds|
  {
    if ds != [] {
      var init, x := ds[..|ds| - 1], ds[|ds| - 1];
      DistinctKeysWith(p, init);
      var kw := KeysWith(p, ds);
      assert kw[..|kw| - 1] == KeysWith(p, init);
      var d := Distinct(init);
      var h := DayKey(p.dep, p.sku, x);
      assert h in KeysWith(p, d) <==> x in d;
      assert x in d <==> x in init;
      if x !in d {
        assert KeysWith(p, d + [x]) == KeysWith(p, d) + [h];
      }
    }
  }

  /**
   * A pair has one daily value per distinct date of its dated rows, in
   * first-occurrence order, and each is the total quantity of that date:
   * the divisor of Média is the number of distinct dates.
   */
  lemma DaysOfDates(rows: seq<Detail>, p: PairKey)
    ensures |DaysOf(rows, p)| == |PairDates(rows, p)|
    ensures forall j :: 0 <= j < |DaysOf(rows, p)| ==>
      DaysOf(rows, p)[j] == DayTotal(rows, DayKey(p.dep, p.sku, PairDates(rows, p)[j]))
  {
    var es := DailyEntries(rows);
    var ks := KeysWith(p, PairDates(rows, p));
    PairDayKeys(rows, p);
    GroupSumsFilter(DayKeys(rows), es, k => PairOf(k) == p);
    assert DaysOf(rows, p) == SumsFor(ks, es);
    forall j | 0 <= j < |ks|
      ensures SumFor(es, ks[j]) == DayTotal(rows, ks[j])
    {
      DayTotalIsSumFor(rows, ks[j]);
    }
  }

  /** The pair's groups are its distinct dates, in first-occurrence order. */
  lemma PairDayKeys(rows: seq<Detail>, p: PairKey)
    ensures Filter(DayKeys(rows), k => PairOf(k) == p) == KeysWith(p, PairDates(rows, p))
  {
    var es := DailyEntries(rows);
    FilterDistinct(Keys(es), k => PairOf(k) == p);
    PairEntryKeys(rows, p);
    DistinctKeysWith(p, DatesOf(Filter(rows, OfPair(p))));
  }

  /** The pair's dates are distinct and are exactly the dates of its dated rows. */
  lemma PairDatesExact(rows: seq<Detail>, p: PairKey)
    ensures NoDuplicates(PairDates(rows, p))
    ensures forall dt :: dt in PairDates(rows, p) <==>
      exists i :: 0 <= i < |rows| && rows[i].rec.data == Some(dt) && rows[i].rec.deposito == p.dep && rows[i].rec.sku == p.sku
  {
    var fr := Filter(rows, OfPair(p));
    var ds := DatesOf(fr);
    forall dt
      ensures dt in PairDates(rows, p) <==>
        exists i :: 0 <= i < |rows| && rows[i].rec.data == Some(dt) && rows[i].rec.deposito == p.dep && rows[i].rec.sku == p.sku
    {
      if dt in PairDates(rows, p) {
        assert dt in ds;
        var j :| 0 <= j < |ds| && ds[j] == dt;
        assert fr[j] in rows && OfPair(p)(fr[j]);
        var i :| 0 <= i < |rows| && rows[i] == fr[j];
      }
      if exists i :: 0 <= i < |rows| && rows[i].rec.data == Some(dt) && rows[i].rec.deposito == p.dep && rows[i].rec.sku == p.sku {
        var i :| 0 <= i < |rows| && rows[i].rec.data == Some(dt) && rows[i].rec.deposito == p.dep && rows[i].rec.sku == p.sku;
        assert OfPair(p)(rows[i]);
        assert rows[i] in fr;
        var j :| 0 <= j < |fr| && fr[j] == rows[i];
        assert ds[j] == dt;
      }
    }
  }

  /** The daily values of a pair are the `daily_agg` rows of that pair, in order. */
  lemma DailyAggOfPair(rows: seq<Detail>, p: PairKey)
    ensures Values(Filter(DailyAgg(rows), (e: (DayKey, real)) => PairOf(e.0) == p)) == DaysOf(rows, p)
  {
    GroupTableFilter(DayKeys(rows), DailyEntries(rows), (e: (DayKey, real)) => PairOf(e.0) == p, k => PairOf(k) == p);
  }

  /**
   * The daily values of a pair add up to the total quantity of that pair's
   * dated rows, and a pair that has a statistics row has at least one day.
   */
  lemma DaysOfPair(rows: seq<Detail>, p: PairKey)
    ensures Sum(DaysOf(rows, p)) == SumIf(DailyEntries(rows), k => PairOf(k) == p)
    ensures p in StatPairs(rows) ==> |DaysOf(rows, p)| >= 1
  {
    GroupSumsTotal(DailyEntries(rows), k => PairOf(k) == p);
    if p in StatPairs(rows) {
      var ks := DayKeys(rows);
      var pk := seq(|ks|, i requires 0 <= i < |ks| => PairOf(ks[i]));
      var j :| 0 <= j < |pk| && pk[j] == p;
      GroupSumsNonEmpty(ks, DailyEntries(rows), k => PairOf(k) == p, ks[j]);
    }
  }

  /**
   * For every statistics row: Máximo is one of the daily values and at least
   * every one of them, hence at least Média; a pair with a single day has
   * Desvio 0; and whenever Desvio is non-negative the three thresholds are
   * ordered above Média.
   */
  lemma StatRowFacts(e: Enriched, n: Numerics, i: nat)
    requires i < |Statistics(e, n)|
    ensures var r, days := Statistics(e, n)[i], DaysOf(e.rows, StatPairs(e.rows)[i]);
      && |days| >= 1
      && r.maximo in days
      && (forall j :: 0 <= j < |days| ==> days[j] <= r.maximo)
      && r.media <= r.maximo
      && (|days| == 1 ==> r.desvio == 0.0)
      && (r.desvio >= 0.0 ==> r.media <= r.media1 <= r.media2 <= r.media3)
  {
    var p := StatPairs(e.rows)[i];
    DaysOfPair(e.rows, p);
    MaxAtLeastMean(DaysOf(e.rows, p));
  }

  /** A standard deviation that is never negative makes every Desvio non-negative. */
  lemma DesvioNonNegative(e: Enriched, n: Numerics, i: nat)
    requires forall xs :: n.std(xs) >= 0.0
    requires i < |Statistics(e, n)|
    ensures Statistics(e, n)[i].desvio >= 0.0
  {
  }

  /** `first()`: the description comes from the earliest detail row that carries the code. */
  lemma {:induction false} FirstDescIsEarliest(rows: seq<Detail>, side: Side, code: Option<string>, j: nat)
    requires j < |rows| && KeyOf(side, rows[j].rec) == code
    requires forall i :: 0 <= i < j ==> KeyOf(side, rows[i].rec) != code
    ensures FirstDesc(rows, side, code) == (match side case SkuSide => rows[j].skuDesc case DepSide => rows[j].depDesc)
    decreases j
  {
    if j > 0 {
      FirstDescIsEarliest(rows[1..], side, code, j - 1);
    }
  }

  /** A code that no detail row carries gets no description. */
  lemma {:induction false} FirstDescAbsent(rows: seq<Detail>, side: Side, code: Option<string>)
    requires forall i :: 0 <= i < |rows| ==> KeyOf(side, rows[i].rec) != code
    ensures FirstDesc(rows, side, code).None?
    decreases |rows|
  {
    if rows != [] {
      FirstDescAbsent(rows[1..], side, code);
    }
  }

  /**
   * The code columns hold the group's codes; without a description column
   * the description columns hold `""`; with one, a null code gets a null
   * description and any other code the description of its earliest row.
   */
  lemma StatRowCodes(e: Enriched, n: Numerics, i: nat)
    requires i < |Statistics(e, n)|
    ensures var r, p := Statistics(e, n)[i], StatPairs(e.rows)[i];
      && r.codDep == p.dep && r.codSku == p.sku
      && (!e.hasSkuDesc ==> r.sku == Some(""))
      && (!e.hasDepDesc ==> r.dep == Some(""))
      && (e.hasSkuDesc && p.sku.None? ==> r.sku.None?)
      && (e.hasDepDesc && p.dep.None? ==> r.dep.None?)
  {
  }

  lemma SkuDescription(e: Enriched, n: Numerics, i: nat, j: nat)
    requires i < |Statistics(e, n)| && e.hasSkuDesc
    requires StatPairs(e.rows)[i].sku.Some?
    requires j < |e.rows| && e.rows[j].rec.sku == StatPairs(e.rows)[i].sku
    requires forall k :: 0 <= k < j ==> e.rows[k].rec.sku != StatPairs(e.rows)[i].sku
    ensures Statistics(e, n)[i].sku == e.rows[j].skuDesc
  {
    FirstDescIsEarliest(e.rows, SkuSide, StatPairs(e.rows)[i].sku, j);
  }

  lemma DepDescription(e: Enriched, n: Numerics, i: nat, j: nat)
    requires i < |Statistics(e, n)| && e.hasDepDesc
    requires StatPairs(e.rows)[i].dep.Some?
    requires j < |e.rows| && e.rows[j].rec.deposito == StatPairs(e.rows)[i].dep
    requires forall k :: 0 <= k < j ==> e.rows[k].rec.deposito != StatPairs(e.rows)[i].dep
    ensures Statistics(e, n)[i].dep == e.rows[j].depDesc
  {
    FirstDescIsEarliest(e.rows, DepSide, StatPairs(e.rows)[i].dep, j);
  }

  /** A dated detail row of Depósito `dep` and SKU `sku` with quantity `q`, and nothing else. */
  function ScenarioRow(dep: string, sku: string, day: Date, q: real): Detail {
    Detail(Record(Some(dep), Some(sku), None, None, Some(day), None, Some(q), None), None, None)
  }

  /** Three rows of one (Depósito, SKU) with quantities 10, 20 and 30. */
  function Scenario(dep: string, sku: string, d1: Date, d2: Date, d3: Date): seq<Detail> {
    [ScenarioRow(dep, sku, d1, 10.0), ScenarioRow(dep, sku, d2, 20.0), ScenarioRow(dep, sku, d3, 30.0)]
  }

  function ScenarioEs(dep: string, sku: string, d1: Date, d2: Date, d3: Date): seq<(DayKey, real)> {
    [(DayKey(Some(dep), Some(sku), d1), 10.0), (DayKey(Some(dep), Some(sku), d2), 20.0),
     (DayKey(Some(dep), Some(sku), d3), 30.0)]
  }

  lemma ScenarioEntries(dep: string, sku: string, d1: Date, d2: Date, d3: Date)
    ensures DailyEntries(Scenario(dep, sku, d1, d2, d3)) == ScenarioEs(dep, sku, d1, d2, d3)
  {
    var rows := Scenario(dep, sku, d1, d2, d3);
    var es := ScenarioEs(dep, sku, d1, d2, d3);
    assert rows[..2][..1][..0] == [];
    assert DailyEntries(rows[..2][..1]) == es[..1];
    assert DailyEntries(rows[..2]) == es[..2];
  }

  lemma ScenarioKeys(dep: string, sku: string, d1: Date, d2: Date, d3: Date)
    requires d1 != d2 && d1 != d3 && d2 != d3
    ensures DayKeys(Scenario(dep, sku, d1, d2, d3))
         == [DayKey(Some(dep), Some(sku), d1), DayKey(Some(dep), Some(sku), d2), DayKey(Some(dep), Some(sku), d3)]
  {
    ScenarioEntries(dep, sku, d1, d2, d3);
    var ks := Keys(ScenarioEs(dep, sku, d1, d2, d3));
    assert ks[..2][..1][..0] == [];
    assert Distinct(ks[..2][..1]) == ks[..1];
    assert Distinct(ks[..2]) == ks[..2];
    assert ks[2] !in ks[..2];
  }

  lemma ScenarioPairs(dep: string, sku: string, d1: Date, d2: Date, d3: Date)
    requires d1 != d2 && d1 != d3 && d2 != d3
    ensures StatPairs(Scenario(dep, sku, d1, d2, d3)) == [PairKey(Some(dep), Some(sku))]
  {
    ScenarioKeys(dep, sku, d1, d2, d3);
    var ks := DayKeys(Scenario(dep, sku, d1, d2, d3));
    var p := PairKey(Some(dep), Some(sku));
    var pk := seq(|ks|, i requires 0 <= i < |ks| => PairOf(ks[i]));
    assert pk == [p, p, p];
    assert pk[..2][..1][..0] == [];
    assert Distinct(pk[..2][..1]) == [p];
    assert Distinct(pk[..2]) == [p];
  }

  lemma ScenarioDays(dep: string, sku: string, d1: Date, d2: Date, d3: Date)
    requires d1 != d2 && d1 != d3 && d2 != d3
    ensures DaysOf(Scenario(dep, sku, d1, d2, d3), PairKey(Some(dep), Some(sku))) == [10.0, 20.0, 30.0]
  {
    ScenarioEntries(dep, sku, d1, d2, d3);
    ScenarioKeys(dep, sku, d1, d2, d3);
    var es := ScenarioEs(dep, sku, d1, d2, d3);
    var ks := Keys(es);
    assert es[..2][..1][..0] == [];
    forall j | 0 <= j < 3
      ensures SumFor(es, ks[j]) == es[j].1
    {
      assert SumFor(es[..2][..1][..0], ks[j]) == 0.0;
      assert SumFor(es[..2][..1], ks[j]) == if j == 0 then es[0].1 else 0.0;
      assert SumFor(es[..2], ks[j]) == if j == 0 then es[0].1 else if j == 1 then es[1].1 else 0.0;
    }
    var g := k => PairOf(k) == PairKey(Some(dep), Some(sku));
    assert ks[..2][..1][..0] == [];
    assert GroupSums(ks[..2][..1], es, g) == [es[0].1];
    assert GroupSums(ks[..2], es, g) == [es[0].1, es[1].1];
    assert GroupSums(ks, es, g) == [10.0, 20.0, 30.0];
    assert ks == DayKeys(Scenario(dep, sku, d1, d2, d3));
  }

  /**
   * Quantities 10, 20 and 30 of one (Depósito, SKU) on three distinct days
   * give a single statistics row with Média 20 and Máximo 30, whatever the
   * deviation.
   */
  lemma ThreeDaysScenario(dep: string, sku: string, d1: Date, d2: Date, d3: Date, n: Numerics)
    requires d1 != d2 && d1 != d3 && d2 != d3
    ensures var st := Statistics(Enriched(Scenario(dep, sku, d1, d2, d3), false, false), n);
      && |st| == 1
      && st[0].codDep == Some(dep) && st[0].codSku == Some(sku)
      && st[0].media == 20.0 && st[0].maximo == 30.0
  {
    ScenarioPairs(dep, sku, d1, d2, d3);
    ScenarioDays(dep, sku, d1, d2, d3);
    var days := [10.0, 20.0, 30.0];
    assert days[..2][..1][..0] == [];
    assert Sum(days[..2][..1]) == 10.0;
    assert Sum(days[..2]) == 30.0;
    assert Sum(days) == 60.0;
    assert Max(days) == 30.0;
  }

  // ---------------------------------------------------------------------------
  // Output columns
  // ---------------------------------------------------------------------------

  /**
   * The column names that can occur in `stats`. They form a fixed vocabulary,
   * so they are modelled as an enumeration; `Title` gives the text of each.
   */
  datatype StatCol =
    | CodDepCol | DepCol | CodSkuCol | SkuCol | MediaCol | MaximoCol | DesvioCol
    | Media1Col | Media2Col | Media3Col | P95Col | SkuDescCol | DepDescCol
  {
    function Title(): string {
      match this
      case CodDepCol => "Código Depósito"
      case DepCol => "Depósito"
      case CodSkuCol => "Código SKU"
      case SkuCol => "SKU"
      case MediaCol => "Média"
      case MaximoCol => "Máximo"
      case DesvioCol => "Desvio"
      case Media1Col => "Média + 1 Desv"
      case Media2Col => "Média + 2 Desv"
      case Media3Col => "Média + 3 Desv"
      case P95Col => "Percentil 95%"
      case SkuDescCol => "SKU_DESC"
      case DepDescCol => "DEP_DESC"
    }
  }

  /** `final_cols`, in output order. */
  const FinalColumns: seq<StatCol> := [
    CodDepCol, DepCol, CodSkuCol, SkuCol, MediaCol, MaximoCol, DesvioCol,
    Media1Col, Media2Col, Media3Col, P95Col]

  /**
   * The columns the final selection does not repeat as extras: the final
   * columns themselves ("Qtd_Dia", "Data", "Hora", "Pedido", "Caixa" and
   * "Rota/Destino" of the ignore list never occur in `stats`).
   */
  const Ignored: seq<StatCol> := FinalColumns

  function Rename(cols: seq<StatCol>, from: StatCol, to: StatCol): (r: seq<StatCol>)
    ensures |r| == |cols|
    ensures forall i :: 0 <= i < |r| ==> r[i] == (if cols[i] == from then to else cols[i])
  {
    seq(|cols|, i requires 0 <= i < |cols| => if cols[i] == from then to else cols[i])
  }

  /** The grouping keys and the aggregates, in the order the aggregation produces them. */
  const AggBase: seq<StatCol> := [DepCol, SkuCol, MediaCol, MaximoCol, DesvioCol, P95Col,
                                  Media1Col, Media2Col, Media3Col]

  /** The same columns once the two codes are renamed. */
  const StatBase: seq<StatCol> := [CodDepCol, CodSkuCol, MediaCol, MaximoCol, DesvioCol, P95Col,
                                   Media1Col, Media2Col, Media3Col]

  /** The description columns the two joins append. */
  function DescTail(hasSkuDesc: bool, hasDepDesc: bool): seq<StatCol> {
    (if hasSkuDesc then [SkuDescCol] else []) + (if hasDepDesc then [DepDescCol] else [])
  }

  /** The columns of `stats` after the aggregation, the description joins and the renames. */
  function StatsColumns(hasSkuDesc: bool, hasDepDesc: bool): seq<StatCol> {
    var agg := AggBase + DescTail(hasSkuDesc, hasDepDesc);
    var codes := Rename(Rename(agg, DepCol, CodDepCol), SkuCol, CodSkuCol);
    var withSku := if SkuDescCol in codes then Rename(codes, SkuDescCol, SkuCol) else codes + [SkuCol];
    if DepDescCol in withSku then Rename(withSku, DepDescCol, DepCol) else withSku + [DepCol]
  }

  /** `extra_cols`: the columns of `stats` that are not ignored. */
  function ExtraColumns(cols: seq<StatCol>): seq<StatCol> {
    Filter(cols, c => c !in Ignored)
  }

  lemma RenameAppend(a: seq<StatCol>, b: seq<StatCol>, from: StatCol, to: StatCol)
    ensures Rename(a + b, from, to) == Rename(a, from, to) + Rename(b, from, to)
  {
    assert forall i :: 0 <= i < |a| ==> (a + b)[i] == a[i];
    assert forall i :: |a| <= i < |a| + |b| ==> (a + b)[i] == b[i - |a|];
  }

  lemma RenameAbsent(a: seq<StatCol>, from: StatCol, to: StatCol)
    requires from !in a
    ensures Rename(a, from, to) == a
  {
    assert forall i :: 0 <= i < |a| ==> a[i] != from;
  }

  lemma BaseRenamed()
    ensures Rename(Rename(AggBase, DepCol, CodDepCol), SkuCol, CodSkuCol) == StatBase
  {
    var once := [CodDepCol, SkuCol, MediaCol, MaximoCol, DesvioCol, P95Col,
                 Media1Col, Media2Col, Media3Col];
    assert Rename(AggBase, DepCol, CodDepCol) == once;
  }

  /** The codes are renamed in place; the description columns stay behind them. */
  lemma CodesRenamed(hasSkuDesc: bool, hasDepDesc: bool)
    ensures Rename(Rename(AggBase + DescTail(hasSkuDesc, hasDepDesc), DepCol, CodDepCol), SkuCol, CodSkuCol)
         == StatBase + DescTail(hasSkuDesc, hasDepDesc)
  {
    var tail := DescTail(hasSkuDesc, hasDepDesc);
    assert DepCol !in tail && SkuCol !in tail && CodDepCol !in tail;
    RenameAppend(AggBase, tail, DepCol, CodDepCol);
    RenameAbsent(tail, DepCol, CodDepCol);
    RenameAppend(Rename(AggBase, DepCol, CodDepCol), tail, SkuCol, CodSkuCol);
    RenameAbsent(tail, SkuCol, CodSkuCol);
    BaseRenamed();
  }

  lemma DescriptionsAbsentFromBase()
    ensures SkuDescCol !in StatBase && DepDescCol !in StatBase
  {
  }

  lemma ColumnsBothDesc()
    ensures StatsColumns(true, true) == Ending(true)
  {
    CodesRenamed(true, true);
    DescriptionsAbsentFromBase();
    var codes := StatBase + [SkuDescCol, DepDescCol];
    assert DescTail(true, true) == [SkuDescCol, DepDescCol];
    RenameAppend(StatBase, [SkuDescCol, DepDescCol], SkuDescCol, SkuCol);
    RenameAbsent(StatBase, SkuDescCol, SkuCol);
    assert Rename([SkuDescCol, DepDescCol], SkuDescCol, SkuCol) == [SkuCol, DepDescCol];
    var withSku := StatBase + [SkuCol, DepDescCol];
    RenameAppend(StatBase, [SkuCol, DepDescCol], DepDescCol, DepCol);
    RenameAbsent(StatBase, DepDescCol, DepCol);
    assert Rename([SkuCol, DepDescCol], DepDescCol, DepCol) == [SkuCol, DepCol];
    assert SkuDescCol in codes && DepDescCol in withSku;
  }

  lemma ColumnsSkuDesc()
    ensures StatsColumns(true, false) == Ending(true)
  {
    CodesRenamed(true, false);
    DescriptionsAbsentFromBase();
    var codes := StatBase + [SkuDescCol];
    assert DescTail(true, false) == [SkuDescCol];
    RenameAppend(StatBase, [SkuDescCol], SkuDescCol, SkuCol);
    RenameAbsent(StatBase, SkuDescCol, SkuCol);
    assert Rename([SkuDescCol], SkuDescCol, SkuCol) == [SkuCol];
    var withSku := StatBase + [SkuCol];
    assert SkuDescCol in codes && DepDescCol !in withSku;
    assert withSku + [DepCol] == StatBase + [SkuCol, DepCol];
  }

  lemma ColumnsDepDesc()
    ensures StatsColumns(false, true) == Ending(false)
  {
    CodesRenamed(false, true);
    DescriptionsAbsentFromBase();
    var codes := StatBase + [DepDescCol];
    assert DescTail(false, true) == [DepDescCol];
    var withSku := StatBase + [DepDescCol, SkuCol];
    assert SkuDescCol !in codes;
    assert codes + [SkuCol] == withSku;
    RenameAppend(StatBase, [DepDescCol, SkuCol], DepDescCol, DepCol);
    RenameAbsent(StatBase, DepDescCol, DepCol);
    assert Rename([DepDescCol, SkuCol], DepDescCol, DepCol) == [DepCol, SkuCol];
    assert DepDescCol in withSku;
  }

  lemma ColumnsNoDesc()
    ensures StatsColumns(false, false) == Ending(true)
  {
    CodesRenamed(false, false);
    DescriptionsAbsentFromBase();
    assert DescTail(false, false) == [];
    assert StatBase + [] == StatBase;
    assert DepDescCol !in StatBase + [SkuCol];
    assert StatBase + [SkuCol] + [DepCol] == StatBase + [SkuCol, DepCol];
  }

  /** The column lists `stats` can end with: SKU before Depósito, or the reverse. */
  function Ending(skuFirst: bool): seq<StatCol> {
    StatBase + (if skuFirst then [SkuCol, DepCol] else [DepCol, SkuCol])
  }

  /** Where each column sits in `Ending(skuFirst)`; 11 for the two columns it lacks. */
  function Position(c: StatCol, skuFirst: bool): nat {
    match c
    case CodDepCol => 0
    case CodSkuCol => 1
    case MediaCol => 2
    case MaximoCol => 3
    case DesvioCol => 4
    case P95Col => 5
    case Media1Col => 6
    case Media2Col => 7
    case Media3Col => 8
    case SkuCol => if skuFirst then 9 else 10
    case DepCol => if skuFirst then 10 else 9
    case SkuDescCol => 11
    case DepDescCol => 11
  }

  lemma PositionsOfEnding(skuFirst: bool)
    ensures |Ending(skuFirst)| == 11
    ensures forall i :: 0 <= i < 11 ==> Position(Ending(skuFirst)[i], skuFirst) == i
    ensures forall c :: Position(c, skuFirst) < 11 ==> Ending(skuFirst)[Position(c, skuFirst)] == c
  {
  }

  /** Both orders in which `stats` can end carry the final columns, each once, and nothing else. */
  lemma FinalColumnsOnly(skuFirst: bool)
    ensures forall c :: c in FinalColumns ==> c in Ending(skuFirst)
    ensures NoDuplicates(Ending(skuFirst))
    ensures ExtraColumns(Ending(skuFirst)) == []
  {
    var cols := Ending(skuFirst);
    PositionsOfEnding(skuFirst);
    forall c | c in FinalColumns
      ensures c in cols
    {
      assert Position(c, skuFirst) < 11;
    }
    forall i, j | 0 <= i < j < |cols|
      ensures cols[i] != cols[j]
    {
      assert Position(cols[i], skuFirst) != Position(cols[j], skuFirst);
    }
    forall k | 0 <= k < |cols|
      ensures cols[k] in Ignored
    {
      assert !cols[k].SkuDescCol? && !cols[k].DepDescCol?;
    }
    FilterNone(cols, c => c !in Ignored);
  }

  /**
   * Whatever descriptions exist, `stats` has every final column, each once,
   * and no extra one, so the output is exactly the fixed column order.
   */
  lemma OutputColumnsFixed(hasSkuDesc: bool, hasDepDesc: bool)
    ensures forall c :: c in FinalColumns ==> c in StatsColumns(hasSkuDesc, hasDepDesc)
    ensures NoDuplicates(StatsColumns(hasSkuDesc, hasDepDesc))
    ensures ExtraColumns(StatsColumns(hasSkuDesc, hasDepDesc)) == []
  {
    if hasSkuDesc && hasDepDesc {
      ColumnsBothDesc();
    } else if hasSkuDesc {
      ColumnsSkuDesc();
    } else if hasDepDesc {
      ColumnsDepDesc();
    } else {
      ColumnsNoDesc();
    }
    FinalColumnsOnly(hasSkuDesc || !hasDepDesc);
  }
}
