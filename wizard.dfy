/**
 * The logic the wizard's steps 2 and 4 run between widgets: the default
 * source column offered for each canonical field, the "code - description"
 * labels of the global filters and the codes read back from them, the
 * drill-down on one statistics row, and the big-number indicators.
 */
module Wizard {
  import opened Wrappers
  import opened Text
  import opened Grouping
  import opened Etl
  import opened Stats

  // ---------------------------------------------------------------------------
  // Step 2: default mapping index
  // ---------------------------------------------------------------------------

  /** A source column is offered for a target when its lower-cased name occurs in the lower-cased target. */
  predicate Suggests(column: string, target: string) {
    IsSubstring(Lower(column), Lower(target))
  }

  /**
   * The index pre-selected in the target's drop-down: the first source
   * column that suggests itself, else 0 (the "--- Ignorar ---" entry).
   */
  method DefaultMappingIndex(cols: seq<string>, target: string) returns (idx: nat)
    ensures (exists i :: 0 <= i < |cols| && Suggests(cols[i], target)) ==>
      idx < |cols| && Suggests(cols[idx], target)
      && forall j :: 0 <= j < idx ==> !Suggests(cols[j], target)
    ensures (forall i :: 0 <= i < |cols| ==> !Suggests(cols[i], target)) ==> idx == 0
  {
    idx := 0;
    var ix := 0;
    while ix < |cols|
      invariant 0 <= ix <= |cols|
      invariant idx == 0
      invariant forall j :: 0 <= j < ix ==> !Suggests(cols[j], target)
    {
      if Suggests(cols[ix], target) {
        idx := ix;
        break;
      }
      ix := ix + 1;
    }
  }

  /** A character of `p` that `s` does not contain rules out `p` occurring in `s`. */
  lemma NotSubstringByChar(p: string, s: string, i: nat)
    requires i < |p| && p[i] !in s
    ensures !IsSubstring(p, s)
  {
    forall k | 0 <= k <= |s|
      ensures !OccursAt(s, p, k)
    {
      if k + |p| <= |s| {
        assert s[k..k + |p|][i] == s[k + i];
        assert s[k + i] in s;
      }
    }
  }

  /**
   * The "--- Ignorar ---" entry is never suggested for a target without a
   * '-', which covers every canonical field, so index 0 is the ignore entry
   * only by default.
   */
  lemma IgnoreNeverSuggested(target: string)
    requires '-' !in target
    ensures !Suggests(IGNORE, target)
  {
    assert Lower(IGNORE)[0] == '-';
    forall i | 0 <= i < |target|
      ensures Lower(target)[i] != '-'
    {
      assert target[i] != '-';
    }
    NotSubstringByChar(Lower(IGNORE), Lower(target), 0);
  }

  /** A column named exactly like the target, in any letter case, is suggested. */
  lemma SameNameSuggested(column: string, target: string)
    requires Lower(column) == Lower(target)
    ensures Suggests(column, target)
  {
    assert OccursAt(Lower(target), Lower(column), 0);
  }

  /** The empty column name occurs in every target, so it is suggested for all of them. */
  lemma EmptyNameSuggested(target: string)
    ensures Suggests("", target)
  {
    assert OccursAt(Lower(target), Lower(""), 0);
  }

  /**
   * The test runs from the column into the target: a column name longer
   * than the target ("Pedido Cliente" for "Pedido") is never suggested.
   */
  lemma LongerNameNotSuggested(column: string, target: string)
    requires |column| > |target|
    ensures !Suggests(column, target)
  {
  }

  // ---------------------------------------------------------------------------
  // Step 4: labels, global filters and drill-down
  // ---------------------------------------------------------------------------

  const SEP: string := " - "

  /** `concat_str([code, " - ", desc.fill_null("")])`: null when the code is null. */
  function Label(code: Option<string>, desc: Option<string>): (r: Option<string>)
    ensures r.None? <==> code.None?
  {
    match code
    case None => None
    case Some(c) => Some(c + SEP + desc.GetOr(""))
  }

  function SkuLabel(s: StatRow): Option<string> { Label(s.codSku, s.sku) }
  function DepLabel(s: StatRow): Option<string> { Label(s.codDep, s.dep) }

  /** `label.split(" - ")[0]`. */
  function CodeOf(lbl: string): (r: string)
    ensures |r| <= |lbl| && r == lbl[..|r|]
  {
    SplitHead(lbl, SEP)
  }

  function CodesOf(labels: seq<string>): (r: seq<string>)
    ensures |r| == |labels|
    ensures forall i :: 0 <= i < |r| ==> r[i] == CodeOf(labels[i])
  {
    seq(|labels|, i requires 0 <= i < |labels| => CodeOf(labels[i]))
  }

  /** The code ends in " -", so the separator that follows it starts one character early. */
  predicate EndsWithDash(code: string) {
    |code| >= 2 && code[|code| - 2..] == " -"
  }

  /** An occurrence of the separator that starts inside the code, by where it starts. */
  lemma SeparatorInsideCode(code: string, desc: string, j: nat)
    requires j < |code|
    ensures j + 3 <= |code| ==> (OccursAt(code + SEP + desc, SEP, j) <==> OccursAt(code, SEP, j))
    ensures j + 2 == |code| ==> (OccursAt(code + SEP + desc, SEP, j) <==> EndsWithDash(code))
    ensures j + 1 == |code| ==> !OccursAt(code + SEP + desc, SEP, j)
  {
    var s := code + SEP + desc;
    if j + 3 <= |code| {
      assert s[j..j + 3] == code[j..j + 3];
    } else if j + 2 == |code| {
      var t := code[j..];
      assert s[j..j + 3] == t + " ";
      assert SEP == " -" + " ";
      assert t + " " == SEP ==> t == (t + " ")[..2];
    } else {
      assert s[j..j + 3][1] == s[j + 1] == ' ';
    }
  }

  /**
   * Reading the code back from a label gives the code exactly when the code
   * neither contains " - " nor ends in " -"; the description plays no part.
   */
  lemma CodeOfLabel(code: string, desc: string)
    ensures CodeOf(code + SEP + desc) == code <==> !IsSubstring(SEP, code) && !EndsWithDash(code)
  {
    var s := code + SEP + desc;
    SplitHeadPrefix(code, SEP, desc);
    if IsSubstring(SEP, code) {
      var k :| 0 <= k <= |code| && OccursAt(code, SEP, k);
      SeparatorInsideCode(code, desc, k);
    } else if EndsWithDash(code) {
      SeparatorInsideCode(code, desc, |code| - 2);
    } else {
      forall j | 0 <= j < |code|
        ensures !OccursAt(s, SEP, j)
      {
        SeparatorInsideCode(code, desc, j);
        assert !OccursAt(code, SEP, j);
      }
    }
  }

  /** A code that ends in " -" is cut short by the label round trip. */
  lemma CodeOfLabelCounterexample()
    ensures CodeOf("A -" + SEP + "Caneta") == "A"
  {
    var s := "A -" + SEP + "Caneta";
    assert OccursAt(s, SEP, 1);
    assert s[0] == 'A';
  }

  /** A statistics row passes the SKU filter: nothing is selected, or its label is. */
  predicate SkuChosen(s: StatRow, sel: seq<string>) {
    sel == [] || (SkuLabel(s).Some? && SkuLabel(s).value in sel)
  }

  predicate DepChosen(s: StatRow, sel: seq<string>) {
    sel == [] || (DepLabel(s).Some? && DepLabel(s).value in sel)
  }

  /** A detail row passes the SKU filter: nothing is selected, or its code was read back from a selected label. */
  predicate PassesSku(d: Detail, sel: seq<string>) {
    sel == [] || (d.rec.sku.Some? && d.rec.sku.value in CodesOf(sel))
  }

  predicate PassesDep(d: Detail, sel: seq<string>) {
    sel == [] || (d.rec.deposito.Some? && d.rec.deposito.value in CodesOf(sel))
  }

  /**
   * The SKU filter on the statistics: the rows whose label was selected
   * (nothing selected keeps all), each as often as in the input, in order.
   */
  function StatsBySku(stats: seq<StatRow>, sel: seq<string>): (r: seq<StatRow>)
    ensures sel == [] ==> r == stats
    ensures forall s :: multiset(r)[s] == if SkuChosen(s, sel) then multiset(stats)[s] else 0
    ensures forall i :: 0 <= i < |r| ==> r[i] in stats && SkuChosen(r[i], sel)
    ensures forall i :: 0 <= i < |stats| && SkuChosen(stats[i], sel) ==> stats[i] in r
  {
    if sel == [] then stats
    else
      FilterCounts(stats, (s: StatRow) => SkuChosen(s, sel));
      Filter(stats, (s: StatRow) => SkuChosen(s, sel))
  }

  function StatsByDep(stats: seq<StatRow>, sel: seq<string>): (r: seq<StatRow>)
    ensures sel == [] ==> r == stats
    ensures forall s :: multiset(r)[s] == if DepChosen(s, sel) then multiset(stats)[s] else 0
    ensures forall i :: 0 <= i < |r| ==> r[i] in stats && DepChosen(r[i], sel)
    ensures forall i :: 0 <= i < |stats| && DepChosen(stats[i], sel) ==> stats[i] in r
  {
    if sel == [] then stats
    else
      FilterCounts(stats, (s: StatRow) => DepChosen(s, sel));
      Filter(stats, (s: StatRow) => DepChosen(s, sel))
  }

  /**
   * The SKU filter on the detail: the rows whose SKU code was read back from
   * a selected label (nothing selected keeps all), each as often as in the input, in order.
   */
  function DetailBySku(rows: seq<Detail>, sel: seq<string>): (r: seq<Detail>)
    ensures sel == [] ==> r == rows
    ensures forall d :: multiset(r)[d] == if PassesSku(d, sel) then multiset(rows)[d] else 0
    ensures forall i :: 0 <= i < |r| ==> r[i] in rows && PassesSku(r[i], sel)
    ensures forall i :: 0 <= i < |rows| && PassesSku(rows[i], sel) ==> rows[i] in r
  {
    if sel == [] then rows
    else
      FilterCounts(rows, (d: Detail) => PassesSku(d, sel));
      Filter(rows, (d: Detail) => PassesSku(d, sel))
  }

  function DetailByDep(rows: seq<Detail>, sel: seq<string>): (r: seq<Detail>)
    ensures sel == [] ==> r == rows
    ensures forall d :: multiset(r)[d] == if PassesDep(d, sel) then multiset(rows)[d] else 0
    ensures forall i :: 0 <= i < |r| ==> r[i] in rows && PassesDep(r[i], sel)
    ensures forall i :: 0 <= i < |rows| && PassesDep(rows[i], sel) ==> rows[i] in r
  {
    if sel == [] then rows
    else
      FilterCounts(rows, (d: Detail) => PassesDep(d, sel));
      Filter(rows, (d: Detail) => PassesDep(d, sel))
  }

  /**
   * The two halves of the SKU filter agree: when a statistics row survives
   * and its code reads back cleanly from its label, every detail row with
   * that code survives too.
   */
  lemma SkuFiltersAgree(stats: seq<StatRow>, rows: seq<Detail>, sel: seq<string>, s: StatRow, d: Detail)
    requires s in StatsBySku(stats, sel)
    requires s.codSku.Some? && d.rec.sku == s.codSku
    requires !IsSubstring(SEP, s.codSku.value) && !EndsWithDash(s.codSku.value)
    ensures PassesSku(d, sel)
    ensures d in rows ==> d in DetailBySku(rows, sel)
  {
    if sel != [] {
      var r := StatsBySku(stats, sel);
      var i :| 0 <= i < |r| && r[i] == s;
      var lbl := SkuLabel(s).value;
      var c := s.codSku.value;
      CodeOfLabel(c, s.sku.GetOr(""));
      var j :| 0 <= j < |sel| && sel[j] == lbl;
      assert CodesOf(sel)[j] == c;
      if d in rows {
        var n :| 0 <= n < |rows| && rows[n] == d;
      }
    }
  }

  lemma DepFiltersAgree(stats: seq<StatRow>, rows: seq<Detail>, sel: seq<string>, s: StatRow, d: Detail)
    requires s in StatsByDep(stats, sel)
    requires s.codDep.Some? && d.rec.deposito == s.codDep
    requires !IsSubstring(SEP, s.codDep.value) && !EndsWithDash(s.codDep.value)
    ensures PassesDep(d, sel)
    ensures d in rows ==> d in DetailByDep(rows, sel)
  {
    if sel != [] {
      var r := StatsByDep(stats, sel);
      var i :| 0 <= i < |r| && r[i] == s;
      var lbl := DepLabel(s).value;
      var c := s.codDep.value;
      CodeOfLabel(c, s.dep.GetOr(""));
      var j :| 0 <= j < |sel| && sel[j] == lbl;
      assert CodesOf(sel)[j] == c;
      if d in rows {
        var n :| 0 <= n < |rows| && rows[n] == d;
      }
    }
  }

  /** `str(value)` of a code cell after the conversion to pandas: a null code prints as "None". */
  function Shown(code: Option<string>): string {
    code.GetOr("None")
  }

  /** A detail row carries the statistics row's SKU and Depósito codes as shown; a null detail code never does. */
  predicate Drilled(d: Detail, s: StatRow) {
    d.rec.sku == Some(Shown(s.codSku)) && d.rec.deposito == Some(Shown(s.codDep))
  }

  /**
   * The drill-down on one statistics row: the detail rows whose SKU and
   * Depósito codes equal the row's codes as shown, each as often as in the input, in order.
   */
  function DrillDown(rows: seq<Detail>, s: StatRow): (r: seq<Detail>)
    ensures forall d :: multiset(r)[d] == if Drilled(d, s) then multiset(rows)[d] else 0
    ensures forall i :: 0 <= i < |r| ==> r[i] in rows && Drilled(r[i], s)
    ensures forall i :: 0 <= i < |rows| && Drilled(rows[i], s) ==> rows[i] in r
  {
    FilterCounts(rows, (d: Detail) => Drilled(d, s));
    Filter(rows, (d: Detail) => Drilled(d, s))
  }

  /** The statistics table and the detail table the dashboard shows. */
  datatype View = View(stats: seq<StatRow>, detail: seq<Detail>)

  /**
   * The global filters (SKU first, then Depósito) followed by the optional
   * drill-down on the selected row of the filtered statistics: the shown
   * statistics are the rows that pass both filters; the shown detail rows
   * are those that pass both filters and, with a selection, carry the
   * selected row's codes as shown.
   */
  function Dashboard(stats: seq<StatRow>, rows: seq<Detail>, selSkus: seq<string>, selDeps: seq<string>,
                     selected: Option<nat>): (v: View)
    requires selected.Some? ==> selected.value < |StatsByDep(StatsBySku(stats, selSkus), selDeps)|
    ensures forall s ::
              multiset(v.stats)[s] == if SkuChosen(s, selSkus) && DepChosen(s, selDeps) then multiset(stats)[s] else 0
    ensures selected.Some? ==> selected.value < |v.stats|
    ensures selected.None? ==>
      forall d ::
        multiset(v.detail)[d] == if PassesSku(d, selSkus) && PassesDep(d, selDeps) then multiset(rows)[d] else 0
    ensures selected.Some? ==>
      forall d ::
        multiset(v.detail)[d] ==
          if PassesSku(d, selSkus) && PassesDep(d, selDeps) && Drilled(d, v.stats[selected.value])
          then multiset(rows)[d] else 0
  {
    var vs := StatsByDep(StatsBySku(stats, selSkus), selDeps);
    var vd := DetailByDep(DetailBySku(rows, selSkus), selDeps);
    match selected
    case None => View(vs, vd)
    case Some(i) => View(vs, DrillDown(vd, vs[i]))
  }

  /**
   * When the selected row's codes are present and read back cleanly from
   * their labels, the global filters remove nothing the drill-down keeps:
   * the detail shown is the drill-down of the whole detail table.
   */
  lemma DashboardCleanCodes(stats: seq<StatRow>, rows: seq<Detail>, selSkus: seq<string>, selDeps: seq<string>, i: nat)
    requires i < |StatsByDep(StatsBySku(stats, selSkus), selDeps)|
    requires var s := StatsByDep(StatsBySku(stats, selSkus), selDeps)[i];
      && s.codSku.Some? && !IsSubstring(SEP, s.codSku.value) && !EndsWithDash(s.codSku.value)
      && s.codDep.Some? && !IsSubstring(SEP, s.codDep.value) && !EndsWithDash(s.codDep.value)
    ensures var v := Dashboard(stats, rows, selSkus, selDeps, Some(i));
      forall d :: multiset(v.detail)[d] == if Drilled(d, v.stats[i]) then multiset(rows)[d] else 0
  {
    var bySku := StatsBySku(stats, selSkus);
    var vs := StatsByDep(bySku, selDeps);
    var s := vs[i];
    assert s in vs;
    assert s in bySku;
    forall d | Drilled(d, s)
      ensures PassesSku(d, selSkus) && PassesDep(d, selDeps)
    {
      SkuFiltersAgree(stats, rows, selSkus, s, d);
      DepFiltersAgree(bySku, rows, selDeps, s, d);
    }
  }

  // ---------------------------------------------------------------------------
  // Step 4: big numbers
  // ---------------------------------------------------------------------------

  datatype Kpi = Kpi(
    linhas: nat, unidades: real, picking: nat, skus: nat, deps: nat,
    daily: seq<real>, dias: nat, avgDay: real, maxDay: real)

  /** `(Data, Quantidade)` of each detail row, a null quantity counting 0 in `sum`. */
  function DayQuantities(rows: seq<Detail>): (r: seq<(Option<Date>, real)>)
    ensures |r| == |rows|
    ensures forall i :: 0 <= i < |r| ==> r[i] == (rows[i].rec.data, rows[i].rec.quantidade.GetOr(0.0))
  {
    seq(|rows|, i requires 0 <= i < |rows| => (rows[i].rec.data, rows[i].rec.quantidade.GetOr(0.0)))
  }

  function Pedidos(rows: seq<Detail>): seq<Option<string>> {
    seq(|rows|, i requires 0 <= i < |rows| => rows[i].rec.pedido)
  }
  function Skus(rows: seq<Detail>): seq<Option<string>> {
    seq(|rows|, i requires 0 <= i < |rows| => rows[i].rec.sku)
  }
  function Depositos(rows: seq<Detail>): seq<Option<string>> {
    seq(|rows|, i requires 0 <= i < |rows| => rows[i].rec.deposito)
  }

  /** The distinct values of `Data`, a null date being a group of its own. */
  function Days(rows: seq<Detail>): seq<Option<Date>> {
    Distinct(Keys(DayQuantities(rows)))
  }

  /** `group_by("Data").agg(sum("Quantidade"))`: one sum per day. */
  function DailyTotals(rows: seq<Detail>): (r: seq<real>)
    ensures |r| == |Days(rows)|
  {
    GroupSumsLength(Days(rows), DayQuantities(rows));
    GroupSums(Days(rows), DayQuantities(rows), k => true)
  }

  /** The quantity of the rows dated `day`, a null quantity adding nothing. */
  function DateTotal(rows: seq<Detail>, day: Option<Date>): real
    decreases |rows|
  {
    if rows == [] then 0.0
    else
      var last := rows[|rows| - 1];
      DateTotal(rows[..|rows| - 1], day) + if last.rec.data == day then last.rec.quantidade.GetOr(0.0) else 0.0
  }

  lemma {:induction false} DateTotalIsSumFor(rows: seq<Detail>, day: Option<Date>)
    ensures SumFor(DayQuantities(rows), day) == DateTotal(rows, day)
    decreases |rows|
  {
    if rows != [] {
      var init := rows[..|rows| - 1];
      DateTotalIsSumFor(init, day);
      var es := DayQuantities(rows);
      assert es[..|es| - 1] == DayQuantities(init);
    }
  }

  /**
   * One daily sum per distinct date of the table (a null date being one),
   * each the total quantity of that date.
   */
  lemma DailyTotalsPerDay(rows: seq<Detail>)
    ensures NoDuplicates(Days(rows)) && |DailyTotals(rows)| == |Days(rows)|
    ensures forall day :: day in Days(rows) <==> exists i :: 0 <= i < |rows| && rows[i].rec.data == day
    ensures forall j :: 0 <= j < |Days(rows)| ==> DailyTotals(rows)[j] == DateTotal(rows, Days(rows)[j])
  {
    var es := DayQuantities(rows);
    var ds := Days(rows);
    GroupSumsAll(ds, es);
    forall j | 0 <= j < |ds|
      ensures DailyTotals(rows)[j] == DateTotal(rows, ds[j])
    {
      DateTotalIsSumFor(rows, ds[j]);
    }
    forall day
      ensures day in ds <==> exists i :: 0 <= i < |rows| && rows[i].rec.data == day
    {
      if day in ds {
        var j :| 0 <= j < |ds| && ds[j] == day;
        var i :| 0 <= i < |es| && Keys(es)[i] == day;
        assert rows[i].rec.data == day;
      }
      if exists i :: 0 <= i < |rows| && rows[i].rec.data == day {
        var i :| 0 <= i < |rows| && rows[i].rec.data == day;
        assert Keys(es)[i] == day;
      }
    }
  }

  /** The indicators of a non-empty detail table; an empty one shows none. */
  function Kpis(rows: seq<Detail>): (k: Option<Kpi>)
    ensures k.None? <==> |rows| == 0
  {
    if |rows| == 0 then None
    else
      var daily := DailyTotals(rows);
      assert Keys(DayQuantities(rows))[0] in Days(rows);
      Some(Kpi(
        |rows|, Sum(Values(DayQuantities(rows))),
        |Distinct(Pedidos(rows))|, |Distinct(Skus(rows))|, |Distinct(Depositos(rows))|,
        daily, |daily|, Mean(daily), Max(daily)))
  }

  /** Every row falls on one day: the daily sums add up to the units of the table. */
  lemma DailyTotalsSum(rows: seq<Detail>)
    ensures Sum(DailyTotals(rows)) == Sum(Values(DayQuantities(rows)))
    ensures |DailyTotals(rows)| <= |rows|
    ensures |rows| > 0 ==> |DailyTotals(rows)| >= 1
  {
    var es := DayQuantities(rows);
    GroupSumsAll(Days(rows), es);
    SumForTotal(es);
    if |rows| > 0 {
      assert Keys(es)[0] in Days(rows);
    }
  }

  /**
   * For a non-empty table: at least one day and at most one per row; the
   * daily sums add up to the units; the peak is one of the daily sums and
   * at least the mean.
   */
  lemma KpiDays(rows: seq<Detail>)
    requires |rows| > 0
    ensures var k := Kpis(rows).value;
      && k.linhas == |rows|
      && 1 <= k.dias <= k.linhas
      && Sum(k.daily) == k.unidades
      && k.maxDay in k.daily
      && k.avgDay <= k.maxDay
  {
    var daily := DailyTotals(rows);
    DailyTotalsSum(rows);
    MeanTimesCount(daily);
    MaxAtLeastMean(daily);
  }

  /** The daily mean is the units divided by the number of days. */
  lemma KpiAverage(rows: seq<Detail>)
    requires |rows| > 0
    ensures Kpis(rows).value.dias >= 1
    ensures Kpis(rows).value.avgDay == Kpis(rows).value.unidades / (Kpis(rows).value.dias as real)
  {
    DailyTotalsSum(rows);
  }

  /** The mean of the daily sums times the number of days gives back the units. */
  lemma DailyMeanTimesDays(rows: seq<Detail>)
    requires |rows| > 0
    ensures Mean(DailyTotals(rows)) * (|DailyTotals(rows)| as real) == Sum(Values(DayQuantities(rows)))
  {
    DailyTotalsSum(rows);
    MeanTimesCountIs(DailyTotals(rows), Sum(Values(DayQuantities(rows))));
  }

  /** For a non-empty table the three distinct counts lie between 1 and the number of rows. */
  lemma KpiCounts(rows: seq<Detail>)
    requires |rows| > 0
    ensures var k := Kpis(rows).value;
      1 <= k.picking <= k.linhas && 1 <= k.skus <= k.linhas && 1 <= k.deps <= k.linhas
  {
    assert Pedidos(rows)[0] in Distinct(Pedidos(rows));
    assert Skus(rows)[0] in Distinct(Skus(rows));
    assert Depositos(rows)[0] in Distinct(Depositos(rows));
  }
}
