/**
 * The Z report list editor: a blank report, appending one, renumbering an
 * imported list, deleting one report or a range of Z numbers, and the
 * filter that picks the reports to show. Every handler maps the list it is
 * given to a new list; none changes anything in place.
 */
module ZReportsPage {
  import opened Wrappers
  import opened FiscalDate
  import opened ZReports

  /** `createEmptyZReport(zNumber)`: no date, every counter and accumulator zero, no stored checksum. */
  function EmptyZReport(zNumber: int): (z: ZReport)
    ensures z.zNumber == zNumber && z.dateTime.None? && z.checkSum.None?
    ensures z.fmNumChanges == 0 && z.taxNumChanges == 0 && z.vatChanges == 0 && z.ramResetsCount == 0
    ensures z.lastDocument == 0 && z.lastFiscal == 0 && z.lastStorno == 0
    ensures z.fiscalCount == 0 && z.stornoCount == 0
    ensures |z.totals| == TOTALS_COUNT && forall j | 0 <= j < TOTALS_COUNT :: z.totals[j] == 0
  {
    ZReport(zNumber, None, 0, 0, 0, 0, 0, 0, 0, 0, 0, seq(TOTALS_COUNT, _ => 0), None)
  }

  /** A blank report with a Z number that fits its two bytes is one the record codec writes and reads back. */
  lemma EmptyReportWritable(zNumber: int)
    requires 0 <= zNumber < 0x1_0000
    ensures ZCanonical(EmptyZReport(zNumber))
  {
  }

  /** The reports are numbered 1, 2, 3, ... in list order. */
  predicate Numbered(reports: seq<ZReport>)
  {
    forall i | 0 <= i < |reports| :: reports[i].zNumber == i + 1
  }

  /** The `map((item, idx) => ({ ...item, ZNumber: idx + 1 }))` the delete handlers end with. */
  function Renumber(reports: seq<ZReport>): (r: seq<ZReport>)
    ensures |r| == |reports| && Numbered(r)
    ensures forall i | 0 <= i < |r| :: r[i] == reports[i].(zNumber := i + 1)
  {
    seq(|reports|, i requires 0 <= i < |reports| => reports[i].(zNumber := i + 1))
  }

  /** Renumbering a list that is already numbered changes nothing. */
  lemma RenumberNumbered(reports: seq<ZReport>)
    requires Numbered(reports)
    ensures Renumber(reports) == reports
  {
  }

  /** `handleAddReport`: one blank report numbered after the last, the others untouched. */
  function AddReport(reports: seq<ZReport>): (r: seq<ZReport>)
    ensures |r| == |reports| + 1 && r[..|reports|] == reports
    ensures r[|reports|] == EmptyZReport(|reports| + 1)
  {
    reports + [EmptyZReport(|reports| + 1)]
  }

  /** Adding a report to a numbered list keeps it numbered. */
  lemma AddKeepsNumbered(reports: seq<ZReport>)
    requires Numbered(reports)
    ensures Numbered(AddReport(reports))
  {
    var r := AddReport(reports);
    forall i | 0 <= i < |r|
      ensures r[i].zNumber == i + 1
    {
      if i < |reports| {
        assert r[i] == r[..|reports|][i];
      }
    }
  }

  // An imported report: each field either present (`Some`) or missing.
  // `totals` holds the accumulators in record order; past its end, or where
  // an entry is `None`, the accumulator is missing.
  datatype ReportItem = ReportItem(
    zNumber: Option<int>,
    dateTime: Option<Option<Stamp>>,
    fmNumChanges: Option<int>,
    taxNumChanges: Option<int>,
    vatChanges: Option<int>,
    ramResetsCount: Option<int>,
    lastDocument: Option<int>,
    lastFiscal: Option<int>,
    lastStorno: Option<int>,
    fiscalCount: Option<int>,
    stornoCount: Option<int>,
    totals: seq<Option<int>>,
    checkSum: Option<int>)

  /** A present field wins over the default. */
  function Or<T>(field: Option<T>, default: T): T
  {
    if field.Some? then field.value else default
  }

  /** `{ ...defaults, ...item }`: every field the item has replaces the default's. */
  function Spread(defaults: ZReport, item: ReportItem): (z: ZReport)
    requires |defaults.totals| == TOTALS_COUNT
    ensures |z.totals| == TOTALS_COUNT
  {
    ZReport(
      Or(item.zNumber, defaults.zNumber), Or(item.dateTime, defaults.dateTime),
      Or(item.fmNumChanges, defaults.fmNumChanges), Or(item.taxNumChanges, defaults.taxNumChanges),
      Or(item.vatChanges, defaults.vatChanges), Or(item.ramResetsCount, defaults.ramResetsCount),
      Or(item.lastDocument, defaults.lastDocument), Or(item.lastFiscal, defaults.lastFiscal),
      Or(item.lastStorno, defaults.lastStorno), Or(item.fiscalCount, defaults.fiscalCount),
      Or(item.stornoCount, defaults.stornoCount),
      seq(TOTALS_COUNT, j requires 0 <= j < TOTALS_COUNT =>
        if j < |item.totals| && item.totals[j].Some? then item.totals[j].value else defaults.totals[j]),
      if item.checkSum.Some? then item.checkSum else defaults.checkSum)
  }

  /**
   * `normalizeReports`: item `i` over a blank report numbered `i + 1`, then
   * numbered `i + 1` whatever the item said.
   */
  function NormalizeReports(items: seq<ReportItem>): (r: seq<ZReport>)
    ensures |r| == |items| && Numbered(r)
  {
    seq(|items|, i requires 0 <= i < |items| => Spread(EmptyZReport(i + 1), items[i]).(zNumber := i + 1))
  }

  /** Normalizing keeps every field an item has, and fills each missing one from the blank report. */
  lemma NormalizeKeepsPresentFields(items: seq<ReportItem>, i: nat)
    requires i < |items|
    ensures var z := NormalizeReports(items)[i];
      && (items[i].dateTime.Some? ==> z.dateTime == items[i].dateTime.value)
      && (items[i].dateTime.None? ==> z.dateTime.None?)
      && (items[i].lastDocument.Some? ==> z.lastDocument == items[i].lastDocument.value)
      && (items[i].lastDocument.None? ==> z.lastDocument == 0)
      && (forall j | 0 <= j < TOTALS_COUNT ::
            z.totals[j] == if j < |items[i].totals| && items[i].totals[j].Some? then items[i].totals[j].value else 0)
      && z.checkSum == items[i].checkSum
  {
  }

  /** An imported report that has every field. */
  function Complete(z: ZReport): (item: ReportItem)
    requires |z.totals| == TOTALS_COUNT
    ensures |item.totals| == TOTALS_COUNT
  {
    ReportItem(Some(z.zNumber), Some(z.dateTime), Some(z.fmNumChanges), Some(z.taxNumChanges),
      Some(z.vatChanges), Some(z.ramResetsCount), Some(z.lastDocument), Some(z.lastFiscal),
      Some(z.lastStorno), Some(z.fiscalCount), Some(z.stornoCount),
      seq(TOTALS_COUNT, j requires 0 <= j < TOTALS_COUNT => Some(z.totals[j])), z.checkSum)
  }

  /** Normalizing reports that have every field only renumbers them. */
  lemma NormalizeComplete(reports: seq<ZReport>)
    requires forall i | 0 <= i < |reports| :: |reports[i].totals| == TOTALS_COUNT
    ensures NormalizeReports(seq(|reports|, i requires 0 <= i < |reports| => Complete(reports[i])))
      == Renumber(reports)
  {
    var items := seq(|reports|, i requires 0 <= i < |reports| => Complete(reports[i]));
    forall i | 0 <= i < |reports|
      ensures NormalizeReports(items)[i] == Renumber(reports)[i]
    {
      var z := NormalizeReports(items)[i];
      assert z.totals == reports[i].totals;
    }
  }

  /** The list without the element at index `k` (`filter((_, idx) => idx !== k)`), built from index `from` on. */
  function WithoutIndex(reports: seq<ZReport>, k: int): (r: seq<ZReport>)
    ensures |r| == if 0 <= k < |reports| then |reports| - 1 else |reports|
    decreases |reports|
  {
    if reports == [] then []
    else
      var last := |reports| - 1;
      WithoutIndex(reports[..last], k) + (if k == last then [] else [reports[last]])
  }

  /** Filtering out index `k` is cutting the list around `k`; an index out of range removes nothing. */
  lemma {:induction false} WithoutIndexIsCut(reports: seq<ZReport>, k: int)
    ensures 0 <= k < |reports| ==> WithoutIndex(reports, k) == reports[..k] + reports[k + 1..]
    ensures !(0 <= k < |reports|) ==> WithoutIndex(reports, k) == reports
    decreases |reports|
  {
    if reports != [] {
      var last := |reports| - 1;
      WithoutIndexIsCut(reports[..last], k);
      if 0 <= k < last {
        assert reports[..last][..k] == reports[..k];
        assert reports[..last][k + 1..] + [reports[last]] == reports[k + 1..];
      } else if k == last {
        assert reports[..last] == reports[..k] + reports[k + 1..];
      } else {
        assert reports[..last] + [reports[last]] == reports;
      }
    }
  }

  /** `handleDelete(originalIndex)`: the report at that index goes, the rest are renumbered 1..n. */
  function DeleteReport(reports: seq<ZReport>, originalIndex: int): (r: seq<ZReport>)
    ensures Numbered(r)
  {
    Renumber(WithoutIndex(reports, originalIndex))
  }

  /**
   * Deleting the report at `k` keeps the others in order, each shifted
   * down past `k` and renumbered; an index outside the list only renumbers.
   */
  lemma DeleteReportSpec(reports: seq<ZReport>, k: int)
    ensures 0 <= k < |reports| ==> |DeleteReport(reports, k)| == |reports| - 1
    ensures 0 <= k < |reports| ==> forall i | 0 <= i < |reports| - 1 ::
      DeleteReport(reports, k)[i] == (if i < k then reports[i] else reports[i + 1]).(zNumber := i + 1)
    ensures !(0 <= k < |reports|) ==> DeleteReport(reports, k) == Renumber(reports)
  {
    WithoutIndexIsCut(reports, k);
  }

  /** Whether a report survives a range deletion from `min` to `max`. */
  predicate OutsideRange(z: ZReport, min: real, max: real)
  {
    z.zNumber as real < min || z.zNumber as real > max
  }

  /** `filter(item => item.ZNumber < min || item.ZNumber > max)`. */
  function KeepOutside(reports: seq<ZReport>, min: real, max: real): (r: seq<ZReport>)
    ensures |r| <= |reports|
    ensures forall z | z in r :: z in reports && OutsideRange(z, min, max)
    decreases |reports|
  {
    if reports == [] then []
    else
      var last := |reports| - 1;
      KeepOutside(reports[..last], min, max)
        + (if OutsideRange(reports[last], min, max) then [reports[last]] else [])
  }

  /** The filter distributes over concatenation: it keeps the survivors in their order. */
  lemma {:induction false} KeepOutsideAppend(a: seq<ZReport>, b: seq<ZReport>, min: real, max: real)
    ensures KeepOutside(a + b, min, max) == KeepOutside(a, min, max) + KeepOutside(b, min, max)
    decreases |b|
  {
    if b == [] {
      assert a + b == a;
    } else {
      var last := |b| - 1;
      assert (a + b)[..|a + b| - 1] == a + b[..last];
      KeepOutsideAppend(a, b[..last], min, max);
    }
  }

  /** Every report outside the range survives. */
  lemma {:induction false} KeepOutsideComplete(reports: seq<ZReport>, min: real, max: real, i: nat)
    requires i < |reports| && OutsideRange(reports[i], min, max)
    ensures reports[i] in KeepOutside(reports, min, max)
    decreases |reports|
  {
    var last := |reports| - 1;
    if i < last {
      assert reports[..last][i] == reports[i];
      KeepOutsideComplete(reports[..last], min, max, i);
    }
  }

  /**
   * `handleDeleteRange`: a bound that is not a number (`None`, for NaN)
   * leaves the list as it is; otherwise the bounds are ordered, the reports
   * numbered inside them go, and the rest are renumbered 1..n.
   */
  function DeleteRange(reports: seq<ZReport>, start: Option<real>, end: Option<real>): (r: seq<ZReport>)
    ensures start.None? || end.None? ==> r == reports
    ensures start.Some? && end.Some? ==> Numbered(r)
  {
    if start.None? || end.None? then reports
    else
      var min := if start.value <= end.value then start.value else end.value;
      var max := if start.value <= end.value then end.value else start.value;
      Renumber(KeepOutside(reports, min, max))
  }

  /**
   * With both bounds numbers the order they are given in does not matter;
   * with `low <= high`, a report survives exactly when its Z number lies
   * outside them, and the survivors keep their order and are renumbered.
   */
  lemma DeleteRangeSpec(reports: seq<ZReport>, low: real, high: real)
    requires low <= high
    ensures DeleteRange(reports, Some(high), Some(low)) == DeleteRange(reports, Some(low), Some(high))
    ensures DeleteRange(reports, Some(low), Some(high)) == Renumber(KeepOutside(reports, low, high))
    ensures forall i | 0 <= i < |reports| && OutsideRange(reports[i], low, high) ::
              reports[i] in KeepOutside(reports, low, high)
    ensures forall z | z in KeepOutside(reports, low, high) :: z in reports && !(low <= z.zNumber as real <= high)
  {
    forall i | 0 <= i < |reports| && OutsideRange(reports[i], low, high)
      ensures reports[i] in KeepOutside(reports, low, high)
    {
      KeepOutsideComplete(reports, low, high, i);
    }
  }

  // ---------------------------------------------------------------------
  // The report filter.

  /** A filter text field after `Number(text.trim())`: empty, not a number, or a number. */
  datatype NumberInput = Blank | NotANumber | Number(value: real)

  /** A date bound field: empty, set but not a date `Date.parse` accepts, or an instant in ms. */
  datatype DateBound = Unset | Unparsed | At(ms: int)

  /** One row of the filtered list: the report and its index in the full list. */
  datatype Row = Row(report: ZReport, index: nat)

  /**
   * The filter callback: a Z-number filter that is a number keeps only that
   * number; once either date bound is set, a report needs a date, and a
   * parsed bound must not exclude it.
   */
  predicate Shown(z: ZReport, zFilter: NumberInput, from: DateBound, to: DateBound)
  {
    && (zFilter.Number? ==> z.zNumber as real == zFilter.value)
    && ((from != Unset || to != Unset) ==>
          && z.dateTime.Some? && z.dateTime.value.iso.Some?
          && (from.At? ==> z.dateTime.value.iso.value >= from.ms)
          && (to.At? ==> z.dateTime.value.iso.value <= to.ms))
  }

  /** `filteredReports`: the shown reports of `reports[..n]`, each with its index. */
  function FilteredRows(reports: seq<ZReport>, n: nat, zFilter: NumberInput, from: DateBound, to: DateBound)
    : (rows: seq<Row>)
    requires n <= |reports|
    ensures forall k | 0 <= k < |rows| :: rows[k].index < n && rows[k].report == reports[rows[k].index]
    ensures forall k | 0 <= k < |rows| :: Shown(rows[k].report, zFilter, from, to)
    ensures forall k, l | 0 <= k < l < |rows| :: rows[k].index < rows[l].index
  {
    if n == 0 then []
    else
      FilteredRows(reports, n - 1, zFilter, from, to)
        + (if Shown(reports[n - 1], zFilter, from, to) then [Row(reports[n - 1], n - 1)] else [])
  }

  /** Every shown report appears, with its index. */
  lemma {:induction false} FilteredRowsComplete(reports: seq<ZReport>, n: nat, zFilter: NumberInput, from: DateBound,
                                                to: DateBound, i: nat)
    requires i < n <= |reports| && Shown(reports[i], zFilter, from, to)
    ensures Row(reports[i], i) in FilteredRows(reports, n, zFilter, from, to)
  {
    if i < n - 1 {
      FilteredRowsComplete(reports, n - 1, zFilter, from, to, i);
    }
  }

  /**
   * The filtered list holds a report with its index exactly when the filter
   * shows that report, in list order; a number filter keeps exact matches
   * only, and a date bound drops every report without a usable date.
   */
  lemma FilteredReportsSpec(reports: seq<ZReport>, zFilter: NumberInput, from: DateBound, to: DateBound)
    ensures forall i | 0 <= i < |reports| ::
      Row(reports[i], i) in FilteredRows(reports, |reports|, zFilter, from, to) <==> Shown(reports[i], zFilter, from, to)
    ensures zFilter.Number? ==> forall row | row in FilteredRows(reports, |reports|, zFilter, from, to) ::
      row.report.zNumber as real == zFilter.value
    ensures from != Unset || to != Unset ==> forall row | row in FilteredRows(reports, |reports|, zFilter, from, to) ::
      row.report.dateTime.Some? && row.report.dateTime.value.iso.Some?
  {
    forall i | 0 <= i < |reports| && Shown(reports[i], zFilter, from, to)
      ensures Row(reports[i], i) in FilteredRows(reports, |reports|, zFilter, from, to)
    {
      FilteredRowsComplete(reports, |reports|, zFilter, from, to, i);
    }
  }
}
