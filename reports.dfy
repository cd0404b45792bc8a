/** The four report commands: the period is checked, the stored records of
    the period are selected, and the aggregator builds the report. */
module Reports {
  import opened Records
  import opened Periods
  import opened Aggregation

  datatype Outcome = NothingSelected | Shown(report: Report)

  method GenerateReport(trabajos: seq<Work>, p: Period, calendar: string -> Option<CalendarDay>) returns (o: Outcome)
    ensures o.NothingSelected? <==> SelectionMissing(p)
    ensures o.Shown? ==> Describes(o.report, Select(trabajos, p, calendar))
    ensures o.Shown? ==> (o.report.NoData? <==> forall w :: w in trabajos ==> !InPeriod(p, calendar, w))
  {
    if SelectionMissing(p) {
      return NothingSelected;
    }
    var selected := Select(trabajos, p, calendar);
    var report := BuildReport(selected);
    o := Shown(report);
    if selected != [] {
      assert multiset(selected)[selected[0]] > 0;
    } else {
      forall w | w in trabajos ensures !InPeriod(p, calendar, w) {
        assert multiset(trabajos)[w] > 0;
        assert multiset(selected)[w] == 0;
      }
    }
  }
}
