/** The report aggregator (app.js, mostrarReporte): the selected records
    are grouped by barcode, each group counts its records per shift and in
    all, and the groups are summed into grand totals. */
module Aggregation {
  import opened Records
  import opened Sequences
  import opened Shifts

  /** One row of the report: the code, the records with that code (in
      stored order) and the three counters. */
  datatype Group = Group(code: string, records: seq<Work>, totalT1: nat, totalT2: nat, total: nat)

  /** The TOTAL row: the record-count column and the three grand totals. */
  datatype Totals = Totals(records: nat, t1: nat, t2: nat, total: nat)

  /** "No hay datos para este período", or the table. */
  datatype Report = NoData | Table(groups: seq<Group>, totals: Totals)

  /** The records a counter counts: every record, or those of one shift. */
  datatype Column = AllShifts | ShiftT1 | ShiftT2

  predicate Counted(w: Work, col: Column)
  {
    match col
    case AllShifts => true
    case ShiftT1 => w.shift == T1
    case ShiftT2 => w.shift == T2
  }

  /** Number of records whose barcode is in `codes` and which `col` counts:
      one per record, whatever its `t1`, `t2` and `total` fields hold. */
  function Count(rs: seq<Work>, codes: set<string>, col: Column): nat
    decreases |rs|
  {
    if rs == [] then 0
    else
      var w := rs[|rs| - 1];
      Count(rs[..|rs| - 1], codes, col) + (if w.barcode in codes && Counted(w, col) then 1 else 0)
  }

  /** Number of records which `col` counts, whatever their barcode. */
  function Tally(rs: seq<Work>, col: Column): nat
    decreases |rs|
  {
    if rs == [] then 0
    else Tally(rs[..|rs| - 1], col) + (if Counted(rs[|rs| - 1], col) then 1 else 0)
  }

  function Barcodes(rs: seq<Work>): set<string>
  {
    set w | w in rs :: w.barcode
  }

  function Codes(groups: seq<Group>): set<string>
  {
    set g | g in groups :: g.code
  }

  /** The records with barcode `code`, in stored order (the group's list). */
  function OfCode(rs: seq<Work>, code: string): seq<Work>
    decreases |rs|
  {
    if rs == [] then []
    else
      var w := rs[|rs| - 1];
      OfCode(rs[..|rs| - 1], code) + (if w.barcode == code then [w] else [])
  }

  /** A group's list is the source's `filter` by code. */
  lemma {:induction false} OfCodeIsFilter(rs: seq<Work>, code: string)
    ensures OfCode(rs, code) == Filter(rs, (w: Work) => w.barcode == code)
    decreases |rs|
  {
    if rs != [] {
      OfCodeIsFilter(rs[..|rs| - 1], code);
    }
  }

  /** The row the report should show for `code`. */
  function GroupFor(rs: seq<Work>, code: string): Group
  {
    Group(code, OfCode(rs, code), Count(rs, {code}, ShiftT1), Count(rs, {code}, ShiftT2), Count(rs, {code}, AllShifts))
  }

  /** One grouping step: the record joins the group's list and bumps the
      counter of its shift (T1 first, else T2) and the total. */
  function Bump(g: Group, t: Work): Group
  {
    g.(records := g.records + [t],
       totalT1 := g.totalT1 + (if t.shift == T1 then 1 else 0),
       totalT2 := g.totalT2 + (if t.shift != T1 && t.shift == T2 then 1 else 0),
       total := g.total + 1)
  }

  function Field(g: Group, col: Column): nat
  {
    match col
    case AllShifts => g.total
    case ShiftT1 => g.totalT1
    case ShiftT2 => g.totalT2
  }

  /** The sum of one counter over the rows. */
  function Sum(groups: seq<Group>, col: Column): nat
    decreases |groups|
  {
    if groups == [] then 0
    else Sum(groups[..|groups| - 1], col) + Field(groups[|groups| - 1], col)
  }

  /** The sum of the rows' record counts. */
  function SumRecords(groups: seq<Group>): nat
    decreases |groups|
  {
    if groups == [] then 0
    else SumRecords(groups[..|groups| - 1]) + |groups[|groups| - 1].records|
  }

  /** The rows are exactly one correct row per distinct barcode, in some order. */
  ghost predicate ExactGroups(groups: seq<Group>, rs: seq<Work>)
  {
    && (forall i, j :: 0 <= i < j < |groups| ==> groups[i].code != groups[j].code)
    && Codes(groups) == Barcodes(rs)
    && (forall g :: g in groups ==> g == GroupFor(rs, g.code))
  }

  /** `r` is the report of the records `rs`: no data exactly when `rs` is
      empty, else the exact rows and, as TOTAL, the sums of their columns. */
  ghost predicate Describes(r: Report, rs: seq<Work>)
  {
    if rs == [] then r == NoData
    else
      && r.Table?
      && ExactGroups(r.groups, rs)
      && r.totals == Totals(SumRecords(r.groups), Sum(r.groups, ShiftT1), Sum(r.groups, ShiftT2), Sum(r.groups, AllShifts))
  }

  // ---------------------------------------------------------------------
  // Counting lemmas

  lemma BarcodesSnoc(rs: seq<Work>, t: Work)
    ensures Barcodes(rs + [t]) == Barcodes(rs) + {t.barcode}
  {
    assert forall w :: w in rs + [t] <==> w in rs || w == t;
  }

  /** Counting over a set of codes splits over a code not in the set. */
  lemma {:induction false} CountSplit(rs: seq<Work>, codes: set<string>, k: string, col: Column)
    requires k !in codes
    ensures Count(rs, codes + {k}, col) == Count(rs, codes, col) + Count(rs, {k}, col)
    decreases |rs|
  {
    if rs != [] {
      CountSplit(rs[..|rs| - 1], codes, k, col);
    }
  }

  lemma {:induction false} CountNoCodes(rs: seq<Work>, col: Column)
    ensures Count(rs, {}, col) == 0
    decreases |rs|
  {
    if rs != [] {
      CountNoCodes(rs[..|rs| - 1], col);
    }
  }

  /** Counting over a set holding every barcode counts every record. */
  lemma {:induction false} CountCovering(rs: seq<Work>, codes: set<string>, col: Column)
    requires Barcodes(rs) <= codes
    ensures Count(rs, codes, col) == Tally(rs, col)
    decreases |rs|
  {
    if rs != [] {
      var init, w := rs[..|rs| - 1], rs[|rs| - 1];
      assert rs == init + [w];
      BarcodesSnoc(init, w);
      CountCovering(init, codes, col);
    }
  }

  /** A record of one of the codes makes the count positive. */
  lemma {:induction false} CountPositive(rs: seq<Work>, codes: set<string>, w: Work)
    requires w in rs && w.barcode in codes
    ensures Count(rs, codes, AllShifts) > 0
    decreases |rs|
  {
    var init := rs[..|rs| - 1];
    if rs[|rs| - 1] != w {
      assert rs == init + [rs[|rs| - 1]];
      CountPositive(init, codes, w);
    }
  }

  lemma {:induction false} TallyAll(rs: seq<Work>)
    ensures Tally(rs, AllShifts) == |rs|
    decreases |rs|
  {
    if rs != [] {
      TallyAll(rs[..|rs| - 1]);
    }
  }

  /** A code that no record carries has an empty row. */
  lemma {:induction false} GroupForAbsent(rs: seq<Work>, k: string)
    requires k !in Barcodes(rs)
    ensures GroupFor(rs, k) == Group(k, [], 0, 0, 0)
    decreases |rs|
  {
    if rs != [] {
      var init, w := rs[..|rs| - 1], rs[|rs| - 1];
      assert rs == init + [w];
      BarcodesSnoc(init, w);
      GroupForAbsent(init, k);
    }
  }

  /** One more record changes only the row of its own code, by one `Bump`. */
  lemma GroupForSnoc(rs: seq<Work>, t: Work, k: string)
    ensures GroupFor(rs + [t], k) == if k == t.barcode then Bump(GroupFor(rs, k), t) else GroupFor(rs, k)
  {
    assert (rs + [t])[..|rs|] == rs;
    ShiftsDiffer();
  }

  /** A row's record list is as long as its total. */
  lemma {:induction false} RecordsMatchTotal(rs: seq<Work>, k: string)
    ensures |GroupFor(rs, k).records| == GroupFor(rs, k).total
    decreases |rs|
  {
    if rs != [] {
      var init, w := rs[..|rs| - 1], rs[|rs| - 1];
      assert rs == init + [w];
      RecordsMatchTotal(init, k);
      GroupForSnoc(init, w, k);
    }
  }

  /** Per-shift counts never exceed the total; they add up to it exactly
      when every counted record's shift is T1 or T2. */
  lemma {:induction false} ShiftsWithinTotal(rs: seq<Work>, codes: set<string>)
    ensures Count(rs, codes, ShiftT1) + Count(rs, codes, ShiftT2) <= Count(rs, codes, AllShifts)
    ensures Count(rs, codes, ShiftT1) + Count(rs, codes, ShiftT2) == Count(rs, codes, AllShifts) <==>
      forall i :: 0 <= i < |rs| && rs[i].barcode in codes ==> rs[i].shift in {T1, T2}
    decreases |rs|
  {
    ShiftsDiffer();
    if rs != [] {
      var init, w := rs[..|rs| - 1], rs[|rs| - 1];
      ShiftsWithinTotal(init, codes);
      assert forall i :: 0 <= i < |init| ==> init[i] == rs[i];
    }
  }

  /** With distinct codes, the last row's code is new to the rows before it. */
  lemma LastCodeIsNew(groups: seq<Group>)
    requires groups != []
    requires forall i, j :: 0 <= i < j < |groups| ==> groups[i].code != groups[j].code
    ensures var init, g := groups[..|groups| - 1], groups[|groups| - 1];
      g.code !in Codes(init) && Codes(groups) == Codes(init) + {g.code}
  {
    var init, g := groups[..|groups| - 1], groups[|groups| - 1];
    assert groups == init + [g];
    forall h | h in init ensures h.code != g.code {
      var i :| 0 <= i < |init| && init[i] == h;
      assert groups[i] == h;
    }
  }

  /** Summing a counter over distinct, correct rows counts the records of
      the rows' codes, whatever the order of the rows. */
  lemma {:induction false} SumIsCount(groups: seq<Group>, rs: seq<Work>, col: Column)
    requires forall i, j :: 0 <= i < j < |groups| ==> groups[i].code != groups[j].code
    requires forall g :: g in groups ==> g == GroupFor(rs, g.code)
    ensures Sum(groups, col) == Count(rs, Codes(groups), col)
    ensures SumRecords(groups) == Count(rs, Codes(groups), AllShifts)
    decreases |groups|
  {
    if groups != [] {
      var init, g := groups[..|groups| - 1], groups[|groups| - 1];
      assert groups == init + [g];
      assert forall h :: h in init ==> h in groups;
      SumIsCount(init, rs, col);
      LastCodeIsNew(groups);
      assert g in groups;
      assert Field(g, col) == Count(rs, {g.code}, col);
      CountSplit(rs, Codes(init), g.code, col);
      CountSplit(rs, Codes(init), g.code, AllShifts);
      RecordsMatchTotal(rs, g.code);
    } else {
      assert Codes(groups) == {};
      CountNoCodes(rs, col);
      CountNoCodes(rs, AllShifts);
    }
  }

  // ---------------------------------------------------------------------
  // What a report states

  /** The grand totals count the selected records: TOTAL and the record
      column equal the number of records, T1 and T2 the records of that
      shift. */
  lemma ReportTotals(r: Report, rs: seq<Work>)
    requires Describes(r, rs) && r.Table?
    ensures r.totals == Totals(|rs|, Tally(rs, ShiftT1), Tally(rs, ShiftT2), |rs|)
  {
    var G := r.groups;
    SumIsCount(G, rs, ShiftT1);
    SumIsCount(G, rs, ShiftT2);
    SumIsCount(G, rs, AllShifts);
    CountCovering(rs, Codes(G), ShiftT1);
    CountCovering(rs, Codes(G), ShiftT2);
    CountCovering(rs, Codes(G), AllShifts);
    TallyAll(rs);
  }

  /** Each row counts exactly the records of its code: its list holds them
      in stored order, its total is their number, and its T1 and T2 columns
      never add up to more than the total (exactly the total when all of
      them are T1 or T2). Every selected barcode has a row. */
  lemma RowsCountTheirCode(r: Report, rs: seq<Work>, g: Group)
    requires Describes(r, rs) && r.Table? && g in r.groups
    ensures g.records == Filter(rs, (w: Work) => w.barcode == g.code)
    ensures g.total == |g.records| > 0
    ensures g.totalT1 + g.totalT2 <= g.total
    ensures g.totalT1 + g.totalT2 == g.total <==>
      forall i :: 0 <= i < |rs| && rs[i].barcode == g.code ==> rs[i].shift in {T1, T2}
  {
    RowIsGroupFor(r, rs, g);
    GroupForCounts(rs, g.code);
  }

  /** A row of a report is the correct row of a selected barcode. */
  lemma RowIsGroupFor(r: Report, rs: seq<Work>, g: Group)
    requires Describes(r, rs) && r.Table? && g in r.groups
    ensures g == GroupFor(rs, g.code) && g.code in Barcodes(rs)
  {
  }

  /** The row of a barcode that some record carries. */
  lemma GroupForCounts(rs: seq<Work>, k: string)
    requires k in Barcodes(rs)
    ensures var g := GroupFor(rs, k);
      && g.records == Filter(rs, (w: Work) => w.barcode == k)
      && g.total == |g.records| > 0
      && g.totalT1 + g.totalT2 <= g.total
      && (g.totalT1 + g.totalT2 == g.total <==>
          forall i :: 0 <= i < |rs| && rs[i].barcode == k ==> rs[i].shift in {T1, T2})
  {
    RecordsMatchTotal(rs, k);
    OfCodeIsFilter(rs, k);
    ShiftsWithinTotal(rs, {k});
    var w :| w in rs && w.barcode == k;
    CountPositive(rs, {k}, w);
  }

  /** One row per distinct barcode: every barcode of the selection has a row. */
  lemma EveryCodeHasRow(r: Report, rs: seq<Work>, w: Work)
    requires Describes(r, rs) && w in rs
    ensures r.Table? && exists g :: g in r.groups && g == GroupFor(rs, w.barcode)
  {
    assert w.barcode in Barcodes(rs);
    assert w.barcode in Codes(r.groups);
  }

  /** Distinct codes: as many codes as rows. */
  lemma {:induction false} DistinctCodesCount(groups: seq<Group>)
    requires forall i, j :: 0 <= i < j < |groups| ==> groups[i].code != groups[j].code
    ensures |Codes(groups)| == |groups|
    decreases |groups|
  {
    if groups == [] {
      assert Codes(groups) == {};
    } else {
      var init, g := groups[..|groups| - 1], groups[|groups| - 1];
      assert groups == init + [g];
      DistinctCodesCount(init);
      LastCodeIsNew(groups);
    }
  }

  /** A table has exactly as many rows as the selection has distinct barcodes. */
  lemma OneRowPerCode(r: Report, rs: seq<Work>)
    requires Describes(r, rs) && r.Table?
    ensures |r.groups| == |Barcodes(rs)|
  {
    DistinctCodesCount(r.groups);
  }

  /** The report is determined by the records up to the order of its rows. */
  lemma ReportDetermined(r1: Report, r2: Report, rs: seq<Work>)
    requires Describes(r1, rs) && Describes(r2, rs)
    ensures r1.NoData? == r2.NoData?
    ensures r1.Table? ==> r1.totals == r2.totals && (set g | g in r1.groups) == (set g | g in r2.groups)
  {
    if r1.Table? {
      ReportTotals(r1, rs);
      ReportTotals(r2, rs);
      forall g | g in r1.groups ensures g in r2.groups {
        assert g.code in Codes(r2.groups);
      }
      forall g | g in r2.groups ensures g in r1.groups {
        assert g.code in Codes(r1.groups);
      }
    }
  }

  /** The counter fields of a record do not matter to the report: records
      that agree on barcode and shift give the same counts. */
  lemma {:induction false} CountersIgnored(rs: seq<Work>, ss: seq<Work>, codes: set<string>, col: Column)
    requires |rs| == |ss|
    requires forall i :: 0 <= i < |rs| ==> rs[i].barcode == ss[i].barcode && rs[i].shift == ss[i].shift
    ensures Count(rs, codes, col) == Count(ss, codes, col)
    decreases |rs|
  {
    if rs != [] {
      CountersIgnored(rs[..|rs| - 1], ss[..|ss| - 1], codes, col);
    }
  }

  /** Three records of code "A" under T1, T1 and T2 on one day (with any
      counter fields) give the single row A: 3 records, T1 2, T2 1, total 3. */
  lemma RowOfThree(a: Work, b: Work, c: Work)
    requires a.barcode == "A" && b.barcode == "A" && c.barcode == "A"
    requires a.shift == T1 && b.shift == T1 && c.shift == T2
    ensures GroupFor([a, b, c], "A") == Group("A", [a, b, c], 2, 1, 3)
    ensures Barcodes([a, b, c]) == {"A"}
  {
    ShiftsDiffer();
    GroupForAbsent([], "A");
    assert [a] == [] + [a];
    GroupForSnoc([], a, "A");
    assert [a, b] == [a] + [b];
    GroupForSnoc([a], b, "A");
    assert [a, b, c] == [a, b] + [c];
    GroupForSnoc([a, b], c, "A");
    BarcodesOfOneCode([a, b, c], "A");
  }

  lemma BarcodesOfOneCode(rs: seq<Work>, k: string)
    requires rs != [] && forall i :: 0 <= i < |rs| ==> rs[i].barcode == k
    ensures Barcodes(rs) == {k}
  {
    assert rs[0] in rs;
  }

  lemma ThreeScansOfOneCode(a: Work, b: Work, c: Work, r: Report)
    requires a.barcode == "A" && b.barcode == "A" && c.barcode == "A"
    requires a.shift == T1 && b.shift == T1 && c.shift == T2
    requires Describes(r, [a, b, c])
    ensures r.Table? && r.groups == [Group("A", [a, b, c], 2, 1, 3)]
    ensures r.totals == Totals(3, 2, 1, 3)
  {
    var rs := [a, b, c];
    var row := Group("A", [a, b, c], 2, 1, 3);
    RowOfThree(a, b, c);
    var G := r.groups;
    OneRowPerCode(r, rs);
    assert |Barcodes(rs)| == 1;
    assert G[0] in G && G[0].code in Codes(G);
    assert G == [row];
    assert G[..0] == [];
    assert Sum(G, ShiftT1) == Sum([], ShiftT1) + row.totalT1 == 2;
    assert Sum(G, ShiftT2) == 1 && Sum(G, AllShifts) == 3;
    assert SumRecords(G) == SumRecords([]) + |row.records| == 3;
  }

  // ---------------------------------------------------------------------
  // The aggregation loops

  /** `agrupados` holds the correct row of every barcode of `rs` and no other. */
  ghost predicate RowsCorrect(agrupados: map<string, Group>, rs: seq<Work>)
  {
    && agrupados.Keys == Barcodes(rs)
    && (forall k :: k in agrupados ==> agrupados[k] == GroupFor(rs, k))
  }

  /** One grouping step keeps `RowsCorrect`: the record's row is bumped,
      created empty first when its code is new. */
  lemma GroupingStep(agrupados: map<string, Group>, rs: seq<Work>, t: Work)
    requires RowsCorrect(agrupados, rs)
    ensures var g := if t.barcode in agrupados then agrupados[t.barcode] else Group(t.barcode, [], 0, 0, 0);
      RowsCorrect(agrupados[t.barcode := Bump(g, t)], rs + [t])
  {
    BarcodesSnoc(rs, t);
    if t.barcode !in agrupados {
      GroupForAbsent(rs, t.barcode);
    }
    var g := if t.barcode !in agrupados then Group(t.barcode, [], 0, 0, 0) else agrupados[t.barcode];
    var m := agrupados[t.barcode := Bump(g, t)];
    forall k | k in m ensures m[k] == GroupFor(rs + [t], k) {
      GroupForSnoc(rs, t, k);
    }
  }

  /** Builds the report of the selected records: a first pass groups them
      by barcode into `agrupados`, a second pass emits the rows and adds up
      the TOTAL row. The rows come in first-seen order here; the contract
      leaves the order open. */
  method BuildReport(trabajos: seq<Work>) returns (r: Report)
    ensures Describes(r, trabajos)
    ensures r.Table? ==> r.totals == Totals(|trabajos|, Tally(trabajos, ShiftT1), Tally(trabajos, ShiftT2), |trabajos|)
  {
    if |trabajos| == 0 {
      return NoData;
    }
    var agrupados, codes := GroupByCode(trabajos);
    var groups, totals := EmitRows(agrupados, codes);
    r := Table(groups, totals);
    RowsInKeyOrder(agrupados, codes, groups, trabajos);
    ReportTotals(r, trabajos);
  }

  /** The first pass: each record joins the row of its barcode, which is
      created empty when the barcode is new; `codes` lists the keys in the
      order they were created. */
  method GroupByCode(trabajos: seq<Work>) returns (agrupados: map<string, Group>, codes: seq<string>)
    ensures RowsCorrect(agrupados, trabajos)
    ensures forall a, b :: 0 <= a < b < |codes| ==> codes[a] != codes[b]
    ensures forall k :: k in codes <==> k in agrupados
  {
    agrupados, codes := map[], [];
    for i := 0 to |trabajos|
      invariant RowsCorrect(agrupados, trabajos[..i])
      invariant forall a, b :: 0 <= a < b < |codes| ==> codes[a] != codes[b]
      invariant forall k :: k in codes <==> k in agrupados
    {
      var t := trabajos[i];
      assert trabajos[..i + 1] == trabajos[..i] + [t];
      GroupingStep(agrupados, trabajos[..i], t);
      var g: Group;
      if t.barcode !in agrupados {
        g := Group(t.barcode, [], 0, 0, 0);
        codes := codes + [t.barcode];
      } else {
        g := agrupados[t.barcode];
      }
      ghost var before := g;
      g := g.(records := g.records + [t]);
      if t.shift == T1 {
        g := g.(totalT1 := g.totalT1 + 1);
      } else if t.shift == T2 {
        g := g.(totalT2 := g.totalT2 + 1);
      }
      g := g.(total := g.total + 1);
      assert g == Bump(before, t);
      agrupados := agrupados[t.barcode := g];
    }
    assert trabajos[..|trabajos|] == trabajos;
  }

  /** The second pass: the row of each key in turn, and the TOTAL row
      adding up their columns. */
  method EmitRows(agrupados: map<string, Group>, codes: seq<string>) returns (groups: seq<Group>, totals: Totals)
    requires forall k :: k in codes ==> k in agrupados
    ensures |groups| == |codes| && forall m :: 0 <= m < |codes| ==> groups[m] == agrupados[codes[m]]
    ensures totals == Totals(SumRecords(groups), Sum(groups, ShiftT1), Sum(groups, ShiftT2), Sum(groups, AllShifts))
  {
    groups := [];
    var count, totalT1, totalT2, total := 0, 0, 0, 0;
    for j := 0 to |codes|
      invariant |groups| == j
      invariant forall m :: 0 <= m < j ==> groups[m] == agrupados[codes[m]]
      invariant count == SumRecords(groups)
      invariant totalT1 == Sum(groups, ShiftT1) && totalT2 == Sum(groups, ShiftT2)
      invariant total == Sum(groups, AllShifts)
    {
      var g := agrupados[codes[j]];
      assert (groups + [g])[..j] == groups;
      groups := groups + [g];
      count := count + |g.records|;
      totalT1 := totalT1 + g.totalT1;
      totalT2 := totalT2 + g.totalT2;
      total := total + g.total;
    }
    totals := Totals(count, totalT1, totalT2, total);
  }

  /** Emitting the row of every key once gives exactly the report's rows. */
  lemma RowsInKeyOrder(agrupados: map<string, Group>, codes: seq<string>, groups: seq<Group>, rs: seq<Work>)
    requires RowsCorrect(agrupados, rs)
    requires forall a, b :: 0 <= a < b < |codes| ==> codes[a] != codes[b]
    requires forall k :: k in codes <==> k in agrupados
    requires |groups| == |codes| && forall m :: 0 <= m < |codes| ==> groups[m] == agrupados[codes[m]]
    ensures ExactGroups(groups, rs)
  {
    forall m | 0 <= m < |groups| ensures groups[m].code == codes[m] {
      assert groups[m] == GroupFor(rs, codes[m]);
    }
    forall g | g in groups ensures g == GroupFor(rs, g.code) {
      var m :| 0 <= m < |groups| && groups[m] == g;
    }
    forall k | k in Barcodes(rs) ensures k in Codes(groups) {
      var m :| 0 <= m < |codes| && codes[m] == k;
      assert groups[m] in groups;
    }
  }

  // ---------------------------------------------------------------------
  // The grouping loop as written

  /** Every member a plain JavaScript object inherits from Object.prototype. */
  const InheritedNames: set<string> := {
    "constructor", "__proto__", "hasOwnProperty", "isPrototypeOf", "propertyIsEnumerable",
    "toString", "toLocaleString", "valueOf",
    "__defineGetter__", "__defineSetter__", "__lookupGetter__", "__lookupSetter__"}

  /** The first pass as written: `agrupados` is a plain object, so the
      test `!agrupados[code]` also finds inherited members. For such a code
      no group is created and the `.trabajos.push` that follows throws
      (None). Without such a code it builds the correct groups. */
  function GroupAsWritten(rs: seq<Work>): (m: Option<map<string, Group>>)
    ensures m.None? <==> exists i :: 0 <= i < |rs| && rs[i].barcode in InheritedNames
    ensures m.Some? ==> m.value.Keys == Barcodes(rs) && forall k :: k in m.value ==> m.value[k] == GroupFor(rs, k)
    decreases |rs|
  {
    if rs == [] then Some(map[])
    else
      var init, t := rs[..|rs| - 1], rs[|rs| - 1];
      assert rs == init + [t];
      assert forall i :: 0 <= i < |init| ==> init[i] == rs[i];
      match GroupAsWritten(init)
      case None => None
      case Some(agrupados) =>
        if t.barcode !in agrupados && t.barcode in InheritedNames then None
        else
          GroupingStep(agrupados, init, t);
          var g := if t.barcode in agrupados then agrupados[t.barcode] else Group(t.barcode, [], 0, 0, 0);
          Some(agrupados[t.barcode := Bump(g, t)])
  }

  /** A single record with barcode "toString": as written the report
      fails, while the intended report has one row for it. */
  lemma InheritedNameBreaksReport(w: Work, r: Report)
    requires w.barcode == "toString"
    requires Describes(r, [w])
    ensures GroupAsWritten([w]).None?
    ensures r.Table? && r.totals.total == 1 && exists g :: g in r.groups && g.code == "toString" && g.total == 1
  {
    assert [w][0].barcode in InheritedNames;
    ReportTotals(r, [w]);
    EveryCodeHasRow(r, [w], w);
    assert [w] == [] + [w];
    GroupForAbsent([], w.barcode);
    GroupForSnoc([], w, w.barcode);
    var g := GroupFor([w], w.barcode);
    assert g in r.groups && g.code == "toString" && g.total == 1;
  }
}
