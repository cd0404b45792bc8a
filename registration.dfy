/** Building a work entry from a barcode scan (app.js, manejarEscaneoBarras)
    or from the manual form (app.js, handleRegistro), with the checks that
    reject an incomplete entry before anything is stored. */
module Registration {
  import opened Records
  import opened Shifts

  /** The characters ECMAScript `String.prototype.trim` removes: white space
      (including every Unicode space separator) and line terminators. */
  predicate IsSpace(c: char)
  {
    c in SpaceChars || '\U{2000}' <= c <= '\U{200A}'
  }

  const SpaceChars: set<char> := {
    ' ', '\t', '\n', '\r', '\U{0B}', '\U{0C}', '\U{A0}', '\U{1680}',
    '\U{2028}', '\U{2029}', '\U{202F}', '\U{205F}', '\U{3000}', '\U{FEFF}'}

  function TrimStart(s: string): (r: string)
    ensures |r| <= |s| && r == s[|s| - |r|..]
    ensures forall i :: 0 <= i < |s| - |r| ==> IsSpace(s[i])
    ensures r == [] || !IsSpace(r[0])
  {
    if s != [] && IsSpace(s[0]) then TrimStart(s[1..]) else s
  }

  function TrimEnd(s: string): (r: string)
    ensures |r| <= |s| && r == s[..|r|]
    ensures forall i :: |r| <= i < |s| ==> IsSpace(s[i])
    ensures r == [] || !IsSpace(r[|r| - 1])
  {
    if s != [] && IsSpace(s[|s| - 1]) then TrimEnd(s[..|s| - 1]) else s
  }

  /** Everything of `s` outside `s[i..j]` is white space. */
  predicate SpaceOutside(s: string, i: int, j: int)
  {
    forall k :: 0 <= k < |s| && (k < i || j <= k) ==> IsSpace(s[k])
  }

  /** `trim()`: the input without leading and trailing white space. It is
      empty exactly when the input is blank. */
  function Trim(s: string): (r: string)
    ensures r == [] <==> forall i :: 0 <= i < |s| ==> IsSpace(s[i])
    ensures r != [] ==> !IsSpace(r[0]) && !IsSpace(r[|r| - 1])
  {
    var u := TrimStart(s);
    var r := TrimEnd(u);
    // a non-empty `u` starts with a non-space, which TrimEnd keeps
    assert u != [] ==> !IsSpace(u[0]);
    r
  }

  /** Trimming removes white space at either end and nothing else: the
      result is a slice of the input with only white space around it. */
  lemma TrimCutsEnds(s: string)
    ensures exists i, j :: 0 <= i <= j <= |s| && Trim(s) == s[i..j] && SpaceOutside(s, i, j)
  {
    var u := TrimStart(s);
    var r := TrimEnd(u);
    assert Trim(s) == r;
    TrimIsInfix(s, u, r);
    var i, j := |s| - |u|, |s| - |u| + |r|;
    assert 0 <= i <= j <= |s| && r == s[i..j] && SpaceOutside(s, i, j);
  }

  /** What the two passes cut off is white space at either end. */
  lemma TrimIsInfix(s: string, u: string, r: string)
    requires |u| <= |s| && u == s[|s| - |u|..] && forall k :: 0 <= k < |s| - |u| ==> IsSpace(s[k])
    requires |r| <= |u| && r == u[..|r|] && forall k :: |r| <= k < |u| ==> IsSpace(u[k])
    ensures var i := |s| - |u|; r == s[i..i + |r|] && SpaceOutside(s, i, i + |r|)
  {
    var i := |s| - |u|;
    forall k | 0 <= k < |s| && (k < i || i + |r| <= k) ensures IsSpace(s[k]) {
      if i + |r| <= k {
        assert s[k] == u[k - i];
      }
    }
  }

  datatype Rejection =
    | IncompleteScan   // "Completa código de barras y turno"
    | IncompleteForm   // "Por favor, completa todos los campos"

  datatype Registration = Accepted(work: Work) | Rejected(reason: Rejection)

  /** The counters a scan sets: 1 for the selected shift, T1 tested first. */
  function ShiftCounters(shift: string): (c: (int, int))
    ensures c.0 == (if shift == T1 then 1 else 0) && c.1 == (if shift == T2 then 1 else 0)
  {
    ShiftsDiffer();
    if shift == T1 then (1, 0) else if shift == T2 then (0, 1) else (0, 0)
  }

  /** A scan (Enter in the barcode field): rejected when the trimmed barcode
      or the shift is empty; otherwise one entry whose counter for the
      selected shift is 1. `date`, `time` and `stamp` come from the clock. */
  function Scan(codeInput: string, shift: string, date: string, time: string, stamp: string): (o: Registration)
    ensures o.Rejected? <==> Trim(codeInput) == [] || shift == []
    ensures o.Rejected? ==> o.reason == IncompleteScan
    ensures o.Accepted? ==>
      o.work.id == None && o.work.barcode == Trim(codeInput) && o.work.date == date && o.work.time == time &&
      o.work.shift == shift && o.work.total == o.work.t1 + o.work.t2 && o.work.timestamp == stamp
    ensures o.Accepted? ==>
      o.work.t1 == (if shift == T1 then 1 else 0) && o.work.t2 == (if shift == T2 then 1 else 0)
  {
    var code := Trim(codeInput);
    if code == [] || shift == [] then Rejected(IncompleteScan)
    else
      var (t1, t2) := ShiftCounters(shift);
      Accepted(Work(None, code, date, time, shift, t1, t2, t1 + t2, stamp))
  }

  /** A scan under shift T1 or T2 counts exactly once, in that shift. */
  lemma ScanCountsOnce(codeInput: string, shift: string, date: string, time: string, stamp: string)
    requires shift == T1 || shift == T2
    requires Scan(codeInput, shift, date, time, stamp).Accepted?
    ensures var w := Scan(codeInput, shift, date, time, stamp).work;
      w.total == 1 && ((w.t1 == 1 && w.t2 == 0) <==> shift == T1) && ((w.t1 == 0 && w.t2 == 1) <==> shift == T2)
  {
  }

  /** A scan under the shift preset at hour `hour`: accepted for any
      non-blank barcode, counted in T1 when `hour` < 14 and in T2 otherwise.
      The scan's own `time` plays no part in its shift. */
  lemma ScanAtHour(codeInput: string, hour: int, date: string, time: string, stamp: string)
    requires 0 <= hour < 24
    requires Trim(codeInput) != []
    ensures var o := Scan(codeInput, ShiftForHour(hour), date, time, stamp);
      o.Accepted? && o.work.total == 1 && (o.work.t1 == 1 <==> hour < 14) && (o.work.t2 == 1 <==> hour >= 14)
  {
  }

  /** The manual form: rejected when the trimmed barcode, the date, the time
      or the shift is empty; otherwise the entry carries the form's counters
      as given (`t1`, `t2` already read as integers) and their sum. */
  function Manual(codeInput: string, date: string, time: string, shift: string, t1: int, t2: int, stamp: string): (o: Registration)
    ensures o.Rejected? <==> Trim(codeInput) == [] || date == [] || time == [] || shift == []
    ensures o.Rejected? ==> o.reason == IncompleteForm
    ensures o.Accepted? ==> o.work == Work(None, Trim(codeInput), date, time, shift, t1, t2, t1 + t2, stamp)
  {
    var code := Trim(codeInput);
    if code == [] || date == [] || time == [] || shift == [] then Rejected(IncompleteForm)
    else Accepted(Work(None, code, date, time, shift, t1, t2, t1 + t2, stamp))
  }
}
