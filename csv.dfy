/** The text of the CSV download (app.js, descargarReporteCSV): the title,
    a blank line, a header line and one line per report row. */
module Csv {
  import opened Aggregation

  function DigitChar(d: nat): (c: char)
    requires d < 10
    ensures '0' <= c <= '9'
  {
    "0123456789"[d]
  }

  predicate AllDigits(s: string)
  {
    forall i :: 0 <= i < |s| ==> '0' <= s[i] <= '9'
  }

  /** A count written in decimal, as JavaScript prints a non-negative integer:
      no sign and no leading zero. */
  function Decimal(n: nat): (s: string)
    ensures |s| >= 1 && AllDigits(s)
    ensures |s| > 1 ==> s[0] != '0'
  {
    if n < 10 then [DigitChar(n)] else Decimal(n / 10) + [DigitChar(n % 10)]
  }

  /** Reads a string of digits back as a number. */
  function ParseDecimal(s: string): nat
    requires AllDigits(s)
  {
    if s == [] then 0 else 10 * ParseDecimal(s[..|s| - 1]) + (s[|s| - 1] as int - '0' as int)
  }

  lemma {:induction false} DecimalRoundTrip(n: nat)
    ensures ParseDecimal(Decimal(n)) == n
  {
    var s := Decimal(n);
    var d := n % 10;
    assert "0123456789"[d] as int - '0' as int == d;
    if n >= 10 {
      DecimalRoundTrip(n / 10);
      assert s == Decimal(n / 10) + [DigitChar(d)];
      assert s[..|s| - 1] == Decimal(n / 10);
      assert ParseDecimal(s) == 10 * (n / 10) + d;
    }
  }

  /** The pieces of a text cut at every `sep`, as `split` gives them. */
  function Split(s: string, sep: char): (r: seq<string>)
    ensures |r| >= 1
    decreases |s|
  {
    if s == [] then [[]]
    else if s[0] == sep then [[]] + Split(s[1..], sep)
    else
      var rest := Split(s[1..], sep);
      [[s[0]] + rest[0]] + rest[1..]
  }

  lemma {:induction false} SplitNoSep(a: string, sep: char)
    requires sep !in a
    ensures Split(a, sep) == [a]
    decreases |a|
  {
    if a != [] {
      SplitNoSep(a[1..], sep);
      assert [a[0]] + a[1..] == a;
    }
  }

  /** A piece without `sep`, then `sep`: the piece comes off the front. */
  lemma {:induction false} SplitJoin(a: string, sep: char, b: string)
    requires sep !in a
    ensures Split(a + [sep] + b, sep) == [a] + Split(b, sep)
    decreases |a|
  {
    if a == [] {
      assert a + [sep] + b == [sep] + b;
      assert (a + [sep] + b)[1..] == b;
    } else {
      var s := a + [sep] + b;
      assert s[1..] == a[1..] + [sep] + b;
      SplitJoin(a[1..], sep, b);
      assert [a[0]] + a[1..] == a;
    }
  }

  /** The fields joined with commas. */
  function Join(fs: seq<string>): string
    requires |fs| >= 1
    decreases |fs|
  {
    if |fs| == 1 then fs[0] else fs[0] + "," + Join(fs[1..])
  }

  /** Cutting a joined line at its commas gives the fields back when no
      field holds a comma. */
  lemma {:induction false} FieldsOfJoin(fs: seq<string>)
    requires |fs| >= 1
    requires forall i :: 0 <= i < |fs| ==> ',' !in fs[i]
    ensures Split(Join(fs), ',') == fs
    decreases |fs|
  {
    if |fs| == 1 {
      SplitNoSep(fs[0], ',');
    } else {
      FieldsOfJoin(fs[1..]);
      SplitJoin(fs[0], ',', Join(fs[1..]));
    }
  }

  /** A joined line holds no character other than a comma that its fields
      do not hold. */
  lemma {:induction false} JoinAvoids(fs: seq<string>, c: char)
    requires |fs| >= 1 && c != ','
    requires forall i :: 0 <= i < |fs| ==> c !in fs[i]
    ensures c !in Join(fs)
    decreases |fs|
  {
    if |fs| > 1 {
      JoinAvoids(fs[1..], c);
      assert Join(fs) == fs[0] + "," + Join(fs[1..]);
    }
  }

  const HeaderLine: string := "C\U{F3}digo de Barras,Registros,T1,T2,Total"

  /** One report row: code, record count, T1, T2 and total. */
  function RowLine(g: Group): string
  {
    Join([g.code, Decimal(|g.records|), Decimal(g.totalT1), Decimal(g.totalT2), Decimal(g.total)])
  }

  /** Each row's line followed by a line break, in row order. */
  function Rows(groups: seq<Group>): string
    decreases |groups|
  {
    if groups == [] then [] else Rows(groups[..|groups| - 1]) + (RowLine(groups[|groups| - 1]) + "\n")
  }

  /** The title, an empty line, the header line and the rows. */
  function CsvText(title: string, groups: seq<Group>): string
  {
    title + "\n\n" + HeaderLine + "\n" + Rows(groups)
  }

  lemma DigitsHaveNoSeparator(n: nat)
    ensures ',' !in Decimal(n) && '\n' !in Decimal(n)
  {
    var s := Decimal(n);
    forall k | 0 <= k < |s| ensures s[k] != ',' && s[k] != '\n' {
      assert '0' <= s[k] <= '9';
    }
  }

  /** A row line has no line break when its code has none. */
  lemma RowLineIsOneLine(g: Group)
    requires '\n' !in g.code
    ensures '\n' !in RowLine(g)
  {
    DigitsHaveNoSeparator(|g.records|);
    DigitsHaveNoSeparator(g.totalT1);
    DigitsHaveNoSeparator(g.totalT2);
    DigitsHaveNoSeparator(g.total);
    JoinAvoids([g.code, Decimal(|g.records|), Decimal(g.totalT1), Decimal(g.totalT2), Decimal(g.total)], '\n');
  }

  // A plain fact about concatenation, stated apart so that the proofs using it stay small.
  lemma Associative(a: string, b: string, c: string)
    ensures (a + b) + c == a + (b + c)
  {
  }

  /** The line of each row, in row order. */
  function RowLines(groups: seq<Group>): (r: seq<string>)
    ensures |r| == |groups| && forall i :: 0 <= i < |groups| ==> r[i] == RowLine(groups[i])
    decreases |groups|
  {
    if groups == [] then [] else RowLines(groups[..|groups| - 1]) + [RowLine(groups[|groups| - 1])]
  }

  /** Cutting the rows, then whatever follows them, at line breaks gives
      one line per row, in row order, then the pieces of what follows. */
  lemma {:induction false} RowsSplit(groups: seq<Group>, rest: string)
    requires forall i :: 0 <= i < |groups| ==> '\n' !in groups[i].code
    ensures Split(Rows(groups) + rest, '\n') == RowLines(groups) + Split(rest, '\n')
    decreases |groups|
  {
    if groups != [] {
      var init, g := groups[..|groups| - 1], groups[|groups| - 1];
      var rest' := RowLine(g) + "\n" + rest;
      calc {
        Split(Rows(groups) + rest, '\n');
        { Associative(Rows(init), RowLine(g) + "\n", rest); }
        Split(Rows(init) + rest', '\n');
        { RowsSplit(init, rest'); }
        RowLines(init) + Split(rest', '\n');
        { RowLineIsOneLine(g); SplitJoin(RowLine(g), '\n', rest); }
        RowLines(init) + ([RowLine(g)] + Split(rest, '\n'));
        RowLines(groups) + Split(rest, '\n');
      }
    } else {
      assert Rows(groups) + rest == rest;
    }
  }

  /** The text cut at line breaks: the title, an empty line, the header,
      one line per row in row order, and nothing after the last break. */
  lemma CsvLines(title: string, groups: seq<Group>)
    requires '\n' !in title
    requires forall i :: 0 <= i < |groups| ==> '\n' !in groups[i].code
    ensures Split(CsvText(title, groups), '\n') == [title, "", HeaderLine] + RowLines(groups) + [""]
  {
    calc {
      Split(CsvText(title, groups), '\n');
      { TextShape(title, groups); }
      Split(title + "\n" + ("" + "\n" + (HeaderLine + "\n" + Rows(groups))), '\n');
      { HeadLines(title, Rows(groups)); }
      [title] + ([""] + ([HeaderLine] + Split(Rows(groups), '\n')));
      { RowsLines(groups); }
      [title] + ([""] + ([HeaderLine] + (RowLines(groups) + [""])));
      { Regroup(title, "", HeaderLine, "", RowLines(groups)); }
      [title, "", HeaderLine] + RowLines(groups) + [""];
    }
  }

  /** The rows cut at line breaks: one line per row, then the empty piece
      after the last break. */
  lemma RowsLines(groups: seq<Group>)
    requires forall i :: 0 <= i < |groups| ==> '\n' !in groups[i].code
    ensures Split(Rows(groups), '\n') == RowLines(groups) + [""]
  {
    RowsSplit(groups, "");
    assert Rows(groups) + "" == Rows(groups);
    assert Split("", '\n') == [""];
  }

  /** The three lines before the rows. */
  lemma HeadLines(title: string, body: string)
    requires '\n' !in title
    ensures Split(title + "\n" + ("" + "\n" + (HeaderLine + "\n" + body)), '\n') ==
      [title] + ([""] + ([HeaderLine] + Split(body, '\n')))
  {
    SplitJoin(title, '\n', "" + "\n" + (HeaderLine + "\n" + body));
    SplitJoin("", '\n', HeaderLine + "\n" + body);
    HeaderIsOneLine();
    SplitJoin(HeaderLine, '\n', body);
  }

  // A plain fact about concatenation, stated apart so that the proofs using it stay small.
  lemma Regroup<T>(a: T, b: T, c: T, d: T, x: seq<T>)
    ensures [a] + ([b] + ([c] + (x + [d]))) == [a, b, c] + x + [d]
  {
  }

  // A plain fact about concatenation, stated apart so that the proofs using it stay small.
  lemma TextShape(title: string, groups: seq<Group>)
    ensures CsvText(title, groups) == title + "\n" + ("" + "\n" + (HeaderLine + "\n" + Rows(groups)))
  {
    Layout(title, HeaderLine, Rows(groups), '\n');
  }

  // A plain fact about concatenation, stated apart so that the proofs using it stay small.
  lemma Layout(t: string, h: string, body: string, nl: char)
    ensures t + [nl, nl] + h + [nl] + body == t + [nl] + ([] + [nl] + (h + [nl] + body))
  {
  }

  lemma HeaderIsOneLine()
    ensures '\n' !in HeaderLine
  {
    forall k | 0 <= k < |HeaderLine| ensures HeaderLine[k] != '\n' {
    }
  }

  /** A row whose code has no comma reads back as its five columns. */
  lemma RowRoundTrip(g: Group)
    requires ',' !in g.code
    ensures var f := Split(RowLine(g), ',');
      && |f| == 5 && f[0] == g.code
      && AllDigits(f[1]) && ParseDecimal(f[1]) == |g.records|
      && AllDigits(f[2]) && ParseDecimal(f[2]) == g.totalT1
      && AllDigits(f[3]) && ParseDecimal(f[3]) == g.totalT2
      && AllDigits(f[4]) && ParseDecimal(f[4]) == g.total
  {
    var fs := [g.code, Decimal(|g.records|), Decimal(g.totalT1), Decimal(g.totalT2), Decimal(g.total)];
    DigitsHaveNoSeparator(|g.records|);
    DigitsHaveNoSeparator(g.totalT1);
    DigitsHaveNoSeparator(g.totalT2);
    DigitsHaveNoSeparator(g.total);
    FieldsOfJoin(fs);
    DecimalRoundTrip(|g.records|);
    DecimalRoundTrip(g.totalT1);
    DecimalRoundTrip(g.totalT2);
    DecimalRoundTrip(g.total);
  }
}
