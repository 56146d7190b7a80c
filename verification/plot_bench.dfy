/**
 The benchmark report script: the rows read from the results file, the
 baseline lookup, the markdown speedup table and the bar labels of the
 plot, with Python's exceptions as `Err` values.

 The CSV reader, `int()` and `float()` are parameters: a record is the map
 from column name to text that `csv.DictReader` yields, and the two parsers
 return `None` where Python raises `ValueError`.
 */
module PlotBench {
  import opened Outcomes

  /** One benchmark configuration and its wall time. */
  datatype Row = Row(np: int, threads: int, time: real)

  /** A CSV record: column name to cell text. */
  type Record = map<string, string>

  /** The exceptions the script can end with. */
  datatype Failure = KeyError(key: string) | ValueError(text: string) | StopIteration | ZeroDivision

  /** `parse(rec[key])`: a missing column raises `KeyError`, unparsable text `ValueError`. */
  function Field<T>(rec: Record, key: string, parse: string -> Option<T>): (r: Result<T, Failure>)
    ensures r.Ok? <==> key in rec && parse(rec[key]).Some?
    ensures r.Ok? ==> r.value == parse(rec[key]).value
    ensures key !in rec ==> r == Err(KeyError(key))
  {
    if key !in rec then Err(KeyError(key))
    else match parse(rec[key])
      case None => Err(ValueError(rec[key]))
      case Some(v) => Ok(v)
  }

  /** The dictionary literal of `read_results`: NP, then Threads, then Time. */
  function ParseRow(rec: Record, parseInt: string -> Option<int>, parseFloat: string -> Option<real>): (r: Result<Row, Failure>)
    ensures r.Ok? <==>
              Field(rec, "NP", parseInt).Ok? && Field(rec, "Threads", parseInt).Ok? && Field(rec, "Time", parseFloat).Ok?
    ensures r.Ok? ==> r.value == Row(parseInt(rec["NP"]).value, parseInt(rec["Threads"]).value, parseFloat(rec["Time"]).value)
  {
    match Field(rec, "NP", parseInt)
    case Err(e) => Err(e)
    case Ok(np) =>
      match Field(rec, "Threads", parseInt)
      case Err(e) => Err(e)
      case Ok(threads) =>
        match Field(rec, "Time", parseFloat)
        case Err(e) => Err(e)
        case Ok(time) => Ok(Row(np, threads, time))
  }

  /**
   `read_results`: one row per record, in file order; the first record
   that fails to parse ends the read with its exception.
   */
  function ReadResults(records: seq<Record>, parseInt: string -> Option<int>, parseFloat: string -> Option<real>): (r: Result<seq<Row>, Failure>)
    decreases |records|
    ensures r.Ok? ==> |r.value| == |records|
  {
    if |records| == 0 then Ok([])
    else
      match ParseRow(records[0], parseInt, parseFloat)
      case Err(e) => Err(e)
      case Ok(row) =>
        match ReadResults(records[1..], parseInt, parseFloat)
        case Err(e) => Err(e)
        case Ok(rest) => Ok([row] + rest)
  }

  /** The read succeeds exactly when every record parses, and then row k is record k parsed. */
  lemma {:induction false} ReadResultsRows(records: seq<Record>, parseInt: string -> Option<int>, parseFloat: string -> Option<real>)
    decreases |records|
    ensures ReadResults(records, parseInt, parseFloat).Ok? <==> forall k :: 0 <= k < |records| ==> ParseRow(records[k], parseInt, parseFloat).Ok?
    ensures ReadResults(records, parseInt, parseFloat).Ok? ==>
              forall k :: 0 <= k < |records| ==> ReadResults(records, parseInt, parseFloat).value[k] == ParseRow(records[k], parseInt, parseFloat).value
  {
    if |records| > 0 {
      var tail := records[1..];
      ReadResultsRows(tail, parseInt, parseFloat);
      assert forall k :: 1 <= k < |records| ==> records[k] == tail[k - 1];
    }
  }

  /** A failed read fails with the exception of the first record that does not parse. */
  lemma {:induction false} ReadResultsError(records: seq<Record>, parseInt: string -> Option<int>, parseFloat: string -> Option<real>)
    decreases |records|
    ensures ReadResults(records, parseInt, parseFloat).Err? ==>
              exists k :: 0 <= k < |records|
                && ParseRow(records[k], parseInt, parseFloat) == Err(ReadResults(records, parseInt, parseFloat).error)
                && forall j :: 0 <= j < k ==> ParseRow(records[j], parseInt, parseFloat).Ok?
  {
    var r := ReadResults(records, parseInt, parseFloat);
    if |records| > 0 && r.Err? && ParseRow(records[0], parseInt, parseFloat).Ok? {
      var tail := records[1..];
      ReadResultsError(tail, parseInt, parseFloat);
      var k :| 0 <= k < |tail|
               && ParseRow(tail[k], parseInt, parseFloat) == Err(r.error)
               && forall j :: 0 <= j < k ==> ParseRow(tail[j], parseInt, parseFloat).Ok?;
      assert records[k + 1] == tail[k];
      assert forall j :: 1 <= j < k + 1 ==> records[j] == tail[j - 1];
    }
  }

  /** Reading a file in two pieces reads the same rows, in the same order. */
  lemma ReadResultsAppend(a: seq<Record>, b: seq<Record>, parseInt: string -> Option<int>, parseFloat: string -> Option<real>)
    requires ReadResults(a + b, parseInt, parseFloat).Ok?
    ensures ReadResults(a, parseInt, parseFloat).Ok? && ReadResults(b, parseInt, parseFloat).Ok?
    ensures ReadResults(a + b, parseInt, parseFloat).value
            == ReadResults(a, parseInt, parseFloat).value + ReadResults(b, parseInt, parseFloat).value
  {
    PiecesParse(a, b, parseInt, parseFloat);
    var rab := ReadResults(a + b, parseInt, parseFloat).value;
    var ra := ReadResults(a, parseInt, parseFloat).value;
    var rb := ReadResults(b, parseInt, parseFloat).value;
    forall k | 0 <= k < |rab|
      ensures rab[k] == (ra + rb)[k]
    {
      if k < |a| {
        RowOfFirst(a, b, parseInt, parseFloat, k);
      } else {
        RowOfSecond(a, b, parseInt, parseFloat, k);
      }
    }
  }

  /** When the whole file parses, so does each piece. */
  lemma PiecesParse(a: seq<Record>, b: seq<Record>, parseInt: string -> Option<int>, parseFloat: string -> Option<real>)
    requires ReadResults(a + b, parseInt, parseFloat).Ok?
    ensures ReadResults(a, parseInt, parseFloat).Ok? && ReadResults(b, parseInt, parseFloat).Ok?
  {
    var ab := a + b;
    ReadResultsRows(ab, parseInt, parseFloat);
    ReadResultsRows(a, parseInt, parseFloat);
    ReadResultsRows(b, parseInt, parseFloat);
    forall k | 0 <= k < |a|
      ensures ParseRow(a[k], parseInt, parseFloat).Ok?
    {
      assert ab[k] == a[k];
    }
    forall k | 0 <= k < |b|
      ensures ParseRow(b[k], parseInt, parseFloat).Ok?
    {
      assert ab[|a| + k] == b[k];
    }
  }

  /** A row from the first piece is the same row of the whole file. */
  lemma RowOfFirst(a: seq<Record>, b: seq<Record>, parseInt: string -> Option<int>, parseFloat: string -> Option<real>, k: int)
    requires ReadResults(a + b, parseInt, parseFloat).Ok? && ReadResults(a, parseInt, parseFloat).Ok?
    requires 0 <= k < |a|
    ensures ReadResults(a + b, parseInt, parseFloat).value[k] == ReadResults(a, parseInt, parseFloat).value[k]
  {
    ReadResultsRows(a + b, parseInt, parseFloat);
    ReadResultsRows(a, parseInt, parseFloat);
    assert (a + b)[k] == a[k];
  }

  /** A row from the second piece is the same row of the whole file, shifted by the first piece's length. */
  lemma RowOfSecond(a: seq<Record>, b: seq<Record>, parseInt: string -> Option<int>, parseFloat: string -> Option<real>, k: int)
    requires ReadResults(a + b, parseInt, parseFloat).Ok? && ReadResults(b, parseInt, parseFloat).Ok?
    requires |a| <= k < |a| + |b|
    ensures ReadResults(a + b, parseInt, parseFloat).value[k] == ReadResults(b, parseInt, parseFloat).value[k - |a|]
  {
    ReadResultsRows(a + b, parseInt, parseFloat);
    ReadResultsRows(b, parseInt, parseFloat);
    assert (a + b)[k] == b[k - |a|];
  }

  /** The baseline configuration: one process, one thread. */
  predicate IsBaseline(row: Row) {
    row.np == 1 && row.threads == 1
  }

  /**
   The generator `next(...)` in `main`: the time of the first baseline
   row; with none, `next` raises `StopIteration` (here `None`).
   */
  function Baseline(rows: seq<Row>): (b: Option<real>)
    decreases |rows|
    ensures b.Some? <==> exists k :: 0 <= k < |rows| && IsBaseline(rows[k])
    ensures b.Some? ==> exists k :: 0 <= k < |rows| && IsBaseline(rows[k]) && b.value == rows[k].time
                                    && forall j :: 0 <= j < k ==> !IsBaseline(rows[j])
  {
    if |rows| == 0 then None
    else if IsBaseline(rows[0]) then Some(rows[0].time)
    else
      var b := Baseline(rows[1..]);
      if b.Some? then
        ghost var k :| 0 <= k < |rows[1..]| && IsBaseline(rows[1..][k]) && b.value == rows[1..][k].time
                       && forall j :: 0 <= j < k ==> !IsBaseline(rows[1..][j]);
        assert IsBaseline(rows[k + 1]);
        b
      else
        assert forall k :: 1 <= k < |rows| ==> rows[k] == rows[1..][k - 1];
        b
  }

  /** `base_time / r['Time']`: Python raises on a zero divisor. */
  function Speedup(base: real, time: real): (r: Result<real, Failure>)
    ensures r.Err? <==> time == 0.0
    ensures r.Ok? ==> r.value * time == base
  {
    if time == 0.0 then Err(ZeroDivision) else Ok(base / time)
  }

  /** The baseline row, when its time is not zero, runs at speedup exactly 1. */
  lemma BaselineSpeedupIsOne(rows: seq<Row>, k: int)
    requires 0 <= k < |rows| && IsBaseline(rows[k]) && rows[k].time != 0.0
    requires forall j :: 0 <= j < k ==> !IsBaseline(rows[j])
    ensures Baseline(rows) == Some(rows[k].time)
    ensures Speedup(Baseline(rows).value, rows[k].time) == Ok(1.0)
  {
    var b := Baseline(rows);
    var k' :| 0 <= k' < |rows| && IsBaseline(rows[k']) && b.value == rows[k'].time
              && forall j :: 0 <= j < k' ==> !IsBaseline(rows[j]);
    assert k' == k;
  }

  /** A printed line of the markdown table; numbers stand for their `.3f` renderings. */
  datatype Line = Header | Separator | RowLine(np: int, threads: int, time: real, speedup: real)

  const HeaderText: string := "| NP | Threads | Time (s) | Speedup |"
  const SeparatorText: string := "|----|---------|----------|---------|"

  /** What `print_markdown` wrote, and the exception it stopped with, if any. */
  datatype Printed = Printed(lines: seq<Line>, failure: Option<Failure>)

  /**
   The row loop of `print_markdown`: one line per row, in order, up to the
   first row whose time is zero, where the division raises.
   */
  function RowLines(rows: seq<Row>, base: real): (p: Printed)
    decreases |rows|
    ensures |p.lines| <= |rows|
    ensures forall k :: 0 <= k < |p.lines| ==>
              rows[k].time != 0.0 && p.lines[k] == RowLine(rows[k].np, rows[k].threads, rows[k].time, base / rows[k].time)
    ensures p.failure.None? <==> forall k :: 0 <= k < |rows| ==> rows[k].time != 0.0
    ensures p.failure.None? ==> |p.lines| == |rows|
    ensures p.failure.Some? ==> p.failure.value == ZeroDivision && |p.lines| < |rows| && rows[|p.lines|].time == 0.0
  {
    if |rows| == 0 then Printed([], None)
    else
      match Speedup(base, rows[0].time)
      case Err(e) => Printed([], Some(e))
      case Ok(s) =>
        var rest := RowLines(rows[1..], base);
        Printed([RowLine(rows[0].np, rows[0].threads, rows[0].time, s)] + rest.lines, rest.failure)
  }

  /** `print_markdown`: the header, the separator, then the row lines. */
  function PrintMarkdown(rows: seq<Row>, base: real): (p: Printed)
    ensures |p.lines| >= 2 && p.lines[0] == Header && p.lines[1] == Separator
    ensures p.failure.None? ==> |p.lines| == |rows| + 2
    ensures |p.lines| <= |rows| + 2
    ensures forall k :: 2 <= k < |p.lines| ==>
              rows[k - 2].time != 0.0 && p.lines[k] == RowLine(rows[k - 2].np, rows[k - 2].threads, rows[k - 2].time, base / rows[k - 2].time)
  {
    var body := RowLines(rows, base);
    Printed([Header, Separator] + body.lines, body.failure)
  }

  // ---------------------------------------------------------------------
  // Bar labels
  // ---------------------------------------------------------------------

  function DigitChar(d: int): char
    requires 0 <= d < 10
  {
    "0123456789"[d]
  }

  function DigitValue(ch: char): int {
    if '0' <= ch <= '9' then ch as int - '0' as int else 0
  }

  predicate IsDigit(ch: char) {
    '0' <= ch <= '9'
  }

  /** Python's decimal rendering of a non-negative integer. */
  function Digits(n: nat): (s: string)
    ensures |s| >= 1 && forall k :: 0 <= k < |s| ==> IsDigit(s[k])
  {
    if n < 10 then [DigitChar(n)] else Digits(n / 10) + [DigitChar(n % 10)]
  }

  /** `str(n)`, as f-strings print an int: a minus sign, then the digits of |n|. */
  function Decimal(n: int): string {
    if n < 0 then "-" + Digits(-n) else Digits(n)
  }

  /** The value a digit string denotes. */
  function DigitsValue(s: string): int
    decreases |s|
  {
    if |s| == 0 then 0 else DigitsValue(s[..|s| - 1]) * 10 + DigitValue(s[|s| - 1])
  }

  /** `int(s)` on the strings `Decimal` produces. */
  function ParseDecimal(s: string): int {
    if |s| > 0 && s[0] == '-' then -DigitsValue(s[1..]) else DigitsValue(s)
  }

  lemma {:induction false} DigitsRoundTrip(n: nat)
    ensures DigitsValue(Digits(n)) == n
  {
    var s := Digits(n);
    if n >= 10 {
      DigitsRoundTrip(n / 10);
      assert s[..|s| - 1] == Digits(n / 10);
    }
  }

  /** Reading back an integer's decimal rendering gives the integer. */
  lemma DecimalRoundTrip(n: int)
    ensures ParseDecimal(Decimal(n)) == n
  {
    if n < 0 {
      var d := Digits(-n);
      DigitsRoundTrip(-n);
      assert ("-" + d)[1..] == d;
    } else {
      var d := Digits(n);
      DigitsRoundTrip(n);
      assert IsDigit(d[0]);
    }
  }

  /** The separator between the two numbers of a bar label, U+00D7. */
  const Times: char := '\U{00D7}'

  /** A bar label, `f"{np}×{th}"`. */
  function Label(np: int, threads: int): string {
    Decimal(np) + [Times] + Decimal(threads)
  }

  /** The sign and digits never contain the separator. */
  lemma DecimalHasNoTimes(n: int)
    ensures Times !in Decimal(n)
  {
    var s := Decimal(n);
    if n < 0 {
      assert forall k :: 1 <= k < |s| ==> s[k] == Digits(-n)[k - 1];
    }
  }

  /** Position of the first `Times` in s, or |s| if there is none. */
  function TimesIndex(s: string): (i: nat)
    ensures i <= |s|
  {
    if |s| == 0 then 0 else if s[0] == Times then 0 else 1 + TimesIndex(s[1..])
  }

  /** In `a + [Times] + b` with no separator in `a`, the first separator follows `a`. */
  lemma {:induction false} TimesAfterNumber(a: string, b: string)
    requires Times !in a
    ensures TimesIndex(a + [Times] + b) == |a|
  {
    if |a| > 0 {
      var s := a + [Times] + b;
      assert s[0] == a[0];
      assert s[1..] == a[1..] + [Times] + b;
      TimesAfterNumber(a[1..], b);
    }
  }

  /** Distinct configurations get distinct labels: the label determines np and threads. */
  lemma LabelInjective(np1: int, th1: int, np2: int, th2: int)
    requires Label(np1, th1) == Label(np2, th2)
    ensures np1 == np2 && th1 == th2
  {
    var a1, a2 := Decimal(np1), Decimal(np2);
    var l := Label(np1, th1);
    DecimalHasNoTimes(np1);
    DecimalHasNoTimes(np2);
    TimesAfterNumber(a1, Decimal(th1));
    TimesAfterNumber(a2, Decimal(th2));
    assert |a1| == |a2|;
    assert l[..|a1|] == a1;
    assert Label(np2, th2)[..|a2|] == a2;
    assert Decimal(th1) == l[|a1| + 1..] == Decimal(th2);
    DecimalRoundTrip(np1);
    DecimalRoundTrip(np2);
    DecimalRoundTrip(th1);
    DecimalRoundTrip(th2);
  }

  /** The bars of `plot`: one per row, in order, labelled by configuration, as tall as its time. */
  function Bars(rows: seq<Row>): (bars: seq<(string, real)>)
    ensures |bars| == |rows|
    ensures forall k :: 0 <= k < |rows| ==> bars[k].1 == rows[k].time
    ensures forall j, k :: 0 <= j < |rows| && 0 <= k < |rows| ==>
              (bars[j].0 == bars[k].0 <==> rows[j].np == rows[k].np && rows[j].threads == rows[k].threads)
  {
    var bars := seq(|rows|, k requires 0 <= k < |rows| => (Label(rows[k].np, rows[k].threads), rows[k].time));
    forall j, k | 0 <= j < |rows| && 0 <= k < |rows| && bars[j].0 == bars[k].0
      ensures rows[j].np == rows[k].np && rows[j].threads == rows[k].threads
    {
      LabelInjective(rows[j].np, rows[j].threads, rows[k].np, rows[k].threads);
    }
    bars
  }

  /** Three configurations with the baseline first: speedups 1, 2.5 and 4, bars labelled 1×1, 1×2 and 2×2. */
  lemma ReportExample()
    ensures var rows := [Row(1, 1, 10.0), Row(1, 2, 4.0), Row(2, 2, 2.5)];
            && Baseline(rows) == Some(10.0)
            && PrintMarkdown(rows, 10.0)
               == Printed([Header, Separator, RowLine(1, 1, 10.0, 1.0), RowLine(1, 2, 4.0, 2.5), RowLine(2, 2, 2.5, 4.0)], None)
            && Bars(rows) == [("1" + [Times] + "1", 10.0), ("1" + [Times] + "2", 4.0), ("2" + [Times] + "2", 2.5)]
  {
    var rows := [Row(1, 1, 10.0), Row(1, 2, 4.0), Row(2, 2, 2.5)];
    assert rows[1..] == [Row(1, 2, 4.0), Row(2, 2, 2.5)];
    assert rows[1..][1..] == [Row(2, 2, 2.5)];
    assert Decimal(1) == "1" && Decimal(2) == "2";
  }

  // ---------------------------------------------------------------------
  // The script
  // ---------------------------------------------------------------------

  /** How a run of the script ends. */
  datatype Outcome =
    | UsageExit(code: int)
    | Raised(error: Failure, printed: seq<Line>)
    | Finished(printed: seq<Line>, bars: seq<(string, real)>)

  /**
   `main`: `records` is the content of the file named by `argv[1]`. A
   wrong argument count exits with status 1 before anything is read.
   */
  function RunMain(argv: seq<string>, records: seq<Record>, parseInt: string -> Option<int>, parseFloat: string -> Option<real>): (o: Outcome)
    ensures o.UsageExit? <==> |argv| != 2
    ensures o.UsageExit? ==> o.code == 1
    ensures o.Finished? <==>
              && |argv| == 2
              && ReadResults(records, parseInt, parseFloat).Ok?
              && Baseline(ReadResults(records, parseInt, parseFloat).value).Some?
              && forall k :: 0 <= k < |records| ==> ReadResults(records, parseInt, parseFloat).value[k].time != 0.0
    ensures o.Finished? ==> |o.printed| == |records| + 2 && |o.bars| == |records|
    ensures o.Raised? && o.error == StopIteration ==> o.printed == []
  {
    if |argv| != 2 then UsageExit(1)
    else match ReadResults(records, parseInt, parseFloat)
      case Err(e) => Raised(e, [])
      case Ok(rows) =>
        match Baseline(rows)
        case None => Raised(StopIteration, [])
        case Some(base) =>
          var p := PrintMarkdown(rows, base);
          if p.failure.Some? then Raised(p.failure.value, p.lines)
          else Finished(p.lines, Bars(rows))
  }
}
