/** `clasificar_por_caja.py`: reads the rows of a CSV table, skips the
    first (the header), and counts, for each non-empty row whose first cell
    splits on `|` into more than six fields, the stripped sixth field; the
    counts are then listed largest first. */
module BoxClassifier {
  import opened Text
  import opened Counters
  import opened Wrappers
  import opened Sequences
  import UnifiedAnalysis
  import ErrorFilter

  /** A CSV row: its cells. */
  type Row = seq<string>

  /** The module a row is counted under: none for an empty row (`if row`)
      or for a first cell with six fields or fewer. */
  function RowModule(row: Row): Option<string> {
    if row == [] then None
    else
      var parts := Split(row[0], '|');
      if |parts| > 6 then Some(Strip(parts[5])) else None
  }

  /** The modules of the rows that count, in row order. */
  function Modules(rows: seq<Row>): seq<string> {
    if rows == [] then []
    else
      var m := RowModule(rows[|rows| - 1]);
      Modules(rows[..|rows| - 1]) + (if m.Some? then [m.value] else [])
  }

  lemma ModulesSnoc(rows: seq<Row>, row: Row)
    ensures Modules(rows + [row]) == Modules(rows) + (if RowModule(row).Some? then [RowModule(row).value] else [])
  {
    SnocInit(rows, row);
  }

  /** The counter the script builds from a whole table. `next(reader)` on a
      table with no row at all raises `StopIteration`. */
  function ModuleCounts(table: seq<Row>): Result<Counter, string> {
    if table == [] then Failure("StopIteration")
    else Success(CountKeys(Modules(table[1..])))
  }

  /** The counting loop after the header has been consumed. */
  method CountByModule(table: seq<Row>) returns (r: Result<Counter, string>)
    ensures r == ModuleCounts(table)
  {
    if |table| == 0 {
      return Failure("StopIteration");
    }
    var rows := table[1..];
    var counts: Counter := [];
    var i := 0;
    TakeNone(rows);
    while i < |rows|
      invariant 0 <= i <= |rows|
      invariant counts == CountKeys(Modules(rows[..i]))
    {
      var row := rows[i];
      PrefixStep(rows, i);
      ModulesSnoc(rows[..i], row);
      if row != [] {
        var parts := Split(row[0], '|');
        if |parts| > 6 {
          var name := Strip(parts[5]);
          CountKeysSnoc(Modules(rows[..i]), name);
          counts := Inc(counts, name);
        } else {
          AppendEmpty(Modules(rows[..i]));
        }
      } else {
        AppendEmpty(Modules(rows[..i]));
      }
      i := i + 1;
    }
    TakeAll(rows);
    return Success(counts);
  }

  /** Counting two runs of rows is counting each. */
  lemma {:induction false} ModulesAppend(a: seq<Row>, b: seq<Row>)
    ensures Modules(a + b) == Modules(a) + Modules(b)
  {
    if b == [] {
      AppendEmpty(a);
      AppendEmpty(Modules(a));
    } else {
      var init := b[..|b| - 1];
      var last := b[|b| - 1];
      InitLast(b);
      ModulesAppend(a, init);
      AppendAssoc(a, init, [last]);
      ModulesSnoc(a + init, last);
      ModulesSnoc(init, last);
      var e := if RowModule(last).Some? then [RowModule(last).value] else [];
      AppendAssoc(Modules(a), Modules(init), e);
    }
  }

  /** The header is never counted, whatever it holds, and an empty row
      changes nothing wherever it stands. */
  lemma HeaderAndEmptyRowsIgnored(h1: Row, h2: Row, a: seq<Row>, b: seq<Row>)
    ensures ModuleCounts([h1] + a) == ModuleCounts([h2] + a)
    ensures Modules(a + [[]] + b) == Modules(a + b)
  {
    assert ([h1] + a)[1..] == a && ([h2] + a)[1..] == a;
    ModulesAppend(a + [[]], b);
    ModulesAppend(a, [[]]);
    ModulesAppend(a, b);
    assert Modules([[]]) == [];
    AppendEmpty(Modules(a));
  }

  /** At most one module per row. */
  lemma {:induction false} ModulesBound(rows: seq<Row>)
    ensures |Modules(rows)| <= |rows|
  {
    if rows != [] {
      InitLast(rows);
      ModulesBound(rows[..|rows| - 1]);
    }
  }

  /** The counter holds each module with the number of rows counted under
      it, every count is at least 1, and the counts total the number of rows
      that qualify, at most the rows after the header. */
  lemma ModuleCountsValid(table: seq<Row>)
    requires table != []
    ensures ModuleCounts(table).Success?
    ensures Valid(ModuleCounts(table).value)
    ensures forall m :: Get(ModuleCounts(table).value, m) == multiset(Modules(table[1..]))[m]
    ensures Sum(ModuleCounts(table).value) == |Modules(table[1..])| <= |table| - 1
  {
    CountKeysCounts(Modules(table[1..]));
    ModulesBound(table[1..]);
  }

  /** The output rows: every counter entry, largest count first, entries of
      equal count in the order their modules were first counted, each
      count unchanged. */
  lemma Ranking(table: seq<Row>, m: string, n: nat)
    requires table != []
    ensures var c := ModuleCounts(table).value;
      multiset(SortByCount(c)) == multiset(c)
      && NonIncreasing(SortByCount(c))
      && Get(SortByCount(c), m) == Get(c, m)
      && WithCount(SortByCount(c), n) == WithCount(c, n)
  {
    var c := ModuleCounts(table).value;
    CountKeysCounts(Modules(table[1..]));
    SortByCountGet(c, m);
    SortByCountStable(c, n);
  }

  // ---------------------------------------------------------------------
  // The table this script reads is the one analisis_unificado.py writes.

  /** No row qualifies when no first cell holds a `|`. */
  lemma {:induction false} NoBarNoModules(rows: seq<Row>)
    requires forall i :: 0 <= i < |rows| ==> rows[i] != [] && '|' !in rows[i][0]
    ensures Modules(rows) == []
  {
    if rows != [] {
      var last := rows[|rows| - 1];
      SplitNoSeparator(last[0], '|');
      NoBarNoModules(rows[..|rows| - 1]);
    }
  }

  /** Read back from `errores_completos.csv`, the first cell of every row is
      a date column, which never holds a `|`: the script counts nothing on
      the table `analisis_unificado.py` writes. */
  lemma CountsNothingOnErrorTable(errors: seq<string>)
    ensures ModuleCounts(UnifiedAnalysis.ErrorTable(errors)) == Success([])
  {
    var table := UnifiedAnalysis.ErrorTable(errors);
    UnifiedAnalysis.ErrorTableRows(errors);
    var rows := table[1..];
    forall i | 0 <= i < |rows| ensures rows[i] != [] && '|' !in rows[i][0] {
      assert rows[i] == UnifiedAnalysis.ErrorRow(errors[i]);
      UnifiedAnalysis.ErrorRowDateHasNoBar(errors[i]);
    }
    NoBarNoModules(rows);
  }

  // ---------------------------------------------------------------------
  // The table filtrar_errores.py writes under the same name.

  /** The box of a raw log line: the stripped sixth field of a line whose
      stripped text has more than six fields and the state `ERR`. */
  function LogLineBox(line: string): Option<string> {
    var parts := Split(Strip(line), '|');
    if |parts| > 6 && Strip(parts[4]) == "ERR" then Some(Strip(parts[5])) else None
  }

  /** The boxes of the lines of a log, in order. */
  function LogBoxes(lines: seq<string>): seq<string> {
    if lines == [] then []
    else
      var b := LogLineBox(lines[|lines| - 1]);
      LogBoxes(lines[..|lines| - 1]) + (if b.Some? then [b.value] else [])
  }

  lemma OneCellRowsSnoc(ls: seq<string>, l: string)
    ensures ErrorFilter.OneCellRows(ls + [l]) == ErrorFilter.OneCellRows(ls) + [[l]]
  {
    SnocInit(ls, l);
  }

  /** A kept line is counted under the box of the log line it came from. */
  lemma KeptLineModule(line: string)
    ensures ErrorFilter.IsErrLine(line) ==> RowModule([Strip(line)]) == LogLineBox(line)
    ensures !ErrorFilter.IsErrLine(line) ==> LogLineBox(line) == None
  {
  }

  lemma {:induction false} ModulesOfKept(lines: seq<string>)
    ensures Modules(ErrorFilter.OneCellRows(ErrorFilter.Kept(lines))) == LogBoxes(lines)
  {
    if lines != [] {
      var init := lines[..|lines| - 1];
      var last := lines[|lines| - 1];
      InitLast(lines);
      ModulesOfKept(init);
      ErrorFilter.KeptSnoc(init, last);
      KeptLineModule(last);
      var kept := ErrorFilter.Kept(init);
      if ErrorFilter.IsErrLine(last) {
        OneCellRowsSnoc(kept, Strip(last));
        ModulesSnoc(ErrorFilter.OneCellRows(kept), [Strip(last)]);
      } else {
        AppendEmpty(kept);
        AppendEmpty(LogBoxes(init));
      }
    }
  }

  /** On the table `filtrar_errores.py` writes, the script counts, for every
      `ERR` line of the log with more than six fields, its stripped sixth
      field: the same boxes `analisis_unificado.py` counts, taken line by
      line instead of record by record. */
  lemma CountsOnFilteredTable(lines: seq<string>)
    ensures ModuleCounts(ErrorFilter.ErrorTable(lines)) == Success(CountKeys(LogBoxes(lines)))
  {
    var table := ErrorFilter.ErrorTable(lines);
    assert table[1..] == ErrorFilter.OneCellRows(ErrorFilter.Kept(lines));
    ModulesOfKept(lines);
  }
}
