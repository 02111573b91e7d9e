/** `filtrar_errores.py`: keeps, stripped and in order, every physical line
    of a log whose stripped text has more than five `|` fields and whose
    fifth field, stripped, is `ERR`. Unlike `analisis_unificado.py` it does
    not reassemble records that span several lines. */
module ErrorFilter {
  import opened Text
  import opened Sequences

  /** `partes = linea.strip().split('|')`: more than five fields, the
      fifth of which, stripped, is `ERR`. */
  predicate IsErrLine(line: string) {
    var parts := Split(Strip(line), '|');
    |parts| > 5 && Strip(parts[4]) == "ERR"
  }

  /** The lines kept, each stripped, in input order. */
  function Kept(lines: seq<string>): seq<string> {
    if lines == [] then []
    else
      var last := lines[|lines| - 1];
      Kept(lines[..|lines| - 1]) + (if IsErrLine(last) then [Strip(last)] else [])
  }

  lemma KeptSnoc(lines: seq<string>, line: string)
    ensures Kept(lines + [line]) == Kept(lines) + (if IsErrLine(line) then [Strip(line)] else [])
  {
    SnocInit(lines, line);
  }

  /** The module-level loop: for each line, split its stripped text and keep
      it, stripped, if it has more than five fields and the fifth is `ERR`;
      short lines and other states are passed over. */
  method FilterErrors(lines: seq<string>) returns (kept: seq<string>)
    ensures kept == Kept(lines)
  {
    kept := [];
    var i := 0;
    TakeNone(lines);
    while i < |lines|
      invariant 0 <= i <= |lines|
      invariant kept == Kept(lines[..i])
    {
      var line := lines[i];
      PrefixStep(lines, i);
      KeptSnoc(lines[..i], line);
      var parts := Split(Strip(line), '|');
      if |parts| > 5 {
        var state := Strip(parts[4]);
        if state == "ERR" {
          kept := kept + [Strip(line)];
        }
      }
      i := i + 1;
    }
    TakeAll(lines);
  }

  /** One single-cell CSV row per line (`writer.writerow([linea])`). */
  function OneCellRows(ls: seq<string>): (rows: seq<seq<string>>)
    ensures |rows| == |ls|
  {
    if ls == [] then [] else OneCellRows(ls[..|ls| - 1]) + [[ls[|ls| - 1]]]
  }

  /** The table written to `errores_completos.csv`: the header
      `Linea de Error`, then each kept line in a cell of its own. */
  function ErrorTable(lines: seq<string>): seq<seq<string>> {
    [["Linea de Error"]] + OneCellRows(Kept(lines))
  }

  /** Each line is judged on its own: filtering two runs of lines is
      filtering each. */
  lemma {:induction false} KeptAppend(a: seq<string>, b: seq<string>)
    ensures Kept(a + b) == Kept(a) + Kept(b)
  {
    if b == [] {
      AppendEmpty(a);
      AppendEmpty(Kept(a));
    } else {
      var init := b[..|b| - 1];
      var last := b[|b| - 1];
      InitLast(b);
      KeptAppend(a, init);
      AppendAssoc(a, init, [last]);
      KeptSnoc(a + init, last);
      KeptSnoc(init, last);
      var e := if IsErrLine(last) then [Strip(last)] else [];
      AppendAssoc(Kept(a), Kept(init), e);
    }
  }

  /** `Kept` is the comprehension `[l.strip() for l in lines if <test>]`. */
  lemma {:induction false} KeptIsFilterMap(lines: seq<string>)
    ensures Kept(lines) == FilterMap(lines, IsErrLine, Strip)
  {
    if lines != [] {
      KeptIsFilterMap(lines[..|lines| - 1]);
    }
  }

  /** The output is a subsequence of the stripped input: the kept lines are
      the stripped `ERR` lines at strictly increasing positions, and every
      `ERR` line of the input is among them. */
  lemma KeptIsSubsequence(lines: seq<string>)
    ensures var ps := Positions(lines, IsErrLine);
      && |ps| == |Kept(lines)|
      && (forall k :: 0 <= k < |ps| ==>
            ps[k] < |lines| && IsErrLine(lines[ps[k]]) && Kept(lines)[k] == Strip(lines[ps[k]]))
      && (forall k, m :: 0 <= k < m < |ps| ==> ps[k] < ps[m])
      && (forall j :: 0 <= j < |lines| && IsErrLine(lines[j]) ==> j in ps)
  {
    KeptIsFilterMap(lines);
    FilterMapPositions(lines, IsErrLine, Strip);
    PositionsComplete(lines, IsErrLine);
  }

  /** A line is in the output if and only if it is the stripped text of an
      input line that passes the test. */
  lemma {:induction false} KeptIff(lines: seq<string>, x: string)
    ensures x in Kept(lines) <==> exists l :: l in lines && IsErrLine(l) && Strip(l) == x
  {
    if lines != [] {
      var init := lines[..|lines| - 1];
      var last := lines[|lines| - 1];
      InitLast(lines);
      KeptIff(init, x);
      assert forall l :: l in lines <==> l in init || l == last;
    }
  }
}
