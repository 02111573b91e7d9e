/** `analisis.py`: every line read is an error (it contains `ERROR`), an
    alert (it contains `ALERTA` but not `ERROR`) or something else; error
    lines may carry a `YYYY-MM-DD hh:mm:ss` timestamp and a `TipoError:`
    tag, and the tags are counted. */
module Analysis {
  import opened Text
  import opened Counters
  import opened Wrappers
  import opened Sequences

  datatype Category = Error | Alert | Other

  /** The `if "ERROR" in linea / elif "ALERTA" in linea / else` chain. */
  function CategoryOf(line: string): Category {
    if Contains(line, "ERROR") then Error
    else if Contains(line, "ALERTA") then Alert
    else Other
  }

  /** A line is an error exactly when `ERROR` occurs in it somewhere, even
      if `ALERTA` does too; it is an alert exactly when `ALERTA` occurs and
      `ERROR` does not. */
  lemma CategoryIff(line: string)
    ensures CategoryOf(line) == Error <==> exists i :: OccursAt(line, "ERROR", i)
    ensures CategoryOf(line) == Alert <==>
      (!exists i :: OccursAt(line, "ERROR", i)) && (exists i :: OccursAt(line, "ALERTA", i))
  {
    ContainsIff(line, "ERROR");
    ContainsIff(line, "ALERTA");
  }

  /** The lines of all files, file after file, each file's lines in order. */
  function Lines(files: seq<seq<string>>): seq<string> {
    if files == [] then [] else Lines(files[..|files| - 1]) + files[|files| - 1]
  }

  /** The lines of category `c`, unmodified and in input order. */
  function Select(lines: seq<string>, c: Category): seq<string> {
    if lines == [] then []
    else
      var last := lines[|lines| - 1];
      Select(lines[..|lines| - 1], c) + (if CategoryOf(last) == c then [last] else [])
  }

  lemma SelectSnoc(lines: seq<string>, line: string, c: Category)
    ensures Select(lines + [line], c) == Select(lines, c) + (if CategoryOf(line) == c then [line] else [])
  {
    SnocInit(lines, line);
  }

  /** Each list depends only on the lines, not on how they are spread over
      files: selecting from two runs of lines is selecting from each. */
  lemma {:induction false} SelectAppend(a: seq<string>, b: seq<string>, c: Category)
    ensures Select(a + b, c) == Select(a, c) + Select(b, c)
  {
    if b == [] {
      AppendEmpty(a);
      AppendEmpty(Select(a, c));
    } else {
      var init := b[..|b| - 1];
      var last := b[|b| - 1];
      InitLast(b);
      SelectAppend(a, init, c);
      AppendAssoc(a, init, [last]);
      SelectSnoc(a + init, last, c);
      SelectSnoc(init, last, c);
      var e := if CategoryOf(last) == c then [last] else [];
      AppendAssoc(Select(a, c), Select(init, c), e);
    }
  }

  /** A line is in the list of category `c` if and only if it is one of the
      lines read and its category is `c`. */
  lemma {:induction false} SelectIff(lines: seq<string>, c: Category, x: string)
    ensures x in Select(lines, c) <==> x in lines && CategoryOf(x) == c
  {
    if lines != [] {
      var init := lines[..|lines| - 1];
      var last := lines[|lines| - 1];
      InitLast(lines);
      SelectIff(init, c, x);
      assert x in lines <==> x in init || x == last;
    }
  }

  /** Every line lands in exactly one of the three lists. */
  lemma {:induction false} Partition(lines: seq<string>)
    ensures multiset(Select(lines, Error)) + multiset(Select(lines, Alert)) + multiset(Select(lines, Other))
         == multiset(lines)
  {
    if lines != [] {
      var init := lines[..|lines| - 1];
      var last := lines[|lines| - 1];
      InitLast(lines);
      Partition(init);
    }
  }

  // ---------------------------------------------------------------------
  // re.search(r'\d{4}-\d{2}-\d{2} \d{2}:\d{2}:\d{2}', linea)

  /** `#` stands for a digit. */
  const DatePattern: string := "####-##-## ##:##:##"

  /** A timestamp starts at position `i` of `s`. */
  predicate DateAt(s: string, i: nat) {
    i + |DatePattern| <= |s| && FitsTemplate(s[i..], DatePattern)
  }

  /** The leftmost position at or after `from` where a timestamp starts. */
  function FindDate(s: string, from: nat): (r: Option<nat>)
    requires from <= |s|
    ensures r.Some? ==> from <= r.value && DateAt(s, r.value)
    ensures r.Some? ==> forall j :: from <= j < r.value ==> !DateAt(s, j)
    ensures r.None? ==> forall j :: from <= j ==> !DateAt(s, j)
    decreases |s| - from
  {
    if from + |DatePattern| > |s| then None
    else if DateAt(s, from) then Some(from)
    else FindDate(s, from + 1)
  }

  /** `fecha.group()`: the text of the leftmost timestamp, if any. */
  function DateOf(line: string): Option<string> {
    var p := FindDate(line, 0);
    if p.Some? then Some(line[p.value..p.value + |DatePattern|]) else None
  }

  /** The matched text has the timestamp's shape, and there is a match if
      and only if a timestamp starts somewhere in the line. */
  lemma DateOfShape(line: string)
    ensures DateOf(line).Some? <==> exists i :: DateAt(line, i)
    ensures DateOf(line).Some? ==>
      |DateOf(line).value| == |DatePattern| && FitsTemplate(DateOf(line).value, DatePattern)
  {
    var p := FindDate(line, 0);
    if p.Some? {
      var d := line[p.value..p.value + |DatePattern|];
      forall k | 0 <= k < |DatePattern| ensures CharFits(d[k], DatePattern[k]) {
        assert d[k] == line[p.value..][k];
      }
    }
  }

  /** `fechas_errores`: one timestamp text per error line that holds one,
      in input order. The conversion by `strptime` is not modelled. */
  function Dates(lines: seq<string>): seq<string> {
    if lines == [] then []
    else
      var last := lines[|lines| - 1];
      var d := DateOf(last);
      Dates(lines[..|lines| - 1]) + (if CategoryOf(last) == Error && d.Some? then [d.value] else [])
  }

  lemma DatesSnoc(lines: seq<string>, line: string)
    ensures Dates(lines + [line]) == Dates(lines) +
      (if CategoryOf(line) == Error && DateOf(line).Some? then [DateOf(line).value] else [])
  {
    SnocInit(lines, line);
  }

  /** At most one timestamp per error line. */
  lemma {:induction false} DatesBound(lines: seq<string>)
    ensures |Dates(lines)| <= |Select(lines, Error)|
  {
    if lines != [] {
      InitLast(lines);
      DatesBound(lines[..|lines| - 1]);
    }
  }

  // ---------------------------------------------------------------------
  // procesar_logs

  /** `procesar_logs`: one pass over every line of every file, appending
      each line to the list of its category and each error line's
      timestamp text, if it has one, to the dates. */
  method ProcessLogs(files: seq<seq<string>>)
    returns (errors: seq<string>, alerts: seq<string>, others: seq<string>, dates: seq<string>)
    ensures errors == Select(Lines(files), Error)
    ensures alerts == Select(Lines(files), Alert)
    ensures others == Select(Lines(files), Other)
    ensures dates == Dates(Lines(files))
  {
    errors, alerts, others, dates := [], [], [], [];
    ghost var seen: seq<string> := [];
    TakeNone(files);
    var f := 0;
    while f < |files|
      invariant 0 <= f <= |files|
      invariant seen == Lines(files[..f])
      invariant errors == Select(seen, Error) && alerts == Select(seen, Alert)
      invariant others == Select(seen, Other) && dates == Dates(seen)
    {
      var file := files[f];
      ghost var before := seen;
      TakeNone(file);
      AppendEmpty(before);
      var j := 0;
      while j < |file|
        invariant 0 <= j <= |file|
        invariant seen == before + file[..j]
        invariant errors == Select(seen, Error) && alerts == Select(seen, Alert)
        invariant others == Select(seen, Other) && dates == Dates(seen)
      {
        var line := file[j];
        SelectSnoc(seen, line, Error);
        SelectSnoc(seen, line, Alert);
        SelectSnoc(seen, line, Other);
        DatesSnoc(seen, line);
        if Contains(line, "ERROR") {
          errors := errors + [line];
          var p := FindDate(line, 0);
          if p.Some? {
            dates := dates + [line[p.value..p.value + |DatePattern|]];
          }
        } else if Contains(line, "ALERTA") {
          alerts := alerts + [line];
        } else {
          others := others + [line];
        }
        PrefixStep(file, j);
        AppendAssoc(before, file[..j], [line]);
        seen := seen + [line];
        j := j + 1;
      }
      TakeAll(file);
      PrefixStep(files, f);
      f := f + 1;
    }
    TakeAll(files);
  }

  /** `generar_estadisticas`: the three list lengths. */
  function Statistics(errors: seq<string>, alerts: seq<string>, others: seq<string>): (nat, nat, nat) {
    (|errors|, |alerts|, |others|)
  }

  /** The three totals of a run add up to the number of lines read. */
  lemma StatisticsTotal(lines: seq<string>)
    ensures var s := Statistics(Select(lines, Error), Select(lines, Alert), Select(lines, Other));
      s.0 + s.1 + s.2 == |lines|
  {
    Partition(lines);
    assert |multiset(lines)| == |lines|;
  }

  // ---------------------------------------------------------------------
  // re.search(r'TipoError:\s*(\w+)', error).group(1)

  const TagMarker: string := "TipoError:"

  /** The first position at or after `i` that is not whitespace. */
  function SkipSpaces(s: string, i: nat): (k: nat)
    requires i <= |s|
    ensures i <= k <= |s|
    ensures forall j :: i <= j < k ==> IsSpace(s[j])
    ensures k == |s| || !IsSpace(s[k])
    decreases |s| - i
  {
    if i < |s| && IsSpace(s[i]) then SkipSpaces(s, i + 1) else i
  }

  /** The end of the run of word characters starting at `i`. */
  function WordEnd(s: string, i: nat): (k: nat)
    requires i <= |s|
    ensures i <= k <= |s|
    ensures forall j :: i <= j < k ==> IsWordChar(s[j])
    ensures k == |s| || !IsWordChar(s[k])
    decreases |s| - i
  {
    if i < |s| && IsWordChar(s[i]) then WordEnd(s, i + 1) else i
  }

  /** The pattern matches at `i`: the marker, optional whitespace, then at
      least one word character. Whitespace and word characters are
      disjoint, so backtracking over `\s*` cannot find another match. */
  predicate TagAt(s: string, i: nat) {
    OccursAt(s, TagMarker, i)
    && var k := SkipSpaces(s, i + |TagMarker|);
       k < |s| && IsWordChar(s[k])
  }

  /** The leftmost position at or after `from` where the pattern matches. */
  function FindTag(s: string, from: nat): (r: Option<nat>)
    requires from <= |s|
    ensures r.Some? ==> from <= r.value && TagAt(s, r.value)
    ensures r.Some? ==> forall j :: from <= j < r.value ==> !TagAt(s, j)
    ensures r.None? ==> forall j :: from <= j ==> !TagAt(s, j)
    decreases |s| - from
  {
    if from + |TagMarker| > |s| then None
    else if TagAt(s, from) then Some(from)
    else FindTag(s, from + 1)
  }

  /** `tipo.group(1)`: the whole run of word characters after the leftmost
      match. */
  function TagOf(line: string): Option<string> {
    var p := FindTag(line, 0);
    if p.Some? then
      var k := SkipSpaces(line, p.value + |TagMarker|);
      Some(line[k..WordEnd(line, k)])
    else None
  }

  /** A line has a tag if and only if the pattern matches somewhere in it. */
  lemma TagOfFound(line: string)
    ensures TagOf(line).Some? <==> exists i :: TagAt(line, i)
  {
    var p := FindTag(line, 0);
    if p.None? {
      assert forall i :: !TagAt(line, i);
    }
  }

  /** A tag is a non-empty run of word characters. */
  lemma TagOfShape(line: string)
    requires TagOf(line).Some?
    ensures TagOf(line).value != []
    ensures forall j :: 0 <= j < |TagOf(line).value| ==> IsWordChar(TagOf(line).value[j])
  {
    var i := FindTag(line, 0).value;
    var k := SkipSpaces(line, i + |TagMarker|);
    TagRun(line, k, WordEnd(line, k));
  }

  /** The tag starts right after the leftmost match of the marker and the
      whitespace that follows it, and runs to the end of the word, so it
      cannot be extended either way. */
  lemma TagOfPlace(line: string)
    requires TagOf(line).Some?
    ensures exists i: nat, k: nat :: TagPlace(line, i, k, TagOf(line).value)
  {
    var i := FindTag(line, 0).value;
    var k := SkipSpaces(line, i + |TagMarker|);
    var e := WordEnd(line, k);
    TagRun(line, k, e);
    assert TagPlace(line, i, k, line[k..e]);
  }

  /** `tag` is the group of a match at `i`, the leftmost one, that skipped
      whitespace up to `k`. */
  predicate TagPlace(line: string, i: nat, k: nat, tag: string) {
    && TagAt(line, i) && (forall j :: 0 <= j < i ==> !TagAt(line, j))
    && OccursAt(line, tag, k) && i + |TagMarker| <= k
    && (forall j :: i + |TagMarker| <= j < k ==> IsSpace(line[j]))
    && (k + |tag| == |line| || !IsWordChar(line[k + |tag|]))
  }

  /** Only the first word after the marker is the tag. */
  lemma TagOfFirstWord()
    ensures TagOf("TipoError: abc def") == Some("abc")
  {
    var line := "TipoError: abc def";
    assert OccursAt(line, TagMarker, 0);
    assert SkipSpaces(line, 10) == 11;
    assert WordEnd(line, 11) == 14;
    assert TagAt(line, 0);
    assert FindTag(line, 0) == Some(0);
    assert line[11..14] == "abc";
  }

  lemma TagRun(line: string, k: nat, e: nat)
    requires k <= e <= |line|
    requires forall j :: k <= j < e ==> IsWordChar(line[j])
    ensures forall j :: 0 <= j < |line[k..e]| ==> IsWordChar(line[k..e][j])
    ensures OccursAt(line, line[k..e], k)
  {
    assert forall j :: 0 <= j < e - k ==> line[k..e][j] == line[k + j];
  }

  /** The tags of the error lines that have one, in order. */
  function Tags(errors: seq<string>): seq<string> {
    if errors == [] then []
    else
      var t := TagOf(errors[|errors| - 1]);
      Tags(errors[..|errors| - 1]) + (if t.Some? then [t.value] else [])
  }

  lemma TagsSnoc(errors: seq<string>, e: string)
    ensures Tags(errors + [e]) == Tags(errors) + (if TagOf(e).Some? then [TagOf(e).value] else [])
  {
    SnocInit(errors, e);
  }

  /** At most one tag per error line, and a key is a tag if and only if
      some error line carries it. */
  lemma {:induction false} TagsFromLines(errors: seq<string>)
    ensures |Tags(errors)| <= |errors|
    ensures forall t :: t in Tags(errors) <==> exists e :: e in errors && TagOf(e) == Some(t)
  {
    if errors != [] {
      var init := errors[..|errors| - 1];
      var last := errors[|errors| - 1];
      InitLast(errors);
      TagsFromLines(init);
      forall t ensures t in Tags(errors) <==> exists e :: e in errors && TagOf(e) == Some(t) {
        if t in Tags(errors) && t !in Tags(init) {
          assert last in errors && TagOf(last) == Some(t);
        }
        if exists e :: e in errors && TagOf(e) == Some(t) {
          var e :| e in errors && TagOf(e) == Some(t);
          assert e in init || e == last;
        }
      }
    }
  }

  /** `clasificar_errores`: counts the tags of the error lines in a
      dictionary, a new tag entering with count 0 and then rising by 1. */
  method ClassifyErrors(errors: seq<string>) returns (classification: Counter)
    ensures classification == CountKeys(Tags(errors))
  {
    classification := [];
    var i := 0;
    TakeNone(errors);
    while i < |errors|
      invariant 0 <= i <= |errors|
      invariant classification == CountKeys(Tags(errors[..i]))
    {
      var error := errors[i];
      PrefixStep(errors, i);
      TagsSnoc(errors[..i], error);
      var tag := TagOf(error);
      if tag.Some? {
        CountKeysSnoc(Tags(errors[..i]), tag.value);
        classification := Inc(classification, tag.value);
      } else {
        AppendEmpty(Tags(errors[..i]));
      }
      i := i + 1;
    }
    TakeAll(errors);
  }

  /** Every count is at least 1, each tag is counted as often as it occurs,
      and the counts total the number of error lines with a tag, which is at
      most the number of error lines. */
  lemma ClassificationCounts(errors: seq<string>)
    ensures Valid(CountKeys(Tags(errors)))
    ensures forall t :: Get(CountKeys(Tags(errors)), t) == multiset(Tags(errors))[t]
    ensures Sum(CountKeys(Tags(errors))) == |Tags(errors)| <= |errors|
    ensures forall t :: t in Keys(CountKeys(Tags(errors))) <==> exists e :: e in errors && TagOf(e) == Some(t)
  {
    CountKeysCounts(Tags(errors));
    TagsFromLines(errors);
  }
}
