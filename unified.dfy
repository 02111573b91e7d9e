/** The unified analysis of application logs (`analisis_unificado.py`).

    A log file is a sequence of physical lines without their terminators. A
    line that begins with a timestamp `DD/DD/DDDD DD:DD:DD.DDD` starts a new
    logical record; any other line continues the record being buffered. Each
    logical record is its buffered lines joined with single spaces; it is
    split on `|`, its fifth field (index 4) is its state, and `ERR` records
    are kept and counted per box (index 5). */
module UnifiedAnalysis {
  import opened Text
  import opened Counters
  import opened Wrappers
  import opened Sequences

  // ---------------------------------------------------------------------
  // The record-start test (REGEX_FECHA)

  /** `^\d{2}/\d{2}/\d{4} \d{2}:\d{2}:\d{2}\.\d{3}`, `#` standing for a digit. */
  const TimestampPattern: string := "##/##/#### ##:##:##.###"

  /** `REGEX_FECHA.match(line)`: a lexical match anchored at the start. */
  predicate IsRecordStart(line: string) {
    FitsTemplate(line, TimestampPattern)
  }

  /** Only the first 23 characters decide, and what follows them is
      irrelevant. */
  lemma RecordStartPrefixOnly(line: string, rest: string)
    ensures IsRecordStart(line) <==> |line| >= 23 && IsRecordStart(line[..23])
    ensures IsRecordStart(line) ==> IsRecordStart(line + rest)
  {
    assert |TimestampPattern| == 23;
    if |line| >= 23 {
      assert forall i :: 0 <= i < 23 ==> line[..23][i] == line[i];
    }
    if IsRecordStart(line) {
      assert forall i :: 0 <= i < 23 ==> (line + rest)[i] == line[i];
    }
  }

  /** No calendar check: month 13, day 40 and hour 99 still start a record,
      and so does a timestamp followed by anything. */
  lemma RecordStartIsNotDateValidation()
    ensures IsRecordStart("13/40/9999 99:99:99.999")
    ensures IsRecordStart("01/01/2024 12:00:00.000 | a | b")
  {
  }

  /** Three millisecond digits are required, and a letter where a digit
      belongs is no timestamp. */
  lemma RecordStartNeedsFullPattern()
    ensures !IsRecordStart("01/01/2024 12:00:00.00")
    ensures !IsRecordStart("0a/01/2024 12:00:00.000")
  {
    assert !CharFits("0a/01/2024 12:00:00.000"[1], TimestampPattern[1]);
  }

  // ---------------------------------------------------------------------
  // Reassembly: the buffers one file flushes

  /** The buffers flushed for `lines`, in order; the last one is the buffer
      still open after the last line, flushed at end of file. A record start
      opens a new buffer, a continuation joins the open one, and a
      continuation with no open buffer is dropped. */
  function Groups(lines: seq<string>): seq<seq<string>> {
    if lines == [] then []
    else
      var gs := Groups(lines[..|lines| - 1]);
      var line := lines[|lines| - 1];
      if IsRecordStart(line) then gs + [[line]]
      else if gs == [] then gs
      else gs[..|gs| - 1] + [gs[|gs| - 1] + [line]]
  }

  /** A buffer starts with a record-start line and holds no other one. */
  predicate WellFormedGroup(g: seq<string>) {
    |g| >= 1 && IsRecordStart(g[0]) && forall j :: 1 <= j < |g| ==> !IsRecordStart(g[j])
  }

  /** Buffer invariant: every flushed buffer is one record-start line
      followed by continuation lines only. */
  lemma {:induction false} GroupsWellFormed(lines: seq<string>)
    ensures forall k :: 0 <= k < |Groups(lines)| ==> WellFormedGroup(Groups(lines)[k])
  {
    if lines != [] {
      GroupsWellFormed(lines[..|lines| - 1]);
    }
  }

  /** Number of record-start lines. */
  function CountStarts(lines: seq<string>): nat {
    if lines == [] then 0
    else CountStarts(lines[..|lines| - 1]) + (if IsRecordStart(lines[|lines| - 1]) then 1 else 0)
  }

  /** One flush per record-start line, the end-of-file flush included. */
  lemma {:induction false} GroupsCount(lines: seq<string>)
    ensures |Groups(lines)| == CountStarts(lines)
  {
    if lines != [] {
      GroupsCount(lines[..|lines| - 1]);
    }
  }

  /** The lines of the groups, in order. */
  function Flatten(gs: seq<seq<string>>): seq<string> {
    if gs == [] then [] else Flatten(gs[..|gs| - 1]) + gs[|gs| - 1]
  }

  lemma FlattenSnoc(gs: seq<seq<string>>, g: seq<string>)
    ensures Flatten(gs + [g]) == Flatten(gs) + g
  {
    SnocInit(gs, g);
  }

  /** The lines of the buffers, one after the other. */
  function Grouped(lines: seq<string>): seq<string> {
    Flatten(Groups(lines))
  }

  /** One more line either joins the grouped lines or, for want of an open
      buffer, is dropped while nothing is grouped yet. */
  lemma GroupedStep(lines: seq<string>)
    requires lines != []
    ensures var init := lines[..|lines| - 1];
      if IsRecordStart(lines[|lines| - 1]) || Groups(init) != []
      then Grouped(lines) == Grouped(init) + [lines[|lines| - 1]]
      else Grouped(lines) == [] && Grouped(init) == []
  {
    var init := lines[..|lines| - 1];
    var line := lines[|lines| - 1];
    var gs := Groups(init);
    if IsRecordStart(line) {
      FlattenSnoc(gs, [line]);
    } else if gs != [] {
      var front := gs[..|gs| - 1];
      var last := gs[|gs| - 1];
      FlattenSnoc(front, last + [line]);
      AppendAssoc(Flatten(front), last, [line]);
    }
  }

  /** Reassembly loses and reorders nothing after the first record start:
      the buffers, concatenated, are a suffix of the file, and every line
      before that suffix is a continuation line (dropped for want of an open
      buffer). */
  lemma {:induction false} GroupsCoverSuffix(lines: seq<string>)
    ensures |Grouped(lines)| <= |lines|
    ensures Grouped(lines) == lines[|lines| - |Grouped(lines)|..]
    ensures forall i :: 0 <= i < |lines| - |Grouped(lines)| ==> !IsRecordStart(lines[i])
  {
    if lines != [] {
      var init := lines[..|lines| - 1];
      GroupsCoverSuffix(init);
      GroupedStep(lines);
      var n := |Grouped(init)|;
      assert forall i :: 0 <= i < |init| ==> lines[i] == init[i];
      if IsRecordStart(lines[|lines| - 1]) || Groups(init) != [] {
        SuffixOfInit(lines, n);
      } else {
        SuffixAll(lines);
      }
    }
  }

  lemma {:induction false} NoRecordStartCountsZero(lines: seq<string>)
    requires forall i :: 0 <= i < |lines| ==> !IsRecordStart(lines[i])
    ensures CountStarts(lines) == 0
  {
    if lines != [] {
      NoRecordStartCountsZero(lines[..|lines| - 1]);
    }
  }

  // ---------------------------------------------------------------------
  // Logical records

  /** `' '.join(buffer)` for each flushed buffer, in flush order. */
  function JoinGroups(gs: seq<seq<string>>): (rs: seq<string>)
    ensures |rs| == |gs|
  {
    if gs == [] then [] else JoinGroups(gs[..|gs| - 1]) + [Join(gs[|gs| - 1], ' ')]
  }

  /** The logical records of one file, in file order. */
  function Records(lines: seq<string>): seq<string> {
    JoinGroups(Groups(lines))
  }

  /** One flush per record-start line: a file yields as many records as it
      has record-start lines. */
  lemma RecordsCount(lines: seq<string>)
    ensures |Records(lines)| == CountStarts(lines)
  {
    GroupsCount(lines);
  }

  /** A file without any record-start line yields no record. */
  lemma NoRecordStartNoRecords(lines: seq<string>)
    requires forall i :: 0 <= i < |lines| ==> !IsRecordStart(lines[i])
    ensures Records(lines) == []
  {
    NoRecordStartCountsZero(lines);
    GroupsCount(lines);
  }

  /** The logical records of a run: each file's records, file after file. */
  function AllRecords(files: seq<seq<string>>): seq<string> {
    if files == [] then [] else AllRecords(files[..|files| - 1]) + Records(files[|files| - 1])
  }

  // ---------------------------------------------------------------------
  // Fields of a record

  /** The fields of a record (`linea_completa.split('|')`). */
  function Fields(record: string): seq<string> {
    Split(record, '|')
  }

  /** The state read from the fields of a record: the stripped fifth field
      when there are more than five fields. */
  function FieldsState(parts: seq<string>): Option<string> {
    if |parts| > 5 then Some(Strip(parts[4])) else None
  }

  /** The box read from the fields of an `ERR` record with more than six
      fields: the stripped sixth field. */
  function FieldsBox(parts: seq<string>): Option<string> {
    if FieldsState(parts) == Some("ERR") && |parts| > 6 then Some(Strip(parts[5])) else None
  }

  /** The state of a record with more than five fields. */
  function StateOf(record: string): Option<string> {
    FieldsState(Fields(record))
  }

  /** The box of an `ERR` record with more than six fields. */
  function BoxOf(record: string): Option<string> {
    FieldsBox(Fields(record))
  }

  /** The record itself if its state is `ERR`. */
  function KeptRecord(record: string): Option<string> {
    if StateOf(record) == Some("ERR") then Some(record) else None
  }

  function OptionToSeq(o: Option<string>): seq<string> {
    if o.Some? then [o.value] else []
  }

  /** The values `f` yields for the records `rs`, in order, records for
      which it yields nothing skipped. */
  function Collect(rs: seq<string>, f: string -> Option<string>): seq<string> {
    if rs == [] then [] else OptionToSeq(f(rs[0])) + Collect(rs[1..], f)
  }

  lemma {:induction false} CollectAppend(a: seq<string>, b: seq<string>, f: string -> Option<string>)
    ensures Collect(a + b, f) == Collect(a, f) + Collect(b, f)
  {
    if a == [] {
      AppendEmpty(b);
      AppendEmpty(Collect(b, f));
    } else {
      CollectAppend(a[1..], b, f);
      ConsTail(a, b);
      AppendAssoc(OptionToSeq(f(a[0])), Collect(a[1..], f), Collect(b, f));
    }
  }

  lemma CollectSnoc(rs: seq<string>, r: string, f: string -> Option<string>)
    ensures Collect(rs + [r], f) == Collect(rs, f) + OptionToSeq(f(r))
  {
    CollectAppend(rs, [r], f);
    AppendEmpty(OptionToSeq(f(r)));
    assert Collect([r], f) == OptionToSeq(f(r)) + Collect([], f);
  }

  /** The states counted for `rs`, in order. */
  function StateKeys(rs: seq<string>): seq<string> {
    Collect(rs, StateOf)
  }

  /** The records kept as errors, in order. */
  function ErrorRecords(rs: seq<string>): seq<string> {
    Collect(rs, KeptRecord)
  }

  /** The boxes counted for `rs`, in order. */
  function BoxKeys(rs: seq<string>): seq<string> {
    Collect(rs, BoxOf)
  }

  /** What `analizar_logs` returns: `total_estados`, `errores` and
      `errores_por_caja`. */
  datatype Summary = Summary(states: Counter, errors: seq<string>, byBox: Counter)

  function Summarize(rs: seq<string>): Summary {
    Summary(CountKeys(StateKeys(rs)), ErrorRecords(rs), CountKeys(BoxKeys(rs)))
  }

  /** Appending a record adds its own contribution to each accumulator. */
  lemma SummarizeSnoc(rs: seq<string>, r: string)
    ensures StateKeys(rs + [r]) == StateKeys(rs) + OptionToSeq(StateOf(r))
    ensures ErrorRecords(rs + [r]) == ErrorRecords(rs) + OptionToSeq(KeptRecord(r))
    ensures BoxKeys(rs + [r]) == BoxKeys(rs) + OptionToSeq(BoxOf(r))
    ensures StateOf(r) == None ==> StateKeys(rs + [r]) == StateKeys(rs)
    ensures KeptRecord(r) == None ==> ErrorRecords(rs + [r]) == ErrorRecords(rs)
    ensures BoxOf(r) == None ==> BoxKeys(rs + [r]) == BoxKeys(rs)
  {
    CollectSnoc(rs, r, StateOf);
    CollectSnoc(rs, r, KeptRecord);
    CollectSnoc(rs, r, BoxOf);
    AppendEmpty(StateKeys(rs));
    AppendEmpty(ErrorRecords(rs));
    AppendEmpty(BoxKeys(rs));
  }

  // ---------------------------------------------------------------------
  // analizar_logs

  /** Flushes one buffer into the three accumulators. */
  method Flush(buffer: seq<string>, totals: Counter, errors: seq<string>, byBox: Counter, ghost before: seq<string>)
    returns (totals': Counter, errors': seq<string>, byBox': Counter)
    requires Summary(totals, errors, byBox) == Summarize(before)
    ensures Summary(totals', errors', byBox') == Summarize(before + [Join(buffer, ' ')])
  {
    var record := Join(buffer, ' ');
    var parts := Split(record, '|');
    SummarizeSnoc(before, record);
    totals', errors', byBox' := totals, errors, byBox;
    if |parts| > 5 {
      var state := Strip(parts[4]);
      CountKeysSnoc(StateKeys(before), state);
      totals' := Inc(totals', state);
      if state == "ERR" {
        errors' := errors' + [record];
        if |parts| > 6 {
          var box := Strip(parts[5]);
          CountKeysSnoc(BoxKeys(before), box);
          byBox' := Inc(byBox', box);
        }
      }
    }
  }

  /** The state of the pass over one file after some of its lines: the
      records flushed so far and the open buffer (`buffer`). */
  datatype ScanState = ScanState(done: seq<string>, buffer: seq<string>)

  /** The record a non-empty buffer flushes, as a list of at most one. */
  function Pending(buffer: seq<string>): seq<string> {
    if buffer == [] then [] else [Join(buffer, ' ')]
  }

  /** The pass over `lines`, one line at a time, from an empty buffer: a
      record start flushes a non-empty buffer and opens a new one, a
      continuation joins a non-empty buffer and is dropped otherwise. */
  function Scan(lines: seq<string>): ScanState {
    if lines == [] then ScanState([], [])
    else
      var st := Scan(lines[..|lines| - 1]);
      var line := lines[|lines| - 1];
      if IsRecordStart(line) then ScanState(st.done + Pending(st.buffer), [line])
      else if st.buffer == [] then st
      else ScanState(st.done, st.buffer + [line])
  }

  /** The records flushed by the pass, the end-of-file flush included. */
  function ScanRecords(lines: seq<string>): seq<string> {
    Scan(lines).done + Pending(Scan(lines).buffer)
  }

  /** The pass keeps, as its open buffer, the last group, and has flushed
      the others. */
  lemma {:induction false} ScanGroups(lines: seq<string>)
    ensures Scan(lines).buffer == [] <==> Groups(lines) == []
    ensures Groups(lines) == [] ==> Scan(lines).done == []
    ensures Groups(lines) != [] ==>
      && Scan(lines).buffer == Groups(lines)[|Groups(lines)| - 1]
      && Scan(lines).done == JoinGroups(Groups(lines)[..|Groups(lines)| - 1])
  {
    if lines != [] {
      var init := lines[..|lines| - 1];
      var line := lines[|lines| - 1];
      var gs := Groups(init);
      ScanGroups(init);
      if IsRecordStart(line) {
        SnocInit(gs, [line]);
        AppendEmpty(Scan(init).done);
      } else if gs != [] {
        SnocInit(gs[..|gs| - 1], gs[|gs| - 1] + [line]);
      }
    }
  }

  /** The pass flushes exactly the records of the file. */
  lemma ScanRecordsAreRecords(lines: seq<string>)
    ensures ScanRecords(lines) == Records(lines)
  {
    ScanGroups(lines);
    AppendEmpty(Scan(lines).done);
  }

  lemma ScanEmpty(lines: seq<string>, before: seq<string>)
    ensures Scan(lines[..0]) == ScanState([], [])
    ensures before + Scan(lines[..0]).done == before
  {
    TakeNone(lines);
    AppendEmpty(before);
  }

  /** One line of the pass in terms of the records flushed so far. */
  lemma ScanStep(lines: seq<string>, i: nat, before: seq<string>)
    requires i < |lines|
    ensures var st := Scan(lines[..i]);
      && (IsRecordStart(lines[i]) && st.buffer != [] ==>
            before + Scan(lines[..i + 1]).done == (before + st.done) + [Join(st.buffer, ' ')])
      && (!(IsRecordStart(lines[i]) && st.buffer != []) ==>
            before + Scan(lines[..i + 1]).done == before + st.done)
      && Scan(lines[..i + 1]).buffer ==
           if IsRecordStart(lines[i]) then [lines[i]]
           else if st.buffer == [] then []
           else st.buffer + [lines[i]]
  {
    PrefixStep(lines, i);
    var st := Scan(lines[..i]);
    AppendAssoc(before, st.done, Pending(st.buffer));
    AppendEmpty(st.done);
  }

  /** The end-of-file flush completes the records of the file. */
  lemma ScanEnd(lines: seq<string>, i: nat, before: seq<string>)
    requires i == |lines|
    ensures var st := Scan(lines[..i]);
      && (st.buffer != [] ==> before + Records(lines) == (before + st.done) + [Join(st.buffer, ' ')])
      && (st.buffer == [] ==> before + Records(lines) == before + st.done)
  {
    TakeAll(lines);
    ScanRecordsAreRecords(lines);
    var st := Scan(lines);
    AppendAssoc(before, st.done, Pending(st.buffer));
    AppendEmpty(st.done);
  }

  /** The body of the `for archivo_log in archivos_log` loop: one forward
      pass over one file with a fresh buffer, flushing at every record start
      and once more at end of file. */
  method AnalyzeFile(lines: seq<string>, totals: Counter, errors: seq<string>, byBox: Counter, ghost before: seq<string>)
    returns (totals': Counter, errors': seq<string>, byBox': Counter)
    requires Summary(totals, errors, byBox) == Summarize(before)
    ensures Summary(totals', errors', byBox') == Summarize(before + Records(lines))
  {
    totals', errors', byBox' := totals, errors, byBox;
    var buffer: seq<string> := [];
    ghost var rs := before;
    var i := 0;
    ScanEmpty(lines, before);
    while i < |lines|
      invariant 0 <= i <= |lines|
      invariant buffer == Scan(lines[..i]).buffer
      invariant rs == before + Scan(lines[..i]).done
      invariant Summary(totals', errors', byBox') == Summarize(rs)
    {
      var line := lines[i];
      ScanStep(lines, i, before);
      if IsRecordStart(line) {
        if buffer != [] {
          totals', errors', byBox' := Flush(buffer, totals', errors', byBox', rs);
          rs := rs + [Join(buffer, ' ')];
        }
        buffer := [line];
      } else if buffer != [] {
        buffer := buffer + [line];
      }
      i := i + 1;
    }
    ScanEnd(lines, i, before);
    if buffer != [] {
      totals', errors', byBox' := Flush(buffer, totals', errors', byBox', rs);
      rs := rs + [Join(buffer, ' ')];
    }
  }

  /** `analizar_logs`: the files one after the other; the counters and the
      error list accumulate across files. */
  method AnalyzeLogs(files: seq<seq<string>>) returns (totals: Counter, errors: seq<string>, byBox: Counter)
    ensures Summary(totals, errors, byBox) == Summarize(AllRecords(files))
  {
    totals, errors, byBox := [], [], [];
    var f := 0;
    TakeNone(files);
    while f < |files|
      invariant 0 <= f <= |files|
      invariant Summary(totals, errors, byBox) == Summarize(AllRecords(files[..f]))
    {
      totals, errors, byBox := AnalyzeFile(files[f], totals, errors, byBox, AllRecords(files[..f]));
      PrefixStep(files, f);
      f := f + 1;
    }
    TakeAll(files);
  }

  // ---------------------------------------------------------------------
  // What the accumulators hold

  /** A run without any record-start line leaves every accumulator empty. */
  lemma {:induction false} NoRecordStartEmptySummary(files: seq<seq<string>>)
    requires forall f, i :: 0 <= f < |files| && 0 <= i < |files[f]| ==> !IsRecordStart(files[f][i])
    ensures AllRecords(files) == []
    ensures Summarize(AllRecords(files)) == Summary([], [], [])
  {
    if files != [] {
      NoRecordStartEmptySummary(files[..|files| - 1]);
      NoRecordStartNoRecords(files[|files| - 1]);
    }
  }

  /** The counters of a run are the sums of the counters of its parts, and
      its error list is theirs one after the other: counts accumulate across
      files and never decrease. */
  lemma CountsAccumulate(a: seq<string>, b: seq<string>, k: string)
    ensures Get(Summarize(a + b).states, k) == Get(Summarize(a).states, k) + Get(Summarize(b).states, k)
    ensures Get(Summarize(a + b).byBox, k) == Get(Summarize(a).byBox, k) + Get(Summarize(b).byBox, k)
    ensures Summarize(a + b).errors == Summarize(a).errors + Summarize(b).errors
  {
    CollectAppend(a, b, StateOf);
    CollectAppend(a, b, KeptRecord);
    CollectAppend(a, b, BoxOf);
    CountKeysCounts(StateKeys(a + b));
    CountKeysCounts(StateKeys(a));
    CountKeysCounts(StateKeys(b));
    CountKeysCounts(BoxKeys(a + b));
    CountKeysCounts(BoxKeys(a));
    CountKeysCounts(BoxKeys(b));
  }

  /** What one flushed record does to the state counter and the error
      list: with five fields or fewer nothing changes; otherwise exactly its
      stripped fifth field rises by one, and the record is kept if and only
      if that state is `ERR`. */
  lemma RecordEffectOnStates(rs: seq<string>, r: string, k: string)
    ensures Get(Summarize(rs + [r]).states, k) ==
      Get(Summarize(rs).states, k) + (if |Fields(r)| > 5 && k == Strip(Fields(r)[4]) then 1 else 0)
    ensures Summarize(rs + [r]).errors ==
      Summarize(rs).errors + (if |Fields(r)| > 5 && Strip(Fields(r)[4]) == "ERR" then [r] else [])
  {
    SummarizeSnoc(rs, r);
    if |Fields(r)| > 5 {
      CountKeysSnoc(StateKeys(rs), Strip(Fields(r)[4]));
    }
  }

  /** What one flushed record does to the box counter: its stripped sixth
      field rises by one if it is an `ERR` record with more than six fields,
      and nothing changes otherwise. */
  lemma RecordEffectOnBoxes(rs: seq<string>, r: string, k: string)
    ensures Get(Summarize(rs + [r]).byBox, k) ==
      Get(Summarize(rs).byBox, k)
      + (if |Fields(r)| > 6 && Strip(Fields(r)[4]) == "ERR" && k == Strip(Fields(r)[5]) then 1 else 0)
  {
    SummarizeSnoc(rs, r);
    if |Fields(r)| > 6 && Strip(Fields(r)[4]) == "ERR" {
      CountKeysSnoc(BoxKeys(rs), Strip(Fields(r)[5]));
    }
  }

  /** A record with five fields or fewer changes nothing at all. */
  lemma ShortRecordNoEffect(rs: seq<string>, r: string)
    requires |Fields(r)| <= 5
    ensures Summarize(rs + [r]) == Summarize(rs)
  {
    SummarizeSnoc(rs, r);
  }

  lemma {:induction false} ErrStateCount(rs: seq<string>)
    ensures multiset(StateKeys(rs))["ERR"] == |ErrorRecords(rs)|
  {
    if rs != [] {
      ErrStateCount(rs[1..]);
    }
  }

  /** `len(errores) == total_estados['ERR']`. */
  lemma ErrorsMatchErrCount(rs: seq<string>)
    ensures |Summarize(rs).errors| == Get(Summarize(rs).states, "ERR")
  {
    ErrStateCount(rs);
    CountKeysCounts(StateKeys(rs));
  }

  /** A record is kept if and only if it is one of the records and its state
      is `ERR`. */
  lemma {:induction false} ErrorRecordsIff(rs: seq<string>)
    ensures forall r :: r in ErrorRecords(rs) <==> r in rs && StateOf(r) == Some("ERR")
  {
    if rs != [] {
      ErrorRecordsIff(rs[1..]);
      forall r ensures r in rs <==> r == rs[0] || r in rs[1..] {
        InCons(rs, r);
      }
    }
  }

  lemma {:induction false} BoxKeysBound(rs: seq<string>)
    ensures |BoxKeys(rs)| <= |ErrorRecords(rs)|
  {
    if rs != [] {
      BoxKeysBound(rs[1..]);
    }
  }

  /** Every box count comes from a kept error, so the box counts total at
      most the number of kept errors. */
  lemma BoxTotalAtMostErrors(rs: seq<string>)
    ensures Sum(Summarize(rs).byBox) <= |Summarize(rs).errors|
    ensures Sum(Summarize(rs).byBox) <= Get(Summarize(rs).states, "ERR")
  {
    BoxKeysBound(rs);
    CountKeysCounts(BoxKeys(rs));
    ErrorsMatchErrCount(rs);
  }

  // ---------------------------------------------------------------------
  // The rows of errores_completos.csv and the box ranking

  /** `[p.strip() for p in parts]`. */
  function StripAll(parts: seq<string>): (r: seq<string>)
    ensures |r| == |parts|
  {
    if parts == [] then [] else [Strip(parts[0])] + StripAll(parts[1..])
  }

  lemma {:induction false} StripAllAt(parts: seq<string>)
    ensures forall i :: 0 <= i < |parts| ==> StripAll(parts)[i] == Strip(parts[i])
  {
    if parts != [] {
      StripAllAt(parts[1..]);
    }
  }

  lemma {:induction false} StripAllIndex(parts: seq<string>, i: nat)
    requires i < |parts|
    ensures StripAll(parts)[i] == Strip(parts[i])
  {
    if i > 0 {
      StripAllIndex(parts[1..], i - 1);
    }
  }

  /** The stripped fields of a record. */
  function StrippedFields(record: string): seq<string> {
    StripAll(Fields(record))
  }

  /** The header row of `errores_completos.csv`. */
  const ErrorHeader: seq<string> := ["Fecha", "Estado", "Caja", "Modulo", "Flujo", "Mensaje"]

  /** `parts[i] if len(parts) > i else ''`. */
  function Column(parts: seq<string>, i: nat): string {
    if i < |parts| then parts[i] else ""
  }

  /** The six-column row written for a kept record from its stripped
      fields: date, state, box, module, flow, and the message, which is
      every field from the ninth on joined back with `|`. */
  function RowOf(parts: seq<string>): (row: seq<string>)
    ensures |row| == |ErrorHeader|
  {
    if |parts| > 8 then [parts[0], parts[4], parts[5], parts[6], parts[7], Join(parts[8..], '|')]
    else [Column(parts, 0), Column(parts, 4), Column(parts, 5), Column(parts, 6), Column(parts, 7), ""]
  }

  function ErrorRow(record: string): (row: seq<string>)
    ensures |row| == |ErrorHeader|
  {
    RowOf(StrippedFields(record))
  }

  /** The field positions the first five columns come from. */
  const RowSources: seq<nat> := [0, 4, 5, 6, 7]

  /** Both branches follow one rule: column `c` (for `c < 5`) is field
      `RowSources[c]` or `''` when there are too few fields, and the message
      is the rejoined tail, empty when there is no ninth field. */
  lemma RowOfColumns(parts: seq<string>)
    ensures forall c :: 0 <= c < 5 ==> RowOf(parts)[c] == Column(parts, RowSources[c])
    ensures RowOf(parts)[5] == if |parts| > 8 then Join(parts[8..], '|') else ""
  {
  }

  lemma ErrorRowColumns(record: string)
    ensures forall c :: 0 <= c < 5 ==> ErrorRow(record)[c] == Column(StrippedFields(record), RowSources[c])
    ensures ErrorRow(record)[5] ==
      if |Fields(record)| > 8 then Join(StrippedFields(record)[8..], '|') else ""
  {
    RowOfColumns(StrippedFields(record));
  }

  /** Stripping adds no character. */
  lemma {:induction false} StripAllKeepsOut(parts: seq<string>, ch: char)
    requires forall i :: 0 <= i < |parts| ==> ch !in parts[i]
    ensures forall i :: 0 <= i < |parts| ==> ch !in StripAll(parts)[i]
  {
    if parts != [] {
      StripAllKeepsOut(parts[1..], ch);
      assert StripAll(parts)[1..] == StripAll(parts[1..]);
    }
  }

  lemma StrippedFieldsHaveNoBar(record: string)
    ensures |StrippedFields(record)| == |Fields(record)| >= 1
    ensures forall i :: 0 <= i < |StrippedFields(record)| ==> '|' !in StrippedFields(record)[i]
  {
    StripAllKeepsOut(Fields(record), '|');
  }

  /** The message column loses nothing: splitting it on `|` gives back the
      stripped fields from the ninth on. */
  lemma MessageRoundTrip(record: string)
    requires |Fields(record)| > 8
    ensures Split(ErrorRow(record)[5], '|') == StrippedFields(record)[8..]
  {
    var parts := StrippedFields(record);
    StrippedFieldsHaveNoBar(record);
    assert forall i :: 0 <= i < |parts[8..]| ==> parts[8..][i] == parts[i + 8];
    SplitJoin(parts[8..], '|');
  }

  /** The state and box columns of a kept record are the state and box the
      counters used. */
  lemma ErrorRowState(record: string)
    ensures StateOf(record).Some? ==> ErrorRow(record)[1] == StateOf(record).value
    ensures KeptRecord(record).Some? ==> ErrorRow(record)[1] == "ERR"
  {
    RowOfState(Fields(record));
  }

  lemma ErrorRowBox(record: string)
    ensures BoxOf(record).Some? ==> ErrorRow(record)[2] == BoxOf(record).value
  {
    RowOfBox(Fields(record));
  }

  lemma RowOfState(fs: seq<string>)
    ensures FieldsState(fs).Some? ==> RowOf(StripAll(fs))[1] == FieldsState(fs).value
  {
    if |fs| > 5 {
      var ps := StripAll(fs);
      StripAllIndex(fs, 4);
      RowOfColumns(ps);
      assert RowOf(ps)[1] == Column(ps, RowSources[1]) == ps[4];
    }
  }

  lemma RowOfBox(fs: seq<string>)
    ensures FieldsBox(fs).Some? ==> RowOf(StripAll(fs))[2] == FieldsBox(fs).value
  {
    if |fs| > 6 {
      var ps := StripAll(fs);
      StripAllIndex(fs, 5);
      RowOfColumns(ps);
      assert RowOf(ps)[2] == Column(ps, RowSources[2]) == ps[5];
    }
  }

  /** The date column never holds a `|`. */
  lemma ErrorRowDateHasNoBar(record: string)
    ensures '|' !in ErrorRow(record)[0]
  {
    StrippedFieldsHaveNoBar(record);
  }

  /** One row per kept record, in order. */
  function ErrorRows(errors: seq<string>): (rows: seq<seq<string>>)
    ensures |rows| == |errors|
  {
    if errors == [] then [] else [ErrorRow(errors[0])] + ErrorRows(errors[1..])
  }

  lemma {:induction false} ErrorRowsAt(errors: seq<string>)
    ensures forall i :: 0 <= i < |errors| ==> ErrorRows(errors)[i] == ErrorRow(errors[i])
  {
    if errors != [] {
      ErrorRowsAt(errors[1..]);
    }
  }

  /** `errores_completos.csv` as rows: the header, then one row per kept
      record, in order. */
  function ErrorTable(errors: seq<string>): seq<seq<string>> {
    [ErrorHeader] + ErrorRows(errors)
  }

  lemma ErrorTableRows(errors: seq<string>)
    ensures |ErrorTable(errors)| == |errors| + 1 && ErrorTable(errors)[0] == ErrorHeader
    ensures forall i :: 0 <= i < |errors| ==> ErrorTable(errors)[i + 1] == ErrorRow(errors[i])
  {
    ErrorRowsAt(errors);
  }

  /** `sorted(errores_por_caja.items(), key=lambda x: x[1], reverse=True)`:
      every box with its count, largest count first, boxes of equal count in
      the order they were first counted. */
  lemma BoxRanking(rs: seq<string>, k: string, n: nat)
    ensures multiset(SortByCount(Summarize(rs).byBox)) == multiset(Summarize(rs).byBox)
    ensures NonIncreasing(SortByCount(Summarize(rs).byBox))
    ensures Get(SortByCount(Summarize(rs).byBox), k) == Get(Summarize(rs).byBox, k)
    ensures WithCount(SortByCount(Summarize(rs).byBox), n) == WithCount(Summarize(rs).byBox, n)
  {
    CountKeysCounts(BoxKeys(rs));
    SortByCountGet(Summarize(rs).byBox, k);
    SortByCountStable(Summarize(rs).byBox, n);
  }
}
