# AnalisisLog in Dafny

A model of the log-analysis scripts of AnalisisLog, a small tool that reads the
text logs of a retail web application. The log format is pipe-separated:
`date | … | … | … | state | box | module | flow | message`.

- **`analisis_unificado.py`**, `analizar_logs`: one pass per file rebuilds the
  logical records.
  - A line that starts with the timestamp `DD/DD/DDDD DD:DD:DD.DDD` opens a
    record.
  - Any other line continues the open record, or is dropped when no record is
    open.
  - A flushed record is its lines joined with single spaces. It is split on
    `|`. When it has more than five fields, its stripped fifth field is
    counted as its state; a record with five fields or fewer counts nothing.
  - Records in state `ERR` are kept. When such a record has more than six
    fields, its stripped sixth field is also counted per box.
  - The kept records become six-column rows (`Fecha, Estado, Caja, Modulo,
    Flujo, Mensaje`), and the box counts are listed largest first.
  - Module `UnifiedAnalysis`, file `unified.dfy`.
- **`analisis.py`**: each line is an error, an alert or something else. Error
  lines contribute their first `YYYY-MM-DD hh:mm:ss` timestamp and their
  `TipoError:` tag, and the tags are counted. Module `Analysis`.
- **`filtrar_errores.py`**: keeps, stripped and without reassembly, each
  physical line with more than five fields whose stripped fifth field is
  `ERR`. Module `ErrorFilter`.
- **`clasificar_por_caja.py`**: for every non-empty CSV row after the header
  whose first cell has more than six fields, counts the stripped sixth field
  of that cell, then ranks the counts. Module
  `BoxClassifier`.
- **`dashboard.py`**, `agrupar_mensajes`: maps three noisy messages to one
  text each. Module `Dashboard`.

Shared modules:
- `Text`: Python's `split`, `join`, `strip`, `startswith`, `in`, and the
  classes `\d`, `\w`, `\s`.
- `Counters`: insertion-ordered counting dictionaries and the stable
  largest-first sort.
- `Sequences`: generic facts about sequences, and filter-with-map.
- `Wrappers`: `Option` and `Result`.

Conventions:
- A log file is a sequence of lines, and a run over several files is a
  sequence of those.
- The loops that update lists and dictionaries step by step are methods with
  loop invariants. Each one is proved equal to a function over the input, and
  the lemmas state the properties of those functions.

A Python dictionary remembers the order in which its keys were first inserted.
`sorted(..., reverse=True)` is stable, so that order decides how ties are
listed. For this reason a counter is a list of `(key, count)` entries in
insertion order with distinct keys, not a `map`.

`clasificar_por_caja.py` reads the first column of `errores_completos.csv`.
`analisis_unificado.py` writes that file with the date in the first column.
The date never holds a `|`, so on that table nothing is counted
(`BoxClassifier.CountsNothingOnErrorTable`). `filtrar_errores.py` writes a
file with the same name (filtrar_errores.py:23-28): a `Linea de Error` header,
then each kept line, stripped, in a cell of its own. On that table the script
does count. It counts, for each `ERR` line of the log with more than six
fields, that line's stripped sixth field
(`BoxClassifier.CountsOnFilteredTable`). The script is modelled as written.

## Model

| member | source | states |
|---|---|---|
| Text.Join | analisis_unificado.py:33 | definition of `sep.join(parts)`: the pieces with the separator between neighbours; its meaning is stated by `JoinSplit` and `SplitJoin` |
| Text.Split | analisis_unificado.py:34 | splitting on a separator gives one piece more than there are separators, and no piece holds the separator |
| Text.JoinSplit | analisis_unificado.py:33-34 | joining the pieces of a split with the separator gives back the input: splitting loses nothing |
| Text.SplitJoin | analisis_unificado.py:80 | splitting a join of separator-free pieces gives the pieces back |
| Text.Strip | analisis_unificado.py:36 | `strip()` gives the slice of the input left after removing only leading and trailing whitespace: everything before and after it is whitespace, and it has no whitespace at either end |
| Text.StripUnique | analisis_unificado.py:36 | any slice with only whitespace around it and none at its ends is the result of `strip()`, so the contract of `Strip` determines it |
| Text.ContainsIff | analisis.py:15 | the substring test `p in s` holds exactly when `p` occurs at some position of `s` |
| Counters.Inc | analisis_unificado.py:37 | `d[k] += 1` raises key `k` by one, changes no other key, and raises the total by one |
| Counters.IncKeys | analisis.py:41-43 | incrementing keeps the insertion order of existing keys and appends a new key at the end |
| Counters.IncValid | analisis.py:41-43 | incrementing keeps the keys distinct and every count at least 1 |
| Counters.CountKeysOrder | analisis.py:41-43 | the keys of a counter built key by key are the distinct keys counted, in the order of their first occurrence |
| Counters.CountKeysCounts | analisis_unificado.py:20-22 | a counter built key by key holds each key with its number of occurrences, each distinct key once with a count of at least 1, and counts that total the number of keys counted |
| Counters.InsertByCount | analisis_unificado.py:101 | inserting an entry into a list ordered by non-increasing count keeps it ordered and adds exactly that entry |
| Counters.SortByCount | analisis_unificado.py:101 | the ranking is a permutation of the counter entries in non-increasing count order |
| Counters.SortByCountStable | analisis_unificado.py:101 | entries of equal count keep their insertion order, because `sorted` is stable |
| Counters.SortByCountValid | analisis_unificado.py:101 | ranking a counter with distinct keys gives one with distinct keys |
| Counters.SortByCountGet | analisis_unificado.py:101 | ranking changes no key's count |
| UnifiedAnalysis.IsRecordStart | analisis_unificado.py:11 | definition of `REGEX_FECHA.match`: the line begins with `DD/DD/DDDD DD:DD:DD.DDD`; stated by the three lemmas below |
| UnifiedAnalysis.RecordStartPrefixOnly | analisis_unificado.py:11 | the record-start test depends only on the first 23 characters; a line shorter than that is no record start; whatever follows a timestamp is irrelevant |
| UnifiedAnalysis.RecordStartIsNotDateValidation | analisis_unificado.py:11 | month 13, day 40 and hour 99 still start a record: the test is lexical, not a date check |
| UnifiedAnalysis.RecordStartNeedsFullPattern | analisis_unificado.py:11 | a timestamp with two millisecond digits, or with a letter in place of a digit, starts no record |
| UnifiedAnalysis.Groups | analisis_unificado.py:28-47 | definition of the buffers the pass flushes, including the one flushed at end of file; stated by `GroupsWellFormed`, `GroupsCount` and `GroupsCoverSuffix` |
| UnifiedAnalysis.GroupsWellFormed | analisis_unificado.py:31-47 | buffer invariant: every flushed buffer begins with a record-start line and holds no other one |
| UnifiedAnalysis.GroupsCount | analisis_unificado.py:32-48 | there are as many flushes as record-start lines, and the end-of-file flush is one of them |
| UnifiedAnalysis.GroupsCoverSuffix | analisis_unificado.py:45-47 | the buffered lines, concatenated, are a suffix of the file in file order; only the continuation lines before the first record start are dropped |
| UnifiedAnalysis.JoinGroups | analisis_unificado.py:33 | one logical record per flushed buffer |
| UnifiedAnalysis.RecordsCount | analisis_unificado.py:32-49 | a file yields as many logical records as it has record-start lines |
| UnifiedAnalysis.NoRecordStartNoRecords | analisis_unificado.py:45-47 | a file with no record-start line yields no record |
| UnifiedAnalysis.FieldsState | analisis_unificado.py:35-36 | definition of the state of a record: its stripped fifth field when it has more than five fields |
| UnifiedAnalysis.FieldsBox | analisis_unificado.py:38-41 | definition of the box of a record: its stripped sixth field when its state is `ERR` and it has more than six fields |
| UnifiedAnalysis.Summarize | analisis_unificado.py:35-42 | definition of the three results for a list of records; stated by `SummarizeSnoc` and the lemmas from `CountsAccumulate` on |
| UnifiedAnalysis.SummarizeSnoc | analisis_unificado.py:35-42 | a flushed record adds its own contribution to each accumulator and leaves an accumulator unchanged when it contributes nothing there |
| UnifiedAnalysis.Flush | analisis_unificado.py:33-42 | a flush turns the summary of the records so far into the summary of those records plus the buffer joined with spaces |
| UnifiedAnalysis.Scan | analisis_unificado.py:28-47 | definition of the state of the pass, its flushed records and open buffer, after each line; tied to `Groups` by `ScanGroups` |
| UnifiedAnalysis.ScanGroups | analisis_unificado.py:28-47 | after any prefix of the file, the open buffer is the last group so far and the flushed records are the earlier groups joined |
| UnifiedAnalysis.ScanRecordsAreRecords | analisis_unificado.py:28-58 | the flushes of the pass plus the end-of-file flush are exactly the file's logical records |
| UnifiedAnalysis.AnalyzeFile | analisis_unificado.py:27-58 | the pass over one file with a fresh buffer extends the summary with exactly that file's records, in order |
| UnifiedAnalysis.AnalyzeLogs | analisis_unificado.py:19-61 | `analizar_logs` returns the state counter, the kept errors and the box counter of all the records of all files, file after file |
| UnifiedAnalysis.NoRecordStartEmptySummary | test_analisis_unificado.py:32-39 | a run with no record-start line yields no records, no counts and no errors |
| UnifiedAnalysis.CountsAccumulate | analisis_unificado.py:20-24 | the counts of a run are the sums of the counts of its parts, and its errors are theirs in order: counts accumulate across files and never decrease |
| UnifiedAnalysis.RecordEffectOnStates | analisis_unificado.py:35-39 | a record with five fields or fewer changes no state count; otherwise exactly its stripped fifth field rises by one; it is kept if and only if that state is `ERR` |
| UnifiedAnalysis.RecordEffectOnBoxes | analisis_unificado.py:40-42 | the stripped sixth field's box count rises by one exactly for an `ERR` record with more than six fields, and no other box count changes |
| UnifiedAnalysis.ShortRecordNoEffect | analisis_unificado.py:35 | a record with five fields or fewer changes nothing at all |
| UnifiedAnalysis.ErrorsMatchErrCount | analisis_unificado.py:37-39 | `len(errores) == total_estados['ERR']` |
| UnifiedAnalysis.ErrorRecordsIff | analisis_unificado.py:38-39 | a record is kept if and only if it is one of the records and its state is `ERR` |
| UnifiedAnalysis.BoxTotalAtMostErrors | analisis_unificado.py:40-42 | the box counts total at most the number of kept errors, which is the `ERR` count |
| UnifiedAnalysis.StripAllAt | analisis_unificado.py:70 | the stripped fields are the fields one by one, each stripped |
| UnifiedAnalysis.StrippedFieldsHaveNoBar | analisis_unificado.py:70 | a record has at least one field, and no stripped field holds the bar separator |
| UnifiedAnalysis.RowOf | analisis_unificado.py:73-91 | definition of the row built from stripped fields, both branches; stated by `RowOfColumns` and `MessageRoundTrip` |
| UnifiedAnalysis.ErrorRow | analisis_unificado.py:73-91 | every row has exactly the six header columns |
| UnifiedAnalysis.RowOfColumns | analisis_unificado.py:73-91 | both branches follow one rule: column `c < 5` is field 0, 4, 5, 6 or 7, or `''` when that field is missing; the message is the rejoined tail, or `''` with eight fields or fewer |
| UnifiedAnalysis.ErrorRowColumns | analisis_unificado.py:70-91 | the same rule for the row of a record, stated on its stripped fields |
| UnifiedAnalysis.MessageRoundTrip | analisis_unificado.py:80 | with more than eight fields, splitting the message column on the bar gives back the stripped fields from the ninth on |
| UnifiedAnalysis.ErrorRowState | analisis_unificado.py:76 | the state column is the state the counter used, so it is `ERR` for every kept record |
| UnifiedAnalysis.ErrorRowBox | analisis_unificado.py:77 | the box column is the box the box counter used |
| UnifiedAnalysis.ErrorRowDateHasNoBar | analisis_unificado.py:75 | the date column never holds the bar separator |
| UnifiedAnalysis.ErrorTableRows | analisis_unificado.py:68-92 | the table is the header followed by one row per kept record, in order |
| UnifiedAnalysis.BoxRanking | analisis_unificado.py:101 | the box output is a permutation of the box counter in non-increasing count order, with every count unchanged and ties in insertion order |
| Analysis.CategoryOf | analisis.py:15-23 | definition of the `if`/`elif`/`else` chain; stated by `CategoryIff` |
| Analysis.CategoryIff | analisis.py:15-23 | a line is an error exactly when `ERROR` occurs in it, even if `ALERTA` does too; it is an alert exactly when `ALERTA` occurs and `ERROR` does not |
| Analysis.SelectAppend | analisis.py:12-23 | each list of a run is the lists of its parts one after the other, in input order |
| Analysis.SelectIff | analisis.py:15-23 | a line is in a category's list if and only if it was read and has that category; lines are stored unmodified |
| Analysis.Partition | analisis.py:15-23 | every line read lands in exactly one of the three lists |
| Analysis.FindDate | analisis.py:17 | the search returns the leftmost position where a `YYYY-MM-DD hh:mm:ss` timestamp starts, and none when there is none |
| Analysis.DateOf | analisis.py:17-18 | definition of `fecha.group()`: the text of the leftmost timestamp, or none; stated by `DateOfShape` |
| Analysis.DateOfShape | analisis.py:17-18 | there is a match if and only if a timestamp occurs in the line, and the matched text has the timestamp's shape |
| Analysis.DatesBound | analisis.py:17-19 | at most one date per error line |
| Analysis.ProcessLogs | analisis.py:6-25 | `procesar_logs` returns the error, alert and other lines of all files, in order, and the dates of the error lines that hold one |
| Analysis.Statistics | analisis.py:28-32 | definition of `generar_estadisticas`: the three lengths; stated by `StatisticsTotal` |
| Analysis.StatisticsTotal | analisis.py:28-32 | the three totals add up to the number of lines read |
| Analysis.SkipSpaces | analisis.py:38 | `\s*` consumes the whole run of whitespace |
| Analysis.WordEnd | analisis.py:38 | `(\w+)` extends to the end of the run of word characters |
| Analysis.FindTag | analisis.py:38 | the search returns the leftmost position where `TipoError:`, optional whitespace and a word character occur, and none when there is none |
| Analysis.TagOf | analisis.py:38-40 | definition of `tipo.group(1)`; stated by `TagOfFound`, `TagOfShape`, `TagOfPlace` and `TagOfFirstWord` |
| Analysis.TagOfFound | analisis.py:38-39 | a line has a tag if and only if the pattern matches somewhere in it |
| Analysis.TagOfShape | analisis.py:38-40 | a tag is a non-empty run of word characters |
| Analysis.TagOfPlace | analisis.py:38-40 | the tag starts right after the leftmost match of `TipoError:` and the whitespace that follows it, and ends where the word ends, so it cannot be extended either way |
| Analysis.TagOfFirstWord | analisis.py:38-40 | on `TipoError: abc def` the tag is `abc`: only the first word after the marker is taken |
| Analysis.TagsFromLines | analisis.py:37-40 | at most one tag per error line, and a tag is counted if and only if some error line carries it |
| Analysis.ClassifyErrors | analisis.py:35-44 | `clasificar_errores` counts the tags of the error lines one at a time; by `CountKeysOrder` its keys are in order of first appearance |
| Analysis.ClassificationCounts | analisis.py:41-43 | every count is at least 1, each tag is counted as often as it occurs, and the counts total the number of tagged error lines, at most the number of error lines |
| ErrorFilter.IsErrLine | filtrar_errores.py:16-19 | definition of the test: the stripped line has more than five fields and the fifth, stripped, is `ERR` |
| ErrorFilter.Kept | filtrar_errores.py:15-20 | definition of `errores_reales`; stated by `KeptIsFilterMap`, `KeptIsSubsequence` and `KeptIff` |
| ErrorFilter.FilterErrors | filtrar_errores.py:15-20 | the loop keeps exactly the stripped `ERR` lines, in order |
| ErrorFilter.KeptAppend | filtrar_errores.py:15-16 | each physical line is judged on its own: filtering two runs of lines is filtering each |
| ErrorFilter.KeptIsFilterMap | filtrar_errores.py:15-20 | the output is the comprehension of stripped lines passing the test |
| ErrorFilter.KeptIsSubsequence | filtrar_errores.py:20 | the output is a subsequence of the stripped input: the stripped `ERR` lines at strictly increasing positions, every `ERR` line among them |
| ErrorFilter.KeptIff | filtrar_errores.py:16-20 | a text is output if and only if it is the stripped text of an input line with more than five fields whose stripped fifth field is `ERR` |
| BoxClassifier.RowModule | clasificar_por_caja.py:17-21 | definition of the module of a row: none for an empty row or a first cell with six fields or fewer |
| BoxClassifier.ModuleCounts | clasificar_por_caja.py:13-22 | definition of `conteo_modulos`, or the failure of `next(reader)` on a table with no row; stated by `ModuleCountsValid` |
| BoxClassifier.CountByModule | clasificar_por_caja.py:15-22 | the loop counts the modules of the rows after the header; a table with no row at all fails as `next(reader)` does |
| BoxClassifier.ModulesAppend | clasificar_por_caja.py:16-22 | each row is judged on its own |
| BoxClassifier.HeaderAndEmptyRowsIgnored | clasificar_por_caja.py:15-17 | the first row is never counted, whatever it holds, and an empty row changes nothing |
| BoxClassifier.ModuleCountsValid | clasificar_por_caja.py:20-22 | every count is at least 1, each module is counted once per qualifying row, and the counts total the number of qualifying rows |
| BoxClassifier.Ranking | clasificar_por_caja.py:29-30 | the output rows are all counter entries in non-increasing count order, counts unchanged, ties in insertion order |
| BoxClassifier.CountsNothingOnErrorTable | clasificar_por_caja.py:18-20 | on the table `analisis_unificado.py` writes, whose first column is the date, nothing is counted |
| ErrorFilter.ErrorTable | filtrar_errores.py:24-28 | definition of the table written to `errores_completos.csv`: the `Linea de Error` header, then one single-cell row per kept line |
| ErrorFilter.OneCellRows | filtrar_errores.py:27-28 | one single-cell row per kept line |
| BoxClassifier.ModulesOfKept | filtrar_errores.py:23-28 | the modules read back from the rows `filtrar_errores.py` writes are the boxes of the `ERR` lines of the log with more than six fields, in order |
| BoxClassifier.CountsOnFilteredTable | clasificar_por_caja.py:16-22 | on the table `filtrar_errores.py` writes, each count is the number of `ERR` lines of the log with more than six fields and that stripped sixth field |
| Dashboard.GroupMessage | dashboard.py:36-44 | the result is one of the three canonical texts or the value itself, and it differs from the value only for a string with one of the three prefixes |
| Dashboard.CanonicalPrefixes | dashboard.py:38-43 | each canonical text begins with its own prefix and with no earlier one |
| Dashboard.GroupMessageIdempotent | dashboard.py:38-44 | grouping a grouped message changes nothing |
| Dashboard.GroupOfPrefixed | dashboard.py:38-43 | a message beginning with a prefix maps to that prefix's canonical text |

## Left out

- Folder discovery, `exit()` and opening files (analisis_unificado.py:13-17, 24-27): the input is the lines already read, one sequence per file.
- The per-file `except` (analisis_unificado.py:59-60): a read error part-way through a file would leave the counts of the records flushed before it; that is I/O and is not modelled.
- `rstrip('\n')` (analisis_unificado.py:30): lines arrive without their terminators. In the other scripts a line is taken as read, terminator included when present; `strip()` removes it.
- CSV writing and reading, and every `print`: the rows are modelled as lists of cells. `BoxClassifier` assumes that reading `errores_completos.csv` gives back the cells that were written.
- `mostrar_estadisticas_estados` (analisis_unificado.py:106-117): it prints floating-point percentages.
- Analysis.Dates: holds the matched timestamp text. The conversion by `datetime.strptime` (analisis.py:19), which raises on a date such as month 13, is not modelled.
- `crear_grafica` and the module-level script of `analisis.py` (analisis.py:47-73): plotting and printing.
- The Streamlit, pandas and plotly parts of `dashboard.py`: only `agrupar_mensajes` is modelled, and a non-string cell is any value of a type parameter.
- Text.IsSpace, Text.IsDigit, Text.IsWordChar: `strip()`, `\s`, `\d` and `\w` are restricted to ASCII; Python's Unicode whitespace, digits and letters beyond ASCII are not modelled.
- `test_analisis_unificado.py` is not a model target: it imports functions that `analisis_unificado.py` does not define and unpacks two results where `analizar_logs` returns three. Only its expectations for an empty file are used.
- The other versions of the scripts (`analisis V2.py`, `V1/analisis V3.py`, `V 2/extraer_por_caja.py` and the `1. filtrar_errores V…` files) are not part of this model.
