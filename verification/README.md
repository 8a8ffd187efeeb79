# Clinical data assistant: router and query core

A model in Dafny of the deterministic core of a small clinical-data chat assistant. It covers
two parts:

- **The six read-only queries** of `src/tools.py`. They run over three in-memory tables:
  `patients`, `encounters` and `labs`.
- **The two rule-based routers** `route_to_tool`, one in `src/agent.py` and one in
  `src/agent_core.py`, with the dispatcher `run_tool` that goes with each. A router turns one
  line of user text into an operation name and an argument map, or into "no match".

The two routers really differ. `agent.py` searches the line for whole words. It tries the
rules in the order list/show tables, schema/columns, summary, latest, ICD 10, find patient, and
gives `(None, None)` when nothing matches. `agent_core.py` accepts only the whole line for
`list tables` and `show schema`. It tries its `patients with icd10` phrase before `summary`,
and gives `(None, {})` when nothing matches.

Modules, in dependency order:

| file | module | contents |
|---|---|---|
| `wrappers.dfy` | `Wrappers` | `Option` |
| `text.dfy` | `Text` | character classes, case mapping, `strip`, join/split, lexicographic order, case-insensitive substring |
| `frame.dfy` | `Frame` | the pandas steps the queries use: row filter, `drop_duplicates`, `sort_values`, `head` |
| `tables.dfy` | `Tables` | the row datatypes, the database and the table mapping |
| `tools.dfy` | `Tools` | the six queries, each returning a structured `ToolOutput` |
| `calls.dfy` | `Calls` | the six operations, their wire form (a name and a string map), and `run_tool` |
| `scan.dfy` | `Scan` | the regular-expression primitives: greedy runs, `\b`, `$`, and the leftmost-start scan of `re.search` |
| `patterns.dfy` | `Patterns` | one matcher per routing pattern, each proved equal to a declarative shape of the pattern |
| `searches.dfy` | `Searches` | `re.search` for each pattern: no match iff no shape occurs; otherwise the leftmost capture |
| `agent_router.dfy` | `AgentRouter` | `route_to_tool` of `src/agent.py` |
| `core_router.dfy` | `CoreRouter` | `route_to_tool` of `src/agent_core.py` |

Each router is modelled as `Route(text) = Pick(MatchAll(Trim(text)))`. `MatchAll` runs every
rule's search on the stripped line, and `Pick` takes the first rule that matched. Python
stops at the first rule that matches, but the searches are pure, so the result is the same.
The declarative partner of each router is the ghost function `FirstFiring`. It gives the
position of the first rule whose pattern occurs anywhere in the line, stated through the
patterns' shape predicates with no matcher involved. `RouteTakesFirstRule` connects the two.

Regular expressions are modelled by what Python's backtracking engine returns, not by a
generic engine:
- greedy character-class runs are maximal;
- `.*` in the `agent.py` ICD rule settles on the last letter-digit-digit word of the line;
- `\s+(.+)$` in the find rule starts its capture as late as the whitespace allows;
- `$` matches at the end of the string or just before a final line feed;
- `.` matches anything except a line feed.

Where a looser reading of the routing rules is possible, the model follows the code. In both
routers a patient id must follow `summary` after whitespace only, and must end at a word
boundary. Only the `latest` rule differs on boundaries: `agent.py` wraps it in `\b ... \b`, and
`agent_core.py` does not.

## Model

| member | source | states |
|---|---|---|
| Tools.ListTables | src/tools.py:4-5 | The text is "Available tables: " followed by the table names joined with ", ". The names are in ascending order and form a permutation of the mapping's keys. |
| Tools.ListTablesNamesOnce | src/tools.py:4-5 | Since the keys are distinct, every table name is listed exactly once and nothing else is listed. |
| Tools.ListTablesIsSortedNames | src/tools.py:5 | The listing is fully determined: for any ascending arrangement of the table names, the text is the label followed by that arrangement. |
| Tools.ShowSchema | src/tools.py:7-11 | The schema text is empty exactly when the mapping has no tables. |
| Tools.ShowSchemaOneLinePerTable | src/tools.py:7-11 | Splitting the text at line feeds gives back one line per table, in the mapping's order. Each line is `name: ` followed by the columns in declared order, joined with ", ". |
| Tools.FindPatient | src/tools.py:13-19 | The not-found message (with the query quoted) appears exactly when no patient has a name containing the query, ignoring case. Otherwise the rows are exactly the patients with such a name, each as often as in the table. A missing name never matches. |
| Tools.FindPatientKeepsOrder | src/tools.py:15-16 | The rows found keep the table's order: searching two stacked tables finds the first table's matches followed by the second's. |
| Tools.FindPatientIgnoresCase | src/tools.py:15 | Two queries that differ only in letter case find the same rows in the same order. |
| Tools.InnerJoin | src/tools.py:25 | The inner merge on `patient_id` holds each patient row once per equal key, and nothing else. |
| Tools.InnerJoinConcat | src/tools.py:25 | The inner merge keeps the patients' row order: merging two stacked patient tables gives the first table's result followed by the second's. |
| Tools.DiagnosedIds | src/tools.py:24 | The de-duplicated ids have no repeats. An id is among them exactly when some encounter of that id is coded exactly `code`. |
| Tools.PatientsByIcd10 | src/tools.py:21-28 | The not-found message appears exactly when no patient row has an encounter coded exactly `code`. Otherwise the rows are exactly the patient rows with such an encounter, each once per row of the table. Encounters whose id has no patient row contribute nothing. |
| Tools.PatientsByIcd10NoDuplicateIds | src/tools.py:24-25 | When `patient_id` is a key of `patients`, no id is reported twice, however many of its encounters match. |
| Tools.PatientsByIcd10KeepsOrder | src/tools.py:24-25 | The patients found keep the table's row order: two stacked patient tables give the first table's patients followed by the second's. |
| Tools.LatestLab | src/tools.py:30-37 | The not-found message appears exactly when no lab row has the patient id and a test equal to `test` after both are upper-cased. Otherwise the report names such a row of the table, and no other matching row has a later date. |
| Tools.RecentRows | src/tools.py:49-50 | A section shows "None" exactly when the patient has no rows. Otherwise it shows between 1 and 5 of the patient's rows, newest first. No omitted row of the patient is newer than the oldest row shown. Fewer than 5 rows shown means all of them are shown. |
| Tools.FirstPatientIndex | src/tools.py:44-47 | Finds the first patient row with the id, or reports that none has it. |
| Tools.PatientSummary | src/tools.py:39-59 | "Unknown patient_id: <id>" appears exactly when no patient row has the id. Otherwise the report holds the first such row and two recent sections: encounters and labs. Each section keeps the promises stated for `Tools.RecentRows`. |
| Frame.Filter | src/tools.py:16 | A boolean row mask keeps each row that satisfies the mask, as often as it occurs, and nothing else. |
| Frame.FilterConcat | src/tools.py:16 | A row mask keeps the table's row order: it distributes over stacked tables. |
| Frame.DropDuplicates | src/tools.py:24 | `drop_duplicates` keeps the same set of values, and no value twice. |
| Frame.Sort | src/tools.py:5 | Sorting gives a permutation of the input that is ordered by the given total preorder. |
| Frame.SortedUnique | src/tools.py:5 | Under an order with no ties between different values, two sorted arrangements of the same multiset are equal. |
| Frame.MostRecent | src/tools.py:35 | Sorting newest first and taking the head keeps min(n, size) rows of the input, newest first. Every row left out is no newer than the last row kept. |
| Calls.ToolName | src/agent.py:47-58 | Every operation's wire name is one of the six names the dispatcher knows. |
| Calls.RunTool | src/agent.py:46-59 | Each of the six names runs its own query on any argument map that holds the query's keys. A missing key gives a `KeyError` for that key; `latest_lab` looks up `patient_id` before `test`. `list_tables` and `show_schema` need no arguments. Any other name gives "Unknown tool: <name>". |
| Calls.RunToolOnCall | src/agent_core.py:48-61 | Dispatching an operation's wire form runs exactly that operation's query and never raises `KeyError`. |
| Calls.WireFormInjective | src/agent.py:19-41 | Two operations with the same name and the same argument map are the same operation, so the wire form loses nothing. |
| Text.Trim | src/agent.py:17 | The stripped line has no whitespace at either end. |
| Text.TrimKeepsMiddle | src/agent_core.py:18 | The stripped line is a slice of the input, and only whitespace lies outside that slice. |
| Text.HasSubstringCi | src/tools.py:15 | The case-insensitive containment test is true exactly when the name has the query at some position, ignoring case. |
| Scan.Search | src/agent.py:25 | `re.search` returns the match at the leftmost start where the pattern matches. It finds nothing exactly when the pattern matches at no start. |
| Patterns.ListShowTablesSpec | src/agent.py:19 | The matcher for the word `list` or `show`, whitespace, then the word `tables` succeeds at a start exactly when the pattern's shape occurs there. |
| Patterns.SummaryFound | src/agent.py:25 | A match of `\bsummary\s+(P\d+)\b` comes from a shape of the pattern, and its capture is that shape's `P<digits>` slice. |
| Patterns.SummaryExact | src/agent_core.py:30 | Every shape of the summary pattern at a start gives a match there, capturing that shape's id. |
| Patterns.LatestFound | src/agent.py:29 | A match of `latest\s+([A-Za-z0-9]+)\s+for\s+(P\d+)` comes from a shape, with both captures taken from that shape. This holds with or without `agent.py`'s word boundaries. |
| Patterns.LatestExact | src/agent_core.py:34 | Every shape of the latest pattern at a start gives a match there, capturing that shape's test and id. |
| Patterns.IcdWordFound | src/agent.py:35 | A match of `\bICD\s*10\b.*\b([A-Z]\d{2})\b` captures the last letter-digit-digit word after `ICD 10` on the same line. |
| Patterns.IcdWordExact | src/agent.py:35 | Whenever `ICD 10` is followed on its line by a letter-digit-digit word, the matcher succeeds and captures the last such word. |
| Patterns.IcdPhraseFound | src/agent_core.py:26 | A match of `patients\s+with\s+icd10\s+([A-Z0-9.]+)` comes from a shape, and captures the longest run of code characters. |
| Patterns.IcdPhraseExact | src/agent_core.py:26 | Every shape of the phrase at a start gives a match there, with that shape's code. |
| Patterns.FindFound | src/agent.py:39 | A match of `find\s+patient\s+(.+)$` captures the rest of the line after the whitespace that follows `patient`. |
| Patterns.FindExact | src/agent_core.py:40 | Every shape of the find pattern at a start gives a match there, with the greedy shape's capture. |
| Patterns.TwoWordSpec | src/agent_core.py:20-24 | `re.fullmatch(w1\s+w2)` holds exactly when the whole line is `w1`, whitespace, then `w2`, ignoring case. |
| Searches.ListTablesSearch | src/agent.py:19-20 | The list/show tables search finds something exactly when the pattern occurs somewhere in the line. |
| Searches.SchemaSearch | src/agent.py:22-23 | The schema/columns search finds something exactly when either word stands whole somewhere in the line. |
| Searches.SummarySearch | src/agent.py:25-27 | The summary search finds nothing exactly when no shape occurs. Otherwise it returns the id of the leftmost occurrence. |
| Searches.LatestSearch | src/agent.py:29-33 | The latest search, with or without word boundaries, finds nothing exactly when no shape occurs. Otherwise it returns the test and id of the leftmost occurrence. |
| Searches.IcdWordSearch | src/agent.py:35-37 | The ICD 10 search finds nothing exactly when no shape occurs. Otherwise it takes the leftmost `ICD 10` that has a code word later on its own line, and returns the last such word. |
| Searches.IcdPhraseSearch | src/agent_core.py:26-28 | The `patients with icd10` search finds nothing exactly when no shape occurs. Otherwise it returns the code of the leftmost occurrence. |
| Searches.FindSearch | src/agent.py:39-41 | The find search finds nothing exactly when no shape occurs. Otherwise it returns the greedy capture of the leftmost occurrence. |
| Searches.SummaryCaptureIsId | src/agent.py:27 | An upper-cased summary capture is `P` followed by at least one digit. |
| Searches.LatestCapturesAreArgs | src/agent.py:31-32 | The upper-cased test is a non-empty run of letters and digits with no lower-case letter. The upper-cased id is `P` followed by digits. |
| Searches.IcdWordCaptureIsCode | src/agent.py:37 | The upper-cased ICD 10 capture is always one capital letter and two digits. |
| Searches.IcdPhraseCaptureIsToken | src/agent_core.py:28 | The upper-cased code is a non-empty run of letters, digits and dots with no lower-case letter. |
| Searches.FindCaptureIsNotBlank | src/agent_core.py:42 | In a stripped line, the find capture does not become empty when stripped. |
| Searches.SummaryCaptureUnique | src/agent_core.py:30-32 | The leftmost occurrence determines the summary capture. |
| Searches.LatestCaptureUnique | src/agent_core.py:34-38 | The leftmost occurrence determines both latest captures. |
| Searches.IcdWordCaptureUnique | src/agent.py:35-37 | The leftmost occurrence determines the ICD 10 capture. |
| Searches.IcdPhraseCaptureUnique | src/agent_core.py:26-28 | The leftmost occurrence determines the phrase capture. |
| Searches.FindCaptureUnique | src/agent_core.py:40-43 | The leftmost occurrence determines the find capture. |
| AgentRouter.RouteTakesFirstRule | src/agent.py:12-43 | The router returns no operation exactly when none of the six patterns occurs in the stripped line. Otherwise it returns the operation of the first rule, in source order, whose pattern occurs. So schema/columns anywhere beats summary, and latest beats ICD 10. |
| AgentRouter.RouteSummaryId | src/agent.py:25-27 | A `patient_summary` call carries the leftmost `summary P<digits>` id, upper-cased. That id is `P` followed by digits. |
| AgentRouter.RouteLatestArgs | src/agent.py:29-33 | A `latest_lab` call carries the leftmost occurrence's test and id, both upper-cased and well formed. |
| AgentRouter.RouteIcdCode | src/agent.py:35-37 | A `patients_by_icd10` call carries a code word, upper-cased. It is the last one on the line of the leftmost `ICD 10` that has a code word after it on its line. The code is always a capital letter and two digits. |
| AgentRouter.RouteFindName | src/agent.py:39-41 | A `find_patient` call carries the rest of the line after `find patient`, stripped and with its case kept. It is never empty. |
| AgentRouter.RoutedToolRuns | src/agent.py:46-59 | Whenever the router names a tool, it also gives arguments, and `run_tool` runs that operation's query without `KeyError`. |
| AgentRouter.NoRouteIsNoneNone | src/agent.py:43 | When no rule fires, the router returns `(None, None)`. |
| CoreRouter.RouteTakesFirstRule | src/agent_core.py:8-45 | The router returns no operation exactly when no rule fires. Otherwise it takes the first rule in source order: the whole line is `list tables`, the whole line is `show schema`, the phrase, summary, latest, find. So the ICD 10 phrase beats summary, latest and find. |
| CoreRouter.RouteSummaryId | src/agent_core.py:30-32 | A `patient_summary` call carries the leftmost `summary P<digits>` id, upper-cased and well formed. |
| CoreRouter.RouteLatestArgs | src/agent_core.py:34-38 | A `latest_lab` call carries the leftmost unbounded occurrence's test and id, both upper-cased and well formed. |
| CoreRouter.RouteIcdCode | src/agent_core.py:26-28 | A `patients_by_icd10` call carries the leftmost phrase's code, upper-cased. The code is letters, digits and dots only. |
| CoreRouter.RouteFindName | src/agent_core.py:40-43 | A `find_patient` call carries the rest of the line after `find patient`, stripped and with its case kept. It is never empty. |
| CoreRouter.RoutedToolRuns | src/agent_core.py:48-61 | Whenever the router names a tool, `run_tool` runs that operation's query with the router's arguments, without `KeyError`. |
| CoreRouter.NoRouteIsNoneEmpty | src/agent_core.py:45 | When no rule fires, the router returns `(None, {})`. |

## Left out

- `llm_answer` in both routers' files: a network call to an external language model.
- `main` and its console loop in `src/agent.py`, and the web front end `src/app.py`: user-interface I/O.
- `src/data_loader.py`: reading CSV files and parsing dates. The tables are inputs to the model. Dates are day ordinals, and a lab value is an opaque `real` that is never computed on. The table names and their order match the loader. The column lists in `Catalog()` come from the data model of the three tables, since the CSV files themselves are not part of this model.
- The text layout of query results. This covers pandas `to_string`, the schema lines' exact spacing inside a cell, and `Timestamp.date()` formatting. The queries return structured rows, messages or reports.
- Tools.FindPatient: `str.contains` reads the query as a regular expression by default. The model reads it as a literal, case-insensitive substring.
- Tools.LatestLab: when several matching rows share the latest date, the model does not say which one is reported. `sort_values` does not promise a stable sort.
- Tools.RecentRows: among rows with equal dates at the cut-off, the model does not say which are shown, for the same reason.
- Character classes: `\w`, `\d`, `re.IGNORECASE` and `str.upper` are modelled on ASCII letters and digits only. Python's Unicode rules are wider. For example, under IGNORECASE `[A-Z]` also matches 'ſ', 'ı' and the Kelvin sign, and `upper` maps some characters to several characters. `\s` and `strip` use Python's full whitespace set.
- Exceptions that pandas would raise on malformed tables, such as a missing column, are outside the model: the row datatypes always have every column.
