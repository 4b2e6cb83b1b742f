# Medication question answering: a verified model of its core

The system answers questions about medications and their side effects in
two ways:

- **Graph RAG.** It reads the schema of a Kùzu graph store and renders it
  as prompt text. A language model translates each question into a Cypher
  query. The query runs against the store, and its rows are flattened and
  de-duplicated into a context. A second model answers from that context.
  As written, the call to that second model passes one argument where two
  are declared; the model follows the corrected call (see "Findings").
- **Semantic RAG.** It cuts a PDF's text into fixed-width chunks, stores
  them in a vector index under `chunk_<i>` ids, and answers from the
  nearest chunks.

Two evaluation scripts compare the strings a human annotated with the
strings an extractor produced, and count matches, misses and possible
hallucinations.

This project models that core in Dafny and proves its properties. The
language models, the graph store, the vector index and the dictionaries
passed around become functions and datatypes given as parameters.

| file | module | models |
|---|---|---|
| `wrappers.dfy` | `Wrappers` | `Option` and `Result` (a raised exception is a `Failure`) |
| `text.dfy` | `Text` | `str(n)`, zero padding, `"\n".join`, ASCII `str.lower` |
| `py_values.dfy` | `PyValues` | values a store row holds, Python `==` on them (`True == 1`, lists elementwise), `repr`/`str` |
| `schema.dfy` | `Schema` | `get_schema_dict`, `get_schema_baml` |
| `graph_rag.dfy` | `GraphRag` | `GraphRAG.__init__`, `execute_query`, `run` |
| `pdf_extractor.dfy` | `PdfExtractor` | `chunk_text`, the ids of `save_chroma` |
| `semantic_rag.dfy` | `SemanticRag` | the chunk list of `SemanticRAG.run` |
| `eval_metrics.dfy` | `EvalMetrics` | the metric dictionary and the totals loop shared by both evaluations |
| `notes_eval.dfy` | `NotesEval` | `format_date`, `extract_specific_strings`, `evaluate_extraction` |
| `image_eval.dfy` | `ImageEval` | `extract_all_strings`, `evaluate_extraction` |

How the source's parts are modelled:

- **Loops.** Code that builds its result with loops is modelled as methods
  with loop invariants:
  - the catalog walk;
  - the line-by-line rendering;
  - the cursor loop;
  - the per-question loop;
  - the string-collecting loops;
  - the totals.

  Each method is proved equal to a specification function, and the
  properties are proved about that function.
- **Comprehensions.** Code that is one comprehension is modelled as a
  function: chunking, the ids, the chunk list, de-duplication and the
  metric dictionary.
- **The engine.** `GraphRAG` is a class. Its store and its rendered schema
  text are fields fixed at construction.

## Model

| member | source | states |
|---|---|---|
| Schema.ReadProperties | src/run_graphrag.py:17-19 | one property per `TABLE_INFO` row, in cursor order, with its name from column 1 and its type from column 2 |
| Schema.GetSchemaDict | src/run_graphrag.py:7-35 | the dictionary lists every node table and every relationship table of the catalog, in catalog order, none dropped; each edge keeps its `src` and `dst`; each table's properties are those of its `TABLE_INFO` rows |
| Schema.DescribesUnique | src/run_graphrag.py:7-35 | the catalog determines the dictionary completely |
| Schema.AppendPropertyLines | src/run_graphrag.py:51-53 | the property loop appends one `    - name: type` line per property, in order, with the type lower-cased and the name unchanged |
| Schema.AppendNodeSection | src/run_graphrag.py:49-53 | the node loop appends, per node in order, its `  - label` line and its property lines |
| Schema.AppendEdgeSection | src/run_graphrag.py:57-62 | the edge loop appends a `- label` block only for edges whose property list is non-empty |
| Schema.JoinLines | src/run_graphrag.py:63 | the loop computes `"\n".join(lines)` |
| Schema.RenderSchema | src/run_graphrag.py:39-63 | the text is the join of the header, the direction lines, the separator, the node section, the heading and the edge section |
| Schema.CatalogSchema | src/run_graphrag.py:7-35 | the dictionary lists every node table and every relationship table of the catalog, in catalog order, each with its name (and source and destination) and one property per `TABLE_INFO` row |
| Schema.GetSchemaBaml | src/run_graphrag.py:37-63 | the returned text is the rendering of the dictionary the catalog describes |
| Schema.SchemaTextLayout | src/run_graphrag.py:42-63 | the text is laid out as follows: `ALWAYS RESPECT THE EDGE DIRECTIONS:`, `---`, one line per edge, `---`, a blank line, `Node properties:` and the node lines, a blank line, `Edge properties:` and the edge lines |
| Schema.NoEdgesText | src/run_graphrag.py:42-45 | with no edges, the two `---` lines are adjacent and the text ends at the `Edge properties:` heading |
| Schema.DirectionSectionLines | src/run_graphrag.py:42-45 | entries 1 to n of the `lines` list, for n edges, are one `(:src) -[:label]-> (:dst)` line per edge, in edge order (text lines 2 to n+1 counting from 0, since the header entry holds two lines) |
| Schema.DirectionLinesIgnoreProperties | src/run_graphrag.py:43-44 | edges that differ only in their properties give the same direction lines |
| Schema.EdgeListedIff | src/run_graphrag.py:57-59 | a `- label` line is in the edge section if and only if some edge with that label has a non-empty property list |
| Schema.NodeSectionSplit | src/run_graphrag.py:49-53 | node `i`'s label line and property lines sit between the lines of the nodes before it and those of the nodes after it |
| Schema.SchemaTextEnd | src/run_graphrag.py:63 | the text ends with its last line, with no trailing newline; with no edge properties, that line is the `Edge properties:` heading |
| PyValues.PyEqSymmetric | src/run_graphrag.py:79 | the `==` behind `in` is symmetric on row values |
| PyValues.PyEqTransitive | src/run_graphrag.py:83 | the `==` behind `not in` is transitive, which de-duplication needs |
| GraphRag.DedupKeepsFirstOccurrences | src/run_graphrag.py:83 | the comprehension keeps exactly the first occurrence of each value, in order |
| GraphRag.DedupDistinct | src/run_graphrag.py:83 | no two values at different positions of the context are equal, in either order of comparison |
| GraphRag.DedupComplete | src/run_graphrag.py:83 | every accumulated value equals some value of the context |
| GraphRag.RowIncluded | src/run_graphrag.py:79-80 | a row's values are appended, in order, right after the values accumulated so far, unless the row as a list equals an accumulated value |
| GraphRag.AccumulatePrefix | src/run_graphrag.py:77-80 | the accumulator only grows: accumulating a prefix of the rows gives a prefix |
| GraphRag.AccumulateFromRows | src/run_graphrag.py:77-80 | every accumulated value is a value of some row |
| GraphRag.ContextFromRows | src/run_graphrag.py:76-83 | every value in the context comes from some row |
| GraphRag.AccumulateWithoutLists | src/run_graphrag.py:77-80 | when no value is a list, the guard never fires and the accumulator is all the rows' values in order |
| GraphRag.ContextExample | src/run_graphrag.py:76-83 | rows `[a, b]` then `[b, c]` give the context `[a, b, c]` |
| GraphRag.RashNauseaExample | src/run_graphrag.py:76-83 | rows `["rash"]`, `["nausea"]`, `["rash"]` give the context `["rash", "nausea"]` |
| GraphRag.RashNauseaAnswer | src/run_graphrag.py:85 | the answer text for those rows is `['rash', 'nausea']` |
| GraphRag.RowGuardSkipsRow | src/run_graphrag.py:79 | the guard compares a whole row with single values: after the value `[v]`, a row `[v]` is skipped |
| PyValues.ListReprTwoStrings | src/run_graphrag.py:85 | for two strings with no quote, backslash or escaped character, `str` of the list is each string in single quotes, separated by `, ` |
| GraphRag.GraphRagEngine.constructor | src/run_graphrag.py:67-71 | the schema text is rendered once, from the dictionary that describes the store's catalog |
| GraphRag.GraphRagEngine.ExecuteQuery | src/run_graphrag.py:73-85 | a store error propagates; otherwise the answer carries the question unchanged and `str` of the de-duplicated accumulator |
| GraphRag.GraphRagEngine.Run | src/run_graphrag.py:87-112 | the results are `Responses` of the questions (`None` counts as no questions): each question's outcome in order, stopping at the first store error; when the call succeeds, the queries sent are exactly those of the truthy translator outputs, in question order |
| GraphRag.GraphRagEngine.ResponsesFailurePrefix | src/run_graphrag.py:102-104 | once a question's query fails, later questions cannot change the result: the first error is the error of the whole call |
| GraphRag.GraphRagEngine.ResponsesSucceed | src/run_graphrag.py:93-112 | the call succeeds exactly when no question's query fails, and then holds one result per question, in question order, each that question's outcome |
| GraphRag.GraphRagEngine.ResponsesFirstFailure | src/run_graphrag.py:93-104 | a failed call carries the error of some question whose query fails, and every earlier question succeeded |
| GraphRag.GraphRagEngine.OutcomesRead | src/run_graphrag.py:93-110 | a successful outcome copies the question; a falsy translator output gives `cypher = answer = "N/A"`; a truthy one gives `cypher = output.query` and the synthesizer's reply to the question and the context of that query's rows (the corrected call of line 105) |
| GraphRag.GraphRagEngine.AsWrittenNeverAnswers | src/run_graphrag.py:103-106 | as written, a translated question whose query returns rows fails with the missing-argument `TypeError`, where the corrected step answers it |
| PdfExtractor.ChunkText | src/pdf_extractor.py:41-44 | the width defaults to `CHUNK_SIZE`, 120 (src/pdf_extractor.py:9); a width of zero raises and a negative width gives no chunks |
| PdfExtractor.ChunkCount | src/pdf_extractor.py:42-43 | the number of chunks is the length divided by the width, rounded up; empty text, and only empty text, gives none |
| PdfExtractor.ChunkAt | src/pdf_extractor.py:43 | chunk `k` is `text[k*w .. min((k+1)*w, len(text))]` |
| PdfExtractor.ChunkLengths | src/pdf_extractor.py:42-43 | every chunk is non-empty and at most `w` long; every chunk but the last is exactly `w` long |
| PdfExtractor.ConcatPrefix | src/pdf_extractor.py:42-43 | the first `m` chunks, concatenated, are the text up to `m` widths |
| PdfExtractor.ChunkRoundTrip | src/pdf_extractor.py:41-44 | concatenating the chunks in order gives back the text |
| PdfExtractor.ChunkIds | src/pdf_extractor.py:52 | one id per chunk, pairwise distinct |
| PdfExtractor.ChunkIdIndex | src/pdf_extractor.py:52 | id `i` is `chunk_` followed by digits that read back as `i` |
| Text.DecimalRoundTrip | src/pdf_extractor.py:52 | `int(str(i)) == i` for the index written into an id |
| SemanticRag.ChunkList | src/semantic_rag.py:18-21 | the list succeeds if and only if there is a first document list and, when it is non-empty, a first distance list at least as long; it has one chunk per document |
| SemanticRag.ChunkListUnzip | src/semantic_rag.py:19-20 | chunk `i` pairs document `i` with distance `i`; unzipping gives back the documents and the matching distances, with no re-ranking or de-duplication |
| SemanticRag.SemanticRagEngine.Run | src/semantic_rag.py:10-23 | the index is queried with the question alone and `n_results = depth` (default 2); the question and the chunks go to the answering model unchanged; an indexing failure propagates |
| NotesEval.MonthField | src/evals/notes_extractor_eval.py:17 | the month texts `%m` accepts denote months 1 to 12 |
| NotesEval.DayField | src/evals/notes_extractor_eval.py:17 | the day texts `%d` accepts denote days 1 to 31 |
| NotesEval.ParseIsoDate | src/evals/notes_extractor_eval.py:17 | a parsed date is a date of the calendar, with a year from 1 to 9999 |
| NotesEval.FormatDate | src/evals/notes_extractor_eval.py:14-20 | text that does not parse comes back unchanged; a parsed date becomes `Mon DD YYYY`, with a month abbreviation, two day digits and four year digits |
| NotesEval.FormatDateReadsBack | src/evals/notes_extractor_eval.py:17-18 | the formatted text names the parsed month, day and year |
| NotesEval.FormatDateIdempotent | src/evals/notes_extractor_eval.py:14-20 | formatting twice is the same as formatting once |
| NotesEval.IsoRoundTrip | src/evals/notes_extractor_eval.py:17 | every calendar date parses back from its zero-padded `YYYY-MM-DD` form |
| NotesEval.FormatIso | src/evals/notes_extractor_eval.py:14-20 | every calendar date in `YYYY-MM-DD` form is formatted as `Mon DD YYYY` |
| NotesEval.UnpaddedFields | src/evals/notes_extractor_eval.py:17 | `2024-3-5` and `2024-03- 5` parse like `2024-03-05` |
| NotesEval.RejectedDates | src/evals/notes_extractor_eval.py:17-20 | `2023-02-29` and `2023-13-01` do not parse, so they are kept unchanged |
| NotesEval.StringsFromItems | src/evals/notes_extractor_eval.py:25-44 | a string is in the set if and only if some record holds it in one of these fields: its patient id, its medication name, its formatted medication date, or a non-empty side effect |
| NotesEval.ExtractSpecificStrings | src/evals/notes_extractor_eval.py:23-44 | a record without `patient_id` raises a key error; otherwise the loop collects exactly that set |
| NotesEval.EvaluateExtraction | src/evals/notes_extractor_eval.py:47-61 | the metrics compare the two files' sets; a key error, the human file's first, propagates |
| EvalMetrics.Compare | src/evals/notes_extractor_eval.py:55-59 | `exact_match + missing` is the size of the human set H and `exact_match + potential_hallucination` the size of the extracted set E; `missing` is 0 if and only if H ⊆ E, `potential_hallucination` is 0 if and only if E ⊆ H, and identical sets give no misses and no hallucinations; the same dictionary is built at src/evals/image_extractor_eval.py:40-44 |
| EvalMetrics.ItemsAddFields | src/evals/notes_extractor_eval.py:101-102 | the metric items name each metric once, so one pass adds each metric to its own total |
| EvalMetrics.Totals | src/evals/notes_extractor_eval.py:99-102 | each total is the sum of that metric over the files; the keys exist once a file is seen; the loop at src/evals/image_extractor_eval.py:84-87 is the same |
| EvalMetrics.TotalAppend | src/evals/notes_extractor_eval.py:99-102 | totals over two groups of files add up |
| EvalMetrics.TotalsCountStrings | src/evals/notes_extractor_eval.py:99-102 | over all files, exact matches plus missing count every human string once, and exact matches plus potential hallucinations count every extracted string once |
| ImageEval.ExtractAllStrings | src/evals/image_extractor_eval.py:13-29 | the first key missing in reading order raises; otherwise the nested loops collect exactly the set described below |
| ImageEval.DrugsMissingPrefix | src/evals/image_extractor_eval.py:22-24 | a key missing in an earlier drug is the one reported |
| ImageEval.FirstMissingPrefix | src/evals/image_extractor_eval.py:17-27 | a key missing in an earlier record is the one reported |
| ImageEval.MissingConditionReported | src/evals/image_extractor_eval.py:19 | after complete records, a record without `condition` raises for `condition` |
| ImageEval.DrugStringsFrom | src/evals/image_extractor_eval.py:22-24 | a drug contributes its generic name, even an empty one, and its non-empty brand names |
| ImageEval.AllStringsFromItems | src/evals/image_extractor_eval.py:15-29 | a string is in the set if and only if some record holds it as its condition, a generic name, a non-empty brand name or a non-empty side effect |
| ImageEval.EvaluateExtraction | src/evals/image_extractor_eval.py:32-46 | the metrics compare the two files' sets; a key error, the human file's first, propagates |

## Left out

- **Input and output.** Files, the PDF and Markdown conversion, JSON
  loading, directory globbing and all printing are not part of this model.
  The data they produce is passed in.
- **Language models.** The translator (`RAGText2Cypher`), the answer
  synthesizers (`RAGAnswerQuestion`, `QuestionAnswer`) and the extractors
  are function parameters. What they return is not modelled.
- **Exceptions raised by those oracles.** They are not modelled.
- **Kùzu.** The catalog is a value: table names, relationship triples and
  `TABLE_INFO` rows. A query's outcome is a function from query text to
  rows or to an error message. Opening the database is not modelled.
- **The vector index.** It is a function from `(query_texts, n_results)` to
  the documents and distances lists. Embedding and upserting are left out.
  The result of `collection.upsert` is not modelled; only the ids are.
- **Row values.** They are strings, integers, booleans, `None` and lists.
  Floats, dates and dictionaries returned by the store are left out;
  dictionary equality would need unordered comparison.
- **`repr` of non-ASCII text.** The model escapes ASCII and Latin-1
  controls only. It does not model how Python decides which other Unicode
  characters are printable.
- **`str.lower`.** The model lower-cases ASCII letters only.
- **Percentage printing.** It is float formatting and is left out. So is
  the unguarded division by zero it contains
  (src/evals/image_extractor_eval.py:91-94).
- **JSON types in the evaluations.** Fields hold strings, lists of strings
  and objects. Any other JSON type, and a non-dict `medication`, is not
  modelled.
- NotesEval.ParseIsoDate: accepts ASCII digits only, while Python's `\d`
  also matches other Unicode decimal digits.
- NotesEval.FormatDate: writes `%b` as in the C locale, and prints years
  below 1000 with four digits, where the platform's `strftime` may not
  pad them.
- **Catching execution errors.** `run` (src/run_graphrag.py:93-110) has
  no exception handler, so a failing generated query aborts the whole call
  and no later question is tried. `GraphRag.GraphRagEngine.Run` does the
  same; recording such a query with an `"N/A"` answer is not modelled.
- **The row guard.** The guard at src/run_graphrag.py:79 compares the
  whole row with single accumulated values, so it does not skip repeated
  values one by one. The model follows the code. Per-value de-duplication
  is done by the comprehension at src/run_graphrag.py:83.
- **Streamlit and the debug page.** The user interface, its history and
  its session state are not part of this model. Its call passes a string
  as `questions`; the model's `run` takes a list of questions.
- **ETL scripts and the generated client code.** They are not part of
  this model.

## Findings

| source | as written | input that shows it | evidently intended | confidence | as-written member | corrected member |
|---|---|---|---|---|---|---|
| src/run_graphrag.py:105 | `b.RAGAnswerQuestion(context)` passes the `Answer` object as the only argument, but the client declares `RAGAnswerQuestion(question, context)` (src/baml_client/async_client.py:103-107). The call raises `TypeError` before any model is reached, and `run` does not catch it | any question whose translation is truthy and whose query succeeds, even with no rows | `b.RAGAnswerQuestion(context.question, context.answer)`: the synthesizer answers the question over the printed context | high (not executed; the synchronous client is not part of this model, and the declared signature is taken from the asynchronous one and the function text at src/baml_client/inlinedbaml.py:21) | GraphRag.GraphRagEngine.AsWrittenNeverAnswers | GraphRag.GraphRagEngine.OutcomesRead |
