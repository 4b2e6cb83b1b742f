/** The Graph RAG engine (`class GraphRAG`): it renders the store's schema
    once, asks a translator for a Cypher query per question, runs it, turns
    the returned rows into a de-duplicated context and asks a synthesizer
    for the answer. The translator and synthesizer are passed in as
    functions; the store is a function from query text to its rows. */
module GraphRag {
  import opened Wrappers
  import opened PyValues
  import opened Schema
  import opened Text

  /** What `conn.execute(cypher)` gives: the rows its cursor yields, in
      order, or the exception the store raises. */
  datatype QueryResult = Rows(rows: seq<Row>) | QueryError(message: string)

  /** The translator's `Cypher` object and the `Answer` record. */
  datatype Cypher = Cypher(query: string)
  datatype Answer = Answer(question: string, answer: string)

  /** The `{"cypher", "question", "answer"}` dictionary `run` returns per
      question. */
  datatype RunResult = RunResult(cypher: string, question: string, answer: string)

  const NotAvailable := "N/A"

  // ---------------------------------------------------------------------
  // The context built from the rows.

  /** The accumulator after the cursor loop: a row is appended value by value
      unless the row itself, as a list, equals a value already accumulated. */
  function Accumulate(rows: seq<Row>): seq<Value>
  {
    if rows == [] then []
    else
      var acc := Accumulate(rows[..|rows| - 1]);
      var item := rows[|rows| - 1];
      if InList(List(item), acc) then acc else acc + item
  }

  /** `[x for i, x in enumerate(xs) if x not in xs[:i]]`. */
  function Dedup(xs: seq<Value>): seq<Value>
  {
    if xs == [] then []
    else
      var init, x := xs[..|xs| - 1], xs[|xs| - 1];
      Dedup(init) + (if InList(x, init) then [] else [x])
  }

  /** The context list handed to `str` in `execute_query`. */
  function Context(rows: seq<Row>): seq<Value>
  {
    Dedup(Accumulate(rows))
  }

  /** `xs[q]` is the first value of `xs` equal to itself. */
  predicate IsFirstOccurrence(xs: seq<Value>, q: nat)
    requires q < |xs|
  {
    !InList(xs[q], xs[..q])
  }

  /** The positions of `xs` that de-duplication keeps. */
  ghost function KeptIndices(xs: seq<Value>): seq<nat>
  {
    if xs == [] then []
    else KeptIndices(xs[..|xs| - 1]) + (if InList(xs[|xs| - 1], xs[..|xs| - 1]) then [] else [|xs| - 1])
  }

  /** `d` lists, in order, the values of `xs` at exactly its first
      occurrences `idx`. */
  ghost predicate FirstOccurrencesAt(xs: seq<Value>, d: seq<Value>, idx: seq<nat>)
  {
    && |idx| == |d|
    && (forall k :: 0 <= k < |idx| ==> idx[k] < |xs| && d[k] == xs[idx[k]] && IsFirstOccurrence(xs, idx[k]))
    && (forall k, l :: 0 <= k < l < |idx| ==> idx[k] < idx[l])
    && (forall q :: 0 <= q < |xs| && IsFirstOccurrence(xs, q) ==> q in idx)
  }

  lemma {:induction false} DedupKeepsFirstOccurrences(xs: seq<Value>)
    ensures FirstOccurrencesAt(xs, Dedup(xs), KeptIndices(xs))
    decreases |xs|
  {
    if xs != [] {
      var init := xs[..|xs| - 1];
      DedupKeepsFirstOccurrences(init);
      var d, idx := Dedup(xs), KeptIndices(xs);
      var d0, idx0 := Dedup(init), KeptIndices(init);
      forall k | 0 <= k < |idx0|
        ensures idx[k] < |xs| && d[k] == xs[idx[k]] && IsFirstOccurrence(xs, idx[k])
      {
        assert idx[k] == idx0[k] && d[k] == d0[k];
        assert xs[..idx[k]] == init[..idx0[k]];
      }
      forall q | 0 <= q < |xs| && IsFirstOccurrence(xs, q) ensures q in idx {
        if q < |init| {
          assert xs[..q] == init[..q];
          assert IsFirstOccurrence(init, q);
        } else {
          assert xs[..q] == init;
        }
      }
    }
  }

  /** No two context values are equal. */
  lemma DedupDistinct(xs: seq<Value>)
    ensures forall i, j :: 0 <= i < |Dedup(xs)| && 0 <= j < |Dedup(xs)| && i != j ==>
      !PyEq(Dedup(xs)[i], Dedup(xs)[j])
  {
    var d, idx := Dedup(xs), KeptIndices(xs);
    DedupKeepsFirstOccurrences(xs);
    forall i, j | 0 <= i < j < |d| ensures !PyEq(d[i], d[j]) && !PyEq(d[j], d[i]) {
      var p, q := idx[i], idx[j];
      assert p < q && IsFirstOccurrence(xs, q);
      assert xs[..q][p] == xs[p];
      assert !PyEq(xs[..q][p], xs[q]);
      if PyEq(d[j], d[i]) {
        PyEqSymmetric(d[j], d[i]);
      }
    }
  }

  /** Every value of the input equals some context value. */
  lemma {:induction false} DedupComplete(xs: seq<Value>)
    ensures forall q :: 0 <= q < |xs| ==> InList(xs[q], Dedup(xs))
    decreases |xs|
  {
    if xs != [] {
      var init, x := xs[..|xs| - 1], xs[|xs| - 1];
      DedupComplete(init);
      var d := Dedup(xs);
      assert Dedup(init) <= d;
      forall q | 0 <= q < |xs| ensures InList(xs[q], d) {
        if q < |init| {
          assert xs[q] == init[q];
          var k :| 0 <= k < |Dedup(init)| && PyEq(Dedup(init)[k], init[q]);
          assert d[k] == Dedup(init)[k];
        } else if InList(x, init) {
          var p :| 0 <= p < |init| && PyEq(init[p], x);
          assert InList(init[p], Dedup(init));
          var k :| 0 <= k < |Dedup(init)| && PyEq(Dedup(init)[k], init[p]);
          PyEqTransitive(Dedup(init)[k], init[p], x);
          assert d[k] == Dedup(init)[k];
        } else {
          PyEqReflexive(x);
          assert d[|d| - 1] == x;
        }
      }
    }
  }

  /** Accumulating a prefix of the rows gives a prefix of the accumulator. */
  lemma {:induction false} AccumulatePrefix(rows: seq<Row>, r: nat)
    requires r <= |rows|
    ensures Accumulate(rows[..r]) <= Accumulate(rows)
    decreases |rows| - r
  {
    if r < |rows| {
      AccumulatePrefix(rows, r + 1);
      assert rows[..r + 1][..r] == rows[..r];
    } else {
      assert rows[..r] == rows;
    }
  }

  /** Row `r`'s values are all accumulated, in order, right after the values
      of the earlier rows, unless the row as a list equals an accumulated
      value. */
  lemma RowIncluded(rows: seq<Row>, r: nat)
    requires r < |rows|
    requires !InList(List(rows[r]), Accumulate(rows[..r]))
    ensures Accumulate(rows[..r]) + rows[r] <= Accumulate(rows)
  {
    var upto := rows[..r + 1];
    var before := Accumulate(rows[..r]);
    assert upto[..|upto| - 1] == rows[..r];
    assert upto[|upto| - 1] == rows[r];
    AccumulateStep(upto);
    var after := Accumulate(upto);
    assert after == before + rows[r];
    AccumulatePrefix(rows, r + 1);
    assert after <= Accumulate(rows);
  }

  /** One step of the cursor loop. */
  lemma AccumulateStep(rows: seq<Row>)
    requires rows != []
    ensures var init, item := rows[..|rows| - 1], rows[|rows| - 1];
      Accumulate(rows) == if InList(List(item), Accumulate(init)) then Accumulate(init) else Accumulate(init) + item
  {
  }

  /** `v` is the value in some column of some row. */
  predicate FromSomeRow(rows: seq<Row>, v: Value) {
    exists r, c :: 0 <= r < |rows| && 0 <= c < |rows[r]| && v == rows[r][c]
  }

  /** Every accumulated value is a value of some row. */
  lemma {:induction false} AccumulateFromRows(rows: seq<Row>)
    ensures forall k :: 0 <= k < |Accumulate(rows)| ==> FromSomeRow(rows, Accumulate(rows)[k])
    decreases |rows|
  {
    if rows != [] {
      var init, item := rows[..|rows| - 1], rows[|rows| - 1];
      AccumulateFromRows(init);
      AccumulateStep(rows);
      var acc, acc0 := Accumulate(rows), Accumulate(init);
      assert acc0 <= acc;
      forall k | 0 <= k < |acc| ensures FromSomeRow(rows, acc[k]) {
        if k < |acc0| {
          assert FromSomeRow(init, acc0[k]);
          var r, c :| 0 <= r < |init| && 0 <= c < |init[r]| && acc0[k] == init[r][c];
          assert rows[r] == init[r];
        } else {
          assert acc == acc0 + item;
          assert acc[k] == rows[|rows| - 1][k - |acc0|];
        }
      }
    }
  }

  /** Every context value is a value of some row. */
  lemma ContextFromRows(rows: seq<Row>)
    ensures forall k :: 0 <= k < |Context(rows)| ==> FromSomeRow(rows, Context(rows)[k])
  {
    var acc := Accumulate(rows);
    AccumulateFromRows(rows);
    DedupKeepsFirstOccurrences(acc);
    forall k | 0 <= k < |Context(rows)| ensures FromSomeRow(rows, Context(rows)[k]) {
      var q := KeptIndices(acc)[k];
      assert Context(rows)[k] == acc[q];
    }
  }

  predicate HasNoLists(rows: seq<Row>) {
    forall r, c :: 0 <= r < |rows| && 0 <= c < |rows[r]| ==> !rows[r][c].List?
  }

  /** When no returned value is itself a list, the row guard never fires and
      the accumulator is every row's values in order. */
  lemma {:induction false} AccumulateWithoutLists(rows: seq<Row>)
    requires HasNoLists(rows)
    ensures Accumulate(rows) == Concat(rows)
    decreases |rows|
  {
    if rows != [] {
      var init, item := rows[..|rows| - 1], rows[|rows| - 1];
      assert HasNoLists(init) by {
        forall r, c | 0 <= r < |init| && 0 <= c < |init[r]| ensures !init[r][c].List? {
          assert init[r] == rows[r];
        }
      }
      AccumulateWithoutLists(init);
      AccumulateFromRows(init);
      var acc := Accumulate(init);
      forall k | 0 <= k < |acc| ensures !PyEq(acc[k], List(item)) {
        assert FromSomeRow(init, acc[k]);
        var r, c :| 0 <= r < |init| && 0 <= c < |init[r]| && acc[k] == init[r][c];
        assert init[r] == rows[r];
      }
    }
  }

  // ---------------------------------------------------------------------
  // Worked examples.

  /** One step of the de-duplicating comprehension. */
  lemma DedupStep(xs: seq<Value>)
    requires xs != []
    ensures var init, x := xs[..|xs| - 1], xs[|xs| - 1];
      Dedup(xs) == if InList(x, init) then Dedup(init) else Dedup(init) + [x]
  {
  }

  lemma ExampleAccumulate(a: string, b: string, c: string)
    ensures Accumulate([[Str(a), Str(b)], [Str(b), Str(c)]]) == [Str(a), Str(b), Str(b), Str(c)]
  {
    var rows := [[Str(a), Str(b)], [Str(b), Str(c)]];
    AccumulateWithoutLists(rows);
    assert rows[..1] == [[Str(a), Str(b)]];
    assert rows[..1][..0] == [];
    assert Concat(rows[..1]) == [Str(a), Str(b)];
  }

  lemma ExampleDedup(a: string, b: string, c: string)
    requires a != b && b != c && a != c
    ensures Dedup([Str(a), Str(b), Str(b), Str(c)]) == [Str(a), Str(b), Str(c)]
  {
    var acc := [Str(a), Str(b), Str(b), Str(c)];
    assert acc[..3][..2][..1][..0] == [];
    DedupStep(acc[..3][..2][..1]);
    assert Dedup(acc[..3][..2][..1]) == [Str(a)];
    DedupStep(acc[..3][..2]);
    assert Dedup(acc[..3][..2]) == [Str(a), Str(b)];
    DedupStep(acc[..3]);
    assert PyEq(acc[..3][..2][1], Str(b));
    assert Dedup(acc[..3]) == [Str(a), Str(b)];
    DedupStep(acc);
    assert !InList(Str(c), acc[..3]);
  }

  /** Rows `[a, b]` then `[b, c]` give the context `[a, b, c]`: values in
      order of first appearance, the repeated `b` dropped. */
  lemma ContextExample(a: string, b: string, c: string)
    requires a != b && b != c && a != c
    ensures Context([[Str(a), Str(b)], [Str(b), Str(c)]]) == [Str(a), Str(b), Str(c)]
  {
    ExampleAccumulate(a, b, c);
    ExampleDedup(a, b, c);
  }

  lemma RashNauseaAccumulate()
    ensures Accumulate([[Str("rash")], [Str("nausea")], [Str("rash")]]) == [Str("rash"), Str("nausea"), Str("rash")]
  {
    var rows := [[Str("rash")], [Str("nausea")], [Str("rash")]];
    AccumulateWithoutLists(rows);
    assert rows[..2] == [[Str("rash")], [Str("nausea")]];
    assert rows[..2][..1] == [[Str("rash")]];
    assert rows[..2][..1][..0] == [];
    assert Concat(rows[..2][..1]) == [Str("rash")];
    assert Concat(rows[..2]) == [Str("rash"), Str("nausea")];
  }

  lemma RashNauseaDedup()
    ensures Dedup([Str("rash"), Str("nausea"), Str("rash")]) == [Str("rash"), Str("nausea")]
  {
    var acc := [Str("rash"), Str("nausea"), Str("rash")];
    assert acc[..2][..1][..0] == [];
    DedupStep(acc[..2][..1]);
    assert Dedup(acc[..2][..1]) == [Str("rash")];
    DedupStep(acc[..2]);
    assert !InList(Str("nausea"), acc[..2][..1]);
    assert Dedup(acc[..2]) == [Str("rash"), Str("nausea")];
    DedupStep(acc);
    assert PyEq(acc[..2][0], Str("rash"));
  }

  /** The rows `[["rash"], ["nausea"], ["rash"]]` give the context
      `["rash", "nausea"]`. */
  lemma RashNauseaExample()
    ensures Context([[Str("rash")], [Str("nausea")], [Str("rash")]]) == [Str("rash"), Str("nausea")]
  {
    RashNauseaAccumulate();
    RashNauseaDedup();
  }

  /** The answer text `execute_query` builds from those rows. */
  lemma RashNauseaAnswer()
    ensures ListRepr(Context([[Str("rash")], [Str("nausea")], [Str("rash")]])) == "['rash', 'nausea']"
  {
    RashNauseaExample();
    RashNauseaRepr();
  }

  lemma RashNauseaRepr()
    ensures ListRepr([Str("rash"), Str("nausea")]) == "['rash', 'nausea']"
  {
    PlainWords();
    ListReprTwoStrings("rash", "nausea");
    assert "['" + "rash" + "', '" + "nausea" + "']" == "['rash', 'nausea']";
  }

  lemma PlainWords()
    ensures PlainText("rash") && PlainText("nausea")
  {
    var r, n := "rash", "nausea";
    assert forall k :: 0 <= k < |r| ==> 'a' <= r[k] <= 'z';
    assert forall k :: 0 <= k < |n| ==> 'a' <= n[k] <= 'z';
  }

  /** The row guard compares a whole row with single values: after a row whose
      only value is the list `[v]`, a row `[v]` is skipped. */
  lemma RowGuardSkipsRow(v: string)
    ensures Context([[List([Str(v)])], [Str(v)]]) == [List([Str(v)])]
  {
    var rows := [[List([Str(v)])], [Str(v)]];
    assert rows[..1] == [[List([Str(v)])]];
    assert rows[..1][..0] == [];
    AccumulateStep(rows[..1]);
    var acc := [List([Str(v)])];
    assert Accumulate(rows[..1]) == acc;
    assert rows[1] == [Str(v)];
    PyEqReflexive(List([Str(v)]));
    assert PyEq(acc[0], List(rows[1]));
    AccumulateStep(rows);
    assert Accumulate(rows) == acc;
    assert acc[..0] == [];
    DedupStep(acc);
  }

  // ---------------------------------------------------------------------
  // The engine.

  /** The translator output `run` sees, and what it does with it: a falsy
      output (`None`) leaves both fields `"N/A"` and runs nothing. */
  predicate Translated(translate: (string, string) -> Option<Cypher>, schemaText: string, q: string) {
    translate(schemaText, q).Some?
  }

  /** The `TypeError` Python raises when a call leaves out the second of two
      required positional arguments. Only the kind of error is modelled:
      the exact wording depends on the Python version, which from 3.10 on
      prefixes the client's class name. */
  const MissingContextArgument := "RAGAnswerQuestion() missing 1 required positional argument: 'context'"

  class GraphRagEngine {
    /** The connection, reduced to what a query returns. */
    const store: string -> QueryResult
    /** `baml_schema`, rendered once at construction. */
    const schemaText: string
    /** The schema dictionary the text was rendered from. */
    ghost const schema: SchemaDict

    /** `__init__`: open the store and render its schema. */
    constructor (catalog: Catalog, store: string -> QueryResult)
      ensures this.store == store
      ensures Describes(schema, catalog)
      ensures schemaText == SchemaText(schema)
    {
      this.store := store;
      var text := GetSchemaBaml(catalog);
      schemaText := text;
      schema := CatalogSchema(catalog);
    }

    /** What `run` makes of question `q`: `"N/A"` twice when the translator
        output is falsy, otherwise the query text and the synthesizer's
        answer to the question and the query's context, or the store's
        error, which ends the call. The synthesizer is called as the
        generated client declares it, with the question and the context
        text. */
    function Outcome(translate: (string, string) -> Option<Cypher>, synthesize: (string, string) -> string,
                     q: string): Result<RunResult, string>
    {
      match translate(schemaText, q)
      case None => Success(RunResult(NotAvailable, q, NotAvailable))
      case Some(c) =>
        match store(c.query)
        case QueryError(message) => Failure(message)
        case Rows(rows) => Success(RunResult(c.query, q, synthesize(q, ListRepr(Context(rows)))))
    }

    /** The same step as the code calls the synthesizer: with the `Answer`
        object as its only argument, where the generated client takes the
        question and the context. The call raises before any model is
        reached, so a translated question whose query returns rows ends
        `run` with that error. */
    function OutcomeAsWritten(translate: (string, string) -> Option<Cypher>, q: string): Result<RunResult, string>
    {
      match translate(schemaText, q)
      case None => Success(RunResult(NotAvailable, q, NotAvailable))
      case Some(c) =>
        match store(c.query)
        case QueryError(message) => Failure(message)
        case Rows(_) => Failure(MissingContextArgument)
    }

    /** As written, no translated question whose query succeeds gets an
        answer: the call fails where the intended step answers it. */
    lemma AsWrittenNeverAnswers(translate: (string, string) -> Option<Cypher>,
                                synthesize: (string, string) -> string, q: string)
      requires Translated(translate, schemaText, q)
      requires store(translate(schemaText, q).value.query).Rows?
      ensures OutcomeAsWritten(translate, q) == Failure(MissingContextArgument)
      ensures Outcome(translate, synthesize, q).Success?
      ensures Outcome(translate, synthesize, q).value.answer ==
        synthesize(q, ListRepr(Context(store(translate(schemaText, q).value.query).rows)))
    {
    }

    /** `execute_query`: run the query, accumulate the rows, de-duplicate and
        wrap the printed list with the question. A store error propagates. */
    method ExecuteQuery(question: string, cypher: string) returns (r: Result<Answer, string>)
      ensures store(cypher).QueryError? ==> r == Failure(store(cypher).message)
      ensures store(cypher).Rows? ==> r.Success?
      ensures store(cypher).Rows? ==> r.value.question == question
      ensures store(cypher).Rows? ==> r.value.answer == ListRepr(Dedup(Accumulate(store(cypher).rows)))
    {
      var response := store(cypher);
      if response.QueryError? {
        return Failure(response.message);
      }
      var rows := response.rows;
      var result: seq<Value> := [];
      var i := 0;
      while i < |rows|
        invariant 0 <= i <= |rows|
        invariant result == Accumulate(rows[..i])
      {
        var item := rows[i];
        assert rows[..i + 1][..i] == rows[..i];
        if !InList(List(item), result) {
          result := result + item;
        }
        i := i + 1;
      }
      assert rows[..|rows|] == rows;
      var resultList := Dedup(result);
      r := Success(Answer(question, ListRepr(resultList)));
    }

    /** What `run` returns for questions `qs`: the outcomes in question
        order, or the first store error. */
    function Responses(translate: (string, string) -> Option<Cypher>, synthesize: (string, string) -> string,
                       qs: seq<string>): Result<seq<RunResult>, string>
    {
      if qs == [] then Success([])
      else
        match Responses(translate, synthesize, qs[..|qs| - 1])
        case Failure(e) => Failure(e)
        case Success(rs) =>
          match Outcome(translate, synthesize, qs[|qs| - 1])
          case Failure(e) => Failure(e)
          case Success(x) => Success(rs + [x])
    }

    /** `run`: one result per question, in order; a store error ends the
        whole call. `executed` records the queries sent to the store. */
    method Run(questions: Option<seq<string>>, translate: (string, string) -> Option<Cypher>,
               synthesize: (string, string) -> string)
      returns (r: Result<seq<RunResult>, string>, ghost executed: seq<string>)
      ensures r == Responses(translate, synthesize, if questions.None? then [] else questions.value)
      ensures r.Success? ==> executed == QueriesSent(translate, if questions.None? then [] else questions.value)
    {
      var qs := if questions.None? then [] else questions.value;
      var results: seq<RunResult> := [];
      executed := [];
      for n := 0 to |qs|
        invariant Responses(translate, synthesize, qs[..n]) == Success(results)
        invariant executed == QueriesSent(translate, qs[..n])
      {
        var question := qs[n];
        assert qs[..n + 1][..n] == qs[..n];
        var output := translate(schemaText, question);
        var result := RunResult(if output.Some? then output.value.query else NotAvailable, question, NotAvailable);
        if output.Some? {
          var cypher := output.value.query;
          executed := executed + [cypher];
          var context := ExecuteQuery(question, cypher);
          if context.Failure? {
            ResponsesFailurePrefix(translate, synthesize, qs, n + 1);
            return Failure(context.error), executed;
          }
          var res := synthesize(context.value.question, context.value.answer);
          result := result.(answer := res);
        }
        results := results + [result];
      }
      assert qs[..|qs|] == qs;
      r := Success(results);
    }

    /** A store error on the first `n` questions is the error of them all. */
    lemma {:induction false} ResponsesFailurePrefix(translate: (string, string) -> Option<Cypher>,
                                                    synthesize: (string, string) -> string, qs: seq<string>, n: nat)
      requires n <= |qs| && Responses(translate, synthesize, qs[..n]).Failure?
      ensures Responses(translate, synthesize, qs) == Responses(translate, synthesize, qs[..n])
      decreases |qs| - n
    {
      if n < |qs| {
        assert qs[..n + 1][..n] == qs[..n];
        ResponsesFailurePrefix(translate, synthesize, qs, n + 1);
      } else {
        assert qs[..n] == qs;
      }
    }

    /** `run` succeeds exactly when no question's query fails, and then it
        holds one outcome per question, in question order. */
    lemma {:induction false} ResponsesSucceed(translate: (string, string) -> Option<Cypher>,
                                              synthesize: (string, string) -> string, qs: seq<string>)
      ensures Responses(translate, synthesize, qs).Success? <==>
        forall i :: 0 <= i < |qs| ==> Outcome(translate, synthesize, qs[i]).Success?
      ensures Responses(translate, synthesize, qs).Success? ==>
        |Responses(translate, synthesize, qs).value| == |qs| &&
        forall i :: 0 <= i < |qs| ==>
          Outcome(translate, synthesize, qs[i]) == Success(Responses(translate, synthesize, qs).value[i])
      decreases |qs|
    {
      if qs != [] {
        var init := qs[..|qs| - 1];
        ResponsesSucceed(translate, synthesize, init);
        if !Responses(translate, synthesize, init).Success? {
          var i :| 0 <= i < |init| && !Outcome(translate, synthesize, init[i]).Success?;
          assert qs[i] == init[i];
        }
      }
    }

    /** A failed `run` reports the error of the first question whose query
        fails; every earlier question succeeded. */
    lemma {:induction false} ResponsesFirstFailure(translate: (string, string) -> Option<Cypher>,
                                                   synthesize: (string, string) -> string, qs: seq<string>)
      requires Responses(translate, synthesize, qs).Failure?
      ensures exists i :: 0 <= i < |qs| &&
                          Outcome(translate, synthesize, qs[i]) == Failure(Responses(translate, synthesize, qs).error) &&
                          forall p :: 0 <= p < i ==> Outcome(translate, synthesize, qs[p]).Success?
      decreases |qs|
    {
      var init := qs[..|qs| - 1];
      var e := Responses(translate, synthesize, qs).error;
      if Responses(translate, synthesize, init).Failure? {
        ResponsesFirstFailure(translate, synthesize, init);
        var i :| 0 <= i < |init| && Outcome(translate, synthesize, init[i]) == Failure(e) &&
                 forall p :: 0 <= p < i ==> Outcome(translate, synthesize, init[p]).Success?;
        assert qs[i] == init[i];
        forall p | 0 <= p < i ensures Outcome(translate, synthesize, qs[p]).Success? {
          assert qs[p] == init[p];
        }
      } else {
        ResponsesSucceed(translate, synthesize, init);
        forall p | 0 <= p < |qs| - 1 ensures Outcome(translate, synthesize, qs[p]).Success? {
          assert qs[p] == init[p];
        }
      }
    }

    /** Successful outcomes give the fields `run` reports: the question, `"N/A"`
        twice when the translator output is falsy, and otherwise the query
        text and the synthesizer's answer over the query's context. */
    lemma OutcomesRead(translate: (string, string) -> Option<Cypher>, synthesize: (string, string) -> string,
                       qs: seq<string>, results: seq<RunResult>)
      requires |results| == |qs|
      requires forall i :: 0 <= i < |qs| ==> Outcome(translate, synthesize, qs[i]) == Success(results[i])
      ensures forall i :: 0 <= i < |qs| ==> results[i].question == qs[i]
      ensures forall i :: 0 <= i < |qs| && !Translated(translate, schemaText, qs[i]) ==>
        results[i].cypher == NotAvailable && results[i].answer == NotAvailable
      ensures forall i :: 0 <= i < |qs| && Translated(translate, schemaText, qs[i]) ==>
        var query := translate(schemaText, qs[i]).value.query;
        results[i].cypher == query && store(query).Rows? &&
        results[i].answer == synthesize(qs[i], ListRepr(Context(store(query).rows)))
    {
    }

    /** The queries `run` sends to the store: one per question whose
        translation is truthy, in question order, and none for the others. */
    function QueriesSent(translate: (string, string) -> Option<Cypher>, qs: seq<string>): seq<string>
    {
      if qs == [] then []
      else
        var init, q := qs[..|qs| - 1], qs[|qs| - 1];
        QueriesSent(translate, init) +
          (if translate(schemaText, q).Some? then [translate(schemaText, q).value.query] else [])
    }
  }
}
