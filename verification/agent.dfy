/** `SimpleHybridAgent.run` (`agent/graph_simple.py`): route the question;
    search the documents on the `rag` and `hybrid` routes; read the schema
    and generate a statement on the `sql` and `hybrid` routes; execute a
    non-empty statement; synthesize the answer.

    The agent keeps its retriever between questions, so the first question
    that searches loads the documents and later ones reuse them. How Python
    renders the schema, the rows and the hits with `str(...)` is not
    modelled: the renderings are given as functions, and the generator and
    synthesizer never read them. */
module Agent {
  import opened Results
  import opened Text
  import opened Corpus
  import opened Ranking
  import opened SqlTool
  import opened Router
  import Rules
  import GraphRetriever
  import SqlGenerator
  import AnswerSynthesizer

  /** `state.confidence`: 0.0 until a statement runs, then 0.9 when it
      succeeded and 0.3 when it failed. */
  datatype Confidence = Unset | Low | High

  function ConfidenceValue(c: Confidence): real
  {
    match c
    case Unset => 0.0
    case Low => 0.3
    case High => 0.9
  }

  /** `str(...)` of the schema dictionary, of the fetched rows and of the
      hit list. */
  datatype Renderer = Renderer(
    schema: map<string, seq<string>> -> string,
    rows: seq<Row> -> string,
    hits: seq<Hit> -> string)

  /** The agent: its retriever's state, the documents folder, the database
      and the renderings. */
  datatype Agent = Agent(index: Index, folder: seq<Document>, db: Database, render: Renderer)

  /** `HybridAgentState` at the end of a run (`attempts` stays 0 and is left
      out). */
  datatype State = State(
    question: string,
    route: Route,
    documentResults: seq<Hit>,
    sqlQuery: string,
    sqlResults: Option<QueryResult>,
    finalAnswer: string,
    explanation: string,
    citations: seq<string>,
    confidence: Confidence,
    errors: seq<string>)

  /** The dictionary `run` returns. */
  datatype Reply = Reply(
    question: string,
    finalAnswer: string,
    sql: string,
    confidence: real,
    explanation: string,
    citations: seq<string>,
    errors: seq<string>)

  function ReplyOf(s: State): Reply
  {
    Reply(s.question, s.finalAnswer, s.sqlQuery, ConfidenceValue(s.confidence), s.explanation, s.citations, s.errors)
  }

  /** The agent after the run and the run's final state, or the message of
      the exception that escaped (a failing catalog read in `get_schema`). */
  datatype Step = Step(agent: Agent, state: Result<State>)

  /** `simple_search(question)` with its default `top_k` of 3. */
  const TopK: int := 3

  predicate Retrieves(r: Route) { r == Rag || r == Hybrid }
  predicate Generates(r: Route) { r == Sql || r == Hybrid }

  /** Node 3: the statement, or the exception `get_schema` raised. Off the
      generating routes nothing is read and the statement stays empty; on
      them the statement is the question's template statement, whatever the
      schema holds. */
  function GenerateSql(a: Agent, question: string, route: Route): (r: Result<string>)
    ensures r.Failure? <==> Generates(route) && a.db.catalog.Failure?
    ensures r.Failure? ==> r.error == a.db.catalog.error
    ensures !Generates(route) ==> r == Success("")
    ensures r.Success? && Generates(route) ==> r.value == SqlGenerator.TemplateResults[Rules.Template(question)].sqlQuery
  {
    if Generates(route) then
      match GetSchema(a.db)
      case Failure(e) => Failure(e)
      case Success(schema) =>
        SqlGenerator.PredictIsTable(question, a.render.schema(schema));
        Success(SqlGenerator.Predict(question, a.render.schema(schema)).sqlQuery)
    else Success("")
  }

  /** Node 4: run a non-empty statement and grade the confidence: 0.9 when
      it succeeded, 0.3 when it failed, unset when there was none. */
  function Execute(db: Database, sql: string): (r: (Option<QueryResult>, Confidence))
    ensures r.0.Some? <==> sql != []
    ensures r.0.Some? ==> r.0.value == RunQuery(db, sql)
    ensures r.0.Some? ==> r.0.value.success == db.execute(sql).Success?
    ensures r.1 == High <==> sql != [] && db.execute(sql).Success?
    ensures r.1 == Low <==> sql != [] && db.execute(sql).Failure?
    ensures r.1 == Unset <==> sql == []
  {
    if sql != [] then
      var result := RunQuery(db, sql);
      (Some(result), if result.success then High else Low)
    else (None, Unset)
  }

  /** `run`, node by node. The agent keeps everything but its retriever's
      state, which changes only when the documents are searched; the run
      fails exactly when it reads the schema and the catalog read fails. */
  function Run(a: Agent, question: string): (step: Step)
    requires a.index.Valid()
    ensures step.agent.index.Valid()
    ensures step.agent == a.(index := step.agent.index)
    ensures var route := Router.Predict(question);
            && (step.state.Failure? <==> Generates(route) && a.db.catalog.Failure?)
            && (step.state.Failure? ==> step.state.error == a.db.catalog.error)
            && (Retrieves(route) ==> step.agent.index == GraphRetriever.SimpleSearch(a.index, a.folder, question, TopK).index)
            && (!Retrieves(route) ==> step.agent.index == a.index)
  {
    var route := Router.Predict(question);
    var search := if Retrieves(route) then GraphRetriever.SimpleSearch(a.index, a.folder, question, TopK)
                  else SearchOutcome([], a.index);
    var after := a.(index := search.index);
    match GenerateSql(a, question, route)
    case Failure(e) => Step(after, Failure(e))
    case Success(sql) =>
      var (sqlResults, confidence) := Execute(a.db, sql);
      var sqlText := if sqlResults.Some? && sqlResults.value.success then a.render.rows(sqlResults.value.rows) else "";
      var synthesis := AnswerSynthesizer.Predict(question, sqlText, a.render.hits(search.hits), "text");
      Step(after, Success(State(question, route, search.hits, sql, sqlResults,
                                synthesis.finalAnswer, synthesis.explanation, synthesis.citations,
                                confidence, [])))
  }

  /** A question the router does not send to the documents never falls
      under the return-policy template, the only one without a statement:
      that template needs "return policy", which contains "policy", which
      sends the question to the documents. */
  lemma DatabaseRouteHasStatement(question: string, schema: string)
    requires Router.Predict(question) != Rag
    ensures Rules.Template(question) != 0
    ensures SqlGenerator.Predict(question, schema).sqlQuery != []
  {
    SqlGenerator.EmptyIffReturnPolicy(question, schema);
    if Rules.Template(question) == 0 {
      Rules.ReturnPolicyMentionsPolicy(Lower(question));
      Router.PolicyGoesToDocuments(question);
    }
  }

  /** The final state of a successful run. */
  lemma RunState(a: Agent, question: string)
    requires a.index.Valid()
    requires Run(a, question).state.Success?
    ensures var s := Run(a, question).state.value;
            && s.question == question
            && s.route == Router.Predict(question)
            // node 2 runs exactly on the rag and hybrid routes
            && (Retrieves(s.route) ==> s.documentResults == GraphRetriever.SimpleSearch(a.index, a.folder, question, TopK).hits)
            && (!Retrieves(s.route) ==> s.documentResults == [])
            && |s.documentResults| <= 3
            // a statement exists exactly on the sql and hybrid routes
            && (s.sqlQuery != [] <==> Generates(s.route))
            // node 4 runs exactly when there is a statement
            && (s.sqlResults.Some? <==> s.sqlQuery != [])
            && (s.sqlResults.Some? ==> s.sqlResults.value == RunQuery(a.db, s.sqlQuery))
            && (s.confidence == High <==> s.sqlResults.Some? && s.sqlResults.value.success)
            && (s.confidence == Low <==> s.sqlResults.Some? && !s.sqlResults.value.success)
            && (s.confidence == Unset <==> s.sqlResults.None?)
            // the answer is the synthesizer's entry for the question's template
            && s.finalAnswer == AnswerSynthesizer.TemplateResults[Rules.Template(question)].finalAnswer
            && s.explanation == AnswerSynthesizer.TemplateResults[Rules.Template(question)].explanation
            && s.citations == AnswerSynthesizer.TemplateResults[Rules.Template(question)].citations
            && |s.citations| > 0
            && s.errors == []
  {
    var route := Router.Predict(question);
    if Generates(route) {
      var schema := GetSchema(a.db).value;
      DatabaseRouteHasStatement(question, a.render.schema(schema));
    }
    var s := Run(a, question).state.value;
    var sqlText := if s.sqlResults.Some? && s.sqlResults.value.success then a.render.rows(s.sqlResults.value.rows) else "";
    AnswerSynthesizer.PredictIsTable(question, sqlText, a.render.hits(s.documentResults), "text");
    AnswerSynthesizer.CitationsNonEmpty(question, sqlText, a.render.hits(s.documentResults), "text");
  }

  /** On the documents route the database is never touched: the run
      succeeds whatever the database does, with no statement and
      confidence 0.0. */
  lemma DocumentsRouteSkipsDatabase(a: Agent, question: string)
    requires a.index.Valid()
    requires Router.Predict(question) == Rag
    ensures Run(a, question).state.Success?
    ensures var reply := ReplyOf(Run(a, question).state.value);
            reply.sql == "" && reply.confidence == 0.0 && reply.errors == []
  {
    RunState(a, question);
  }

  /** The answer, explanation and citations depend on the question alone:
      not on the documents, the database, the earlier questions or the
      renderings. */
  lemma AnswerDependsOnlyOnQuestion(a1: Agent, a2: Agent, question: string)
    requires a1.index.Valid() && a2.index.Valid()
    requires Run(a1, question).state.Success? && Run(a2, question).state.Success?
    ensures var r1 := ReplyOf(Run(a1, question).state.value);
            var r2 := ReplyOf(Run(a2, question).state.value);
            r1.finalAnswer == r2.finalAnswer && r1.explanation == r2.explanation && r1.citations == r2.citations
  {
    RunState(a1, question);
    RunState(a2, question);
  }

  /** The reply's confidence is one of 0.0, 0.3 and 0.9. */
  lemma ConfidenceValues(a: Agent, question: string)
    requires a.index.Valid()
    requires Run(a, question).state.Success?
    ensures var c := ReplyOf(Run(a, question).state.value).confidence;
            c == 0.0 || c == 0.3 || c == 0.9
  {
  }
}
