/** `QueryRouter.predict` (`agent/graph_simple.py`): questions about a
    policy, a definition or "what is" go to the documents; the top-products
    question goes to the database; everything else uses both. */
module Router {
  import opened Text
  import opened Rules

  datatype Route = Rag | Sql | Hybrid

  const RagPhrases: seq<string> := ["policy", "definition", "what is"]
  const SqlPhrases: seq<string> := ["top 3 products by revenue"]

  /** The router as a first-match table: the documents cue, then the
      database cue, else both. */
  const RouteCues: seq<Cue> := [AnyOf(RagPhrases), AnyOf(SqlPhrases)]
  const RouteOutcomes: seq<Route> := [Rag, Sql, Hybrid]

  /** `predict`, as written: an if/elif/else chain on the lower-cased
      question. It agrees with the first-match table. */
  function Predict(question: string): (r: Route)
    ensures r == RouteOutcomes[FirstMatch(RouteCues, Lower(question))]
  {
    var q := Lower(question);
    if Contains(q, "policy") || Contains(q, "definition") || Contains(q, "what is") then
      assert Contains(q, RagPhrases[0]) || Contains(q, RagPhrases[1]) || Contains(q, RagPhrases[2]);
      Rag
    else if Contains(q, "top 3 products by revenue") then
      assert Contains(q, SqlPhrases[0]);
      Sql
    else
      Hybrid
  }

  /** The documents route is taken exactly when a documents cue occurs;
      those cues win over the database cue. */
  lemma RagIff(question: string)
    ensures Predict(question) == Rag <==> Holds(AnyOf(RagPhrases), Lower(question))
  {
  }

  /** The database-only route is taken exactly when the top-products phrase
      occurs and no documents cue does. */
  lemma SqlIff(question: string)
    ensures Predict(question) == Sql <==>
              !Holds(AnyOf(RagPhrases), Lower(question)) && Contains(Lower(question), "top 3 products by revenue")
  {
    assert SqlPhrases[0] == "top 3 products by revenue";
  }

  /** Any question mentioning "policy" is answered from the documents, even
      if it also asks for the top products. */
  lemma PolicyGoesToDocuments(question: string)
    requires Contains(Lower(question), "policy")
    ensures Predict(question) == Rag
  {
  }
}
