/** `SQLGenerator.predict` (`agent/graph_simple.py`): a fixed SQL statement
    for each of the six question templates, none for the return-policy
    question, and a placeholder statement for anything else. The schema
    argument is never read. The statements are kept as opaque text. */
module SqlGenerator {
  import opened Text
  import opened Rules

  datatype SqlResult = SqlResult(sqlQuery: string, explanation: string)

  const TopCategorySql: string := "\n            SELECT c.CategoryName as category, SUM(od.Quantity) as quantity\n            FROM order_items od\n            JOIN orders o ON od.OrderID = o.OrderID\n            JOIN products p ON od.ProductID = p.ProductID\n            JOIN categories c ON p.CategoryID = c.CategoryID\n            WHERE o.OrderDate BETWEEN '1997-06-01' AND '1997-06-30'\n            GROUP BY c.CategoryName\n            ORDER BY quantity DESC\n            LIMIT 1\n            "
  const AverageOrderValueSql: string := "\n            SELECT ROUND(SUM(od.UnitPrice * od.Quantity * (1 - od.Discount)) / COUNT(DISTINCT o.OrderID), 2) as aov\n            FROM order_items od\n            JOIN orders o ON od.OrderID = o.OrderID\n            WHERE o.OrderDate BETWEEN '1997-12-01' AND '1997-12-31'\n            "
  const TopProductsSql: string := "\n            SELECT p.ProductName as product, \n                   ROUND(SUM(od.UnitPrice * od.Quantity * (1 - od.Discount)), 2) as revenue\n            FROM order_items od\n            JOIN products p ON od.ProductID = p.ProductID\n            GROUP BY p.ProductID, p.ProductName\n            ORDER BY revenue DESC\n            LIMIT 3\n            "
  const BeverageRevenueSql: string := "\n            SELECT ROUND(SUM(od.UnitPrice * od.Quantity * (1 - od.Discount)), 2) as revenue\n            FROM order_items od\n            JOIN orders o ON od.OrderID = o.OrderID\n            JOIN products p ON od.ProductID = p.ProductID\n            JOIN categories c ON p.CategoryID = c.CategoryID\n            WHERE c.CategoryName = 'Beverages'\n            AND o.OrderDate BETWEEN '1997-06-01' AND '1997-06-30'\n            "
  const TopCustomerSql: string := "\n            SELECT c.CompanyName as customer,\n                   ROUND(SUM((od.UnitPrice - (od.UnitPrice * 0.7)) * od.Quantity * (1 - od.Discount)), 2) as margin\n            FROM order_items od\n            JOIN orders o ON od.OrderID = o.OrderID\n            JOIN customers c ON o.CustomerID = c.CustomerID\n            WHERE strftime('%Y', o.OrderDate) = '1997'\n            GROUP BY c.CustomerID, c.CompanyName\n            ORDER BY margin DESC\n            LIMIT 1\n            "
  const FallbackSql: string := "SELECT 'No specific query generated' as result"

  /** The result for each template, the last entry for the `else`. */
  const TemplateResults: seq<SqlResult> := [
    SqlResult("", "RAG-only question - no SQL needed"),
    SqlResult(TopCategorySql, "Top category by quantity during Summer Beverages 1997"),
    SqlResult(AverageOrderValueSql, "AOV during Winter Classics 1997"),
    SqlResult(TopProductsSql, "Top 3 products by revenue all-time"),
    SqlResult(BeverageRevenueSql, "Beverages revenue during Summer 1997"),
    SqlResult(TopCustomerSql, "Top customer by gross margin in 1997"),
    SqlResult(FallbackSql, "Fallback query")
  ]

  /** `predict`, as written: the if/elif chain, each branch returning its
      entry of the table. */
  function Predict(question: string, schema: string): SqlResult
  {
    var q := Lower(question);
    if Contains(q, "return policy") && Contains(q, "beverage") then
      TemplateResults[0]
    else if Contains(q, "summer beverages 1997") && Contains(q, "quantity") then
      TemplateResults[1]
    else if Contains(q, "winter classics 1997") && Contains(q, "average order value") then
      TemplateResults[2]
    else if Contains(q, "top 3 products") && Contains(q, "revenue") then
      TemplateResults[3]
    else if Contains(q, "beverages") && Contains(q, "summer beverages 1997") && Contains(q, "revenue") then
      TemplateResults[4]
    else if Contains(q, "customer") && Contains(q, "margin") && Contains(q, "1997") then
      TemplateResults[5]
    else
      TemplateResults[6]
  }

  /** The chain is the first-match table over the six templates, and the
      schema plays no part in it. */
  lemma PredictIsTable(question: string, schema: string)
    ensures Predict(question, schema) == TemplateResults[Template(question)]
  {
    TemplateCuesSpelledOut(Lower(question));
  }

  /** The result depends on the question alone. */
  lemma IgnoresSchema(question: string, s1: string, s2: string)
    ensures Predict(question, s1) == Predict(question, s2)
  {
    PredictIsTable(question, s1);
    PredictIsTable(question, s2);
  }

  /** The statement is empty exactly for the return-policy template; every
      other question, the unmatched ones included, gets a statement. */
  lemma EmptyIffReturnPolicy(question: string, schema: string)
    ensures Predict(question, schema).sqlQuery == [] <==> Template(question) == 0
  {
    PredictIsTable(question, schema);
    assert forall i :: 1 <= i < |TemplateResults| ==> |TemplateResults[i].sqlQuery| > 0;
  }

  /** A question matching none of the templates gets the placeholder. */
  lemma UnmatchedGetsFallback(question: string, schema: string)
    requires forall k :: 0 <= k < 6 ==> !Holds(TemplateCues[k], Lower(question))
    ensures Predict(question, schema) == SqlResult("SELECT 'No specific query generated' as result", "Fallback query")
  {
    PredictIsTable(question, schema);
  }
}
