/** `AnswerSynthesizer.predict` (`agent/graph_simple.py`): a fixed answer,
    explanation and citation list for each of the six question templates,
    and a generic answer otherwise. The SQL results, document context and
    format hint it is given are never read. */
module AnswerSynthesizer {
  import opened Text
  import opened Rules

  datatype SynthesisResult = SynthesisResult(finalAnswer: string, explanation: string, citations: seq<string>)

  const TopProductsAnswer: string := "[{'product': 'C\U{F4}te de Blaye', 'revenue': 53265895.24}, {'product': 'Th\U{FC}ringer Rostbratwurst', 'revenue': 24623469.23}, {'product': 'Mishi Kobe Niku', 'revenue': 16798864.59}]"

  /** The result for each template, the last entry for the `else`. */
  const TemplateResults: seq<SynthesisResult> := [
    SynthesisResult("14",
      "Unopened beverages have 14-day return policy according to product policy",
      ["product_policy::chunk1"]),
    SynthesisResult("{'category': 'Beverages', 'quantity': 1250}",
      "Beverages category had highest quantity during Summer Beverages 1997",
      ["orders", "order_items", "products", "categories", "marketing_calendar::chunk1"]),
    SynthesisResult("1452.75",
      "Average Order Value during Winter Classics 1997 calculated using KPI definition",
      ["orders", "order_items", "kpi_definitions::chunk1", "marketing_calendar::chunk2"]),
    SynthesisResult(TopProductsAnswer,
      "Top 3 products by total revenue all-time",
      ["products", "order_items"]),
    SynthesisResult("45236.75",
      "Total revenue from Beverages category during Summer Beverages 1997 dates",
      ["orders", "order_items", "products", "categories", "marketing_calendar::chunk1"]),
    SynthesisResult("{'customer': 'QUICK-Stop', 'margin': 125436.45}",
      "Top customer by gross margin in 1997 using 70% cost approximation",
      ["customers", "orders", "order_items", "kpi_definitions::chunk2"]),
    SynthesisResult("Answer not specifically implemented",
      "Generic answer for unimplemented question type",
      ["general_knowledge"])
  ]

  /** `predict`, as written: the if/elif chain, each branch returning its
      entry of the table. */
  function Predict(question: string, sqlResults: string, documentContext: string, formatHint: string): SynthesisResult
  {
    var q := Lower(question);
    if Contains(q, "return policy") && Contains(q, "beverage") then
      TemplateResults[0]
    else if Contains(q, "summer beverages 1997") && Contains(q, "quantity") then
      TemplateResults[1]
    else if Contains(q, "winter classics 1997") && Contains(q, "average order value") then
      TemplateResults[2]
    else if Contains(q, "top 3 products") && Contains(q, "revenue") then
      TemplateResults[3]
    else if Contains(q, "beverages") && Contains(q, "summer beverages 1997") && Contains(q, "revenue") then
      TemplateResults[4]
    else if Contains(q, "customer") && Contains(q, "margin") && Contains(q, "1997") then
      TemplateResults[5]
    else
      TemplateResults[6]
  }

  /** The chain is the first-match table over the same six templates the
      SQL generator tests, in the same order. */
  lemma PredictIsTable(question: string, sqlResults: string, documentContext: string, formatHint: string)
    ensures Predict(question, sqlResults, documentContext, formatHint) == TemplateResults[Template(question)]
  {
    TemplateCuesSpelledOut(Lower(question));
  }

  /** The answer depends on the question alone: whatever the SQL results,
      document context and format hint, it is the same. */
  lemma IgnoresContext(question: string, s1: string, d1: string, f1: string, s2: string, d2: string, f2: string)
    ensures Predict(question, s1, d1, f1) == Predict(question, s2, d2, f2)
  {
    PredictIsTable(question, s1, d1, f1);
    PredictIsTable(question, s2, d2, f2);
  }

  /** Every answer cites something; a question matching no template cites
      only `general_knowledge`. */
  lemma CitationsNonEmpty(question: string, sqlResults: string, documentContext: string, formatHint: string)
    ensures |Predict(question, sqlResults, documentContext, formatHint).citations| > 0
    ensures Template(question) == 6 ==>
              Predict(question, sqlResults, documentContext, formatHint).citations == ["general_knowledge"]
  {
    PredictIsTable(question, sqlResults, documentContext, formatHint);
    assert forall i :: 0 <= i < |TemplateResults| ==> |TemplateResults[i].citations| > 0;
  }
}
