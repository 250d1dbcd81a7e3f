/** The rule tables behind `QueryRouter`, `SQLGenerator` and
    `AnswerSynthesizer`: each tests cues against the lower-cased question
    in a fixed order and answers with the first that holds. */
module Rules {
  import opened Text

  /** A condition on the lower-cased question: one of the phrases occurs
      (`any(word in q for word in [...])`), or all of them do (`a in q and
      b in q ...`). */
  datatype Cue = AnyOf(phrases: seq<string>) | AllOf(phrases: seq<string>)

  predicate Holds(c: Cue, q: string)
  {
    match c
    case AnyOf(ps) => exists k :: 0 <= k < |ps| && Contains(q, ps[k])
    case AllOf(ps) => forall k :: 0 <= k < |ps| ==> Contains(q, ps[k])
  }

  /** The branch an if/elif chain over `cues` takes: the first cue that
      holds, or `|cues|` (the `else`) when none does. */
  function FirstMatch(cues: seq<Cue>, q: string): (r: nat)
    ensures r <= |cues|
    ensures r < |cues| ==> Holds(cues[r], q)
    ensures forall k :: 0 <= k < r ==> !Holds(cues[k], q)
    decreases |cues|
  {
    if |cues| == 0 then 0
    else if Holds(cues[0], q) then 0
    else 1 + FirstMatch(cues[1..], q)
  }

  /** The three facts above pin the branch down: the chain is total and
      deterministic. */
  lemma FirstMatchUnique(cues: seq<Cue>, q: string, b: nat)
    requires b <= |cues|
    requires b < |cues| ==> Holds(cues[b], q)
    requires forall k :: 0 <= k < b ==> !Holds(cues[k], q)
    ensures FirstMatch(cues, q) == b
  {
  }

  /** The six question templates `SQLGenerator.predict` and
      `AnswerSynthesizer.predict` test, in order: the return policy, top
      category by quantity in summer 1997, average order value in winter
      1997, top three products by revenue, beverage revenue in summer 1997,
      top customer by margin in 1997. */
  const TemplateCues: seq<Cue> := [
    AllOf(["return policy", "beverage"]),
    AllOf(["summer beverages 1997", "quantity"]),
    AllOf(["winter classics 1997", "average order value"]),
    AllOf(["top 3 products", "revenue"]),
    AllOf(["beverages", "summer beverages 1997", "revenue"]),
    AllOf(["customer", "margin", "1997"])
  ]

  /** The template a question falls under: 0 to 5, or 6 for none. */
  function Template(question: string): (r: nat)
    ensures r <= 6
  {
    FirstMatch(TemplateCues, Lower(question))
  }

  /** The "beverages" test of the fifth template is implied by its
      "summer beverages 1997" test: that template holds exactly when
      "summer beverages 1997" and "revenue" both occur. */
  lemma BeverageRevenueCue(q: string)
    ensures Holds(TemplateCues[4], q) <==> Contains(q, "summer beverages 1997") && Contains(q, "revenue")
  {
    if Contains(q, "summer beverages 1997") {
      assert OccursAt("summer beverages 1997", "beverages", 7);
      ContainsAt("summer beverages 1997", "beverages", 7);
      ContainsTransitive(q, "summer beverages 1997", "beverages");
    }
    var ps := TemplateCues[4].phrases;
    assert ps[0] == "beverages" && ps[1] == "summer beverages 1997" && ps[2] == "revenue";
  }

  /** Every question that falls under the first template mentions a policy. */
  lemma ReturnPolicyMentionsPolicy(q: string)
    requires Holds(TemplateCues[0], q)
    ensures Contains(q, "policy")
  {
    assert Contains(q, TemplateCues[0].phrases[0]);
    assert OccursAt("return policy", "policy", 7);
    ContainsAt("return policy", "policy", 7);
    ContainsTransitive(q, "return policy", "policy");
  }

  /** The six template cues, spelled out as the `if`/`elif` conditions of
      the source. */
  lemma TemplateCuesSpelledOut(q: string)
    ensures Holds(TemplateCues[0], q) <==> Contains(q, "return policy") && Contains(q, "beverage")
    ensures Holds(TemplateCues[1], q) <==> Contains(q, "summer beverages 1997") && Contains(q, "quantity")
    ensures Holds(TemplateCues[2], q) <==> Contains(q, "winter classics 1997") && Contains(q, "average order value")
    ensures Holds(TemplateCues[3], q) <==> Contains(q, "top 3 products") && Contains(q, "revenue")
    ensures Holds(TemplateCues[4], q) <==>
              Contains(q, "beverages") && Contains(q, "summer beverages 1997") && Contains(q, "revenue")
    ensures Holds(TemplateCues[5], q) <==> Contains(q, "customer") && Contains(q, "margin") && Contains(q, "1997")
  {
    var c := TemplateCues;
    assert c[0].phrases[0] == "return policy" && c[0].phrases[1] == "beverage";
    assert c[1].phrases[0] == "summer beverages 1997" && c[1].phrases[1] == "quantity";
    assert c[2].phrases[0] == "winter classics 1997" && c[2].phrases[1] == "average order value";
    assert c[3].phrases[0] == "top 3 products" && c[3].phrases[1] == "revenue";
    assert c[4].phrases[0] == "beverages" && c[4].phrases[1] == "summer beverages 1997" && c[4].phrases[2] == "revenue";
    assert c[5].phrases[0] == "customer" && c[5].phrases[1] == "margin" && c[5].phrases[2] == "1997";
  }
}
