/**
 * The two instructions sent to the language model: the fixed system
 * instruction and the per-request user instruction built from the company
 * name and the optional earlier context.
 */
module Prompt {
  import opened Wrappers
  import opened PyStr

  /**
   * The fixed system instruction, character for character. Its closing line
   * tells the model to put `[JSON_START]` and, after it, `[JSON_END]` around
   * the JSON part.
   */
  function SystemPrompt(): (r: string)
    ensures OccursAt(r, "[JSON_START]", |SystemPromptBody| + 28)
    ensures OccursAt(r, "[JSON_END]", |SystemPromptBody| + 45)
  {
    MarkerLineNamesMarkers(SystemPromptBody);
    SystemPromptBody + MarkerInstruction
  }

  /** Its last line tells the model how to delimit the JSON part. */
  const MarkerInstruction: string :=
    "Separate the two parts with " + "[JSON_START]" + " and " + "[JSON_END]" + " markers.\n"

  /** Whatever precedes it, the closing line puts the start marker before the end marker. */
  lemma MarkerLineNamesMarkers(body: string)
    ensures OccursAt(body + MarkerInstruction, "[JSON_START]", |body| + 28)
    ensures OccursAt(body + MarkerInstruction, "[JSON_END]", |body| + 45)
  {
    var n, m := |body|, MarkerInstruction;
    var t := body + m;
    assert t[n..] == m;
    assert m[28..40] == "[JSON_START]";
    assert m[45..55] == "[JSON_END]";
    assert t[n + 28..n + 40] == m[28..40];
    assert t[n + 45..n + 55] == m[45..55];
  }

  const SystemPromptBody: string := @"
You are an expert in loyalty program financial modeling and ROI analysis. Create detailed 
financial projections that include implementation costs, revenue uplift, and ROI metrics. Consider:

1. Cost Structure
   - Technology implementation
   - Program administration
   - Rewards and redemption costs
   - Marketing and communication

2. Revenue Impact
   - Increased purchase frequency
   - Higher average transaction value
   - Improved retention rates
   - New customer acquisition

3. ROI Analysis
   - Payback period
   - Net present value
   - Internal rate of return
   - Benefit-cost ratio

Provide your response in two parts:
1. A detailed explanation in natural language
2. A structured JSON object with this exact schema:
{
    ""financial_model"": {
        ""summary"": ""Brief overview of financial projections"",
        ""total_investment"": 1000000.00,
        ""costs"": [
            {
                ""category"": ""Technology"",
                ""year_1"": 500000.00,
                ""year_2"": 100000.00,
                ""year_3"": 100000.00,
                ""description"": ""Description of costs"",
                ""assumptions"": [""assumption1"", ""assumption2""]
            }
        ],
        ""revenue_uplift"": [
            {
                ""category"": ""Increased Frequency"",
                ""year_1"": 200000.00,
                ""year_2"": 400000.00,
                ""year_3"": 600000.00,
                ""description"": ""Description of impact"",
                ""assumptions"": [""assumption1"", ""assumption2""]
            }
        ],
        ""roi_metrics"": {
            ""payback_period"": ""18 months"",
            ""net_present_value"": 1500000.00,
            ""irr"": 25.5,
            ""benefit_cost_ratio"": 2.5,
            ""key_assumptions"": [""assumption1"", ""assumption2""]
        },
        ""sensitivity_analysis"": [""factor1"", ""factor2""],
        ""risk_factors"": [""risk1"", ""risk2""]
    }
}

"

  const OpeningPrefix: string := "Please create a financial model for "
  const OpeningSuffix: string := "'s loyalty program."
  const DesignHeader: string := "\n\nConsider this program design: "
  const PreviousHeader: string := "\n\n\nPrevious financial model: "
  const FeedbackHeader: string := "\n\nPlease refine the model based on this feedback: "

  /**
   * Python truthiness of an `Optional[str]`: present and non-empty. The only
   * falsy values are `None` and the empty string.
   */
  predicate Truthy(o: Option<string>): (b: bool)
    ensures !b <==> o == None || o == Some("")
  {
    o.Some? && o.value != ""
  }

  /** The sentence every user instruction starts with. */
  function Opening(companyName: string): string {
    OpeningPrefix + companyName + OpeningSuffix
  }

  /** The clause asking the model to consider an earlier program design. */
  function DesignClause(design: string): string {
    DesignHeader + design
  }

  /**
   * The clause asking for a refinement: the earlier output and the feedback,
   * verbatim, inside a triple-quoted template that begins and ends with a
   * line break.
   */
  function RefinementClause(existingOutput: string, feedback: string): string {
    PreviousHeader + existingOutput + FeedbackHeader + feedback + "\n"
  }

  /**
   * `construct_user_prompt`: the opening sentence, then the design clause if
   * the design is truthy, then the refinement clause if both the earlier
   * output and the feedback are truthy.
   */
  function ConstructUserPrompt(
    companyName: string,
    programDesign: Option<string>,
    existingOutput: Option<string>,
    feedback: Option<string>
  ): (r: string)
    ensures Opening(companyName) <= r
    ensures Truthy(programDesign) ==> Opening(companyName) + DesignClause(programDesign.value) <= r
    ensures Truthy(existingOutput) && Truthy(feedback) ==>
              |RefinementClause(existingOutput.value, feedback.value)| <= |r| &&
              r[|r| - |RefinementClause(existingOutput.value, feedback.value)|..]
                == RefinementClause(existingOutput.value, feedback.value)
  {
    var prompt := Opening(companyName);
    var prompt := if Truthy(programDesign) then prompt + DesignClause(programDesign.value) else prompt;
    if Truthy(existingOutput) && Truthy(feedback) then
      prompt + RefinementClause(existingOutput.value, feedback.value)
    else
      prompt
  }

  /** With no design and no complete refinement pair, the prompt is the opening sentence alone. */
  lemma OpeningOnly(companyName: string, programDesign: Option<string>,
                    existingOutput: Option<string>, feedback: Option<string>)
    requires !Truthy(programDesign)
    requires !(Truthy(existingOutput) && Truthy(feedback))
    ensures ConstructUserPrompt(companyName, programDesign, existingOutput, feedback)
              == Opening(companyName)
  {
  }

  /** A design without a complete refinement pair: the opening and the design clause, nothing more. */
  lemma DesignOnly(companyName: string, programDesign: Option<string>,
                   existingOutput: Option<string>, feedback: Option<string>)
    requires Truthy(programDesign)
    requires !(Truthy(existingOutput) && Truthy(feedback))
    ensures ConstructUserPrompt(companyName, programDesign, existingOutput, feedback)
              == Opening(companyName) + DesignClause(programDesign.value)
  {
  }

  /**
   * Right after the opening sentence comes the design header exactly when
   * the design is truthy, followed by the design text itself.
   */
  lemma DesignClauseIff(companyName: string, programDesign: Option<string>,
                        existingOutput: Option<string>, feedback: Option<string>)
    ensures var tail := ConstructUserPrompt(companyName, programDesign, existingOutput, feedback)
                          [|Opening(companyName)|..];
            && (Truthy(programDesign) <==> DesignHeader <= tail)
            && (Truthy(programDesign) ==> DesignClause(programDesign.value) <= tail)
  {
    var r := ConstructUserPrompt(companyName, programDesign, existingOutput, feedback);
    var tail := r[|Opening(companyName)|..];
    if Truthy(programDesign) {
      assert tail[..|DesignClause(programDesign.value)|] == DesignClause(programDesign.value);
    } else if Truthy(existingOutput) && Truthy(feedback) {
      assert tail == RefinementClause(existingOutput.value, feedback.value);
      assert tail[2] == '\n' != DesignHeader[2];
    } else {
      assert tail == "";
    }
  }

  /**
   * A refinement pair with a missing or empty half leaves the prompt
   * exactly as if neither half had been given.
   */
  lemma RefinementNeedsBoth(companyName: string, programDesign: Option<string>,
                            existingOutput: Option<string>, feedback: Option<string>)
    requires !(Truthy(existingOutput) && Truthy(feedback))
    ensures ConstructUserPrompt(companyName, programDesign, existingOutput, feedback)
              == ConstructUserPrompt(companyName, programDesign, None, None)
  {
  }

  /**
   * With a complete refinement pair, the prompt is the opening sentence,
   * then the design clause (if any), then the refinement clause: the design
   * clause always precedes the refinement clause.
   */
  lemma ClauseOrder(companyName: string, programDesign: Option<string>,
                      existingOutput: Option<string>, feedback: Option<string>)
    requires Truthy(existingOutput) && Truthy(feedback)
    ensures var r := ConstructUserPrompt(companyName, programDesign, existingOutput, feedback);
            var refinement := RefinementClause(existingOutput.value, feedback.value);
            && (Truthy(programDesign) ==>
                  r == Opening(companyName) + DesignClause(programDesign.value) + refinement)
            && (!Truthy(programDesign) ==> r == Opening(companyName) + refinement)
  {
  }

  /** The company name appears verbatim right after the opening words. */
  lemma CompanyNameInPrompt(companyName: string, programDesign: Option<string>,
                            existingOutput: Option<string>, feedback: Option<string>)
    ensures OccursAt(ConstructUserPrompt(companyName, programDesign, existingOutput, feedback),
                     companyName, |OpeningPrefix|)
  {
    var r := ConstructUserPrompt(companyName, programDesign, existingOutput, feedback);
    var o := Opening(companyName);
    assert r[..|o|] == o;
    assert r[|OpeningPrefix|..|OpeningPrefix| + |companyName|]
        == o[|OpeningPrefix|..|OpeningPrefix| + |companyName|];
  }

  /** A truthy design appears verbatim right after the design header. */
  lemma DesignInPrompt(companyName: string, programDesign: Option<string>,
                       existingOutput: Option<string>, feedback: Option<string>)
    requires Truthy(programDesign)
    ensures OccursAt(ConstructUserPrompt(companyName, programDesign, existingOutput, feedback),
                     programDesign.value, |Opening(companyName)| + |DesignHeader|)
  {
    var r := ConstructUserPrompt(companyName, programDesign, existingOutput, feedback);
    var o, d := Opening(companyName), programDesign.value;
    var i := |o| + |DesignHeader|;
    assert r[..|o| + |DesignClause(d)|] == o + DesignClause(d);
    assert r[i..i + |d|] == (o + DesignClause(d))[i..i + |d|];
  }

  /** A complete refinement pair appears verbatim in the prompt, earlier output first. */
  lemma RefinementInputsInPrompt(companyName: string, programDesign: Option<string>,
                                 existingOutput: Option<string>, feedback: Option<string>)
    requires Truthy(existingOutput) && Truthy(feedback)
    ensures var r := ConstructUserPrompt(companyName, programDesign, existingOutput, feedback);
            exists i, j :: i < j && OccursAt(r, existingOutput.value, i) && OccursAt(r, feedback.value, j)
  {
    var r := ConstructUserPrompt(companyName, programDesign, existingOutput, feedback);
    var e, f := existingOutput.value, feedback.value;
    var rc := RefinementClause(e, f);
    var base := |r| - |rc|;
    assert r[base..] == rc;
    var ie := base + |PreviousHeader|;
    assert rc[|PreviousHeader|..|PreviousHeader| + |e|] == e;
    assert r[ie..ie + |e|] == rc[|PreviousHeader|..|PreviousHeader| + |e|];
    var k := |PreviousHeader| + |e| + |FeedbackHeader|;
    assert rc[k..k + |f|] == f;
    assert r[base + k..base + k + |f|] == rc[k..k + |f|];
    assert OccursAt(r, e, ie) && OccursAt(r, f, base + k);
  }
}
