/**
 * The planner and critic prompt builders. Each is an f-string with a fixed head, the
 * log between triple quotes, the rendered knowledge-base snippets and (for the critic)
 * the raw planner output, surrounded by newlines and then stripped.
 */
module Prompts {
  import opened Strings

  /** One retrieved knowledge-base chunk as the pipeline hands it on. */
  datatype Context = Context(text: string, source: string, chunkIndex: int, distance: string)

  const PlannerSystem: string :=
    "You are a senior Kubernetes SRE assistant.\n"
    + "You must produce an actionable incident analysis and a safe execution plan.\n"
    + "Return ONLY valid JSON (no markdown, no extra text)."

  const CriticSystem: string :=
    "You are a strict reviewer of incident response plans.\n"
    + "Check the plan for: correctness, specificity, safety, and whether it is grounded in the provided log/context.\n"
    + "Return ONLY valid JSON (no markdown, no extra text)."

  /** The planner template before the log label, without its leading newline. */
  const PlannerIntro: string := "You are given:" + PlannerBody

  const PlannerBody: string :=
    "\n"
    + "1) A log excerpt from a Kubernetes incident\n"
    + "2) Retrieved knowledge base snippets (may include runbooks / common fixes)\n"
    + "\n"
    + "TASK:\n"
    + "- Identify likely root cause (RCA)\n"
    + "- Provide confidence: high/medium/low\n"
    + "- Provide an ordered plan with concrete commands (safe + realistic)\n"
    + "- If you cannot provide clear commands, set status=\"need_more_info\" and list what info is needed (commands to collect more evidence)\n"
    + "\n"
    + "OUTPUT JSON SCHEMA (STRICT):\n"
    + "{\n"
    + "  \"status\": \"final\" | \"need_more_info\",\n"
    + "  \"root_cause\": \"...\",\n"
    + "  \"confidence\": \"high\" | \"medium\" | \"low\",\n"
    + "  \"reasoning_summary\": \"...\",\n"
    + "  \"evidence\": [{\"type\":\"log|kb\",\"snippet\":\"...\",\"source\":\"...\"}],\n"
    + "  \"plan_steps\": [{\"title\":\"...\",\"command\":\"...\",\"purpose\":\"...\",\"expected\":\"...\",\"risk\":\"low|med|high\"}],\n"
    + "  \"info_requests\": [{\"title\":\"...\",\"command\":\"...\",\"why\":\"...\"}]\n"
    + "}\n"
    + "\n"

  /** The critic template before the log label, without its leading newline. */
  const CriticIntro: string := "Review the proposed plan." + CriticBody

  const CriticBody: string :=
    " Verify:\n"
    + "- Is it specific and executable?\n"
    + "- Are commands present and safe?\n"
    + "- Is RCA grounded in log + KB snippets?\n"
    + "- If unclear, change status to \"need_more_info\" and add 3-8 info_requests with precise commands.\n"
    + "- If commands are dangerous, replace with safer alternatives and set risk accordingly.\n"
    + "\n"
    + "Return JSON with SAME schema as planner output.\n"
    + "\n"

  /** The log label and the quotes around the log. */
  const LogOpen: string := "LOG:\n\"\"\""
  const LogClose: string := "\"\"\""

  const PlanHeader: string := "\n\nPROPOSED PLAN JSON:\n"

  /** The common tail of both prompts, after stripping. */
  const Closing: string := "\n\nReturn ONLY JSON."

  /** The rendering of one context, shared by both builders. */
  function ContextBlock(c: Context): string {
    "- SOURCE: " + c.source + "\n  DISTANCE: " + c.distance + "\n  TEXT: " + c.text + "\n"
  }

  function Blocks(cs: seq<Context>): (bs: seq<string>)
    ensures |bs| == |cs|
    ensures forall i :: 0 <= i < |cs| ==> bs[i] == ContextBlock(cs[i])
  {
    seq(|cs|, i requires 0 <= i < |cs| => ContextBlock(cs[i]))
  }

  /** The snippet text: the blocks joined by a newline. */
  function RenderContexts(cs: seq<Context>): string {
    Join("\n", Blocks(cs))
  }

  /** The snippet section as both prompts carry it, right after the closing quotes of the log. */
  function SnippetsSection(cs: seq<Context>): string {
    "\n\nRETRIEVED KB SNIPPETS:\n" + RenderContexts(cs)
  }

  /**
   * Exactly one block per context, in order: block `k` starts at the `k`-th offset of the
   * newline join, a newline follows every block but the last, and the last block ends the text.
   */
  lemma BlocksInOrder(cs: seq<Context>, k: nat)
    requires k < |cs|
    ensures OccursAt(ContextBlock(cs[k]), RenderContexts(cs), JoinOffset("\n", Blocks(cs), k))
    ensures k + 1 < |cs| ==> OccursAt("\n", RenderContexts(cs), JoinOffset("\n", Blocks(cs), k) + |ContextBlock(cs[k])|)
    ensures k + 1 == |cs| ==> |RenderContexts(cs)| == JoinOffset("\n", Blocks(cs), k) + |ContextBlock(cs[k])|
  {
    JoinInOrder("\n", Blocks(cs), k);
  }

  /** No contexts, no snippet text. */
  lemma RenderEmpty()
    ensures RenderContexts([]) == ""
  {
  }

  /** The log label, the log and the closing quotes. */
  function Quoted(log: string): string {
    LogOpen + log + LogClose
  }

  /** Stripping a text with visible ends, wrapped in one newline on each side, unwraps it. */
  lemma StripNewlines(x: string)
    requires |x| > 0 && !IsSpace(x[0]) && !IsSpace(x[|x| - 1])
    ensures Strip("\n" + x + "\n") == x
  {
    StripSurrounded("\n", x, "\n");
  }

  /**
   * The shape shared by both templates: an introduction that starts with `lead`, a quoted
   * part, and a tail that ends with `close`. Wrapped in newlines and stripped, it comes back
   * unchanged, and every part is where it was put.
   */
  lemma Wrapped(intro: string, quoted: string, tail: string, lead: string, close: string)
    requires StartsWith(intro, lead) && |lead| > 0 && !IsSpace(lead[0])
    requires EndsWith(tail, close) && |close| > 0 && !IsSpace(close[|close| - 1])
    ensures var x := intro + quoted + tail;
      && Strip("\n" + x + "\n") == x
      && StartsWith(x, lead) && EndsWith(x, tail)
      && OccursAt(quoted, x, |intro|)
  {
    var x := intro + quoted + tail;
    Framed(intro, quoted, tail);
    StartsWithTrans(x, intro, lead);
    EndsWithTrans(x, tail, close);
    assert x[0] == lead[0];
    assert x[|x| - 1] == close[|close| - 1];
    StripNewlines(x);
  }

  /** The critic's shape: `Wrapped` with one more part between the quoted part and the tail. */
  lemma Wrapped4(intro: string, quoted: string, mid: string, tail: string, lead: string, close: string)
    requires StartsWith(intro, lead) && |lead| > 0 && !IsSpace(lead[0])
    requires EndsWith(tail, close) && |close| > 0 && !IsSpace(close[|close| - 1])
    ensures var x := intro + quoted + mid + tail;
      && Strip("\n" + x + "\n") == x
      && StartsWith(x, lead) && EndsWith(x, tail)
  {
    var x := intro + quoted + mid + tail;
    Framed4(intro, quoted, mid, tail);
    StartsWithTrans(x, intro, lead);
    EndsWithTrans(x, tail, close);
    assert x[0] == lead[0];
    assert x[|x| - 1] == close[|close| - 1];
    StripNewlines(x);
  }

  /** A text ends with what was appended to it. */
  lemma EndsWithAppended(s: string, t: string)
    ensures EndsWith(s + t, t)
  {
    assert (s + t)[|s|..] == t;
  }

  /** A text starts with what it was appended to. */
  lemma StartsWithPrefix(s: string, t: string)
    ensures StartsWith(s + t, s)
  {
    assert (s + t)[..|s|] == s;
  }

  /**
   * `planner_prompt`: the template with the inputs filled in; the stripping of its outer
   * newlines is accounted for in `PlannerPromptLayout`.
   */
  function PlannerPrompt(log: string, cs: seq<Context>): string {
    PlannerIntro + Quoted(log) + (SnippetsSection(cs) + Closing)
  }

  /**
   * The planner prompt is what stripping the newline-wrapped template leaves: it begins with
   * "You are given:", carries the log verbatim between triple quotes after "LOG:", and ends
   * with the snippet section and "Return ONLY JSON."
   */
  lemma PlannerPromptLayout(log: string, cs: seq<Context>)
    ensures Strip("\n" + PlannerPrompt(log, cs) + "\n") == PlannerPrompt(log, cs)
    ensures StartsWith(PlannerPrompt(log, cs), "You are given:")
    ensures EndsWith(PlannerPrompt(log, cs), SnippetsSection(cs) + Closing)
    ensures OccursAt(Quoted(log), PlannerPrompt(log, cs), |PlannerIntro|)
  {
    StartsWithPrefix("You are given:", PlannerBody);
    EndsWithAppended(SnippetsSection(cs), Closing);
    Wrapped(PlannerIntro, Quoted(log), SnippetsSection(cs) + Closing, "You are given:", Closing);
  }

  /**
   * `critic_prompt`: the template with the inputs filled in; the stripping of its outer
   * newlines is accounted for in `CriticPromptLayout`.
   */
  function CriticPrompt(log: string, cs: seq<Context>, planJson: string): string {
    CriticIntro + Quoted(log) + (SnippetsSection(cs) + PlanHeader) + (planJson + Closing)
  }

  /**
   * The critic prompt is what stripping the newline-wrapped template leaves: it begins with
   * "Review the proposed plan." and ends with the raw plan text verbatim, then
   * "Return ONLY JSON."
   */
  lemma CriticPromptStripped(log: string, cs: seq<Context>, planJson: string)
    ensures Strip("\n" + CriticPrompt(log, cs, planJson) + "\n") == CriticPrompt(log, cs, planJson)
    ensures StartsWith(CriticPrompt(log, cs, planJson), "Review the proposed plan.")
    ensures EndsWith(CriticPrompt(log, cs, planJson), planJson + Closing)
  {
    StartsWithPrefix("Review the proposed plan.", CriticBody);
    EndsWithAppended(planJson, Closing);
    Wrapped4(CriticIntro, Quoted(log), SnippetsSection(cs) + PlanHeader, planJson + Closing,
             "Review the proposed plan.", Closing);
  }

  /**
   * The critic prompt quotes the log right after its introduction, as the planner prompt
   * does, and follows it with the snippet section and the "PROPOSED PLAN JSON:" header.
   */
  lemma CriticPromptLayout(log: string, cs: seq<Context>, planJson: string)
    ensures OccursAt(Quoted(log), CriticPrompt(log, cs, planJson), |CriticIntro|)
    ensures OccursAt(SnippetsSection(cs) + PlanHeader, CriticPrompt(log, cs, planJson), |CriticIntro| + |Quoted(log)|)
  {
    Framed4(CriticIntro, Quoted(log), SnippetsSection(cs) + PlanHeader, planJson + Closing);
  }
}
