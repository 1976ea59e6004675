/**
 * The incident-analysis pipeline: reshaping a vector-store query result into contexts,
 * keeping the contexts that fit a character budget, the lenient JSON extraction, the
 * fail-closed safety gate, and the planner/critic orchestration.
 *
 * The embedder and the vector store appear as one parameter `retrieve` (from the prompt
 * log and `top_k` to a query result), the language model as `chat` (from a system and a
 * user prompt to its reply), and the JSON decoder as `loads` (None when the text does not
 * decode).
 */
module Pipeline {
  import opened Wrappers
  import opened Strings
  import opened JsonValues
  import opened Schemas
  import opened Safety
  import opened Text
  import opened Prompts

  // ----- query results and contexts -----

  /** The metadata ingestion attaches to a chunk; either key may be missing. */
  datatype Metadata = Metadata(source: Option<string>, chunkIndex: Option<int>)

  /**
   * A query result: each key is absent or holds one list per query vector. A chunk stored
   * without metadata has `None` in its slot.
   */
  datatype QueryResult = QueryResult(
    documents: Option<seq<seq<string>>>,
    metadatas: Option<seq<seq<Option<Metadata>>>>,
    distances: Option<seq<seq<string>>>)

  /** `result.get(key, [[]])[0]`: an absent key gives no items, an empty batch list an IndexError. */
  function FirstBatch<T>(field: Option<seq<seq<T>>>): Result<seq<T>, string> {
    match field
    case None => Success([])
    case Some(batches) => if |batches| == 0 then Failure("IndexError") else Success(batches[0])
  }

  /** The context built from one document, its metadata and its distance. */
  function MakeContext(doc: string, meta: Metadata, dist: string): Context {
    Context(doc, meta.source.GetOr("unknown"), meta.chunkIndex.GetOr(-1), dist)
  }

  function Min3(a: nat, b: nat, c: nat): (m: nat)
    ensures m <= a && m <= b && m <= c
    ensures m == a || m == b || m == c
  {
    if a <= b && a <= c then a else if b <= c then b else c
  }

  /**
   * The loop over `zip(docs, metas, dists)`: one context per index of the shortest list, in
   * order. A missing metadata record fails the whole loop (`None` has no `get`).
   */
  function ZipContexts(docs: seq<string>, metas: seq<Option<Metadata>>, dists: seq<string>): (r: Result<seq<Context>, string>)
    ensures var n := Min3(|docs|, |metas|, |dists|);
      && (r.Success? <==> forall i :: 0 <= i < n ==> metas[i].Some?)
      && (r.Success? ==>
            |r.value| == n
            && forall i :: 0 <= i < n ==> r.value[i] == MakeContext(docs[i], metas[i].value, dists[i]))
      && (r.Failure? ==> r.error == "AttributeError")
    decreases |docs|
  {
    if |docs| == 0 || |metas| == 0 || |dists| == 0 then Success([])
    else
      match metas[0]
      case None => Failure("AttributeError")
      case Some(meta) =>
        var rest := ZipContexts(docs[1..], metas[1..], dists[1..]);
        assert forall i :: 1 <= i < |metas| ==> metas[i] == metas[1..][i - 1];
        if rest.Failure? then rest
        else Success([MakeContext(docs[0], meta, dists[0])] + rest.value)
  }

  /**
   * `_format_contexts`: the first batch of each of the three lists, zipped. Each lookup
   * happens in turn, so the first key holding an empty batch list raises.
   */
  function FormatContexts(q: QueryResult): (r: Result<seq<Context>, string>)
    ensures r.Failure? ==> r.error in {"IndexError", "AttributeError"}
    ensures (q.documents == Some([]) || q.metadatas == Some([]) || q.distances == Some([])) ==> r == Failure("IndexError")
    ensures FirstBatch(q.documents).Success? && FirstBatch(q.metadatas).Success? && FirstBatch(q.distances).Success? ==>
      var docs := FirstBatch(q.documents).value;
      var metas := FirstBatch(q.metadatas).value;
      var dists := FirstBatch(q.distances).value;
      var n := Min3(|docs|, |metas|, |dists|);
      && (r.Success? <==> forall i :: 0 <= i < n ==> metas[i].Some?)
      && (r.Success? ==>
            |r.value| == n
            && forall i :: 0 <= i < n ==> r.value[i] == MakeContext(docs[i], metas[i].value, dists[i]))
  {
    var docs :- FirstBatch(q.documents);
    var metas :- FirstBatch(q.metadatas);
    var dists :- FirstBatch(q.distances);
    ZipContexts(docs, metas, dists)
  }

  /** A key missing from the result contributes no items, so nothing is retrieved. */
  lemma MissingKeyGivesNoContexts(q: QueryResult)
    requires q.documents.None? || q.metadatas.None? || q.distances.None?
    requires q.documents != Some([]) && q.metadatas != Some([]) && q.distances != Some([])
    ensures FormatContexts(q) == Success([])
  {
  }

  // ----- the context budget -----

  /** The summed text length of some contexts. */
  function TotalLength(cs: seq<Context>): nat
    decreases |cs|
  {
    if |cs| == 0 then 0 else TotalLength(cs[..|cs| - 1]) + |cs[|cs| - 1].text|
  }

  lemma {:induction false} TotalLengthMonotone(cs: seq<Context>, m: nat, n: nat)
    requires m <= n <= |cs|
    ensures TotalLength(cs[..m]) <= TotalLength(cs[..n])
    decreases n - m
  {
    if m < n {
      TotalLengthMonotone(cs, m, n - 1);
      assert cs[..n][..n - 1] == cs[..n - 1];
    }
  }

  /**
   * The budget loop from index `i` on, with `used` characters taken so far: the number of
   * contexts kept when it breaks or runs out.
   */
  function KeptCount(cs: seq<Context>, i: nat, used: int, maxChars: int): (n: nat)
    requires i <= |cs| && used == TotalLength(cs[..i])
    requires i > 0 ==> used <= maxChars
    ensures i <= n <= |cs|
    ensures n > 0 ==> TotalLength(cs[..n]) <= maxChars
    ensures n < |cs| ==> TotalLength(cs[..n]) + |cs[n].text| > maxChars
    decreases |cs| - i
  {
    if i == |cs| || used + |cs[i].text| > maxChars then i
    else
      assert cs[..i + 1][..i] == cs[..i];
      KeptCount(cs, i + 1, used + |cs[i].text|, maxChars)
  }

  /**
   * The contexts kept for the prompts: a prefix of the retrieved ones whose text lengths
   * sum to at most `maxChars`; when something is dropped, adding the first dropped context
   * would have exceeded the budget.
   */
  function KeepWithinBudget(cs: seq<Context>, maxChars: int): (kept: seq<Context>)
    ensures |kept| <= |cs| && kept == cs[..|kept|]
    ensures |kept| > 0 ==> TotalLength(kept) <= maxChars
    ensures |kept| < |cs| ==> TotalLength(kept) + |cs[|kept|].text| > maxChars
  {
    cs[..KeptCount(cs, 0, 0, maxChars)]
  }

  /** The kept prefix is the longest prefix that fits the budget. */
  lemma LongestFittingPrefix(cs: seq<Context>, maxChars: int, n: nat)
    requires n <= |cs| && TotalLength(cs[..n]) <= maxChars
    ensures n <= |KeepWithinBudget(cs, maxChars)|
  {
    var k := |KeepWithinBudget(cs, maxChars)|;
    if k < |cs| {
      assert cs[..k + 1][..k] == cs[..k];
      assert TotalLength(cs[..k + 1]) > maxChars;
      if n > k {
        TotalLengthMonotone(cs, k + 1, n);
      }
    }
  }

  // ----- lenient JSON extraction -----

  /** `i` is the first `{` and `j` the last `}` of `t`, and the first comes before the last. */
  predicate OuterBraces(t: string, i: int, j: int) {
    0 <= i < j < |t| && t[i] == '{' && '{' !in t[..i] && t[j] == '}' && '}' !in t[j + 1..]
  }

  /** Two positions that both hold the first `c` of `t` are the same. */
  lemma FirstOccurrenceUnique(t: string, c: char, a: int, b: int)
    requires 0 <= a < |t| && t[a] == c && c !in t[..a]
    requires 0 <= b < |t| && t[b] == c && c !in t[..b]
    ensures a == b
  {
  }

  /** Two positions that both hold the last `c` of `t` are the same. */
  lemma LastOccurrenceUnique(t: string, c: char, a: int, b: int)
    requires 0 <= a < |t| && t[a] == c && c !in t[a + 1..]
    requires 0 <= b < |t| && t[b] == c && c !in t[b + 1..]
    ensures a == b
  {
  }

  /** A first `{` before a last `}` is exactly what `Find` and `RFind` report. */
  lemma OuterBracesFound(t: string, i: int, j: int)
    requires OuterBraces(t, i, j)
    ensures Find(t, '{') == i && RFind(t, '}') == j
  {
    assert t[i] in t && t[j] in t;
    FirstOccurrenceUnique(t, '{', i, Find(t, '{'));
    LastOccurrenceUnique(t, '}', j, RFind(t, '}'));
  }

  /** The only outer braces are at the first `{` and the last `}`, and they are outer braces when ordered. */
  lemma BracesAtFind(t: string)
    ensures forall i, j :: OuterBraces(t, i, j) ==> i == Find(t, '{') && j == RFind(t, '}')
    ensures Find(t, '{') != -1 && RFind(t, '}') != -1 && RFind(t, '}') > Find(t, '{') ==> OuterBraces(t, Find(t, '{'), RFind(t, '}'))
  {
    forall i, j | OuterBraces(t, i, j) ensures i == Find(t, '{') && j == RFind(t, '}') {
      OuterBracesFound(t, i, j);
    }
  }

  /**
   * The fallback of `_parse_json_strict` on an already stripped text: decode the slice from
   * the first `{` to the last `}` inclusive, when there is one.
   */
  function DecodeOuterBraces(loads: string -> Option<Json>, t: string): (r: Result<Json, string>)
    ensures r.Success? <==> exists i, j :: OuterBraces(t, i, j) && loads(t[i..j + 1]).Some?
    ensures r.Success? ==> exists i, j :: OuterBraces(t, i, j) && r == Success(loads(t[i..j + 1]).value)
    ensures r.Failure? ==> r.error == "JSONDecodeError"
  {
    var start := Find(t, '{');
    var end := RFind(t, '}');
    BracesAtFind(t);
    if start != -1 && end != -1 && end > start then
      assert OuterBraces(t, start, end);
      match loads(t[start..end + 1])
      case Some(j) => Success(j)
      case None => Failure("JSONDecodeError")
    else
      Failure("JSONDecodeError")
  }

  /**
   * The decoding half of `_parse_json_strict`, on the stripped text `t`: decode `t`; failing
   * that, decode the slice from its first `{` to its last `}` inclusive; failing that (or
   * with no such slice), fail as the decoder does.
   */
  function DecodeLenient(loads: string -> Option<Json>, t: string): (r: Result<Json, string>)
    ensures loads(t).Some? ==> r == Success(loads(t).value)
    ensures loads(t).None? ==>
      && (r.Success? <==> exists i, j :: OuterBraces(t, i, j) && loads(t[i..j + 1]).Some?)
      && (r.Success? ==> exists i, j :: OuterBraces(t, i, j) && r == Success(loads(t[i..j + 1]).value))
    ensures r.Failure? ==> r.error == "JSONDecodeError"
  {
    match loads(t)
    case Some(j) => Success(j)
    case None => DecodeOuterBraces(loads, t)
  }

  /** `_parse_json_strict`: the text is stripped of surrounding whitespace, then decoded leniently. */
  function ParseJsonStrict(loads: string -> Option<Json>, text: string): (r: Result<Json, string>)
    ensures exists t :: IsStripOf(t, text) && r == DecodeLenient(loads, t)
  {
    StripSpec(text);
    DecodeLenient(loads, Strip(text))
  }

  /** Decode and validate; the error is the name of the exception Python would raise. */
  function ParseResponse(loads: string -> Option<Json>, text: string): (r: Result<AnalysisResponse, string>)
    ensures r.Success? <==> ParseJsonStrict(loads, text).Success? && ValidateResponse(ParseJsonStrict(loads, text).value).Some?
    ensures r.Success? ==> r.value == ValidateResponse(ParseJsonStrict(loads, text).value).value
    ensures r.Failure? ==> r.error == (if ParseJsonStrict(loads, text).Failure? then "JSONDecodeError" else "ValidationError")
  {
    var j :- ParseJsonStrict(loads, text);
    match ValidateResponse(j)
    case Some(a) => Success(a)
    case None => Failure("ValidationError")
  }

  // ----- the safety gate -----

  predicate StepDangerous(s: PlanStep) {
    IsCommandDangerous(Some(s.command))
  }

  /** No plan step of `a` has a dangerous command. */
  predicate AllStepsSafe(a: AnalysisResponse) {
    forall i :: 0 <= i < |a.planSteps| ==> !StepDangerous(a.planSteps[i])
  }

  /** The info request that replaces a plan with a dangerous command in it. */
  function UnsafeRequest(command: string): InfoRequest {
    InfoRequest("Unsafe command detected", "N/A",
      "Generated command looks unsafe: " + command + ". Please review and provide safer constraints.")
  }

  /** The index of the first element at or after `k` that satisfies `p`, if any. */
  function FirstWhere<T>(p: T -> bool, xs: seq<T>, k: nat): (r: Option<nat>)
    requires k <= |xs|
    ensures r.None? <==> forall i :: k <= i < |xs| ==> !p(xs[i])
    ensures r.Some? ==> k <= r.value < |xs| && p(xs[r.value])
                        && forall i :: k <= i < r.value ==> !p(xs[i])
    decreases |xs| - k
  {
    if k == |xs| then None
    else if p(xs[k]) then Some(k)
    else FirstWhere(p, xs, k + 1)
  }

  /**
   * `_safe_check`: a response without a dangerous step is returned as it is. Otherwise the
   * plan is dropped, the status becomes need_more_info, and one info request quoting the
   * first dangerous command is appended; the other fields are kept.
   */
  function SafeCheck(a: AnalysisResponse): (r: AnalysisResponse)
    ensures AllStepsSafe(a) ==> r == a
    ensures !AllStepsSafe(a) ==>
      && r.status == NeedMoreInfo && r.planSteps == []
      && r.rootCause == a.rootCause && r.confidence == a.confidence
      && r.reasoningSummary == a.reasoningSummary && r.evidence == a.evidence
      && exists k :: 0 <= k < |a.planSteps| && StepDangerous(a.planSteps[k])
                     && (forall i :: 0 <= i < k ==> !StepDangerous(a.planSteps[i]))
                     && r.infoRequests == a.infoRequests + [UnsafeRequest(a.planSteps[k].command)]
    ensures AllStepsSafe(r)
  {
    match FirstWhere(StepDangerous, a.planSteps, 0)
    case None => a
    case Some(k) =>
      a.(status := NeedMoreInfo,
         infoRequests := a.infoRequests + [UnsafeRequest(a.planSteps[k].command)],
         planSteps := [])
  }

  /** Applying the gate to its own output changes nothing. */
  lemma SafeCheckIdempotent(a: AnalysisResponse)
    ensures SafeCheck(SafeCheck(a)) == SafeCheck(a)
  {
  }

  // ----- the orchestration -----

  datatype Settings = Settings(maxLogChars: int, maxContextChars: int, topK: int)

  /** The values used when the environment sets none. */
  const DefaultSettings: Settings := Settings(14000, 12000, 5)

  /** One call of the language model. */
  datatype Call = Call(system: string, user: string)

  /** What one analysis returns, with the model calls it made, in order. */
  datatype Run = Run(response: AnalysisResponse, calls: seq<Call>)

  /** The answer when the planner's reply does not decode or validate. */
  function PlannerFailure(errorName: string): AnalysisResponse {
    AnalysisResponse(
      NeedMoreInfo,
      "Unable to generate a valid plan from the provided log.",
      Low,
      "Planner returned non-parseable output. Error: " + errorName,
      [], [],
      [InfoRequest(
        "Provide more context",
        "Provide full pod name/namespace and 200 lines around the error, plus 'kubectl describe pod ...'",
        "Current log excerpt is insufficient or malformed for planning.")])
  }

  /** The log as the prompts carry it. */
  function PromptLog(logText: string, settings: Settings): string {
    Truncate(Some(logText), settings.maxLogChars)
  }

  /** The contexts the prompts carry, or the error that retrieval raised. */
  function PromptContexts(logText: string, settings: Settings, retrieve: (string, int) -> QueryResult): Result<seq<Context>, string> {
    var all :- FormatContexts(retrieve(PromptLog(logText, settings), settings.topK));
    Success(KeepWithinBudget(all, settings.maxContextChars))
  }

  /**
   * The model calls of `analyze_log` once the prompt inputs are known. The planner is called
   * once; a reply that does not decode or validate ends the run with the canned answer. Else
   * the critic is called once with the raw planner reply; a critic reply that does not decode
   * or validate falls back to the planner's response. The result passes the safety gate.
   */
  function Consult(
    log: string, ctx: seq<Context>,
    chat: (string, string) -> string,
    loads: string -> Option<Json>): (run: Run)
    ensures 1 <= |run.calls| <= 2
    ensures run.calls[0] == Call(PlannerSystem, PlannerPrompt(log, ctx))
    ensures var planRaw := chat(PlannerSystem, PlannerPrompt(log, ctx));
      && (|run.calls| == 1 <==> ParseResponse(loads, planRaw).Failure?)
      && (|run.calls| == 1 ==> run.response == PlannerFailure(ParseResponse(loads, planRaw).error))
      && (|run.calls| == 2 ==>
            && run.calls[1] == Call(CriticSystem, CriticPrompt(log, ctx, planRaw))
            && var criticRaw := chat(CriticSystem, run.calls[1].user);
               run.response == SafeCheck(
                 if ParseResponse(loads, criticRaw).Success? then ParseResponse(loads, criticRaw).value
                 else ParseResponse(loads, planRaw).value))
    ensures AllStepsSafe(run.response)
  {
    var plannerUser := PlannerPrompt(log, ctx);
    var planRaw := chat(PlannerSystem, plannerUser);
    match ParseResponse(loads, planRaw)
    case Failure(name) =>
      Run(PlannerFailure(name), [Call(PlannerSystem, plannerUser)])
    case Success(plan) =>
      var criticUser := CriticPrompt(log, ctx, planRaw);
      var criticRaw := chat(CriticSystem, criticUser);
      var reviewed := match ParseResponse(loads, criticRaw)
                      case Success(c) => c
                      case Failure(_) => plan;
      Run(SafeCheck(reviewed), [Call(PlannerSystem, plannerUser), Call(CriticSystem, criticUser)])
  }

  /**
   * `analyze_log`: the log is cut to size, retrieval can fail only as `_format_contexts`
   * does, and otherwise the contexts are cut to the budget and the models consulted.
   */
  function AnalyzeLog(
    logText: string,
    settings: Settings,
    retrieve: (string, int) -> QueryResult,
    chat: (string, string) -> string,
    loads: string -> Option<Json>): (r: Result<Run, string>)
    ensures r.Failure? <==> PromptContexts(logText, settings, retrieve).Failure?
    ensures r.Success? ==>
      r.value == Consult(PromptLog(logText, settings), PromptContexts(logText, settings, retrieve).value, chat, loads)
  {
    var ctx :- PromptContexts(logText, settings, retrieve);
    Success(Consult(PromptLog(logText, settings), ctx, chat, loads))
  }

  /**
   * With the default settings the prompts carry at most 14000 characters of the log plus the
   * truncation marker, and snippets of at most 12000 characters in total.
   */
  lemma DefaultBudgets(logText: string, retrieve: (string, int) -> QueryResult)
    ensures |PromptLog(logText, DefaultSettings)| <= DefaultSettings.maxLogChars + |TruncationMarker|
    ensures var ctx := PromptContexts(logText, DefaultSettings, retrieve);
      ctx.Success? ==> TotalLength(ctx.value) <= DefaultSettings.maxContextChars
  {
  }

  /**
   * On the planner-failure path the answer asks for more information: low confidence, no
   * evidence, no plan and exactly one info request, naming in the summary the exception
   * that decoding or validation raised.
   */
  lemma PlannerFailureShape(log: string, ctx: seq<Context>, chat: (string, string) -> string, loads: string -> Option<Json>)
    requires |Consult(log, ctx, chat, loads).calls| == 1
    ensures var a := Consult(log, ctx, chat, loads).response;
      && a.status == NeedMoreInfo && a.confidence == Low
      && a.evidence == [] && a.planSteps == [] && |a.infoRequests| == 1
      && (a == PlannerFailure("JSONDecodeError") || a == PlannerFailure("ValidationError"))
  {
    var e := ParseResponse(loads, chat(PlannerSystem, PlannerPrompt(log, ctx)));
    assert e.error == "JSONDecodeError" || e.error == "ValidationError";
  }

  /**
   * Both models see the log verbatim between triple quotes right after their introduction,
   * and the critic's prompt ends with the planner's raw reply.
   */
  lemma PromptsCarryInputs(log: string, ctx: seq<Context>, chat: (string, string) -> string, loads: string -> Option<Json>)
    ensures var run := Consult(log, ctx, chat, loads);
      && OccursAt(Quoted(log), run.calls[0].user, |PlannerIntro|)
      && (|run.calls| == 2 ==>
            && OccursAt(Quoted(log), run.calls[1].user, |CriticIntro|)
            && EndsWith(run.calls[1].user, chat(PlannerSystem, run.calls[0].user) + Closing))
  {
    var run := Consult(log, ctx, chat, loads);
    PlannerPromptLayout(log, ctx);
    if |run.calls| == 2 {
      var planRaw := chat(PlannerSystem, PlannerPrompt(log, ctx));
      CriticPromptStripped(log, ctx, planRaw);
      CriticPromptLayout(log, ctx, planRaw);
    }
  }
}
