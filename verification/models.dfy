/**
 * The analysis response schema: the literal-valued fields, the three item records,
 * the validator that turns a decoded JSON value into a response (unknown keys are
 * ignored, list fields default to empty, `risk` defaults to "low"), and the
 * serializer that goes the other way.
 */
module Schemas {
  import opened Wrappers
  import opened JsonValues

  datatype Status = Final | NeedMoreInfo
  datatype Confidence = High | Medium | Low
  /** Four distinct literals: "med" and "medium" are not merged. */
  datatype Risk = RiskLow | RiskMed | RiskMedium | RiskHigh
  datatype EvidenceKind = LogEvidence | KbEvidence

  datatype EvidenceItem = EvidenceItem(kind: EvidenceKind, snippet: string, source: string)

  datatype PlanStep = PlanStep(title: string, command: string, purpose: string, expected: string, risk: Risk)

  datatype InfoRequest = InfoRequest(title: string, command: string, why: string)

  datatype AnalysisResponse = AnalysisResponse(
    status: Status,
    rootCause: string,
    confidence: Confidence,
    reasoningSummary: string,
    evidence: seq<EvidenceItem>,
    planSteps: seq<PlanStep>,
    infoRequests: seq<InfoRequest>)

  // ----- literal names -----

  function StatusName(s: Status): string {
    match s
    case Final => "final"
    case NeedMoreInfo => "need_more_info"
  }

  function ConfidenceName(c: Confidence): string {
    match c
    case High => "high"
    case Medium => "medium"
    case Low => "low"
  }

  function RiskName(r: Risk): string {
    match r
    case RiskLow => "low"
    case RiskMed => "med"
    case RiskMedium => "medium"
    case RiskHigh => "high"
  }

  function EvidenceKindName(k: EvidenceKind): string {
    match k
    case LogEvidence => "log"
    case KbEvidence => "kb"
  }

  /** Accepts exactly the two status literals. */
  function ParseStatus(t: string): (r: Option<Status>)
    ensures forall s: Status :: r == Some(s) <==> StatusName(s) == t
  {
    if t == "final" then Some(Final)
    else if t == "need_more_info" then Some(NeedMoreInfo)
    else None
  }

  /** Accepts exactly the three confidence literals. */
  function ParseConfidence(t: string): (r: Option<Confidence>)
    ensures forall c: Confidence :: r == Some(c) <==> ConfidenceName(c) == t
  {
    if t == "high" then Some(High)
    else if t == "medium" then Some(Medium)
    else if t == "low" then Some(Low)
    else None
  }

  /** Accepts exactly the four risk literals, without normalising "med" to "medium". */
  function ParseRisk(t: string): (r: Option<Risk>)
    ensures forall k: Risk :: r == Some(k) <==> RiskName(k) == t
  {
    if t == "low" then Some(RiskLow)
    else if t == "med" then Some(RiskMed)
    else if t == "medium" then Some(RiskMedium)
    else if t == "high" then Some(RiskHigh)
    else None
  }

  /** Accepts exactly "log" and "kb". */
  function ParseEvidenceKind(t: string): (r: Option<EvidenceKind>)
    ensures forall k: EvidenceKind :: r == Some(k) <==> EvidenceKindName(k) == t
  {
    if t == "log" then Some(LogEvidence)
    else if t == "kb" then Some(KbEvidence)
    else None
  }

  // ----- what a valid object looks like -----

  /** The object has `key` bound to the JSON string `s`. */
  predicate StringField(fields: map<string, Json>, key: string, s: string) {
    key in fields && fields[key] == JString(s)
  }

  /** `risk` is either absent (and then "low") or one of the literals. */
  predicate RiskField(fields: map<string, Json>, risk: Risk) {
    if "risk" in fields then fields["risk"] == JString(RiskName(risk)) else risk == RiskLow
  }

  /** A list field is either absent (and then empty) or an array whose items validate to `values`. */
  predicate ListField<T(==)>(fields: map<string, Json>, key: string, item: Json -> Option<T>, values: seq<T>) {
    if key in fields then
      fields[key].JArray? && |fields[key].items| == |values|
      && forall i :: 0 <= i < |values| ==> item(fields[key].items[i]) == Some(values[i])
    else values == []
  }

  predicate EvidenceFields(fields: map<string, Json>, e: EvidenceItem) {
    StringField(fields, "type", EvidenceKindName(e.kind))
    && StringField(fields, "snippet", e.snippet)
    && StringField(fields, "source", e.source)
  }

  predicate PlanStepFields(fields: map<string, Json>, p: PlanStep) {
    StringField(fields, "title", p.title)
    && StringField(fields, "command", p.command)
    && StringField(fields, "purpose", p.purpose)
    && StringField(fields, "expected", p.expected)
    && RiskField(fields, p.risk)
  }

  predicate InfoRequestFields(fields: map<string, Json>, q: InfoRequest) {
    StringField(fields, "title", q.title)
    && StringField(fields, "command", q.command)
    && StringField(fields, "why", q.why)
  }

  predicate ResponseFields(fields: map<string, Json>, r: AnalysisResponse) {
    StringField(fields, "status", StatusName(r.status))
    && StringField(fields, "root_cause", r.rootCause)
    && StringField(fields, "confidence", ConfidenceName(r.confidence))
    && StringField(fields, "reasoning_summary", r.reasoningSummary)
    && ListField(fields, "evidence", ValidateEvidence, r.evidence)
    && ListField(fields, "plan_steps", ValidatePlanStep, r.planSteps)
    && ListField(fields, "info_requests", ValidateInfoRequest, r.infoRequests)
  }

  /** The keys the response schema reads, at top level. */
  const ResponseKeys: set<string> :=
    {"status", "root_cause", "confidence", "reasoning_summary", "evidence", "plan_steps", "info_requests"}

  // ----- validators -----

  /** A required `str` field: present and a JSON string (no coercion from numbers or booleans). */
  function RequiredString(fields: map<string, Json>, key: string): (r: Option<string>)
    ensures forall s :: r == Some(s) <==> StringField(fields, key, s)
  {
    if key in fields && fields[key].JString? then Some(fields[key].str) else None
  }

  /** Validates every item of an array; one bad item fails the whole list. */
  function ValidateItems<T(==)>(items: seq<Json>, item: Json -> Option<T>): (r: Option<seq<T>>)
    ensures r.Some? <==> forall i :: 0 <= i < |items| ==> item(items[i]).Some?
    ensures r.Some? ==> |r.value| == |items| && forall i :: 0 <= i < |items| ==> item(items[i]) == Some(r.value[i])
  {
    if items == [] then Some([])
    else
      var head :- item(items[0]);
      var tail :- ValidateItems(items[1..], item);
      assert forall i :: 1 <= i < |items| ==> items[i] == items[1..][i - 1];
      Some([head] + tail)
  }

  /** A list field with an empty default: absent is `[]`, present must be an array. */
  function ValidateList<T(==, !new)>(fields: map<string, Json>, key: string, item: Json -> Option<T>): (r: Option<seq<T>>)
    ensures forall vs :: r == Some(vs) <==> ListField(fields, key, item, vs)
  {
    if key !in fields then Some([])
    else if !fields[key].JArray? then None
    else
      var r := ValidateItems(fields[key].items, item);
      assert forall vs :: ListField(fields, key, item, vs) ==> r == Some(vs) by {
        forall vs | ListField(fields, key, item, vs) ensures r == Some(vs) {
          assert r.Some?;
          assert r.value == vs;
        }
      }
      r
  }

  function ValidateEvidence(j: Json): (r: Option<EvidenceItem>)
    ensures forall e :: r == Some(e) <==> j.JObject? && EvidenceFields(j.fields, e)
  {
    if !j.JObject? then None
    else
      var kindName :- RequiredString(j.fields, "type");
      var kind :- ParseEvidenceKind(kindName);
      var snippet :- RequiredString(j.fields, "snippet");
      var source :- RequiredString(j.fields, "source");
      Some(EvidenceItem(kind, snippet, source))
  }

  function ValidatePlanStep(j: Json): (r: Option<PlanStep>)
    ensures forall p :: r == Some(p) <==> j.JObject? && PlanStepFields(j.fields, p)
  {
    if !j.JObject? then None
    else
      var title :- RequiredString(j.fields, "title");
      var command :- RequiredString(j.fields, "command");
      var purpose :- RequiredString(j.fields, "purpose");
      var expected :- RequiredString(j.fields, "expected");
      var risk :- if "risk" in j.fields then
                    (if j.fields["risk"].JString? then ParseRisk(j.fields["risk"].str) else None)
                  else Some(RiskLow);
      Some(PlanStep(title, command, purpose, expected, risk))
  }

  function ValidateInfoRequest(j: Json): (r: Option<InfoRequest>)
    ensures forall q :: r == Some(q) <==> j.JObject? && InfoRequestFields(j.fields, q)
  {
    if !j.JObject? then None
    else
      var title :- RequiredString(j.fields, "title");
      var command :- RequiredString(j.fields, "command");
      var why :- RequiredString(j.fields, "why");
      Some(InfoRequest(title, command, why))
  }

  /** The response validator: a non-object, a missing or mistyped field, or a bad literal fails. */
  function ValidateResponse(j: Json): (r: Option<AnalysisResponse>)
    ensures forall a :: r == Some(a) <==> j.JObject? && ResponseFields(j.fields, a)
  {
    if !j.JObject? then None
    else
      var statusName :- RequiredString(j.fields, "status");
      var status :- ParseStatus(statusName);
      var rootCause :- RequiredString(j.fields, "root_cause");
      var confidenceName :- RequiredString(j.fields, "confidence");
      var confidence :- ParseConfidence(confidenceName);
      var summary :- RequiredString(j.fields, "reasoning_summary");
      var evidence :- ValidateList(j.fields, "evidence", ValidateEvidence);
      var steps :- ValidateList(j.fields, "plan_steps", ValidatePlanStep);
      var requests :- ValidateList(j.fields, "info_requests", ValidateInfoRequest);
      Some(AnalysisResponse(status, rootCause, confidence, summary, evidence, steps, requests))
  }

  // ----- serialization -----

  function EvidenceToJson(e: EvidenceItem): Json {
    JObject(map["type" := JString(EvidenceKindName(e.kind)), "snippet" := JString(e.snippet), "source" := JString(e.source)])
  }

  function PlanStepToJson(p: PlanStep): Json {
    JObject(map["title" := JString(p.title), "command" := JString(p.command), "purpose" := JString(p.purpose),
                "expected" := JString(p.expected), "risk" := JString(RiskName(p.risk))])
  }

  function InfoRequestToJson(q: InfoRequest): Json {
    JObject(map["title" := JString(q.title), "command" := JString(q.command), "why" := JString(q.why)])
  }

  function ResponseToJson(a: AnalysisResponse): Json {
    JObject(map[
      "status" := JString(StatusName(a.status)),
      "root_cause" := JString(a.rootCause),
      "confidence" := JString(ConfidenceName(a.confidence)),
      "reasoning_summary" := JString(a.reasoningSummary),
      "evidence" := JArray(seq(|a.evidence|, i requires 0 <= i < |a.evidence| => EvidenceToJson(a.evidence[i]))),
      "plan_steps" := JArray(seq(|a.planSteps|, i requires 0 <= i < |a.planSteps| => PlanStepToJson(a.planSteps[i]))),
      "info_requests" := JArray(seq(|a.infoRequests|, i requires 0 <= i < |a.infoRequests| => InfoRequestToJson(a.infoRequests[i])))])
  }

  // ----- properties -----

  /** Serializing and validating again gives back the same response. */
  lemma ResponseRoundTrip(a: AnalysisResponse)
    ensures ValidateResponse(ResponseToJson(a)) == Some(a)
  {
    var f := ResponseToJson(a).fields;
    forall e | e in a.evidence ensures ValidateEvidence(EvidenceToJson(e)) == Some(e) {
      assert EvidenceFields(EvidenceToJson(e).fields, e);
    }
    forall p | p in a.planSteps ensures ValidatePlanStep(PlanStepToJson(p)) == Some(p) {
      assert PlanStepFields(PlanStepToJson(p).fields, p);
    }
    forall q | q in a.infoRequests ensures ValidateInfoRequest(InfoRequestToJson(q)) == Some(q) {
      assert InfoRequestFields(InfoRequestToJson(q).fields, q);
    }
    assert ListField(f, "evidence", ValidateEvidence, a.evidence);
    assert ListField(f, "plan_steps", ValidatePlanStep, a.planSteps);
    assert ListField(f, "info_requests", ValidateInfoRequest, a.infoRequests);
    assert ResponseFields(f, a);
  }

  /** A key outside the schema, added or overwritten, does not change the verdict. */
  lemma UnknownKeyIgnored(fields: map<string, Json>, k: string, v: Json)
    requires k !in ResponseKeys
    ensures ValidateResponse(JObject(fields[k := v])) == ValidateResponse(JObject(fields))
  {
    forall a: AnalysisResponse ensures ResponseFields(fields[k := v], a) == ResponseFields(fields, a) {
    }
  }

  /** Only an object can be a response, and each required key must be present. */
  lemma RequiredKeysNeeded(j: Json, key: string)
    requires key in {"status", "root_cause", "confidence", "reasoning_summary"}
    requires !j.JObject? || key !in j.fields
    ensures ValidateResponse(j) == None
  {
  }

  /** The three list fields may be left out; they then validate as empty. */
  lemma MinimalResponse(status: Status, rootCause: string, confidence: Confidence, summary: string)
    ensures ValidateResponse(JObject(map[
              "status" := JString(StatusName(status)), "root_cause" := JString(rootCause),
              "confidence" := JString(ConfidenceName(confidence)), "reasoning_summary" := JString(summary)]))
            == Some(AnalysisResponse(status, rootCause, confidence, summary, [], [], []))
  {
    var f := map["status" := JString(StatusName(status)), "root_cause" := JString(rootCause),
                 "confidence" := JString(ConfidenceName(confidence)), "reasoning_summary" := JString(summary)];
    assert ResponseFields(f, AnalysisResponse(status, rootCause, confidence, summary, [], [], []));
  }

  /** A plan step without `risk` gets "low"; a present `risk` must be one of the four literals. */
  lemma RiskDefaultsToLow(title: string, command: string, purpose: string, expected: string)
    ensures ValidatePlanStep(JObject(map["title" := JString(title), "command" := JString(command),
                                         "purpose" := JString(purpose), "expected" := JString(expected)]))
            == Some(PlanStep(title, command, purpose, expected, RiskLow))
  {
    var f := map["title" := JString(title), "command" := JString(command),
                 "purpose" := JString(purpose), "expected" := JString(expected)];
    assert PlanStepFields(f, PlanStep(title, command, purpose, expected, RiskLow));
  }
}
