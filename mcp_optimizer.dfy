/** The optimizer for tool-assisted requests: sessions that collect
    requests and responses, the context-usage counter and its resets, the
    structured prompt built for a request, and the session analytics and
    recommendations. Rates and averages are ratios. */
module McpOptimizer {
  import opened Common

  datatype RequestType = Ui | Search | Code | Inspiration

  datatype Priority = High | Medium | Low

  datatype Request = Request(
    id: string,
    kind: RequestType,
    context: string,
    requirements: seq<string>,
    expectedOutput: string,
    priority: Priority,
    relatedRequests: Option<seq<string>>)

  /** A response; its output is not modelled. */
  datatype Response = Response(requestId: string, success: bool, contextUsed: int, iterations: int, efficiency: int)

  /** `contextThreshold`, a percentage. */
  const ContextThreshold := 70
  /** `maxContextBeforeReset`, in characters. */
  const MaxContextBeforeReset := 80000

  function Succeeded(): Response -> bool {
    (r: Response) => r.success
  }

  /** `successful / responses.length * 100`, 0 before any response. */
  function SuccessRate(responses: seq<Response>): (r: Ratio)
    ensures responses == [] ==> r.num == 0
    ensures responses != [] ==> r.num * |responses| == 100 * Count(responses, Succeeded()) * r.den
    ensures AtLeast(r, 0) && AtMost(r, 100)
  {
    Percent(Count(responses, Succeeded()), |responses|)
  }

  /** The success rate is a percentage, and 100 exactly when every
      response succeeded. */
  lemma SuccessRateBounds(responses: seq<Response>)
    requires responses != []
    ensures AtLeast(SuccessRate(responses), 0) && AtMost(SuccessRate(responses), 100)
    ensures AtLeast(SuccessRate(responses), 100) <==> forall r :: r in responses ==> r.success
  {
    var n := |responses|;
    var k := Count(responses, Succeeded());
    assert SuccessRate(responses) == Fraction(100 * k, n);
    AllCounted(responses);
  }

  lemma {:induction false} AllCounted(responses: seq<Response>)
    ensures Count(responses, Succeeded()) == |responses| <==> forall r :: r in responses ==> r.success
  {
    if responses != [] {
      AllCounted(responses[1..]);
      assert forall r :: r in responses <==> r == responses[0] || r in responses[1..];
    }
  }

  class Session {
    const id: string
    const startTime: int
    var requests: seq<Request>
    var responses: seq<Response>
    var contextResets: nat
    var totalPrompts: nat
    var successRate: Ratio

    /** Every response was counted as a prompt, and the rate is that of the
        responses. */
    ghost predicate Valid()
      reads this
    {
      totalPrompts == |responses| && successRate == SuccessRate(responses)
    }

    constructor(id: string, startTime: int)
      ensures Valid()
      ensures this.id == id && this.startTime == startTime
      ensures requests == [] && responses == [] && contextResets == 0 && totalPrompts == 0 && successRate == Zero
    {
      this.id := id;
      this.startTime := startTime;
      requests := [];
      responses := [];
      contextResets := 0;
      totalPrompts := 0;
      successRate := Zero;
    }
  }

  /** A number of the analytics: a ratio, or NaN for the mean of no
      responses. Every comparison with NaN is false. */
  datatype Number = Value(r: Ratio) | NaN

  predicate Exceeds(x: Number, k: int) { x.Value? && Above(x.r, k) }
  predicate Under(x: Number, k: int) { x.Value? && Below(x.r, k) }

  /** `values.reduce((sum, v) => sum + v, 0) / values.length`. */
  function Average(values: seq<int>): (x: Number)
    ensures x.NaN? <==> values == []
    ensures x.Value? ==> x.r.den == |values| && x.r.num == Sum(values)
  {
    if values == [] then NaN else Value(Fraction(Sum(values), |values|))
  }

  datatype Analytics = Analytics(
    efficiency: Number,
    successRate: Ratio,
    avgIterations: Number,
    contextResets: nat,
    recommendations: seq<string>)

  const NoSessionMessage := "No active session. Call startSession() first."
  const NoActiveSession := "No active session"
  const MoreSpecific := "Increase prompt specificity"
  const MoreContext := "Provide more context upfront"
  const BatchRequests := "Consider batching related requests"
  const StartHint := "Start a session to get optimization recommendations"
  const SpecificityHint := "\U{1F3AF} Increase prompt specificity - include more context and requirements"
  const ContextHint := "\U{1F4CB} Provide complete context upfront to avoid back-and-forth"
  const BatchingHint := "\U{1F504} Consider batching related requests to reduce context resets"
  const ParallelToolsHint := "\U{26A1} Use parallel tool execution for independent operations"

  function Iterations(responses: seq<Response>): (s: seq<int>)
    ensures |s| == |responses|
    ensures forall i :: 0 <= i < |s| ==> s[i] == responses[i].iterations
  {
    if responses == [] then [] else [responses[0].iterations] + Iterations(responses[1..])
  }

  function Efficiencies(responses: seq<Response>): (s: seq<int>)
    ensures |s| == |responses|
    ensures forall i :: 0 <= i < |s| ==> s[i] == responses[i].efficiency
  {
    if responses == [] then [] else [responses[0].efficiency] + Efficiencies(responses[1..])
  }

  class Optimizer {
    var sessions: seq<Session>
    var currentSession: Session?
    var currentContextUsage: int

    /** The current session is the last one started, and there is one once
        any session has been started. */
    ghost predicate Valid()
      reads this, currentSession
    {
      (currentSession == null <==> sessions == []) &&
      (currentSession != null ==> currentSession == sessions[|sessions| - 1] && currentSession.Valid())
    }

    constructor()
      ensures Valid()
      ensures sessions == [] && currentSession == null && currentContextUsage == 0
    {
      sessions := [];
      currentSession := null;
      currentContextUsage := 0;
    }

    /** `startSession`: a new empty session becomes the current one and is
        appended to the sessions; the context usage is kept. */
    method StartSession(id: string, now: int)
      modifies this
      ensures Valid()
      ensures currentSession != null && fresh(currentSession)
      ensures currentSession.id == id && currentSession.startTime == now
      ensures currentSession.requests == [] && currentSession.responses == []
      ensures currentSession.contextResets == 0 && currentSession.totalPrompts == 0 && currentSession.successRate == Zero
      ensures sessions == old(sessions) + [currentSession]
      ensures currentContextUsage == old(currentContextUsage)
    {
      var s := new Session(id, now);
      currentSession := s;
      sessions := sessions + [s];
    }

    /** `shouldResetContext`: usage as a percentage of the maximum above the
        threshold, that is, more than 56000 characters. */
    function ShouldResetContext(): (b: bool)
      reads this
      ensures b <==> currentContextUsage > 56000
    {
      Above(Fraction(100 * currentContextUsage, MaxContextBeforeReset), ContextThreshold)
    }

    /** `resetContext`: count a reset in the current session and zero the
        usage; nothing without a session. */
    method ResetContext()
      requires Valid()
      modifies this, currentSession
      ensures Valid()
      ensures currentSession == old(currentSession) && sessions == old(sessions)
      ensures old(currentSession) == null ==> currentContextUsage == old(currentContextUsage)
      ensures old(currentSession) != null ==>
        currentSession.contextResets == old(currentSession.contextResets) + 1 && currentContextUsage == 0
      ensures currentSession != null ==>
        currentSession.requests == old(currentSession.requests) &&
        currentSession.responses == old(currentSession.responses) &&
        currentSession.totalPrompts == old(currentSession.totalPrompts) &&
        currentSession.successRate == old(currentSession.successRate)
    {
      if currentSession != null {
        currentSession.contextResets := currentSession.contextResets + 1;
        currentContextUsage := 0;
      }
    }

    /** `optimizeRequest`: an error without a session; otherwise the request
        is appended to the session, the prompt is built, and the context is
        reset when the usage calls for it. */
    method OptimizeRequest(request: Request) returns (r: Result<string>)
      requires Valid()
      modifies this, currentSession
      ensures Valid()
      ensures currentSession == old(currentSession) && sessions == old(sessions)
      ensures old(currentSession) == null ==> r == Err(NoSessionMessage) && currentContextUsage == old(currentContextUsage)
      ensures old(currentSession) != null ==>
        r == Ok(Join(PromptSections(request), "\n")) &&
        currentSession.requests == old(currentSession.requests) + [request] &&
        currentSession.responses == old(currentSession.responses)
      ensures old(currentSession) != null && old(currentContextUsage) > 56000 ==>
        currentSession.contextResets == old(currentSession.contextResets) + 1 && currentContextUsage == 0
      ensures old(currentSession) != null && old(currentContextUsage) <= 56000 ==>
        currentSession.contextResets == old(currentSession.contextResets) &&
        currentContextUsage == old(currentContextUsage)
    {
      if currentSession == null {
        return Err(NoSessionMessage);
      }
      currentSession.requests := currentSession.requests + [request];
      var prompt := BuildOptimizedPrompt(request);
      if ShouldResetContext() {
        ResetContext();
      }
      r := Ok(prompt);
    }

    /** `recordResponse`: nothing without a session; otherwise the response
        is appended, counted as a prompt and its context added to the usage,
        and the success rate recomputed over all responses. */
    method RecordResponse(response: Response)
      requires Valid()
      modifies this, currentSession
      ensures Valid()
      ensures currentSession == old(currentSession) && sessions == old(sessions)
      ensures old(currentSession) == null ==> currentContextUsage == old(currentContextUsage)
      ensures old(currentSession) != null ==>
        currentSession.responses == old(currentSession.responses) + [response] &&
        currentSession.totalPrompts == old(currentSession.totalPrompts) + 1 &&
        currentContextUsage == old(currentContextUsage) + response.contextUsed &&
        currentSession.successRate == SuccessRate(currentSession.responses) &&
        currentSession.requests == old(currentSession.requests) &&
        currentSession.contextResets == old(currentSession.contextResets)
    {
      if currentSession == null {
        return;
      }
      currentSession.responses := currentSession.responses + [response];
      currentSession.totalPrompts := currentSession.totalPrompts + 1;
      currentContextUsage := currentContextUsage + response.contextUsed;
      var successful := Count(currentSession.responses, Succeeded());
      currentSession.successRate := Fraction(100 * successful, |currentSession.responses|);
      assert currentSession.successRate == SuccessRate(currentSession.responses);
    }

    /** `getSessionAnalytics`: zeros and a single note without a session;
        otherwise the mean efficiency and iterations (NaN before any
        response), the session's rate and resets, and the recommendations
        their thresholds call for, in a fixed order. */
    function SessionAnalytics(): (a: Analytics)
      reads this, currentSession
      ensures currentSession == null ==> a == Analytics(Value(Zero), Zero, Value(Zero), 0, [NoActiveSession])
      ensures currentSession != null ==>
        a.successRate == currentSession.successRate && a.contextResets == currentSession.contextResets
      ensures currentSession != null ==>
        a.avgIterations == Average(Iterations(currentSession.responses)) &&
        a.efficiency == Average(Efficiencies(currentSession.responses))
      ensures currentSession != null ==>
        (MoreSpecific in a.recommendations <==> Below(a.successRate, 80)) &&
        (MoreContext in a.recommendations <==> Exceeds(a.avgIterations, 2)) &&
        (BatchRequests in a.recommendations <==> a.contextResets > 3) &&
        NoActiveSession !in a.recommendations
    ensures currentSession != null ==>
      forall i, j :: 0 <= i < j < |a.recommendations| ==>
        RecommendationRank(a.recommendations[i]) < RecommendationRank(a.recommendations[j])
    {
      if currentSession == null then Analytics(Value(Zero), Zero, Value(Zero), 0, [NoActiveSession])
      else
        var responses := currentSession.responses;
        var avgIterations := Average(Iterations(responses));
        var avgEfficiency := Average(Efficiencies(responses));
        var recommendations :=
          (if Below(currentSession.successRate, 80) then [MoreSpecific] else []) +
          (if Exceeds(avgIterations, 2) then [MoreContext] else []) +
          (if currentSession.contextResets > 3 then [BatchRequests] else []);
        Analytics(avgEfficiency, currentSession.successRate, avgIterations, currentSession.contextResets, recommendations)
    }

    /** `getOptimizationRecommendations`: only the start hint before any
        session; afterwards the hints the analytics' thresholds call for. */
    function OptimizationRecommendations(): (r: seq<string>)
      reads this, currentSession
      requires Valid()
      ensures sessions == [] ==> r == [StartHint]
      ensures sessions != [] ==> r == Hints(SessionAnalytics())
    {
      if sessions == [] then [StartHint] else Hints(SessionAnalytics())
    }
  }

  /** Where a recommendation of the session analytics stands in their fixed
      order; strictly increasing ranks mean that order and no repeats. */
  function RecommendationRank(n: string): nat {
    if n == MoreSpecific then 0 else if n == MoreContext then 1 else if n == BatchRequests then 2 else 3
  }

  /** Where a hint stands in the fixed order of the hints. */
  function HintRank(h: string): nat {
    if h == SpecificityHint then 0 else if h == ContextHint then 1
    else if h == BatchingHint then 2 else if h == ParallelToolsHint then 3 else 4
  }

  /** The hints of `getOptimizationRecommendations` for given analytics:
      one per threshold crossed, in a fixed order, never the start hint. */
  function Hints(a: Analytics): (r: seq<string>)
    ensures StartHint !in r && |r| <= 4
    ensures SpecificityHint in r <==> Below(a.successRate, 80)
    ensures ContextHint in r <==> Exceeds(a.avgIterations, 2)
    ensures BatchingHint in r <==> a.contextResets > 2
    ensures ParallelToolsHint in r <==> Under(a.efficiency, 70)
    ensures forall i, j :: 0 <= i < j < |r| ==> HintRank(r[i]) < HintRank(r[j])
  {
    (if Below(a.successRate, 80) then [SpecificityHint] else []) +
    (if Exceeds(a.avgIterations, 2) then [ContextHint] else []) +
    (if a.contextResets > 2 then [BatchingHint] else []) +
    (if Under(a.efficiency, 70) then [ParallelToolsHint] else [])
  }

  /** The session analytics never report a rate outside 0..100, and they
      leave out the specificity note only when at least 80% of at least one
      response succeeded. */
  lemma AnalyticsRateBounds(o: Optimizer)
    requires o.Valid() && o.currentSession != null
    ensures AtLeast(o.SessionAnalytics().successRate, 0) && AtMost(o.SessionAnalytics().successRate, 100)
    ensures MoreSpecific !in o.SessionAnalytics().recommendations ==>
      |o.currentSession.responses| > 0 &&
      Count(o.currentSession.responses, Succeeded()) * 100 >= 80 * |o.currentSession.responses|
  {
    var rs := o.currentSession.responses;
    if rs != [] {
      SuccessRateBounds(rs);
      assert SuccessRate(rs) == Fraction(100 * Count(rs, Succeeded()), |rs|);
    }
  }

  /** A session without responses has a rate of 0 and NaN averages, so it
      is told to be more specific, never to give more context or to run
      tools in parallel. */
  lemma EmptySessionAdvice(o: Optimizer)
    requires o.Valid() && o.currentSession != null && o.currentSession.responses == []
    ensures o.OptimizationRecommendations() ==
      [SpecificityHint] + (if o.currentSession.contextResets > 2 then [BatchingHint] else [])
  {
    assert SuccessRate([]) == Zero;
  }

  // ---------------------------------------------------------------------
  // The prompt

  const ObjectiveHeader := "## \U{1F3AF} OBJECTIVE"
  const RequirementsHeader := "## \U{1F4CB} REQUIREMENTS"
  const ParallelHeader := "## \U{1F680} PARALLEL EXECUTION"
  const ToolHeader := "## \U{1F6E0}\U{FE0F} TOOL USAGE"
  const ParallelNote := "Please execute all related operations simultaneously for maximum efficiency."

  /** The fixed project-context, code-pattern and success-criteria
      sections. */
  const FixedSections: seq<string> := [
    "## \U{1F3D7}\U{FE0F} PROJECT CONTEXT",
    "Project: BDBT Cold Shower Challenge App",
    "Framework: React 18.3.1 + TypeScript + Tailwind CSS",
    "UI Library: Custom components with CVA, Headless UI, Framer Motion",
    "Design System: Glassmorphism, modern SaaS styling like 21st.dev",
    "Current Features: Mood tracking, time tracking, habit stacking, analytics",
    "",
    "## \U{1F527} CODE PATTERNS",
    "- Use 'cn()' utility for class merging",
    "- Follow CVA pattern for component variants",
    "- Use TypeScript interfaces for all props",
    "- Implement proper error handling",
    "- Include loading states and animations",
    "- Use localStorage for data persistence",
    "",
    "## \U{2705} SUCCESS CRITERIA",
    "- First attempt success (no iterations needed)",
    "- TypeScript compilation without errors",
    "- Consistent with existing design system",
    "- Production-ready code quality",
    "- Accessibility compliance (ARIA, focus management)",
    ""]

  function TypeName(t: RequestType): string {
    match t
    case Ui => "UI"
    case Search => "SEARCH"
    case Code => "CODE"
    case Inspiration => "INSPIRATION"
  }

  const UiTools: seq<string> := [
    "- Use 21st.dev Magic MCP for professional UI components",
    "- Request 3 variations and select the best one",
    "- Integrate with existing design system"]
  const SearchTools: seq<string> := [
    "- Use web search MCP for design inspiration",
    "- Focus on modern SaaS and glassmorphism patterns",
    "- Filter results for React/TypeScript relevance"]
  const CodeTools: seq<string> := [
    "- Use filesystem MCP to understand existing patterns",
    "- Use GitHub MCP for implementation examples",
    "- Follow established code conventions"]
  const InspirationTools: seq<string> := [
    "- Use multiple search sources simultaneously",
    "- Combine UI patterns, design systems, and code examples",
    "- Focus on cold therapy and habit tracking UX patterns"]

  /** The three tool-usage lines for a request type. */
  function ToolLines(t: RequestType): seq<string> {
    match t
    case Ui => UiTools
    case Search => SearchTools
    case Code => CodeTools
    case Inspiration => InspirationTools
  }

  /** The tool lines are three bulleted lines, none of them a heading. */
  lemma ToolLinesFacts(t: RequestType)
    ensures |ToolLines(t)| == 3 && ParallelHeader !in ToolLines(t)
  {
  }

  /** `${index + 1}. ${req}` with n = index + 1. */
  function NumberedLine(n: nat, req: string): string {
    NatToString(n) + ". " + req
  }

  /** The numbered lines for the requirements from number k on. */
  function Numbered(reqs: seq<string>, k: nat): (lines: seq<string>)
    ensures |lines| == |reqs|
    ensures forall i :: 0 <= i < |reqs| ==> lines[i] == NumberedLine(k + i, reqs[i])
  {
    if reqs == [] then [] else [NumberedLine(k, reqs[0])] + Numbered(reqs[1..], k + 1)
  }

  predicate HasRelated(request: Request) {
    request.relatedRequests.Some? && |request.relatedRequests.value| > 0
  }

  function Objective(request: Request): (lines: seq<string>)
    ensures |lines| == 5 && lines[0] == ObjectiveHeader && lines[1] == "Type: " + TypeName(request.kind)
    ensures ParallelHeader !in lines
  {
    assert ParallelHeader[3] == '\U{1F680}' && ObjectiveHeader[3] == '\U{1F3AF}';
    assert ("Type: " + TypeName(request.kind))[0] == 'T';
    assert ("Context: " + request.context)[0] == 'C';
    assert ("Expected Output: " + request.expectedOutput)[0] == 'E';
    [ObjectiveHeader,
     "Type: " + TypeName(request.kind),
     "Context: " + request.context,
     "Expected Output: " + request.expectedOutput,
     ""]
  }

  function RequirementsSection(reqs: seq<string>): seq<string> {
    if reqs == [] then [] else [RequirementsHeader] + Numbered(reqs, 1) + [""]
  }

  function ParallelSection(request: Request): seq<string> {
    if HasRelated(request) then
      [ParallelHeader, "This request is related to: " + Join(request.relatedRequests.value, ", "), ParallelNote, ""]
    else []
  }

  function ToolSection(t: RequestType): seq<string> {
    [ToolHeader] + ToolLines(t)
  }

  lemma ToolSectionFacts(t: RequestType)
    ensures |ToolSection(t)| == 4 && ToolSection(t)[0] == ToolHeader && ToolSection(t)[1..] == ToolLines(t)
    ensures ParallelHeader !in ToolSection(t)
  {
    ToolLinesFacts(t);
    assert ParallelHeader[3] == '\U{1F680}' && ToolHeader[3] == '\U{1F6E0}';
  }

  /** The fixed sections are 22 lines and do not hold the parallel heading. */
  lemma FixedSectionsFacts()
    ensures |FixedSections| == 22 && ParallelHeader !in FixedSections
  {
  }

  /** The sections of the prompt for a request, in order. */
  function PromptSections(request: Request): seq<string> {
    Objective(request) + RequirementsSection(request.requirements) + FixedSections +
      ParallelSection(request) + ToolSection(request.kind)
  }

  /** `buildOptimizedPrompt`: push the sections line by line and join them
      with line breaks. */
  method BuildOptimizedPrompt(request: Request) returns (prompt: string)
    ensures prompt == Join(PromptSections(request), "\n")
  {
    var sections: seq<string> := Objective(request);
    var requirements := NumberRequirements(request.requirements);
    sections := sections + requirements;
    sections := sections + FixedSections;
    if HasRelated(request) {
      sections := sections + [ParallelHeader, "This request is related to: " + Join(request.relatedRequests.value, ", "),
                              ParallelNote, ""];
    } else {
      assert sections + ParallelSection(request) == sections;
    }
    sections := sections + ToolSection(request.kind);
    prompt := Join(sections, "\n");
  }

  /** The requirements block of the prompt: the heading, the requirements
      numbered from 1 and a blank line, or nothing without requirements. */
  method NumberRequirements(reqs: seq<string>) returns (lines: seq<string>)
    ensures lines == RequirementsSection(reqs)
  {
    lines := [];
    if |reqs| > 0 {
      lines := lines + [RequirementsHeader];
      for i := 0 to |reqs|
        invariant lines == [RequirementsHeader] + Numbered(reqs[..i], 1)
      {
        NumberedSnoc(reqs, i);
        lines := lines + [NumberedLine(i + 1, reqs[i])];
      }
      assert reqs[..|reqs|] == reqs;
      lines := lines + [""];
    }
  }

  lemma NumberedSnoc(reqs: seq<string>, i: nat)
    requires i < |reqs|
    ensures Numbered(reqs[..i + 1], 1) == Numbered(reqs[..i], 1) + [NumberedLine(i + 1, reqs[i])]
  {
    var a, b := Numbered(reqs[..i + 1], 1), Numbered(reqs[..i], 1) + [NumberedLine(i + 1, reqs[i])];
    forall j | 0 <= j < |a| ensures a[j] == b[j] {
      assert reqs[..i + 1][j] == reqs[j];
      if j < i {
        assert reqs[..i][j] == reqs[j];
      }
    }
  }

  /** The requirements are numbered from 1 in their order, right after the
      objective and the requirements heading. */
  lemma RequirementsNumbered(request: Request)
    requires request.requirements != []
    ensures |PromptSections(request)| >= 6 + |request.requirements|
    ensures var s := PromptSections(request);
      s[5] == RequirementsHeader &&
      forall i :: 0 <= i < |request.requirements| ==>
        s[6 + i] == NatToString(i + 1) + ". " + request.requirements[i]
  {
    var reqs := request.requirements;
    var o, rs := Objective(request), RequirementsSection(reqs);
    var a, b, c := FixedSections, ParallelSection(request), ToolSection(request.kind);
    var n := Numbered(reqs, 1);
    assert rs == [RequirementsHeader] + n + [""];
    SectionAt(o, rs, a, b, c, 0);
    forall i | 0 <= i < |reqs| ensures PromptSections(request)[6 + i] == NatToString(i + 1) + ". " + reqs[i] {
      SectionAt(o, rs, a, b, c, 1 + i);
      assert rs[1 + i] == n[i];
    }
  }

  /** Line j of the second of five concatenated sections. */
  lemma SectionAt<T>(o: seq<T>, rs: seq<T>, a: seq<T>, b: seq<T>, c: seq<T>, j: int)
    requires 0 <= j < |rs|
    ensures |o + rs + a + b + c| >= |o| + |rs|
    ensures (o + rs + a + b + c)[|o| + j] == rs[j]
  {
  }

  /** The parallel-execution heading is in the prompt exactly when the
      request names related requests. */
  lemma ParallelSectionIff(request: Request)
    ensures ParallelHeader in PromptSections(request) <==> HasRelated(request)
  {
    var before := Objective(request) + RequirementsSection(request.requirements) + FixedSections;
    var after := ToolSection(request.kind);
    NotAHeading(request);
    ToolSectionFacts(request.kind);
    if HasRelated(request) {
      assert ParallelHeader in ParallelSection(request);
    } else {
      assert ParallelSection(request) == [];
    }
  }

  /** No line before the parallel section is its heading. */
  lemma NotAHeading(request: Request)
    ensures ParallelHeader !in Objective(request) + RequirementsSection(request.requirements) + FixedSections
  {
    RequirementsNotParallel(request.requirements);
    FixedSectionsFacts();
  }

  lemma RequirementsNotParallel(reqs: seq<string>)
    ensures ParallelHeader !in RequirementsSection(reqs)
  {
    if reqs != [] {
      var n := Numbered(reqs, 1);
      assert ParallelHeader[0] == '#' && RequirementsHeader[3] == '\U{1F4CB}';
      forall i | 0 <= i < |n| ensures n[i] != ParallelHeader {
        NumberedLineStart(reqs, i);
      }
    }
  }

  /** A numbered requirement line starts with a digit. */
  lemma NumberedLineStart(reqs: seq<string>, i: int)
    requires 0 <= i < |reqs|
    ensures IsDigit(Numbered(reqs, 1)[i][0])
  {
    var digits := NatToString(1 + i);
    assert Numbered(reqs, 1)[i] == digits + ". " + reqs[i];
    assert IsDigit(digits[0]);
  }

  /** The prompt opens with the objective heading and the request type and
      ends with the tool-usage heading and the three lines for that type; in
      between come the requirements block, the 22 fixed lines and the
      parallel block when there are related requests. */
  lemma PromptFrame(request: Request)
    ensures var reqs := request.requirements;
      |PromptSections(request)| ==
        5 + (if reqs == [] then 0 else |reqs| + 2) + 22 + (if HasRelated(request) then 4 else 0) + 4
    ensures var s := PromptSections(request);
      s[0] == ObjectiveHeader && s[1] == "Type: " + TypeName(request.kind) &&
      s[|s| - 4] == ToolHeader && s[|s| - 3..] == ToolLines(request.kind)
  {
    var o := Objective(request);
    var x1 := o + RequirementsSection(request.requirements);
    var x2 := x1 + FixedSections;
    var x3 := x2 + ParallelSection(request);
    var t := ToolSection(request.kind);
    var s := x3 + t;
    FixedSectionsFacts();
    ToolSectionFacts(request.kind);
    assert s[0] == x3[0] == x2[0] == x1[0] == o[0];
    assert s[1] == x3[1] == x2[1] == x1[1] == o[1];
    assert s[|s| - 4..] == t;
  }

  // ---------------------------------------------------------------------
  // The batch prompt

  const BatchNote := "Please execute all of these operations simultaneously for maximum efficiency:\n"
  const RequirementsLabel := "**Requirements:**"

  /** The closing execution-strategy section of a batch. */
  const StrategyLines: seq<string> := [
    "## \U{1F3AF} EXECUTION STRATEGY",
    "1. Execute all requests in parallel using available MCP tools",
    "2. Maintain consistency across all generated components",
    "3. Ensure all outputs follow the established design system",
    "4. Provide integrated solution that works together seamlessly"]

  function BatchHeading(n: nat): string {
    "## \U{1F680} BATCH OPERATION - " + NatToString(n) + " RELATED REQUESTS"
  }

  /** The heading and the note that open a batch of n requests. */
  function BatchStart(n: nat): seq<string> {
    [BatchHeading(n), BatchNote]
  }

  /** `- ${req}` for every requirement. */
  function Bullets(reqs: seq<string>): (lines: seq<string>)
    ensures |lines| == |reqs|
    ensures forall i :: 0 <= i < |reqs| ==> lines[i] == "- " + reqs[i]
  {
    if reqs == [] then [] else ["- " + reqs[0]] + Bullets(reqs[1..])
  }

  /** The heading, context and label lines for the request numbered k. */
  function BlockHead(request: Request, k: nat): seq<string> {
    ["### Request " + NatToString(k) + ": " + TypeName(request.kind),
     "**Context:** " + request.context,
     RequirementsLabel]
  }

  function ExpectedLine(request: Request): string {
    "**Expected Output:** " + request.expectedOutput + "\n"
  }

  /** The lines for the request numbered k in a batch. */
  function RequestBlock(request: Request, k: nat): seq<string> {
    BlockHead(request, k) + Bullets(request.requirements) + [ExpectedLine(request)]
  }

  /** The blocks of the requests, numbered from k. */
  function RequestBlocks(requests: seq<Request>, k: nat): seq<string> {
    if requests == [] then [] else RequestBlock(requests[0], k) + RequestBlocks(requests[1..], k + 1)
  }

  /** The lines of the batch prompt, in order. */
  function BatchLines(requests: seq<Request>): seq<string> {
    BatchStart(|requests|) + RequestBlocks(requests, 1) + StrategyLines
  }

  /** `generateBatchRequest`: push the heading, the note, each request's
      block and the strategy, and join them with line breaks. */
  method GenerateBatchRequest(requests: seq<Request>) returns (prompt: string)
    ensures prompt == Join(BatchLines(requests), "\n")
  {
    ghost var start := BatchStart(|requests|);
    var lines := BatchStart(|requests|);
    for i := 0 to |requests|
      invariant lines == start + RequestBlocks(requests[..i], 1)
    {
      var block := PushRequest(requests[i], i + 1);
      LinesSnoc(start, requests, i);
      lines := lines + block;
    }
    assert requests[..|requests|] == requests;
    lines := lines + StrategyLines;
    prompt := Join(lines, "\n");
  }

  /** Pushing request i's block extends the lines by that block. */
  lemma LinesSnoc(start: seq<string>, requests: seq<Request>, i: nat)
    requires i < |requests|
    ensures start + RequestBlocks(requests[..i], 1) + RequestBlock(requests[i], i + 1) == start + RequestBlocks(requests[..i + 1], 1)
  {
    BlocksSnoc(requests, i);
    Assoc(start, RequestBlocks(requests[..i], 1), RequestBlock(requests[i], i + 1));
  }

  /** The lines one iteration of the batch loop pushes for the request
      numbered k. */
  method PushRequest(request: Request, k: nat) returns (block: seq<string>)
    ensures block == RequestBlock(request, k)
  {
    var reqs := request.requirements;
    block := BlockHead(request, k);
    for j := 0 to |reqs|
      invariant block == BlockHead(request, k) + Bullets(reqs[..j])
    {
      BulletsSnoc(reqs, j);
      block := block + ["- " + reqs[j]];
    }
    assert reqs[..|reqs|] == reqs;
    block := block + [ExpectedLine(request)];
  }

  lemma BulletsSnoc(reqs: seq<string>, j: nat)
    requires j < |reqs|
    ensures Bullets(reqs[..j + 1]) == Bullets(reqs[..j]) + ["- " + reqs[j]]
  {
  }

  lemma BlocksSnoc(requests: seq<Request>, i: nat)
    requires i < |requests|
    ensures RequestBlocks(requests[..i + 1], 1) == RequestBlocks(requests[..i], 1) + RequestBlock(requests[i], i + 1)
  {
    assert requests[..i + 1] == requests[..i] + [requests[i]];
    BlocksConcat(requests[..i], [requests[i]], 1);
    assert RequestBlocks([requests[i]], 1 + i) == RequestBlock(requests[i], i + 1);
  }

  /** Numbering runs on across a split: the blocks of a + b are those of a
      followed by those of b numbered from where a stopped. */
  lemma {:induction false} BlocksConcat(a: seq<Request>, b: seq<Request>, k: nat)
    ensures RequestBlocks(a + b, k) == RequestBlocks(a, k) + RequestBlocks(b, k + |a|)
  {
    if a != [] {
      assert (a + b)[0] == a[0] && (a + b)[1..] == a[1..] + b;
      BlocksFirst(a + b, k);
      BlocksFirst(a, k);
      BlocksConcat(a[1..], b, k + 1);
      Assoc(RequestBlock(a[0], k), RequestBlocks(a[1..], k + 1), RequestBlocks(b, k + |a|));
    } else {
      assert a + b == b;
    }
  }

  /** The block of request i is numbered i + 1 and stands between the blocks
      of the requests before it and those after it. */
  lemma BlockPosition(requests: seq<Request>, i: nat)
    requires i < |requests|
    ensures RequestBlocks(requests, 1) ==
      RequestBlocks(requests[..i], 1) + RequestBlock(requests[i], i + 1) + RequestBlocks(requests[i + 1..], i + 2)
  {
    var x, b, y := RequestBlocks(requests[..i], 1), RequestBlock(requests[i], i + 1), RequestBlocks(requests[i + 1..], i + 2);
    BlocksSplitAt(requests, i);
    BlocksTail(requests, i);
    Assoc(x, b, y);
  }

  /** Cutting the list at i cuts its blocks there. */
  lemma BlocksSplitAt(requests: seq<Request>, i: nat)
    requires i <= |requests|
    ensures RequestBlocks(requests, 1) == RequestBlocks(requests[..i], 1) + RequestBlocks(requests[i..], i + 1)
  {
    assert requests == requests[..i] + requests[i..];
    BlocksConcat(requests[..i], requests[i..], 1);
  }

  /** The blocks from request i on start with the block of request i. */
  lemma BlocksTail(requests: seq<Request>, i: nat)
    requires i < |requests|
    ensures RequestBlocks(requests[i..], i + 1) == RequestBlock(requests[i], i + 1) + RequestBlocks(requests[i + 1..], i + 2)
  {
    BlocksFirst(requests[i..], i + 1);
    assert requests[i..][0] == requests[i] && requests[i..][1..] == requests[i + 1..];
  }

  /** The blocks of a non-empty list start with the block of its first
      request. */
  lemma BlocksFirst(rest: seq<Request>, k: nat)
    requires rest != []
    ensures RequestBlocks(rest, k) == RequestBlock(rest[0], k) + RequestBlocks(rest[1..], k + 1)
  {
  }

  /** A batch has the heading and note, four lines per request plus one per
      requirement, and the five strategy lines. */
  lemma {:induction false} BlocksLength(requests: seq<Request>, k: nat)
    ensures |RequestBlocks(requests, k)| == 4 * |requests| + RequirementCount(requests)
  {
    if requests != [] {
      BlocksLength(requests[1..], k + 1);
    }
  }

  function RequirementCount(requests: seq<Request>): nat {
    if requests == [] then 0 else |requests[0].requirements| + RequirementCount(requests[1..])
  }

  lemma BatchLength(requests: seq<Request>)
    ensures |BatchLines(requests)| == 2 + 4 * |requests| + RequirementCount(requests) + 5
  {
    BlocksLength(requests, 1);
  }
}
