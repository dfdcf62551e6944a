/**
 * The market-research workflow graph of market_agents/src/graph.py: the state
 * record threaded through the five agents, the partial updates they return,
 * the key-overwrite merge, the node bodies with their external calls as
 * oracles, the routing rule after the reviewer and the fixed edges.
 */
module Graph {
  import opened Optional
  import opened PyStr

  /** `AgentState`: the record every node reads. `feedback` is Python `None` or a string. */
  datatype AgentState = AgentState(
    topic: string,
    researchData: seq<string>,
    analysis: string,
    chartFiles: seq<string>,
    finalReport: string,
    feedback: Option<string>,
    revisionCount: int)

  /**
   * The dictionary a node returns: a key it does not return is `None` here.
   * `feedback` may be returned with the value `None`, hence the nested option.
   */
  datatype Update = Update(
    topic: Option<string>,
    researchData: Option<seq<string>>,
    analysis: Option<string>,
    chartFiles: Option<seq<string>>,
    finalReport: Option<string>,
    feedback: Option<Option<string>>,
    revisionCount: Option<int>)

  const NoKeys: Update := Update(None, None, None, None, None, None, None)

  datatype Key = Topic | ResearchData | Analysis | ChartFiles | FinalReport | Feedback | RevisionCount

  /** The update returns no key outside `keys`. */
  predicate Within(u: Update, keys: set<Key>) {
    && (u.topic.Some? ==> Topic in keys)
    && (u.researchData.Some? ==> ResearchData in keys)
    && (u.analysis.Some? ==> Analysis in keys)
    && (u.chartFiles.Some? ==> ChartFiles in keys)
    && (u.finalReport.Some? ==> FinalReport in keys)
    && (u.feedback.Some? ==> Feedback in keys)
    && (u.revisionCount.Some? ==> RevisionCount in keys)
  }

  /** Every key the update does not return keeps its value from `s` to `t`. */
  predicate Untouched(s: AgentState, t: AgentState, u: Update) {
    && (u.topic.None? ==> t.topic == s.topic)
    && (u.researchData.None? ==> t.researchData == s.researchData)
    && (u.analysis.None? ==> t.analysis == s.analysis)
    && (u.chartFiles.None? ==> t.chartFiles == s.chartFiles)
    && (u.finalReport.None? ==> t.finalReport == s.finalReport)
    && (u.feedback.None? ==> t.feedback == s.feedback)
    && (u.revisionCount.None? ==> t.revisionCount == s.revisionCount)
  }

  function Pick<T>(v: Option<T>, current: T): T {
    match v
    case Some(x) => x
    case None => current
  }

  /**
   * The channel merge of a state without reducers: each returned key
   * replaces the old value, every other key keeps it.
   */
  function Merge(s: AgentState, u: Update): (t: AgentState)
    ensures Untouched(s, t, u)
    ensures u.topic.Some? ==> t.topic == u.topic.value
    ensures u.researchData.Some? ==> t.researchData == u.researchData.value
    ensures u.analysis.Some? ==> t.analysis == u.analysis.value
    ensures u.chartFiles.Some? ==> t.chartFiles == u.chartFiles.value
    ensures u.finalReport.Some? ==> t.finalReport == u.finalReport.value
    ensures u.feedback.Some? ==> t.feedback == u.feedback.value
    ensures u.revisionCount.Some? ==> t.revisionCount == u.revisionCount.value
  {
    AgentState(
      Pick(u.topic, s.topic),
      Pick(u.researchData, s.researchData),
      Pick(u.analysis, s.analysis),
      Pick(u.chartFiles, s.chartFiles),
      Pick(u.finalReport, s.finalReport),
      Pick(u.feedback, s.feedback),
      Pick(u.revisionCount, s.revisionCount))
  }

  /**
   * The four prompts the nodes send to the chat model, by the values they
   * interpolate; `Text` renders each to the exact string that is sent.
   */
  datatype Prompt =
    | AnalysisPrompt(topic: string, data: string, feedback: Option<string>)
    | ReviewPrompt(topic: string, analysis: string)
    | ChartPrompt(analysis: string)
    | ReportPrompt(topic: string, analysis: string, charts: seq<string>)

  /**
   * The external calls a run makes, as oracles indexed by the position of the
   * stage in the run: the search tool on a query, the chat model on a prompt
   * (its answer to `Text(p)`), and the working-directory listing once the
   * plotting code generated from the model's answer has run.
   */
  datatype Oracle = Oracle(
    search: (nat, string) -> string,
    llm: (nat, Prompt) -> string,
    listing: (nat, string) -> seq<string>)

  datatype Node = Researcher | Analyst | Reviewer | ChartGenerator | Writer

  function Name(n: Node): string {
    match n
    case Researcher => "researcher"
    case Analyst => "analyst"
    case Reviewer => "reviewer"
    case ChartGenerator => "chart_generator"
    case Writer => "writer"
  }

  /** Python truthiness of `feedback`: a string that is present and non-empty. */
  predicate Truthy(feedback: Option<string>) {
    feedback.Some? && feedback.value != ""
  }

  // ---------------------------------------------------------------- researcher

  const DefaultQueryHead := "latest market trends and news for "
  const FocusedQueryHead := "market research for "

  function DefaultQuery(topic: string): string {
    DefaultQueryHead + topic + " last 12 months"
  }

  /**
   * The search query: the default one, whatever the feedback, unless the
   * reviewer left feedback; then one that starts differently and ends with
   * that feedback.
   */
  function ResearchQuery(topic: string, feedback: Option<string>): (q: string)
    ensures Truthy(feedback) <==> HasPrefix(q, FocusedQueryHead)
    ensures Truthy(feedback) ==> HasSuffix(q, feedback.value)
    ensures !Truthy(feedback) ==> q == DefaultQuery(topic)
  {
    if Truthy(feedback) then
      var head := FocusedQueryHead + topic + " focusing on: ";
      ConcatEnds(head, feedback.value);
      assert head[..|FocusedQueryHead|] == FocusedQueryHead;
      head + feedback.value
    else
      var q := DefaultQuery(topic);
      assert q[0] == 'l' && FocusedQueryHead[0] == 'm';
      q
  }

  function ResearcherNode(s: AgentState, k: nat, o: Oracle): Update {
    NoKeys.(researchData := Some([o.search(k, ResearchQuery(s.topic, s.feedback))]))
  }

  // ------------------------------------------------------------------- analyst

  function AnalystBase(topic: string, data: string): string {
    "\n        Analyze the following market data about " + topic + ":\n        " + data
    + "\n        \n        Identify top 3 trends, potential opportunities, and major risks."
    + "\n        Also extract any numerical data that could be visualized (e.g., market growth, percentages).\n        "
  }

  const FeedbackNote := "\n\nIMPORTANT: Previous analysis was rejected. Please address this feedback: "

  /** The analyst's prompt: the fixed request, followed by the reviewer's feedback when there is any. */
  lemma {:induction false} AnalystPromptText(topic: string, data: string, feedback: Option<string>)
    ensures var p := Text(AnalysisPrompt(topic, data, feedback));
      && HasPrefix(p, AnalystBase(topic, data))
      && (Truthy(feedback) <==> |p| > |AnalystBase(topic, data)|)
      && (Truthy(feedback) ==> HasSuffix(p, FeedbackNote + feedback.value))
  {
    var base := AnalystBase(topic, data);
    if Truthy(feedback) {
      ConcatEnds(base, FeedbackNote + feedback.value);
      assert base + (FeedbackNote + feedback.value) == base + FeedbackNote + feedback.value;
    } else {
      ConcatEnds(base, "");
      assert base + "" == base;
    }
  }

  function AnalystNode(s: AgentState, k: nat, o: Oracle): Update {
    var data := Join(s.researchData, "\n");
    NoKeys.(analysis := Some(o.llm(k, AnalysisPrompt(s.topic, data, s.feedback))))
  }

  // ------------------------------------------------------------------ reviewer

  const MaxRevisions := 2

  function ReviewText(topic: string, analysis: string): string {
    "\n        Review the following market analysis for " + topic + ":\n        " + analysis
    + "\n        \n        Is this analysis comprehensive, data-backed, and insightful?"
    + "\n        If YES, respond with \"APPROVED\"."
    + "\n        If NO, respond with \"REJECTED\" followed by specific feedback on what is missing or needs improvement"
    + " (e.g., \"Missing specific market size data\", \"Too generic\", \"Needs more focus on risks\").\n        "
  }

  /**
   * The verdict parsing below the revision cap: any occurrence of "APPROVED"
   * approves; otherwise the verdict, without its "REJECTED" markers and
   * stripped, is the feedback, and the revision count goes up by one. The
   * feedback is stated through `split`: the pieces of the verdict between
   * its markers, run together, then stripped.
   */
  function Judge(revisionCount: int, verdict: string): (u: Update)
    ensures Within(u, {Feedback, RevisionCount}) && u.feedback.Some?
    ensures u.feedback.value.None? <==> Contains(verdict, "APPROVED")
    ensures u.revisionCount.Some? <==> u.feedback.value.Some?
    ensures u.revisionCount.Some? ==> u.revisionCount.value == revisionCount + 1
    ensures u.feedback.value.Some? ==> u.feedback.value.value == Strip(Join(Split(verdict, "REJECTED"), ""))
    ensures u.feedback.value.Some? ==> |u.feedback.value.value| <= |verdict|
    ensures u.feedback.value.Some? ==> var f := u.feedback.value.value; f == [] || (!IsSpace(f[0]) && !IsSpace(f[|f| - 1]))
  {
    if Contains(verdict, "APPROVED") then NoKeys.(feedback := Some(None))
    else
      var removed := ReplaceAll(verdict, "REJECTED", "");
      ReplaceShrinks(verdict, "REJECTED");
      ReplaceIsJoinSplit(verdict, "REJECTED", "");
      var feedback := Strip(removed);
      NoKeys.(feedback := Some(Some(feedback)), revisionCount := Some(revisionCount + 1))
  }

  lemma {:induction false} ReplaceShrinks(s: string, pat: string)
    requires |pat| > 0
    ensures |ReplaceAll(s, pat, "")| <= |s|
    decreases |s|
  {
    if |s| >= |pat| {
      if s[..|pat|] == pat { ReplaceShrinks(s[|pat|..], pat); } else { ReplaceShrinks(s[1..], pat); }
    }
  }

  /**
   * `reviewer_node`: at the cap it approves without asking the model;
   * below it the model's verdict is judged. Approval clears the feedback;
   * a rejection sets it and counts one more revision, never past the cap.
   */
  function ReviewerNode(s: AgentState, k: nat, o: Oracle): (u: Update)
    ensures Within(u, {Feedback, RevisionCount}) && u.feedback.Some?
    ensures s.revisionCount >= MaxRevisions ==> u == NoKeys.(feedback := Some(None))
    ensures u.feedback == Some(None) <==>
              s.revisionCount >= MaxRevisions || Contains(o.llm(k, ReviewPrompt(s.topic, s.analysis)), "APPROVED")
    ensures u.revisionCount.Some? <==> u.feedback.value.Some?
    ensures u.revisionCount.Some? ==> s.revisionCount < MaxRevisions && u.revisionCount.value == s.revisionCount + 1
    ensures s.revisionCount < MaxRevisions ==> u == Judge(s.revisionCount, o.llm(k, ReviewPrompt(s.topic, s.analysis)))
  {
    if s.revisionCount >= MaxRevisions then NoKeys.(feedback := Some(None))
    else Judge(s.revisionCount, o.llm(k, ReviewPrompt(s.topic, s.analysis)))
  }

  /**
   * A bare "REJECTED" below the cap: the feedback becomes the empty string and
   * a revision is spent, yet the empty feedback is falsy, so the run goes on
   * to chart_generator instead of back to the researcher.
   */
  lemma {:induction false} BareRejection(s: AgentState, k: nat, o: Oracle)
    requires s.revisionCount < MaxRevisions
    requires o.llm(k, ReviewPrompt(s.topic, s.analysis)) == "REJECTED"
    ensures ReviewerNode(s, k, o) == NoKeys.(feedback := Some(Some("")), revisionCount := Some(s.revisionCount + 1))
    ensures var t := Merge(s, ReviewerNode(s, k, o));
      && t.feedback == Some("")
      && t.revisionCount == s.revisionCount + 1
      && ShouldContinue(t) == ChartGenerator
  {
    var verdict := o.llm(k, ReviewPrompt(s.topic, s.analysis));
    LacksChar(verdict, "APPROVED", 0);
    assert ReplaceAll(verdict, "REJECTED", "") == "";
  }

  /** A rejection with a reason: the marker is dropped and the reason, stripped, is the feedback. */
  lemma {:induction false} RejectionFeedback(revisionCount: int, verdict: string)
    requires verdict == "REJECTED missing data"
    ensures Judge(revisionCount, verdict).feedback == Some(Some("missing data"))
  {
    var reason := "missing data";
    assert verdict == "REJECTED" + ([' '] + reason);
    LacksChar(verdict, "APPROVED", 0);
    LacksChar([' '] + reason, "REJECTED", 0);
    JudgeReason(revisionCount, verdict, reason);
  }

  /** A verdict made of the marker, a blank and a reason with no whitespace at its ends gives the reason. */
  lemma {:induction false} JudgeReason(revisionCount: int, verdict: string, reason: string)
    requires verdict == "REJECTED" + ([' '] + reason) && !Contains(verdict, "APPROVED")
    requires !Contains([' '] + reason, "REJECTED")
    requires reason != [] && !IsSpace(reason[0]) && !IsSpace(reason[|reason| - 1])
    ensures Judge(revisionCount, verdict).feedback == Some(Some(reason))
  {
    DropMarker([' '] + reason, "REJECTED");
    StripSpaceBefore(reason);
    JudgeFeedback(revisionCount, verdict);
  }

  /** Below approval, the feedback is the stripped verdict with its markers removed. */
  lemma {:induction false} JudgeFeedback(revisionCount: int, verdict: string)
    requires !Contains(verdict, "APPROVED")
    ensures Judge(revisionCount, verdict).feedback == Some(Some(Strip(ReplaceAll(verdict, "REJECTED", ""))))
  {
  }

  /** Removing a marker that only opens the string leaves the rest. */
  lemma {:induction false} DropMarker(rest: string, marker: string)
    requires |marker| > 0 && !Contains(rest, marker)
    ensures ReplaceAll(marker + rest, marker, "") == rest
  {
    assert (marker + rest)[..|marker|] == marker;
    assert (marker + rest)[|marker|..] == rest;
    ReplaceAbsent(rest, marker, "");
  }

  /** Stripping removes one leading blank before a string that has no whitespace at either end. */
  lemma {:induction false} StripSpaceBefore(x: string)
    requires x != [] && !IsSpace(x[0]) && !IsSpace(x[|x| - 1])
    ensures Strip([' '] + x) == x
  {
    assert ([' '] + x)[1..] == x;
    assert LStrip([' '] + x) == x;
  }

  // ----------------------------------------------------------- chart generator

  const ChartPrompt1 := "\n        Based on the following analysis, generate Python code using matplotlib to create MULTIPLE relevant charts (bar charts, pie charts, or line charts) if the data allows.\n        \n        Analysis:\n        "
  const ChartPrompt2 := "\n        \n        Requirements:\n        1. Use matplotlib.pyplot.\n        2. The code should be self-contained (import matplotlib.pyplot as plt, etc.).\n        3. Define the data directly in the code based on the analysis (estimate values if necessary but keep them realistic).\n        4. Create as many distinct charts as relevant (at least 1, up to 3).\n        5. Save the plots to files named 'chart_1.png', 'chart_2.png', etc. using plt.savefig().\n        6. Clear the figure between plots using plt.clf() or plt.figure().\n        7. Use a modern, professional style (e.g., plt.style.use('ggplot') or custom colors).\n        8. Do NOT use plt.show().\n        9. Return ONLY the python code, no markdown formatting like ```python.\n        "

  /** The model's answer with its code fences removed, as handed to `exec`. */
  function ChartCode(response: string): string {
    Strip(ReplaceAll(ReplaceAll(response, "```python", ""), "```", ""))
  }

  predicate IsChartName(f: string) {
    HasPrefix(f, "chart_") && HasSuffix(f, ".png")
  }

  /** The names of a directory listing that follow the `chart_<n>.png` convention, in listing order. */
  function ChartNames(names: seq<string>): (r: seq<string>)
    ensures forall i :: 0 <= i < |r| ==> IsChartName(r[i])
    ensures forall f :: multiset(r)[f] == if IsChartName(f) then multiset(names)[f] else 0
    decreases |names|
  {
    if names == [] then []
    else
      assert names == [names[0]] + names[1..];
      (if IsChartName(names[0]) then [names[0]] else []) + ChartNames(names[1..])
  }

  /** The chart list: exactly the chart names of the listing, each as often as listed, sorted. */
  function ChartFileList(names: seq<string>): (r: seq<string>)
    ensures Sorted(r)
    ensures forall i :: 0 <= i < |r| ==> IsChartName(r[i])
    ensures forall f :: multiset(r)[f] == if IsChartName(f) then multiset(names)[f] else 0
  {
    var r := Sort(ChartNames(names));
    assert forall i :: 0 <= i < |r| ==> r[i] in multiset(ChartNames(names));
    r
  }

  function ChartGeneratorNode(s: AgentState, k: nat, o: Oracle): Update {
    var code := ChartCode(o.llm(k, ChartPrompt(s.analysis)));
    NoKeys.(chartFiles := Some(ChartFileList(o.listing(k, code))))
  }

  // -------------------------------------------------------------------- writer

  const WriterPrompt1 := "\n        Write a comprehensive market research report on "
  const WriterPrompt2 := " based on the following analysis:\n        "
  const WriterPrompt3 := "\n        \n        The report must be in Markdown format with sections for Executive Summary, Key Trends, Opportunities, Risks, and Conclusion.\n        \n        IMPORTANT: The following chart images have been generated: "
  const WriterPrompt4 := "\n        You MUST embed these charts inline within the relevant sections of your report using markdown image syntax: ![Description](filename)\n        \n        For example:\n        - Place market trend charts in the \"Key Trends\" section\n        - Place opportunity/risk charts in their respective sections\n        - Distribute the charts throughout the report where they best support your analysis\n        \n        DO NOT create a separate \"Visualizations\" section at the end. Instead, embed each chart directly in the section where it's most relevant.\n        Each chart should have a descriptive caption that explains what it shows.\n        "

  function ReportText(topic: string, analysis: string, charts: seq<string>): string {
    WriterPrompt1 + topic + WriterPrompt2 + analysis + WriterPrompt3 + Join(charts, ", ") + WriterPrompt4
  }

  /** The writer's prompt names every chart file, so the model can embed each one. */
  lemma {:induction false} WriterPromptNamesCharts(topic: string, analysis: string, charts: seq<string>, j: nat)
    requires j < |charts|
    ensures exists i: nat :: OccursAt(Text(ReportPrompt(topic, analysis, charts)), charts[j], i)
  {
    var head := WriterPrompt1 + topic + WriterPrompt2 + analysis + WriterPrompt3;
    JoinEmbedded(head, charts, ", ", WriterPrompt4, j);
    var k: nat :| OccursAt(head + Join(charts, ", ") + WriterPrompt4, charts[j], k);
    assert Text(ReportPrompt(topic, analysis, charts)) == head + Join(charts, ", ") + WriterPrompt4;
    assert OccursAt(Text(ReportPrompt(topic, analysis, charts)), charts[j], k);
  }

  /** The exact text of each prompt, as the f-strings of the nodes spell it. */
  function Text(p: Prompt): string {
    match p
    case AnalysisPrompt(topic, data, feedback) =>
      AnalystBase(topic, data) + (if Truthy(feedback) then FeedbackNote + feedback.value else "")
    case ReviewPrompt(topic, analysis) => ReviewText(topic, analysis)
    case ChartPrompt(analysis) => ChartPrompt1 + analysis + ChartPrompt2
    case ReportPrompt(topic, analysis, charts) => ReportText(topic, analysis, charts)
  }

  function WriterNode(s: AgentState, k: nat, o: Oracle): Update {
    NoKeys.(finalReport := Some(o.llm(k, ReportPrompt(s.topic, s.analysis, s.chartFiles))))
  }

  // ------------------------------------------------------------ graph edges

  /** The update node `n` returns when it runs as stage `k`. */
  function RunNode(n: Node, s: AgentState, k: nat, o: Oracle): Update {
    match n
    case Researcher => ResearcherNode(s, k, o)
    case Analyst => AnalystNode(s, k, o)
    case Reviewer => ReviewerNode(s, k, o)
    case ChartGenerator => ChartGeneratorNode(s, k, o)
    case Writer => WriterNode(s, k, o)
  }

  /** The keys each node may return. */
  function Writes(n: Node): set<Key> {
    match n
    case Researcher => {ResearchData}
    case Analyst => {Analysis}
    case Reviewer => {Feedback, RevisionCount}
    case ChartGenerator => {ChartFiles}
    case Writer => {FinalReport}
  }

  /** `should_continue`: back to the researcher exactly when the feedback is truthy. */
  function ShouldContinue(s: AgentState): (n: Node)
    ensures n == Researcher || n == ChartGenerator
    ensures n == Researcher <==> Truthy(s.feedback)
  {
    if Truthy(s.feedback) then Researcher else ChartGenerator
  }

  const Entry := Researcher

  /** The edge taken after node `n` in state `s`; `None` is END. */
  function Successor(n: Node, s: AgentState): Option<Node> {
    match n
    case Researcher => Some(Analyst)
    case Analyst => Some(Reviewer)
    case Reviewer => Some(ShouldContinue(s))
    case ChartGenerator => Some(Writer)
    case Writer => None
  }
}
