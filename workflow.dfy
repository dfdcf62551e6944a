/**
 * Running the workflow graph of market_agents/src/graph.py: the initial
 * state of `run` and `run_stream`, the engine that merges every node's update
 * into the running state and follows the edges, and the termination
 * guarantee that the revision cap gives.
 */
module Workflow {
  import opened Optional
  import opened PyStr
  import opened Graph

  /** One completed stage: the node, the update it returned, and the state after the merge. */
  datatype Step = Step(node: Node, update: Update, state: AgentState)

  /** The input both entry points hand to the graph. */
  function Initial(topic: string): AgentState {
    AgentState(topic, [], "", [], "", None, 0)
  }

  /** Revisions still allowed before the reviewer approves unconditionally. */
  function Budget(revisionCount: int): nat {
    if revisionCount >= MaxRevisions then 0 else MaxRevisions - revisionCount
  }

  /** Stages left on the straight path from `n` to END. */
  function Distance(n: Node): nat {
    match n
    case Researcher => 4
    case Analyst => 3
    case Reviewer => 2
    case ChartGenerator => 1
    case Writer => 0
  }

  /** The node bodies, as the engine sees them: the update node `n` returns when it runs as stage `k`. */
  type Bodies = (Node, AgentState, nat) -> Update

  /** What the engine relies on: each node returns only its own keys, and the reviewer always returns `feedback`, spending a revision exactly when it returns a string, and only below the cap. */
  predicate Contract(n: Node, s: AgentState, u: Update) {
    && Within(u, Writes(n))
    && (n == Reviewer ==>
          && u.feedback.Some?
          && (u.revisionCount.Some? <==> u.feedback.value.Some?)
          && (u.revisionCount.Some? ==> s.revisionCount < MaxRevisions && u.revisionCount.value == s.revisionCount + 1))
  }

  ghost predicate Honours(nodes: Bodies) {
    forall n, s, k :: Contract(n, s, nodes(n, s, k))
  }

  /** The five nodes of graph.py with the given external calls. */
  function Agents(o: Oracle): Bodies {
    (n: Node, s: AgentState, k: nat) => RunNode(n, s, k, o)
  }

  /** Every node of graph.py keeps the engine's contract. */
  lemma {:induction false} AgentsHonourContract(o: Oracle)
    ensures Honours(Agents(o))
  {
    forall n, s, k ensures Contract(n, s, Agents(o)(n, s, k)) {
      match n
      case Reviewer =>
        var u := ReviewerNode(s, k, o);
        assert Within(u, {Feedback, RevisionCount});
      case _ =>
    }
  }

  /**
   * The stages of a run from node `n` in state `s`, the first being stage `k`.
   * The only back edge, reviewer to researcher, is taken on truthy feedback,
   * which the reviewer only returns while it spends a revision.
   */
  function Execute(nodes: Bodies, n: Node, s: AgentState, k: nat): (steps: seq<Step>)
    requires Honours(nodes)
    decreases Budget(s.revisionCount), Distance(n)
  {
    var u := nodes(n, s, k);
    assert Contract(n, s, u);
    var t := Merge(s, u);
    [Step(n, u, t)] +
      match Successor(n, t)
      case None => []
      case Some(m) => Execute(nodes, m, t, k + 1)
  }

  /** One step of the engine: run the node, merge, follow the edge. */
  lemma {:induction false} Unfold(nodes: Bodies, n: Node, s: AgentState, k: nat)
    requires Honours(nodes)
    ensures var u := nodes(n, s, k); var t := Merge(s, u);
      Execute(nodes, n, s, k) ==
        [Step(n, u, t)] + (if Successor(n, t).None? then [] else Execute(nodes, Successor(n, t).value, t, k + 1))
  {
  }

  /** The stages of `run_stream(topic)`. */
  function Trace(topic: string, o: Oracle): seq<Step> {
    AgentsHonourContract(o);
    Execute(Agents(o), Entry, Initial(topic), 0)
  }

  function Nodes(steps: seq<Step>): (ns: seq<Node>)
    ensures |ns| == |steps|
    ensures forall i :: 0 <= i < |steps| ==> ns[i] == steps[i].node
  {
    if steps == [] then [] else [steps[0].node] + Nodes(steps[1..])
  }

  /** `j` passes through researcher, analyst and reviewer. */
  function Rounds(j: nat): seq<Node> {
    if j == 0 then [] else [Researcher, Analyst, Reviewer] + Rounds(j - 1)
  }

  function Count(ns: seq<Node>, n: Node): nat {
    if ns == [] then 0 else (if ns[0] == n then 1 else 0) + Count(ns[1..], n)
  }

  /** A node sequence of between one and `maxRounds` rounds, then chart_generator and writer. */
  predicate WellShaped(ns: seq<Node>, maxRounds: int) {
    && |ns| % 3 == 2
    && 1 <= (|ns| - 2) / 3 <= maxRounds
    && ns == Rounds((|ns| - 2) / 3) + [ChartGenerator, Writer]
  }

  /** The state stage `i` of `e` runs on: `s` for the first stage, else the state the previous stage left. */
  function StateBefore(e: seq<Step>, s: AgentState, i: nat): AgentState
    requires i <= |e|
  {
    if i == 0 then s else e[i - 1].state
  }

  lemma {:induction false} CountAppend(a: seq<Node>, b: seq<Node>, n: Node)
    ensures Count(a + b, n) == Count(a, n) + Count(b, n)
    decreases |a|
  {
    if a == [] {
      assert a + b == b;
    } else {
      assert (a + b)[1..] == a[1..] + b;
      CountAppend(a[1..], b, n);
    }
  }

  lemma {:induction false} RoundsFacts(j: nat)
    ensures |Rounds(j)| == 3 * j
    ensures Count(Rounds(j), Reviewer) == j
    ensures Count(Rounds(j), ChartGenerator) == 0 && Count(Rounds(j), Writer) == 0
    ensures j >= 1 ==> Rounds(j)[3 * j - 3] == Researcher && Rounds(j)[3 * j - 1] == Reviewer
  {
    if j > 0 {
      RoundsFacts(j - 1);
      var r := Rounds(j);
      var round := [Researcher, Analyst, Reviewer];
      assert r == round + Rounds(j - 1);
      forall n ensures Count(r, n) == Count(round, n) + Count(Rounds(j - 1), n) {
        CountAppend(round, Rounds(j - 1), n);
      }
      assert round[1..] == [Analyst, Reviewer] && round[1..][1..] == [Reviewer] && round[1..][1..][1..] == [];
      if j > 1 {
        assert r[3 * j - 1] == Rounds(j - 1)[3 * (j - 1) - 1];
        assert r[3 * j - 3] == Rounds(j - 1)[3 * (j - 1) - 3];
      }
    }
  }

  lemma {:induction false} NodesAppend(a: seq<Step>, b: seq<Step>)
    ensures Nodes(a + b) == Nodes(a) + Nodes(b)
    decreases |a|
  {
    if a != [] {
      assert (a + b)[1..] == a[1..] + b;
      NodesAppend(a[1..], b);
    } else {
      assert a + b == b;
    }
  }

  /**
   * One round from the researcher: researcher, analyst and reviewer, each on
   * the state the previous one left, then the edge the reviewer's update
   * selects.
   */
  lemma {:induction false} RoundSteps(nodes: Bodies, s: AgentState, k: nat)
    requires Honours(nodes)
    ensures var e := Execute(nodes, Researcher, s, k);
      var s1 := Merge(s, nodes(Researcher, s, k));
      var s2 := Merge(s1, nodes(Analyst, s1, k + 1));
      var s3 := Merge(s2, nodes(Reviewer, s2, k + 2));
      && |e| > 3
      && e[0] == Step(Researcher, nodes(Researcher, s, k), s1)
      && e[1] == Step(Analyst, nodes(Analyst, s1, k + 1), s2)
      && e[2] == Step(Reviewer, nodes(Reviewer, s2, k + 2), s3)
      && e[3..] == Execute(nodes, ShouldContinue(s3), s3, k + 3)
  {
    var s1 := Merge(s, nodes(Researcher, s, k));
    var s2 := Merge(s1, nodes(Analyst, s1, k + 1));
    var s3 := Merge(s2, nodes(Reviewer, s2, k + 2));
    var e, e1, e2 := Execute(nodes, Researcher, s, k), Execute(nodes, Analyst, s1, k + 1), Execute(nodes, Reviewer, s2, k + 2);
    var rest := Execute(nodes, ShouldContinue(s3), s3, k + 3);
    assert e2 == [Step(Reviewer, nodes(Reviewer, s2, k + 2), s3)] + rest by { Unfold(nodes, Reviewer, s2, k + 2); }
    assert e1 == [Step(Analyst, nodes(Analyst, s1, k + 1), s2)] + e2 by { Unfold(nodes, Analyst, s1, k + 1); }
    assert e == [Step(Researcher, nodes(Researcher, s, k), s1)] + e1 by { Unfold(nodes, Researcher, s, k); }
    assert e[1..] == e1 && e1[1..] == e2 && e2[1..] == rest;
    assert e[1] == e1[0] && e[2] == e2[0];
    assert e[3..] == e2[1..];
  }

  /** The same round by its nodes and its routing: going back costs one revision. */
  lemma {:induction false} Round(nodes: Bodies, s: AgentState, k: nat)
    requires Honours(nodes)
    ensures var e := Execute(nodes, Researcher, s, k);
      && |e| > 3
      && Nodes(e) == [Researcher, Analyst, Reviewer] + Nodes(e[3..])
      && e[3..] == Execute(nodes, ShouldContinue(e[2].state), e[2].state, k + 3)
      && (ShouldContinue(e[2].state) == Researcher ==>
            s.revisionCount < MaxRevisions && e[2].state.revisionCount == s.revisionCount + 1)
  {
    RoundSteps(nodes, s, k);
    var e := Execute(nodes, Researcher, s, k);
    assert Contract(Researcher, s, e[0].update);
    assert Contract(Analyst, e[0].state, e[1].update);
    assert Contract(Reviewer, e[1].state, e[2].update);
    assert e == e[..3] + e[3..];
    NodesAppend(e[..3], e[3..]);
  }

  /**
   * The same round by what the reviewer sees: the revision count and topic
   * the round started with and the research data of this round's search.
   */
  lemma {:induction false} RoundReview(nodes: Bodies, s: AgentState, k: nat)
    requires Honours(nodes)
    ensures var e := Execute(nodes, Researcher, s, k);
      && |e| > 3
      && e[1].state.revisionCount == s.revisionCount && e[1].state.topic == s.topic
      && e[2].state.researchData == e[0].state.researchData
      && e[2].state == Merge(e[1].state, nodes(Reviewer, e[1].state, k + 2))
      && e[3..] == Execute(nodes, ShouldContinue(e[2].state), e[2].state, k + 3)
  {
    RoundSteps(nodes, s, k);
    var e := Execute(nodes, Researcher, s, k);
    assert Contract(Researcher, s, e[0].update);
    assert Contract(Analyst, e[0].state, e[1].update);
    assert Contract(Reviewer, e[1].state, e[2].update);
  }

  /** From chart_generator a run ends after the writer. */
  lemma {:induction false} Finish(nodes: Bodies, s: AgentState, k: nat)
    requires Honours(nodes)
    ensures var e := Execute(nodes, ChartGenerator, s, k);
      var sc := Merge(s, nodes(ChartGenerator, s, k));
      && e == [Step(ChartGenerator, nodes(ChartGenerator, s, k), sc),
               Step(Writer, nodes(Writer, sc, k + 1), Merge(sc, nodes(Writer, sc, k + 1)))]
      && Nodes(e) == [ChartGenerator, Writer]
  {
    var t := Merge(s, nodes(ChartGenerator, s, k));
    Unfold(nodes, Writer, t, k + 1);
    Unfold(nodes, ChartGenerator, s, k);
  }

  lemma {:induction false} WellShapedIntro(j: nat, ns: seq<Node>, maxRounds: int)
    requires 1 <= j <= maxRounds && ns == Rounds(j) + [ChartGenerator, Writer]
    ensures WellShaped(ns, maxRounds)
  {
    RoundsFacts(j);
    assert (|ns| - 2) / 3 == j;
  }

  /** One more round in front of a well-shaped sequence. */
  lemma {:induction false} ShapePrepend(rest: seq<Node>, maxRounds: int)
    requires WellShaped(rest, maxRounds)
    ensures WellShaped([Researcher, Analyst, Reviewer] + rest, maxRounds + 1)
  {
    var j := (|rest| - 2) / 3;
    assert [Researcher, Analyst, Reviewer] + rest == Rounds(j + 1) + [ChartGenerator, Writer];
    WellShapedIntro(j + 1, [Researcher, Analyst, Reviewer] + rest, maxRounds + 1);
  }

  lemma {:induction false} ShapeFrom(nodes: Bodies, s: AgentState, k: nat)
    requires Honours(nodes) && 0 <= s.revisionCount <= MaxRevisions
    ensures WellShaped(Nodes(Execute(nodes, Researcher, s, k)), 3 - s.revisionCount)
    decreases Budget(s.revisionCount)
  {
    var e := Execute(nodes, Researcher, s, k);
    Round(nodes, s, k);
    var s3 := e[2].state;
    var round := [Researcher, Analyst, Reviewer];
    if ShouldContinue(s3) == Researcher {
      ShapeFrom(nodes, s3, k + 3);
      ShapePrepend(Nodes(e[3..]), 3 - s3.revisionCount);
    } else {
      Finish(nodes, s3, k + 3);
      assert Rounds(1) == round + Rounds(0);
      WellShapedIntro(1, Nodes(e), 3 - s.revisionCount);
    }
  }

  /** Along a run every state keeps the topic, and the revision count only grows, never past the cap. */
  lemma {:induction false} StatesBounded(nodes: Bodies, n: Node, s: AgentState, k: nat)
    requires Honours(nodes) && 0 <= s.revisionCount <= MaxRevisions
    ensures forall i :: 0 <= i < |Execute(nodes, n, s, k)| ==>
      var t := Execute(nodes, n, s, k)[i].state;
      t.topic == s.topic && s.revisionCount <= t.revisionCount <= MaxRevisions
    decreases Budget(s.revisionCount), Distance(n)
  {
    var u := nodes(n, s, k);
    assert Contract(n, s, u);
    var t := Merge(s, u);
    match Successor(n, t)
    case None =>
    case Some(m) =>
      StatesBounded(nodes, m, t, k + 1);
      var e := Execute(nodes, n, s, k);
      assert e == [e[0]] + Execute(nodes, m, t, k + 1);
  }

  /** How `j` rounds then chart_generator and writer begin and end. */
  lemma {:induction false} ShapeEnds(j: nat, ns: seq<Node>)
    requires 1 <= j && ns == Rounds(j) + [ChartGenerator, Writer]
    ensures |ns| == 3 * j + 2
    ensures ns[..3] == [Researcher, Analyst, Reviewer]
    ensures ns[|ns| - 5] == Researcher
    ensures ns[|ns| - 3..] == [Reviewer, ChartGenerator, Writer]
  {
    var r := Rounds(j);
    RoundsFacts(j);
    assert ns[|ns| - 3] == r[3 * j - 1];
    assert ns[|ns| - 5] == r[3 * j - 3];
    assert r == [Researcher, Analyst, Reviewer] + Rounds(j - 1);
    assert ns[..3] == r[..3];
  }

  /** How often each node runs in `j` rounds then chart_generator and writer. */
  lemma {:induction false} ShapeCounts(j: nat, ns: seq<Node>)
    requires ns == Rounds(j) + [ChartGenerator, Writer]
    ensures Count(ns, Reviewer) == j
    ensures Count(ns, ChartGenerator) == 1 && Count(ns, Writer) == 1
  {
    var r := Rounds(j);
    var tail := [ChartGenerator, Writer];
    RoundsFacts(j);
    assert tail[1..] == [Writer] && tail[1..][1..] == [];
    CountAppend(r, tail, Reviewer);
    CountAppend(r, tail, ChartGenerator);
    CountAppend(r, tail, Writer);
  }

  /** What a node sequence of one to three rounds followed by chart_generator and writer looks like. */
  lemma {:induction false} ShapeFacts(ns: seq<Node>)
    requires WellShaped(ns, 3)
    ensures && (|ns| == 5 || |ns| == 8 || |ns| == 11)
      && ns[..3] == [Researcher, Analyst, Reviewer]
      && ns[|ns| - 5] == Researcher
      && ns[|ns| - 3..] == [Reviewer, ChartGenerator, Writer]
      && 1 <= Count(ns, Reviewer) <= 3
      && Count(ns, ChartGenerator) == 1 && Count(ns, Writer) == 1
  {
    var j := (|ns| - 2) / 3;
    ShapeEnds(j, ns);
    ShapeCounts(j, ns);
  }

  /**
   * Termination, for any node bodies that keep the contract: from the initial
   * state a run has 5, 8 or 11 stages, starts researcher, analyst, reviewer,
   * ends reviewer, chart_generator, writer, runs the reviewer at most three
   * times, and never counts more than two revisions.
   */
  lemma {:induction false} Terminates(nodes: Bodies, topic: string)
    requires Honours(nodes)
    ensures var t := Execute(nodes, Entry, Initial(topic), 0); var ns := Nodes(t);
      && (|t| == 5 || |t| == 8 || |t| == 11)
      && ns[..3] == [Researcher, Analyst, Reviewer]
      && ns[|ns| - 5] == Researcher
      && ns[|ns| - 3..] == [Reviewer, ChartGenerator, Writer]
      && 1 <= Count(ns, Reviewer) <= 3
      && Count(ns, ChartGenerator) == 1 && Count(ns, Writer) == 1
      && forall i :: 0 <= i < |t| ==> t[i].state.topic == topic && 0 <= t[i].state.revisionCount <= MaxRevisions
  {
    ShapeFrom(nodes, Initial(topic), 0);
    ShapeFacts(Nodes(Execute(nodes, Entry, Initial(topic), 0)));
    StatesBounded(nodes, Entry, Initial(topic), 0);
  }

  /** The same guarantee for the run of graph.py, whatever the model and the search tool answer. */
  lemma {:induction false} Termination(topic: string, o: Oracle)
    ensures var t := Trace(topic, o); var ns := Nodes(t);
      && (|t| == 5 || |t| == 8 || |t| == 11)
      && ns[..3] == [Researcher, Analyst, Reviewer]
      && ns[|ns| - 5] == Researcher
      && ns[|ns| - 3..] == [Reviewer, ChartGenerator, Writer]
      && 1 <= Count(ns, Reviewer) <= 3
      && Count(ns, ChartGenerator) == 1 && Count(ns, Writer) == 1
      && forall i :: 0 <= i < |t| ==> t[i].state.topic == topic && 0 <= t[i].state.revisionCount <= MaxRevisions
  {
    AgentsHonourContract(o);
    Terminates(Agents(o), topic);
  }

  /** A first round whose reviewer approves leaves no feedback. */
  lemma {:induction false} ApprovedRound(nodes: Bodies, s: AgentState)
    requires Honours(nodes)
    requires forall x :: nodes(Reviewer, x, 2).feedback == Some(None)
    ensures var e := Execute(nodes, Researcher, s, 0); |e| > 3 && e[2].state.feedback == None
  {
    RoundReview(nodes, s, 0);
  }

  /** Node bodies whose reviewer approves at once, from the researcher, give the straight five-stage run. */
  lemma {:induction false} ApprovedAtOnce(nodes: Bodies, s: AgentState)
    requires Honours(nodes)
    requires forall x :: nodes(Reviewer, x, 2).feedback == Some(None)
    ensures Nodes(Execute(nodes, Researcher, s, 0)) == [Researcher, Analyst, Reviewer, ChartGenerator, Writer]
  {
    var e := Execute(nodes, Researcher, s, 0);
    ApprovedRound(nodes, s);
    Round(nodes, s, 0);
    var s3 := e[2].state;
    assert ShouldContinue(s3) == ChartGenerator;
    Finish(nodes, s3, 3);
  }

  /** A reviewer that approves at once gives the straight five-stage run of graph.py. */
  lemma {:induction false} ImmediateApproval(topic: string, o: Oracle)
    requires forall p :: Contains(o.llm(2, p), "APPROVED")
    ensures Nodes(Trace(topic, o)) == [Researcher, Analyst, Reviewer, ChartGenerator, Writer]
  {
    AgentsHonourContract(o);
    forall x ensures Agents(o)(Reviewer, x, 2).feedback == Some(None) {
      assert Agents(o)(Reviewer, x, 2) == ReviewerNode(x, 2, o);
    }
    ApprovedAtOnce(Agents(o), Initial(topic));
  }

  /** chart_generator and the writer leave the feedback alone. */
  lemma {:induction false} FinishFeedback(nodes: Bodies, s: AgentState, k: nat)
    requires Honours(nodes)
    ensures var e := Execute(nodes, ChartGenerator, s, k);
      |e| == 2 && e[1].state.feedback == s.feedback
  {
    Finish(nodes, s, k);
    var sc := Merge(s, nodes(ChartGenerator, s, k));
    assert Contract(ChartGenerator, s, nodes(ChartGenerator, s, k));
    assert Contract(Writer, sc, nodes(Writer, sc, k + 1));
  }

  /**
   * Node bodies whose reviewer, below the cap, spends a revision and leaves
   * empty feedback: the empty string is falsy, so the run from the
   * researcher is the straight five stages, one revision further on.
   */
  lemma {:induction false} BareRound(nodes: Bodies, s: AgentState)
    requires Honours(nodes) && s.revisionCount < MaxRevisions
    requires forall x: AgentState :: x.revisionCount < MaxRevisions ==>
      nodes(Reviewer, x, 2) == NoKeys.(feedback := Some(Some("")), revisionCount := Some(x.revisionCount + 1))
    ensures var e := Execute(nodes, Researcher, s, 0);
      && Nodes(e) == [Researcher, Analyst, Reviewer, ChartGenerator, Writer]
      && e[4].state.revisionCount == s.revisionCount + 1
      && e[4].state.feedback == Some("")
  {
    BareReview(nodes, s);
    ForwardRun(nodes, s);
  }

  /** A round whose reviewer routes forward is the straight five stages, and the writer leaves count and feedback as the review set them. */
  lemma {:induction false} ForwardRun(nodes: Bodies, s: AgentState)
    requires Honours(nodes)
    requires var e := Execute(nodes, Researcher, s, 0); |e| > 3 && ShouldContinue(e[2].state) == ChartGenerator
    ensures var e := Execute(nodes, Researcher, s, 0);
      && Nodes(e) == [Researcher, Analyst, Reviewer, ChartGenerator, Writer]
      && e[4].state.revisionCount == e[2].state.revisionCount && e[4].state.feedback == e[2].state.feedback
  {
    var e := Execute(nodes, Researcher, s, 0);
    Round(nodes, s, 0);
    ForwardTail(nodes, e);
  }

  /** The first three stages of such a round: the reviewer spends a revision and its empty feedback routes forward. */
  lemma {:induction false} BareReview(nodes: Bodies, s: AgentState)
    requires Honours(nodes) && s.revisionCount < MaxRevisions
    requires forall x: AgentState :: x.revisionCount < MaxRevisions ==>
      nodes(Reviewer, x, 2) == NoKeys.(feedback := Some(Some("")), revisionCount := Some(x.revisionCount + 1))
    ensures var e := Execute(nodes, Researcher, s, 0);
      && |e| > 3
      && e[2].state.revisionCount == s.revisionCount + 1 && e[2].state.feedback == Some("")
      && ShouldContinue(e[2].state) == ChartGenerator
  {
    var e := Execute(nodes, Researcher, s, 0);
    RoundReview(nodes, s, 0);
    var x := e[1].state;
    BareMerge(x, nodes(Reviewer, x, 2), e[2].state);
  }

  /** Merging a review that spends a revision and leaves empty feedback: the count goes up, and the falsy feedback routes forward. */
  lemma {:induction false} BareMerge(x: AgentState, u: Update, merged: AgentState)
    requires u == NoKeys.(feedback := Some(Some("")), revisionCount := Some(x.revisionCount + 1))
    requires merged == Merge(x, u)
    ensures merged.revisionCount == x.revisionCount + 1 && merged.feedback == Some("")
    ensures ShouldContinue(merged) == ChartGenerator
  {
  }

  /** A round routed forward ends the run with chart_generator and the writer, leaving count and feedback alone. */
  lemma {:induction false} ForwardTail(nodes: Bodies, e: seq<Step>)
    requires Honours(nodes) && |e| > 3
    requires Nodes(e) == [Researcher, Analyst, Reviewer] + Nodes(e[3..])
    requires e[3..] == Execute(nodes, ChartGenerator, e[2].state, 3)
    ensures Nodes(e) == [Researcher, Analyst, Reviewer, ChartGenerator, Writer]
    ensures e[4].state.revisionCount == e[2].state.revisionCount && e[4].state.feedback == e[2].state.feedback
  {
    var s3 := e[2].state;
    Finish(nodes, s3, 3);
    FinishCount(nodes, s3, 3);
    FinishFeedback(nodes, s3, 3);
    DropThree(e);
  }

  /**
   * A reviewer that answers a bare "REJECTED" spends a revision but leaves
   * empty feedback, which routes forward: the run of graph.py is the
   * straight five stages, ending with a revision count of one.
   */
  lemma {:induction false} BareRejectionRun(topic: string, o: Oracle)
    requires forall p :: o.llm(2, p) == "REJECTED"
    ensures Nodes(Trace(topic, o)) == [Researcher, Analyst, Reviewer, ChartGenerator, Writer]
    ensures Trace(topic, o)[4].state.revisionCount == 1
    ensures Trace(topic, o)[4].state.feedback == Some("")
  {
    AgentsHonourContract(o);
    forall x: AgentState | x.revisionCount < MaxRevisions
      ensures Agents(o)(Reviewer, x, 2) == NoKeys.(feedback := Some(Some("")), revisionCount := Some(x.revisionCount + 1))
    {
      assert Agents(o)(Reviewer, x, 2) == ReviewerNode(x, 2, o);
      BareRejection(x, 2, o);
    }
    BareRound(Agents(o), Initial(topic));
  }

  /** The reviewer's verdict rejects with feedback that survives stripping. */
  predicate RejectsWithFeedback(verdict: string) {
    !Contains(verdict, "APPROVED") && Strip(ReplaceAll(verdict, "REJECTED", "")) != ""
  }

  /** A round whose reviewer, below the cap, leaves feedback: it goes back while it may spend a revision. */
  lemma {:induction false} RejectedRound(nodes: Bodies, s: AgentState, k: nat)
    requires Honours(nodes)
    requires forall x: AgentState, j: nat :: x.revisionCount < MaxRevisions ==> Truthy(nodes(Reviewer, x, j).feedback.value)
    ensures var e := Execute(nodes, Researcher, s, k);
      && |e| > 3
      && e[3..] == Execute(nodes, ShouldContinue(e[2].state), e[2].state, k + 3)
      && (s.revisionCount < MaxRevisions ==>
            ShouldContinue(e[2].state) == Researcher && e[2].state.revisionCount == s.revisionCount + 1)
      && (s.revisionCount >= MaxRevisions ==>
            ShouldContinue(e[2].state) == ChartGenerator && e[2].state.revisionCount == s.revisionCount)
  {
    var e := Execute(nodes, Researcher, s, k);
    RoundReview(nodes, s, k);
    assert Contract(Reviewer, e[1].state, nodes(Reviewer, e[1].state, k + 2));
  }

  /** chart_generator and the writer leave the revision count alone. */
  lemma {:induction false} FinishCount(nodes: Bodies, s: AgentState, k: nat)
    requires Honours(nodes)
    ensures var e := Execute(nodes, ChartGenerator, s, k);
      |e| == 2 && e[1].state.revisionCount == s.revisionCount
  {
    Finish(nodes, s, k);
    var sc := Merge(s, nodes(ChartGenerator, s, k));
    assert Contract(ChartGenerator, s, nodes(ChartGenerator, s, k));
    assert Contract(Writer, sc, nodes(Writer, sc, k + 1));
  }

  /** The length and last stage of a run, from those of its stages after the third. */
  lemma {:induction false} DropThree(e: seq<Step>)
    requires |e| > 3
    ensures |e| == |e[3..]| + 3 && e[|e| - 1] == e[3..][|e[3..]| - 1]
  {
  }

  /**
   * Node bodies whose reviewer, below the cap, always leaves feedback: a run
   * from the researcher spends every revision left, one round per revision,
   * plus the round the cap approves.
   */
  lemma {:induction false} RejectedFrom(nodes: Bodies, s: AgentState, k: nat)
    requires Honours(nodes)
    requires forall x: AgentState, j: nat :: x.revisionCount < MaxRevisions ==> Truthy(nodes(Reviewer, x, j).feedback.value)
    requires 0 <= s.revisionCount <= MaxRevisions
    ensures var e := Execute(nodes, Researcher, s, k);
      |e| == 3 * (MaxRevisions - s.revisionCount) + 5 && e[|e| - 1].state.revisionCount == MaxRevisions
    decreases Budget(s.revisionCount)
  {
    var e := Execute(nodes, Researcher, s, k);
    RejectedRound(nodes, s, k);
    var s3 := e[2].state;
    if s.revisionCount < MaxRevisions {
      var tail := Execute(nodes, Researcher, s3, k + 3);
      RejectedFrom(nodes, s3, k + 3);
      AfterThree(e, tail, 3 * (MaxRevisions - s3.revisionCount) + 5, MaxRevisions);
    } else {
      var tail := Execute(nodes, ChartGenerator, s3, k + 3);
      FinishCount(nodes, s3, k + 3);
      AfterThree(e, tail, 2, s3.revisionCount);
    }
  }

  /** A run that goes on after its first three stages as `tail` does is three stages longer and ends where `tail` ends. */
  lemma {:induction false} AfterThree(e: seq<Step>, tail: seq<Step>, n: nat, r: int)
    requires |e| > 3 && e[3..] == tail
    requires |tail| == n > 0 && tail[n - 1].state.revisionCount == r
    ensures |e| == n + 3 && e[|e| - 1].state.revisionCount == r
  {
    DropThree(e);
  }

  /**
   * A reviewer that always rejects with feedback gets three reviews: two
   * revisions, then the forced approval at the cap; the run has 11 stages.
   */
  lemma {:induction false} AlwaysRejecting(topic: string, o: Oracle)
    requires forall k, p :: RejectsWithFeedback(o.llm(k, p))
    ensures |Trace(topic, o)| == 11
    ensures Trace(topic, o)[10].state.revisionCount == MaxRevisions
  {
    AgentsHonourContract(o);
    forall x: AgentState, j: nat | x.revisionCount < MaxRevisions ensures Truthy(Agents(o)(Reviewer, x, j).feedback.value) {
      var verdict := o.llm(j, ReviewPrompt(x.topic, x.analysis));
      assert RejectsWithFeedback(verdict);
      assert Agents(o)(Reviewer, x, j) == Judge(x.revisionCount, verdict);
    }
    RejectedFrom(Agents(o), Initial(topic), 0);
  }

  /**
   * The stages `e`, begun in state `s` as stage `k`, end with a straight
   * round: the last five stages are the run from the researcher on the state
   * the round began with, and that round's reviewer routes forward.
   */
  ghost predicate EndsWithRound(nodes: Bodies, e: seq<Step>, s: AgentState, k: nat)
    requires Honours(nodes)
  {
    && |e| >= 5
    && e[|e| - 5..] == Execute(nodes, Researcher, StateBefore(e, s, |e| - 5), k + |e| - 5)
    && ShouldContinue(e[|e| - 3].state) == ChartGenerator
  }

  /** Three stages in front keep the last round where it was. */
  lemma {:induction false} EndsWithRoundShift(nodes: Bodies, e: seq<Step>, s: AgentState, k: nat)
    requires Honours(nodes) && |e| > 3 && EndsWithRound(nodes, e[3..], e[2].state, k + 3)
    ensures EndsWithRound(nodes, e, s, k)
  {
    var tail := e[3..];
    var m := |tail|;
    assert e[|e| - 5..] == tail[m - 5..];
    assert e[|e| - 3] == tail[m - 3];
    assert StateBefore(e, s, |e| - 5) == StateBefore(tail, e[2].state, m - 5) by {
      if m > 5 {
        assert e[|e| - 6] == tail[m - 6];
      }
    }
    assert k + 3 + m - 5 == k + |e| - 5;
  }

  /** A run from the researcher ends with a straight round. */
  lemma {:induction false} LastRound(nodes: Bodies, s: AgentState, k: nat)
    requires Honours(nodes) && 0 <= s.revisionCount <= MaxRevisions
    ensures EndsWithRound(nodes, Execute(nodes, Researcher, s, k), s, k)
    decreases Budget(s.revisionCount)
  {
    var e := Execute(nodes, Researcher, s, k);
    assert |e| > 3 by { RoundReview(nodes, s, k); }
    var s3 := e[2].state;
    var tail := e[3..];
    assert tail == Execute(nodes, ShouldContinue(s3), s3, k + 3)
      && (ShouldContinue(s3) == Researcher ==> s.revisionCount < s3.revisionCount <= MaxRevisions) by {
      Round(nodes, s, k);
    }
    if ShouldContinue(s3) == Researcher {
      LastRound(nodes, s3, k + 3);
      EndsWithRoundShift(nodes, e, s, k);
    } else {
      assert |tail| == 2 by { Finish(nodes, s3, k + 3); }
      assert e[|e| - 5..] == e;
      assert StateBefore(e, s, |e| - 5) == s;
    }
  }

  /**
   * The last five stages of `e`, begun in state `s` as stage `k`: the
   * reviewer leaves the research data of the researcher before it and no
   * pending feedback, then chart_generator and the writer each merge their
   * update into the state the previous stage left.
   */
  ghost predicate StraightEnd(nodes: Bodies, e: seq<Step>, s: AgentState, k: nat)
    requires Honours(nodes)
  {
    && |e| >= 5
    && var n := |e|;
    && var before := StateBefore(e, s, n - 5);
    && e[n - 3].state.researchData == Merge(before, nodes(Researcher, before, k + n - 5)).researchData
    && !Truthy(e[n - 3].state.feedback)
    && e[n - 2].state == Merge(e[n - 3].state, nodes(ChartGenerator, e[n - 3].state, k + n - 2))
    && e[n - 1].state == Merge(e[n - 2].state, nodes(Writer, e[n - 2].state, k + n - 1))
  }

  /** A round whose reviewer routes forward is a straight end of five stages. */
  lemma {:induction false} StraightRound(nodes: Bodies, s: AgentState, k: nat)
    requires Honours(nodes)
    requires var e := Execute(nodes, Researcher, s, k); |e| > 2 && ShouldContinue(e[2].state) == ChartGenerator
    ensures |Execute(nodes, Researcher, s, k)| == 5
    ensures StraightEnd(nodes, Execute(nodes, Researcher, s, k), s, k)
  {
    var f := Execute(nodes, Researcher, s, k);
    assert |f| > 3 && f[2].state.researchData == f[0].state.researchData
        && f[0].state == Merge(s, nodes(Researcher, s, k)) && f[3..] == Execute(nodes, ChartGenerator, f[2].state, k + 3) by {
      RoundSteps(nodes, s, k);
      RoundReview(nodes, s, k);
    }
    Finish(nodes, f[2].state, k + 3);
    assert f[3] == f[3..][0] && f[4] == f[3..][1];
  }

  /** A straight end of the last five stages is a straight end of the whole. */
  lemma {:induction false} StraightEndShift(nodes: Bodies, e: seq<Step>, s: AgentState, k: nat, j: nat)
    requires Honours(nodes) && |e| >= 5 && j == k + |e| - 5
    requires StraightEnd(nodes, e[|e| - 5..], StateBefore(e, s, |e| - 5), j)
    ensures StraightEnd(nodes, e, s, k)
  {
    var n := |e|;
    var f := e[n - 5..];
    assert f[2] == e[n - 3] && f[3] == e[n - 2] && f[4] == e[n - 1];
    assert StateBefore(f, StateBefore(e, s, n - 5), 0) == StateBefore(e, s, n - 5);
  }

  /**
   * The last round after the reviewer routes forward: the reviewer state
   * `sv` kept the data of the researcher that ran on `before` as stage `jr`
   * and has no pending feedback, then chart_generator (stage `jc`) and the
   * writer (stage `jw`) merge their updates in turn.
   */
  ghost predicate LastRoundOf(nodes: Bodies, before: AgentState, jr: nat,
                              sv: AgentState, sc: AgentState, jc: nat, final: AgentState, jw: nat)
  {
    && sv.researchData == Merge(before, nodes(Researcher, before, jr)).researchData
    && !Truthy(sv.feedback)
    && sc == Merge(sv, nodes(ChartGenerator, sv, jc))
    && final == Merge(sc, nodes(Writer, sc, jw))
  }

  /** A run from the initial state ends straight. */
  lemma {:induction false} LastStages(nodes: Bodies, topic: string)
    requires Honours(nodes)
    ensures var e := Execute(nodes, Entry, Initial(topic), 0); var n := |e|;
      && n >= 5
      && LastRoundOf(nodes, StateBefore(e, Initial(topic), n - 5), n - 5,
                     e[n - 3].state, e[n - 2].state, n - 2, e[n - 1].state, n - 1)
  {
    var e := Execute(nodes, Entry, Initial(topic), 0);
    var n := |e|;
    LastRound(nodes, Initial(topic), 0);
    var before := StateBefore(e, Initial(topic), n - 5);
    var f := e[n - 5..];
    assert f == Execute(nodes, Researcher, before, n - 5) && f[2] == e[n - 3];
    StraightRound(nodes, before, n - 5);
    StraightEndShift(nodes, e, Initial(topic), 0, n - 5);
    assert StraightEnd(nodes, e, Initial(topic), 0);
    assert 0 + n - 5 == n - 5 && 0 + n - 2 == n - 2 && 0 + n - 1 == n - 1;
  }

  /** What the researcher, chart_generator and writer of graph.py return, as premises on node bodies. */
  ghost predicate FinalBodies(nodes: Bodies, llm: (nat, Prompt) -> string) {
    && (forall x, j :: |Merge(x, nodes(Researcher, x, j)).researchData| == 1)
    && (forall x, j :: var c := Merge(x, nodes(ChartGenerator, x, j)).chartFiles;
          Sorted(c) && forall i :: 0 <= i < |c| ==> IsChartName(c[i]))
    && (forall x, j :: Merge(x, nodes(Writer, x, j)).finalReport == llm(j, ReportPrompt(x.topic, x.analysis, x.chartFiles)))
  }

  lemma {:induction false} AgentsFinalBodies(o: Oracle)
    ensures FinalBodies(Agents(o), o.llm)
  {
    AgentsResearch(o);
    AgentsCharts(o);
    AgentsReport(o);
  }

  lemma {:induction false} AgentsResearch(o: Oracle)
    ensures forall x, j :: |Merge(x, Agents(o)(Researcher, x, j)).researchData| == 1
  {
    forall x, j ensures |Merge(x, Agents(o)(Researcher, x, j)).researchData| == 1 {
      assert Agents(o)(Researcher, x, j) == ResearcherNode(x, j, o);
    }
  }

  lemma {:induction false} AgentsCharts(o: Oracle)
    ensures forall x, j :: var c := Merge(x, Agents(o)(ChartGenerator, x, j)).chartFiles;
      Sorted(c) && forall i :: 0 <= i < |c| ==> IsChartName(c[i])
  {
    forall x, j ensures var c := Merge(x, Agents(o)(ChartGenerator, x, j)).chartFiles;
        Sorted(c) && forall i :: 0 <= i < |c| ==> IsChartName(c[i]) {
      assert Agents(o)(ChartGenerator, x, j) == ChartGeneratorNode(x, j, o);
    }
  }

  lemma {:induction false} AgentsReport(o: Oracle)
    ensures forall x, j :: Merge(x, Agents(o)(Writer, x, j)).finalReport == o.llm(j, ReportPrompt(x.topic, x.analysis, x.chartFiles))
  {
    forall x, j ensures Merge(x, Agents(o)(Writer, x, j)).finalReport == o.llm(j, ReportPrompt(x.topic, x.analysis, x.chartFiles)) {
      assert Agents(o)(Writer, x, j) == WriterNode(x, j, o);
    }
  }

  /**
   * What the final state of graph.py's run holds: one research document, no
   * pending feedback, sorted chart names, and the report the model wrote, as
   * stage `jw`, on the state's own topic, analysis and charts.
   */
  predicate Finished(llm: (nat, Prompt) -> string, final: AgentState, jw: nat) {
    && !Truthy(final.feedback)
    && |final.researchData| == 1
    && Sorted(final.chartFiles) && (forall i :: 0 <= i < |final.chartFiles| ==> IsChartName(final.chartFiles[i]))
    && final.finalReport == llm(jw, ReportPrompt(final.topic, final.analysis, final.chartFiles))
  }

  /**
   * The last round after the reviewer routes forward, for node bodies that
   * return what graph.py's do: the final state keeps one research document
   * and no feedback, holds sorted chart names, and carries the report
   * written on its own topic, analysis and charts.
   */
  lemma {:induction false} LastFrames(nodes: Bodies, llm: (nat, Prompt) -> string, before: AgentState, jr: nat,
                   sv: AgentState, sc: AgentState, jc: nat, final: AgentState, jw: nat)
    requires Honours(nodes) && FinalBodies(nodes, llm)
    requires LastRoundOf(nodes, before, jr, sv, sc, jc, final, jw)
    ensures Finished(llm, final, jw)
  {
    assert Contract(ChartGenerator, sv, nodes(ChartGenerator, sv, jc));
    assert Contract(Writer, sc, nodes(Writer, sc, jw));
    assert |Merge(before, nodes(Researcher, before, jr)).researchData| == 1;
    var c := Merge(sv, nodes(ChartGenerator, sv, jc)).chartFiles;
    assert Sorted(c) && forall i :: 0 <= i < |c| ==> IsChartName(c[i]);
  }

  /** The final state of a run, for node bodies that return what graph.py's do. */
  lemma {:induction false} FinalOutcome(nodes: Bodies, llm: (nat, Prompt) -> string, topic: string)
    requires Honours(nodes) && FinalBodies(nodes, llm)
    ensures var e := Execute(nodes, Entry, Initial(topic), 0); var final := e[|e| - 1].state;
      && final.topic == topic && 0 <= final.revisionCount <= MaxRevisions
      && Finished(llm, final, |e| - 1)
  {
    FinalBounded(nodes, topic);
    FinalFinished(nodes, llm, topic);
  }

  lemma {:induction false} FinalBounded(nodes: Bodies, topic: string)
    requires Honours(nodes)
    ensures var e := Execute(nodes, Entry, Initial(topic), 0);
      && e != [] && e[|e| - 1].state.topic == topic && 0 <= e[|e| - 1].state.revisionCount <= MaxRevisions
  {
    LastStages(nodes, topic);
    StatesBounded(nodes, Entry, Initial(topic), 0);
  }

  lemma {:induction false} FinalFinished(nodes: Bodies, llm: (nat, Prompt) -> string, topic: string)
    requires Honours(nodes) && FinalBodies(nodes, llm)
    ensures var e := Execute(nodes, Entry, Initial(topic), 0);
      && e != [] && Finished(llm, e[|e| - 1].state, |e| - 1)
  {
    var e := Execute(nodes, Entry, Initial(topic), 0);
    var n := |e|;
    LastStages(nodes, topic);
    var before := StateBefore(e, Initial(topic), n - 5);
    LastFrames(nodes, llm, before, n - 5, e[n - 3].state, e[n - 2].state, n - 2, e[n - 1].state, n - 1);
  }

  /** Moving one stage from the front of the rest of a run to the end of the stages done. */
  lemma {:induction false} Regroup(done: seq<Step>, x: Step, rest: seq<Step>)
    ensures done + ([x] + rest) == done + [x] + rest
    ensures rest == [] ==> [x] + rest == [x]
  {
  }

  /**
   * One pass of the engine's loop keeps the rest of the run in step with the
   * whole run, and moves to a node nearer END or to a smaller revision budget.
   */
  lemma {:induction false} Advance(nodes: Bodies, whole: seq<Step>, steps: seq<Step>, n: Node, s: AgentState)
    requires Honours(nodes) && 0 <= s.revisionCount <= MaxRevisions
    requires steps + Execute(nodes, n, s, |steps|) == whole
    ensures var u := nodes(n, s, |steps|); var t := Merge(s, u); var next := Successor(n, t);
      && 0 <= t.revisionCount <= MaxRevisions
      && Budget(t.revisionCount) <= Budget(s.revisionCount)
      && (next.Some? ==> steps + [Step(n, u, t)] + Execute(nodes, next.value, t, |steps| + 1) == whole)
      && (next.Some? && Budget(t.revisionCount) == Budget(s.revisionCount) ==> Distance(next.value) < Distance(n))
      && (next.None? ==> steps + [Step(n, u, t)] == whole)
  {
    var u := nodes(n, s, |steps|);
    var t := Merge(s, u);
    assert Contract(n, s, u);
    Unfold(nodes, n, s, |steps|);
    var rest := if Successor(n, t).None? then [] else Execute(nodes, Successor(n, t).value, t, |steps| + 1);
    Regroup(steps, Step(n, u, t), rest);
  }

  /**
   * The engine behind `app.stream(inputs)`: from the entry point, run the
   * current node, merge its update into the running state, record the stage,
   * and follow the edge until END.
   */
  method Drive(nodes: Bodies, topic: string) returns (steps: seq<Step>)
    requires Honours(nodes)
    ensures steps == Execute(nodes, Entry, Initial(topic), 0)
  {
    ghost var whole := Execute(nodes, Entry, Initial(topic), 0);
    var state := Initial(topic);
    var next: Option<Node> := Some(Entry);
    steps := [];
    while next.Some?
      invariant 0 <= state.revisionCount <= MaxRevisions
      invariant next.Some? ==> steps + Execute(nodes, next.value, state, |steps|) == whole
      invariant next.None? ==> steps == whole
      decreases Budget(state.revisionCount), if next.Some? then Distance(next.value) + 1 else 0
    {
      var node := next.value;
      var update := nodes(node, state, |steps|);
      Advance(nodes, whole, steps, node, state);
      state := Merge(state, update);
      next := Successor(node, state);
      steps := steps + [Step(node, update, state)];
    }
  }

  /** The stage shows its state's feedback: the reviewer returns the key, and the merge stores it. */
  predicate ShowsFeedback(x: Step) {
    x.node == Reviewer ==> x.update.feedback.Some? && x.state.feedback == x.update.feedback.value
  }

  /** Consecutive stages follow the edges, the last stage has none, and every reviewer shows its feedback. */
  predicate Linked(e: seq<Step>) {
    && e != []
    && (forall i :: 0 <= i < |e| - 1 ==> Successor(e[i].node, e[i].state) == Some(e[i + 1].node))
    && Successor(e[|e| - 1].node, e[|e| - 1].state).None?
    && (forall i :: 0 <= i < |e| ==> ShowsFeedback(e[i]))
  }

  lemma {:induction false} LinkedCons(x: Step, rest: seq<Step>)
    requires Linked(rest) && ShowsFeedback(x) && Successor(x.node, x.state) == Some(rest[0].node)
    ensures Linked([x] + rest)
  {
    var e := [x] + rest;
    forall i | 0 <= i < |e| - 1 ensures Successor(e[i].node, e[i].state) == Some(e[i + 1].node) {
      assert e[i + 1] == rest[i];
      if i > 0 {
        assert e[i] == rest[i - 1];
      }
    }
    assert e[|e| - 1] == rest[|rest| - 1];
    forall i | 0 <= i < |e| ensures ShowsFeedback(e[i]) {
      if i > 0 {
        assert e[i] == rest[i - 1];
      }
    }
  }

  /** Every run follows the edges stage by stage and ends where the edges end. */
  lemma {:induction false} ExecuteLinked(nodes: Bodies, n: Node, s: AgentState, k: nat)
    requires Honours(nodes)
    ensures Linked(Execute(nodes, n, s, k))
    decreases Budget(s.revisionCount), Distance(n)
  {
    var u := nodes(n, s, k);
    assert Contract(n, s, u);
    var t := Merge(s, u);
    var x := Step(n, u, t);
    Unfold(nodes, n, s, k);
    match Successor(n, t)
    case None =>
      assert Execute(nodes, n, s, k) == [x];
    case Some(m) =>
      ExecuteLinked(nodes, m, t, k + 1);
      LinkedCons(x, Execute(nodes, m, t, k + 1));
  }

  /** What the generator yields: each node's name with the update it returned. */
  function Events(steps: seq<Step>): (events: seq<(string, Update)>)
    ensures |events| == |steps|
    ensures forall i :: 0 <= i < |steps| ==> events[i] == (Name(steps[i].node), steps[i].update)
  {
    seq(|steps|, i requires 0 <= i < |steps| => (Name(steps[i].node), steps[i].update))
  }

  /**
   * `run_stream`: the (node name, update) pairs of a run, 5 to 11 of them,
   * opening with the researcher and closing with the writer.
   */
  method RunStream(topic: string, o: Oracle) returns (events: seq<(string, Update)>)
    ensures events == Events(Trace(topic, o))
    ensures |events| == 5 || |events| == 8 || |events| == 11
    ensures events[0].0 == "researcher" && events[|events| - 1].0 == "writer"
  {
    AgentsHonourContract(o);
    var steps := Drive(Agents(o), topic);
    Termination(topic, o);
    assert Nodes(steps)[..3][0] == Researcher && Nodes(steps)[|steps| - 3..][2] == Writer;
    EventEnds(steps);
    events := Events(steps);
  }

  /** A run that opens with the researcher and closes with the writer streams those names first and last. */
  lemma {:induction false} EventEnds(steps: seq<Step>)
    requires steps != [] && steps[0].node == Researcher && steps[|steps| - 1].node == Writer
    ensures Events(steps)[0].0 == "researcher" && Events(steps)[|steps| - 1].0 == "writer"
  {
  }

  /**
   * `run`: the final state. It keeps the topic, has spent at most two
   * revisions, holds no pending feedback, holds the one search result of the
   * last research pass, a sorted list of chart files, and the writer's report.
   */
  method Run(topic: string, o: Oracle) returns (final: AgentState)
    ensures final == Trace(topic, o)[|Trace(topic, o)| - 1].state
    ensures final.topic == topic && 0 <= final.revisionCount <= MaxRevisions
    ensures !Truthy(final.feedback)
    ensures |final.researchData| == 1
    ensures Sorted(final.chartFiles) && forall i :: 0 <= i < |final.chartFiles| ==> IsChartName(final.chartFiles[i])
    ensures exists k: nat :: final.finalReport == o.llm(k, ReportPrompt(topic, final.analysis, final.chartFiles))
  {
    AgentsHonourContract(o);
    AgentsFinalBodies(o);
    var steps := Drive(Agents(o), topic);
    FinalOutcome(Agents(o), o.llm, topic);
    final := steps[|steps| - 1].state;
  }
}
