/**
 * The progress display of `generate_report` in market_agents/app.py: the
 * list of completed stage names kept while the run streams, the stage it
 * predicts to run next, the timeline it shows after every event, and the
 * error screen when the PDF export of the writer's report raises.
 */
module Progress {
  import opened Optional
  import opened PyStr
  import opened Graph
  import opened Workflow
  import opened Timeline
  import PdfText

  /** `if step_name not in completed_steps: completed_steps.append(step_name)`. */
  function Remember(completed: seq<string>, name: string): seq<string> {
    if name in completed then completed else completed + [name]
  }

  /** The completed list once the given names have streamed, in turn. */
  function Dedup(names: seq<string>): seq<string>
    decreases |names|
  {
    if names == [] then [] else Remember(Dedup(names[..|names| - 1]), names[|names| - 1])
  }

  /** The list holds every streamed name and nothing else. */
  lemma {:induction false} DedupMembers(names: seq<string>)
    ensures forall x :: x in Dedup(names) <==> x in names
    decreases |names|
  {
    if names != [] {
      var n := |names| - 1;
      DedupMembers(names[..n]);
      assert names == names[..n] + [names[n]];
    }
  }

  /** No name is listed twice. */
  lemma {:induction false} DedupDistinct(names: seq<string>)
    ensures forall i, j :: 0 <= i < j < |Dedup(names)| ==> Dedup(names)[i] != Dedup(names)[j]
    decreases |names|
  {
    if names != [] {
      DedupDistinct(names[..|names| - 1]);
    }
  }

  /** Names are listed in the order of their first appearance in the stream. */
  lemma {:induction false} DedupOrder(names: seq<string>, i: nat, j: nat)
    requires i < j < |Dedup(names)|
    ensures && ListIndex(names, Dedup(names)[i]).Some? && ListIndex(names, Dedup(names)[j]).Some?
      && ListIndex(names, Dedup(names)[i]).value < ListIndex(names, Dedup(names)[j]).value
    decreases |names|
  {
    var n := |names| - 1;
    var front := names[..n];
    var d := Dedup(front);
    assert names == front + [names[n]];
    DedupMembers(front);
    ListIndexAppend(front, names[n], Dedup(names)[i]);
    ListIndexAppend(front, names[n], Dedup(names)[j]);
    if j < |d| {
      DedupOrder(front, i, j);
    } else {
      assert Dedup(names)[i] == d[i] && d[i] in front;
    }
  }

  /** `step_output.get("feedback")`: the value of the key, `None` when the update lacks it. */
  function FeedbackOf(u: Update): Option<string> {
    if u.feedback.Some? then u.feedback.value else None
  }

  /** `step_output.get("final_report", "")`. */
  function ReportOf(u: Update): string {
    if u.finalReport.Some? then u.finalReport.value else ""
  }

  /**
   * `next_step`: the stage after `name` in the fixed order, nothing after
   * the writer or for a name that is no stage; but the researcher after a
   * reviewer whose update carries truthy feedback.
   */
  function NextStep(name: string, u: Update): (next: Option<string>)
    ensures next.Some? ==> next.value in AllSteps
  {
    var following :=
      match ListIndex(AllSteps, name)
      case None => None
      case Some(i) => if i < |AllSteps| - 1 then Some(AllSteps[i + 1]) else None;
    if name == "reviewer" && Truthy(FeedbackOf(u)) then Some("researcher") else following
  }

  /** The prediction is the edge the graph takes: the same rule on the same feedback. */
  lemma {:induction false} PredictsSuccessor(x: Step)
    requires ShowsFeedback(x)
    ensures NextStep(Name(x.node), x.update) ==
      (match Successor(x.node, x.state) case None => None case Some(m) => Some(Name(m)))
  {
    StagePositions(x.node);
  }

  /** Each node's name sits in the stage list at the node's place on the straight path. */
  lemma {:induction false} StagePositions(n: Node)
    ensures ListIndex(AllSteps, Name(n)) == Some(4 - Distance(n))
    ensures n != Writer ==> AllSteps[5 - Distance(n)] == Name(match n case Researcher => Analyst case Analyst => Reviewer case Reviewer => ChartGenerator case _ => Writer)
  {
    match n
    case Researcher => assert ListIndex(AllSteps, "researcher") == Some(0);
    case Analyst => assert ListIndex(AllSteps, "analyst") == Some(1);
    case Reviewer => assert ListIndex(AllSteps, "reviewer") == Some(2);
    case ChartGenerator => assert ListIndex(AllSteps, "chart_generator") == Some(3);
    case Writer => assert ListIndex(AllSteps, "writer") == Some(4);
  }

  /** On a real run, every prediction names the stage that streams next, and none follows the writer. */
  lemma {:induction false} RunPredictions(topic: string, o: Oracle, i: nat)
    requires i < |Events(Trace(topic, o))|
    ensures var ev := Events(Trace(topic, o));
      NextStep(ev[i].0, ev[i].1) == (if i + 1 < |ev| then Some(ev[i + 1].0) else None)
  {
    AgentsHonourContract(o);
    var steps := Trace(topic, o);
    ExecuteLinked(Agents(o), Entry, Initial(topic), 0);
    PredictsSuccessor(steps[i]);
  }

  /** What one screen of the progress view shows. */
  datatype Frame =
    | Running(timeline: seq<Piece>)
    | Finished(timeline: seq<Piece>, report: string)
    | Failed

  /** The names of the streamed events. */
  function StageNames(events: seq<(string, Update)>): (names: seq<string>)
    ensures |names| == |events|
    ensures forall i :: 0 <= i < |events| ==> names[i] == events[i].0
    decreases |events|
  {
    if events == [] then [] else StageNames(events[..|events| - 1]) + [events[|events| - 1].0]
  }

  /**
   * The screens one event adds: its timeline, and after the writer the final
   * one with the report, or the error screen when exporting the report raises.
   * `fails` says which reports make the export raise; the display itself uses
   * `PdfText.ExportRaises`, and the lemmas below hold for any such test.
   */
  function FramesOf(done: seq<string>, name: string, u: Update, fails: string -> bool): seq<Frame> {
    match Render(done, NextStep(name, u))
    case None => [Failed]
    case Some(t) =>
      [Running(t)] + (
        if name != "writer" then []
        else if fails(ReportOf(u)) then [Failed]
        else [Finished(Render(done, None).value, ReportOf(u))])
  }

  /** The error screen ends the display. */
  predicate Stopped(frames: seq<Frame>) {
    frames != [] && frames[|frames| - 1] == Failed
  }

  /** The screens of `generate_report` for the events streamed so far. */
  function Frames(events: seq<(string, Update)>, fails: string -> bool): (frames: seq<Frame>)
    ensures frames != []
    decreases |events|
  {
    if events == [] then [Running(Render([], None).value)]
    else
      var n := |events| - 1;
      var before := Frames(events[..n], fails);
      if Stopped(before) then before
      else before + FramesOf(Dedup(StageNames(events)), events[n].0, events[n].1, fails)
  }

  /**
   * `generate_report` without Gradio, the chart listing and the history: the
   * empty timeline, then per event the completed list, the prediction and the
   * timeline, and after the writer the PDF export and the final screen; the
   * error screen where the timeline or the export raises.
   */
  method GenerateReport(events: seq<(string, Update)>) returns (frames: seq<Frame>)
    ensures frames == Frames(events, PdfText.ExportRaises)
  {
    var completed: seq<string> := [];
    var initial := TimelineHtml([], None);
    frames := [Running(initial.value)];
    for i := 0 to |events|
      invariant completed == Dedup(StageNames(events[..i]))
      invariant frames == Frames(events[..i], PdfText.ExportRaises) && !Stopped(frames)
    {
      var (name, update) := events[i];
      FramesStep(events, i, PdfText.ExportRaises);
      if name !in completed {
        completed := completed + [name];
      }
      var shown := Show(completed, name, update);
      frames := frames + shown;
      if Stopped(frames) {
        StoppedStays(events, i + 1, PdfText.ExportRaises);
        return;
      }
    }
    assert events[..|events|] == events;
  }

  /** The body of the loop for one event, once the completed list is up to date. */
  method Show(completed: seq<string>, name: string, update: Update) returns (shown: seq<Frame>)
    ensures shown == FramesOf(completed, name, update, PdfText.ExportRaises)
  {
    var next := NextStep(name, update);
    var timeline := TimelineHtml(completed, next);
    if timeline.None? {
      return [Failed];
    }
    shown := [Running(timeline.value)];
    if name == "writer" {
      var doc := PdfText.ExportAsWritten(ReportOf(update));
      if doc.Unbound? {
        return shown + [Failed];
      }
      var last := TimelineHtml(completed, None);
      shown := shown + [Finished(last.value, ReportOf(update))];
    }
  }

  /** One more event: its name joins the completed list, and its screens follow unless the display stopped. */
  lemma {:induction false} FramesStep(events: seq<(string, Update)>, i: nat, fails: string -> bool)
    requires i < |events|
    ensures Dedup(StageNames(events[..i + 1])) == Remember(Dedup(StageNames(events[..i])), events[i].0)
    ensures var before := Frames(events[..i], fails);
      Frames(events[..i + 1], fails) ==
        if Stopped(before) then before
        else before + FramesOf(Dedup(StageNames(events[..i + 1])), events[i].0, events[i].1, fails)
  {
    assert events[..i + 1][..i] == events[..i];
  }

  /** Once the error screen is shown, later events add nothing. */
  lemma {:induction false} StoppedStays(events: seq<(string, Update)>, i: nat, fails: string -> bool)
    requires i <= |events| && Stopped(Frames(events[..i], fails))
    ensures Frames(events, fails) == Frames(events[..i], fails)
    decreases |events| - i
  {
    if i < |events| {
      FramesStep(events, i, fails);
      StoppedStays(events, i + 1, fails);
    } else {
      assert events[..i] == events;
    }
  }

  /** No screen is the error screen. */
  predicate NoFailure(frames: seq<Frame>) {
    forall k :: 0 <= k < |frames| ==> frames[k] != Failed
  }

  lemma {:induction false} NoFailureAppend(a: seq<Frame>, b: seq<Frame>)
    requires NoFailure(a) && NoFailure(b)
    ensures NoFailure(a + b)
  {
    forall k | 0 <= k < |a + b| ensures (a + b)[k] != Failed {
      if k >= |a| {
        assert (a + b)[k] == b[k - |a|];
      }
    }
  }

  /** A completed list of stage names never makes the timeline raise. */
  lemma {:induction false} DedupOfStages(names: seq<string>)
    requires forall i :: 0 <= i < |names| ==> names[i] in AllSteps
    ensures !Raises(Dedup(names))
  {
    DedupMembers(names);
    var done := Dedup(names);
    if done != [] {
      assert done[|done| - 1] in names;
    }
  }

  /**
   * Streamed names that are all stages never make the timeline raise; unless
   * a writer's report makes the export raise, no error screen appears.
   */
  lemma {:induction false} FramesNoFailure(events: seq<(string, Update)>, fails: string -> bool)
    requires forall i :: 0 <= i < |events| ==> events[i].0 in AllSteps
    requires forall i :: 0 <= i < |events| && events[i].0 == "writer" ==> !fails(ReportOf(events[i].1))
    ensures NoFailure(Frames(events, fails))
    decreases |events|
  {
    if events != [] {
      var n := |events| - 1;
      var names := StageNames(events);
      FramesNoFailure(events[..n], fails);
      DedupOfStages(names);
      var shown := FramesOf(Dedup(names), events[n].0, events[n].1, fails);
      FramesOfNoFailure(Dedup(names), events[n].0, events[n].1, fails);
      NoFailureAppend(Frames(events[..n], fails), shown);
    }
  }

  lemma {:induction false} FramesOfNoFailure(done: seq<string>, name: string, u: Update, fails: string -> bool)
    requires !Raises(done) && (name == "writer" ==> !fails(ReportOf(u)))
    ensures NoFailure(FramesOf(done, name, u, fails))
  {
  }

  /** After the writer's event the last screen is the final one, with the completed list of the whole stream. */
  lemma {:induction false} WriterLast(events: seq<(string, Update)>, fails: string -> bool)
    requires events != [] && events[|events| - 1].0 == "writer"
    requires forall i :: 0 <= i < |events| ==> events[i].0 in AllSteps
    requires forall i :: 0 <= i < |events| && events[i].0 == "writer" ==> !fails(ReportOf(events[i].1))
    ensures var fr := Frames(events, fails); var u := events[|events| - 1].1;
      fr != [] && !Raises(Dedup(StageNames(events)))
      && fr[|fr| - 1] == Finished(Render(Dedup(StageNames(events)), None).value, ReportOf(u))
  {
    var n := |events| - 1;
    FramesNoFailure(events[..n], fails);
    DedupOfStages(StageNames(events));
  }

  /** A name streamed for the first time comes last in the completed list. */
  lemma {:induction false} DedupLastNew(names: seq<string>)
    requires names != [] && names[|names| - 1] !in names[..|names| - 1]
    ensures Dedup(names) != [] && Dedup(names)[|Dedup(names)| - 1] == names[|names| - 1]
  {
    DedupMembers(names[..|names| - 1]);
  }

  /** The names a real run streams: stages only, every stage at least once, and the writer once, last. */
  lemma {:induction false} RunNames(topic: string, o: Oracle)
    ensures StreamNames(StageNames(Events(Trace(topic, o))))
  {
    AgentsHonourContract(o);
    Termination(topic, o);
    ExecuteLinked(Agents(o), Entry, Initial(topic), 0);
    LinkedStream(Trace(topic, o));
  }

  /** A linked run that opens with the first three stages and closes with the last two streams well-formed names. */
  lemma {:induction false} LinkedStream(steps: seq<Step>)
    requires Linked(steps) && |steps| >= 5
    requires Nodes(steps)[..3] == [Researcher, Analyst, Reviewer]
    requires Nodes(steps)[|steps| - 3..] == [Reviewer, ChartGenerator, Writer]
    ensures StreamNames(StageNames(Events(steps)))
  {
    LinkedNames(steps);
    var ns := Nodes(steps);
    var n := |steps| - 1;
    assert ns[..3][0] == Researcher && ns[..3][1] == Analyst && ns[..3][2] == Reviewer;
    assert ns[n - 2..][1] == ChartGenerator && ns[n - 2..][2] == Writer;
    ShapeNames(steps);
    NamesStream(StageNames(Events(steps)));
  }

  lemma {:induction false} NamesStream(names: seq<string>)
    requires forall i :: 0 <= i < |names| ==> names[i] in AllSteps
    requires forall i :: 0 <= i < |names| - 1 ==> names[i] != "writer"
    requires |names| >= 5
    requires names[0] == "researcher" && names[1] == "analyst" && names[2] == "reviewer"
    requires names[|names| - 2] == "chart_generator" && names[|names| - 1] == "writer"
    ensures StreamNames(names)
  {
    var n := |names| - 1;
    assert AllSteps[3] == names[n - 1] && AllSteps[4] == names[n];
    assert "writer" !in names[..n] by {
      forall i | 0 <= i < n ensures names[..n][i] != "writer" {
        assert names[..n][i] == names[i];
      }
    }
  }

  /** What the stream of a run names: stages only, every stage at least once, and the writer once, last. */
  predicate StreamNames(names: seq<string>) {
    && names != [] && names[|names| - 1] == "writer" && "writer" !in names[..|names| - 1]
    && (forall i :: 0 <= i < |names| ==> names[i] in AllSteps)
    && (forall i :: 0 <= i < |AllSteps| ==> AllSteps[i] in names)
  }

  /** Stages that follow the edges name stages only, and only the last can be the writer, which has no edge. */
  lemma {:induction false} LinkedNames(steps: seq<Step>)
    requires Linked(steps)
    ensures var names := StageNames(Events(steps));
      && (forall i :: 0 <= i < |names| ==> names[i] in AllSteps)
      && (forall i :: 0 <= i < |names| - 1 ==> names[i] != "writer")
  {
    var names := StageNames(Events(steps));
    forall i | 0 <= i < |names| ensures names[i] in AllSteps && (i < |names| - 1 ==> names[i] != "writer") {
      assert names[i] == Name(steps[i].node);
      NameIsStep(steps[i].node);
      if i < |names| - 1 {
        assert |names| == |steps|;
        assert Successor(steps[i].node, steps[i].state) == Some(steps[i + 1].node);
      }
    }
  }

  /** Every node's name is one of the five steps, and only the writer's is "writer". */
  lemma {:induction false} NameIsStep(n: Node)
    ensures Name(n) in AllSteps
    ensures Name(n) == "writer" <==> n == Writer
  {
    StagePositions(n);
  }

  /** A run of the termination shape names every stage, and the writer last. */
  lemma {:induction false} ShapeNames(steps: seq<Step>)
    requires |steps| >= 5
    requires steps[0].node == Researcher && steps[1].node == Analyst && steps[2].node == Reviewer
    requires steps[|steps| - 2].node == ChartGenerator && steps[|steps| - 1].node == Writer
    ensures var names := StageNames(Events(steps));
      && |names| >= 5
      && names[0] == "researcher" && names[1] == "analyst" && names[2] == "reviewer"
      && names[|names| - 2] == "chart_generator" && names[|names| - 1] == "writer"
  {
  }

  /**
   * On a real run the display shows the error screen exactly when exporting
   * the writer's report raises, and then only as its last screen; otherwise
   * it ends with the final screen, on which every stage and every connector
   * is completed.
   */
  lemma {:induction false} RunScreens(topic: string, o: Oracle)
    ensures var ev := Events(Trace(topic, o)); var fr := Frames(ev, PdfText.ExportRaises);
      && ev != []
      && (PdfText.ExportRaises(ReportOf(ev[|ev| - 1].1)) ==> fr[|fr| - 1] == Failed && NoFailure(fr[..|fr| - 1]))
      && (!PdfText.ExportRaises(ReportOf(ev[|ev| - 1].1)) ==> Completes(fr))
  {
    RunNames(topic, o);
    StreamScreens(Events(Trace(topic, o)), PdfText.ExportRaises);
  }

  /** No error screen, and the last screen is the final one with every stage and connector completed. */
  predicate Completes(fr: seq<Frame>) {
    && NoFailure(fr)
    && fr != [] && fr[|fr| - 1].Finished?
    && var last := fr[|fr| - 1].timeline; forall k :: 0 <= k < |last| ==> last[k].status == Completed
  }

  /** The screens of any stream that names what a run names. */
  lemma {:induction false} StreamScreens(events: seq<(string, Update)>, fails: string -> bool)
    requires StreamNames(StageNames(events))
    ensures var fr := Frames(events, fails); var report := ReportOf(events[|events| - 1].1);
      && (fails(report) ==> fr[|fr| - 1] == Failed && NoFailure(fr[..|fr| - 1]))
      && (!fails(report) ==> Completes(fr))
  {
    if fails(ReportOf(events[|events| - 1].1)) {
      StreamFails(events, fails);
    } else {
      StreamCompletes(events, fails);
    }
  }

  /** Only the writer's export can raise, and the writer streams last: the error screen comes last. */
  lemma {:induction false} StreamFails(events: seq<(string, Update)>, fails: string -> bool)
    requires StreamNames(StageNames(events))
    requires fails(ReportOf(events[|events| - 1].1))
    ensures var fr := Frames(events, fails); fr[|fr| - 1] == Failed && NoFailure(fr[..|fr| - 1])
  {
    var n := |events| - 1;
    var done := Dedup(StageNames(events));
    FrontQuiet(events, fails);
    FramesStep(events, n, fails);
    assert events[..n + 1] == events;
    FramesOfRaises(done, events[n].0, events[n].1, fails);
    LastFailed(Frames(events[..n], fails), Render(done, NextStep(events[n].0, events[n].1)).value);
  }

  /** Before the writer's event, a stream that names what a run names shows no error screen. */
  lemma {:induction false} FrontQuiet(events: seq<(string, Update)>, fails: string -> bool)
    requires StreamNames(StageNames(events))
    ensures NoFailure(Frames(events[..|events| - 1], fails)) && !Raises(Dedup(StageNames(events)))
  {
    var names := StageNames(events);
    var n := |events| - 1;
    var front := events[..n];
    forall i | 0 <= i < |front| ensures front[i].0 in AllSteps && front[i].0 != "writer" {
      assert front[i].0 == names[..n][i];
    }
    FramesNoFailure(front, fails);
    DedupOfStages(names);
  }

  /** The writer's event when the export raises: its timeline, then the error screen. */
  lemma {:induction false} FramesOfRaises(done: seq<string>, name: string, u: Update, fails: string -> bool)
    requires !Raises(done) && name == "writer" && fails(ReportOf(u))
    ensures FramesOf(done, name, u, fails) == [Running(Render(done, NextStep(name, u)).value), Failed]
  {
  }

  lemma {:induction false} LastFailed(before: seq<Frame>, t: seq<Piece>)
    requires NoFailure(before)
    ensures var fr := before + [Running(t), Failed]; fr[|fr| - 1] == Failed && NoFailure(fr[..|fr| - 1])
  {
    var fr := before + [Running(t), Failed];
    assert fr[..|fr| - 1] == before + [Running(t)];
    NoFailureAppend(before, [Running(t)]);
  }

  /** With an export that does not raise, the stream ends on the completed final screen. */
  lemma {:induction false} StreamCompletes(events: seq<(string, Update)>, fails: string -> bool)
    requires StreamNames(StageNames(events))
    requires !fails(ReportOf(events[|events| - 1].1))
    ensures Completes(Frames(events, fails))
  {
    var names := StageNames(events);
    var n := |events| - 1;
    forall i | 0 <= i < n ensures events[i].0 != "writer" {
      assert names[..n][i] == names[i];
    }
    FramesNoFailure(events, fails);
    WriterLast(events, fails);
    DedupLastNew(names);
    DedupMembers(names);
    AllDone(Dedup(names));
  }
}
