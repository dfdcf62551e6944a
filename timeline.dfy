/**
 * `create_timeline_html` of market_agents/app.py without its markup: the
 * five stages in order, each with its status class and status line, and a
 * connector after every stage but the last.
 */
module Timeline {
  import opened Optional
  import opened PyStr

  /** `all_steps`: the stages in the order the graph first runs them. */
  const AllSteps: seq<string> := ["researcher", "analyst", "reviewer", "chart_generator", "writer"]

  /** The CSS class of a stage or a connector. */
  datatype Status = Completed | Current | Pending

  /** The status line of a stage: "Completed", "In Progress..." or "Pending". */
  datatype Label = Done | InProgress | Waiting

  datatype Piece = Item(step: string, status: Status, caption: Label) | Connector(status: Status)

  /**
   * `status_class`: completed, else current, else pending; except that the
   * researcher shows as current when the run has looped back to it after
   * the analyst completed.
   */
  function StatusOf(step: string, completed: seq<string>, current: Option<string>): Status {
    var status := if step in completed then Completed else if current == Some(step) then Current else Pending;
    if step == "researcher" && "analyst" in completed && current == Some("researcher") then Current else status
  }

  /** The status line follows `is_completed` and `is_current` only, with no loop-back exception. */
  function LabelOf(step: string, completed: seq<string>, current: Option<string>): Label {
    if step in completed then Done else if current == Some(step) then InProgress else Waiting
  }

  /** `all_steps.index(completed_steps[-1])` fails exactly when the last completed name is no stage. */
  predicate Raises(completed: seq<string>) {
    completed != [] && completed[|completed| - 1] !in AllSteps
  }

  /** `connector_class` after stage `idx`: completed once the last completed stage lies beyond it. */
  function ConnectorOf(completed: seq<string>, idx: nat): Status
    requires !Raises(completed)
  {
    if completed != [] && ListIndex(AllSteps, completed[|completed| - 1]).value > idx then Completed else Pending
  }

  /** Piece `k` of the timeline: stage `k / 2` at even positions, the connector after it at odd ones. */
  function PieceAt(completed: seq<string>, current: Option<string>, k: nat): Piece
    requires !Raises(completed) && k < 2 * |AllSteps| - 1
  {
    var step := AllSteps[k / 2];
    if k % 2 == 0 then Item(step, StatusOf(step, completed, current), LabelOf(step, completed, current))
    else Connector(ConnectorOf(completed, k / 2))
  }

  /** The whole timeline, or `None` where the function raises. */
  function Render(completed: seq<string>, current: Option<string>): Option<seq<Piece>> {
    if Raises(completed) then None
    else Some(seq(2 * |AllSteps| - 1, k requires 0 <= k < 2 * |AllSteps| - 1 => PieceAt(completed, current, k)))
  }

  /**
   * `create_timeline_html`: one item per stage, with a connector after each
   * but the last; nine pieces, the stages in order.
   */
  method TimelineHtml(completed: seq<string>, current: Option<string>) returns (html: Option<seq<Piece>>)
    ensures html == Render(completed, current)
    ensures html.Some? ==> |html.value| == 9
  {
    var pieces: seq<Piece> := [];
    for idx := 0 to |AllSteps|
      invariant !Raises(completed) || idx == 0
      invariant |pieces| == if idx == |AllSteps| then 2 * idx - 1 else 2 * idx
      invariant !Raises(completed) ==> forall k :: 0 <= k < |pieces| ==> pieces[k] == PieceAt(completed, current, k)
    {
      var item := StageItem(AllSteps[idx], completed, current);
      pieces := pieces + [item];
      if idx < |AllSteps| - 1 {
        var connector := ConnectorClass(completed, idx);
        if connector.None? {
          return None;
        }
        pieces := pieces + [Connector(connector.value)];
      }
    }
    RenderAll(completed, current, pieces);
    return Some(pieces);
  }

  /** The item of one stage: its status class, loop-back exception included, and its status line. */
  method StageItem(step: string, completed: seq<string>, current: Option<string>) returns (item: Piece)
    ensures item == Item(step, StatusOf(step, completed, current), LabelOf(step, completed, current))
  {
    var isCompleted := step in completed;
    var isCurrent := current == Some(step);
    var status := if isCompleted then Completed else if isCurrent then Current else Pending;
    if step == "researcher" && "analyst" in completed && current == Some("researcher") {
      status := Current;
    }
    var caption := if isCompleted then Done else if isCurrent then InProgress else Waiting;
    item := Item(step, status, caption);
  }

  /** The class of the connector after stage `idx`, or `None` where the lookup raises. */
  method ConnectorClass(completed: seq<string>, idx: nat) returns (status: Option<Status>)
    ensures status.None? <==> Raises(completed)
    ensures status.Some? ==> status.value == ConnectorOf(completed, idx)
  {
    if completed == [] {
      return Some(Pending);
    }
    match ListIndex(AllSteps, completed[|completed| - 1])
    case None =>
      return None;
    case Some(last) =>
      return Some(if last > idx then Completed else Pending);
  }

  lemma {:induction false} RenderAll(completed: seq<string>, current: Option<string>, pieces: seq<Piece>)
    requires !Raises(completed) && |pieces| == 2 * |AllSteps| - 1
    requires forall k :: 0 <= k < |pieces| ==> pieces[k] == PieceAt(completed, current, k)
    ensures Render(completed, current) == Some(pieces)
  {
    var whole := Render(completed, current).value;
    assert |whole| == |pieces|;
    assert forall k :: 0 <= k < |pieces| ==> whole[k] == pieces[k];
    assert whole == pieces;
  }

  /**
   * The layout: the five stages in order at the even positions, and exactly
   * four connectors, one between each pair of neighbouring stages.
   */
  lemma {:induction false} TimelineShape(completed: seq<string>, current: Option<string>)
    requires !Raises(completed)
    ensures var t := Render(completed, current).value;
      && |t| == 9
      && (forall k :: 0 <= k < |t| ==> (t[k].Connector? <==> k % 2 == 1))
      && (forall i :: 0 <= i < |AllSteps| ==> t[2 * i].step == AllSteps[i])
  {
  }

  /** At most one stage is current, and it is the one the caller names. */
  lemma {:induction false} OneCurrent(completed: seq<string>, current: Option<string>, i: nat, j: nat)
    requires i < |AllSteps| && j < |AllSteps|
    requires StatusOf(AllSteps[i], completed, current) == Current
    requires StatusOf(AllSteps[j], completed, current) == Current
    ensures i == j && current == Some(AllSteps[i])
  {
  }

  /** A stage shows completed exactly when it is completed and not the researcher being rerun. */
  lemma {:induction false} CompletedStatus(step: string, completed: seq<string>, current: Option<string>)
    ensures StatusOf(step, completed, current) == Completed <==>
      step in completed && !(step == "researcher" && "analyst" in completed && current == Some("researcher"))
  {
  }

  /** Completed connectors form a prefix: every connector before a completed one is completed. */
  lemma {:induction false} ConnectorsPrefix(completed: seq<string>, i: nat, j: nat)
    requires !Raises(completed) && i <= j && ConnectorOf(completed, j) == Completed
    ensures ConnectorOf(completed, i) == Completed
  {
  }

  /** Before any stage has run, everything is pending. */
  lemma NothingYet()
    ensures forall k :: 0 <= k < |Render([], None).value| ==>
      var p := Render([], None).value[k]; p.status == Pending && (p.Item? ==> p.caption == Waiting)
  {
  }

  /** Once every stage has run and the writer came last, everything is completed. */
  lemma {:induction false} AllDone(completed: seq<string>)
    requires completed != [] && completed[|completed| - 1] == "writer"
    requires forall i :: 0 <= i < |AllSteps| ==> AllSteps[i] in completed
    ensures forall k :: 0 <= k < |Render(completed, None).value| ==>
      var p := Render(completed, None).value[k]; p.status == Completed && (p.Item? ==> p.caption == Done)
  {
    assert ListIndex(AllSteps, "writer") == Some(4);
  }
}
