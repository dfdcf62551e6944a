# market_agents in Dafny

A model of the market-research agent workflow of `market_agents`, and of the
pure helpers of its web front end.

- **The workflow graph** (`graph.dfy`, `workflow.dfy`) covers the following:
  - The `AgentState` record and the partial updates the five agents return.
  - Merging by key overwrite.
  - The node bodies. Search, the chat model and the chart directory listing are oracles: functions indexed by the stage's position in the run.
  - The reviewer's verdict parsing and its revision cap.
  - The truthiness routing rule and the fixed edges.
  - The engine behind `run` and `run_stream`. It runs a node, merges its update, records the stage and follows the edge.
  - It is proved that every run ends: it has 5, 8 or 11 stages, ends `reviewer, chart_generator, writer`, runs the reviewer at most three times, and never counts more than two revisions.
- **Report export** (`pdf_text.dfy`) covers two parts of `export_pdf`:
  - The typographic sanitising loop.
  - The `##` section split that decides what becomes the introduction, what becomes a titled section and what is skipped.
- **History ids** (`history.dfy`): the topic slug and the report id of `HistoryManager.save_report`.
- **Progress display** (`timeline.dfy`, `progress.dfy`):
  - The stage and connector classes of `create_timeline_html`.
  - The completed-step list and next-step prediction of `generate_report`, and the screens it shows for a stream of events.
  - For a real run, the prediction is always the stage that streams next. The display follows the code as written, PDF export included. It shows its error screen exactly when exporting the writer's report raises through the unbound `re` (see "## Findings"), and then only as its last screen. Otherwise it ends fully completed. Other ways the export or the save can raise are listed under "## Left out".
  - The screen functions take the test for "the export raises" as a parameter. `generate_report` uses `PdfText.ExportRaises`, and the lemmas about streams hold for any such test.
- **Audio summary** (`audio.dfy`): the executive-summary extraction of `generate_audio_summary`.
- **Python string primitives** (`pystr.dfy`): `strip`, `split`, `join`, `replace`, `in`, `lower` and `sort` on strings, as the code above uses them.

In a few places the behaviour differs from what one might expect. The model follows the code:

- Each node's update replaces the keys it returns, since `AgentState` declares no reducer. So `research_data` is the one-element list of the latest search, not an accumulation of all searches.
- A bare "REJECTED" verdict yields empty feedback and still counts a revision. Because routing tests truthiness, that empty feedback goes on to chart_generator, not back to the researcher.
- The summary is `split("## Executive Summary")[1].split("##")[0]`, stripped. When a run of `#` overlaps the next heading, this piece is not exactly "the text up to the next `##`". A `##` that runs into the next "## Executive Summary" does not end it, because the first split has already ended the piece there. `Audio.IsSection` states what it is: the text from just after the first heading to the first cut, where a cut is the end of the text, the next heading, or a `##` that lies wholly before the next heading. `Audio.SectionUnique` shows that this fixes the piece.

## Model

| member | source | states |
|---|---|---|
| Graph.Merge | market_agents/src/graph.py:16-23 | each of the seven keys the update returns replaces the old value; every other key keeps it |
| Graph.ResearchQuery | market_agents/src/graph.py:50-52 | the focused query exactly when the feedback is truthy, ending with that feedback; otherwise the default query |
| Graph.AnalystPromptText | market_agents/src/graph.py:63-72 | the prompt starts with the fixed request and grows exactly when the feedback is truthy, then ending with the feedback note and the feedback |
| Graph.Judge | market_agents/src/graph.py:97-101 | only feedback and revision count are returned; feedback is None exactly when "APPROVED" occurs anywhere in the verdict; otherwise it is the pieces of the verdict between its "REJECTED" markers, run together and stripped, no longer than the verdict, and the count goes up by exactly one |
| Graph.BareRejection | market_agents/src/graph.py:94-101 | a bare "REJECTED" below the cap returns empty feedback and one more revision; merged, the empty feedback routes to chart_generator |
| Graph.RejectionFeedback | market_agents/src/graph.py:99-101 | "REJECTED missing data" gives the feedback "missing data" |
| Graph.JudgeReason | market_agents/src/graph.py:99-101 | the marker, a blank and a reason with no whitespace at its ends give the reason as feedback |
| Graph.ReviewerNode | market_agents/src/graph.py:77-101 | at or above the cap only `feedback = None` is returned; below it, the judgement of the model's verdict on the review prompt; approval exactly at the cap or on "APPROVED"; a revision is counted only below the cap, by exactly one |
| Graph.ChartNames | market_agents/src/graph.py:143 | exactly the `chart_*.png` names of the listing, each as often as listed |
| Graph.ChartFileList | market_agents/src/graph.py:143-145 | the chart list is sorted and a permutation of the listing's chart names |
| Graph.WriterPromptNamesCharts | market_agents/src/graph.py:152-168 | every chart file name occurs in the writer's prompt |
| Graph.ShouldContinue | market_agents/src/graph.py:173-176 | back to the researcher exactly when the feedback is truthy, else chart_generator |
| Workflow.AgentsHonourContract | market_agents/src/graph.py:45-171 | each node returns only its own keys; the reviewer always returns feedback, and spends one revision, below the cap, exactly when the feedback is a string |
| Workflow.Round | market_agents/src/graph.py:186-197 | a pass from the researcher runs researcher, analyst, reviewer; going back costs one revision, only below the cap |
| Workflow.StatesBounded | market_agents/src/graph.py:80-101 | along a run the topic never changes and the revision count only grows, never past 2 |
| Workflow.ShapeFrom | market_agents/src/graph.py:82-101 | a run from the researcher is 1 to 3 − count rounds, then chart_generator and writer |
| Workflow.Terminates | market_agents/src/graph.py:173-201 | for any node bodies keeping the contract: 5, 8 or 11 stages, opening researcher, analyst, reviewer, ending reviewer, chart_generator, writer, reviewer 1 to 3 times, revision count within 0..2 |
| Workflow.Termination | market_agents/src/graph.py:203-216 | the same for the run from the fixed initial state, whatever the oracles answer |
| Workflow.ImmediateApproval | market_agents/src/graph.py:94-98 | a reviewer that approves at once gives the straight five-stage run |
| Workflow.ApprovedAtOnce | market_agents/src/graph.py:97-98 | the same for any node bodies whose first review approves |
| Workflow.BareRound | market_agents/src/graph.py:173-200 | node bodies whose reviewer leaves empty feedback and spends a revision give the straight five stages, one revision further on, feedback "" |
| Workflow.BareReview | market_agents/src/graph.py:94-101 | such a reviewer leaves feedback "" and one more revision, and routing goes forward to chart_generator |
| Workflow.ForwardRun | market_agents/src/graph.py:173-200 | a round whose reviewer routes forward is the straight five stages, and the writer keeps the reviewer's count and feedback |
| Workflow.BareRejectionRun | market_agents/src/graph.py:82-101 | a reviewer answering a bare "REJECTED" gives the five-stage run, ending with revision count 1 and feedback "" |
| Workflow.FinishFeedback | market_agents/src/graph.py:199-200 | chart_generator then writer then END, feedback untouched |
| Workflow.RejectedRound | market_agents/src/graph.py:99-101 | a rejection with feedback goes back and counts a revision below the cap, goes forward at the cap |
| Workflow.RejectedFrom | market_agents/src/graph.py:82-101 | a reviewer that always rejects with feedback spends every revision left: 3 × (2 − count) + 5 stages |
| Workflow.AlwaysRejecting | market_agents/src/graph.py:82-101 | an always-rejecting reviewer gives 11 stages, ending with revision count 2 |
| Workflow.FinishCount | market_agents/src/graph.py:199-200 | chart_generator then writer then END, revision count untouched |
| Workflow.LastRound | market_agents/src/graph.py:190-200 | every run from the researcher ends with a round whose reviewer routes forward |
| Workflow.StraightRound | market_agents/src/graph.py:190-200 | a round routed forward is five stages: the merges of researcher, analyst, reviewer, chart_generator and writer |
| Workflow.LastStages | market_agents/src/graph.py:186-200 | the last five stages of a run from the initial state are such a round |
| Workflow.AgentsFinalBodies | market_agents/src/graph.py:45-171 | the researcher stores one search result, chart_generator a sorted chart list, the writer the model's report on the state's topic, analysis and charts |
| Workflow.LastFrames | market_agents/src/graph.py:147-171 | after the last round the state has no pending feedback, one research result, sorted chart names and the writer's report |
| Workflow.FinalOutcome | market_agents/src/graph.py:203-209 | the final state keeps the topic, has at most two revisions and is finished as above |
| Workflow.Advance | market_agents/src/graph.py:214-216 | one loop pass keeps the stages done plus the rest equal to the run and decreases the measure |
| Workflow.Drive | market_agents/src/graph.py:214-216 | the loop that runs node, merge, edge until END produces exactly the run |
| Workflow.ExecuteLinked | market_agents/src/graph.py:186-200 | consecutive stages follow the edges, the last has none, and every reviewer stage shows the feedback it returned |
| Workflow.Events | market_agents/src/graph.py:214-216 | the stream yields each stage's node name with the update it returned, one pair per stage |
| Workflow.RunStream | market_agents/src/graph.py:211-216 | `run_stream` yields 5, 8 or 11 pairs, first "researcher", last "writer" |
| Workflow.Run | market_agents/src/graph.py:203-209 | `run` returns a final state with the topic, at most two revisions, no truthy feedback, one research result, sorted chart files and a report the model wrote on them |
| PdfText.ReplacementsShape | market_agents/app.py:91-97 | every replacement maps a typographic character to ASCII, no key repeats, every typographic character is a key |
| PdfText.ReplaceStep | market_agents/app.py:98-99 | one pass of the loop is `str.replace` of one entry on the text the earlier entries left |
| PdfText.Sanitize | market_agents/app.py:98-99 | the loop's result is the sanitised text and holds no typographic character |
| PdfText.CleanHasNoTypographic | market_agents/app.py:91-99 | no curly quote, en or em dash, ellipsis or no-break space survives |
| PdfText.CleanKeepsPlain | market_agents/app.py:91-99 | text without those characters is unchanged |
| PdfText.CleanStandIns | market_agents/app.py:91-99 | each typographic character becomes its stand-in: `'`, `"`, `-`, `...`, space |
| PdfText.CleanAppend | market_agents/app.py:91-99 | sanitising works character by character: it distributes over concatenation |
| PdfText.CleanIdempotent | market_agents/app.py:91-99 | sanitising twice is sanitising once |
| PdfText.TitleAndBody | market_agents/app.py:127-129 | the title of a non-blank section is non-empty and one line |
| PdfText.TitleWithin | market_agents/app.py:127-128 | the title is a piece of the section |
| PdfText.ContentWithin | market_agents/app.py:127-129 | the content is a piece of the section |
| PdfText.BlockOf | market_agents/app.py:114-132 | a piece is skipped exactly when blank or, after the first, titled as a visualization; the first piece is the stripped introduction; any other is its title and stripped content |
| PdfText.CollectOrigin | market_agents/app.py:114-150 | every block comes from a piece that gives exactly it, and the pieces before that one give exactly the blocks before it |
| PdfText.CollectOrdered | market_agents/app.py:114-150 | a later block comes from a later piece |
| PdfText.CollectMonotone | market_agents/app.py:114-150 | more pieces never give fewer blocks |
| PdfText.CollectKeeps | market_agents/app.py:114-150 | every piece that is not skipped gives its block |
| PdfText.LayOut | market_agents/app.py:114-150 | the loop over the pieces lays out exactly their blocks |
| PdfText.Export | market_agents/app.py:86-150 | no document exactly for empty content; otherwise the blocks of the sanitised text split on `##` |
| PdfText.LayoutShape | market_agents/app.py:112-132 | the introduction comes first and is non-empty; titles are non-empty single lines, never visualization titles; no text holds `##` |
| PdfText.SectionsRendered | market_agents/app.py:112-132 | every piece of a report that is not skipped is rendered |
| PdfText.LayOutAsWritten | market_agents/app.py:114-150 | as written, the loop hits the unbound `re` exactly when the first piece is blank and some later piece renders; otherwise it lays out the blocks |
| PdfText.ExportAsWritten | market_agents/app.py:86-150 | `export_pdf` as written: no document exactly for empty content; it hits the unbound `re` exactly for a non-empty report whose sanitised, split first piece is blank and some later piece renders |
| PyStr.ReplaceIsJoinSplit | market_agents/src/graph.py:100 | `s.replace(p, r)` equals `r.join(s.split(p))` |
| PyStr.ReplaceBySelf | market_agents/src/graph.py:100 | replacing a pattern by itself gives the string back |
| PdfText.OpeningHeadingFails | market_agents/app.py:114-148 | the report "##A" has a blank first piece and a rendered section, so the code as written fails on it |
| History.Filter | market_agents/app.py:198 | the comprehension keeps only letters, digits, space, `-` and `_`, never lengthening the topic |
| History.FilterExact | market_agents/app.py:198 | a character reaches the filtered text exactly when it is in the topic and is kept |
| History.FilterKeepsPlain | market_agents/app.py:198 | a topic of kept characters passes whole |
| History.SafeTopic | market_agents/app.py:198 | the slug has no space and only letters, digits, `-` and `_` |
| History.SafeTopicChars | market_agents/app.py:198 | character by character, the slug is the filtered topic without its outer spaces, each inner space turned into `_` and every other character kept |
| History.SluggedUnique | market_agents/app.py:198 | that character-by-character description fixes the slug |
| History.OuterSpacesDropped | market_agents/app.py:198 | a space before or after the topic does not change the slug |
| History.SafeTopicIdempotent | market_agents/app.py:198 | the slug of a slug is itself |
| History.SlugUnchanged | market_agents/app.py:198 | a topic of slug characters is its own slug |
| History.SpacesBecomeUnderscores | market_agents/app.py:198 | "a b" becomes "a_b" for slug words a and b |
| History.ReportId | market_agents/app.py:197-199 | with a clock-format timestamp, the id is made of slug characters only |
| History.ReportIdParts | market_agents/app.py:197-199 | the id is the timestamp, an underscore and the slug |
| History.ReportIdCollides | market_agents/app.py:197-199 | two saves in one second share an id exactly when their topics share a slug |
| Timeline.TimelineHtml | market_agents/app.py:271-328 | the timeline is rendered exactly when the last completed name is a stage, and then has nine pieces |
| Timeline.StageItem | market_agents/app.py:293-318 | a stage's class (loop-back exception included) and its status line |
| Timeline.ConnectorClass | market_agents/app.py:320-323 | the connector lookup raises exactly when the last completed name is no stage |
| Timeline.TimelineShape | market_agents/app.py:293-323 | the five stages in order at even positions, exactly four connectors between them |
| Timeline.OneCurrent | market_agents/app.py:294-302 | at most one stage is current, and it is `current_step` |
| Timeline.CompletedStatus | market_agents/app.py:294-302 | a stage shows completed exactly when completed and not the researcher being rerun |
| Timeline.ConnectorsPrefix | market_agents/app.py:320-323 | completed connectors form a prefix |
| Timeline.NothingYet | market_agents/app.py:338 | the empty timeline is all pending |
| Timeline.AllDone | market_agents/app.py:377 | once every stage ran and the writer came last, everything shows completed |
| Progress.DedupMembers | market_agents/app.py:342-343 | the completed list holds exactly the streamed names |
| Progress.DedupDistinct | market_agents/app.py:342-343 | the completed list never holds a name twice |
| Progress.DedupOrder | market_agents/app.py:342-343 | names are kept in the order of their first appearance |
| Progress.DedupLastNew | market_agents/app.py:342-343 | a name streamed for the first time comes last |
| Progress.NextStep | market_agents/app.py:350-360 | the prediction, when there is one, is a stage |
| Progress.PredictsSuccessor | market_agents/app.py:350-360 | the prediction is the name of the edge the graph takes after the stage |
| Progress.StagePositions | market_agents/app.py:350-353 | each node's name sits in the stage list at its place on the straight path |
| Progress.RunPredictions | market_agents/app.py:341-360 | on a real run every prediction is the name streamed next, and none follows the writer |
| Progress.GenerateReport | market_agents/app.py:332-382 | the loop's screens are those of the events |
| Progress.Show | market_agents/app.py:362-378 | one event's screens: its timeline, and after the writer the PDF export, then the final screen, or the error screen when the export raises |
| Progress.FramesStep | market_agents/app.py:341-378 | one more event adds its name to the completed list and its screens, unless the error screen ended the display |
| Progress.StoppedStays | market_agents/app.py:380-382 | after the error screen nothing more is shown |
| Progress.FramesNoFailure | market_agents/app.py:341-378 | streams that name stages only, and whose writer reports export without raising, never show the error screen |
| Progress.WriterLast | market_agents/app.py:365-378 | after a writer whose report exports, the last screen is the final one, with the report |
| Progress.RunNames | market_agents/app.py:341-343 | a real run streams stages only, every stage, and the writer once, last |
| Progress.RunScreens | market_agents/app.py:332-382 | on a real run the error screen appears exactly when exporting the writer's report hits the unbound `re`, and then only last; otherwise there is none and the last screen is final and all completed |
| Progress.StreamScreens | market_agents/app.py:332-382 | the same for any stream that names what a run names |
| Progress.StreamFails | market_agents/app.py:365-382 | when the writer's report makes the export raise, the error screen is the last screen and the only one |
| Progress.StreamCompletes | market_agents/app.py:332-378 | when it does not, there is no error screen and the display ends on the completed final screen |
| Progress.FramesOfRaises | market_agents/app.py:362-382 | the writer's event with a raising export shows its timeline, then the error screen |
| Audio.Summary | market_agents/app.py:406-416 | no summary exactly for an empty report; with the heading, the stripped section that runs from just after the first heading to the first cut; without it, a prefix of at most 1000 characters, all of a short report |
| Audio.SectionShape | market_agents/app.py:414 | the section starts right after the first heading, holds no `##`, runs to the first cut and has none inside |
| Audio.SectionStart | market_agents/app.py:414 | the section starts right after the first occurrence of the heading |
| Audio.NestedCut | market_agents/app.py:414 | the first piece up to `##` of the first piece up to the heading runs exactly to the first cut |
| Audio.SectionUnique | market_agents/app.py:414 | only one piece of the report is the section from a given start |
| Audio.SummaryIsSection | market_agents/app.py:412-414 | with the heading, the summary is the stripped section, for any text shown to be the section |
| Audio.SummaryBeforeHashes | market_agents/app.py:414 | for "## Executive Summary" + body + "###" with no `#` in the body, the summary is the stripped body, not the body with a `#` after it |
| Audio.SummaryWithin | market_agents/app.py:413-414 | with the heading, the summary is a piece of the report after the heading, holds no `##` and has no surrounding whitespace (which piece it is, `Audio.SummaryIsSection` states) |

## Left out

- The chat model, the search tool, `exec` of the generated plotting code and the directory listing are oracle parameters. Provider selection (`_get_llm`) and chart deletion before generation are not modelled.
- LangGraph itself is not modelled: the engine is written out directly. `print`, `load_dotenv` and the write of `report.md` by `run` are I/O.
- FPDF rendering, the cover page, page breaks, the chart pages, `.upper()` of titles, the latin-1 round trip and the image-stripping regex are third-party rendering, codec and regex behaviour. `PdfText.Export` stops at the blocks to render.
- The history folder's files, JSON metadata, `get_history`, `load_report` and `load_history_report` are file-system I/O. Only the slug and the id are modelled. The timestamp is a parameter, since the clock is left out.
- The Gradio UI and the HTML text of the timeline are not modelled. The timeline is modelled as a sequence of items and connectors with their classes; icons and labels are markup.
- In `generate_report`, the chart listing, the history save and the history list are left out of the screens. A screen carries the timeline and, at the end, the report. The PDF export is modelled only as far as whether it raises.
- PdfText.ExportAsWritten: the only raise modelled is the unbound `re`. fpdf2 with a core font also raises on a character outside latin-1. The bodies pass through the latin-1 round trip first (app.py:121, 147), but two texts do not: the upper-cased section title given to `pdf.cell` (app.py:139), and the topic on the cover page (app.py:71). A report such as "Intro\n## Prix €\ntext" makes the program raise, but not the model. Modelling this needs Unicode `.upper()` and fpdf2's encoder, which are left out.
- PdfText.LayOutAsWritten: the same restriction as `PdfText.ExportAsWritten`, for the section titles.
- Progress.RunScreens: the error screen is tied to the unbound `re` of the PDF export alone. The export can also raise on a section title or topic outside latin-1 (see `PdfText.ExportAsWritten` above). `save_report` can also raise, because `os.makedirs` refuses a report folder that already exists (two saves of one slug in one second, see `History.ReportIdCollides`), and node bodies can raise in the model and search calls. Both depend on the file system or the network, which are left out.
- Progress.StreamScreens: the same restriction as `Progress.RunScreens`.
- The text-to-speech call, its client and its exception handler in `generate_audio_summary` are network I/O. Only the summary text is modelled.
- History.IsAlnum: `str.isalnum` is modelled for ASCII letters and digits only. Other Unicode letters and digits are dropped from the slug here, though Python keeps them.
- PdfText.IsVisualization: `str.lower` is modelled for ASCII letters only.
- PyStr.ReplaceAll: modelled for a non-empty pattern only, which is every use in the code.

## Findings

| source | as written | input that shows it | evidently intended | confidence | as-written member | corrected member |
|---|---|---|---|---|---|---|
| market_agents/app.py:122 | `import re` sits inside the introduction branch. That makes `re` a local of `export_pdf`, so the `re.sub` of line 148 raises `UnboundLocalError` when a section is rendered before the introduction branch has run. The exception escapes `export_pdf` and ends `generate_report` on its error screen. | a report that opens with a heading, e.g. "##A": the first piece is blank and skipped, the second is rendered | `re` bound for every branch, e.g. imported at the top of the module | not executed | PdfText.LayOutAsWritten, PdfText.OpeningHeadingFails | PdfText.LayOut, PdfText.SectionsRendered |
