# Journal app core, modelled in Dafny

This project models the logic of a small desktop journal-and-planner
application:

- its goal dependency graph;
- the goal and task lists of its planner;
- its guided-meditation countdown;
- the journal page's text helpers and list edits;
- the self-analysis page's formatting and guards;
- the script that merges the journal's text files into one.

Everything is stated in Dafny and proved with the Dafny verifier. Nothing here
runs: the user interface, files, clocks and randomness are parameters or are
left out, as listed below.

| file | module | models |
|---|---|---|
| `goal_graph.dfy` | `GoalGraphs` | `GoalGraph` in goals/goals_script.js and the visualizer's highlight rules: the `highlightConnections` filter, the search highlight and the add-goal form handler |
| `todo_app.dfy` | `TodoLists` | `TodoApp` in script.js: moving goals and tasks between the active and completed lists, deleting, undo, the cascading goal delete (`findChildren`), the parent-level table, the goal forest of `renderGoals` and the order of tasks in `renderTodos` |
| `meditation_timer.dfy` | `MeditationTimer` | `IdentityTransformationTimer` in lkm.js: the six-section table, start, pause/resume, stop, the once-a-second tick and the `mm:ss` display text |
| `journal.dfy` | `Journal` | `JournalEntry` and `JournalApp` in journal.js: word count, header, preview, `analyzeContent`, the entry-list filter, and save, delete and undo |
| `analysis.dfy` | `SelfAnalysis` | `AnalysisApp` in analysis.js: personal entries newest first, entry titles, paragraph formatting, the ten analysis fields, the export text, and the save, clear and refresh rules |
| `merge_journal.dfy` | `MergeJournal` | test.py: the exclusion of `merged_journal.txt`, `natural_sort_key` with Python's list ordering, and the separator rule of `merge_files` |
| `sorting.dfy` | `Sorting` | the stable sorts the sources call (`Array.prototype.sort` and `list.sort`), as a stable insertion sort by a total preorder on keys |
| `common.dfy` | `Common` | shared pieces: the array filters (`filter`, `find`), ASCII `trim`/`toLowerCase`/`\s`, `split` on a character or on runs of whitespace or of sentence terminators (`[.!?]`), `join`, `repeat`, decimal numbers |

Where the source changes state, the model does too:

- `GoalGraph`, `TodoApp`, `IdentityTransformationTimer`, `JournalEntry`,
  `JournalApp` and `AnalysisApp` are classes whose methods update their fields;
- the loops of `search`, `removeNode`, `findChildren`, the forest building,
  the sentiment count and `merge_files` are `while` loops with invariants.

Each method is proved against a function of the old state, and the properties
the application relies on are lemmas about those functions. Examples:

- the graph's link/adjacency agreement;
- ids staying unique across the two lists of a kind;
- the timer always finishing;
- "2" sorting before "10".

Where the specification and the code differ, the model follows the code:

- `getAllNodes` and `search` keep insertion order after a removal, because the
  nodes live in a JavaScript `Map`. The model keeps the order list with the
  removed id filtered out.
- Self-loops and cycles are accepted by `addLink`.

## Model

| member | source | states |
|---|---|---|
| GoalGraphs.GoalGraph.constructor | goals/goals_script.js:3-13 | a new graph has no nodes and no links and satisfies the graph invariant |
| GoalGraphs.GoalGraph.AddNode | goals/goals_script.js:15-33 | succeeds exactly when the id is unused. It then adds one node with that id, the description, the category (default "personal") and empty children and parents. It appends the id to the iteration order and touches no other node and no link. A refused call changes nothing. The invariant is kept. |
| GoalGraphs.Unlinked | goals/goals_script.js:21-29 | a node that no link touches has empty children and parents, so a fresh node agrees with the links |
| GoalGraphs.GoalGraph.AddLink | goals/goals_script.js:35-61 | succeeds exactly when both endpoints exist and the ordered pair is not linked yet. A refused call changes nothing. On success the link is appended, the target is appended to the source's children and the source to the target's parents, and every other node is unchanged. The invariant is kept, self-loops included. |
| GoalGraphs.LinkUpdate | goals/goals_script.js:50-51 | the two pushes of `addLink` extend exactly the source's children and the target's parents; for a self-loop the same node gets both |
| GoalGraphs.LinkKeepsWellformed | goals/goals_script.js:44-57 | appending a new link between existing nodes, with the two adjacency pushes, keeps links distinct and adjacency equal to what the links induce |
| GoalGraphs.AddLinkTwice | goals/goals_script.js:44-60 | asking for the same link twice: the second request is always refused. Once both goals exist, the link is stored once, with one entry in the source's children and one in the target's parents. |
| GoalGraphs.AdjacencyMembership | goals/goals_script.js:49-57 | `b` is a child of `a` exactly when link `(a, b)` exists, and `a` is a parent of `b` likewise |
| GoalGraphs.AdjacencyCount | goals/goals_script.js:49-57 | each copy of link `(a, b)` accounts for exactly one `b` among `a`'s children and one `a` among `b`'s parents |
| GoalGraphs.LinkMatchesOneEntry | goals/goals_script.js:44-57 | in a well-formed graph every link is matched by exactly one child entry and exactly one parent entry |
| GoalGraphs.GoalGraph.RemoveNode | goals/goals_script.js:63-91 | succeeds exactly when the id is present. It then deletes the node, detaches every other node from it and drops the links touching it, keeping the surviving links in order. Afterwards no node lists the id and no link has it as an endpoint, even when the call was refused. The invariant is kept. |
| GoalGraphs.StripFromChildren | goals/goals_script.js:69-74 | the first loop filters the id out of the children of exactly the listed parents that exist |
| GoalGraphs.StripFromParents | goals/goals_script.js:77-82 | the second loop filters the id out of the parents of exactly the listed children that exist |
| GoalGraphs.DropTouching | goals/goals_script.js:85-87 | the surviving links are exactly those with neither endpoint equal to the id |
| GoalGraphs.RemovalIsDetach | goals/goals_script.js:63-91 | visiting only the node's own parents and children is enough: on a well-formed graph it detaches every other node from the removed id |
| GoalGraphs.AdjacencyAfterDrop | goals/goals_script.js:85-87 | dropping the links that touch `x` removes `x`, and only `x`, from every other node's induced children and parents |
| GoalGraphs.DropTouchingNoDuplicates | goals/goals_script.js:85-87 | filtering links keeps them distinct |
| GoalGraphs.RemovalKeepsWellformed | goals/goals_script.js:63-91 | the graph after a removal satisfies the invariant again |
| GoalGraphs.NoDanglingWhenAbsent | goals/goals_script.js:63-64 | in a well-formed graph an id that is not a node appears in no adjacency list and no link |
| GoalGraphs.GoalGraph.UpdateNode | goals/goals_script.js:93-100 | succeeds exactly when the id is present and then replaces only that node's description and category; links, order and the invariant are untouched |
| GoalGraphs.GoalGraph.Clear | goals/goals_script.js:102-105 | empties nodes, order and links |
| GoalGraphs.GoalGraph.GetNode | goals/goals_script.js:107-109 | returns the stored node exactly when the id is present |
| GoalGraphs.GoalGraph.GetAllNodes | goals/goals_script.js:111-113 | on a valid graph, the nodes in insertion order: every stored node appears, each once |
| GoalGraphs.AllNodesOnce | goals/goals_script.js:111-113 | listing the nodes of distinct ids gives every one of those nodes, each once |
| GoalGraphs.GoalGraph.GetAllLinks | goals/goals_script.js:115-117 | on a valid graph, the links are exactly the pairs `(a, b)` with `b` among `a`'s children, each once |
| GoalGraphs.LinksAreChildren | goals/goals_script.js:115-117 | in a well-formed graph a pair is a link exactly when both ends are nodes and the target is a child of the source |
| GoalGraphs.GoalGraph.Search | goals/goals_script.js:120-132 | the loop collects the nodes in insertion order whose lowercased id or description contains the lowercased query, without changing the graph |
| GoalGraphs.MatchingCharacterized | goals/goals_script.js:120-132 | a result is a stored node that matches, every matching node is a result, and no node is returned twice |
| GoalGraphs.EmptyQueryMatchesAll | goals/goals_script.js:120-132 | the empty query returns every node in insertion order, the same list as `getAllNodes` |
| GoalGraphs.HighlightIsNeighbourhood | goals/goals_script.js:399-421 | on a well-formed graph, highlighting `n` marks exactly `n`, its children and its parents, and exactly the links joining `n` to them |
| GoalGraphs.SearchHighlightsMatches | goals/goals_script.js:551-563 | the visualizer highlights exactly the graph's nodes that match the query |
| GoalGraphs.AddNodeFromForm | goals/goals_script.js:572-594 | a goal is added exactly when the trimmed id and description are non-empty and the id is unused. The new goal has the trimmed description and the chosen category, and every existing goal keeps its description and category. A non-empty trimmed parent field that names an existing goal then links the parent to the new goal; otherwise no link is added. A refused call changes nothing. |
| GoalGraphs.AddTrimmed | goals/goals_script.js:578-589 | the handler's branches once the fields are trimmed, with the same outcome as above, including the new goal's description and category and the unchanged existing goals |
| TodoLists.TodoApp.constructor | script.js:40-49 | the four lists start empty and nothing is remembered for undo |
| TodoLists.TodoApp.CompleteGoal | script.js:125-145 | returns true exactly when an active goal has the id. It then removes every active goal with that id and appends the first one, marked completed at `now`, to the completed goals. Otherwise nothing changes. |
| TodoLists.CompleteGoalMoves | script.js:125-145 | completing keeps ids unique across the two goal lists and keeps the set of goal ids. An active id ends up only among the completed goals. |
| TodoLists.MoveKeepsUnique | script.js:129-134 | filtering an item out of one list and appending it to the other keeps keys unique and the key set unchanged |
| TodoLists.TodoApp.ReactivateGoal | script.js:147-167 | the reverse move: returns true exactly when a completed goal has the id, and appends it to the active goals with `completed` false and no completion time |
| TodoLists.ReactivateGoalMoves | script.js:147-167 | reactivating keeps ids unique and the set of goal ids, and moves the id to the active goals |
| TodoLists.CompleteThenReactivateGoal | script.js:125-167 | completing and then reactivating a goal puts it back at the end of the active goals, no longer completed, with the completed goals as before |
| TodoLists.TodoApp.CompleteTodo | script.js:169-194 | returns true exactly when an active task has the id. That task moves to the completed tasks, marked completed at `now`. A daily task also records the date part of `now` as its last completion. |
| TodoLists.CompleteTodoMoves | script.js:169-194 | completing a task keeps task ids unique and the set of task ids, and moves the id to the completed tasks |
| TodoLists.TodoApp.ReactivateTodo | script.js:196-216 | returns true exactly when a completed task has the id and moves it back to the active tasks, keeping its last completion date |
| TodoLists.ReactivateTodoMoves | script.js:196-216 | reactivating a task keeps task ids unique and the set of task ids, and moves the id to the active tasks |
| TodoLists.TodoApp.DeleteGoal | script.js:218-233 | filters the id out of both goal lists |
| TodoLists.DeleteGoalRemovesId | script.js:218-233 | deleting a goal removes exactly its id from the goal ids, keeps ids unique and leaves the tasks alone |
| TodoLists.TodoApp.DeleteTodo | script.js:235-253 | remembers the first task with the id (active tasks first), or nothing, and filters the id out of both task lists |
| TodoLists.TodoApp.HandleNotificationAction | script.js:958-975 | undo appends a remembered goal to the active goals or a remembered task to the active tasks, then forgets it; with nothing remembered nothing changes |
| TodoLists.DeleteThenUndoTodo | script.js:958-975 | deleting a task and undoing puts that task at the end of the active tasks. With unique ids, the ids of tasks are then exactly those before the delete, and they stay unique. |
| TodoLists.RestoredTodoIds | script.js:958-975 | after the undo both lists of tasks hold the same ids as before the delete, each once |
| TodoLists.FindChildren | script.js:428-437 | `findChildren(p)` appends, in pre-order, every goal whose parent is `p`, each followed by its own descendants |
| TodoLists.DescendantsSound | script.js:428-437 | every collected id belongs to a goal whose parent is the start goal or an already collected goal |
| TodoLists.DescendantsComplete | script.js:428-437 | every goal whose parent is the start goal or a collected goal is collected, so all transitive descendants are found |
| TodoLists.DescendantsClosed | script.js:428-437 | when a child is collected, all of that child's descendants are collected too |
| TodoLists.LinkedTodos | script.js:442 | the tasks linked to a goal are exactly those whose goal id is that goal, in list order |
| TodoLists.DeleteTodosFilters | script.js:443-445 | deleting tasks one by one filters out exactly their ids from both task lists and leaves the goals alone |
| TodoLists.TodoApp.DeleteLinkedTodos | script.js:442-445 | the inner loop deletes each task linked to the goal, one by one |
| TodoLists.TodoApp.DeleteGoalWithConfirmation | script.js:415-451 | without confirmation nothing changes. Otherwise, for the goal and each of its descendants in pre-order, the goal is deleted and then every task linked to it. |
| TodoLists.CascadeRemovesGoals | script.js:439-446 | after the cascade the goals are exactly the former goals whose id was not collected, in their former order |
| TodoLists.Cascade | script.js:439-446 | the delete loop only removes tasks: every task left in each list was in that list before |
| TodoLists.CascadeRemovesLinkedTodos | script.js:439-446 | after the cascade no remaining task is linked to a deleted goal |
| TodoLists.CascadeKeepsUnlinkedTodos | script.js:439-446 | with unique ids, each task list after the cascade is exactly the former list filtered to the tasks with no goal or with a goal that was not deleted, in the former order |
| TodoLists.ParentOptions | script.js:357-364 | the offered parents are active goals, in list order, and none are offered for "someday" |
| TodoLists.ParentIsOneLevelUp | script.js:333-355 | a level may be chosen as parent exactly when it sits one step above the new goal's level in the order someday, 5year, 1year, monthly, weekly |
| TodoLists.ParentOptionsOneLevelUp | script.js:326-365 | the options are exactly the active goals one level above the chosen level |
| TodoLists.OneLevelUpIsRanked | script.js:326-365 | when every goal's parent sits exactly one level up, some ranking puts every goal below its parent, so the parent links have no cycle |
| TodoLists.ById | script.js:531-533 | the id map has exactly the active goal ids as keys |
| TodoLists.IndexGoals | script.js:531-533 | the first loop builds that id map |
| TodoLists.ByIdUnique | script.js:531-533 | with unique ids the map returns each active goal under its own id |
| TodoLists.CollectForest | script.js:535-541 | the second loop collects, in list order, the goals with no active parent as roots, and every other goal under its parent |
| TodoLists.BuildForest | script.js:528-544 | the forest is the collected roots sorted by level, together with each goal's children |
| TodoLists.ForestCoversEachGoalOnce | script.js:528-541 | with unique ids each active goal appears exactly once: as a root when its parent is missing or not active, otherwise under its parent and under no other goal |
| TodoLists.RootsCount | script.js:535-541 | each goal is collected as a root once when it is a root and never otherwise |
| TodoLists.ChildrenCount | script.js:535-541 | each goal is collected once under its active parent and under no other goal |
| TodoLists.RootsOrdered | script.js:543-544 | the roots are a permutation of the collected roots, ordered someday, 5year, 1year, monthly, weekly, keeping list order within a level |
| TodoLists.OneThingTasks | script.js:637 | the ONE Thing tasks are exactly the active tasks with that priority |
| TodoLists.OtherTasks | script.js:638 | the other tasks are exactly the active tasks without that priority |
| TodoLists.TaskOrder | script.js:637-641 | the displayed tasks are a permutation of the active tasks |
| TodoLists.TaskOrderIsPartitionedSort | script.js:637-641 | the display lists every active task once: first the ONE Thing tasks, then the others ordered high, medium, low |
| TodoLists.SplitPermutes | script.js:637-638 | the two filters together hold every active task exactly once |
| MeditationTimer.TotalDuration | lkm.js:241-243 | the six sections last 1920 seconds in all |
| MeditationTimer.IdentityTransformationTimer.constructor | lkm.js:42-45 | a new timer is stopped, unpaused, at section 0 with no time left |
| MeditationTimer.IdentityTransformationTimer.Start | lkm.js:52-64 | only a stopped timer starts: running, unpaused, at section 0 with 360 seconds left. A running timer is unchanged. |
| MeditationTimer.IdentityTransformationTimer.PauseResume | lkm.js:66-79 | a stopped timer is unchanged; a running one flips `paused` |
| MeditationTimer.IdentityTransformationTimer.Stop | lkm.js:81-88 | stops and unpauses, keeping the section and the time left |
| MeditationTimer.IdentityTransformationTimer.Tick | lkm.js:97-130 | a tick while stopped or paused changes nothing. An active tick with time left counts one second down and reports it. At zero it moves to the next section with that section's full duration. After the last section it stops and reports the finish. |
| MeditationTimer.OperationsKeepInv | lkm.js:52-130 | every operation keeps a running timer inside a section, with no more time left than the section lasts |
| MeditationTimer.TickProgress | lkm.js:97-130 | each active tick brings the end of the session exactly one tick closer |
| MeditationTimer.SessionEnds | lkm.js:97-130 | an unpaused session stops after exactly its remaining number of ticks and not before |
| MeditationTimer.FullSessionTicks | lkm.js:52-130 | a session from `start` ends after 1926 active ticks: 1920 seconds, five section changes and the finish |
| MeditationTimer.Pad2 | lkm.js:355-359 | a zero-padded number is all digits, at least two of them, exactly two below 100 |
| MeditationTimer.Pad2RoundTrip | lkm.js:355-359 | reading a padded number back gives the number |
| MeditationTimer.Clock | lkm.js:355-359 | the `mm:ss` text is digits, a colon, then exactly two digits; five characters in all below 100 minutes |
| MeditationTimer.DisplayText | lkm.js:352-359 | the display is the section name, then ": ", then a clock text that reads back to the seconds left |
| MeditationTimer.ClockRoundTrip | lkm.js:355-359 | the `mm:ss` text splits at its one colon into minutes and a two-digit seconds field that read back to the same number of seconds |
| Common.DecimalRoundTrip | lkm.js:359 | the decimal digits of a number (JavaScript `toString`, Python `str`) read back to the number |
| Journal.WordCountIsWords | journal.js:20-22 | the word count is the number of maximal non-whitespace runs, and it is 0 exactly for empty or blank text |
| Journal.Words | journal.js:20-22 | the reference words: non-empty runs of non-whitespace characters |
| Journal.WordsTrim | journal.js:20-22 | trimming does not change the words |
| Journal.SplitOnRunsWords | journal.js:21 | on text ending in a non-space, splitting at whitespace runs gives the words, plus one empty piece in front when the text starts with whitespace |
| Journal.JournalEntry.constructor | journal.js:4-14 | a new entry has the given content and type. Its creation time is the given timestamp, or `now` when none is given. Word count, character count and formatted text agree with the content. |
| Journal.JournalEntry.UpdateContent | journal.js:38-45 | the content is replaced and the derived fields follow it; the dated header, built from the unchanged creation time, stays in front |
| Journal.ReformatKeepsHeader | journal.js:24-36 | formatting two contents under one date gives the same header followed by each content |
| Journal.StripMarks | journal.js:49 | the result holds exactly the characters of the input other than `#`, `*` and backquote |
| Journal.StripMarksAppend | journal.js:49 | stripping distributes over concatenation, so it works character by character |
| Journal.StripMarksUnmarked | journal.js:49 | text without markup characters is left unchanged, and a lone markup character is removed |
| Journal.Preview | journal.js:47-52 | the preview holds no markup character and is at most three characters longer than `maxLength` |
| Journal.JournalEntry.GetPreview | journal.js:47-52 | an entry's preview holds no markup character and is at most three characters longer than `maxLength` |
| Journal.PreviewShape | journal.js:47-52 | the preview has no markup character and is the plain text itself when it fits. Otherwise it is the first `maxLength` characters followed by "...", so never more than three characters over. |
| Journal.AnalyzeContent | journal.js:388-418 | the counts are the words, the non-blank sentences and the non-blank paragraphs. Positive and negative counts never exceed the words. The sentiment is positive or negative exactly when that count is larger, else neutral. Reading time is the word count divided by 200, rounded up. |
| Journal.AnalysisWordsAreWords | journal.js:389 | the analysis sees the same words as the entry's word count |
| Journal.CleanWord | journal.js:400 | the cleaned word keeps only lowercase letters |
| Journal.CleanWordAppend | journal.js:400 | cleaning distributes over concatenation, so it works character by character |
| Journal.CleanWordLetters | journal.js:400 | a word of letters only cleans to its lowercase form, and a lone non-letter is removed |
| Journal.CountIn | journal.js:399-403 | a count never exceeds the number of words |
| Journal.CountsDisjoint | journal.js:392-403 | no word is both positive and negative, so the two counts together never exceed the number of words |
| Journal.CountSentimentWords | journal.js:399-403 | the loop counts the words whose cleaned form is in each list |
| Journal.ByType | journal.js:453-455 | the type filter keeps, in order, exactly the entries of the chosen type, or every entry for "all" |
| Journal.BySearch | journal.js:457-461 | the search filter keeps, in order, exactly the entries whose lowercased content contains the term; an empty term keeps all |
| Journal.VisibleEntries | journal.js:447-472 | the shown entries are stored entries in the stored order, each passing the type filter and matching the search |
| Journal.VisibleEntriesCharacterized | journal.js:447-472 | an entry is listed exactly when it is stored and passes both filters |
| Journal.JournalApp.constructor | journal.js:96-104 | no entries, no selection, filter "all", empty search, nothing to undo |
| Journal.JournalApp.SetSearchTerm | journal.js:199-202 | the search box stores its text lowercased and changes nothing else |
| Journal.JournalApp.SaveEntry | journal.js:281-323 | blank text changes nothing. A selected entry gets the trimmed text, even when the write fails. Otherwise a new personal entry with that text goes to the front and becomes current, and a failed write takes it out again and clears the selection. |
| Journal.JournalApp.SaveNewEntry | journal.js:302-318 | the no-selection branch: a successful write leaves the new entry at the front and current, a failed one restores the old list with no selection |
| Journal.JournalApp.Unshift | journal.js:305-306 | the new entry is put in front of the list and selected; filter, search term and the deleted-entry slot are unchanged |
| Journal.JournalApp.Shift | journal.js:315-316 | the front entry is dropped and the selection cleared; filter, search term and the deleted-entry slot are unchanged |
| Journal.JournalApp.ConfirmDelete | journal.js:360-377 | with an entry selected it is remembered for undo. Only a successful delete filters its id out of the list and clears the selection. Without a selection nothing changes. |
| Journal.WithoutId | journal.js:366 | the filtered list keeps exactly the entries with another id, and is no longer |
| Journal.JournalApp.HandleNotificationAction | journal.js:579-590 | undo puts the deleted entry back at the front and forgets it; with nothing deleted the list is unchanged |
| Journal.DeleteThenRestore | journal.js:579-590 | with unique ids, deleting an entry and putting it back in front gives the same entries |
| SelfAnalysis.AnalysisApp.constructor | analysis.js:4-21 | no entries, no selection, all ten fields empty |
| SelfAnalysis.PersonalOnly | analysis.js:50 | the loaded entries are exactly the personal ones |
| SelfAnalysis.PersonalOnlyMultiset | analysis.js:50 | each personal entry is kept as often as it occurs, and no other entry is kept |
| SelfAnalysis.LoadedEntriesShape | analysis.js:45-60 | the page holds exactly the personal entries, each as often as received, ordered newest `updated` first |
| SelfAnalysis.AnalysisApp.LoadEntries | analysis.js:45-60 | the entry list becomes the loaded list; the selection and fields are untouched |
| SelfAnalysis.FirstLineIsLine | analysis.js:206 | the first line is the text up to the first newline, or all of it |
| SelfAnalysis.GetEntryTitle | analysis.js:204-211 | the title is the trimmed first line, cut to 50 characters plus "..." when longer, or "Untitled Entry" when that line is blank. It is one non-empty line of at most 53 characters. |
| SelfAnalysis.AnalysisApp.SelectEntryById | analysis.js:236-241 | selects the first entry with the id; an unknown id leaves the selection alone |
| SelfAnalysis.AnalysisApp.RefreshEntries | analysis.js:331-354 | reloads, then reselects the current entry by id. The selection becomes empty exactly when no reloaded entry has that id. |
| SelfAnalysis.MapEscape | analysis.js:274 | every line is escaped, in order |
| SelfAnalysis.ParagraphHtmlIsJoin | analysis.js:270-275 | both branches give one `<p>` element holding the escaped non-blank lines joined by `<br>` |
| SelfAnalysis.ParagraphBlocks | analysis.js:268-276 | one block per non-blank paragraph, in order |
| SelfAnalysis.FormatJournalContent | analysis.js:259-277 | the placeholder appears exactly when no paragraph is non-blank |
| SelfAnalysis.FormatJournalContentShape | analysis.js:259-277 | blank content always gives the placeholder; otherwise the output opens with the first paragraph's `<p>` element |
| SelfAnalysis.WithField | analysis.js:76-114 | one text area's handler sets its own field and no other |
| SelfAnalysis.AnalysisApp.SetField | analysis.js:76-114 | the handler updates only the analysis data |
| SelfAnalysis.AnalysisApp.ClearAnalysis | analysis.js:375-406 | with an entry selected and the user's confirmation all ten fields become empty; otherwise nothing changes |
| SelfAnalysis.SomeNonBlank | analysis.js:455 | true exactly when some value trims to a non-empty string |
| SelfAnalysis.ValuesAreFields | analysis.js:455 | `Object.values` lists the ten fields in declaration order |
| SelfAnalysis.AnalysisApp.SaveAnalysis | analysis.js:448-470 | refused without a selected entry, and refused when every field is blank, which is exactly when the export would hold no section. Otherwise the fields go out with the entry's id and content and the analysis date. |
| SelfAnalysis.SectionsPartitionFields | analysis.js:492-543 | every field is reported in exactly one of the six export sections |
| SelfAnalysis.GuardIsIncluded | analysis.js:502-537 | each section's hand-written guard holds exactly when one of the fields that section reports on is non-blank |
| SelfAnalysis.FormatAnalysisForExport | analysis.js:492-543 | the export is the header (with the two dates when an entry is selected) followed by exactly the included sections, in order 1 to 6 |
| SelfAnalysis.ContentIffSomeSection | analysis.js:455 | some field is non-blank exactly when some section is included |
| SelfAnalysis.ExportEmptyIffNoContent | analysis.js:492-543 | the export adds nothing to its header exactly when every field is blank |
| MergeJournal.MergeInputs | test.py:17-20 | the inputs are the listed names other than `merged_journal.txt`, which is never among them |
| MergeJournal.StaleOutputIgnored | test.py:10-20 | a merged file left in the folder changes nothing, and excluding twice is the same as once |
| MergeJournal.SplitDigitRuns | test.py:26 | `re.split(r'(\d+)')` gives an odd number of pieces: text pieces without digits at even positions, non-empty digit runs at odd ones |
| MergeJournal.SplitDigitRunsJoin | test.py:26 | the pieces concatenate back to the name |
| MergeJournal.NaturalSortKey | test.py:23-26 | a key alternates text and number parts, starting and ending with text |
| MergeJournal.KeysAligned | test.py:29 | two keys hold parts of the same kind at every common position, so Python never compares a number with a text |
| MergeJournal.KeyLeqTotalPreorder | test.py:29 | Python's list ordering of keys is a total preorder |
| MergeJournal.NumberedNamesOrder | test.py:23-26 | names that differ only in one number are ordered by the number's value |
| MergeJournal.TwoBeforeTen | test.py:23-26 | "entry2.txt" sorts before "entry10.txt" and not after it |
| MergeJournal.PlainOrderTenFirst | test.py:22 | plain string order would put "entry10.txt" first |
| MergeJournal.KeyIgnoresCase | test.py:25 | lowercasing a name does not change its key |
| MergeJournal.CaseOnlyNamesTie | test.py:25 | names that differ only in letter case have equal keys and tie |
| MergeJournal.SortNaturally | test.py:29 | the sorted names are a permutation of the inputs in natural order |
| MergeJournal.SortNaturallyStable | test.py:29 | names with equal keys keep their listing order |
| MergeJournal.SeparatorShape | test.py:45 | the separator is a newline, fifty `=` and two newlines: 53 characters |
| MergeJournal.MergeFiles | test.py:36-46 | the loop writes the contents in order with the separator between two files and none after the last |
| MergeJournal.MergedEnds | test.py:38-45 | the output starts with the first file's content and ends with the last file's content |
| MergeJournal.MergedLength | test.py:38-45 | the output is as long as all contents plus one separator for each pair of neighbouring files |
| MergeJournal.MergeFolder | test.py:17-49 | the script merges exactly the listed names other than `merged_journal.txt`, in natural order, reading each and joining the contents with the separator |
| Sorting.SortByKey | test.py:29 | a stable insertion sort by key returns a permutation of its input that is sorted |
| Sorting.SortByKeyStable | test.py:29 | elements with equal keys keep their input order |
| Sorting.SortByRank | analysis.js:51 | sorting by an integer rank returns a sorted permutation |
| Sorting.SortByRankStable | analysis.js:51 | elements of equal rank keep their input order |

## Left out

- The D3 graph view is not modelled: rendering, force layout, zoom, drag,
  context menus, the edit dialog, JSON export and the example graph. It is
  user interface over a foreign library.
- All DOM reads and writes, alerts and notifications are not modelled. Form
  fields, confirmation dialogs and save or delete outcomes are parameters.
- Persistence calls are not modelled (the save and load messages, the file
  store). The planner model follows the path on which every save succeeds.
- Random data is not modelled: node coordinates in `addNode` and random or
  time-based ids are left out, and new ids are parameters.
- Clocks are parameters: the current time, the date part of it, and the
  locale's date rendering.
- `localeCompare` is not modelled, nor the completed-task and date-difference
  sorts. Locale collation is outside the model.
- Floating point is not modelled: `avgSentenceLength` in `analyzeContent` is
  not computed.
- Audio and timer scheduling are not modelled (`setInterval`, `setTimeout`,
  Web Audio synthesis).
- Text is ASCII only:
  - lowercasing changes only `A`-`Z`;
  - `\s` and `trim` treat only space, tab, newline, carriage return, vertical
    tab and form feed as whitespace;
  - `\d` and `isdigit` accept only `0`-`9`;
  - a JavaScript string length is counted in characters, not UTF-16 units.
- The regular expression that strips copied timestamp lines in `saveEntry` is
  not modelled. The text handed to the save is taken as already cleaned.
- HTML escaping is a function parameter, because the source does it through
  the DOM.
- The export headings are kept exactly as the source file stores them (its
  emoji are mis-encoded there).
- test.py's file system work is not modelled: deleting the old output, the
  glob, reading, writing, and the prints. The listing of base names and a
  read function are parameters. Full paths are represented by their base
  names, which is what the exclusion and the sort key look at.
- main.js, app.py and api.py (window, IPC and HTTP handlers over the file
  system) are not part of this model.
- MergeJournal.PartCmp orders a text part before a number part, where Python
  would raise `TypeError`. KeysAligned shows that two natural sort keys never
  reach that case.
- Sorting.SortByKey models the library sorts by the sorted permutation they
  return (a stable insertion sort), not by their algorithm.
- TodoLists.TaskOrderIsPartitionedSort orders tasks of equal priority by list
  order. The source breaks those ties with `localeCompare` on the text, and
  sorts a priority outside high/medium/low by text alone (its rank is `NaN`).
  Here such a priority sorts last.
- TodoLists.BuildForest sorts a root whose level is outside the five known
  levels last. In the source its comparator yields `NaN`, which leaves that
  root's place to the engine.
- TodoLists.TodoApp.DeleteGoalWithConfirmation requires a ranking under which
  every goal sits below its parent, that is, acyclic `parentId` links among
  all goals, not only those below the deleted one. The model therefore does
  not cover a delete the source completes while some unrelated goals form a
  cycle. On a cycle below the deleted goal the source's `findChildren`
  recurses until the stack overflows. Goals created through the form cannot
  form a cycle: their parent sits one level up (ParentOptionsOneLevelUp), and
  OneLevelUpIsRanked shows such goals always admit a ranking.
- TodoLists.TodoApp.CompleteGoal, and the other list edits, do not model a
  failed save. In the source the lists have already changed when a failed
  save makes the method return false.
- MeditationTimer.IdentityTransformationTimer.Tick treats a section change as
  one atomic step that leaves the timer unpaused. The source pauses for the
  section sound and resumes one second later.
- SelfAnalysis.LoadEntries takes each entry's `updated` time already parsed
  to milliseconds. Unparseable dates are not modelled.
- Journal.JournalApp.SaveEntry does not model the write of an updated entry.
  Its outcome changes only the notification.
