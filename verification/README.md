# A verified model of the controller's alert logic and its tooling

This project models, in Dafny, the parts of the repository that compute
something: how alerts are grouped, selected and updated; how assert tasks are
counted; how the disk fill-up work ends; how a release changelog is put
together; and a few loops and parsers whose correctness depends on details of
Python. The modules share five small ones (`Wrappers`, `Values`, `Strings`,
`PythonLists`, `StableSort`). `dafny verify dfyconfig.toml` checks
everything.

Code that changes state step by step is modelled as methods on classes and
lists, each proved against a specification function; what the code is for is
then proved about those functions. Whatever comes from outside (the search
engine, the case system, SSH tests, disk readings, the clock) is an input, and
the results hold for all inputs.

## What is modelled

- **AlertGrouping** builds the nested `terms` aggregation as a chain of mutable
  dictionaries, and flattens the tree of buckets that comes back by recursion
  over rows that are mutated, copied and appended on the heap. What the search
  engine may answer is a relation over a list of documents: any bucket order,
  multi-valued fields, and truncation at the size limit of 100. The main result
  is that the table is the flat group-by of the documents whatever the answer,
  if and only if the fields are distinct and none is named `count`
  (`TableIsGroupByIff`); completeness is claimed where no level is truncated.
- **AlertTable** puts the answers of the two searches, labelled and sorted, into
  one listing, with the largest groups first. The labelled rows show the groups if and only if a rule is not
  asked for under both its names (`ShownTableIff`, `SignalTableIff`).
- **AlertLifecycle** compiles flags to a boolean query, proves what the query
  selects, and treats modify, remove, webhook and ingestion as steps of a state
  machine whose updates may stop half way. The main results hold over every run.
  Two intentions of the code turn out to hold only under a condition, which is
  exact in both cases. An alert leaves a case only when that case is released,
  but a *signal* can be moved to another case (`SignalMovesBetweenCases` shows a
  run): some step does it if and only if the signal is movable, that is, in the
  signals' index, native, unresolved, timed, and open or closed
  (`SignalCanBeMovedIff`). And acknowledging takes a document to the class with
  the flag flipped if and only if the further match clauses, which come from the
  fields of a row, agree with what the script sets (`AlertFlipsIff`,
  `SignalFlipsIff`, `ModifyMovesTheClass`; `StatusClauseLosesSignal` shows a
  failure); an escalated signal goes to the unescalated ones.
- **AlertOutcomes** says what each of those steps writes: the fields that a
  document has afterwards, which documents and fields stay as they are, and what
  a reported success means.
- **RowActions** sends a listed row back: the controller makes match clauses of
  its cells, and the query then targets exactly the documents that the row
  counts if and only if the listing is not of closed documents, no field is
  named like a cell that is skipped (`form`, `links`, `kind`), alerts are not
  grouped by `signal.rule.name`, and signals are grouped by their rule
  (`RowsAreTargetedIff`).
- **AssertionStats** is the callback plugin with its three levels of counters,
  which agree with each other, with the recorded entries and with what the
  assertions of the reported results evaluated to.
- **DiskFillup** is a state machine of the timer, log, cluster and node tasks
  that interleave at their awaits and share two flags and a counter. Its log
  records what was read and seen; the results speak about the log of every
  interleaving. **DiskReadings** says what becomes of the readings: a high one
  starts the timer, a full cluster ends the work, the limit of the counter is
  never passed unnoticed, and no disk of a listing is passed over.
  **DiskFillupRuns** shows that there are runs of both kinds.
- **SshLiveness** and **CatalogOrder** are loops that remove from, insert into
  or pop from the list that they walk over by index. For the catalog two
  evident intentions hold only under a condition, and both conditions are
  exact: every agent is removed if and only if no two stand in a row, and an
  Arkime has a viewer before it if and only if the walk looks at it, or a viewer
  or an Arkime that it looks at comes earlier.
- **Versions**, **Releases**, **Commits** and **TitleGrammar** are the changelog
  engine: the version order, file names, ranges and release chains, the choice
  of commits and their sections, and the titles.
- **SystemctlParser** is the line parser with multi-line values; a property is
  read back from its lines if and only if it is well formed.
- **NaturalOrder**, **Resources**, **Addresses** and **SensorSync** are the
  natural sort key, the reservation accounting, the node addresses and the
  sensor difference.

Where the code and its description differ the model follows the code. A
resolved and closed signal is in the listings of three of the four combinations
of flags (`ResolvedSignalClasses`). The modify endpoint reads a variable that was never set when escalation is asked for
documents that are already escalated. `make_sections` raises on an empty list.
`get_releases` without arguments always raises, and so it does when the lowest
release is in range, which has no previous one. A node whose disks are all empty
ends its task with an exception, because the message about the highest usage
cannot be built. A reservation with a zero part is dropped, so a fresh node with
less than 20 KiB of memory has more CPU left than the formula for the others
says (`FreshCpuIff`). A title with no digit in its ticket passes the rule
and is not taken apart into its own parts (`TitleIsReadBackIff`). A row of
signals that were not grouped by their rule cannot be acknowledged or escalated,
because the lookup of the rule raises, and a row of closed documents targets none
of them, because the endpoint looks among what is not closed.

## Model

| member | source | states |
|---|---|---|
| AlertGrouping.GetAggsNested | web/backend/app/controller/alerts_controller.py:264-268 | following the field names down the chain fails exactly when they are not a prefix of the chain's fields |
| AlertGrouping.Extend | web/backend/app/controller/alerts_controller.py:278-280 | hanging a fresh level under the last node gives the chain of one more field |
| AlertGrouping.ConstructAggs | web/backend/app/controller/alerts_controller.py:270-282 | for any field list no lookup fails, and what is built is one chain with one level and one terms clause per field |
| AlertGrouping.ChainAsksForFields | web/backend/app/controller/alerts_controller.py:270-282 | an answer to the chain is exactly an answer to the grouping by the plain field list |
| AlertGrouping.PathsCountGroups | web/backend/app/controller/alerts_controller.py:284-307 | every path through an answer counts the documents that match its keys, and there are some |
| AlertGrouping.PathsAreDistinct | web/backend/app/controller/alerts_controller.py:284-307 | no two paths have the same keys |
| AlertGrouping.PathsCoverGroups | web/backend/app/controller/alerts_controller.py:270-307 | if no level is truncated, every tuple of values that occurs has a path |
| AlertGrouping.AddBucket | web/backend/app/controller/alerts_controller.py:287-294 | one iteration appends the rows below one bucket, as new unaliased objects, and goes on with a row that is not in the table |
| AlertGrouping.GetRow | web/backend/app/controller/alerts_controller.py:284-294 | the recursion appends exactly the flat rows of its buckets; no appended row is aliased or changed afterwards |
| AlertGrouping.GetTableContents | web/backend/app/controller/alerts_controller.py:296-307 | the table grows by one new row object per root-to-leaf path, in depth-first order, and old rows stay as they are |
| AlertGrouping.FlatRowsAreRowsOfPaths | web/backend/app/controller/alerts_controller.py:284-307 | each row holds only what its own path wrote: nothing of a sibling branch is left in it |
| AlertGrouping.CountCellIsCountIff | web/backend/app/controller/alerts_controller.py:284-307 | for all documents and answers, the count cell of every row is the number of documents that its path's keys match, if and only if the last field is not named count |
| AlertGrouping.EveryRowIsAGroup | web/backend/app/controller/alerts_controller.py:264-307 | every row is the row of a tuple of values that occurs, with its number of documents, also under truncation |
| AlertGrouping.NoGroupTwice | web/backend/app/controller/alerts_controller.py:264-307 | no tuple of values has two rows |
| AlertGrouping.EveryGroupHasARow | web/backend/app/controller/alerts_controller.py:264-307 | if no level is truncated, every tuple that occurs has its row |
| AlertGrouping.FlatRowsAreGroupBy | web/backend/app/controller/alerts_controller.py:264-307 | flattening any answer gives the flat group-by of the documents |
| AlertGrouping.TableIsGroupByIff | web/backend/app/controller/alerts_controller.py:264-307 | the table is the group-by for all documents and answers, if and only if the fields are distinct and none is named count |
| AlertGrouping.DistinctOrSingleIsClear | web/backend/app/controller/alerts_controller.py:284-294 | no row of a group has to hold two values in one cell, if the fields are distinct or no document has several values in a field |
| AlertGrouping.FlattenAnswer | web/backend/app/controller/alerts_controller.py:264-307 | whatever is answered to the built request, the row objects appended are the group-by |
| AlertGrouping.AnAnswerExists | web/backend/app/controller/alerts_controller.py:270-282 | for any documents and fields there is an answer, so the results are about something |
| AlertTable.SignalFields | web/backend/app/controller/alerts_controller.py:341-344 | the search for signals renames the first rule.name field and no other |
| AlertTable.LabelsStick | web/backend/app/controller/alerts_controller.py:389-393 | labelling rows a second time, with the other kind, changes nothing |
| AlertTable.LabelRows | web/backend/app/controller/alerts_controller.py:389-393 | every row of the table gets its kind and the common rule name, in place |
| AlertTable.AddSearch | web/backend/app/controller/alerts_controller.py:387-393 | one search appends its rows and labels the whole table |
| AlertTable.Tabulate | web/backend/app/controller/alerts_controller.py:336-393 | the table is the alerts' rows labelled as alerts, then the signals' rows labelled as signals, without aliases; for distinct fields apart from count and the two names of a rule, both parts show exactly the groups of their documents |
| AlertTable.LabelledGroupBy | web/backend/app/controller/alerts_controller.py:389-393 | labelling the group-by gives rows that show each group once, under the common names and with its kind |
| AlertTable.ShownTableIff | web/backend/app/controller/alerts_controller.py:387-393 | for distinct fields other than count, the labelled table shows the groups of all documents if and only if a rule is not asked for under both its names |
| AlertTable.SignalFieldsDistinctIff | web/backend/app/controller/alerts_controller.py:341-344 | renaming makes two fields equal exactly if a rule was asked for under both its names |
| AlertTable.SignalTableIff | web/backend/app/controller/alerts_controller.py:341-345 | the signals' table is the group-by for all documents under the same condition |
| AlertTable.ListingIsRanked | web/backend/app/controller/alerts_controller.py:394 | the listing has the table's rows, no row with fewer documents than one after it, ties in the order of the table |
| AlertTable.ProperListing | web/backend/app/controller/alerts_controller.py:336-394 | for distinct fields other than count and apart, all rows are counted and fall, and of rows with as many documents those of alerts come first |
| AlertTable.ListAlerts | web/backend/app/controller/alerts_controller.py:336-394 | the whole request: the rows of the two searches, by falling number of documents |
| AlertLifecycle.BuildQueryClause | web/backend/app/controller/alerts_controller.py:26-106 | flags and kinds out of range are refused, otherwise the query matches exactly the documents that the request selects |
| AlertLifecycle.QuerySelects | web/backend/app/controller/alerts_controller.py:52-106 | must, must_not and filter clauses together mean: in scope, resolved as asked, and of the class that the flags name |
| AlertLifecycle.AlertStore.UpdateByQuery | web/backend/app/controller/alerts_controller.py:471-479 | exactly the targeted documents that were reached and whose script runs are rewritten; success means all of them |
| AlertLifecycle.AlertStore.Modify | web/backend/app/controller/alerts_controller.py:491-609 | acknowledge or escalate: the new documents, when the request fails, and when the reply reports success |
| AlertLifecycle.AlertStore.Remove | web/backend/app/controller/alerts_controller.py:407-479 | the first hit's case is released in both indices; without a hit, a case or a deletion nothing changes |
| AlertLifecycle.AlertStore.ReceiveWebhook | web/backend/app/controller/alerts_controller.py:648-731 | a change of a case updates or releases all of its documents |
| AlertLifecycle.ScriptKeepsConsistent | web/backend/app/controller/alerts_controller.py:445-469 | no update script breaks the consistency of a document that its query matches |
| AlertLifecycle.RunsStayConsistent | web/backend/app/controller/alerts_controller.py:407-731 | over every run: escalated exactly when a case id is there, and case fields only with a case id |
| AlertLifecycle.StepKeepsAlertInCase | web/backend/app/controller/alerts_controller.py:95-98 | one step leaves an alert in its case unless it releases exactly that case |
| AlertLifecycle.AlertLeavesCaseOnlyByRelease | web/backend/app/controller/alerts_controller.py:407-731 | over every run: an alert that is no longer in a case left it at a step that released that very case |
| AlertLifecycle.StepKeepsUnmovableSignal | web/backend/app/controller/alerts_controller.py:80-89 | no step but a release of its case takes a signal out of a case unless it is in the signals' index, native, unresolved, timed, and open or closed |
| AlertLifecycle.MovableIsMoved | web/backend/app/controller/alerts_controller.py:526-543 | some escalating modify step moves such a signal to any other case |
| AlertLifecycle.SignalCanBeMovedIff | web/backend/app/controller/alerts_controller.py:526-543 | so some step other than a release takes a signal out of its case if and only if it is movable |
| AlertLifecycle.SignalLeavesCaseOnlyIfMovable | web/backend/app/controller/alerts_controller.py:407-731 | over every run: a signal no longer in a case left it at a step that released the case, or while it was movable |
| AlertLifecycle.SignalMovesBetweenCases | web/backend/app/controller/alerts_controller.py:522-565 | every fresh open signal can be escalated, closed and escalated again into a second case without a release |
| AlertLifecycle.RunsKeepCasesOfOneKind | web/backend/app/controller/alerts_controller.py:509-604 | if case numbers are issued once, all documents of a case are of the kind that it was opened for |
| AlertLifecycle.RemovalFindsItsKind | web/backend/app/controller/alerts_controller.py:432-469 | so the script of a removal fits, and runs on, every document of the case |
| AlertLifecycle.RemovalEmptiesTheCase | web/backend/app/controller/alerts_controller.py:440-475 | a document reached by a removal ends acknowledged, unescalated, without a case and, if a signal, closed |
| AlertLifecycle.AlertClassesPartition | web/backend/app/controller/alerts_controller.py:90-98 | of the eight flag combinations for alerts, exactly the one with its own flags selects a document in scope |
| AlertLifecycle.SignalClassesPartition | web/backend/app/controller/alerts_controller.py:80-89 | the unresolved signals that are no copies of alerts are partitioned by status over three combinations of flags; the fourth selects nothing |
| AlertLifecycle.ResolvedSignalClasses | web/backend/app/controller/alerts_controller.py:80-89 | a resolved and closed signal is selected by three combinations of flags at once, and by the fourth none |
| AlertLifecycle.AcknowledgingFlipsTheClass | web/backend/app/controller/alerts_controller.py:544-604 | a document acknowledged or un-acknowledged leaves its class, and gets into the class with the flag flipped if and only if the further clauses agree with what the script sets; an escalated signal goes to the unescalated class |
| AlertLifecycle.AlertFlipsIff | web/backend/app/controller/alerts_controller.py:585-604 | for alerts: if and only if no further clause asks for the flag and none excludes its new value |
| AlertLifecycle.SignalFlipsIff | web/backend/app/controller/alerts_controller.py:544-569 | for signals: if and only if none asks for the status, those on the flag ask for its new value, and none excludes the new flag or status |
| AlertLifecycle.StatusClauseLosesSignal | web/backend/app/controller/alerts_controller.py:109-118 | a clause on the status, as built from a row grouped by it, makes the closed signal miss that class |
| AlertLifecycle.ModifyMovesTheClass | web/backend/app/controller/alerts_controller.py:544-604 | on the whole store a modify step takes exactly the documents it reached out of their class, puts them into the other one if and only if the clauses agree, and changes no other document |
| AlertLifecycle.ModifyRewritesTheClass | web/backend/app/controller/alerts_controller.py:522-604 | a modify step, acknowledging or escalating, rewrites exactly those documents of the class that it reaches |
| AlertOutcomes.WebhookWrites | web/backend/app/controller/alerts_controller.py:687-728 | a case update gives exactly the reached documents of the case the reported status, resolution and impact, and closes their signals if it is resolved or else has them in progress; a deletion takes them out; all other documents and fields stay |
| AlertOutcomes.UpdateResolves | web/backend/app/controller/alerts_controller.py:687-702 | a document is resolved after a case update if and only if the status says so, and stays in its case |
| AlertOutcomes.RemovalWrites | web/backend/app/controller/alerts_controller.py:414-475 | a removal takes out exactly the reached documents of the case of a hit that its flags select, if the case could be deleted, and otherwise changes nothing |
| AlertOutcomes.ModifyWrites | web/backend/app/controller/alerts_controller.py:491-604 | a modify step puts exactly the reached documents of its class into the new case, or turns their flag over, or is refused and changes nothing |
| AlertOutcomes.SuccessMeans | web/backend/app/controller/alerts_controller.py:471-479 | a reported success means that all documents of the class or case were reached and fitted the script |
| AlertOutcomes.SuccessEmptiesTheCase | web/backend/app/controller/alerts_controller.py:471-479 | after a removal or deletion that reports success no document is in the case |
| AlertOutcomes.RunsKeepTheRest | web/backend/app/controller/alerts_controller.py:407-731 | over every run, a document keeps its index and all fields but the flags, the case fields and the signal status |
| RowActions.GetAdditionalMatchClauses | web/backend/app/controller/alerts_controller.py:109-118 | one clause for each cell but four, under the signals' name of a rule for signals; it raises exactly for a signal without a rule |
| RowActions.ClausesMatchTuple | web/backend/app/controller/alerts_controller.py:109-118 | a document satisfies all clauses of a row exactly if it has the row's keys |
| RowActions.RowCountsMembers | web/backend/app/controller/alerts_controller.py:284-307 | the count of a listed row is the number of found documents with its keys, and not zero |
| RowActions.SentBackSelectsMembers | web/backend/app/controller/alerts_controller.py:422-434 | sent back with the flags of its listing, a row selects exactly the documents that it counts |
| RowActions.RowTargetsItsGroup | web/backend/app/controller/alerts_controller.py:499-516 | sent back to be modified, a row of documents that are not closed targets exactly those that it counts |
| RowActions.ModifyOfRow | web/backend/app/controller/alerts_controller.py:499-604 | a modify step for a row rewrites exactly those of its documents that it reaches and no other |
| RowActions.ClosedRowMissesItsGroup | web/backend/app/controller/alerts_controller.py:509-516 | a row of closed documents targets none of those that it counts |
| RowActions.SearchRowsComeBackIff | web/backend/app/controller/alerts_controller.py:109-118 | when the cells of all rows come back under the names of the fields that they were grouped by |
| RowActions.AlertsBySignalRuleFail | web/backend/app/controller/alerts_controller.py:389-393 | an alerts' row grouped by signal.rule.name comes back with a clause on another field |
| RowActions.SignalsWithoutRuleFail | web/backend/app/controller/alerts_controller.py:111-112 | a signals' row without a rule cannot be sent back |
| RowActions.SkippedCellsFail | web/backend/app/controller/alerts_controller.py:113-115 | a row grouped by a field named like a skipped cell targets more than it counts |
| RowActions.RowsAreTargetedIff | web/backend/app/controller/alerts_controller.py:109-118 | the rows of all listings by some fields target exactly what they count, if and only if the listing is not of closed documents and none of the three is the case |
| AssertionStats.CallbackModule.constructor | testing/playbooks/callback_plugins/assertive.py:34-43 | a plugin starts with zero counters, no groups and no open group |
| AssertionStats.CallbackModule.StartHost | testing/playbooks/callback_plugins/assertive.py:45-49 | a host starts with zero counters and no tests; nothing else changes |
| AssertionStats.CallbackModule.StartGroup | testing/playbooks/callback_plugins/assertive.py:51-58 | a new open group, named if a name is given |
| AssertionStats.CallbackModule.IncStats | testing/playbooks/callback_plugins/assertive.py:69-72 | one counter goes up by one in the run, the group and the host |
| AssertionStats.CallbackModule.CountAssertion | testing/playbooks/callback_plugins/assertive.py:92-110 | one assertion adds its tally at all three levels; it failed exactly if it is said to be false and was not skipped |
| AssertionStats.CallbackModule.CountAssertions | testing/playbooks/callback_plugins/assertive.py:92-115 | the loop over a result's assertions adds what they evaluated to at all three levels |
| AssertionStats.CallbackModule.AppendEntry | testing/playbooks/callback_plugins/assertive.py:124-143 | the task's entry is recorded with its verdict, and counters stay |
| AssertionStats.CallbackModule.ProcessAssertResult | testing/playbooks/callback_plugins/assertive.py:60-143 | the whole effect of one result, with the counters by what its assertions evaluated to; it raises exactly when no group is open |
| AssertionStats.CallbackModule.CloseGroup | testing/playbooks/callback_plugins/assertive.py:177-179 | the open group, or its absence, is appended to the groups |
| AssertionStats.CallbackModule.OnEvent | testing/playbooks/callback_plugins/assertive.py:145-190 | every event takes the plugin from one state to the next as specified |
| AssertionStats.CallbackModule.Report | testing/playbooks/callback_plugins/assertive.py:196-200 | the report has the groups that are there, in order |
| AssertionStats.TallyConcat | testing/playbooks/callback_plugins/assertive.py:92-115 | counting is additive over lists of verdicts |
| AssertionStats.SumHostsSplit | testing/playbooks/callback_plugins/assertive.py:69-72 | the sum over a group's hosts does not depend on an order of them |
| AssertionStats.RunsAgree | testing/playbooks/callback_plugins/assertive.py:45-143 | in every reachable state: a host's counters are those of its recorded verdicts, a group's the sum of its hosts', the run's the sum of all groups' |
| AssertionStats.RunsAreBalanced | testing/playbooks/callback_plugins/assertive.py:92-110 | in every reachable state, at every level, assertions are passed plus skipped plus failed |
| AssertionStats.RunCountsWhatWasReported | testing/playbooks/callback_plugins/assertive.py:145-190 | the run's counters are the tally of the assert results that came in during plays |
| AssertionStats.VerdictsCount | testing/playbooks/callback_plugins/assertive.py:92-110 | a result counts one assertion if it lists none; in one that is not skipped those said to be false fail and the others pass, in a skipped one all are skipped |
| AssertionStats.RunCountsEvaluations | testing/playbooks/callback_plugins/assertive.py:92-190 | over every run: the failed counter is the number of assertions said to be false in unskipped results during plays, and so for the other three |
| AssertionStats.OverallMeans | testing/playbooks/callback_plugins/assertive.py:117-141 | a task failed exactly if it was not skipped and an assertion is false, and was skipped if it was or lists an empty list |
| AssertionStats.OpenGroupShowsResults | testing/playbooks/callback_plugins/assertive.py:60-143 | over every run: the open group has exactly the hosts heard of in its play, with one entry for each counted result, in order and with its name and verdicts |
| AssertionStats.EveryClosingIsKept | testing/playbooks/callback_plugins/assertive.py:177-184 | every start of a play and the end of the playbook leave one entry, also when no group is open |
| AssertionStats.GivenAreThere | testing/playbooks/callback_plugins/assertive.py:196-200 | the report has all groups that are there and no others |
| AssertionStats.GroupsAreThePlays | testing/playbooks/callback_plugins/assertive.py:177-184 | the groups are the plays that started, by name and in order |
| AssertionStats.ClosedGroupsStay | testing/playbooks/callback_plugins/assertive.py:177-184 | a closed group never changes |
| DiskFillup.FlagsOnlyRise | testing/pipeline/jobs/integration_tests.py:154-345 | no step of any task takes back a flag or a log entry |
| DiskFillup.RunsKeepTimerInv | testing/pipeline/jobs/integration_tests.py:326-345 | what the timer knows about the past holds in every interleaving |
| DiskFillup.ReturnsOnlyAfterTimeout | testing/pipeline/jobs/integration_tests.py:326-359 | the work returns only if a reading reached 60, the timer saw it later, and 30 minutes passed after that |
| DiskFillupRuns.SomeRunReturns | testing/pipeline/jobs/integration_tests.py:326-359 | there are runs that return |
| DiskFillup.RunsKeepFillup | testing/pipeline/jobs/integration_tests.py:154-222 | the shared counter and every recheck agree with the log in every interleaving |
| DiskFillup.FillupOnlyAfterFiveRereads | testing/pipeline/jobs/integration_tests.py:154-179 | the disk exception comes only after the counter passed its limit and five rereads in a row exceeded the threshold |
| DiskFillupRuns.SomeRunRaises | testing/pipeline/jobs/integration_tests.py:154-222 | there are runs with a node that raise the disk exception |
| DiskFillup.CounterIsReadingsSinceReset | testing/pipeline/jobs/integration_tests.py:207-217 | a counter found past its limit is the number of readings above the threshold since the last reset, over all tasks |
| DiskReadings.RunsKeepReadings | testing/pipeline/jobs/integration_tests.py:200-272 | in every interleaving the flag is up if and only if a reading of the cluster or of a disk reached 60, and a cluster reading above 99 ends the work at once |
| DiskReadings.FullClusterEndsTheWork | testing/pipeline/jobs/integration_tests.py:262-272 | so a work that returned, or goes on, never read a full cluster |
| DiskReadings.StepRaisesIff | testing/pipeline/jobs/integration_tests.py:154-345 | what makes a step raise any other exception, exactly |
| DiskReadings.SleepersEndIff | testing/pipeline/jobs/integration_tests.py:225-305 | a task that sleeps ends at its next step if and only if the work is completed, and then reads nothing more |
| DiskReadings.RaisedIsCompleted | testing/pipeline/jobs/integration_tests.py:170-179 | the disk exception leaves the work completed |
| DiskReadings.LimitIsNeverMissed | testing/pipeline/jobs/integration_tests.py:213-220 | in every interleaving, a disk reading that brings the shared counter past fifteen is followed by a recheck of the task that made it |
| DiskReadings.ListingsAreReadToTheEnd | testing/pipeline/jobs/integration_tests.py:182-223 | in every interleaving, a task that goes to sleep after a listing has read each of its usages once and in order, rechecks in between or not; with none above zero it raises |
| DiskReadings.ListingsAreNotInterrupted | testing/pipeline/jobs/integration_tests.py:182-223 | while a task goes through a listing, up to the first reading of a recheck, no other task moves |
| PythonLists.PyList.Copy | testing/pipeline/util/ssh.py:121 | a copy is a new list with the same items |
| PythonLists.PyList.Remove | testing/pipeline/util/ssh.py:147 | the first equal item is taken out |
| PythonLists.PyList.Insert | testing/robotest/lib/Sorter.py:29 | the item stands at the index and the others keep their order |
| PythonLists.PyList.Pop | testing/robotest/lib/Sorter.py:31 | the item at the index is gone and the others keep their order |
| PythonLists.RemoveFirstAt | testing/pipeline/util/ssh.py:147 | removal cuts the list at the first equal item |
| PythonLists.RemoveFirstKeepsOthers | testing/pipeline/util/ssh.py:147 | removal takes one item and keeps every other value |
| SshLiveness.TestOnce | testing/pipeline/util/ssh.py:129-147 | the inner loop does the index walk over the shrinking list, test by test |
| SshLiveness.WalkIsSafe | testing/pipeline/util/ssh.py:129-147 | nobody leaves without a successful test, each success removes one, nobody comes in |
| SshLiveness.WalkGoesToTheEnd | testing/pipeline/util/ssh.py:129-147 | a walk goes on to the end of what is left, whatever the tests say |
| SshLiveness.WalkTests | testing/pipeline/util/ssh.py:129-147 | over distinct nodes, after a failed test comes the next node, after a success the next but one |
| SshLiveness.WalkLeavesHalf | testing/pipeline/util/ssh.py:129-147 | when all answer, a walk over n nodes leaves n / 2 of them |
| SshLiveness.WalkLeavesEveryOther | testing/pipeline/util/ssh.py:129-147 | when all answer and are distinct, those left are the second, the fourth and so on |
| SshLiveness.WalksHalve | testing/pipeline/util/ssh.py:124-153 | when all answer, k walks leave n / 2^k nodes |
| SshLiveness.WalksAreSafe | testing/pipeline/util/ssh.py:124-153 | after any number of walks, whoever is not left has passed a test |
| SshLiveness.TestNodesUpAndAlive | testing/pipeline/util/ssh.py:117-153 | success means every node passed a test, and is reported after the first walk that leaves nobody; giving up means the deadline passed; the caller's list is unchanged |
| SshLiveness.UpMeansTested | testing/pipeline/util/ssh.py:124-153 | whenever the wait succeeds, every node has passed a test |
| SshLiveness.UpIff | testing/pipeline/util/ssh.py:124-153 | the wait succeeds if and only if some walk leaves nobody before a reading of the clock has got to the deadline |
| StableSort.SortSorts | component-builder/pipeline-images/changelog/changelog/gitrepo.py:415-417 | sorting keeps every element as often and puts them in order |
| StableSort.SortIsStable | testing/robotest/lib/Sorter.py:12 | elements that tie keep their order |
| Versions.LessIsPaddedLess | component-builder/pipeline-images/changelog/changelog/version_helper.py:31-41 | comparing without trailing zeros is the order of PEP 440, "Final releases" |
| Versions.Trichotomy | component-builder/pipeline-images/changelog/changelog/version_helper.py:78-80 | of two versions exactly one is lower unless they are the same |
| Versions.LessIsTransitive | component-builder/pipeline-images/changelog/changelog/version_helper.py:78-80 | the order is transitive |
| Versions.PadKeepsOrder | component-builder/pipeline-images/changelog/changelog/version_helper.py:36-39 | padding to four components keeps the order, both ways |
| Versions.ReadOfRender | component-builder/pipeline-images/changelog/changelog/version_helper.py:31-41 | reading a printed version gives it back, padded |
| Versions.SavedFileIsReadBack | component-builder/pipeline-images/changelog/changelog/logg.py:552-555 | the file saved for a version is read by the table of contents as the same version |
| Versions.WordsAreNoVersions | component-builder/pipeline-images/changelog/changelog/toc.py:168-180 | no markdown file whose stem is one word with a non-digit is read as a version |
| Versions.OtherFilesAreNoVersions | component-builder/pipeline-images/changelog/changelog/toc.py:155-180 | neither UNRELEASED nor index is read as a version |
| Releases.GetVersionsWithinRange | component-builder/pipeline-images/changelog/changelog/version_helper.py:56-84 | terminates; fails exactly when no available version reaches the end; otherwise a chain up to or past the end, gapless on an ascending list |
| Releases.FewerAbove | component-builder/pipeline-images/changelog/changelog/version_helper.py:78-83 | moving the cursor leaves strictly fewer available versions above it |
| Releases.ChainGoesUp | component-builder/pipeline-images/changelog/changelog/version_helper.py:78-84 | the ends of a chain strictly increase |
| Releases.EveryVersionInsideIsAnEnd | component-builder/pipeline-images/changelog/changelog/version_helper.py:78-84 | every available version strictly inside the range is the end of exactly one part |
| Releases.GitRepo.ReleaseBranches | component-builder/pipeline-images/changelog/changelog/gitrepo.py:390-418 | lists the release branches of the repository, and the same list again when cached |
| Releases.ListedInOrder | component-builder/pipeline-images/changelog/changelog/gitrepo.py:406-418 | the listed branches are in version order and are all those with a version |
| Releases.SplitAtPrefix | component-builder/pipeline-images/changelog/changelog/gitrepo.py:400-408 | a name with the release prefix always has the second part that is read |
| Releases.BranchOfVersion | component-builder/pipeline-images/changelog/changelog/gitrepo.py:400-408 | a branch named release/ and a printed version is a release branch of that version, whatever follows a further slash; names that begin otherwise are none |
| Releases.ReleaseOfBranch | component-builder/pipeline-images/changelog/changelog/gitrepo.py:350-367 | with distinct versions the release of a branch starts from the branch right before it |
| Releases.ListedStrictlyIff | component-builder/pipeline-images/changelog/changelog/gitrepo.py:390-418 | the list is strictly in order if and only if no two release branches of the repository have the same version |
| Releases.GitRepo.GetReleases | component-builder/pipeline-images/changelog/changelog/gitrepo.py:447-489 | for a repository without repeated versions: the releases of exactly the branches asked for, other than the lowest, each from the branch right before it and in order; an error exactly if no range can be made or the lowest is asked for with both versions given |
| Releases.ReleasesBetween | component-builder/pipeline-images/changelog/changelog/gitrepo.py:456-489 | the same over a list of branches in strict order |
| Releases.RangeIsAsked | component-builder/pipeline-images/changelog/changelog/gitrepo.py:456-489 | the ends that are filled in make the range asked for: a branch other than the lowest is in it if and only if it lies between the versions that are given, the lowest only if both are |
| Releases.NoRangeIff | component-builder/pipeline-images/changelog/changelog/gitrepo.py:456-483 | when no range can be made, exactly, and the error that is raised then |
| Releases.LowestHasNoRelease | component-builder/pipeline-images/changelog/changelog/gitrepo.py:361-363 | the lowest branch has no previous one, and asking for its release raises |
| Releases.Collect | component-builder/pipeline-images/changelog/changelog/gitrepo.py:485-489 | the comprehension gives consecutive releases with no branch in range left out, or raises if the lowest is in range |
| Releases.RangeIsInterval | component-builder/pipeline-images/changelog/changelog/gitrepo.py:485-489 | the branches in range are an interval of the list |
| Releases.ReleasesFormAChain | component-builder/pipeline-images/changelog/changelog/gitrepo.py:447-489 | the releases are those of exactly the branches in range, each one's previous branch is the branch of the release before it, and versions go up |
| Commits.SummariesKeepTheLast | component-builder/pipeline-images/changelog/changelog/gitrepo.py:110-127 | of several commits with one summary the last one listed stays |
| Commits.KeysAreSummaries | component-builder/pipeline-images/changelog/changelog/gitrepo.py:110-127 | the keys are the summaries of the commits |
| Commits.Pick | component-builder/pipeline-images/changelog/changelog/gitrepo.py:177-203 | in whatever order the set comes, one commit for each accepted summary that is not taken |
| Commits.UniqueCommits | component-builder/pipeline-images/changelog/changelog/gitrepo.py:129-206 | exactly the accepted summaries in (release minus previous) or (branch minus release), each once |
| Commits.FilterKeepsOrder | component-builder/pipeline-images/changelog/changelog/logg.py:287-297 | a section has exactly the commits with its prefix, in the order of the list |
| Commits.EachCommitOnce | component-builder/pipeline-images/changelog/changelog/logg.py:400-415 | the sections that are made show every feat, fix and sus commit exactly as often as it is in the list, and no perf commit |
| Commits.SectionsKeepOrder | component-builder/pipeline-images/changelog/changelog/logg.py:329-415 | every section that is made has commits, exactly those with its prefix, in the order of the list |
| Commits.PrefixesExclude | component-builder/pipeline-images/changelog/changelog/logg.py:329-341 | no summary has two of the prefixes |
| Commits.NoSectionsIff | component-builder/pipeline-images/changelog/changelog/logg.py:400-415 | accepted commits give no section if and only if all of them are perf commits |
| Commits.SectionsInOrder | component-builder/pipeline-images/changelog/changelog/logg.py:406-415 | the sections that are there come in the order Added, Fixed, Changed |
| Commits.ChangelogShowsTheNew | component-builder/pipeline-images/changelog/changelog/logg.py:522 | of the summaries that are new in the release or on the further branch, those with feat, fix and sus are shown, each by one commit and once, and no other summary is |
| Commits.ChangelogRaisesIff | component-builder/pipeline-images/changelog/changelog/logg.py:557-563 | there is nothing to show, and an exception, exactly if no new summary has one of the four prefixes |
| TitleGrammar.TitleIsReadBack | component-builder/pipeline-images/changelog/changelog/logg.py:163-169 | a title with a digit is taken apart into its own project, number and text, whatever the text contains |
| TitleGrammar.TitleIsReadBackIff | component-builder/pipeline-images/changelog/changelog/logg.py:163-169 | and only a title with a digit is |
| TitleGrammar.ParseTitleIsLazy | component-builder/pipeline-images/changelog/changelog/logg.py:163-169 | of all ways to fit the pattern the one with the shortest type is taken, and among those the one with the shortest project |
| TitleGrammar.ParsedFits | component-builder/pipeline-images/changelog/changelog/logg.py:163-169 | what is parsed from any title fits the pattern and gives the title again |
| TitleGrammar.AcceptedTitlesAreTheirParts | component-builder/pipeline-images/vommit/rules/commit_rules.py:6-7 | a title that the rule accepts is put together again from what was parsed, unless it has no digit |
| TitleGrammar.AcceptedTitlesGiveTheirTicket | component-builder/pipeline-images/changelog/changelog/logg.py:42-59 | an accepted title with five or six digits gives its own ticket and link; with fewer it gives no number and no link |
| TitleGrammar.TicketMeans | component-builder/pipeline-images/changelog/changelog/logg.py:42-59 | a ticket has a project if its prefix is one of the two in any case, a number if that has five or six digits, and a link exactly if it has both |
| TitleGrammar.MDCommit.SetCommitTicketTitle | component-builder/pipeline-images/changelog/changelog/logg.py:152-169 | sets the capitalized title and the ticket together, or neither |
| TitleGrammar.TextIsKeptIff | component-builder/pipeline-images/changelog/changelog/logg.py:75-80 | capitalizing keeps a title's text exactly if it has no capital letter after the first character and does not begin with a small one |
| TitleGrammar.CapitalizeMeans | component-builder/pipeline-images/changelog/changelog/logg.py:75-77 | the stored title has the same letters, the first no small one and the others no capital ones |
| SystemctlParser.ParseSystemctlShow | scripts/diagnostics/diagnostic_util.py:62-82 | the loop reaches the specified state; a key waits exactly while the block is not empty |
| SystemctlParser.WellFormedIsRead | scripts/diagnostics/diagnostic_util.py:66-81 | a well-formed property is read from its lines, whatever was read before |
| SystemctlParser.ParsingUndoesRendering | scripts/diagnostics/diagnostic_util.py:62-82 | parsing the rendered lines of any well-formed properties gives them back |
| SystemctlParser.ReadIsNoLonger | scripts/diagnostics/diagnostic_util.py:62-82 | whatever is read from some lines is no longer than the lines, and a key waits exactly while there is a block |
| SystemctlParser.ReadBackIffWellFormed | scripts/diagnostics/diagnostic_util.py:62-82 | a property is read back from its own lines if and only if it is well formed |
| SystemctlParser.StripTrims | scripts/diagnostics/diagnostic_util.py:66-81 | stripping takes away the spaces at both ends and nothing else |
| SystemctlParser.OpensBlockIff | scripts/diagnostics/diagnostic_util.py:66-81 | a block is opened by a brace that is the first character but spaces |
| SystemctlParser.ClosesBlockIff | scripts/diagnostics/diagnostic_util.py:66-81 | a block is closed by a brace that is the last character but spaces |
| SystemctlParser.LinesOfJoined | scripts/diagnostics/diagnostic_util.py:66-81 | a value of several lines has its lines again when it is split at newlines |
| CatalogOrder.ReorderCatalogInstallList | testing/robotest/lib/Sorter.py:21-32 | the loop terminates although it inserts and pops, and leaves the specified list |
| CatalogOrder.OthersStayInOrder | testing/robotest/lib/Sorter.py:21-32 | all other applications stay, in their order |
| CatalogOrder.AtMostOneViewerAdded | testing/robotest/lib/Sorter.py:27-29 | at most one viewer is added and none is lost |
| CatalogOrder.AgentIsLeftIff | testing/robotest/lib/Sorter.py:30-31 | an agent is left if and only if two stood in a row |
| CatalogOrder.ViewerFirstIff | testing/robotest/lib/Sorter.py:25-31 | all Arkimes have a viewer before them if and only if the first one is not skipped after a removed agent |
| CatalogOrder.WalkPlaces | testing/robotest/lib/Sorter.py:25-31 | the walk over the shifting list does to each position what is said of that position alone |
| CatalogOrder.ArkimeIsServed | testing/robotest/lib/Sorter.py:25-31 | each Arkime stays, and has a viewer before it if and only if it is looked at, or a viewer or a looked-at Arkime comes earlier |
| CatalogOrder.ArkimesAreServed | testing/robotest/lib/Sorter.py:25-31 | that holds of every Arkime, those of the result are those of the list in order, and every looked-at one has a viewer before it |
| CatalogOrder.IsArkimeIff | testing/robotest/lib/Sorter.py:26-27 | the name is compared as a whole and without regard to case |
| CatalogOrder.CountsAre | testing/robotest/lib/Sorter.py:25-31 | one viewer is added exactly if the walk looks at some Arkime without a viewer behind it; the agents left are those that it jumps over |
| CatalogOrder.ViewerRightBefore | testing/robotest/lib/Sorter.py:27-29 | the viewer that is added stands right before its Arkime |
| CatalogOrder.ReorderedList | testing/robotest/lib/Sorter.py:21-32 | all these results for the whole call on any list |
| NaturalOrder.PartsConcat | testing/robotest/lib/Sorter.py:11 | the pieces of a key concatenate to the string |
| NaturalOrder.PartsTakeTurns | testing/robotest/lib/Sorter.py:10-11 | pieces are text without digits and runs of digits in turn |
| NaturalOrder.KeysTakeTurns | testing/robotest/lib/Sorter.py:10-11 | keys start and end with text and alternate with numbers, so comparing them never raises |
| NaturalOrder.KeyLessIsTotal | testing/robotest/lib/Sorter.py:12 | of two keys exactly one is lower unless they are equal |
| NaturalOrder.KeyLessIsTransitive | testing/robotest/lib/Sorter.py:12 | the order of keys is transitive |
| NaturalOrder.NaturalLessIsWeakOrder | testing/robotest/lib/Sorter.py:8-12 | the order of strings is a strict weak order whose ties are the strings with equal keys |
| NaturalOrder.StringLessIff | testing/robotest/lib/Sorter.py:12 | text is lower at the first difference by its character or its end |
| NaturalOrder.NaturalLessIff | testing/robotest/lib/Sorter.py:8-12 | a string comes first if, after equal pieces, it ends or has the lower number or text |
| NaturalOrder.SortsAreNatural | testing/robotest/lib/Sorter.py:8-18 | both sorts keep all values, in the natural order or against it, with ties as they were |
| NaturalOrder.KeyOfNumbered | testing/robotest/lib/Sorter.py:10-11 | the key of text, number and rest |
| NaturalOrder.NumbersCompareByValue | testing/robotest/lib/Sorter.py:8-12 | after the same text, names are in the order of their numbers, whatever follows |
| Resources.NodeResources.constructor | web/backend/app/resources.py:90-116 | a fresh node has its three initial reservations, less those with a zero part |
| Resources.NodeResources.AddReservation | web/backend/app/resources.py:187-200 | allocatable stays capacity minus the accepted reservations |
| Resources.NodeResources.SetCpuAllocatable | web/backend/app/resources.py:180-185 | allocatable CPU is recomputed as capacity minus all reservations |
| Resources.NodeResources.SetMemoryAllocatable | web/backend/app/resources.py:173-178 | allocatable memory is recomputed as capacity minus all reservations |
| Resources.FreshCpuIff | web/backend/app/resources.py:123-155 | c processors leave 850c - 1000 up to twenty and 900c - 2000 above, if and only if memory is enough for its reservations |
| Resources.FreshMemoryIff | web/backend/app/resources.py:123-155 | memory left is the total less twice a twentieth, at most a gibibyte each, and a tenth, at least 500 mebibytes, if and only if the node has a processor or less than 20 KiB |
| Resources.FreshMemoryIsPositive | web/backend/app/resources.py:123-155 | from one gibibyte up there is memory left |
| Resources.PoolTotals | web/backend/app/resources.py:254-289 | capacity minus allocatable of a pool is what all its nodes reserved |
| Addresses.IPAddressManager.GetNextNodeAddressV2 | testing/pipeline/util/network.py:169-185 | the first address is the block's moved up by index and three, each later one is the next |
| Addresses.MovedOctet | testing/pipeline/util/network.py:177-185 | moving an address by text moves its last octet as a number |
| Addresses.InitializeNodeArray | testing/pipeline/models/node.py:158-168 | from a fresh counter the nodes get consecutive addresses |
| Addresses.BlockAddresses | testing/pipeline/models/node.py:128-168 | node i has octet block + number + 3, and no two nodes share an address |
| Addresses.AddressesDiffer | testing/pipeline/util/network.py:183-185 | addresses of a base are equal exactly when their octets are |
| SensorSync.IsRulesetSensorsFieldSynced | testing/robotest/lib/TFPlenumLibrary.py:565-655 | for distinct sensors the flag says exactly whether the target holds, and toggling the returned sensors reaches it |
| SensorSync.SameLengthMeansAll | testing/robotest/lib/TFPlenumLibrary.py:582 | for distinct sensors of the available ones, comparing lengths is comparing sets |
| SensorSync.SizeOfDistinct | testing/robotest/lib/TFPlenumLibrary.py:582 | distinct sensors are as many as the set of them |

## Left out

- AlertTable.ListAlerts: rows whose count cell is no number, which exist only if a field is named count, are ranked as zero; the comparison error of the code is not modelled.
- EveryGroupHasARow: claims completeness only where no level has more than 100 values, because the request asks for no more.
- The retry of the search after a keyword error, which depends on the server's error text, and approximate document counts over shards.
- RowActions.RowsAreTargetedIff: is about rows sent back as they were listed and documents with one value in each field; how the search engine prints the keys of flags and times is not modelled.
- Modify: takes the created case as given; the custom fields of a case are not modelled.
- Match clauses on analysed text (they are equality here), the quoting of values inside update scripts, and the order of statements in a script (each touches a field once).
- AssertionStats.CallbackModule.ProcessAssertResult: groups and hosts are values in the plugin's fields, not shared dictionaries, because nothing else holds a reference to them between events; timing, display and the YAML file are not modelled.
- DiskFillup is a state machine on values and not on task objects; what other tasks still do after an exception has ended the work, the log floods, the replayed captures and the cleanup commands are not modelled.
- SshLiveness.TestNodesUpAndAlive: the asynchronous twin of the loop is the same loop with another sleep; a single node passed instead of a list is wrapped before the loop and not modelled.
- Releases.GitRepo.GetReleases: says nothing of repeated versions, which the mapping of versions to branches cannot tell apart.
- Releases.GitRepo.ReleaseBranches: does not attach the commits of a branch, and the reading of a repository is not modelled.
- `increment_micro`, `latest_commit_hash`, fetching, tables of contents as documents, and the rendering of commits to markdown and HTML.
- TitleGrammar.AcceptedTitlesAreTheirParts: titles are single lines with single spaces; the rules for bodies and trailers are not modelled.
- Digits and case outside ASCII, except for the Kelvin sign, whose lower case is a letter of "arkime".
- Resources.FreshCpuIff: exact arithmetic instead of floating point, because rounding is not what the reservations are about.
- `StoragePool`, the lowest CPU figures of a pool, and pcap storage of a node.
- Addresses.BlockAddresses: octets are not cut off at 255, as the code does not do so either; the search for unused addresses is not modelled.
- SensorSync.IsRulesetSensorsFieldSynced: is about distinct sensors of which the assigned ones are available, as the caller provides them; nothing is claimed of other lists, for which lengths tell nothing.
- `dict_compare` and the other diagnostics, authentication, routing, settings, argument parsing and everything that only talks to other systems.
