# Cloud Custodian core: a verified model

Cloud Custodian reads policies, filters the resources of a cloud account and acts on them. Most of it is calls to
cloud APIs. This project models the parts that decide something or keep state, and proves what they are for:

- **The filter engine** (`c7n/filters/core.py`, `c7n/manager.py`). And/Or/Not blocks evaluate whole lists of resources
  by id, annotate the resource dicts in place and roll the annotations back. `FilterSpec` says what a tree means for
  one resource; `FilterEngine` is the code on a heap of shared resources and annotation lists, proved to mean that.
- **The filter tree** (`c7n/filters/core.py`, `c7n/manager.py`). `FilterTree` says what parents and trimming mean on
  finite forests; `FilterWalk` is the deque traversal, `get_block_parent` and `trim_runtime`, which removes members of
  live lists while a walk over them goes on.
- **Log shipping** (`c7n/log.py`). `LogSpec` is a transition system of the logging thread and the transport thread,
  `LogProof` is about every run of it and `LogProgress` about how its joins end; `LogShipping` is the code, each
  method a step or a run of the system.
- **Policy documents** (`c7n/utils.py`, `c7n/filters/policystatement.py`). `DictMerge`: merge, then compare, decides
  containment. Every list and dict carries a tag saying whether a caller can see it, so that writes can be accounted
  for. `DictPaths` says what a merge has at every path of keys, and when it raises.
- **Off-hours tags** (`c7n/filters/offhours.py`). `TagEscape` is about the nine replace passes, `Schedule` is the
  parser with its cache, `ScheduleGrammar` relates it to the documented language, and `ScheduleExact` says which texts
  are accepted and which are refused.
- **Tags and retries** (`c7n/tags.py`, `c7n/utils.py`, `c7n/lookup.py`). `RenameTag` runs its resource sets in any
  interleaving against a service with a limit of fifty tags; `TagBatches` is about grouping and batching; `Retry`
  covers backoff and the two retry loops that shrink their list.
- **Policy checking, closure and reduction** (`c7n/filters/iamaccess.py`, `c7n/mu.py`, `c7n/filters/core.py`).
  `PolicyChecker` is the code; `PolicyVerdicts` says what makes a statement a violation in terms of its text, and
  `PolicyNetworks` what a longer list of networks does. `PackageDeps` and `ReduceFilter` are the other two.

`Text`, `Sequences` and `Wrappers` hold the string and list operations the others share.

What cannot be seen from the code is a parameter: a leaf's test, a glob match, the answers of a service, the random
numbers, the sort keys. A statement for every such parameter is a statement about every answer the outside can give.

Some properties one might expect do not hold for every input, and the model says when they do:

- Renaming a tag to its own key deletes it from every resource with fewer than fifty tags (`RenameTag.StagesRename`).
- A log group with `=` in its name never receives anything; its records go to the part before the `=`
  (`LogSpec.KeyRoundTrip`, `LogProof.SeparatorInGroupMisroutes`).
- Allowing more accounts, patterns, organizations, units or conditions never makes a violation, but naming a first
  allowed VPC or a first allowed VPC endpoint does: a statement limited to another one becomes a violation, unless
  every spelling of the condition is whitelisted or no action is checked (`PolicyChecker.LargerViolatesLess`,
  `PolicyNetworks.NetworksMayGrow`).
- Unescaping does not undo escaping on a value that already holds an escape sequence (`TagEscape.RoundTrip`).
- Merging a document into itself raises when it holds a null (`DictMerge.MergeSelf`).
- A retry with no attempts falls off its loop and returns nothing when all it may call fails (`Retry.GetRetry`).

## Model

| member | source | states |
|---|---|---|
| FilterSpec.EvalKeeps | c7n/filters/core.py:488-584 | For every tree: no key outside `c7n*` is written, a rejected resource ends as it started, and a Not leaves every resource as it was |
| FilterSpec.EvalIsFormula | c7n/filters/core.py:455-545 | With leaves that do not read annotations, a tree accepts exactly what satisfies its boolean formula, and puts exactly the keys of the leaves that made it hold behind the marks that were there |
| FilterSpec.AnnotateAllMarks | c7n/utils.py:402-420 | Annotating with several keys leaves the old marks followed by all the keys, in order, and no other field changed; a value that is no list stays as it is |
| FilterSpec.RestoreIsIdentity | c7n/filters/core.py:571-584 | Deleting the annotations and putting the saved ones back is a complete rollback when nothing else changed |
| FilterSpec.SatIgnoresAnnotations | c7n/filters/core.py:488-545 | What a tree of such leaves decides and records does not depend on the annotations present before |
| FilterEngine.SetAnnotation | c7n/utils.py:402-420 | Extending the annotation list in place shows on this resource as one more key behind its old marks, every other field as before, and keeps lists unshared |
| FilterEngine.Call | c7n/filters/core.py:708-715 | A value filter called on a live resource decides and annotates as the meaning of a leaf says |
| FilterEngine.ProcessLeaf | c7n/filters/core.py:214-216 | Filtering a list by a leaf keeps the order, decides each resource on its own and touches no other |
| FilterEngine.AnnotationSweeper.constructor | c7n/filters/core.py:553-569 | The snapshot has the contents of all annotations at that time and shares no list with the resources |
| FilterEngine.AnnotationSweeper.Sweep | c7n/filters/core.py:571-584 | Exactly the resources that were not kept get their snapshot back; the kept ones are untouched |
| FilterEngine.ProcessAll | c7n/filters/core.py:494-497 | Narrowing filter by filter, with the early stop, does to each resource what the conjunction means for it, also to those dropped on the way |
| FilterEngine.ProcessAnd | c7n/filters/core.py:488-502 | Bulk And equals the meaning of And on every resource, kept or rolled back, and keeps the order when its members do |
| FilterEngine.ProcessOr | c7n/filters/core.py:469-485 | Bulk Or by id sets equals the meaning of Or on every resource; the result is some order of the accepted ones, each once |
| FilterEngine.ProcessNot | c7n/filters/core.py:522-545 | Bulk Not by id sets returns the others, each once, and leaves all annotations as they were |
| FilterEngine.Process | c7n/filters/core.py:455-545 | For every tree and list with distinct ids, in-place evaluation refines the per-resource meaning and keeps the heap valid |
| FilterEngine.FilterResources | c7n/manager.py:102-121 | A policy's filters keep exactly the resources that satisfy all formulas, each with its old marks followed by exactly the keys that made it pass, and every other field as it was |
| FilterTree.ParentListsNode | c7n/filters/core.py:226-235 | The block found for a filter is the one whose list has it |
| FilterTree.ParentIsUnique | c7n/filters/core.py:226-235 | No other block or the manager lists it |
| FilterTree.CutStep | c7n/filters/core.py:192-199 | A cascading removal is one removal followed by that of the parent when that is left empty |
| FilterTree.DropShape | c7n/filters/core.py:193-196 | Removing a childless filter changes one list, by that filter, and no other |
| FilterTree.TrimOneMore | c7n/filters/core.py:183-191 | Trimming what the walk has seen so far and then one more event filter is one cascading removal |
| FilterTree.TrimKeepsPaths | c7n/filters/core.py:183-200 | Trimming keeps exactly the paths that end in something other than an event filter, with their ancestors and in their order |
| FilterTree.TrimHasNoEvent | c7n/filters/core.py:183-200 | No event filter is left at any depth |
| FilterTree.TrimSurvivors | c7n/filters/core.py:183-200 | A filter survives exactly when some path through it does not end in an event filter; so a block goes exactly when trimming emptied it |
| FilterWalk.FilterIterator.Next | c7n/manager.py:20-29 | One step of the traversal: the head is yielded, and a block's members go to the front in reverse, before an end marker if asked for |
| FilterWalk.ResourceManager.GetBlockParent | c7n/filters/core.py:226-235 | Following the walk with a stack returns the true parent: the manager for its own filters, the block that lists it for the others, nothing for a stranger |
| FilterWalk.ResourceManager.RemoveFilter | c7n/filters/core.py:192-199 | The recursive removal on live lists never fails and leaves the cascading removal of the forest |
| FilterWalk.ResourceManager.TrimRuntime | c7n/filters/core.py:183-200 | Removing members while the walk goes on visits everything that is left, and ends with the trimmed forest: no event filters, other paths kept |
| LogSpec.KeyRoundTrip | c7n/log.py:181-207 | Splitting a buffer key gives back its group and stream exactly when the group has no `=` |
| LogSpec.PutKeepsMoments | c7n/log.py:188-191 | A put sends a permutation of the buffer in time order that keeps the order within one moment |
| LogProof.RunInv | c7n/log.py:87-228 | Every run keeps: unfinished = queued + in hand, one place for every message, an error exactly when a put was given up, markers where the join expects them |
| LogProof.AbsorbOn | c7n/log.py:204-227 | Grouping a drained batch appends to every key exactly its own messages, in order |
| LogProof.Conservation | c7n/log.py:87-228 | In every reachable state without an error, each stream's delivered ++ buffered ++ in hand ++ queued ++ handler buffer is what was logged to it, in order, record by record with its text and its time in whole milliseconds |
| LogProof.StreamReports | c7n/log.py:131-136 | What a stream's records become as events: one for each, in order, with its text and its creation time in milliseconds, cut towards zero |
| LogProof.EmitQueues | c7n/log.py:87-109 | A record is queued with those buffered before it when it is the tenth or comes forty seconds or more after the last; otherwise it waits |
| LogProof.TokensFollow | c7n/log.py:181-202 | After an accepted put or a bad token, the stream's next put uses the token the service named; no other stream's token changes |
| LogProof.RecordsArrive | c7n/log.py:87-228 | For every group name: in every reachable error-free state, what was logged to a stream is at the destination its key splits into, up to what is on its way |
| LogProof.SeparatorInGroupMisroutes | c7n/log.py:181-207 | With `=` in the group name, a run's records arrive under the part before the first `=`, in a stream named after the rest, and none under the group |
| LogProof.FlushDelivers | c7n/log.py:111-117 | When flush can return without an error, the successful puts have exactly the records logged before, each once, with their texts and times |
| LogProof.FlushKeepsMoments | c7n/log.py:111-117 | Then also the calls as sent hold those records, and the ones of one moment in the order they were logged |
| LogProof.FlushThenCloseDelivers | c7n/output.py:399-405 | Flush, then close with no record between, loses nothing in any continuation |
| LogProgress.EveryRunReturns | c7n/log.py:111-127 | From a waiting join, every transport run longer than the fuel of the state plus its bad tokens ends the join, whatever the service answers |
| LogProgress.StepBurns | c7n/log.py:204-228 | While anything is unfinished, every transport step except a bad token uses up fuel, which bounds what is left to do |
| LogProgress.TransportCanMove | c7n/log.py:204-228 | While anything is unfinished the transport is never stuck |
| LogProgress.JoinCanReturn | c7n/log.py:111-127 | From every state of a waiting join there is a transport run after which it returns, and with close the thread has ended |
| LogShipping.Pipeline.Emit | c7n/log.py:87-109 | Emit raises a transport error and changes nothing, or else is the emit step of the system |
| LogShipping.Pipeline.FlushBuffers | c7n/log.py:148-152 | The buffer moves to the queue as one item when it is forced or full enough, and stays otherwise |
| LogShipping.Pipeline.Flush | c7n/log.py:111-116 | Up to the join, flush is a run of two steps, or nothing after shutdown |
| LogShipping.Pipeline.Close | c7n/log.py:119-124 | Up to the join, close is one step, or nothing the second time |
| LogShipping.Pipeline.NextGroup | c7n/log.py:224-226 | The next group is a non-empty run of records with one key |
| LogShipping.Pipeline.Absorb | c7n/log.py:224-226 | Extending the buffers run by run equals adding the batch's records one by one |
| LogShipping.Pipeline.SendOnce | c7n/log.py:181-202 | One attempt to put a group is one step, for every answer of the service |
| LogShipping.Pipeline.SendGroup | c7n/log.py:181-202 | The recursion on bad tokens is a run of the transport that settles exactly this key |
| LogShipping.Pipeline.Send | c7n/log.py:176-179 | Sending all buffers, in any order of the keys, is a run of the transport that leaves none |
| LogShipping.Pipeline.TimedOut | c7n/log.py:208-217 | A timeout sends what is buffered and takes nothing off the queue |
| LogShipping.Pipeline.Turn | c7n/log.py:208-228 | A turn of the loop is a run of the transport that takes at most one item and is through with it |
| LogShipping.Pipeline.TaskDone | c7n/log.py:222-228 | Marking the item in hand done takes one off unfinished; for a shutdown marker the thread ends |
| DictMerge.MergeDecides | c7n/filters/policystatement.py:231-237 | Whenever merging does not raise, the merged document compares equal to the resource's exactly when the required one is recursively included in it |
| DictMerge.MergedValueDecides | c7n/utils.py:1007-1028 | The same for one key both sides have, in every conformable case |
| DictMerge.MergeSelf | c7n/utils.py:994-1029 | Merging a document into itself changes nothing, and is possible exactly when it holds no null |
| DictMerge.MergeAssociative | c7n/utils.py:994-1029 | On dicts and lists merging is associative: either grouping gives the same result or the same refusal |
| DictMerge.MergeOwnsSpine | c7n/utils.py:994-1029 | What merging builds shares an object with its inputs only where comparing it with the original will not write |
| DictMerge.MergeDict | c7n/utils.py:994-1029 | The loop over live entries, in any order, computes the key by key meaning and writes to no object of the caller |
| DictMerge.CompareDicts | c7n/utils.py:1032-1055 | The comparison, which overwrites its first argument as it goes, answers whether both are equal read as sets |
| DictMerge.MatchPartial | c7n/filters/policystatement.py:231-237 | The answer is inclusion, an exception exactly when the resource's element is no dict or merging raises, and no object of either input is written to |
| DictPaths.MergePath | c7n/utils.py:994-1029 | For every path of keys in a successful merge: a path only one document has shows that one's value, a scalar replaces, a list keeps its members and gets the new ones in order |
| DictPaths.MergesExactlyWhen | c7n/utils.py:994-1029 | A merge raises exactly when, at some path that both documents have, their values do not fit together |
| DictPaths.EmptyIsIdentity | c7n/utils.py:994-1029 | Merging with the empty dict, on either side, gives every document back |
| TagEscape.Unescape | c7n/filters/offhours.py:496-500 | Nine replace passes in sequence equal one left-to-right decoding |
| TagEscape.OnePass | c7n/filters/offhours.py:496-500 | No pass creates or destroys an escape sequence of another |
| TagEscape.EscapeIsCode | c7n/filters/offhours.py:205-215 | Each restricted character's escape is u and its own code in hexadecimal |
| TagEscape.RoundTrip | c7n/filters/offhours.py:205-215 | Decoding inverts the documented escaping exactly on the values that hold no escape sequence |
| Schedule.AcceptedIsGood | c7n/filters/offhours.py:640-707 | Whatever parse accepts has a time zone, hours in 0..23 and non-empty lists of distinct days in 0..6 |
| Schedule.ScheduleParser.Parse | c7n/filters/offhours.py:640-670 | Over any sequence of calls a cached answer equals an uncached one, and only accepted answers are cached |
| Schedule.ScheduleParser.ParseResourceSchedule | c7n/filters/offhours.py:677-694 | The loop returns the items of all entries, or nothing as soon as one is bad |
| ScheduleGrammar.GrammarIsUnderstood | c7n/filters/offhours.py:104-128 | Every text of the documented grammar parses to exactly the days and hours it lists, with the default zone when it names none |
| ScheduleGrammar.ExpandMeant | c7n/filters/offhours.py:696-707 | A day range expands to the days from the first to the last around the week |
| ScheduleGrammar.SpanIsCyclic | c7n/filters/offhours.py:703-707 | The wrap-around branch and the plain one are the same cyclic range |
| ScheduleGrammar.ComponentMeant | c7n/filters/offhours.py:640-694 | One component, with or without brackets, parses to its entry |
| ScheduleExact.ParseIsExact | c7n/filters/offhours.py:613-707 | A tag is accepted, with a given schedule, exactly when it is written as one: known keys only, hours below 24 in decimal, days that are one day or a range of two, the last entry of a key, and the default zone if it names none |
| ScheduleExact.BadPieceIsRefused | c7n/filters/offhours.py:650-662 | A tag with a piece that is no entry is refused |
| ScheduleExact.BadItemIsRefused | c7n/filters/offhours.py:677-694 | One item that is none makes its whole entry none |
| ScheduleExact.BadHourIsRefused | c7n/filters/offhours.py:686-690 | An hour of 24 or more, or that is no number, makes an item none |
| ScheduleExact.BadDaysAreRefused | c7n/filters/offhours.py:696-707 | So do days that are no single day and name fewer or more than two |
| ScheduleExact.AcceptedKeys | c7n/filters/offhours.py:613-648 | An accepted tag without blanks has no keys but on, off and tz |
| PackageDeps.ScanName | c7n/mu.py:339-344 | The scan returns the leading name of a requirement, or all of it when one other character is last |
| PackageDeps.NameIsLeadingRun | c7n/mu.py:339-344 | The name is the leading run of name characters, and free of others, exactly when what follows is not a single last character |
| PackageDeps.NameOfRequirement | c7n/mu.py:339-344 | A name followed by anything that starts with another character is what is required, unless that is all that follows |
| PackageDeps.OptionalExact | c7n/mu.py:336-338 | A requirement is skipped exactly when it has a semicolon and the word extra somewhere |
| PackageDeps.PackageDeps | c7n/mu.py:327-353 | On an acyclic graph the recursion ends; it adds only what the package reaches, keeps the shared list ordered and free of repeats, and covers the package's requirements |
| PackageDeps.GenerateRequirements | c7n/mu.py:310-312 | One list shared by all roots ends with exactly the packages reachable through counted requirements, each once and after all its own |
| PackageDeps.ClosedUnderPaths | c7n/mu.py:327-353 | A list in which everything comes after its requirements has all that can be reached from what it covers |
| PackageDeps.AcyclicMeansRanked | c7n/mu.py:327-353 | No package requires itself, however indirectly, exactly when packages can be numbered so that requirements have smaller numbers, on which the recursion ends |
| RenameTag.StagesRename | c7n/tags.py:683-708 | The three calls move the value to the new key and change nothing else exactly when the keys differ or the resource was full; otherwise they delete the tag |
| RenameTag.StageFits | c7n/tags.py:695-708 | After none of the calls has a resource more than fifty tags, a full one included |
| RenameTag.StageIs | c7n/tags.py:683-708 | The tags after each call: below fifty tags the new one is created before the old is deleted, otherwise after |
| RenameTag.TagsOfValue | c7n/tags.py:710-718 | The value of a key is the last one listed for it |
| RenameTag.CreateSet | c7n/tags.py:710-718 | The sets partition the resources by the old key's value, in listed order |
| RenameTag.FilterResources | c7n/tags.py:720-726 | Exactly the resources that carry the old key are kept, in order |
| RenameTag.CallKeeps | c7n/tags.py:683-708 | A call of one set moves that set's resources to their next stage and touches no other, whatever the other sets have done |
| RenameTag.NeverOverLimit | c7n/tags.py:683-747 | However far the sets have got, no resource is over the limit |
| RenameTag.RunsAgree | c7n/tags.py:739-746 | Every interleaving keeps the limit at every point, and all complete ones leave the same tags |
| RenameTag.RunSets | c7n/tags.py:738-746 | The worker pool, with any unfinished set going next, makes every call of every set; a set stops at a failed call and the others go on; the service never refuses a call for its limit |
| RenameTag.Process | c7n/tags.py:728-747 | Whatever the order and whichever calls fail, each resource ends after the calls its set made and no other changes; with no failure it is renamed exactly when the keys differ or it was full |
| RenameTag.ValueSurvives | c7n/tags.py:695-708 | A set that stops after some call has lost the value exactly when it had deleted a full resource's tag and not yet created the new one, or had renamed a tag to itself, and the new key did not hold the value before |
| Retry.DelayPerAttempt | c7n/utils.py:498-530 | The ceiling derived from the attempts leaves room for a delay per attempt |
| Retry.TotalIs | c7n/utils.py:521-530 | The first n delays before jitter add up to start times (2 to the n, less 1) |
| Retry.BackoffDelays.Next | c7n/utils.py:521-530 | A delay is in the top fifth below the current bound, and there is one exactly while the bound is within the ceiling |
| Retry.GetRetry | c7n/utils.py:498-518 | The calls are ended by the first answer that is not retryable or, with attempts to count, by raising the last failure; a value is returned, an ignored code returns nothing, any other is raised; it falls off its loop exactly when there are none and every call the delays allow fails retryably |
| Retry.SleepIsBounded | c7n/utils.py:498-530 | With n attempts the sleeps add up to at most min_delay times (2 to the n - 1, less 1) |
| Retry.RetrySkipBadIds | c7n/tags.py:67-81 | Every call sends fewer ids than the last and never none; it succeeds only with the original ids minus those named bad, and raises only if a failure names none of them |
| Retry.UniversalRetry | c7n/tags.py:1447-1491 | At most six calls, each with exactly the ARNs the last one throttled; it returns only if every ARN was tagged or reported gone, gives up only on ARNs all six throttled, and never runs out of delays |
| Retry.TriesMore | c7n/tags.py:1467-1491 | What a call does not throttle is settled for good, and what it throttles every earlier call throttled |
| Retry.SentAgain | c7n/tags.py:1471-1491 | A later call is sent exactly the ARNs that came back as throttled |
| Retry.OutcomeOfCodes | c7n/tags.py:1465-1488 | A response means only resources that are gone were left out; errors are exactly the other codes; throttled ARNs are given up only after the sixth call |
| TagBatches.Chunks | c7n/utils.py:294-303 | The batches concatenate to the input, all full but possibly the last, none empty |
| TagBatches.ResolveResourceTags | c7n/tags.py:165-179 | In any order of the specifications: the payload, or an error exactly when some lookup has neither value nor fallback |
| TagBatches.ResolveAndGroup | c7n/tags.py:146-163 | The groups partition the resources with a non-empty payload by payload, in listed order |
| TagBatches.TagSet | c7n/tags.py:265-283 | The batches, in any order, are each tried once, also after one has failed; exactly the ones whose call went through are written, and it is all of them unless a call failed |
| TagBatches.Process | c7n/tags.py:588-604 | With no failed call, grouping and batching leave the tags that tagging each resource alone leaves; if some lookup fails, nothing is written; after a failed call each resource has all of its payload or none of it |
| TagBatches.DefaultsNeverOverwrite | c7n/lookup.py:76-80 | A conditional default leaves a tag that is present as it is, and writes one that is absent |
| TagBatches.FoundValueWins | c7n/lookup.py:64-113 | A found value is written, the fallback only when nothing is found, and tags that are not asked for stay |
| TagBatches.ResolvableExact | c7n/lookup.py:64-113 | Resolving fails exactly when a lookup without fallback finds nothing, or a conditional default without one has no tag to keep |
| PolicyChecker.HandlePrincipal | c7n/filters/iamaccess.py:139-173 | The loops over types and ids, in any order, find a violation exactly when there is no principal or some non-service id is not allowed |
| PolicyChecker.HandleConditions | c7n/filters/iamaccess.py:175-245 | A statement is excused exactly when all conditions are known and each holds or, next to an organization condition that holds, names nobody new |
| PolicyChecker.Check | c7n/filters/iamaccess.py:104-123 | The one pass collects the violations, or the others, in order |
| PolicyChecker.CheckPartitions | c7n/filters/iamaccess.py:104-123 | The two lists together are the statements, and each statement is in the one its verdict says |
| PolicyChecker.OrderOfConditions | c7n/filters/iamaccess.py:175-275 | The verdict does not depend on the order or repetition of conditions |
| PolicyChecker.LargerViolatesLess | c7n/filters/iamaccess.py:119-343 | Allowing more accounts, patterns, organizations, units or conditions, with networks fixed or grown from a non-empty list, never makes a violation |
| PolicyChecker.LargerFindsSubsequence | c7n/filters/iamaccess.py:104-117 | The violations under the larger configuration are a subsequence of those under the smaller |
| PolicyVerdicts.ViolatesExactlyWhen | c7n/filters/iamaccess.py:119-343 | For every statement and configuration: a violation is an allow of an action of interest to an outsider, whose conditions are missing, unknown, or neither met nor excused by an organization, each said of the text alone |
| PolicyVerdicts.AccountExact | c7n/filters/iamaccess.py:41-46 | The account is what stands between the fourth and the fifth colon, or all of a text with fewer |
| PolicyVerdicts.AccountOfArn | c7n/filters/iamaccess.py:41-46 | In an arn built from fields, it is the fifth field |
| PolicyVerdicts.OpenToAllViolates | c7n/filters/iamaccess.py:139-173 | A grant to `*`, or to nobody in particular, without a condition that counts is a violation under every configuration |
| PolicyVerdicts.OneIdViolates | c7n/filters/iamaccess.py:156-173 | A grant to one id that is not exempt is a violation exactly when `everyone_only` is off and the id's account is not allowed |
| PolicyVerdicts.KeyDecides | c7n/filters/iamaccess.py:233-343 | For one condition the exact verdict by its key, for accounts, source address, endpoints, networks, organizations and their paths; an unknown key is a violation |
| PolicyVerdicts.OrganizationExcuses | c7n/filters/iamaccess.py:205-231 | Next to an allowed organization, a condition on a principal is a violation exactly when it names an outsider without a wildcard; any other condition still has to be met |
| PolicyVerdicts.PathExact | c7n/filters/iamaccess.py:313-324 | A path is allowed exactly when it starts in an allowed organization, or in that of an allowed unit and passes it |
| PolicyNetworks.NetworksMayGrow | c7n/filters/iamaccess.py:293-301 | For VPCs and for VPC endpoints: a longer list makes no statement a violation exactly when it is not a first one, or the condition is whitelisted in every spelling, or no action is checked |
| PolicyNetworks.NamingNetworksForbidsOthers | c7n/filters/iamaccess.py:293-301 | A statement whose one condition names another network is allowed by the empty list and a violation under any other |
| PolicyNetworks.ExemptIsSafe | c7n/filters/iamaccess.py:234-245 | With the condition whitelisted in every spelling, the list of networks does not matter |
| ReduceFilter.LimitGroup | c7n/filters/core.py:1181-1197 | A group loses what discard and discard-percent say, and of the rest the first are taken up to both caps |
| ReduceFilter.Limit | c7n/filters/core.py:1170-1198 | The groups' parts are concatenated in group order, each computed from its own size |
| ReduceFilter.GroupResources | c7n/filters/core.py:1096-1104 | The groups partition the resources by group value, in listed order, with the key of the first |
| ReduceFilter.Process | c7n/filters/core.py:1086-1094 | The result is the concatenation over the ordered groups of each arranged group's slice; for a random order, of some arrangement |
| ReduceFilter.EveryGroupSliced | c7n/filters/core.py:1086-1198 | What is returned of a group depends on that group alone: its slice, after discarding, up to the smaller cap |
| ReduceFilter.NoneTwice | c7n/filters/core.py:1086-1198 | No resource is returned more often than it was given, random order included |
| ReduceFilter.KeptSortFirst | c7n/filters/core.py:1170-1206 | In asc and desc order a kept resource sorts no later than every one cut after it and no earlier than every one discarded |
| ReduceFilter.LargestSlice | c7n/filters/core.py:1181-1197 | As many are discarded as the number or the percentage lets be, and of the rest as many kept as both caps let be |
| ReduceFilter.PercentExact | c7n/filters/core.py:1183-1194 | A percentage of a count is rounded down |
| ReduceFilter.NamesInFirstOrder | c7n/filters/core.py:1096-1104 | Every group once, those of earlier resources first |
| ReduceFilter.SlicesFollow | c7n/filters/core.py:1170-1198 | The slices follow each other as the groups do |
| Sequences.ReversedAt | c7n/filters/core.py:1200-1204 | The reverse order puts the last resource first |
| Sequences.SortIsStable | c7n/filters/core.py:1200-1206 | Sorting keeps the order of elements with one key, also in descending order, which sorts by the negated key |

## Left out

- Nothing here talks to a cloud service: clients, sessions, pagination, credentials and archives are not modelled, and
  a service is a map from ids to tags, or a function that gives its answers.
- Command line, schema generation, plugin loading and the resource definitions: wiring.
- Filter engine: a resource's id is one constant field (no dotted id expressions), ids are distinct, and blocks have a
  manager; the fallback for blocks without one is left out.
- Filter engine: leaves are value filters. `resource_count`, which counts a whole list, and other filters that
  annotate or take resources away in bulk are left out; annotations are lists of strings or plain values.
- Filter engine: at the start no annotation list sits in two places, neither of one resource nor of two.
- Filter tree: filter objects are not shared between blocks, and only event filters and blocks matter to trimming.
- Log shipping: nothing is logged after close, records of loggers whose name starts with `boto` are not seen, and the
  threads are interleaved step by step.
- LogShipping.Pipeline.SendGroup: after `retries` bad tokens the service answers something else, because the code
  would recurse without end; a put refused as already accepted is taken to have added nothing.
- DictMerge.MergeDecides: elements of lists are scalars, because the comparison fails on lists of lists or dicts.
  Objects are values with a tag for who can see them; aliasing inside one input is not modelled.
- The rest of statement matching (counting matched keys, case of actions, keys of conditions) is left out.
- Off-hours: digits, letters and lower case are ASCII; looking up a time zone and stripping quotes from a tag are left
  out.
- PackageDeps.GenerateRequirements: it stops at the list of packages; version lookup, `exclude` and `include_self` are
  left out. No requirement is the empty string, on which the scan fails or reuses an old index, and letters and digits
  are ASCII.
- PackageDeps.PackageDeps: a cyclic requirement graph is left out; the recursion does not end on one that it reaches.
- RenameTag.Process: a failed call has no effect, nobody else changes the tags, and the listing is current.
- Retry.GetRetry: with no attempts and no delay the loop need not end; this, and negative numbers, are left out.
- Retry.UniversalRetry: the service names only ARNs it was asked about, and the ARNs of a call are a set.
- Delays, percentages and numbers are exact; rounding of floats is not modelled.
- TagBatches.Process: a failed call has no effect, and ids dropped inside a call are not seen; an empty mapping of
  tags writes nothing.
- PolicyChecker.Check: keys that are configured empty and keys that are missing are the same, as in the code; a
  statement has an Effect, and an Action if actions are checked; a condition key never spells the name of one of the
  checker's other methods.
- ReduceFilter.Process: resources are not empty dicts, which the code drops, and discard and limit are whole numbers.
- Extracting sort keys, JMESPath, regular expressions and date parsing are left out; keys, tests and matches are
  parameters.
- Tag trimming, renaming with only an old key and the security group action are left out.
