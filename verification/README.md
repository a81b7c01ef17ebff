# external-dns, modelled and proved in Dafny

external-dns keeps DNS records in line with what cluster resources ask for. This project models
the parts that decide and carry out changes, and proves what they promise:

- **The planner** (`Targets`, `TargetsInPlace`, `Records`, `PlanSpec`, `Planner`). Current and
  desired endpoints are filed in a table of rows (normalized name and set identifier), conflicts
  are resolved per record type, and creates, updates and deletes are emitted, put through the
  policies and filtered by owner. `Planner` is the program's own form: a table object whose map is
  updated in place, endpoint objects whose owner label is written, and rows and types visited in
  an arbitrary order. `PlanSpec` says, cell by cell, what the result must be.
- **Reconciliations** (`Reconcile`, `Runs`, `Conflicts`, `Outcomes`, `Displacement`). The provider is a map
  from cell (row and record type) to record. A turn lists it, plans and applies; a run interleaves
  turns of any instances with any desired records. Here are convergence, ownership safety, CNAME
  exclusivity, resource stickiness, the policy guarantees and when the winner of a conflict is
  determined. `Outcomes` says of every cell what a turn leaves in it, in terms of the fields of the
  records alone.
- **Route 53 submission** (`Route53`, `Route53Submit`, `Route53Queue`, `Route53Updates`). Grouping,
  next-fit packing under three limits, the transactional calls with their group-by-group fallback,
  the failed queue and what it misses, and delete/create pairs. The API accepts or rejects each call as it likes.
- **Cloudflare submission** (`Cloudflare`, `CloudflareSubmit`, `CloudflareChanges`,
  `CloudflareEffect`). Target diffing, classification into three parallel lists, chunking with
  three cursors, replay of rejected chunks call by call, and what the zone holds afterwards.
- **Planner and submission together** (`Composition`). A turn planned on a state that a Cloudflare
  zone shows, submitted without a failed call, leaves the zone showing the next state, and so does
  every run of turns.
- **Smaller parts**: event throttling (`Throttle`), hostname overlap (`Gateway`), reverse-lookup
  names (`Arpa`), the label format (`Labels`) and endpoint merging (`Merge`).
- **Shared**: `Sorting` (stable sort, minimum, filters), `Strings` (order, cut, split, join,
  decimals), `Arithmetic` (division) and `Wrappers` (Option, Result).

Standing assumptions, all visible as `requires`: a listing names every cell of the state once
(`Reconcile.IsListing`), the state holds only managed types (`ValidState`), the domain filter gives
one answer per normalized name (`NamesAgree`), desired and current endpoints are distinct objects,
and, where order matters, targets are canonical: lower-case, addresses as the library prints them.
Name normalization, address parsing and printing, case folding, the domain filter and the parsers
of booleans and MX targets are parameters.

What the proofs found, for readers of the code, each with the exact condition under which the code
does what one would expect:

- `Targets.Same` returns at the first pair of spellings of one address and never looks at the rest:
  [0:0:0:0:0:0:0:1, a] and [::1, b] count as the same (`Targets.SameCanSkipDifference`). It
  compares position by position where no position holds two spellings of one address
  (`Targets.SameComparesPairs`), and for all continuations of two prefixes exactly when their first
  unequal position is not such a pair (`Targets.SameExactly`). Canonical targets have none.
- An upsert-only or create-only instance can put a CNAME beside other records
  (`Displacement.UpsertOnlyBreaksExclusivity`), exactly when it may claim the row and wants the other
  kind there (`Runs.ExclusiveWithoutDeletes`).
- Which candidate wins a conflict can depend on the order of the desired records
  (`Conflicts.TtlFollowsOrder`). It does not exactly when every eligible candidate that ties with the
  winner equals it (`Conflicts.CreateDeterminedExactly`, `Conflicts.UpdateDeterminedExactly`); the
  winner's targets never depend on it.
- A rejected Route 53 batch that holds a single group counts as failed but is not queued for retry
  (`Route53Queue.RejectedChangeNotQueued`). The queue holds every change not accepted exactly when no
  batch was rejected for good as a whole (`Route53Queue.QueueCompleteExactly`); it does so whatever the
  API answers exactly when no batch of the zone is a single group
  (`Route53Queue.QueueAlwaysCompleteExactly`).
- 200 is documented as the default Cloudflare batch size (provider/cloudflare/cloudflare_batch.go:29-31),
  but the code takes the larger of the setting and 200 (line 331). Batch calls respect the setting for
  all change lists exactly when it is at least 200 (`CloudflareSubmit.SettingRespectedExactly`). The
  model follows the code.
- `Difference` lists a repeated desired target as one to add even when it is already present; its
  lists are clean exactly when desired repeats no target (`CloudflareChanges.AddedExactly`).
- An event between the acceptance of a run and the recording of its start can bring the next run
  closer than `MinEventSyncInterval` (`Throttle.EventInWindowNarrows`, `Throttle.WideSpacingExactly`).
  Spacing holds of accepted runs; recorded starts can be closer by the delay of the earlier one, and no
  closer (`Throttle.RecordedStartsAreSpaced`, `Throttle.RecordedStartsCanBeClose`).
- Hosts are matched as spelled: with and without a trailing dot one name does not match itself
  (`Gateway.TrailingDotApart`). Matching agrees with matching the names behind the spellings exactly when
  both or neither end in a dot, or the names do not match (`Gateway.RootDotExactly`).
- The reverse name of an IPv4 address in IPv6 form with a prefix cannot be read back, and every such
  block shares its name with another (`Arpa.NameReadsBackExactly`, `Arpa.MappedNameShared`).
- A label whose value ends in a quote, printed last, loses the quote when read back
  (`Labels.RoundTripExactly`).
- Merging merged endpoints again can join two of them (`Merge.SecondMergeCanJoin`), exactly when two
  CNAMEs of one name, set identifier and TTL that were kept apart by their first targets have the same
  least target (`Merge.MergeAgainExactly`).

`dafny verify dfyconfig.toml` checks the whole project.

## Model

| member | source | states |
|---|---|---|
| `Targets.IsLessStrictWeakOrder` | endpoint/endpoint.go:174-224 | on canonical targets the list comparison is a strict weak order, and two lists tie exactly when they sort to the same list |
| `Targets.SortTargetsUnique` | endpoint/endpoint.go:113-125 | on canonical targets every permutation of a target list sorts to one sequence, so stable and unstable sorting agree |
| `Targets.SortTargetsAscend` | endpoint/endpoint.go:113-125 | sorting canonical targets permutes them into ascending byte order |
| `Targets.SortTwoExactly` | endpoint/endpoint.go:113-125 | any two targets change places exactly when the second is the smaller byte string, two addresses compared as they are printed |
| `Targets.FirstDifferenceDecides` | endpoint/endpoint.go:186-221 | of two lists of one length, the first sorted position where they differ decides: an address before a name, IPv4 before IPv6, then the smaller value and zone; of names the smaller byte string |
| `Targets.ShorterIsLess` | endpoint/endpoint.go:175-180 | the shorter list is less, whatever the targets |
| `Strings.LessExactly` | endpoint/endpoint.go:219 | a string is less exactly when the first position where the two differ holds a smaller byte, or it is a proper prefix |
| `Targets.SameIsMultisetEquality` | endpoint/endpoint.go:133-167 | on canonical targets Same is equality of the two lists as multisets |
| `Targets.SameReflexive` | endpoint/endpoint.go:133-167 | any list, canonical or not, is the Same as itself |
| `Targets.SameComparesPairs` | endpoint/endpoint.go:141-166 | where no position holds two spellings of one address, the comparison loop compares position by position |
| `Targets.SameExactly` | endpoint/endpoint.go:141-166 | for every continuation of two prefixes the comparison is position by position, exactly when the first unequal position of the prefixes is not two spellings of one address |
| `Targets.SameCanSkipDifference` | endpoint/endpoint.go:159-162 | [0:0:0:0:0:0:0:1, a] and [::1, b] are the Same for any address library that reads the two spellings as one address |
| `TargetsInPlace.CompareSame` | endpoint/endpoint.go:141-166 | the loop computes the comparison specified for sorted lists |
| `TargetsInPlace.CompareLess` | endpoint/endpoint.go:183-223 | the loop decides at the first position where two sorted lists differ: an address before a name, IPv4 before IPv6, then the smaller value and zone; of names the smaller |
| `TargetsInPlace.Same` | endpoint/endpoint.go:133-167 | the answer, and that both lists are left sorted when their lengths agree and untouched otherwise, also when they are one list |
| `TargetsInPlace.IsLess` | endpoint/endpoint.go:174-224 | a shorter list is less; of equally long ones the first sorted difference decides in that order; both lists are left sorted when their lengths agree and untouched otherwise, also when they are one list |
| `TargetsInPlace.SortingIsHarmless` | endpoint/endpoint.go:133-224 | on canonical targets the sorting left behind by a comparison changes no later comparison |
| `Records.ProviderSpecificExactly` | plan/plan.go:336-354 | properties count as unchanged exactly when the current names are unique and both lists denote one name-to-value map |
| `Records.PropertyMapExactly` | plan/plan.go:337-341 | the map of a property list holds, for each name, the value of its last property |
| `Records.FirstPropertyExactly` | endpoint/endpoint.go:328-338 | a lookup finds the first property of the name, if there is one |
| `PlanSpec.ResolvedExactly` | plan/conflict.go:65-100 | a type of a row keeps all its candidates in order, unless it is CNAME and the row wants another type: then it keeps none |
| `PlanSpec.LastIsHeld` | plan/plan.go:124-128 | of several current records of one type the last listed is the one held |
| `PlanSpec.RemoveDuplicatesExactly` | endpoint/endpoint.go:555-571 | what is kept is exactly the first endpoint of every name, type and set identifier, in order |
| `PlanSpec.PoliciesStrip` | plan/policy.go:35-59 | any list of policies keeps all creates, and keeps updates and deletes as a whole or drops them as a whole, by which policies occur in it |
| `PlanSpec.FinishInSlot` | plan/plan.go:221-235 | policies, owner filters and duplicate removal act on each cell separately |
| `Reconcile.ApplyAt` | registry/txt/registry.go:337-349 | applying a plan changes each cell only by the changes projected to that cell |
| `Reconcile.PlanDecides` | plan/plan.go:201-238 | on a listing of the state, a plan projected to a cell is one decision from what the cell holds, what is wanted there and whose row it is |
| `Reconcile.WantedSeesRow` | plan/plan.go:363-378 | where something is wanted in a row, the instance sees every record of that row |
| `Runs.TurnCases` | plan/plan.go:201-309 | after a turn a cell is as before, updated by its owner, deleted by its owner, or created in a free cell of a claimable row |
| `Runs.TurnValid` | plan/plan.go:201-238 | a turn leaves every record filed under its own cell and of a managed type |
| `Runs.ChangesAreDisjoint` | plan/plan.go:201-309 | no cell occurs in two of Create, UpdateNew and Delete or twice in one; creates only where nothing is, updates and deletes name the record that is there |
| `Runs.WinnerWinsAgain` | plan/conflict.go:40-56 | whichever candidate won is chosen again against a record carrying its resource label |
| `Outcomes.WantedExactly` | plan/conflict.go:65-100 | the candidates of a cell are the visible desired records of its row and type, in order, and there are none exactly when nobody asks for the type, or it is CNAME and the row asks for another type |
| `Outcomes.OccupiedExactly` | plan/plan.go:201-298 | a turn fills a free cell exactly when it is asked for and every visible record of the row is the instance's own; it frees a cell exactly when nobody asks for it, the record is visible and owned, and no policy forbids deletes |
| `Outcomes.NeedsUpdateExactly` | plan/plan.go:303-354 | no update is needed exactly when the TTL is unset or equal, the targets are the same, the current property names are unique with equal values, and no old owner ID calls for a rewrite |
| `Outcomes.HeldExactly` | plan/plan.go:300-334 | a record that stays is rewritten to the winning candidate, with its own owner label, exactly when somebody asks for the cell, the instance owns it, no policy forbids updates and it is not up to date; otherwise it is kept as it was |
| `Outcomes.CreatedExactly` | plan/plan.go:279-284 | a free cell is filled with the winning candidate, field by field, under the owner label of the instance |
| `Outcomes.RowHoldsWanted` | plan/plan.go:201-309 | under sync, in a row the instance sees and owns, a cell is occupied exactly when a visible desired record asks for it (and, for CNAME, none asks for another type), and the record there has the winner's configured TTL, its targets as a multiset and its properties by name, or all its fields where an old owner calls for a rewrite |
| `Runs.Convergence` | plan/plan.go:166-309 | planning again after applying, with the same desired records, gives no creates, no deletes and no change in any update, under any policy and with owned and foreign records mixed |
| `Runs.TurnKeepsExclusive` | plan/conflict.go:65-100 | a turn whose policies exclude neither updates nor deletes keeps every row either only CNAME or without CNAME |
| `Runs.RunKeepsExclusive` | plan/conflict.go:65-100 | so does every run of such turns, in every state, with blocked creates and filtered deletes |
| `Runs.ExclusiveWithoutDeletes` | plan/policy.go:43-59 | without deletes a turn keeps exclusivity exactly when it fills no claimable cell beside a record of the other kind |
| `Displacement.UpsertOnlyBreaksExclusivity` | plan/policy.go:43-49 | an upsert-only turn by the owner of an address record puts a CNAME beside it |
| `Runs.TurnRespectsOwners` | plan/plan.go:229-269 | only the owner changes or removes a record, updates keep the owner label, creates go into rows that hold no other owner's record |
| `Runs.RegistryFilterKeepsPlan` | registry/txt/registry.go:337-343 | the registry's own owner filter takes nothing out of a plan made for the same owner |
| `Runs.RunKeepsForeign` | endpoint/endpoint.go:535-550 | a record owned by A stays exactly as it is through any number of turns by instances other than A |
| `Runs.RunKeepsOwnerLabel` | plan/plan.go:315-323 | while a cell stays occupied its owner label never changes |
| `Runs.RunKeepsResource` | plan/conflict.go:47-56 | while a resource keeps wanting a record it holds, in turns that could write it, the record keeps that resource label |
| `Runs.RunWithoutDeletesKeepsCells` | plan/policy.go:43-59 | no run of upsert-only or create-only instances loses a cell |
| `Runs.RunCreateOnlyKeepsRecords` | plan/policy.go:55-59 | no create-only run alters an existing record |
| `Conflicts.CreateIsHeadOfSort` | plan/conflict.go:40-42 | the created candidate is the head of the stable sort, and no candidate is less than it |
| `Conflicts.UpdateIsMinOfOwn` | plan/conflict.go:47-56 | the update is the least candidate of the current resource, or the least of all when it has none |
| `Conflicts.CreateIsBest` | plan/conflict.go:40-42 | no candidate has fewer targets than the created one; among single targets an address wins over a name, IPv4 over IPv6, then the smaller value and zone, and of names the smaller byte string; longer lists compare at their first sorted difference |
| `Conflicts.UpdateIsBest` | plan/conflict.go:47-56 | the same of the update, among the candidates whose resource label the record carries, or among all when there are none |
| `Conflicts.WinnerIgnoresOrder` | plan/conflict.go:40-56 | the winner's targets in both resolvers are the same for every permutation of the candidates |
| `Conflicts.TurnsAgree` | plan/plan.go:201-309 | two turns from one state with permuted desired records, listings and row orders leave the same cells with the same targets |
| `Conflicts.CreateDeterminedExactly` | plan/conflict.go:40-42 | the created record is the same for every order of the candidates exactly when every candidate that ties with the winner equals it |
| `Conflicts.UpdateDeterminedExactly` | plan/conflict.go:47-56 | the same of the update, among the candidates of the holding resource, or all when it has none |
| `Conflicts.TtlFollowsOrder` | plan/conflict.go:103-111 | two candidates with tied targets and different TTLs: the winning TTL depends on their order |
| `Planner.PlanTable.constructor` | plan/plan.go:97-99 | a new table has no rows |
| `Planner.PlanTable.NewPlanKey` | plan/plan.go:137-154 | makes room for an endpoint's row and type without disturbing the table |
| `Planner.PlanTable.AddCurrent` | plan/plan.go:124-128 | files a current endpoint: the table then holds the extended list, rows and groups included |
| `Planner.PlanTable.AddCandidate` | plan/plan.go:130-135 | files a desired endpoint likewise |
| `Planner.ResolveCreateObject` | plan/conflict.go:40-42 | the chosen object says what the specified resolver picks |
| `Planner.ResolveUpdateObject` | plan/conflict.go:47-56 | the chosen object says what the specified resolver picks |
| `Planner.DetectConflict` | plan/conflict.go:66-81 | the flag loop finds a conflict exactly when some candidate object is a CNAME and some is not |
| `Planner.ResolveRecordTypes` | plan/conflict.go:65-100 | every type of the row keeps its current object, and its candidate objects of that type in order, unless it is CNAME and some candidate is not: then it has none |
| `Planner.PropertiesChanged` | plan/plan.go:336-354 | the loop over a shrinking map computes the specified comparison |
| `Planner.UpdateNeeded` | plan/plan.go:303-304 | false exactly when the TTL is unset or equal, the targets are the same, the current property names are unique with equal values, and no old owner ID calls for a rewrite |
| `Planner.AppendEndpointUpdates` | plan/plan.go:300-309 | appends the update pair with the inherited owner label, or nothing |
| `Planner.AppendType` | plan/plan.go:273-298 | one record type adds exactly its specified changes |
| `Planner.CalculateRow` | plan/plan.go:273-298 | the type loop of a taken row, in any order, adds what every type calls for |
| `Planner.OwnersMatchObjects` | plan/plan.go:255-266 | the flag loop says whether every current endpoint of the row is the instance's own |
| `Planner.AppendRow` | plan/plan.go:246-270 | the row's lists are appended, its creates only under an ownership claim |
| `Planner.PlanRow` | plan/plan.go:204-222 | each of the three kinds of row produces exactly its specified changes |
| `Planner.RowsLoop` | plan/plan.go:204-223 | the row loop, in any order, produces in every row what the row calls for |
| `Planner.ApplyPoliciesObject` | plan/plan.go:225-227 | the policies in turn |
| `Planner.FilterEndpointsByOwnerID` | endpoint/endpoint.go:535-550 | the loop keeps exactly the endpoints with that owner label, in order |
| `Planner.RemoveDuplicateObjects` | endpoint/endpoint.go:555-571 | the visited-set loop keeps the first endpoint of every key |
| `Planner.FinishChanges` | plan/plan.go:225-237 | policies and owner filters together |
| `Planner.FinishKeepsPairs` | plan/plan.go:225-235 | UpdateOld and UpdateNew stay equally long and agree index by index on row and type although each is filtered alone |
| `Planner.FilterRecordsForPlan` | plan/plan.go:363-378 | the loop keeps what the domain filter and the managed types admit |
| `Planner.BuildTable` | plan/plan.go:173-178 | the table holds exactly the visible current and desired endpoints |
| `Planner.CalculateChanges` | plan/plan.go:201-238 | the list of changes meets the cell-by-cell specification |
| `Planner.Calculate` | plan/plan.go:166-199 | whatever order rows and types are visited in, the result is a plan for the endpoints as they were, and only owner labels of desired endpoints change |
| `Route53.BatchingConserves` | provider/aws/aws.go:1213-1265 | the batches together are the input minus the groups that alone exceed a limit |
| `Route53.SurvivingExactly` | provider/aws/aws.go:1213-1243 | a change is kept exactly when the changes that belong with it stay within the three limits together |
| `Route53.BatchingAtomic` | provider/aws/aws.go:1213-1285 | every batch respects all three limits, splits no group and lists UPSERTs before DELETEs before CREATEs |
| `Route53.BatchWithinLimits` | provider/aws/aws.go:1213-1265 | the number of changes in a batch, the sum of their bytes and the sum of their values are within the three limits |
| `Route53.BatchOrderExactly` | provider/aws/aws.go:1267-1285 | in a batch UPSERTs precede DELETEs and these CREATEs; changes of one action ascend by name, and those of one name by type |
| `Route53.BatchesAscend` | provider/aws/aws.go:1219-1232 | the batches of a change set ascend by the name of the record that their changes belong to |
| `Route53.SameKeyExactly` | provider/aws/aws.go:1158-1168 | two changes share a group exactly when they have one name and neither is a registry record, are registry records of one record, or are a record and its registry record |
| `Route53.BatchCountBound` | provider/aws/aws.go:1213-1265 | at most 2(N/(S+1) + B/(Sb+1) + V/(Sv+1)) + 1 batches |
| `Route53.EmptyBatches` | provider/aws/aws.go:1213-1265 | an empty batch comes only from an empty change set |
| `Route53.PairTravelsTogether` | provider/aws/aws.go:1158-1168 | a DELETE and a CREATE of one group share every call, DELETE first |
| `Route53.GroupChanges` | provider/aws/aws.go:1158-1168 | every change is in a group of the map, and a group holds, in order, exactly the changes of its name that are no registry records and the registry records of that name |
| `Route53.BatchChangeSet` | provider/aws/aws.go:1213-1265 | the method computes a batching in the specified sense |
| `Route53Submit.QueueSplits` | provider/aws/aws.go:1134-1153 | the two result lists partition the changes |
| `Route53Submit.FindChangesInQueue` | provider/aws/aws.go:1134-1153 | the nested loops compute that partition, in order: found are exactly the changes that are in the queue |
| `Route53Submit.AcceptedAtMostOnce` | provider/aws/aws.go:731-822 | every surviving change is accepted at most as often as it was asked for |
| `Route53Submit.NilIffAllAccepted` | provider/aws/aws.go:718-823 | the call returns nil exactly when every surviving change of every zone was accepted |
| `Route53Submit.QueueIsRejected` | provider/aws/aws.go:779-798 | a zone's queue afterwards is exactly what its group-by-group calls rejected |
| `Route53Queue.QueueCompleteExactly` | provider/aws/aws.go:772-801 | after a zone, the queue holds exactly the surviving changes that were not accepted exactly when every batch rejected as a whole held two changes that do not belong together |
| `Route53Queue.QueueAlwaysCompleteExactly` | provider/aws/aws.go:746-811 | that holds for every behaviour of the API exactly when every batch of the zone holds two such changes |
| `Route53Queue.RejectedChangeNotQueued` | provider/aws/aws.go:772-801 | one change that fits and is rejected: the zone fails and the queue stays empty |
| `Route53Queue.RelatedTravelTogether` | provider/aws/aws.go:731-822 | in every call of a submitted zone, two submitted changes so related, both new or both from the queue, occur together or not at all |
| `Route53Queue.FallbackCallsAreRelated` | provider/aws/aws.go:775-795 | any two changes of one group-by-group call are so related |
| `Route53Queue.FallbackFollowsRejection` | provider/aws/aws.go:772-795 | a group-by-group call comes after a rejected call for a whole batch, and tries only changes of that batch |
| `Route53Queue.CallsWithinLimits` | provider/aws/aws.go:746-801 | every call of a zone, retries included, stays within the three limits |
| `Route53Submit.AWSProvider.constructor` | provider/aws/aws.go:743-744 | a provider starts with no calls made and no queue |
| `Route53Submit.AWSProvider.ChangeResourceRecordSets` | provider/aws/aws.go:762-772 | one transactional call, accepted or rejected as a whole and logged |
| `Route53Submit.AWSProvider.SubmitGroups` | provider/aws/aws.go:775-795 | every group is tried once and the rejected ones are queued |
| `Route53Submit.AWSProvider.SubmitBatch` | provider/aws/aws.go:772-801 | a batch is tried as a whole and then, if rejected and of several groups, group by group |
| `Route53Submit.AWSProvider.SubmitBatches` | provider/aws/aws.go:746-811 | the log of a batch list accounts for exactly its changes |
| `Route53Submit.AWSProvider.SubmitZone` | provider/aws/aws.go:733-815 | the log, the queue and the failure flag of a zone account for exactly its surviving changes |
| `Route53Submit.AWSProvider.SubmitChanges` | provider/aws/aws.go:718-823 | every zone is submitted once in any order, with a good outcome each, and nil is returned iff no zone failed |
| `Route53Updates.CreateUpdateChanges` | provider/aws/aws.go:658-683 | creates, then upserts, then deletes of the split update pairs |
| `Route53Updates.RequiresDeleteCreateExactly` | provider/aws/aws.go:623-656 | an update is replaced exactly when type or set identifier change, an A record becomes or stops being an alias or changes its kind, or a routing property comes or goes |
| `Route53Updates.NewChangeExactly` | provider/aws/aws.go:942-988 | a change names the record and the record it belongs to; bytes and values count its targets, only the first for an alias, and double for an UPSERT |
| `Route53Updates.SplitKeepsPairs` | provider/aws/aws.go:663-676 | the k-th delete and the k-th create come from one update that cannot be made in place |
| `Route53Updates.SplitCovers` | provider/aws/aws.go:663-676 | every update that can be made in place is upserted, and every other is in deletes and creates at one index |
| `Route53Updates.ReplacementInChanges` | provider/aws/aws.go:658-683 | both halves of every replacement are submitted |
| `Route53Updates.ReplacementTravelsTogether` | provider/aws/aws.go:1158-1168 | in every call of a zone submitted with the changes of plan updates that are not waiting in the failed queue, both halves of a replacement within one group occur, DELETE first, or neither does |
| `Cloudflare.StepsEffect` | provider/cloudflare/cloudflare_batch.go:374-447 | operations that each find what they need put every index into the state its last operation asks for and leave the others, with record IDs looked up beforehand |
| `Cloudflare.UnambiguousFits` | provider/cloudflare/cloudflare_batch.go:374-447 | with deletes before creates, changes find what they need when no index is touched twice except by a delete and a create |
| `CloudflareSubmit.PiecesConcat` | provider/cloudflare/cloudflare_batch.go:110-149 | the pieces concatenate to the whole list |
| `CloudflareSubmit.PiecesCount` | provider/cloudflare/cloudflare_batch.go:110-149 | there are ceil(total/limit) pieces |
| `CloudflareSubmit.PiecesShape` | provider/cloudflare/cloudflare_batch.go:110-149 | every piece but the last has exactly limit elements and none is empty |
| `CloudflareSubmit.NextChunk` | provider/cloudflare/cloudflare_batch.go:117-145 | one turn takes as many deletes as fit, then puts, then posts, with their changes |
| `CloudflareSubmit.ChunkBatchChanges` | provider/cloudflare/cloudflare_batch.go:110-149 | the chunks are the pieces of deletes ++ puts ++ posts, the change lists are cut at the same places, and the loop ends |
| `CloudflareSubmit.BuildBatchCollections` | provider/cloudflare/cloudflare_batch.go:269-316 | each list holds exactly its kind of change in order, aligned entry by entry with its parameters; changes whose record is missing are skipped |
| `CloudflareSubmit.OrderedPermutes` | provider/cloudflare/cloudflare_batch.go:269-316 | classification loses and duplicates no live change |
| `CloudflareSubmit.OrderedByRank` | provider/cloudflare/cloudflare_batch.go:269-316 | deletes come first, then updates of A, AAAA, CNAME, TXT, MX and NS records, then creates, then the other updates |
| `CloudflareSubmit.BatchCallsCount` | provider/cloudflare/cloudflare_batch.go:323-334 | the number of batch calls is the number of operations over the setting, or over 200 if that is larger, rounded up |
| `CloudflareSubmit.PiecesAligned` | provider/cloudflare/cloudflare_batch.go:105-109 | cutting parameters and changes at the same places keeps them aligned |
| `CloudflareSubmit.Client.BatchDNSRecords` | provider/cloudflare/cloudflare_batch.go:67-69 | a batch is applied as a whole in execution order or not at all |
| `CloudflareSubmit.FallbackIndividualChanges` | provider/cloudflare/cloudflare_batch.go:382-447 | every change of the chunk is tried once, in order deletes, updates, creates; the flag says whether one was rejected |
| `CloudflareSubmit.SubmitChunk` | provider/cloudflare/cloudflare_batch.go:336-348 | a chunk takes effect as a batch or call by call, each operation at most once |
| `CloudflareSubmit.SubmitDNSRecordChanges` | provider/cloudflare/cloudflare_batch.go:323-372 | the batch calls are the chunks under the limit in use; every live change gets exactly one final verdict; the accepted ones, in order, make the new zone; failed iff one was rejected |
| `CloudflareSubmit.SettingRespectedExactly` | provider/cloudflare/cloudflare_batch.go:323-334 | batch calls respect the configured size for all change lists exactly when it is at least 200 |
| `CloudflareSubmit.SubmitZoneChanges` | provider/cloudflare/cloudflare.go:579-590 | classification and submission together |
| `CloudflareChanges.Difference` | provider/provider.go:97-112 | the three lists by position, the removed ones in any order without repetition |
| `CloudflareChanges.DifferencePartitions` | provider/provider.go:97-112 | added and left positions together are the desired list |
| `CloudflareChanges.LeftExactly` | provider/provider.go:97-112 | the targets left alone are the common ones, each once |
| `CloudflareChanges.AddedExactly` | provider/provider.go:97-112 | the added targets are exactly the new ones, each once, exactly when desired repeats no target |
| `CloudflareChanges.AppendTargets` | provider/cloudflare/cloudflare.go:443-451 | one change per target, in order, skipping MX targets that do not parse; each has the content and priority its target names, the endpoint's TTL if configured and 1 otherwise, and the proxied flag of its settings |
| `CloudflareChanges.NewChangeExactly` | provider/cloudflare/cloudflare.go:704-808 | a target gives no change exactly when it is an MX target that does not parse; otherwise name, type, content, priority, TTL and proxied flag follow from the endpoint's fields, and LOC, MX, NS, SPF, TXT and SRV are never proxied |
| `CloudflareChanges.AppendUpdate` | provider/cloudflare/cloudflare.go:465-496 | an update pair expands to deletes, creates and updates of its diffed targets |
| `CloudflareChanges.BuildChanges` | provider/cloudflare/cloudflare.go:437-513 | the change list is, endpoint by endpoint, the expansion of the plan, deletes first only with custom hostnames |
| `CloudflareChanges.JobsInOrder` | provider/cloudflare/cloudflare.go:437-513 | with custom hostnames all deletes come first, otherwise last, and creates come before updates |
| `CloudflareEffect.UpdateWorks` | provider/cloudflare/cloudflare.go:465-496 | the changes of a fitting update touch only its cell, no index twice except to replace a record, and ask for exactly the desired contents, MX priorities included |
| `CloudflareEffect.SubmittedView` | provider/cloudflare/cloudflare_batch.go:323-447 | what each index holds after a submission in which no individual call failed |
| `CloudflareEffect.PlanTakesEffect` | provider/cloudflare/cloudflare_batch.go:269-447 | whichever chunks are rejected, if every individual call succeeds each planned name and type holds exactly one record for each content that a target names, with the endpoint's TTL, proxied flag and MX priority, deleted ones hold nothing, and all others are untouched; an MX target may change its priority alone |
| `CloudflareEffect.ApplyToZone` | provider/cloudflare/cloudflare.go:437-590 | building, classifying, chunking and submitting a plan, when it reports no failure, leaves every planned name and type with exactly the records its endpoint asks for, field by field, and all others as they were |
| `Composition.TurnFitsZone` | provider/cloudflare/cloudflare.go:437-513 | a planned turn on a state that the zone shows gives paired updates and jobs on distinct cells, each fitting the zone |
| `Composition.ZoneFollowsTurn` | provider/cloudflare/cloudflare.go:437-590 | planning and submitting without a failed call takes a zone that shows a state to one that shows exactly the next state: one record for each target, with the TTL, proxied flag and priority that the state's record says |
| `Composition.ZoneFollowsRun` | provider/cloudflare/cloudflare.go:437-590 | through any run of turns of any instances, each carried out, the zone shows the state of the planner |
| `Throttle.Earliest` | controller/controller.go:139-146 | the least of the times |
| `Throttle.Latest` | controller/controller.go:148-155 | the greatest of the times |
| `Throttle.Controller.ScheduleRunOnce` | controller/controller.go:158-168 | the locked step of an event |
| `Throttle.Controller.ShouldRunOnce` | controller/controller.go:170-178 | the locked step of the loop and its answer |
| `Throttle.Controller.StartRun` | controller/controller.go:72-74 | the locked step at the start of a run |
| `Throttle.RunsAreSpaced` | controller/controller.go:158-178 | in every interleaving accepted runs are at least min(Interval, 5s) apart |
| `Throttle.RecordedStartsAreSpaced` | controller/controller.go:72-74 | recorded starts are that far apart, less the delay with which the earlier one was recorded |
| `Throttle.RecordedStartsCanBeClose` | controller/controller.go:158-178 | a run in which they are no farther apart than that |
| `Throttle.RunsAreWidelySpaced` | controller/controller.go:72-74 | with no event between acceptance and start, at least min(Interval, MinEventSyncInterval) apart |
| `Throttle.EventInWindowNarrows` | controller/controller.go:158-168 | a run in which an event in that window brings the next run closer |
| `Throttle.WideSpacingExactly` | controller/controller.go:72-178 | all continuations keep the wider spacing exactly when the start, or the bound it was given, already lies that far out; of the events in the window only the first counts |
| `Throttle.EventBoundHolds` | controller/controller.go:158-168 | after an event at t, until the next run, a run is due by max(latest lastRunAt + MinEventSyncInterval, t + 5s), whatever events follow |
| `Throttle.EventIsServed` | controller/controller.go:170-178 | a poll at or after that bound has seen a run accepted since the event |
| `Gateway.IsDNS1123Label` | source/gateway.go:919-933 | the index loop accepts exactly the labels |
| `Gateway.LabelBounds` | source/gateway.go:919-933 | a label has 1 to 63 bytes, letters and digits anywhere, hyphens only inside |
| `Gateway.CutLoopExactly` | source/gateway.go:906-916 | cutting label by label ignores one trailing dot and nothing else |
| `Gateway.DomainBounds` | source/gateway.go:906-916 | a name of one-byte labels is a domain exactly up to 128 labels, that is 255 bytes |
| `Gateway.IsDNS1123Domain` | source/gateway.go:906-916 | the cut loop accepts exactly the domain names |
| `Gateway.ToLowerCaseASCII` | source/gateway_hostname.go:19-46 | scan and rewrite give the string with A-Z lowered, invalid sequences included |
| `Gateway.LowerExactly` | source/gateway_hostname.go:19-46 | no capital is left, every capital becomes its own small letter, and every other character stays |
| `Gateway.MatchingHostSymmetric` | source/gateway.go:865-887 | the order of the two hosts does not matter, for all inputs |
| `Gateway.MatchingHostExactly` | source/gateway.go:865-887 | a result is one of the hosts and covers exactly the names both cover; no result for valid hosts means no name is covered by both |
| `Gateway.CoversExactly` | source/gateway.go:860-887 | a wildcard covers the names below it, however deep, and not the name itself; any other host covers itself alone; the empty host covers everything |
| `Gateway.MatchingNeedsHosts` | source/gateway.go:865-898 | hosts match only if each is empty, or a domain name, perhaps after a wildcard label, and no address |
| `Gateway.TrailingDotApart` | source/gateway.go:890-898 | any one valid host name with and without a trailing dot does not match itself |
| `Gateway.RootDotExactly` | source/gateway.go:865-898 | matching as spelled agrees with matching without trailing dots exactly when both or neither host ends in one, or the stripped hosts do not match |
| `Arpa.ReverseAddr` | pkg/rfc2317/arpa.go:101-122 | the printed name is the reversed octets or half-bytes, each followed by a dot, and the suffix |
| `Arpa.CidrToInAddr` | pkg/rfc2317/arpa.go:30-92 | name or error of a parsed block |
| `Arpa.AcceptedExactly` | pkg/rfc2317/arpa.go:30-92 | a block is refused, with the error of the first test it fails, exactly when bits are set beyond the mask, the mask is empty, or it ends at no octet, last octet or half-byte |
| `Arpa.V4NameExactly` | pkg/rfc2317/arpa.go:30-92 | the name of an IPv4 block: its octets inside the mask, last first, and for masks within the last octet that octet, a slash and the mask in front |
| `Arpa.V6LabelExactly` | pkg/rfc2317/arpa.go:65-91 | label by label, the name of an IPv6 block: its half-bytes inside the mask, last first, in hexadecimal, and the suffix |
| `Arpa.DocumentedNames` | pkg/rfc2317/arpa.go:25-29 | the names of 10.20.30.0/24, of the classless 10.20.30.0/25 and of 2001::/16 |
| `Arpa.BareAddressName` | pkg/rfc2317/arpa.go:31-45 | a bare address gets its full reverse name |
| `Arpa.NameIsLabels` | pkg/rfc2317/arpa.go:65-91 | an accepted name is the labels inside the mask, joined |
| `Arpa.NameReadsBackExactly` | pkg/rfc2317/arpa.go:30-92 | a decoder recovers the block from its name exactly when the address is not IPv4 in IPv6 form |
| `Arpa.NamesAreDistinct` | pkg/rfc2317/arpa.go:30-92 | different blocks, not of that form, have different names |
| `Arpa.MappedNamesCollide` | pkg/rfc2317/arpa.go:78-91 | two blocks of that form, both named "arpa" |
| `Arpa.MappedNameShared` | pkg/rfc2317/arpa.go:78-91 | every accepted block of that form shares its name with another accepted block |
| `Arpa.NamesNest` | pkg/rfc2317/arpa.go:65-91 | a smaller network's name ends in a dot and the name of every network around it on an octet or half-byte boundary |
| `Labels.SerializePlain` | endpoint/labels.go:108-127 | the text is the heritage token and one token per label but the nonce, in key order, quoted or not |
| `Labels.PrintedExactly` | endpoint/labels.go:108-127 | the text is heritage=external-dns and then external-dns/key=value for every label but the nonce, keys strictly ascending, separated by commas and perhaps quoted |
| `Labels.KeysUnique` | endpoint/labels.go:113-117 | the text does not depend on the order in which the map is walked |
| `Labels.NewLabelsFromStringPlain` | endpoint/labels.go:60-87 | the token loop computes the specified reading or error |
| `Labels.ParsedExactly` | endpoint/labels.go:60-87 | reading fails exactly when no token is heritage=external-dns or some token names another heritage; otherwise each label has the value of the last token that gives it |
| `Labels.TrimQuotesExactly` | endpoint/labels.go:62 | all quotes come off both ends and nothing else |
| `Labels.RoundTripExactly` | endpoint/labels.go:60-127 | reading the printed labels gives the map without the nonce exactly when no key holds a comma or equals sign, no value a comma, and the value printed last does not end in a quote |
| `Merge.Gather` | endpoint/utils.go:148-178 | each key maps to its first object, which has gathered the targets and references of the key; a list may name one object several times |
| `Merge.MergeEndpoints` | endpoint/utils.go:140-188 | the first object of every key comes back, once, with the merged targets and references; every object that does not come back is untouched |
| `Merge.FirstExactly` | endpoint/utils.go:148-178 | an endpoint comes back exactly when it is no CNAME without targets and none before it has its name, type, set identifier, TTL and, for CNAMEs, first target |
| `Merge.MergedExactly` | endpoint/utils.go:140-188 | it keeps its fields but the targets, now the union of those that agree with it, sorted without repetition, and the references, to which those of the others are added, each once |
| `Merge.UnionExactly` | endpoint/utils.go:181-185 | the merged targets are the union over the key, strictly increasing |
| `Merge.MergeAgain` | endpoint/utils.go:140-188 | with at most one target per CNAME, merging merged endpoints again changes none |
| `Merge.MergeAgainExactly` | endpoint/utils.go:140-188 | merging merged endpoints again changes none exactly when no two CNAMEs of one name, set identifier and TTL with different first targets have the same least target |
| `Merge.SecondMergeCanJoin` | endpoint/utils.go:156-162 | two CNAMEs that the first merge keeps apart and the second merge joins |

## Left out

- `Planner.UpdateNeeded`: takes the targets of an endpoint as a value; that the comparison leaves them sorted is modelled in `TargetsInPlace`, and `TargetsInPlace.SortingIsHarmless` says that on canonical targets this changes no later comparison.
- `Runs.Convergence`: does not model the registry's relabelling of records of an old owner ID when they are read (registry/txt/registry.go:266); without an owner ID it asks for no old owner ID and unique provider-specific names.
- `Planner.Calculate`: does not model the reset of the managed types on the returned plan, nil as opposed to empty label maps, the metrics and the debug log.
- `Route53Submit.AWSProvider.SubmitChanges`: leaves out hosted-zone lookup, evaluation of aliases into several zones, tags, sleeps between batches and context cancellation; what is retried is compared by identity, so only the partition is claimed.
- `Route53Updates.CreateUpdateChanges`: a change carries its action, name, type, ownership key and sizes, not the full record set.
- `CloudflareSubmit.SubmitZoneChanges`: leaves out custom hostnames, regional hostnames, dry runs, and the pause between chunks.
- `CloudflareChanges.BuildChanges`: a record carries name, type, content, TTL, proxied flag and priority; comments and tags are not modelled, and all endpoints are taken to lie in one zone.
- `CloudflareEffect.PlanTakesEffect`: covers plans that name no target twice in one record, because the code then asks for one record twice (`CloudflareChanges.AddedExactly`), and no two MX targets of one record with the same host, which the lookup by name, type and content cannot tell apart.
- `Throttle.RunsAreSpaced`: times are those of the locked steps in lock order; a clock read before a long wait for the lock is not modelled.
- `Gateway.ToLowerCaseASCII`: takes the decoded runes as a parameter; decoding UTF-8 is not modelled.
- `Arpa.CidrToInAddr`: starts from parsed bytes; the text parser and its error are not part of this model.
- `Labels.RoundTripExactly`: covers the plain format; encryption and compression are not part of this model.
- `Merge.MergeEndpoints`: leaves out the warning about several CNAMEs of one name and the sharing of slices between endpoints.
- The registry is modelled by its effect on the state: it stamps its owner ID on creates, and its own owner filter takes nothing out (`Runs.RegistryFilterKeepsPlan`); TXT records and caches are not part of this model.
- `Composition.ZoneFollowsTurn`: a state carries the TTL that was asked for; that the provider reads an automatic TTL back as 1 is not modelled. It covers states Cloudflare can express: no set identifiers, one spelling per name, and the same two conditions on targets.
- Sources, informers, the remaining providers, domain filters, zone finding, flags and metrics are not part of this model: they are plumbing around the decisions above or simpler variants of them.
