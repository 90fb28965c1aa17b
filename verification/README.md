# TableTheory, modelled and proved in Dafny

TableTheory is an object mapper for DynamoDB. Around the service calls it has a distributed
lease, a small query compiler, an update-expression printer with a matching parser,
optimistic locking, retry loops over partial failures, two limiters, two attribute-value
codecs and cursor paging. This project models those parts and proves what each is for.

The table is a map from key to item with atomic conditional writes; services are function
parameters bound only by what they may answer, so a theorem about a loop holds for every
pattern of failures and unprocessed requests. Concurrency is a transition system over atomic
steps, and the theorems range over every interleaving. Expressions are read through the names
and values maps that travel with them, so two fragments that fight over a placeholder show up
as a changed meaning.

| file | what it holds |
|---|---|
| `Lease.dfy` | acquire, refresh, release; clients with skewed clocks; mutual exclusion and fencing |
| `TokenBucket.dfy`, `BatchLimiter.dfy` | the two limiters |
| `Expressions.dfy`, `Builder.dfy`, `Groups.dfy`, `GroupCalls.dfy` | expression syntax and meaning; the mutable builder and its placeholders; one filter group; any sequence of filters and nested groups |
| `Compile.dfy`, `Reads.dfy` | index choice, key/filter split, the compiled query; what it finds in a table, and First by GetItem |
| `Spellings.dfy`, `IndexChoice.dfy` | what each spelling of an operator means to the author of a condition, up to whole queries and guards; which index is read and what becomes its key, by names and spellings |
| `Guards.dfy`, `Versioned.dfy` | the guards of updates and transaction operations; the version guard, and runs of versioned updates |
| `UpdateText.dfy`, `UpdateEncryption.dfy`, `EncryptedUpdates.dfy`, `UpdateReading.dfy` | update expressions as text, printed and parsed again; the encryption pass; the pass on everything a builder can build; the text read back, placeholders looked up, against the calls |
| `BatchGet.dfy`, `BatchWrite.dfy`, `TableCopy.dfy` | the partial-failure loops |
| `Wrappers.dfy`, `AttributeValues.dfy`, `Base64.dfy`, `Codecs.dfy`, `Paging.dfy` | codecs and paging |

## What the proofs found

Seven natural statements are false of the code as it is. For each there is a failing input,
given to the modelled code, and the exact condition under which the code does what is expected.

- A refresh may store an earlier expiry than the one its client was told (a shorter duration,
  or a slower clock). Exclusion holds as long as no refresh does so to an expiry its client was
  told, or is about to be told, and no clock has reached yet (`Lease.ExclusionUnderSkew`), and
  every one that does can be followed by a second holder
  (`Lease.ShorteningRefreshBreaksExclusion`). Clients that refresh one call at a time
  and never ask for less are safe (`Lease.DisciplinedExclusion`).
- Two case variants of a reserved word share a placeholder (`Expressions.CaseVariantsCollide`,
  `Expressions.NameSafeIffClashFree`).
- A filter group overwrites its parent's placeholders. Earlier conditions keep their meaning if
  and only if the two sequences of calls used the same operands and the same unreserved names
  turn by turn (`Groups.GroupSwallowsFilter`, `Groups.GroupSafeIff`); for any sequence of filters
  and nested groups, if and only if no placeholder is given to two different things
  (`GroupCalls.CallsReadRightIff`).
- A Where condition left to the filter becomes optional after `OrFilter`
  (`Reads.WhereAfterOrIsOptional`; exact condition in `Compile.CompilationPreservesMeaning`).
- `Execute` drops the operator of `OrCondition`, `ExecuteWithResult` keeps it. The two guards
  agree on every item when no OrCondition follows the first condition (`Guards.ExecutesAgree`),
  and can be told apart for every other list of operators (`Guards.ExecutesSeparate`,
  `Guards.ExecuteDropsOr`).
- `First` by GetItem and by Query differ on a repeated key attribute
  (`Reads.RepeatedKeyDiverges`), on a case variant of its name
  (`Reads.CaseVariantKeyDiverges`) and on an operator with a space around it
  (`Reads.SpacedOperatorDiverges`); the exact condition is `Reads.FastPathAgreesIff`.
- ADD and DELETE on a path inside an encrypted attribute are not refused, while SET is
  (`EncryptedUpdates.NestedAddSlipsThrough`, `EncryptedUpdates.NestedSetIsRefused`; exactly the unnested ones are refused,
  `UpdateEncryption.PartsMeanCalls`).

## Model

| member | source | states |
|---|---|---|
| Lease.Manager.AcquireKey | pkg/lease/lease.go:181-244 | succeeds if and only if the input passes and there is no row, or its expiry second has come by the caller's clock; LeaseHeld exactly on a live row; the lease returned and stored ends in the second the duration does; writes only that row; afterwards every clock before the expiry is refused, and none from the end of the duration on |
| Lease.Manager.Refresh | pkg/lease/lease.go:246-317 | succeeds if and only if the row carries the token and its expiry second has not come; LeaseNotOwned exactly otherwise; the new expiry, returned and stored, is the second in which the duration ends; a refresh without TTL keeps the stored TTL |
| Lease.Manager.Release | pkg/lease/lease.go:319-364 | removes the row only if the token still owns it, is otherwise silent, and afterwards the token owns nothing |
| Lease.WriteMeansCall | pkg/lease/lease.go:181-364 | in a run, the write of a call does what the call alone does: a free or expired row is acquired, an owned unexpired one refreshed, an owned one released, with the expiry its duration ends in told and stored; anything else is left alone |
| Lease.TakeoverMeansExpired | pkg/lease/lease.go:216-229 | whoever loses a row to an acquire has expired at true time up to the skew |
| Lease.SweepMeansExpired | pkg/lease/lease.go:198-214 | a TTL sweep comes at least the whole-second TTL buffer after the expiry |
| Lease.StepKeepsPromises | pkg/lease/lease.go:181-364 | every step of every client keeps each live promise backed by the row, except a refresh that shortens one |
| Lease.RunKeepsInvariant | pkg/lease/lease.go:181-364 | token bookkeeping and row shape hold after every run |
| Lease.ExclusionUnderSkew | pkg/lease/lease.go:181-364 | in every interleaving with clocks within eps of true time, two tokens never both hold one key if holders stop 2*eps early and no refresh shortens a live promise |
| Lease.ShorteningRefreshBreaksExclusion | pkg/lease/lease.go:246-317 | the side condition is needed in every case: from any reachable state, a refresh that shortens a live expiry its client was told, or that a reply under way will tell it, has a continuation with two holders |
| Lease.DisciplinedExclusion | pkg/lease/lease.go:246-317 | exclusion for clients that refresh one call at a time and never ask for less |
| Lease.ExclusionWithoutSkew | pkg/lease/lease.go:181-364 | with true clocks plain exclusion up to the second told, as long as no refresh shortens a live promise, despite truncation to seconds and delays between clock and write |
| Lease.OwnershipIsOneInterval | pkg/lease/lease.go:211-359 | fencing: once a token has lost a key it never owns it again, so no later refresh or release of it changes that row |
| Lease.SweepSparesLiveLeases | pkg/lease/lease.go:198-214 | on the shared clock a sweep never removes an unexpired lease |
| TokenBucket.SimpleLimiter.Allow | pkg/protection/simple_rate_limiter.go:30-55 | the new state and answer are those of one bucket step at the time read |
| TokenBucket.FutureBound | pkg/protection/simple_rate_limiter.go:30-55 | tokens left plus whole intervals bound the calls allowed in every future |
| TokenBucket.AllowedSinceCreation | pkg/protection/simple_rate_limiter.go:18-55 | at most burst + floor((t - t0)/r) calls since creation, for every call sequence |
| TokenBucket.AllowedInWindow | pkg/protection/simple_rate_limiter.go:30-55 | at most burst + 1 + floor((t - s)/r) calls in any window of any run |
| TokenBucket.WindowBoundIsReached | pkg/protection/simple_rate_limiter.go:30-55 | for every burst and every interval of at least two units some window reaches that bound |
| TokenBucket.BurstExactly | pkg/protection/simple_rate_limiter.go:30-55 | of n calls at one moment exactly min(n, max, tokens + whole intervals since the last refill) are allowed |
| TokenBucket.SpacedCallsAllowed | pkg/protection/simple_rate_limiter.go:30-55 | a caller that waits a whole interval before each call is never refused |
| BatchLimiter.StepKeepsCounting | pkg/protection/resource_limiter.go:215-268 | every atomic step keeps slots and gauge equal to the goroutines that hold them, and accounts for every finished call |
| BatchLimiter.StepKeepsHighWater | pkg/protection/resource_limiter.go:215-268 | every atomic step keeps the maximum a bound on all counts seen, and never lowers it |
| BatchLimiter.LimitHolds | pkg/protection/resource_limiter.go:215-268 | in every interleaving 0 <= gauge <= occupied slots <= capacity, and accepted plus rejected is finished plus those still in the loop |
| BatchLimiter.MaximumIsHighWater | pkg/protection/resource_limiter.go:245-262 | the maximum never falls and is the largest count any finished acquire saw |
| BatchLimiter.LoopTerminates | pkg/protection/resource_limiter.go:245-262 | a lost compare-and-swap means the maximum rose, so an acquire loses fewer than capacity of them |
| BatchLimiter.DrainedLimiterIsFree | pkg/protection/resource_limiter.go:265-268 | with nobody inside, all slots are free, the gauge is zero and the totals balance |
| BatchLimiter.RejectedNeverEnters | pkg/protection/resource_limiter.go:215-233 | a batch over the size limit or the rate is counted as rejected and, whatever the others do, never reaches a slot before it asks again |
| BatchLimiter.FreeSlotAdmits | pkg/protection/resource_limiter.go:235-262 | one within the limits gets in when a slot is free, counted once in slots, gauge and total, and raises the maximum exactly if it is the most |
| BatchLimiter.FullLimiterRefuses | pkg/protection/resource_limiter.go:235-248 | with every slot taken all that can happen to a waiting batch is a counted rejection |
| BatchLimiter.ReleaseFrees | pkg/protection/resource_limiter.go:265-268 | a release gives back exactly one count and one slot, and a slot is then free |
| Expressions.ChainAppendAnds | internal/expr/builder.go:397-407 | appending ANDs to a printed chain strengthens only the run after its last OR |
| Expressions.AndsMeanAll | internal/expr/builder.go:397-407 | conditions joined by AND mean all of them |
| Expressions.RefsDistinct | internal/expr/builder.go:664-716 | different counters give different placeholders, and no word placeholder is a counter placeholder |
| Expressions.NameAddedKeeps | internal/expr/builder.go:624-680 | a name without a case variant resolves to the field asked for and changes no earlier binding |
| Expressions.NameSafeIffClashFree | internal/expr/builder.go:664-680 | a new name is safe if and only if no reserved part is a case variant of a bound word or of another part |
| Expressions.CaseVariantsCollide | internal/expr/builder.go:664-680 | `name` then `Name` rebind the one placeholder #NAME |
| Expressions.AtomDecodes | internal/expr/builder.go:492-716 | a fragment of a clean name and fresh operands reads back as exactly what was asked |
| Expressions.DecodeStable | internal/expr/builder.go:386-442 | growing the maps never changes what an emitted fragment says |
| Builder.Builder.AddName | internal/expr/builder.go:624-680 | reuses a placeholder of the whole name, else binds each dotted part in turn, stopping at a refused one |
| Builder.Builder.AddValue | internal/expr/builder.go:690-716 | binds the next value placeholder, or nothing when the value does not convert |
| Builder.Builder.BuildCondition | internal/expr/builder.go:492-621 | a fragment exactly when validator, operator and operands are accepted, made of the name and fresh operands; an error leaves at most unused bindings |
| Spellings.ConditionMeansSpelling | internal/expr/builder.go:492-621 | for every condition: taken exactly when its operator is a known spelling, in any case, with operands to match; what is then printed, evaluated with real comparisons, holds of exactly the items the spelling names: equal, unequal, below, at most, above, at least, between, among, beginning with, containing, present, absent |
| Spellings.FiltersMeant | internal/expr/builder.go:195-205 | what Filter and OrFilter calls leave evaluates, call by call, to what they spell |
| Builder.Builder.AddKeyCondition | internal/expr/builder.go:185-192 | one key request: succeeds exactly when wanted, and changes no other list |
| Builder.Builder.AddFilterCondition | internal/expr/builder.go:195-205 | one filter request with its operator, recorded from the second filter on |
| Builder.Builder.AddConditionExpressionWithOp | internal/expr/builder.go:373-383 | one write-condition request with its operator |
| Builder.Builder.AddUpdateSet | internal/expr/builder.go:280-310 | one SET request, of a field or of a list element written `name[7]`; a refused field, index or operand leaves no fragment |
| Builder.Builder.AddUpdateAdd | internal/expr/builder.go:313-326 | one ADD request |
| Builder.Builder.AddUpdateRemove | internal/expr/builder.go:329-349 | one REMOVE request, of a field or of a list element |
| Builder.Builder.AddUpdateDelete | internal/expr/builder.go:352-365 | one DELETE request |
| Builder.Builder.AddUpdateFunction | internal/expr/builder.go:823-881 | one list_append request, at either end or of two lists, or one if_not_exists request; any other call binds the name and fails |
| Builder.Builder.AddProjectionField | internal/expr/builder.go:226-231 | one projected name |
| Builder.Builder.AddGroupFilter | internal/expr/builder.go:208-223 | the group's maps overwrite, counters stay, the parenthesised group is appended |
| Builder.Builder.Clone | internal/expr/builder.go:451-489 | an equal state, counters included |
| Builder.Builder.ResetConditions | internal/expr/builder.go:445-448 | drops the conditions and keeps everything else, the bindings above all |
| Builder.StepSays | internal/expr/builder.go:185-383 | one clean request keeps what every list says and adds exactly what it asked to its own |
| Builder.RunSays | internal/expr/builder.go:185-383 | any run of requests adds to each list exactly what was asked for it, in order |
| Builder.PlaceholdersStable | internal/expr/builder.go:185-383 | over any sequence of Add calls on a new builder every list says exactly what was asked; whatever is added later changes no binding, and every fragment emitted so far still says what it said |
| Builder.OperandsUnshared | internal/expr/builder.go:690-716 | each value placeholder belongs to exactly one operand anywhere in the builder |
| Builder.TakenRunEnv | internal/expr/builder.go:624-716 | the maps and counters after accepted requests are determined by the requests, whichever of several placeholders for one name is reused |
| Builder.TakenRun | internal/expr/builder.go:185-383 | accepted requests can be served in every state |
| Groups.GroupKeepsIffAgree | internal/expr/builder.go:208-223 | merging a group keeps every earlier binding if and only if the maps agree where they overlap |
| Groups.GroupAddsItself | internal/expr/builder.go:208-223 | when they agree, earlier conditions mean what they meant and the filter gains exactly the parenthesised group |
| Groups.RunLists | internal/expr/builder.go:624-716 | any run of accepted requests leaves exactly its operands, in order, under the next :v placeholders, and exactly its new parts, in order, under the placeholders of their turns or their reserved words |
| Groups.RunCovers | internal/expr/builder.go:492-716 | after accepted requests every placeholder in the maps is used by some fragment |
| Groups.ValuesAgreeIffSamePrefix | pkg/query/query.go:2248-2280 | as the group starts at zero, values agree exactly when both used the same operands in the same order, up to the shorter list |
| Groups.NamesAgreeIff | pkg/query/query.go:2248-2280 | names agree exactly when no turn bound two different unreserved parts |
| Groups.MeaningKeptIffExtends | internal/expr/builder.go:208-223 | where every placeholder is used, all fragments keep their meaning if and only if no binding changed |
| Groups.GroupSafeIff | pkg/query/query.go:2248-2280 | read off the calls on parent and group: merging keeps what every earlier condition says if and only if their operands, and their unreserved new names, agree turn by turn |
| Groups.SafeGroupSays | pkg/query/query.go:2248-2280 | such a group adds exactly its own filters, parenthesised, to exactly the parent's |
| Groups.NextOperandsSafeIff | internal/expr/builder.go:208-223 | later operands of the parent are safe exactly when the group used no more operands than the parent |
| Groups.NextNamesSafeIff | internal/expr/builder.go:208-223 | later names of the parent are safe exactly when, past the parent's last turn, the group bound reserved words only |
| GroupCalls.CallsReadRightIff | pkg/query/query.go:2248-2280 | for any sequence of Filter, OrFilter and group calls, groups inside groups included: the filter reads back exactly as asked, joined as asked, if and only if no placeholder is given to two different operands or names when each builder numbers its own from one |
| GroupCalls.CallsTrack | internal/expr/builder.go:195-223 | after any such calls the maps hold exactly what the fragments claim of their placeholders, and these claims are the turns read off the calls as long as no name clashes |
| Groups.GroupRewritesFirstOperand | pkg/query/query.go:2248-2280 | any earlier comparison whose first operand differs from the group's is rewritten |
| Groups.GroupSwallowsFilter | pkg/query/query.go:2248-2280 | the states that Filter(a = 1) and FilterGroup(b = 2) leave read back, merged, as b = 2 AND (b = 2) |
| Compile.AnalyzeConditions | pkg/index/selector.go:98-134 | partition key of the first equality on a named field; sort key, with its normalized operator, of the first other named field after it, failing that of the first condition before it; nothing if there is no such equality |
| Compile.SelectOptimal | pkg/index/selector.go:29-95 | the first index of maximal score; none exactly when no index has the partition key |
| Compile.SelectBestIndex | pkg/query/query.go:1315-1359 | the first index of maximal score for what the conditions fix; none exactly when no declared index has that partition key |
| Compile.ChosenHasEquality | pkg/query/query.go:1315-1359 | a chosen index is declared and some condition compares its partition key for equality |
| Compile.SplitConditions | pkg/query/query.go:1783-1799 | both halves, in order, with normalized names |
| Compile.SelectPartitions | pkg/query/query.go:1452-1484 | the split loses no condition and invents none |
| Compile.MakePlan | pkg/query/query.go:1380-1484 | which conditions go to the key: with an explicit index those on its key names with an allowed operator, otherwise those on the chosen index's key names; a Query exactly when the partition attribute is named, or an index chosen; an automatic one has an equality on the chosen index's partition attribute; a scan leaves all to the filter |
| IndexChoice.QueriedIff | pkg/query/query.go:1315-1359 | without an explicit index a read is a Query if and only if its first equality on a named field is on the partition key of the table or of an index |
| IndexChoice.OptimalIff | pkg/index/selector.go:29-95 | the scores choose the first index with the partition key that no other beats: by a usable sort key first, then by being a GSI, then by projecting everything |
| IndexChoice.SortCountsIff | pkg/index/selector.go:136-155 | a sort key counts exactly when its condition's operator is spelled =, <, <=, >, >=, their words, BETWEEN or BEGINS_WITH, in any case |
| IndexChoice.AutoSplitIff | pkg/query/query.go:1783-1799 | with a chosen index the key gets exactly the conditions on a field that names one of its keys, by Go name or attribute and in any case, and the filter the others |
| IndexChoice.ExplicitSplitIff | pkg/query/query.go:1387-1484 | with an explicit index: a Query if and only if some condition that fits the key is stored in the partition attribute; the key gets exactly the conditions that fit (= on the partition key, one of seven operators on the sort key), the filter the others |
| Compile.ApplyKeys | pkg/query/query.go:1438-1450 | succeeds exactly when the builder takes every key condition, as that run of requests |
| Compile.ApplyFilters | pkg/query/query.go:1438-1450 | the same for the filter conditions, joined by AND |
| Compile.CompileQuery | pkg/query/query.go:1362-1378 | the compiled query is the state of the planned run on a copy of the filter builder, with the chosen index; it fails exactly when the builder refuses a condition |
| Compile.CompiledSays | pkg/query/query.go:1712-1739 | read through the final maps, the key expression says the key conditions and the filter says the user's filters followed by the remaining conditions |
| Compile.FiltersLeaveReady | pkg/query/query.go:445-459 | any sequence of Filter and OrFilter calls leaves a builder that meets what the next rows ask of it, saying exactly those filters |
| Compile.FilterMeaning | pkg/query/query.go:1731-1739 | what the filter means with Where conditions appended, with and without a top-level OR |
| Compile.CompilationPreservesMeaning | pkg/query/query.go:1362-1417 | without a top-level OR the compiled query matches exactly the items meeting every Where and the filters; with one, exactly when it does not |
| Reads.ChosenIndexSeesEverything | pkg/query/query.go:1401-1417 | where the partition attribute comes with the sort attribute, every intended item is in the chosen index |
| Reads.CompiledQueryFindsIntended | pkg/query/query.go:1362-1417 | over every such table, without a top-level OR: what the chosen index holds and the compiled query matches is exactly what meets every Where and the filters |
| Spellings.CompiledQueryFindsSpelled | pkg/query/query.go:1362-1417 | the same in the words of the query's author: with real comparisons, exactly the items of which every Where holds as spelled, on the attribute its field is stored in, and the filter as built |
| Reads.WhereAfterOrIsOptional | pkg/query/query.go:1731-1739 | the query compiled from Filter(x), OrFilter(y) and Where(z) matches an item that has only x |
| Reads.ExtractKey | pkg/query/query.go:1999-2031 | usable if and only if every condition is an `=`, spaces aside, on a key attribute; the last value of each wins |
| Reads.UsableIff | pkg/query/query.go:1999-2031 | a condition is usable exactly when it is an `=`, spaces aside, on a field that names a table key by Go name or attribute, in any case; one that names both counts as the partition key |
| Reads.CompileGetItem | pkg/query/query.go:1925-1980 | taken exactly without index and filters when the conditions give every key attribute |
| Reads.TrimmedEquality | pkg/query/query.go:1999-2031 | of the operators GetItem accepts, the builder parses only the one without spaces |
| Reads.FastPathAgreesIff | pkg/query/query.go:567-605 | for all conditions GetItem accepts: on every table with distinct keys every answer of the compiled Query limited to one is GetItem's answer, if and only if each condition is a plain `=` on the very name of a key attribute and all operands for one attribute are equal (or do not convert, when both fail) |
| Reads.RepeatedKeyDiverges | pkg/query/query.go:1999-2031 | with two equalities on the partition key GetItem is called with the last value and finds an item the compiled Query does not |
| Reads.CaseVariantKeyDiverges | pkg/query/query.go:1999-2031 | with a case variant of the key's name GetItem finds an item the compiled Query does not |
| Reads.SpacedOperatorDiverges | pkg/query/query.go:1999-2031 | with the operator " =" GetItem answers and the Query fails |
| Guards.MergeConditionExpressions | pkg/query/query.go:282-323 | the merged text and maps, or failure |
| Guards.MergeMeansAll | pkg/query/query.go:282-323 | a merged guard holds exactly when the base, as before the merge, and every raw expression hold |
| Guards.MergeRejectsExactly | pkg/transaction/builder.go:763-788 | merging fails if and only if a placeholder is used twice or a value does not convert |
| Guards.ApplyConditions | pkg/query/query.go:228-266 | succeeds exactly when the builder takes every condition, as that run of requests |
| Guards.ApplyTransactConditions | pkg/transaction/builder.go:644-691 | the field, key and version conditions of a transaction operation go to the builder in order, its expressions are returned; it succeeds if and only if each can be served: a resolved field, the key attributes, a version attribute with a value, an expression with values that convert |
| Guards.TransactGuardMeansAll | pkg/transaction/builder.go:644-788 | the guard of a transaction operation holds exactly when every one of its conditions and expressions does |
| Guards.TransactGuardSays | pkg/transaction/builder.go:644-788 | whatever is mixed in it, the guard passes an item exactly when the item has no key attribute (KeyNotExists), all of them (KeyExists), that very version (VersionEquals), and meets every field condition and expression |
| Guards.BuildConditionExpression | pkg/query/query.go:192-280 | the guard of a write, from a list that holds exactly the write conditions, the Where conditions that name no key attribute, and the default when there is nothing else; each way to fail |
| Guards.LeftOutIff | pkg/query/query.go:325-337 | a Where condition is left out exactly when keys are skipped and its field names the partition or sort key, by Go name or attribute, in any case |
| Guards.GuardConditionsCollect | pkg/query/query.go:192-280 | the list holds the write conditions, the Where conditions not left out, as stored, and the default if nothing else guards the write: these and no others |
| Guards.GuardHoldsIff | pkg/query/query.go:192-280 | the guard of Query.Update, Query.Delete and every other write holds exactly when every write condition, every Where condition that names no key, and every expression does; by default, exactly where no item has the partition key |
| Spellings.GuardMeansSpelling | pkg/query/query.go:192-280 | and these conditions hold exactly as their operators are spelled |
| Guards.GuardMeansAll | pkg/query/query.go:192-226 | that guard holds exactly when every listed condition and every raw expression does |
| Guards.FinalCondition | pkg/query/update_builder.go:320-380 | own conditions and, on a reset clone, the query's, combined; each way to fail |
| Guards.GuardComposition | pkg/query/update_builder.go:320-380 | the final guard is own conditions AND write conditions AND raw expressions, and the second stage rebinds no placeholder of the first |
| Expressions.DroppingIsSafeIff | pkg/query/update_builder.go:320-380 | dropping the operators of a chain is harmless, whatever the conditions evaluate to, if and only if there is no OR after the first |
| Guards.BothMean | pkg/query/update_builder.go:437-486 | the two executions send the same maps, and guards that differ in the chain of own conditions only |
| Guards.ExecutesAgree | pkg/query/update_builder.go:437-486 | the guards of both executions agree on every item when no OrCondition follows the first condition |
| Guards.ExecutesSeparate | pkg/query/update_builder.go:437-486 | for every other list of operators, existence conditions and an item that passes one and is refused by the other |
| Guards.ExecuteIsStricter | pkg/query/update_builder.go:437-486 | whatever the guard of Execute lets through, that of ExecuteWithResult does too |
| Guards.ExecuteDropsOr | pkg/query/update_builder.go:320-380 | Condition(a) then OrCondition(b), on an item with b only: refused by Execute, let through by ExecuteWithResult |
| Versioned.UpdateVersioned | pkg/query/query.go:813-858 | the requests of a versioned update, in order, and its guard, from a list that holds exactly the write conditions and the Where conditions off the key; each way to fail |
| Versioned.VersionGuardNeverWeakens | pkg/query/query.go:937-955 | the update passes exactly when the stored version is the one read and every other condition and raw expression holds |
| Versioned.VersionedGuardHoldsIff | pkg/query/query.go:813-858 | read off the query: the version read, every write condition, every Where condition that names no key, every expression |
| Versioned.UpdateSays | pkg/query/query.go:937-955 | what it says is its sets and then one added to the version |
| UpdateText.BuildUpdateExpression | internal/expr/builder.go:414-423 | prints each action that has fragments, in any order of actions |
| UpdateText.SplitUpdateExpressionSections | internal/encryption/update_expression.go:176-204 | the sections of the text, by keyword |
| UpdateText.SectionsRoundTrip | internal/encryption/update_expression.go:176-204 | in whatever order sections were printed, re-reading gives back each action's list and no other section |
| UpdateText.SplitTopLevelCommaSeparated | internal/encryption/update_expression.go:206-239 | the pieces between commas outside parentheses, trimmed, empty ones dropped |
| UpdateText.FragmentsRoundTrip | internal/encryption/update_expression.go:206-239 | a section's text splits into exactly the fragments printed, commas inside calls included |
| UpdateEncryption.PlaceholdersQualify | internal/expr/builder.go:664-716 | the builder's placeholders have the shape the parser needs |
| UpdateEncryption.PrintedSurvives | internal/expr/builder.go:280-365 | every printed SET, ADD, REMOVE, DELETE, list_append and if_not_exists fragment survives both splitters |
| UpdateEncryption.UpdateRoundTrip | internal/encryption/update_expression.go:176-239 | re-parsing the text of any update recovers each action's exact fragment list, in any section order |
| UpdateReading.PrintedReads | internal/expr/builder.go:280-365 | taking any printed fragment apart gives back its path, its decimal index and its operands in order, the arguments of list_append and if_not_exists included |
| UpdateReading.ElementParses | internal/expr/builder.go:233-277 | `name[7]` is element 7 of name, for every name and every index in range |
| UpdateReading.ParsedElement | internal/expr/builder.go:233-277 | and nothing else is an element: only a name with a decimal index in range in brackets at its end |
| UpdateReading.SetAndRemoveState | internal/expr/builder.go:280-349 | Set and Remove, of an attribute or of `name[i]`, state that attribute, or element i of it, and the value given |
| UpdateReading.OtherCallsState | internal/expr/builder.go:313-365 | Add, Delete, list_append and if_not_exists state their action with each argument where the caller put it |
| UpdateReading.UpdateTextStates | internal/expr/builder.go:280-423 | for any run of calls and any order of sections: each section of the text, read back and looked up in the maps, states exactly what the accepted calls of that action stated, in their order |
| UpdateEncryption.AssignmentMeansCall | internal/encryption/update_expression.go:84-125 | reading a printed assignment does what the call said: leave, refuse, or encrypt its operand |
| UpdateEncryption.PartsMeanCalls | internal/encryption/update_expression.go:127-156 | the ADD and DELETE sections are refused if and only if one of their calls names an encrypted attribute unnested |
| UpdateEncryption.EncryptUpdateExpressionValues | internal/encryption/update_expression.go:35-59 | the whole pass over the text |
| UpdateEncryption.EncryptSetAssignments | internal/encryption/update_expression.go:61-82 | the SET section, assignment by assignment, stopping at the first refusal |
| UpdateEncryption.RejectEncryptedParts | internal/encryption/update_expression.go:127-156 | true exactly when some part names an encrypted attribute |
| UpdateEncryption.PassMeansCalls | internal/encryption/update_expression.go:35-156 | printed in any order and read again, the pass does exactly what the calls say |
| UpdateEncryption.ExactlyTheEncrypted | internal/encryption/update_expression.go:61-125 | on SET calls with their own operands it fails exactly when some call cannot be encrypted; else it replaces exactly the values of encrypted attributes and keeps every other value |
| EncryptedUpdates.RunIsSound | internal/expr/builder.go:280-365 | any run of calls on a new builder leaves update fragments in printable form, names and operands the parser can read, and no operand shared |
| EncryptedUpdates.EncryptedUpdateSays | internal/encryption/update_expression.go:35-156 | for any update that can be built, printed in any order: the pass fails if and only if some call cannot be encrypted; otherwise the update says what was asked with exactly the values assigned to encrypted attributes encrypted, and every condition, key and filter operand keeps its value |
| UpdateReading.EncryptedTextStates | internal/encryption/update_expression.go:35-156 | the same read off text and calls: the pass fails exactly when some accepted call is not let through; otherwise the text, read through the new values, states what the calls stated with the values of whole encrypted attributes encrypted |
| EncryptedUpdates.NestedAddSlipsThrough | internal/encryption/update_expression.go:127-156 | Add("secret.hits", v) on a new builder passes the whole pass with v in the clear although secret is encrypted |
| EncryptedUpdates.NestedSetIsRefused | internal/encryption/update_expression.go:61-125 | Set on the same path is refused |
| Versioned.CreatePassesOnce | pkg/query/query.go:701-745 | the guard of IfNotExists().Create() passes only where no item has the key, whatever else is in it |
| Versioned.UpdatesLoseNothing | pkg/query/query.go:813-858 | in every run, with each create and each update decided by evaluating the guard its builder sent: the version counts the successes, each was computed from the state its predecessor left, and no version is consumed twice |
| BatchGet.FindMatchingItem | pkg/query/batch_get.go:427-447 | the first unused item carrying the key, or none exists |
| BatchGet.AlignChunkResults | pkg/query/batch_get.go:402-425 | every slot of the chunk gets its own key's item, or stays empty when there is none; other slots are untouched |
| BatchGet.Flatten | pkg/query/batch_get.go:140-148 | the items present, in slot order |
| BatchGet.BagOfBag | pkg/query/executor.go:605-669 | what is found depends on which keys are asked for, not on their order |
| BatchGet.ReplyConserves | pkg/query/executor.go:605-669 | items returned plus items of the unprocessed keys are the items of the keys asked for |
| BatchGet.ExecuteBatchGet | pkg/query/executor.go:605-669 | success returns exactly the existing items and means that the calls made left nothing; at most MaxRetries + 1 calls, each for keys still left; exhaustion comes after exactly that many and reports what the last one left, and an error means the last call made failed |
| BatchGet.ProcessChunk | pkg/query/batch_get.go:106-138 | one chunk settles its own window only |
| BatchGet.ExecuteBatchGetChunks | pkg/query/batch_get.go:106-138 | for every chunk size, unprocessed pattern and completion order, success is the existing items in request order, and failure means that the calls made for one of the chunks gave up |
| BatchGet.AllSettled | pkg/query/batch_get.go:334-369 | the chunks together cover every key |
| BatchWrite.SplitRequests | pkg/query/batch_operations.go:781-796 | batches concatenate back to the input, all full but the last; a size from 1 to 25 is kept, any other becomes 25 |
| BatchWrite.ReflectsThen | pkg/query/batch_operations.go:607-672 | requests without a common key do one after the other what they do together |
| BatchWrite.BatchWriter.ExecuteBatchWriteWithRetries | pkg/query/batch_operations.go:607-672 | at most five calls; done means every put is stored and every deleted key absent, nothing else changed; "failed to process k" the same of all but exactly k requests; an error of some, and the last call made failed |
| BatchWrite.CallConserves | pkg/query/batch_operations.go:607-672 | after every call the table reflects exactly the batch without what is pending |
| BatchWrite.BatchWriter.BatchWriteAll | pkg/query/batch_operations.go:680-715 | success means the table reflects every request; otherwise every batch before the stuck one, and part of that, whose last call failed or was its fifth and handed requests back |
| TableCopy.Copier.BatchWriteWithRetries | pkg/schema/automigrate.go:525-567 | the target is overridden by what was written, and without an error the rest is returned, after every retry there is; never more than the retries, nor more items in a call than given |
| TableCopy.Copier.PutIndividually | pkg/schema/automigrate.go:593-614 | nil means every item was put and no call failed; an error, a subset, and the last call made failed |
| TableCopy.Copier.WriteBatched | pkg/schema/automigrate.go:487-523 | the same for batches with the one-by-one fallback; no call carries more than the batch size |
| TableCopy.Copier.CopyTableData | pkg/schema/automigrate.go:369-397 | nil means overridden by every source item and no call failed; an error, by a subset, and the last call of the run failed; no batch has more than ten items, or the size asked for if that is less; the paged loop terminates |
| TableCopy.ResolveBatchSize | pkg/schema/automigrate.go:399-408 | a size between 1 and 10 is kept, any other becomes 10 |
| TableCopy.OverlayTwice | pkg/schema/automigrate.go:433-447 | writing the same items again, or in parts, gives the same table |
| TableCopy.FinishedCopy | pkg/schema/automigrate.go:369-397 | after nil every source item is in the target and nothing else changed |
| Base64.RoundTrip | internal/encryption/attribute_value_json.go:26-45 | decoding gives every byte string back, in both alphabets of sections 4 and 5 of RFC 4648 |
| Codecs.MarshalRoundTrip | internal/encryption/attribute_value_json.go:10-173 | unmarshalling the record of any nested value gives it back |
| Codecs.DocRoundTrip | internal/encryption/service.go:246-278 | so does the record after JSON dropped its empty fields |
| Codecs.DocumentHolds | internal/encryption/attribute_value_json.go:10-173 | the document of a value holds its type code and the one field of that type, and not even that for an empty collection |
| Codecs.EncryptionRoundTrip | internal/encryption/service.go:246-278 | decode after encode is the identity on every attribute value |
| Codecs.EncryptionInjective | internal/encryption/service.go:260-270 | different values have different encodings |
| Codecs.CursorRoundTrip | pkg/query/cursor.go:88-186 | every value survives the cursor encoding once JSON has turned its lists into generic ones |
| Codecs.CursorKeyRoundTrip | pkg/query/cursor.go:21-85 | so does every key |
| Codecs.CursorsInjective | pkg/query/cursor.go:88-113 | different values have different cursors |
| Codecs.UnwiredSetsAreRefused | pkg/query/cursor.go:258-273 | the decoder takes generic lists only: why the round trip is stated through JSON |
| Paging.Pager.AllPaginated | pkg/query/pagination.go:12-74 | from any start key, one page of matching rows, and a cursor of its last evaluated key exactly when there is more |
| Paging.Pager.SetCursor | pkg/query/pagination.go:77-90 | no cursor changes nothing, one with an empty key starts over, a decodable one sets the start key, a bad one fails and changes nothing |
| Paging.Pager.Walk | pkg/query/pagination.go:12-90 | following the cursor until there is no more yields every matching row once, in order, through empty pages, and ends |
| Paging.CursorResumes | pkg/query/pagination.go:173-226 | the cursor of a row leads to the row after it |
| Paging.MatchingDistinct | pkg/query/pagination.go:12-74 | no key twice, nothing that does not match, nothing that matches missing |
| Paging.CollectPaginatedItems | internal/theorydb/query_executor.go:1263-1287 | with trimming a prefix of the pages fetched, without it whole pages up to the first that reaches the limit, and never a page too many |
| Paging.TrimmedIsPrefix | internal/theorydb/query_executor.go:1263-1287 | the trimmed result is the prefix, of length min(limit, total), of everything the pages hold |

## Left out

Members whose contract says less than the source does:

- TokenBucket.SimpleLimiter.Allow: asks for a clock that does not go back and a refill interval of at least one nanosecond; a rate above one call per nanosecond divides by zero in the source.
- Builder.PlaceholdersStable: speaks of names the validator accepts, whole and part by part. A condition on a name it refuses whole is refused without a fragment; a name accepted whole with a refused part, and a refused projection or function target, prints `#invalid`.
- Groups.GroupSafeIff: speaks of calls the two builders accept, with no two case variants of a reserved word; a refused call records an error and the query is not sent. `GroupCalls.CallsReadRightIff` does without the second condition.
- Builder.Builder.AddUpdateSet: keeps the update fragments in one list in the order of the calls; the source keeps one list per action, which is the part of that list with that action.
- Compile.MakePlan: the guarantee about the partition attribute asks for metadata that finds each described field again under its Go name; nothing is claimed about whether the key conditions are legal ones for the service.
- IndexChoice.AutoSplitIff: asks for the same consistent metadata as the guarantee of `Compile.MakePlan`.
- Reads.CompileGetItem: takes the key from the conditions only; the source also fills a missing part from the model, and converts the operands with the same converter as the builder here.
- Reads.FastPathAgreesIff: asks that the compiled query names no two case variants of one reserved word and only fields the validator takes part by part, so a reserved key name given once in each case is not covered; the table carries the chosen index's sort attribute wherever it carries its partition attribute, and the two key attributes have different names.
- UpdateReading.UpdateTextStates: speaks, like `Builder.PlaceholdersStable`, of names the validator accepts and no two case variants of a reserved word, and reads the text with a grammar of its own, in which a list index follows the whole path.
- UpdateEncryption.EncryptUpdateExpressionValues: returns the new values map; the source encrypts in place, so a refused pass may leave some values encrypted there.
- Versioned.UpdatesLoseNothing: updates are built from model metadata, which skips the version field and refuses key fields among the fields to set; every created item carries its key; versions are natural numbers.
- BatchGet.ExecuteBatchGetChunks: keys are distinct, the projection keeps the key attributes, and key values are compared as values; workers are modelled by an arbitrary completion order.
- BatchWrite.BatchWriter.BatchWriteAll: no key occurs in two requests, which the service refuses within one batch.

Parts of the repository that are not modelled:

- Condition expressions are syntax trees, not text; only update expressions are modelled as text, because a parser re-reads them. Hand-written expressions are taken as parsed.
- The validator is a predicate and the reserved words a set, both parameters; upper and lower case are ASCII. Rejection of conditions on encrypted fields is not modelled.
- In the lease, one manager configuration is shared, a request is applied at most once, rows are lease rows only, and int64 overflow and the float arithmetic of the TTL buffer are left out.
- AWS, KMS and AES-GCM calls: the cipher is a function that may fail. JSON text, UTF-8, the outer URL-safe wrapping of the cursor text and base64 input with line breaks are left out; a JSON document is a tree and a nil collection is an empty one. NULL is taken as true. The collection halves of the codecs are comprehensions instead of loops.
- Retrying and error translation of transactions, and `Transaction.Update`, which sets the version in two places.
- Batch writes of encrypted models, error handlers, progress callbacks and backoff timing.
- The table copy with a transformation, and counting instead of collecting pages.
- The optimizer's plan cache, whose identity omits limit and filters.
- The memory monitor, `SecureBodyReader`, health checks, aggregates, marshalling by reflection, sessions and multi-account setup.
