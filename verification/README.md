# Verification of sblim-gather

A Dafny model of the parts of sblim-gather whose behaviour is more than plumbing: the top-N sort, the local value
repository and the queries on it, the sampling scheduler, the wire formats, the subscription-forwarding table, the
gathered write of responses, and the text form of channel counters. `dafny verify dfyconfig.toml` checks everything.

## How to read it

* `CBytes.dfy`: bytes, C strings, `strcmp`/`memcmp`, little-endian words, conversion to a 32-bit `int`.
* `TopN.dfy`, `Compare.dfy`: the in-place quicksort with its bubble-sort fallback, for any comparator; and the
  comparator of `repos.c`, which truncates a 64-bit difference to `int`. Termination and bounds hold exactly without a
  NaN; numeric order holds exactly where the truncation keeps the sign.
* `History.dfy`, `Repository.dfy`, `LocalRepository.dfy`, `RepositoryRuns.dfy`: window retrieval and expiry of one
  history; sorted resource arrays as maps; the repository object, refined to a map metric -> resource -> history; and
  whole runs, with the bound on the age of what is held.
* `ReposValue.dfy`: metric calculation per resource, and the top-N filter. Calculators are partial functions: that the
  program verifies means that each call meets their precondition (two samples, a positive time difference).
  `NewestValue.dfy` joins the writer of the repository to these queries.
* `Scheduler.dfy`, `SchedulerRuns.dfy`, `SchedulerOrder.dfy`, `SchedulerCadence.dfy`, `SchedulerCases.dfy`: the list of
  metric blocks. Each function that holds the mutex is one atomic step; runs interleave the steps of any number of
  retrievers. Pointers are names, freeing removes a name from the heap map, and names are never reused.
* `Wire.dfy`, `Marshal.dfy`, `MarshalOps.dfy`, `Truncation.dfy`, `Response.dfy`: structs as little-endian words with the
  layout of a 64-bit machine, optional strings, requests, subscriptions and definitions; the operations on buffers;
  messages cut short; and the reply to a value query in the daemon's growing buffer.
* `Exchange.dfy`, `RemoteQuery.dfy`: the client's side, a whole exchange of bytes, and a filtered query from the client
  through daemon, repository, calculation and sort back to the client. `Layout.dfy` spells out every struct.
* `Forwarding.dfy`, `SendResponse.dfy`, `Channel.dfy`: the three smaller pieces.

Methods are proved equal to specification functions or against outright properties; the lemmas say what those functions
mean, in terms of widths, bits, field names and time stamps rather than of the functions that the methods share. Inputs
of the environment are parameters: the clock, addresses returned by the allocator, what each `writev` takes, the values
of calculators, and the reading of floating-point bytes.

## Findings

* `valueCompare` sorts integers correctly exactly if every difference is 0 or has a magnitude whose remainder modulo
  2^32 lies in 1..2^31-1 (`Compare.SortsNumericallyIff`, `Compare.LargeStaysBeforeZero`). On other integers the sort
  still terminates within bounds.
* A comparison with a floating-point NaN, be it with itself, says smaller in ascending order and greater in descending
  order (repos.c:831-837). As a pivot a NaN drives the partition, which 11 values are enough to reach, out of the array
  or into an endless loop; among fewer values it can keep others from being sorted (`Compare.SaneIff`,
  `Compare.NaNPivot`, `Compare.OthersSortedIff`, `Compare.NaNHidesOrder`). Such values occur: when the counters of a
  processor have not moved, `TotalCPUTimePercentage` comes from 0 times 100/0 (plugin/repositoryProcessor.c:139-142).
* For booleans `valueCompare` takes 0 for true and 1 for false (repos.c:790-792), so true sorts before false in
  ascending order. A boolean array comes out as requested whatever its arrangement exactly if it cannot hold both truth
  values (`Compare.BooleansSortedIff`, `Compare.TrueStaysBeforeFalse`).
* The comment on `_MetricRetrieveNoLock` (mreposl.c:178-185) describes `from >= to` as a query for `maxnum` entries
  starting with `from`. The code treats only `from == to` and a missing end so, and it returns the oldest `maxnum`
  entries; with `from > to` the window is empty, which is as described only if nothing is stamped since `from`
  (`History.CommentHonouredIff`, `History.CommentBroken`).
* A query naming only a resource or only a system gets an array with the matching resources at their old places and the
  number of matches as its length (mreposl.c:556-574). Its reader meets NULL names unless the matching resources come
  first (`LocalRepository.PartialFilledIff`, `LocalRepository.GapBeforeMatch`).
* If the calculator of a point metric fails on a sample that precedes one it succeeds on, the slot of the failed sample
  is returned and a computed value is lost (`ReposValue.PointSlotsComputedIff`, `ReposValue.PointHole`).
* `ML_Reset` under synclevel 1 keeps the due-time order at all times exactly if each interval divides the later ones.
  An insertion, and a relocation with several retrievers, keep it exactly if no block in progress obstructs them. When
  the order is lost, a retriever can be told to sleep past the due time of a waiting block
  (`SchedulerOrder.ResetOrderedIff`, `SchedulerOrder.InsertInOrderIff`, `SchedulerOrder.RelocatedInOrderIff`,
  `SchedulerCases.ResetMissesDue`, `SchedulerCases.InsertionMissesDue`, `SchedulerCases.RelocationMissesDue`).
* The time a retriever is told to sleep until disregards the block it has reserved itself, so one that is woken early
  can sleep past that block's due time (`SchedulerOrder.SleepTimeIff`, `SchedulerCases.SleepsPastItsReservation`).
* Enabling a subscription that is already in the forwarding table leaves the client's own id in the request, although
  the caller goes on to subscribe with it as if it were local (reposd.c:365-367). The id may belong to somebody else
  (`Forwarding.LocalIdReachesSubscriberIff`, `Forwarding.RepeatedSubscriptionReachesAnother`).
* Local ids beyond 2^31-1 turn negative, until the counter has gone round. Such an id is found exactly if all other ids
  in the table are negative and smaller; so the first one only if the table was empty, later ones as long as nothing
  older than the overflow is left (`Forwarding.NewIdFoundIff`, `Forwarding.WrapAround`, `Forwarding.OverflowHides`,
  `Forwarding.OverflowReached`).

## Model

| member | source | states |
|---|---|---|
| TopN.Mswap | repos.c:854-860 | exchanges two elements and nothing else |
| TopN.Mbsort | repos.c:863-879 | in place, the array becomes exactly what the sweeps of the bubble sort (function `Bubbled`) make of it, including the early exit |
| TopN.SweepRearranges | repos.c:867-878 | a sweep permutes its range only; a sweep without a swap leaves the array as it was, and adjacent pairs are then in order |
| TopN.SweepMax | repos.c:868-873 | a sweep carries a maximum to its upper end |
| TopN.BubbledSorts | repos.c:863-879 | for any comparator the bubble sort permutes exactly its range; under a total preorder the range ends up sorted |
| TopN.BubbledPair | repos.c:863-879 | what the sort does to two elements under an arbitrary comparator |
| TopN.ScanLow | repos.c:892-894 | the low scan stops at the first value not smaller than the pivot, at the pivot at the latest, although the source has no bound in this loop |
| TopN.ScanHigh | repos.c:895-898 | the high scan stops at the last value greater than the pivot, or just below the range |
| TopN.Partition | repos.c:891-904 | for every comparator with `c(x, x) == 0` and `c(x, y) > 0 ==> c(y, x) < 0` on the values in the range, transitive or not: the loop terminates and stays in range, permutes the range, and puts the pivot between the smaller values and the others |
| TopN.SaneFinishes | repos.c:891-902 | the same of the loop as a relation: with such a comparator there is a number of exchanges after which it ends, and its low scan has not left the array |
| TopN.QuickSorts | repos.c:903-908 | sorting both sides of a partition sorts the whole range |
| TopN.MqsortRec | repos.c:881-909 | for every depth and depth limit, with such a comparator or on fewer than 11 values: terminates, permutes exactly `left..right`, and sorts it if the comparator is a total preorder on the values there |
| TopN.Mqsort | repos.c:911-920 | the same for the entry point with its computed depth limit |
| Compare.SanePair | repos.c:784-852 | for any two values of any type and any direction: a value compares 0 with itself exactly if it is not a NaN, and without a NaN a positive result is negative the other way round |
| Compare.SaneIff | repos.c:784-852 | the comparator meets what the partition asks of it on a collection of values, however extreme, if and only if none of them is a NaN |
| Compare.NaNPivot | repos.c:891-902 | with a NaN for a pivot the partition never ends within the array, whatever the other values: ascending, nothing stops its low scan; descending, it exchanges the same two elements for ever |
| Compare.DescendingReverses | repos.c:784-852 | descending is ascending with the arguments exchanged, if and only if neither is a NaN |
| Compare.OthersPreorder | repos.c:823-851 | strings, dates, floating-point values other than NaN, and user types are compared by a total preorder |
| Compare.OthersCompare | repos.c:823-851 | the comparator of those values is the order of the floating-point numbers, the alphabetical order of the strings, or none, in the requested direction |
| Compare.OthersSorted | repos.c:823-920 | arrays of those values always come out in that order |
| Compare.OthersSortedIff | repos.c:823-920 | for all types but integers: every array over a set of values gets through its first partition and comes out in order, if and only if the set holds no NaN |
| Compare.NaNHidesOrder | repos.c:831-837 | 2, NaN, 1 is left as it is by an ascending sort, although no partition is made |
| Compare.UnsignedNumber | repos.c:793-806 | an unsigned type (bit 0x0100) is an integer type whose number takes 8 bytes with bit 4, else 4 with bit 2, else 2 with bit 1, else 1: any number that fits is what its bytes stand for, whatever follows them |
| Compare.SignedNumber | repos.c:808-821 | the same for signed types (bit 0x0200) and two's complement |
| Compare.CharacterAndBoolean | repos.c:838-841 | type 0x0800 is a number of two bytes, type 0 one byte, zero or not (repos.c:789-791) |
| Compare.ShortNumber | repos.c:793-806 | bytes that an unsigned value shorter than its type lacks count as 0 |
| Compare.FloatNumbers | repos.c:823-837 | floating-point numbers (bit 0x0400, of 8 bytes with bit 4) compare at most 0 ascending exactly if the first is not greater, descending exactly if it is not smaller |
| Compare.StringsCompared | repos.c:842-847 | dates and strings (bits 0x1000 and 0x2000) compare at most 0 exactly if they are equal up to their terminators or in alphabetical order, whatever follows the terminators |
| Compare.UserTypes | repos.c:848-851 | values of other types all compare equal |
| Compare.WidePairSorted | repos.c:793-797 | an ascending sort of 65536 and 1 as 64-bit unsigned numbers gives 1 and 65536 |
| Compare.ReliableSign | repos.c:792-822 | the truncated difference of two integers has the right sign, both ways round, exactly if the difference is 0 or its magnitude modulo 2^32 lies in 1..2^31-1 |
| Compare.SpreadReliable | repos.c:789-841 | a spread of at most 2^31-1 is reliable; for types of at most 32 bits it is the only way to be reliable; types of 8 and 16 bits always are |
| Compare.KeyRange | repos.c:789-841 | the numbers each integer type can yield |
| Compare.ReliableCompare | repos.c:784-822 | on a reliable pair the comparator is the order of the numbers in the requested direction, for booleans in the opposite one |
| Compare.ReliablePreorder | repos.c:784-822 | on pairwise reliable values the comparator is a total preorder |
| Compare.ReliableSorted | repos.c:784-920 | an array of pairwise reliable values comes out sorted by number in the requested direction, of booleans in the opposite one |
| Compare.SortableSorted | repos.c:784-920 | an array of pairwise sortable values comes out in the requested order |
| Compare.UnsortableStays | repos.c:784-822 | the comparator accepts the wrong arrangement of a pair that is not sortable |
| Compare.UnsortablePairFails | repos.c:784-920 | hence such a pair forms an array that comes out unsorted |
| Compare.LargeStaysBeforeZero | repos.c:797-807 | such a pair: of the 32-bit unsigned numbers 2^31 and 0 the larger stays in front in an ascending sort |
| Compare.SortsNumericallyIff | repos.c:784-920 | every array over a set of integer or boolean values comes out in the requested order of their numbers (`MD_FALSE` 0, `MD_TRUE` 1) if and only if every pair is sortable: equal truth values for booleans, a reliable difference for all other types |
| Compare.BooleansSortedIff | repos.c:789-792 | boolean arrays over a set of values come out false before true when ascending, true before false when descending, if and only if the set does not hold both truth values |
| Compare.TrueStaysBeforeFalse | repos.c:789-792 | the input that shows it: true before false is left as it is by an ascending sort |
| CBytes.StrCmpTransitive | repos.c:845-847 | string comparison is transitive, strictly if one of the two comparisons is strict |
| CBytes.StrCmpIsAlphabetical | repos.c:845-847 | a string compares less exactly if it is a proper beginning of the other or smaller at the first difference |
| CBytes.MemCmpIsStrCmp | mreposl.c:478-483 | comparing strings with their terminators by `memcmp` is comparing them by `strcmp` |
| CBytes.LittleAt | marshal.c:65-79 | byte k of a number is its k-th digit to the base 256, least significant first, as on the machines modelled |
| History.SelectBlock | mreposl.c:212-232 | the window loop on any history, sorted or not, selects a block that lies inside it; on a sorted one, the block the query stands for |
| History.CopyBlock | mreposl.c:233-249 | the copy loop copies the selected block and never runs off the list |
| History.SelectedIsExpected | mreposl.c:198-250 | the selected block is the declarative answer: all values of the window; if there are more than the limit, the newest ones when `from` is 0 and the oldest ones otherwise; and for a limit of two with one hit the next older value as well |
| History.QueryForms | mreposl.c:198-206 | what the forms of a query stand for: without a limit all values between `from` and `to`; without an end (`to` 0 or -1, or a limit and `to` equal to `from`) all values since `from` |
| History.LimitedByTime | mreposl.c:218-229 | with more values in the window than the limit, exactly that many are returned; without a start none left out is newer than one returned, with a start none is older |
| History.Completed | mreposl.c:212-232 | otherwise the window is returned, and for a limit of two with one hit also the newest value before it |
| History.CommentHonouredIff | mreposl.c:178-206 | for a limit and `from >= to` the answer is what the comment there promises (the query without an end) if and only if `from == to`, or `to` is 0 or -1, or nothing is stamped since `from`; with `from > to` and an end it is empty |
| History.CommentBroken | mreposl.c:178-206 | a history of one value and a query that should return it and does not |
| History.ExpectedSorted | mreposl.c:198-250 | answers from a newest-first history are newest-first |
| History.RetrieveOne | mreposl.c:207-250 | one resource of a retrieval, for every from, to and maxnum: always a contiguous block of the history, and the declarative answer if the history is newest-first |
| History.CallbackValues | mreposl.c:142-164 | a subscriber is handed the value just added and its predecessor, if there is one |
| History.PruneHistory | mreposl.c:447-468 | cuts the history at the first expired value and counts what it drops |
| History.PruneKeepsUnexpired | mreposl.c:447-468 | in a newest-first history exactly the expired values are dropped |
| Repository.ResCmpOrder | mreposl.c:478-483 | the resource comparison is 0 exactly for equal keys and antisymmetric |
| Repository.ResCmpTransitive | mreposl.c:478-483 | the resource comparison is transitive |
| Repository.ResCmpIsAlphabetical | mreposl.c:478-483 | it is negative exactly for the alphabetically earlier resource, or the earlier system of the same resource |
| Repository.SearchRes | mreposl.c:493-506 | binary search finds a key if and only if it is in the sorted array; otherwise it ends where the key belongs |
| Repository.InsertAscending | mreposl.c:508-529 | inserting there keeps the array strictly ascending, hence free of duplicates |
| Repository.AssocInsert | mreposl.c:508-529 | on the map that the array stands for, the shifted insertion adds one key |
| Repository.AssocUpdate | mreposl.c:134-142 | replacing one element of the array changes one key of the map |
| Repository.ClampExpiration | mreposl.c:418-434 | the expiration interval lies in 60..86400 and is the value there nearest to the configured one, or 1200 without a configuration |
| Repository.ExpirationLimits | mreposl.c:418-434 | the limits in seconds, 1200 as the default, and an allowed value taken as it is |
| Repository.PruneResources | mreposl.c:445-469 | all histories of a metric are pruned, keys and order stay, and the count is the number of values dropped |
| Repository.PruneHeader | mreposl.c:444-470 | the same for all metrics |
| LocalRepository.InsertRes | mreposl.c:485-532 | with `read` nothing is ever inserted and the result is -1 exactly for a missing key; without it the key is there afterwards with its old history or an empty one |
| LocalRepository.RetrieveNoLock | mreposl.c:187-252 | every listed resource gets a block of its own history, value by value with id, time stamp, type and data as stored and the names of the resource, on a sorted history the expected one; the total is the sum of the counts |
| LocalRepository.PartialResources | mreposl.c:556-574 | the copy made for a query naming only resource or only system has the matching resources at their own places, nothing at the others, and its length is reported as the number of matches |
| LocalRepository.ServedResources | mreposl.c:534-577 | what a query is served: all resources of the metric, those of one system, those of one name, or the single one with both |
| LocalRepository.PartialFilledIff | mreposl.c:556-574 | the places of that copy that its reader looks at are all filled if and only if no matching resource comes after one that does not match |
| LocalRepository.GapBeforeMatch | mreposl.c:556-574 | such a query: of two resources of one system the second is asked for, one place is counted, and it is empty |
| LocalRepository.LocalRepository.LocateIndex | mreposl.c:343-353 | finds a metric exactly if it is there |
| LocalRepository.LocalRepository.AddIndex | mreposl.c:355-365 | adds a metric without resources and changes no other |
| LocalRepository.LocalRepository.LocateRes | mreposl.c:485-532 | changes at most the resource list of the one metric, which stays strictly ascending |
| LocalRepository.LocalRepository.PruneRepository | mreposl.c:409-475 | prunes exactly if the prune time has passed, sets the next prune time, and returns the number of values removed |
| LocalRepository.LocalRepository.LocalMetricAdd | mreposl.c:115-170 | on the map metric -> resource -> history: a prune if due, then the value in front of exactly one history; the sorted-array invariant is kept |
| LocalRepository.LocalRepository.Resources | mreposl.c:534-577 | exactly the resources that match the query, in ascending order: the one resource of a fully qualified query if it exists, all of them for an unqualified one, the matching ones if only resource or only system is given and the matching ones come first |
| LocalRepository.LocalRepository.LocalMetricRetrieve | mreposl.c:254-278 | returns -1 exactly for a negative start or an unknown metric; otherwise every addressed resource once, in ascending order, each with such a block of its own history; nothing is changed |
| LocalRepository.LocalRepository.LocalMetricShutdown | mreposl.c:375-407 | leaves no metric |
| RepositoryRuns.HistoryConsed | mreposl.c:133-142 | adding a value puts it in front of the history of its metric, resource and system, and leaves every other history alone |
| RepositoryRuns.PrunedEveryHalfInterval | mreposl.c:441-473 | after a prune there is none for half an expiration interval; the next one drops exactly the values that have expired by then |
| RepositoryRuns.PruneAged | mreposl.c:441-473 | after the prune check at `now` nothing stamped at or before now - EXP - EXP/2 is held |
| RepositoryRuns.AddAged | mreposl.c:115-170 | one addition keeps the age invariant |
| RepositoryRuns.BoundedAge | mreposl.c:115-170 | in every run of timely additions and shutdowns all histories stay newest-first, and right after an addition at `now` every value held is newer than now - EXP - EXP/2 |
| RepositoryRuns.PruneDropsOnlyExpired | mreposl.c:441-473 | in every such run a prune at `now` drops exactly the values stamped at or before now - EXP |
| RepositoryRuns.StampedIsTimely | mreposl.c:115-170 | values stamped when they are added, under a clock that does not run backwards, make a timely run |
| ReposValue.StrikeOut | repos.c:354-364 | the slots provided are exactly the resources with at least two samples; the others are struck out |
| ReposValue.ValueRequest.ComputeSlot | repos.c:376-412 | fills one slot; with equal newest timestamps the value is zero and no calculator is called |
| ReposValue.ValueRequest.ComputeIntervals | repos.c:354-412 | the calculator is called only with at least two samples and a strictly positive time from last to first; the retained slots are contiguous, number exactly `vsNumValues`, and are those of the successful resources in order |
| ReposValue.SlotsInResourceOrder | repos.c:370-412 | each retained slot belongs to a resource of its own, the slots follow the order of the resources, and every resource with two samples and equal newest time stamps or a successful calculation has one |
| ReposValue.IntervalSlotMeaning | repos.c:376-412 | capture time, duration and names of a slot are those of its resource, and its value is eight zero bytes for equal newest time stamps, else what the calculator makes of all the samples; a slot is filled exactly in these cases |
| ReposValue.ValueRequest.ComputePoints | repos.c:366-436 | whichever calculations fail: every write is in bounds, and per resource as many leading slots are retained as calculations succeeded |
| ReposValue.FillSlots | repos.c:414-434 | one slot per sample of a resource, and the number of successes |
| ReposValue.PointSlotMeaning | repos.c:418-431 | time stamp, value and names of a retained slot |
| ReposValue.PointsInResourceOrder | repos.c:413-436 | the slots of a resource follow those of all resources before it |
| ReposValue.PointSlotsComputedIff | repos.c:414-435 | all slots retained for a resource hold computed values if and only if no failed sample precedes a successful one; otherwise a computed value is lost |
| ReposValue.PointHole | repos.c:414-435 | the smallest such case: after a failure and a success, the slot of the failed sample is returned |
| ReposValue.ValueRequest.ReposValueGet | repos.c:310-444 | returns 0 exactly if the metric has a calculator and is known to the repository, `from` is not negative and some value results; then the slots are the values computed from the answers of the addressed resources, in order, and these are the resources of the metric itself, or of its alias if it is calculated (bit 2 of its type) |
| ReposValue.SortedFiltered | repos.c:452-456 | cutting a sorted range: kept and dropped values together are the range, and under a total preorder nothing dropped precedes anything kept |
| ReposValue.ValueRequest.SortAndStrip | repos.c:452-459 | with more than `num` values exactly `num` remain; with at most `num` nothing is changed; no NaN may be among more than 10 values to be sorted |
| ReposValue.ValueRequest.ReposValueGetFiltered | repos.c:446-467 | returns 0 exactly if `num` > 0 and the query succeeds; the result is the query result unchanged if it has at most `num` values, else exactly `num` of them, kept plus dropped being a permutation of the query result, none dropped preceding one kept; no NaN may be among more than 10 values to be sorted |
| ReposValue.TopNumeric | repos.c:446-467 | for integer and boolean metrics with pairwise sortable values the kept values are in the requested order of their numbers, and none dropped belongs before one kept |
| ReposValue.TopReliable | repos.c:446-467 | with pairwise reliable values the same holds in the direction the comparator follows, for booleans the opposite of the requested one |
| ReposValue.TopOthers | repos.c:446-467 | for all other metrics without a NaN the kept values are in the requested order of their type, and none dropped belongs before one kept |
| ReposValue.TopInOrder | repos.c:446-467 | for every type: on pairwise sortable integers or other values without NaN, a filtered query keeps the first `num` in the order a client means, sorted if any are dropped |
| NewestValue.AddedInFront | mreposl.c:115-170 | an addition, with or without a prune, leaves the value in front of the unexpired part of its history |
| NewestValue.PointValues | repos.c:345-436 | a query of a point metric (none of the bits 0x0200, 0x0800, 0x1000) for one resource, under a calculator that succeeds: one value for each sample of the window, up to the number asked for if that is positive |
| NewestValue.IntervalValue | repos.c:336-412 | a query of an interval, rate or average metric (one of these bits): one value made of all samples of the window, or of two for `from` equal to `to`, and none if there are fewer than two |
| NewestValue.AddAndQuery | repos.c:330-348 | writer and reader together: after an addition a query for its metric, resource and system succeeds and begins with the value added, under the id of the metric or of one calculated from it |
| NewestValue.AddAndMeasure | repos.c:336-412 | and one of an interval metric measures the time between the value added and its predecessor |
| Scheduler.FindBlock | mlist.c:174-187 | the unchaining loop finds the block where it is listed |
| Scheduler.FindSlot | mlist.c:193-209 | the loop finds the first block that is due later |
| Scheduler.MetricList.MakeMB | mlist.c:247-258 | a new block is in state CREATED, unlisted, and its due time is not initialised |
| Scheduler.MetricList.ML_SelectNextDue | mlist.c:98-134 | the loop computes the step function `SelectNextDue`: a due READY or RESERVED block goes to IN_PROGRESS with its next due time, else the first later READY block gives the time, and is RESERVED on request |
| Scheduler.MetricList.ML_Relocate | mlist.c:145-213 | computes the step function `Relocate`, including deletion, first insertion and the error return |
| Scheduler.MetricList.ML_Remove | mlist.c:215-245 | computes the step function `Remove` |
| Scheduler.MetricList.ML_Reset | mlist.c:76-96 | computes the step function `Reset` |
| SchedulerRuns.RelocateBusy | mlist.c:173-209 | relocating a listed block in progress succeeds: the same blocks are listed, the block is READY, nothing else changes |
| SchedulerRuns.RelocateNew | mlist.c:159-209 | a first insertion lists the block and succeeds |
| SchedulerRuns.RelocateUnlisted | mlist.c:174-183 | the error return: a block that should be listed and is not |
| SchedulerRuns.RemoveTakesOne | mlist.c:215-245 | a removal takes the first block of its metric out of the list, frees it unless it is in progress, and changes nothing else |
| SchedulerRuns.StaysListed | mlist.c:76-245 | over every run a listed block stays listed, with its metric and interval, until its metric is removed |
| SchedulerRuns.SelectChanges | mlist.c:98-134 | a selection changes at most one waiting block, and never the list |
| SchedulerRuns.ReservationIsExclusive | mlist.c:110-118 | over every run: once a retriever has reserved a later block, no retriever is told to wait for the same block until it is selected or removed or the list is reset |
| SchedulerRuns.FinishOwned | mlist.c:145-213 | the holder of a block never meets the error return that keeps the mutex; ownership is kept |
| SchedulerRuns.InsertOwned | mlist.c:159-209 | nor does the insertion of a new block |
| SchedulerRuns.RemoveOwned | mlist.c:215-245 | a removal keeps ownership: a block in progress is only marked |
| SchedulerRuns.ResetOwnedIff | mlist.c:76-96 | a reset keeps ownership if and only if no listed block is in progress |
| SchedulerRuns.RunOwned | mlist.c:98-245 | in every state of every interleaving of any number of retrievers: a block is held by at most one retriever, what is held is allocated, what is listed is allocated, and every block ever made is either allocated or was freed exactly once |
| SchedulerRuns.FreedByHolder | mlist.c:155-158 | a held block disappears exactly when its holder relocates it after a removal |
| SchedulerRuns.FreedForGood | mlist.c:155-158 | over every run: a block once freed has been freed exactly once and is never again allocated, listed or held |
| SchedulerOrder.SelectLeast | mlist.c:98-134 | in an ordered list with nothing in progress: a block is returned exactly if one is due, and it has the least due time; otherwise no waiting block is overdue, a non-negative time is the least due time of a READY block, and -1 means that none is READY |
| SchedulerOrder.SleepTimeIff | mlist.c:98-134 | if nothing listed is due and some block is READY, the single retriever is told a time to sleep until; it is at most the due time of every listed block if and only if for each RESERVED block some READY block is due no later |
| SchedulerOrder.InsertInOrderIff | mlist.c:159-209 | an insertion keeps the due-time order if and only if no block in progress that is due later stands before a block that is due earlier than the new one |
| SchedulerOrder.ResetOrderedIff | mlist.c:84-93 | under synclevel 1 resets keep the order at every time if and only if each listed interval divides every later one |
| SchedulerOrder.BusyMoved | mlist.c:136-209 | moving the only block in progress to the right of its old place keeps the order |
| SchedulerOrder.RelocatedInOrderIff | mlist.c:173-209 | with any number of blocks in progress, relocating one keeps due-time order if and only if behind its old place no block in progress that is due later stands before a block that is due earlier |
| SchedulerOrder.SoloRunOrdered | mlist.c:98-245 | with one retriever the list is in due-time order in every reachable state, blocks in progress excepted |
| SchedulerOrder.InOrderSorted | mlist.c:98-245 | hence the blocks not in progress are sorted among themselves |
| SchedulerCases.SleepsPastItsReservation | mlist.c:110-118 | a run of a single retriever on a forward clock: at 2 it reserves the block due at 100, at 3 it is woken by an insertion (gather.c:218-224), samples the new block, and is told to sleep until 302 |
| SchedulerCases.ResetMissesDue | mlist.c:84-93 | a synchronised reset of two blocks with intervals 60 and 90 after which a block due at 90 is passed over until 120 |
| SchedulerCases.InsertionMissesDue | mlist.c:193-209 | a list with a block in progress into which a new block is inserted so that a block due at 60 is passed over until 80 |
| SchedulerCases.RelocationMissesDue | mlist.c:173-209 | a list with two blocks in progress of which one is relocated so that a block due at 60 is passed over until 100 |
| SchedulerCadence.RunOnTime | mlist.c:126-168 | in every run without resets and for any number of retrievers: consecutive selections of a block fall in different aligned windows (synclevel 1) or are at least one interval apart (synclevel 0), and under synclevel 1 due times are multiples of the interval |
| SchedulerCadence.DueTimes | mlist.c:86-92 | under synclevel 1 due times given by selection, insertion and reset are the first multiple of the interval after the present; otherwise a new or reset block is due at once (the same formulas at mlist.c:129-130 and mlist.c:161-168) |
| SchedulerCadence.NextWindow | mlist.c:129-130 | a selection at or after the due time set by the previous one falls in a later window |
| SchedulerCadence.WindowsCounted | mlist.c:126-131 | selections in different windows number at most e/I - s/I + 1 within s..e |
| SchedulerCadence.SelectionsBounded | mlist.c:126-168 | in every run without resets, for every block ever made and at every time after, freed or not: the bound on its selections within s..e, for both synclevels |
| Wire.UnpackPack | marshal.c:97-106 | the fields of a struct survive being copied out and in |
| Wire.GetStringOf | marshal.c:46-62 | reading back a marshalled string, present or absent |
| Wire.RowsInOnePiece | marshal.c:160-164 | an array of structs taken as one piece is the structs read one after the other, and fails exactly if they do not fit |
| Wire.MarshalData | marshal.c:65-79 | writes exactly the data, exactly if it is not NULL and fits, and otherwise changes nothing |
| Wire.MarshalString | marshal.c:25-44 | writes the string with its terminator if it fits; an absent string writes nothing, unless it is required |
| Wire.UnmarshalData | marshal.c:81-95 | succeeds exactly if the data lie in the message |
| Wire.StrLen | marshal.c:50-54 | the length of the string at an offset |
| Wire.UnmarshalString | marshal.c:46-62 | reads a string exactly if its pointer is not NULL, and fails exactly if its terminator is not in the message |
| Marshal.RequestRoundTrip | marshal.c:109-176 | for any number of items and any pattern of present and absent strings, parsing a marshalled request returns an equal request and consumes exactly its bytes, whatever follows |
| Marshal.GetValuesOf | marshal.c:128-174 | the same for the items and their data |
| Marshal.SubscriptionRoundTrip | marshal.c:180-208 | the same for subscription requests |
| Marshal.DefinitionsRoundTrip | marshal.c:210-248 | the same for arrays of plugin definitions |
| Marshal.StreamRoundTrip | marshal.c:109-176 | requests marshalled one after another are read back one after another |
| Truncation.Unterminated | marshal.c:46-62 | a string that should be there is refused exactly if no terminator is |
| Truncation.RequestExtended | marshal.c:147-176 | a request that is accepted is read the same whatever follows it, which is left over |
| Truncation.TruncatedRequest | marshal.c:147-176 | no proper beginning of a marshalled request is accepted |
| Truncation.TruncatedSubscription | marshal.c:195-208 | nor of a subscription request |
| Truncation.TruncatedDefinitions | marshal.c:230-248 | nor of an array of plugin definitions |
| MarshalOps.PutItems | marshal.c:133-140 | the loop over the items writes the data of all of them in order, or fails; it fails exactly for a NULL value pointer or lack of room |
| MarshalOps.MarshalValueRequest | marshal.c:109-145 | succeeds exactly if no data pointer is NULL and the request fits; then its bytes stand at the old offset and the offset is advanced by their number; bytes before the offset and from `mbuflen` on are never touched |
| MarshalOps.MarshalSubscriptionRequest | marshal.c:180-193 | succeeds exactly if the request fits; same frame |
| MarshalOps.MarshalDefinitions | marshal.c:210-228 | succeeds exactly if structs and strings fit; same frame |
| MarshalOps.UnmarshalItems | marshal.c:165-173 | the loop over the items reads what the parser says |
| MarshalOps.UnmarshalValueRequest | marshal.c:147-176 | returns what the parser says of the unread bytes, and fails exactly when it does |
| MarshalOps.UnmarshalSubscriptionRequest | marshal.c:195-208 | the same for subscription requests |
| MarshalOps.UnmarshalDefinitions | marshal.c:230-248 | the same for arrays of plugin definitions |
| MarshalOps.ValueRequestInBuffer | marshal.c:109-176 | whatever has been marshalled into a buffer is unmarshalled from it, and the offsets agree |
| MarshalOps.SubscriptionInBuffer | marshal.c:180-208 | the same for subscription requests |
| MarshalOps.DefinitionsInBuffer | marshal.c:210-248 | the same for arrays of plugin definitions |
| Response.PatchRow | reposd.c:512-537 | overwriting a field of one struct in an array of structs |
| Response.FieldStep | reposd.c:512-537 | pointing a field of an item already in the buffer to the data just appended |
| Response.Transfer.Grow | reposd.c:504-509 | reallocation keeps the contents |
| Response.Transfer.Append | reposd.c:500-513 | an append ends within the buffer, which has grown once by the given amount exactly if the room did not suffice |
| Response.Transfer.AppendField | reposd.c:500-513 | growing by the needed size times the number of values suffices whenever there is a value |
| Response.Transfer.EncodeItem | reposd.c:494-553 | one round: value, resource and system follow what was there, the struct points to them, and the result is -1 exactly if one of the strings is missing |
| Response.Transfer.Encode | reposd.c:480-554 | after the loop the buffer holds the request unchanged, all item structs and the data of every item; -1 exactly if some item lacks a string |
| Response.Transfer.Locate | reposd.c:452-468 | the struct and the strings of the received request are read, and the place for the items, computed from them, is the end of the request |
| Response.Transfer.FixRequest | reposd.c:452-479 | the request gets the type (repos.c:369), number and address of the values; its two string pointers stay NULL or not NULL; every other word and everything behind the struct stays |
| Response.Transfer.Respond | reposd.c:445-557 | answering a query of either kind (the second takes 12 bytes of parameters): every write is in bounds; the header keeps its command and gets result and length; unless the query failed or a string is missing, the client's reading of the reply is exactly the items, their type and the rest of its own request, with nothing left over |
| Response.ReplyRoundTrip | rrepos.c:252-276 | the client's reading of such a reply, whatever follows it |
| Response.StoredResult | gatherc.h:61-65 | results from -32768 to 32767 survive in the `short` of the header |
| Exchange.DecodeItem | rrepos.c:263-275 | one round of the client: reads value, resource and system as the item parser does, within the message |
| Exchange.DecodeItems | rrepos.c:262-276 | the client's loop returns what the parser says of the message |
| Exchange.ReadReply | rrepos.c:252-278 | the client finds type, number and place of the items in a reply of either kind (rrepos.c:340-366 for the second) and returns them |
| Exchange.Receive | rrepos.c:235-278 | a reply is decoded exactly if its length is the announced one and its result is 0 |
| Exchange.ComposeRequest | rrepos.c:213-234 | the client's request is header, request struct, strings and, for a filtered query, count and direction (rrepos.c:299-322), each where the lengths before it say |
| Exchange.Send | reposd.c:479-557 | the daemon sends as many bytes as the header announces: the client's reading is the items found and their type, or an error exactly if the query failed or an item lacks a string |
| Exchange.Serve | reposd.c:445-557 | the same from the bytes of the received request |
| Exchange.ValueQuery | rrepos.c:203-284 | a whole query of either kind, wherever the daemon's buffers lie and however often they move: the client ends up with exactly the items the daemon found and their type, or with an error exactly if the query failed or an item lacks a string |
| RemoteQuery.ItemsRoundTrip | rrepos.c:343-366 | values put into item structs and read back from what the client copies out are the same values |
| Layout.RequestLayout | repos.h:86-95 | a marshalled value request field by field: the struct with the widths and the padding of a 64-bit machine, both names, item structs, item data |
| Layout.ItemLayout | repos.h:77-84 | the struct and the data of an item field by field |
| Layout.SubscriptionLayout | repos.h:114-124 | a marshalled subscription request field by field |
| Layout.DefinitionLayout | repos.h:50-59 | the struct of a plugin definition field by field |
| Layout.HeaderLayout | gatherc.h:61-65 | the message header field by field |
| Layout.QueryLayout | rrepos.c:299-322 | a query has command 8, a filtered one 15 (gatherc.h:41-48) and twelve more bytes: the number of values wanted and the direction |
| Layout.SameStruct | reposd.c:452-479 | the fields that daemon and client take from a request struct are the ones of these names that the marshaller writes |
| Layout.QueryStruct | rrepos.c:213-234 | what a client puts into each field of its request, negative times and numbers as two's complement |
| Layout.ValueOnWire | reposd.c:592-666 | what the daemon puts into each field of an item |
| RemoteQuery.ResultDeliverable | repos.c:310-444 | everything a value query computes has both strings and fits the value buffer and the times of the wire format |
| RemoteQuery.Deliverables | reposd.c:592-666 | hence a reply with such values has a bounded length per value and lacks no string |
| RemoteQuery.ReadQuery | reposd.c:567-585 | the daemon reads back the client's query with count and direction |
| RemoteQuery.Answer | reposd.c:558-669 | the daemon's side of a filtered query: from the bytes of the request to the bytes of a reply that reads as the top values of what the repository yields |
| RemoteQuery.TopQuery | rrepos.c:286-372 | a filtered query from the client to the repository and back: the client gets, with their type, the top `num` values of what the metric's calculator makes of the addressed histories, or an error exactly if no value is wanted or none results; if the values are pairwise sortable integers, or of another type without NaN, they are the last ones of their order if the word `ascending` of the request is 0, else the first ones |
| Forwarding.LookupFindsAllIffAscending | sforward.c:129-170 | the search that stops at the first larger id finds every entry of a list with distinct ids if and only if the list is ascending |
| Forwarding.LookupIff | sforward.c:129-170 | in an ascending list an id is found exactly if it is present, and the entry found has this id |
| Forwarding.EnableKeeps | sforward.c:43-83 | while ids are ints, adding an entry keeps the list strictly ascending, without duplicates, and true to what was issued |
| Forwarding.DisableKeeps | sforward.c:85-119 | removing an entry keeps all that, and adds nothing |
| Forwarding.RunValid | sforward.c:43-119 | over every run of enable and disable: strictly ascending local ids, at most one entry per (metric, client id, listener), every entry as issued |
| Forwarding.LocalIdMeansOneSubscriber | sforward.c:43-170 | whenever in a run a local id is found, it leads to the same listener, metric and client id |
| Forwarding.NeverReissued | sforward.c:68-70 | an id that was issued and is gone stays gone |
| Forwarding.DisabledReachesNobody | sforward.c:85-119 | after its subscriber disabled it, a local id reaches nobody, however the run continues |
| Forwarding.OthersStay | sforward.c:85-119 | everybody else can still be reached by his local id after somebody disabled his subscription |
| Forwarding.StaysReachable | sforward.c:43-170 | over every run an entry that its subscriber does not disable is found by its local id |
| Forwarding.EnabledReached | sforward.c:43-83 | a new subscriber is reached by the local id put in his request, with his own metric, client id and listener |
| Forwarding.EnableAscendingIff | sforward.c:68-81 | for any counter value, adding an entry keeps the list ascending if and only if the list is empty or its last id is below the truncated counter |
| Forwarding.LookupAppendedIff | sforward.c:129-170 | in any list, sorted or not, an entry added at the end is found by its id if and only if all ids before it are smaller |
| Forwarding.NewIdFoundIff | sforward.c:68-81 | for any table and counter, a new local id leads to its subscriber if and only if all ids in the table are smaller |
| Forwarding.WrapAround | sforward.c:68-81 | an id issued after 2^31-1 (and before the counter has gone round) is found if and only if all other ids in the table are negative and smaller; the first of them if and only if the table was empty |
| Forwarding.OverflowHides | sforward.c:68-81 | with an entry from before the overflow in the table, no id issued after it is found |
| Forwarding.CounterReaches | sforward.c:43-119 | one subscription that stays and one that comes and goes: a run from the empty table to any counter value |
| Forwarding.OverflowReached | sforward.c:43-119 | so for every id from -2^31 to -1 there is a run from the empty table in which it is issued and does not lead to its subscriber |
| Forwarding.LocalIdReachesSubscriberIff | sforward.c:50-81 | the id left in the request leads back to its subscriber if and only if the subscriber was not in the table yet or its own id happens to be the local one |
| Forwarding.RepeatedSubscriptionReachesAnother | sforward.c:50-58 | a concrete table in which the id left by a repeated subscription belongs to another listener |
| Forwarding.MessageRoundTrip | sforward.c:132-136 | a listener reads from a message its client's original id and the values |
| Forwarding.MessageLayout | sforward.c:132-136 | four bytes of the original client id, then the marshalled values |
| Forwarding.ForwardingTable.Search | sforward.c:50-61 | the first entry for a subscriber, names compared as strings |
| Forwarding.ForwardingTable.Enable | sforward.c:43-83 | the whole effect on table, counter and the id in the request |
| Forwarding.ForwardingTable.Disable | sforward.c:85-119 | removes the first matching entry; 0 exactly if there was one |
| Forwarding.ForwardingTable.Forward | sforward.c:121-170 | sends exactly if the id is found and the message fits into 1000 bytes, and then to the listener of the entry, with its original client id |
| SendResponse.Advance | comms/mcserv_unix.c:251-260 | skipping what a write has taken leaves exactly the bytes not yet written |
| SendResponse.TotalTaken | comms/mcserv_unix.c:250-265 | how much all writes take together: never more than there is, and all of it if every write takes something |
| SendResponse.MessageLayout | comms/mcserv_unix.c:243-249 | eight bytes of header, eight of length, and the data |
| SendResponse.WriteAll | comms/mcserv_unix.c:250-265 | the bytes emitted are the beginning of header, length and data, as long as the writes together take; the loop ends |
| SendResponse.McsSendResponse | comms/mcserv_unix.c:239-275 | whatever each write takes: the bytes emitted are a prefix of header ++ length ++ data, and the result is 0 exactly if they are all of it |
| Channel.ReadDigitsOf | plugin/channelutil.c:104-108 | reading a printed number digit by digit, in decimal and hexadecimal |
| Channel.GetNumberOf | plugin/channelutil.c:155-159 | a printed number is read back, and exactly its digits are consumed |
| Channel.ScanFieldsOf | plugin/channelutil.c:155-186 | a printed list of fields is scanned completely, at the end of the text or before the separator |
| Channel.UtilizationText | plugin/channelutil.c:96-143 | a printed record has at most 92 characters, so the limit of 255 never cuts it, and it does not contain the separator |
| Channel.UtilizationRoundTrip | plugin/channelutil.c:96-195 | for groups 1 to 3 parsing a printed record recovers group, validity byte, timestamp and every counter, and leaves the other words of the caller's struct alone |
| Channel.CharacteristicsRoundTrip | plugin/channelutil.c:239-302 | the same for the characteristics of groups 2 and 3 |
| Channel.SplitsWhereJoined | plugin/metriczCH.c:131-133 | joined records are split where they were joined |
| Channel.MetricBlockRoundTrip | plugin/repositoryzCH.c:189-195 | both records survive being joined and split; characteristics of other groups leave the caller's struct unchanged |
| Channel.UtilizationLayout | plugin/channelutil.c:96-143 | the text of a record: group, validity byte in hexadecimal, timestamp, and the counters of the group in their order of output, each by its place in the struct |
| Channel.CharacteristicsLayout | plugin/channelutil.c:239-268 | the text of the characteristics in the same way, joined to a record by an exclamation mark |
| Channel.TruncatedText | plugin/channelutil.c:97-104 | at most 254 characters are kept |
| Channel.BrokenOff | plugin/channelutil.c:145-195 | a record that breaks off sets the validity byte, the timestamp and the counters that it has, and no other field |
| Channel.Refused | plugin/channelutil.c:145-195 | a text of less than three characters sets nothing, one of another group only the group; both are refused |
| Channel.NothingRead | plugin/channelutil.c:155-159 | where no digit is found a number, a list and a record set nothing |
| Channel.UpperBitsLost | plugin/channelutil.c:155-159 | numbers too large for their field lose their upper bits |
| Channel.ChannelUtilization.Destringify | plugin/channelutil.c:145-195 | fills the struct as the parser function says, and is false exactly when the source returns NULL |
| Channel.ChannelMeasurementCharacteristics.Destringify | plugin/channelutil.c:270-302 | the same for characteristics |
| Channel.ParseMetricBlock | plugin/repositoryzCH.c:189-195 | fills both structs; without a separator neither is touched |
| Channel.WrapSafe24Delta | plugin/repositoryzCH.c:201-208 | for two 24-bit timestamps, the number of ticks from one to the other modulo 2^24 |

## Left out

- LocalRepository.LocalRepository.LocalMetricRetrieve: asks, for a query naming only a resource or only a system, that the matching resources come first; otherwise the source dereferences NULL (mreposl.c:210-211), which has no result to model. That the flag marking the copy is overwritten (mreposl.c:561-572) is not modelled.
- ReposValue.ValueRequest.ReposValueGet: asks that the histories of the metric are newest-first, which RepositoryRuns.BoundedAge shows of timely runs; out of order, the time difference given to a calculator can be 0 or negative.
- ReposValue.ValueRequest.ReposValueGet: the length of a computed value is that of the value the calculator leaves; the fixed length of 100 bytes (repos.c:380) is not modelled.
- Compare.SortsNumericallyIff: bytes read beyond a value shorter than its type are taken as 0.
- Compare.OthersSortedIff: infinities are numbers beyond all finite ones, and differences of floating-point numbers are exact in sign.
- ReposValue.ValueRequest.ReposValueGetFiltered: asks, where more than 10 values are to be sorted, that none is a NaN; with one as a pivot the source leaves the array or does not return (`Compare.NaNPivot`), which has no result to model.
- Response.Transfer.Respond: `realloc` never fails; the addresses it returns are arbitrary but not NULL.
- Exchange.ComposeRequest: asks that the request fits into the client's buffer of 10000 bytes; the source does not check it.
- Exchange.ValueQuery: asks that the length of the reply fits the 32-bit field of the header. The announcement of replies beyond 10000 bytes (reposd.c:685-701) and the transport (mcserv_unix.c, mcclt_unix.c) are taken to deliver request and reply unchanged; the writing side is module SendResponse.
- RemoteQuery.TopQuery: asks the same of NaN, and for `num` and names so short that the reply fits that field, for values within the 100 bytes of the buffer, and for times not before the epoch. The daemon's global filter (reposd.c:473-477) is left out.
- Forwarding.ForwardingTable.Enable: the counter is unbounded; the overflow of the `long` after 2^63-1 ids and listener names longer than a socket path are not modelled.
- Channel.UtilizationRoundTrip: the conversions of `sscanf` and `atoi` are modelled on digits; leading blanks, signs and a `0x` prefix are not, since the printer makes none.
- Scheduler.MetricList.ML_SelectNextDue: `%` is Euclidean; for negative times it differs from C's. The order theorem asks for non-negative times.
- Scheduler.MetricList.ML_Relocate: a block is a name; that `malloc` may return an address again after `free` is not modelled.
- Unmarshalling returns the values it reads; the pointer fix-ups inside the message buffer are not modelled. Padding bytes are 0 when written.
- NULL arguments, mutex failures, `malloc` failures, tracing and logging.
- Callback registration and its use counts (mreposl.c:291-341): the count is not initialised, and unlinking the second node drops the first.
- `ML_Finish`, and the condition-variable protocol of mretr.c: untimed sleep does not recheck the command, so no liveness is claimed.
- Subscription lists in repos.c and slisten.c: an insertion can land one node early.
- Header reads with `readv`, the LISTPLUGIN and LISTRESOURCES encoders, the conversion of 32-bit metric values.
- `int` overflow in the binary search midpoint (mreposl.c:496), for more than 2^30 resources of one metric.
- Percentages and rates computed by the plugins, registries, metric tables, sockets, configuration, command-line tools.
