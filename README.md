# Cloud Analytics instrumentation core, modelled in Dafny

This project models the core of the Cloud Analytics (CA) instrumentation
stack:

- **the kstat engine** (`cmd/cainst/modules/kstat.js`). Each metric is built
  from a descriptor: a module, a stat, a label, a type, a kstat selector,
  an optional filter, an extract function and a list of fields. The engine
  checks the descriptor, adds a `hostname` field, and registers the metric
  with the instrumenter. Each tick it does the following:
  - reads a kstat snapshot;
  - expands every kstat into the cross product of its field values
    (the "data points");
  - applies the predicate;
  - folds the surviving points into decompositions: a plain sum,
    per-key discrete entries, or a distribution of buckets.
  The engine has two bucketizers:
  - *linear*: buckets of fixed width `step`;
  - *log-linear*: per decade `[base^k, base^(k+1))`, the decade is cut
    into `(base-1)*nbuckets/base` buckets of equal width `base^(k+1)/nbuckets`, and everything below
    `base^min` goes to one underflow bucket.
- **the instrumenter service** (`cmd/cainstsvc.js`). This service:
  - keeps the module and metric registry that the backends fill;
  - advertises that registry to the configuration service;
  - enables and disables instrumentations on command, and answers each
    command with exactly one reply;
  - emits one data message per active instrumentation per tick, skipping a
    tick in the same wall-clock second as the previous one.
- **the configuration service** (`cmd/caconfigsvc.js`). This service:
  - merges the modules that instrumenters advertise into one catalog;
  - records the instrumenters and aggregators that come online, and
    re-enables their instrumentations;
  - keeps the table of instrumentations in per-customer and global scopes,
    whose keys are qualified ids;
  - answers create, delete, list and get-properties requests with the
    source's HTTP codes;
  - fans out the admin status request and answers it once all nodes have
    replied.

The Dafny files:

| file | models |
|---|---|
| `Wrappers.dfy` | `Option`, standing for values that may be absent (`undefined`) |
| `Buckets.dfy` | the linear and log-linear bucketizers, and the invariants of a bucket list (ordered, disjoint, canonical ranges, weight conservation) |
| `KstatEngine.dfy` | descriptor validation, registration, data-point expansion, predicates, decompositions, and the `KstatMetric` class (`insKstatAutoMetric`) |
| `KstatExtract.dfy` | the shipped metric descriptors (nics, disks, physio, tcp connections, segments, errors) with their values and extract functions |
| `Instrumenter.dfy` | the instrumenter's module registry, the advertisement, enable, disable, instrumenter completion and tick |
| `ConfigService.dfy` | the catalog merge, the instrumenter and aggregator records, qualified ids, the instrumentation tables and the HTTP handlers, and the admin status fan-out |

Naming:
- The source's `label` is written `title` throughout, because `label` is a
  Dafny keyword.
- The source's `module` becomes `modname`, `class` becomes `kclass`, and the
  predicate `predicate` becomes `pred`.
- Objects whose fields the source mutates in place are Dafny classes:
  `KstatMetric`, `Instrumenter`, `ConfigService` and `StatusRequest`. The
  JavaScript dictionaries they mutate are `map` fields that the methods
  reassign.

Where the source cites a value as `kstat['data'][key] - klast['data'][key]`,
a counter missing from a snapshot is read as 0 (`KstatExtract.Counter`).
JavaScript would give `NaN` instead.

## Model

| member | source | states |
|---|---|---|
| Buckets.Slot | cmd/cainst/modules/kstat.js:812-824 | the search stops at the first bucket whose range holds the value or starts above it; every bucket before it lies wholly below the value |
| Buckets.SlotIs | cmd/cainst/modules/kstat.js:812-824 | any index with the stopping property of the search is the one the search finds |
| Buckets.Search | cmd/cainst/modules/kstat.js:815-827 | the loop finds the search slot, and `found` holds exactly when the bucket at that slot contains the value; this is the basis of the two assertions at lines 826-827 |
| Buckets.InsertWeight | cmd/cainst/modules/kstat.js:812-834 | inserting a value with cardinality c adds exactly c to the total weight of the bucket list |
| Buckets.InsertMerges | cmd/cainst/modules/kstat.js:817-820 | in an ordered list, a value inside an existing bucket only adds c to that bucket and changes nothing else |
| Buckets.InsertOrdered | cmd/cainst/modules/kstat.js:826-833 | a new range that contains the value and is equal to or disjoint from every existing range keeps the list ordered and disjoint |
| Buckets.InsertSortedByLo | cmd/cainst/modules/kstat.js:826-833 | the splice keeps the list sorted by lower bound when the new range starts after every bucket before the slot |
| Buckets.InsertRanges | cmd/cainst/modules/kstat.js:826-833 | after an insert, every range in the list is either an old range or the new one |
| Buckets.InsertHolds | cmd/cainst/modules/kstat.js:812-834 | after an insert, some bucket contains the inserted value |
| Buckets.LinearRangeContains | cmd/cainst/modules/kstat.js:829-831 | the linear bucket `[floor(v/step)*step, +step-1]` contains v and is exactly `step` wide |
| Buckets.LinearRangePartition | cmd/cainst/modules/kstat.js:829-831 | any two linear buckets are identical or disjoint |
| Buckets.LinearInsertPreserves | cmd/cainst/modules/kstat.js:812-834 | a linear insert keeps the list ordered, disjoint and step-aligned, adds c to the weight, and leaves a bucket that holds v |
| Buckets.LinearInsertMerges | cmd/cainst/modules/kstat.js:817-820 | a value already covered by a bucket only raises that bucket's count |
| Buckets.LinearInsertSplices | cmd/cainst/modules/kstat.js:826-833 | an uncovered value is spliced in at the search slot, between the buckets below it and those above it, as the step-aligned bucket |
| Buckets.LinearBucketize | cmd/cainst/modules/kstat.js:812-834 | the imperative search-and-splice computes the linear insert |
| Buckets.FloorLog | cmd/cainst/modules/kstat.js:869 | the decade exponent k satisfies `base^k <= v < base^(k+1)`; this is what the floating-point `Math.log` quotient is meant to compute, and differs from it where the quotient rounds down (see Findings) |
| Buckets.FloorLogUnique | cmd/cainst/modules/kstat.js:869 | that exponent is unique |
| Buckets.ShippedLogParams | cmd/cainst/modules/kstat.js:151 | the shipped parameters (base 10, min 2, 100 buckets) meet the divisibility the log-linear arithmetic needs |
| Buckets.DecadeFacts | cmd/cainst/modules/kstat.js:869-875 | in each decade at or above min, the step is a positive integer, `base^k` is a whole number of steps, and the decade holds `(base-1)*nbuckets/base` steps |
| Buckets.FloorLogAtLeast | cmd/cainst/modules/kstat.js:865-869 | a value at or above `base^min` lies in a decade at or above min |
| Buckets.RegularStable | cmd/cainst/modules/kstat.js:868-876 | every value inside a regular log-linear bucket is mapped to that same bucket |
| Buckets.LogRangeContains | cmd/cainst/modules/kstat.js:865-877 | for a non-negative value, both the as-written and the corrected log-linear range contain it, and a value at or above `base^min` never gets a range starting below `base^min` |
| Buckets.LogRangeStable | cmd/cainst/modules/kstat.js:865-877 | every value inside the corrected log-linear range of a non-negative value is mapped to that same range |
| Buckets.LogRangePartition | cmd/cainst/modules/kstat.js:865-877 | the corrected log-linear ranges of any two non-negative values are identical or disjoint |
| Buckets.LogInsertPreserves | cmd/cainst/modules/kstat.js:846-880 | the corrected log-linear insert of a non-negative value keeps the list ordered, disjoint and canonical, adds c to the weight, and leaves a bucket that holds v |
| Buckets.LogInsertAsWrittenSorted | cmd/cainst/modules/kstat.js:846-880 | as written, the insert of a non-negative value still keeps the list sorted by lower bound and canonical, and adds c to the weight; disjointness is not kept (see Findings) |
| Buckets.AsWrittenOverlap | cmd/cainst/modules/kstat.js:865-868 | as written, inserting 100 and then 50 yields the overlapping buckets `[0,100]` and `[100,109]`, while the other order puts both values in `[0,100]` |
| Buckets.CorrectedNoOverlap | cmd/cainst/modules/kstat.js:865-868 | with the underflow bucket `[0, base^min - 1]`, both orders yield `[0,99]` and `[100,109]` |
| Buckets.NegativeUnderflow | cmd/cainst/modules/kstat.js:865-867 | a negative value gets the underflow bucket, in both versions, and that bucket does not hold it |
| Buckets.NegativeDuplicates | cmd/cainst/modules/kstat.js:848-880 | two negative values leave two copies of the underflow bucket, so the list is no longer ordered |
| Buckets.FloorLogRounded | cmd/cainst/modules/kstat.js:869 | the exponent as the double quotient gives it is at least min, and is the exact exponent except at a power of the base where the quotient rounds down, where it is one less |
| Buckets.RoundedAgrees | cmd/cainst/modules/kstat.js:865-876 | where the quotient does not round down, the rounded computation gives the as-written range |
| Buckets.MisroundedOverlap | cmd/cainst/modules/kstat.js:869-876 | with the quotient rounding down at 1000, 1000 gets `[1000,1009]` and 1050 gets `[1000,1099]`, so inserting 1000 then 1050 leaves overlapping buckets; the exact exponent puts both in `[1000,1099]` |
| Buckets.RegularBucket | cmd/cainst/modules/kstat.js:868-876 | the bucket-bounds computation yields the regular log-linear range |
| Buckets.LogLinearBucketizeAsWritten | cmd/cainst/modules/kstat.js:846-880 | the imperative search-and-splice computes the as-written log-linear insert |
| Buckets.LogLinearBucketize | cmd/cainst/modules/kstat.js:846-880 | the imperative search-and-splice computes the corrected log-linear insert |
| Buckets.BucketizePreserves | cmd/cainst/modules/kstat.js:803-808 | a bucketizer made by either factory, with the corrected log-linear insert and for a value in its domain (any value for linear, a non-negative one for log-linear), keeps an ordered, canonical list ordered and canonical, and adds the cardinality to the weight |
| Buckets.BucketizeWeight | cmd/cainst/modules/kstat.js:836-842 | every bucketizer adds exactly the cardinality to the total weight, for every input |
| Buckets.BucketizeValue | cmd/cainst/modules/kstat.js:803-842 | the closure that either factory returns computes the bucketizer's insert; for log-linear this is the corrected insert |
| Buckets.LinearExample | cmd/cainst/modules/kstat.js:812-834 | inserting 3, 3 and 15 with step 10 gives `[[0,9],2]` and `[[10,19],1]` |
| KstatEngine.Lookup | cmd/cainst/modules/kstat.js:499-500 | a field lookup succeeds exactly when a field of that name is declared, and returns that field's info |
| KstatEngine.ValidateMetric | cmd/cainst/modules/kstat.js:392-424 | the validator accepts exactly the descriptors with a non-empty module, stat, label and type, a non-empty kstat selector and an extract, and whose every field has a non-empty label and a type of known arity, with a bucketizer when numeric and none when discrete; a field's values function is optional |
| KstatEngine.SetField | cmd/cainst/modules/kstat.js:442-446 | setting a field either replaces an entry in place or appends the new field |
| KstatEngine.SetFieldFacts | cmd/cainst/modules/kstat.js:442-446 | after the set, names stay distinct, the field maps to the new info, and every other field is unchanged |
| KstatEngine.WithHostnameValid | cmd/cainst/modules/kstat.js:442-453 | after the hostname field is forced in, the descriptor is valid exactly when its header and all its other fields are valid; the hostname field is present with the host's value |
| KstatEngine.Specs | cmd/cainst/modules/kstat.js:455-460 | the advertised field specs list every field's name, type and label, in order |
| KstatEngine.PrepareFacts | cmd/cainst/modules/kstat.js:429-473 | a metric is registered exactly when its hostname-augmented descriptor validates; it is then registered under its module and stat with a hostname field and every declared field |
| KstatEngine.ExpandCount | cmd/cainst/modules/kstat.js:746-801 | the expansion yields exactly the product of the fields' value counts |
| KstatEngine.ExpandKeys | cmd/cainst/modules/kstat.js:746-801 | every expanded point assigns exactly the declared fields |
| KstatEngine.ExpandValues | cmd/cainst/modules/kstat.js:759-800 | every expanded point gives each field one of that field's values |
| KstatEngine.NameAsValue | cmd/cainst/modules/kstat.js:759-762 | a field without a values function takes its own name as its one value |
| KstatEngine.ExpandComplete | cmd/cainst/modules/kstat.js:746-801 | every combination of field values appears among the expanded points |
| KstatEngine.Reverse | cmd/cainst/modules/kstat.js:799-800 | popping the extra points pushes them in reverse order |
| KstatEngine.SingleAssignments | cmd/cainst/modules/kstat.js:769-777 | the base case makes one point per value of the last field |
| KstatEngine.AssignField | cmd/cainst/modules/kstat.js:786-798 | the recursive case assigns the first value to each sub-point in place and collects a copy for each further value |
| KstatEngine.PopOnto | cmd/cainst/modules/kstat.js:799-800 | the pop loop appends the extra points in reverse order |
| KstatEngine.DataPointsFrom | cmd/cainst/modules/kstat.js:746-801 | the recursive generator computes the expansion of the fields from index `ii` on |
| KstatEngine.KstatDataPoints | cmd/cainst/modules/kstat.js:727-744 | each data point carries an expanded assignment and the extract value for it |
| KstatEngine.PointsFacts | cmd/cainst/modules/kstat.js:727-801 | the points of a kstat are exactly the product of the field value lists, each with its extract value, and no combination is missing |
| KstatEngine.Filter | cmd/cainst/modules/kstat.js:558-565 | the predicate keeps exactly the points it accepts, and no others |
| KstatEngine.Matching | cmd/cainst/modules/kstat.js:686-694 | the points grouped under a key are exactly those whose field equals the key |
| KstatEngine.Observed | cmd/cainst/modules/kstat.js:678-685 | the discrete keys are distinct and are exactly the values the field takes among the points |
| KstatEngine.PartitionSum | cmd/cainst/modules/kstat.js:678-696 | summing per key over keys that cover every point adds up to the total |
| KstatEngine.BucketizeAllWeight | cmd/cainst/modules/kstat.js:666-676 | bucketizing all points adds exactly their total value to the distribution's weight |
| KstatEngine.Conservation | cmd/cainst/modules/kstat.js:650-697 | the decomposed value (a scalar, keyed entries or a distribution) totals exactly the sum of the points' values |
| KstatEngine.EntriesTotal | cmd/cainst/modules/kstat.js:678-696 | the entries of a discrete decomposition total the sum of the points under their keys |
| KstatEngine.DiscreteShape | cmd/cainst/modules/kstat.js:678-696 | a discrete step makes one entry per observed key, holding the decomposition of that key's points |
| KstatEngine.MatchingNonEmpty | cmd/cainst/modules/kstat.js:686-694 | every observed key has at least one point |
| KstatEngine.BucketizeAllOrdered | cmd/cainst/modules/kstat.js:666-676 | a numeric decomposition of values in the bucketizer's domain yields an ordered, canonical bucket list, using the corrected log-linear insert |
| KstatEngine.NumericShape | cmd/cainst/modules/kstat.js:666-676 | for values in the bucketizer's domain, the numeric step is the last one and yields an ordered distribution (corrected log-linear insert) whose weight is the points' sum |
| KstatEngine.ArrangedPermutation | cmd/cainst/modules/kstat.js:496-511 | rearranging the decompositions keeps the same multiset of field names |
| KstatEngine.ArrangedOrder | cmd/cainst/modules/kstat.js:496-511 | the discrete fields come first and the numeric ones last |
| KstatEngine.ArrangedPlan | cmd/cainst/modules/kstat.js:496-513 | with at most one numeric field, the arranged decomposition is a valid plan for the fold |
| KstatEngine.ZeroIsEmptyFold | cmd/cainst/modules/kstat.js:515-518 | the zero value is the decomposition of no points, and its total is 0 |
| KstatEngine.Arrange | cmd/cainst/modules/kstat.js:496-513 | the constructor's loop arranges the decompositions and counts the discrete and numeric ones |
| KstatEngine.GatherFrom | cmd/cainst/modules/kstat.js:625-634 | every gathered point comes from a kstat present in both snapshots |
| KstatEngine.GatherOf | cmd/cainst/modules/kstat.js:625-634 | every point of every kstat present in both snapshots is gathered |
| KstatEngine.GatherPoints | cmd/cainst/modules/kstat.js:625-634 | the gathering loop collects the points of every kstat in snapshot order |
| KstatEngine.EvaluateTotal | cmd/cainst/modules/kstat.js:609-645 | a reported value totals the sum of the values of the filtered data points |
| KstatEngine.KstatMetric.constructor | cmd/cainst/modules/kstat.js:478-519 | the metric keeps its fields, extract and predicate, arranges its decompositions, and precomputes a zero equal to the decomposition of no points |
| KstatEngine.KstatMetric.Value | cmd/cainst/modules/kstat.js:609-645 | the first call returns the zero and remembers the snapshot; later calls return the evaluation against the previous snapshot, with log-linear fields bucketized by the corrected insert |
| KstatExtract.NatDigits | cmd/cainst/modules/kstat.js:285 | the decimal rendering of an instance number is a non-empty digit string without a leading zero |
| KstatExtract.NatDigitsRoundTrip | cmd/cainst/modules/kstat.js:285 | the digit string reads back as the number |
| KstatExtract.DecimalRoundTrip | cmd/cainst/modules/kstat.js:285 | the decimal rendering of any integer parses back to it |
| KstatExtract.InstanceNamesDistinct | cmd/cainst/modules/kstat.js:285 | distinct instances get distinct `tcp<instance>` names |
| KstatExtract.ErrorKey | cmd/cainst/modules/kstat.js:370-383 | the table search returns the kstat key of the matching error type |
| KstatExtract.ErrKeyRoundTrip | cmd/cainst/modules/kstat.js:360-383 | every listed error type maps back to its own kstat counter |
| KstatExtract.ErrKeyFallback | cmd/cainst/modules/kstat.js:370-382 | an unlisted error type falls through to the last counter, `timRetransDrop` |
| KstatExtract.ErrtypeValues | cmd/cainst/modules/kstat.js:385-390 | the errtype values are the table's display names, in order |
| KstatExtract.ErrtypeValuesRoundTrip | cmd/cainst/modules/kstat.js:385-390 | every errtype value is mapped by the extract to its own counter |
| KstatExtract.ThroughputValid | cmd/cainst/modules/kstat.js:148-158 | every labelled throughput field is a valid numeric field with a log-linear bucketizer |
| KstatExtract.NicsValid | cmd/cainst/modules/kstat.js:119-181 | the nics descriptor passes validation |
| KstatExtract.DisksValid | cmd/cainst/modules/kstat.js:182-245 | the disks descriptor passes validation |
| KstatExtract.PhysioValid | cmd/cainst/modules/kstat.js:246-272 | the physio descriptor passes validation |
| KstatExtract.ConnectionsValid | cmd/cainst/modules/kstat.js:273-295 | the connections descriptor passes validation |
| KstatExtract.SegmentsValid | cmd/cainst/modules/kstat.js:296-318 | the segments descriptor passes validation |
| KstatExtract.ErrorsValid | cmd/cainst/modules/kstat.js:319-340 | the errors descriptor passes validation |
| KstatExtract.PhysioTotal | cmd/cainst/modules/kstat.js:246-272 | the physio points of a disk sum to its read delta plus its write delta |
| KstatExtract.ConnectionsAt | cmd/cainst/modules/kstat.js:342-349 | the connection extract reads the `<conntype>Opens` counter delta |
| KstatExtract.ConnectionsExpand | cmd/cainst/modules/kstat.js:273-295 | a tcp kstat expands to one active and one passive point |
| KstatExtract.ConnectionsTotal | cmd/cainst/modules/kstat.js:273-295 | the connection points sum to the active plus passive open deltas |
| KstatExtract.SegmentsTotal | cmd/cainst/modules/kstat.js:296-358 | the segment points sum to the sent plus received segment deltas |
| Instrumenter.RedeclareSameLabel | cmd/cainstsvc.js:106-108 | as written, redeclaring with the module's own label throws, unless the label is literally `[object Object]`; the corrected check throws exactly when the labels differ |
| Instrumenter.DiskRedeclared | cmd/cainstsvc.js:92-108 | the kstat backend's `disk` module ("Disk I/O"), redeclared with the same label by a second backend implementing the same metrics, makes the as-written check throw and passes the corrected check |
| Instrumenter.FirstByNameFacts | cmd/cainstsvc.js:263-289 | an advertised stat lists each field name once, covers every field of every implementation, and takes each field's description from its first implementation |
| Instrumenter.EnableDecisionFacts | cmd/cainstsvc.js:389-430 | an enable fails with "missing field" exactly when a member is absent; with every member present it answers "enabled" exactly when the id is active, and otherwise fails with "unknown module or stat" exactly when the module or stat is unknown or has no implementation; a start uses the stat's first implementation |
| Instrumenter.EnableIdempotent | cmd/cainstsvc.js:405-410 | once an enable has started, the same command is answered "enabled" |
| Instrumenter.TickDataCount | cmd/cainstsvc.js:336-345 | a tick sends as many data messages as there are instrumentations |
| Instrumenter.SameSecondClose | cmd/cainstsvc.js:330-333 | two ticks in the same second are less than 1000 ms apart, and ticks 1000 ms or more apart are never suppressed |
| Instrumenter.Instrumenter.constructor | cmd/cainstsvc.js:13-14 | the instrumenter starts with no modules, instrumentations, pending work or tick |
| Instrumenter.Instrumenter.RegisterModuleAsWritten | cmd/cainstsvc.js:80-109 | as written, a new module is added with its label; a redeclaration throws under the object-to-string comparison |
| Instrumenter.Instrumenter.RegisterModule | cmd/cainstsvc.js:80-109 | a new module is added with its label and no stats; a redeclaration changes nothing and throws exactly when the label differs |
| Instrumenter.Instrumenter.RegisterMetric | cmd/cainstsvc.js:176-226 | a metric in an unknown module or of an unknown type throws and changes nothing; otherwise it is appended as the stat's next implementation |
| Instrumenter.Instrumenter.GetModules | cmd/cainstsvc.js:250-296 | the advertisement lists every module in order, each with its stats and their first-seen fields |
| Instrumenter.Instrumenter.Enable | cmd/cainstsvc.js:389-455 | an enable replies "enable_failed" or "enabled" at once, or records the instrumentation and waits for the backend |
| Instrumenter.Instrumenter.Disable | cmd/cainstsvc.js:460-495 | a disable with no id fails; an unknown id is reported disabled; a known id waits for the backend |
| Instrumenter.Instrumenter.Complete | cmd/cainstsvc.js:436-453 | a backend completion sends exactly one reply; a successful disable removes the instrumentation, and a failed enable leaves it recorded |
| Instrumenter.Instrumenter.Tick | cmd/cainstsvc.js:320-348 | a tick in the same second as the last changes nothing; otherwise it appends one data message per instrumentation and records the time |
| Instrumenter.ModuleStats | cmd/cainstsvc.js:263-289 | the stat loop yields the advertisement of every stat of the module |
| Instrumenter.StatEntry | cmd/cainstsvc.js:264-286 | the implementation loop yields the stat's advertisement, taking description and type from the last implementation |
| Instrumenter.AddFields | cmd/cainstsvc.js:276-285 | the field loop skips names already seen and keeps the first description of each field |
| Instrumenter.TickMessages | cmd/cainstsvc.js:336-345 | the tick loop sends exactly one data message per instrumentation, with its own key, value and time |
| ConfigService.MergeFieldsFacts | cmd/caconfigsvc.js:703-714 | merging advertised fields keeps every known field, adds every advertised one, and invents none |
| ConfigService.MergeFieldsFirst | cmd/caconfigsvc.js:703-714 | a field the merge adds holds the type and label of the first advertisement naming it |
| ConfigService.MergeStatFacts | cmd/caconfigsvc.js:693-714 | merging one advertised stat keeps the module's label and known stats and adds that stat with its fields; a new stat takes the advertised label and type, and each of its fields the type and label of the first advertisement of that field |
| ConfigService.MergeStatsFacts | cmd/caconfigsvc.js:690-715 | merging a module's stats keeps its known stats, adds every advertised one, and invents none |
| ConfigService.MergeStatsFirst | cmd/caconfigsvc.js:690-700 | a stat the merge adds holds the label and type of the first advertisement naming it |
| ConfigService.MergeModuleFacts | cmd/caconfigsvc.js:681-715 | merging one module extends the catalog by exactly that module name; a new module takes the advertised label, and each of its stats the label and type of the first advertisement of that stat |
| ConfigService.MergeCatalogFacts | cmd/caconfigsvc.js:680-716 | the merged catalog extends the old one, holds every advertised module, and adds nothing else |
| ConfigService.MergeCatalogFirst | cmd/caconfigsvc.js:680-688 | a module the merge adds holds the label of the first advertisement naming it |
| ConfigService.MergeTransformsFacts | cmd/caconfigsvc.js:640-644 | merged transformations keep every known entry and add each new one (the first writer wins) |
| ConfigService.QualifiedIdInjective | cmd/caconfigsvc.js:42-59 | distinct customer and instrumentation ids give distinct qualified ids, when the customer id has no `;` |
| ConfigService.PropsFacts | cmd/caconfigsvc.js:439-462 | the read properties are exactly the six known names present in the JSON body, or else in the form fields, with their values |
| ConfigService.ReadProps | cmd/caconfigsvc.js:439-462 | the property loop computes those properties |
| ConfigService.ConfigService.constructor | cmd/caconfigsvc.js:36-62 | the service starts with empty tables and no commands sent |
| ConfigService.ConfigService.Instrumentations | cmd/caconfigsvc.js:184-193 | the scope of a customer, or the global scope, is returned; an unseen customer is given an empty scope, and nothing else changes |
| ConfigService.ConfigService.InstrumenterOnline | cmd/caconfigsvc.js:655-729 | the instrumenter's record is refreshed keeping its instrumentations, its modules are merged into the catalog, and each of its instrumentations is re-enabled on it exactly once |
| ConfigService.ConfigService.AggregatorOnline | cmd/caconfigsvc.js:604-650 | a message without port or transformations changes nothing; otherwise the record is refreshed, the transformations are merged, and each instrumentation is re-enabled exactly once |
| ConfigService.ConfigService.CreateDone | cmd/caconfigsvc.js:410-434 | a failed create answers 400 or 500 and changes nothing; a success answers 201 and records the instrumentation under its qualified id in its scope |
| ConfigService.ConfigService.Delete | cmd/caconfigsvc.js:467-496 | an unknown qualified id answers 404 and changes nothing; a known one is removed from the table and its scope, destroyed, and answered 200 |
| ConfigService.ConfigService.GetProperties | cmd/caconfigsvc.js:526-538 | an unknown qualified id answers 404; a known one answers 200 with its properties |
| ConfigService.ConfigService.List | cmd/caconfigsvc.js:383-405 | the listing returns only recorded instrumentations; a customer's listing holds exactly that customer's (all of them, and no other customer's or global ones), and the global listing holds all of them |
| ConfigService.ListScope | cmd/caconfigsvc.js:399-405 | listing a scope yields one record per member of the scope: every member's record is listed, and every listed record is a member's |
| ConfigService.ListCustomers | cmd/caconfigsvc.js:391-394 | listing every customer's scope yields every customer-owned instrumentation |
| ConfigService.MergeAdvertised | cmd/caconfigsvc.js:680-716 | the module loop computes the merged catalog and counts the advertised stats |
| ConfigService.MergeStatsLoop | cmd/caconfigsvc.js:690-715 | the stat loop computes the stat merge |
| ConfigService.MergeFieldsLoop | cmd/caconfigsvc.js:703-714 | the field loop computes the field merge |
| ConfigService.AddTransforms | cmd/caconfigsvc.js:640-644 | the transformation loop computes the first-writer-wins merge |
| ConfigService.EnableAll | cmd/caconfigsvc.js:718-726 | each of an instrumenter's instrumentations is enabled on that host exactly once |
| ConfigService.ReenableAll | cmd/caconfigsvc.js:646-647 | each of an aggregator's instrumentations is re-enabled exactly once |
| ConfigService.CreatePreserves | cmd/caconfigsvc.js:430-432 | recording a created instrumentation keeps every scope inside the table and every scoped id owned by its scope |
| ConfigService.DeletePreserves | cmd/caconfigsvc.js:485-487 | removing an instrumentation keeps every scope inside the table and every scoped id owned by its scope |
| ConfigService.StatusRequest.constructor | cmd/caconfigsvc.js:215-324 | a non-recursive request has nothing outstanding and has already answered; a recursive one waits on every aggregator and instrumenter, each entry preset to "timed out" |
| ConfigService.StatusRequest.Reply | cmd/caconfigsvc.js:221-228 | a node's reply records its status or error, lowers the count by one, and the response fires exactly when nothing is outstanding |

## Left out

- `read()` with its kstat lookup, key join and per-descriptor `filter`
  (kstat.js:535-553): the kstat snapshot is a parameter (`Snapshot`)
  already filtered to the metric's kstats.
- `caPredEval`: the predicate is an opaque parameter `Predicate`, a
  function of a data point's fields.
- `Math.pow` and floating-point division in the log-linear bucketizer are
  modelled with exact integers. `LogParams` restricts the parameters to
  those where the division is exact: `base >= 2`, `base` divides
  `nbuckets`, and `nbuckets` divides `base^(min+1)`. The shipped
  `(10, 2, 11, 100)` meets it.
- `Buckets.FloorLog`: `Math.floor(Math.log(v) / Math.log(base))` is modelled
  by the exact exponent, which is what it is meant to compute. It is not the
  same: in double arithmetic the quotient is 2.9999999999999996 at 1000 (and
  falls short of the integer at other powers of 10, such as 10^6 and 10^9),
  so at those exact powers the source uses the decade below and gives the
  value a bucket one tenth as wide. `Buckets.FloorLogRounded` and
  `Buckets.MisroundedOverlap` model that behaviour for a given set of such
  powers (see Findings); which powers they are depends on the platform's
  `Math.log` and is not modelled. Everything else uses the exact exponent.
- `Buckets.Bucketize`, `Buckets.BucketizeValue`, `Buckets.BucketizePreserves`,
  `KstatEngine.BucketizeAll`, `KstatEngine.AddDecompositions`,
  `KstatEngine.BucketizeAllOrdered`, `KstatEngine.NumericShape` and
  `KstatEngine.KstatMetric.Value` use the corrected log-linear bucketizer
  (underflow bucket `[0, base^min - 1]`, exact exponent). The source's
  engine calls the as-written one, whose histograms can hold overlapping
  buckets (see Findings). For the as-written insert the model proves
  `Buckets.LogInsertAsWrittenSorted` only.
- `Buckets.LogRangeContains`, `Buckets.LogRangeStable`,
  `Buckets.LogRangePartition`, `Buckets.LogInsertPreserves`,
  `Buckets.LogInsertAsWrittenSorted`, `Buckets.BucketizePreserves`,
  `KstatEngine.BucketizeAllOrdered` and `KstatEngine.NumericShape` hold for
  non-negative values only (`Buckets.InDomain`). The source also feeds
  negative counter deltas to the log-linear bucketizer, such as
  `newsum - oldsum` after a counter reset. Such a value gets the underflow
  bucket, which does not hold it, and a second one duplicates that bucket
  (`Buckets.NegativeUnderflow`, `Buckets.NegativeDuplicates`).
- The log-linear `max` parameter is accepted and ignored, as in the source.
- The `cpus` metric and its utilization extract (kstat.js:87-118): it
  computes with floating-point ratios.
- Discrete grouping uses Dafny value equality on `Val`, where the source
  compares with JavaScript `==` on object keys. The order of data points
  and keys follows the model's sequences, where the source uses JavaScript
  object key order.
- `KstatExtract.Counter`: a counter missing from a snapshot reads as 0,
  where JavaScript would give `NaN`.
- No lemma states the total of the tcp `errors` metric; only its
  descriptor, key table and extract are modelled.
- The DTrace backend and `insinit`'s registration order are not part of
  this model. The `Instrumenter.Instrumenter` class models the registry
  that the backends fill.
- AMQP, HTTP routing, logging, timers and `main()` in both services.
  Messages sent are appended to an `outbox` or `commands` log, and backend
  callbacks are the `Complete` method.
- `Instrumenter.Instrumenter.Tick` and the set loops in `ConfigService` send
  in an unspecified order; the contracts say what is sent, not in which
  order.
- `caInstrumentationFactory` in lib/ca is not part of this model: create
  validation, `destroy`, `setProperties` and `properties()`. `CreateDone`
  takes the factory's outcome as its input. The handlers for
  `SetProperties` and `Value` (caconfigsvc.js:501-559) only forward to it,
  and are left out.
- `caQualifiedId` is in lib/ca, which is not part of this model. Its form,
  `global;<id>` or `cust:<custid>;<id>`, is taken from the comment at
  caconfigsvc.js:42-59.
- `ConfigService.ConfigService.CreateDone` and
  `ConfigService.ConfigService.Delete` promise the table invariant only for
  customer ids without `;`, since two distinct pairs could otherwise share
  a qualified id.
- `ConfigService.ConfigService.List` states which records appear, not their
  order.
- The admin status response body is left out: latency, heap and the listing
  of brokers, HTTP and scopes. `StatusRequest` models the request count and
  the entries.
- `cfgNotifyInstrumenterError`, `cfgNotifyLog`, ping and the instrumenter
  status command are left out; they only log or echo.
- The exception thrown when an id in an instrumenter's or aggregator's
  `insts` is missing from the table is left out: the model keeps the sets
  of ids without dereferencing them.
- `Instrumenter.EnableDecision`: a stat registered with an empty list of
  implementations is treated as unknown. The source would dereference
  `undefined` and throw.
- Instrumenter memory use, Date objects and wall-clock reads: `now` is a
  parameter in milliseconds.
- `KstatEngine.KstatMetric.constructor` requires that every decomposition
  names a declared field and that at most one of them is numeric. These are
  `ASSERT`s in the source (kstat.js:499 and 511), which throw when they
  fail. `insCmdEnable` passes the decomposition on unchecked
  (cainstsvc.js:427-437); the checks are meant to happen when the
  configuration service creates the instrumentation, in
  `caInstrumentationFactory`, which is not part of this model. The model does
  not cover the failing assertion.
- `Instrumenter.Message`: a data message carries an `int` value, given by
  the `valueOf` parameter of `Instrumenter.Instrumenter.Tick`. In the source
  the value is what the metric's `value()` returns: a scalar, a map of
  discrete entries or a distribution. The model does not tie it to
  `KstatEngine.KstatMetric.Value`.
- Instrumentation properties (`ConfigService.Props`) are modelled as strings,
  as the form fields deliver them. JSON bodies can carry other types, which
  are not modelled.
- `KstatEngine.NumOf`: the bucketizers receive a numeric field's value, and
  a value that is not a number (a string, or a field a point does not
  assign) is read as 0. The source would hand the bucketizer that value
  as it is, and its comparisons with `undefined` or strings are not
  modelled.
- `ConfigService.StatusRequest.Reply` requires that the replying node is
  still outstanding. A second reply from the same node is not modelled; in
  the source it would lower the count again.
- JavaScript's `in` also finds inherited keys, so an id such as
  `constructor` would be found in an empty object. The model's maps hold
  only the keys that were stored.

## Findings

| source | as written | input that shows it | evidently intended | confidence | as-written member | corrected member |
|---|---|---|---|---|---|---|
| cmd/cainst/modules/kstat.js:865-868 | the underflow bucket is `[0, base^min]`, which shares `base^min` with the first regular bucket `[base^min, ...]` | shipped parameters `(10, 2, 11, 100)`: insert 100, then 50; the buckets `[0,100]` and `[100,109]` overlap, and 100 lands in a different bucket depending on insertion order | underflow bucket `[0, base^min - 1]`, so buckets never overlap | high (not executed) | Buckets.AsWrittenOverlap, Buckets.LogLinearBucketizeAsWritten | Buckets.CorrectedNoOverlap, Buckets.LogLinearBucketize, Buckets.LogInsertPreserves |
| cmd/cainst/modules/kstat.js:869 | `Math.floor(Math.log(value) / Math.log(base))` takes the exponent from a double quotient, which falls just short of the integer at some exact powers of the base (2.9999999999999996 at 1000 for base 10), so those powers get the decade below and a bucket one tenth as wide | shipped parameters `(10, 2, 11, 100)`: insert 1000, then 1050; 1000 gets `[1000,1009]` and 1050 gets `[1000,1099]`, and the two buckets overlap | the exact exponent k with `base^k <= value < base^(k+1)`, so both values share `[1000,1099]` | high (not executed) | Buckets.FloorLogRounded, Buckets.MisroundedOverlap | Buckets.FloorLog, Buckets.FloorLogUnique, Buckets.LogRangePartition |
| cmd/cainstsvc.js:106 | `ins_modules[name] != label` compares the stored record object with the label string. The record stringifies to `[object Object]`, so every redeclaration throws | the kstat backend declares `disk` as "Disk I/O" (kstat.js:21); the comment at cainstsvc.js:92-97 says the kstat and DTrace backends both implement io.ops, so the second backend redeclares that module with the same label, and that declaration throws | compare `ins_modules[name]['label'] != label`, so a same-label redeclaration is accepted | high (not executed) | Instrumenter.Instrumenter.RegisterModuleAsWritten, Instrumenter.DiskRedeclared | Instrumenter.Instrumenter.RegisterModule, Instrumenter.RedeclareSameLabel |
