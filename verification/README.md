# KREG: a verified model of the route pipeline

KREG turns a BGP route table into Kubernetes objects. Routes are authorized against cluster bindings,
normalized through a community map, damped against what earlier sweeps recorded, and then both rendered
into EndpointSlices (one reconciler per policy) and reported as AdvertisedBackend records (one global
sweep). Nothing is kept in memory between sweeps: the records are the damping state, and the score in
them is rounded to an integer every time it is written.

The model follows that structure, one module per file.

| file | what it holds |
|---|---|
| `types.dfy`, `text.dfy` | the values that pass between stages; string order, sorting, splitting, numerals |
| `names.dfy` | record and EndpointSlice names |
| `damper.dfy` | the Damp stage |
| `render.dfy`, `report.dfy` | Select and Render; the Report stage, its inverse, and its agreement with Render |
| `records.dfy` | the record store and one sweep over it, which may stop at any write |
| `views.dfy` | a sweep projected onto one name |
| `paths.dfy` | the theorems about the memory under one name, sweep after sweep |
| `runs.dfy` | every name of every run follows such a path; the theorems in the records' own fields |
| `advance.dfy` | what one complete sweep makes of one record, field by field and without the Damp stage |
| `bookkeeping.dfy` | firstSeen, lastChange, labels, membership, writing the same records again |
| `witnesses.dfy` | runs that attain the flap bound, and runs that show where records surprise |
| `skipping.dfy` | when the read of prior state may be skipped |
| `authorize.dfy`, `normalize.dfy` | the Authorize and Normalize stages |
| `policies.dfy` | policy reconciles on a shared object store, in any interleaving |
| `agreement.dfy` | the records against the object store, over both reconcilers |
| `provenance.dfy` | where a rendered EndpointSlice comes from, across the whole pipeline and its history |

How to read the damping results. A run (`Runs.IsRun`) is a sequence of stores and sweeps, with any
snapshots, any configuration per sweep, any walk order of the prior map, any decay factor in [0, 1] and
a clock that does not go backwards. A sweep may stop after any write. `Runs.RunIsPath` shows that the
memory under each name of each run is a path of a small machine (`Paths.IsPath`), and the theorems are
proved for all paths. The power of one half is a parameter of type `Damper.HalfPower`, so the results
hold for whatever the floating-point library returns between 0 and 1. Times and durations are whole
seconds, and 0 is Go's zero time.

Where the code does not do what one would expect of it, with the exact condition and a run or an input
that shows it:

- A sweep that stops between creating a record and writing its status leaves that record without a
  firstSeen for the rest of its life (`Bookkeeping.FirstSeenSetIffCreatedWhole`,
  `Witnesses.FirstSeenNeverSet`).
- A rejected route that keeps its cluster and the held-down memory of the same name are both written to
  one record, and lastChange moves at every such sweep although nothing changed
  (`Bookkeeping.LastChangeExactly`, `Witnesses.LastChangeMovesUnchanged`).
- An unlabelled AdvertisedBackend under a desired name has its status overwritten, is never deleted, and
  is never read back (`Bookkeeping.ForeignOverwrittenExactly`, `Witnesses.ForeignIsOverwritten`,
  `Bookkeeping.ForeignSurvives`, `Views.CompleteSweepStepsView`). An unlabelled Service, EndpointSlice or
  DestinationRule is overwritten and adopted exactly if it sits under a generated name
  (`Policies.UnlabelledIsAdopted`, `Policies.UnclaimedIsSafe`). The design document says a resource that
  is not owned is never patched; the model follows the code.
- Skipping the prior read is sound exactly while nothing lingers; a clock that went backwards breaks it
  (`Skipping.SkippingIsSoundIff`, `Skipping.BackwardClockMayNot`).
- Names decode uniquely over IPv4. An IPv4 and an IPv6 route can share one record, and so can two IPv6
  routes (`Names.BackendObjectNameCollides`, `Names.DualStackNamesCollide`, `Names.Ipv6NamesCollide`). Two
  policies can lay claim to one EndpointSlice (`Names.PolicyNamesCollide`), which the ownership rule then
  refuses to hand over.
- The records list an EndpointSlice as generated although Render fails for its policy: with a TLS mode that
  the driver does not implement, or with a malformed prefix in the selector that only some candidates get
  as far as. The lists agree exactly if every policy renders or has nothing bound
  (`Report.ReportAgreesWithRender`, `Report.MutualTlsDisagrees`, `Report.MalformedSelectorDisagrees`).
- The reason that a community map set to Warn gives a candidate does not reach the record, although its
  type's documentation says it does (`Provenance.WarningIsLost`, `Report.ReasonShowsIffRejected`).

## Model

| member | source | states |
|---|---|---|
| Text.LessIsByteOrder | internal/authorize/authorize.go:93-97 | the order that prefixes and names are sorted by is byte order: at the first place where two texts part, the lesser one ends or has the lesser byte |
| Text.ParseInt32Exactly | internal/pipeline/normalize.go:132-153 | a text is read as a number if and only if it is a numeral of that number within int32, signed or not |
| Names.BackendObjectNameInjective | internal/reconcile/render.go:157-177 | over IPv4 prefixes two record names are equal if and only if prefix and cluster segment are, whatever dashes and digits the cluster IDs hold |
| Names.EndpointSliceNameInjective | internal/reconcile/render.go:149-159 | within one service EndpointSlice names are equal if and only if cluster and IPv4 prefix are |
| Names.BackendObjectNameCollides | internal/reconcile/render.go:157-177 | over prefixes of any kind two record names are equal if and only if the sanitized prefixes and cluster segments are, or one cluster segment begins with what the other prefix has over its own |
| Names.DualStackNamesCollide | internal/reconcile/render.go:157-177 | an IPv4 host and an IPv6 host of different clusters with one record name |
| Names.Ipv6NamesCollide | internal/reconcile/render.go:157-177 | two IPv6 hosts of different clusters with one record name |
| Names.PolicyNamesCollide | internal/reconcile/render.go:139-151 | over IPv4 prefixes two policies name one EndpointSlice if and only if the prefixes agree and policy name, "-kreg-" and cluster ID run together to the same text, with a pair that does |
| Names.RecordNameBySample | internal/reconcile/render.go:166-177 | the record name that the design document gives for a prefix and a cluster |
| Names.UnattributedNameBySample | internal/reconcile/render.go:161-177 | the record name of a route without a cluster |
| Damper.Evaluate | internal/damp/ewma/ewma.go:66-105 | the loop over candidates and the walk of the prior map yield the evaluation, for the order in which the map was walked, each key once |
| Damper.AbsentsMembers | internal/damp/ewma/ewma.go:93-104 | what is held down, exactly: one candidate per remembered name that is missing and within its grace |
| Damper.PresentOk | internal/damp/ewma/ewma.go:109-172 | a verdict on a present candidate keeps the shape of verdicts: states and timestamps agree, nothing in the future, score not negative |
| Damper.AbsentOk | internal/damp/ewma/ewma.go:178-224 | so does a verdict on a missing one |
| Render.FindPrefixWithinAny | internal/reconcile/render.go:118-133 | the search over a selector's CIDRs, with the error it stops at |
| Render.SelectBackends | internal/reconcile/render.go:88-116 | the filtering loop, with the first error in candidate order |
| Render.SelectMembers | internal/reconcile/render.go:88-116 | a selection succeeds if and only if every candidate can be decided alone, and holds exactly those decided in |
| Render.SelectJoins | internal/reconcile/render.go:88-116 | the selection of two lists after each other is the two selections after each other, or the first error |
| Render.ChosenExactly | internal/reconcile/render.go:88-133 | when prefixes parse, a candidate is chosen if and only if it is served and meets the cluster, service tag and containment conditions that are set |
| Render.DecidedExactly | internal/reconcile/render.go:98-133 | a selector can decide on a candidate if and only if it turns it away or has no prefixes, or the candidate's prefix parses and every malformed prefix of the selector comes after one that contains it |
| Render.RenderEndpointSlices | internal/reconcile/render.go:217-262 | one slice per selected candidate in order, or the first prefix that does not parse |
| Render.RendersExactly | internal/reconcile/render.go:60-79 | rendering succeeds if and only if every candidate can be decided, the chosen ones parse and the TLS mode is known |
| Render.RenderErrorExactly | internal/reconcile/render.go:60-79 | a failed rendering reports the first candidate the selector cannot decide, else the first chosen one whose prefix does not parse, and only then the TLS mode |
| Render.ParseableRenders | internal/reconcile/render.go:60-79 | when every prefix in sight parses, rendering fails if and only if the driver does not know the TLS mode |
| Render.RenderedFrom | internal/reconcile/render.go:60-116 | a slice is rendered if and only if it belongs to a candidate of the snapshot that the selector chooses |
| Render.RenderedDescribes | internal/reconcile/render.go:217-273 | what is rendered are exactly the descriptions of the chosen candidates: name, labels, address and family, ready if and only if the candidate does not drain, serving, its zone and hint if it has one, the policy's port and port name |
| Report.BuildAdvertisedBackends | internal/report/build.go:47-99 | one record per candidate, rejected or not, in order, each with its own bindings |
| Report.StateExactly | internal/report/build.go:147-165 | a record is Rejected with the candidate's reason if and only if the candidate is; else it says what Damp says if that is Pending, HoldDown or Dampened; else it is Draining or Active as the candidate drains or not |
| Report.RecordCarries | internal/report/build.go:55-99 | a record carries its candidate's data and the verdict's instants, the zero time as none, and remembers a verdict if and only if it has an instant |
| Report.FindBindings | internal/report/build.go:180-199 | the loop over policies: sorted names of those that select the candidate alone, and of what they generate |
| Report.ClampToInt32 | internal/report/build.go:132-145 | the stored penalty is an int32, and within one half of the score unless clamped |
| Report.PriorStateFromAdvertisedBackends | internal/damp/damp.go:73-96 | the map read back from a listing: what each record remembers, and nothing else |
| Report.PersistRestore | internal/damp/damp.go:73-130 | restoring a built record gives back the candidate and its verdict with only the score rounded, Draining coming back as Active |
| Report.ReportAgreesWithRender | internal/report/build.go:167-199 | all records together list every rendered EndpointSlice at least as often as it is rendered, and exactly as often if and only if every policy renders or has nothing bound |
| Report.ParseableAgreesIff | internal/report/build.go:167-199 | when every prefix in sight parses, they agree if and only if every policy that binds anything has a known TLS mode |
| Report.UnknownTlsStillReported | internal/reconcile/istio/driver.go:78-92 | with a TLS mode the driver does not know a policy renders nothing, and the records list exactly the slices it would render with a known one |
| Report.MutualTlsDisagrees | internal/reconcile/istio/driver.go:78-92 | with mode "Mutual" and one candidate nothing is rendered and its slice is listed |
| Report.MalformedSelectorDisagrees | internal/reconcile/render.go:104-112 | with a selector of a good and a malformed prefix, a candidate inside the good one has its slice listed while one outside makes rendering fail |
| Report.ReasonShowsIffRejected | internal/report/build.go:151-165 | another reason on a candidate gives another record if and only if the candidate is rejected |
| Report.BoundExactly | internal/report/build.go:180-199 | a record names namespace/name of a policy as bound if and only if that policy's selector chooses the candidate, in byte order |
| Report.GeneratedExactly | internal/report/build.go:180-199 | it lists an EndpointSlice if and only if such a policy would give the candidate's slice that name, in byte order |
| Report.ReportedExactly | internal/report/build.go:180-199 | over all policies, a resource is reported by some record if and only if Render produces it for some policy |
| Report.BindingsIgnoreListOrder | internal/report/build.go:176-198 | records are identical under every permutation of the policies |
| Records.BackendReconciler.ApplyBackend | internal/controller/advertisedbackend_controller.go:96-123 | creates or updates one record, keeping firstSeen and bumping lastChange on a change, or stops having at most created it bare |
| Records.BackendReconciler.PruneStaleBackends | internal/controller/advertisedbackend_controller.go:178-193 | deletes labelled records outside the desired names, all of them if it completes and only such in any case |
| Records.BackendReconciler.ReadPrior | internal/snapshot/source.go:134-142 | what the labelled records remember, if the configuration needs it |
| Records.BackendReconciler.Reconcile | internal/controller/advertisedbackend_controller.go:62-91 | a sweep is the sweep function of the old store at the write where it stopped, and it completes if and only if the API server accepts one write per record, one more per new name and one per stale record |
| Records.WritesCounted | internal/controller/advertisedbackend_controller.go:96-123 | applying takes one write for each record and one more for each name that is not there yet |
| Records.WriteOutcome | internal/controller/advertisedbackend_controller.go:77-123 | wherever a sweep stops, each name is unchanged, created bare, reported on, or pruned as stale |
| Records.CompleteOutcome | internal/controller/advertisedbackend_controller.go:77-87 | after a sweep that completes, each name holds the last report on it, or what was not the sweep's to delete |
| Views.SettledAt | internal/damp/ewma/ewma.go:75-104 | what the evaluated snapshot says under a name is the step of that name's memory, or a rejection passed through |
| Views.SweepKeepsRecordsOk | internal/report/build.go:55-99 | every sweep, complete or not, keeps the shape of every labelled record |
| Views.SweepMovesView | internal/controller/advertisedbackend_controller.go:62-91 | every sweep, complete or not, keeps the memory under a name, loses it, or moves it by its step |
| Views.CompleteSweepStepsView | internal/controller/advertisedbackend_controller.go:62-91 | a complete sweep moves the memory under every name by exactly its step, foreign names apart |
| Views.WalkOrderIsInvisible | internal/damp/ewma/ewma.go:93-102 | the order in which the prior map is walked does not show in what is remembered |
| Runs.RunInvariant | internal/damp/ewma/ewma.go:66-266 | in every store of every run: Dampened iff suppressedSince, Pending iff pendingSince, HoldDown only if withdrawnAt, which no Active, Draining or Pending record has; no timestamp after lastObservedAt, nor that after now; penalty a non-negative int32 |
| Runs.RunIsPath | internal/snapshot/source.go:134-144 | refinement: the memory under each name of each run is a path of the one-name machine |
| Runs.FreshRecordNeedsFlaps | internal/damp/ewma/ewma.go:137-147 | no run suppresses a name before ceil(suppressThreshold/1000) flaps observed since it had no record or a penalty of 0 |
| Runs.PenaltyNeedsFlaps | internal/report/build.go:132-145 | between any two stores of a run the stored penalty grows by at most 1000 per observed flap, despite rounding at every sweep |
| Runs.RecordNeedsFlapsAgain | internal/damp/ewma/ewma.go:236-266 | from a release to the next suppression a run observes ceil((suppressThreshold-reuseThreshold)/1000) flaps, or ceil(suppressThreshold/1000) after a cap |
| Runs.RecordSuppressedSince | internal/damp/ewma/ewma.go:207-222 | a record's suppressedSince is the sweep that began its unbroken stretch of Dampened |
| Runs.RecordNearUnrounded | internal/report/build.go:132-145 | the stored penalty stays within 1/(2(1-f)) of the score that would never have been rounded, wherever the sweeps stop |
| Runs.NoRecordOutlivesCap | internal/damp/ewma/ewma.go:247-263 | every Dampened record of every run was, when last observed, suppressed for less than maxSuppress |
| Runs.RecordHeldExactly | internal/damp/ewma/ewma.go:178-224 | a record that was present, suppressed or not, and is missing since sweep a is HoldDown or Dampened after sweep b if and only if less than the grace has passed, withdrawnAt staying the instant of a; after that it is gone or forgets |
| Runs.ReappearsFresh | internal/damp/ewma/ewma.go:109-172 | the sweep in which a forgotten name appears, or any name under a configuration that reads no memory, leaves a record without penalty, flaps, withdrawal or suppression, Pending since that sweep if there is an addition delay and Active or Draining otherwise |
| Runs.ReturnsFreshAfterGrace | internal/damp/ewma/ewma.go:187-193 | so it is for a name that comes back after its grace has run out |
| Advance.RecordAdvances | internal/damp/ewma/ewma.go:109-266 | the record after a complete sweep, exactly, of a name present and past settling or missing within its grace: penalty and flap count faded since the last observation plus 1000 and 1 for a return, 0 after the cap; observed now; withdrawn since the first miss; Dampened if and only if dampening is on, the cap has not run out and the score stands at reuseThreshold if it was Dampened, at suppressThreshold otherwise, defaults included; else HoldDown, Draining or Active; and the reason |
| Advance.RecordSettlesOn | internal/damp/ewma/ewma.go:118-135 | a record that is still settling moves its observation and nothing else |
| Advance.OutputIsObserved | internal/damp/ewma/ewma.go:109-224 | every name that a complete sweep outputs unrejected has a record observed at that sweep |
| Advance.RecordOfPresent | internal/report/build.go:55-165 | the record of a present route carries the route's own data, and is Draining only if the route drains and Active only if it does not |
| Runs.NoGraceNoTrace | internal/damp/ewma/ewma.go:187-193 | without a positive withdrawalGrace no record of a run shows a withdrawal, a flap, a penalty or a suppression |
| Runs.OutputsExactly | internal/damp/ewma/ewma.go:72-104 | a name is output unrejected if and only if the snapshot has it unrejected, or it is remembered, past settling, missing, and withdrawn for less than the grace |
| Runs.DistinctPrefixesDistinctNames | internal/reconcile/render.go:166-177 | a snapshot over distinct IPv4 prefixes repeats no name |
| Paths.PenaltyBoundedByFlaps | internal/damp/ewma/ewma.go:137-147 | over any stretch of any run the stored penalty grows by at most 1000 per flap |
| Paths.MinimumFlapsFromFresh | internal/damp/ewma/ewma.go:236-266 | from no memory, or a penalty of zero as after a cap, suppression takes ceil(suppressThreshold/1000) flaps |
| Paths.MinimumFlapsBetweenSuppressions | internal/damp/ewma/ewma.go:236-266 | from one release to the next suppression: ceil(suppressThreshold/1000) flaps after a cap, ceil((suppressThreshold-reuseThreshold)/1000) after decay |
| Paths.SuppressedSinceStartOfStretch | internal/damp/ewma/ewma.go:207-222 | suppressedSince is the first sweep of the unbroken Dampened stretch, through any withdrawals and announcements |
| Paths.SuppressionCap | internal/damp/ewma/ewma.go:247-263 | nothing is ever seen Dampened for as long as the cap |
| Paths.StretchShorterThanCap | internal/damp/ewma/ewma.go:247-263 | completed sweeps that find one stretch of suppression lie less than the cap apart |
| Paths.ExactHoldDown | internal/damp/ewma/ewma.go:178-224 | a missing name is remembered if and only if less than the grace has passed since it went missing, with that instant as withdrawnAt |
| Paths.ExactSettling | internal/damp/ewma/ewma.go:118-172 | a new name that stays is Pending if and only if less than the addition delay has passed since it appeared, with that instant as pendingSince |
| Paths.RoundingBound | internal/report/build.go:132-145 | the stored integer stays within 1/(2(1-f)) of the score that is never rounded, for any number of sweeps, complete or not, whose decay factor is at most f |
| Paths.NoGraceNoDampening | internal/damp/ewma/ewma.go:141-147 | without a positive grace no sweep remembers a withdrawal, flap, penalty or suppression |
| Bookkeeping.SweepKeepsFirstSeen | internal/controller/advertisedbackend_controller.go:96-123 | across a sweep, wherever it stops, a surviving record keeps its firstSeen and a new one is first seen now or still bare |
| Bookkeeping.FirstSeenIsFixed | internal/controller/advertisedbackend_controller.go:113-121 | firstSeen never changes during a record's life |
| Bookkeeping.RunKeepsTimes | internal/controller/advertisedbackend_controller.go:106-121 | in every run firstSeen <= lastChange <= now |
| Bookkeeping.NewRecordBareIff | internal/controller/advertisedbackend_controller.go:96-114 | a new record has no firstSeen if and only if its sweep stopped between creating that record and writing its status; otherwise it is the time of the sweep |
| Bookkeeping.FirstSeenSetIffCreatedWhole | internal/controller/advertisedbackend_controller.go:100-114 | for the whole life of a record its firstSeen is the time of its creation, or none if and only if the creating sweep stopped there |
| Bookkeeping.LastChangeExactly | internal/controller/advertisedbackend_controller.go:112-170 | a complete sweep keeps a record's lastChange if and only if at most observation time, penalty, flap count or a HoldDown or Dampened reason changed and no rejected route shares the name with a held-down memory; otherwise lastChange is now |
| Bookkeeping.SharedNameBumpsLastChange | internal/damp/ewma/ewma.go:76-82 | a rejected route and a held-down memory of one name bump lastChange at every sweep |
| Bookkeeping.UnrejectedNamesDistinct | internal/damp/ewma/ewma.go:72-104 | the unrejected outputs of a sweep have distinct names if the snapshot has |
| Bookkeeping.LabelledAreDesired | internal/controller/advertisedbackend_controller.go:77-87 | after a complete sweep the records labelled managed-by advertisedbackend are exactly the desired names, apart from those under which another object stood; new records carry that label alone |
| Bookkeeping.ForeignSurvives | internal/controller/advertisedbackend_controller.go:172-193 | no sweep, complete or not, deletes or relabels an object without the label, and one it does not report on it leaves alone |
| Bookkeeping.ForeignOverwrittenExactly | internal/controller/advertisedbackend_controller.go:96-123 | a complete sweep overwrites the status of such an object if and only if it wants a record of that name, with the last report on it, keeping labels and firstSeen |
| Bookkeeping.ReapplyingChangesNothing | internal/controller/advertisedbackend_controller.go:112-158 | writing the same records again at any later time changes nothing, neither timestamp included |
| Skipping.SkippingIsSoundIff | internal/snapshot/source.go:147-165 | for a configuration that needs no prior state, evaluating with and without it differ in score and flap count only, if and only if nothing lingers |
| Skipping.ReadNeededIff | internal/snapshot/source.go:147-165 | the configuration asks for the read if and only if there is a well-formed memory, not from the future, that changes what becomes of some snapshot |
| Skipping.ForwardClockMaySkip | internal/snapshot/source.go:147-165 | with no timestamp after now nothing lingers |
| Skipping.BackwardClockMayNot | internal/snapshot/source.go:147-165 | a withdrawal recorded one second ahead lingers |
| Skipping.RenderCannotTell | internal/reconcile/render.go:60-116 | Render gives the same slices or the same error for snapshots that differ in score and flap count only |
| Skipping.RecordsCannotTell | internal/controller/advertisedbackend_controller.go:125-158 | their records differ in penalty and flap count only, which statusChanged does not see |
| Authorization.FindBinding | internal/authorize/authorize.go:109-126 | the nested search, with the error it stops at |
| Authorization.ScanFindsFirst | internal/authorize/authorize.go:109-126 | the match is the first binding that covers the route's address, none if none does, and can fail only on a prefix that does not parse |
| Authorization.MatchFailsExactly | internal/authorize/authorize.go:109-126 | matching fails if and only if the route's prefix does not parse or the search meets an allowed prefix that does not before any that contains the address, and the error names it |
| Authorization.Authorize | internal/authorize/authorize.go:54-105 | fails if and only if some match fails; keeps every route in place, attributed to its first match; accepts at most each budget per cluster; on distinct prefixes gives each route its exact outcome |
| Authorization.OutcomeExactly | internal/authorize/authorize.go:76-102 | rejected if and only if it came rejected, no binding covers it, or its cluster's least budget k has k prefixes before it in byte order; cluster, locality and reason are those of what decided, within the budget the route is as attributed, and nothing else of it changes |
| Authorization.BudgetKeepsFirst | internal/authorize/authorize.go:89-101 | if a route is accepted, so is every route of its cluster that comes before it in byte order and did not come rejected |
| Authorization.BudgetIsLeast | internal/authorize/authorize.go:76-92 | the budget that counts is the least non-negative maxPrefixes among the cluster's bindings |
| Authorization.RankIsPlace | internal/authorize/authorize.go:93-101 | a route's place in its sorted cluster is the number of the cluster's prefixes before it |
| Authorization.ClustersAreIsolated | internal/authorize/authorize.go:47-53 | one cluster's outcome does not depend on another cluster's routes |
| Authorization.OrderOfRoutesIsInvisible | internal/authorize/authorize.go:93-97 | on distinct prefixes permuting the routes permutes the outputs |
| Normalization.FindLargeCommunity | internal/pipeline/normalize.go:105-124 | the search for the first community that fits a pattern |
| Normalization.MatchExactly | internal/pipeline/normalize.go:101-124 | a pattern g:f:w captures v if and only if the first community that meets it is g:f:v, w being v or a star |
| Normalization.NormalizeRoute | internal/pipeline/normalize.go:43-99 | the fold over rules leaves each field to its last matching rule, fails on the first unusable value, and flags an unmapped route as the map says |
| Normalization.Normalize | internal/pipeline/normalize.go:31-41 | succeeds if and only if every route does, keeping order |
| Normalization.RejectedExactly | internal/pipeline/normalize.go:52-97 | a normalized route is rejected if and only if it came rejected or its map rejects what no rule matches; an accepted route gets the unmapped reason if and only if no rule matches and the map does not ignore that |
| Normalization.NormalizedCarries | internal/pipeline/normalize.go:43-60 | a candidate takes over prefix, cluster, peer, locality, MED, AS path and communities, and a rejected route is not decoded |
| Normalization.FailsIffSomeRuleObjects | internal/pipeline/normalize.go:54-77 | normalizing fails if and only if the route was accepted and some matching rule, overridden or not, has a text its field cannot take; the error is that of the first such rule |
| Normalization.LastRuleDecides | internal/pipeline/normalize.go:126-158 | the last matching rule for a field decides it: the field says what the rule's literal stands for, or the captured value if the rule has none or asks for that |
| Normalization.UnmatchedFallsBack | internal/pipeline/normalize.go:160-184 | a field no rule matched for has its default; the weight of an accepted route comes from the MED, the map's default or 100, as the map says |
| Normalization.SwapKeepsResult | internal/pipeline/normalize.go:62-78 | swapping neighbouring rules for different fields keeps the result and whether there is one |
| Normalization.InvertMEDOrder | internal/pipeline/normalize.go:176-184 | the MED-derived weight lies in 1..1000 and does not increase with MED, strictly falling below the ceiling |
| Normalization.DecodeLargeCommunities | internal/ingest/rib.go:110-116 | prints every community, in order |
| Normalization.PrintedCommunitiesMatch | internal/pipeline/normalize.go:105-124 | over printed communities the pattern g:f:* captures the value of the first community with exactly g and f, and nothing else |
| Normalization.WeightFromCommunity | internal/pipeline/normalize.go:126-138 | a weight captured from a community is set if it fits an int32 and no later weight rule matches, and fails the map otherwise, whatever literal the rule carries |
| Policies.PolicyReconciler.ApplyOwned | internal/controller/bgpbackendpolicy_controller.go:130-145 | writes the object, or refuses if and only if another policy owns it, or fails on the API server having changed nothing |
| Policies.PolicyReconciler.PruneStaleEndpointSlices | internal/controller/bgpbackendpolicy_controller.go:153-180 | deletes the policy's own slices that are not rendered, all if it completes and only such in any case |
| Policies.PolicyReconciler.Reconcile | internal/controller/bgpbackendpolicy_controller.go:82-125 | however far it gets it respects other policies' objects and leaves every key alone that it neither generates nor finds as its own stale slice; it succeeds if and only if the policy renders, no other policy owns one of its names and the API server accepts all its writes, and then its slices are exactly the rendered ones and its Service and DestinationRule are stored |
| Policies.UnlabelledIsAdopted | internal/controller/bgpbackendpolicy_controller.go:130-145 | an object that nobody claims is never deleted, and a complete reconcile overwrites it and makes it the policy's own if and only if it sits under a generated name |
| Policies.OwnObjectsAreSafe | internal/controller/bgpbackendpolicy_controller.go:127-145 | in any interleaving an object of one policy is neither written nor deleted by others |
| Policies.UnclaimedIsSafe | internal/controller/bgpbackendpolicy_controller.go:127-180 | in any interleaving an object that nobody claims and no turn generates stays as it was |
| Policies.SlicesStayExact | internal/controller/bgpbackendpolicy_controller.go:147-180 | after a success the policy's slices stay exactly the rendered ones until it reconciles again |
| Policies.SlicesAreStored | internal/controller/bgpbackendpolicy_controller.go:100-115 | with distinct names each rendered slice is stored as rendered |
| Policies.StoredDescribes | internal/controller/bgpbackendpolicy_controller.go:100-115 | the stored EndpointSlices of a policy describe exactly the candidates its selector chooses, field by field |
| Policies.DeletedExactly | internal/controller/bgpbackendpolicy_controller.go:153-180 | a complete reconcile deletes an object if and only if it is an EndpointSlice in the policy's namespace under both of its labels that is not rendered |
| Agreement.RecordsListWhatIsStored | internal/report/build.go:167-199 | after a complete sweep, with the store holding what every policy renders of the same settled snapshot, a resource is listed by a record if and only if an EndpointSlice of that name is stored for one of the policies |
| Agreement.RecordsListWhatReconcilersLeft | internal/controller/bgpbackendpolicy_controller.go:82-125 | so it is at the end of any interleaving in which each policy's last turn was a success on that snapshot |
| Provenance.UnrejectedIsVouched | internal/authorize/authorize.go:57-74 | nothing gets past Authorize and Normalize unrejected without a route and a first covering binding that gives its cluster and locality |
| Provenance.RecordsAreVouched | internal/damp/damp.go:113-130 | what a record remembers was vouched for by the snapshot in which its name was last present |
| Provenance.SlicesAreVouched | internal/snapshot/source.go:77-145 | at any moment of a run, every rendered slice stands for a candidate that is Active or HoldDown and vouched for by the reconcile's own snapshot or by that of the sweep where its name was last present |
| Provenance.WarningIsLost | internal/pipeline/normalize.go:84-97 | under Warn an unmapped route becomes a candidate with a reason, and its record is the one it would have without |
| Witnesses.FlapBoundAttained | internal/damp/ewma/ewma.go:137-147 | for every configuration with a grace, no addition delay and a positive int32 threshold there is a run that is suppressed after exactly ceil(suppressThreshold/1000) flaps |
| Witnesses.LastChangeMovesUnchanged | internal/damp/ewma/ewma.go:76-82 | for every route a run of three sweeps whose last leaves the record in the condition it was in and moves its lastChange |
| Witnesses.FirstSeenNeverSet | internal/controller/advertisedbackend_controller.go:100-114 | for every route a run of two sweeps, the second complete, that leaves its record with a status and without firstSeen |
| Witnesses.ForeignIsOverwritten | internal/controller/advertisedbackend_controller.go:96-123 | for every route and every unlabelled object under its name a sweep that makes the object report on the route |

## Left out

- GoBGP sessions, peer configuration and status polling, and the decoding of path attributes other than large communities: they wrap a library that is not part of this model.
- The Kubernetes client, watches, leader election and process set-up: the API server is a map that accepts writes until it stops.
- `net.ParseCIDR`: a parameter; every result holds for whatever strings it accepts, and containment is a prefix relation on address bits.
- TLS settings, outlier detection and locality settings of the Istio driver: only the identity and ownership of its one object, and that it fails on an unknown TLS mode, are modelled.
- Message texts: reasons are tags that carry what the text depends on.
- Floating-point rounding and NaN: scores are reals, and rounding to an integer is explicit, halves away from zero.
- Sub-second times: the API server stores whole seconds, and the model's clock ticks in them.
- The difference between a nil and an empty slice, which statusChanged can see and a sequence cannot.
- `RejectionTracker`: a per-peer counter that only feeds the status of a peer.
- Names.BackendObjectNameInjective: covers IPv4 prefixes, because beyond them the claim is false; when names collide there is the subject of Names.BackendObjectNameCollides.
- Names.PolicyNamesCollide: covers IPv4 prefixes, because a prefix of another kind can also run together with the cluster ID.
- The status write of a policy at the end of its reconcile, which reports and is not read back.
- Records.BackendReconciler.Reconcile: the writes of one sweep share one instant, which may be later than the evaluation's.
- Authorization.SortByPrefix: which of several equal prefixes comes first is not modelled, since the source's sort does not promise it; the route table holds each prefix once.
