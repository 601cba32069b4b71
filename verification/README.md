# A verified model of GoBDS

GoBDS is a proxy between Minecraft clients and a Bedrock server. This project models the
parts of it that carry state or an algorithm, in Dafny 4.11, and proves what they promise.
Run `dafny verify dfyconfig.toml` to check all of it.

| part | files |
|---|---|
| claim index, lookup, policy, decision, deny-block rendering | `Dimensions`, `Numbers`, `Claims`, `Snapshot`, `Lookup`, `Policy`, `PolicyTable`, `Metrics`, `Decision`, `SubChunk` |
| claim refresh: HTTP client, factory, interleaved readers, revalidation | `Refresh`, `RefreshMachine`, `Revalidation` |
| command compiler, and the packet read back | `CommandTree`, `CommandTables`, `CommandBuilder`, `CommandDecode`, `CommandCompile` |
| rate limiting and its counters | `TokenBucket`, `Traffic` |
| entity table | `EntityTable` |
| admission of connections | `Admission` |
| idle players: tracker, evaluator, kick rule, interleavings | `Afk`, `AfkKick`, `AfkMachine` |
| world border and block actions | `Area`, `BlockFilter` |
| shared | `Wrappers`, `Sequences` |

Objects whose methods update fields are classes; loops over arrays, maps and packets are
loops with invariants, each proved against a specification function or predicate, and the
laws are lemmas about that specification. Protocols that run on several goroutines
(`RefreshMachine`, `Admission`, `AfkMachine`) are state machines with one step per atomic
access; their theorems hold for every finite interleaving, and where a class method does the
same work in one go a lemma shows that the uninterrupted steps have exactly its effect.

Coordinates are float32 values with NaN and infinities, and `float32(int)` rounds to nearest,
ties to even. Integer widths, wrap-around of `<< 4` and `+ 15`, and the guarded 64-bit product
are explicit. A slice that may be nil is an `Option`. What a platform makes of an out-of-range
float-to-int32 conversion is a parameter, so every theorem holds whatever it does.

## Where the code does less than it seems to

Each of these is proved with the exact condition under which the intended property holds, and
with an input or a run in which it fails.

* The sub-chunk loop reads the one bucket of the chunk's corner for all 256 columns. Whatever
  the claims, this is sound exactly when all columns convert to float32 inside the corner's cell
  (`SubChunks.RenderingSoundIff`), which the corner alone decides (`SubChunks.CornerCellExactIff`):
  always within 2^24 blocks of the origin, never from there to 2^28, and beyond unless the corner
  is where rounding turns over. Elsewhere there is a payload that builds, of two overlapping
  claims, for which it draws a deny block where enforcement lets the action pass
  (`SubChunks.WrongBucketDrawsTooMuch`).
* Cloning a feature turns a type filter that is present but empty into a nil one. The stored
  claim permits what the row permits plus exactly the typed requests that meet such a filter
  (`Policy.CloneWidensExactly`); `Policy.CloneWidensSomeRow` is an accepted row where it does.
* `lastModified` moves before the payload is built. A 304 vouches for the server's current
  version exactly when that version builds (`Revalidation.NotModifiedVouchesForWhatBuilds`); two
  short histories show a rejected payload followed by a 304 marking the older snapshot fresh, and
  a 304 with nothing to revalidate.
* An enum name keeps the options it was first listed with. A compiled command reads back as
  itself exactly when those are its own (`CommandDecoding.CompiledReadsBack`, `OwnIffFirst`); of
  two loaded commands whose parameters share a name, the second reads back with the values of the
  first (`CommandDecoding.SecondReadsFirstsValues`).
* An idle warning is checked, sent and flagged in separate steps. It is never repeated within a
  streak, but it arrives in the streak its sample was taken in exactly when the player does not
  move between the two (`AfkMachine.InItsStreakIffStill`), and its flag is written in the streak
  it was sent in exactly when the player does not move between those two
  (`AfkMachine.FlaggedInItsStreakIffStill`). `AfkMachine.LateStepsMislead` is a run with both
  movements: a message without idle time, and a next streak silenced.

No loaded command has a parameter with a suffix (`CommandDecoding.LoadedHasNoSuffixes`). The
packet builder accepts one, and would or its index into the field that already holds the enum
index or the type code: `CommandDecoding.SuffixSharesTheField` says when either reads back.

## Model

| member | source | states |
|---|---|---|
| Dimensions.VanillaNames | gobds/claim/snapshot.go:207-219 | every spelling of a vanilla dimension, plain or namespaced, in any case and with surrounding spaces, is accepted under the one namespaced name |
| Dimensions.AcceptedIffNamespaced | gobds/claim/snapshot.go:207-219 | a name is accepted exactly when its normal form is one non-empty namespace and one non-empty name around a single colon |
| Dimensions.NormalisedOnCharacters | gobds/claim/snapshot.go:207-219 | on the characters: whatever blanks surround a text, its normal form is the text with each capital moved up 32 places, except that `overworld`, `nether`, `end` and `the_end` get their namespace |
| Dimensions.HasText | gobds/claim/snapshot.go:207-208 | every value is such a text with blanks around it |
| Dimensions.CanonicalIsFixedPoint | gobds/claim/snapshot.go:207-219 | normalising twice is normalising once, for accepted and refused names alike |
| Dimensions.ClaimDimensionFromInt | gobds/session/util.go:49-70 | a packet dimension resolves exactly when it is vanilla or all its definitions agree on one canonical name, and then to that name |
| Dimensions.ResolvedIsCanonical | gobds/session/util.go:49-70 | the dimension of a query is a fixed point of the normalisation, as the keys of the index are |
| Numbers.RoundExact | gobds/session/util.go:93-95 | block coordinates up to 2^24 in magnitude survive the conversion to float32 |
| Numbers.RoundIsNearest | gobds/session/util.go:93-95 | the conversion gives a value with 24 significant bits, no such value is nearer, and of two equally near the even one is taken |
| Numbers.LastColumnRoundsAway | gobds/session/util.go:93-95 | from 2^24 to 2^28 the last column of every chunk rounds into the next cell |
| Numbers.NearestColumnRoundsAway | gobds/session/util.go:93-95 | the mirror image on the negative side |
| Claims.CloneAndValidateClaim | gobds/claim/snapshot.go:146-171 | a row is accepted exactly when it has an id or a key, an owner, an acceptable dimension, finite corners and only well-placed features of known types; the copy has every field of the row, except the id and dimension defaulted and a type filter of nothing lost |
| Claims.StoredIsWellFormed | gobds/claim/snapshot.go:146-171 | an accepted copy is valid for the policy, has finite bounds and a canonical dimension |
| Snapshots.CheckedCellIsFloor | gobds/claim/snapshot.go:228-236 | the range check passes exactly when both floored quotients fit int32, and then the cast is lossless |
| Snapshots.Product | gobds/claim/snapshot.go:127-132 | under its guards the 64-bit product width * depth does not overflow |
| Snapshots.SpanOf | gobds/claim/snapshot.go:113-132 | the cell rectangle is computed exactly when it is representable and within the per-claim ceiling; otherwise the error names which of the two failed |
| Snapshots.IndexableOnCorners | gobds/claim/snapshot.go:113-132 | which rectangles are indexable, on the corners alone: columns of 16 blocks within int32, and at most 262144 of them by width, depth and area |
| Snapshots.CoversIffMeets | gobds/claim/snapshot.go:133-141 | a rectangle covers a cell exactly when it has a point in the 16 x 16 square of that cell |
| Snapshots.IndexColumn | gobds/claim/snapshot.go:134-140 | one column appends the claim once to each of its cells, changes no other bucket, and counts exactly the cells that were empty |
| Snapshots.IndexCells | gobds/claim/snapshot.go:133-141 | one claim adds width * depth entries, one in each covered cell of its own dimension and nowhere else |
| Snapshots.AppendToCounts | gobds/claim/snapshot.go:136-139 | an append adds one entry, and one non-empty bucket exactly when the bucket was empty |
| Snapshots.ValidateRows | gobds/claim/snapshot.go:94-105 | in any visiting order, the first loop succeeds exactly when all rows are acceptable with distinct effective ids; it lists every row once, and an error points at a row at fault |
| Snapshots.IndexAll | gobds/claim/snapshot.go:106-142 | on success every bucket is the subsequence of claims covering it, the cell count is the number of non-empty buckets and bucket lengths sum to the areas; on failure a misfit is named |
| Snapshots.BuildSnapshot | gobds/claim/snapshot.go:83-144 | a payload builds exactly when all rows are acceptable, ids are distinct and every rectangle is indexable; the snapshot holds exactly the rows, indexed and accounted for, and every error is justified |
| Lookup.SingleClaimAt | gobds/session/util_claim_action.go:164-176 | returns a claim exactly when one candidate contains the point, and ambiguous exactly when two or more do; for finite corners a, b, containing means the point is finite and each coordinate lies between theirs, whichever is larger |
| Lookup.ContainsIffEncloses | gobds/session/util.go:84-90 | for finite corners, the comparison with minimum and maximum is lying between the corners in either order; a point with NaN or an infinity is in no claim |
| Lookup.ClaimIsInItsBuckets | gobds/claim/snapshot.go:133-141 | every claim occurs exactly once in exactly the buckets whose 16 x 16 square its rectangle meets, under its own dimension |
| Lookup.IndexRefinesScan | gobds/claim/snapshot.go:61-67 | reading one bucket finds the same claims in the same order as scanning all claims of the dimension, for every point and every out-of-range conversion |
| Lookup.OutOfRangeMatchesNothing | gobds/claim/snapshot.go:221-226 | a point that is not finite or outside the index matches no claim of any bucket |
| Lookup.BuildIsOrderIndependent | gobds/claim/snapshot.go:94-132 | two builds of one payload have permuted buckets and answer every lookup alike |
| Lookup.LookupFindsTheRow | gobds/session/util_claim_action.go:164-176 | a lookup finds a claim exactly when the corners of one row of the payload alone, of that dimension, have the point between them, and finds that row's copy |
| Lookup.ClaimsAreWellFormed | gobds/session/util_claim_action.go:250-252 | every claim of a built snapshot is valid, so the policy's escape for malformed claims is not taken for it |
| Policy.RenderedDenyIsExact | gobds/session/util_claim_action.go:178-216 | a column shows a deny block exactly when the viewer can neither break nor place anything in it, at any height and for any type |
| PolicyTables.PermittedIffAllowed | gobds/session/util_claim_action.go:46-112 | the policy is a table over the fields of a claim: the owner, each listed player, each operator and a nameless actor may do everything; anyone else breaks, places, uses or hurts exactly where a feature of the right kind has the position between its corners with a filter that is nil or lists the type, and on a claim owned by `*` may drop items, use entities, and use blocks without a type id or of the four listed types |
| PolicyTables.StoredPermitsIffAllowed | gobds/claim/snapshot.go:146-204 | the stored copy of an accepted row permits what the table allows on the row itself, reading a filter of nothing as none |
| Policy.PolicyIsMonotone | gobds/session/util_claim_action.go:46-75 | adding trusted players or features never takes a permission away |
| Policy.CloneWidensExactly | gobds/claim/snapshot.go:190-204 | the stored copy decides as the defaulted row does, except that it also permits typed requests inside a feature whose filter is present but empty |
| Policy.CloneWidensSomeRow | gobds/claim/snapshot.go:190-204 | an accepted row that refuses a typed break which its stored copy permits |
| Metrics.Counters.Action | gobds/session/util_claim_action.go:120-160 | each decision adds one to seen and one to exactly one of forwarded and denied |
| Decisions.Session.ClaimActionPermitted | gobds/session/util_claim_action.go:114-162 | denies exactly when the prefilter is on, the last fetch that published is recent enough, the dimension is known, and exactly one row of the published payload has the point and its table of permissions does not allow the action; it reads one bucket, counts as a scan of all claims prescribes, and records the reason of every query that fails open |
| Decisions.DeniedIffPayloadRefuses | gobds/session/util_claim_action.go:114-162 | with the prefilter on, denied exactly when the data is well formed, the snapshot ready, the dimension known, and exactly one row of the payload has the point between its corners and does not allow the action by the table |
| Decisions.VerdictOnPayload | gobds/session/util_claim_action.go:114-162 | the same on the published payload and the time of the last fetch, without the snapshot |
| Decisions.JudgedClaimIsValid | gobds/session/util_claim_action.go:47-50 | a claim that is judged is valid, in the snapshot and canonically named |
| Decisions.ResolutionIsUnique | gobds/session/util.go:49-70 | a packet dimension stands for at most one name |
| SubChunks.ApplyClaimDenyBlocks | gobds/session/handler_sub_chunk.go:162-182 | exactly the denied columns get the deny block, all others keep theirs, `modified` says whether any did, and all 256 are counted |
| SubChunks.CornerCellExactIff | gobds/session/handler_sub_chunk.go:106-108 | for every chunk, the corner bucket serves all 256 columns exactly when both coordinates of the corner say so |
| SubChunks.AxisSharedIff | gobds/session/handler_sub_chunk.go:162-168 | along one axis, all sixteen columns round into the corner's cell exactly when the spacing of float32 values there is one, or is at least 32 and the corner is not where rounding turns over |
| SubChunks.SharedNearby | gobds/session/handler_sub_chunk.go:162-168 | up to 2^28 that is the case exactly within 2^24 |
| SubChunks.RenderingSoundIff | gobds/session/handler_sub_chunk.go:106-108 | whatever the claims, drawing implies enforcement exactly when all columns share the corner's cell |
| SubChunks.DrawnIffEnforced | gobds/session/handler_sub_chunk.go:162-182 | a column served by the right bucket is drawn exactly when every break and place in it is refused |
| SubChunks.SharedDrawnIffEnforced | gobds/session/handler_sub_chunk.go:162-182 | in every chunk whose columns share a cell, so everywhere within 2^24, drawn and enforced columns coincide |
| SubChunks.WrongBucketDrawsTooMuch | gobds/session/handler_sub_chunk.go:106-108 | for every column outside the corner's cell there is a payload that builds, and in every snapshot of it the column is drawn but not enforced |
| SubChunks.FilterSubChunkEntry | gobds/session/handler_sub_chunk.go:74-121 | an entry is kept exactly when its chunk, offset from the packet's on 32 bits, meets the border; an eligible one, whose section holds the dimension's lowest block, shows deny blocks in exactly the drawn columns, where columns share a cell the enforced ones, and any other keeps every block |
| SubChunks.SectionIsLowest | gobds/session/handler_sub_chunk.go:133-136 | the entry's section is the one compared with exactly when its sixteen blocks, on 32 bits, hold the lowest block of the dimension |
| SubChunks.EnforcedIffPayloadRefuses | gobds/session/util_claim_action.go:178-216 | a column is enforced exactly when one row of the payload alone has it between its corners, and no feature of that row lets the viewer mine or build there |
| SubChunks.EnforcedMeansRefused | gobds/session/util_claim_action.go:114-162 | in an enforced column the session refuses every break and place |
| SubChunks.SnapshotIsFiled | gobds/claim/snapshot.go:173-188 | the claims of a built snapshot meet what the rendering theorems ask of them |
| Refresh.Service.FetchClaims | gobds/claim/service.go:32-81 | the first attempt that is not retried decides the outcome, all retried means failure, the stamp moves only with a delivered response, and a disabled service delivers no claims |
| Refresh.Service.HandleFetchResponse | gobds/claim/service.go:83-119 | which responses are retried, what the others deliver, and that the stamp moves only with a 304 or a 200 with distinct keys |
| Refresh.RowsOf | gobds/claim/service.go:95-101 | rows are built exactly when no key repeats, and map every key to its row |
| Refresh.Factory.Snapshot | gobds/claim/factory.go:60-79 | Ready exactly when a snapshot is published and at most the configured age has passed since the last fetch that published or confirmed it, on saturated durations |
| Refresh.Factory.Fetch | gobds/claim/factory.go:81-122 | the first attempt that is not retried decides the outcome, and the outcome the whole effect on pointer, payload behind it, generation, failure status, stamp and counters; a disabled service changes nothing; whatever is published was built from a payload that builds |
| Refresh.Factory.Publish | gobds/claim/factory.go:90-121 | a delivered outcome moves the pointer only as a 304 over a snapshot or as a payload that builds |
| RefreshMachine.RunKeepsInvariants | gobds/claim/factory.go:60-122 | every state of every interleaving satisfies the writer's and the readers' invariants |
| RefreshMachine.ReadyIsSafe | gobds/claim/factory.go:61-79 | a reader is told Ready exactly when it loaded a snapshot and its clock is at most the configured age past the time at which the fetch that had published last, by the events up to that load, returned; the snapshot was built from the payload those events had published last; Unsupported is never answered |
| RefreshMachine.ReaderNeverGoesBack | gobds/claim/factory.go:61-79 | one reader's successive pointers go from nil to rising generations and never back |
| RefreshMachine.PublishedIsLastBuilt | gobds/claim/factory.go:96-121 | at every moment the published snapshot was built from the payload of the last fetch whose build finished and whose pointer was stored, read off the events alone; generations strictly rise over publications |
| RefreshMachine.BuiltIsNotYetPublished | gobds/claim/factory.go:112-118 | between the end of a build and the store of its pointer, the pointer and the payload published before are still in place |
| RefreshMachine.RunMatchesEvents | gobds/claim/factory.go:82-122 | in every run the payloads of the state are those the events delivered, built and published |
| RefreshMachine.RunMatchesTimes | gobds/claim/factory.go:96-121 | the fetch time of the published snapshot is that of the last round whose pointer was stored, read off the events alone |
| RefreshMachine.FailedFetchKeepsPointer | gobds/claim/factory.go:90-117 | a fetch that is going to fail never touches the pointer, whatever readers do meanwhile |
| RefreshMachine.StepsRefineFetch | gobds/claim/factory.go:81-122 | the separate atomic steps, uninterrupted, have exactly the effect of the whole fetch |
| Revalidation.NotModifiedVouchesForWhatBuilds | gobds/claim/factory.go:97-117 | in every history with a conforming server, a 304 leaves the published snapshot holding the current version exactly when that version builds |
| Revalidation.NeverWithoutSnapshot | gobds/claim/factory.go:97-103 | if every payload so far built, a 304 revalidates exactly the version held and always finds a snapshot |
| Revalidation.RejectedThenRevalidated | gobds/claim/service.go:102-113 | a history in which a rejected 200 and then a 304 mark the older snapshot fresh |
| Revalidation.RejectedFirst | gobds/claim/factory.go:97-103 | a history in which a rejected first 200 and then a 304 find no snapshot |
| CommandTrees.BuildCommandPaths | gobds/cmd/register.go:105-127 | the nested loops return the recursive listing of the tree's paths |
| CommandTrees.ForestIsListed | gobds/cmd/register.go:105-127 | the listing is exactly the walks to the callable nodes, in preorder, none missing |
| CommandTrees.ListedOnce | gobds/cmd/register.go:105-127 | no callable node is listed twice |
| CommandTrees.PathsAreCounted | gobds/cmd/register.go:105-127 | there are as many paths as callable nodes |
| CommandTrees.BuildCommandOverloads | gobds/cmd/register.go:53-103 | one overload for every path in order, and one required parameter without suffix for every node: its allowed values as an enum named after it, else the example of its type, kind by kind |
| CommandTrees.Load | gobds/cmd/register.go:31-49 | a command with children gets max(1, callable nodes including the root) overloads, node by node what the walks to them stand for, a literal as a sub-command, the empty one first when the root is callable; one without children gets none |
| CommandTrees.LoadFrom | gobds/cmd/register.go:28-51 | every registered command was loaded from the last backend command of its name, or was there before and is not among them |
| CommandTables.InternAllKeeps | gobds/session/handler_available_commands.go:90-201 | however much is interned later, earlier tables stay a prefix and every index handed out keeps its entry |
| CommandTables.ValuesResolve | gobds/session/handler_available_commands.go:102-112 | value tables only grow, and each option's index is in range and resolves to it |
| CommandTables.EntryKeepsFirstOptions | gobds/session/handler_available_commands.go:148-188 | an entry the packet did not have is listed with exactly the options of the first request for it, in order |
| CommandTables.FirstAskedIsFirst | gobds/session/handler_available_commands.go:148-188 | that first request is the earliest one for the entry |
| CommandTables.PacketEntryWins | gobds/session/handler_available_commands.go:64-88 | an entry the packet already had stays the packet's own |
| CommandTables.NothingListedTwice | gobds/session/handler_available_commands.go:90-201 | names and values added are new and pairwise different, in all four tables: no known key is appended again |
| CommandBuilders.CommandBuilder.constructor | gobds/session/handler_available_commands.go:64-88 | the index maps start out answering exactly for the packet's tables, the last duplicate winning |
| CommandBuilders.CommandBuilder.ProcessAliases | gobds/session/handler_available_commands.go:90-118 | the emitted index refers to the alias enum of the command in the tables left behind; no aliases, no index |
| CommandBuilders.CommandBuilder.HandleEnum | gobds/session/handler_available_commands.go:148-188 | a static or soft enum is interned once and its index set into the type word |
| CommandBuilders.CommandBuilder.HandleSuffix | gobds/session/handler_available_commands.go:190-201 | a suffix is interned once and its index set into the type word |
| CommandBuilders.BitOrIsBitwise | gobds/session/handler_available_commands.go:148-201 | every binary digit of the combined field is set exactly when it is set in one of the two |
| CommandBuilders.CommandBuilder.ProcessParams | gobds/session/handler_available_commands.go:120-146 | every emitted parameter refers to the right entries of the tables left behind, overload by overload |
| CommandBuilders.CommandBuilder.AppendCustomCommands | gobds/session/handler_available_commands.go:37-54 | after any number of commands in any order, every one of them refers correctly into the final tables, earlier commands and tables are an unchanged prefix, and the growth is exactly what was asked for |
| CommandBuilders.CommandSurvives | gobds/session/handler_available_commands.go:37-54 | an encoded command keeps referring correctly while the tables grow |
| CommandDecoding.ParamReadsBack | gobds/session/handler_available_commands.go:120-188 | a parameter without suffix decodes to its name, kind, enum name and flags, with the options the tables list |
| CommandDecoding.FinalIsListed | gobds/session/handler_available_commands.go:90-188 | whatever was requested is listed at the end with the packet's own options, or with those of the first request for it |
| CommandDecoding.PacketOptionsStay | gobds/session/handler_available_commands.go:64-88 | an entry of the packet whose value indices lead somewhere keeps its options |
| CommandDecoding.CommandMeaning | gobds/session/handler_available_commands.go:210-246 | two listings give a command the same reading exactly when they agree on everything it asks for |
| CommandDecoding.CompiledReadsBack | gobds/session/handler_available_commands.go:37-54 | decoding a compiled command in the final tables gives its name, description, parameter names and kinds, enum names and alias list with their final options, and exactly its own exactly when the final options are its own |
| CommandDecoding.OwnIffFirst | gobds/session/handler_available_commands.go:148-188 | for a name the packet does not have, that is the case exactly when the first request had the same options |
| CommandCompiling.CompileLoaded | gobds/session/handler_available_commands.go:37-54 | end to end: a client reads every backend command, the last one of its name, as its tree: one overload for every callable address in preorder, one required parameter of the node's name for every step, with a soft enum for allowed values, a static one for a literal and for a boolean, else the code of its type, all with final options |
| CommandCompiling.LoadedReadsTree | gobds/cmd/register.go:31-104 | what a loaded command means is the tree it was loaded from, node by node, whatever options its enum names are listed with |
| CommandCompiling.CommandAsks | gobds/cmd/register.go:62-94 | a loaded command asks for exactly its aliases and the enums along the walks to its callable nodes, in order |
| CommandDecoding.SecondReadsFirstsValues | gobds/session/handler_available_commands.go:148-188 | two loaded commands, the second of which reads back with the first one's values |
| CommandDecoding.LoadedHasNoSuffixes | gobds/cmd/register.go:89-94 | no parameter of a loaded command has a suffix |
| CommandDecoding.SuffixSharesTheField | gobds/session/handler_available_commands.go:172-200 | of an enum index or type code and a suffix index in one field, either reads back exactly when the other has no bit of its own, and both only when they are equal |
| CommandDecoding.SuffixCanBeHidden | gobds/session/handler_available_commands.go:190-201 | an overload whose second parameter's suffix does not read back |
| TokenBuckets.TokenBucket.Allow | gobds/session/traffic.go:120-133 | over every sequence of times, going back or not, a call is refused exactly when the burst is below one or some window of the history, with one more call, would exceed burst + rate * length |
| TokenBuckets.NoWindowIsOverrun | gobds/session/traffic.go:120-133 | in every run, any window admits at most burst + rate * length, with length the difference of its end times |
| TokenBuckets.LaterIsLatest | gobds/session/traffic.go:123-127 | a call is decided at the latest of all times seen: creation, earlier calls and its own |
| TokenBuckets.RefillTightens | gobds/session/traffic.go:123-127 | refilling yields the tightest window at the later time, capped at the burst |
| TokenBuckets.ExtendTightest | gobds/session/traffic.go:128-132 | after a decision the tokens are again the least headroom over all windows, the new one included |
| TokenBuckets.AllowKeepsDecided | gobds/session/traffic.go:120-133 | every decision of the history stays the one the windows prescribe |
| Traffic.TrafficMetrics.Observe | gobds/session/traffic.go:143-154 | exactly the named category's totals move, and nothing for a category outside the table |
| Traffic.TrafficMetrics.WriteDelta | gobds/session/traffic.go:174-191 | a record hands out exactly what was held and resets it: reported plus held is conserved |
| Traffic.TrafficState.constructor | gobds/session/traffic.go:205-219 | a new session has one fresh bucket per configured category, a zero one for the last, and nothing counted |
| Traffic.TrafficState.Decide | gobds/session/traffic.go:221-225 | the bucket's decision is counted once in the session's own counters, which stay equal to the calls and refusals its buckets decided |
| Traffic.TrafficState.Allow | gobds/session/traffic.go:221-227 | only an enforcing session drops packets, exactly those that overrun a window of their category; the session's totals always equal the calls and refusals its buckets decided |
| EntityTables.Factory.Add | gobds/entity/factory.go:26-38 | the maps stay inverse and hold the list that the calls so far amount to; afterwards it lists the entity and every earlier one that shares neither id with it |
| EntityTables.Factory.RemoveFromRuntimeID | gobds/entity/factory.go:40-48 | on the list: drops the entity with that runtime id |
| EntityTables.Factory.RemoveFromUniqueID | gobds/entity/factory.go:50-60 | on the list: drops the entity with that unique id |
| EntityTables.Factory.UpdatePosition | gobds/entity/factory.go:62-80 | changes the selected components of that one entity and nothing else, in the maps and on the list |
| EntityTables.Factory.ByRuntimeID | gobds/entity/factory.go:82-88 | finds the listed entity with that id, and nothing exactly when there is none |
| EntityTables.AddRefines | gobds/entity/factory.go:26-38 | the two-map update represents the list update |
| EntityTables.MoveRefines | gobds/entity/factory.go:62-80 | an in-place move represents the elementwise move of the list |
| EntityTables.RunsKeepIdsDistinct | gobds/entity/factory.go:26-80 | after any run of calls no two places of the list share an id |
| EntityTables.IdsIdentify | gobds/entity/factory.go:26-38 | in a represented table either id identifies an entity |
| Admission.Server.ReserveXUID | gobds/server.go:61-76 | succeeds exactly when the account is empty or not reserved, and then reserves it unless it is empty |
| Admission.Server.ReleaseXUID | gobds/server.go:78-86 | removes exactly that account, if it is not empty |
| Admission.Server.Sessions | gobds/server.go:99-109 | lists every live session exactly once |
| Admission.RunKeepsInv | gobds/gobds.go:109-132 | every state of every interleaving: reservations are those held, one holder per account, the table lists the registered, deferred releases match admissions |
| Admission.OnePerAccount | gobds/gobds.go:113-119 | with the check on, no non-empty account is admitted twice at any time |
| Admission.ReservedIsAdmitted | gobds/gobds.go:113-119 | exactly the non-empty accounts of admitted connections are reserved |
| Admission.RefusedIffTaken | gobds/gobds.go:114-117 | a connection is turned away exactly when another connection is admitted under its non-empty account at that moment |
| Admission.OnlyTheHolderFrees | gobds/gobds.go:114-118 | a reservation is only ever freed by the return of the connection admitted under it, never by a refused one |
| Admission.RegisteredAreDistinct | gobds/gobds.go:127-130 | listed sessions have pairwise distinct accounts, empty ones aside |
| Admission.DrainedWhenFinished | gobds/gobds.go:109-132 | once all connections have finished nothing is reserved and nobody is listed |
| Admission.ListedTwiceIffUnguarded | gobds/gobds.go:113-119 | some run lists an account twice exactly when the check is off or the account is empty |
| Afk.Session.TouchMovement | gobds/session/session.go:98-121 | real movement restarts the idle time and takes all warnings back; anything else changes nothing |
| Afk.Session.Warn | gobds/afk.go:110-113 | sends a due warning once and sets its flag |
| Afk.WarnAFKSessions | gobds/afk.go:105-119 | every session gets exactly its due soft warnings, in order, and their flags |
| Afk.WarnFinalAFKSessions | gobds/afk.go:121-128 | every session gets its final warning exactly when due |
| Afk.DisconnectIdle | gobds/afk.go:94-102 | disconnects exactly the prefix of the arrangement of length min(eligible, players - kept + 1) |
| Afk.EvaluateAFK | gobds/afk.go:49-103 | one pass: flags and messages of every session, final warnings and kicks only on a full server, kicked sessions a prefix of any descending sort of the eligible ones |
| Afk.MessagesOnFields | gobds/afk.go:105-128 | a pass sends, in order, the approaching, the AFK and, when the share of places is taken, the final message, each exactly when the idle time has reached its own threshold and its own flag is not set |
| Afk.FlagsOnFields | gobds/afk.go:105-128 | a pass sets exactly the flags whose threshold the idle time has reached, the final one only when the share of places is taken |
| Afk.PassesCompose | gobds/afk.go:105-128 | soft and final warnings in sequence are all warnings in order |
| Afk.SecondPassIsSilent | gobds/afk.go:105-128 | a second pass on the same samples sends nothing and changes no flag |
| Kicks.FullLeavesRoom | gobds/afk.go:71-95 | when the fullness gate passes, the kept count is at most the player count, whatever share is configured |
| Kicks.FullServerKicks | gobds/afk.go:86-102 | on a full server somebody is kicked exactly when somebody is eligible, and never more than needed |
| Kicks.FullIffShareTaken | gobds/afk.go:67-74 | the gate passes exactly when the player count is at least the configured share of a positive capacity |
| Kicks.KickedOnFields | gobds/afk.go:71-102 | place m of the sorted sessions is kicked exactly when the share is taken and, m having gone, the count is not below the share of the capacity cut to an integer |
| Kicks.ArrangedArePastTimeout | gobds/afk.go:78-89 | exactly the sampled sessions past the timeout are sorted, each as often as sampled |
| Kicks.LongestIdleGoFirst | gobds/afk.go:78-102 | everybody kicked is past the timeout and idle at least as long as every eligible session spared |
| Kicks.KicksDoNotDependOnTheSort | gobds/afk.go:89 | any two descending sorts kick the same number of sessions with the same idle times |
| Kicks.KickedOnce | gobds/afk.go:96-102 | no session is kicked twice |
| AfkMachine.RunKeepsInv | gobds/afk.go:105-128 | the invariant of samples, messages, marks, flags and the pending send holds in every state of every interleaving |
| AfkMachine.OncePerStreak | gobds/session/session.go:98-121 | of two messages of a kind to one player, the earlier one's flag was written before the later one's streak began: at most one per idle streak |
| AfkMachine.MessagesAreDue | gobds/afk.go:110-125 | every message's sample had reached its threshold, and unless the player moved since, so has the player |
| AfkMachine.StagesConsiderAll | gobds/afk.go:105-128 | the soft stage considers both soft warnings for every sample in order, the last stage the final one |
| AfkMachine.InItsStreakIffStill | gobds/afk.go:57-60 | a message arrives in the streak its sample was taken in exactly when the player does not move between those two events |
| AfkMachine.FlaggedInItsStreakIffStill | gobds/afk.go:110-113 | its flag is written in the streak it was sent in exactly when the player does not move between those two events |
| AfkMachine.StreakLastsWhileStill | gobds/session/session.go:102-121 | a streak lasts exactly as long as the player does not move |
| AfkMachine.ClaimedStreakIsSilent | gobds/session/session.go:182-187 | a streak claimed by a late write gets no message of its own, so no message is duplicated |
| AfkMachine.ChecksSendUnlessClaimed | gobds/afk.go:110-114 | a check goes on to send exactly when the sample has reached the threshold and no message of its kind claimed the current streak |
| AfkMachine.LateStepsMislead | gobds/afk.go:110-113 | a run in which movement between check, send and write delivers a message without idle time and silences the next streak |
| AfkMachine.StepsRefineWarn | gobds/afk.go:110-113 | the separate steps, uninterrupted, have exactly the effect of the whole warning |
| Areas.ChunkInsideIsIntersection | gobds/util/area/area2d.go:30-36 | a chunk is delivered exactly when it meets the border along both axes; for a border the right way round, when one of its columns lies in the closed rectangle |
| Areas.InsideIsDelivered | gobds/util/area/area2d.go:24-36 | a touchable block always lies in a delivered chunk |
| BlockFilters.Partition | gobds/session/handler_player_auth_input.go:109-117 | every action stands in exactly one of the two lists, in order; lengths add up |
| BlockFilters.Denied | gobds/session/handler_player_auth_input.go:47-53 | a started, predicted or continued break is refused exactly on or beyond the border, or where the published payload refuses it; the claims are asked only inside the border; deciding changes no other verdict |
| BlockFilters.BreakPermitted | gobds/session/handler_player_auth_input.go:52 | one break is answered as the published payload prescribes, and counted once |
| BlockFilters.FilterPlayerAuthInputPacket | gobds/session/handler_player_auth_input.go:101-120 | the packet keeps exactly the actions not refused, the refused positions are returned in order, a packet without actions is untouched, and each claim query is counted once |
| BlockFilters.ForwardedStaysInside | gobds/session/handler_player_auth_input.go:47-53 | a forwarded break lies strictly between the border's coordinates and in a delivered chunk |
| BlockFilters.ShownDeniedIsRefused | gobds/session/handler_player_auth_input.go:47-53 | where the client is shown a deny block, in a chunk whose columns share a cell, no break is forwarded |

## Left out

- BlockFilters.FilterPlayerAuthInputPacket: one published snapshot serves a whole packet, although a fetch could publish between two of its actions.
- Admission.Server.Sessions: `sync.Map.Range` is modelled as one atomic listing.
- Unicode: lower-casing of dimension names covers ASCII and trimming Latin-1 only.
- Slices and pointers are values, so the model has no aliasing: a bucket holds claims rather than pointers to them.
- Counters and generations are unbounded; their 64-bit wrap-around is not modelled. Table indices are unbounded too, below the flag bits, with `MaxUint32` as an absent alias index.
- float64 arithmetic of the token bucket, the fullness gate and the kept player count is done on reals, without rounding; every finite float32 coordinate may be any real.
- Protocol type codes and flag bits are symbolic; which numbers gophertunnel assigns to them, and to player actions, is not part of this model.
- Sending corrections (`correctiveLevelChunk`, `allowCorrective`) and panic recovery: a single rate check per chunk, and calls into foreign code. A session without a claim factory would panic while counting a correction; the server always gives it one.
- The test for movement (`ApproxEqual`, `FloatEqual`) is a library function and a parameter here, as is the library's sort.
- HTTP, JSON, clocks, sleeping between retries, listeners and dialers: replies, times and outcomes are inputs.
- Chunk decoding and encoding, block registry and block network ids: a sub-chunk is its bottom 16 x 16 layer.
- The global command registry is a map handed from call to call; the cache of disabled commands and the rewriting of other packets are single-map wrappers.
- Traffic and claim metric JSON, latency histograms, default limits, VPN, authentication, whitelist, secured slots and status provider: finite tables or single branches.
